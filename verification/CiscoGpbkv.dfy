/** Cisco GPB-KV field trees as JSON: a decoder recovers the tree, and exactly
    one kind of node makes the conversion lose structure. */
module CiscoGpbkv {
  import opened Json
  import opened Options

  /** The oneof of a telemetry field. */
  datatype TypedValue =
    | BytesValue(bytes: string)
    | StringValue(s: string)
    | BoolValue(b: bool)
    | Uint32Value(u32: nat)
    | Uint64Value(u64: nat)
    | Sint32Value(s32: int)
    | Sint64Value(s64: int)
    | DoubleValue(double: nat)
    | FloatValue(float: nat)

  datatype Field = Field(timestamp: nat, name: string, value: Option<TypedValue>, fields: seq<Field>, delete: bool)

  /** A field up to scalar type and the delete flag. */
  datatype Node = Node(timestamp: nat, name: string, value: Option<Json>, fields: seq<Node>)

  const TIMESTAMP := "timestamp"
  const FIELDS := "fields"
  const VALUE := "value"

  function Scalar(v: TypedValue): (j: Json)
    ensures IsScalar(j)
  {
    match v
    case BytesValue(s) => Str(s)
    case StringValue(s) => Str(s)
    case BoolValue(b) => Bool(b)
    case Uint32Value(n) => Int(n)
    case Uint64Value(n) => Int(n)
    case Sint32Value(n) => Int(n)
    case Sint64Value(n) => Int(n)
    case DoubleValue(bits) => Real(bits)
    case FloatValue(bits) => Real(bits)
  }

  predicate IsScalar(j: Json) {
    j.Str? || j.Bool? || j.Int? || j.Real?
  }

  function ScalarOf(v: Option<TypedValue>): Option<Json> {
    if v.Some? then Some(Scalar(v.value)) else None
  }

  function Erase(f: Field): Node {
    Node(f.timestamp, f.name, ScalarOf(f.value), EraseAll(f.fields))
  }

  function EraseAll(fs: seq<Field>): (ns: seq<Node>)
    ensures |ns| == |fs|
    ensures forall i :: 0 <= i < |fs| ==> ns[i] == Erase(fs[i])
  {
    if fs == [] then [] else [Erase(fs[0])] + EraseAll(fs[1..])
  }

  // ---------- What is to be recovered ----------

  /** The scalar says what the oneof said: the very text, truth value, number or
      bits; nothing for nothing. */
  predicate SameValue(v: Option<TypedValue>, j: Option<Json>) {
    match v
    case None => j == None
    case Some(BytesValue(s)) => j == Some(Str(s))
    case Some(StringValue(s)) => j == Some(Str(s))
    case Some(BoolValue(b)) => j == Some(Bool(b))
    case Some(Uint32Value(n)) => j == Some(Int(n))
    case Some(Uint64Value(n)) => j == Some(Int(n))
    case Some(Sint32Value(n)) => j == Some(Int(n))
    case Some(Sint64Value(n)) => j == Some(Int(n))
    case Some(DoubleValue(bits)) => j == Some(Real(bits))
    case Some(FloatValue(bits)) => j == Some(Real(bits))
  }

  /** n is the field: timestamp, name, value, and its children in order. */
  predicate Recovers(f: Field, n: Node)
    decreases f, 1
  {
    f.timestamp == n.timestamp && f.name == n.name && SameValue(f.value, n.value) && RecoversAll(f.fields, n.fields)
  }

  predicate RecoversAll(fs: seq<Field>, ns: seq<Node>)
    decreases fs, 0
  {
    |fs| == |ns| && (fs == [] || (Recovers(fs[0], ns[0]) && RecoversAll(fs[1..], ns[1..])))
  }

  /** A field named "timestamp" that carries nothing but a positive number. */
  predicate LooksLikeTimestamp(f: Field) {
    && f.name == "timestamp" && f.timestamp == 0 && f.fields == []
    && match f.value
       case Some(Uint32Value(n)) => n > 0
       case Some(Uint64Value(n)) => n > 0
       case Some(Sint32Value(n)) => n > 0
       case Some(Sint64Value(n)) => n > 0
       case _ => false
  }

  /** No field of the forest does. */
  predicate Unambiguous(fs: seq<Field>) {
    fs == [] || (!LooksLikeTimestamp(fs[0]) && Unambiguous(fs[0].fields) && Unambiguous(fs[1..]))
  }

  lemma SameValueIsScalar(v: Option<TypedValue>, j: Option<Json>)
    ensures SameValue(v, j) <==> j == ScalarOf(v)
  {
  }

  /** Erasing a field is exactly what recovers it. */
  lemma {:induction false} RecoversErased(f: Field, n: Node)
    ensures Recovers(f, n) <==> n == Erase(f)
    decreases f, 1
  {
    hide SameValue;
    SameValueIsScalar(f.value, n.value);
    RecoversAllErased(f.fields, n.fields);
  }

  lemma {:induction false} RecoversAllErased(fs: seq<Field>, ns: seq<Node>)
    ensures RecoversAll(fs, ns) <==> ns == EraseAll(fs)
    decreases fs, 0
  {
    hide Recovers, Erase;
    if |fs| == |ns| && fs != [] {
      RecoversErased(fs[0], ns[0]);
      RecoversAllErased(fs[1..], ns[1..]);
      assert EraseAll(fs)[1..] == EraseAll(fs[1..]);
      SameParts(EraseAll(fs), ns);
    }
  }

  lemma {:induction false} UnambiguousIsClear(fs: seq<Field>)
    ensures Unambiguous(fs) <==> ClearAll(EraseAll(fs))
    decreases fs
  {
    if fs != [] {
      UnambiguousIsClear(fs[0].fields);
      UnambiguousIsClear(fs[1..]);
      assert EraseAll(fs)[1..] == EraseAll(fs[1..]);
    }
  }

  /** What the JSON of a field holds, and where. */
  ghost predicate HoldsField(j: Json, f: Field)
    decreases f, 2
  {
    if f.timestamp == 0 && f.fields == [] then SameValue(f.value, if j == Null then None else Some(j))
    else
      && j.Obj?
      && var m := j.members;
         && m.Keys == (if f.timestamp != 0 then {"timestamp"} else {}) + (if f.fields != [] then {"fields"} else {})
                      + (if f.value.Some? then {"value"} else {})
         && (f.timestamp != 0 ==> "timestamp" in m && m["timestamp"] == Int(f.timestamp))
         && (f.fields != [] ==> "fields" in m && m["fields"].Arr? && HoldsAll(m["fields"].items, f.fields))
         && SameValue(f.value, if "value" in m then Some(m["value"]) else None)
  }

  /** A field with a name stands alone under it. */
  ghost predicate HoldsNamed(j: Json, f: Field)
    decreases f, 3
  {
    if f.name == "" then HoldsField(j, f)
    else j.Obj? && j.members.Keys == {f.name} && HoldsField(j.members[f.name], f)
  }

  ghost predicate HoldsAll(js: seq<Json>, fs: seq<Field>)
    decreases fs, 0
  {
    |js| == |fs| && (fs == [] || (HoldsNamed(js[0], fs[0]) && HoldsAll(js[1..], fs[1..])))
  }

  // ---------- Encoding ----------

  /** The members of a field's object apart from its value. */
  function Frame(n: Node): map<string, Json>
    decreases n, 1
  {
    (if n.timestamp != 0 then map[TIMESTAMP := Int(n.timestamp)] else map[]) +
    (if n.fields != [] then map[FIELDS := Arr(EncodeAll(n.fields))] else map[])
  }

  function ValueOrNull(v: Option<Json>): Json {
    if v.Some? then v.value else Null
  }

  /** A field without timestamp and children is its bare value. */
  function Encode(n: Node): Json
    decreases n, 2
  {
    var frame := Frame(n);
    if frame == map[] then ValueOrNull(n.value)
    else Obj(if n.value.Some? then frame[VALUE := n.value.value] else frame)
  }

  /** A child with a name is wrapped under it. */
  function Wrap(name: string, j: Json): Json {
    if name == "" then j else Obj(map[name := j])
  }

  function EncodeAll(ns: seq<Node>): (js: seq<Json>)
    ensures |js| == |ns|
    decreases ns, 0
  {
    if ns == [] then [] else [Wrap(ns[0].name, Encode(ns[0]))] + EncodeAll(ns[1..])
  }

  method FieldValue(field: Field) returns (value: Json)
    ensures value == ValueOrNull(ScalarOf(field.value))
  {
    value := Null;
    match field.value {
      case None =>
      case Some(BytesValue(s)) => value := Str(s);
      case Some(StringValue(s)) => value := Str(s);
      case Some(BoolValue(b)) => value := Bool(b);
      case Some(Uint32Value(n)) => value := Int(n);
      case Some(Uint64Value(n)) => value := Int(n);
      case Some(Sint32Value(n)) => value := Int(n);
      case Some(Sint64Value(n)) => value := Int(n);
      case Some(DoubleValue(bits)) => value := Real(bits);
      case Some(FloatValue(bits)) => value := Real(bits);
    }
  }

  /** The conversion as the collector does it: children first, in a loop. */
  method Field2Json(field: Field) returns (root: Json)
    ensures root == Encode(Erase(field)) && HoldsField(root, field)
    ensures Recovers(field, Decode(field.name, root)) <==> Unambiguous(field.fields)
    decreases field
  {
    hide HoldsField, Recovers, Unambiguous, Decode;
    FieldIsHeld(field);
    FieldIsRecovered(field);
    var subFields: seq<Json> := [];
    ghost var nodes := EraseAll(field.fields);
    assert nodes[..0] == [];
    for i := 0 to |field.fields|
      invariant subFields == EncodeAll(nodes[..i])
    {
      var sub := field.fields[i];
      var subValue := Field2Json(sub);
      EncodeLast(nodes[..i], nodes[i]);
      assert nodes[..i + 1] == nodes[..i] + [nodes[i]];
      if |sub.name| == 0 {
        subFields := subFields + [subValue];
      } else {
        subFields := subFields + [Obj(map[sub.name := subValue])];
      }
    }
    assert nodes[..|field.fields|] == nodes;

    var value := FieldValue(field);
    var members: map<string, Json> := map[];
    if field.timestamp != 0 {
      members := members[TIMESTAMP := Int(field.timestamp)];
    }
    if subFields != [] {
      members := members[FIELDS := Arr(subFields)];
    }
    assert members == Frame(Erase(field));
    if members != map[] {
      if value != Null {
        members := members[VALUE := value];
      }
      root := Obj(members);
    } else {
      root := value;
    }
  }

  /** The top-level rows of a message; null when there is none. */
  function Data(ns: seq<Node>): Json {
    if ns == [] then Null else Arr(EncodeAll(ns))
  }

  /** The `data_gpbkv` member of a converted message. */
  method DataGpbkv(data: seq<Field>) returns (gpbkv: Json)
    ensures gpbkv == Data(EraseAll(data))
    ensures if data == [] then gpbkv == Null else gpbkv.Arr? && HoldsAll(gpbkv.items, data)
    ensures RecoversAll(data, DecodeData(gpbkv)) <==> Unambiguous(data)
  {
    var items: seq<Json> := [];
    ghost var nodes := EraseAll(data);
    assert EncodeAll([]) == [] && nodes[..0] == [];
    hide RecoversAll, Unambiguous, DecodeData, EncodeAll, Encode, Erase, HoldsAll, Data;
    for i := 0 to |data|
      invariant items == EncodeAll(nodes[..i])
    {
      var value := Field2Json(data[i]);
      EncodeLast(nodes[..i], nodes[i]);
      assert nodes[..i + 1] == nodes[..i] + [nodes[i]];
      NameIsKept(data[i]);
      if data[i].name == "" {
        items := items + [value];
      } else {
        items := items + [Obj(map[data[i].name := value])];
      }
    }
    assert nodes[..|data|] == nodes;
    gpbkv := if items == [] then Null else Arr(items);
    DataIsHeld(data);
    DataIsRecovered(data);
  }

  lemma DataIsHeld(data: seq<Field>)
    ensures var js := EncodeAll(EraseAll(data));
      && Data(EraseAll(data)) == (if js == [] then Null else Arr(js))
      && HoldsAll(js, data) && (js == [] <==> data == [])
  {
    AllAreHeld(data);
  }

  lemma NameIsKept(f: Field)
    ensures Erase(f).name == f.name
  {
  }

  lemma {:induction false} EncodeLast(ns: seq<Node>, n: Node)
    ensures EncodeAll(ns + [n]) == EncodeAll(ns) + [Wrap(n.name, Encode(n))]
  {
    if ns == [] {
      assert [] + [n] == [n] && [n][1..] == [];
    } else {
      EncodeLast(ns[1..], n);
      assert (ns + [n])[1..] == ns[1..] + [n];
    }
  }

  // ---------- Decoding ----------

  /** An object that stands for a field rather than for a named child. */
  predicate IsFrame(m: map<string, Json>) {
    || (TIMESTAMP in m && m[TIMESTAMP].Int? && m[TIMESTAMP].n > 0)
    || (FIELDS in m && m[FIELDS].Arr?)
  }

  /** An object that stands for a child of that name. */
  ghost predicate NamesOnly(m: map<string, Json>, name: string) {
    m.Keys == {name} && !IsFrame(m)
  }

  ghost function Decode(name: string, j: Json): Node
    decreases j, 1
  {
    if j.Obj? then
      var m := j.members;
      Node(
        if TIMESTAMP in m && m[TIMESTAMP].Int? && m[TIMESTAMP].n > 0 then m[TIMESTAMP].n else 0,
        name,
        if VALUE in m then Some(m[VALUE]) else None,
        if FIELDS in m && m[FIELDS].Arr? then DecodeAll(m[FIELDS].items) else [])
    else Node(0, name, if j == Null then None else Some(j), [])
  }

  ghost function DecodeElement(j: Json): Node
    decreases j, 2
  {
    if j.Obj? && exists name :: NamesOnly(j.members, name) then
      var name :| NamesOnly(j.members, name);
      Decode(name, j.members[name])
    else Decode("", j)
  }

  ghost function DecodeAll(js: seq<Json>): seq<Node>
    decreases js, 0
  {
    if js == [] then [] else [DecodeElement(js[0])] + DecodeAll(js[1..])
  }

  // ---------- What is lost ----------

  /** A child named "timestamp" that carries nothing but a positive number looks
      like the timestamp of an unnamed child. */
  predicate Ambiguous(n: Node) {
    n.name == TIMESTAMP && n.timestamp == 0 && n.fields == []
    && n.value.Some? && n.value.value.Int? && n.value.value.n > 0
  }

  predicate Clear(n: Node)
    decreases n, 1
  {
    ClearAll(n.fields)
  }

  predicate ClearAll(ns: seq<Node>)
    decreases ns, 0
  {
    ns == [] || (!Ambiguous(ns[0]) && Clear(ns[0]) && ClearAll(ns[1..]))
  }

  /** Values are scalars, as erasing a field makes them. */
  predicate Proper(n: Node)
    decreases n, 1
  {
    (n.value.Some? ==> IsScalar(n.value.value)) && ProperAll(n.fields)
  }

  predicate ProperAll(ns: seq<Node>)
    decreases ns, 0
  {
    ns == [] || (Proper(ns[0]) && ProperAll(ns[1..]))
  }

  lemma EncodingIsFrame(n: Node)
    requires Proper(n)
    ensures Encode(n).Obj? <==> n.timestamp != 0 || n.fields != []
    ensures Encode(n).Obj? ==> IsFrame(Encode(n).members)
    ensures !Encode(n).Arr?
  {
    var frame := Frame(n);
    assert |VALUE| != |TIMESTAMP| && |VALUE| != |FIELDS| && |TIMESTAMP| != |FIELDS|;
    assert n.timestamp != 0 ==> TIMESTAMP in frame && frame[TIMESTAMP] == Int(n.timestamp);
    assert n.fields != [] ==> FIELDS in frame && frame[FIELDS].Arr?;
  }

  /** A named child is told from an unnamed one unless it is ambiguous. */
  lemma WrappedIsNamed(n: Node)
    requires Proper(n) && n.name != ""
    ensures Wrap(n.name, Encode(n)).Obj?
    ensures NamesOnly(Wrap(n.name, Encode(n)).members, n.name) <==> !Ambiguous(n)
  {
    EncodingIsFrame(n);
    var m := map[n.name := Encode(n)];
    assert m.Keys == {n.name};
    assert Wrap(n.name, Encode(n)) == Obj(m);
    assert IsFrame(m) <==> n.name == TIMESTAMP && Encode(n).Int? && Encode(n).n > 0;
    if n.timestamp == 0 && n.fields == [] {
      assert Encode(n) == ValueOrNull(n.value);
    }
  }

  /** What an ambiguous node is mistaken for. */
  function Mistaken(n: Node): Node
    requires Ambiguous(n)
  {
    Node(n.value.value.n, "", None, [])
  }

  /** The tree with every ambiguous node below replaced. */
  function Corrected(n: Node): Node
    decreases n, 1
  {
    n.(fields := CorrectedAll(n.fields))
  }

  function CorrectedAll(ns: seq<Node>): (r: seq<Node>)
    ensures |r| == |ns|
    decreases ns, 0
  {
    if ns == [] then []
    else [if Ambiguous(ns[0]) then Mistaken(ns[0]) else Corrected(ns[0])] + CorrectedAll(ns[1..])
  }

  /** Correction is the identity exactly on the trees without ambiguous node. */
  lemma {:induction false} CorrectedIsSame(n: Node)
    ensures Corrected(n) == n <==> Clear(n)
    decreases n, 1
  {
    CorrectedAreSame(n.fields);
  }

  lemma {:induction false} CorrectedAreSame(ns: seq<Node>)
    ensures CorrectedAll(ns) == ns <==> ClearAll(ns)
    decreases ns, 0
  {
    if ns != [] {
      CorrectedIsSame(ns[0]);
      CorrectedAreSame(ns[1..]);
      CorrectedFront(ns);
      hide Corrected, CorrectedAll, Clear;
      SameParts(CorrectedAll(ns), ns);
      if Ambiguous(ns[0]) {
        assert Mistaken(ns[0]).name == "" != ns[0].name;
      }
    }
  }

  lemma CorrectedFront(ns: seq<Node>)
    requires ns != []
    ensures CorrectedAll(ns)[1..] == CorrectedAll(ns[1..])
    ensures CorrectedAll(ns)[0] == if Ambiguous(ns[0]) then Mistaken(ns[0]) else Corrected(ns[0])
  {
    hide Corrected, Ambiguous, Mistaken;
  }

  lemma SameParts(a: seq<Node>, b: seq<Node>)
    requires |a| == |b| > 0
    ensures a == b <==> a[0] == b[0] && a[1..] == b[1..]
  {
    assert a == [a[0]] + a[1..] && b == [b[0]] + b[1..];
  }

  lemma MistakenLooksTheSame(n: Node)
    requires Ambiguous(n)
    ensures Wrap(n.name, Encode(n)) == Encode(Mistaken(n))
    ensures DecodeElement(Wrap(n.name, Encode(n))) == Mistaken(n)
  {
    assert Frame(n) == map[];
    assert Frame(Mistaken(n)) == map[TIMESTAMP := n.value.value];
    var m := map[TIMESTAMP := n.value.value];
    assert IsFrame(m);
  }

  /** Correction does not change the JSON. */
  lemma {:induction false} CorrectedLooksTheSame(n: Node)
    ensures Encode(Corrected(n)) == Encode(n)
    decreases n, 1
  {
    CorrectedLookTheSame(n.fields);
    assert Frame(Corrected(n)) == Frame(n);
  }

  lemma {:induction false} CorrectedLookTheSame(ns: seq<Node>)
    ensures EncodeAll(CorrectedAll(ns)) == EncodeAll(ns)
    decreases ns, 0
  {
    if ns != [] {
      CorrectedLookTheSame(ns[1..]);
      assert CorrectedAll(ns)[1..] == CorrectedAll(ns[1..]);
      if Ambiguous(ns[0]) {
        MistakenLooksTheSame(ns[0]);
      } else {
        CorrectedLooksTheSame(ns[0]);
      }
    }
  }

  lemma DecodeElementIs(n: Node)
    requires Proper(n) && !Ambiguous(n) && Decode(n.name, Encode(n)) == Corrected(n)
    ensures DecodeElement(Wrap(n.name, Encode(n))) == Corrected(n)
  {
    EncodingIsFrame(n);
    var j := Wrap(n.name, Encode(n));
    if n.name != "" {
      WrappedIsNamed(n);
      assert forall name :: NamesOnly(j.members, name) ==> name in j.members.Keys;
    }
  }

  /** Decoding recovers the tree with ambiguous nodes corrected: child order,
      nesting, names and zero timestamps included. */
  lemma {:induction false} DecodeCorrects(n: Node)
    requires Proper(n)
    ensures Decode(n.name, Encode(n)) == Corrected(n)
    decreases n, 1
  {
    hide IsFrame, EncodeAll, DecodeAll, CorrectedAll, ProperAll, Encode, Decode;
    DecodeCorrectsAll(n.fields);
    EncodingIsFrame(n);
    EncodedMembers(n);
    DecodeParts(n.name, Encode(n));
  }

  /** What the JSON of a field holds under the three names. */
  lemma EncodedMembers(n: Node)
    requires Proper(n)
    ensures !Encode(n).Obj? ==> Encode(n) == ValueOrNull(n.value) && n.timestamp == 0 && n.fields == []
    ensures Encode(n).Obj? ==>
      var m := Encode(n).members;
      && (if n.timestamp != 0 then TIMESTAMP in m && m[TIMESTAMP] == Int(n.timestamp) else TIMESTAMP !in m)
      && (if n.fields != [] then FIELDS in m && m[FIELDS] == Arr(EncodeAll(n.fields)) else FIELDS !in m)
      && (if n.value.Some? then VALUE in m && m[VALUE] == n.value.value else VALUE !in m)
  {
    hide EncodeAll, ProperAll;
    assert |VALUE| != |TIMESTAMP| && |VALUE| != |FIELDS| && |TIMESTAMP| != |FIELDS|;
    var frame := Frame(n);
    assert n.timestamp != 0 ==> TIMESTAMP in frame;
    assert n.fields != [] ==> FIELDS in frame;
    assert VALUE !in frame;
  }

  lemma DecodeParts(name: string, j: Json)
    ensures j.Obj? ==> Decode(name, j) == Node(
        if TIMESTAMP in j.members && j.members[TIMESTAMP].Int? && j.members[TIMESTAMP].n > 0
        then j.members[TIMESTAMP].n else 0,
        name,
        if VALUE in j.members then Some(j.members[VALUE]) else None,
        if FIELDS in j.members && j.members[FIELDS].Arr? then DecodeAll(j.members[FIELDS].items) else [])
    ensures !j.Obj? ==> Decode(name, j) == Node(0, name, if j == Null then None else Some(j), [])
  {
    hide DecodeAll;
  }

  lemma {:induction false} DecodeCorrectsAll(ns: seq<Node>)
    requires ProperAll(ns)
    ensures DecodeAll(EncodeAll(ns)) == CorrectedAll(ns)
    decreases ns, 0
  {
    if ns != [] {
      DecodeCorrects(ns[0]);
      DecodeCorrectsAll(ns[1..]);
      assert EncodeAll(ns)[1..] == EncodeAll(ns[1..]);
      if Ambiguous(ns[0]) {
        MistakenLooksTheSame(ns[0]);
      } else {
        DecodeElementIs(ns[0]);
      }
    }
  }

  // ---------- The collector's own trees ----------

  lemma {:induction false} ErasedIsProper(f: Field)
    ensures Proper(Erase(f))
    decreases f, 1
  {
    ErasedAreProper(f.fields);
  }

  lemma {:induction false} ErasedAreProper(fs: seq<Field>)
    ensures ProperAll(EraseAll(fs))
    decreases fs, 0
  {
    if fs != [] {
      ErasedIsProper(fs[0]);
      ErasedAreProper(fs[1..]);
    }
  }

  ghost function DecodeData(j: Json): seq<Node> {
    if j.Arr? then DecodeAll(j.items) else []
  }

  /** The rows of a message are recovered exactly when no node is ambiguous. */
  lemma DataIsKept(data: seq<Field>)
    ensures DecodeData(Data(EraseAll(data))) == EraseAll(data) <==> ClearAll(EraseAll(data))
  {
    ErasedAreProper(data);
    DecodeCorrectsAll(EraseAll(data));
    CorrectedAreSame(EraseAll(data));
  }

  lemma {:induction false} FieldIsHeld(f: Field)
    ensures HoldsField(Encode(Erase(f)), f)
    decreases f, 1
  {
    ErasedIsProper(f);
    EncodedMembers(Erase(f));
    SameValueIsScalar(f.value, ScalarOf(f.value));
    AllAreHeld(f.fields);
    hide SameValue, ProperAll, Scalar, HoldsAll;
    var n := Erase(f);
    assert |VALUE| != |TIMESTAMP| && |VALUE| != |FIELDS| && |TIMESTAMP| != |FIELDS|;
    if Encode(n).Obj? {
      EncodedKeys(n);
    }
  }

  lemma {:induction false} AllAreHeld(fs: seq<Field>)
    ensures HoldsAll(EncodeAll(EraseAll(fs)), fs)
    decreases fs, 0
  {
    if fs != [] {
      FieldIsHeld(fs[0]);
      AllAreHeld(fs[1..]);
      var ns := EraseAll(fs);
      assert ns[1..] == EraseAll(fs[1..]);
      assert EncodeAll(ns)[1..] == EncodeAll(ns[1..]);
      hide HoldsField, Encode, Erase;
      NameIsKept(fs[0]);
      assert EncodeAll(ns)[0] == Wrap(fs[0].name, Encode(ns[0]));
    }
  }

  lemma EncodedKeys(n: Node)
    requires Proper(n) && Encode(n).Obj?
    ensures Encode(n).members.Keys == (if n.timestamp != 0 then {TIMESTAMP} else {})
      + (if n.fields != [] then {FIELDS} else {}) + (if n.value.Some? then {VALUE} else {})
  {
    hide EncodeAll, ProperAll;
    EncodingIsFrame(n);
    assert Frame(n).Keys == (if n.timestamp != 0 then {TIMESTAMP} else {}) + (if n.fields != [] then {FIELDS} else {});
  }

  /** A converted field is decoded to itself exactly when nothing below it looks
      like a timestamp. */
  lemma FieldIsRecovered(f: Field)
    ensures Recovers(f, Decode(f.name, Encode(Erase(f)))) <==> Unambiguous(f.fields)
  {
    hide Recovers, Decode, Encode, Unambiguous, Proper;
    var n := Erase(f);
    ErasedIsProper(f);
    DecodeCorrects(n);
    CorrectedIsSame(n);
    RecoversErased(f, Corrected(n));
    UnambiguousIsClear(f.fields);
  }

  /** The rows of a message are decoded to the very fields, value for value,
      exactly when none of them looks like a timestamp. */
  lemma DataIsRecovered(data: seq<Field>)
    ensures RecoversAll(data, DecodeData(Data(EraseAll(data)))) <==> Unambiguous(data)
  {
    hide RecoversAll, Unambiguous, DecodeData, Data;
    RecoversAllErased(data, DecodeData(Data(EraseAll(data))));
    DataIsKept(data);
    UnambiguousIsClear(data);
  }

  /** Two messages have the same JSON rows exactly when they differ in scalar
      types, delete flags and ambiguous nodes only. */
  lemma DataCollides(data: seq<Field>, other: seq<Field>)
    ensures Data(EraseAll(data)) == Data(EraseAll(other))
       <==> CorrectedAll(EraseAll(data)) == CorrectedAll(EraseAll(other))
  {
    var ns, ms := EraseAll(data), EraseAll(other);
    ErasedAreProper(data);
    ErasedAreProper(other);
    DecodeCorrectsAll(ns);
    DecodeCorrectsAll(ms);
    CorrectedLookTheSame(ns);
    CorrectedLookTheSame(ms);
  }

  predicate AvoidsReserved(n: Node)
    decreases n, 1
  {
    AllAvoidReserved(n.fields)
  }

  predicate AllAvoidReserved(ns: seq<Node>)
    decreases ns, 0
  {
    ns == [] ||
    (ns[0].name != TIMESTAMP && ns[0].name != FIELDS && ns[0].name != VALUE
     && AvoidsReserved(ns[0]) && AllAvoidReserved(ns[1..]))
  }

  lemma {:induction false} AvoidingIsClear(ns: seq<Node>)
    requires AllAvoidReserved(ns)
    ensures ClearAll(ns)
    decreases ns
  {
    if ns != [] {
      AvoidingIsClear(ns[0].fields);
      AvoidingIsClear(ns[1..]);
    }
  }

  /** In particular nothing is lost when no name is one of the member names the
      conversion uses itself. */
  lemma UnreservedNamesLoseNothing(data: seq<Field>)
    requires AllAvoidReserved(EraseAll(data))
    ensures DecodeData(Data(EraseAll(data))) == EraseAll(data)
  {
    AvoidingIsClear(EraseAll(data));
    DataIsKept(data);
  }
}
