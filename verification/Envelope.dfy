/** The delivery envelope: the one-pass builder against the two-parse pipeline
    it replaces. The JSON library, number parsing and the clock are parameters. */
module Envelope {
  import opened Json
  import opened Options

  const TWO_TO_THE_64 := 0x1_0000_0000_0000_0000
  const TWO_TO_THE_16 := 0x1_0000

  /** A JSON parser (None is a parse error), a JSON writer, and std::stoi (None
      is an exception). */
  datatype Library = Library(parse: string -> Option<Json>, write: Json -> string, stoi: string -> Option<int>)

  ghost predicate ParserInvertsWriter(lib: Library) {
    forall j :: lib.parse(lib.write(j)) == Some(j)
  }

  type LabelMap = map<string, seq<string>>

  /** What one call receives besides the text. */
  datatype Context = Context(peerIp: string, peerPort: string, writerId: string, now: int)

  /** A call returns true with a text, returns false, or throws. */
  datatype Outcome = Done(out: string) | Refused | Thrown

  // ---------- The envelope, on values ----------

  /** The members every envelope has. */
  function Header(c: Context, seqNo: nat, port: int, data: Json): map<string, Json> {
    map[
      "event_type" := Str("gRPC"),
      "serialization" := Str("json_string"),
      "seq" := Int(seqNo),
      "timestamp" := Int(c.now),
      "writer_id" := Str(c.writerId),
      "telemetry_node" := Str(c.peerIp),
      "telemetry_port" := Int(port % TWO_TO_THE_16),
      "telemetry_data" := data]
  }

  /** The label of a peer; None is the exception of an entry without two texts. */
  function Label(labels: LabelMap, ip: string): Option<Json> {
    if ip !in labels then Some(Obj(map["node_id" := Str("unknown"), "platform_id" := Str("unknown")]))
    else if |labels[ip]| < 2 then None
    else Some(Obj(map["nkey" := Str(labels[ip][0]), "pkey" := Str(labels[ip][1])]))
  }

  /** The payload: parsed, or the text itself. */
  function Payload(lib: Library, body: string): Json {
    match lib.parse(body)
    case Some(j) => j
    case None => Str(body)
  }

  function Built(lib: Library, body: string, c: Context, labels: Option<LabelMap>, seqNo: nat): Outcome {
    if lib.stoi(c.peerPort) == None then Thrown
    else
      var header := Header(c, seqNo, lib.stoi(c.peerPort).value, Payload(lib, body));
      if labels == None then Done(lib.write(Obj(header)))
      else if Label(labels.value, c.peerIp) == None then Thrown
      else Done(lib.write(Obj(header["label" := Label(labels.value, c.peerIp).value])))
  }

  // ---------- The pipeline, on values ----------

  /** Clearing and then indexing a parsed root works for objects and null only. */
  predicate Rebuildable(j: Json) {
    j.Obj? || j.Null?
  }

  /** What a failed parse of the empty text leaves behind is null. */
  function ParsedOrNull(lib: Library, text: string): Json {
    match lib.parse(text)
    case Some(j) => j
    case None => Null
  }

  function WithMeta(lib: Library, body: string, c: Context, seqNo: nat): Outcome {
    if lib.parse(body) == None && body != "" then Refused
    else if !Rebuildable(ParsedOrNull(lib, body)) || lib.stoi(c.peerPort) == None then Thrown
    else Done(lib.write(Obj(Header(c, seqNo, lib.stoi(c.peerPort).value, ParsedOrNull(lib, body)))))
  }

  function WithLabel(lib: Library, labels: LabelMap, ip: string, text: string): Outcome {
    if lib.parse(text) == None && text != "" then Refused
    else
      var tag, root := Label(labels, ip), ParsedOrNull(lib, text);
      if tag == None || !Rebuildable(root) then Thrown
      else
        var members := if root.Obj? then root.members else map[];
        Done(lib.write(Obj(members["label" := tag.value])))
  }

  function Pipeline(lib: Library, body: string, c: Context, labels: LabelMap, seqNo: nat): Outcome {
    match WithMeta(lib, body, c, seqNo)
    case Done(text) => WithLabel(lib, labels, c.peerIp, text)
    case other => other
  }

  /** One call of the builder: text, peer, writer id, clock and labels. */
  datatype Call = Call(body: string, context: Context, labels: Option<LabelMap>)

  function BuiltBy(lib: Library, call: Call, seqNo: nat): Outcome {
    Built(lib, call.body, call.context, call.labels, seqNo)
  }

  // ---------- The documents, member by member ----------

  /** Every envelope has eight members, and a label only with a label map. */
  ghost predicate HasMembers(m: map<string, Json>, labelled: bool) {
    m.Keys == {"event_type", "serialization", "seq", "timestamp", "writer_id",
               "telemetry_node", "telemetry_port", "telemetry_data"} + if labelled then {"label"} else {}
  }

  /** Who sent what, when, and under which number; `port` is the peer's. */
  ghost predicate SaysWho(m: map<string, Json>, c: Context, port: int, seqNo: nat) {
    && "event_type" in m && m["event_type"] == Str("gRPC")
    && "serialization" in m && m["serialization"] == Str("json_string")
    && "seq" in m && m["seq"] == Int(seqNo)
    && "timestamp" in m && m["timestamp"] == Int(c.now)
    && "writer_id" in m && m["writer_id"] == Str(c.writerId)
    && "telemetry_node" in m && m["telemetry_node"] == Str(c.peerIp)
    && "telemetry_port" in m && m["telemetry_port"] == Int(port % 65536)
  }

  /** A known peer is labelled with the two texts of its entry. */
  ghost predicate IsLabel(j: Json, labels: LabelMap, ip: string) {
    && j.Obj?
    && if ip in labels then
         |labels[ip]| >= 2 && j.members == map["nkey" := Str(labels[ip][0]), "pkey" := Str(labels[ip][1])]
       else
         j.members == map["node_id" := Str("unknown"), "platform_id" := Str("unknown")]
  }

  /** The whole document, as a reader of the output sees it. */
  ghost predicate IsEnvelope(lib: Library, out: string, c: Context, labels: Option<LabelMap>, data: Json, seqNo: nat) {
    && lib.parse(out).Some? && lib.parse(out).value.Obj? && lib.stoi(c.peerPort).Some?
    && var m := lib.parse(out).value.members;
       && HasMembers(m, labels.Some?) && SaysWho(m, c, lib.stoi(c.peerPort).value, seqNo)
       && "telemetry_data" in m && m["telemetry_data"] == data
       && (labels.Some? ==> "label" in m && IsLabel(m["label"], labels.value, c.peerIp))
  }

  /** A call can deliver if the port is a number and the entry of the peer, if it
      has one, holds two texts. */
  predicate CanDeliver(lib: Library, c: Context, labels: Option<LabelMap>) {
    lib.stoi(c.peerPort).Some?
    && (labels.Some? && c.peerIp in labels.value ==> |labels.value[c.peerIp]| >= 2)
  }

  /** What a caller of the builder gets. */
  ghost predicate Delivers(lib: Library, body: string, c: Context, labels: Option<LabelMap>, seqNo: nat, r: Outcome) {
    var data := match lib.parse(body) case Some(j) => j case None => Str(body);
    if CanDeliver(lib, c, labels) then r.Done? && IsEnvelope(lib, r.out, c, labels, data, seqNo) else r == Thrown
  }

  /** What a caller of the first stage gets. */
  ghost predicate DeliversMeta(lib: Library, body: string, c: Context, seqNo: nat, r: Outcome) {
    match lib.parse(body)
    case Some(j) =>
      if (j.Obj? || j.Null?) && lib.stoi(c.peerPort).Some?
      then r.Done? && IsEnvelope(lib, r.out, c, None, j, seqNo) else r == Thrown
    case None =>
      if body != "" then r == Refused
      else if lib.stoi(c.peerPort).Some? then r.Done? && IsEnvelope(lib, r.out, c, None, Null, seqNo)
      else r == Thrown
  }

  /** What a caller of the second stage gets. */
  ghost predicate DeliversLabel(lib: Library, labels: LabelMap, ip: string, text: string, r: Outcome) {
    && (r == Refused <==> lib.parse(text) == None && text != "")
    && (r.Done? <==>
          && (if lib.parse(text).Some? then lib.parse(text).value.Obj? || lib.parse(text).value.Null? else text == "")
          && (ip in labels ==> |labels[ip]| >= 2))
    && (r.Done? ==>
          && lib.parse(r.out).Some? && lib.parse(r.out).value.Obj?
          && var m := lib.parse(r.out).value.members;
             && "label" in m && IsLabel(m["label"], labels, ip)
             && m - {"label"} ==
                (if lib.parse(text).Some? && lib.parse(text).value.Obj? then lib.parse(text).value.members else map[])
                - {"label"})
  }

  lemma HeaderSays(c: Context, seqNo: nat, port: int, data: Json)
    ensures var m := Header(c, seqNo, port, data);
      HasMembers(m, false) && SaysWho(m, c, port, seqNo) && m["telemetry_data"] == data && "label" !in m
  {
    assert |"label"| == 5 && "label"[0] == 'l';
  }

  lemma LabelIsRight(labels: LabelMap, ip: string)
    ensures Label(labels, ip).Some? <==> (ip in labels ==> |labels[ip]| >= 2)
    ensures Label(labels, ip).Some? ==> IsLabel(Label(labels, ip).value, labels, ip)
  {
  }

  lemma LabelledSays(m: map<string, Json>, c: Context, seqNo: nat, port: int, tag: Json)
    requires HasMembers(m, false) && SaysWho(m, c, port, seqNo) && "label" !in m
    ensures HasMembers(m["label" := tag], true) && SaysWho(m["label" := tag], c, port, seqNo)
    ensures m["label" := tag]["telemetry_data"] == m["telemetry_data"]
  {
    assert m["label" := tag].Keys == m.Keys + {"label"};
  }

  /** The builder delivers exactly if it can, and then the envelope says who sent
      what under which number, with the parsed body or else its text, and the
      label of the peer. */
  lemma BuiltIsEnvelope(lib: Library, body: string, c: Context, labels: Option<LabelMap>, seqNo: nat)
    requires ParserInvertsWriter(lib)
    ensures Delivers(lib, body, c, labels, seqNo, Built(lib, body, c, labels, seqNo))
  {
    hide HasMembers, SaysWho, Header, IsLabel;
    if labels.Some? {
      LabelIsRight(labels.value, c.peerIp);
    }
    hide Label;
    if lib.stoi(c.peerPort).Some? {
      var port, data := lib.stoi(c.peerPort).value, Payload(lib, body);
      HeaderSays(c, seqNo, port, data);
      var m := Header(c, seqNo, port, data);
      assert lib.parse(lib.write(Obj(m))) == Some(Obj(m));
      if labels.Some? && Label(labels.value, c.peerIp).Some? {
        var tag := Label(labels.value, c.peerIp).value;
        LabelledSays(m, c, seqNo, port, tag);
        assert lib.parse(lib.write(Obj(m["label" := tag]))) == Some(Obj(m["label" := tag]));
      }
    }
  }

  /** The first stage refuses text that does not parse, throws for scalars and
      arrays and for a bad port, and otherwise delivers the same envelope; the
      empty text counts as null. */
  lemma MetaIsEnvelope(lib: Library, body: string, c: Context, seqNo: nat)
    requires ParserInvertsWriter(lib)
    ensures DeliversMeta(lib, body, c, seqNo, WithMeta(lib, body, c, seqNo))
  {
    if lib.stoi(c.peerPort).Some? {
      var m := Header(c, seqNo, lib.stoi(c.peerPort).value, ParsedOrNull(lib, body));
      HeaderSays(c, seqNo, lib.stoi(c.peerPort).value, ParsedOrNull(lib, body));
      hide HasMembers, SaysWho, Header;
      assert lib.parse(lib.write(Obj(m))) == Some(Obj(m));
    }
  }

  /** The second stage keeps every member of the text and sets the label. */
  lemma LabelIsAdded(lib: Library, labels: LabelMap, ip: string, text: string)
    requires ParserInvertsWriter(lib)
    ensures DeliversLabel(lib, labels, ip, text, WithLabel(lib, labels, ip, text))
  {
    var r := WithLabel(lib, labels, ip, text);
    if r.Done? {
      var root := ParsedOrNull(lib, text);
      var members := if root.Obj? then root.members else map[];
      var tag := Label(labels, ip).value;
      assert lib.parse(r.out) == Some(Obj(members["label" := tag]));
      assert members["label" := tag] - {"label"} == members - {"label"};
    }
  }

  // ---------- The code ----------

  class DataManipulation {
    var sequenceNumber: nat

    ghost predicate Valid()
      reads this
    {
      sequenceNumber < TWO_TO_THE_64
    }

    constructor ()
      ensures Valid() && sequenceNumber == 0
    {
      sequenceNumber := 0;
    }

    method SetSequenceNumber()
      requires Valid()
      modifies this
      ensures Valid() && sequenceNumber == (old(sequenceNumber) + 1) % TWO_TO_THE_64
    {
      sequenceNumber := if sequenceNumber + 1 == TWO_TO_THE_64 then 0 else sequenceNumber + 1;
    }

    method BuildEnvelope(lib: Library, body: string, c: Context, labels: Option<LabelMap>) returns (r: Outcome)
      requires Valid()
      modifies this
      ensures Valid() && sequenceNumber == (old(sequenceNumber) + 1) % TWO_TO_THE_64
      ensures r == Built(lib, body, c, labels, sequenceNumber)
      ensures ParserInvertsWriter(lib) ==> Delivers(lib, body, c, labels, sequenceNumber, r)
    {
      hide Delivers;
      SetSequenceNumber();
      if ParserInvertsWriter(lib) {
        BuiltIsEnvelope(lib, body, c, labels, sequenceNumber);
      }
      var root: map<string, Json> := map[];
      root := root["event_type" := Str("gRPC")];
      root := root["serialization" := Str("json_string")];
      root := root["seq" := Int(sequenceNumber)];
      root := root["timestamp" := Int(c.now)];
      root := root["writer_id" := Str(c.writerId)];
      root := root["telemetry_node" := Str(c.peerIp)];
      var port := lib.stoi(c.peerPort);
      if port == None {
        return Thrown;
      }
      root := root["telemetry_port" := Int(port.value % TWO_TO_THE_16)];
      var parsed := lib.parse(body);
      if parsed.Some? {
        root := root["telemetry_data" := parsed.value];
      } else {
        root := root["telemetry_data" := Str(body)];
      }
      assert root == Header(c, sequenceNumber, port.value, Payload(lib, body));
      if labels.Some? {
        var tag := Label(labels.value, c.peerIp);
        if tag == None {
          return Thrown;
        }
        root := root["label" := tag.value];
      }
      return Done(lib.write(Obj(root)));
    }

    /** The number is drawn only once the text has parsed to something that can
        be cleared. */
    method MetaData(lib: Library, body: string, c: Context) returns (r: Outcome)
      requires Valid()
      modifies this
      ensures Valid()
      ensures r == WithMeta(lib, body, c, sequenceNumber)
      ensures var drawn := match lib.parse(body)
          case Some(j) => j.Obj? || j.Null? || j.Arr?
          case None => body == "";
        sequenceNumber == if drawn then (old(sequenceNumber) + 1) % TWO_TO_THE_64 else old(sequenceNumber)
      ensures ParserInvertsWriter(lib) ==> DeliversMeta(lib, body, c, sequenceNumber, r)
    {
      hide DeliversMeta;
      if ParserInvertsWriter(lib) {
        MetaIsEnvelope(lib, body, c, sequenceNumber);
        MetaIsEnvelope(lib, body, c, (sequenceNumber + 1) % TWO_TO_THE_64);
      }
      var parsed := lib.parse(body);
      if parsed == None && body != "" {
        return Refused;
      }
      var telemetry := if parsed.Some? then parsed.value else Null;
      if !Rebuildable(telemetry) && !telemetry.Arr? {
        return Thrown;
      }
      SetSequenceNumber();
      if telemetry.Arr? {
        return Thrown;
      }
      var root: map<string, Json> := map[];
      root := root["event_type" := Str("gRPC")];
      root := root["serialization" := Str("json_string")];
      root := root["seq" := Int(sequenceNumber)];
      root := root["timestamp" := Int(c.now)];
      root := root["writer_id" := Str(c.writerId)];
      root := root["telemetry_data" := telemetry];
      root := root["telemetry_node" := Str(c.peerIp)];
      var port := lib.stoi(c.peerPort);
      if port == None {
        return Thrown;
      }
      root := root["telemetry_port" := Int(port.value % TWO_TO_THE_16)];
      assert root == Header(c, sequenceNumber, port.value, telemetry);
      return Done(lib.write(Obj(root)));
    }

    method AppendLabelMap(lib: Library, labels: LabelMap, ip: string, text: string) returns (r: Outcome)
      ensures r == WithLabel(lib, labels, ip, text)
      ensures ParserInvertsWriter(lib) ==> DeliversLabel(lib, labels, ip, text, r)
    {
      hide DeliversLabel;
      if ParserInvertsWriter(lib) {
        LabelIsAdded(lib, labels, ip, text);
      }
      var parsed := lib.parse(text);
      if parsed == None && text != "" {
        return Refused;
      }
      var tag := Label(labels, ip);
      if tag == None {
        return Thrown;
      }
      var root := if parsed.Some? then parsed.value else Null;
      if !Rebuildable(root) {
        return Thrown;
      }
      var members := if root.Obj? then root.members else map[];
      return Done(lib.write(Obj(members["label" := tag.value])));
    }

    /** A run of envelopes on one instance. */
    method BuildAll(lib: Library, calls: seq<Call>) returns (rs: seq<Outcome>)
      requires Valid()
      modifies this
      ensures Valid() && |rs| == |calls|
      ensures sequenceNumber == (old(sequenceNumber) + |calls|) % TWO_TO_THE_64
      ensures forall i :: 0 <= i < |calls| ==>
        rs[i] == BuiltBy(lib, calls[i], (old(sequenceNumber) + i + 1) % TWO_TO_THE_64)
    {
      rs := [];
      for i := 0 to |calls|
        invariant Valid() && |rs| == i
        invariant sequenceNumber == (old(sequenceNumber) + i) % TWO_TO_THE_64
        invariant forall k :: 0 <= k < i ==>
          rs[k] == BuiltBy(lib, calls[k], (old(sequenceNumber) + k + 1) % TWO_TO_THE_64)
      {
        var r := BuildEnvelope(lib, calls[i].body, calls[i].context, calls[i].labels);
        NextNumber(old(sequenceNumber) + i);
        rs := rs + [r];
      }
    }
  }

  lemma NextNumber(n: nat)
    ensures (n % TWO_TO_THE_64 + 1) % TWO_TO_THE_64 == (n + 1) % TWO_TO_THE_64
  {
  }

  // ---------- Refinement ----------

  /** The condition a caller can check before the call. */
  predicate Fits(lib: Library, body: string) {
    lib.parse(body).Some? && Rebuildable(lib.parse(body).value)
  }

  lemma HeaderHolds(c: Context, seqNo: nat, port: int, data: Json)
    ensures Header(c, seqNo, port, data)["telemetry_data"] == data
    ensures "label" !in Header(c, seqNo, port, data)
  {
    assert |"label"| == 5 && "label"[0] == 'l';
  }

  /** With the same number, clock and writer id, the one-pass builder yields the
      document of the pipeline exactly when the body parses to an object or
      null, the port is a number and the peer's label entry is complete. */
  lemma BuilderRefinesPipeline(lib: Library, body: string, c: Context, labels: LabelMap, seqNo: nat)
    requires ParserInvertsWriter(lib)
    ensures var built := Built(lib, body, c, Some(labels), seqNo);
      (built.Done? && built == Pipeline(lib, body, c, labels, seqNo)) <==>
      (Fits(lib, body) && lib.stoi(c.peerPort).Some? && Label(labels, c.peerIp).Some?)
  {
    var built, piped := Built(lib, body, c, Some(labels), seqNo), Pipeline(lib, body, c, labels, seqNo);
    var meta := WithMeta(lib, body, c, seqNo);
    if built.Done? && meta.Done? {
      var port, tag := lib.stoi(c.peerPort).value, Label(labels, c.peerIp).value;
      var direct := Header(c, seqNo, port, Payload(lib, body));
      var staged := Header(c, seqNo, port, ParsedOrNull(lib, body));
      assert lib.parse(meta.out) == Some(Obj(staged));
      assert piped == Done(lib.write(Obj(staged["label" := tag])));
      assert lib.parse(built.out) == Some(Obj(direct["label" := tag]));
      assert lib.parse(piped.out) == Some(Obj(staged["label" := tag]));
      HeaderHolds(c, seqNo, port, Payload(lib, body));
      HeaderHolds(c, seqNo, port, ParsedOrNull(lib, body));
      assert direct["label" := tag]["telemetry_data"] == Payload(lib, body);
      assert staged["label" := tag]["telemetry_data"] == ParsedOrNull(lib, body);
    }
  }

  /** Without labels the builder replaces the first stage alone. */
  lemma BuilderRefinesMetaData(lib: Library, body: string, c: Context, seqNo: nat)
    requires ParserInvertsWriter(lib)
    ensures var built := Built(lib, body, c, None, seqNo);
      (built.Done? && built == WithMeta(lib, body, c, seqNo)) <==>
      (Fits(lib, body) && lib.stoi(c.peerPort).Some?)
  {
    var built, meta := Built(lib, body, c, None, seqNo), WithMeta(lib, body, c, seqNo);
    if built.Done? && meta.Done? {
      var port := lib.stoi(c.peerPort).value;
      assert lib.parse(built.out) == Some(Obj(Header(c, seqNo, port, Payload(lib, body))));
      assert lib.parse(meta.out) == Some(Obj(Header(c, seqNo, port, ParsedOrNull(lib, body))));
      HeaderHolds(c, seqNo, port, Payload(lib, body));
      HeaderHolds(c, seqNo, port, ParsedOrNull(lib, body));
    }
  }

  /** The envelope parses to an object with that sequence number. */
  ghost predicate Carries(lib: Library, out: string, seqNo: nat) {
    var doc := lib.parse(out);
    doc.Some? && doc.value.Obj? && "seq" in doc.value.members && doc.value.members["seq"] == Int(seqNo)
  }

  lemma BuiltCarries(lib: Library, body: string, c: Context, labels: Option<LabelMap>, seqNo: nat)
    requires ParserInvertsWriter(lib) && Built(lib, body, c, labels, seqNo).Done?
    ensures Carries(lib, Built(lib, body, c, labels, seqNo).out, seqNo)
  {
    var header := Header(c, seqNo, lib.stoi(c.peerPort).value, Payload(lib, body));
    assert header["seq"] == Int(seqNo);
  }

  /** The n-th envelope of a fresh instance carries number n within 64 bits,
      whatever peers, clocks and label maps the calls come with. */
  method NumberedRun(lib: Library, calls: seq<Call>) returns (rs: seq<Outcome>)
    requires ParserInvertsWriter(lib)
    ensures |rs| == |calls|
    ensures forall i :: 0 <= i < |rs| && rs[i].Done? ==> Carries(lib, rs[i].out, (i + 1) % 18446744073709551616)
  {
    hide Carries, Built, ParserInvertsWriter;
    var d := new DataManipulation();
    rs := d.BuildAll(lib, calls);
    forall i | 0 <= i < |rs| && rs[i].Done?
      ensures Carries(lib, rs[i].out, (i + 1) % TWO_TO_THE_64)
    {
      BuiltCarries(lib, calls[i].body, calls[i].context, calls[i].labels, (i + 1) % TWO_TO_THE_64);
    }
  }
}
