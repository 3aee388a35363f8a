/** Querying the statistics document with wildcards. */
module MetricsQuery {
  import opened Options

  /** A parsed document: members keep their order, and a name may repeat. */
  datatype Value =
    | Null
    | Bool(b: bool)
    | Int(n: int)
    | Real(bits: nat)
    | String(s: string)
    | Array(items: seq<Value>)
    | Object(members: seq<Member>)

  datatype Member = Member(name: string, value: Value)

  /** The type a query asks for. */
  datatype Kind = Ints | Strings

  const WILDCARD := "*"

  /** Integers are those the document library calls int: 32 bits, signed. */
  predicate IsOfKind(kind: Kind, v: Value) {
    if kind == Strings then v.String? else v.Int? && -0x8000_0000 <= v.n < 0x8000_0000
  }

  type Keys = seq<string>

  /** What the wildcards stood for, and the value reached. */
  type Match = (Keys, Value)

  // ---------- The declarative meaning ----------

  /** The first member of that name. */
  function Find(members: seq<Member>, name: string): (at: Option<nat>)
    ensures at.Some? ==> at.value < |members| && members[at.value].name == name
    ensures at.Some? ==> forall i :: 0 <= i < at.value ==> members[i].name != name
    ensures at.None? ==> forall i :: 0 <= i < |members| ==> members[i].name != name
  {
    if members == [] then None
    else if members[0].name == name then Some(0)
    else
      var rest := Find(members[1..], name);
      if rest.None? then None else Some(rest.value + 1)
  }

  function Child(v: Value, name: string): Option<Value> {
    if v.Object? && Find(v.members, name).Some? then Some(v.members[Find(v.members, name).value].value) else None
  }

  function At(v: Value, path: Keys): Option<Value>
    decreases |path|
  {
    if path == [] then Some(v)
    else if Child(v, path[0]).None? then None
    else At(Child(v, path[0]).value, path[1..])
  }

  function Wildcards(keys: Keys): nat {
    if keys == [] then 0 else (if keys[0] == WILDCARD then 1 else 0) + Wildcards(keys[1..])
  }

  /** The keys with each wildcard replaced by its substitute. */
  function Fill(keys: Keys, subs: Keys): Keys
    requires |subs| == Wildcards(keys)
  {
    if keys == [] then []
    else if keys[0] == WILDCARD then [subs[0]] + Fill(keys[1..], subs[1..])
    else [keys[0]] + Fill(keys[1..], subs)
  }

  /** A text, or a number that fits into 32 bits with a sign. */
  predicate HasType(kind: Kind, v: Value) {
    match kind
    case Strings => v.String?
    case Ints => v.Int? && -2147483648 <= v.n <= 2147483647
  }

  predicate Matches(v: Value, keys: Keys, kind: Kind, m: Match) {
    |m.0| == Wildcards(keys) && At(v, Fill(keys, m.0)) == Some(m.1) && HasType(kind, m.1)
  }

  /** The first substitution comes earlier in the document than the second. */
  predicate Before(v: Value, keys: Keys, s: Keys, t: Keys)
    requires |s| == Wildcards(keys) && |t| == Wildcards(keys)
    decreases |keys|
  {
    && keys != []
    && if keys[0] == WILDCARD then
         && v.Object? && Find(v.members, s[0]).Some? && Find(v.members, t[0]).Some?
         && var i, j := Find(v.members, s[0]).value, Find(v.members, t[0]).value;
            i < j || (i == j && Before(v.members[i].value, keys[1..], s[1..], t[1..]))
       else
         Child(v, keys[0]).Some? && Before(Child(v, keys[0]).value, keys[1..], s, t)
  }

  /** No object repeats a member name. */
  predicate DistinctNames(v: Value) {
    match v
    case Object(members) =>
      && (forall i, j :: 0 <= i < j < |members| ==> members[i].name != members[j].name)
      && (forall i :: 0 <= i < |members| ==> DistinctNames(members[i].value))
    case _ => true
  }

  /** The patterns a query accepts. */
  predicate Accepted(keys: Keys) {
    keys != [] && keys[0] != WILDCARD && keys[|keys| - 1] != WILDCARD
  }

  /** What is left of an accepted pattern inside the traversal. */
  predicate Open(keys: Keys) {
    keys != [] && keys[|keys| - 1] != WILDCARD
  }

  /** Some path along the pattern ends in a value of the kind, through members
      that lookups find and through members that they do not. */
  predicate Reaches(v: Value, keys: Keys, kind: Kind)
    decreases |keys|
  {
    if keys == [] then IsOfKind(kind, v)
    else if !v.Object? then false
    else if keys[0] == WILDCARD then exists i :: 0 <= i < |v.members| && Reaches(v.members[i].value, keys[1..], kind)
    else Child(v, keys[0]).Some? && Reaches(Child(v, keys[0]).value, keys[1..], kind)
  }

  /** A lookup by name finds an earlier member of the same name. */
  predicate Shadowed(members: seq<Member>, i: nat)
    requires i < |members|
  {
    Find(members, members[i].name) != Some(i)
  }

  /** In an object that a wildcard visits, below a shadowed member, the rest of
      the pattern reaches a value of the kind. */
  predicate ReachesShadowed(v: Value, keys: Keys, kind: Kind)
    decreases |keys|
  {
    && keys != [] && v.Object?
    && if keys[0] == WILDCARD then
         exists i :: 0 <= i < |v.members| &&
           ((Shadowed(v.members, i) && Reaches(v.members[i].value, keys[1..], kind)) ||
            ReachesShadowed(v.members[i].value, keys[1..], kind))
       else Child(v, keys[0]).Some? && ReachesShadowed(Child(v, keys[0]).value, keys[1..], kind)
  }

  // ---------- The traversal, on values ----------

  function Under(name: string, ms: seq<Match>): (r: seq<Match>)
    ensures |r| == |ms|
    ensures forall i :: 0 <= i < |ms| ==> r[i] == ([name] + ms[i].0, ms[i].1)
  {
    seq(|ms|, i requires 0 <= i < |ms| => ([name] + ms[i].0, ms[i].1))
  }

  function Collect(v: Value, keys: Keys, kind: Kind): seq<Match>
    requires Open(keys)
    decreases |keys|, 0
  {
    if !v.Object? then []
    else if keys[0] == WILDCARD then CollectEach(v.members, keys[1..], kind)
    else if Child(v, keys[0]).None? then []
    else if |keys| > 1 then Collect(Child(v, keys[0]).value, keys[1..], kind)
    else if IsOfKind(kind, Child(v, keys[0]).value) then [([], Child(v, keys[0]).value)]
    else []
  }

  function CollectEach(members: seq<Member>, keys: Keys, kind: Kind): seq<Match>
    requires Open(keys)
    decreases |keys|, 1, |members|
  {
    if members == [] then []
    else
      var n := |members| - 1;
      CollectEach(members[..n], keys, kind) + Under(members[n].name, Collect(members[n].value, keys, kind))
  }

  // ---------- The code ----------

  class Results {
    var items: seq<Match>

    constructor ()
      ensures items == []
    {
      items := [];
    }
  }

  function Prefixed(bound: Keys, ms: seq<Match>): (r: seq<Match>)
    ensures |r| == |ms|
    ensures forall i :: 0 <= i < |ms| ==> r[i] == (bound + ms[i].0, ms[i].1)
  {
    seq(|ms|, i requires 0 <= i < |ms| => (bound + ms[i].0, ms[i].1))
  }

  lemma PrefixedUnder(bound: Keys, name: string, ms: seq<Match>)
    ensures Prefixed(bound + [name], ms) == Prefixed(bound, Under(name, ms))
  {
    forall i | 0 <= i < |ms|
      ensures bound + [name] + ms[i].0 == bound + ([name] + ms[i].0)
    {
    }
  }

  lemma PrefixedConcat(bound: Keys, a: seq<Match>, b: seq<Match>)
    ensures Prefixed(bound, a + b) == Prefixed(bound, a) + Prefixed(bound, b)
  {
  }

  lemma PrefixedByNothing(ms: seq<Match>)
    ensures Prefixed([], ms) == ms
  {
    forall i | 0 <= i < |ms|
      ensures Prefixed([], ms)[i] == ms[i]
    {
      assert [] + ms[i].0 == ms[i].0;
    }
  }

  datatype GetResult = InvalidArgument | Found(matches: seq<Match>)

  class KafkaMetrics {
    const doc: Value

    constructor (doc: Value)
      requires doc.Object?
      ensures this.doc == doc
    {
      this.doc := doc;
    }

    method Get(keys: Keys, kind: Kind) returns (r: GetResult)
      requires doc.Object?
      ensures r.InvalidArgument? <==> keys == [] || keys[0] == "*" || keys[|keys| - 1] == "*"
      ensures r.Found? ==> r.matches == Collect(doc, keys, kind)
      ensures r.Found? && !ReachesShadowed(doc, keys, kind) ==>
        (forall m :: m in r.matches <==> Matches(doc, keys, kind, m)) && InOrder(doc, keys, r.matches)
    {
      hide Matches, InOrder, ReachesShadowed;
      if keys == [] {
        return InvalidArgument;
      }
      if keys[0] == WILDCARD {
        return InvalidArgument;
      }
      if keys[|keys| - 1] == WILDCARD {
        return InvalidArgument;
      }
      if !ReachesShadowed(doc, keys, kind) {
        QueryIsExact(doc, keys, kind);
      }
      var results := new Results();
      var found := Find(doc.members, keys[0]);
      if found.None? {
        return Found(results.items);
      }
      var value := doc.members[found.value].value;
      if |keys| == 1 {
        if IsOfKind(kind, value) {
          results.items := results.items + [([], value)];
        }
        return Found(results.items);
      }
      GetResults(results, [], value, keys, 1, kind);
      PrefixedByNothing(Collect(value, keys[1..], kind));
      return Found(results.items);
    }

    /** The iterator `at` is dereferenced before every step: it stays within the
        keys because the last one is no wildcard. */
    static method GetResults(results: Results, bound: Keys, value: Value, keys: Keys, at: nat, kind: Kind)
      requires at < |keys| && keys[|keys| - 1] != WILDCARD
      modifies results
      ensures results.items == old(results.items) + Prefixed(bound, Collect(value, keys[at..], kind))
      decreases |keys| - at, 1
    {
      hide Prefixed;
      PrefixedNone(bound);
      if !value.Object? {
        return;
      }
      var key := keys[at];
      var next := at + 1;
      var isTheEnd := next == |keys|;
      assert keys[at..][1..] == keys[next..];
      if key == WILDCARD {
        EachMember(results, bound, value.members, keys, next, kind);
      } else {
        var found := Find(value.members, key);
        if found.None? {
          return;
        }
        var child := value.members[found.value].value;
        if !isTheEnd {
          GetResults(results, bound, child, keys, next, kind);
        } else if IsOfKind(kind, child) {
          results.items := results.items + [(bound, child)];
          PrefixedOne(bound, child);
        }
      }
    }

    /** The loop over the members a wildcard stands for. */
    static method EachMember(results: Results, bound: Keys, members: seq<Member>, keys: Keys, next: nat, kind: Kind)
      requires next < |keys| && keys[|keys| - 1] != WILDCARD
      modifies results
      ensures results.items == old(results.items) + Prefixed(bound, CollectEach(members, keys[next..], kind))
      decreases |keys| - next, 2
    {
      hide Prefixed, Collect;
      ghost var rest := keys[next..];
      PrefixedNone(bound);
      assert members[..0] == [];
      for i := 0 to |members|
        invariant results.items == old(results.items) + Prefixed(bound, CollectEach(members[..i], rest, kind))
      {
        GetResults(results, bound + [members[i].name], members[i].value, keys, next, kind);
        EachNext(members, i, rest, kind);
        ghost var found := Collect(members[i].value, rest, kind);
        PrefixedUnder(bound, members[i].name, found);
        PrefixedConcat(bound, CollectEach(members[..i], rest, kind), Under(members[i].name, found));
      }
      assert members[..|members|] == members;
    }
  }

  lemma PrefixedNone(bound: Keys)
    ensures Prefixed(bound, []) == []
  {
  }

  lemma PrefixedOne(bound: Keys, v: Value)
    ensures Prefixed(bound, [([], v)]) == [(bound, v)]
  {
    assert bound + [] == bound;
  }

  lemma EachNext(members: seq<Member>, i: nat, keys: Keys, kind: Kind)
    requires i < |members| && Open(keys)
    ensures CollectEach(members[..i + 1], keys, kind)
         == CollectEach(members[..i], keys, kind) + Under(members[i].name, Collect(members[i].value, keys, kind))
  {
    assert members[..i + 1][..i] == members[..i];
  }

  // ---------- Sound, complete, in order ----------

  /** What CollectEach gathers from the first n members. */
  lemma {:induction false} EachHolds(members: seq<Member>, n: nat, keys: Keys, kind: Kind, m: Match)
    requires Open(keys) && n <= |members|
    ensures m in CollectEach(members[..n], keys, kind) <==>
      (m.0 != [] &&
       exists i :: 0 <= i < n && members[i].name == m.0[0] && (m.0[1..], m.1) in Collect(members[i].value, keys, kind))
    decreases n
  {
    hide Collect, Under;
    if n > 0 {
      EachNext(members, n - 1, keys, kind);
      EachHolds(members, n - 1, keys, kind, m);
      var found := Collect(members[n - 1].value, keys, kind);
      UnderHolds(members[n - 1].name, found, m);
    }
  }

  lemma UnderHolds(name: string, ms: seq<Match>, m: Match)
    ensures m in Under(name, ms) <==> m.0 != [] && m.0[0] == name && (m.0[1..], m.1) in ms
  {
    if m in Under(name, ms) {
      var i :| 0 <= i < |ms| && Under(name, ms)[i] == m;
      assert m.0[1..] == ms[i].0;
    }
    if m.0 != [] && m.0[0] == name && (m.0[1..], m.1) in ms {
      var i :| 0 <= i < |ms| && ms[i] == (m.0[1..], m.1);
      assert [name] + m.0[1..] == m.0;
      assert Under(name, ms)[i] == m;
    }
  }

  lemma MatchesStep(v: Value, keys: Keys, kind: Kind, m: Match)
    requires Open(keys)
    ensures keys[0] == WILDCARD ==>
      (Matches(v, keys, kind, m) <==>
       m.0 != [] && Child(v, m.0[0]).Some? && Matches(Child(v, m.0[0]).value, keys[1..], kind, (m.0[1..], m.1)))
    ensures keys[0] != WILDCARD ==>
      (Matches(v, keys, kind, m) <==> Child(v, keys[0]).Some? && Matches(Child(v, keys[0]).value, keys[1..], kind, m))
  {
    if |m.0| == Wildcards(keys) {
      var path := Fill(keys, m.0);
      if keys[0] == WILDCARD {
        assert path[1..] == Fill(keys[1..], m.0[1..]);
      } else {
        assert path[1..] == Fill(keys[1..], m.0);
      }
    }
  }

  /** Every wildcard substitution whose path reaches a value of the requested
      type is among the results. */
  lemma {:induction false} CollectsAll(v: Value, keys: Keys, kind: Kind, m: Match)
    requires Open(keys) && Matches(v, keys, kind, m)
    ensures m in Collect(v, keys, kind)
    decreases |keys|
  {
    hide Matches;
    MatchesStep(v, keys, kind, m);
    if keys[0] == WILDCARD {
      var i := Find(v.members, m.0[0]).value;
      CollectsAll(v.members[i].value, keys[1..], kind, (m.0[1..], m.1));
      EachHolds(v.members, |v.members|, keys[1..], kind, m);
      assert v.members[..|v.members|] == v.members;
    } else if |keys| > 1 {
      CollectsAll(Child(v, keys[0]).value, keys[1..], kind, m);
    } else {
      assert keys[1..] == [];
      LeafMatches(Child(v, keys[0]).value, kind, m);
    }
  }

  /** The members of an object behind a wildcard. */
  lemma EachOf(v: Value, keys: Keys, kind: Kind, m: Match)
    requires Open(keys) && keys[0] == WILDCARD && |keys| > 1 && v.Object?
    ensures m in Collect(v, keys, kind) <==>
      (m.0 != [] && exists i :: 0 <= i < |v.members| && v.members[i].name == m.0[0]
                            && (m.0[1..], m.1) in Collect(v.members[i].value, keys[1..], kind))
  {
    EachHolds(v.members, |v.members|, keys[1..], kind, m);
    assert v.members[..|v.members|] == v.members;
  }

  /** Unless it reaches below a shadowed member, a result is such a substitution. */
  lemma {:induction false} CollectsOnly(v: Value, keys: Keys, kind: Kind, m: Match)
    requires Open(keys) && !ReachesShadowed(v, keys, kind) && m in Collect(v, keys, kind)
    ensures Matches(v, keys, kind, m)
    decreases |keys|
  {
    hide Matches, Reaches;
    MatchesStep(v, keys, kind, m);
    if keys[0] == WILDCARD {
      EachOf(v, keys, kind, m);
      var tail := (m.0[1..], m.1);
      var i :| 0 <= i < |v.members| && v.members[i].name == m.0[0] && tail in Collect(v.members[i].value, keys[1..], kind);
      CollectedIsReached(v.members[i].value, keys[1..], kind);
      CollectsOnly(v.members[i].value, keys[1..], kind, tail);
    } else if |keys| > 1 {
      CollectsOnly(Child(v, keys[0]).value, keys[1..], kind, m);
    } else {
      assert keys[1..] == [];
      LeafMatches(Child(v, keys[0]).value, kind, m);
    }
  }

  /** There are results exactly if some path along the pattern ends well. */
  lemma {:induction false} CollectedIsReached(v: Value, keys: Keys, kind: Kind)
    requires Open(keys)
    ensures Collect(v, keys, kind) != [] <==> Reaches(v, keys, kind)
    decreases |keys|
  {
    hide IsOfKind;
    if !v.Object? {
    } else if keys[0] == WILDCARD {
      EachIsReached(v.members, |v.members|, keys[1..], kind);
      assert v.members[..|v.members|] == v.members;
      forall i | 0 <= i < |v.members|
        ensures Collect(v.members[i].value, keys[1..], kind) != [] <==> Reaches(v.members[i].value, keys[1..], kind)
      {
        CollectedIsReached(v.members[i].value, keys[1..], kind);
      }
    } else if Child(v, keys[0]).Some? {
      if |keys| > 1 {
        CollectedIsReached(Child(v, keys[0]).value, keys[1..], kind);
      } else {
        assert keys[1..] == [];
      }
    }
  }

  lemma {:induction false} EachIsReached(members: seq<Member>, n: nat, keys: Keys, kind: Kind)
    requires Open(keys) && n <= |members|
    ensures CollectEach(members[..n], keys, kind) != [] <==>
      exists i :: 0 <= i < n && Collect(members[i].value, keys, kind) != []
    decreases n
  {
    hide Collect;
    if n > 0 {
      EachNext(members, n - 1, keys, kind);
      EachIsReached(members, n - 1, keys, kind);
    }
  }

  lemma LeafMatches(v: Value, kind: Kind, m: Match)
    ensures Matches(v, [], kind, m) <==> m == ([], v) && IsOfKind(kind, v)
  {
    if m.0 == [] {
      assert Fill([], m.0) == [];
    }
  }

  ghost predicate InOrder(v: Value, keys: Keys, ms: seq<Match>) {
    && (forall i :: 0 <= i < |ms| ==> |ms[i].0| == Wildcards(keys))
    && (forall i, j :: 0 <= i < j < |ms| ==> Before(v, keys, ms[i].0, ms[j].0))
  }

  lemma {:induction false} NotBeforeItself(v: Value, keys: Keys, s: Keys)
    requires |s| == Wildcards(keys)
    ensures !Before(v, keys, s, s)
    decreases |keys|
  {
    if keys != [] {
      if keys[0] == WILDCARD {
        if v.Object? && Find(v.members, s[0]).Some? {
          NotBeforeItself(v.members[Find(v.members, s[0]).value].value, keys[1..], s[1..]);
        }
      } else if Child(v, keys[0]).Some? {
        NotBeforeItself(Child(v, keys[0]).value, keys[1..], s);
      }
    }
  }

  /** No member a lookup does not find contributes to what is gathered. */
  ghost predicate OnlyFound(members: seq<Member>, keys: Keys, kind: Kind)
    requires Open(keys)
  {
    forall i :: 0 <= i < |members| && Collect(members[i].value, keys, kind) != [] ==> !Shadowed(members, i)
  }

  /** Everything gathered from the first n members is in order and begins with
      one of their names. */
  lemma {:induction false} EachInOrder(v: Value, n: nat, keys: Keys, kind: Kind)
    requires Open(keys) && keys[0] == WILDCARD && |keys| > 1 && v.Object? && n <= |v.members|
    requires OnlyFound(v.members, keys[1..], kind)
    requires forall i :: 0 <= i < n ==>
      InOrder(v.members[i].value, keys[1..], Collect(v.members[i].value, keys[1..], kind))
    ensures var ms := CollectEach(v.members[..n], keys[1..], kind);
      && InOrder(v, keys, ms)
      && forall i :: 0 <= i < |ms| ==>
           ms[i].0 != [] && Find(v.members, ms[i].0[0]).Some? && Find(v.members, ms[i].0[0]).value < n
    decreases n
  {
    if n > 0 {
      hide Find, InOrder;
      var members, rest := v.members, keys[1..];
      EachNext(members, n - 1, rest, kind);
      EachInOrder(v, n - 1, keys, kind);
      var found := Collect(members[n - 1].value, rest, kind);
      var before := CollectEach(members[..n - 1], rest, kind);
      if found == [] {
        assert Under(members[n - 1].name, found) == [] && before + [] == before;
      } else {
        UnderInOrder(v, n - 1, keys, found);
        InOrderConcat(v, n - 1, keys, before, Under(members[n - 1].name, found));
      }
    } else {
      NothingInOrder(v, keys);
    }
  }

  lemma NothingInOrder(v: Value, keys: Keys)
    ensures InOrder(v, keys, [])
  {
  }

  /** Matches that begin with earlier members precede those of member n. */
  lemma InOrderConcat(v: Value, n: nat, keys: Keys, a: seq<Match>, b: seq<Match>)
    requires keys != [] && keys[0] == WILDCARD && v.Object? && InOrder(v, keys, a) && InOrder(v, keys, b)
    requires forall i :: 0 <= i < |a| ==>
      a[i].0 != [] && Find(v.members, a[i].0[0]).Some? && Find(v.members, a[i].0[0]).value < n
    requires forall i :: 0 <= i < |b| ==> b[i].0 != [] && Find(v.members, b[i].0[0]) == Some(n)
    ensures InOrder(v, keys, a + b)
  {
    hide Find;
  }

  lemma UnderInOrder(v: Value, i: nat, keys: Keys, ms: seq<Match>)
    requires Open(keys) && keys[0] == WILDCARD && v.Object? && i < |v.members|
    requires Find(v.members, v.members[i].name) == Some(i)
    requires InOrder(v.members[i].value, keys[1..], ms)
    ensures InOrder(v, keys, Under(v.members[i].name, ms))
  {
    var name := v.members[i].name;
    var us := Under(name, ms);
    forall a, b | 0 <= a < b < |us|
      ensures Before(v, keys, us[a].0, us[b].0)
    {
      assert us[a].0[1..] == ms[a].0 && us[b].0[1..] == ms[b].0;
      assert Before(v.members[i].value, keys[1..], ms[a].0, ms[b].0);
    }
  }

  /** Unless they reach below shadowed members, the results come in document
      order. */
  lemma {:induction false} CollectsInOrder(v: Value, keys: Keys, kind: Kind)
    requires Open(keys) && !ReachesShadowed(v, keys, kind)
    ensures InOrder(v, keys, Collect(v, keys, kind))
    decreases |keys|
  {
    hide Find, Reaches;
    var rest := keys[1..];
    if !v.Object? {
    } else if keys[0] == WILDCARD {
      forall i | 0 <= i < |v.members|
        ensures InOrder(v.members[i].value, rest, Collect(v.members[i].value, rest, kind))
        ensures Collect(v.members[i].value, rest, kind) != [] ==> !Shadowed(v.members, i)
      {
        CollectsInOrder(v.members[i].value, rest, kind);
        CollectedIsReached(v.members[i].value, rest, kind);
      }
      hide InOrder;
      EachInOrder(v, |v.members|, keys, kind);
      assert v.members[..|v.members|] == v.members;
    } else if Child(v, keys[0]).Some? {
      if |keys| > 1 {
        CollectsInOrder(Child(v, keys[0]).value, rest, kind);
        var ms := Collect(v, keys, kind);
        forall i, j | 0 <= i < j < |ms|
          ensures Before(v, keys, ms[i].0, ms[j].0)
        {
          assert Before(Child(v, keys[0]).value, rest, ms[i].0, ms[j].0);
        }
      } else {
        LeafInOrder(v, keys, kind);
      }
    }
  }

  lemma LeafInOrder(v: Value, keys: Keys, kind: Kind)
    requires |keys| == 1 && keys[0] != WILDCARD
    ensures InOrder(v, keys, Collect(v, keys, kind))
  {
    assert keys[1..] == [] && Wildcards(keys) == 0;
  }

  // ---------- Exactly when a query is exact ----------

  ghost predicate NoneTwice(ms: seq<Match>) {
    forall i, j :: 0 <= i < j < |ms| ==> ms[i] != ms[j]
  }

  /** Every match once, and nothing else. */
  ghost predicate Exact(v: Value, keys: Keys, kind: Kind)
    requires Open(keys)
  {
    && (forall m :: m in Collect(v, keys, kind) <==> Matches(v, keys, kind, m))
    && NoneTwice(Collect(v, keys, kind))
  }

  lemma InOrderIsOnce(v: Value, keys: Keys, ms: seq<Match>)
    requires InOrder(v, keys, ms)
    ensures NoneTwice(ms)
  {
    forall i, j | 0 <= i < j < |ms|
      ensures ms[i] != ms[j]
    {
      NotBeforeItself(v, keys, ms[i].0);
    }
  }

  /** What members i and k contribute is part of the whole, one behind the other. */
  lemma {:induction false} EachApart(members: seq<Member>, n: nat, keys: Keys, kind: Kind, i: nat, k: nat)
    returns (x: seq<Match>, y: seq<Match>, z: seq<Match>)
    requires Open(keys) && i < k < n <= |members|
    ensures CollectEach(members[..n], keys, kind) ==
      x + Under(members[i].name, Collect(members[i].value, keys, kind)) + y
      + Under(members[k].name, Collect(members[k].value, keys, kind)) + z
    decreases n
  {
    hide Collect, Under, CollectEach;
    EachNext(members, n - 1, keys, kind);
    if k < n - 1 {
      x, y, z := EachApart(members, n - 1, keys, kind, i, k);
      z := z + Under(members[n - 1].name, Collect(members[n - 1].value, keys, kind));
    } else {
      x, y := EachPart(members, n - 1, keys, kind, i);
      z := [];
    }
  }

  lemma {:induction false} EachPart(members: seq<Member>, n: nat, keys: Keys, kind: Kind, i: nat)
    returns (x: seq<Match>, y: seq<Match>)
    requires Open(keys) && i < n <= |members|
    ensures CollectEach(members[..n], keys, kind) == x + Under(members[i].name, Collect(members[i].value, keys, kind)) + y
    decreases n
  {
    hide Collect, Under, CollectEach;
    EachNext(members, n - 1, keys, kind);
    var last := Under(members[n - 1].name, Collect(members[n - 1].value, keys, kind));
    if i < n - 1 {
      x, y := EachPart(members, n - 1, keys, kind, i);
      y := y + last;
    } else {
      x, y := CollectEach(members[..n - 1], keys, kind), [];
      assert x + last == x + last + y;
    }
  }

  lemma PartsAreOnce(x: seq<Match>, a: seq<Match>, y: seq<Match>)
    requires NoneTwice(x + a + y)
    ensures NoneTwice(a)
  {
    var all := x + a + y;
    assert forall i :: 0 <= i < |a| ==> all[|x| + i] == a[i];
  }

  lemma UnderIsOnce(name: string, ms: seq<Match>)
    requires NoneTwice(Under(name, ms))
    ensures NoneTwice(ms)
  {
    forall i, j | 0 <= i < j < |ms|
      ensures ms[i] != ms[j]
    {
      assert Under(name, ms)[i] != Under(name, ms)[j];
    }
  }

  /** A result below a shadowed member is no match, or is reported twice. */
  lemma ShadowedIsInexact(v: Value, keys: Keys, kind: Kind, i: nat)
    requires Open(keys) && keys[0] == WILDCARD && |keys| > 1 && v.Object? && i < |v.members|
    requires Shadowed(v.members, i) && Reaches(v.members[i].value, keys[1..], kind)
    ensures !Exact(v, keys, kind)
  {
    hide Find, Reaches, Matches, Collect, Under;
    var members, rest, name := v.members, keys[1..], v.members[i].name;
    CollectedIsReached(members[i].value, rest, kind);
    var tail := Collect(members[i].value, rest, kind)[0];
    var m := ([name] + tail.0, tail.1);
    assert m.0[1..] == tail.0;
    EachOf(v, keys, kind, m);
    if Matches(v, keys, kind, m) {
      MatchesStep(v, keys, kind, m);
      FirstIsEarlier(members, i);
      var k := Find(members, name).value;
      CollectsAll(members[k].value, rest, kind, tail);
      ReportedTwice(v, keys, kind, k, i, tail);
    }
  }

  lemma FirstIsEarlier(members: seq<Member>, i: nat)
    requires i < |members| && Shadowed(members, i)
    ensures Find(members, members[i].name).Some? && Find(members, members[i].name).value < i
  {
    var at := Find(members, members[i].name);
    hide Find;
    assert at != Some(i);
  }

  lemma ReportedTwice(v: Value, keys: Keys, kind: Kind, k: nat, i: nat, tail: Match)
    requires Open(keys) && keys[0] == WILDCARD && |keys| > 1 && v.Object? && k < i < |v.members|
    requires v.members[k].name == v.members[i].name
    requires tail in Collect(v.members[k].value, keys[1..], kind) && tail in Collect(v.members[i].value, keys[1..], kind)
    ensures !NoneTwice(Collect(v, keys, kind))
  {
    var members, rest, name := v.members, keys[1..], v.members[i].name;
    var a, b := Under(name, Collect(members[k].value, rest, kind)), Under(name, Collect(members[i].value, rest, kind));
    var m := ([name] + tail.0, tail.1);
    hide Collect, CollectEach, Under;
    var x, y, z := EachApart(members, |members|, rest, kind, k, i);
    assert members[..|members|] == members;
    var ms := Collect(v, keys, kind);
    WholeOf(v, keys, kind);
    UnderHolds(name, Collect(members[k].value, rest, kind), m);
    UnderHolds(name, Collect(members[i].value, rest, kind), m);
    assert m.0[1..] == tail.0;
    var s :| 0 <= s < |a| && a[s] == m;
    var u :| 0 <= u < |b| && b[u] == m;
    assert ms[|x| + s] == m && ms[|x| + |a| + |y| + u] == m;
  }

  /** An inexact query below a member that lookups find is inexact as a whole. */
  lemma InexactBelow(v: Value, keys: Keys, kind: Kind, i: nat)
    requires Open(keys) && keys[0] == WILDCARD && |keys| > 1 && v.Object? && i < |v.members|
    requires !Shadowed(v.members, i) && !Exact(v.members[i].value, keys[1..], kind)
    ensures !Exact(v, keys, kind)
  {
    hide Find, Matches, Collect, Under, NoneTwice;
    var child, rest, name := v.members[i].value, keys[1..], v.members[i].name;
    if NoneTwice(Collect(child, rest, kind)) {
      var tail :| tail in Collect(child, rest, kind) <==> !Matches(child, rest, kind, tail);
      if Matches(child, rest, kind, tail) {
        CollectsAll(child, rest, kind, tail);
      }
      var m := ([name] + tail.0, tail.1);
      assert m.0[1..] == tail.0;
      EachOf(v, keys, kind, m);
      MatchesStep(v, keys, kind, m);
    } else {
      var x, y := EachPart(v.members, |v.members|, rest, kind, i);
      assert v.members[..|v.members|] == v.members;
      WholeOf(v, keys, kind);
      if NoneTwice(Collect(v, keys, kind)) {
        PartsAreOnce(x, Under(name, Collect(child, rest, kind)), y);
        UnderIsOnce(name, Collect(child, rest, kind));
      }
    }
  }

  lemma WholeOf(v: Value, keys: Keys, kind: Kind)
    requires Open(keys) && keys[0] == WILDCARD && v.Object?
    ensures Collect(v, keys, kind) == CollectEach(v.members, keys[1..], kind)
  {
  }

  lemma {:induction false} ShadowedReaches(v: Value, keys: Keys, kind: Kind)
    requires ReachesShadowed(v, keys, kind)
    ensures Reaches(v, keys, kind)
    decreases |keys|
  {
    if keys[0] == WILDCARD {
      var i :| 0 <= i < |v.members| &&
        ((Shadowed(v.members, i) && Reaches(v.members[i].value, keys[1..], kind)) ||
         ReachesShadowed(v.members[i].value, keys[1..], kind));
      if ReachesShadowed(v.members[i].value, keys[1..], kind) {
        ShadowedReaches(v.members[i].value, keys[1..], kind);
      }
    } else {
      ShadowedReaches(Child(v, keys[0]).value, keys[1..], kind);
    }
  }

  lemma {:induction false} ReachingShadowedIsInexact(v: Value, keys: Keys, kind: Kind)
    requires Open(keys) && ReachesShadowed(v, keys, kind)
    ensures !Exact(v, keys, kind)
    decreases |keys|
  {
    hide Exact, Find, Reaches;
    if keys[0] == WILDCARD {
      var i :| 0 <= i < |v.members| &&
        ((Shadowed(v.members, i) && Reaches(v.members[i].value, keys[1..], kind)) ||
         ReachesShadowed(v.members[i].value, keys[1..], kind));
      if Shadowed(v.members, i) {
        if ReachesShadowed(v.members[i].value, keys[1..], kind) {
          ShadowedReaches(v.members[i].value, keys[1..], kind);
        }
        ShadowedIsInexact(v, keys, kind, i);
      } else {
        ReachingShadowedIsInexact(v.members[i].value, keys[1..], kind);
        InexactBelow(v, keys, kind, i);
      }
    } else {
      assert |keys| > 1;
      ReachingShadowedIsInexact(Child(v, keys[0]).value, keys[1..], kind);
      InexactChild(v, keys, kind);
    }
  }

  lemma InexactChild(v: Value, keys: Keys, kind: Kind)
    requires Open(keys) && keys[0] != WILDCARD && |keys| > 1 && Child(v, keys[0]).Some?
    requires !Exact(Child(v, keys[0]).value, keys[1..], kind)
    ensures !Exact(v, keys, kind)
  {
    hide Find, Matches, NoneTwice;
    var child := Child(v, keys[0]).value;
    assert Collect(v, keys, kind) == Collect(child, keys[1..], kind);
    if NoneTwice(Collect(child, keys[1..], kind)) {
      var m :| m in Collect(child, keys[1..], kind) <==> !Matches(child, keys[1..], kind, m);
      MatchesStep(v, keys, kind, m);
    }
  }

  /** An accepted query returns every match exactly once and nothing else if and
      only if no shadowed member contributes; then also in document order. */
  lemma QueryIsExact(doc: Value, keys: Keys, kind: Kind)
    requires doc.Object? && Accepted(keys)
    ensures Exact(doc, keys, kind) <==> !ReachesShadowed(doc, keys, kind)
    ensures Exact(doc, keys, kind) ==> InOrder(doc, keys, Collect(doc, keys, kind))
  {
    hide Matches, ReachesShadowed, InOrder, NoneTwice, Collect;
    if ReachesShadowed(doc, keys, kind) {
      ReachingShadowedIsInexact(doc, keys, kind);
    } else {
      CollectsInOrder(doc, keys, kind);
      InOrderIsOnce(doc, keys, Collect(doc, keys, kind));
      forall m
        ensures m in Collect(doc, keys, kind) <==> Matches(doc, keys, kind, m)
      {
        if m in Collect(doc, keys, kind) {
          CollectsOnly(doc, keys, kind, m);
        }
        if Matches(doc, keys, kind, m) {
          CollectsAll(doc, keys, kind, m);
        }
      }
    }
  }

  lemma {:induction false} DistinctIsNotShadowed(v: Value, keys: Keys, kind: Kind)
    requires DistinctNames(v)
    ensures !ReachesShadowed(v, keys, kind)
    decreases |keys|
  {
    if keys != [] && v.Object? {
      forall i | 0 <= i < |v.members|
        ensures !Shadowed(v.members, i) && !ReachesShadowed(v.members[i].value, keys[1..], kind)
      {
        DistinctIsNotShadowed(v.members[i].value, keys[1..], kind);
      }
    }
  }

  /** In particular where no object repeats a member name. */
  lemma DistinctNamesSuffice(doc: Value, keys: Keys, kind: Kind)
    requires doc.Object? && Accepted(keys) && DistinctNames(doc)
    ensures Exact(doc, keys, kind) && InOrder(doc, keys, Collect(doc, keys, kind))
  {
    DistinctIsNotShadowed(doc, keys, kind);
    QueryIsExact(doc, keys, kind);
  }

  /** A document for which it fails: the wildcard visits both members of the same
      name, and the two results have the same substitution. */
  lemma RepeatedNamesAreReportedTwice()
    ensures var inner := Object([Member("k", Int(1))]);
      var doc := Object([Member("a", Object([Member("x", inner), Member("x", inner)]))]);
      Collect(doc, ["a", WILDCARD, "k"], Ints) == [(["x"], Int(1)), (["x"], Int(1))]
  {
    var inner := Object([Member("k", Int(1))]);
    var both := [Member("x", inner), Member("x", inner)];
    var doc := Object([Member("a", Object(both))]);
    var keys := ["a", WILDCARD, "k"];
    assert keys[1..] == [WILDCARD, "k"] && keys[1..][1..] == ["k"];
    assert Child(inner, "k") == Some(Int(1)) && Child(doc, "a") == Some(Object(both));
    assert Collect(inner, ["k"], Ints) == [([], Int(1))];
    assert ["x"] + [] == ["x"];
    assert Under("x", [([], Int(1))])[0] == (["x"], Int(1));
    assert both[..0] == [] && both[..2] == both;
    EachNext(both, 0, ["k"], Ints);
    EachNext(both, 1, ["k"], Ints);
    assert Collect(Object(both), [WILDCARD, "k"], Ints) == CollectEach(both, ["k"], Ints);
    assert Collect(doc, keys, Ints) == Collect(Object(both), keys[1..], Ints);
  }
}
