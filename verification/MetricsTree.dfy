/** What inserting gNMI updates into the metrics tree means, on values. */
module MetricsTree {
  import opened Json
  import opened Options

  type Path = seq<string>

  const EMPTY := Obj(map[])

  function At(j: Json, path: Path): Option<Json> {
    if path == [] then Some(j)
    else if j.Obj? && path[0] in j.members then At(j.members[path[0]], path[1..])
    else None
  }

  /** The object a walk continues in: a missing or non-object member is replaced. */
  function ObjectMember(j: Json, name: string): (r: Json)
    requires j.Obj?
    ensures r.Obj?
  {
    if name in j.members && j.members[name].Obj? then j.members[name] else EMPTY
  }

  /** One update: every prefix of the path becomes an object, the path itself
      becomes the value; an empty path changes nothing. */
  function Put(j: Json, path: Path, value: Json): (r: Json)
    requires j.Obj?
    ensures r.Obj?
    decreases |path|
  {
    if path == [] then j
    else if |path| == 1 then Obj(j.members[path[0] := value])
    else Obj(j.members[path[0] := Put(ObjectMember(j, path[0]), path[1..], value)])
  }

  /** The member an update leaves at the first name of its path. */
  function NewMember(child: Json, rest: Path, value: Json): Json
    requires child.Obj?
  {
    if rest == [] then value else Put(child, rest, value)
  }

  lemma PutFront(j: Json, path: Path, value: Json)
    requires j.Obj? && path != []
    ensures Put(j, path, value) == Obj(j.members[path[0] := NewMember(ObjectMember(j, path[0]), path[1..], value)])
  {
  }

  // ---------- What one update reads back as ----------

  /** The updated path reads back its value. */
  lemma {:induction false} PutIsReadBack(j: Json, path: Path, value: Json)
    requires j.Obj? && path != []
    ensures At(Put(j, path, value), path) == Some(value)
    decreases |path|
  {
    if |path| == 1 {
      assert path[1..] == [];
    } else {
      PutIsReadBack(ObjectMember(j, path[0]), path[1..], value);
    }
  }

  predicate Comparable(p: Path, q: Path) {
    p <= q || q <= p
  }

  lemma ComparableTails(p: Path, q: Path)
    requires p != [] && q != [] && p[0] == q[0]
    ensures Comparable(p, q) <==> Comparable(p[1..], q[1..])
  {
    assert p == [p[0]] + p[1..] && q == [q[0]] + q[1..];
  }

  lemma AtEmpty(path: Path)
    requires path != []
    ensures At(EMPTY, path) == None
  {
  }

  /** Paths that are neither a prefix nor an extension of the updated one are
      unchanged. */
  lemma {:induction false} PutKeepsOthers(j: Json, path: Path, value: Json, other: Path)
    requires j.Obj? && !Comparable(path, other)
    ensures At(Put(j, path, value), other) == At(j, other)
    decreases |path|
  {
    if path[0] == other[0] {
      ComparableTails(path, other);
      if |path| > 1 {
        PutKeepsOthers(ObjectMember(j, path[0]), path[1..], value, other[1..]);
        AtEmpty(other[1..]);
      }
    }
  }

  /** The members a walk finds at a prefix. */
  function MembersAt(j: Json, path: Path): map<string, Json> {
    match At(j, path)
    case Some(Obj(m)) => m
    case _ => map[]
  }

  /** A proper prefix of the updated path is an object afterwards; if it was one
      before, it keeps its other members. */
  lemma {:induction false} PutKeepsSiblings(j: Json, path: Path, value: Json, n: nat)
    requires j.Obj? && n < |path|
    ensures At(Put(j, path, value), path[..n]).Some? && At(Put(j, path, value), path[..n]).value.Obj?
    ensures MembersAt(Put(j, path, value), path[..n]) - {path[n]} == MembersAt(j, path[..n]) - {path[n]}
    decreases |path|
  {
    if n > 0 {
      PutKeepsSiblings(ObjectMember(j, path[0]), path[1..], value, n - 1);
      assert path[..n][0] == path[0] && path[..n][1..] == path[1..][..n - 1];
      MembersBelow(j, path[..n]);
    }
  }

  lemma MembersBelow(j: Json, path: Path)
    requires j.Obj? && path != []
    ensures MembersAt(j, path) == MembersAt(ObjectMember(j, path[0]), path[1..])
  {
    assert At(j, path) == if path[0] in j.members then At(j.members[path[0]], path[1..]) else None;
    if path[1..] != [] {
      AtEmpty(path[1..]);
    }
  }

  // ---------- Order of updates ----------

  datatype Update = Update(path: Path, value: Json)

  function PutOne(j: Json, u: Update): (r: Json)
    requires j.Obj?
    ensures r.Obj?
  {
    Put(j, u.path, u.value)
  }

  /** All updates of a notification in order, into an empty tree. */
  function PutAll(j: Json, us: seq<Update>): (r: Json)
    requires j.Obj?
    ensures r.Obj?
  {
    if us == [] then j
    else PutOne(PutAll(j, us[..|us| - 1]), us[|us| - 1])
  }

  /** Updates of incomparable paths commute. */
  lemma {:induction false} PutsCommute(j: Json, p: Path, v: Json, q: Path, w: Json)
    requires j.Obj? && !Comparable(p, q)
    ensures Put(Put(j, p, v), q, w) == Put(Put(j, q, w), p, v)
    decreases |p|
  {
    hide Put;
    var child := ObjectMember(j, p[0]);
    PutFront(j, p, v);
    PutFront(j, q, w);
    PutFront(Put(j, p, v), q, w);
    PutFront(Put(j, q, w), p, v);
    if p[0] != q[0] {
      var x, y := NewMember(child, p[1..], v), NewMember(ObjectMember(j, q[0]), q[1..], w);
      assert j.members[p[0] := x][q[0] := y] == j.members[q[0] := y][p[0] := x];
    } else {
      ComparableTails(p, q);
      PutsCommute(child, p[1..], v, q[1..], w);
      var x, y := NewMember(child, p[1..], v), NewMember(child, q[1..], w);
      var z := Put(x, q[1..], w);
      assert ObjectMember(Put(j, p, v), p[0]) == x && ObjectMember(Put(j, q, w), p[0]) == y;
      assert j.members[p[0] := x][p[0] := z] == j.members[p[0] := y][p[0] := z];
    }
  }

  // ---------- Which updates commute ----------

  /** Storing at a path below is invisible exactly where it stores what is there. */
  lemma {:induction false} PutIsInvisible(v: Json, rest: Path, w: Json)
    requires v.Obj? && rest != []
    ensures Put(v, rest, w) == v <==> At(v, rest) == Some(w)
    decreases |rest|
  {
    hide Put;
    var child, k := ObjectMember(v, rest[0]), rest[0];
    PutFront(v, rest, w);
    var x := NewMember(child, rest[1..], w);
    assert Put(v, rest, w) == v <==> k in v.members && v.members[k] == x;
    if rest[1..] != [] {
      AtEmpty(rest[1..]);
      PutIsInvisible(child, rest[1..], w);
    }
  }

  /** The later of a path and its extension wins, unless the value written at
      the path holds the other value in its place. */
  lemma {:induction false} PrefixCommutes(j: Json, p: Path, v: Json, q: Path, w: Json)
    requires j.Obj? && p != [] && p <= q
    ensures Put(Put(j, p, v), q, w) == Put(Put(j, q, w), p, v) <==> At(v, q[|p|..]) == Some(w)
    decreases |p|
  {
    hide Put, At;
    var k, child := p[0], ObjectMember(j, p[0]);
    PutFront(j, p, v);
    PutFront(j, q, w);
    PutFront(Put(j, p, v), q, w);
    PutFront(Put(j, q, w), p, v);
    var x, y := NewMember(child, p[1..], v), NewMember(child, q[1..], w);
    var z := NewMember(ObjectMember(Put(j, p, v), k), q[1..], w);
    var u := NewMember(ObjectMember(Put(j, q, w), k), p[1..], v);
    assert Put(Put(j, p, v), q, w).members == j.members[k := x][k := z] == j.members[k := z];
    assert Put(Put(j, q, w), p, v).members == j.members[k := y][k := u] == j.members[k := u];
    assert Put(Put(j, p, v), q, w).members[k] == z && Put(Put(j, q, w), p, v).members[k] == u;
    if p[1..] == [] {
      assert q[|p|..] == q[1..];
      BelowCommutes(v, q[1..], w);
    } else {
      assert p[1..] <= q[1..] && q[1..][|p[1..]|..] == q[|p|..];
      PrefixCommutes(child, p[1..], v, q[1..], w);
    }
  }

  lemma BelowCommutes(v: Json, rest: Path, w: Json)
    ensures NewMember(if v.Obj? then v else EMPTY, rest, w) == v <==> At(v, rest) == Some(w)
  {
    if rest != [] && v.Obj? {
      PutIsInvisible(v, rest, w);
    }
  }

  /** The condition on two updates, in whichever order they come. */
  predicate Commute(a: Update, b: Update) {
    || a.path == [] || b.path == []
    || !Comparable(a.path, b.path)
    || (a.path <= b.path && At(a.value, b.path[|a.path|..]) == Some(b.value))
    || (b.path <= a.path && At(b.value, a.path[|b.path|..]) == Some(a.value))
  }

  /** Two updates may be swapped exactly under that condition, in any tree. */
  lemma SwapExactly(j: Json, a: Update, b: Update)
    requires j.Obj?
    ensures PutOne(PutOne(j, a), b) == PutOne(PutOne(j, b), a) <==> Commute(a, b)
  {
    if a.path == [] || b.path == [] {
    } else if !Comparable(a.path, b.path) {
      PutsCommute(j, a.path, a.value, b.path, b.value);
    } else {
      hide Put;
      if a.path <= b.path {
        PrefixCommutes(j, a.path, a.value, b.path, b.value);
      }
      if b.path <= a.path {
        PrefixCommutes(j, b.path, b.value, a.path, a.value);
      }
    }
  }

  // ---------- Which notifications do not depend on their order ----------

  predicate Independent(us: seq<Update>) {
    forall i, j :: 0 <= i < j < |us| ==> Commute(us[i], us[j])
  }

  function Removed(us: seq<Update>, i: nat): seq<Update>
    requires i < |us|
  {
    us[..i] + us[i + 1..]
  }

  lemma RemovedStaysIndependent(us: seq<Update>, i: nat)
    requires Independent(us) && i < |us|
    ensures Independent(Removed(us, i))
  {
    hide Commute;
  }

  lemma PutAllLast(j: Json, us: seq<Update>, u: Update)
    requires j.Obj?
    ensures PutAll(j, us + [u]) == PutOne(PutAll(j, us), u)
  {
    assert (us + [u])[..|us|] == us;
  }

  /** Any of the updates may be done last. */
  lemma {:induction false} MovedToTheEnd(j: Json, us: seq<Update>, i: nat)
    requires j.Obj? && Independent(us) && i < |us|
    ensures PutAll(j, us) == PutOne(PutAll(j, Removed(us, i)), us[i])
    decreases |us|
  {
    hide PutAll, PutOne, Commute;
    var n := |us| - 1;
    var u, last := us[i], us[n];
    assert us == us[..n] + [last];
    PutAllLast(j, us[..n], last);
    if i == n {
      assert Removed(us, i) == us[..n];
    } else {
      MovedToTheEnd(j, us[..n], i);
      var rest := Removed(us[..n], i);
      assert Removed(us, i) == rest + [last];
      PutAllLast(j, rest, last);
      SwapExactly(PutAll(j, rest), u, last);
    }
  }

  lemma {:induction false} PermutedIsSame(j: Json, us: seq<Update>, vs: seq<Update>)
    requires j.Obj? && Independent(us) && multiset(us) == multiset(vs)
    ensures PutAll(j, us) == PutAll(j, vs)
    decreases |us|
  {
    hide Independent, PutOne, PutAll;
    assert |us| == |multiset(us)| == |multiset(vs)| == |vs|;
    if us == [] {
      assert vs == us;
    } else {
      var m := |vs| - 1;
      assert vs == vs[..m] + [vs[m]];
      assert vs[m] in multiset(us);
      var i :| 0 <= i < |us| && us[i] == vs[m];
      RemovedContents(us, i);
      assert multiset(vs) == multiset(vs[..m]) + multiset{vs[m]};
      assert multiset(Removed(us, i)) == multiset(us) - multiset{vs[m]};
      RemovedStaysIndependent(us, i);
      PermutedIsSame(j, Removed(us, i), vs[..m]);
      MovedToTheEnd(j, us, i);
      PutAllLast(j, vs[..m], vs[m]);
    }
  }

  lemma RemovedContents(us: seq<Update>, i: nat)
    requires i < |us|
    ensures multiset(us) == multiset(Removed(us, i)) + multiset{us[i]}
  {
    assert us == us[..i] + [us[i]] + us[i + 1..];
  }

  /** Two updates that do not commute make the order of the notification matter,
      whatever the others are. */
  lemma ClashDependsOnOrder(j: Json, us: seq<Update>, i: nat, k: nat) returns (vs: seq<Update>, ws: seq<Update>)
    requires j.Obj? && i < k < |us| && !Commute(us[i], us[k])
    ensures multiset(vs) == multiset(us) == multiset(ws) && PutAll(j, vs) != PutAll(j, ws)
  {
    hide Commute, PutAll, PutOne;
    var a, b := us[i], us[k];
    var rest := us[..i] + us[i + 1..k] + us[k + 1..];
    assert us == us[..i] + [a] + us[i + 1..k] + [b] + us[k + 1..];
    vs, ws := rest + [a] + [b], rest + [b] + [a];
    PutAllLast(j, rest, a);
    PutAllLast(j, rest + [a], b);
    PutAllLast(j, rest, b);
    PutAllLast(j, rest + [b], a);
    SwapExactly(PutAll(j, rest), a, b);
  }

  /** Every permutation of a notification builds the same tree exactly when its
      updates commute pairwise. */
  lemma OrderIsIrrelevant(j: Json, us: seq<Update>)
    requires j.Obj?
    ensures (forall vs :: multiset(vs) == multiset(us) ==> PutAll(j, vs) == PutAll(j, us)) <==> Independent(us)
  {
    hide Commute, PutAll;
    if Independent(us) {
      forall vs | multiset(vs) == multiset(us)
        ensures PutAll(j, vs) == PutAll(j, us)
      {
        PermutedIsSame(j, us, vs);
      }
    } else {
      var i, k :| 0 <= i < k < |us| && !Commute(us[i], us[k]);
      var vs, ws := ClashDependsOnOrder(j, us, i, k);
    }
  }

  /** Then every value is readable at its path in the end. */
  lemma AllAreReadable(j: Json, us: seq<Update>, i: nat)
    requires j.Obj? && Independent(us) && i < |us| && us[i].path != []
    ensures At(PutAll(j, us), us[i].path) == Some(us[i].value)
  {
    hide Independent, PutAll, Put, At;
    MovedToTheEnd(j, us, i);
    PutIsReadBack(PutAll(j, Removed(us, i)), us[i].path, us[i].value);
  }

  /** In any notification, commuting or not, an update that no later one overlaps
      is readable in the end: later updates win. */
  lemma {:induction false} LaterUpdatesWin(j: Json, us: seq<Update>, i: nat)
    requires j.Obj? && i < |us| && us[i].path != []
    requires forall k :: i < k < |us| ==> us[k].path == [] || !Comparable(us[k].path, us[i].path)
    ensures At(PutAll(j, us), us[i].path) == Some(us[i].value)
    decreases |us|
  {
    hide Put, At, Comparable;
    var n := |us| - 1;
    var before := PutAll(j, us[..n]);
    if i == n {
      PutIsReadBack(before, us[n].path, us[n].value);
    } else {
      LaterUpdatesWin(j, us[..n], i);
      if us[n].path == [] {
        PutNothing(before, us[n].value);
      } else {
        PutKeepsOthers(before, us[n].path, us[n].value, us[i].path);
      }
    }
  }

  /** An update without a path changes nothing. */
  lemma PutNothing(j: Json, value: Json)
    requires j.Obj?
    ensures Put(j, [], value) == j
  {
  }
}
