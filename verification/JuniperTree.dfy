/** The metrics tree in memory and the pointer walk that inserts one update in
    place. `store` names every node by the path that leads to it; it ties the
    linked nodes to the value they represent. */
module JuniperTree {
  import opened Json
  import opened MetricsTree
  import opened Options

  class Node {
    var isObject: bool
    var leaf: Json
    var members: map<string, Node>

    constructor (value: Json)
      ensures isObject == value.Obj? && leaf == value && members == map[]
    {
      isObject := value.Obj?;
      leaf := value;
      members := map[];
    }
  }

  /** A node and what its fields hold. */
  datatype Record = Record(node: Node, isObject: bool, leaf: Json, members: map<string, Node>)

  type Store = map<Path, Record>

  ghost function Nodes(store: Store): set<Node> {
    set p | p in store :: store[p].node
  }

  /** The fields in memory are the recorded ones. */
  ghost predicate InMemory(store: Store)
    reads Nodes(store)
  {
    forall p :: p in store ==> IsRecord(store[p])
  }

  ghost predicate IsRecord(r: Record)
    reads r.node
  {
    r == Record(r.node, r.node.isObject, r.node.leaf, r.node.members)
  }

  ghost predicate RecordHolds(r: Record, j: Json) {
    && r.isObject == j.Obj?
    && (if j.Obj? then r.members.Keys == j.members.Keys else r.leaf == j && r.members == map[])
  }

  /** The stored paths are the paths of the value. */
  ghost predicate Covers(j: Json, store: Store) {
    forall p :: p in store <==> At(j, p).Some?
  }

  /** No node is shared: the nodes form a tree. */
  ghost predicate Distinct(store: Store) {
    forall p, q :: p in store && q in store && store[p].node == store[q].node ==> p == q
  }

  ghost predicate Holds(j: Json, store: Store) {
    forall p :: p in store && At(j, p).Some? ==> RecordHolds(store[p], At(j, p).value)
  }

  /** A member points to the node of the longer path. */
  ghost predicate Linked(store: Store) {
    forall p, k {:trigger p + [k]} :: p in store && k in store[p].members ==>
      p + [k] in store && store[p].members[k] == store[p + [k]].node
  }

  ghost predicate Shape(root: Node, j: Json, store: Store) {
    && [] in store && store[[]].node == root
    && Covers(j, store) && Distinct(store) && Holds(j, store) && Linked(store)
  }

  ghost predicate Represents(root: Node, j: Json, store: Store)
    reads Nodes(store)
  {
    Shape(root, j, store) && InMemory(store)
  }

  // ---------- Assigning one member, on values ----------

  /** j with member `name` of the object at path p set to `value`. */
  function SetAt(j: Json, p: Path, name: string, value: Json): (r: Json)
    requires At(j, p).Some? && At(j, p).value.Obj?
    ensures r.Obj?
    decreases |p|
  {
    if p == [] then Obj(j.members[name := value])
    else Obj(j.members[p[0] := SetAt(j.members[p[0]], p[1..], name, value)])
  }

  lemma {:induction false} AtStep(j: Json, p: Path, k: string)
    ensures At(j, p + [k]) ==
      match At(j, p)
        case Some(Obj(m)) => if k in m then Some(m[k]) else None
        case _ => None
    decreases |p|
  {
    if p != [] {
      assert (p + [k])[1..] == p[1..] + [k];
      if j.Obj? && p[0] in j.members {
        AtStep(j.members[p[0]], p[1..], k);
      }
    } else {
      assert [] + [k] == [k];
    }
  }

  lemma {:induction false} AtPrefix(j: Json, p: Path, n: nat)
    requires At(j, p).Some? && n <= |p|
    ensures At(j, p[..n]).Some?
    ensures n < |p| ==> At(j, p[..n]).value.Obj? && p[n] in At(j, p[..n]).value.members
    decreases |p|
  {
    if n > 0 {
      assert p[..n][1..] == p[1..][..n - 1];
      AtPrefix(j.members[p[0]], p[1..], n - 1);
    }
  }

  /** Below the assigned member the new value is found. */
  lemma {:induction false} SetAtBelow(j: Json, p: Path, name: string, value: Json, below: Path)
    requires At(j, p).Some? && At(j, p).value.Obj?
    ensures At(SetAt(j, p, name, value), p + [name] + below) == At(value, below)
    decreases |p|
  {
    var q := p + [name] + below;
    if p == [] {
      assert q[1..] == below;
    } else {
      assert q[1..] == p[1..] + [name] + below;
      SetAtBelow(j.members[p[0]], p[1..], name, value, below);
    }
  }

  /** Elsewhere every path leads to what it did, except that the objects on the
      way to the assigned member have changed inside. */
  lemma {:induction false} SetAtElsewhere(j: Json, p: Path, name: string, value: Json, q: Path)
    requires At(j, p).Some? && At(j, p).value.Obj? && !(p + [name] <= q)
    ensures var before, after := At(j, q), At(SetAt(j, p, name, value), q);
      if q <= p then
        && before.Some? && before.value.Obj? && after.Some? && after.value.Obj?
        && after.value.members.Keys == before.value.members.Keys + (if q == p then {name} else {})
      else after == before
    decreases |p|
  {
    if q == [] {
      assert p == [] || p[0] in j.members;
    } else if p == [] {
      assert [] + [name] == [name];
      assert [name] <= [name] + q[1..];
      assert q == [q[0]] + q[1..];
    } else if q[0] == p[0] {
      assert q == [q[0]] + q[1..] && p == [p[0]] + p[1..];
      assert p + [name] == [p[0]] + (p[1..] + [name]);
      assert p[1..] + [name] <= q[1..] ==> p + [name] <= q;
      assert q <= p <==> q[1..] <= p[1..];
      SetAtElsewhere(j.members[p[0]], p[1..], name, value, q[1..]);
    }
  }

  // ---------- One assignment is one step of an update ----------

  /** Turning the next prefix into an object does not change what the update
      will build. */
  lemma {:induction false} PreparingKeepsPut(j: Json, path: Path, value: Json, n: nat)
    requires j.Obj? && n + 1 < |path| && At(j, path[..n]).Some? && At(j, path[..n]).value.Obj?
    requires var m := At(j, path[..n]).value.members;
      path[n] in m ==> !m[path[n]].Obj?
    ensures Put(SetAt(j, path[..n], path[n], EMPTY), path, value) == Put(j, path, value)
    decreases |path|
  {
    var k := path[0];
    if n > 0 {
      assert path[..n][1..] == path[1..][..n - 1] && path[..n][0] == k;
      AtPrefix(j, path[..n], 1);
      var child := j.members[k];
      ChildIsObject(child, path[..n][1..]);
      PreparingKeepsPut(child, path[1..], value, n - 1);
    }
    var j' := SetAt(j, path[..n], path[n], EMPTY);
    var z := Put(ObjectMember(j, k), path[1..], value);
    assert j.members[k := j'.members[k]][k := z] == j.members[k := z];
  }

  lemma ChildIsObject(j: Json, p: Path)
    requires At(j, p).Some? && At(j, p).value.Obj?
    ensures j.Obj?
  {
  }

  /** Assigning the last name completes the update. */
  lemma {:induction false} LastStepIsPut(j: Json, path: Path, value: Json)
    requires j.Obj? && path != []
    requires At(j, path[..|path| - 1]).Some? && At(j, path[..|path| - 1]).value.Obj?
    ensures SetAt(j, path[..|path| - 1], path[|path| - 1], value) == Put(j, path, value)
    decreases |path|
  {
    var n := |path| - 1;
    if n > 0 {
      assert path[..n][1..] == path[1..][..n - 1] && path[..n][0] == path[0];
      ChildIsObject(j.members[path[0]], path[..n][1..]);
      LastStepIsPut(j.members[path[0]], path[1..], value);
    }
  }

  // ---------- The same assignment on linked nodes ----------

  /** `child` at and below member `name` of p, everything else as before. */
  ghost function Graft(store: Store, p: Path, name: string, child: Store): (r: Store)
    requires p in store && [] in child
    ensures var at := p + [name];
      && (forall q :: q in r <==> if at <= q then q[|at|..] in child else q in store)
      && (forall q :: q in r ==> (r[q] ==
            if at <= q then child[q[|at|..]]
            else if q == p then store[p].(members := store[p].members[name := child[[]].node])
            else store[q]))
  {
    var at := p + [name];
    var shifted := set c | c in child :: at + c;
    assert forall c :: c in child ==> (at + c)[|at|..] == c;
    assert forall q :: at <= q ==> at + q[|at|..] == q;
    map q | q in store.Keys + shifted && (if at <= q then q[|at|..] in child else q in store)
      :: if at <= q then child[q[|at|..]]
         else if q == p then store[p].(members := store[p].members[name := child[[]].node])
         else store[q]
  }

  lemma GraftCovers(j: Json, store: Store, p: Path, name: string, value: Json, child: Store)
    requires Covers(j, store) && p in store && At(j, p).Some? && At(j, p).value.Obj?
    requires Covers(value, child) && [] in child
    ensures Covers(SetAt(j, p, name, value), Graft(store, p, name, child))
  {
    hide Graft;
    var at := p + [name];
    forall q
      ensures q in Graft(store, p, name, child) <==> At(SetAt(j, p, name, value), q).Some?
    {
      if at <= q {
        SetAtBelow(j, p, name, value, q[|at|..]);
        assert q == p + [name] + q[|at|..];
      } else {
        SetAtElsewhere(j, p, name, value, q);
      }
    }
  }

  ghost predicate Disjoint(store: Store, child: Store) {
    forall q, r :: q in store && r in child ==> store[q].node != child[r].node
  }

  lemma GraftDistinct(store: Store, p: Path, name: string, child: Store)
    requires Distinct(store) && Distinct(child) && Disjoint(store, child) && p in store && [] in child
    ensures Distinct(Graft(store, p, name, child))
  {
    hide Graft;
    var g, at := Graft(store, p, name, child), p + [name];
    forall q, r | q in g && r in g && g[q].node == g[r].node
      ensures q == r
    {
      if at <= q && at <= r {
        assert q == at + q[|at|..] && r == at + r[|at|..];
      }
    }
  }

  lemma GraftHolds(j: Json, store: Store, p: Path, name: string, value: Json, child: Store)
    requires p in store && At(j, p).Some? && At(j, p).value.Obj? && Holds(j, store)
    requires [] in child && Holds(value, child)
    ensures Holds(SetAt(j, p, name, value), Graft(store, p, name, child))
  {
    hide Graft, SetAt, At;
    var g, at, j' := Graft(store, p, name, child), p + [name], SetAt(j, p, name, value);
    forall q | q in g && At(j', q).Some?
      ensures RecordHolds(g[q], At(j', q).value)
    {
      if at <= q {
        SetAtBelow(j, p, name, value, q[|at|..]);
        assert q == p + [name] + q[|at|..];
      } else {
        SetAtElsewhere(j, p, name, value, q);
        assert RecordHolds(store[q], At(j, q).value);
      }
    }
  }

  lemma OnlyExtension(p: Path, name: string, q: Path, k: string)
    requires p + [name] <= q + [k]
    ensures p + [name] <= q || (q == p && k == name)
  {
    var at, next := p + [name], q + [k];
    if |at| <= |q| {
      assert next[..|at|] == q[..|at|];
    } else {
      assert next[..|p|] == p && next[..|q|] == q && next[|p|] == name && next[|q|] == k;
    }
  }

  lemma GraftLinked(store: Store, p: Path, name: string, child: Store)
    requires Linked(store) && Linked(child) && p in store && [] in child
    ensures Linked(Graft(store, p, name, child))
  {
    hide Graft;
    var g, at := Graft(store, p, name, child), p + [name];
    forall q, k {:trigger q + [k]} | q in g && k in g[q].members
      ensures q + [k] in g && g[q].members[k] == g[q + [k]].node
    {
      var next := q + [k];
      if at <= q {
        assert next[|at|..] == q[|at|..] + [k];
        assert at <= next;
      } else if q == p && k == name {
        assert next == at && next[|at|..] == [];
      } else {
        if at <= next {
          OnlyExtension(p, name, q, k);
        }
      }
    }
  }

  lemma GraftShape(root: Node, j: Json, store: Store, p: Path, name: string, value: Json, childRoot: Node, child: Store)
    requires Shape(root, j, store) && p in store && At(j, p).Some? && At(j, p).value.Obj?
    requires Shape(childRoot, value, child) && Disjoint(store, child)
    ensures Shape(root, SetAt(j, p, name, value), Graft(store, p, name, child))
  {
    hide Covers, Distinct, Holds, Linked, At, SetAt, RecordHolds, Graft;
    GraftCovers(j, store, p, name, value, child);
    GraftDistinct(store, p, name, child);
    GraftHolds(j, store, p, name, value, child);
    GraftLinked(store, p, name, child);
  }

  lemma GraftKeeps(store: Store, p: Path, name: string, child: Store)
    requires p in store && [] in child
    ensures var g := Graft(store, p, name, child); p in g && g[p].node == store[p].node
  {
    hide Graft;
    assert !(p + [name] <= p);
  }

  lemma GraftNodes(store: Store, p: Path, name: string, child: Store)
    requires p in store && [] in child
    ensures Nodes(Graft(store, p, name, child)) <= Nodes(store) + Nodes(child)
  {
    hide Graft;
  }

  lemma ObjectNode(root: Node, j: Json, store: Store, p: Path)
    requires Represents(root, j, store) && p in store
    ensures IsRecord(store[p]) && At(j, p).Some? && (store[p].node.isObject <==> At(j, p).value.Obj?)
  {
  }

  /** Assigns a copy of `value` to a member of the object node at path p. */
  method SetMember(root: Node, node: Node, name: string, value: Json, ghost j: Json, ghost store: Store, ghost p: Path)
    returns (ghost grown: Store)
    requires Represents(root, j, store) && p in store && node == store[p].node && node.isObject
    modifies node
    ensures At(j, p).Some? && At(j, p).value.Obj?
    ensures Represents(root, SetAt(j, p, name, value), grown)
    ensures fresh(Nodes(grown) - Nodes(store)) && node.isObject
    ensures p in grown && grown[p].node == node
    decreases value, 2
  {
    hide Graft, SetAt, At, Covers, Holds, Linked;
    ObjectNode(root, j, store, p);
    var childRoot, child := Copy(value);
    assert Disjoint(store, child) by {
      forall q, r | q in store && r in child
        ensures store[q].node != child[r].node
      {
        assert store[q].node in Nodes(store) && child[r].node in Nodes(child);
      }
    }
    assert forall q :: q in store && q != p ==> store[q].node != node;
    node.members := node.members[name := childRoot];
    grown := Graft(store, p, name, child);
    GraftShape(root, j, store, p, name, value, childRoot, child);
    GraftNodes(store, p, name, child);
    GraftKeeps(store, p, name, child);
    forall q | q in grown
      ensures IsRecord(grown[q])
    {
    }
  }

  /** A deep copy, as assignment of a JSON value makes one. */
  method Copy(value: Json) returns (root: Node, ghost store: Store)
    ensures Represents(root, value, store) && fresh(Nodes(store))
    decreases value, 1
  {
    root := new Node(value);
    store := map[[] := Record(root, root.isObject, root.leaf, root.members)];
    if !value.Obj? {
      LeafIsRepresented(root, value);
      return;
    }
    LeafIsRepresented(root, EMPTY);
    hide Represents, SetAt;
    store := CopyMembers(root, value, store);
  }

  method CopyMembers(root: Node, value: Json, ghost empty: Store) returns (ghost store: Store)
    requires value.Obj? && Represents(root, EMPTY, empty) && root.isObject
    modifies Nodes(empty)
    ensures Represents(root, value, store) && fresh(Nodes(store) - Nodes(empty))
    decreases value, 0
  {
    hide Represents, SetAt;
    store := empty;
    var left := value.members.Keys;
    ghost var copied: map<string, Json> := map[];
    while left != {}
      invariant left <= value.members.Keys && copied == value.members - left
      invariant Represents(root, Obj(copied), store) && fresh(Nodes(store) - Nodes(empty)) && root.isObject
      decreases left
    {
      var k :| k in left;
      RootNode(root, Obj(copied), store);
      SetAtRoot(copied, k, value.members[k]);
      store := SetMember(root, root, k, value.members[k], Obj(copied), store, []);
      CopyOne(value.members, left, k, copied);
      copied := copied[k := value.members[k]];
      left := left - {k};
    }
    assert copied == value.members;
  }

  lemma CopyOne(all: map<string, Json>, left: set<string>, k: string, copied: map<string, Json>)
    requires left <= all.Keys && k in left && copied == all - left
    ensures copied[k := all[k]] == all - (left - {k})
  {
  }

  lemma RootNode(root: Node, j: Json, store: Store)
    requires Represents(root, j, store)
    ensures [] in store && store[[]].node == root && root in Nodes(store)
  {
  }

  lemma SetAtRoot(members: map<string, Json>, name: string, value: Json)
    ensures SetAt(Obj(members), [], name, value) == Obj(members[name := value])
  {
  }

  lemma LeafIsRepresented(root: Node, value: Json)
    requires root.members == map[] && root.isObject == value.Obj? && (value.Obj? ==> value == EMPTY)
    requires !value.Obj? ==> root.leaf == value
    ensures Represents(root, value, map[[] := Record(root, root.isObject, root.leaf, root.members)])
  {
    forall p
      ensures p == [] <==> At(value, p).Some?
    {
    }
  }

  // ---------- The walk ----------

  /** The metrics object of one notification while its updates are inserted. */
  class Metrics {
    var root: Node
    ghost var doc: Json
    ghost var store: Store

    ghost predicate Valid()
      reads this, Nodes(store)
    {
      Represents(root, doc, store) && doc.Obj?
    }

    constructor ()
      ensures Valid() && doc == EMPTY && fresh(Nodes(store))
    {
      var r := new Node(EMPTY);
      root := r;
      doc := EMPTY;
      store := map[[] := Record(r, r.isObject, r.leaf, r.members)];
      new;
      LeafIsRepresented(r, EMPTY);
    }

    /** Member `name` of the object node at path p, made an object if it is not
        one; what the update of `path` builds is not affected. */
    method Enter(node: Node, name: string, ghost path: Path, ghost value: Json, ghost n: nat) returns (next: Node)
      requires Valid() && n + 1 < |path| && name == path[n]
      requires path[..n] in store && store[path[..n]].node == node && node.isObject
      modifies this, Nodes(store)
      ensures Valid() && fresh(Nodes(store) - old(Nodes(store)))
      ensures root == old(root) && Put(doc, path, value) == Put(old(doc), path, value)
      ensures path[..n + 1] in store && store[path[..n + 1]].node == next && next.isObject
    {
      hide Represents, Put, SetAt, At;
      ghost var p := path[..n];
      assert path[..n + 1] == p + [name];
      assert node in Nodes(store);
      ObjectNode(root, doc, store, p);
      MemberNode(root, doc, store, p, name);
      if name !in node.members || !node.members[name].isObject {
        PreparingKeepsPut(doc, path, value, n);
        SetAtItself(doc, p, name, EMPTY);
        store := SetMember(root, node, name, EMPTY, doc, store, p);
        doc := SetAt(doc, p, name, EMPTY);
        MemberNode(root, doc, store, p, name);
      }
      next := node.members[name];
    }

    /** Assigns the value to the last name of the path, below the object node its
        prefix leads to: that completes the update. */
    method AssignLast(node: Node, name: string, ghost path: Path, value: Json)
      requires Valid() && path != [] && name == path[|path| - 1]
      requires var p := path[..|path| - 1]; p in store && store[p].node == node && node.isObject
      modifies this, Nodes(store)
      ensures Valid() && fresh(Nodes(store) - old(Nodes(store)))
      ensures doc == Put(old(doc), path, value)
    {
      hide Represents, Put, SetAt, At;
      ghost var p := path[..|path| - 1];
      assert node in Nodes(store);
      ObjectNode(root, doc, store, p);
      LastStepIsPut(doc, path, value);
      store := SetMember(root, node, name, value, doc, store, p);
      doc := SetAt(doc, p, name, value);
    }

    /** Walks down the path, turning what is in the way into objects, and
        assigns the value at its end: in memory, one functional update. */
    method Insert(path: Path, value: Json)
      requires Valid()
      modifies this, Nodes(store)
      ensures Valid() && fresh(Nodes(store) - old(Nodes(store)))
      ensures doc == Put(old(doc), path, value)
    {
      hide Represents, Put, SetAt, At;
      var current := root;
      RootNode(root, doc, store);
      ObjectNode(root, doc, store, []);
      AtNothing(doc);
      PutNothing(doc, value);
      assert path[..0] == [];
      ghost var goal := Put(doc, path, value);
      var i := 0;
      while i < |path|
        invariant 0 <= i <= |path| && Valid()
        invariant fresh(Nodes(store) - old(Nodes(store)))
        invariant i == |path| ==> doc == goal
        invariant i < |path| ==> Put(doc, path, value) == goal
        invariant i < |path| ==> path[..i] in store && store[path[..i]].node == current && current.isObject
      {
        var name := path[i];
        if i == |path| - 1 {
          AssignLast(current, name, path, value);
        } else {
          current := Enter(current, name, path, value, i);
        }
        i := i + 1;
      }
    }

    /** All updates of a notification, in the order of arrival. */
    method InsertAll(us: seq<Update>)
      requires Valid()
      modifies this, Nodes(store)
      ensures Valid() && fresh(Nodes(store) - old(Nodes(store)))
      ensures doc == PutAll(old(doc), us)
    {
      assert us[..0] == [];
      for i := 0 to |us|
        invariant Valid() && fresh(Nodes(store) - old(Nodes(store)))
        invariant doc == PutAll(old(doc), us[..i])
      {
        assert us[..i + 1][..i] == us[..i];
        Insert(us[i].path, us[i].value);
      }
      assert us[..|us|] == us;
    }
  }

  lemma AtNothing(j: Json)
    ensures At(j, []) == Some(j)
  {
  }

  lemma MemberNode(root: Node, j: Json, store: Store, p: Path, name: string)
    requires Represents(root, j, store) && p in store && store[p].node.isObject
    ensures At(j, p).Some? && At(j, p).value.Obj?
    ensures name in store[p].node.members <==> name in At(j, p).value.members
    ensures name in store[p].node.members ==>
      && p + [name] in store && store[p + [name]].node == store[p].node.members[name]
      && store[p + [name]].node in Nodes(store)
      && (store[p].node.members[name].isObject <==> At(j, p).value.members[name].Obj?)
  {
    ObjectNode(root, j, store, p);
    if name in store[p].node.members {
      ObjectNode(root, j, store, p + [name]);
      AtStep(j, p, name);
    }
  }

  lemma SetAtItself(j: Json, p: Path, name: string, value: Json)
    requires At(j, p).Some? && At(j, p).value.Obj?
    ensures var after := At(SetAt(j, p, name, value), p);
      after.Some? && after.value.Obj? && name in after.value.members && after.value.members[name] == value
  {
    SetAtBelow(j, p, name, value, []);
    assert p + [name] + [] == p + [name];
    SetAtElsewhere(j, p, name, value, p);
    AtStep(SetAt(j, p, name, value), p, name);
  }
}
