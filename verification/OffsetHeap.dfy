/** The array heap that orders acknowledged offsets.

    The sift loops are specified by recursive functions on the contents of the
    vector; the laws of a priority queue are proved about those functions. */
module OffsetHeap {

  function Parent(i: nat): nat
    requires i > 0
  {
    (i + 1) / 2 - 1
  }

  ghost predicate Ordered(s: seq<int>) {
    forall i :: 0 < i < |s| ==> s[Parent(i)] <= s[i]
  }

  ghost predicate Sorted(s: seq<int>) {
    forall i, j :: 0 <= i < j < |s| ==> s[i] <= s[j]
  }

  function Swap(s: seq<int>, i: nat, j: nat): (r: seq<int>)
    requires i < |s| && j < |s|
    ensures |r| == |s|
  {
    s[i := s[j]][j := s[i]]
  }

  /** Moves entry i towards the root while it is smaller than its parent. */
  function SiftUp(s: seq<int>, i: nat): (r: seq<int>)
    requires i < |s|
    ensures |r| == |s|
    decreases i
  {
    if i == 0 || s[Parent(i)] <= s[i] then s else SiftUp(Swap(s, i, Parent(i)), Parent(i))
  }

  /** The child a sift-down step looks at; the right child wins a tie. */
  function MinChild(s: seq<int>, i: nat): (c: nat)
    requires 2 * i + 1 < |s|
    ensures i < c < |s| && Parent(c) == i
    ensures forall j :: i < j < |s| && Parent(j) == i ==> s[c] <= s[j]
  {
    var right := (i + 1) * 2;
    var left := right - 1;
    if right >= |s| || s[left] < s[right] then left else right
  }

  /** Moves entry i towards the leaves while its smaller child is smaller. */
  function SiftDown(s: seq<int>, i: nat): (r: seq<int>)
    requires i < |s|
    ensures |r| == |s|
    decreases |s| - i
  {
    if 2 * i + 1 >= |s| then s
    else
      var c := MinChild(s, i);
      if s[i] <= s[c] then s else SiftDown(Swap(s, i, c), c)
  }

  function Pushed(s: seq<int>, x: int): seq<int> {
    SiftUp(s + [x], |s|)
  }

  function Popped(s: seq<int>): seq<int>
    requires s != []
  {
    var t := Shrunk(s);
    if t == [] then t else SiftDown(t, 0)
  }

  /** All entries in the order in which repeated popping hands them out. */
  function Drain(s: seq<int>): seq<int>
    decreases |s|
  {
    if s == [] then [] else PoppedLength(s); [s[0]] + Drain(Popped(s))
  }

  lemma SiftDownOnce(s: seq<int>, i: nat)
    requires i < |s|
    ensures SiftDown(s, i) ==
      var right := (i + 1) * 2;
      var c := if right >= |s| || s[right - 1] < s[right] then right - 1 else right;
      if right - 1 >= |s| || s[i] <= s[c] then s else SiftDown(Swap(s, i, c), c)
  {
  }

  lemma PoppedStarts(s: seq<int>)
    requires s != []
    ensures Popped(s) ==
      var t := s[0 := s[|s| - 1]][..|s| - 1];
      if t == [] then t else SiftDown(t, 0)
  {
  }

  lemma PoppedLength(s: seq<int>)
    requires s != []
    ensures |Popped(s)| == |s| - 1
  {
  }

  lemma SwapContents(s: seq<int>, i: nat, j: nat)
    requires i < |s| && j < |s|
    ensures multiset(Swap(s, i, j)) == multiset(s)
  {
  }

  lemma {:induction false} SiftUpKeepsContents(s: seq<int>, i: nat)
    requires i < |s|
    ensures multiset(SiftUp(s, i)) == multiset(s)
    decreases i
  {
    if i > 0 && s[Parent(i)] > s[i] {
      SwapContents(s, i, Parent(i));
      SiftUpKeepsContents(Swap(s, i, Parent(i)), Parent(i));
    }
  }

  /** Sift-up repairs a heap that is broken only between entry i and its parent. */
  lemma {:induction false} SiftUpRestoresOrder(s: seq<int>, i: nat)
    requires i < |s|
    requires forall j :: 0 < j < |s| && j != i ==> s[Parent(j)] <= s[j]
    requires forall j :: 0 < i < j < |s| && Parent(j) == i ==> s[Parent(i)] <= s[j]
    ensures Ordered(SiftUp(s, i))
    decreases i
  {
    if i > 0 && s[Parent(i)] > s[i] {
      SiftUpRestoresOrder(Swap(s, i, Parent(i)), Parent(i));
    }
  }

  lemma {:induction false} SiftDownKeepsContents(s: seq<int>, i: nat)
    requires i < |s|
    ensures multiset(SiftDown(s, i)) == multiset(s)
    decreases |s| - i
  {
    if 2 * i + 1 < |s| && s[i] > s[MinChild(s, i)] {
      SwapContents(s, i, MinChild(s, i));
      SiftDownKeepsContents(Swap(s, i, MinChild(s, i)), MinChild(s, i));
    }
  }

  /** Sift-down repairs a heap that is broken only between entry i and its children. */
  lemma {:induction false} SiftDownRestoresOrder(s: seq<int>, i: nat)
    requires i < |s|
    requires forall j :: 0 < j < |s| && Parent(j) != i ==> s[Parent(j)] <= s[j]
    requires forall j :: 0 < i < j < |s| && Parent(j) == i ==> s[Parent(i)] <= s[j]
    ensures Ordered(SiftDown(s, i))
    decreases |s| - i
  {
    if 2 * i + 1 < |s| && s[i] > s[MinChild(s, i)] {
      SiftDownRestoresOrder(Swap(s, i, MinChild(s, i)), MinChild(s, i));
    }
  }

  lemma PushedLaws(s: seq<int>, x: int)
    requires Ordered(s)
    ensures Ordered(Pushed(s, x))
    ensures multiset(Pushed(s, x)) == multiset(s) + multiset{x}
  {
    SiftUpKeepsContents(s + [x], |s|);
    SiftUpRestoresOrder(s + [x], |s|);
  }

  /** The vector once its last entry has replaced the front. */
  function Shrunk(s: seq<int>): seq<int>
    requires s != []
  {
    s[0 := s[|s| - 1]][..|s| - 1]
  }

  lemma ShrunkContents(s: seq<int>)
    requires s != []
    ensures multiset(Shrunk(s)) == multiset(s) - multiset{s[0]}
  {
    var n := |s| - 1;
    if n > 0 {
      assert Shrunk(s) == [s[n]] + s[1..n];
      assert s == [s[0]] + s[1..n] + [s[n]];
    } else {
      assert s == [s[0]];
    }
  }

  lemma ShrunkOrder(s: seq<int>)
    requires s != [] && Ordered(s)
    ensures forall j :: 0 < j < |Shrunk(s)| && Parent(j) != 0 ==> Shrunk(s)[Parent(j)] <= Shrunk(s)[j]
  {
    assert forall j :: 0 < j < |Shrunk(s)| ==> Shrunk(s)[j] == s[j];
  }

  lemma PoppedLaws(s: seq<int>)
    requires s != [] && Ordered(s)
    ensures Ordered(Popped(s))
    ensures multiset(Popped(s)) == multiset(s) - multiset{s[0]}
  {
    var t := Shrunk(s);
    ShrunkContents(s);
    ShrunkOrder(s);
    if t != [] {
      hide Shrunk, Ordered, SiftDown;
      SiftDownKeepsContents(t, 0);
      SiftDownRestoresOrder(t, 0);
    }
  }

  lemma {:induction false} FrontIsMinimum(s: seq<int>, i: nat)
    requires Ordered(s) && i < |s|
    ensures s[0] <= s[i]
    decreases i
  {
    if i > 0 {
      FrontIsMinimum(s, Parent(i));
    }
  }

  lemma FrontIsLeast(s: seq<int>)
    requires Ordered(s) && s != []
    ensures forall x :: x in multiset(s) ==> s[0] <= x
  {
    forall x | x in multiset(s)
      ensures s[0] <= x
    {
      var i :| 0 <= i < |s| && s[i] == x;
      FrontIsMinimum(s, i);
    }
  }

  lemma PrependLeast(x: int, rest: seq<int>)
    requires Sorted(rest) && forall y :: y in multiset(rest) ==> x <= y
    ensures Sorted([x] + rest) && multiset([x] + rest) == multiset{x} + multiset(rest)
  {
    forall i | 0 <= i < |rest|
      ensures x <= rest[i]
    {
      assert rest[i] in multiset(rest);
    }
  }

  /** Popping until empty is a heap sort. */
  lemma {:induction false} DrainSorts(s: seq<int>)
    requires Ordered(s)
    ensures Sorted(Drain(s)) && multiset(Drain(s)) == multiset(s)
    decreases |s|
  {
    if s != [] {
      PoppedLaws(s);
      PoppedLength(s);
      FrontIsLeast(s);
      DrainSorts(Popped(s));
      PrependLeast(s[0], Drain(Popped(s)));
      assert s[0] in multiset(s);
    }
  }

  class Heap {
    var data: seq<int>

    constructor ()
      ensures data == []
    {
      data := [];
    }

    predicate Empty()
      reads this
    {
      data == []
    }

    function Front(): int
      requires data != []
      reads this
    {
      data[0]
    }

    method Push(x: int)
      requires Ordered(data)
      modifies this
      ensures data == Pushed(old(data), x)
      ensures Ordered(data) && multiset(data) == multiset(old(data)) + multiset{x}
    {
      hide Ordered;
      ghost var goal := Pushed(data, x);
      PushedLaws(data, x);
      data := data + [x];
      var current: nat := |data| - 1;
      while current > 0
        invariant current < |data| && SiftUp(data, current) == goal
      {
        var parent := (current + 1) / 2 - 1;
        if !(data[current] < data[parent]) {
          break;
        }
        data := Swap(data, current, parent);
        current := parent;
      }
    }

    method PopFront()
      requires data != [] && Ordered(data)
      modifies this
      ensures data == Popped(old(data))
      ensures Ordered(data) && multiset(data) == multiset(old(data)) - multiset{old(data[0])}
    {
      hide Ordered, SiftDown, Popped, Parent, Swap;
      ghost var goal := Popped(data);
      PoppedLaws(data);
      PoppedStarts(data);
      data := data[0 := data[|data| - 1]];
      data := data[..|data| - 1];
      if data == [] {
        return;
      }
      var current: nat := 0;
      while true
        invariant current < |data| && SiftDown(data, current) == goal
        decreases |data| - current
      {
        SiftDownOnce(data, current);
        var right := (current + 1) * 2;
        var left := right - 1;
        if left >= |data| {
          break;
        }
        var minChild := if right >= |data| || data[left] < data[right] then left else right;
        if !(data[minChild] < data[current]) {
          break;
        }
        data := Swap(data, current, minChild);
        current := minChild;
      }
    }
  }
}
