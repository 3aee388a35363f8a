/** The commit queue of one topic partition: offsets are received in order,
    acknowledged in any order, and committed up to the longest acknowledged prefix. */
module OffsetQueue {
  import opened OffsetHeap
  import opened Options

  const INVALID_OFFSET := -1

  ghost predicate Increasing(s: seq<int>) {
    forall i, j :: 0 <= i < j < |s| ==> s[i] < s[j]
  }

  /** The abstract contents: `acked` holds what the heap holds. */
  datatype QueueState = QueueState(received: seq<int>, acked: multiset<int>, toCommit: int, committed: int) {
    ghost predicate Valid() {
      Increasing(received) && forall i :: 0 <= i < |received| ==> received[i] >= 0
    }
  }

  /** The first index from i on whose offset is not acknowledged. */
  ghost function FirstUnacked(received: seq<int>, acked: multiset<int>, i: nat): (k: nat)
    requires i <= |received|
    ensures i <= k <= |received|
    ensures forall j :: i <= j < k ==> received[j] in acked
    ensures k < |received| ==> received[k] !in acked
    decreases |received| - i
  {
    if i == |received| || received[i] !in acked then i else FirstUnacked(received, acked, i + 1)
  }

  /** How many offsets at the front of `received` are acknowledged. */
  ghost function AckedPrefix(received: seq<int>, acked: multiset<int>): (k: nat)
    ensures k <= |received|
    ensures forall i :: 0 <= i < k ==> received[i] in acked
    ensures k < |received| ==> received[k] !in acked
  {
    FirstUnacked(received, acked, 0)
  }

  lemma AckedPrefixIs(received: seq<int>, acked: multiset<int>, k: nat)
    requires k <= |received|
    requires forall i :: 0 <= i < k ==> received[i] in acked
    requires k < |received| ==> received[k] !in acked
    ensures AckedPrefix(received, acked) == k
  {
  }

  ghost predicate IsAtLeast(m: multiset<int>, bound: int, r: multiset<int>) {
    forall x :: r[x] == if x < bound then 0 else m[x]
  }

  lemma {:induction false} AtLeastExists(m: multiset<int>, bound: int)
    ensures exists r :: IsAtLeast(m, bound, r)
    decreases |m|
  {
    if x :| x in m && x < bound {
      var rest := m[x := 0];
      assert m == rest + (m - rest);
      AtLeastExists(rest, bound);
      var r :| IsAtLeast(rest, bound, r);
      assert IsAtLeast(m, bound, r);
    } else {
      assert IsAtLeast(m, bound, m);
    }
  }

  /** The entries of m that are at least `bound`. */
  ghost function AtLeast(m: multiset<int>, bound: int): (r: multiset<int>)
    ensures IsAtLeast(m, bound, r)
  {
    AtLeastExists(m, bound);
    var r :| IsAtLeast(m, bound, r);
    r
  }

  lemma AtLeastIs(m: multiset<int>, bound: int, r: multiset<int>)
    requires IsAtLeast(m, bound, r)
    ensures r == AtLeast(m, bound)
  {
    assert forall x :: r[x] == AtLeast(m, bound)[x];
  }

  /** Acknowledgements `acked` on top of nonempty `received` leave something to
      compare with until the heap is empty: either some received offset stays
      pending, or nothing beyond the newest offset, nor a second copy of it,
      is acknowledged. */
  ghost predicate NoEmptyRead(received: seq<int>, acked: multiset<int>)
    requires received != []
  {
    AckedPrefix(received, acked) == |received| ==>
      var newest := received[|received| - 1];
      acked[newest] == 1 && forall x :: x in acked ==> x <= newest
  }

  /** The queue after its first k received offsets have been committed, all of
      `acked` being acknowledged; what is older than the rest is dropped. */
  ghost function Advanced(q: QueueState, acked: multiset<int>, k: nat): QueueState
    requires k <= |q.received|
  {
    q.(received := q.received[k..],
       acked := if k == |q.received| then multiset{} else AtLeast(acked, q.received[k]),
       toCommit := if k == 0 then q.toCommit else q.received[k - 1] + 1)
  }

  /** What one acknowledgement does; None is a read of an empty deque. */
  ghost function AfterAck(q: QueueState, offset: int): Option<QueueState> {
    var acked := q.acked + multiset{offset};
    if q.received == [] || !NoEmptyRead(q.received, acked) then None
    else Some(Advanced(q, acked, AckedPrefix(q.received, acked)))
  }

  ghost predicate Accepts(received: seq<int>, offset: int) {
    offset >= 0 && (received == [] || offset > received[|received| - 1])
  }

  ghost function AfterWait(q: QueueState, offset: int): QueueState {
    if Accepts(q.received, offset) then q.(received := q.received + [offset]) else q
  }

  ghost function AfterPop(q: QueueState): (QueueState, Option<int>) {
    if q.committed != q.toCommit
    then (q.(committed := q.toCommit), Some(q.toCommit))
    else (q, None)
  }

  /** The acknowledgement loop on the pending acknowledgements in ascending
      order, with a read of an empty deque made visible as None. */
  function AckLoop(received: seq<int>, acks: seq<int>, toCommit: int): Option<(seq<int>, seq<int>, int)>
    decreases |acks|
  {
    if acks == [] then Some((received, acks, toCommit))
    else if received == [] then None
    else if acks[0] == received[0] then AckLoop(received[1..], acks[1..], received[0] + 1)
    else if acks[0] < received[0] then AckLoop(received, acks[1..], toCommit)
    else Some((received, acks, toCommit))
  }

  lemma AscendingTail(acks: seq<int>)
    requires Sorted(acks) && acks != []
    ensures Sorted(acks[1..]) && multiset(acks) == multiset{acks[0]} + multiset(acks[1..])
    ensures forall x :: x in multiset(acks[1..]) ==> acks[0] <= x
  {
    assert acks == [acks[0]] + acks[1..];
    forall x | x in multiset(acks[1..])
      ensures acks[0] <= x
    {
      assert x in acks[1..];
    }
  }

  /** Dropping an acknowledgement older than everything pending changes nothing. */
  lemma OldAckIsIrrelevant(received: seq<int>, ack: int, rest: multiset<int>)
    requires Increasing(received) && received != [] && ack < received[0]
    ensures NoEmptyRead(received, multiset{ack} + rest) <==> NoEmptyRead(received, rest)
  {
    var all := multiset{ack} + rest;
    assert forall i :: 0 <= i < |received| ==> all[received[i]] == rest[received[i]];
    AckedPrefixIs(received, all, AckedPrefix(received, rest));
    assert forall x :: x in all <==> x == ack || x in rest;
  }

  lemma MatchedPrefix(received: seq<int>, rest: multiset<int>)
    requires Increasing(received) && received != []
    ensures AckedPrefix(received, multiset{received[0]} + rest) == 1 + AckedPrefix(received[1..], rest)
  {
    var all, tail := multiset{received[0]} + rest, received[1..];
    assert forall i :: 0 <= i < |tail| ==> tail[i] == received[i + 1] && all[tail[i]] == rest[tail[i]];
    var p := AckedPrefix(tail, rest);
    forall i | 0 <= i < 1 + p
      ensures received[i] in all
    {
      assert i > 0 ==> tail[i - 1] in rest;
    }
    AckedPrefixIs(received, all, 1 + p);
  }

  lemma MatchedAckAdvances(received: seq<int>, rest: multiset<int>)
    requires Increasing(received) && |received| > 1
    ensures NoEmptyRead(received, multiset{received[0]} + rest) <==> NoEmptyRead(received[1..], rest)
  {
    hide AckedPrefix;
    MatchedPrefix(received, rest);
    var all, tail := multiset{received[0]} + rest, received[1..];
    assert tail[|tail| - 1] == received[|received| - 1];
    assert forall x :: x in all <==> x == received[0] || x in rest;
  }

  lemma HeldIsNothing(m: multiset<int>)
    requires forall x :: x !in m
    ensures m == multiset{}
  {
    forall x: int
      ensures m[x] == 0
    {
      assert x !in m;
    }
  }

  lemma NewestIsMatched(newest: int, rest: multiset<int>)
    requires forall x :: x in rest ==> newest <= x
    ensures NoEmptyRead([newest], multiset{newest} + rest) <==> rest == multiset{}
  {
    var all := multiset{newest} + rest;
    AckedPrefixIs([newest], all, 1);
    if x :| x in rest {
      assert x in all && (x > newest || all[newest] > 1);
    } else {
      HeldIsNothing(rest);
    }
  }

  lemma UnmatchedIsSafe(received: seq<int>, acks: seq<int>)
    requires Increasing(received) && received != [] && Sorted(acks)
    requires acks == [] || acks[0] > received[0]
    ensures NoEmptyRead(received, multiset(acks))
  {
    assert received[0] !in acks;
    AckedPrefixIs(received, multiset(acks), 0);
  }

  /** The deque is read while empty exactly when the declarative condition fails. */
  lemma {:induction false} AckLoopReadsEmptyDeque(received: seq<int>, acks: seq<int>, toCommit: int)
    requires Increasing(received) && received != [] && Sorted(acks)
    ensures AckLoop(received, acks, toCommit) == None <==> !NoEmptyRead(received, multiset(acks))
    decreases |acks|
  {
    hide NoEmptyRead, AckedPrefix;
    if acks == [] || acks[0] > received[0] {
      UnmatchedIsSafe(received, acks);
    } else {
      AscendingTail(acks);
      if acks[0] < received[0] {
        AckLoopReadsEmptyDeque(received, acks[1..], toCommit);
        OldAckIsIrrelevant(received, acks[0], multiset(acks[1..]));
      } else if |received| > 1 {
        AckLoopReadsEmptyDeque(received[1..], acks[1..], received[0] + 1);
        MatchedAckAdvances(received, multiset(acks[1..]));
      } else {
        assert received == [received[0]];
        NewestIsMatched(received[0], multiset(acks[1..]));
        HeldIsEmpty(acks[1..]);
      }
    }
  }

  /** What the loop leaves, in terms of the acknowledged prefix. */
  ghost predicate LoopLeaves(received: seq<int>, acks: multiset<int>, toCommit: int, r: (seq<int>, seq<int>, int)) {
    var k := AckedPrefix(received, acks);
    && r.0 == received[k..]
    && IsAtLeastOrNone(acks, r.0, multiset(r.1))
    && r.2 == if k == 0 then toCommit else received[k - 1] + 1
  }

  ghost predicate IsAtLeastOrNone(m: multiset<int>, pending: seq<int>, left: multiset<int>) {
    if pending == [] then left == multiset{} else IsAtLeast(m, pending[0], left)
  }

  lemma OldAckIsDropped(received: seq<int>, ack: int, rest: multiset<int>, toCommit: int, r: (seq<int>, seq<int>, int))
    requires Increasing(received) && received != [] && ack < received[0] && LoopLeaves(received, rest, toCommit, r)
    ensures LoopLeaves(received, multiset{ack} + rest, toCommit, r)
  {
    var all := multiset{ack} + rest;
    assert forall i :: 0 <= i < |received| ==> all[received[i]] == rest[received[i]];
    AckedPrefixIs(received, all, AckedPrefix(received, rest));
  }

  lemma MatchedAckIsTaken(received: seq<int>, rest: multiset<int>, toCommit: int, r: (seq<int>, seq<int>, int))
    requires Increasing(received) && received != [] && LoopLeaves(received[1..], rest, received[0] + 1, r)
    ensures LoopLeaves(received, multiset{received[0]} + rest, toCommit, r)
  {
    hide AckedPrefix;
    MatchedPrefix(received, rest);
    var p := AckedPrefix(received[1..], rest);
    AckedPrefixFits(received[1..], rest);
    assert received[1..][p..] == received[p + 1..];
    assert p > 0 ==> received[1..][p - 1] == received[p];
  }

  lemma AckedPrefixFits(received: seq<int>, acked: multiset<int>)
    ensures AckedPrefix(received, acked) <= |received|
  {
  }

  lemma NothingIsTaken(received: seq<int>, acks: seq<int>, toCommit: int)
    requires Increasing(received) && Sorted(acks)
    requires acks == [] || (received != [] && acks[0] > received[0])
    ensures LoopLeaves(received, multiset(acks), toCommit, (received, acks, toCommit))
  {
    assert forall x :: x in multiset(acks) ==> x in acks;
    AckedPrefixIs(received, multiset(acks), 0);
    if received != [] {
      assert forall x :: x < received[0] ==> multiset(acks)[x] == 0;
    }
  }

  /** The loop on the ascending acknowledgements, which is simple, computes what
      the heap computes. */
  lemma {:induction false} AckLoopIsAfterAck(received: seq<int>, acks: seq<int>, toCommit: int)
    requires Increasing(received) && Sorted(acks) && AckLoop(received, acks, toCommit).Some?
    ensures LoopLeaves(received, multiset(acks), toCommit, AckLoop(received, acks, toCommit).value)
    decreases |acks|
  {
    hide LoopLeaves, AckedPrefix;
    if acks == [] || acks[0] > received[0] {
      NothingIsTaken(received, acks, toCommit);
    } else {
      AscendingTail(acks);
      if acks[0] < received[0] {
        AckLoopIsAfterAck(received, acks[1..], toCommit);
        OldAckIsDropped(received, acks[0], multiset(acks[1..]), toCommit, AckLoop(received, acks, toCommit).value);
      } else {
        AckLoopIsAfterAck(received[1..], acks[1..], received[0] + 1);
        MatchedAckIsTaken(received, multiset(acks[1..]), toCommit, AckLoop(received, acks, toCommit).value);
      }
    }
  }

  // ---------- The same loop on the heap ----------

  /** The acknowledgement loop as the code runs it, on the vector of the heap. */
  function HeapLoop(received: seq<int>, heap: seq<int>, toCommit: int): Option<(seq<int>, seq<int>, int)>
    decreases |heap|
  {
    if heap == [] then Some((received, heap, toCommit))
    else if received == [] then None
    else
      PoppedLength(heap);
      if heap[0] == received[0] then HeapLoop(received[1..], Popped(heap), received[0] + 1)
      else if heap[0] < received[0] then HeapLoop(received, Popped(heap), toCommit)
      else Some((received, heap, toCommit))
  }

  /** The heap hands out the acknowledgements in ascending order: its loop reads
      an empty deque exactly when the plain one does, and leaves the same. */
  lemma {:induction false} HeapLoopIsAckLoop(received: seq<int>, heap: seq<int>, toCommit: int)
    ensures AckLoop(received, Drain(heap), toCommit) ==
      match HeapLoop(received, heap, toCommit)
        case None => None
        case Some(r) => Some((r.0, Drain(r.1), r.2))
    decreases |heap|
  {
    if heap != [] && received != [] && heap[0] <= received[0] {
      PoppedLength(heap);
      assert Drain(heap)[1..] == Drain(Popped(heap));
      HeapLoopIsAckLoop(if heap[0] == received[0] then received[1..] else received, Popped(heap),
                        if heap[0] == received[0] then received[0] + 1 else toCommit);
    }
  }

  lemma {:induction false} HeapLoopKeepsOrder(received: seq<int>, heap: seq<int>, toCommit: int)
    requires Ordered(heap) && HeapLoop(received, heap, toCommit).Some?
    ensures Ordered(HeapLoop(received, heap, toCommit).value.1)
    decreases |heap|
  {
    hide Ordered;
    if heap != [] && heap[0] <= received[0] {
      PoppedLaws(heap);
      PoppedLength(heap);
      HeapLoopKeepsOrder(if heap[0] == received[0] then received[1..] else received, Popped(heap),
                         if heap[0] == received[0] then received[0] + 1 else toCommit);
    }
  }

  /** The deque is read while empty exactly when the declarative condition fails. */
  lemma HeapLoopReadsEmptyDeque(received: seq<int>, heap: seq<int>, toCommit: int)
    requires Increasing(received) && received != [] && Ordered(heap)
    ensures HeapLoop(received, heap, toCommit) == None <==> !NoEmptyRead(received, multiset(heap))
  {
    hide NoEmptyRead, Ordered, Drain, AckLoop, HeapLoop;
    DrainSorts(heap);
    HeapLoopIsAckLoop(received, heap, toCommit);
    AckLoopReadsEmptyDeque(received, Drain(heap), toCommit);
  }

  lemma LeavingIsAdvancing(q: QueueState, acks: multiset<int>, r: (seq<int>, seq<int>, int))
    requires LoopLeaves(q.received, acks, q.toCommit, r)
    ensures AckedPrefix(q.received, acks) <= |q.received|
    ensures Advanced(q, acks, AckedPrefix(q.received, acks)) == QueueState(r.0, multiset(r.1), r.2, q.committed)
  {
    hide AckedPrefix, AtLeast;
    AckedPrefixFits(q.received, acks);
    var k := AckedPrefix(q.received, acks);
    if k < |q.received| {
      AtLeastIs(acks, q.received[k], multiset(r.1));
    }
  }

  /** What the heap loop leaves is what the acknowledgement is meant to do. */
  lemma HeapLoopIsAfterAck(q: QueueState, offset: int, heap: seq<int>)
    requires q.Valid() && Ordered(heap) && multiset(heap) == q.acked + multiset{offset}
    requires AfterAck(q, offset).Some?
    ensures HeapLoop(q.received, heap, q.toCommit).Some?
    ensures var r := HeapLoop(q.received, heap, q.toCommit).value;
      Ordered(r.1) && AfterAck(q, offset).value == QueueState(r.0, multiset(r.1), r.2, q.committed)
  {
    hide NoEmptyRead, Ordered, Drain, AckLoop, HeapLoop, AckedPrefix, Advanced, LoopLeaves;
    HeapLoopReadsEmptyDeque(q.received, heap, q.toCommit);
    HeapLoopKeepsOrder(q.received, heap, q.toCommit);
    HeapLoopIsAckLoop(q.received, heap, q.toCommit);
    DrainSorts(heap);
    AckLoopIsAfterAck(q.received, Drain(heap), q.toCommit);
    var r := HeapLoop(q.received, heap, q.toCommit).value;
    DrainSorts(r.1);
    LeavingIsTheSame(q.received, multiset(heap), q.toCommit, (r.0, Drain(r.1), r.2), r);
    LeavingIsAdvancing(q, multiset(heap), r);
  }

  lemma LeavingIsTheSame(received: seq<int>, acks: multiset<int>, toCommit: int,
                         r: (seq<int>, seq<int>, int), s: (seq<int>, seq<int>, int))
    requires LoopLeaves(received, acks, toCommit, r) && s.0 == r.0 && multiset(s.1) == multiset(r.1) && s.2 == r.2
    ensures LoopLeaves(received, acks, toCommit, s)
  {
  }

  lemma HeldIsEmpty(data: seq<int>)
    ensures data == [] <==> multiset(data) == multiset{}
  {
    if data != [] {
      assert data[0] in multiset(data);
    }
  }

  lemma ReceivedIsNotEmpty(q: QueueState, offset: int)
    requires AfterAck(q, offset).Some?
    ensures q.received != []
  {
  }

  lemma AfterAckIsValid(q: QueueState, offset: int)
    requires q.Valid() && AfterAck(q, offset).Some?
    ensures AfterAck(q, offset).value.Valid()
  {
    hide AtLeast, NoEmptyRead;
  }

  class UnorderedOffsetCommitQueue {
    var offsetsReceived: seq<int>
    const offsetsToCommit: Heap
    var toCommit: int
    var committed: int

    ghost predicate Valid()
      reads this, offsetsToCommit
    {
      State().Valid() && Ordered(offsetsToCommit.data)
    }

    ghost function State(): QueueState
      reads this, offsetsToCommit
    {
      QueueState(offsetsReceived, multiset(offsetsToCommit.data), toCommit, committed)
    }

    constructor ()
      ensures Valid() && fresh(offsetsToCommit)
      ensures State() == QueueState([], multiset{}, INVALID_OFFSET, INVALID_OFFSET)
    {
      offsetsReceived := [];
      offsetsToCommit := new Heap();
      toCommit := INVALID_OFFSET;
      committed := INVALID_OFFSET;
    }

    method Size() returns (n: nat)
      ensures n == |State().received|
    {
      n := |offsetsReceived|;
    }

    method WaitOffset(offset: int)
      requires Valid()
      modifies this
      ensures Valid() && State() == AfterWait(old(State()), offset)
      ensures var pending := old(offsetsReceived);
        offsetsReceived ==
          if offset < 0 || (pending != [] && offset <= pending[|pending| - 1]) then pending else pending + [offset]
    {
      if offset < 0 || (offsetsReceived != [] && offset <= offsetsReceived[|offsetsReceived| - 1]) {
        return;
      }
      offsetsReceived := offsetsReceived + [offset];
    }

    /** One turn of the acknowledgement loop; false stops it. */
    method CompareFronts() returns (more: bool)
      requires Ordered(offsetsToCommit.data) && offsetsToCommit.data != [] && offsetsReceived != []
      modifies this, offsetsToCommit
      ensures Ordered(offsetsToCommit.data) && committed == old(committed)
      ensures more == (old(offsetsToCommit.data[0]) <= old(offsetsReceived[0]))
      ensures offsetsToCommit.data == if more then Popped(old(offsetsToCommit.data)) else old(offsetsToCommit.data)
      ensures if old(offsetsToCommit.data[0]) == old(offsetsReceived[0])
        then offsetsReceived == old(offsetsReceived)[1..] && toCommit == old(offsetsReceived[0]) + 1
        else offsetsReceived == old(offsetsReceived) && toCommit == old(toCommit)
    {
      var minOffset := offsetsToCommit.Front();
      var expected := offsetsReceived[0];
      if minOffset == expected {
        toCommit := expected + 1;
        offsetsToCommit.PopFront();
        offsetsReceived := offsetsReceived[1..];
        more := true;
      } else if minOffset < expected {
        offsetsToCommit.PopFront();
        more := true;
      } else {
        more := false;
      }
    }

    /** The documented protocol, acknowledging only a pending offset and only
        once, implies the precondition (see OffsetQueueRuns). Acknowledging
        an offset older than everything pending is allowed and is dropped. */
    method AckOffset(offset: int)
      requires Valid() && AfterAck(State(), offset).Some?
      modifies this, offsetsToCommit
      ensures Valid() && State() == AfterAck(old(State()), offset).value
      ensures HeapLoop(old(offsetsReceived), Pushed(old(offsetsToCommit.data), offset), old(toCommit))
           == Some((offsetsReceived, offsetsToCommit.data, toCommit))
    {
      hide AfterAck, Ordered, Popped, Pushed;
      ghost var q := State();
      ReceivedIsNotEmpty(q, offset);
      offsetsToCommit.Push(offset);
      HeldIsEmpty(offsetsToCommit.data);
      ghost var goal := HeapLoop(offsetsReceived, offsetsToCommit.data, toCommit);
      HeapLoopIsAfterAck(q, offset, offsetsToCommit.data);
      while true
        invariant HeapLoop(offsetsReceived, offsetsToCommit.data, toCommit) == goal
        invariant Ordered(offsetsToCommit.data) && committed == q.committed
        invariant offsetsReceived != [] && offsetsToCommit.data != []
        decreases |offsetsToCommit.data|
      {
        PoppedLength(offsetsToCommit.data);
        var more := CompareFronts();
        if !more || offsetsToCommit.Empty() {
          break;
        }
      }
      AfterAckIsValid(q, offset);
    }

    method PopOffsetToCommit() returns (ret: Option<int>)
      requires Valid()
      modifies this
      ensures Valid() && (State(), ret) == AfterPop(old(State()))
    {
      ret := None;
      if committed != toCommit {
        committed := toCommit;
        ret := Some(committed);
      }
    }

    method LastPoppedOffset() returns (ret: Option<int>)
      ensures ret == if State().committed == INVALID_OFFSET then None else Some(State().committed)
    {
      ret := None;
      if committed != INVALID_OFFSET {
        ret := Some(committed);
      }
    }
  }

}
