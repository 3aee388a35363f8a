/** Whole runs of the commit queue against a reference machine that remembers
    every accepted offset and which of them were acknowledged. */
module OffsetQueueRuns {
  import opened OffsetQueue
  import opened Options

  datatype Event = Wait(offset: int) | Ack(offset: int) | Pop

  const INITIAL := QueueState([], multiset{}, INVALID_OFFSET, INVALID_OFFSET)

  /** One call on the queue; None is a read of an empty deque. */
  ghost function Step(q: QueueState, e: Event): Option<QueueState> {
    match e
    case Wait(o) => Some(AfterWait(q, o))
    case Ack(o) => AfterAck(q, o)
    case Pop => Some(AfterPop(q).0)
  }

  ghost function Run(es: seq<Event>): Option<QueueState> {
    if es == [] then Some(INITIAL)
    else
      var before := Run(es[..|es| - 1]);
      if before == None then None else Step(before.value, es[|es| - 1])
  }

  // ---------- The reference machine ----------

  /** Every accepted offset in order of arrival, and the indices acknowledged.
      Offsets may repeat: a drained queue accepts any offset again. */
  datatype History = History(waited: seq<int>, acked: set<nat>) {
    /** The longest fully acknowledged prefix. */
    ghost function Frontier(): (f: nat)
      ensures f <= |waited|
      ensures forall i: nat :: i < f ==> i in acked
      ensures f < |waited| ==> f !in acked
    {
      FrontierFrom(0)
    }

    ghost function FrontierFrom(i: nat): (f: nat)
      requires i <= |waited|
      ensures i <= f <= |waited|
      ensures forall j: nat :: i <= j < f ==> j in acked
      ensures f < |waited| ==> f !in acked
      decreases |waited| - i
    {
      if i == |waited| || i !in acked then i else FrontierFrom(i + 1)
    }

    lemma FrontierIs(f: nat)
      requires f <= |waited|
      requires forall i: nat :: i < f ==> i in acked
      requires f < |waited| ==> f !in acked
      ensures Frontier() == f
    {
    }

    ghost predicate Pending(i: nat) {
      i < |waited| && i !in acked
    }

    ghost function After(e: Event): History {
      match e
      case Wait(o) =>
        if Accepts(waited[Frontier()..], o) then History(waited + [o], acked) else this
      case Ack(o) =>
        if i: nat :| Pending(i) && waited[i] == o then History(waited, acked + {i}) else this
      case Pop => this
    }
  }

  /** The documented protocol: an acknowledgement names an offset that was
      accepted and has not been acknowledged. */
  ghost predicate Allowed(h: History, e: Event) {
    e.Ack? ==> exists i: nat :: h.Pending(i) && h.waited[i] == e.offset
  }

  ghost function RunHistory(es: seq<Event>): History {
    if es == [] then History([], {}) else RunHistory(es[..|es| - 1]).After(es[|es| - 1])
  }

  ghost predicate FollowsProtocol(es: seq<Event>) {
    forall n :: 0 <= n < |es| ==> Allowed(RunHistory(es[..n]), es[n])
  }

  lemma ProtocolPrefix(es: seq<Event>, n: nat)
    requires FollowsProtocol(es) && n <= |es|
    ensures FollowsProtocol(es[..n])
  {
    forall k | 0 <= k < n
      ensures Allowed(RunHistory(es[..n][..k]), es[..n][k])
    {
      assert es[..n][..k] == es[..k];
    }
  }

  // ---------- Refinement ----------

  /** `held` is one copy of every pending offset that is acknowledged; the
      pending offset `received[j]` has index f + j in the history. */
  ghost predicate HoldsPending(received: seq<int>, f: nat, acked: set<nat>, held: multiset<int>) {
    && (forall j :: 0 <= j < |received| ==> held[received[j]] == if f + j in acked then 1 else 0)
    && (forall x {:trigger x in received} :: x in held ==> x in received)
  }

  ghost predicate Refines(h: History, q: QueueState) {
    var f := h.Frontier();
    && (forall i :: i in h.acked ==> i < |h.waited|)
    && (forall i :: 0 <= i < |h.waited| ==> h.waited[i] >= 0)
    && q.received == h.waited[f..] && Increasing(q.received)
    && HoldsPending(q.received, f, h.acked, q.acked)
    && q.toCommit == (if f == 0 then INVALID_OFFSET else h.waited[f - 1] + 1)
  }

  lemma HoldsWaiting(received: seq<int>, f: nat, acked: set<nat>, held: multiset<int>, o: int)
    requires Increasing(received) && HoldsPending(received, f, acked, held)
    requires Accepts(received, o) && f + |received| !in acked
    ensures Increasing(received + [o]) && HoldsPending(received + [o], f, acked, held)
  {
    assert o !in received;
    assert o !in held;
  }

  lemma WaitRefines(h: History, q: QueueState, o: int)
    requires Refines(h, q)
    ensures Refines(h.After(Wait(o)), AfterWait(q, o))
  {
    hide HoldsPending, Increasing, History.Frontier;
    if Accepts(q.received, o) {
      var f, h' := h.Frontier(), h.After(Wait(o));
      assert |h.waited| !in h.acked;
      h'.FrontierIs(f);
      assert h'.waited[f..] == q.received + [o];
      HoldsWaiting(q.received, f, h.acked, q.acked, o);
    }
  }

  lemma IncreasingSuffix(s: seq<int>, n: nat)
    requires Increasing(s) && n <= |s|
    ensures Increasing(s[n..])
  {
  }

  lemma HoldsOneMore(received: seq<int>, f: nat, acked: set<nat>, held: multiset<int>, j: nat)
    requires Increasing(received) && HoldsPending(received, f, acked, held)
    requires j < |received| && f + j !in acked
    ensures HoldsPending(received, f, acked + {f + j}, held + multiset{received[j]})
  {
  }

  lemma ProtocolAvoidsEmptyRead(received: seq<int>, f: nat, acked: set<nat>, held: multiset<int>)
    requires received != [] && Increasing(received) && HoldsPending(received, f, acked, held)
    ensures NoEmptyRead(received, held)
  {
    var newest := received[|received| - 1];
    if AckedPrefix(received, held) == |received| {
      assert newest in held;
      forall x | x in held
        ensures x <= newest
      {
        assert x in received;
        var j :| 0 <= j < |received| && received[j] == x;
      }
    }
  }

  lemma HoldsRest(received: seq<int>, f: nat, acked: set<nat>, held: multiset<int>, k: nat)
    requires Increasing(received) && HoldsPending(received, f, acked, held) && k < |received|
    ensures HoldsPending(received[k..], f + k, acked, AtLeast(held, received[k]))
  {
    hide AtLeast;
    var tail, rest := received[k..], AtLeast(held, received[k]);
    assert forall j :: 0 <= j < |tail| ==> tail[j] == received[k + j] >= received[k];
    forall x | x in rest
      ensures x in tail
    {
      assert x in held && x in received;
      var j :| 0 <= j < |received| && received[j] == x;
      assert j >= k && tail[j - k] == x;
    }
  }

  lemma HoldsAfter(received: seq<int>, f: nat, acked: set<nat>, held: multiset<int>)
    requires Increasing(received) && HoldsPending(received, f, acked, held)
    ensures var k := AckedPrefix(received, held);
      HoldsPending(received[k..], f + k, acked, if k == |received| then multiset{} else AtLeast(held, received[k]))
  {
    var k := AckedPrefix(received, held);
    hide AckedPrefix, AtLeast;
    if k < |received| {
      HoldsRest(received, f, acked, held, k);
    }
  }

  lemma FrontierMoves(h: History, h': History, received: seq<int>, held: multiset<int>)
    requires h'.waited == h.waited && h.acked <= h'.acked && received == h.waited[h.Frontier()..]
    requires HoldsPending(received, h.Frontier(), h'.acked, held)
    ensures h'.Frontier() == h.Frontier() + AckedPrefix(received, held)
  {
    var f, k := h.Frontier(), AckedPrefix(received, held);
    forall j: nat | j < f + k
      ensures j in h'.acked
    {
      assert j >= f ==> received[j - f] in held;
    }
    h'.FrontierIs(f + k);
  }

  lemma AckedRefines(h: History, h': History, q: QueueState, all: multiset<int>)
    requires Refines(h, q) && h'.waited == h.waited
    requires forall i :: i in h'.acked ==> i < |h'.waited|
    requires var f, k := h.Frontier(), AckedPrefix(q.received, all);
      h'.Frontier() == f + k &&
      HoldsPending(q.received[k..], f + k, h'.acked, if k == |q.received| then multiset{} else AtLeast(all, q.received[k]))
    ensures Refines(h', Advanced(q, all, AckedPrefix(q.received, all)))
  {
    hide HoldsPending, Increasing, AckedPrefix, AtLeast, History.Frontier;
    var f, k := h.Frontier(), AckedPrefix(q.received, all);
    IncreasingSuffix(q.received, k);
    assert q.received[k..] == h.waited[f + k..];
    assert k > 0 ==> q.received[k - 1] == h.waited[f + k - 1];
  }

  lemma AckIndexRefines(h: History, q: QueueState, i: nat)
    requires Refines(h, q) && h.Pending(i)
    ensures var o, h' := h.waited[i], History(h.waited, h.acked + {i});
      AfterAck(q, o).Some? && Refines(h', AfterAck(q, o).value)
  {
    hide HoldsPending, Increasing, NoEmptyRead, AckedPrefix, AtLeast, Advanced, History.Frontier;
    var f, h' := h.Frontier(), History(h.waited, h.acked + {i});
    var all := q.acked + multiset{h.waited[i]};
    assert f <= i && q.received[i - f] == h.waited[i];
    HoldsOneMore(q.received, f, h.acked, q.acked, i - f);
    ProtocolAvoidsEmptyRead(q.received, f, h'.acked, all);
    HoldsAfter(q.received, f, h'.acked, all);
    FrontierMoves(h, h', q.received, all);
    AckedRefines(h, h', q, all);
    hide Refines;
  }

  lemma AckRefines(h: History, q: QueueState, o: int)
    requires Refines(h, q) && Allowed(h, Ack(o))
    ensures AfterAck(q, o).Some? && Refines(h.After(Ack(o)), AfterAck(q, o).value)
  {
    hide Refines, AfterAck;
    var i: nat :| h.Pending(i) && h.waited[i] == o && h.After(Ack(o)) == History(h.waited, h.acked + {i});
    AckIndexRefines(h, q, i);
  }

  lemma PopRefines(h: History, q: QueueState)
    requires Refines(h, q)
    ensures Refines(h.After(Pop), AfterPop(q).0)
  {
  }

  /** Over every run that follows the protocol the deque is never read while
      empty, the queue holds the accepted offsets minus their longest fully
      acknowledged prefix, the heap holds exactly the acknowledged offsets that
      are still pending, and the frontier is one past that prefix. */
  lemma {:induction false} RunRefines(es: seq<Event>)
    requires FollowsProtocol(es)
    ensures Run(es).Some? && Refines(RunHistory(es), Run(es).value)
    decreases |es|
  {
    if es != [] {
      hide Refines, AfterAck, AfterWait, AfterPop, History.After;
      var n := |es| - 1;
      ProtocolPrefix(es, n);
      RunRefines(es[..n]);
      var h, q := RunHistory(es[..n]), Run(es[..n]).value;
      match es[n]
      case Wait(o) => WaitRefines(h, q, o);
      case Ack(o) => AckRefines(h, q, o);
      case Pop => PopRefines(h, q);
    } else {
      History([], {}).FrontierIs(0);
    }
  }

  // ---------- Acknowledgement order ----------

  /** The acknowledged offsets of a run, as often as they were acknowledged. */
  ghost function Acks(es: seq<Event>): multiset<int> {
    if es == [] then multiset{}
    else Acks(es[..|es| - 1]) + AckOf(es[|es| - 1])
  }

  function AckOf(e: Event): multiset<int> {
    if e.Ack? then multiset{e.offset} else multiset{}
  }

  /** How many of the first n accepted offsets are v and acknowledged. */
  ghost function Times(waited: seq<int>, acked: set<nat>, v: int, n: nat): nat
    requires n <= |waited|
  {
    if n == 0 then 0 else Times(waited, acked, v, n - 1) + if waited[n - 1] == v && n - 1 in acked then 1 else 0
  }

  /** An offset accepted again, or after a larger one, has been acknowledged before. */
  ghost predicate Settled(h: History) {
    && (forall i :: i in h.acked ==> i < |h.waited|)
    && (forall i, j :: 0 <= i < j < |h.waited| && h.waited[i] >= h.waited[j] ==> i in h.acked)
  }

  ghost predicate Remembers(h: History, acks: multiset<int>) {
    Settled(h) && forall v :: acks[v] == Times(h.waited, h.acked, v, |h.waited|)
  }

  lemma {:induction false} TimesOfMore(waited: seq<int>, more: seq<int>, acked: set<nat>, v: int, n: nat)
    requires n <= |waited|
    ensures Times(waited + more, acked, v, n) == Times(waited, acked, v, n)
    decreases n
  {
    if n > 0 {
      TimesOfMore(waited, more, acked, v, n - 1);
    }
  }

  lemma {:induction false} TimesWith(waited: seq<int>, acked: set<nat>, i: nat, v: int, n: nat)
    requires n <= |waited| && i < |waited| && i !in acked
    ensures Times(waited, acked + {i}, v, n) == Times(waited, acked, v, n) + if i < n && waited[i] == v then 1 else 0
    decreases n
  {
    if n > 0 {
      TimesWith(waited, acked, i, v, n - 1);
    }
  }

  /** Where two sets agree on the places of v from m on, the counts grow alike. */
  lemma {:induction false} TimesAlike(waited: seq<int>, a: set<nat>, b: set<nat>, v: int, m: nat, n: nat)
    requires m <= n <= |waited|
    requires forall i: nat :: m <= i < n && waited[i] == v ==> (i in a <==> i in b)
    ensures Times(waited, a, v, n) - Times(waited, a, v, m) == Times(waited, b, v, n) - Times(waited, b, v, m)
    decreases n
  {
    if m < n {
      TimesAlike(waited, a, b, v, m, n - 1);
    }
  }

  lemma WaitRemembers(h: History, acks: multiset<int>, o: int)
    requires Remembers(h, acks) && Increasing(h.waited[h.Frontier()..])
    ensures Remembers(h.After(Wait(o)), acks)
  {
    var pending, f, n := h.waited[h.Frontier()..], h.Frontier(), |h.waited|;
    if Accepts(pending, o) {
      var h' := h.After(Wait(o));
      forall i | 0 <= i < n && i !in h.acked
        ensures h.waited[i] < o
      {
        assert h.waited[i] == pending[i - f];
      }
      forall v
        ensures acks[v] == Times(h'.waited, h'.acked, v, n + 1)
      {
        TimesOfMore(h.waited, [o], h.acked, v, n);
        assert n !in h.acked;
      }
    }
  }

  lemma AckRemembers(h: History, acks: multiset<int>, o: int)
    requires Remembers(h, acks) && Allowed(h, Ack(o))
    ensures Remembers(h.After(Ack(o)), acks + multiset{o})
  {
    var h' := h.After(Ack(o));
    var i: nat :| h.Pending(i) && h.waited[i] == o && h' == History(h.waited, h.acked + {i});
    forall v
      ensures (acks + multiset{o})[v] == Times(h'.waited, h'.acked, v, |h'.waited|)
    {
      TimesWith(h.waited, h.acked, i, v, |h.waited|);
    }
  }

  lemma PopKeepsHistory(h: History)
    ensures h.After(Pop) == h
  {
  }

  lemma {:induction false} RunRemembers(es: seq<Event>)
    requires FollowsProtocol(es)
    ensures Remembers(RunHistory(es), Acks(es))
    decreases |es|
  {
    if es != [] {
      hide Remembers, History.After, HoldsPending;
      var n := |es| - 1;
      ProtocolPrefix(es, n);
      RunRemembers(es[..n]);
      RunRefines(es[..n]);
      var h, acks := RunHistory(es[..n]), Acks(es[..n]);
      assert acks + multiset{} == acks;
      match es[n]
      case Wait(o) => WaitRemembers(h, acks, o);
      case Ack(o) => AckRemembers(h, acks, o);
      case Pop => PopKeepsHistory(h);
    } else {
      assert forall v :: Times([], {}, v, 0) == 0;
    }
  }

  /** Two sets that agree on the places of v except place i. */
  lemma TimesDiffer(waited: seq<int>, a: set<nat>, b: set<nat>, i: nat)
    requires i < |waited| && i in a && i !in b
    requires forall k: nat :: k < |waited| && k != i && waited[k] == waited[i] ==> (k in a <==> k in b)
    ensures Times(waited, a, waited[i], |waited|) == Times(waited, b, waited[i], |waited|) + 1
  {
    TimesAlike(waited, a, b, waited[i], 0, i);
    TimesAlike(waited, a, b, waited[i], i + 1, |waited|);
  }

  /** What was accepted and how often each offset was acknowledged decide which
      of them are acknowledged: only the last of equal offsets can be pending. */
  lemma AckedInBoth(h: History, g: History, acks: multiset<int>, i: nat)
    requires Remembers(h, acks) && Remembers(g, acks) && h.waited == g.waited && i in h.acked
    ensures i in g.acked
  {
    if i !in g.acked {
      TimesDiffer(h.waited, h.acked, g.acked, i);
    }
  }

  lemma SameHistory(h: History, g: History, acks: multiset<int>)
    requires Remembers(h, acks) && Remembers(g, acks) && h.waited == g.waited
    ensures h == g
  {
    forall i: nat
      ensures i in h.acked <==> i in g.acked
    {
      if i in h.acked {
        AckedInBoth(h, g, acks, i);
      }
      if i in g.acked {
        AckedInBoth(g, h, acks, i);
      }
    }
  }

  ghost predicate Alike(q: QueueState, r: QueueState) {
    q.received == r.received && q.acked == r.acked && q.toCommit == r.toCommit
  }

  lemma SameHistorySameState(h: History, q: QueueState, r: QueueState)
    requires Refines(h, q) && Refines(h, r)
    ensures Alike(q, r)
  {
    forall x
      ensures q.acked[x] == r.acked[x]
    {
      if x in q.received {
        var j :| 0 <= j < |q.received| && q.received[j] == x;
      } else {
        assert x !in q.acked && x !in r.acked;
      }
    }
  }

  /** The pending part of a history can be read off the queue; the rest is
      acknowledged anyway. */
  lemma SameStateSameHistory(h: History, g: History, q: QueueState, r: QueueState)
    requires Refines(h, q) && Refines(g, r) && h.waited == g.waited && Alike(q, r)
    ensures h == g
  {
    var f := h.Frontier();
    assert |q.received| == |h.waited| - f && |r.received| == |g.waited| - g.Frontier();
    forall i: nat
      ensures i in h.acked <==> i in g.acked
    {
      if f <= i < |h.waited| {
        assert q.acked[q.received[i - f]] == if f + (i - f) in h.acked then 1 else 0;
        assert r.acked[r.received[i - f]] == if f + (i - f) in g.acked then 1 else 0;
      }
    }
  }

  /** The order of acknowledgements does not matter: two runs in which the same
      offsets were accepted end alike exactly when each offset was acknowledged
      equally often. */
  lemma AckOrderIsIrrelevant(es: seq<Event>, fs: seq<Event>)
    requires FollowsProtocol(es) && FollowsProtocol(fs) && RunHistory(es).waited == RunHistory(fs).waited
    ensures Run(es).Some? && Run(fs).Some?
    ensures Alike(Run(es).value, Run(fs).value) <==> Acks(es) == Acks(fs)
  {
    hide Alike, Refines, Remembers;
    RunRefines(es);
    RunRefines(fs);
    RunRemembers(es);
    RunRemembers(fs);
    var h, g := RunHistory(es), RunHistory(fs);
    if Acks(es) == Acks(fs) {
      SameHistory(h, g, Acks(es));
      SameHistorySameState(h, Run(es).value, Run(fs).value);
    }
    if Alike(Run(es).value, Run(fs).value) {
      SameStateSameHistory(h, g, Run(es).value, Run(fs).value);
      SameAcks(h, Acks(es), Acks(fs));
    }
  }

  lemma SameAcks(h: History, acks: multiset<int>, others: multiset<int>)
    requires Remembers(h, acks) && Remembers(h, others)
    ensures acks == others
  {
    assert forall v :: acks[v] == others[v];
  }

  // ---------- Which waits are accepted ----------

  ghost function Waits(es: seq<Event>): seq<int> {
    if es == [] then []
    else Waits(es[..|es| - 1]) + WaitOf(es[|es| - 1])
  }

  function WaitOf(e: Event): seq<int> {
    if e.Wait? then [e.offset] else []
  }

  ghost function NonNegative(s: seq<int>): (r: seq<int>)
    ensures forall x :: x in r <==> x in s && x >= 0
  {
    if s == [] then []
    else NonNegative(s[..|s| - 1]) + if s[|s| - 1] >= 0 then [s[|s| - 1]] else []
  }

  /** The same calls are not enough: a smaller offset is accepted only once the
      queue is drained, so here the acknowledgement comes too late. */
  lemma SameWaitsAreNotEnough()
    ensures var es, fs := [Wait(5), Ack(5), Wait(3)], [Wait(5), Wait(3), Ack(5)];
      && FollowsProtocol(es) && FollowsProtocol(fs)
      && Waits(es) == Waits(fs) == [5, 3] && Acks(es) == Acks(fs) == multiset{5}
      && Run(es).Some? && Run(fs).Some? && !Alike(Run(es).value, Run(fs).value)
  {
    hide Run, Waits, Acks, FollowsProtocol;
    LateAndEarly([Wait(5), Ack(5), Wait(3)], [Wait(5), Wait(3), Ack(5)]);
    PendingFive([Wait(5), Ack(5), Wait(3)]);
    PendingFive([Wait(5), Wait(3), Ack(5)]);
    CallsOfThree([Wait(5), Ack(5), Wait(3)]);
    CallsOfThree([Wait(5), Wait(3), Ack(5)]);
  }

  lemma LateAndEarly(es: seq<Event>, fs: seq<Event>)
    requires es == [Wait(5), Ack(5), Wait(3)] && fs == [Wait(5), Wait(3), Ack(5)]
    ensures Run(es) == Some(QueueState([3], multiset{}, 6, -1))
    ensures Run(fs) == Some(QueueState([], multiset{}, 6, -1))
  {
    hide AfterAck, Run;
    var q5, drained := QueueState([5], multiset{}, -1, -1), QueueState([], multiset{}, 6, -1);
    AckOnly(q5, 5);
    FirstWait(5);
    assert [] + [3] == [3];
    RunOne([Wait(5)], q5, Ack(5), drained);
    RunOne([Wait(5)] + [Ack(5)], drained, Wait(3), QueueState([3], multiset{}, 6, -1));
    RunOne([Wait(5)], q5, Wait(3), q5);
    RunOne([Wait(5)] + [Wait(3)], q5, Ack(5), drained);
    assert [Wait(5)] + [Ack(5)] + [Wait(3)] == es && [Wait(5)] + [Wait(3)] + [Ack(5)] == fs;
  }

  lemma CallsOfThree(es: seq<Event>)
    requires |es| == 3
    ensures Waits(es) == WaitOf(es[0]) + WaitOf(es[1]) + WaitOf(es[2])
    ensures Acks(es) == AckOf(es[0]) + AckOf(es[1]) + AckOf(es[2])
  {
    assert es[..2][..1] == es[..1] && es[..1][..0] == [];
    assert Waits(es[..1]) == WaitOf(es[0]) && Acks(es[..1]) == AckOf(es[0]);
    assert Waits(es[..2]) == WaitOf(es[0]) + WaitOf(es[1]) && Acks(es[..2]) == AckOf(es[0]) + AckOf(es[1]);
  }

  lemma PendingFive(es: seq<Event>)
    requires |es| == 3 && es[0] == Wait(5)
    requires (es[1] == Ack(5) && es[2] == Wait(3)) || (es[1] == Wait(3) && es[2] == Ack(5))
    ensures FollowsProtocol(es)
  {
    var empty, h := History([], {}), History([5], {});
    empty.FrontierIs(0);
    h.FrontierIs(0);
    assert es[..0] == [] && es[..1][..0] == [] && es[..2][..1] == es[..1];
    assert [] + [5] == [5];
    assert RunHistory(es[..1]) == h;
    assert h.Pending(0) && h.waited[0] == 5;
    assert !Accepts(h.waited[0..], 3);
  }

  lemma NonNegativeLast(s: seq<int>, o: int)
    ensures NonNegative(s + [o]) == NonNegative(s) + if o >= 0 then [o] else []
  {
    assert (s + [o])[..|s|] == s;
  }

  lemma AcceptedSoFar(h: History, waits: seq<int>, o: int)
    requires h.waited == NonNegative(waits) && Increasing(NonNegative(waits + [o]))
    ensures h.After(Wait(o)).waited == NonNegative(waits + [o])
  {
    hide NonNegative, History.Frontier;
    NonNegativeLast(waits, o);
    var n, pending := |h.waited|, h.waited[h.Frontier()..];
    if o >= 0 && pending != [] {
      assert pending[|pending| - 1] == h.waited[n - 1];
      assert (h.waited + [o])[n - 1] < (h.waited + [o])[n];
    }
  }

  lemma IncreasingFront(s: seq<int>)
    requires s != [] && Increasing(NonNegative(s))
    ensures Increasing(NonNegative(s[..|s| - 1]))
  {
    var front, all := NonNegative(s[..|s| - 1]), NonNegative(s);
    assert all == front + if s[|s| - 1] >= 0 then [s[|s| - 1]] else [];
    hide NonNegative;
    assert forall i :: 0 <= i < |front| ==> front[i] == all[i];
  }

  /** If the valid offsets increase, all of them are accepted. */
  lemma {:induction false} IncreasingWaitsAreAccepted(es: seq<Event>)
    requires Increasing(NonNegative(Waits(es)))
    ensures RunHistory(es).waited == NonNegative(Waits(es))
    decreases |es|
  {
    if es != [] {
      hide NonNegative, History.After;
      var n := |es| - 1;
      var waits := Waits(es[..n]);
      if es[n].Wait? {
        assert Waits(es)[..|waits|] == waits;
        IncreasingFront(Waits(es));
        IncreasingWaitsAreAccepted(es[..n]);
        AcceptedSoFar(RunHistory(es[..n]), waits, es[n].offset);
      } else {
        assert Waits(es) == waits;
        IncreasingWaitsAreAccepted(es[..n]);
        AcksKeepWaited(RunHistory(es[..n]), es[n]);
      }
    } else {
      assert NonNegative([]) == [];
    }
  }

  lemma AcksKeepWaited(h: History, e: Event)
    requires !e.Wait?
    ensures h.After(e).waited == h.waited
  {
  }

  lemma {:induction false} TimesAtMostOne(waited: seq<int>, acked: set<nat>, v: int, n: nat)
    requires Increasing(waited) && n <= |waited|
    ensures Times(waited, acked, v, n) <= 1
    ensures Times(waited, acked, v, n) == 1 ==> exists i: nat :: i < n && waited[i] == v
    decreases n
  {
    if n > 0 {
      TimesAtMostOne(waited, acked, v, n - 1);
    }
  }

  /** With the same waits, the valid ones increasing, and the same set of
      acknowledged offsets the runs end alike. */
  lemma IncreasingWaitsSuffice(es: seq<Event>, fs: seq<Event>)
    requires FollowsProtocol(es) && FollowsProtocol(fs)
    requires Waits(es) == Waits(fs) && Increasing(NonNegative(Waits(es)))
    requires forall v :: v in Acks(es) <==> v in Acks(fs)
    ensures Run(es).Some? && Run(fs).Some? && Alike(Run(es).value, Run(fs).value)
  {
    hide Alike;
    IncreasingWaitsAreAccepted(es);
    IncreasingWaitsAreAccepted(fs);
    RunRemembers(es);
    RunRemembers(fs);
    forall v
      ensures Acks(es)[v] == Acks(fs)[v]
    {
      TimesAtMostOne(RunHistory(es).waited, RunHistory(es).acked, v, |RunHistory(es).waited|);
      TimesAtMostOne(RunHistory(fs).waited, RunHistory(fs).acked, v, |RunHistory(fs).waited|);
      assert v in Acks(es) <==> v in Acks(fs);
    }
    AckOrderIsIrrelevant(es, fs);
  }

  // ---------- The size ----------

  /** The frontier at the last pop. */
  ghost function PoppedTo(es: seq<Event>): nat {
    if es == [] then 0
    else if es[|es| - 1].Pop? then RunHistory(es).Frontier()
    else PoppedTo(es[..|es| - 1])
  }

  lemma FrontierGrows(h: History, e: Event)
    requires forall i :: i in h.acked ==> i < |h.waited|
    ensures h.waited <= h.After(e).waited && h.Frontier() <= h.After(e).Frontier()
  {
    if h.After(e).Frontier() < h.Frontier() {
      assert false;
    }
  }

  lemma {:induction false} PoppedIsBehind(es: seq<Event>)
    requires FollowsProtocol(es)
    ensures PoppedTo(es) <= RunHistory(es).Frontier()
    decreases |es|
  {
    if es != [] {
      var n := |es| - 1;
      ProtocolPrefix(es, n);
      PoppedIsBehind(es[..n]);
      RunRemembers(es[..n]);
      FrontierGrows(RunHistory(es[..n]), es[n]);
    }
  }

  /** The size leaves out every offset behind the frontier: of the offsets that
      have not been popped, exactly those fully acknowledged since the last pop. */
  lemma SizeIsPastFrontier(es: seq<Event>)
    requires FollowsProtocol(es)
    ensures Run(es).Some?
    ensures var unpopped := |RunHistory(es).waited| - PoppedTo(es);
      unpopped >= |Run(es).value.received| == unpopped - (RunHistory(es).Frontier() - PoppedTo(es))
  {
    RunRefines(es);
    PoppedIsBehind(es);
  }

  // ---------- The frontier ----------

  /** The guard a caller can check: an offset waited for while nothing is pending
      is not below the last one committed. */
  ghost predicate FreshIsAhead(q: QueueState, e: Event) {
    e.Wait? && q.received == [] && e.offset >= 0 ==> e.offset + 1 >= q.toCommit
  }

  ghost predicate FreshWaitsAreAhead(es: seq<Event>) {
    forall n :: 0 <= n < |es| && Run(es[..n]).Some? ==> FreshIsAhead(Run(es[..n]).value, es[n])
  }

  lemma RunFront(es: seq<Event>)
    requires es != [] && Run(es).Some?
    ensures Run(es[..|es| - 1]).Some? && Run(es) == Step(Run(es[..|es| - 1]).value, es[|es| - 1])
  {
    hide Step;
  }

  lemma {:induction false} RunPrefix(es: seq<Event>, n: nat)
    requires Run(es).Some? && n <= |es|
    ensures Run(es[..n]).Some?
    decreases |es|
  {
    if n == |es| {
      assert es[..n] == es;
    } else {
      RunFront(es);
      RunPrefix(es[..|es| - 1], n);
      assert es[..|es| - 1][..n] == es[..n];
    }
  }

  lemma AheadPrefix(es: seq<Event>, n: nat)
    requires FreshWaitsAreAhead(es) && n <= |es|
    ensures FreshWaitsAreAhead(es[..n])
  {
    forall k | 0 <= k < n && Run(es[..n][..k]).Some?
      ensures FreshIsAhead(Run(es[..n][..k]).value, es[..n][k])
    {
      assert es[..n][..k] == es[..k];
    }
  }

  ghost predicate Tidy(q: QueueState) {
    q.Valid() && (q.received == [] ==> q.acked == multiset{})
  }

  lemma StepIsTidy(q: QueueState, e: Event)
    requires Tidy(q) && Step(q, e).Some?
    ensures Tidy(Step(q, e).value)
  {
    hide AckedPrefix, AtLeast, NoEmptyRead;
    if e.Ack? {
      AckedPrefixFits(q.received, q.acked + multiset{e.offset});
      AfterAckIsValid(q, e.offset);
    }
  }

  lemma {:induction false} RunIsTidy(es: seq<Event>)
    requires Run(es).Some?
    ensures Tidy(Run(es).value)
    decreases |es|
  {
    if es != [] {
      hide Step, Tidy, Run;
      RunFront(es);
      RunIsTidy(es[..|es| - 1]);
      StepIsTidy(Run(es[..|es| - 1]).value, es[|es| - 1]);
    }
  }

  ghost predicate PendingIsAhead(q: QueueState) {
    q.received != [] ==> q.received[0] + 1 >= q.toCommit
  }

  lemma StepStaysAhead(q: QueueState, e: Event)
    requires Tidy(q) && PendingIsAhead(q) && FreshIsAhead(q, e) && Step(q, e).Some?
    ensures PendingIsAhead(Step(q, e).value) && q.toCommit <= Step(q, e).value.toCommit
  {
    hide AckedPrefix, AtLeast, NoEmptyRead;
    if e.Ack? {
      AckedPrefixFits(q.received, q.acked + multiset{e.offset});
    }
  }

  lemma {:induction false} RunStaysAhead(es: seq<Event>)
    requires FreshWaitsAreAhead(es) && Run(es).Some?
    ensures PendingIsAhead(Run(es).value)
    decreases |es|
  {
    if es != [] {
      hide Step, Tidy, Run, PendingIsAhead;
      var n := |es| - 1;
      RunFront(es);
      RunIsTidy(es[..n]);
      AheadPrefix(es, n);
      RunStaysAhead(es[..n]);
      StepStaysAhead(Run(es[..n]).value, es[n]);
    }
  }

  lemma LastStepStaysAhead(es: seq<Event>)
    requires FreshWaitsAreAhead(es) && Run(es).Some? && es != []
    ensures var n := |es| - 1;
      && FreshWaitsAreAhead(es[..n]) && Run(es[..n]).Some?
      && Run(es[..n]).value.toCommit <= Run(es).value.toCommit
  {
    hide Step, Tidy, Run, PendingIsAhead;
    var n := |es| - 1;
    RunFront(es);
    RunIsTidy(es[..n]);
    AheadPrefix(es, n);
    RunStaysAhead(es[..n]);
    StepStaysAhead(Run(es[..n]).value, es[n]);
  }

  /** Then the frontier never moves back. */
  lemma {:induction false} FrontierIsMonotone(es: seq<Event>, m: nat)
    requires FreshWaitsAreAhead(es) && Run(es).Some? && m <= |es|
    ensures Run(es[..m]).Some? && Run(es[..m]).value.toCommit <= Run(es).value.toCommit
    decreases |es|
  {
    if m == |es| {
      assert es[..m] == es;
    } else {
      hide Run, FreshWaitsAreAhead;
      LastStepStaysAhead(es);
      FrontierIsMonotone(es[..|es| - 1], m);
      assert es[..|es| - 1][..m] == es[..m];
    }
  }

  /** The frontier never moves back during the run. */
  ghost predicate Steady(es: seq<Event>) {
    forall m :: 0 <= m <= |es| && Run(es[..m]).Some? && Run(es).Some? ==>
      Run(es[..m]).value.toCommit <= Run(es).value.toCommit
  }

  lemma AheadWithAck(es: seq<Event>, o: int)
    requires FreshWaitsAreAhead(es)
    ensures FreshWaitsAreAhead(es + [Ack(o)])
  {
    var fs := es + [Ack(o)];
    forall n | 0 <= n < |fs| && Run(fs[..n]).Some?
      ensures FreshIsAhead(Run(fs[..n]).value, fs[n])
    {
      if n < |es| {
        assert fs[..n] == es[..n];
      }
    }
  }

  /** A drained queue that accepts an offset below the guard moves the frontier
      back as soon as that offset is acknowledged. */
  lemma BehindMovesBack(es: seq<Event>, n: nat)
    requires Run(es).Some? && n < |es| && Run(es[..n]).Some? && !FreshIsAhead(Run(es[..n]).value, es[n])
    ensures var fs := es[..n + 1] + [Ack(es[n].offset)];
      Run(fs).Some? && Run(fs).value.toCommit == es[n].offset + 1 && !Steady(fs)
  {
    hide AfterAck, Run;
    var q, o := Run(es[..n]).value, es[n].offset;
    var fs := es[..n + 1] + [Ack(o)];
    RunIsTidy(es[..n]);
    assert [] + [o] == [o];
    assert es[..n + 1] == es[..n] + [Wait(o)];
    RunOne(es[..n], q, Wait(o), q.(received := [o]));
    AckOnly(q.(received := [o]), o);
    RunOne(es[..n + 1], q.(received := [o]), Ack(o), q.(received := [], toCommit := o + 1));
    assert fs[..n] == es[..n];
  }

  /** The frontier cannot move back, by anything acknowledged at any moment of
      the run, exactly when every wait of the run respects the guard. */
  lemma FrontierIsSteadyExactly(es: seq<Event>)
    requires Run(es).Some?
    ensures FreshWaitsAreAhead(es) <==> forall n, o :: 0 <= n <= |es| ==> Steady(es[..n] + [Ack(o)])
  {
    hide Run, Steady, FreshIsAhead;
    if FreshWaitsAreAhead(es) {
      forall n, o | 0 <= n <= |es|
        ensures Steady(es[..n] + [Ack(o)])
      {
        AheadPrefix(es, n);
        AheadWithAck(es[..n], o);
        AheadIsSteady(es[..n] + [Ack(o)]);
      }
    } else {
      var n :| 0 <= n < |es| && Run(es[..n]).Some? && !FreshIsAhead(Run(es[..n]).value, es[n]);
      BehindMovesBack(es, n);
    }
  }

  lemma AheadIsSteady(es: seq<Event>)
    requires FreshWaitsAreAhead(es)
    ensures Steady(es)
  {
    hide Run, FreshWaitsAreAhead;
    forall m | 0 <= m <= |es| && Run(es[..m]).Some? && Run(es).Some?
      ensures Run(es[..m]).value.toCommit <= Run(es).value.toCommit
    {
      FrontierIsMonotone(es, m);
    }
  }

  /** A run in which it does move back: a drained queue accepts a smaller offset
      than the one just committed. */
  lemma FrontierMovesBack()
    ensures var es := [Wait(5), Ack(5), Wait(3)];
      && Run(es).Some? && Run(es).value.toCommit == 6
      && Run(es + [Ack(3)]).Some? && Run(es + [Ack(3)]).value.toCommit == 4
  {
    hide AfterAck, Run;
    var es := [Wait(5), Ack(5), Wait(3)];
    LateAndEarly(es, [Wait(5), Wait(3), Ack(5)]);
    AckOnly(Run(es).value, 3);
    RunOne(es, Run(es).value, Ack(3), QueueState([], multiset{}, 4, -1));
  }

  // ---------- The commit sequence ----------

  /** The offsets handed to the consumer by popping. */
  ghost function Commits(es: seq<Event>): seq<int>
    requires Run(es).Some?
  {
    if es == [] then []
    else
      var n := |es| - 1;
      RunPrefix(es, n);
      Commits(es[..n]) + Handed(Run(es[..n]).value, es[n])
  }

  /** What one call hands out. */
  ghost function Handed(q: QueueState, e: Event): seq<int> {
    if e.Pop? && AfterPop(q).1.Some? then [AfterPop(q).1.value] else []
  }

  ghost function Last(commits: seq<int>): int {
    if commits == [] then INVALID_OFFSET else commits[|commits| - 1]
  }

  lemma HandedIsCommitted(q: QueueState, e: Event, commits: seq<int>)
    requires Last(commits) == q.committed && Step(q, e).Some?
    ensures Last(commits + Handed(q, e)) == Step(q, e).value.committed
  {
    hide NoEmptyRead, AckedPrefix;
    if !(e.Pop? && q.committed != q.toCommit) {
      assert commits + Handed(q, e) == commits;
    }
  }

  /** In every run without an empty read the committed offset is the one last
      popped, and -1 before the first pop. */
  lemma {:induction false} CommittedIsLastPopped(es: seq<Event>)
    requires Run(es).Some?
    ensures Last(Commits(es)) == Run(es).value.committed
    decreases |es|
  {
    if es != [] {
      hide Step, Handed, Last, Run;
      RunFront(es);
      CommittedIsLastPopped(es[..|es| - 1]);
      HandedIsCommitted(Run(es[..|es| - 1]).value, es[|es| - 1], Commits(es[..|es| - 1]));
    } else {
      assert Commits(es) == [];
    }
  }

  /** One past the longest fully acknowledged prefix, or -1 while it is empty. */
  ghost function FrontierOffset(h: History): int {
    if h.Frontier() == 0 then -1 else h.waited[h.Frontier() - 1] + 1
  }

  /** Over every run that follows the protocol a pop hands out the offset past the
      fully acknowledged prefix, whatever is pending behind it, unless that was
      the last one handed out. */
  lemma PopHandsOutFrontier(es: seq<Event>)
    requires FollowsProtocol(es)
    ensures Run(es).Some? && Run(es + [Pop]).Some?
    ensures var offset := FrontierOffset(RunHistory(es));
      Commits(es + [Pop]) == Commits(es) + if Last(Commits(es)) == offset then [] else [offset]
  {
    hide Run, Commits, FollowsProtocol, FrontierOffset, Refines, Last;
    RunRefines(es);
    var q := Run(es).value;
    RefinedFrontier(RunHistory(es), q);
    RunOne(es, q, Pop, AfterPop(q).0);
    CommitsOne(es, Pop);
    CommittedIsLastPopped(es);
  }

  lemma RefinedFrontier(h: History, q: QueueState)
    requires Refines(h, q)
    ensures q.toCommit == FrontierOffset(h)
  {
  }

  lemma HandedFollows(q: QueueState, e: Event, commits: seq<int>)
    requires Increasing(commits) && Last(commits) == q.committed <= q.toCommit
    requires Step(q, e).Some? && q.toCommit <= Step(q, e).value.toCommit
    ensures var all, q' := commits + Handed(q, e), Step(q, e).value;
      Increasing(all) && q'.committed <= q'.toCommit
  {
    hide NoEmptyRead, AckedPrefix;
    if e.Pop? && q.committed != q.toCommit {
      assert forall i :: 0 <= i < |commits| ==> commits[i] <= q.committed;
    } else {
      assert commits + Handed(q, e) == commits;
    }
  }

  /** Under the guard successive popped commit offsets strictly increase. */
  lemma {:induction false} CommitsIncrease(es: seq<Event>)
    requires FreshWaitsAreAhead(es) && Run(es).Some?
    ensures Increasing(Commits(es)) && Run(es).value.committed <= Run(es).value.toCommit
    decreases |es|
  {
    if es != [] {
      hide Step, Handed, Last, Run, FreshWaitsAreAhead;
      var n := |es| - 1;
      RunFront(es);
      LastStepStaysAhead(es);
      CommitsIncrease(es[..n]);
      CommittedIsLastPopped(es[..n]);
      HandedFollows(Run(es[..n]).value, es[n], Commits(es[..n]));
    } else {
      assert Commits(es) == [];
    }
  }

  /** Waiting for an offset on a drained queue between two pops. */
  ghost function PoppedAround(es: seq<Event>, o: int): seq<Event> {
    es + [Pop] + [Wait(o)] + [Ack(o)] + [Pop]
  }

  lemma PoppedAroundRuns(es: seq<Event>, o: int)
    requires Run(es).Some? && Run(es).value.received == [] && o >= 0
    ensures Run(PoppedAround(es, o)).Some? && Run(es + [Pop]).Some?
    ensures var q, commits := Run(es).value, Commits(es + [Pop]);
      && Last(commits) == q.toCommit
      && Commits(PoppedAround(es, o)) == commits + if o + 1 == q.toCommit then [] else [o + 1]
  {
    hide AfterAck, Run, Commits;
    var q := Run(es).value;
    var q1 := q.(committed := q.toCommit);
    var q2, q3 := q1.(received := [o]), q1.(toCommit := o + 1);
    RunIsTidy(es);
    assert [] + [o] == [o];
    AckOnly(q2, o);
    var fs1, fs2, fs3 := es + [Pop], es + [Pop] + [Wait(o)], es + [Pop] + [Wait(o)] + [Ack(o)];
    RunOne(es, q, Pop, q1);
    RunOne(fs1, q1, Wait(o), q2);
    RunOne(fs2, q2, Ack(o), q3);
    RunOne(fs3, q3, Pop, q3.(committed := o + 1));
    CommitsOne(fs1, Wait(o));
    CommitsOne(fs2, Ack(o));
    CommitsOne(fs3, Pop);
    CommittedIsLastPopped(fs1);
    assert Commits(fs3) == Commits(fs1);
  }

  lemma AheadOne(es: seq<Event>, e: Event)
    requires FreshWaitsAreAhead(es) && (Run(es).Some? ==> FreshIsAhead(Run(es).value, e))
    ensures FreshWaitsAreAhead(es + [e])
  {
    assert (es + [e])[..|es|] == es;
    AheadLast(es + [e]);
  }

  /** On a drained queue the guard decides whether what is popped next, once the
      offset is acknowledged, continues the increasing commits. */
  lemma GuardDecidesCommits(es: seq<Event>, o: int)
    requires FreshWaitsAreAhead(es) && Run(es).Some? && Run(es).value.received == [] && o >= 0
    ensures Run(PoppedAround(es, o)).Some?
    ensures Increasing(Commits(PoppedAround(es, o))) <==> FreshIsAhead(Run(es).value, Wait(o))
  {
    hide AfterAck, Run, Commits, FreshWaitsAreAhead;
    var q := Run(es).value;
    PoppedAroundRuns(es, o);
    var commits := Commits(es + [Pop]);
    if FreshIsAhead(q, Wait(o)) {
      AheadOne(es, Pop);
      RunOne(es, q, Pop, q.(committed := q.toCommit));
      AheadOne(es + [Pop], Wait(o));
      AheadWithAck(es + [Pop] + [Wait(o)], o);
      AheadOne(es + [Pop] + [Wait(o)] + [Ack(o)], Pop);
      CommitsIncrease(PoppedAround(es, o));
    } else {
      assert commits != [] && commits[|commits| - 1] == q.toCommit > o + 1;
      var all := Commits(PoppedAround(es, o));
      assert all == commits + [o + 1];
      assert all[|commits| - 1] == q.toCommit && all[|commits|] == o + 1;
    }
  }

  lemma CommitsOne(es: seq<Event>, e: Event)
    requires Run(es + [e]).Some?
    ensures Run(es).Some? && Commits(es + [e]) == Commits(es) + Handed(Run(es).value, e)
  {
    hide Run;
    RunFront(es + [e]);
    assert (es + [e])[..|es|] == es;
  }

  // ---------- Increasing waits respect the guard ----------

  /** Everything pending, and the offset last committed, was waited for. */
  ghost predicate WaitedFor(q: QueueState, waits: seq<int>) {
    && (forall i :: 0 <= i < |q.received| ==> q.received[i] in NonNegative(waits))
    && (q.toCommit != INVALID_OFFSET ==> q.toCommit - 1 in NonNegative(waits))
  }

  lemma StepIsWaitedFor(q: QueueState, waits: seq<int>, e: Event)
    requires WaitedFor(q, waits) && Step(q, e).Some?
    ensures WaitedFor(Step(q, e).value, waits + WaitOf(e))
  {
    hide AckedPrefix, AtLeast, NoEmptyRead, NonNegative;
    var more := WaitOf(e);
    assert forall x :: x in NonNegative(waits) ==> x in NonNegative(waits + more);
    if e.Ack? {
      AckedPrefixFits(q.received, q.acked + multiset{e.offset});
    }
  }

  /** If the valid offsets increase over the whole run, the guard is respected. */
  lemma {:induction false} IncreasingWaitsAreAhead(es: seq<Event>)
    requires Run(es).Some? && Increasing(NonNegative(Waits(es)))
    ensures FreshWaitsAreAhead(es) && WaitedFor(Run(es).value, Waits(es))
    decreases |es|
  {
    if es != [] {
      hide Step, Run, WaitedFor, NonNegative, FreshIsAhead, FreshWaitsAreAhead;
      var n := |es| - 1;
      var q, waits := Run(es[..n]).value, Waits(es[..n]);
      RunFront(es);
      if es[n].Wait? {
        assert Waits(es)[..|waits|] == waits;
        IncreasingFront(Waits(es));
      } else {
        assert Waits(es) == waits;
      }
      IncreasingWaitsAreAhead(es[..n]);
      StepIsWaitedFor(q, waits, es[n]);
      LastWaitIsAhead(q, waits, es[n]);
      AheadLast(es);
    } else {
      assert Run(es) == Some(INITIAL);
    }
  }

  lemma LastWaitIsAhead(q: QueueState, waits: seq<int>, e: Event)
    requires WaitedFor(q, waits) && Increasing(NonNegative(waits + WaitOf(e)))
    ensures FreshIsAhead(q, e)
  {
    if e.Wait? && e.offset >= 0 && q.toCommit != INVALID_OFFSET {
      var all, front := NonNegative(waits + [e.offset]), NonNegative(waits);
      NonNegativeLast(waits, e.offset);
      var i :| 0 <= i < |front| && front[i] == q.toCommit - 1;
      assert all[i] < all[|front|];
    }
  }

  lemma AheadLast(es: seq<Event>)
    requires es != [] && FreshWaitsAreAhead(es[..|es| - 1])
    requires Run(es[..|es| - 1]).Some? ==> FreshIsAhead(Run(es[..|es| - 1]).value, es[|es| - 1])
    ensures FreshWaitsAreAhead(es)
  {
    hide FreshIsAhead, Run;
    var m := |es| - 1;
    forall n | 0 <= n < |es| && Run(es[..n]).Some?
      ensures FreshIsAhead(Run(es[..n]).value, es[n])
    {
      if n < m {
        assert es[..m][..n] == es[..n];
      }
    }
  }

  // ---------- Small runs ----------

  lemma RunOne(es: seq<Event>, q: QueueState, e: Event, q': QueueState)
    requires Run(es) == Some(q) && Step(q, e) == Some(q')
    ensures Run(es + [e]) == Some(q')
  {
    assert (es + [e])[..|es|] == es;
  }

  lemma FirstWait(o: int)
    requires o >= 0
    ensures Run([Wait(o)]) == Some(QueueState([o], multiset{}, -1, -1))
  {
    assert [] + [Wait(o)] == [Wait(o)] && [] + [o] == [o];
    RunOne([], INITIAL, Wait(o), QueueState([o], multiset{}, -1, -1));
  }

  lemma AckOnly(q: QueueState, o: int)
    requires q.received == [o] && q.acked == multiset{}
    ensures AfterAck(q, o) == Some(q.(received := [], toCommit := o + 1))
  {
    var all := q.acked + multiset{o};
    assert all == multiset{o};
    AckedPrefixIs(q.received, all, 1);
    assert q.received[1..] == [];
    assert all[o] == 1 && NoEmptyRead(q.received, all);
    hide AtLeast, AckedPrefix;
    assert Advanced(q, all, 1) == q.(received := [], acked := multiset{}, toCommit := o + 1);
  }
}
