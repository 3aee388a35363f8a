/** Draining after shutdown: every event makes a weighted count of the outstanding
    tags smaller, so the event loop ends with no live stream. */
module StreamDrain {
  import opened StreamFsm
  import opened Options

  // ---------- Sums over finite maps ----------

  ghost function Total(m: map<nat, nat>): nat
    decreases |m|
  {
    if m == map[] then 0
    else
      var k :| k in m;
      m[k] + Total(m - {k})
  }

  lemma {:induction false} TotalWithout(m: map<nat, nat>, k: nat)
    requires k in m
    ensures Total(m) == m[k] + Total(m - {k})
    decreases |m|
  {
    var c :| c in m && Total(m) == m[c] + Total(m - {c});
    if c != k {
      TotalWithout(m - {c}, k);
      assert m - {c} - {k} == m - {k} - {c};
      TotalWithout(m - {k}, c);
    }
  }

  lemma TotalWith(m: map<nat, nat>, k: nat, v: nat)
    requires k !in m
    ensures Total(m[k := v]) == Total(m) + v
  {
    TotalWithout(m[k := v], k);
    assert m[k := v] - {k} == m;
  }

  // ---------- The weight ----------

  /** What a stream may still cause. Only a tag issued before the shutdown may
      complete ok; such Accept and Receive tags weigh more. */
  function Weight(s: StreamState, early: bool): nat {
    match s.phase
    case Create => if early then 4 else 1
    case Read => if early then 3 else 2
    case Finishing => 1
    case Done => 1
  }

  ghost function Weights(w: World, early: set<nat>): map<nat, nat> {
    map id | id in w.streams :: Weight(w.streams[id], id in early)
  }

  ghost function Remaining(w: World, early: set<nat>): nat {
    Total(Weights(w, early))
  }

  /** An event after the shutdown: tags issued since then complete not ok; what
      the completion of a Finish says is ignored by the stream. */
  predicate Draining(e: Event, early: set<nat>) {
    e.ok && e.tag.op != Finish ==> e.tag.id in early
  }

  lemma OutcomeIsLighter(s: StreamState, ok: bool, max: int, early: bool)
    requires s.phase != Done && (ok && s.phase != Finishing ==> early)
    ensures (if Spawns(s, ok) then Weight(NEWBORN, false) else 0)
      + (match Outcome(s, ok, max) case None => 0 case Some(t) => Weight(t, false))
      < Weight(s, early)
  {
  }

  /** Each event of the drain makes the remaining weight smaller. */
  lemma DrainStepDecreases(w: World, e: Event, max: int, early: set<nat>)
    requires Bijective(w) && e.tag in w.tags && Draining(e, early)
    requires forall id :: id in early ==> id < w.next
    ensures Step(w, e, max).Some?
    ensures Remaining(Step(w, e, max).value, early - {e.tag.id}) < Remaining(w, early)
  {
    TagIsLive(w, e.tag);
    NextIsFree(w);
    var id, s, w' := e.tag.id, w.streams[e.tag.id], Step(w, e, max).value;
    var before, after := Weights(w, early), Weights(w', early - {id});
    var rest := before - {id};
    OutcomeIsLighter(s, e.ok, max, id in early);
    TotalWithout(before, id);
    var grown := if Spawns(s, e.ok) then rest[w.next := Weight(NEWBORN, false)] else rest;
    if Spawns(s, e.ok) {
      TotalWith(rest, w.next, Weight(NEWBORN, false));
    }
    var t := Outcome(s, e.ok, max);
    var full := if t.Some? then grown[id := Weight(t.value, false)] else grown;
    if t.Some? {
      TotalWith(grown, id, Weight(t.value, false));
    }
    SameWeights(w, e, max, early, full);
  }

  lemma SameWeights(w: World, e: Event, max: int, early: set<nat>, full: map<nat, nat>)
    requires Bijective(w) && e.tag in w.tags && e.tag.id in w.streams
    requires forall id :: id in early ==> id < w.next
    requires var s := w.streams[e.tag.id];
      var rest := Weights(w, early) - {e.tag.id};
      var grown := if Spawns(s, e.ok) then rest[w.next := Weight(NEWBORN, false)] else rest;
      full == match Outcome(s, e.ok, max) case Some(t) => grown[e.tag.id := Weight(t, false)] case None => grown
    ensures Weights(Step(w, e, max).value, early - {e.tag.id}) == full
  {
    hide StreamsAfter, TagsAfter, AddedBy;
    TagIsLive(w, e.tag);
    NextIsFree(w);
    var after := Weights(Step(w, e, max).value, early - {e.tag.id});
    forall k: nat
      ensures (k in after <==> k in full) && (k in after ==> after[k] == full[k])
    {
      StreamsAfterAt(w, e, max, k);
    }
    assert after == full;
  }

  /** No outstanding tag means no live stream, and the other way round. */
  lemma QueueIsEmpty(w: World)
    requires Bijective(w)
    ensures w.tags == multiset{} <==> w.streams == map[]
  {
    if id :| id in w.streams {
      var t := Tag(id, Awaits(w.streams[id].phase).value);
      assert TagIsAwaited(w, t);
      assert w.tags[t] == 1;
    } else {
      forall t
        ensures w.tags[t] == 0
      {
        assert !TagIsAwaited(w, t);
      }
    }
  }

  // ---------- Any drain ends ----------

  ghost function DrainRun(w: World, es: seq<Event>, max: int): Option<World>
    decreases |es|
  {
    if es == [] then Some(w)
    else if Step(w, es[0], max) == None then None
    else DrainRun(Step(w, es[0], max).value, es[1..], max)
  }

  ghost predicate IsDrain(w: World, early: set<nat>, es: seq<Event>, max: int)
    decreases |es|
  {
    es != [] ==>
      && es[0].tag in w.tags && Draining(es[0], early)
      && (Step(w, es[0], max).Some? ==>
            IsDrain(Step(w, es[0], max).value, early - {es[0].tag.id}, es[1..], max))
  }

  lemma StepKeepsNext(w: World, e: Event, max: int)
    requires e.tag.id in w.streams
    ensures w.next <= Step(w, e, max).value.next
  {
  }

  /** Every drain, whatever the queue returns in whatever order, has at most as
      many events as the weight at the shutdown. */
  lemma {:induction false} DrainIsBounded(w: World, early: set<nat>, es: seq<Event>, max: int)
    requires Sound(w, max) && (forall id :: id in early ==> id < w.next) && IsDrain(w, early, es, max)
    ensures |es| <= Remaining(w, early)
    ensures DrainRun(w, es, max).Some? && Sound(DrainRun(w, es, max).value, max)
    decreases |es|
  {
    hide Sound, Step, Remaining, Draining;
    if es != [] {
      DrainStepIsSound(w, early, es[0], max);
      DrainIsBounded(Step(w, es[0], max).value, early - {es[0].tag.id}, es[1..], max);
    }
  }

  lemma DrainStepIsSound(w: World, early: set<nat>, e: Event, max: int)
    requires Sound(w, max) && (forall id :: id in early ==> id < w.next) && e.tag in w.tags && Draining(e, early)
    ensures Step(w, e, max).Some? && Sound(Step(w, e, max).value, max)
    ensures var early' := early - {e.tag.id};
      && Remaining(Step(w, e, max).value, early') < Remaining(w, early)
      && forall id :: id in early' ==> id < Step(w, e, max).value.next
  {
    hide Sound, Step, Remaining, Bijective;
    SoundIsBijective(w, max);
    StepIsSound(w, e, max);
    TagIsLive(w, e.tag);
    DrainStepDecreases(w, e, max, early);
    StepKeepsNext(w, e, max);
  }

  /** When the queue has nothing left to return, every stream that was ever
      created has been deleted exactly once. */
  lemma DrainedMeansAllDeleted(w: World, max: int)
    requires Sound(w, max) && w.tags == multiset{}
    ensures w.streams == map[]
    ensures forall id: nat :: id < w.next ==> Times(w, Created(id)) == 1 && Times(w, Deleted(id)) == 1
  {
    hide Times;
    QueueIsEmpty(w);
    forall id: nat | id < w.next
      ensures Times(w, Created(id)) == 1 && Times(w, Deleted(id)) == 1
    {
      assert DeadAccount(w, id, max);
    }
  }
}
