/** The asynchronous streams of one server. All vendors share one state machine:
    a stream owns itself, is driven by the tags the completion queue returns,
    spawns its successor when it is accepted, and deletes itself at the end. */
module StreamFsm {
  import opened Options

  datatype Phase = Create | Read | Finishing | Done

  /** The operation a stream waits for. */
  datatype Operation = Accept | Receive | Finish

  /** The completion queue hands out the stream together with the operation. */
  datatype Tag = Tag(id: nat, op: Operation)

  datatype StreamState = StreamState(phase: Phase, replies: nat)

  /** What happens, in the order in which it happens. */
  datatype Action =
    | Created(id: nat)
    | Completed(id: nat, op: Operation, ok: bool)
    | ReadIssued(id: nat)
    | Handled(id: nat)
    | FinishIssued(id: nat)
    | Deleted(id: nat)

  /** Live streams, outstanding tags, the name of the next stream, the past. */
  datatype World = World(streams: map<nat, StreamState>, tags: multiset<Tag>, next: nat, log: seq<Action>)

  datatype Event = Event(tag: Tag, ok: bool)

  // ---------- One event, on values ----------

  const NEWBORN := StreamState(Create, 0)

  predicate Exhausted(max: int, replies: nat) {
    max > 0 && replies >= max
  }

  /** The stream after its event; None: it has deleted itself. */
  function Outcome(s: StreamState, ok: bool, max: int): Option<StreamState> {
    match s.phase
    case Create => if ok then Some(StreamState(Read, s.replies)) else None
    case Read =>
      if !ok then Some(StreamState(Finishing, s.replies))
      else Some(StreamState(if Exhausted(max, s.replies + 1) then Finishing else Read, s.replies + 1))
    case Finishing => None
    case Done => None
  }

  /** An accepted stream spawns the one that waits for the next client. */
  predicate Spawns(s: StreamState, ok: bool) {
    s.phase == Create && ok
  }

  /** The operation the stream waits for afterwards. */
  function Awaits(p: Phase): Option<Operation> {
    match p
    case Create => Some(Accept)
    case Read => Some(Receive)
    case Finishing => Some(Finish)
    case Done => None
  }

  function Issued(id: nat, s: Option<StreamState>): multiset<Tag> {
    if s.Some? && Awaits(s.value.phase).Some? then multiset{Tag(id, Awaits(s.value.phase).value)} else multiset{}
  }

  /** What the stream does when its operation completes. */
  function Reaction(id: nat, ok: bool, s: StreamState, next: nat, max: int): seq<Action> {
    match s.phase
    case Create => if ok then [Created(next), ReadIssued(id)] else [Deleted(id)]
    case Read =>
      if !ok then [FinishIssued(id)]
      else [Handled(id), if Exhausted(max, s.replies + 1) then FinishIssued(id) else ReadIssued(id)]
    case Finishing => [Deleted(id)]
    case Done => [Deleted(id)]
  }

  function StreamsAfter(w: World, e: Event, max: int): map<nat, StreamState>
    requires e.tag.id in w.streams
  {
    var id, s := e.tag.id, w.streams[e.tag.id];
    var grown := if Spawns(s, e.ok) then w.streams[w.next := NEWBORN] else w.streams;
    match Outcome(s, e.ok, max)
    case None => grown - {id}
    case Some(t) => grown[id := t]
  }

  function TagsAfter(w: World, e: Event, max: int): multiset<Tag>
    requires e.tag.id in w.streams
  {
    var id, s := e.tag.id, w.streams[e.tag.id];
    w.tags - multiset{e.tag}
    + (if Spawns(s, e.ok) then multiset{Tag(w.next, Accept)} else multiset{})
    + Issued(id, Outcome(s, e.ok, max))
  }

  /** What one event adds to the past. */
  function AddedBy(w: World, e: Event, max: int): seq<Action>
    requires e.tag.id in w.streams
  {
    [Completed(e.tag.id, e.tag.op, e.ok)] + Reaction(e.tag.id, e.ok, w.streams[e.tag.id], w.next, max)
  }

  /** None: a deleted stream is touched. */
  function Step(w: World, e: Event, max: int): Option<World> {
    if e.tag.id !in w.streams then None
    else Some(World(StreamsAfter(w, e, max), TagsAfter(w, e, max),
      w.next + if Spawns(w.streams[e.tag.id], e.ok) then 1 else 0,
      w.log + AddedBy(w, e, max)))
  }

  const START := World(map[0 := NEWBORN], multiset{Tag(0, Accept)}, 1, [Created(0)])

  function Run(es: seq<Event>, max: int): Option<World> {
    if es == [] then Some(START)
    else
      var before := Run(es[..|es| - 1], max);
      if before == None then None else Step(before.value, es[|es| - 1], max)
  }

  /** The queue returns every issued tag at most once, and nothing else. */
  ghost predicate IsSchedule(es: seq<Event>, max: int) {
    forall n :: 0 <= n < |es| ==> Run(es[..n], max).Some? ==> es[n].tag in Run(es[..n], max).value.tags
  }

  // ---------- Streams and tags ----------

  ghost predicate TagIsAwaited(w: World, t: Tag) {
    t.id in w.streams && Awaits(w.streams[t.id].phase) == Some(t.op)
  }

  /** Every live stream waits for exactly one tag, and every tag is awaited. */
  ghost predicate Bijective(w: World) {
    && (forall t :: w.tags[t] == if TagIsAwaited(w, t) then 1 else 0)
    && (forall id :: id in w.streams ==> id < w.next && w.streams[id].phase != Done)
  }

  lemma TagIsLive(w: World, t: Tag)
    requires Bijective(w) && t in w.tags
    ensures t.id in w.streams && t.id < w.next && Awaits(w.streams[t.id].phase) == Some(t.op)
  {
    assert w.tags[t] == 1;
  }

  /** Only the event's stream and a newborn change. */
  lemma StreamsAfterAt(w: World, e: Event, max: int, k: nat)
    requires e.tag.id in w.streams && e.tag.id < w.next && w.next !in w.streams
    ensures var id, after := e.tag.id, StreamsAfter(w, e, max);
      if k == id then
        match Outcome(w.streams[id], e.ok, max)
          case None => k !in after
          case Some(t) => k in after && after[k] == t
      else if k == w.next then
        if Spawns(w.streams[id], e.ok) then k in after && after[k] == NEWBORN else k !in after
      else
        (k in after <==> k in w.streams) && (k in after ==> after[k] == w.streams[k])
  {
  }

  lemma StepIsBijective(w: World, e: Event, max: int)
    requires Bijective(w) && e.tag in w.tags
    ensures Step(w, e, max).Some? && Bijective(Step(w, e, max).value)
  {
    hide StreamsAfter, AddedBy;
    TagIsLive(w, e.tag);
    var w' := Step(w, e, max).value;
    forall t
      ensures w'.tags[t] == if TagIsAwaited(w', t) then 1 else 0
    {
      StreamsAfterAt(w, e, max, t.id);
      assert w.tags[t] == if TagIsAwaited(w, t) then 1 else 0;
    }
    forall id | id in w'.streams
      ensures id < w'.next && w'.streams[id].phase != Done
    {
      StreamsAfterAt(w, e, max, id);
    }
  }

  // ---------- Accepting ----------

  predicate Refused(log: seq<Action>) {
    exists i :: 0 <= i < |log| && log[i].Completed? && log[i].op == Accept && !log[i].ok
  }

  ghost predicate InCreate(w: World, id: nat) {
    id in w.streams && w.streams[id].phase == Create
  }

  /** One stream waits to be accepted until one is refused; after that none. */
  ghost predicate OneAccepting(w: World) {
    if Refused(w.log) then forall id :: !InCreate(w, id)
    else exists id :: InCreate(w, id) && forall other :: InCreate(w, other) ==> other == id
  }

  lemma RefusedGrows(log: seq<Action>, more: seq<Action>)
    ensures Refused(log + more) <==> Refused(log) || Refused(more)
  {
    if Refused(log) {
      var i :| 0 <= i < |log| && log[i].Completed? && log[i].op == Accept && !log[i].ok;
      assert (log + more)[i] == log[i];
    }
    if Refused(more) {
      var i :| 0 <= i < |more| && more[i].Completed? && more[i].op == Accept && !more[i].ok;
      assert (log + more)[|log| + i] == more[i];
    }
  }

  lemma RefusedByOne(w: World, e: Event, max: int)
    requires Bijective(w) && e.tag in w.tags
    ensures Step(w, e, max).Some?
    ensures Refused(Step(w, e, max).value.log) <==> Refused(w.log) || (e.tag.op == Accept && !e.ok)
  {
    TagIsLive(w, e.tag);
    var added := AddedBy(w, e, max);
    RefusedGrows(w.log, added);
    assert added[0] == Completed(e.tag.id, e.tag.op, e.ok);
  }

  lemma StepKeepsOneAccepting(w: World, e: Event, max: int)
    requires Bijective(w) && e.tag in w.tags && OneAccepting(w)
    ensures Step(w, e, max).Some? && OneAccepting(Step(w, e, max).value)
  {
    hide StreamsAfter, TagsAfter, AddedBy, Refused, Bijective;
    RefusedByOne(w, e, max);
    TagIsLive(w, e.tag);
    NextIsFree(w);
    var id, w' := e.tag.id, Step(w, e, max).value;
    forall k
      ensures InCreate(w', k) <==> (InCreate(w, k) && k != id) || (k == w.next && InCreate(w, id) && e.ok)
    {
      StreamsAfterAt(w, e, max, k);
    }
    assert e.tag.op == Accept <==> InCreate(w, id);
    if !Refused(w.log) {
      var c :| InCreate(w, c) && forall other :: InCreate(w, other) ==> other == c;
      if c != id {
        assert InCreate(w', c);
      } else if e.ok {
        assert InCreate(w', w.next);
      }
    }
  }

  lemma NextIsFree(w: World)
    requires Bijective(w)
    ensures w.next !in w.streams
  {
  }

  // ---------- Accounting ----------

  /** How often an action is in the past. */
  ghost function Times(w: World, a: Action): nat {
    multiset(w.log)[a]
  }

  ghost predicate LiveAccount(w: World, id: nat, max: int)
    requires id in w.streams
  {
    var s := w.streams[id];
    && Times(w, Created(id)) == 1 && Times(w, Deleted(id)) == 0
    && Times(w, Handled(id)) == s.replies
    && Times(w, Completed(id, Receive, true)) == s.replies
    && Times(w, FinishIssued(id)) == (if s.phase == Finishing then 1 else 0)
    && (s.phase == Create ==> s.replies == 0)
    && (max > 0 ==> s.replies <= max)
    && (max > 0 && s.phase == Read ==> s.replies < max)
  }

  ghost predicate DeadAccount(w: World, id: nat, max: int) {
    && Times(w, Created(id)) == 1 && Times(w, Deleted(id)) == 1
    && Times(w, Completed(id, Receive, true)) == Times(w, Handled(id))
    && Times(w, FinishIssued(id)) <= 1
    && (max > 0 ==> Times(w, Handled(id)) <= max)
  }

  ghost predicate Accounted(w: World, max: int) {
    && (forall id :: id in w.streams ==> LiveAccount(w, id, max))
    && (forall id: nat :: id < w.next && id !in w.streams ==> DeadAccount(w, id, max))
    && (forall i :: 0 <= i < |w.log| ==> w.log[i].id < w.next)
  }

  /** Nothing concerns a stream after its deletion, no Read follows a Finish,
      and a Finish has its reason just before it. */
  ghost predicate WellOrdered(log: seq<Action>, max: int) {
    && (forall i, j :: 0 <= i < j < |log| && log[i].Deleted? ==> log[j].id != log[i].id)
    && (forall i, j :: 0 <= i < j < |log| && log[i].FinishIssued? && log[j].ReadIssued? ==> log[j].id != log[i].id)
    && (forall i :: 0 <= i < |log| && log[i].FinishIssued? ==> HasReason(log, i, max))
  }

  /** The last read failed, or the limit is reached. */
  ghost predicate HasReason(log: seq<Action>, i: nat, max: int)
    requires i < |log| && log[i].FinishIssued?
  {
    var id := log[i].id;
    && i > 0
    && (log[i - 1] == Completed(id, Receive, false) ||
        (log[i - 1] == Handled(id) && max > 0 && multiset(log[..i])[Handled(id)] == max))
  }

  lemma TimesAfter(w: World, e: Event, max: int, a: Action)
    requires e.tag.id in w.streams
    ensures Times(Step(w, e, max).value, a) == Times(w, a) + multiset(AddedBy(w, e, max))[a]
  {
  }

  lemma UnseenId(w: World, a: Action)
    requires (forall i :: 0 <= i < |w.log| ==> w.log[i].id < w.next) && a.id >= w.next
    ensures Times(w, a) == 0
  {
    assert forall i :: 0 <= i < |w.log| ==> w.log[i] != a;
  }

  /** An event changes the counts of its own stream and of a newborn only. */
  lemma OthersKeepCounts(w: World, e: Event, max: int, a: Action)
    requires e.tag.id in w.streams && a.id != e.tag.id && a.id < w.next
    ensures Times(Step(w, e, max).value, a) == Times(w, a)
  {
    TimesAfter(w, e, max, a);
    assert a !in AddedBy(w, e, max);
  }

  lemma OwnAdded(w: World, e: Event, max: int)
    requires e.tag.id in w.streams && e.tag.id < w.next && w.streams[e.tag.id].phase != Done
    ensures var id, s, m := e.tag.id, w.streams[e.tag.id], multiset(AddedBy(w, e, max));
      var t := Outcome(s, e.ok, max);
      && m[Created(id)] == 0
      && m[Deleted(id)] == (if t.None? then 1 else 0)
      && m[Handled(id)] == (if s.phase == Read && e.ok then 1 else 0)
      && m[Completed(id, Receive, true)] == (if e.tag.op == Receive && e.ok then 1 else 0)
      && m[FinishIssued(id)] == (if t.Some? && t.value.phase == Finishing then 1 else 0)
  {
  }

  /** The counts of the event's stream afterwards. */
  lemma OwnTimes(w: World, e: Event, max: int)
    requires e.tag.id in w.streams && e.tag.id < w.next && w.streams[e.tag.id].phase != Done
    ensures var id, s, w' := e.tag.id, w.streams[e.tag.id], Step(w, e, max).value;
      var t := Outcome(s, e.ok, max);
      && Times(w', Created(id)) == Times(w, Created(id))
      && Times(w', Deleted(id)) == Times(w, Deleted(id)) + (if t.None? then 1 else 0)
      && Times(w', Handled(id)) == Times(w, Handled(id)) + (if s.phase == Read && e.ok then 1 else 0)
      && Times(w', Completed(id, Receive, true))
         == Times(w, Completed(id, Receive, true)) + (if e.tag.op == Receive && e.ok then 1 else 0)
      && Times(w', FinishIssued(id))
         == Times(w, FinishIssued(id)) + (if t.Some? && t.value.phase == Finishing then 1 else 0)
  {
    var id := e.tag.id;
    hide AddedBy, Outcome, Times, Step;
    OwnAdded(w, e, max);
    TimesAfter(w, e, max, Created(id));
    TimesAfter(w, e, max, Deleted(id));
    TimesAfter(w, e, max, Handled(id));
    TimesAfter(w, e, max, Completed(id, Receive, true));
    TimesAfter(w, e, max, FinishIssued(id));
  }

  /** The event's stream afterwards. */
  lemma OwnState(w: World, e: Event, max: int)
    requires e.tag.id in w.streams && e.tag.id < w.next && w.next !in w.streams
    ensures var id, after := e.tag.id, Step(w, e, max).value.streams;
      match Outcome(w.streams[id], e.ok, max)
        case None => id !in after
        case Some(t) => id in after && after[id] == t
  {
    hide StreamsAfter, TagsAfter, AddedBy, Outcome, Spawns;
    StreamsAfterAt(w, e, max, e.tag.id);
  }

  lemma OwnAccount(w: World, e: Event, max: int)
    requires e.tag.id in w.streams && e.tag.id < w.next && w.next !in w.streams
    requires Awaits(w.streams[e.tag.id].phase) == Some(e.tag.op) && LiveAccount(w, e.tag.id, max)
    ensures var w', id := Step(w, e, max).value, e.tag.id;
      if id in w'.streams then LiveAccount(w', id, max) else DeadAccount(w', id, max)
  {
    hide StreamsAfter, TagsAfter, Times, AddedBy;
    OwnState(w, e, max);
    OwnTimes(w, e, max);
  }

  lemma OwnCounts(w: World, e: Event, max: int)
    requires Bijective(w) && e.tag in w.tags && Accounted(w, max)
    ensures e.tag.id in w.streams
    ensures var w', id := Step(w, e, max).value, e.tag.id;
      if id in w'.streams then LiveAccount(w', id, max) else DeadAccount(w', id, max)
  {
    TagIsLive(w, e.tag);
    NextIsFree(w);
    var id := e.tag.id;
    assert LiveAccount(w, id, max) && w.streams[id].phase != Done;
    hide *;
    OwnAccount(w, e, max);
  }

  lemma NewbornCounts(w: World, e: Event, max: int)
    requires Bijective(w) && e.tag in w.tags && Accounted(w, max)
    requires e.tag.id in w.streams && Spawns(w.streams[e.tag.id], e.ok)
    ensures w.next in Step(w, e, max).value.streams && LiveAccount(Step(w, e, max).value, w.next, max)
  {
    NextIsFree(w);
    StreamsAfterAt(w, e, max, w.next);
    NewbornCount(w, e, max, Created(w.next));
    NewbornCount(w, e, max, Deleted(w.next));
    NewbornCount(w, e, max, Handled(w.next));
    NewbornCount(w, e, max, Completed(w.next, Receive, true));
    NewbornCount(w, e, max, FinishIssued(w.next));
    hide StreamsAfter, TagsAfter, Times, Bijective, Accounted, AddedBy;
  }

  lemma NewbornCount(w: World, e: Event, max: int, a: Action)
    requires Bijective(w) && Accounted(w, max) && e.tag.id in w.streams
    requires Spawns(w.streams[e.tag.id], e.ok) && a.id == w.next
    ensures Times(Step(w, e, max).value, a) == if a == Created(w.next) then 1 else 0
  {
    TimesAfter(w, e, max, a);
    UnseenId(w, a);
  }

  lemma OtherAccounts(w: World, e: Event, max: int, id: nat)
    requires Bijective(w) && e.tag in w.tags && Accounted(w, max)
    requires e.tag.id in w.streams && id != e.tag.id && id < w.next
    ensures var w' := Step(w, e, max).value;
      if id in w'.streams then LiveAccount(w', id, max) else DeadAccount(w', id, max)
  {
    NextIsFree(w);
    TagIsLive(w, e.tag);
    assert if id in w.streams then LiveAccount(w, id, max) else DeadAccount(w, id, max);
    hide StreamsAfter, TagsAfter, Times, Bijective, Accounted, AddedBy;
    StreamsAfterAt(w, e, max, id);
    OthersKeepCounts(w, e, max, Created(id));
    OthersKeepCounts(w, e, max, Deleted(id));
    OthersKeepCounts(w, e, max, Handled(id));
    OthersKeepCounts(w, e, max, Completed(id, Receive, true));
    OthersKeepCounts(w, e, max, FinishIssued(id));
  }

  lemma StepIsAccounted(w: World, e: Event, max: int)
    requires Bijective(w) && e.tag in w.tags && Accounted(w, max)
    ensures Step(w, e, max).Some? && Accounted(Step(w, e, max).value, max)
  {
    TagIsLive(w, e.tag);
    NextIsFree(w);
    var w' := Step(w, e, max).value;
    forall id: nat | id < w'.next
      ensures if id in w'.streams then LiveAccount(w', id, max) else DeadAccount(w', id, max)
    {
      hide StreamsAfter, TagsAfter, Times, Bijective, Accounted, AddedBy, LiveAccount, DeadAccount;
      if id == w.next {
        NewbornCounts(w, e, max);
      } else if id == e.tag.id {
        OwnCounts(w, e, max);
      } else {
        OtherAccounts(w, e, max, id);
      }
    }
    forall id | id in w'.streams
      ensures id < w'.next
    {
      StepIsBijective(w, e, max);
    }
    forall i | 0 <= i < |w'.log|
      ensures w'.log[i].id < w'.next
    {
      if i >= |w.log| {
        AddedIds(w, e, max, i - |w.log|);
      }
    }
    hide StreamsAfter, TagsAfter, Times, Bijective, AddedBy, LiveAccount, DeadAccount;
  }

  lemma AddedIds(w: World, e: Event, max: int, i: nat)
    requires e.tag.id in w.streams && i < |AddedBy(w, e, max)|
    ensures var a := AddedBy(w, e, max)[i];
      a.id == e.tag.id || (a.id == w.next && a.Created? && Spawns(w.streams[e.tag.id], e.ok))
  {
  }

  lemma AddedIsOrdered(w: World, e: Event, max: int)
    requires Bijective(w) && e.tag in w.tags
    ensures e.tag.id in w.streams
    ensures var added := AddedBy(w, e, max);
      && (forall i, j :: 0 <= i < j < |added| && added[i].Deleted? ==> added[j].id != added[i].id)
      && (forall i, j :: 0 <= i < j < |added| && added[i].FinishIssued? && added[j].ReadIssued? ==>
            added[j].id != added[i].id)
      && (forall i :: 0 <= i < |added| && added[i].ReadIssued? ==>
            added[i].id == e.tag.id && w.streams[e.tag.id].phase != Finishing)
  {
    TagIsLive(w, e.tag);
  }

  lemma InPast(log: seq<Action>, i: nat)
    requires i < |log|
    ensures multiset(log)[log[i]] > 0
  {
    assert log[i] in log;
  }

  lemma AddedHasReason(w: World, e: Event, max: int, i: nat)
    requires Bijective(w) && e.tag in w.tags && Accounted(w, max)
    requires e.tag.id in w.streams && i < |AddedBy(w, e, max)| && AddedBy(w, e, max)[i].FinishIssued?
    ensures HasReason(w.log + AddedBy(w, e, max), |w.log| + i, max)
  {
    TagIsLive(w, e.tag);
    var id, added := e.tag.id, AddedBy(w, e, max);
    var log := w.log + added;
    assert log[|w.log| + i - 1] == added[i - 1];
    assert LiveAccount(w, id, max);
    if e.ok {
      assert log[..|w.log| + i] == w.log + [Completed(id, e.tag.op, true), Handled(id)];
    }
  }

  lemma ReasonIsKept(log: seq<Action>, more: seq<Action>, i: nat, max: int)
    requires i < |log| && log[i].FinishIssued? && HasReason(log, i, max)
    ensures HasReason(log + more, i, max)
  {
    assert (log + more)[..i] == log[..i];
  }

  /** What the past says about the actions of the event's stream. */
  lemma PastOf(w: World, e: Event, max: int, i: nat)
    requires Bijective(w) && e.tag in w.tags && Accounted(w, max) && i < |w.log|
    ensures w.log[i].id < w.next && e.tag.id in w.streams
    ensures w.log[i].Deleted? ==> w.log[i].id != e.tag.id
    ensures w.log[i].FinishIssued? && w.log[i].id == e.tag.id ==> w.streams[e.tag.id].phase == Finishing
  {
    TagIsLive(w, e.tag);
    InPast(w.log, i);
    assert LiveAccount(w, e.tag.id, max);
  }

  lemma StepIsOrdered(w: World, e: Event, max: int)
    requires Bijective(w) && e.tag in w.tags && Accounted(w, max) && WellOrdered(w.log, max)
    ensures Step(w, e, max).Some? && WellOrdered(Step(w, e, max).value.log, max)
  {
    hide HasReason, Bijective, Accounted, StreamsAfter, TagsAfter, AddedBy;
    TagIsLive(w, e.tag);
    AddedIsOrdered(w, e, max);
    var id, added, n := e.tag.id, AddedBy(w, e, max), |w.log|;
    var log := w.log + added;
    forall i, j | 0 <= i < n <= j < |log|
      ensures log[i].Deleted? ==> log[j].id != log[i].id
      ensures log[i].FinishIssued? && log[j].ReadIssued? ==> log[j].id != log[i].id
    {
      PastOf(w, e, max, i);
      AddedIds(w, e, max, j - n);
    }
    forall i | 0 <= i < |log| && log[i].FinishIssued?
      ensures HasReason(log, i, max)
    {
      if i < n {
        ReasonIsKept(w.log, added, i, max);
      } else {
        AddedHasReason(w, e, max, i - n);
      }
    }
  }

  // ---------- Answers ----------

  /** What follows the completion at place i: an accepted stream has its successor
      created before it reads, a message is handled before anything else is
      asked for, and only a stream that has finished or was refused is deleted. */
  ghost predicate IsAnswered(log: seq<Action>, i: nat, max: int)
    requires i < |log| && log[i].Completed?
  {
    var Completed(id, op, ok) := log[i];
    if op == Accept && ok then i + 2 < |log| && log[i + 1].Created? && log[i + 1].id > id && log[i + 2] == ReadIssued(id)
    else if op == Receive && ok then
      && i + 2 < |log| && log[i + 1] == Handled(id)
      && log[i + 2] ==
           if max > 0 && multiset(log[..i + 2])[Handled(id)] >= max then FinishIssued(id) else ReadIssued(id)
    else i + 1 < |log| && log[i + 1] == if op == Receive then FinishIssued(id) else Deleted(id)
  }

  ghost predicate Answered(log: seq<Action>, max: int) {
    forall i :: 0 <= i < |log| && log[i].Completed? ==> IsAnswered(log, i, max)
  }

  lemma AnswerIsKept(log: seq<Action>, more: seq<Action>, i: nat, max: int)
    requires i < |log| && log[i].Completed? && IsAnswered(log, i, max)
    ensures IsAnswered(log + more, i, max)
  {
    var all := log + more;
    assert i + 2 < |log| ==> all[..i + 2] == log[..i + 2];
  }

  lemma StepAnswers(w: World, e: Event, max: int)
    requires Bijective(w) && e.tag in w.tags && Accounted(w, max)
    ensures e.tag.id in w.streams && IsAnswered(w.log + AddedBy(w, e, max), |w.log|, max)
  {
    TagIsLive(w, e.tag);
    var id, added := e.tag.id, AddedBy(w, e, max);
    var log := w.log + added;
    assert log[|w.log|] == added[0];
    assert LiveAccount(w, id, max);
    if e.tag.op == Receive && e.ok {
      assert log[..|w.log| + 2] == w.log + [Completed(id, Receive, true), Handled(id)];
      assert log[|w.log| + 1] == added[1] && log[|w.log| + 2] == added[2];
    } else if e.tag.op == Accept && e.ok {
      assert log[|w.log| + 1] == added[1] && log[|w.log| + 2] == added[2];
    } else {
      assert log[|w.log| + 1] == added[1];
    }
  }

  lemma OnlyFirstIsCompletion(w: World, e: Event, max: int, i: nat)
    requires e.tag.id in w.streams && 0 < i < |AddedBy(w, e, max)|
    ensures !AddedBy(w, e, max)[i].Completed?
  {
  }

  lemma StepStaysAnswered(w: World, e: Event, max: int)
    requires Bijective(w) && e.tag in w.tags && Accounted(w, max) && Answered(w.log, max)
    ensures Step(w, e, max).Some? && Answered(Step(w, e, max).value.log, max)
  {
    hide IsAnswered, Bijective, Accounted, StreamsAfter, TagsAfter, AddedBy;
    StepAnswers(w, e, max);
    var added, n := AddedBy(w, e, max), |w.log|;
    var log := w.log + added;
    forall i | 0 <= i < |log| && log[i].Completed?
      ensures IsAnswered(log, i, max)
    {
      if i < n {
        AnswerIsKept(w.log, added, i, max);
      } else if i > n {
        OnlyFirstIsCompletion(w, e, max, i - n);
      }
    }
  }

  // ---------- Whole runs ----------

  ghost predicate Sound(w: World, max: int) {
    Bijective(w) && OneAccepting(w) && Accounted(w, max) && WellOrdered(w.log, max) && Answered(w.log, max)
  }

  lemma StartIsBijective()
    ensures Bijective(START)
  {
  }

  lemma StartAccepts()
    ensures OneAccepting(START)
  {
    assert |START.log| == 1 && START.log[0].Created?;
    assert !Refused(START.log);
    assert InCreate(START, 0) && forall other :: InCreate(START, other) ==> other == 0;
  }

  lemma StartIsAccounted(max: int)
    ensures Accounted(START, max) && WellOrdered(START.log, max) && Answered(START.log, max)
  {
    assert START.log == [Created(0)];
    assert LiveAccount(START, 0, max);
  }

  lemma StartIsSound(max: int)
    ensures Sound(START, max)
  {
    hide Bijective, OneAccepting, Accounted, WellOrdered, Answered;
    StartIsBijective();
    StartAccepts();
    StartIsAccounted(max);
  }

  lemma StepIsSound(w: World, e: Event, max: int)
    requires Sound(w, max) && e.tag in w.tags
    ensures Step(w, e, max).Some? && Sound(Step(w, e, max).value, max)
  {
    hide Step, Bijective, OneAccepting, Accounted, WellOrdered, Answered;
    StepStaysAnswered(w, e, max);
    StepIsBijective(w, e, max);
    StepKeepsOneAccepting(w, e, max);
    StepIsAccounted(w, e, max);
    StepIsOrdered(w, e, max);
  }

  lemma SchedulePrefix(es: seq<Event>, max: int, n: nat)
    requires IsSchedule(es, max) && n <= |es|
    ensures IsSchedule(es[..n], max)
  {
    forall k | 0 <= k < n
      ensures Run(es[..n][..k], max).Some? ==> es[..n][k].tag in Run(es[..n][..k], max).value.tags
    {
      assert es[..n][..k] == es[..k];
    }
  }

  lemma ScheduledLast(es: seq<Event>, max: int)
    requires IsSchedule(es, max) && es != [] && Run(es[..|es| - 1], max).Some?
    ensures es[|es| - 1].tag in Run(es[..|es| - 1], max).value.tags
  {
  }

  lemma RunLast(es: seq<Event>, max: int)
    requires es != []
    ensures var before := Run(es[..|es| - 1], max);
      Run(es, max) == if before == None then None else Step(before.value, es[|es| - 1], max)
  {
    hide Step;
  }

  /** In every reachable state live streams and outstanding tags are in
      bijection, no deleted stream has been touched, one stream waits to be
      accepted until a refusal, and the accounts are right. */
  lemma {:induction false} RunIsSound(es: seq<Event>, max: int)
    requires IsSchedule(es, max)
    ensures Run(es, max).Some? && Sound(Run(es, max).value, max)
    decreases |es|
  {
    hide Sound, Step, IsSchedule;
    if es == [] {
      StartIsSound(max);
    } else {
      RunLast(es, max);
      hide Run;
      var n := |es| - 1;
      SchedulePrefix(es, max, n);
      RunIsSound(es[..n], max);
      ScheduledLast(es, max);
      StepIsSound(Run(es[..n], max).value, es[n], max);
    }
  }

  /** What the accounts say of a run: every message received ok is handled once
      and counted, the limit is kept, Finish is issued once at most, no Read
      follows it, and without a limit it follows only a failed Read. */
  lemma MessagesAreAccounted(es: seq<Event>, max: int)
    requires IsSchedule(es, max)
    ensures Run(es, max).Some?
    ensures var w := Run(es, max).value;
      && (forall id :: id in w.streams ==>
            w.streams[id].replies == Times(w, Handled(id)) == Times(w, Completed(id, Receive, true)))
      && (forall id: nat :: id < w.next ==>
            Times(w, FinishIssued(id)) <= 1 && (max > 0 ==> Times(w, Handled(id)) <= max))
      && (forall i, j :: 0 <= i < j < |w.log| && w.log[i].FinishIssued? && w.log[j].ReadIssued? ==>
            w.log[j].id != w.log[i].id)
      && (forall i :: 0 <= i < |w.log| && w.log[i].FinishIssued? && max <= 0 ==>
            i > 0 && w.log[i - 1] == Completed(w.log[i].id, Receive, false))
  {
    RunIsSound(es, max);
    hide Times, Run;
    var w := Run(es, max).value;
    forall id: nat | id < w.next
      ensures Times(w, FinishIssued(id)) <= 1 && (max > 0 ==> Times(w, Handled(id)) <= max)
    {
      assert if id in w.streams then LiveAccount(w, id, max) else DeadAccount(w, id, max);
    }
    forall id | id in w.streams
      ensures w.streams[id].replies == Times(w, Handled(id)) == Times(w, Completed(id, Receive, true))
    {
      assert LiveAccount(w, id, max);
    }
    forall i | 0 <= i < |w.log| && w.log[i].FinishIssued? && max <= 0
      ensures i > 0 && w.log[i - 1] == Completed(w.log[i].id, Receive, false)
    {
      assert HasReason(w.log, i, max);
    }
  }

  /** Every completion of a run is answered at once, as its operation asks for. */
  lemma CompletionsAreAnswered(es: seq<Event>, max: int)
    requires IsSchedule(es, max)
    ensures Run(es, max).Some? && Answered(Run(es, max).value.log, max)
  {
    RunIsSound(es, max);
  }

  /** After a refusal no stream is ever in Create again. */
  lemma RefusalIsFinal(es: seq<Event>, max: int, n: nat)
    requires IsSchedule(es, max) && n <= |es|
    requires Run(es[..n], max).Some? && Refused(Run(es[..n], max).value.log)
    ensures Run(es, max).Some? && forall id :: !InCreate(Run(es, max).value, id)
  {
    RunIsSound(es, max);
    RefusalStays(es, max, n);
  }

  lemma {:induction false} RefusalStays(es: seq<Event>, max: int, n: nat)
    requires IsSchedule(es, max) && n <= |es|
    requires Run(es[..n], max).Some? && Refused(Run(es[..n], max).value.log)
    ensures Run(es, max).Some? && Refused(Run(es, max).value.log)
    decreases |es|
  {
    hide Refused, Step, Sound;
    if n == |es| {
      assert es[..n] == es;
    } else {
      var m := |es| - 1;
      SchedulePrefix(es, max, m);
      assert es[..m][..n] == es[..n];
      RefusalStays(es[..m], max, n);
      RunIsSound(es[..m], max);
      SoundIsBijective(Run(es[..m], max).value, max);
      RefusedByOne(Run(es[..m], max).value, es[m], max);
    }
  }

  lemma SoundIsBijective(w: World, max: int)
    requires Sound(w, max)
    ensures Bijective(w)
  {
  }
}
