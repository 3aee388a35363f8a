/** Server registry, worker life cycles and shutdown, over every interleaving of
    the workers with the one thread that starts and stops them. */
module Shutdown {
  import opened Options

  /** A worker thread and the server object on its stack. */
  datatype Phase = Started | Built | Registered | Left | Unregistered | Gone

  /** `done` is the shutdown flag; the counts are calls on the gRPC server and on
      its completion queue. */
  datatype Worker = Worker(phase: Phase, done: bool, serverStops: nat, queueStops: nat)

  /** Where the controlling thread is inside one Srv::Shutdown. */
  datatype Micro = AtFlag | AtServer | AtQueue

  datatype Control =
    | Idle
    | Starting(id: nat)
    | Shutting(snapshot: seq<nat>, pos: nat, micro: Micro)
    | Swapping
    | Joining(handles: seq<nat>, pos: nat)
    | Ended

  datatype World = World(
    workers: map<nat, Worker>,
    servers: seq<nat>,
    handles: seq<nat>,
    joined: seq<nat>,
    control: Control)

  /** What follows the loop over the snapshot: the bridge joins its workers, the
      daemon's watcher returns; Repeat is a caller that does neither. */
  datatype Afterwards = JoinWorkers | Return | Repeat

  datatype Event =
    // the controlling thread
    | CreateThread(id: nat)
    | PushHandle
    | TakeSnapshot
    | Advance(next: Afterwards)
    | SwapHandles
    | Join
    // a worker
    | Build(id: nat)
    | Register(id: nat)
    | LeaveLoop(id: nat)
    | Unregister(id: nat)
    | Destroy(id: nat)

  const START := World(map[], [], [], [], Idle)

  function RemoveFirst(s: seq<nat>, x: nat): seq<nat> {
    if s == [] then [] else if s[0] == x then s[1..] else [s[0]] + RemoveFirst(s[1..], x)
  }

  predicate IsAt(w: World, id: nat, p: Phase) {
    id in w.workers && w.workers[id].phase == p
  }

  /** The events the present state allows. A worker leaves its event loop only
      once its queue has been shut down; a join waits for the thread to end. */
  predicate Enabled(w: World, e: Event) {
    match e
    case CreateThread(id) => w.control == Idle && id !in w.workers
    case PushHandle => w.control.Starting?
    case TakeSnapshot => w.control == Idle
    case Advance(_) => w.control.Shutting?
    case SwapHandles => w.control == Swapping
    case Join => w.control.Joining? &&
      (w.control.pos < |w.control.handles| ==> IsAt(w, w.control.handles[w.control.pos], Gone))
    case Build(id) => IsAt(w, id, Started)
    case Register(id) => IsAt(w, id, Built)
    case LeaveLoop(id) => IsAt(w, id, Registered) && w.workers[id].queueStops > 0
    case Unregister(id) => IsAt(w, id, Left)
    case Destroy(id) => IsAt(w, id, Unregistered)
  }

  function Moved(w: World, id: nat, p: Phase): World
    requires id in w.workers
  {
    w.(workers := w.workers[id := w.workers[id].(phase := p)])
  }

  /** One micro-step of the loop over the snapshot; None: the server object it
      touches is gone. */
  function ShutdownStep(w: World, next: Afterwards): Option<World>
    requires w.control.Shutting?
  {
    var Shutting(snapshot, pos, micro) := w.control;
    if pos >= |snapshot| then
      Some(w.(control := match next case JoinWorkers => Swapping case Return => Ended case Repeat => Idle))
    else if snapshot[pos] !in w.workers || w.workers[snapshot[pos]].phase == Gone then None
    else
      var id := snapshot[pos];
      var s := w.workers[id];
      match micro
      case AtFlag =>
        if s.done then Some(w.(control := Shutting(snapshot, pos + 1, AtFlag)))
        else Some(w.(workers := w.workers[id := s.(done := true)], control := Shutting(snapshot, pos, AtServer)))
      case AtServer =>
        Some(w.(workers := w.workers[id := s.(serverStops := s.serverStops + 1)],
                control := Shutting(snapshot, pos, AtQueue)))
      case AtQueue =>
        Some(w.(workers := w.workers[id := s.(queueStops := s.queueStops + 1)],
                control := Shutting(snapshot, pos + 1, AtFlag)))
  }

  /** The destructor shuts the server down, unless that has been done. */
  function Destroyed(s: Worker): (r: Worker)
    ensures r.phase == Gone && r.done
    ensures s.serverStops == s.queueStops == (if s.done then 1 else 0) ==> r.serverStops == r.queueStops == 1
  {
    if s.done then s.(phase := Gone)
    else Worker(Gone, true, s.serverStops + 1, s.queueStops + 1)
  }

  function Step(w: World, e: Event): Option<World>
    requires Enabled(w, e)
  {
    match e
    case CreateThread(id) =>
      Some(w.(workers := w.workers[id := Worker(Started, false, 0, 0)], control := Starting(id)))
    case PushHandle => Some(w.(handles := w.handles + [w.control.id], control := Idle))
    case TakeSnapshot => Some(w.(control := Shutting(w.servers, 0, AtFlag)))
    case Advance(next) => ShutdownStep(w, next)
    case SwapHandles => Some(w.(handles := [], control := Joining(w.handles, 0)))
    case Join =>
      if w.control.pos < |w.control.handles| then
        Some(w.(joined := w.joined + [w.control.handles[w.control.pos]],
                control := Joining(w.control.handles, w.control.pos + 1)))
      else Some(w.(control := Idle))
    case Build(id) => Some(Moved(w, id, Built))
    case Register(id) => Some(Moved(w, id, Registered).(servers := w.servers + [id]))
    case LeaveLoop(id) => Some(Moved(w, id, Left))
    case Unregister(id) => Some(Moved(w, id, Unregistered).(servers := RemoveFirst(w.servers, id)))
    case Destroy(id) => Some(w.(workers := w.workers[id := Destroyed(w.workers[id])]))
  }

  // ---------- The invariant ----------

  ghost predicate NoRepeats(s: seq<nat>) {
    forall i, j :: 0 <= i < j < |s| ==> s[i] != s[j]
  }

  /** The registry lists exactly the servers between registration and its undoing. */
  ghost predicate RegistryIsRight(w: World) {
    && NoRepeats(w.servers)
    && (forall id :: id in w.servers <==> IsAt(w, id, Registered) || IsAt(w, id, Left))
  }

  /** Shutdown effects come from the flag, once, queue after server; a worker is
      past its loop only after them. */
  ghost predicate EffectsAreRight(w: World) {
    forall id :: id in w.workers ==> EffectIsRight(w.workers[id])
  }

  predicate EffectIsRight(s: Worker) {
    && s.queueStops <= s.serverStops <= (if s.done then 1 else 0)
    && (s.phase == Left || s.phase == Unregistered || s.phase == Gone ==> s.done && s.queueStops == 1)
  }

  /** The handles that are still to be joined. */
  ghost function Unjoined(w: World): seq<nat> {
    match w.control
    case Starting(id) => w.handles + [id]
    case Joining(handles, pos) => (if pos <= |handles| then handles[pos..] else []) + w.handles
    case _ => w.handles
  }

  /** Every worker has one handle, joined once at most and only after its end. */
  ghost predicate HandlesAreRight(w: World) {
    && NoRepeats(w.joined + Unjoined(w))
    && (forall id :: id in w.workers <==> id in w.joined + Unjoined(w))
    && (forall id :: id in w.joined ==> IsAt(w, id, Gone))
    && (w.control.Joining? ==> w.control.pos <= |w.control.handles| && w.handles == [])
  }

  /** The server the controlling thread is shutting down. */
  predicate InHand(w: World, id: nat) {
    w.control.Shutting? && w.control.micro != AtFlag
    && w.control.pos < |w.control.snapshot| && w.control.snapshot[w.control.pos] == id
  }

  /** A server with its flag set has had both calls, or is getting them. */
  ghost predicate FlagsAreServed(w: World) {
    forall id :: id in w.workers && w.workers[id].done ==> w.workers[id].queueStops == 1 || InHand(w, id)
  }

  /** A server that has had both calls, each once. */
  predicate HasBeenStopped(w: World, id: nat) {
    id in w.workers && w.workers[id].done && w.workers[id].serverStops == 1 && w.workers[id].queueStops == 1
  }

  /** The first part of the snapshot has been shut down; the rest is alive and
      untouched. */
  ghost predicate SnapshotIsRight(w: World) {
    match w.control
    case Shutting(snapshot, pos, micro) =>
      && pos <= |snapshot| && (pos == |snapshot| ==> micro == AtFlag)
      && NoRepeats(snapshot)
      && (forall i :: 0 <= i < pos ==> HasBeenStopped(w, snapshot[i]))
      && (forall i :: (if micro == AtFlag then pos else pos + 1) <= i < |snapshot| ==>
            IsAt(w, snapshot[i], Registered) && !w.workers[snapshot[i]].done)
      && (micro != AtFlag ==>
            && IsAt(w, snapshot[pos], Registered) && w.workers[snapshot[pos]].done
            && w.workers[snapshot[pos]].queueStops == 0
            && w.workers[snapshot[pos]].serverStops == if micro == AtServer then 0 else 1)
    case _ => true
  }

  ghost predicate Inv(w: World) {
    RegistryIsRight(w) && EffectsAreRight(w) && FlagsAreServed(w) && HandlesAreRight(w) && SnapshotIsRight(w)
  }

  /** The guard: no registered server has been shut down already. */
  predicate NoneIsDone(w: World) {
    forall id :: id in w.servers ==> id in w.workers && !w.workers[id].done
  }

  predicate Guarded(w: World, e: Event) {
    e.TakeSnapshot? ==> NoneIsDone(w)
  }

  lemma {:induction false} RemoveFirstIs(s: seq<nat>, x: nat)
    requires NoRepeats(s)
    ensures NoRepeats(RemoveFirst(s, x))
    ensures forall y :: y in RemoveFirst(s, x) <==> y in s && y != x
  {
    if s != [] {
      var rest := RemoveFirst(s[1..], x);
      assert s == [s[0]] + s[1..];
      assert forall i :: 0 <= i < |s[1..]| ==> s[1..][i] == s[i + 1];
      RemoveFirstIs(s[1..], x);
      assert s[0] !in s[1..];
      assert s[0] !in rest;
    }
  }

  /** The order of the others is kept. */
  lemma {:induction false} RemoveFirstAt(s: seq<nat>, x: nat, i: nat)
    requires i < |s| && s[i] == x && x !in s[..i]
    ensures RemoveFirst(s, x) == s[..i] + s[i + 1..]
    decreases i
  {
    if i > 0 {
      assert s[0] in s[..i];
      assert s[1..][..i - 1] == s[..i][1..] && s[1..][i..] == s[i + 1..];
      assert forall y :: y in s[1..][..i - 1] ==> y in s[..i];
      RemoveFirstAt(s[1..], x, i - 1);
      assert s[..i] == [s[0]] + s[..i][1..];
    }
  }

  lemma RegistryStays(w: World, e: Event)
    requires RegistryIsRight(w) && Enabled(w, e) && Step(w, e).Some?
    ensures RegistryIsRight(Step(w, e).value)
  {
    var w' := Step(w, e).value;
    if e.Unregister? {
      RemoveFirstIs(w.servers, e.id);
    }
    if e.Register? {
      assert e.id !in w.servers;
    }
    forall id
      ensures id in w'.servers <==> IsAt(w', id, Registered) || IsAt(w', id, Left)
    {
      assert id in w.servers <==> IsAt(w, id, Registered) || IsAt(w, id, Left);
    }
  }

  lemma EffectsStay(w: World, e: Event)
    requires Inv(w) && Enabled(w, e) && Step(w, e).Some?
    ensures EffectsAreRight(Step(w, e).value)
  {
    hide HandlesAreRight, RegistryIsRight, FlagsAreServed;
  }

  lemma FlagsStayServed(w: World, e: Event)
    requires Inv(w) && Enabled(w, e) && Step(w, e).Some?
    ensures FlagsAreServed(Step(w, e).value)
  {
    hide HandlesAreRight, RegistryIsRight;
    var w' := Step(w, e).value;
    forall id | id in w'.workers && w'.workers[id].done
      ensures w'.workers[id].queueStops == 1 || InHand(w', id)
    {
      if id in w.workers {
        assert EffectIsRight(w.workers[id]);
        assert w.workers[id].done ==> w.workers[id].queueStops == 1 || InHand(w, id);
      }
    }
  }

  /** The workers' handles in order of joining; only a new thread adds one. */
  lemma AllHandles(w: World, e: Event)
    requires Enabled(w, e) && Step(w, e).Some?
    requires w.control.Joining? ==> w.control.pos <= |w.control.handles| && w.handles == []
    ensures var w' := Step(w, e).value;
      w'.joined + Unjoined(w') == w.joined + Unjoined(w) + if e.CreateThread? then [e.id] else []
  {
    if e.Join? {
      JoinKeepsHandles(w);
    } else if e.CreateThread? {
      assert w.joined + (w.handles + [e.id]) == w.joined + w.handles + [e.id];
    }
  }

  lemma JoinKeepsHandles(w: World)
    requires w.control.Joining? && w.control.pos <= |w.control.handles| && w.handles == []
    requires Enabled(w, Join) && Step(w, Join).Some?
    ensures var w' := Step(w, Join).value;
      w'.joined + Unjoined(w') == w.joined + Unjoined(w)
  {
    var handles, pos, w' := w.control.handles, w.control.pos, Step(w, Join).value;
    assert Unjoined(w) == handles[pos..];
    if pos < |handles| {
      assert Unjoined(w') == handles[pos + 1..] && w'.joined == w.joined + [handles[pos]];
      hide *;
      assert handles[pos..] == [handles[pos]] + handles[pos + 1..];
    } else {
      assert Unjoined(w') == [] && w'.joined == w.joined;
    }
  }

  lemma GoneStaysGone(w: World, e: Event, id: nat)
    requires Enabled(w, e) && Step(w, e).Some? && id in Step(w, e).value.joined
    requires forall k :: k in w.joined ==> IsAt(w, k, Gone)
    ensures IsAt(Step(w, e).value, id, Gone)
  {
    assert id in w.joined ==> IsAt(w, id, Gone);
  }

  lemma WorkersStay(w: World, e: Event)
    requires Enabled(w, e) && Step(w, e).Some?
    ensures Step(w, e).value.workers.Keys == w.workers.Keys + if e.CreateThread? then {e.id} else {}
  {
  }

  lemma HandlesStay(w: World, e: Event)
    requires HandlesAreRight(w) && Enabled(w, e) && Step(w, e).Some?
    ensures HandlesAreRight(Step(w, e).value)
  {
    hide Unjoined;
    AllHandles(w, e);
    var w' := Step(w, e).value;
    var all := w.joined + Unjoined(w);
    assert all + [] == all;
    if e.CreateThread? {
      assert e.id !in all;
    }
    forall id | id in w'.joined
      ensures IsAt(w', id, Gone)
    {
      GoneStaysGone(w, e, id);
    }
    WorkersStay(w, e);
    hide Step;
  }

  /** When the loop over the snapshot ends, every server in it has been shut down,
      its gRPC server and its completion queue once each. */
  lemma SnapshotIsServed(w: World)
    requires SnapshotIsRight(w) && w.control.Shutting? && w.control.pos >= |w.control.snapshot|
    ensures forall id :: id in w.control.snapshot ==> HasBeenStopped(w, id)
  {
  }

  /** An untouched server takes three steps of the loop: flag, server, queue. */
  lemma ServerTakesThreeSteps(w: World, next: Afterwards) returns (w1: World, w2: World, w3: World)
    requires Inv(w) && w.control.Shutting? && w.control.micro == AtFlag && w.control.pos < |w.control.snapshot|
    ensures Step(w, Advance(next)) == Some(w1) && w1.control.Shutting?
    ensures Step(w1, Advance(next)) == Some(w2) && w2.control.Shutting?
    ensures Step(w2, Advance(next)) == Some(w3)
    ensures w3.control == Shutting(w.control.snapshot, w.control.pos + 1, AtFlag)
    ensures HasBeenStopped(w3, w.control.snapshot[w.control.pos])
  {
    var id := w.control.snapshot[w.control.pos];
    assert EffectIsRight(w.workers[id]);
    assert w.workers[id].serverStops == 0 && w.workers[id].queueStops == 0;
    hide RegistryIsRight, EffectsAreRight, HandlesAreRight, FlagsAreServed, SnapshotIsRight;
    w1 := Step(w, Advance(next)).value;
    w2 := Step(w1, Advance(next)).value;
    w3 := Step(w2, Advance(next)).value;
  }

  /** Under the guard every server in the snapshot is registered and untouched. */
  lemma SnapshotIsTaken(w: World)
    requires RegistryIsRight(w) && EffectsAreRight(w) && w.control == Idle && NoneIsDone(w)
    ensures SnapshotIsRight(Step(w, TakeSnapshot).value)
  {
    forall i | 0 <= i < |w.servers|
      ensures IsAt(w, w.servers[i], Registered) && !w.workers[w.servers[i]].done
    {
      var id := w.servers[i];
      assert id in w.servers;
      assert EffectIsRight(w.workers[id]);
    }
  }

  lemma AdvancesFlag(w: World, next: Afterwards)
    requires EffectsAreRight(w) && SnapshotIsRight(w) && w.control.Shutting?
    requires w.control.pos < |w.control.snapshot| && w.control.micro == AtFlag
    ensures Step(w, Advance(next)).Some? && SnapshotIsRight(Step(w, Advance(next)).value)
  {
    assert EffectIsRight(w.workers[w.control.snapshot[w.control.pos]]);
    hide EffectsAreRight;
  }

  lemma AdvancesServer(w: World, next: Afterwards)
    requires EffectsAreRight(w) && SnapshotIsRight(w) && w.control.Shutting?
    requires w.control.pos < |w.control.snapshot| && w.control.micro == AtServer
    ensures Step(w, Advance(next)).Some? && SnapshotIsRight(Step(w, Advance(next)).value)
  {
    assert EffectIsRight(w.workers[w.control.snapshot[w.control.pos]]);
    hide EffectsAreRight;
  }

  lemma AdvancesQueue(w: World, next: Afterwards)
    requires EffectsAreRight(w) && SnapshotIsRight(w) && w.control.Shutting?
    requires w.control.pos < |w.control.snapshot| && w.control.micro == AtQueue
    ensures Step(w, Advance(next)).Some? && SnapshotIsRight(Step(w, Advance(next)).value)
  {
    assert EffectIsRight(w.workers[w.control.snapshot[w.control.pos]]);
    hide EffectsAreRight;
  }

  lemma SnapshotAdvances(w: World, next: Afterwards)
    requires EffectsAreRight(w) && SnapshotIsRight(w) && w.control.Shutting?
    ensures Step(w, Advance(next)).Some? && SnapshotIsRight(Step(w, Advance(next)).value)
  {
    if w.control.pos < |w.control.snapshot| {
      hide SnapshotIsRight, EffectsAreRight, Step;
      match w.control.micro
      case AtFlag => AdvancesFlag(w, next);
      case AtServer => AdvancesServer(w, next);
      case AtQueue => AdvancesQueue(w, next);
    }
  }

  lemma SnapshotIsUndisturbed(w: World, e: Event)
    requires EffectsAreRight(w) && SnapshotIsRight(w) && Enabled(w, e)
    requires e.Build? || e.Register? || e.LeaveLoop? || e.Unregister? || e.Destroy?
    ensures SnapshotIsRight(Step(w, e).value)
  {
    OneWorkerMoves(w, e);
    hide Step, Enabled, EffectsAreRight;
  }

  /** An event of a worker touches no other worker, and nothing of one that has
      not been shut down but its phase. */
  lemma OneWorkerMoves(w: World, e: Event)
    requires EffectsAreRight(w) && Enabled(w, e)
    requires e.Build? || e.Register? || e.LeaveLoop? || e.Unregister? || e.Destroy?
    ensures Step(w, e).Some? && Step(w, e).value.control == w.control
    ensures var w' := Step(w, e).value;
      && w'.workers.Keys == w.workers.Keys
      && (forall id :: id in w.workers && id != e.id ==> w'.workers[id] == w.workers[id])
      && e.id in w.workers
      && w'.workers[e.id] == w.workers[e.id].(phase := w'.workers[e.id].phase)
      && (w.workers[e.id].phase == Registered && w.workers[e.id].queueStops == 0 ==>
            w'.workers[e.id].phase == Registered)
  {
    assert EffectIsRight(w.workers[e.id]);
  }

  lemma SnapshotStays(w: World, e: Event)
    requires Inv(w) && Enabled(w, e) && Guarded(w, e) && Step(w, e).Some?
    ensures SnapshotIsRight(Step(w, e).value)
  {
    hide RegistryIsRight, EffectsAreRight, HandlesAreRight, FlagsAreServed, NoneIsDone;
    match e {
      case TakeSnapshot => SnapshotIsTaken(w);
      case Advance(next) => SnapshotAdvances(w, next);
      case CreateThread(_) =>
      case PushHandle =>
      case SwapHandles =>
      case Join =>
      case _ => SnapshotIsUndisturbed(w, e);
    }
  }

  lemma StepIsSafe(w: World, e: Event)
    requires Inv(w) && Enabled(w, e) && Guarded(w, e)
    ensures Step(w, e).Some? && Inv(Step(w, e).value)
  {
    if e.Advance? {
      SnapshotAdvances(w, e.next);
    }
    assert Step(w, e).Some?;
    hide RegistryIsRight, EffectsAreRight, HandlesAreRight, SnapshotIsRight, FlagsAreServed, Guarded;
    RegistryStays(w, e);
    EffectsStay(w, e);
    FlagsStayServed(w, e);
    HandlesStay(w, e);
    SnapshotStays(w, e);
  }

  // ---------- Whole runs ----------

  function Run(es: seq<Event>): Option<World> {
    if es == [] then Some(START)
    else
      var n := |es| - 1;
      var before := Run(es[..n]);
      if before == None || !Enabled(before.value, es[n]) then None else Step(before.value, es[n])
  }

  /** Every event is enabled when it happens. */
  ghost predicate Possible(es: seq<Event>) {
    forall n :: 0 <= n < |es| && Run(es[..n]).Some? ==> Enabled(Run(es[..n]).value, es[n])
  }

  lemma PossiblePrefix(es: seq<Event>, n: nat)
    requires Possible(es) && n <= |es|
    ensures Possible(es[..n])
  {
    forall k | 0 <= k < n && Run(es[..n][..k]).Some?
      ensures Enabled(Run(es[..n][..k]).value, es[..n][k])
    {
      assert es[..n][..k] == es[..k];
    }
  }

  /** No snapshot of the run is taken while a server that has been shut down is
      still registered. */
  ghost predicate GuardedRun(es: seq<Event>) {
    forall n :: 0 <= n < |es| && Run(es[..n]).Some? ==> Guarded(Run(es[..n]).value, es[n])
  }

  lemma GuardedPrefix(es: seq<Event>, n: nat)
    requires GuardedRun(es) && n <= |es|
    ensures GuardedRun(es[..n])
  {
    forall k | 0 <= k < n && Run(es[..n][..k]).Some?
      ensures Guarded(Run(es[..n][..k]).value, es[..n][k])
    {
      assert es[..n][..k] == es[..k];
    }
  }

  /** Over every interleaving, with any number of guarded shutdowns, no server is
      touched after its end: the run never gets stuck, and the invariant holds. */
  lemma {:induction false} RunIsSafe(es: seq<Event>)
    requires Possible(es) && GuardedRun(es)
    ensures Run(es).Some? && Inv(Run(es).value)
    decreases |es|
  {
    if es != [] {
      hide Inv, Step, Enabled, Guarded;
      var n := |es| - 1;
      PossiblePrefix(es, n);
      GuardedPrefix(es, n);
      RunIsSafe(es[..n]);
      StepIsSafe(Run(es[..n]).value, es[n]);
    } else {
      StartIsSafe();
    }
  }

  lemma StartIsSafe()
    ensures Inv(START)
  {
    assert START.joined + Unjoined(START) == [];
  }

  /** What that says about shutdown effects and joins. */
  lemma EffectsHappenOnce(es: seq<Event>)
    requires Possible(es) && GuardedRun(es)
    ensures Run(es).Some?
    ensures forall id :: id in Run(es).value.workers ==>
      Run(es).value.workers[id].serverStops <= 1 && Run(es).value.workers[id].queueStops <= 1
    ensures NoRepeats(Run(es).value.joined)
    ensures forall id :: id in Run(es).value.joined ==> IsAt(Run(es).value, id, Gone)
  {
    RunIsSafe(es);
    var w := Run(es).value;
    hide Run;
    assert forall i :: 0 <= i < |w.joined| ==> (w.joined + Unjoined(w))[i] == w.joined[i];
    assert forall id :: id in w.workers ==> EffectIsRight(w.workers[id]);
  }

  // ---------- The guard is exact ----------

  /** Every event is enabled, and the last one touches a server object that is gone. */
  predicate EndsInTouch(w: World, es: seq<Event>)
    decreases |es|
  {
    && es != [] && Enabled(w, es[0])
    && match Step(w, es[0])
       case None => |es| == 1
       case Some(next) => EndsInTouch(next, es[1..])
  }

  predicate TakesNoSnapshot(es: seq<Event>) {
    forall i :: 0 <= i < |es| ==> !es[i].TakeSnapshot?
  }

  lemma Backwards(w: World, e: Event, next: World, es: seq<Event>)
    requires Enabled(w, e) && Step(w, e) == Some(next) && EndsInTouch(next, es) && TakesNoSnapshot(es)
    ensures EndsInTouch(w, [e] + es) && (!e.TakeSnapshot? ==> TakesNoSnapshot([e] + es))
  {
    hide Enabled, Step;
    assert ([e] + es)[1..] == es;
  }

  /** Without another snapshot a right world never leads to a touch. */
  lemma {:induction false} NoTouch(w: World, es: seq<Event>)
    requires Inv(w) && TakesNoSnapshot(es)
    ensures !EndsInTouch(w, es)
    decreases |es|
  {
    hide Inv, Step, Enabled;
    if EndsInTouch(w, es) {
      StepIsSafe(w, es[0]);
      NoTouch(Step(w, es[0]).value, es[1..]);
    }
  }

  ghost predicate GoneAhead(w: World, j: nat) {
    w.control.Shutting? && w.control.pos <= j < |w.control.snapshot| && IsAt(w, w.control.snapshot[j], Gone)
  }

  /** If a server ahead in the snapshot is gone, the loop runs into a gone one. */
  lemma AdvancesTouch(w: World, j: nat) returns (es: seq<Event>)
    requires GoneAhead(w, j)
    ensures EndsInTouch(w, es) && TakesNoSnapshot(es)
    decreases |w.control.snapshot| - w.control.pos,
      match w.control.micro case AtFlag => 2 case AtServer => 1 case AtQueue => 0
  {
    hide EndsInTouch;
    var e := Advance(Repeat);
    match Step(w, e) {
      case None => es := TouchNow(w, e);
      case Some(next) =>
        assert GoneAhead(next, j);
        var rest := AdvancesTouch(next, j);
        Backwards(w, e, next, rest);
        es := [e] + rest;
    }
  }

  lemma TouchNow(w: World, e: Event) returns (es: seq<Event>)
    requires Enabled(w, e) && Step(w, e) == None && !e.TakeSnapshot?
    ensures EndsInTouch(w, es) && TakesNoSnapshot(es)
  {
    es := [e];
  }

  /** A shut-down worker runs to its end while the loop is at its beginning. */
  lemma DoneWorkerEnds(w: World, id: nat, j: nat) returns (es: seq<Event>)
    requires w.control.Shutting? && w.control.pos <= j < |w.control.snapshot| && w.control.snapshot[j] == id
    requires id in w.workers && w.workers[id].done && w.workers[id].queueStops > 0
    requires !w.workers[id].phase.Started? && !w.workers[id].phase.Built?
    ensures EndsInTouch(w, es) && TakesNoSnapshot(es)
    decreases Ahead(w.workers[id].phase)
  {
    hide EndsInTouch, RemoveFirst;
    if w.workers[id].phase.Gone? {
      es := AdvancesTouch(w, j);
    } else {
      var e := NextOf(id, w.workers[id].phase);
      var next := Step(w, e).value;
      var rest := DoneWorkerEnds(next, id, j);
      Backwards(w, e, next, rest);
      es := [e] + rest;
    }
  }

  /** How many events a worker has ahead of it. */
  function Ahead(p: Phase): nat {
    match p
    case Started => 5
    case Built => 4
    case Registered => 3
    case Left => 2
    case Unregistered => 1
    case Gone => 0
  }

  /** The next of them. */
  function NextOf(id: nat, p: Phase): Event
    requires !p.Gone?
  {
    match p
    case Started => Build(id)
    case Built => Register(id)
    case Registered => LeaveLoop(id)
    case Left => Unregister(id)
    case Unregistered => Destroy(id)
  }

  /** A snapshot and what may follow it, with no other snapshot, ends in a touch. */
  ghost predicate SnapshotTouches(w: World, es: seq<Event>) {
    es != [] && es[0] == TakeSnapshot && TakesNoSnapshot(es[1..]) && EndsInTouch(w, es)
  }

  /** With everything right, a snapshot can lead to touching a server object that
      is gone if and only if a server in it has already been shut down. */
  lemma GuardIsExact(w: World)
    requires Inv(w) && w.control == Idle
    ensures (exists es :: SnapshotTouches(w, es)) <==> !NoneIsDone(w)
  {
    hide EndsInTouch;
    if NoneIsDone(w) {
      forall es | SnapshotTouches(w, es)
        ensures false
      {
        AfterSnapshot(w, es);
        StepIsSafe(w, TakeSnapshot);
        NoTouch(Step(w, TakeSnapshot).value, es[1..]);
      }
    } else {
      var id :| id in w.servers && !(id in w.workers && !w.workers[id].done);
      var j :| 0 <= j < |w.servers| && w.servers[j] == id;
      assert EffectIsRight(w.workers[id]) && !InHand(w, id);
      var next := Step(w, TakeSnapshot).value;
      var rest := DoneWorkerEnds(next, id, j);
      Backwards(w, TakeSnapshot, next, rest);
      assert ([TakeSnapshot] + rest)[1..] == rest;
      assert SnapshotTouches(w, [TakeSnapshot] + rest);
    }
  }

  lemma AfterSnapshot(w: World, es: seq<Event>)
    requires w.control == Idle && SnapshotTouches(w, es)
    ensures EndsInTouch(Step(w, TakeSnapshot).value, es[1..])
  {
  }

  const SHUT_DOWN_UNJOINED := [
    CreateThread(0), PushHandle, Build(0), Register(0),
    TakeSnapshot, Advance(Repeat), Advance(Repeat), Advance(Repeat), Advance(Repeat)]

  /** A caller that shuts down without joining reaches a state outside the guard. */
  lemma UnjoinedIsUnguarded()
    ensures Run(SHUT_DOWN_UNJOINED).Some?
    ensures var w := Run(SHUT_DOWN_UNJOINED).value; Inv(w) && w.control == Idle && !NoneIsDone(w)
  {
    hide Run, Inv, Step;
    WorkerRegisters(SHUT_DOWN_UNJOINED);
    ServerIsShutDown(SHUT_DOWN_UNJOINED);
    assert SHUT_DOWN_UNJOINED[..9] == SHUT_DOWN_UNJOINED;
    LoneIsRight(Worker(Registered, true, 1, 1));
  }

  lemma WorkerRegisters(es: seq<Event>)
    requires |es| > 4 && es[0] == CreateThread(0) && es[1] == PushHandle && es[2] == Build(0) && es[3] == Register(0)
    ensures Run(es[..4]) == Some(Lone(Worker(Registered, false, 0, 0), [0], Idle))
  {
    hide Run;
    var s := Worker(Started, false, 0, 0);
    var b, r := s.(phase := Built), s.(phase := Registered);
    Replaced(s, b);
    Replaced(b, r);
    assert map[][0 := s] == map[0 := s] && [] + [0] == [0];
    Follow(es, 0, START, World(map[0 := s], [], [], [], Starting(0)));
    Follow(es, 1, World(map[0 := s], [], [], [], Starting(0)), Lone(s, [], Idle));
    Follow(es, 2, Lone(s, [], Idle), Lone(b, [], Idle));
    Follow(es, 3, Lone(b, [], Idle), Lone(r, [0], Idle));
  }

  lemma ServerIsShutDown(es: seq<Event>)
    requires |es| > 8 && es[4] == TakeSnapshot && forall i :: 5 <= i < 9 ==> es[i] == Advance(Repeat)
    requires Run(es[..4]) == Some(Lone(Worker(Registered, false, 0, 0), [0], Idle))
    ensures Run(es[..9]) == Some(Lone(Worker(Registered, true, 1, 1), [0], Idle))
  {
    hide Run;
    var s, s1 := Worker(Registered, false, 0, 0), Worker(Registered, true, 0, 0);
    var s2, s3 := s1.(serverStops := 1), Worker(Registered, true, 1, 1);
    Replaced(s, s1);
    Replaced(s1, s2);
    Replaced(s2, s3);
    Follow(es, 4, Lone(s, [0], Idle), Lone(s, [0], Shutting([0], 0, AtFlag)));
    Follow(es, 5, Lone(s, [0], Shutting([0], 0, AtFlag)), Lone(s1, [0], Shutting([0], 0, AtServer)));
    Follow(es, 6, Lone(s1, [0], Shutting([0], 0, AtServer)), Lone(s2, [0], Shutting([0], 0, AtQueue)));
    Follow(es, 7, Lone(s2, [0], Shutting([0], 0, AtQueue)), Lone(s3, [0], Shutting([0], 1, AtFlag)));
    Follow(es, 8, Lone(s3, [0], Shutting([0], 1, AtFlag)), Lone(s3, [0], Idle));
  }

  /** The world with one worker whose handle has been pushed. */
  function Lone(s: Worker, servers: seq<nat>, control: Control): World {
    World(map[0 := s], servers, [0], [], control)
  }

  lemma Replaced(s: Worker, t: Worker)
    ensures map[0 := s][0 := t] == map[0 := t]
  {
  }

  lemma Follow(es: seq<Event>, n: nat, w: World, next: World)
    requires n < |es| && (n == 0 ==> w == START) && (n > 0 ==> Run(es[..n]) == Some(w))
    requires Enabled(w, es[n]) && Step(w, es[n]) == Some(next)
    ensures Run(es[..n + 1]) == Some(next)
  {
    hide Enabled, Step;
    assert es[..n + 1][..n] == es[..n];
  }

  lemma LoneIsRight(s: Worker)
    requires s == Worker(Registered, true, 1, 1)
    ensures Inv(Lone(s, [0], Idle)) && !NoneIsDone(Lone(s, [0], Idle))
  {
    var w := Lone(s, [0], Idle);
    assert w.joined + Unjoined(w) == [0];
    assert 0 in w.servers;
  }

  // ---------- The callers keep the guard ----------

  /** The bridge joins its workers after a shutdown, and the daemon's watcher
      shuts down once. */
  predicate Expected(e: Event) {
    e.Advance? ==> e.next != Repeat
  }

  /** Shut down, but not yet ended. */
  predicate Draining(w: World, id: nat) {
    id in w.workers && w.workers[id].done && w.workers[id].phase != Gone
  }

  /** Nobody drains while the controlling thread may start a shutdown. */
  ghost predicate Settled(w: World) {
    w.control.Idle? || w.control.Starting? ==> forall id :: !Draining(w, id)
  }

  /** After the joins nobody is left who has been shut down but not ended. */
  lemma JoinedAreGone(w: World)
    requires HandlesAreRight(w) && w.control.Joining? && w.control.pos == |w.control.handles|
    ensures forall id :: !Draining(w, id)
  {
    assert w.joined + Unjoined(w) == w.joined;
  }

  lemma StepStaysSettled(w: World, e: Event)
    requires Inv(w) && Settled(w) && Enabled(w, e) && Expected(e) && Step(w, e).Some?
    ensures Settled(Step(w, e).value)
  {
    hide RegistryIsRight, SnapshotIsRight, FlagsAreServed;
    var w' := Step(w, e).value;
    if e.Join? && w.control.pos == |w.control.handles| {
      JoinedAreGone(w);
    }
    if w'.control.Idle? || w'.control.Starting? {
      forall id
        ensures !Draining(w', id)
      {
        assert !Draining(w, id);
        assert id in w.workers ==> EffectIsRight(w.workers[id]);
      }
    }
  }

  lemma SettledIsGuarded(w: World)
    requires Inv(w) && Settled(w) && w.control == Idle
    ensures NoneIsDone(w)
  {
    forall id | id in w.servers
      ensures id in w.workers && !w.workers[id].done
    {
      assert !Draining(w, id);
    }
  }

  lemma {:induction false} ExpectedStaysSettled(es: seq<Event>)
    requires Possible(es) && forall i :: 0 <= i < |es| ==> Expected(es[i])
    ensures GuardedRun(es) && Run(es).Some? && Settled(Run(es).value)
    decreases |es|
  {
    if es == [] {
      assert Run(es) == Some(START);
    } else {
      hide Inv, Step, Enabled, Settled, NoneIsDone, Run;
      var n := |es| - 1;
      PossiblePrefix(es, n);
      ExpectedStaysSettled(es[..n]);
      RunIsSafe(es[..n]);
      RunLast(es);
      if es[n].TakeSnapshot? {
        IdleAtSnapshot(Run(es[..n]).value);
        SettledIsGuarded(Run(es[..n]).value);
      }
      GuardedLast(es);
      StepIsSafe(Run(es[..n]).value, es[n]);
      StepStaysSettled(Run(es[..n]).value, es[n]);
    }
  }

  lemma IdleAtSnapshot(w: World)
    requires Enabled(w, TakeSnapshot)
    ensures w.control == Idle
  {
  }

  lemma RunLast(es: seq<Event>)
    requires es != [] && Possible(es) && Run(es[..|es| - 1]).Some?
    ensures var w := Run(es[..|es| - 1]).value;
      Enabled(w, es[|es| - 1]) && Run(es) == Step(w, es[|es| - 1])
  {
    hide Enabled, Step;
  }

  lemma GuardedLast(es: seq<Event>)
    requires es != [] && GuardedRun(es[..|es| - 1])
    requires Run(es[..|es| - 1]).Some? ==> Guarded(Run(es[..|es| - 1]).value, es[|es| - 1])
    ensures GuardedRun(es)
  {
    hide Guarded, Run;
    var m := |es| - 1;
    forall n | 0 <= n < |es| && Run(es[..n]).Some?
      ensures Guarded(Run(es[..n]).value, es[n])
    {
      if n < m {
        assert es[..m][..n] == es[..n];
      }
    }
  }

  /** Whatever the bridge and the watcher do, every snapshot is guarded, so no
      server is touched after its end. */
  lemma CallersAreSafe(es: seq<Event>)
    requires Possible(es) && forall i :: 0 <= i < |es| ==> Expected(es[i])
    ensures GuardedRun(es) && Run(es).Some? && Inv(Run(es).value)
  {
    ExpectedStaysSettled(es);
    RunIsSafe(es);
  }

  // ---------- When a stop call can finish ----------

  /** The events lead to the end of the joins, and no further. */
  predicate FinishesJoins(w: World, es: seq<Event>)
    decreases |es|
  {
    if w.control == Idle then es == []
    else es != [] && Enabled(w, es[0]) && Step(w, es[0]).Some? && FinishesJoins(Step(w, es[0]).value, es[1..])
  }

  /** Every worker still to be joined has been shut down. */
  predicate AllWereStopped(w: World)
    requires w.control.Joining?
  {
    forall i :: w.control.pos <= i < |w.control.handles| ==>
      w.control.handles[i] in w.workers && w.workers[w.control.handles[i]].done
  }

  /** A worker that is waited for and was not shut down stays that way. */
  lemma UnstoppedStays(w: World, e: Event)
    requires Inv(w) && w.control.Joining? && Enabled(w, e) && !AllWereStopped(w)
    ensures Step(w, e).Some? && Step(w, e).value.control.Joining? && !AllWereStopped(Step(w, e).value)
  {
    hide RegistryIsRight, SnapshotIsRight, FlagsAreServed, HandlesAreRight, RemoveFirst;
    var handles := w.control.handles;
    var i :| w.control.pos <= i < |handles| && !(handles[i] in w.workers && w.workers[handles[i]].done);
    var id := handles[i];
    assert id in w.workers ==> EffectIsRight(w.workers[id]);
    var w' := Step(w, e).value;
    assert w'.control.Joining? && w'.control.pos <= i && w'.control.handles == handles;
    assert !(id in w'.workers && w'.workers[id].done);
  }

  lemma {:induction false} UnstoppedNeverFinishes(w: World, es: seq<Event>)
    requires Inv(w) && w.control.Joining? && !AllWereStopped(w)
    ensures !FinishesJoins(w, es)
    decreases |es|
  {
    hide Inv, Step, Enabled, AllWereStopped;
    if FinishesJoins(w, es) {
      UnstoppedStays(w, es[0]);
      NoSnapshotWhileJoining(w, es[0]);
      StepIsSafe(w, es[0]);
      UnstoppedNeverFinishes(Step(w, es[0]).value, es[1..]);
    }
  }

  lemma NoSnapshotWhileJoining(w: World, e: Event)
    requires w.control.Joining? && Enabled(w, e)
    ensures Guarded(w, e)
  {
  }

  lemma FinishBackwards(w: World, e: Event, next: World, es: seq<Event>)
    requires w.control.Joining? && Enabled(w, e) && Step(w, e) == Some(next) && FinishesJoins(next, es)
    ensures FinishesJoins(w, [e] + es)
  {
    hide Enabled, Step;
    assert ([e] + es)[1..] == es;
  }

  /** The workers that were shut down run to their ends one by one. */
  lemma StoppedFinish(w: World) returns (es: seq<Event>)
    requires Inv(w) && w.control.Joining? && AllWereStopped(w)
    ensures FinishesJoins(w, es)
    decreases |w.control.handles| - w.control.pos,
      if w.control.pos < |w.control.handles| then Ahead(w.workers[w.control.handles[w.control.pos]].phase) else 0
  {
    hide FinishesJoins, Inv, RemoveFirst;
    var pos, handles := w.control.pos, w.control.handles;
    if pos >= |handles| {
      es := FinishNow(w);
    } else {
      var phase := w.workers[handles[pos]].phase;
      var e := if phase.Gone? then Join else NextOf(handles[pos], phase);
      if phase.Registered? {
        QueueIsStopped(w, handles[pos]);
      }
      var next := Step(w, e).value;
      StepIsSafe(w, e);
      var rest := StoppedFinish(next);
      FinishBackwards(w, e, next, rest);
      es := [e] + rest;
    }
  }

  lemma QueueIsStopped(w: World, id: nat)
    requires Inv(w) && !w.control.Shutting? && id in w.workers && w.workers[id].done
    ensures w.workers[id].queueStops > 0
  {
    assert !InHand(w, id);
  }

  lemma FinishNow(w: World) returns (es: seq<Event>)
    requires w.control.Joining? && w.control.pos >= |w.control.handles|
    ensures FinishesJoins(w, es)
  {
    es := [Join];
  }

  /** The joins of a stop call can end if and only if every worker still to be
      joined has been shut down; otherwise the call waits forever. */
  lemma JoinsCanFinishExactly(w: World)
    requires Inv(w) && w.control.Joining?
    ensures (exists es :: FinishesJoins(w, es)) <==> AllWereStopped(w)
  {
    hide FinishesJoins, AllWereStopped, Inv;
    if AllWereStopped(w) {
      var es := StoppedFinish(w);
    } else {
      forall es
        ensures !FinishesJoins(w, es)
      {
        UnstoppedNeverFinishes(w, es);
      }
    }
  }

  // ---------- The registry ----------

  class Registry {
    var active: seq<nat>

    method RegisterServer(s: nat)
      modifies this
      ensures active == old(active) + [s]
    {
      active := active + [s];
    }

    method UnregisterServer(s: nat)
      modifies this
      ensures active == RemoveFirst(old(active), s)
    {
      var i := 0;
      assert active[0..] == active;
      while i < |active| && active[i] != s
        invariant 0 <= i <= |active| && active == old(active)
        invariant RemoveFirst(active, s) == active[..i] + RemoveFirst(active[i..], s)
      {
        assert active[i..][1..] == active[i + 1..];
        i := i + 1;
      }
      if i < |active| {
        assert active[i..][1..] == active[i + 1..];
        active := active[..i] + active[i + 1..];
      }
    }
  }

  /** The kept handles are those of the created threads, each at its place:
      `at` names the thread behind each handle. */
  ghost predicate KeptAt(created: seq<Option<nat>>, handles: seq<nat>, at: seq<nat>) {
    && |at| == |handles|
    && (forall k :: 0 <= k < |at| ==> at[k] < |created| && created[at[k]] == Some(handles[k]))
    && (forall k, l :: 0 <= k < l < |at| ==> at[k] < at[l])
    && (forall i :: 0 <= i < |created| && created[i].Some? ==> i in at)
  }

  /** One handle for each thread that was created, in the order of creation, and
      no other. */
  ghost predicate KeepsCreated(created: seq<Option<nat>>, handles: seq<nat>) {
    exists at :: KeptAt(created, handles, at)
  }

  function Succeeded(created: seq<Option<nat>>): seq<nat> {
    if created == [] then []
    else
      var last := created[|created| - 1];
      Succeeded(created[..|created| - 1]) + if last.Some? then [last.value] else []
  }

  lemma {:induction false} SucceededIsKept(created: seq<Option<nat>>)
    ensures KeepsCreated(created, Succeeded(created))
    decreases |created|
  {
    if created == [] {
      assert KeptAt([], [], []);
    } else {
      hide KeptAt;
      var front, last := created[..|created| - 1], created[|created| - 1];
      assert created == front + [last];
      SucceededIsKept(front);
      SucceededOneMore(front, last);
      hide Succeeded;
      var at :| KeptAt(front, Succeeded(front), at);
      hide KeepsCreated;
      OneMoreCreated(front, last, Succeeded(front), at);
    }
  }

  lemma OneMoreCreated(created: seq<Option<nat>>, last: Option<nat>, handles: seq<nat>, at: seq<nat>)
    requires KeptAt(created, handles, at)
    ensures KeepsCreated(created + [last], handles + if last.Some? then [last.value] else [])
  {
    var all := created + [last];
    if last.Some? {
      var at' := at + [|created|];
      assert at'[|at|] == |created|;
      assert forall i :: i in at ==> i in at';
      assert KeptAt(all, handles + [last.value], at');
    } else {
      assert handles + [] == handles;
      assert KeptAt(all, handles, at);
    }
  }

  /** Each handle is kept as often as a creation yielded it. */
  lemma {:induction false} SucceededCounts(created: seq<Option<nat>>, v: nat)
    ensures multiset(Succeeded(created))[v] == multiset(created)[Some(v)]
    decreases |created|
  {
    if created != [] {
      var n := |created| - 1;
      assert created == created[..n] + [created[n]];
      SucceededCounts(created[..n], v);
    }
  }

  /** The bridge's list of worker threads; `joined` records the joins. */
  class WorkerPool {
    var active: seq<nat>
    ghost var joined: seq<nat>

    /** Keeps the handle of every thread whose creation succeeded. */
    method LoadThreads(created: seq<Option<nat>>)
      modifies this
      ensures active == old(active) + Succeeded(created) && joined == old(joined)
      ensures old(active) <= active && KeepsCreated(created, active[|old(active)|..])
    {
      assert created[..0] == [];
      for w := 0 to |created|
        invariant active == old(active) + Succeeded(created[..w]) && joined == old(joined)
      {
        assert created[..w + 1][..w] == created[..w];
        if created[w].None? {
          continue;
        }
        active := active + [created[w].value];
      }
      assert created[..|created|] == created;
      SucceededIsKept(created);
      assert active[|old(active)|..] == Succeeded(created);
    }

    /** Swaps the list out and joins what it held: nothing is left to join. */
    method JoinAll()
      modifies this
      ensures active == [] && joined == old(joined) + old(active)
    {
      var snapshot := active;
      active := [];
      for t := 0 to |snapshot|
        invariant active == [] && joined == old(joined) + snapshot[..t]
      {
        joined := joined + [snapshot[t]];
      }
    }
  }

  /** Any number of stop calls, each after more threads may have been loaded,
      joins every created thread exactly once, in order of creation; a handle
      that was reused after its join is joined once for each of its threads. */
  method StopRepeatedly(pool: WorkerPool, loads: seq<seq<Option<nat>>>)
    requires pool.active == [] && pool.joined == []
    modifies pool
    ensures pool.active == [] && KeepsCreated(AllCreated(loads), pool.joined)
    ensures forall v: nat :: multiset(pool.joined)[v] == multiset(AllCreated(loads))[Some(v)]
  {
    assert loads[..0] == [];
    for i := 0 to |loads|
      invariant pool.active == [] && pool.joined == Succeeded(AllCreated(loads[..i]))
    {
      assert loads[..i + 1][..i] == loads[..i];
      SucceededConcat(AllCreated(loads[..i]), loads[i]);
      pool.LoadThreads(loads[i]);
      pool.JoinAll();
    }
    assert loads[..|loads|] == loads;
    SucceededIsKept(AllCreated(loads));
    forall v: nat
      ensures multiset(pool.joined)[v] == multiset(AllCreated(loads))[Some(v)]
    {
      SucceededCounts(AllCreated(loads), v);
    }
  }

  function AllCreated(loads: seq<seq<Option<nat>>>): seq<Option<nat>> {
    if loads == [] then [] else AllCreated(loads[..|loads| - 1]) + loads[|loads| - 1]
  }

  lemma SucceededOneMore(a: seq<Option<nat>>, last: Option<nat>)
    ensures Succeeded(a + [last]) == Succeeded(a) + if last.Some? then [last.value] else []
  {
    assert (a + [last])[..|a|] == a;
  }

  lemma {:induction false} SucceededConcat(a: seq<Option<nat>>, b: seq<Option<nat>>)
    ensures Succeeded(a + b) == Succeeded(a) + Succeeded(b)
    decreases |b|
  {
    if b == [] {
      assert a + b == a;
    } else {
      var front, last := b[..|b| - 1], b[|b| - 1];
      SucceededConcat(a, front);
      SucceededOneMore(a + front, last);
      SucceededOneMore(front, last);
      assert front + [last] == b;
      hide Succeeded;
      assert a + b == a + front + [last];
    }
  }
}
