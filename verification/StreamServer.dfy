/** The stream objects of one server and its event loop, against the state
    machine of StreamFsm. */
module StreamServer {
  import opened StreamFsm
  import opened StreamDrain
  import opened Options

  class Stream {
    const id: nat
    var phase: Phase
    var replies: nat

    constructor (id: nat)
      ensures this.id == id && phase == Create && replies == 0
    {
      this.id := id;
      phase := Create;
      replies := 0;
    }

    function State(): StreamState
      reads this
    {
      StreamState(phase, replies)
    }

    /** The stream was asked to be accepted. */
    method OnAccept(server: Server, ok: bool)
      requires server.Valid() && id in server.live && server.live[id] == this && phase == Create
      modifies this, server
      ensures server.Valid() && fresh(server.live.Values - old(server.live.Values))
      ensures server.tags == old(server.tags)
        + if ok then multiset{Tag(old(server.next), Accept), Tag(id, Receive)} else multiset{}
      ensures server.log == old(server.log)
        + if ok then [Created(old(server.next)), ReadIssued(id)] else [Deleted(id)]
      ensures ok ==> State() == StreamState(Read, old(replies)) && server.next == old(server.next) + 1
      ensures ok ==> server.IsNewborn(old(server.next)) && fresh(server.live[old(server.next)])
      ensures ok ==> server.live == old(server.live)[old(server.next) := server.live[old(server.next)]]
      ensures !ok ==> server.next == old(server.next) && server.live == old(server.live) - {id}
    {
      if !ok {
        server.Delete(this);
        return;
      }
      server.Spawn();
      phase := Read;
      server.Issue(id, Receive, ReadIssued(id));
    }

    /** The stream was waiting for a message. */
    method OnReceive(server: Server, ok: bool)
      requires server.Valid() && id in server.live && server.live[id] == this && phase == Read
      modifies this, server`tags, server`log
      ensures Outcome(old(State()), ok, server.maxReplies) == Some(State())
      ensures server.tags == old(server.tags) + Issued(id, Some(State()))
      ensures server.log == old(server.log)
        + Reaction(id, ok, old(State()), old(server.next), server.maxReplies)
    {
      if !ok {
        phase := Finishing;
        server.Issue(id, Finish, FinishIssued(id));
        return;
      }
      server.Note(Handled(id));
      replies := replies + 1;
      if server.maxReplies > 0 && replies >= server.maxReplies {
        phase := Finishing;
        server.Issue(id, Finish, FinishIssued(id));
        return;
      }
      server.Issue(id, Receive, ReadIssued(id));
    }

    /** Reacts to the completion of the operation this stream waits for. */
    method Proceed(server: Server, ok: bool)
      requires server.Valid() && id in server.live && server.live[id] == this
      modifies this, server
      ensures server.Valid() && fresh(server.live.Values - old(server.live.Values))
      ensures var s, next := old(State()), old(server.next);
        && (match Outcome(s, ok, server.maxReplies)
            case Some(t) =>
              && State() == t
              && server.live.Keys == old(server.live).Keys + (if Spawns(s, ok) then {next} else {})
            case None => server.live.Keys == old(server.live).Keys - {id})
        && (Spawns(s, ok) ==> server.IsNewborn(next) && fresh(server.live[next]))
        && (forall k :: k in server.live && k in old(server.live) ==> server.live[k] == old(server.live)[k])
        && server.next == next + (if Spawns(s, ok) then 1 else 0)
      ensures var s, next := old(State()), old(server.next);
        && server.tags == old(server.tags)
             + (if Spawns(s, ok) then multiset{Tag(next, Accept)} else multiset{})
             + Issued(id, Outcome(s, ok, server.maxReplies))
        && server.log == old(server.log) + Reaction(id, ok, s, next, server.maxReplies)
    {
      match phase {
        case Create => OnAccept(server, ok);
        case Read => OnReceive(server, ok);
        case Finishing => server.Delete(this);
        case Done => server.Delete(this);
      }
    }
  }

  /** The completion queue and the streams it knows; `live` holds the streams
      that have not deleted themselves. */
  class Server {
    var live: map<nat, Stream>
    var tags: multiset<Tag>
    var next: nat
    const maxReplies: int
    ghost var log: seq<Action>

    ghost predicate Valid()
      reads this, live.Values
    {
      forall id :: id in live ==> live[id].id == id && id < next
    }

    ghost predicate IsNewborn(id: nat)
      reads this, live.Values
    {
      id in live && live[id].State() == NEWBORN
    }

    ghost function W(): World
      reads this, live.Values
    {
      World(map id | id in live :: live[id].State(), tags, next, log)
    }

    constructor (maxReplies: int)
      ensures Valid() && live == map[] && fresh(live.Values) && this.maxReplies == maxReplies
      ensures W() == World(map[], multiset{}, 0, [])
    {
      this.maxReplies := maxReplies;
      live := map[];
      tags := multiset{};
      next := 0;
      log := [];
    }

    method Spawn()
      requires Valid()
      modifies this
      ensures Valid() && fresh(live.Values - old(live.Values)) && next == old(next) + 1
      ensures IsNewborn(old(next)) && fresh(live[old(next)]) && live == old(live)[old(next) := live[old(next)]]
      ensures tags == old(tags) + multiset{Tag(old(next), Accept)} && log == old(log) + [Created(old(next))]
    {
      var s := new Stream(next);
      live := live[next := s];
      tags := tags + multiset{Tag(next, Accept)};
      log := log + [Created(next)];
      next := next + 1;
    }

    method Issue(id: nat, op: Operation, ghost a: Action)
      modifies this`tags, this`log
      ensures tags == old(tags) + multiset{Tag(id, op)} && log == old(log) + [a]
    {
      tags := tags + multiset{Tag(id, op)};
      log := log + [a];
    }

    ghost method Note(a: Action)
      modifies this`log
      ensures log == old(log) + [a]
    {
      log := log + [a];
    }

    method Delete(s: Stream)
      modifies this`live, this`log
      ensures live == old(live) - {s.id} && log == old(log) + [Deleted(s.id)]
    {
      live := live - {s.id};
      log := log + [Deleted(s.id)];
    }

    /** Lets one stream proceed, whatever operation has completed. */
    method Wake(e: Event)
      requires Valid() && e.tag.id in live
      modifies this, live.Values
      ensures Valid() && fresh(live.Values - old(live.Values))
      ensures var w, s := old(W()), old(W()).streams[e.tag.id];
        && W().streams == StreamsAfter(w, e, maxReplies)
        && tags == w.tags + (if Spawns(s, e.ok) then multiset{Tag(w.next, Accept)} else multiset{})
             + Issued(e.tag.id, Outcome(s, e.ok, maxReplies))
        && next == w.next + (if Spawns(s, e.ok) then 1 else 0)
        && log == w.log + Reaction(e.tag.id, e.ok, s, w.next, maxReplies)
    {
      hide StreamsAfter, Reaction, Outcome, Issued;
      ghost var w := W();
      live[e.tag.id].Proceed(this, e.ok);
      StreamsMatch(w, e, maxReplies, W().streams);
    }

    /** Takes one tag off the queue and lets its stream proceed. */
    method Return(tag: Tag, ok: bool)
      requires Valid() && tag.id in live && tag in tags
      modifies this, live.Values
      ensures Valid() && fresh(live.Values - old(live.Values))
      ensures Some(W()) == Step(old(W()), Event(tag, ok), maxReplies)
    {
      hide StreamsAfter, Reaction, Outcome, Issued;
      ghost var w := W();
      tags := tags - multiset{tag};
      log := log + [Completed(tag.id, tag.op, ok)];
      ghost var taken := W();
      assert taken.streams == w.streams;
      SameStreams(w, taken, Event(tag, ok), maxReplies);
      Wake(Event(tag, ok));
      assert log == w.log + AddedBy(w, Event(tag, ok), maxReplies);
    }

    method Dispatch(tag: Tag, ok: bool)
      requires Valid() && Sound(W(), maxReplies) && tag in tags
      modifies this, live.Values
      ensures Valid() && fresh(live.Values - old(live.Values))
      ensures Some(W()) == Step(old(W()), Event(tag, ok), maxReplies) && Sound(W(), maxReplies)
    {
      hide Sound, Step, Bijective;
      SoundIsBijective(W(), maxReplies);
      TagIsLive(W(), tag);
      StepIsSound(W(), Event(tag, ok), maxReplies);
      assert live.Keys == W().streams.Keys;
      Return(tag, ok);
    }

    /** The event loop: some events, the shutdown, and the rest of the queue. In
        which order tags complete is left open; so is how, except that tags
        issued after the shutdown complete not ok. */
    method RunFsm(events: nat)
      requires Valid() && W() == World(map[], multiset{}, 0, [])
      modifies this, live.Values
      ensures Valid() && Sound(W(), maxReplies)
      ensures live == map[] && tags == multiset{}
      ensures forall id: nat :: id < next ==> Times(W(), Created(id)) == 1 && Times(W(), Deleted(id)) == 1
    {
      hide Sound, Step, Remaining;
      assert W().streams.Keys == live.Keys;
      Spawn();
      StartIsSound(maxReplies);
      assert W() == START;
      var n := 0;
      while n < events && tags != multiset{}
        invariant Valid() && fresh(live.Values - old(live.Values)) && Sound(W(), maxReplies)
        decreases events - n
      {
        var tag :| tag in tags;
        var ok: bool := *;
        Dispatch(tag, ok);
        n := n + 1;
      }
      var early: set<nat> := live.Keys;
      while tags != multiset{}
        invariant Valid() && fresh(live.Values - old(live.Values)) && Sound(W(), maxReplies)
        invariant forall id :: id in early ==> id < next
        decreases Remaining(W(), early)
      {
        var tag :| tag in tags;
        var anyhow: bool := *;
        var ok := anyhow && (tag.id in early || tag.op == Finish);
        DrainStepIsSound(W(), early, Event(tag, ok), maxReplies);
        Dispatch(tag, ok);
        early := early - {tag.id};
      }
      DrainedMeansAllDeleted(W(), maxReplies);
      assert live.Keys == W().streams.Keys;
    }
  }

  lemma StreamsMatch(w: World, e: Event, max: int, after: map<nat, StreamState>)
    requires e.tag.id in w.streams && e.tag.id < w.next && w.next !in w.streams
    requires var id, s := e.tag.id, w.streams[e.tag.id];
      && (match Outcome(s, e.ok, max)
          case Some(t) =>
            && id in after && after[id] == t
            && after.Keys == w.streams.Keys + (if Spawns(s, e.ok) then {w.next} else {})
          case None => after.Keys == w.streams.Keys - {id})
      && (Spawns(s, e.ok) ==> w.next in after && after[w.next] == NEWBORN)
      && (forall k :: k in after && k in w.streams && k != id ==> after[k] == w.streams[k])
    ensures after == StreamsAfter(w, e, max)
  {
    hide StreamsAfter;
    forall k: nat
      ensures k in after <==> k in StreamsAfter(w, e, max)
      ensures k in after ==> after[k] == StreamsAfter(w, e, max)[k]
    {
      StreamsAfterAt(w, e, max, k);
    }
  }

  lemma SameStreams(w: World, v: World, e: Event, max: int)
    requires e.tag.id in w.streams && v.streams == w.streams && v.next == w.next
    ensures StreamsAfter(v, e, max) == StreamsAfter(w, e, max)
  {
  }
}
