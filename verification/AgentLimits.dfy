/** Histories that a run of the agent system really has, in which a stronger claim
    than the theorems' fails. */
module AgentLimits {
  import opened Options
  import opened Message
  import opened Transport
  import opened Dedup
  import opened AgentSystem
  import opened AgentTheorems
  import opened AgentProgress

  const EMPTY_ROOM := State([], map[], {}, None, Down, 0, {}, {}, {})

  ghost predicate Happens(cfg: Config, s: State) {
    exists states: seq<State>, steps: seq<Step> :: Execution(cfg, states, steps) && states[|states| - 1] == s
  }

  lemma LeadsHappens(cfg: Config, ok: Policy, s: State)
    requires Leads(cfg, ok, EMPTY_ROOM, s)
    ensures Happens(cfg, s)
  {
    var states, steps :| Chain(cfg, ok, states, steps) && states[0] == EMPTY_ROOM && states[|states| - 1] == s;
    forall n | 0 <= n < |steps|
      ensures Enabled(cfg, states[n], steps[n]) && states[n + 1] == Apply(cfg, states[n], steps[n])
    {
      assert Next(cfg, ok, states[n], steps[n], states[n + 1]);
    }
    assert Execution(cfg, states, steps);
  }

  /** A run goes on. */
  lemma Go(cfg: Config, s: State, step: Step) returns (t: State)
    requires Coherent(cfg) && Leads(cfg, Anything(), EMPTY_ROOM, s) && Inv(cfg, s) && Enabled(cfg, s, step)
    ensures t == Apply(cfg, s, step) && Leads(cfg, Anything(), EMPTY_ROOM, t) && Inv(cfg, t)
  {
    t := Take(cfg, Anything(), EMPTY_ROOM, s, step);
  }

  /** The agent has joined the empty room, and only others have written since. */
  ghost predicate Untouched(s: State) {
    && s.txns == map[] && s.wire == {} && s.durable == Some(0) && s.origin == 0
    && s.process == StartedAt(0, true) && s.handled == {} && s.accepted == {} && s.failed == {}
  }

  lemma Joined(cfg: Config) returns (s: State)
    requires Coherent(cfg)
    ensures Leads(cfg, Anything(), EMPTY_ROOM, s) && Inv(cfg, s) && Untouched(s) && s.log == []
  {
    LeadsHere(cfg, Anything(), EMPTY_ROOM);
    assert EMPTY_ROOM.log == [] && Inv(cfg, EMPTY_ROOM);
    var primed := Go(cfg, EMPTY_ROOM, Prime);
    s := Go(cfg, primed, SavePrimed);
  }

  /** What others may write: distinct events, none of them the agent's own
      acknowledgement. */
  ghost predicate Foreign(cfg: Config, room: seq<Event>) {
    DistinctIds(room) && forall e | e in room :: AckOf(cfg, e).None?
  }

  /** Others can write any such room while the agent has not read yet. */
  lemma {:induction false} WriteAll(cfg: Config, room: seq<Event>) returns (s: State)
    requires Coherent(cfg) && Foreign(cfg, room)
    ensures Leads(cfg, Anything(), EMPTY_ROOM, s) && Inv(cfg, s) && Untouched(s) && s.log == room
  {
    if room == [] {
      s := Joined(cfg);
    } else {
      var front, last := room[..|room| - 1], room[|room| - 1];
      assert Foreign(cfg, front) by { assert forall e | e in front :: e in room; }
      var before := WriteAll(cfg, front);
      assert last in room && Fresh(front, last.id) by {
        forall e | e in front ensures e.id != last.id { var i :| 0 <= i < |front| && front[i] == e; }
      }
      assert front + [last] == room;
      s := Go(cfg, before, Append(last));
    }
  }

  /** For every page bound, every truncation and every room that is larger than both
      together: a run exists after which nothing in that room will ever be handled or
      answered, however often the agent is restarted. */
  lemma StuckHistory(cfg: Config, room: seq<Event>, limit: nat) returns (s: State)
    requires Coherent(cfg) && Foreign(cfg, room) && |room| > cfg.pageLimit * cfg.maxPages + limit
    ensures Happens(cfg, s) && s.process.Down? && s.durable == Some(0) && s.log == room
    ensures forall t | Leads(cfg, Truncates(limit), s, t) :: t.handled == {} && t.accepted == {} && t.durable == Some(0)
  {
    ReachIsProduct(cfg.pageLimit, cfg.maxPages);
    var written := WriteAll(cfg, room);
    s := Go(cfg, written, Crash);
    LeadsHappens(cfg, Anything(), s);
    assert Blocked(cfg, limit, s);
    forall t | Leads(cfg, Truncates(limit), s, t) ensures t.handled == {} && t.accepted == {} && t.durable == Some(0) {
      StuckForever(cfg, limit, s, t);
    }
  }

  /** For every room with a foreign message that makes reading raise: a run exists
      after which no continuation at all gets past that message. */
  lemma PoisonHistory(cfg: Config, room: seq<Event>, i: nat) returns (s: State)
    requires Coherent(cfg) && Foreign(cfg, room) && i < |room| && room[i].isMessage && Poison(cfg, room[i])
    ensures Happens(cfg, s) && s.process.Down? && s.durable == Some(0) && s.log == room
    ensures forall t | Leads(cfg, Anything(), s, t) :: t.durable.Some? && t.durable.value <= i
  {
    var written := WriteAll(cfg, room);
    s := Go(cfg, written, Crash);
    LeadsHappens(cfg, Anything(), s);
    forall t | Leads(cfg, Anything(), s, t) ensures t.durable.Some? && t.durable.value <= i {
      PoisonForever(cfg, Anything(), s, t, i);
    }
  }

  /** A live agent that has read only this much of its room so far. */
  ghost predicate Reading(s: State, room: seq<Event>, phase: Phase) {
    && s.log == room && s.txns == map[] && s.wire == {} && s.durable == Some(0) && s.origin == 0
    && s.process == Up(0, true, EMPTY, [], phase) && s.handled == {} && s.accepted == {} && s.failed == {}
  }

  lemma SyncShowsIt(cfg: Config, s: State, e: Event)
    requires IsRequest(cfg, e) && Untouched(s) && s.log == [e]
    ensures Enabled(cfg, s, SyncOk(0, 1, false))
    ensures Reading(Apply(cfg, s, SyncOk(0, 1, false)), [e], Merged(Batch(0, 1), [e]))
  {
    assert s.log[0..1] == [] + [e];
    KeepNext([], e, SyncVisible);
  }

  lemma SyncFirst(cfg: Config, e: Event) returns (s: State)
    requires Coherent(cfg) && IsRequest(cfg, e)
    ensures Leads(cfg, Anything(), EMPTY_ROOM, s) && Inv(cfg, s) && Reading(s, [e], Merged(Batch(0, 1), [e]))
  {
    var written := WriteAll(cfg, [e]);
    SyncShowsIt(cfg, written, e);
    s := Go(cfg, written, SyncOk(0, 1, false));
  }

  /** A live agent about to handle the one request in the room. */
  lemma ReadFirst(cfg: Config, e: Event) returns (s: State)
    requires Coherent(cfg) && IsRequest(cfg, e)
    ensures Leads(cfg, Anything(), EMPTY_ROOM, s) && Inv(cfg, s)
    ensures Reading(s, [e], Dispatching(Batch(0, 1), [e], 0, Idle))
  {
    var merged := SyncFirst(cfg, e);
    s := Go(cfg, merged, Plan([e]));
  }

  /** And in the middle of the send that answers it. */
  lemma SendingFirst(cfg: Config, e: Event) returns (s: State)
    requires Coherent(cfg) && IsRequest(cfg, e) && !Poison(cfg, e) && cfg.replyOf(RequestKey(cfg, e).value).Some?
    ensures Leads(cfg, Anything(), EMPTY_ROOM, s) && Inv(cfg, s) && s.log == [e] && s.txns == map[] && s.origin == 0
    ensures s.accepted == {} && s.failed == {} && s.durable == Some(0) && s.handled == {}
    ensures s.process.Up? && s.process.live && s.process.token == 0
    ensures s.process.phase == Dispatching(Batch(0, 1), [e], 0, Sending(RequestKey(cfg, e).value))
  {
    var begun := ReadFirst(cfg, e);
    s := Go(cfg, begun, BeginHandle);
  }

  /** And after that send was reported failed and the batch was committed. */
  lemma PassedFirst(cfg: Config, e: Event) returns (s: State)
    requires Coherent(cfg) && IsRequest(cfg, e) && !Poison(cfg, e) && cfg.replyOf(RequestKey(cfg, e).value).Some?
    ensures Leads(cfg, Anything(), EMPTY_ROOM, s) && Inv(cfg, s) && s.log == [e] && s.txns == map[] && s.origin == 0
    ensures s.accepted == {} && s.durable == Some(1) && e.id in s.handled && s.process.Up?
    ensures RequestKey(cfg, e).value in s.failed && RequestKey(cfg, e).value in s.wire
  {
    var sending := SendingFirst(cfg, e);
    assert RequestKey(cfg, e).value in sending.wire by { assert PhaseInv(cfg, sending); }
    var failed := Go(cfg, sending, EndHandle(false));
    var committed := Go(cfg, failed, Commit);
    s := Go(cfg, committed, Save);
  }

  lemma FirstAccepted(cfg: Config, s: State, k: Key, id: EventId)
    requires Enabled(cfg, s, Accept(k, id)) && s.accepted == {}
    ensures var t := AfterAccept(cfg, s, k, id);
            OwnTxns(cfg, t) && k in t.accepted && t.process == s.process && t.durable == s.durable
  {}

  /** A send still on its way is accepted after a crash. */
  lemma AcceptedAfterCrash(cfg: Config, s: State, k: Key) returns (t: State)
    requires Coherent(cfg) && Leads(cfg, Anything(), EMPTY_ROOM, s) && Inv(cfg, s)
    requires k in s.wire && s.accepted == {}
    ensures Leads(cfg, Anything(), EMPTY_ROOM, t) && t.process.Down? && t.durable == s.durable
    ensures |Acks(cfg, t, k)| == 1
  {
    var down := Go(cfg, s, Crash);
    assert ServerInv(cfg, down);
    var id := FreshId(down.log);
    FirstAccepted(cfg, down, k, id);
    t := Go(cfg, down, Accept(k, id));
    AcceptedHasAck(cfg, t, k);
  }

  /** A send that is reported failed is not repeated: for every request a run exists in
      which the checkpoint has passed it and the room holds no acknowledgement. It can
      still get one, even after a crash, from the network alone. */
  lemma FailedSendHistory(cfg: Config, e: Event) returns (s: State, t: State)
    requires Coherent(cfg) && IsRequest(cfg, e) && !Poison(cfg, e) && cfg.replyOf(RequestKey(cfg, e).value).Some?
    ensures var k := RequestKey(cfg, e).value;
            && Happens(cfg, s) && s.log == [e] && s.durable == Some(1) && e.id in s.handled && k in s.failed
            && Acks(cfg, s, k) == {}
            && Happens(cfg, t) && t.process.Down? && t.durable == Some(1) && |Acks(cfg, t, k)| == 1
  {
    var k := RequestKey(cfg, e).value;
    s := PassedFirst(cfg, e);
    LeadsHappens(cfg, Anything(), s);
    AckPosition(cfg, s, k);
    t := AcceptedAfterCrash(cfg, s, k);
    LeadsHappens(cfg, Anything(), t);
  }

  lemma TwoRequests(cfg: Config, sender: string, b1: string, b2: string) returns (s: State)
    requires Coherent(cfg) && sender != cfg.me && cfg.inbound(b1).Some? && cfg.inbound(b2).Some?
    requires !cfg.raises(b1) && !cfg.raises(b2)
    ensures Leads(cfg, Anything(), EMPTY_ROOM, s) && Inv(cfg, s) && s.durable == Some(0) && |s.log| == 2
    ensures IsRequest(cfg, s.log[0]) && RequestKey(cfg, s.log[0]) == cfg.inbound(b1)
    ensures IsRequest(cfg, s.log[1]) && RequestKey(cfg, s.log[1]) == cfg.inbound(b2)
    ensures Clean(cfg, s.log)
  {
    assert "$1"[1] != "$2"[1];
    s := WriteAll(cfg, [Event("$1", sender, true, Some(b1)), Event("$2", sender, true, Some(b2))]);
  }

  lemma CleanWindow(cfg: Config, s: State, start: nat)
    requires s.durable.Some? && s.durable.value <= start <= |s.log| && DistinctIds(s.log) && Clean(cfg, s.log)
    ensures Clean(cfg, RestartWindow(s, start))
  {
    WindowMembers(s.log, s.durable.value, start, |s.log|);
    assert forall e | e in RestartWindow(s, start) :: e in s.log;
  }

  /** Leads from the empty room on. */
  lemma LeadsThrough(cfg: Config, ok: Policy, s: State, t: State)
    requires Leads(cfg, Anything(), EMPTY_ROOM, s) && Leads(cfg, ok, s, t)
    ensures Leads(cfg, Anything(), EMPTY_ROOM, t)
  {
    var states, steps :| Chain(cfg, ok, states, steps) && states[0] == s && states[|states| - 1] == t;
    Along(cfg, ok, states, steps, |states| - 1);
  }

  lemma {:induction false} Along(cfg: Config, ok: Policy, states: seq<State>, steps: seq<Step>, n: nat)
    requires Chain(cfg, ok, states, steps) && n < |states| && Leads(cfg, Anything(), EMPTY_ROOM, states[0])
    ensures Leads(cfg, Anything(), EMPTY_ROOM, states[n])
  {
    if n > 0 {
      Along(cfg, ok, states, steps, n - 1);
      assert Next(cfg, ok, states[n - 1], steps[n - 1], states[(n - 1) + 1]);
      LeadsOn(cfg, Anything(), EMPTY_ROOM, states[n - 1], steps[n - 1], states[n]);
    }
  }

  /** Two requests whose answers share a transaction id: a run exists in which both
      sends were accepted and one of the two has no acknowledgement in the room. */
  lemma SharedIdHistory(cfg: Config, sender: string, b1: string, b2: string) returns (t: State, k: Key)
    requires Coherent(cfg) && sender != cfg.me && cfg.pageLimit >= 1 && cfg.maxPages >= 1
    requires cfg.inbound(b1).Some? && cfg.inbound(b2).Some? && cfg.inbound(b1) != cfg.inbound(b2)
    requires !cfg.raises(b1) && !cfg.raises(b2)
    requires cfg.replyOf(cfg.inbound(b1).value).Some? && cfg.replyOf(cfg.inbound(b2).value).Some?
    requires cfg.txnOf(cfg.inbound(b1).value) == cfg.txnOf(cfg.inbound(b2).value)
    ensures Happens(cfg, t) && !OwnTxns(cfg, t)
    ensures cfg.inbound(b1).value in t.accepted && cfg.inbound(b2).value in t.accepted
    ensures (cfg.inbound(b1) == Some(k) || cfg.inbound(b2) == Some(k)) && Acks(cfg, t, k) == {}
  {
    var k1, k2 := cfg.inbound(b1).value, cfg.inbound(b2).value;
    var s := TwoRequests(cfg, sender, b1, b2);
    assert cfg.pageLimit * cfg.maxPages >= 0;
    CleanWindow(cfg, s, LatestStart(cfg, s));
    t := CatchUpWithin(cfg, s, 2);
    LeadsThrough(cfg, Truncates(2), s, t);
    LeadsHappens(cfg, Anything(), t);
    SharedTxn(cfg, t, k1, k2);
    k := if Acks(cfg, t, k1) == {} then k1 else k2;
  }
}
