/** Where a fresh agent starts, what its executions, sends and acknowledgements go back
    to, and what one incarnation keeps. */
module AgentOrigin {
  import opened Options
  import opened Message
  import opened Transport
  import opened AgentSystem
  import opened AgentInvariant
  import opened AgentTheorems

  /** Someone else's event that asks for k. */
  predicate Asks(cfg: Config, e: Event, k: Key) {
    e.sender != cfg.me && e.body.Some? && cfg.inbound(e.body.value) == Some(k)
  }

  /** One of these events asks for k. */
  ghost predicate Asked(cfg: Config, events: seq<Event>, k: Key) { exists e :: e in events && Asks(cfg, e, k) }

  /** One of these events has this id and asks for this key. */
  ghost predicate AskedBy(cfg: Config, events: seq<Event>, d: (EventId, Key)) {
    exists e :: e in events && e.id == d.0 && Asks(cfg, e, d.1)
  }

  ghost predicate AllIn(events: seq<Event>, all: seq<Event>) { forall e | e in events :: e in all }

  /** Everything the agent has handled, executed, sent or has before it goes back to an
      event written since the agent primed. */
  ghost predicate Since(cfg: Config, s: State, recent: seq<Event>) {
    && s.handled <= Ids(recent)
    && (forall k | k in s.wire || k in s.accepted :: Asked(cfg, recent, k))
    && (s.process.Up? ==>
          && (forall d | d in s.process.executed :: AskedBy(cfg, recent, d))
          && (s.process.phase.Merged? ==> AllIn(s.process.phase.window, recent))
          && (s.process.phase.Dispatching? ==> AllIn(s.process.phase.todo, recent)))
  }

  ghost predicate SinceOrigin(cfg: Config, s: State) {
    && (s.durable.Some? ==> s.origin <= |s.log| && Since(cfg, s, s.log[s.origin..]))
    && (s.durable.None? ==> s.handled == {} && s.wire == {} && s.accepted == {} && !s.process.Up?)
  }

  lemma SinceGrows(cfg: Config, s: State, recent: seq<Event>, longer: seq<Event>)
    requires Since(cfg, s, recent) && AllIn(recent, longer)
    ensures Since(cfg, s, longer)
  {
    forall id | id in s.handled ensures id in Ids(longer) {
      var e :| e in recent && e.id == id;
    }
    forall k | k in s.wire || k in s.accepted ensures Asked(cfg, longer, k) {
      var e :| e in recent && Asks(cfg, e, k);
      assert e in longer;
    }
    if s.process.Up? {
      forall d | d in s.process.executed ensures AskedBy(cfg, longer, d) {
        var e :| e in recent && e.id == d.0 && Asks(cfg, e, d.1);
        assert e in longer;
      }
    }
  }

  /** The same agent with a longer log behind it. */
  lemma LongerLog(cfg: Config, s: State, t: State)
    requires SinceOrigin(cfg, s) && s.log <= t.log && t == s.(log := t.log, txns := t.txns)
    ensures SinceOrigin(cfg, t)
  {
    if s.durable.Some? {
      assert t.log[..|s.log|] == s.log;
      forall e | e in s.log[s.origin..] ensures e in t.log[s.origin..] {
        var j :| s.origin <= j < |s.log| && s.log[j] == e;
        assert t.log[s.origin..][j - s.origin] == e;
      }
      SinceGrows(cfg, s, s.log[s.origin..], t.log[s.origin..]);
      assert Since(cfg, t, t.log[s.origin..]);
    }
  }

  lemma AcceptSince(cfg: Config, s: State, key: Key, id: EventId)
    requires SinceOrigin(cfg, s) && Enabled(cfg, s, Accept(key, id))
    ensures SinceOrigin(cfg, AfterAccept(cfg, s, key, id))
  {
    var t := AfterAccept(cfg, s, key, id);
    var u := s.(log := t.log, txns := t.txns);
    LongerLog(cfg, s, u);
  }

  lemma SyncSince(cfg: Config, s: State, start: nat, upTo: nat, limited: bool)
    requires Inv(cfg, s) && SinceOrigin(cfg, s) && Enabled(cfg, s, SyncOk(start, upTo, limited))
    requires Inv(cfg, Apply(cfg, s, SyncOk(start, upTo, limited)))
    ensures SinceOrigin(cfg, Apply(cfg, s, SyncOk(start, upTo, limited)))
  {
    WindowSince(cfg, s, Apply(cfg, s, SyncOk(start, upTo, limited)));
  }

  lemma PageSince(cfg: Config, s: State, reply: PageReply)
    requires Inv(cfg, s) && SinceOrigin(cfg, s) && Enabled(cfg, s, PageOk(reply)) && Inv(cfg, AfterPage(s, reply))
    ensures SinceOrigin(cfg, AfterPage(s, reply))
  {
    WindowSince(cfg, s, AfterPage(s, reply));
  }

  /** A window holds only events from its token on. */
  lemma WindowRecent(log: seq<Event>, origin: nat, since: nat, start: nat, upTo: nat)
    requires origin <= since <= start <= upTo <= |log| && DistinctIds(log)
    ensures AllIn(Window(log, since, start, upTo), log[origin..])
  {
    WindowMembers(log, since, start, upTo);
    SubrangeMembers(log, since, start, upTo);
    forall e | e in Window(log, since, start, upTo) ensures e in log[origin..] {
      assert e in log[since..upTo];
      var j :| since <= j < upTo && log[j] == e;
      assert log[origin..][j - origin] == e;
    }
  }

  lemma WindowSince(cfg: Config, s: State, t: State)
    requires s.process.Up? && s.durable.Some? && SinceOrigin(cfg, s) && Inv(cfg, t) && t.process.Up?
    requires t == WithPhase(s, t.process.phase) && !t.process.phase.Dispatching?
    ensures SinceOrigin(cfg, t)
  {
    if t.process.phase.Merged? {
      var b := t.process.phase.batch;
      assert PositionInv(cfg, t) && BatchInv(t, b);
      WindowRecent(t.log, t.origin, t.process.token, b.start, b.upTo);
    }
  }

  lemma BeginSince(cfg: Config, s: State)
    requires SinceOrigin(cfg, s) && s.durable.Some? && Enabled(cfg, s, BeginHandle)
    ensures SinceOrigin(cfg, AfterBegin(cfg, s))
  {
    var e, recent, t := s.process.phase.todo[s.process.phase.next], s.log[s.origin..], AfterBegin(cfg, s);
    assert e in s.process.phase.todo;
    assert e in recent && e.id in Ids(recent);
    if RequestKey(cfg, e).Some? {
      var key := RequestKey(cfg, e).value;
      assert Asks(cfg, e, key) && Asked(cfg, recent, key) && AskedBy(cfg, recent, (e.id, key));
    }
    assert Since(cfg, t, recent);
  }

  lemma EndSince(cfg: Config, s: State, ok: bool)
    requires SinceOrigin(cfg, s) && s.durable.Some? && Enabled(cfg, s, EndHandle(ok))
    ensures SinceOrigin(cfg, AfterEnd(cfg, s, ok))
  {
    var e, recent := s.process.phase.todo[s.process.phase.next], s.log[s.origin..];
    assert e in s.process.phase.todo;
    assert e in recent && e.id in Ids(recent);
    assert Since(cfg, AfterEnd(cfg, s, ok), recent);
  }

  lemma PlanSince(cfg: Config, s: State, todo: seq<Event>)
    requires SinceOrigin(cfg, s) && s.durable.Some? && Enabled(cfg, s, Plan(todo))
    ensures SinceOrigin(cfg, Apply(cfg, s, Plan(todo)))
  {
    assert AllIn(todo, s.process.phase.window);
  }

  lemma RestSince(cfg: Config, s: State, step: Step)
    requires Inv(cfg, s) && SinceOrigin(cfg, s) && Enabled(cfg, s, step)
    requires step.Prime? || step.SavePrimed? || step.Restart? || step.GiveUp? || step.Commit? || step.Save? ||
             step.Shutdown? || step.Crash?
    ensures SinceOrigin(cfg, Apply(cfg, s, step))
  {}

  lemma SinceKeeps(cfg: Config, s: State, step: Step)
    requires Coherent(cfg) && Inv(cfg, s) && SinceOrigin(cfg, s) && Enabled(cfg, s, step)
    ensures SinceOrigin(cfg, Apply(cfg, s, step))
  {
    StepKeeps(cfg, s, step);
    match step
    case Append(e) => LongerLog(cfg, s, Apply(cfg, s, step));
    case Accept(key, id) => AcceptSince(cfg, s, key, id);
    case SyncOk(start, upTo, limited) => SyncSince(cfg, s, start, upTo, limited);
    case PageOk(reply) => PageSince(cfg, s, reply);
    case Plan(todo) => PlanSince(cfg, s, todo);
    case BeginHandle => BeginSince(cfg, s);
    case EndHandle(ok) => EndSince(cfg, s, ok);
    case _ => RestSince(cfg, s, step);
  }

  lemma {:induction false} AlwaysSince(cfg: Config, states: seq<State>, steps: seq<Step>, n: nat)
    requires Coherent(cfg) && Execution(cfg, states, steps) && n < |states|
    ensures Inv(cfg, states[n]) && SinceOrigin(cfg, states[n])
  {
    Reachable(cfg, states, steps, n);
    if n > 0 {
      AlwaysSince(cfg, states, steps, n - 1);
      SinceKeeps(cfg, states[n - 1], steps[n - 1]);
    }
  }

  // ----------------------------------------------------------------- priming

  /** Positions of an agent that has primed start no earlier than the room's end then,
      and exactly there when it did not have to prime again. */
  ghost predicate StartedFrom(s: State, length: nat) {
    && length <= |s.log|
    && (s.durable.Some? ==> s.origin >= length)
    && (s.process.Primed? ==> s.process.token >= length)
  }

  lemma PrimingStep(cfg: Config, s: State, step: Step, length: nat)
    requires StartedFrom(s, length) && Enabled(cfg, s, step) && (s.durable.None? ==> !s.process.Up?)
    ensures StartedFrom(Apply(cfg, s, step), length)
  {}

  lemma {:induction false} StartedFromPrime(cfg: Config, states: seq<State>, steps: seq<Step>, m: nat, n: nat)
    requires Coherent(cfg) && Execution(cfg, states, steps) && m < n < |states| && steps[m].Prime?
    ensures StartedFrom(states[n], |states[m].log|)
  {
    if n == m + 1 {
      assert states[m + 1] == Apply(cfg, states[m], steps[m]);
    } else {
      StartedFromPrime(cfg, states, steps, m, n - 1);
      Reachable(cfg, states, steps, n - 1);
      PrimingStep(cfg, states[n - 1], steps[n - 1], |states[m].log|);
      assert states[(n - 1) + 1] == Apply(cfg, states[n - 1], steps[n - 1]);
    }
  }

  ghost predicate StartsAt(s: State, length: nat) {
    (s.durable.Some? ==> s.origin == length) && (s.process.Primed? ==> s.process.token == length)
  }

  lemma StartStep(cfg: Config, s: State, step: Step, length: nat)
    requires StartsAt(s, length) && Enabled(cfg, s, step) && !step.Prime? && (s.durable.None? ==> !s.process.Up?)
    ensures StartsAt(Apply(cfg, s, step), length)
  {}

  /** The first position of an agent is the end of the room at its last priming. */
  lemma {:induction false} OriginIsPrimedEnd(cfg: Config, states: seq<State>, steps: seq<Step>, m: nat, n: nat)
    requires Coherent(cfg) && Execution(cfg, states, steps) && m < n < |states| && steps[m].Prime?
    requires forall i | m < i < n :: !steps[i].Prime?
    ensures StartsAt(states[n], |states[m].log|)
  {
    if n == m + 1 {
      assert states[m + 1] == Apply(cfg, states[m], steps[m]);
    } else {
      OriginIsPrimedEnd(cfg, states, steps, m, n - 1);
      Reachable(cfg, states, steps, n - 1);
      StartStep(cfg, states[n - 1], steps[n - 1], |states[m].log|);
      assert states[(n - 1) + 1] == Apply(cfg, states[n - 1], steps[n - 1]);
    }
  }

  /** Two parts of a room with distinct ids share none. */
  lemma PartsApart(log: seq<Event>, k: nat, d: Event, e: Event)
    requires DistinctIds(log) && k <= |log| && d in log[..k] && e in log[k..]
    ensures d.id != e.id
  {
    var i :| 0 <= i < k && log[i] == d;
    var j :| k <= j < |log| && log[j] == e;
  }

  /** History is never replayed: what was in the room when the agent primed is in no
      incarnation handled or executed, and a request that stands only there is never
      acknowledged. */
  lemma NoReplay(cfg: Config, states: seq<State>, steps: seq<Step>, m: nat, n: nat)
    requires Coherent(cfg) && Execution(cfg, states, steps) && m < n < |states| && steps[m].Prime?
    ensures |states[m].log| <= |states[n].log|
    ensures var s, old' := states[n], states[n].log[..|states[m].log|];
            && (forall e | e in old' :: e.id !in s.handled)
            && (s.process.Up? ==>
                  forall e, i | e in old' && 0 <= i < |s.process.executed| :: s.process.executed[i].0 != e.id)
            && (forall k | !Asked(cfg, s.log[|states[m].log|..], k) :: k !in s.accepted && Acks(cfg, s, k) == {})
  {
    var s, length := states[n], |states[m].log|;
    StartedFromPrime(cfg, states, steps, m, n);
    AlwaysSince(cfg, states, steps, n);
    if s.durable.Some? {
      var recent := s.log[s.origin..];
      forall e | e in recent ensures e in s.log[length..] {
        var j :| s.origin <= j < |s.log| && s.log[j] == e;
        assert s.log[length..][j - length] == e;
      }
      SinceGrows(cfg, s, recent, s.log[length..]);
      OldUntouched(cfg, s, length);
    }
    forall k | !Asked(cfg, s.log[length..], k) ensures k !in s.accepted && Acks(cfg, s, k) == {} {
      forall i | i in Acks(cfg, s, k) ensures k in s.accepted { AckWasAccepted(cfg, s, k, i); }
    }
  }

  lemma OldUntouched(cfg: Config, s: State, length: nat)
    requires DistinctIds(s.log) && length <= |s.log| && Since(cfg, s, s.log[length..])
    ensures forall e | e in s.log[..length] :: e.id !in s.handled
    ensures s.process.Up? ==>
              forall e, i | e in s.log[..length] && 0 <= i < |s.process.executed| :: s.process.executed[i].0 != e.id
  {
    forall e | e in s.log[..length] ensures e.id !in Ids(s.log[length..]) {
      forall d | d in s.log[length..] ensures d.id != e.id { PartsApart(s.log, length, e, d); }
    }
    if s.process.Up? {
      forall e, i | e in s.log[..length] && 0 <= i < |s.process.executed| ensures s.process.executed[i].0 != e.id {
        assert AskedBy(cfg, s.log[length..], s.process.executed[i]);
        var d :| d in s.log[length..] && d.id == s.process.executed[i].0 && Asks(cfg, d, s.process.executed[i].1);
      }
    }
  }

  /** Every execution is of someone else's event and of the key that event asks for,
      and every accepted send answers such an event. */
  lemma ExecutedWasAsked(cfg: Config, states: seq<State>, steps: seq<Step>, n: nat)
    requires Coherent(cfg) && Execution(cfg, states, steps) && n < |states|
    ensures states[n].process.Up? ==>
              forall d | d in states[n].process.executed :: AskedBy(cfg, states[n].log, d)
    ensures forall k | k in states[n].accepted :: Asked(cfg, states[n].log, k)
  {
    AlwaysSince(cfg, states, steps, n);
    if states[n].durable.Some? {
      SinceGrows(cfg, states[n], states[n].log[states[n].origin..], states[n].log);
    }
  }

  // ------------------------------------------------------- one incarnation

  /** A step that does not end the process. */
  predicate GoesOn(s: State, step: Step) {
    !step.Crash? && !step.Shutdown? && (step.GiveUp? ==> s.process.Up? && s.process.live)
  }

  ghost predicate SameProcess(s: State, t: State) {
    && s.process.Up? && t.process.Up? && (s.process.live ==> t.process.live)
    && s.process.executed <= t.process.executed && s.process.token <= t.process.token
    && s.process.registry.events <= t.process.registry.events
    && s.process.registry.logical <= t.process.registry.logical
  }

  lemma ProcessStep(cfg: Config, s: State, step: Step)
    requires PhaseInv(cfg, s) && s.process.Up? && Enabled(cfg, s, step) && GoesOn(s, step)
    ensures SameProcess(s, Apply(cfg, s, step))
  {}

  lemma SameProcessTransitive(r: State, s: State, t: State)
    requires SameProcess(r, s) && SameProcess(s, t)
    ensures SameProcess(r, t)
  {}

  /** A failed sync, page or batch is retried by the same live process, which forgets
      nothing it has executed; only a crash, a shutdown or a failed startup ends it. */
  lemma {:induction false} ProcessGoesOn(cfg: Config, states: seq<State>, steps: seq<Step>, m: nat, n: nat)
    requires Coherent(cfg) && Execution(cfg, states, steps) && m <= n < |states| && states[m].process.Up?
    requires forall i | m <= i < n :: GoesOn(states[i], steps[i])
    ensures SameProcess(states[m], states[n])
  {
    if m < n {
      ProcessGoesOn(cfg, states, steps, m, n - 1);
      Reachable(cfg, states, steps, n - 1);
      ProcessStep(cfg, states[n - 1], steps[n - 1]);
      assert states[(n - 1) + 1] == Apply(cfg, states[n - 1], steps[n - 1]);
      SameProcessTransitive(states[m], states[n - 1], states[n]);
    }
  }

  // ------------------------------------------------------ what the answers say

  /** The agent's acknowledgements are messages with the executor's text. */
  ghost predicate Worded(cfg: Config, log: seq<Event>) {
    forall i | 0 <= i < |log| && AckOf(cfg, log[i]).Some? ::
      log[i].isMessage && log[i].body == cfg.replyOf(AckOf(cfg, log[i]).value)
  }

  /** What is accepted acknowledges the key it was sent for. */
  lemma AcceptedAnswers(cfg: Config, s: State, key: Key, id: EventId)
    requires Coherent(cfg) && ServerInv(cfg, s) && key in s.wire
    ensures AckOf(cfg, Event(id, cfg.me, true, cfg.replyOf(key))) == Some(key)
  {
    assert Requested(cfg, s.log, key);
    var j :| 0 <= j < |s.log| && RequestKey(cfg, s.log[j]) == Some(key);
    assert cfg.inbound(s.log[j].body.value) == Some(key);
  }

  lemma WordedStep(cfg: Config, s: State, step: Step)
    requires Coherent(cfg) && ServerInv(cfg, s) && Enabled(cfg, s, step) && Worded(cfg, s.log)
    ensures Worded(cfg, Apply(cfg, s, step).log)
  {
    if step.Accept? { AcceptedAnswers(cfg, s, step.key, step.id); }
  }

  /** Over every run each acknowledgement in the room is a message and says what the
      executor answers to its key. */
  lemma {:induction false} AckWorded(cfg: Config, states: seq<State>, steps: seq<Step>, n: nat)
    requires Coherent(cfg) && Execution(cfg, states, steps) && n < |states|
    ensures Worded(cfg, states[n].log)
  {
    if n > 0 {
      AckWorded(cfg, states, steps, n - 1);
      Reachable(cfg, states, steps, n - 1);
      WordedStep(cfg, states[n - 1], steps[n - 1]);
      assert states[(n - 1) + 1] == Apply(cfg, states[n - 1], steps[n - 1]);
    }
  }

  // --------------------------------------------------- what is durable, what failed

  /** The checkpoint is written by priming, by a finished send, by a commit and by a
      shutdown, each time with the position reached, and by nothing else. */
  lemma CheckpointWritten(cfg: Config, s: State, step: Step)
    requires Enabled(cfg, s, step)
    ensures var t := Apply(cfg, s, step);
            if step.SavePrimed? || step.EndHandle? || step.Save? || step.Shutdown?
            then t.durable.Some? && Committed(t) == t.durable.value && t.durable.value == s.process.token
            else t.durable == s.durable
  {}

  /** A send is handed to the network only by executing a new request: duplicates are
      not answered again. */
  lemma SendIsExecution(cfg: Config, s: State, step: Step, k: Key)
    requires RegistryInv(cfg, s) && Enabled(cfg, s, step)
    requires
      || (k in Apply(cfg, s, step).wire && k !in s.wire)
      || (InSend(Apply(cfg, s, step), k) && !InSend(s, k))
    ensures var t := Apply(cfg, s, step);
            && step.BeginHandle? && s.process.Up? && t.process.Up?
            && k !in s.process.registry.logical && cfg.replyOf(k).Some?
            && t.process.executed == s.process.executed + [(s.process.phase.todo[s.process.phase.next].id, k)]
  {}

  lemma FailedStep(cfg: Config, s: State, step: Step, k: Key)
    requires Enabled(cfg, s, step) && k in Apply(cfg, s, step).failed && k !in s.failed
    ensures step == EndHandle(false) && InSend(s, k)
  {}

  /** A send counts as failed only when it was reported so while it was waited for. */
  lemma {:induction false} FailedWasReported(cfg: Config, states: seq<State>, steps: seq<Step>, n: nat, k: Key)
    requires Execution(cfg, states, steps) && n < |states| && k in states[n].failed
    ensures exists m: nat :: m < n && steps[m] == EndHandle(false) && InSend(states[m], k)
  {
    if n > 0 {
      assert states[(n - 1) + 1] == Apply(cfg, states[n - 1], steps[n - 1]);
      if k in states[n - 1].failed {
        FailedWasReported(cfg, states, steps, n - 1, k);
      } else {
        FailedStep(cfg, states[n - 1], steps[n - 1], k);
      }
    }
  }
}
