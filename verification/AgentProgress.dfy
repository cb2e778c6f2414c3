/** When the agent can catch up with its room after a restart, exactly, and when it
    never can. A policy says which steps a continuation may take and how the
    homeserver answers in it. */
module AgentProgress {
  import opened Options
  import opened Message
  import opened Transport
  import opened Dedup
  import opened AgentSystem
  import opened AgentInvariant
  import opened AgentTheorems

  type Policy = (State, Step) -> bool

  ghost predicate Next(cfg: Config, ok: Policy, s: State, step: Step, t: State) {
    Enabled(cfg, s, step) && ok(s, step) && t == Apply(cfg, s, step)
  }

  ghost predicate Chain(cfg: Config, ok: Policy, states: seq<State>, steps: seq<Step>) {
    |states| == |steps| + 1 && forall n | 0 <= n < |steps| :: Next(cfg, ok, states[n], steps[n], states[n + 1])
  }

  /** t can be reached from s within the policy. */
  ghost predicate Leads(cfg: Config, ok: Policy, s: State, t: State) {
    exists states: seq<State>, steps: seq<Step> ::
      Chain(cfg, ok, states, steps) && states[0] == s && states[|states| - 1] == t
  }

  function Anything(): Policy { (s: State, step: Step) => true }

  /** One incarnation goes on, its history requests answered by this server: no
      crash, no raise, no shutdown and no further sync. Sends may fail and others
      may write to the room. */
  function OneIncarnation(fetch: Fetch): Policy {
    (s: State, step: Step) =>
      match step
      case PageOk(reply) =>
        s.process.Up? && s.process.phase.Paging? && reply == fetch(s.process.phase.pages, s.process.phase.from)
      case SyncOk(_, _, _) => false
      case GiveUp => false
      case Shutdown => false
      case Crash => false
      case _ => true
  }

  /** Anything may happen, but a sync answer shows at most the last `limit` events of
      the room. */
  function Truncates(limit: nat): Policy {
    (s: State, step: Step) => step.SyncOk? ==> step.upTo == |s.log| && step.upTo - step.start <= limit
  }

  ghost predicate Admits(ok: Policy, fetch: Fetch) {
    forall s: State, step: Step :: OneIncarnation(fetch)(s, step) ==> ok(s, step)
  }

  lemma LeadsHere(cfg: Config, ok: Policy, s: State)
    ensures Leads(cfg, ok, s, s)
  {
    assert Chain(cfg, ok, [s], []);
  }

  lemma LeadsOn(cfg: Config, ok: Policy, r: State, s: State, step: Step, t: State)
    requires Leads(cfg, ok, r, s) && Next(cfg, ok, s, step, t)
    ensures Leads(cfg, ok, r, t)
  {
    var states, steps :| Chain(cfg, ok, states, steps) && states[0] == r && states[|states| - 1] == s;
    var longer, more := states + [t], steps + [step];
    forall n | 0 <= n < |more| ensures Next(cfg, ok, longer[n], more[n], longer[n + 1]) {
      if n < |steps| { assert Next(cfg, ok, states[n], steps[n], states[n + 1]); }
    }
    assert Chain(cfg, ok, longer, more);
  }

  /** One step of a construction: it is a step of the run and keeps the invariant. */
  lemma Take(cfg: Config, ok: Policy, r: State, s: State, step: Step) returns (t: State)
    requires Coherent(cfg) && Leads(cfg, ok, r, s) && Inv(cfg, s) && Enabled(cfg, s, step) && ok(s, step)
    ensures t == Apply(cfg, s, step) && Leads(cfg, ok, r, t) && Inv(cfg, t)
  {
    t := Apply(cfg, s, step);
    StepKeeps(cfg, s, step);
    LeadsOn(cfg, ok, r, s, step, t);
  }

  // -------------------------------------------------------------- fresh ids

  /** The homeserver always has an id to give. */
  lemma {:induction false} FreshId(log: seq<Event>) returns (id: EventId)
    ensures Fresh(log, id) && forall e | e in log :: |e.id| < |id|
  {
    if log == [] {
      id := "$";
    } else {
      var front, last := log[..|log| - 1], log[|log| - 1];
      var shorter := FreshId(front);
      id := shorter + last.id + "$";
      assert forall e | e in log :: e in front || e == last;
    }
  }

  // ---------------------------------------------------------------- dispatch

  predicate Answered(cfg: Config, s: State, k: Key) { k in s.accepted || cfg.replyOf(k).None? }

  predicate EventAnswered(cfg: Config, s: State, before: set<Key>, e: Event) {
    RequestKey(cfg, e).Some? ==> RequestKey(cfg, e).value in before || Answered(cfg, s, RequestKey(cfg, e).value)
  }

  /** An undisturbed incarnation between two events of its batch: whatever its
      registry holds and whatever it has dispatched has been answered, or was in the
      registry before. */
  ghost predicate Catching(cfg: Config, s: State, before: set<Key>, todo: seq<Event>, end: nat) {
    && s.process.Up? && s.process.phase.Dispatching?
    && var p := s.process.phase;
       && p.handling.Idle? && p.todo == todo && p.batch.upTo == end && p.next <= |todo| && Clean(cfg, todo)
       && (forall k | k in s.process.registry.logical :: k in before || Answered(cfg, s, k))
       && (forall j | 0 <= j < p.next :: EventAnswered(cfg, s, before, todo[j]))
  }

  /** One event further: the registry has grown by answered keys at most. */
  ghost predicate OneFurther(cfg: Config, s: State, t: State) {
    && s.log <= t.log && s.accepted <= t.accepted && s.origin == t.origin
    && s.process.Up? && s.process.phase.Dispatching? && s.process.phase.next < |s.process.phase.todo|
    && t.process.Up? && t.process.phase == s.process.phase.(next := s.process.phase.next + 1)
    && (forall k | k in t.process.registry.logical :: k in s.process.registry.logical || Answered(cfg, t, k))
    && s.process.executed <= t.process.executed
    && var e := s.process.phase.todo[s.process.phase.next];
       RequestKey(cfg, e).Some? ==> RequestKey(cfg, e).value in t.process.registry.logical
  }

  lemma FurtherCatches(cfg: Config, s: State, t: State, before: set<Key>, todo: seq<Event>, end: nat)
    requires Catching(cfg, s, before, todo, end) && OneFurther(cfg, s, t)
    ensures Catching(cfg, t, before, todo, end)
  {
    forall k | k in t.process.registry.logical ensures k in before || Answered(cfg, t, k) {
      if k in s.process.registry.logical { assert k in before || Answered(cfg, s, k); }
    }
    forall j | 0 <= j < t.process.phase.next ensures EventAnswered(cfg, t, before, todo[j]) {
      if j < s.process.phase.next { assert EventAnswered(cfg, s, before, todo[j]); }
    }
  }

  /** The next event is a request not seen in this incarnation, with an answer. */
  predicate ToSend(cfg: Config, s: State) {
    && Enabled(cfg, s, BeginHandle)
    && var e := s.process.phase.todo[s.process.phase.next];
       && RequestKey(cfg, e).Some? && cfg.replyOf(RequestKey(cfg, e).value).Some?
       && s.process.registry.Decide(e.id, RequestKey(cfg, e).value).Process?
  }

  /** What begins and ends at once. */
  lemma QuietEvent(cfg: Config, s: State)
    requires Inv(cfg, s) && Enabled(cfg, s, BeginHandle) && !ToSend(cfg, s)
    ensures OneFurther(cfg, s, AfterBegin(cfg, s))
  {
    var e := s.process.phase.todo[s.process.phase.next];
    assert PhaseInv(cfg, s) && e in s.process.phase.todo;
    QuietShape(cfg, s, e);
  }

  lemma QuietShape(cfg: Config, s: State, e: Event)
    requires RegistryInv(cfg, s) && Enabled(cfg, s, BeginHandle) && !ToSend(cfg, s)
    requires e == s.process.phase.todo[s.process.phase.next] && e in s.log
    ensures OneFurther(cfg, s, AfterBegin(cfg, s))
  {}

  /** The same process in the middle of a send. */
  ghost predicate MidSend(s: State, u: State, key: Key) {
    && s.process.Up? && s.process.phase.Dispatching? && u.process.Up?
    && u.process.phase == s.process.phase.(handling := Sending(key))
    && u.process.registry.logical == s.process.registry.logical + {key} && s.process.executed <= u.process.executed
    && u.log == s.log && u.accepted == s.accepted && u.origin == s.origin && key in u.wire
  }

  lemma StartSend(cfg: Config, ok: Policy, fetch: Fetch, r: State, s: State) returns (u: State)
    requires Coherent(cfg) && Admits(ok, fetch) && Leads(cfg, ok, r, s) && Inv(cfg, s) && ToSend(cfg, s)
    ensures Leads(cfg, ok, r, u) && Inv(cfg, u)
    ensures MidSend(s, u, RequestKey(cfg, s.process.phase.todo[s.process.phase.next]).value)
  {
    u := Take(cfg, ok, r, s, BeginHandle);
  }

  lemma ServerAccepts(cfg: Config, ok: Policy, fetch: Fetch, r: State, s: State, key: Key) returns (u: State)
    requires Coherent(cfg) && Admits(ok, fetch) && Leads(cfg, ok, r, s) && Inv(cfg, s) && key in s.wire
    ensures Leads(cfg, ok, r, u) && Inv(cfg, u) && u.process == s.process && u.origin == s.origin
    ensures s.log <= u.log && u.accepted == s.accepted + {key}
  {
    assert ServerInv(cfg, s);
    var id := FreshId(s.log);
    u := Take(cfg, ok, r, s, Accept(key, id));
  }

  lemma SentEvent(cfg: Config, ok: Policy, fetch: Fetch, r: State, s: State) returns (t: State)
    requires Coherent(cfg) && Admits(ok, fetch) && Leads(cfg, ok, r, s) && Inv(cfg, s) && ToSend(cfg, s)
    ensures Leads(cfg, ok, r, t) && Inv(cfg, t) && OneFurther(cfg, s, t)
  {
    var key := RequestKey(cfg, s.process.phase.todo[s.process.phase.next]).value;
    var sending := StartSend(cfg, ok, fetch, r, s);
    var accepted := ServerAccepts(cfg, ok, fetch, r, sending, key);
    SentShape(cfg, s, sending, accepted, key);
    t := SendReturns(cfg, ok, fetch, r, accepted);
  }

  lemma SendReturns(cfg: Config, ok: Policy, fetch: Fetch, r: State, s: State) returns (t: State)
    requires Coherent(cfg) && Admits(ok, fetch) && Leads(cfg, ok, r, s) && Inv(cfg, s) &&
             Enabled(cfg, s, EndHandle(true))
    ensures Leads(cfg, ok, r, t) && Inv(cfg, t) && t == AfterEnd(cfg, s, true)
  {
    t := Take(cfg, ok, r, s, EndHandle(true));
  }

  lemma SentShape(cfg: Config, s: State, u: State, v: State, key: Key)
    requires ToSend(cfg, s) && key == RequestKey(cfg, s.process.phase.todo[s.process.phase.next]).value
    requires MidSend(s, u, key) && v.process == u.process && v.origin == u.origin
    requires u.log <= v.log && v.accepted == u.accepted + {key}
    ensures Enabled(cfg, v, EndHandle(true)) && OneFurther(cfg, s, AfterEnd(cfg, v, true))
  {}

  lemma OneEvent(cfg: Config, ok: Policy, fetch: Fetch, r: State, s: State, before: set<Key>, todo: seq<Event>,
      end: nat)
    returns (t: State)
    requires Coherent(cfg) && Admits(ok, fetch) && Leads(cfg, ok, r, s)
    requires Inv(cfg, s) && Catching(cfg, s, before, todo, end)
    requires s.process.phase.next < |todo|
    ensures Leads(cfg, ok, r, t) && Inv(cfg, t) && Catching(cfg, t, before, todo, end) && OneFurther(cfg, s, t)
  {
    assert todo[s.process.phase.next] in todo;
    if ToSend(cfg, s) {
      t := SentEvent(cfg, ok, fetch, r, s);
    } else {
      t := Take(cfg, ok, r, s, BeginHandle);
      QuietEvent(cfg, s);
    }
    FurtherCatches(cfg, s, t, before, todo, end);
  }

  lemma {:induction false} DispatchAll(cfg: Config, ok: Policy, fetch: Fetch, r: State, s: State, before: set<Key>,
                                       todo: seq<Event>, end: nat)
    returns (t: State)
    requires Coherent(cfg) && Admits(ok, fetch) && Leads(cfg, ok, r, s)
    requires Inv(cfg, s) && Catching(cfg, s, before, todo, end)
    ensures Leads(cfg, ok, r, t) && Inv(cfg, t) && Catching(cfg, t, before, todo, end) && t.process.phase.next == |todo|
    ensures s.log <= t.log && s.origin == t.origin && s.process.executed <= t.process.executed
    decreases |todo| - s.process.phase.next
  {
    if s.process.phase.next == |todo| {
      t := s;
    } else {
      var one := OneEvent(cfg, ok, fetch, r, s, before, todo, end);
      t := DispatchAll(cfg, ok, fetch, r, one, before, todo, end);
    }
  }

  // ------------------------------------------------------------------ paging

  /** The pagination that a paging process has still to do. */
  function Rest(cfg: Config, fetch: Fetch, s: State): PageRun
    requires s.process.Up? && s.process.phase.Paging?
  {
    var p := s.process.phase;
    PageLoop(fetch, Some(s.process.token), p.from, p.pages, cfg.maxPages, p.history)
  }

  /** A paged-in window, nothing else changed. */
  ghost predicate PagedIn(s: State, t: State) {
    && s.process.Up? && s.process.phase.Paging? && t.process.Up? && t.process.phase.Merged?
    && t == s.(process := s.process.(phase := t.process.phase)) && t.process.phase.batch == s.process.phase.batch
  }

  /** The step system walks through history exactly as the pagination loop does. */
  lemma {:induction false} PageAll(cfg: Config, ok: Policy, r: State, s: State, fetch: Fetch) returns (t: State)
    requires Coherent(cfg) && Admits(ok, fetch) && Leads(cfg, ok, r, s) && Inv(cfg, s)
    requires s.process.Up? && s.process.phase.Paging? && Rest(cfg, fetch, s).Collected?
    requires HonestPages(cfg, fetch, s)
    ensures Leads(cfg, ok, r, t) && Inv(cfg, t) && PagedIn(s, t)
    decreases cfg.maxPages - s.process.phase.pages
  {
    var p := s.process.phase;
    var reply := fetch(p.pages, p.from);
    assert HonestPage(s.log, p.from, s.process.token, cfg.pageLimit, reply);
    var next := Take(cfg, ok, r, s, PageOk(reply));
    if LastPage(reply, Some(s.process.token)) {
      t := next;
    } else {
      t := PageAll(cfg, ok, r, next, fetch);
    }
  }

  ghost predicate HonestPages(cfg: Config, fetch: Fetch, s: State)
    requires s.process.Up? && s.process.phase.Paging?
  {
    && s.process.token <= s.process.phase.from <= s.process.phase.batch.start <= |s.log|
    && HonestServer(fetch, s.log, s.process.token, s.process.phase.batch.start, cfg.pageLimit)
  }

  /** A process whose pagination will not collect stays in it. */
  predicate PagingInVain(cfg: Config, fetch: Fetch, s: State) {
    s.process.Up? && s.process.phase.Paging? && !Rest(cfg, fetch, s).Collected?
  }

  lemma VainStep(cfg: Config, fetch: Fetch, s: State, step: Step)
    requires PagingInVain(cfg, fetch, s) && Enabled(cfg, s, step) && OneIncarnation(fetch)(s, step)
    ensures PagingInVain(cfg, fetch, Apply(cfg, s, step)) && Apply(cfg, s, step).process.live == s.process.live
  {
    if step.PageOk? {
      var p := s.process.phase;
      assert step.reply == fetch(p.pages, p.from) && !LastPage(step.reply, Some(s.process.token));
    }
  }

  lemma {:induction false} VainForever(cfg: Config, fetch: Fetch, states: seq<State>, steps: seq<Step>, n: nat)
    requires Chain(cfg, OneIncarnation(fetch), states, steps) && n < |states| && PagingInVain(cfg, fetch, states[0])
    ensures PagingInVain(cfg, fetch, states[n]) && states[n].process.live == states[0].process.live
  {
    if n > 0 {
      VainForever(cfg, fetch, states, steps, n - 1);
      assert Next(cfg, OneIncarnation(fetch), states[n - 1], steps[n - 1], states[(n - 1) + 1]);
      VainStep(cfg, fetch, states[n - 1], steps[n - 1]);
    }
  }

  // ---------------------------------------------------------------- catch up

  /** The state after a crash, a restart and a sync that the server truncated at
      `start`. */
  function Restarted(s: State, start: nat): State
    requires s.durable.Some? && start <= |s.log|
  {
    s.(process := Up(s.durable.value, false, EMPTY, [],
                     Paging(Batch(start, |s.log|), Keep(s.log[start..|s.log|], SyncVisible), start, 0, [])))
  }

  lemma RestartSteps(cfg: Config, ok: Policy, s: State, start: nat)
    requires Coherent(cfg) && Inv(cfg, s) && s.durable.Some? && s.durable.value <= start <= |s.log|
    requires forall r: State, step: Step :: step.Crash? || step.Restart? ==> ok(r, step)
    requires forall r: State | r.log == s.log :: ok(r, SyncOk(start, |s.log|, true))
    ensures Leads(cfg, ok, s, Restarted(s, start)) && Inv(cfg, Restarted(s, start))
  {
    LeadsHere(cfg, ok, s);
    var down := Take(cfg, ok, s, s, Crash);
    var up := Take(cfg, ok, s, down, Restart);
    var paging := Take(cfg, ok, s, up, SyncOk(start, |s.log|, true));
  }

  /** Every request message since priming handled, and every answerable one that the
      old checkpoint had not passed answered, by exactly one acknowledgement when no
      two accepted sends share an id; the checkpoint at the old end of the room. */
  ghost predicate CaughtUp(cfg: Config, s: State, t: State)
    requires s.durable.Some?
  {
    && s.log <= t.log && t.durable == Some(|s.log|) && t.process.Up? && t.process.live
    && (forall i | s.origin <= i < |s.log| && IsRequest(cfg, s.log[i]) :: s.log[i].id in t.handled)
    && (forall i | s.durable.value <= i < |s.log| && IsRequest(cfg, s.log[i]) ::
          var k := RequestKey(cfg, s.log[i]).value;
          cfg.replyOf(k).Some? ==> k in t.accepted && (OwnTxns(cfg, t) ==> |Acks(cfg, t, k)| == 1))
  }

  /** From the merged window to dispatch, with every request message on the list. */
  lemma PlanAll(cfg: Config, ok: Policy, fetch: Fetch, r: State, s: State) returns (t: State, todo: seq<Event>)
    requires Coherent(cfg) && Admits(ok, fetch) && Leads(cfg, ok, r, s) && Inv(cfg, s)
    requires s.process.Up? && !s.process.live && s.process.registry == EMPTY && s.process.phase.Merged?
    requires Clean(cfg, s.process.phase.window)
    ensures Leads(cfg, ok, r, t) && Inv(cfg, t) && Catching(cfg, t, {}, todo, s.process.phase.batch.upTo)
    ensures t.log == s.log && t.origin == s.origin && s.process.phase.batch.upTo <= |s.log|
    ensures forall i | s.process.token <= i < s.process.phase.batch.upTo && IsRequest(cfg, s.log[i]) :: s.log[i] in todo
  {
    var window, wanted := s.process.phase.window, (e: Event) => RequestKey(cfg, e).Some?;
    var b := s.process.phase.batch;
    todo := Keep(window, wanted);
    KeepMembers(window, wanted);
    MergeFacts(Keep(s.log[b.start..b.upTo], SyncVisible) +
               Keep(Reverse(s.log[s.process.token..b.start]), HistoryVisible));
    KeepDistinct(window, wanted);
    PlanCovers(cfg, s, todo);
    t := Take(cfg, ok, r, s, Plan(todo));
  }

  /** Commit and save at the end of the batch. */
  lemma CommitAndSave(cfg: Config, ok: Policy, fetch: Fetch, r: State, s: State, before: set<Key>, todo: seq<Event>,
                      end: nat) returns (t: State)
    requires Coherent(cfg) && Admits(ok, fetch) && Leads(cfg, ok, r, s)
    requires Inv(cfg, s) && Catching(cfg, s, before, todo, end)
    requires s.process.phase.next == |todo|
    ensures Leads(cfg, ok, r, t) && Inv(cfg, t) && t.durable == Some(end) && t.process.Up? && t.process.live
    ensures t.log == s.log && t.accepted == s.accepted && t.origin == s.origin
    ensures t.process.token == end && t.process.phase.AtSync? && t.process.executed == s.process.executed
  {
    var committed := Take(cfg, ok, r, s, Commit);
    t := Take(cfg, ok, r, committed, Save);
  }

  lemma EndIsCaughtUp(cfg: Config, s: State, done: State, t: State, todo: seq<Event>)
    requires s.durable.Some? && s.durable.value <= |s.log| && Catching(cfg, done, {}, todo, |s.log|)
    requires done.process.phase.next == |todo| && t.accepted == done.accepted && s.log <= t.log && s.origin == t.origin
    requires Inv(cfg, t) && t.durable == Some(|s.log|) && t.process.Up? && t.process.live
    requires forall i | s.durable.value <= i < |s.log| && IsRequest(cfg, s.log[i]) :: s.log[i] in todo
    ensures CaughtUp(cfg, s, t)
  {
    forall i | s.durable.value <= i < |s.log| && IsRequest(cfg, s.log[i])
      ensures var k := RequestKey(cfg, s.log[i]).value;
              cfg.replyOf(k).Some? ==> k in t.accepted && (OwnTxns(cfg, t) ==> |Acks(cfg, t, k)| == 1)
    {
      var j :| 0 <= j < |todo| && todo[j] == s.log[i];
      assert EventAnswered(cfg, done, {}, todo[j]);
      var k := RequestKey(cfg, s.log[i]).value;
      if cfg.replyOf(k).Some? && OwnTxns(cfg, t) { AcceptedHasAck(cfg, t, k); }
    }
    forall i | s.origin <= i < |s.log| && IsRequest(cfg, s.log[i]) ensures s.log[i].id in t.handled {
      assert t.log[i] == s.log[i];
    }
  }

  /** The window that the restarted agent reads. */
  function RestartWindow(s: State, start: nat): seq<Event>
    requires s.durable.Some? && s.durable.value <= start <= |s.log|
  {
    Window(s.log, s.durable.value, start, |s.log|)
  }

  /** A restart whose pagination collects and in whose window no text raises catches
      up. */
  lemma CatchUp(cfg: Config, ok: Policy, fetch: Fetch, r: State, s: State, start: nat) returns (t: State)
    requires Coherent(cfg) && Admits(ok, fetch) && Inv(cfg, s) && s.durable.Some? && s.durable.value <= start <= |s.log|
    requires Leads(cfg, ok, r, Restarted(s, start)) && Inv(cfg, Restarted(s, start))
    requires HonestServer(fetch, s.log, s.durable.value, start, cfg.pageLimit)
    requires PageLoop(fetch, s.durable, start, 0, cfg.maxPages, []).Collected? && Clean(cfg, RestartWindow(s, start))
    ensures Leads(cfg, ok, r, t) && Inv(cfg, t) && CaughtUp(cfg, s, t)
  {
    var merged := PageAll(cfg, ok, r, Restarted(s, start), fetch);
    var begun, todo := PlanAll(cfg, ok, fetch, r, merged);
    var done := DispatchAll(cfg, ok, fetch, r, begun, {}, todo, |s.log|);
    t := CommitAndSave(cfg, ok, fetch, r, done, {}, todo, |s.log|);
    EndIsCaughtUp(cfg, s, done, t, todo);
  }

  lemma WindowStable(log: seq<Event>, longer: seq<Event>, since: nat, start: nat, upTo: nat)
    requires since <= start <= upTo <= |log| && log <= longer
    ensures Window(longer, since, start, upTo) == Window(log, since, start, upTo)
  {
    assert longer[start..upTo] == log[start..upTo] && longer[since..start] == log[since..start];
  }

  /** The window that a process reads from its position. */
  function LiveWindow(s: State, start: nat): seq<Event>
    requires s.process.Up? && s.process.token <= start <= |s.log|
  {
    Window(s.log, s.process.token, start, |s.log|)
  }

  /** Somewhere on the way from its sync to a batch that cannot be committed. */
  ghost predicate OnTheWay(cfg: Config, s: State, start: nat, t: State)
    requires s.process.Up? && s.process.token <= start <= |s.log|
  {
    && s.log <= t.log && t.process.Up? && t.process.token == s.process.token && t.process.live == s.process.live
    && match t.process.phase
       case Paging(b, _, _, _, _) => b == Batch(start, |s.log|)
       case Merged(b, _) => b == Batch(start, |s.log|)
       case Dispatching(_, todo, _, _) => !Clean(cfg, todo)
       case _ => false
  }

  ghost predicate Toiling(cfg: Config, s: State, start: nat, t: State)
    requires s.process.Up? && s.process.token <= start <= |s.log|
  {
    Inv(cfg, t) && OnTheWay(cfg, s, start, t)
  }

  /** A list with a text that raises is never handled to its end. */
  lemma UncleanNotDone(cfg: Config, t: State)
    requires Inv(cfg, t) && t.process.Up? && t.process.phase.Dispatching? && !Clean(cfg, t.process.phase.todo)
    ensures !Enabled(cfg, t, Commit)
  {
    var p := t.process.phase;
    var e :| e in p.todo && Poison(cfg, e);
    var j :| 0 <= j < |p.todo| && p.todo[j] == e;
    assert e in t.log;
    assert e.id !in t.handled;
  }

  lemma UncleanMerged(cfg: Config, s: State, start: nat, t: State)
    requires s.process.Up? && s.process.token <= start <= |s.log| && Toiling(cfg, s, start, t)
    requires !Clean(cfg, LiveWindow(s, start)) && t.process.phase.Merged?
    ensures !Clean(cfg, t.process.phase.window)
  {
    WindowStable(s.log, t.log, s.process.token, start, |s.log|);
    assert PhaseInv(cfg, t);
  }

  lemma ToilingShape(cfg: Config, fetch: Fetch, s: State, start: nat, t: State, step: Step)
    requires s.process.Up? && s.process.token <= start <= |s.log| && OnTheWay(cfg, s, start, t)
    requires Enabled(cfg, t, step) && OneIncarnation(fetch)(t, step)
    requires !step.Commit? && (step.Plan? ==> !Clean(cfg, t.process.phase.window))
    ensures OnTheWay(cfg, s, start, Apply(cfg, t, step))
  {}

  lemma ToilingStep(cfg: Config, fetch: Fetch, s: State, start: nat, t: State, step: Step)
    requires Coherent(cfg) && s.process.Up? && s.process.token <= start <= |s.log| && Toiling(cfg, s, start, t)
    requires !Clean(cfg, LiveWindow(s, start)) && Enabled(cfg, t, step) && OneIncarnation(fetch)(t, step)
    ensures Toiling(cfg, s, start, Apply(cfg, t, step))
  {
    StepKeeps(cfg, t, step);
    if t.process.phase.Dispatching? { UncleanNotDone(cfg, t); }
    if t.process.phase.Merged? { UncleanMerged(cfg, s, start, t); }
    ToilingShape(cfg, fetch, s, start, t, step);
  }

  lemma {:induction false} KeptAlong(states: seq<State>, p: State -> bool, n: nat)
    requires n < |states| && p(states[0]) && forall i: nat | i + 1 < |states| && p(states[i]) :: p(states[i + 1])
    ensures p(states[n])
  {
    if n > 0 {
      KeptAlong(states, p, n - 1);
      assert p(states[(n - 1) + 1]);
    }
  }

  lemma ToilingNext(cfg: Config, fetch: Fetch, s: State, start: nat, states: seq<State>, steps: seq<Step>, i: nat)
    requires Coherent(cfg) && s.process.Up? && s.process.token <= start <= |s.log|
    requires Chain(cfg, OneIncarnation(fetch), states, steps) && i < |steps|
    requires Toiling(cfg, s, start, states[i]) && !Clean(cfg, LiveWindow(s, start))
    ensures Toiling(cfg, s, start, states[i + 1])
  {
    assert Next(cfg, OneIncarnation(fetch), states[i], steps[i], states[i + 1]);
    ToilingStep(cfg, fetch, s, start, states[i], steps[i]);
  }

  lemma ToilingForever(cfg: Config, fetch: Fetch, s: State, start: nat, states: seq<State>, steps: seq<Step>, n: nat)
    requires Coherent(cfg) && s.process.Up? && s.process.token <= start <= |s.log|
    requires Chain(cfg, OneIncarnation(fetch), states, steps) && n < |states|
    requires Toiling(cfg, s, start, states[0]) && !Clean(cfg, LiveWindow(s, start))
    ensures Toiling(cfg, s, start, states[n])
  {
    var p := (t: State) => Toiling(cfg, s, start, t);
    forall i: nat | i + 1 < |states| && p(states[i]) ensures p(states[i + 1]) {
      ToilingNext(cfg, fetch, s, start, states, steps, i);
    }
    KeptAlong(states, p, n);
  }

  lemma NoWayOn(cfg: Config, fetch: Fetch, s: State, start: nat, t: State)
    requires Coherent(cfg) && s.durable.Some? && s.durable.value <= start <= |s.log| && Inv(cfg, Restarted(s, start))
    requires !PageLoop(fetch, s.durable, start, 0, cfg.maxPages, []).Collected? || !Clean(cfg, RestartWindow(s, start))
    requires Leads(cfg, OneIncarnation(fetch), Restarted(s, start), t)
    ensures !CaughtUp(cfg, s, t)
  {
    var ts, more :| Chain(cfg, OneIncarnation(fetch), ts, more) && ts[0] == Restarted(s, start) && ts[|ts| - 1] == t;
    if Clean(cfg, RestartWindow(s, start)) {
      VainForever(cfg, fetch, ts, more, |ts| - 1);
    } else {
      ToilingForever(cfg, fetch, Restarted(s, start), start, ts, more, |ts| - 1);
    }
  }

  /** From every state a run can reach and wherever the server truncates the answer to
      the restarted agent's sync: the incarnation can catch up if and only if
      paginating that server's history collects the gap and no foreign text in the
      window makes reading it raise. For full pages the first is the case exactly for
      at most `pageLimit * maxPages` events. */
  lemma RecoverableIff(cfg: Config, states: seq<State>, steps: seq<Step>, n: nat, start: nat, fetch: Fetch)
    requires Coherent(cfg) && Execution(cfg, states, steps) && n < |states|
    requires var s := states[n];
             && s.durable.Some? && s.durable.value <= start <= |s.log|
             && HonestServer(fetch, s.log, s.durable.value, start, cfg.pageLimit)
    ensures var s := states[n];
            var possible := exists t ::
                              Leads(cfg, OneIncarnation(fetch), Restarted(s, start), t) && CaughtUp(cfg, s, t);
            var clean := Clean(cfg, RestartWindow(s, start));
            && (possible <==> PageLoop(fetch, s.durable, start, 0, cfg.maxPages, []).Collected? && clean)
            && (FullPages(fetch, s.durable.value, start, cfg.pageLimit) && cfg.pageLimit >= 1 && cfg.maxPages >= 1 ==>
                  (possible <==> start - s.durable.value <= cfg.pageLimit * cfg.maxPages && clean))
  {
    var s, ok := states[n], OneIncarnation(fetch);
    Reachable(cfg, states, steps, n);
    RestartSteps(cfg, Anything(), s, start);
    var begun := Restarted(s, start);
    if PageLoop(fetch, s.durable, start, 0, cfg.maxPages, []).Collected? && Clean(cfg, RestartWindow(s, start)) {
      LeadsHere(cfg, ok, begun);
      var t := CatchUp(cfg, ok, fetch, begun, s, start);
    } else {
      forall t | Leads(cfg, ok, begun, t) ensures !CaughtUp(cfg, s, t) { NoWayOn(cfg, fetch, s, start, t); }
    }
    PageLoopFromStart(fetch, s.log, s.durable, start, cfg.pageLimit, cfg.maxPages);
  }

  // -------------------------------------------------------------- the live loop

  /** The live process again at its sync, its batch given up, and the server's answer
      truncated at `start`. */
  function Retried(s: State, start: nat): State
    requires s.process.Up? && start <= |s.log|
  {
    WithPhase(s, Paging(Batch(start, |s.log|), Keep(s.log[start..|s.log|], SyncVisible), start, 0, []))
  }

  /** A live process that is not in the middle of a send or a commit can fail, whatever
      it was doing, and try the same window again. */
  lemma RetrySteps(cfg: Config, ok: Policy, s: State, start: nat)
    requires Coherent(cfg) && Inv(cfg, s) && Interruptible(s) && s.process.token <= start <= |s.log|
    requires forall r: State :: ok(r, GiveUp)
    requires forall r: State | r.log == s.log :: ok(r, SyncOk(start, |s.log|, true))
    ensures Leads(cfg, ok, s, Retried(s, start)) && Inv(cfg, Retried(s, start))
  {
    LeadsHere(cfg, ok, s);
    var again := Take(cfg, ok, s, s, GiveUp);
    var paging := Take(cfg, ok, s, again, SyncOk(start, |s.log|, true));
  }

  predicate Interruptible(s: State) {
    && s.process.Up? && s.process.live && !s.process.phase.Saving?
    && (s.process.phase.Dispatching? ==> s.process.phase.handling.Idle?)
  }

  /** The batch up to the old end of the room committed and saved by the same process,
      everything in it handled and nothing forgotten. */
  ghost predicate BatchDone(cfg: Config, s: State, t: State)
    requires s.process.Up?
  {
    && s.log <= t.log && t.process.Up? && t.process.live && t.process.phase.AtSync?
    && t.durable == Some(|s.log|) && t.process.token == |s.log| && s.process.executed <= t.process.executed
    && (forall i | s.origin <= i < |s.log| && IsRequest(cfg, s.log[i]) :: s.log[i].id in t.handled)
  }

  lemma LiveCatchUp(cfg: Config, fetch: Fetch, s: State, start: nat) returns (t: State)
    requires Coherent(cfg) && Inv(cfg, s) && Interruptible(s) && s.process.token <= start <= |s.log|
    requires Inv(cfg, Retried(s, start)) && HonestServer(fetch, s.log, s.process.token, start, cfg.pageLimit)
    requires PageLoop(fetch, Some(s.process.token), start, 0, cfg.maxPages, []).Collected?
    requires Clean(cfg, LiveWindow(s, start))
    ensures Leads(cfg, OneIncarnation(fetch), Retried(s, start), t) && BatchDone(cfg, s, t)
  {
    var ok, r := OneIncarnation(fetch), Retried(s, start);
    var before := s.process.registry.logical;
    LeadsHere(cfg, ok, r);
    var merged := PageAll(cfg, ok, r, r, fetch);
    var todo := merged.process.phase.window;
    var begun := Take(cfg, ok, r, merged, Plan(todo));
    var done := DispatchAll(cfg, ok, fetch, r, begun, before, todo, |s.log|);
    t := CommitAndSave(cfg, ok, fetch, r, done, before, todo, |s.log|);
    AllHandled(cfg, s, t);
  }

  lemma AllHandled(cfg: Config, s: State, t: State)
    requires Inv(cfg, t) && s.log <= t.log && s.origin == t.origin && t.durable == Some(|s.log|) && t.process.Up?
    ensures forall i | s.origin <= i < |s.log| && IsRequest(cfg, s.log[i]) :: s.log[i].id in t.handled
  {
    forall i | s.origin <= i < |s.log| && IsRequest(cfg, s.log[i]) ensures s.log[i].id in t.handled {
      assert t.log[i] == s.log[i];
    }
  }

  lemma NoBatchDone(cfg: Config, fetch: Fetch, s: State, start: nat, t: State)
    requires Coherent(cfg) && s.process.Up? && s.process.token <= start <= |s.log| && Inv(cfg, Retried(s, start))
    requires !PageLoop(fetch, Some(s.process.token), start, 0, cfg.maxPages, []).Collected? ||
             !Clean(cfg, LiveWindow(s, start))
    requires Leads(cfg, OneIncarnation(fetch), Retried(s, start), t)
    ensures !BatchDone(cfg, s, t)
  {
    var ts, more :| Chain(cfg, OneIncarnation(fetch), ts, more) && ts[0] == Retried(s, start) && ts[|ts| - 1] == t;
    if Clean(cfg, LiveWindow(s, start)) {
      VainForever(cfg, fetch, ts, more, |ts| - 1);
    } else {
      ToilingForever(cfg, fetch, s, start, ts, more, |ts| - 1);
    }
  }

  /** The live loop: from every reachable state of a live agent that is not in the
      middle of a send or a commit, and wherever the server truncates, failing and
      trying again can complete the batch up to the end of the room, in the same process
      and without a restart, if and only if pagination collects the gap since the
      committed position and no foreign text of the window raises. */
  lemma LiveRetryIff(cfg: Config, states: seq<State>, steps: seq<Step>, n: nat, start: nat, fetch: Fetch)
    requires Coherent(cfg) && Execution(cfg, states, steps) && n < |states| && Interruptible(states[n])
    requires var s := states[n];
             && s.process.token <= start <= |s.log|
             && HonestServer(fetch, s.log, s.process.token, start, cfg.pageLimit)
    ensures Leads(cfg, Anything(), states[n], Retried(states[n], start))
    ensures var s := states[n];
            (exists t :: Leads(cfg, OneIncarnation(fetch), Retried(s, start), t) && BatchDone(cfg, s, t)) <==>
            && PageLoop(fetch, Some(s.process.token), start, 0, cfg.maxPages, []).Collected?
            && Clean(cfg, LiveWindow(s, start))
  {
    var s, ok := states[n], OneIncarnation(fetch);
    Reachable(cfg, states, steps, n);
    RetrySteps(cfg, Anything(), s, start);
    if
      && PageLoop(fetch, Some(s.process.token), start, 0, cfg.maxPages, []).Collected?
      && Clean(cfg, LiveWindow(s, start))
    {
      var t := LiveCatchUp(cfg, fetch, s, start);
    } else {
      forall t | Leads(cfg, ok, Retried(s, start), t) ensures !BatchDone(cfg, s, t) {
        NoBatchDone(cfg, fetch, s, start, t);
      }
    }
  }

  // ------------------------------------------------------------------- stuck

  /** More events than a truncated answer and all pages of history can show. */
  predicate TooFar(cfg: Config, limit: nat, s: State) {
    |s.log| - Committed(s) > Reach(cfg.pageLimit, cfg.maxPages) + limit
  }

  /** The agent is behind by too much, and whatever it is doing will not help. */
  ghost predicate Blocked(cfg: Config, limit: nat, s: State) {
    && s.durable.Some? && TooFar(cfg, limit, s) && !s.process.Primed?
    && (s.process.Up? ==>
          match s.process.phase
          case AtSync => true
          case Saving => true
          case Paging(b, _, from, pages, _) =>
            && b.start - s.process.token > Reach(cfg.pageLimit, cfg.maxPages)
            && pages <= cfg.maxPages && b.start - from <= Reach(cfg.pageLimit, pages)
          case _ => false)
  }

  lemma {:induction false} ReachGrows(limit: nat, m: nat, n: nat)
    requires m <= n
    ensures Reach(limit, m) <= Reach(limit, n)
  {
    if m < n { ReachGrows(limit, m, n - 1); }
  }

  ghost predicate NothingDone(s: State, t: State) {
    && t.handled == s.handled && t.wire == s.wire && (s.wire == {} ==> t.accepted == s.accepted)
    && Committed(t) <= Committed(s)
  }

  lemma BlockedPage(cfg: Config, limit: nat, s: State, reply: PageReply)
    requires Blocked(cfg, limit, s) && Enabled(cfg, s, PageOk(reply))
    ensures Blocked(cfg, limit, AfterPage(s, reply)) && NothingDone(s, AfterPage(s, reply))
  {
    var p := s.process.phase;
    assert |reply.chunk| <= cfg.pageLimit;
    assert Reach(cfg.pageLimit, p.pages + 1) == Reach(cfg.pageLimit, p.pages) + cfg.pageLimit;
    ReachGrows(cfg.pageLimit, p.pages + 1, cfg.maxPages);
  }

  /** No step unblocks it: not more pages, not another sync, not a restart. */
  lemma BlockedStep(cfg: Config, limit: nat, s: State, step: Step)
    requires PositionInv(cfg, s) && Blocked(cfg, limit, s) && Enabled(cfg, s, step) && Truncates(limit)(s, step)
    ensures Blocked(cfg, limit, Apply(cfg, s, step)) && NothingDone(s, Apply(cfg, s, step))
  {
    if step.PageOk? { BlockedPage(cfg, limit, s, step.reply); }
  }

  lemma {:induction false} BlockedForever(cfg: Config, limit: nat, states: seq<State>, steps: seq<Step>, n: nat)
    requires Coherent(cfg) && Chain(cfg, Truncates(limit), states, steps) && n < |states|
    requires Inv(cfg, states[0]) && Blocked(cfg, limit, states[0])
    ensures Inv(cfg, states[n]) && Blocked(cfg, limit, states[n]) && NothingDone(states[0], states[n])
  {
    if n > 0 {
      BlockedForever(cfg, limit, states, steps, n - 1);
      assert Next(cfg, Truncates(limit), states[n - 1], steps[n - 1], states[(n - 1) + 1]);
      BlockedStep(cfg, limit, states[n - 1], steps[n - 1]);
      StepKeeps(cfg, states[n - 1], steps[n - 1]);
    }
  }

  /** Behind by more than a truncated answer and all pages can show, the agent never
      handles anything again, live or restarted as often as one likes: neither its
      position nor the set of handled events ever moves. */
  lemma StuckForever(cfg: Config, limit: nat, s: State, t: State)
    requires Coherent(cfg) && Inv(cfg, s) && Blocked(cfg, limit, s) && Leads(cfg, Truncates(limit), s, t)
    ensures NothingDone(s, t) && t.durable.Some? && t.durable.value <= Committed(s) < |s.log| && Inv(cfg, t)
  {
    var states, steps :| Chain(cfg, Truncates(limit), states, steps) && states[0] == s && states[|states| - 1] == t;
    BlockedForever(cfg, limit, states, steps, |states| - 1);
  }

  /** A homeserver that always fills its pages. */
  function FillsPages(log: seq<Event>, lo: nat, limit: nat): Fetch {
    (n: nat, from: nat) =>
      if !(lo <= from <= |log|) then PageFailed
      else
        var k := if from - lo < limit then from - lo else limit;
        Page(Reverse(log[from - k..from]), Some(from - k))
  }

  // ------------------------------------------------------- texts that raise

  /** A text that raises stands so close to the end of the room that every sync able to
      make progress shows it, and what the agent is doing will run into it. */
  ghost predicate Facing(cfg: Config, s: State, i: nat) {
    && s.durable.Some? && !s.process.Primed? && i < |s.log| && Poison(cfg, s.log[i])
    && Committed(s) + Reach(cfg.pageLimit, cfg.maxPages) <= i
    && (s.process.Up? ==>
          match s.process.phase
          case AtSync => true
          case Saving => true
          case Paging(b, _, from, pages, _) =>
            b.upTo > i && pages <= cfg.maxPages && b.start - from <= Reach(cfg.pageLimit, pages)
          case Merged(_, window) => s.log[i] in window
          case Dispatching(_, todo, _, _) => s.log[i] in todo)
  }

  /** The window of a batch that reaches past such a text holds it. */
  lemma WindowShows(cfg: Config, s: State, i: nat)
    requires Inv(cfg, s) && s.process.Up? && s.process.phase.Merged? && i < |s.log| && Poison(cfg, s.log[i])
    requires s.process.phase.batch.start <= i < s.process.phase.batch.upTo
    ensures s.log[i] in s.process.phase.window
  {
    var b := s.process.phase.batch;
    WindowMembers(s.log, s.process.token, b.start, b.upTo);
    assert s.log[b.start..b.upTo][i - b.start] == s.log[i];
  }

  lemma PageReaches(cfg: Config, s: State, reply: PageReply)
    requires s.process.Up? && s.process.phase.Paging? && Enabled(cfg, s, PageOk(reply))
    requires s.process.phase.batch.start - s.process.phase.from <= Reach(cfg.pageLimit, s.process.phase.pages)
    ensures var p, next := s.process.phase, AfterPage(s, reply).process.phase;
            && (next.Paging? || next.Merged?) && next.batch == p.batch
            && (next.Paging? ==>
                  next.pages == p.pages + 1 && p.batch.start - next.from <= Reach(cfg.pageLimit, next.pages))
            && (next.Merged? ==> p.batch.start - s.process.token <= Reach(cfg.pageLimit, cfg.maxPages))
  {
    var p := s.process.phase;
    assert |reply.chunk| <= cfg.pageLimit;
    assert Reach(cfg.pageLimit, p.pages + 1) == Reach(cfg.pageLimit, p.pages) + cfg.pageLimit;
    ReachGrows(cfg.pageLimit, p.pages + 1, cfg.maxPages);
  }

  lemma FacingPage(cfg: Config, s: State, i: nat, reply: PageReply)
    requires Facing(cfg, s, i) && Enabled(cfg, s, PageOk(reply)) && Inv(cfg, AfterPage(s, reply))
    ensures Facing(cfg, AfterPage(s, reply), i)
  {
    PageReaches(cfg, s, reply);
    if AfterPage(s, reply).process.phase.Merged? { WindowShows(cfg, AfterPage(s, reply), i); }
  }

  lemma FacingSync(cfg: Config, s: State, i: nat, start: nat, upTo: nat, limited: bool)
    requires Facing(cfg, s, i) && upTo == |s.log| && Enabled(cfg, s, SyncOk(start, upTo, limited))
    requires Inv(cfg, Apply(cfg, s, SyncOk(start, upTo, limited)))
    ensures Facing(cfg, Apply(cfg, s, SyncOk(start, upTo, limited)), i)
  {
    var t := Apply(cfg, s, SyncOk(start, upTo, limited));
    if t.process.phase.Merged? { WindowShows(cfg, t, i); }
  }

  /** The batch cannot be committed: the text is on the list and never handled. */
  lemma FacingCannotCommit(cfg: Config, s: State, i: nat)
    requires Inv(cfg, s) && Facing(cfg, s, i)
    ensures !Enabled(cfg, s, Commit)
  {
    if s.process.Up? && s.process.phase.Dispatching? {
      var p := s.process.phase;
      var j :| 0 <= j < |p.todo| && p.todo[j] == s.log[i];
      assert s.log[i] in s.log;
      assert s.log[i].id !in s.handled;
    }
  }

  lemma FacingOther(cfg: Config, s: State, i: nat, step: Step)
    requires PositionInv(cfg, s) && Facing(cfg, s, i) && Enabled(cfg, s, step)
    requires !step.PageOk? && !step.SyncOk? && !step.Commit?
    ensures Facing(cfg, Apply(cfg, s, step), i)
  {}

  lemma FacingStep(cfg: Config, limit: nat, s: State, i: nat, step: Step)
    requires Coherent(cfg) && Inv(cfg, s) && Facing(cfg, s, i) && Enabled(cfg, s, step) && Truncates(limit)(s, step)
    ensures Inv(cfg, Apply(cfg, s, step)) && Facing(cfg, Apply(cfg, s, step), i)
  {
    StepKeeps(cfg, s, step);
    if step.PageOk? {
      FacingPage(cfg, s, i, step.reply);
    } else if step.SyncOk? {
      FacingSync(cfg, s, i, step.start, step.upTo, step.limited);
    } else {
      FacingCannotCommit(cfg, s, i);
      FacingOther(cfg, s, i, step);
    }
  }

  lemma {:induction false} FacingForever(cfg: Config, limit: nat, states: seq<State>, steps: seq<Step>, i: nat, n: nat)
    requires Coherent(cfg) && Chain(cfg, Truncates(limit), states, steps) && n < |states|
    requires Inv(cfg, states[0]) && Facing(cfg, states[0], i)
    ensures Inv(cfg, states[n]) && Facing(cfg, states[n], i)
  {
    if n > 0 {
      FacingForever(cfg, limit, states, steps, i, n - 1);
      assert Next(cfg, Truncates(limit), states[n - 1], steps[n - 1], states[(n - 1) + 1]);
      FacingStep(cfg, limit, states[n - 1], i, steps[n - 1]);
    }
  }

  lemma FacingStays(cfg: Config, limit: nat, s: State, t: State, i: nat)
    requires Coherent(cfg) && Inv(cfg, s) && Facing(cfg, s, i) && Leads(cfg, Truncates(limit), s, t)
    ensures t.durable.Some? && t.durable.value <= Committed(t) <= i
  {
    var states, steps :| Chain(cfg, Truncates(limit), states, steps) && states[0] == s && states[|states| - 1] == t;
    FacingForever(cfg, limit, states, steps, i, |states| - 1);
  }

  lemma {:induction false} ChainGrows(cfg: Config, ok: Policy, states: seq<State>, steps: seq<Step>, n: nat)
    requires Coherent(cfg) && Chain(cfg, ok, states, steps) && n < |states| && Inv(cfg, states[0])
    ensures Inv(cfg, states[n]) && Later(states[0], states[n])
  {
    if n > 0 {
      ChainGrows(cfg, ok, states, steps, n - 1);
      assert Next(cfg, ok, states[n - 1], steps[n - 1], states[(n - 1) + 1]);
      StepForward(cfg, states[n - 1], steps[n - 1]);
      StepKeeps(cfg, states[n - 1], steps[n - 1]);
      LaterTransitive(states[0], states[n - 1], states[n]);
    }
  }

  /** Behind a foreign message that raises, no continuation whatever gets on. */
  lemma PoisonForever(cfg: Config, ok: Policy, s: State, t: State, i: nat)
    requires Coherent(cfg) && Inv(cfg, s) && s.durable.Some? && Leads(cfg, ok, s, t)
    requires s.origin <= i < |s.log| && s.log[i].isMessage && Poison(cfg, s.log[i])
    ensures t.durable.Some? && t.durable.value <= Committed(t) <= i
  {
    var states, steps :| Chain(cfg, ok, states, steps) && states[0] == s && states[|states| - 1] == t;
    ChainGrows(cfg, ok, states, steps, |states| - 1);
    assert t.log[i] == s.log[i];
    PoisonAhead(cfg, t, i);
  }

  // -------------------------------------------------------- the exact condition

  /** The earliest event that a sync must show for pagination to collect the rest. */
  function LatestStart(cfg: Config, s: State): nat
    requires s.durable.Some? && s.durable.value <= |s.log|
  {
    var reach := Reach(cfg.pageLimit, cfg.maxPages);
    if |s.log| - s.durable.value <= reach then |s.log| else s.durable.value + reach
  }

  lemma WherePoison(cfg: Config, s: State, start: nat) returns (i: nat)
    requires s.durable.Some? && s.durable.value <= start <= |s.log| && DistinctIds(s.log)
    requires !Clean(cfg, RestartWindow(s, start))
    ensures s.durable.value <= i < |s.log| && Poison(cfg, s.log[i]) && (i < start ==> s.log[i].isMessage)
  {
    var e :| e in RestartWindow(s, start) && Poison(cfg, e);
    WindowMembers(s.log, s.durable.value, start, |s.log|);
    if e in s.log[start..|s.log|] {
      i :| start <= i < |s.log| && s.log[i] == e;
    } else {
      i :| s.durable.value <= i < start && s.log[i] == e;
    }
  }

  lemma PoisonBlocks(cfg: Config, limit: nat, s: State, t: State)
    requires Coherent(cfg) && Inv(cfg, s) && s.durable.Some? && s.process.Down? && Leads(cfg, Truncates(limit), s, t)
    requires s.durable.value <= |s.log| && !Clean(cfg, RestartWindow(s, LatestStart(cfg, s)))
    ensures t.durable.Some? && t.durable.value < |s.log|
  {
    var i := WherePoison(cfg, s, LatestStart(cfg, s));
    if i < LatestStart(cfg, s) {
      PoisonForever(cfg, Truncates(limit), s, t, i);
    } else {
      FacingStays(cfg, limit, s, t, i);
    }
  }

  /** An agent that is down can ever catch up, under syncs truncated to the last
      `limit` events, if and only if its checkpoint is at most that far behind plus
      what the page bound covers, and no foreign text raises among those that a sync
      with the shortest possible answer reads. */
  lemma RecoverableWithinIff(cfg: Config, states: seq<State>, steps: seq<Step>, n: nat, limit: nat)
    requires Coherent(cfg) && Execution(cfg, states, steps) && n < |states|
    requires states[n].durable.Some? && states[n].process.Down? && cfg.pageLimit >= 1 && cfg.maxPages >= 1
    ensures states[n].durable.value <= |states[n].log|
    ensures var s := states[n];
            (exists t :: Leads(cfg, Truncates(limit), s, t) && CaughtUp(cfg, s, t)) <==>
            && |s.log| - s.durable.value <= cfg.pageLimit * cfg.maxPages + limit
            && Clean(cfg, RestartWindow(s, LatestStart(cfg, s)))
  {
    var s, ok := states[n], Truncates(limit);
    Reachable(cfg, states, steps, n);
    ReachIsProduct(cfg.pageLimit, cfg.maxPages);
    if |s.log| - s.durable.value > cfg.pageLimit * cfg.maxPages + limit {
      forall t | Leads(cfg, ok, s, t) ensures !CaughtUp(cfg, s, t) { StuckForever(cfg, limit, s, t); }
    } else if Clean(cfg, RestartWindow(s, LatestStart(cfg, s))) {
      var t := CatchUpWithin(cfg, s, limit);
    } else {
      forall t | Leads(cfg, ok, s, t) ensures !CaughtUp(cfg, s, t) { PoisonBlocks(cfg, limit, s, t); }
    }
  }

  lemma FillsPagesHonestly(log: seq<Event>, lo: nat, start: nat, limit: nat)
    requires lo <= start <= |log| && limit >= 1
    ensures HonestServer(FillsPages(log, lo, limit), log, lo, start, limit)
    ensures FullPages(FillsPages(log, lo, limit), lo, start, limit)
  {}

  lemma CatchUpWithin(cfg: Config, s: State, limit: nat) returns (t: State)
    requires Coherent(cfg) && Inv(cfg, s) && s.durable.Some? && cfg.pageLimit >= 1 && cfg.maxPages >= 1
    requires s.durable.value <= |s.log| && Clean(cfg, RestartWindow(s, LatestStart(cfg, s)))
    requires |s.log| - s.durable.value <= cfg.pageLimit * cfg.maxPages + limit
    ensures Leads(cfg, Truncates(limit), s, t) && Inv(cfg, t) && CaughtUp(cfg, s, t)
  {
    ReachIsProduct(cfg.pageLimit, cfg.maxPages);
    var start := LatestStart(cfg, s);
    var fetch := FillsPages(s.log, s.durable.value, cfg.pageLimit);
    FillsPagesHonestly(s.log, s.durable.value, start, cfg.pageLimit);
    GapCollected(cfg, fetch, s, start);
    t := CatchUpTruncated(cfg, fetch, s, start, limit);
  }

  lemma GapCollected(cfg: Config, fetch: Fetch, s: State, start: nat)
    requires s.durable.Some? && s.durable.value <= start <= |s.log| && cfg.pageLimit >= 1 && cfg.maxPages >= 1
    requires HonestServer(fetch, s.log, s.durable.value, start, cfg.pageLimit)
    requires FullPages(fetch, s.durable.value, start, cfg.pageLimit)
    requires start == s.durable.value || start - s.durable.value <= cfg.pageLimit * cfg.maxPages
    ensures PageLoop(fetch, s.durable, start, 0, cfg.maxPages, []).Collected?
  {
    assert cfg.pageLimit * cfg.maxPages >= 0;
    PageLoopFromStart(fetch, s.log, s.durable, start, cfg.pageLimit, cfg.maxPages);
  }

  lemma CatchUpTruncated(cfg: Config, fetch: Fetch, s: State, start: nat, limit: nat) returns (t: State)
    requires Coherent(cfg) && Inv(cfg, s) && s.durable.Some? && s.durable.value <= start <= |s.log| <= start + limit
    requires HonestServer(fetch, s.log, s.durable.value, start, cfg.pageLimit)
    requires PageLoop(fetch, s.durable, start, 0, cfg.maxPages, []).Collected? && Clean(cfg, RestartWindow(s, start))
    ensures Leads(cfg, Truncates(limit), s, t) && Inv(cfg, t) && CaughtUp(cfg, s, t)
  {
    RestartSteps(cfg, Truncates(limit), s, start);
    t := CatchUp(cfg, Truncates(limit), fetch, s, s, start);
  }
}
