/** Every step keeps the invariant of the agent system. */
module AgentInvariant {
  import opened Options
  import opened Message
  import opened Transport
  import opened Dedup
  import opened AgentSystem

  // ------------------------------------------------ steps that grow the log

  /** Nothing but the server's side changed. */
  ghost predicate ServerOnly(s: State, t: State) {
    && s.log <= t.log && DistinctIds(t.log) && s.accepted <= t.accepted
    && s.durable == t.durable && s.process == t.process && s.origin == t.origin
    && s.handled == t.handled && s.wire == t.wire && s.failed == t.failed
  }

  lemma SliceStable(log: seq<Event>, longer: seq<Event>, a: nat, b: nat)
    requires log <= longer && a <= b <= |log|
    ensures longer[a..b] == log[a..b]
  {}

  lemma RequestedStable(cfg: Config, log: seq<Event>, longer: seq<Event>, k: Key)
    requires log <= longer && Requested(cfg, log, k)
    ensures Requested(cfg, longer, k)
  {
    var j :| 0 <= j < |log| && RequestKey(cfg, log[j]) == Some(k);
    assert longer[j] == log[j];
  }

  lemma IdsStable(log: seq<Event>, longer: seq<Event>)
    requires log <= longer
    ensures Ids(log) <= Ids(longer)
  {
    forall e | e in log ensures e in longer {
      var i :| 0 <= i < |log| && log[i] == e;
      assert longer[i] == e;
    }
  }

  /** An event of the longer log whose id the shorter one has is in the shorter. */
  lemma OldEvent(log: seq<Event>, longer: seq<Event>, e: Event)
    requires log <= longer && DistinctIds(longer) && e in longer && e.id in Ids(log)
    ensures e in log
  {
    var d :| d in log && d.id == e.id;
    var i :| 0 <= i < |log| && log[i] == d;
    var j :| 0 <= j < |longer| && longer[j] == e;
    assert longer[i] == d;
    assert i == j;
  }

  lemma PositionStable(cfg: Config, s: State, t: State)
    requires ServerOnly(s, t) && PositionInv(cfg, s)
    ensures PositionInv(cfg, t)
  {
    assert Committed(t) == Committed(s);
    assert forall i | 0 <= i < |s.log| :: t.log[i] == s.log[i];
  }

  lemma PhaseStable(cfg: Config, s: State, t: State)
    requires ServerOnly(s, t) && PhaseInv(cfg, s)
    ensures PhaseInv(cfg, t)
  {
    assert forall i | 0 <= i < |s.log| :: t.log[i] == s.log[i];
    if s.process.Up? {
      match s.process.phase
      case AtSync =>
      case Saving =>
      case Paging(b, direct, from, pages, history) =>
        SliceStable(s.log, t.log, b.start, b.upTo);
        SliceStable(s.log, t.log, from, b.start);
      case Merged(b, window) =>
        SliceStable(s.log, t.log, b.start, b.upTo);
        SliceStable(s.log, t.log, s.process.token, b.start);
      case Dispatching(b, todo, next, handling) =>
        forall e | e in todo ensures e in t.log {
          var i :| 0 <= i < |s.log| && s.log[i] == e;
          assert t.log[i] == e;
        }
    }
  }

  lemma SettledStable(cfg: Config, s: State, t: State)
    requires ServerOnly(s, t) && SettledInv(cfg, s)
    ensures SettledInv(cfg, t)
  {
    IdsStable(s.log, t.log);
    forall e | e in t.log && e.id in t.handled && RequestKey(cfg, e).Some?
      ensures Settled(cfg, t, RequestKey(cfg, e).value)
    {
      OldEvent(s.log, t.log, e);
    }
  }

  lemma RegistryStable(cfg: Config, s: State, t: State)
    requires ServerOnly(s, t) && RegistryInv(cfg, s)
    ensures RegistryInv(cfg, t)
  {
    if s.process.Up? {
      IdsStable(s.log, t.log);
      forall k | k in t.process.registry.logical ensures Settled(cfg, t, k) || InSend(t, k) {
        assert Settled(cfg, s, k) || InSend(s, k);
      }
      forall e | e in t.log && e.id in t.process.registry.events
        ensures RequestKey(cfg, e).Some? && RequestKey(cfg, e).value in t.process.registry.logical
      {
        OldEvent(s.log, t.log, e);
      }
    }
  }

  lemma AgentStable(cfg: Config, s: State, t: State)
    requires ServerOnly(s, t) && Inv(cfg, s)
    ensures PositionInv(cfg, t) && PhaseInv(cfg, t) && SettledInv(cfg, t) && RegistryInv(cfg, t)
  {
    PositionStable(cfg, s, t);
    PhaseStable(cfg, s, t);
    SettledStable(cfg, s, t);
    RegistryStable(cfg, s, t);
  }

  lemma FreshKeepsDistinct(log: seq<Event>, e: Event)
    requires DistinctIds(log) && Fresh(log, e.id)
    ensures DistinctIds(log + [e])
  {
    DistinctAppend(log, e);
  }

  lemma WireStable(cfg: Config, log: seq<Event>, longer: seq<Event>, wire: set<Key>)
    requires WireInv(cfg, log, wire) && log <= longer
    ensures WireInv(cfg, longer, wire)
  {
    forall k | k in wire ensures Requested(cfg, longer, k) {
      RequestedStable(cfg, log, longer, k);
    }
  }

  ghost predicate Extends(log: seq<Event>, txns: map<string, nat>, log': seq<Event>, txns': map<string, nat>) {
    log <= log' && forall t | t in txns :: t in txns' && txns'[t] == txns[t]
  }

  lemma TxnsStable(cfg: Config, log: seq<Event>, txns: map<string, nat>, accepted: set<Key>,
                   log': seq<Event>, txns': map<string, nat>, accepted': set<Key>)
    requires Recorded(cfg, log, txns, accepted) && Extends(log, txns, log', txns') && accepted <= accepted'
    ensures forall t | t in txns :: TxnEntry(cfg, log', txns', accepted', t)
    ensures forall k | k in accepted :: cfg.txnOf(k) in txns' && Requested(cfg, log', k)
  {
    forall t | t in txns ensures TxnEntry(cfg, log', txns', accepted', t) {
      assert TxnEntry(cfg, log, txns, accepted, t);
      SliceStable(log, log', 0, txns[t]);
    }
    forall k | k in accepted ensures Requested(cfg, log', k) {
      RequestedStable(cfg, log, log', k);
    }
  }

  lemma AckStable(cfg: Config, log: seq<Event>, txns: map<string, nat>, log': seq<Event>, txns': map<string, nat>,
                  i: nat)
    requires i < |log| && AckEntry(cfg, log, txns, i) && Extends(log, txns, log', txns')
    ensures AckEntry(cfg, log', txns', i)
  {
    assert log'[i] == log[i];
  }

  lemma AppendKeeps(cfg: Config, s: State, e: Event)
    requires Inv(cfg, s) && Enabled(cfg, s, Append(e))
    ensures Inv(cfg, Apply(cfg, s, Append(e)))
  {
    var t := Apply(cfg, s, Append(e));
    FreshKeepsDistinct(s.log, e);
    AgentStable(cfg, s, t);
    RecordedAppend(cfg, s.log, s.txns, s.accepted, e);
    WireStable(cfg, s.log, t.log, s.wire);
  }

  lemma RecordedAppend(cfg: Config, log: seq<Event>, txns: map<string, nat>, accepted: set<Key>, e: Event)
    requires Recorded(cfg, log, txns, accepted) && Fresh(log, e.id) && AckOf(cfg, e).None?
    ensures Recorded(cfg, log + [e], txns, accepted)
  {
    FreshKeepsDistinct(log, e);
    TxnsStable(cfg, log, txns, accepted, log + [e], txns, accepted);
    forall i: nat | i < |log + [e]| ensures AckEntry(cfg, log + [e], txns, i) {
      if i < |log| {
        AckStable(cfg, log, txns, log + [e], txns, i);
      } else {
        assert (log + [e])[i] == e;
      }
    }
  }

  lemma AckAppended(cfg: Config, s: State, key: Key, id: EventId)
    requires Coherent(cfg) && ServerInv(cfg, s) && Enabled(cfg, s, Accept(key, id))
    ensures AckOf(cfg, Event(id, cfg.me, true, cfg.replyOf(key))) == Some(key)
  {
    var j :| 0 <= j < |s.log| && RequestKey(cfg, s.log[j]) == Some(key);
    var b := s.log[j].body.value;
    assert cfg.inbound(b) == Some(key);
  }

  lemma AcceptServer(cfg: Config, s: State, key: Key, id: EventId)
    requires Coherent(cfg) && ServerInv(cfg, s) && Enabled(cfg, s, Accept(key, id)) && cfg.txnOf(key) !in s.txns
    ensures ServerInv(cfg, AfterAccept(cfg, s, key, id))
  {
    var ack := Event(id, cfg.me, true, cfg.replyOf(key));
    AckAppended(cfg, s, key, id);
    var t := AfterAccept(cfg, s, key, id);
    RecordedAccept(cfg, s.log, s.txns, s.accepted, ack, key, t.log, t.txns, t.accepted);
    WireStable(cfg, s.log, t.log, s.wire);
  }

  ghost predicate Extended(cfg: Config, log: seq<Event>, txns: map<string, nat>, accepted: set<Key>, ack: Event,
                           key: Key,
                           log': seq<Event>, txns': map<string, nat>, accepted': set<Key>)
  {
    && Fresh(log, ack.id) && AckOf(cfg, ack) == Some(key) && Requested(cfg, log, key) && cfg.txnOf(key) !in txns
    && log' == log + [ack] && txns' == txns[cfg.txnOf(key) := |log|] && accepted' == accepted + {key}
  }

  lemma ExtendedTxns(cfg: Config, log: seq<Event>, txns: map<string, nat>, accepted: set<Key>, ack: Event, key: Key,
                     log': seq<Event>, txns': map<string, nat>, accepted': set<Key>)
    requires Extended(cfg, log, txns, accepted, ack, key, log', txns', accepted') && Recorded(cfg, log, txns, accepted)
    ensures forall t | t in txns' :: TxnEntry(cfg, log', txns', accepted', t)
  {
    TxnsStable(cfg, log, txns, accepted, log', txns', accepted');
    assert log'[..|log|] == log && log'[|log|] == ack;
  }

  lemma ExtendedAcks(cfg: Config, log: seq<Event>, txns: map<string, nat>, accepted: set<Key>, ack: Event, key: Key,
                     log': seq<Event>, txns': map<string, nat>, accepted': set<Key>)
    requires Extended(cfg, log, txns, accepted, ack, key, log', txns', accepted') && Recorded(cfg, log, txns, accepted)
    ensures forall i: nat | i < |log'| :: AckEntry(cfg, log', txns', i)
  {
    forall i: nat | i < |log'| ensures AckEntry(cfg, log', txns', i) {
      if i < |log| {
        AckStable(cfg, log, txns, log', txns', i);
      } else {
        assert log'[i] == ack;
      }
    }
  }

  lemma RecordedAccept(cfg: Config, log: seq<Event>, txns: map<string, nat>, accepted: set<Key>, ack: Event, key: Key,
                       log': seq<Event>, txns': map<string, nat>, accepted': set<Key>)
    requires Extended(cfg, log, txns, accepted, ack, key, log', txns', accepted') && Recorded(cfg, log, txns, accepted)
    ensures Recorded(cfg, log', txns', accepted')
  {
    FreshKeepsDistinct(log, ack);
    ExtendedTxns(cfg, log, txns, accepted, ack, key, log', txns', accepted');
    ExtendedAcks(cfg, log, txns, accepted, ack, key, log', txns', accepted');
    forall k | k in accepted' ensures cfg.txnOf(k) in txns' && Requested(cfg, log', k) {
      RequestedStable(cfg, log, log', k);
    }
  }

  lemma AcceptKeeps(cfg: Config, s: State, key: Key, id: EventId)
    requires Coherent(cfg) && Inv(cfg, s) && Enabled(cfg, s, Accept(key, id))
    ensures Inv(cfg, Apply(cfg, s, Accept(key, id)))
  {
    var t := AfterAccept(cfg, s, key, id);
    if cfg.txnOf(key) in s.txns {
      RepeatedSend(cfg, s, key, id);
    } else {
      AcceptServer(cfg, s, key, id);
    }
    AgentStable(cfg, s, t);
  }

  lemma RepeatedSend(cfg: Config, s: State, key: Key, id: EventId)
    requires ServerInv(cfg, s) && Enabled(cfg, s, Accept(key, id)) && cfg.txnOf(key) in s.txns
    ensures ServerInv(cfg, AfterAccept(cfg, s, key, id))
  {
    TxnsStable(cfg, s.log, s.txns, s.accepted, s.log, s.txns, s.accepted + {key});
  }

  // -------------------------------------------- steps of the process itself

  lemma LifecycleKeeps(cfg: Config, s: State, step: Step)
    requires Inv(cfg, s) && Enabled(cfg, s, step)
    requires step.Prime? || step.SavePrimed? || step.Restart? || step.GiveUp? || step.Save? || step.Shutdown? ||
             step.Crash?
    ensures Inv(cfg, Apply(cfg, s, step))
  {
    var t := Apply(cfg, s, step);
    if s.durable.Some? {
      assert Covered(cfg, s, s.durable.value);
    }
    if t.process.Up? && s.process.Up? {
      forall k | k in t.process.registry.logical ensures Settled(cfg, t, k) || InSend(t, k) {
        assert Settled(cfg, s, k) || InSend(s, k);
      }
    }
  }

  /** A step that only moves an idle process to another phase. */
  lemma PhaseMoved(cfg: Config, s: State, phase: Phase)
    requires Inv(cfg, s) && s.process.Up?
    requires s.process.phase.Dispatching? ==> s.process.phase.handling.Idle?
    ensures var t := WithPhase(s, phase);
            ServerInv(cfg, t) && PositionInv(cfg, t) && SettledInv(cfg, t) && RegistryInv(cfg, t)
  {
    forall k | k in s.process.registry.logical ensures Settled(cfg, WithPhase(s, phase), k) {
      assert Settled(cfg, s, k) || InSend(s, k);
    }
  }

  lemma SyncKeeps(cfg: Config, s: State, start: nat, upTo: nat, limited: bool)
    requires Inv(cfg, s) && Enabled(cfg, s, SyncOk(start, upTo, limited))
    ensures Inv(cfg, Apply(cfg, s, SyncOk(start, upTo, limited)))
  {
    var t := Apply(cfg, s, SyncOk(start, upTo, limited));
    PhaseMoved(cfg, s, t.process.phase);
    if !limited {
      WholeWindow(s.log, start, upTo);
    } else {
      assert s.log[start..start] == [];
    }
  }

  /** An untruncated slice is its own window. */
  lemma WholeWindow(log: seq<Event>, since: nat, upTo: nat)
    requires since <= upTo <= |log| && DistinctIds(log)
    ensures MergeById(Keep(log[since..upTo], SyncVisible)) == Keep(log[since..upTo], SyncVisible)
    ensures Window(log, since, since, upTo) == Keep(log[since..upTo], SyncVisible)
  {
    var direct := Keep(log[since..upTo], SyncVisible);
    KeepDistinct(log[since..upTo], SyncVisible);
    MergeDistinct(direct);
    assert Keep(Reverse(log[since..since]), HistoryVisible) == [];
    assert direct + [] == direct;
  }

  lemma PageKeeps(cfg: Config, s: State, reply: PageReply)
    requires Inv(cfg, s) && Enabled(cfg, s, PageOk(reply))
    ensures Inv(cfg, Apply(cfg, s, PageOk(reply)))
  {
    var t := AfterPage(s, reply);
    PhaseMoved(cfg, s, t.process.phase);
    PagePhase(cfg, s, reply);
  }

  lemma PagePhase(cfg: Config, s: State, reply: PageReply)
    requires PhaseInv(cfg, s) && Enabled(cfg, s, PageOk(reply))
    ensures PhaseInv(cfg, AfterPage(s, reply))
  {
    var p, token := s.process.phase, s.process.token;
    PageHistory(s.log, p.from, token, p.batch.start, cfg.pageLimit, reply);
    if reply.chunk == [] || reply.end.None? || reply.end.value == token {
      assert p.from - |reply.chunk| == token;
      assert p.history + reply.chunk == Reverse(s.log[token..p.batch.start]);
      assert MergePages(p.direct, p.history + reply.chunk) == Window(s.log, token, p.batch.start, p.batch.upTo);
    }
  }

  lemma PageHistory(log: seq<Event>, from: nat, lo: nat, start: nat, limit: nat, reply: PageReply)
    requires lo <= from <= start <= |log| && reply.Page? && HonestPage(log, from, lo, limit, reply)
    ensures |reply.chunk| <= from - lo
    ensures Reverse(log[from..start]) + reply.chunk == Reverse(log[from - |reply.chunk|..start])
  {}

  lemma PlanCovers(cfg: Config, s: State, todo: seq<Event>)
    requires DistinctIds(s.log) && PhaseInv(cfg, s) && Enabled(cfg, s, Plan(todo))
    ensures forall e | e in todo :: e in s.log
    ensures forall i | s.process.token <= i < s.process.phase.batch.upTo && Due(cfg, s.log[i]) :: s.log[i] in todo
  {
    var p, token := s.process.phase, s.process.token;
    WindowMembers(s.log, token, p.batch.start, p.batch.upTo);
    WindowHoldsMessages(s.log, token, p.batch.start, p.batch.upTo);
    SubrangeMembers(s.log, token, p.batch.start, p.batch.upTo);
    forall i | token <= i < p.batch.upTo && Due(cfg, s.log[i]) ensures s.log[i] in todo {
      assert s.log[i] == s.log[token..p.batch.upTo][i - token];
      assert s.log[i] in p.window;
    }
  }

  lemma PlanKeeps(cfg: Config, s: State, todo: seq<Event>)
    requires Inv(cfg, s) && Enabled(cfg, s, Plan(todo))
    ensures Inv(cfg, Apply(cfg, s, Plan(todo)))
  {
    var t := Apply(cfg, s, Plan(todo));
    PlanCovers(cfg, s, todo);
    PhaseMoved(cfg, s, t.process.phase);
  }

  lemma CommitKeeps(cfg: Config, s: State)
    requires Inv(cfg, s) && Enabled(cfg, s, Commit)
    ensures Inv(cfg, Apply(cfg, s, Commit))
  {
    var p := s.process.phase;
    var t := Apply(cfg, s, Commit);
    forall i | s.origin <= i < p.batch.upTo && Due(cfg, s.log[i]) ensures s.log[i].id in s.handled {
      if i >= s.process.token {
        assert s.log[i] in p.todo;
        var j :| 0 <= j < |p.todo| && p.todo[j] == s.log[i];
      }
    }
    assert forall k | k in t.process.registry.logical :: Settled(cfg, s, k) || InSend(s, k);
  }

  /** Marking one more event as handled is sound once its request is settled. */
  lemma HandledOne(cfg: Config, s: State, t: State, e: Event)
    requires ServerInv(cfg, s) && SettledInv(cfg, s) && e in s.log
    requires t.log == s.log && t.handled == s.handled + {e.id}
    requires t.accepted == s.accepted && s.failed <= t.failed
    requires RequestKey(cfg, e).Some? ==> Settled(cfg, t, RequestKey(cfg, e).value)
    requires !Poison(cfg, e)
    ensures SettledInv(cfg, t)
  {
    assert e.id in Ids(s.log);
    forall d | d in t.log && d.id in t.handled ensures !Poison(cfg, d) {
      if d.id == e.id { DistinctEvents(s.log, d, e); }
    }
    forall d | d in t.log && d.id in t.handled && RequestKey(cfg, d).Some?
      ensures Settled(cfg, t, RequestKey(cfg, d).value)
    {
      if d.id == e.id { DistinctEvents(s.log, d, e); }
    }
  }

  lemma DispatchedNext(cfg: Config, s: State, t: State, handling: Handling)
    requires PositionInv(cfg, s) && PhaseInv(cfg, s)
    requires s.process.Up? && s.process.phase.Dispatching? && s.process.phase.next < |s.process.phase.todo|
    requires t.process.Up? && t.process.token == s.process.token
    requires t.log == s.log && t.wire == s.wire && t.origin == s.origin
    requires t.handled == s.handled + {s.process.phase.todo[s.process.phase.next].id}
    requires t.process.phase == s.process.phase.(next := s.process.phase.next + 1, handling := Idle)
    requires t.durable == s.durable || t.durable == Some(s.process.token)
    ensures PositionInv(cfg, t) && PhaseInv(cfg, t)
  {}

  /** Events that need no execution: not a request, or already processed. */
  lemma SkipKeeps(cfg: Config, s: State)
    requires Inv(cfg, s) && Enabled(cfg, s, BeginHandle)
    requires var p := s.process.phase;
             var e := p.todo[p.next];
             RequestKey(cfg, e).Some? ==> s.process.registry.Decide(e.id, RequestKey(cfg, e).value).SkipDuplicate?
    ensures Inv(cfg, AfterBegin(cfg, s))
  {
    var p := s.process.phase;
    var e := p.todo[p.next];
    var t := AfterBegin(cfg, s);
    assert e in p.todo && e in s.log;
    RegistrySettled(cfg, s);
    DispatchedNext(cfg, s, t, Idle);
    HandledOne(cfg, s, t, e);
  }

  lemma RegistrySettled(cfg: Config, s: State)
    requires RegistryInv(cfg, s) && s.process.Up? && s.process.phase.Dispatching? && s.process.phase.handling.Idle?
    ensures forall k | k in s.process.registry.logical :: Settled(cfg, s, k)
  {
    assert forall k | k in s.process.registry.logical :: Settled(cfg, s, k) || InSend(s, k);
  }

  lemma ProcessKeeps(cfg: Config, s: State, e: Event, key: Key)
    requires Inv(cfg, s) && Enabled(cfg, s, BeginHandle)
    requires e == s.process.phase.todo[s.process.phase.next] && RequestKey(cfg, e) == Some(key)
    requires s.process.registry.Decide(e.id, key).Process?
    ensures Inv(cfg, AfterBegin(cfg, s))
  {
    assert e in s.process.phase.todo && e in s.log;
    if cfg.replyOf(key).None? {
      SilentKeeps(cfg, s, e, key);
    } else {
      WireKeeps(cfg, s, AfterBegin(cfg, s), e, key);
    }
    ProcessRegistry(cfg, s, e, key);
  }

  lemma SilentKeeps(cfg: Config, s: State, e: Event, key: Key)
    requires Enabled(cfg, s, BeginHandle) && e in s.log
    requires e == s.process.phase.todo[s.process.phase.next] && RequestKey(cfg, e) == Some(key)
    requires s.process.registry.Decide(e.id, key).Process? && cfg.replyOf(key).None?
    requires ServerInv(cfg, s) && PositionInv(cfg, s) && PhaseInv(cfg, s) && SettledInv(cfg, s)
    ensures var t := AfterBegin(cfg, s);
            ServerInv(cfg, t) && PositionInv(cfg, t) && PhaseInv(cfg, t) && SettledInv(cfg, t)
  {
    DispatchedNext(cfg, s, AfterBegin(cfg, s), Idle);
    HandledOne(cfg, s, AfterBegin(cfg, s), e);
  }

  lemma ProcessRegistry(cfg: Config, s: State, e: Event, key: Key)
    requires ServerInv(cfg, s) && RegistryInv(cfg, s) && Enabled(cfg, s, BeginHandle)
    requires e == s.process.phase.todo[s.process.phase.next] && RequestKey(cfg, e) == Some(key) && e in s.log
    requires s.process.registry.Decide(e.id, key).Process?
    ensures RegistryInv(cfg, AfterBegin(cfg, s))
  {
    var t := AfterBegin(cfg, s);
    TrackCommit(s.process.registry, s.process.executed, e.id, key);
    RegistryGrows(cfg, s, e, key);
    KeysSettled(cfg, s, e, key);
    assert t.log == s.log && t.process.registry == s.process.registry.Commit(e.id, key);
    assert t.process.executed == s.process.executed + [(e.id, key)];
  }

  lemma KeysSettled(cfg: Config, s: State, e: Event, key: Key)
    requires RegistryInv(cfg, s) && Enabled(cfg, s, BeginHandle)
    requires e == s.process.phase.todo[s.process.phase.next] && RequestKey(cfg, e) == Some(key)
    requires s.process.registry.Decide(e.id, key).Process?
    ensures var t := AfterBegin(cfg, s);
            && t.process.registry == s.process.registry.Commit(e.id, key)
            && (forall k | k in t.process.registry.logical :: Settled(cfg, t, k) || InSend(t, k))
  {
    RegistrySettled(cfg, s);
    var t := AfterBegin(cfg, s);
    forall k | k in t.process.registry.logical ensures Settled(cfg, t, k) || InSend(t, k) {
      assert k == key || Settled(cfg, s, k);
    }
  }

  ghost predicate HandedToWire(cfg: Config, s: State, t: State, e: Event, key: Key) {
    && s.process.Up? && s.process.phase.Dispatching? && s.process.phase.handling.Idle?
    && s.process.phase.next < |s.process.phase.todo| && e == s.process.phase.todo[s.process.phase.next]
    && e in s.log && RequestKey(cfg, e) == Some(key) && cfg.replyOf(key).Some? && !Poison(cfg, e)
    && t == s.(wire := s.wire + {key}, process := t.process) && t.process.Up?
    && t.process.token == s.process.token && t.process.phase == s.process.phase.(handling := Sending(key))
  }

  lemma WireServer(cfg: Config, s: State, t: State, e: Event, key: Key)
    requires HandedToWire(cfg, s, t, e, key) && ServerInv(cfg, s)
    ensures ServerInv(cfg, t)
  {
    var j :| 0 <= j < |s.log| && s.log[j] == e;
    assert Requested(cfg, s.log, key);
  }

  lemma WireKeeps(cfg: Config, s: State, t: State, e: Event, key: Key)
    requires HandedToWire(cfg, s, t, e, key)
    requires ServerInv(cfg, s) && PositionInv(cfg, s) && PhaseInv(cfg, s) && SettledInv(cfg, s)
    ensures ServerInv(cfg, t) && PositionInv(cfg, t) && PhaseInv(cfg, t) && SettledInv(cfg, t)
  {
    WireServer(cfg, s, t, e, key);
  }

  lemma BeginKeeps(cfg: Config, s: State)
    requires Inv(cfg, s) && Enabled(cfg, s, BeginHandle)
    ensures Inv(cfg, Apply(cfg, s, BeginHandle))
  {
    var e := s.process.phase.todo[s.process.phase.next];
    if RequestKey(cfg, e).Some? && s.process.registry.Decide(e.id, RequestKey(cfg, e).value).Process? {
      ProcessKeeps(cfg, s, e, RequestKey(cfg, e).value);
    } else {
      SkipKeeps(cfg, s);
    }
  }

  lemma RegistryGrows(cfg: Config, s: State, e: Event, key: Key)
    requires ServerInv(cfg, s) && RegistryInv(cfg, s) && s.process.Up? && e in s.log && RequestKey(cfg, e) == Some(key)
    ensures var r := s.process.registry.Commit(e.id, key);
            && r.events <= Ids(s.log)
            && (forall d | d in s.log && d.id in r.events ::
                  RequestKey(cfg, d).Some? && RequestKey(cfg, d).value in r.logical)
  {
    var r := s.process.registry.Commit(e.id, key);
    forall d | d in s.log && d.id in r.events
      ensures RequestKey(cfg, d).Some? && RequestKey(cfg, d).value in r.logical
    {
      if d.id == e.id { DistinctEvents(s.log, d, e); }
    }
  }

  lemma EndKeeps(cfg: Config, s: State, ok: bool)
    requires Inv(cfg, s) && Enabled(cfg, s, EndHandle(ok))
    ensures Inv(cfg, Apply(cfg, s, EndHandle(ok)))
  {
    var p := s.process.phase;
    var t := AfterEnd(cfg, s, ok);
    assert p.todo[p.next] in p.todo;
    DispatchedNext(cfg, s, t, Idle);
    HandledOne(cfg, s, t, p.todo[p.next]);
    forall k | k in t.process.registry.logical ensures Settled(cfg, t, k) {
      assert Settled(cfg, s, k) || InSend(s, k);
    }
  }

  lemma StepKeeps(cfg: Config, s: State, step: Step)
    requires Coherent(cfg) && Inv(cfg, s) && Enabled(cfg, s, step)
    ensures Inv(cfg, Apply(cfg, s, step))
  {
    match step
    case Append(e) => AppendKeeps(cfg, s, e);
    case SyncOk(start, upTo, limited) => SyncKeeps(cfg, s, start, upTo, limited);
    case PageOk(reply) => PageKeeps(cfg, s, reply);
    case Plan(todo) => PlanKeeps(cfg, s, todo);
    case BeginHandle => BeginKeeps(cfg, s);
    case Accept(key, id) => AcceptKeeps(cfg, s, key, id);
    case EndHandle(ok) => EndKeeps(cfg, s, ok);
    case Commit => CommitKeeps(cfg, s);
    case _ => LifecycleKeeps(cfg, s, step);
  }
}
