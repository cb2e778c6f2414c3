/** The agent and its homeserver as a step system: appends, syncs, pages,
    dispatches, sends, checkpoints, failures, crashes and restarts
    (src/fam/matrix/client.py, src/fam/agent/runtime.py). A step is what happens
    between two suspension points or two durable writes. */
module AgentSystem {
  import opened Options
  import opened Message
  import opened Transport
  import opened Dedup

  /** The request protocol and executor, as functions of text and key, the texts on
      which reading raises, and the pagination bounds. Any protocol that is `Coherent` will do. */
  datatype Config = Config(
    me: string,
    inbound: string -> Option<Key>,
    raises: string -> bool,
    ackKey: string -> Option<Key>,
    txnOf: Key -> string,
    replyOf: Key -> Option<string>,
    maxPages: nat,
    pageLimit: nat)

  /** Answers parse back to the key they answer. */
  ghost predicate Coherent(cfg: Config) {
    forall b: string | cfg.inbound(b).Some? && cfg.replyOf(cfg.inbound(b).value).Some? ::
      cfg.ackKey(cfg.replyOf(cfg.inbound(b).value).value) == Some(cfg.inbound(b).value)
  }

  function RequestKey(cfg: Config, e: Event): Option<Key> {
    if e.sender != cfg.me && e.body.Some? then cfg.inbound(e.body.value) else None
  }

  /** A foreign request sent as an ordinary message. */
  predicate IsRequest(cfg: Config, e: Event) { e.isMessage && RequestKey(cfg, e).Some? }

  /** A foreign event on whose text the handler, and startup recovery, raise. */
  predicate Poison(cfg: Config, e: Event) { e.sender != cfg.me && e.body.Some? && cfg.raises(e.body.value) }

  predicate Clean(cfg: Config, events: seq<Event>) { forall e | e in events :: !Poison(cfg, e) }

  /** A message that a position must not pass unhandled. */
  predicate Due(cfg: Config, e: Event) { IsRequest(cfg, e) || (e.isMessage && Poison(cfg, e)) }

  function AckOf(cfg: Config, e: Event): Option<Key> {
    if e.sender == cfg.me && e.body.Some? then cfg.ackKey(e.body.value) else None
  }

  // ------------------------------------------------------------------ states

  /** The window (token, upTo] of one sync; the server truncated it at `start`. */
  datatype Batch = Batch(start: nat, upTo: nat)

  datatype Handling = Idle | Sending(key: Key)

  datatype Phase =
    | AtSync
    | Paging(batch: Batch, direct: seq<Event>, from: nat, pages: nat, history: seq<Event>)
    | Merged(batch: Batch, window: seq<Event>)
    | Dispatching(batch: Batch, todo: seq<Event>, next: nat, handling: Handling)
    | Saving

  datatype Process =
    | Down
    | Primed(token: nat)
    | Up(token: nat, live: bool, registry: Registry, executed: seq<(EventId, Key)>, phase: Phase)

  /** `wire` holds the sends handed to the network, which the server may accept at
      any later time; `origin`, `handled`, `accepted` and `failed` are history. */
  datatype State = State(
    log: seq<Event>,
    txns: map<string, nat>,
    wire: set<Key>,
    durable: Option<nat>,
    process: Process,
    origin: nat,
    handled: set<EventId>,
    accepted: set<Key>,
    failed: set<Key>)

  predicate Initial(s: State) {
    s.log == [] && s.txns == map[] && s.wire == {} && s.durable == None && s.process == Down &&
    s.handled == {} && s.accepted == {} && s.failed == {}
  }

  // ------------------------------------------------------------------- steps

  datatype Step =
    | Append(event: Event)                                  // anyone but the agent's own acknowledgements
    | Prime | SavePrimed | Restart
    | SyncOk(start: nat, upTo: nat, limited: bool)
    | PageOk(reply: PageReply)
    | Plan(todo: seq<Event>)
    | BeginHandle
    | Accept(key: Key, id: EventId)                         // the server takes a send off the wire
    | EndHandle(ok: bool)
    | GiveUp                                                // a request or a handler raised
    | Commit | Save | Shutdown | Crash

  predicate Fresh(log: seq<Event>, id: EventId) { id !in Ids(log) }

  /** Dispatch order: the live loop takes the merged events as they are; startup
      recovery takes the foreign requests among them, each once, in any order, and
      raises while looking for them if any text of the window does. */
  predicate Planned(cfg: Config, live: bool, window: seq<Event>, todo: seq<Event>) {
    if live then todo == window
    else
      && Clean(cfg, window)
      && DistinctIds(todo)
      && (forall e | e in todo :: e in window && RequestKey(cfg, e).Some?)
      && (forall e | e in window && RequestKey(cfg, e).Some? :: e in todo)
  }

  predicate Enabled(cfg: Config, s: State, step: Step) {
    match step
    case Append(e) => Fresh(s.log, e.id) && AckOf(cfg, e).None?
    case Prime => s.process.Down? && s.durable.None?
    case SavePrimed => s.process.Primed?
    case Restart => s.process.Down? && s.durable.Some?
    case SyncOk(start, upTo, limited) =>
      s.process.Up? && s.process.phase.AtSync? && s.process.token <= start <= upTo <= |s.log| &&
      (!limited ==> start == s.process.token)
    case PageOk(reply) =>
      && s.process.Up? && s.process.phase.Paging? && s.process.phase.pages < cfg.maxPages
      && s.process.token <= s.process.phase.from <= |s.log|
      && reply.Page? && HonestPage(s.log, s.process.phase.from, s.process.token, cfg.pageLimit, reply)
    case Plan(todo) =>
      s.process.Up? && s.process.phase.Merged? && Planned(cfg, s.process.live, s.process.phase.window, todo)
    case BeginHandle =>
      s.process.Up? && s.process.phase.Dispatching? && s.process.phase.handling.Idle? &&
      s.process.phase.next < |s.process.phase.todo| && !Poison(cfg, s.process.phase.todo[s.process.phase.next])
    case Accept(key, id) =>
      key in s.wire && cfg.replyOf(key).Some? && (cfg.txnOf(key) !in s.txns ==> Fresh(s.log, id))
    case EndHandle(ok) =>
      && s.process.Up? && s.process.phase.Dispatching? && s.process.phase.handling.Sending?
      && s.process.phase.next < |s.process.phase.todo|
      && (ok ==> s.process.phase.handling.key in s.accepted)
    case GiveUp =>
      && s.process.Up? && !s.process.phase.Saving?
      && (s.process.phase.Dispatching? ==> s.process.phase.handling.Idle?)
    case Commit =>
      s.process.Up? && s.process.phase.Dispatching? && s.process.phase.handling.Idle? &&
      s.process.phase.next == |s.process.phase.todo|
    case Save => s.process.Up? && s.process.phase.Saving?
    case Shutdown => s.process.Up? && s.process.live
    case Crash => true
  }

  function WithPhase(s: State, phase: Phase): State
    requires s.process.Up?
  {
    s.(process := s.process.(phase := phase))
  }

  function StartedAt(token: nat, live: bool): Process { Up(token, live, EMPTY, [], AtSync) }

  function MergePages(direct: seq<Event>, history: seq<Event>): seq<Event> {
    MergeById(direct + Keep(history, HistoryVisible))
  }

  /** One successful page: the boundary test of paginate_backwards. */
  function AfterPage(s: State, reply: PageReply): State
    requires s.process.Up? && s.process.phase.Paging? && reply.Page? && |reply.chunk| <= s.process.phase.from
  {
    var p := s.process.phase;
    var history := p.history + reply.chunk;
    if reply.chunk == [] || reply.end.None? || reply.end.value == s.process.token
    then WithPhase(s, Merged(p.batch, MergePages(p.direct, history)))
    else WithPhase(s, Paging(p.batch, p.direct, p.from - |reply.chunk|, p.pages + 1, history))
  }

  /** _handle up to its first suspension: ignored and duplicate events are done at
      once; a new request is committed to the registry, executed, and its answer,
      if there is one, handed to the network. */
  function AfterBegin(cfg: Config, s: State): State
    requires Enabled(cfg, s, BeginHandle)
  {
    var p, proc := s.process.phase, s.process;
    var e := p.todo[p.next];
    var done := WithPhase(s, p.(next := p.next + 1)).(handled := s.handled + {e.id});
    if RequestKey(cfg, e).None? then done
    else
      var key := RequestKey(cfg, e).value;
      if proc.registry.Decide(e.id, key).SkipDuplicate? then done
      else
        var registry, executed := proc.registry.Commit(e.id, key), proc.executed + [(e.id, key)];
        if cfg.replyOf(key).None?
        then done.(process := done.process.(registry := registry, executed := executed))
        else s.(wire := s.wire + {key},
                process := proc.(registry := registry, executed := executed, phase := p.(handling := Sending(key))))
  }

  /** The server side of send_text: a known transaction id changes nothing. */
  function AfterAccept(cfg: Config, s: State, key: Key, id: EventId): State
    requires Enabled(cfg, s, Accept(key, id))
  {
    var txn := cfg.txnOf(key);
    if txn in s.txns then s.(accepted := s.accepted + {key})
    else s.(log := s.log + [Event(id, cfg.me, true, cfg.replyOf(key))],
            txns := s.txns[txn := |s.log|],
            accepted := s.accepted + {key})
  }

  /** The send returned: the handler finishes and saves the checkpoint, whose
      position is still the committed token. */
  function AfterEnd(cfg: Config, s: State, ok: bool): State
    requires Enabled(cfg, s, EndHandle(ok))
  {
    var p := s.process.phase;
    WithPhase(s, p.(next := p.next + 1, handling := Idle)).(
      handled := s.handled + {p.todo[p.next].id},
      failed := if ok then s.failed else s.failed + {p.handling.key},
      durable := Some(s.process.token))
  }

  function Apply(cfg: Config, s: State, step: Step): State
    requires Enabled(cfg, s, step)
  {
    match step
    case Append(e) => s.(log := s.log + [e])
    case Prime => s.(process := Primed(|s.log|))
    case SavePrimed =>
      s.(durable := Some(s.process.token), origin := s.process.token, process := StartedAt(s.process.token, true))
    case Restart => s.(process := StartedAt(s.durable.value, false))
    case SyncOk(start, upTo, limited) =>
      var direct := Keep(s.log[start..upTo], SyncVisible);
      WithPhase(s, if limited then Paging(Batch(start, upTo), direct, start, 0, [])
                   else Merged(Batch(start, upTo), if s.process.live then direct else MergeById(direct)))
    case PageOk(reply) => AfterPage(s, reply)
    case Plan(todo) => WithPhase(s, Dispatching(s.process.phase.batch, todo, 0, Idle))
    case BeginHandle => AfterBegin(cfg, s)
    case Accept(key, id) => AfterAccept(cfg, s, key, id)
    case EndHandle(ok) => AfterEnd(cfg, s, ok)
    case GiveUp => if s.process.live then WithPhase(s, AtSync) else s.(process := Down)
    case Commit => s.(process := s.process.(token := s.process.phase.batch.upTo, phase := Saving))
    case Save => s.(durable := Some(s.process.token), process := s.process.(live := true, phase := AtSync))
    case Shutdown => s.(durable := Some(s.process.token), process := Down)
    case Crash => s.(process := Down)
  }

  // -------------------------------------------------------------- invariants

  ghost predicate Requested(cfg: Config, log: seq<Event>, key: Key) {
    exists j :: 0 <= j < |log| && RequestKey(cfg, log[j]) == Some(key)
  }

  /** A recorded transaction id points at the acknowledgement sent under it,
      which an earlier request had asked for. */
  ghost predicate TxnEntry(cfg: Config, log: seq<Event>, txns: map<string, nat>, accepted: set<Key>, t: string)
    requires t in txns
  {
    && txns[t] < |log|
    && var ack := AckOf(cfg, log[txns[t]]);
       && ack.Some? && cfg.txnOf(ack.value) == t && ack.value in accepted
       && Requested(cfg, log[..txns[t]], ack.value)
  }

  /** Every acknowledgement of the agent is the one its transaction id points at. */
  ghost predicate AckEntry(cfg: Config, log: seq<Event>, txns: map<string, nat>, i: nat)
    requires i < |log|
  {
    AckOf(cfg, log[i]).Some? ==>
      var t := cfg.txnOf(AckOf(cfg, log[i]).value);
      t in txns && txns[t] == i
  }

  ghost predicate Recorded(cfg: Config, log: seq<Event>, txns: map<string, nat>, accepted: set<Key>) {
    && DistinctIds(log)
    && (forall t | t in txns :: TxnEntry(cfg, log, txns, accepted, t))
    && (forall i: nat | i < |log| :: AckEntry(cfg, log, txns, i))
    && (forall k | k in accepted :: cfg.txnOf(k) in txns && Requested(cfg, log, k))
  }

  ghost predicate WireInv(cfg: Config, log: seq<Event>, wire: set<Key>) {
    forall k | k in wire :: cfg.replyOf(k).Some? && Requested(cfg, log, k)
  }

  ghost predicate ServerInv(cfg: Config, s: State) {
    Recorded(cfg, s.log, s.txns, s.accepted) && WireInv(cfg, s.log, s.wire)
  }

  /** The position below which everything has been handled. */
  function Committed(s: State): nat {
    if s.process.Up? then s.process.token
    else if s.durable.Some? then s.durable.value
    else s.origin
  }

  ghost predicate Covered(cfg: Config, s: State, p: nat)
    requires p <= |s.log|
  {
    forall i | s.origin <= i < p :: Due(cfg, s.log[i]) ==> s.log[i].id in s.handled
  }

  ghost predicate PositionInv(cfg: Config, s: State) {
    && (s.durable.Some? ==> s.origin <= s.durable.value <= Committed(s) <= |s.log| && Covered(cfg, s, Committed(s)))
    && (s.durable.None? ==> !s.process.Up? && s.handled == {} && s.wire == {})
    && (s.process.Primed? ==> s.durable.None? && s.process.token <= |s.log|)
  }

  ghost predicate BatchInv(s: State, b: Batch)
    requires s.process.Up?
  {
    s.process.token <= b.start <= b.upTo <= |s.log|
  }

  ghost predicate PhaseInv(cfg: Config, s: State) {
    s.process.Up? ==>
      match s.process.phase
      case AtSync => true
      case Saving => true
      case Paging(b, direct, from, pages, history) =>
        && BatchInv(s, b) && s.process.token <= from <= b.start
        && direct == Keep(s.log[b.start..b.upTo], SyncVisible)
        && history == Reverse(s.log[from..b.start])
      case Merged(b, window) => BatchInv(s, b) && window == Window(s.log, s.process.token, b.start, b.upTo)
      case Dispatching(b, todo, next, handling) =>
        && BatchInv(s, b) && next <= |todo|
        && (forall e | e in todo :: e in s.log)
        && (forall i | s.process.token <= i < b.upTo && Due(cfg, s.log[i]) :: s.log[i] in todo)
        && (forall j | 0 <= j < next :: todo[j].id in s.handled)
        && (handling.Sending? ==>
              && next < |todo| && RequestKey(cfg, todo[next]) == Some(handling.key) && !Poison(cfg, todo[next])
              && handling.key in s.wire)
  }

  /** A request whose handler has finished was answered, or its send failed, or
      the executor had no answer for it. */
  predicate Settled(cfg: Config, s: State, k: Key) {
    k in s.accepted || k in s.failed || cfg.replyOf(k).None?
  }

  predicate InSend(s: State, k: Key) {
    s.process.Up? && s.process.phase.Dispatching? && s.process.phase.handling == Sending(k)
  }

  ghost predicate SettledInv(cfg: Config, s: State) {
    && (forall e | e in s.log && e.id in s.handled && RequestKey(cfg, e).Some? ::
          Settled(cfg, s, RequestKey(cfg, e).value))
    && (forall e | e in s.log && e.id in s.handled :: !Poison(cfg, e))
    && s.handled <= Ids(s.log)
  }

  ghost predicate RegistryInv(cfg: Config, s: State) {
    s.process.Up? ==>
      && Tracks(s.process.registry, s.process.executed)
      && s.process.registry.events <= Ids(s.log)
      && (forall k | k in s.process.registry.logical :: Settled(cfg, s, k) || InSend(s, k))
      && (forall e | e in s.log && e.id in s.process.registry.events ::
            RequestKey(cfg, e).Some? && RequestKey(cfg, e).value in s.process.registry.logical)
  }

  ghost predicate Inv(cfg: Config, s: State) {
    ServerInv(cfg, s) && PositionInv(cfg, s) && PhaseInv(cfg, s) && SettledInv(cfg, s) && RegistryInv(cfg, s)
  }
}
