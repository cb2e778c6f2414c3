/** The agent system under the FAM/1 protocol and the deterministic executor. */
module FamAgent {
  import opened Options
  import opened Message
  import opened Protocol
  import opened Transport
  import opened AgentSystem
  import opened AgentTheorems
  import opened AgentOrigin
  import opened AgentLimits
  import opened AgentProgress

  function InboundKey(body: string): Option<Key> {
    match ControlledInbound(body)
    case Request(i) => Some(i.key)
    case _ => None
  }

  predicate InboundRaises(body: string) { ControlledInbound(body).ReadRaises? }

  function FamConfig(me: string, bodyBytes: Option<int>, maxPages: nat, pageLimit: nat): Config {
    Config(me, InboundKey, InboundRaises, AckKey, TxnOfKey, k => ReplyOfKey(bodyBytes, k), maxPages, pageLimit)
  }

  lemma FamCoherent(me: string, bodyBytes: Option<int>, maxPages: nat, pageLimit: nat)
    ensures Coherent(FamConfig(me, bodyBytes, maxPages, pageLimit))
  {
    var cfg := FamConfig(me, bodyBytes, maxPages, pageLimit);
    forall b: string | cfg.inbound(b).Some? && cfg.replyOf(cfg.inbound(b).value).Some?
      ensures cfg.ackKey(cfg.replyOf(cfg.inbound(b).value).value) == Some(cfg.inbound(b).value)
    {
      InboundReply(b, bodyBytes);
    }
  }

  lemma InboundReply(b: string, bodyBytes: Option<int>)
    requires InboundKey(b).Some? && ReplyOfKey(bodyBytes, InboundKey(b).value).Some?
    ensures AckKey(ReplyOfKey(bodyBytes, InboundKey(b).value).value) == InboundKey(b)
  {
    ParsedIsValid(b);
    UpperKeepsTokens(Parse(b).message.correlation.experiment);
    ReplyCorrelates(InboundKey(b).value, bodyBytes);
  }

  /** An event carries a request to which the executor gives this answer. */
  predicate AnsweredBy(me: string, bodyBytes: Option<int>, e: Event, reply: string) {
    && e.sender != me && e.body.Some? && ControlledInbound(e.body.value).Request?
    && Decide(bodyBytes, Some(ControlledInbound(e.body.value).inbound.message)) == Reply(reply)
  }

  /** Over every run: an acknowledgement of the agent is a message of exactly the
      configured size, and its text is what the executor answers to a request of
      someone else before it in the room. */
  lemma FamAnswers(states: seq<State>, steps: seq<Step>, n: nat, i: nat, me: string, bodyBytes: Option<int>,
                   maxPages: nat, pageLimit: nat) returns (j: nat)
    requires Execution(FamConfig(me, bodyBytes, maxPages, pageLimit), states, steps) && n < |states|
    requires i < |states[n].log| && AckOf(FamConfig(me, bodyBytes, maxPages, pageLimit), states[n].log[i]).Some?
    ensures var e := states[n].log[i];
            && e.sender == me && e.isMessage && e.body.Some?
            && (bodyBytes.Some? ==> Utf8Length(e.body.value) == bodyBytes.value)
            && j < i && AnsweredBy(me, bodyBytes, states[n].log[j], e.body.value)
  {
    var cfg, log := FamConfig(me, bodyBytes, maxPages, pageLimit), states[n].log;
    FamCoherent(me, bodyBytes, maxPages, pageLimit);
    AckWorded(cfg, states, steps, n);
    NoSpuriousAck(cfg, states, steps, n, i);
    j :| 0 <= j < i && RequestKey(cfg, log[j]) == AckOf(cfg, log[i]);
    var body := log[j].body.value;
    AnswerDependsOnKeyOnly(body, bodyBytes);
    if bodyBytes.Some? { ReplySize(body, bodyBytes); }
  }

  lemma ReplySize(body: string, bodyBytes: Option<int>)
    requires ControlledInbound(body).Request? && bodyBytes.Some?
    requires ReplyOfKey(bodyBytes, ControlledInbound(body).inbound.key).Some?
    ensures Utf8Length(ReplyOfKey(bodyBytes, ControlledInbound(body).inbound.key).value) == bodyBytes.value
  {
    ParsedIsValid(body);
    UpperKeepsTokens(Parse(body).message.correlation.experiment);
    BuildParse(ACK_KEYWORD, CorrelationOf(ControlledInbound(body).inbound.key), bodyBytes);
  }

  /** All requests in the room belong to one experiment and run. */
  ghost predicate SingleRun(cfg: Config, log: seq<Event>, experiment: string, run: string) {
    forall j | 0 <= j < |log| && RequestKey(cfg, log[j]).Some? ::
      RequestKey(cfg, log[j]).value.experiment == experiment && RequestKey(cfg, log[j]).value.run == run
  }

  ghost predicate InjectiveInRun(cfg: Config, experiment: string, run: string) {
    forall m: nat, n: nat ::
      cfg.txnOf(Key(experiment, run, m)) == cfg.txnOf(Key(experiment, run, n)) ==> m == n
  }

  lemma FamInjective(me: string, bodyBytes: Option<int>, maxPages: nat, pageLimit: nat, experiment: string, run: string)
    ensures InjectiveInRun(FamConfig(me, bodyBytes, maxPages, pageLimit), experiment, run)
  {
    forall m: nat, n: nat | TxnOfKey(Key(experiment, run, m)) == TxnOfKey(Key(experiment, run, n)) ensures m == n {
      TxnIdInjectiveInRun(experiment, run, m, n, "response", "response");
    }
  }

  lemma SingleRunOwnsTxns(cfg: Config, s: State, experiment: string, run: string)
    requires forall k | k in s.accepted :: Requested(cfg, s.log, k)
    requires SingleRun(cfg, s.log, experiment, run) && InjectiveInRun(cfg, experiment, run)
    ensures OwnTxns(cfg, s)
  {
    forall k1, k2 | k1 in s.accepted && k2 in s.accepted && cfg.txnOf(k1) == cfg.txnOf(k2) ensures k1 == k2 {
      RunKey(cfg, s.log, k1, experiment, run);
      RunKey(cfg, s.log, k2, experiment, run);
    }
  }

  lemma RunKey(cfg: Config, log: seq<Event>, k: Key, experiment: string, run: string)
    requires SingleRun(cfg, log, experiment, run) && Requested(cfg, log, k)
    ensures k == Key(experiment, run, k.sequence)
  {
    var j :| 0 <= j < |log| && RequestKey(cfg, log[j]) == Some(k);
  }

  /** One run of the study: after any history of failures, crashes and restarts,
      each request of the run has exactly one FAM/1 acknowledgement in the room if a
      send for it was accepted and none otherwise; and those that the durable
      checkpoint has passed, whose send was never reported failed and whose answer
      fits, have theirs. */
  lemma FamExactlyOnce(states: seq<State>, steps: seq<Step>, n: nat, i: nat, me: string, bodyBytes: Option<int>,
                       maxPages: nat, pageLimit: nat, experiment: string, run: string)
    requires Execution(FamConfig(me, bodyBytes, maxPages, pageLimit), states, steps) && n < |states|
    requires SingleRun(FamConfig(me, bodyBytes, maxPages, pageLimit), states[n].log, experiment, run)
    requires i < |states[n].log| && IsRequest(FamConfig(me, bodyBytes, maxPages, pageLimit), states[n].log[i])
    ensures var cfg, s := FamConfig(me, bodyBytes, maxPages, pageLimit), states[n];
            var k := RequestKey(cfg, s.log[i]).value;
            && |Acks(cfg, s, k)| == (if k in s.accepted then 1 else 0)
            && (s.durable.Some? && s.origin <= i < s.durable.value && k !in s.failed && ReplyOfKey(bodyBytes, k).Some?
                ==> |Acks(cfg, s, k)| == 1)
  {
    var cfg, s := FamConfig(me, bodyBytes, maxPages, pageLimit), states[n];
    var k := RequestKey(cfg, s.log[i]).value;
    FamCoherent(me, bodyBytes, maxPages, pageLimit);
    Reachable(cfg, states, steps, n);
    FamInjective(me, bodyBytes, maxPages, pageLimit, experiment, run);
    SingleRunOwnsTxns(cfg, s, experiment, run);
    AckIffAccepted(cfg, states, steps, n, k);
    if s.durable.Some? && s.origin <= i < s.durable.value && k !in s.failed && ReplyOfKey(bodyBytes, k).Some? {
      ExactlyOnceDelivery(cfg, states, steps, n, i);
    }
  }

  function RequestBody(run: string, n: nat): string { Envelope(REQUEST_KEYWORD, Correlation("E3", run, n)) }

  lemma RequestBodyKey(run: string, n: nat)
    requires IsToken(run) && Correlation("E3", run, n).Printable()
    ensures BuildRequest(Correlation("E3", run, n), None) == Some(RequestBody(run, n))
    ensures InboundKey(RequestBody(run, n)) == Some(Key("E3", run, n)) && ReplyOfKey(None, Key("E3", run, n)).Some?
  {
    var c := Correlation("E3", run, n);
    BuildParse(REQUEST_KEYWORD, c, None);
    assert Upper("E3") == "E3";
  }

  /** Requests of two runs that differ in the case of their name only, with the same
      sequence number: both answers are sent and accepted, and one of the two requests
      has no acknowledgement in the room. */
  lemma RunsShareAcks(me: string, sender: string, n: nat, maxPages: nat, pageLimit: nat) returns (t: State, k: Key)
    requires sender != me && maxPages >= 1 && pageLimit >= 1 && Correlation("E3", "R", n).Printable()
    ensures var cfg := FamConfig(me, None, maxPages, pageLimit);
            && Happens(cfg, t) && (k == Key("E3", "R", n) || k == Key("E3", "r", n))
            && Key("E3", "R", n) in t.accepted && Key("E3", "r", n) in t.accepted && Acks(cfg, t, k) == {}
  {
    var cfg := FamConfig(me, None, maxPages, pageLimit);
    FamCoherent(me, None, maxPages, pageLimit);
    RequestBodyKey("R", n);
    RequestBodyKey("r", n);
    TxnIdsCollideAcrossRuns(n);
    assert "R"[0] != "r"[0];
    t, k := SharedIdHistory(cfg, sender, RequestBody("R", n), RequestBody("r", n));
  }

  function DigitsBody(run: string, k: nat): string { DigitsMatch(run, k).Text() }

  function DigitsMatch(run: string, k: nat): Match {
    Match(" ", REQUEST_KEYWORD, " ", "E3", " ", run, " ", Repeat('1', k), [], [])
  }

  /** An otherwise well-formed request makes the agent's reading raise exactly when its
      sequence has more digits than the interpreter converts. */
  lemma LongSequenceRaises(run: string, k: nat)
    requires IsToken(run) && k >= 1
    ensures InboundRaises(DigitsBody(run, k)) <==> k > MAX_INT_DIGITS == 4300
  {
    var m := DigitsMatch(run, k);
    DigitsEdges(run, k);
    ParseMatchText(m, []);
    assert m.Text() + [] == m.Text();
  }

  lemma DigitsEdges(run: string, k: nat)
    requires IsToken(run) && k >= 1
    ensures DigitsMatch(run, k).WellFormed()
    ensures DigitsMatch(run, k).Text() != [] && Stripped(DigitsMatch(run, k).Text())
  {
    var m := DigitsMatch(run, k);
    TextIsSpread(m);
    SpreadLast(PROTOCOL_TOKEN, m.w0, m.kind, m.w1, m.experiment, m.w2, m.run, m.w3, Tail(m));
    assert Tail(m)[|Tail(m)| - 1] == '1';
    assert m.Text()[0] == 'F';
  }

  /** One such message stops the agent for good: a run exists in which it stands in the
      room, and no continuation, with any restarts, gets past it. */
  lemma LongSequenceStops(me: string, sender: string, bodyBytes: Option<int>, maxPages: nat, pageLimit: nat,
                          run: string,
                          k: nat) returns (s: State)
    requires sender != me && IsToken(run) && k > MAX_INT_DIGITS
    ensures var cfg := FamConfig(me, bodyBytes, maxPages, pageLimit);
            && Happens(cfg, s) && s.log == [Event("$1", sender, true, Some(DigitsBody(run, k)))]
            && (forall t | Leads(cfg, Anything(), s, t) :: t.durable == Some(0))
  {
    var cfg := FamConfig(me, bodyBytes, maxPages, pageLimit);
    FamCoherent(me, bodyBytes, maxPages, pageLimit);
    LongSequenceRaises(run, k);
    s := PoisonHistory(cfg, [Event("$1", sender, true, Some(DigitsBody(run, k)))], 0);
  }
}
