/** What counts as a request, how it is answered, and how the answer correlates
    (src/fam/agent/protocol.py, src/fam/executors/deterministic.py and the
    lookup at the start of HumanParticipant._handle). */
module Protocol {
  import opened Options
  import opened Message

  datatype Inbound = Inbound(key: Key, responseTxn: string, message: Parsed)

  datatype Reading = NotRequest | ReadRaises | Request(inbound: Inbound)

  /** ControlledProtocol.inbound: anything but a well-formed REQUEST is ignored; what
      the parser raises comes through. */
  function ControlledInbound(body: string): Reading {
    match Parse(body)
    case Ignored => NotRequest
    case Raised => ReadRaises
    case Accepted(m) =>
      if !m.IsRequest() then NotRequest
      else Request(Inbound(m.correlation.ToKey(), m.correlation.TxnText("response"), m))
  }

  datatype Decision = Silent | Reply(body: string) | Raises

  /** DeterministicExecutor.decide, with the body-length assertion. */
  function Decide(bodyBytes: Option<int>, message: Option<Parsed>): Decision {
    if message.None? || message.value.kind != REQUEST_KEYWORD then Silent
    else
      match BuildAck(message.value.correlation, bodyBytes)
      case None => Raises
      case Some(body) => if bodyBytes.Some? && Utf8Length(body) != bodyBytes.value then Raises else Reply(body)
  }

  /** The key under which the sender looks up a pending interaction. */
  function AckKey(body: string): Option<Key> {
    match Parse(body)
    case Ignored => None
    case Raised => None
    case Accepted(m) => if m.IsAck() then Some(m.correlation.ToKey()) else None
  }

  // ------------------------------------ answers are functions of the key

  function CorrelationOf(k: Key): Correlation { Correlation(k.experiment, k.run, k.sequence) }

  function TxnOfKey(k: Key): string { CorrelationOf(k).TxnText("response") }

  function ReplyOfKey(bodyBytes: Option<int>, k: Key): Option<string> { BuildAck(CorrelationOf(k), bodyBytes) }

  /** A parsed correlation can be printed again, so computing its transaction id does
      not raise. */
  lemma ParsedIsValid(body: string)
    requires Parse(body).Accepted?
    ensures Parse(body).message.correlation.Valid() && Parse(body).message.correlation.Printable()
  {
    DecimalShortest(Words(Strip(body))[4]);
  }

  lemma SameEnvelope(kind: string, c: Correlation)
    requires c.Valid()
    ensures Envelope(kind, CorrelationOf(c.ToKey())) == Envelope(kind, c)
  {
    UpperKeepsTokens(c.experiment);
  }

  /** The transaction id and the answer to a request depend on its logical
      identity only, never on its spelling, its padding or its event. */
  lemma AnswerDependsOnKeyOnly(body: string, bodyBytes: Option<int>)
    requires ControlledInbound(body).Request?
    ensures var inbound := ControlledInbound(body).inbound;
            && inbound.responseTxn == TxnOfKey(inbound.key)
            && inbound.message.correlation.TxnId("response") == Some(inbound.responseTxn)
            && Decide(bodyBytes, Some(inbound.message)) ==
               match ReplyOfKey(bodyBytes, inbound.key)
               case None => Raises
               case Some(reply) => Reply(reply)
  {
    ParsedIsValid(body);
    var c := Parse(body).message.correlation;
    SameEnvelope(ACK_KEYWORD, c);
    UpperKeepsTokens(c.experiment);
    KeyDeterminesTxnId(c, CorrelationOf(c.ToKey()), "response");
    BuildParse(ACK_KEYWORD, c, bodyBytes);
  }

  /** Whatever the executor answers correlates back to the request it answers. */
  lemma ReplyCorrelates(k: Key, bodyBytes: Option<int>)
    requires CorrelationOf(k).Valid() && k.experiment == Upper(k.experiment)
    requires ReplyOfKey(bodyBytes, k).Some?
    ensures AckKey(ReplyOfKey(bodyBytes, k).value) == Some(k)
  {
    BuildParse(ACK_KEYWORD, CorrelationOf(k), bodyBytes);
  }

  /** Request to acknowledgement and back: for every valid correlation and every
      size the request fits, the agent recognises the request under its key and
      nobody takes it for an acknowledgement, its answer has exactly that size too, the
      sender finds its interaction, and nobody answers the answer. */
  lemma EndToEnd(c: Correlation, bodyBytes: Option<int>)
    requires c.Valid() && BuildRequest(c, bodyBytes).Some?
    ensures var request := BuildRequest(c, bodyBytes).value;
            && (bodyBytes.Some? ==> Utf8Length(request) == bodyBytes.value)
            && ControlledInbound(request).Request? && AckKey(request).None?
            && ControlledInbound(request).inbound.key == c.ToKey()
            && Some(ControlledInbound(request).inbound.responseTxn) == c.TxnId("response")
            && var answer := Decide(bodyBytes, Some(ControlledInbound(request).inbound.message));
               && answer.Reply?
               && (bodyBytes.Some? ==> Utf8Length(answer.body) == bodyBytes.value)
               && AckKey(answer.body) == Some(c.ToKey())
               && ControlledInbound(answer.body).NotRequest?
               && Parse(answer.body).Accepted? && Decide(bodyBytes, Some(Parse(answer.body).message)).Silent?
  {
    BuildParse(REQUEST_KEYWORD, c, bodyBytes);
    var back := Parse(BuildRequest(c, bodyBytes).value).message.correlation;
    ParsedBackKey(REQUEST_KEYWORD, c, true);
    KeyDeterminesTxnId(back, c, "response");
    AnswerFits(c, back, bodyBytes);
  }

  /** The acknowledgement envelope is shorter than the request's. */
  lemma AnswerFits(c: Correlation, back: Correlation, bodyBytes: Option<int>)
    requires c.Valid() && back.Valid() && back.ToKey() == c.ToKey()
    requires BuildRequest(c, bodyBytes).Some?
    ensures BuildAck(back, bodyBytes).Some?
    ensures var answer := BuildAck(back, bodyBytes).value;
            && (bodyBytes.Some? ==> Utf8Length(answer) == bodyBytes.value)
            && Parse(answer).Accepted? && Parse(answer).message.IsAck()
            && Parse(answer).message.correlation.ToKey() == c.ToKey()
  {
    BuildParse(REQUEST_KEYWORD, c, bodyBytes);
    EnvelopeLength(c);
    EnvelopeLength(back);
    SameEnvelope(ACK_KEYWORD, c);
    SameEnvelope(ACK_KEYWORD, back);
    BuildParse(ACK_KEYWORD, back, bodyBytes);
  }

  lemma EnvelopeLength(c: Correlation)
    ensures |Envelope(REQUEST_KEYWORD, c)| == |Envelope(ACK_KEYWORD, c)| + 4
  {}
}
