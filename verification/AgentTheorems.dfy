/** What holds over every run of the agent system, whatever the interleaving of
    appends, failed syncs, truncations, cancellations, crashes and restarts. */
module AgentTheorems {
  import opened Options
  import opened Message
  import opened AgentSystem
  import opened AgentInvariant

  ghost predicate Execution(cfg: Config, states: seq<State>, steps: seq<Step>) {
    && |states| == |steps| + 1
    && Initial(states[0])
    && (forall n | 0 <= n < |steps| ::
          Enabled(cfg, states[n], steps[n]) && states[n + 1] == Apply(cfg, states[n], steps[n]))
  }

  lemma {:induction false} Reachable(cfg: Config, states: seq<State>, steps: seq<Step>, n: nat)
    requires Coherent(cfg) && Execution(cfg, states, steps) && n < |states|
    ensures Inv(cfg, states[n])
  {
    if n > 0 {
      Reachable(cfg, states, steps, n - 1);
      StepKeeps(cfg, states[n - 1], steps[n - 1]);
    }
  }

  // ------------------------------------------------------------------ no loss

  /** Every foreign request message between the first durable position and the
      committed one has been handled to the end in some incarnation, and the
      durable position never runs ahead of the committed one. */
  lemma NoLoss(cfg: Config, states: seq<State>, steps: seq<Step>, n: nat)
    requires Coherent(cfg) && Execution(cfg, states, steps) && n < |states|
    requires states[n].durable.Some?
    ensures var s := states[n];
            && s.origin <= s.durable.value <= Committed(s) <= |s.log|
            && (forall i | s.origin <= i < Committed(s) && IsRequest(cfg, s.log[i]) :: s.log[i].id in s.handled)
  {
    Reachable(cfg, states, steps, n);
  }

  /** A foreign message on which reading raises is never passed: neither position
      ever gets beyond it, in any run. */
  lemma PoisonNeverPassed(cfg: Config, states: seq<State>, steps: seq<Step>, n: nat, i: nat)
    requires Coherent(cfg) && Execution(cfg, states, steps) && n < |states| && states[n].durable.Some?
    requires states[n].origin <= i < |states[n].log| && states[n].log[i].isMessage && Poison(cfg, states[n].log[i])
    ensures states[n].durable.value <= Committed(states[n]) <= i
  {
    Reachable(cfg, states, steps, n);
    PoisonAhead(cfg, states[n], i);
  }

  lemma PassedIsClean(cfg: Config, s: State, i: nat)
    requires Inv(cfg, s) && s.durable.Some? && s.origin <= i < Committed(s) && s.log[i].isMessage
    ensures !Poison(cfg, s.log[i])
  {
    assert Covered(cfg, s, Committed(s)) && s.log[i] in s.log;
    assert Due(cfg, s.log[i]) ==> s.log[i].id in s.handled;
  }

  lemma PoisonAhead(cfg: Config, s: State, i: nat)
    requires Inv(cfg, s) && s.durable.Some?
    requires s.origin <= i < |s.log| && s.log[i].isMessage && Poison(cfg, s.log[i])
    ensures Committed(s) <= i
  {
    if i < Committed(s) { PassedIsClean(cfg, s, i); }
  }

  /** Failed windows are retried, never skipped: positions only grow. */
  ghost predicate Later(s: State, t: State) {
    s.durable.Some? ==>
      && t.durable.Some? && s.durable.value <= t.durable.value && s.origin == t.origin
      && s.log <= t.log
  }

  lemma StepForward(cfg: Config, s: State, step: Step)
    requires PositionInv(cfg, s) && PhaseInv(cfg, s) && Enabled(cfg, s, step)
    ensures var t := Apply(cfg, s, step);
            && Later(s, t)
            && (s.process.Up? && t.process.Up? ==> s.process.token <= t.process.token)
            && s.handled <= t.handled && s.accepted <= t.accepted
  {}

  lemma LaterTransitive(r: State, s: State, t: State)
    requires Later(r, s) && Later(s, t)
    ensures Later(r, t)
  {}

  lemma NextLater(cfg: Config, states: seq<State>, steps: seq<Step>, n: nat)
    requires Coherent(cfg) && Execution(cfg, states, steps) && n < |steps|
    ensures Later(states[n], states[n + 1])
  {
    Reachable(cfg, states, steps, n);
    StepForward(cfg, states[n], steps[n]);
  }

  lemma {:induction false} ChainLater(states: seq<State>, m: nat, n: nat)
    requires m <= n < |states| && forall i: nat | i + 1 < |states| :: Later(states[i], states[i + 1])
    ensures Later(states[m], states[n])
  {
    if m < n {
      ChainLater(states, m, n - 1);
      assert Later(states[n - 1], states[(n - 1) + 1]);
      LaterTransitive(states[m], states[n - 1], states[n]);
    }
  }

  lemma PositionsOnlyGrow(cfg: Config, states: seq<State>, steps: seq<Step>, m: nat, n: nat)
    requires Coherent(cfg) && Execution(cfg, states, steps) && m <= n < |states|
    ensures Later(states[m], states[n])
  {
    forall i: nat | i + 1 < |states| ensures Later(states[i], states[i + 1]) {
      NextLater(cfg, states, steps, i);
    }
    ChainLater(states, m, n);
  }

  // ------------------------------------------------------ at most, exactly one

  /** In every reachable state of one incarnation the executor has run at most
      once per event and at most once per logical request, and the registry's
      two sets have one entry for each run. */
  lemma AtMostOncePerIncarnation(cfg: Config, states: seq<State>, steps: seq<Step>, n: nat)
    requires Coherent(cfg) && Execution(cfg, states, steps) && n < |states| && states[n].process.Up?
    ensures var p := states[n].process;
            && (forall i, j | 0 <= i < j < |p.executed| ::
                  p.executed[i].0 != p.executed[j].0 && p.executed[i].1 != p.executed[j].1)
            && |p.registry.events| == |p.registry.logical| == |p.executed|
  {
    Reachable(cfg, states, steps, n);
  }

  ghost function Acks(cfg: Config, s: State, k: Key): set<nat> {
    set i: nat | i < |s.log| && AckOf(cfg, s.log[i]) == Some(k)
  }

  lemma SingletonSize(a: set<nat>, x: nat)
    requires a == {x}
    ensures |a| == 1
  {}

  lemma AcksOfKey(cfg: Config, s: State, k: Key)
    requires Inv(cfg, s)
    ensures forall i, j | i in Acks(cfg, s, k) && j in Acks(cfg, s, k) :: i == j
    ensures |Acks(cfg, s, k)| <= 1
  {
    var t := cfg.txnOf(k);
    if i :| i in Acks(cfg, s, k) {
      forall j | j in Acks(cfg, s, k) ensures j == i {
        assert AckEntry(cfg, s.log, s.txns, i) && AckEntry(cfg, s.log, s.txns, j);
      }
      assert Acks(cfg, s, k) == {i};
      SingletonSize(Acks(cfg, s, k), i);
    } else {
      assert Acks(cfg, s, k) == {};
    }
  }

  /** The room never holds two acknowledgements of one request: not after lost
      registries, replayed batches or sends accepted after a crash. */
  lemma AtMostOneAck(cfg: Config, states: seq<State>, steps: seq<Step>, n: nat, k: Key)
    requires Coherent(cfg) && Execution(cfg, states, steps) && n < |states|
    ensures |Acks(cfg, states[n], k)| <= 1
  {
    Reachable(cfg, states, steps, n);
    AcksOfKey(cfg, states[n], k);
  }

  /** An acknowledgement answers a request that precedes it in the room. */
  lemma NoSpuriousAck(cfg: Config, states: seq<State>, steps: seq<Step>, n: nat, i: nat)
    requires Coherent(cfg) && Execution(cfg, states, steps) && n < |states|
    requires i < |states[n].log| && AckOf(cfg, states[n].log[i]).Some?
    ensures exists j :: 0 <= j < i && RequestKey(cfg, states[n].log[j]) == AckOf(cfg, states[n].log[i])
  {
    Reachable(cfg, states, steps, n);
    var s := states[n];
    var k := AckOf(cfg, s.log[i]).value;
    assert AckEntry(cfg, s.log, s.txns, i) && TxnEntry(cfg, s.log, s.txns, s.accepted, cfg.txnOf(k));
    assert Requested(cfg, s.log[..i], k);
    var j :| 0 <= j < i && RequestKey(cfg, s.log[..i][j]) == Some(k);
    assert s.log[j] == s.log[..i][j];
  }

  /** No two accepted sends share a transaction id, as when all requests belong
      to one run. */
  ghost predicate OwnTxns(cfg: Config, s: State) {
    forall k1, k2 | k1 in s.accepted && k2 in s.accepted :: cfg.txnOf(k1) == cfg.txnOf(k2) ==> k1 == k2
  }

  lemma AcceptedHasAck(cfg: Config, s: State, k: Key)
    requires Inv(cfg, s) && k in s.accepted && OwnTxns(cfg, s)
    ensures |Acks(cfg, s, k)| == 1
  {
    var i := s.txns[cfg.txnOf(k)];
    assert TxnEntry(cfg, s.log, s.txns, s.accepted, cfg.txnOf(k));
    assert AckOf(cfg, s.log[i]) == Some(k);
    assert i in Acks(cfg, s, k);
    AcksOfKey(cfg, s, k);
    assert Acks(cfg, s, k) == {i};
  }

  /** The acknowledgement of a request, if any, is where its transaction id points. */
  lemma AckPosition(cfg: Config, s: State, k: Key)
    requires Inv(cfg, s)
    ensures cfg.txnOf(k) !in s.txns ==> Acks(cfg, s, k) == {}
    ensures cfg.txnOf(k) in s.txns ==> Acks(cfg, s, k) <= {s.txns[cfg.txnOf(k)]}
  {
    forall i | i in Acks(cfg, s, k) ensures cfg.txnOf(k) in s.txns && s.txns[cfg.txnOf(k)] == i {
      assert AckEntry(cfg, s.log, s.txns, i);
    }
  }

  lemma SharedTxn(cfg: Config, s: State, k1: Key, k2: Key)
    requires Inv(cfg, s) && k1 != k2 && cfg.txnOf(k1) == cfg.txnOf(k2)
    ensures Acks(cfg, s, k1) == {} || Acks(cfg, s, k2) == {}
  {
    AckPosition(cfg, s, k1);
    AckPosition(cfg, s, k2);
    if cfg.txnOf(k1) in s.txns {
      var i := s.txns[cfg.txnOf(k1)];
      assert i !in Acks(cfg, s, k1) || i !in Acks(cfg, s, k2);
    }
  }

  /** Each accepted send stands for exactly one acknowledgement in the room if
      and only if no two of them share a transaction id. */
  lemma ExactlyOneAckIff(cfg: Config, states: seq<State>, steps: seq<Step>, n: nat)
    requires Coherent(cfg) && Execution(cfg, states, steps) && n < |states|
    ensures (forall k | k in states[n].accepted :: |Acks(cfg, states[n], k)| == 1) <==> OwnTxns(cfg, states[n])
  {
    var s := states[n];
    Reachable(cfg, states, steps, n);
    if OwnTxns(cfg, s) {
      forall k | k in s.accepted ensures |Acks(cfg, s, k)| == 1 {
        AcceptedHasAck(cfg, s, k);
      }
    } else {
      var k1, k2 :| k1 in s.accepted && k2 in s.accepted && cfg.txnOf(k1) == cfg.txnOf(k2) && k1 != k2;
      SharedTxn(cfg, s, k1, k2);
    }
  }

  /** When no two accepted sends share a transaction id, a request has its one
      acknowledgement in the room exactly when a send for it was accepted, in
      whichever incarnation. */
  lemma AckIffAccepted(cfg: Config, states: seq<State>, steps: seq<Step>, n: nat, k: Key)
    requires Coherent(cfg) && Execution(cfg, states, steps) && n < |states| && OwnTxns(cfg, states[n])
    ensures |Acks(cfg, states[n], k)| == (if k in states[n].accepted then 1 else 0)
  {
    var s := states[n];
    Reachable(cfg, states, steps, n);
    if k in s.accepted { AcceptedHasAck(cfg, s, k); }
    if i :| i in Acks(cfg, s, k) {
      AckWasAccepted(cfg, s, k, i);
    } else {
      assert Acks(cfg, s, k) == {};
    }
  }

  lemma AckWasAccepted(cfg: Config, s: State, k: Key, i: nat)
    requires Inv(cfg, s) && i in Acks(cfg, s, k)
    ensures k in s.accepted
  {
    assert AckEntry(cfg, s.log, s.txns, i) && TxnEntry(cfg, s.log, s.txns, s.accepted, cfg.txnOf(k));
  }

  /** End to end: every request message the durable checkpoint has passed, whose
      send was never reported failed and which the executor answers, has exactly
      one acknowledgement in the room. */
  lemma ExactlyOnceDelivery(cfg: Config, states: seq<State>, steps: seq<Step>, n: nat, i: nat)
    requires Coherent(cfg) && Execution(cfg, states, steps) && n < |states| && states[n].durable.Some?
    requires states[n].origin <= i < states[n].durable.value <= |states[n].log| && IsRequest(cfg, states[n].log[i])
    requires RequestKey(cfg, states[n].log[i]).value !in states[n].failed
    requires cfg.replyOf(RequestKey(cfg, states[n].log[i]).value).Some?
    requires OwnTxns(cfg, states[n])
    ensures |Acks(cfg, states[n], RequestKey(cfg, states[n].log[i]).value)| == 1
  {
    var s := states[n];
    Reachable(cfg, states, steps, n);
    assert s.log[i].id in s.handled && s.log[i] in s.log;
    AcceptedHasAck(cfg, s, RequestKey(cfg, s.log[i]).value);
  }
}
