/** One logical interaction: the send, its acknowledgements and the deadline race
    (src/fam/participants/human.py; the outcome rule of src/fam/benchmark/engine.py
    and the record rules of scripts/final_audit.py). Times are monotonic
    nanoseconds. */
module Interaction {
  import opened Options
  import opened Message
  import opened Protocol

  // ------------------------------------------------------------------- facts

  /** The fields of an Interaction that a record is built from. `completed` is
      also the state of its future, which is resolved exactly when it is set. */
  datatype Facts = Facts(
    initiated: nat,
    responseEvent: Option<string>,
    completed: Option<nat>,
    ackIds: seq<string>,
    sendErrcode: string,
    timedOut: bool,
    lateAck: Option<nat>,
    recoveryEpisode: Option<nat>)
  {
    function AckCount(): nat { |ackIds| }

    function DuplicateIds(): seq<string> { if ackIds == [] then [] else ackIds[1..] }

    function DuplicateCount(): nat { if |ackIds| > 1 then |ackIds| - 1 else 0 }
  }

  function Started(t0: nat): Facts { Facts(t0, None, None, [], "", false, None, None) }

  /** HumanParticipant._handle for a matching acknowledgement. */
  function OnAck(x: Facts, t3: nat, id: string, episode: Option<nat>): Facts {
    if id in x.ackIds then x
    else
      var first := x.ackIds == [];
      var seen := x.(ackIds := x.ackIds + [id]);
      if x.timedOut then
        if x.lateAck.None? then seen.(lateAck := Some(t3), responseEvent := Some(id)) else seen
      else if first then
        seen.(completed := Some(t3), responseEvent := Some(id), recoveryEpisode := episode)
      else seen
  }

  datatype Outcome = SendError | Timeout | Success

  /** _outcome_of. */
  function OutcomeOf(x: Facts): Outcome {
    if x.sendErrcode != "" then SendError
    else if x.timedOut || x.completed.None? then Timeout
    else Success
  }

  // ------------------------------------------------------------ the race

  datatype Stage = Sending | Waiting | Returned

  datatype Call = Call(facts: Facts, stage: Stage, clock: nat)

  datatype Act =
    | Ack(at: nat, id: string, episode: Option<nat>)
    | SendAccepted(at: nat)
    | SendRejected(at: nat, errcode: string)
    | TimerFires(at: nat)                      // wait_for raises; it may even when the future is resolved
    | Resume(at: nat)                          // wait_for returns the resolved future

  function Begin(t0: nat): Call { Call(Started(t0), Sending, t0) }

  predicate EnabledAct(c: Call, timeout: nat, a: Act) {
    && c.clock <= a.at
    && match a
       case Ack(_, _, _) => true
       case SendAccepted(_) => c.stage.Sending?
       case SendRejected(_, _) => c.stage.Sending?
       case TimerFires(at) => c.stage.Waiting? && at >= c.facts.initiated + timeout
       case Resume(_) => c.stage.Waiting? && c.facts.completed.Some?
  }

  function Perform(c: Call, timeout: nat, a: Act): Call {
    var now := c.(clock := a.at);
    match a
    case Ack(at, id, episode) => now.(facts := OnAck(c.facts, at, id, episode))
    case SendAccepted(at) =>
      if at - c.facts.initiated >= timeout
      then now.(facts := c.facts.(timedOut := true), stage := Returned)
      else now.(stage := Waiting)
    case SendRejected(_, errcode) =>
      now.(facts := c.facts.(sendErrcode := if errcode == "" then "unknown" else errcode), stage := Returned)
    case TimerFires(_) => now.(facts := c.facts.(timedOut := true), stage := Returned)
    case Resume(_) => now.(stage := Returned)
  }

  function Run(c: Call, timeout: nat, acts: seq<Act>): Call {
    if acts == [] then c else Perform(Run(c, timeout, acts[..|acts| - 1]), timeout, acts[|acts| - 1])
  }

  ghost predicate ValidRun(c: Call, timeout: nat, acts: seq<Act>) {
    acts != [] ==>
      && ValidRun(c, timeout, acts[..|acts| - 1])
      && EnabledAct(Run(c, timeout, acts[..|acts| - 1]), timeout, acts[|acts| - 1])
  }

  predicate OnlyAcks(acts: seq<Act>) { forall i | 0 <= i < |acts| :: acts[i].Ack? }

  lemma {:induction false} RunConcat(c: Call, timeout: nat, a: seq<Act>, b: seq<Act>)
    ensures Run(c, timeout, a + b) == Run(Run(c, timeout, a), timeout, b)
    ensures ValidRun(c, timeout, a + b) ==> ValidRun(c, timeout, a) && ValidRun(Run(c, timeout, a), timeout, b)
  {
    if b == [] {
      assert a + b == a;
    } else {
      RunConcat(c, timeout, a, b[..|b| - 1]);
      assert (a + b)[..|a + b| - 1] == a + b[..|b| - 1];
    }
  }

  // ------------------------------------------------------ completion, outcome

  /** What holds between the fields at every point of the race. */
  predicate Consistent(c: Call, timeout: nat) {
    var x := c.facts;
    && x.initiated <= c.clock
    && (x.completed.Some? ==> x.initiated <= x.completed.value <= c.clock && x.ackIds != [])
    && (x.ackIds != [] && !x.timedOut ==> x.completed.Some?)
    && (x.ackIds != [] && x.completed.None? ==> x.lateAck.Some?)
    && (x.lateAck.Some? ==> x.timedOut && x.ackIds != [])
    && (x.timedOut ==> c.stage.Returned? && x.sendErrcode == "")
    && (x.sendErrcode != "" ==> c.stage.Returned?)
    && (c.stage.Returned? ==> x.timedOut || x.sendErrcode != "" || x.completed.Some?)
  }

  lemma ActKeepsConsistent(c: Call, timeout: nat, a: Act)
    requires Consistent(c, timeout) && EnabledAct(c, timeout, a)
    ensures Consistent(Perform(c, timeout, a), timeout)
    ensures Perform(c, timeout, a).facts.initiated == c.facts.initiated
    ensures c.facts.completed.Some? || c.facts.timedOut ==> Perform(c, timeout, a).facts.completed == c.facts.completed
    ensures c.facts.timedOut ==> Perform(c, timeout, a).facts.timedOut
  {}

  lemma {:induction false} RunConsistent(t0: nat, timeout: nat, acts: seq<Act>)
    requires ValidRun(Begin(t0), timeout, acts)
    ensures Consistent(Run(Begin(t0), timeout, acts), timeout)
    ensures Run(Begin(t0), timeout, acts).facts.initiated == t0
  {
    if acts != [] {
      RunConsistent(t0, timeout, acts[..|acts| - 1]);
      ActKeepsConsistent(Run(Begin(t0), timeout, acts[..|acts| - 1]), timeout, acts[|acts| - 1]);
    }
  }

  /** The completion time is written at most once and never after the deadline
      has ended the interaction. */
  lemma {:induction false} CompletionWrittenOnce(c: Call, timeout: nat, acts: seq<Act>)
    requires Consistent(c, timeout) && ValidRun(c, timeout, acts)
    ensures Consistent(Run(c, timeout, acts), timeout)
    ensures c.facts.completed.Some? ==> Run(c, timeout, acts).facts.completed == c.facts.completed
    ensures c.facts.timedOut ==>
              Run(c, timeout, acts).facts.timedOut && Run(c, timeout, acts).facts.completed == c.facts.completed
  {
    if acts != [] {
      CompletionWrittenOnce(c, timeout, acts[..|acts| - 1]);
      ActKeepsConsistent(Run(c, timeout, acts[..|acts| - 1]), timeout, acts[|acts| - 1]);
    }
  }

  /** Only acknowledgements can follow the return of request(). */
  lemma {:induction false} AfterReturn(c: Call, timeout: nat, acts: seq<Act>)
    requires c.stage.Returned? && ValidRun(c, timeout, acts)
    ensures OnlyAcks(acts) && Run(c, timeout, acts).stage.Returned?
    ensures var d := Run(c, timeout, acts);
            d.facts.timedOut == c.facts.timedOut && d.facts.sendErrcode == c.facts.sendErrcode
  {
    if acts != [] {
      AfterReturn(c, timeout, acts[..|acts| - 1]);
      assert forall i | 0 <= i < |acts| - 1 :: acts[i] == acts[..|acts| - 1][i];
    }
  }

  /** Once request() has returned the outcome is definite: no acknowledgement,
      duplicate or late, changes it. */
  lemma OutcomeImmutable(t0: nat, timeout: nat, acts: seq<Act>, later: seq<Act>)
    requires ValidRun(Begin(t0), timeout, acts + later) && Run(Begin(t0), timeout, acts).stage.Returned?
    ensures OutcomeOf(Run(Begin(t0), timeout, acts + later).facts) == OutcomeOf(Run(Begin(t0), timeout, acts).facts)
  {
    RunConcat(Begin(t0), timeout, acts, later);
    var c := Run(Begin(t0), timeout, acts);
    RunConsistent(t0, timeout, acts);
    AfterReturn(c, timeout, later);
    CompletionWrittenOnce(c, timeout, later);
  }

  /** The completion time itself is final at the return except for one case: a
      refused send whose request is acknowledged all the same, later. */
  lemma CompletionFinalIff(t0: nat, timeout: nat, acts: seq<Act>, later: seq<Act>)
    requires ValidRun(Begin(t0), timeout, acts + later) && Run(Begin(t0), timeout, acts).stage.Returned?
    ensures var c, d := Run(Begin(t0), timeout, acts).facts, Run(Begin(t0), timeout, acts + later).facts;
            d.completed != c.completed <==> c.sendErrcode != "" && c.ackIds == [] && later != []
  {
    RunConcat(Begin(t0), timeout, acts, later);
    var c := Run(Begin(t0), timeout, acts);
    RunConsistent(t0, timeout, acts);
    AfterReturn(c, timeout, later);
    CompletionWrittenOnce(c, timeout, later);
    if c.facts.ackIds == [] && later != [] { FirstAck(c, timeout, later); }
    if later == [] { assert acts + later == acts; }
  }

  lemma {:induction false} FirstAck(c: Call, timeout: nat, acts: seq<Act>)
    requires OnlyAcks(acts) && acts != []
    ensures Run(c, timeout, acts).facts.ackIds != []
    ensures Run(c, timeout, acts).facts.timedOut == c.facts.timedOut
    ensures c.facts.ackIds == [] && !c.facts.timedOut ==> Run(c, timeout, acts).facts.completed == Some(acts[0].at)
  {
    var front := acts[..|acts| - 1];
    if front == [] {
      assert Run(c, timeout, front) == c;
    } else {
      FirstAck(c, timeout, front);
    }
  }

  // ------------------------------------------------- how a request can return

  /** What ended the request decides its outcome, and when: a refused send is a send
      error under its code, a send that returned at the deadline or later and a timer
      are timeouts, never before the deadline, and a resumed wait is a success. */
  lemma ReturnOutcome(t0: nat, timeout: nat, before: seq<Act>, end: Act)
    requires ValidRun(Begin(t0), timeout, before + [end])
    requires !Run(Begin(t0), timeout, before).stage.Returned?
    requires Run(Begin(t0), timeout, before + [end]).stage.Returned?
    ensures var x := Run(Begin(t0), timeout, before + [end]).facts;
            && (OutcomeOf(x).SendError? <==> end.SendRejected?)
            && (OutcomeOf(x).Timeout? <==> end.SendAccepted? || end.TimerFires?)
            && (OutcomeOf(x).Timeout? ==> end.at >= t0 + timeout)
            && (OutcomeOf(x).Success? <==> end.Resume?)
            && (OutcomeOf(x).Success? ==> AckIdsOf(before) != [])
            && (end.SendRejected? ==> x.sendErrcode == if end.errcode == "" then "unknown" else end.errcode)
  {
    assert (before + [end])[..|before|] == before;
    RunConsistent(t0, timeout, before);
    EvidenceOfRun(t0, timeout, before);
    FirstArrivalsFacts(AckIdsOf(before));
    assert Run(Begin(t0), timeout, before).facts.sendErrcode == "";
    assert !Run(Begin(t0), timeout, before).facts.timedOut;
  }

  /** A send that returns before the deadline leaves the request waiting; one that
      returns later ends it. */
  lemma SendLeavesBudget(t0: nat, timeout: nat, before: seq<Act>, at: nat)
    requires ValidRun(Begin(t0), timeout, before + [SendAccepted(at)])
    ensures var c := Run(Begin(t0), timeout, before + [SendAccepted(at)]);
            && (c.stage.Waiting? <==> at < t0 + timeout) && (c.stage.Returned? <==> at >= t0 + timeout)
            && c.facts.timedOut == (at >= t0 + timeout)
  {
    assert (before + [SendAccepted(at)])[..|before|] == before;
    RunConsistent(t0, timeout, before);
  }

  /** No interaction is timed out before its deadline. */
  lemma {:induction false} NeverTimedOutEarly(t0: nat, timeout: nat, acts: seq<Act>)
    requires ValidRun(Begin(t0), timeout, acts)
    ensures Run(Begin(t0), timeout, acts).facts.timedOut ==> Run(Begin(t0), timeout, acts).clock >= t0 + timeout
  {
    if acts != [] {
      NeverTimedOutEarly(t0, timeout, acts[..|acts| - 1]);
      RunConsistent(t0, timeout, acts[..|acts| - 1]);
    }
  }

  /** So a request that has returned before its deadline and was not refused is a
      success. */
  lemma EarlyReturnIsSuccess(t0: nat, timeout: nat, acts: seq<Act>)
    requires ValidRun(Begin(t0), timeout, acts) && Run(Begin(t0), timeout, acts).stage.Returned?
    requires Run(Begin(t0), timeout, acts).clock < t0 + timeout && forall i | 0 <= i < |acts| :: !acts[i].SendRejected?
    ensures OutcomeOf(Run(Begin(t0), timeout, acts).facts).Success?
  {
    NeverTimedOutEarly(t0, timeout, acts);
    RunConsistent(t0, timeout, acts);
    OnlyRefusalsErr(t0, timeout, acts);
  }

  lemma {:induction false} OnlyRefusalsErr(t0: nat, timeout: nat, acts: seq<Act>)
    requires forall i | 0 <= i < |acts| :: !acts[i].SendRejected?
    ensures Run(Begin(t0), timeout, acts).facts.sendErrcode == ""
  {
    if acts != [] {
      assert forall i | 0 <= i < |acts| - 1 :: acts[..|acts| - 1][i] == acts[i];
      OnlyRefusalsErr(t0, timeout, acts[..|acts| - 1]);
    }
  }

  /** A request that has not returned always can: by its send and its timer, whenever
      these come, if nothing else happens. */
  lemma AlwaysReturns(t0: nat, timeout: nat, acts: seq<Act>, late: nat) returns (more: seq<Act>)
    requires ValidRun(Begin(t0), timeout, acts) && !Run(Begin(t0), timeout, acts).stage.Returned?
    ensures ValidRun(Begin(t0), timeout, acts + more)
    ensures Run(Begin(t0), timeout, acts + more).stage.Returned?
    ensures OutcomeOf(Run(Begin(t0), timeout, acts + more).facts).Timeout?
    ensures Run(Begin(t0), timeout, acts + more).clock >= t0 + timeout + late
  {
    var c0, c := Begin(t0), Run(Begin(t0), timeout, acts);
    RunConsistent(t0, timeout, acts);
    var t := if c.clock > t0 + timeout + late then c.clock else t0 + timeout + late;
    var a := if c.stage.Sending? then SendAccepted(t) else TimerFires(t);
    more := [a];
    RunNext(c0, timeout, 0, acts, a);
  }

  /** Until its deadline a request whose send was accepted in time goes on waiting for
      its acknowledgement, and a first one that comes then makes it a success. */
  lemma InTimeAckSucceeds(t0: nat, timeout: nat, acts: seq<Act>, at: nat, id: string, episode: Option<nat>)
    requires ValidRun(Begin(t0), timeout, acts) && Run(Begin(t0), timeout, acts).stage.Waiting?
    requires Run(Begin(t0), timeout, acts).clock <= at && AckIdsOf(acts) == []
    ensures var more := acts + [Ack(at, id, episode)] + [Resume(at)];
            && ValidRun(Begin(t0), timeout, more) && Run(Begin(t0), timeout, more).stage.Returned?
            && OutcomeOf(Run(Begin(t0), timeout, more).facts).Success?
            && Run(Begin(t0), timeout, more).facts.completed == Some(at)
  {
    var c0 := Begin(t0);
    RunConsistent(t0, timeout, acts);
    EvidenceOfRun(t0, timeout, acts);
    RunNext(c0, timeout, 0, acts, Ack(at, id, episode));
    RunNext(c0, timeout, 0, acts + [Ack(at, id, episode)], Resume(at));
  }

  // -------------------------------------------- which acknowledgement set what

  function AcksIn(acts: seq<Act>): seq<Act> {
    if acts == [] then []
    else AcksIn(acts[..|acts| - 1]) + (if acts[|acts| - 1].Ack? then [acts[|acts| - 1]] else [])
  }

  /** A completion time and its recovery episode are those of the first
      acknowledgement; without a completion there is no episode. */
  lemma {:induction false} CompletionOfFirst(t0: nat, timeout: nat, acts: seq<Act>)
    requires ValidRun(Begin(t0), timeout, acts)
    ensures forall i | 0 <= i < |AcksIn(acts)| :: AcksIn(acts)[i].Ack?
    ensures var x := Run(Begin(t0), timeout, acts).facts;
            && (x.ackIds == [] <==> AcksIn(acts) == [])
            && (x.completed.Some? ==>
                  AcksIn(acts) != [] && x.completed == Some(AcksIn(acts)[0].at)
                  && x.recoveryEpisode == AcksIn(acts)[0].episode && x.ackIds[0] == AcksIn(acts)[0].id)
            && (x.completed.None? ==> x.recoveryEpisode.None?)
  {
    if acts != [] {
      CompletionOfFirst(t0, timeout, acts[..|acts| - 1]);
      RunConsistent(t0, timeout, acts[..|acts| - 1]);
    }
  }

  /** The late acknowledgement is the first new one after the step that timed out, and
      the response becomes its event. */
  lemma {:induction false} LateAckOfFirstNew(d: Call, timeout: nat, later: seq<Act>)
    requires d.facts.timedOut && d.facts.lateAck.None? && OnlyAcks(later)
    ensures var x := Run(d, timeout, later).facts;
            x.lateAck.Some? ==>
              exists i :: 0 <= i < |later| && later[i].id !in d.facts.ackIds
                          && (forall j | 0 <= j < i :: later[j].id in d.facts.ackIds)
                          && x.lateAck == Some(later[i].at) && x.responseEvent == Some(later[i].id)
  {
    if later != [] {
      var n := |later| - 1;
      var front := later[..n];
      LateAckOfFirstNew(d, timeout, front);
      LateAckIff(d, timeout, front);
      if Run(d, timeout, front).facts.lateAck.Some? {
        var i :| 0 <= i < |front| && front[i].id !in d.facts.ackIds
                 && (forall j | 0 <= j < i :: front[j].id in d.facts.ackIds)
                 && Run(d, timeout, front).facts.lateAck == Some(front[i].at)
                 && Run(d, timeout, front).facts.responseEvent == Some(front[i].id);
        assert later[i] == front[i] && forall j | 0 <= j < i :: later[j] == front[j];
      } else {
        forall j | 0 <= j < n ensures later[j].id in d.facts.ackIds {
          AckIdOf(front, j);
          assert later[j] == front[j];
        }
        assert later[n].id in d.facts.ackIds || Run(d, timeout, later).facts.lateAck == Some(later[n].at);
      }
    }
  }

  lemma {:induction false} AckIdOf(acts: seq<Act>, j: nat)
    requires j < |acts| && acts[j].Ack?
    ensures acts[j].id in AckIdsOf(acts)
  {
    if j < |acts| - 1 { AckIdOf(acts[..|acts| - 1], j); }
  }

  // ---------------------------------------------------------------- deadline

  /** The armed timer is late by at most `lateness`: no acknowledgement handled while
      waiting is stamped later than that after the deadline. */
  ghost predicate TimerWithin(c: Call, timeout: nat, lateness: nat, acts: seq<Act>) {
    acts != [] ==>
      && TimerWithin(c, timeout, lateness, acts[..|acts| - 1])
      && var before := Run(c, timeout, acts[..|acts| - 1]);
         (acts[|acts| - 1].Ack? && before.stage.Waiting? ==>
            acts[|acts| - 1].at <= before.facts.initiated + timeout + lateness)
  }

  /** A success is no later than this after T0. */
  predicate InTime(c: Call, bound: nat) {
    var x := c.facts;
    && (c.stage.Waiting? ==> x.completed.Some? ==> x.completed.value <= x.initiated + bound)
    && (c.stage.Returned? && OutcomeOf(x).Success? ==> x.completed.value <= x.initiated + bound)
  }

  /** Every success is within the timeout and the timer's lateness, measured from T0,
      also when the acknowledgement came in while the send was suspended or when the
      send alone used up the budget. */
  lemma {:induction false} DeadlineBound(t0: nat, timeout: nat, lateness: nat, acts: seq<Act>)
    requires ValidRun(Begin(t0), timeout, acts) && TimerWithin(Begin(t0), timeout, lateness, acts)
    ensures InTime(Run(Begin(t0), timeout, acts), timeout + lateness)
  {
    if acts != [] {
      DeadlineBound(t0, timeout, lateness, acts[..|acts| - 1]);
      RunConsistent(t0, timeout, acts[..|acts| - 1]);
    }
  }

  lemma RunNext(c: Call, timeout: nat, lateness: nat, front: seq<Act>, a: Act)
    ensures var before := Run(c, timeout, front);
            && Run(c, timeout, front + [a]) == Perform(before, timeout, a)
            && (ValidRun(c, timeout, front) && EnabledAct(before, timeout, a) ==> ValidRun(c, timeout, front + [a]))
            && (TimerWithin(c, timeout, lateness, front)
                && (a.Ack? && before.stage.Waiting? ==> a.at <= before.facts.initiated + timeout + lateness) ==>
                  TimerWithin(c, timeout, lateness, front + [a]))
  {
    assert (front + [a])[..|front|] == front;
  }

  ghost predicate PossibleSuccess(t0: nat, timeout: nat, lateness: nat, acts: seq<Act>) {
    && ValidRun(Begin(t0), timeout, acts) && TimerWithin(Begin(t0), timeout, lateness, acts)
    && Run(Begin(t0), timeout, acts).stage.Returned? && OutcomeOf(Run(Begin(t0), timeout, acts).facts).Success?
  }

  /** The bound is met for every timeout and every lateness. */
  lemma LateTimerSuccess(t0: nat, timeout: nat, lateness: nat) returns (acts: seq<Act>)
    requires timeout > 0
    ensures PossibleSuccess(t0, timeout, lateness, acts)
    ensures Run(Begin(t0), timeout, acts).facts.completed == Some(t0 + timeout + lateness)
  {
    var t3 := t0 + timeout + lateness;
    var a, b, d := SendAccepted(t0), Ack(t3, "$ack", None), Resume(t3);
    var c0 := Begin(t0);
    assert Run(c0, timeout, []) == c0;
    RunNext(c0, timeout, lateness, [], a);
    RunNext(c0, timeout, lateness, [a], b);
    RunNext(c0, timeout, lateness, [a, b], d);
    assert [] + [a] == [a] && [a] + [b] == [a, b] && [a, b] + [d] == [a, b, d];
    acts := [a, b, d];
  }

  /** So every possible success has T3 - T0 <= timeout exactly for a timer that is
      never late. */
  lemma DeadlineIff(t0: nat, timeout: nat, lateness: nat)
    requires timeout > 0
    ensures (forall acts | PossibleSuccess(t0, timeout, lateness, acts) ::
               Run(Begin(t0), timeout, acts).facts.completed.value <= t0 + timeout) <==> lateness == 0
  {
    if lateness == 0 {
      forall acts | PossibleSuccess(t0, timeout, lateness, acts)
        ensures Run(Begin(t0), timeout, acts).facts.completed.value <= t0 + timeout
      {
        DeadlineBound(t0, timeout, 0, acts);
        RunConsistent(t0, timeout, acts);
      }
    } else {
      var acts := LateTimerSuccess(t0, timeout, lateness);
      assert Run(Begin(t0), timeout, acts).facts.completed.value > t0 + timeout;
    }
  }

  // ------------------------------------------------------------ ACK evidence

  function AckIdsOf(acts: seq<Act>): seq<string> {
    if acts == [] then []
    else AckIdsOf(acts[..|acts| - 1]) + (if acts[|acts| - 1].Ack? then [acts[|acts| - 1].id] else [])
  }

  /** The distinct elements in order of first arrival. */
  function FirstArrivals(ids: seq<string>): seq<string> {
    if ids == [] then []
    else
      var front := FirstArrivals(ids[..|ids| - 1]);
      if ids[|ids| - 1] in front then front else front + [ids[|ids| - 1]]
  }

  ghost predicate Distinct(ids: seq<string>) { forall i, j | 0 <= i < j < |ids| :: ids[i] != ids[j] }

  lemma {:induction false} FirstArrivalsFacts(ids: seq<string>)
    ensures Distinct(FirstArrivals(ids))
    ensures forall id :: id in FirstArrivals(ids) <==> id in ids
    ensures ids != [] ==> FirstArrivals(ids) != [] && FirstArrivals(ids)[0] == ids[0]
  {
    if ids != [] {
      FirstArrivalsFacts(ids[..|ids| - 1]);
      assert ids == ids[..|ids| - 1] + [ids[|ids| - 1]];
    }
  }

  /** The response id names one of the observed acknowledgements. */
  predicate ResponseConsistent(x: Facts) {
    && (x.responseEvent.Some? <==> x.ackIds != [])
    && (x.responseEvent.Some? ==> x.responseEvent.value in x.ackIds)
    && (x.responseEvent.Some? && !(x.completed.Some? && x.timedOut && x.lateAck.Some?) ==>
          x.responseEvent.value == x.ackIds[0])
    && (x.completed.Some? && x.timedOut && x.lateAck.Some? ==>
          |x.ackIds| > 1 && x.responseEvent.value in x.ackIds[1..])
  }

  lemma {:induction false} EvidenceOfRun(t0: nat, timeout: nat, acts: seq<Act>)
    requires ValidRun(Begin(t0), timeout, acts)
    ensures var x := Run(Begin(t0), timeout, acts).facts;
            x.ackIds == FirstArrivals(AckIdsOf(acts)) && ResponseConsistent(x)
  {
    if acts != [] {
      var front := acts[..|acts| - 1];
      EvidenceOfRun(t0, timeout, front);
      RunConsistent(t0, timeout, front);
      var a, x := acts[|acts| - 1], Run(Begin(t0), timeout, front).facts;
      if a.Ack? {
        assert AckIdsOf(acts)[..|AckIdsOf(acts)| - 1] == AckIdsOf(front);
        AckEvidence(x, a.at, a.id, a.episode);
      } else {
        assert AckIdsOf(acts) == AckIdsOf(front);
      }
    }
  }

  lemma AckEvidence(x: Facts, t3: nat, id: string, episode: Option<nat>)
    requires ResponseConsistent(x)
    requires x.ackIds != [] && !x.timedOut ==> x.completed.Some?
    requires x.ackIds != [] && x.completed.None? ==> x.lateAck.Some?
    requires x.lateAck.Some? ==> x.timedOut && x.ackIds != []
    requires x.completed.Some? ==> x.ackIds != []
    ensures ResponseConsistent(OnAck(x, t3, id, episode))
  {
    var y := OnAck(x, t3, id, episode);
    if id !in x.ackIds {
      assert y.ackIds == x.ackIds + [id];
      if x.ackIds != [] { assert y.ackIds[1..] == x.ackIds[1..] + [id]; }
    }
  }

  /** For every delivery sequence with redeliveries the acknowledgement list is
      the duplicate-free list of distinct events in first-arrival order, the
      audit's count equation holds, and the response is one of the events. */
  lemma AckEvidenceInvariant(t0: nat, timeout: nat, acts: seq<Act>)
    requires ValidRun(Begin(t0), timeout, acts)
    ensures var x := Run(Begin(t0), timeout, acts).facts;
            && x.ackIds == FirstArrivals(AckIdsOf(acts)) && Distinct(x.ackIds)
            && (forall id :: id in x.ackIds <==> id in AckIdsOf(acts))
            && x.AckCount() == x.DuplicateCount() + (if x.responseEvent.Some? then 1 else 0)
            && |x.DuplicateIds()| == x.DuplicateCount()
            && (x.responseEvent.Some? ==> x.responseEvent.value in x.ackIds)
  {
    EvidenceOfRun(t0, timeout, acts);
    FirstArrivalsFacts(AckIdsOf(acts));
  }

  /** Where the response id stands among the acknowledgements, by the record. */
  lemma ResponsePlace(t0: nat, timeout: nat, acts: seq<Act>)
    requires ValidRun(Begin(t0), timeout, acts)
    ensures var x := Run(Begin(t0), timeout, acts).facts;
            x.responseEvent.Some? ==>
              (x.responseEvent.value in x.DuplicateIds() <==> x.completed.Some? && x.timedOut && x.lateAck.Some?)
  {
    EvidenceOfRun(t0, timeout, acts);
    FirstArrivalsFacts(AckIdsOf(acts));
    var x := Run(Begin(t0), timeout, acts).facts;
    if x.responseEvent.Some? && x.responseEvent.value == x.ackIds[0] {
      assert forall i | 0 <= i < |x.ackIds| - 1 :: x.ackIds[1..][i] == x.ackIds[i + 1];
    }
  }

  ghost predicate ResponseListedDuplicate(x: Facts) {
    x.responseEvent.Some? && x.responseEvent.value in x.DuplicateIds()
  }

  /** Some acknowledgement among these is not one of the earlier ones. */
  ghost predicate BringsNew(later: seq<Act>, earlier: seq<string>) {
    exists id :: id in AckIdsOf(later) && id !in earlier
  }

  /** The audit's remaining rule, that the terminating acknowledgement is not
      listed as a duplicate, always holds for an interaction that did not time out. */
  lemma UntimedResponse(t0: nat, timeout: nat, acts: seq<Act>)
    requires ValidRun(Begin(t0), timeout, acts) && !Run(Begin(t0), timeout, acts).facts.timedOut
    ensures !ResponseListedDuplicate(Run(Begin(t0), timeout, acts).facts)
  {
    ResponsePlace(t0, timeout, acts);
  }

  /** For one that timed out it fails exactly when an acknowledgement was delivered
      before the step that timed out and another, new one after it: the late branch
      then replaces the response id. */
  lemma ResponseNotDuplicateIff(t0: nat, timeout: nat, before: seq<Act>, end: Act, later: seq<Act>)
    requires ValidRun(Begin(t0), timeout, before + [end] + later)
    requires !Run(Begin(t0), timeout, before).facts.timedOut
    requires Run(Begin(t0), timeout, before + [end]).facts.timedOut
    ensures ResponseListedDuplicate(Run(Begin(t0), timeout, before + [end] + later).facts) <==>
            AckIdsOf(before) != [] && BringsNew(later, AckIdsOf(before))
  {
    TimeoutWithoutCompletionIff(t0, timeout, before, end, later);
    ResponsePlace(t0, timeout, before + [end] + later);
    RunConcat(Begin(t0), timeout, before + [end], later);
    TimedOutState(t0, timeout, before, end);
    var d := Run(Begin(t0), timeout, before + [end]);
    AfterReturn(d, timeout, later);
    FirstArrivalsFacts(AckIdsOf(before));
    LateAckIff(d, timeout, later);
    EvidenceOfRun(t0, timeout, before + [end] + later);
  }

  /** At the step that times out: the acknowledgements are those delivered before,
      and none of them is late. */
  lemma TimedOutState(t0: nat, timeout: nat, before: seq<Act>, end: Act)
    requires ValidRun(Begin(t0), timeout, before + [end])
    requires !Run(Begin(t0), timeout, before).facts.timedOut
    requires Run(Begin(t0), timeout, before + [end]).facts.timedOut
    ensures var d := Run(Begin(t0), timeout, before + [end]);
            && d.stage.Returned? && d.facts.lateAck.None? && d.facts.ackIds == FirstArrivals(AckIdsOf(before))
  {
    RunConcat(Begin(t0), timeout, before, [end]);
    var c := Run(Begin(t0), timeout, before);
    assert [end][..0] == [] && Run(c, timeout, []) == c;
    EvidenceOfRun(t0, timeout, before);
    RunConsistent(t0, timeout, before);
  }

  /** A late acknowledgement is noted exactly when a new event arrives. */
  lemma {:induction false} LateAckIff(d: Call, timeout: nat, later: seq<Act>)
    requires d.facts.timedOut && d.facts.lateAck.None? && OnlyAcks(later)
    ensures var x := Run(d, timeout, later).facts;
            && x.timedOut
            && (x.lateAck.Some? <==> BringsNew(later, d.facts.ackIds))
            && (x.lateAck.None? ==> x.ackIds == d.facts.ackIds)
  {
    if later != [] {
      var front, last := later[..|later| - 1], later[|later| - 1];
      LateAckIff(d, timeout, front);
      assert AckIdsOf(later) == AckIdsOf(front) + [last.id];
      assert BringsNew(later, d.facts.ackIds) <==> BringsNew(front, d.facts.ackIds) || last.id !in d.facts.ackIds;
    }
  }

  /** The audit's rule that a timeout carries no completion time holds exactly
      when no acknowledgement was handled before the step that timed out: a send
      that overruns its budget leaves both set. */
  lemma TimeoutWithoutCompletionIff(t0: nat, timeout: nat, before: seq<Act>, end: Act, later: seq<Act>)
    requires ValidRun(Begin(t0), timeout, before + [end] + later)
    requires !Run(Begin(t0), timeout, before).facts.timedOut
    requires Run(Begin(t0), timeout, before + [end]).facts.timedOut
    ensures var x := Run(Begin(t0), timeout, before + [end] + later).facts;
            && OutcomeOf(x).Timeout?
            && (x.completed.None? <==> AckIdsOf(before) == [])
  {
    RunConcat(Begin(t0), timeout, before + [end], later);
    RunConcat(Begin(t0), timeout, before, [end]);
    var c, d := Run(Begin(t0), timeout, before), Run(Begin(t0), timeout, before + [end]);
    assert [end][..0] == [] && Run(c, timeout, []) == c;
    assert d == Perform(c, timeout, end);
    EvidenceOfRun(t0, timeout, before);
    FirstArrivalsFacts(AckIdsOf(before));
    RunConsistent(t0, timeout, before);
    RunConsistent(t0, timeout, before + [end]);
    RunConsistent(t0, timeout, before + [end] + later);
    CompletionWrittenOnce(d, timeout, later);
    AfterReturn(d, timeout, later);
  }

  /** Both audit rules fail in one reachable history, for every timeout: the
      first acknowledgement overtakes a slow send, a second one follows. */
  lemma OvertakenSend(t0: nat, timeout: nat)
    ensures exists acts ::
              && ValidRun(Begin(t0), timeout, acts) && TimerWithin(Begin(t0), timeout, 0, acts)
              && var x := Run(Begin(t0), timeout, acts).facts;
                 && OutcomeOf(x).Timeout? && x.completed.Some?
                 && x.responseEvent.Some? && x.responseEvent.value in x.DuplicateIds()
  {
    var a, b, d := Ack(t0, "$a", None), SendAccepted(t0 + timeout), Ack(t0 + timeout, "$b", None);
    var c0 := Begin(t0);
    assert Run(c0, timeout, []) == c0;
    RunNext(c0, timeout, 0, [], a);
    RunNext(c0, timeout, 0, [a], b);
    RunNext(c0, timeout, 0, [a, b], d);
    assert [] + [a] == [a] && [a] + [b] == [a, b] && [a, b] + [d] == [a, b, d];
    assert "$a"[1] != "$b"[1];
    var c3 := Run(c0, timeout, [a, b, d]);
    assert c3.facts.ackIds == ["$a", "$b"] && c3.facts.DuplicateIds() == ["$b"];
  }

  // ------------------------------------------------------------ the objects

  /** The mutable record itself. */
  class PendingInteraction {
    var facts: Facts

    constructor (t0: nat)
      ensures facts == Started(t0)
    {
      facts := Started(t0);
    }

    /** The part of _handle below the lookup. */
    method Deliver(t3: nat, id: string, episode: Option<nat>)
      modifies this
      ensures facts == OnAck(old(facts), t3, id, episode)
    {
      if id in facts.ackIds {
        return;
      }
      var first := facts.ackIds == [];
      facts := facts.(ackIds := facts.ackIds + [id]);
      if facts.timedOut {
        if facts.lateAck.None? {
          facts := facts.(lateAck := Some(t3));
          facts := facts.(responseEvent := Some(id));
        }
        return;
      }
      if first {
        facts := facts.(completed := Some(t3));
        facts := facts.(responseEvent := Some(id));
        facts := facts.(recoveryEpisode := episode);
      }
    }
  }

  class HumanParticipant {
    var pending: map<Key, PendingInteraction>
    var inFlight: int
    ghost var unreturned: set<PendingInteraction>

    constructor ()
      ensures pending == map[] && unreturned == {} && Valid()
    {
      pending, inFlight, unreturned := map[], 0, {};
    }

    /** No two keys share an interaction, and the counter counts the requests that
        have not returned, replaced entries of a repeated key among them. */
    ghost predicate Valid()
      reads this
    {
      && (forall j, k | j in pending && k in pending && j != k :: pending[j] != pending[k])
      && inFlight == |unreturned|
    }

    /** outstanding_count: zero exactly when every request has returned. */
    method OutstandingCount() returns (n: nat)
      requires Valid()
      ensures n == |unreturned| && (n == 0 <==> unreturned == {})
    {
      return inFlight;
    }

    /** The start of request(): a fresh interaction under the correlation's key. */
    method Register(c: Correlation, t0: nat) returns (x: PendingInteraction)
      requires Valid()
      modifies this
      ensures Valid() && fresh(x) && x.facts == Started(t0)
      ensures pending == old(pending)[c.ToKey() := x] && unreturned == old(unreturned) + {x}
    {
      x := new PendingInteraction(t0);
      pending := pending[c.ToKey() := x];
      inFlight := inFlight + 1;
      unreturned := unreturned + {x};
    }

    /** The `finally` of request(): whichever way it ended, it no longer counts. */
    method Release(ghost x: PendingInteraction)
      requires Valid() && x in unreturned
      modifies this`inFlight, this`unreturned
      ensures Valid() && unreturned == old(unreturned) - {x}
    {
      inFlight := inFlight - 1;
      unreturned := unreturned - {x};
    }

    /** _handle: an acknowledgement reaches the interaction whose key its body
        carries and no other; any other event changes nothing, also one on which the
        parser raises. */
    method Handle(t3: nat, body: string, id: string, episode: Option<nat>) returns (raised: bool)
      requires Valid()
      modifies pending.Values
      ensures Valid() && pending == old(pending) && unreturned == old(unreturned)
      ensures raised <==> Parse(body).Raised?
      ensures forall k | k in pending ::
                pending[k].facts ==
                if AckKey(body) == Some(k) then OnAck(old(pending[k].facts), t3, id, episode) else old(pending[k].facts)
    {
      raised := Parse(body).Raised?;
      var key := AckKey(body);
      if key.None? || key.value !in pending {
        return;
      }
      pending[key.value].Deliver(t3, id, episode);
    }
  }
}
