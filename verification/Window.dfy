/** Window accounting: what the engine tallies when the loop has ended and what the
    analysis recomputes from raw records (src/fam/benchmark/engine.py,
    src/fam/analysis/e3.py). */
module Window {
  import opened Options
  import opened Interaction
  import opened Sorting
  import opened ClosedLoop

  datatype Phase = Warmup | InWindow | Drain

  datatype RawRecord = RawRecord(initiated: nat, completed: Option<nat>, outcome: Outcome, phase: Phase)

  // ------------------------------------------------------ the analysis' counts

  predicate Between(t: Option<nat>, a: nat, b: nat) { t.Some? && a <= t.value < b }

  function Successful(a: nat, b: nat): RawRecord -> int {
    (r: RawRecord) => if r.outcome.Success? && Between(r.completed, a, b) then 1 else 0
  }

  function Failed(a: nat, b: nat): RawRecord -> int {
    (r: RawRecord) => if !r.outcome.Success? && Between(r.completed, a, b) then 1 else 0
  }

  function InitiatedIn(a: nat, b: nat): RawRecord -> int {
    (r: RawRecord) => if a <= r.initiated < b then 1 else 0
  }

  function Outstanding(t: nat): RawRecord -> int {
    (r: RawRecord) => if r.initiated < t && (r.completed.None? || r.completed.value >= t) then 1 else 0
  }

  /** counted_in_window. */
  function CountedInWindow(records: seq<RawRecord>, a: nat, b: nat): seq<RawRecord> {
    if records == [] then []
    else
      var last := records[|records| - 1];
      CountedInWindow(records[..|records| - 1], a, b) +
      (if last.outcome.Success? && Between(last.completed, a, b) then [last] else [])
  }

  lemma {:induction false} CountedLength(records: seq<RawRecord>, a: nat, b: nat)
    ensures |CountedInWindow(records, a, b)| == Sum(records, Successful(a, b))
    ensures forall r :: r in CountedInWindow(records, a, b) <==>
              r in records && r.outcome.Success? && Between(r.completed, a, b)
  {
    if records != [] {
      CountedLength(records[..|records| - 1], a, b);
      assert records == records[..|records| - 1] + [records[|records| - 1]];
    }
  }

  ghost predicate Causal(records: seq<RawRecord>) {
    forall i | 0 <= i < |records| && records[i].completed.Some? :: records[i].initiated <= records[i].completed.value
  }

  /** What was in flight at the opening plus what was initiated in the window is
      what completed in it, well or badly, plus what is in flight at its close. */
  lemma {:induction false} FlowConservation(records: seq<RawRecord>, a: nat, b: nat)
    requires a <= b && Causal(records)
    ensures Sum(records, Outstanding(a)) + Sum(records, InitiatedIn(a, b)) ==
            Sum(records, Successful(a, b)) + Sum(records, Failed(a, b)) + Sum(records, Outstanding(b))
  {
    if records != [] {
      var front := records[..|records| - 1];
      assert forall i | 0 <= i < |front| :: front[i] == records[i];
      FlowConservation(front, a, b);
      assert records[|records| - 1].completed.Some? ==>
          records[|records| - 1].initiated <= records[|records| - 1].completed.value;
    }
  }

  /** stationarity: the second half is what the first leaves, and is itself the
      count between the midpoint and the end. */
  lemma {:induction false} HalvesPartition(records: seq<RawRecord>, a: nat, b: nat)
    requires a <= b
    ensures var mid := a + (b - a) / 2;
            Sum(records, Successful(a, b)) - Sum(records, Successful(a, mid)) == Sum(records, Successful(mid, b))
  {
    if records != [] { HalvesPartition(records[..|records| - 1], a, b); }
  }

  // ------------------------------------------------------ the engine's tally

  /** The phase label of one finished interaction. */
  function PhaseOf(x: Facts, windowStart: nat, windowEnd: nat): Phase {
    match x.completed
    case None => if x.initiated < windowStart then Warmup else InWindow
    case Some(finished) =>
      if finished < windowStart then Warmup
      else if finished < windowEnd then InWindow
      else Drain
  }

  function RawOf(x: Facts, windowStart: nat, windowEnd: nat): RawRecord {
    RawRecord(x.initiated, x.completed, OutcomeOf(x), PhaseOf(x, windowStart, windowEnd))
  }

  function RawsOf(xs: seq<Facts>, windowStart: nat, windowEnd: nat): (rs: seq<RawRecord>)
    ensures |rs| == |xs|
    ensures forall i | 0 <= i < |xs| :: rs[i] == RawOf(xs[i], windowStart, windowEnd)
  {
    seq(|xs|, i requires 0 <= i < |xs| => RawOf(xs[i], windowStart, windowEnd))
  }

  datatype Tally = Tally(records: seq<RawRecord>, initiated: nat, warmupInitiated: nat, sendErrors: nat,
                         outstandingAtStart: nat, outstandingAtEnd: nat)

  function WarmupLabel(): RawRecord -> int { (r: RawRecord) => if r.phase.Warmup? then 1 else 0 }

  function Refusal(): RawRecord -> int { (r: RawRecord) => if r.outcome.SendError? then 1 else 0 }

  lemma RawsNext(xs: seq<Facts>, i: nat, windowStart: nat, windowEnd: nat)
    requires i < |xs|
    ensures RawsOf(xs[..i + 1], windowStart, windowEnd) ==
            RawsOf(xs[..i], windowStart, windowEnd) + [RawOf(xs[i], windowStart, windowEnd)]
  {}

  /** The accounting loop of run_throughput_workload: every interaction yields one
      record, and both outstanding figures are those anyone can recompute from the
      raw records. */
  method Account(completed: seq<Facts>, windowStart: nat, windowEnd: nat) returns (t: Tally)
    ensures t.records == RawsOf(completed, windowStart, windowEnd) && t.initiated == |completed| == |t.records|
    ensures forall i | 0 <= i < |completed| ::
              && t.records[i].initiated == completed[i].initiated && t.records[i].completed == completed[i].completed
              && t.records[i].outcome == OutcomeOf(completed[i])
    ensures t.outstandingAtStart == Sum(t.records, Outstanding(windowStart))
    ensures t.outstandingAtEnd == Sum(t.records, Outstanding(windowEnd))
    ensures t.warmupInitiated == Sum(t.records, WarmupLabel())
    ensures t.sendErrors == Sum(t.records, Refusal())
  {
    var records: seq<RawRecord> := [];
    var initiated, warmup, refused, atStart, atEnd := 0, 0, 0, 0, 0;
    for i := 0 to |completed|
      invariant records == RawsOf(completed[..i], windowStart, windowEnd) && initiated == i
      invariant atStart == Sum(records, Outstanding(windowStart)) && atEnd == Sum(records, Outstanding(windowEnd))
      invariant warmup == Sum(records, WarmupLabel()) && refused == Sum(records, Refusal())
    {
      var x := completed[i];
      RawsNext(completed, i, windowStart, windowEnd);
      var r := RawOf(x, windowStart, windowEnd);
      SumNext(records, r, Outstanding(windowStart));
      SumNext(records, r, Outstanding(windowEnd));
      SumNext(records, r, WarmupLabel());
      SumNext(records, r, Refusal());
      initiated := initiated + 1;
      if x.sendErrcode != "" {
        refused := refused + 1;
      }
      var started, finished := x.initiated, x.completed;
      if PhaseOf(x, windowStart, windowEnd).Warmup? {
        warmup := warmup + 1;
      }
      if started < windowStart && (finished.None? || finished.value >= windowStart) {
        atStart := atStart + 1;
      }
      if started < windowEnd && (finished.None? || finished.value >= windowEnd) {
        atEnd := atEnd + 1;
      }
      records := records + [r];
    }
    assert completed[..|completed|] == completed;
    return Tally(records, initiated, warmup, refused, atStart, atEnd);
  }

  /** Among the engine's records, a success labelled with the window is the same
      as a record the analysis counts. */
  lemma WindowLabelIsCount(xs: seq<Facts>, windowStart: nat, windowEnd: nat, r: RawRecord)
    requires windowStart <= windowEnd
    ensures r in CountedInWindow(RawsOf(xs, windowStart, windowEnd), windowStart, windowEnd) <==>
            r in RawsOf(xs, windowStart, windowEnd) && r.outcome.Success? && r.phase.InWindow?
  {
    CountedLength(RawsOf(xs, windowStart, windowEnd), windowStart, windowEnd);
  }

  function WindowSuccess(): RawRecord -> int {
    (r: RawRecord) => if r.outcome.Success? && r.phase.InWindow? then 1 else 0
  }

  /** So the label and the analysis give the same number, with multiplicity. */
  lemma {:induction false} WindowLabelCount(xs: seq<Facts>, windowStart: nat, windowEnd: nat)
    requires windowStart <= windowEnd
    ensures Sum(RawsOf(xs, windowStart, windowEnd), WindowSuccess()) ==
            |CountedInWindow(RawsOf(xs, windowStart, windowEnd), windowStart, windowEnd)|
  {
    if xs != [] {
      var n := |xs| - 1;
      WindowLabelCount(xs[..n], windowStart, windowEnd);
      RawsNext(xs, n, windowStart, windowEnd);
      assert xs[..n + 1] == xs;
      var front, last := RawsOf(xs[..n], windowStart, windowEnd), RawOf(xs[n], windowStart, windowEnd);
      SumNext(front, last, WindowSuccess());
      assert (front + [last])[..n] == front;
    }
  }

  function Labelled(p: Phase): RawRecord -> int { (r: RawRecord) => if r.phase == p then 1 else 0 }

  function CompletedFrom(t: nat): RawRecord -> int {
    (r: RawRecord) => if r.completed.Some? && r.completed.value >= t then 1 else 0
  }

  function InitiatedBefore(t: nat): RawRecord -> int { (r: RawRecord) => if r.initiated < t then 1 else 0 }

  function UnfinishedBefore(t: nat): RawRecord -> int {
    (r: RawRecord) => if r.initiated < t && r.completed.None? then 1 else 0
  }

  /** The labels by the two times: what was initiated before the window is labelled
      warm-up or is outstanding at its opening, the unfinished being both; what
      completed at its close or later, and nothing else, is labelled drain; and every
      record has one of the three labels. */
  lemma {:induction false} LabelsByTimes(xs: seq<Facts>, windowStart: nat, windowEnd: nat)
    requires windowStart <= windowEnd && Causal(RawsOf(xs, windowStart, windowEnd))
    ensures var rs := RawsOf(xs, windowStart, windowEnd);
            && Sum(rs, Labelled(Warmup)) + Sum(rs, Outstanding(windowStart)) ==
               Sum(rs, InitiatedBefore(windowStart)) + Sum(rs, UnfinishedBefore(windowStart))
            && Sum(rs, Labelled(Drain)) == Sum(rs, CompletedFrom(windowEnd))
            && Sum(rs, Labelled(Warmup)) + Sum(rs, Labelled(InWindow)) + Sum(rs, Labelled(Drain)) == |xs|
  {
    if xs != [] {
      var n := |xs| - 1;
      RawsNext(xs, n, windowStart, windowEnd);
      assert xs[..n + 1] == xs;
      var front, last := RawsOf(xs[..n], windowStart, windowEnd), RawOf(xs[n], windowStart, windowEnd);
      assert RawsOf(xs, windowStart, windowEnd)[n] == last;
      assert forall i | 0 <= i < n :: front[i] == RawsOf(xs, windowStart, windowEnd)[i];
      LabelsByTimes(xs[..n], windowStart, windowEnd);
      SumNext(front, last, Labelled(Warmup));
      SumNext(front, last, Labelled(InWindow));
      SumNext(front, last, Labelled(Drain));
      SumNext(front, last, Outstanding(windowStart));
      SumNext(front, last, InitiatedBefore(windowStart));
      SumNext(front, last, UnfinishedBefore(windowStart));
      SumNext(front, last, CompletedFrom(windowEnd));
    }
  }

  // ------------------------------------------------------- over whole loops

  function FactsOf(entries: seq<Entry>, listed: seq<nat>): seq<Facts>
    requires forall k | 0 <= k < |listed| :: listed[k] < |entries|
  {
    seq(|listed|, k requires 0 <= k < |listed| => entries[listed[k]].call.facts)
  }

  /** Over every interleaving of the slots the raw records of the run conserve
      flow at the window boundaries. */
  lemma LoopConservesFlow(loops: seq<Loop>, moves: seq<Move>, start: nat, concurrency: nat, windowStart: nat,
                          windowEnd: nat, timeout: nat, n: nat)
    requires Schedule(loops, moves, start, concurrency, windowEnd, timeout) && n < |loops| && windowStart <= windowEnd
    requires forall k | 0 <= k < |loops[n].completed| :: loops[n].completed[k] < |loops[n].entries|
    ensures var rs := RawsOf(FactsOf(loops[n].entries, loops[n].completed), windowStart, windowEnd);
            && Causal(rs)
            && Sum(rs, Outstanding(windowStart)) + Sum(rs, InitiatedIn(windowStart, windowEnd)) ==
               |CountedInWindow(rs, windowStart, windowEnd)| + Sum(rs, Failed(windowStart, windowEnd)) +
               Sum(rs, Outstanding(windowEnd))
  {
    var l := loops[n];
    ScheduleInv(loops, moves, start, concurrency, windowEnd, timeout, n);
    var rs := RawsOf(FactsOf(l.entries, l.completed), windowStart, windowEnd);
    forall k | 0 <= k < |rs| && rs[k].completed.Some? ensures rs[k].initiated <= rs[k].completed.value {
      assert EntryOk(l, timeout, l.completed[k]);
    }
    FlowConservation(rs, windowStart, windowEnd);
    CountedLength(rs, windowStart, windowEnd);
  }
}
