/** Durable completion and resume (CampaignState and `pending` in
    src/fam/benchmark/schedule.py, the execute/record loop of
    experiments/e3_benchmark.py). */
module Campaign {
  import opened Schedule

  /** What record() stores under a run's key; digests and times are left out. */
  datatype Outcome = Outcome(runId: string, status: string)

  type Ledger = map<string, Outcome>

  /** pending, listed up front as the main loop does. */
  function Pending(schedule: seq<ScheduledRun>, done: set<string>): seq<ScheduledRun> {
    if schedule == [] then []
    else
      var last := schedule[|schedule| - 1];
      Pending(schedule[..|schedule| - 1], done) + (if last.Key() in done then [] else [last])
  }

  function KeySet(runs: seq<ScheduledRun>): set<string> { set r | r in runs :: r.Key() }

  /** Pending keeps the order and is exactly the runs whose key is not done. */
  lemma {:induction false} PendingConcat(a: seq<ScheduledRun>, b: seq<ScheduledRun>, done: set<string>)
    ensures Pending(a + b, done) == Pending(a, done) + Pending(b, done)
  {
    if b == [] {
      assert a + b == a;
    } else {
      PendingConcat(a, b[..|b| - 1], done);
      assert (a + b)[..|a + b| - 1] == a + b[..|b| - 1];
    }
  }

  lemma {:induction false} PendingMembers(schedule: seq<ScheduledRun>, done: set<string>)
    ensures forall r :: r in Pending(schedule, done) <==> r in schedule && r.Key() !in done
  {
    if schedule != [] {
      var n := |schedule| - 1;
      PendingMembers(schedule[..n], done);
      assert schedule == schedule[..n] + [schedule[n]];
    }
  }

  lemma PrefixKeys(schedule: seq<ScheduledRun>, k: nat)
    requires KeysDistinct(schedule) && k < |schedule|
    ensures schedule[k].Key() !in KeySet(schedule[..k])
    ensures KeySet(schedule[..k + 1]) == KeySet(schedule[..k]) + {schedule[k].Key()}
  {
    assert schedule[..k + 1] == schedule[..k] + [schedule[k]];
    forall r | r in schedule[..k] ensures r.Key() != schedule[k].Key() {
      var i :| 0 <= i < k && schedule[i] == r;
    }
    forall x | x in KeySet(schedule[..k + 1]) ensures x in KeySet(schedule[..k]) + {schedule[k].Key()} {
      var r :| r in schedule[..k + 1] && r.Key() == x;
    }
  }

  lemma PrefixDistinct(schedule: seq<ScheduledRun>, n: nat)
    requires KeysDistinct(schedule) && n <= |schedule|
    ensures KeysDistinct(schedule[..n])
  {}

  /** With distinct keys, what is left after a completed prefix is the rest. */
  lemma {:induction false} PendingAfterPrefix(schedule: seq<ScheduledRun>, k: nat)
    requires KeysDistinct(schedule) && k <= |schedule|
    ensures Pending(schedule, KeySet(schedule[..k])) == schedule[k..]
  {
    if k == |schedule| {
      assert schedule[..k] == schedule;
      forall i | 0 <= i < |schedule| ensures schedule[i].Key() in KeySet(schedule) {
        assert schedule[i] in schedule;
      }
      PendingOfAll(schedule, KeySet(schedule));
    } else {
      var n := |schedule| - 1;
      var front := schedule[..n];
      PrefixDistinct(schedule, n);
      PendingAfterPrefix(front, k);
      assert front[..k] == schedule[..k];
      LaterKey(schedule, k, n);
      assert front[k..] + [schedule[n]] == schedule[k..];
    }
  }

  lemma LaterKey(schedule: seq<ScheduledRun>, k: nat, n: nat)
    requires KeysDistinct(schedule) && k <= n < |schedule|
    ensures schedule[n].Key() !in KeySet(schedule[..k])
  {
    forall r | r in schedule[..k] ensures r.Key() != schedule[n].Key() {
      var i :| 0 <= i < k && schedule[i] == r;
    }
  }

  lemma {:induction false} PendingOfAll(schedule: seq<ScheduledRun>, done: set<string>)
    requires forall i | 0 <= i < |schedule| :: schedule[i].Key() in done
    ensures Pending(schedule, done) == []
  {
    if schedule != [] {
      var n := |schedule| - 1;
      assert schedule[n].Key() in done;
      PendingOfAll(schedule[..n], done);
    }
  }

  // ------------------------------------------------ interruptions, as steps

  /** One invocation walks the runs that were pending when it started. */
  datatype Invocation = Idle | Running(todo: seq<ScheduledRun>, next: nat, executing: bool)

  /** The ledger file is rewritten in place, so an interruption can tear it; a torn
      file does not load. */
  datatype File = Missing | Intact | Torn

  /** `ledger` is what was last written whole, `evidence` whether the files of the
      recorded runs still verify; once lost it stays lost. `started` and `recorded`
      are the histories of executions and recordings. */
  datatype Progress = Progress(
    ledger: Ledger, file: File, evidence: bool, invocation: Invocation, started: seq<string>, recorded: seq<string>)

  datatype Step = Start | Execute | Finish(outcome: Outcome) | Interrupt | Tear | Damage

  const FRESH := Progress(map[], Missing, true, Idle, [], [])

  /** A resume needs a ledger that loads and, once runs are recorded, their evidence. */
  predicate MayStart(p: Progress) { !p.file.Torn? && (p.ledger == map[] || p.evidence) }

  predicate Enabled(p: Progress, step: Step) {
    match step
    case Start => MayStart(p)
    case Execute => p.invocation.Running? && !p.invocation.executing && p.invocation.next < |p.invocation.todo|
    case Finish(_) => p.invocation.Running? && p.invocation.executing && p.invocation.next < |p.invocation.todo|
    case Interrupt => true
    case Tear => p.file.Missing? || (p.invocation.Running? && p.invocation.executing)
    case Damage => p.ledger != map[]
  }

  function Apply(schedule: seq<ScheduledRun>, p: Progress, step: Step): Progress
    requires Enabled(p, step)
  {
    match step
    case Start => p.(file := Intact, invocation := Running(Pending(schedule, p.ledger.Keys), 0, false))
    case Execute =>
      var r := p.invocation.todo[p.invocation.next];
      p.(invocation := p.invocation.(executing := true), started := p.started + [r.Key()])
    case Finish(outcome) =>
      var r := p.invocation.todo[p.invocation.next];
      p.(ledger := p.ledger[r.Key() := outcome], recorded := p.recorded + [r.Key()],
         invocation := p.invocation.(next := p.invocation.next + 1, executing := false))
    case Interrupt => p.(invocation := Idle)
    case Tear => p.(file := Torn, invocation := Idle)
    case Damage => p.(evidence := false)
  }

  function Keys(runs: seq<ScheduledRun>): (ks: seq<string>)
    ensures |ks| == |runs|
    ensures forall i | 0 <= i < |runs| :: ks[i] == runs[i].Key()
  {
    seq(|runs|, i requires 0 <= i < |runs| => runs[i].Key())
  }

  ghost predicate CompletedPrefix(schedule: seq<ScheduledRun>, recorded: seq<string>, done: set<string>) {
    |recorded| <= |schedule| && recorded == Keys(schedule[..|recorded|]) && done == KeySet(schedule[..|recorded|])
  }

  /** Completion is a prefix of the schedule, in order; the invocation is working
      through the rest. */
  ghost predicate Inv(schedule: seq<ScheduledRun>, p: Progress) {
    && CompletedPrefix(schedule, p.recorded, p.ledger.Keys)
    && (p.file.Missing? ==> p.ledger == map[] && p.invocation.Idle?)
    && (p.file.Torn? ==> p.invocation.Idle?)
    && (p.invocation.Running? ==>
          && p.invocation.next <= |p.invocation.todo| && p.invocation.next <= |p.recorded|
          && p.invocation.todo == schedule[|p.recorded| - p.invocation.next..])
  }

  /** The run a running invocation is at is the schedule's next one. */
  lemma NextRun(schedule: seq<ScheduledRun>, p: Progress)
    requires KeysDistinct(schedule) && Inv(schedule, p)
    requires p.invocation.Running? && p.invocation.next < |p.invocation.todo|
    ensures |p.recorded| < |schedule|
    ensures p.invocation.todo[p.invocation.next] == schedule[|p.recorded|]
    ensures schedule[|p.recorded|].Key() !in p.ledger
  {
    PrefixKeys(schedule, |p.recorded|);
  }

  lemma KeysNext(schedule: seq<ScheduledRun>, k: nat)
    requires k < |schedule|
    ensures Keys(schedule[..k + 1]) == Keys(schedule[..k]) + [schedule[k].Key()]
  {
    assert schedule[..k + 1] == schedule[..k] + [schedule[k]];
  }

  lemma PrefixGrows(schedule: seq<ScheduledRun>, recorded: seq<string>, done: set<string>)
    requires KeysDistinct(schedule) && CompletedPrefix(schedule, recorded, done) && |recorded| < |schedule|
    ensures CompletedPrefix(schedule, recorded + [schedule[|recorded|].Key()], done + {schedule[|recorded|].Key()})
  {
    PrefixKeys(schedule, |recorded|);
    KeysNext(schedule, |recorded|);
  }

  lemma FinishKeeps(schedule: seq<ScheduledRun>, p: Progress, outcome: Outcome)
    requires KeysDistinct(schedule) && Inv(schedule, p) && Enabled(p, Finish(outcome))
    ensures Inv(schedule, Apply(schedule, p, Finish(outcome)))
  {
    NextRun(schedule, p);
    PrefixGrows(schedule, p.recorded, p.ledger.Keys);
    var key := schedule[|p.recorded|].Key();
    assert p.ledger[key := outcome].Keys == p.ledger.Keys + {key};
  }

  lemma StepKeeps(schedule: seq<ScheduledRun>, p: Progress, step: Step)
    requires KeysDistinct(schedule) && Inv(schedule, p) && Enabled(p, step)
    ensures Inv(schedule, Apply(schedule, p, step))
  {
    if step.Start? {
      PendingAfterPrefix(schedule, |p.recorded|);
    } else if step.Finish? {
      FinishKeeps(schedule, p, step.outcome);
    }
  }

  ghost predicate History(schedule: seq<ScheduledRun>, ps: seq<Progress>, steps: seq<Step>) {
    && |ps| == |steps| + 1 && ps[0] == FRESH
    && forall n | 0 <= n < |steps| :: Enabled(ps[n], steps[n]) && ps[n + 1] == Apply(schedule, ps[n], steps[n])
  }

  lemma {:induction false} HistoryInv(schedule: seq<ScheduledRun>, ps: seq<Progress>, steps: seq<Step>, n: nat)
    requires KeysDistinct(schedule) && History(schedule, ps, steps) && n < |ps|
    ensures Inv(schedule, ps[n])
  {
    if n > 0 {
      HistoryInv(schedule, ps, steps, n - 1);
      StepKeeps(schedule, ps[n - 1], steps[n - 1]);
    } else {
      assert KeySet(schedule[..0]) == {};
    }
  }

  lemma RecordedOnce(schedule: seq<ScheduledRun>, p: Progress, i: nat, j: nat)
    requires KeysDistinct(schedule) && Inv(schedule, p) && i < j < |p.recorded|
    ensures p.recorded[i] != p.recorded[j]
  {
    assert p.recorded[i] == schedule[i].Key() && p.recorded[j] == schedule[j].Key();
  }

  lemma NothingPending(schedule: seq<ScheduledRun>, p: Progress)
    requires KeysDistinct(schedule) && Inv(schedule, p) && Pending(schedule, p.ledger.Keys) == []
    ensures p.recorded == Keys(schedule)
  {
    var k := |p.recorded|;
    PendingAfterPrefix(schedule, k);
    assert k == |schedule|;
    assert schedule[..k] == schedule;
  }

  /** Over every history of interruptions, what is complete is a prefix of the
      schedule in its order, each run of it recorded once. */
  lemma CompletedIsPrefix(schedule: seq<ScheduledRun>, ps: seq<Progress>, steps: seq<Step>, n: nat)
    requires KeysDistinct(schedule) && History(schedule, ps, steps) && n < |ps|
    ensures var p := ps[n];
            && |p.recorded| <= |schedule|
            && p.recorded == Keys(schedule[..|p.recorded|])
            && p.ledger.Keys == KeySet(schedule[..|p.recorded|])
            && (forall i, j | 0 <= i < j < |p.recorded| :: p.recorded[i] != p.recorded[j])
  {
    HistoryInv(schedule, ps, steps, n);
    var p := ps[n];
    forall i, j | 0 <= i < j < |p.recorded| ensures p.recorded[i] != p.recorded[j] {
      RecordedOnce(schedule, p, i, j);
    }
  }

  /** No run is executed once it is in the ledger. */
  lemma NeverExecutedAgain(schedule: seq<ScheduledRun>, ps: seq<Progress>, steps: seq<Step>, n: nat)
    requires KeysDistinct(schedule) && History(schedule, ps, steps) && n < |steps| && steps[n].Execute?
    ensures |ps[n + 1].started| == |ps[n].started| + 1
    ensures ps[n + 1].started[|ps[n].started|] !in ps[n].ledger
  {
    HistoryInv(schedule, ps, steps, n);
    NextRun(schedule, ps[n]);
  }

  /** A torn ledger ends the campaign: nothing is executed or recorded afterwards,
      so what was complete is not executed again. */
  lemma {:induction false} TornIsFinal(schedule: seq<ScheduledRun>, ps: seq<Progress>, steps: seq<Step>, m: nat, n: nat)
    requires KeysDistinct(schedule) && History(schedule, ps, steps) && m <= n < |ps| && ps[m].file.Torn?
    ensures ps[n].file.Torn? && ps[n].invocation.Idle?
    ensures ps[n].started == ps[m].started && ps[n].recorded == ps[m].recorded && ps[n].ledger == ps[m].ledger
  {
    if m < n {
      TornIsFinal(schedule, ps, steps, m, n - 1);
      assert ps[(n - 1) + 1] == Apply(schedule, ps[n - 1], steps[n - 1]);
    } else {
      HistoryInv(schedule, ps, steps, m);
    }
  }

  lemma AddedSize(s: set<string>, x: string)
    requires x !in s
    ensures |s + {x}| == |s| + 1
  {}

  lemma PrefixSizeNext(schedule: seq<ScheduledRun>, k: nat)
    requires KeysDistinct(schedule) && k < |schedule|
    ensures |KeySet(schedule[..k + 1])| == |KeySet(schedule[..k])| + 1
  {
    PrefixKeys(schedule, k);
    AddedSize(KeySet(schedule[..k]), schedule[k].Key());
  }

  lemma {:induction false} PrefixSize(schedule: seq<ScheduledRun>, k: nat)
    requires KeysDistinct(schedule) && k <= |schedule|
    ensures |KeySet(schedule[..k])| == k
  {
    if k == 0 {
      assert KeySet(schedule[..0]) == {};
    } else {
      PrefixSize(schedule, k - 1);
      PrefixSizeNext(schedule, k - 1);
    }
  }

  /** The campaign reports itself complete, by comparing the size of the ledger with
      that of the schedule, exactly when nothing is pending, which is exactly when
      every run of the schedule has been recorded, once each and in order. */
  lemma FinishedIff(schedule: seq<ScheduledRun>, ps: seq<Progress>, steps: seq<Step>, n: nat)
    requires KeysDistinct(schedule) && History(schedule, ps, steps) && n < |ps|
    ensures Pending(schedule, ps[n].ledger.Keys) == [] <==> ps[n].recorded == Keys(schedule)
    ensures |ps[n].ledger| < |schedule| <==> Pending(schedule, ps[n].ledger.Keys) != []
    ensures |ps[n].ledger| == |ps[n].recorded|
  {
    HistoryInv(schedule, ps, steps, n);
    var k := |ps[n].recorded|;
    PendingAfterPrefix(schedule, k);
    PrefixSize(schedule, k);
    assert |ps[n].ledger| == |ps[n].ledger.Keys|;
    if Pending(schedule, ps[n].ledger.Keys) == [] {
      NothingPending(schedule, ps[n]);
    }
  }

  // ---------------------------------------------------- when it can be finished

  ghost predicate Next(schedule: seq<ScheduledRun>, p: Progress, step: Step, q: Progress) {
    Enabled(p, step) && q == Apply(schedule, p, step)
  }

  ghost predicate Path(schedule: seq<ScheduledRun>, ps: seq<Progress>, steps: seq<Step>) {
    |ps| == |steps| + 1 && forall n | 0 <= n < |steps| :: Next(schedule, ps[n], steps[n], ps[n + 1])
  }

  ghost predicate Leads(schedule: seq<ScheduledRun>, p: Progress, q: Progress) {
    exists ps: seq<Progress>, steps: seq<Step> :: Path(schedule, ps, steps) && ps[0] == p && ps[|ps| - 1] == q
  }

  lemma LeadsHere(schedule: seq<ScheduledRun>, p: Progress)
    ensures Leads(schedule, p, p)
  {
    assert Path(schedule, [p], []);
  }

  lemma Take(schedule: seq<ScheduledRun>, r: Progress, p: Progress, step: Step) returns (q: Progress)
    requires KeysDistinct(schedule) && Leads(schedule, r, p) && Inv(schedule, p) && Enabled(p, step)
    ensures q == Apply(schedule, p, step) && Leads(schedule, r, q) && Inv(schedule, q)
  {
    q := Apply(schedule, p, step);
    StepKeeps(schedule, p, step);
    var ps, steps :| Path(schedule, ps, steps) && ps[0] == r && ps[|ps| - 1] == p;
    var longer, more := ps + [q], steps + [step];
    forall n | 0 <= n < |more| ensures Next(schedule, longer[n], more[n], longer[n + 1]) {
      if n < |steps| { assert Next(schedule, ps[n], steps[n], ps[n + 1]); }
    }
    assert Path(schedule, longer, more);
  }

  /** A running invocation can record all that is left. */
  lemma {:induction false} RunOn(schedule: seq<ScheduledRun>, r: Progress, p: Progress, outcome: Outcome)
    returns (t: Progress)
    requires KeysDistinct(schedule) && Leads(schedule, r, p) && Inv(schedule, p) && p.invocation.Running?
    ensures Leads(schedule, r, t) && t.recorded == Keys(schedule)
    decreases |schedule| - |p.recorded|
  {
    if |p.recorded| == |schedule| {
      assert schedule[..|schedule|] == schedule;
      t := p;
    } else {
      var executing := p;
      if !p.invocation.executing { executing := Take(schedule, r, p, Execute); }
      var recorded := Take(schedule, r, executing, Finish(outcome));
      t := RunOn(schedule, r, recorded, outcome);
    }
  }

  /** No invocation runs and none may start. */
  predicate Ended(p: Progress) { p.invocation.Idle? && !p.file.Missing? && !MayStart(p) }

  lemma {:induction false} EndedStays(schedule: seq<ScheduledRun>, ps: seq<Progress>, steps: seq<Step>, n: nat)
    requires Path(schedule, ps, steps) && n < |ps| && Ended(ps[0])
    ensures Ended(ps[n]) && ps[n].recorded == ps[0].recorded
  {
    if n > 0 {
      EndedStays(schedule, ps, steps, n - 1);
      assert Next(schedule, ps[n - 1], steps[n - 1], ps[(n - 1) + 1]);
    }
  }

  lemma EndedForever(schedule: seq<ScheduledRun>, p: Progress, t: Progress)
    requires Ended(p) && Leads(schedule, p, t)
    ensures t.recorded == p.recorded
  {
    var ps, steps :| Path(schedule, ps, steps) && ps[0] == p && ps[|ps| - 1] == t;
    EndedStays(schedule, ps, steps, |ps| - 1);
  }

  predicate CanGoOn(p: Progress) { p.invocation.Running? || MayStart(p) }

  /** After any history of interruptions the campaign can still record every run, once
      each and in order, if and only if it has, or an invocation is running, or the
      ledger loads and the evidence of what is recorded verifies. */
  lemma ResumableIff(schedule: seq<ScheduledRun>, ps: seq<Progress>, steps: seq<Step>, n: nat)
    requires KeysDistinct(schedule) && History(schedule, ps, steps) && n < |ps|
    ensures (exists t :: Leads(schedule, ps[n], t) && t.recorded == Keys(schedule)) <==>
            CanGoOn(ps[n]) || ps[n].recorded == Keys(schedule)
  {
    var p := ps[n];
    HistoryInv(schedule, ps, steps, n);
    LeadsHere(schedule, p);
    if CanGoOn(p) {
      var running := p;
      if !p.invocation.Running? { running := Take(schedule, p, p, Start); }
      var t := RunOn(schedule, p, running, Outcome("", ""));
    } else {
      forall t | Leads(schedule, p, t) ensures t.recorded == p.recorded { EndedForever(schedule, p, t); }
    }
  }

  /** One run recorded. */
  lemma FirstRecorded(schedule: seq<ScheduledRun>, execute: ScheduledRun -> Outcome) returns (p: Progress)
    requires KeysDistinct(schedule) && schedule != []
    ensures Leads(schedule, FRESH, p) && Inv(schedule, p) && p.file.Intact?
    ensures p.recorded == [schedule[0].Key()] && p.ledger != map[]
    ensures p.invocation == Running(schedule, 1, false)
  {
    AtFirst(schedule);
    var m: nat := 1;
    p := LoopIsSteps(schedule, FRESH, execute, m);
    FirstOutcome(schedule, execute);
    FirstOnly(schedule, execute, p);
  }

  lemma FirstOnly(schedule: seq<ScheduledRun>, execute: ScheduledRun -> Outcome, p: Progress)
    requires schedule != [] && Pending(schedule, FRESH.ledger.Keys) == schedule &&
             AfterRuns(schedule, FRESH, execute, 1, p)
    requires Keys(schedule[..1]) == [schedule[0].Key()] && schedule[0].Key() in RecordAll(map[], schedule[..1], execute)
    ensures p.file.Intact? && p.recorded == [schedule[0].Key()] && p.ledger != map[]
    ensures p.invocation == Running(schedule, 1, false)
  {}

  lemma AtFirst(schedule: seq<ScheduledRun>)
    requires KeysDistinct(schedule)
    ensures Inv(schedule, FRESH) && Pending(schedule, FRESH.ledger.Keys) == schedule
  {
    assert KeySet(schedule[..0]) == {};
    PendingAfterPrefix(schedule, 0);
    assert schedule[0..] == schedule;
  }

  lemma FirstOutcome(schedule: seq<ScheduledRun>, execute: ScheduledRun -> Outcome)
    requires schedule != []
    ensures Keys(schedule[..1]) == [schedule[0].Key()]
    ensures schedule[0].Key() in RecordAll(map[], schedule[..1], execute)
  {
    assert schedule[..1][..0] == [];
  }

  /** A ledger torn when it is first written ends a campaign before anything is
      recorded. */
  lemma EndedAtOnce(schedule: seq<ScheduledRun>) returns (torn: Progress)
    requires KeysDistinct(schedule)
    ensures Leads(schedule, FRESH, torn) && torn.file.Torn?
    ensures forall t | Leads(schedule, torn, t) :: t.recorded == []
  {
    AtFirst(schedule);
    LeadsHere(schedule, FRESH);
    torn := Take(schedule, FRESH, FRESH, Tear);
    forall t | Leads(schedule, torn, t) ensures t.recorded == [] { EndedForever(schedule, torn, t); }
  }

  /** Both ways to end early are reached, by every schedule of two runs or more: the
      ledger torn while the second run is recorded, or the first one's evidence lost
      before a resume. One run is recorded, and nothing more ever will be. */
  lemma EndedEarly(schedule: seq<ScheduledRun>, execute: ScheduledRun -> Outcome)
    returns (torn: Progress, damaged: Progress)
    requires KeysDistinct(schedule) && |schedule| >= 2
    ensures Leads(schedule, FRESH, torn) && torn.file.Torn? && torn.ledger != map[]
    ensures Leads(schedule, FRESH, damaged) && damaged.file.Intact? && damaged.ledger != map[]
    ensures forall t | Leads(schedule, torn, t) || Leads(schedule, damaged, t) :: t.recorded == [schedule[0].Key()]
  {
    var p := FirstRecorded(schedule, execute);
    var executing := Take(schedule, FRESH, p, Execute);
    torn := Take(schedule, FRESH, executing, Tear);
    var lost := Take(schedule, FRESH, p, Damage);
    damaged := Take(schedule, FRESH, lost, Interrupt);
    forall t | Leads(schedule, torn, t) || Leads(schedule, damaged, t) ensures t.recorded == [schedule[0].Key()] {
      if Leads(schedule, torn, t) {
        EndedForever(schedule, torn, t);
      } else {
        EndedForever(schedule, damaged, t);
      }
    }
  }

  /** The generated campaign: with distinct concurrency levels, whatever the
      shuffles were and however often it was interrupted, a finished campaign has
      recorded every run of the schedule once, in schedule order. */
  lemma CampaignRecordsOnce(latency: seq<bool>, levels: seq<nat>, orders: seq<seq<bool>>, ps: seq<Progress>,
                            steps: seq<Step>, n: nat)
    requires |levels| == |orders| && (forall i | 0 <= i < |orders| :: orders[i] != []) && DistinctLevels(levels)
    requires History(CampaignRuns(latency, levels, orders), ps, steps) && n < |ps|
    requires Pending(CampaignRuns(latency, levels, orders), ps[n].ledger.Keys) == []
    ensures ps[n].recorded == Keys(CampaignRuns(latency, levels, orders))
    ensures forall i, j | 0 <= i < j < |ps[n].recorded| :: ps[n].recorded[i] != ps[n].recorded[j]
    ensures HoldsCampaign(CampaignRuns(latency, levels, orders), latency, levels, orders)
    ensures |ps[n].recorded| == 2 * (|latency| + Blocks(orders))
  {
    CampaignContents(latency, levels, orders);
    CampaignKeysDistinctIff(latency, levels, orders);
    CompletedIsPrefix(CampaignRuns(latency, levels, orders), ps, steps, n);
    FinishedIff(CampaignRuns(latency, levels, orders), ps, steps, n);
  }

  // ---------------------------------------------------------- the main loop

  class CampaignState {
    var completed: Ledger

    constructor (stored: Ledger)
      ensures completed == stored
    {
      completed := stored;
    }

    predicate IsDone(r: ScheduledRun)
      reads this
    {
      r.Key() in completed
    }

    method Record(r: ScheduledRun, outcome: Outcome)
      modifies this
      ensures completed == old(completed)[r.Key() := outcome]
    {
      completed := completed[r.Key() := outcome];
    }

    method ListPending(schedule: seq<ScheduledRun>) returns (todo: seq<ScheduledRun>)
      ensures todo == Pending(schedule, completed.Keys)
    {
      todo := [];
      for i := 0 to |schedule|
        invariant todo == Pending(schedule[..i], completed.Keys)
      {
        assert schedule[..i + 1][..i] == schedule[..i];
        if !IsDone(schedule[i]) {
          todo := todo + [schedule[i]];
        }
      }
      assert schedule[..|schedule|] == schedule;
    }
  }

  /** The ledger after the runs have been executed and recorded in order. */
  function RecordAll(ledger: Ledger, runs: seq<ScheduledRun>, execute: ScheduledRun -> Outcome): Ledger {
    if runs == [] then ledger
    else
      var last := runs[|runs| - 1];
      RecordAll(ledger, runs[..|runs| - 1], execute)[last.Key() := execute(last)]
  }

  lemma {:induction false} RecordAllKeys(ledger: Ledger, runs: seq<ScheduledRun>, execute: ScheduledRun -> Outcome)
    ensures RecordAll(ledger, runs, execute).Keys == ledger.Keys + KeySet(runs)
    ensures forall k | k in ledger && k !in KeySet(runs) :: RecordAll(ledger, runs, execute)[k] == ledger[k]
  {
    if runs != [] {
      var n := |runs| - 1;
      RecordAllKeys(ledger, runs[..n], execute);
      KeySetNext(runs[..n], runs[n]);
      assert runs[..n] + [runs[n]] == runs;
    }
  }

  /** Each executed run is recorded with what its execution gave. */
  lemma {:induction false} RecordAllValues(ledger: Ledger, runs: seq<ScheduledRun>, execute: ScheduledRun -> Outcome,
                                           i: nat)
    requires KeysDistinct(runs) && i < |runs|
    ensures runs[i].Key() in RecordAll(ledger, runs, execute)
    ensures RecordAll(ledger, runs, execute)[runs[i].Key()] == execute(runs[i])
  {
    var n := |runs| - 1;
    if i < n {
      PrefixDistinct(runs, n);
      RecordAllValues(ledger, runs[..n], execute, i);
    }
  }

  /** main_async from the opened ledger on: a resume whose evidence does not verify
      is refused before anything runs; otherwise the pending runs are executed and
      recorded in order until the process is interrupted after `survives` of them.
      `execute` stands for the benchmark run. */
  method RunCampaign(schedule: seq<ScheduledRun>, state: CampaignState, evidenceVerifies: bool,
                     execute: ScheduledRun -> Outcome, survives: nat)
    returns (refused: bool, executed: seq<ScheduledRun>)
    modifies state
    ensures refused <==> old(state.completed) != map[] && !evidenceVerifies
    ensures refused ==> executed == []
    ensures !refused ==>
              var todo := Pending(schedule, old(state.completed).Keys);
              executed == todo[..if survives < |todo| then survives else |todo|]
    ensures state.completed == RecordAll(old(state.completed), executed, execute)
  {
    executed := [];
    refused := state.completed != map[] && !evidenceVerifies;
    if refused {
      return;
    }
    var todo := state.ListPending(schedule);
    var index := 0;
    while index < |todo| && index < survives
      invariant index <= |todo| && index <= survives && executed == todo[..index]
      invariant state.completed == RecordAll(old(state.completed), executed, execute)
    {
      var r := todo[index];
      state.Record(r, execute(r));
      assert (executed + [r])[..index] == executed;
      executed := executed + [r];
      index := index + 1;
    }
  }

  /** One invocation of the main loop takes a completed prefix of the schedule to
      the prefix longer by the runs it survived, and leaves the earlier records. */
  lemma InvocationExtendsPrefix(schedule: seq<ScheduledRun>, k: nat, ledger: Ledger,
                                execute: ScheduledRun -> Outcome, m: nat)
    requires KeysDistinct(schedule) && k + m <= |schedule| && ledger.Keys == KeySet(schedule[..k])
    ensures var executed := schedule[k..][..m];
            && Pending(schedule, ledger.Keys) == schedule[k..]
            && RecordAll(ledger, executed, execute).Keys == KeySet(schedule[..k + m])
            && forall key | key in ledger :: key in RecordAll(ledger, executed, execute)
                                             && RecordAll(ledger, executed, execute)[key] == ledger[key]
  {
    PendingAfterPrefix(schedule, k);
    var executed := schedule[k..][..m];
    RecordAllKeys(ledger, executed, execute);
    PrefixKeySets(schedule, k, m);
  }

  lemma {:induction false} PrefixKeySets(schedule: seq<ScheduledRun>, k: nat, m: nat)
    requires KeysDistinct(schedule) && k + m <= |schedule|
    ensures KeySet(schedule[..k + m]) == KeySet(schedule[..k]) + KeySet(schedule[k..][..m])
    ensures KeySet(schedule[..k]) !! KeySet(schedule[k..][..m])
    decreases m
  {
    if m == 0 {
      assert schedule[..k + 0] == schedule[..k];
    } else {
      PrefixKeySets(schedule, k, m - 1);
      PrefixKeys(schedule, k + m - 1);
      assert schedule[k..][..m] == schedule[k..][..m - 1] + [schedule[k + m - 1]];
      KeySetNext(schedule[k..][..m - 1], schedule[k + m - 1]);
    }
  }

  lemma OneRun(schedule: seq<ScheduledRun>, r: Progress, p: Progress, outcome: Outcome) returns (q: Progress)
    requires KeysDistinct(schedule) && Leads(schedule, r, p) && Inv(schedule, p)
    requires p.invocation.Running? && !p.invocation.executing && p.invocation.next < |p.invocation.todo|
    ensures Leads(schedule, r, q) && Inv(schedule, q)
    ensures var key := p.invocation.todo[p.invocation.next].Key();
            q == p.(started := p.started + [key], ledger := p.ledger[key := outcome], recorded := p.recorded + [key],
                    invocation := Running(p.invocation.todo, p.invocation.next + 1, false))
  {
    var executing := Take(schedule, r, p, Execute);
    q := Take(schedule, r, executing, Finish(outcome));
  }

  lemma RecordNext(ledger: Ledger, runs: seq<ScheduledRun>, execute: ScheduledRun -> Outcome, m: nat)
    requires m < |runs|
    ensures RecordAll(ledger, runs[..m + 1], execute) ==
            RecordAll(ledger, runs[..m], execute)[runs[m].Key() := execute(runs[m])]
  {
    assert runs[..m + 1][..m] == runs[..m];
  }

  /** The state after the main loop has executed and recorded m of the runs pending at
      p. */
  ghost predicate AfterRuns(schedule: seq<ScheduledRun>, p: Progress, execute: ScheduledRun -> Outcome, m: nat,
                            q: Progress)
    requires m <= |Pending(schedule, p.ledger.Keys)|
  {
    var todo := Pending(schedule, p.ledger.Keys);
    && q.invocation == Running(todo, m, false) && q.file.Intact?
    && q.ledger == RecordAll(p.ledger, todo[..m], execute)
    && q.started == p.started + Keys(todo[..m]) && q.recorded == p.recorded + Keys(todo[..m])
  }

  lemma OneMore(schedule: seq<ScheduledRun>, p: Progress, execute: ScheduledRun -> Outcome, m: nat, q: Progress)
    returns (t: Progress)
    requires KeysDistinct(schedule) && Leads(schedule, p, q) && Inv(schedule, q)
    requires m < |Pending(schedule, p.ledger.Keys)| && AfterRuns(schedule, p, execute, m, q)
    ensures Leads(schedule, p, t) && Inv(schedule, t) && AfterRuns(schedule, p, execute, m + 1, t)
  {
    var todo := Pending(schedule, p.ledger.Keys);
    t := OneRun(schedule, p, q, execute(todo[m]));
    KeysNext(todo, m);
    RecordNext(p.ledger, todo, execute, m);
  }

  /** What the main loop does before it is interrupted is such a path of steps. */
  lemma {:induction false} LoopIsSteps(schedule: seq<ScheduledRun>, p: Progress, execute: ScheduledRun -> Outcome,
                                       m: nat)
    returns (q: Progress)
    requires KeysDistinct(schedule) && Inv(schedule, p) && p.invocation.Idle? && MayStart(p)
    requires m <= |Pending(schedule, p.ledger.Keys)|
    ensures Leads(schedule, p, q) && Inv(schedule, q) && AfterRuns(schedule, p, execute, m, q)
  {
    if m == 0 {
      LeadsHere(schedule, p);
      q := Take(schedule, p, p, Start);
      assert Keys(Pending(schedule, p.ledger.Keys)[..0]) == [];
    } else {
      var before := LoopIsSteps(schedule, p, execute, m - 1);
      q := OneMore(schedule, p, execute, m - 1, before);
    }
  }

  lemma KeySetNext(runs: seq<ScheduledRun>, r: ScheduledRun)
    ensures KeySet(runs + [r]) == KeySet(runs) + {r.Key()}
  {
    forall x | x in KeySet(runs) + {r.Key()} ensures x in KeySet(runs + [r]) {
      if x == r.Key() {
        assert r in runs + [r];
      } else {
        var s :| s in runs && s.Key() == x;
        assert s in runs + [r];
      }
    }
  }
}
