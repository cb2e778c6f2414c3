/** The paired-block schedule and its run keys (src/fam/benchmark/schedule.py). The
    generator's shuffle is an arbitrary permutation. */
module Schedule {
  import opened Message
  import opened Sorting

  const LATENCY := "latency"
  const THROUGHPUT := "throughput"
  const LOCAL := "local"
  const FEDERATED := "federated"
  const LATENCY_MAX_IN_FLIGHT: nat := 1

  datatype ScheduledRun = ScheduledRun(
    workload: string, blockId: string, blockIndex: nat, withinBlockOrder: nat, topology: string, concurrency: nat)
  {
    function Key(): string { workload + "-c" + (TwoDigits(concurrency) + "-" + (blockId + "-" + topology)) }
  }

  /** Two places at least, zero filled. */
  function TwoDigits(n: nat): string { ZFill(Decimal(n), 2) }

  function BlockId(workload: string, concurrency: nat, index: nat): string {
    if workload == LATENCY then "lat-block" + TwoDigits(index)
    else "thr-c" + (TwoDigits(concurrency) + "-" + ("block" + TwoDigits(index)))
  }

  // -------------------------------------------------------- counterbalancing

  function Half(blocks: nat): seq<bool> { seq(blocks / 2, _ => true) + seq(blocks - blocks / 2, _ => false) }

  /** What shuffling in place may leave. */
  ghost predicate Shuffled(orders: seq<bool>, blocks: nat) { multiset(orders) == multiset(Half(blocks)) }

  function One(): bool -> int { (b: bool) => if b then 1 else 0 }

  lemma {:induction false} SumIsMultiplicity(s: seq<bool>)
    ensures Sum(s, One()) == multiset(s)[true]
  {
    if s != [] {
      SumIsMultiplicity(s[..|s| - 1]);
      LastOfMultiset(s);
    }
  }

  lemma {:induction false} SumOfConstant(n: nat, b: bool)
    ensures Sum(seq(n, _ => b), One()) == if b then n else 0
  {
    if n > 0 {
      SumOfConstant(n - 1, b);
      assert seq(n, _ => b)[..n - 1] == seq(n - 1, _ => b);
    }
  }

  lemma ShuffledHalf(orders: seq<bool>, blocks: nat)
    requires Shuffled(orders, blocks)
    ensures |orders| == blocks && Sum(orders, One()) == blocks / 2
  {
    SumIsMultiplicity(orders);
    SumIsMultiplicity(Half(blocks));
    SumOfConstant(blocks / 2, true);
    SumOfConstant(blocks - blocks / 2, false);
    SumConcat(seq(blocks / 2, _ => true), seq(blocks - blocks / 2, _ => false), One());
    assert |multiset(orders)| == |multiset(Half(blocks))|;
  }

  // ------------------------------------------------------------- generation

  /** The two runs of block i + 1. */
  function BlockRuns(workload: string, concurrency: nat, i: nat, localFirst: bool): seq<ScheduledRun> {
    var id := BlockId(workload, concurrency, i + 1);
    [ScheduledRun(workload, id, i + 1, 1, if localFirst then LOCAL else FEDERATED, concurrency),
     ScheduledRun(workload, id, i + 1, 2, if localFirst then FEDERATED else LOCAL, concurrency)]
  }

  function WorkloadRuns(workload: string, concurrency: nat, orders: seq<bool>): seq<ScheduledRun> {
    if orders == [] then []
    else
      var n := |orders| - 1;
      WorkloadRuns(workload, concurrency, orders[..n]) + BlockRuns(workload, concurrency, n, orders[n])
  }

  lemma NextBlock(workload: string, concurrency: nat, orders: seq<bool>, i: nat)
    requires i < |orders|
    ensures WorkloadRuns(workload, concurrency, orders[..i + 1]) ==
            WorkloadRuns(workload, concurrency, orders[..i]) + BlockRuns(workload, concurrency, i, orders[i])
  {
    assert orders[..i + 1][..i] == orders[..i];
  }

  /** generate_workload_schedule, for the orders the shuffle produced. */
  method GenerateWorkload(workload: string, concurrency: nat, orders: seq<bool>) returns (runs: seq<ScheduledRun>)
    ensures runs == WorkloadRuns(workload, concurrency, orders)
  {
    runs := [];
    for index := 0 to |orders|
      invariant runs == WorkloadRuns(workload, concurrency, orders[..index])
    {
      NextBlock(workload, concurrency, orders, index);
      var blockId := BlockId(workload, concurrency, index + 1);
      var order := if orders[index] then [LOCAL, FEDERATED] else [FEDERATED, LOCAL];
      ghost var before := runs;
      for position := 0 to 2
        invariant runs == before + BlockRuns(workload, concurrency, index, orders[index])[..position]
      {
        runs := runs + [ScheduledRun(workload, blockId, index + 1, position + 1, order[position], concurrency)];
      }
      assert BlockRuns(workload, concurrency, index, orders[index])[..2] ==
             BlockRuns(workload, concurrency, index, orders[index]);
    }
    assert orders[..|orders|] == orders;
  }

  lemma {:induction false} RunsLength(workload: string, concurrency: nat, orders: seq<bool>)
    ensures |WorkloadRuns(workload, concurrency, orders)| == 2 * |orders|
  {
    if orders != [] { RunsLength(workload, concurrency, orders[..|orders| - 1]); }
  }

  lemma {:induction false} BlockAt(workload: string, concurrency: nat, orders: seq<bool>, i: nat)
    requires i < |orders|
    ensures |WorkloadRuns(workload, concurrency, orders)| == 2 * |orders|
    ensures WorkloadRuns(workload, concurrency, orders)[2 * i..2 * i + 2] ==
            BlockRuns(workload, concurrency, i, orders[i])
  {
    var n := |orders| - 1;
    RunsLength(workload, concurrency, orders);
    RunsLength(workload, concurrency, orders[..n]);
    var front, pair := WorkloadRuns(workload, concurrency, orders[..n]), BlockRuns(workload, concurrency, n, orders[n]);
    if i < n {
      BlockAt(workload, concurrency, orders[..n], i);
      assert (front + pair)[2 * i..2 * i + 2] == front[2 * i..2 * i + 2];
    } else {
      assert (front + pair)[2 * n..2 * n + 2] == pair;
    }
  }

  /** Position p of the schedule belongs to block p / 2 + 1. */
  lemma RunAt(workload: string, concurrency: nat, orders: seq<bool>, p: nat)
    requires p < 2 * |orders|
    ensures |WorkloadRuns(workload, concurrency, orders)| == 2 * |orders|
    ensures WorkloadRuns(workload, concurrency, orders)[p] ==
            BlockRuns(workload, concurrency, p / 2, orders[p / 2])[p % 2]
  {
    var i := p / 2;
    BlockAt(workload, concurrency, orders, i);
    var runs := WorkloadRuns(workload, concurrency, orders);
    assert p == 2 * i + p % 2;
    assert runs[p] == runs[2 * i..2 * i + 2][p % 2];
  }

  function LeadsLocal(): ScheduledRun -> int {
    (r: ScheduledRun) => if r.withinBlockOrder == 1 && r.topology == LOCAL then 1 else 0
  }

  lemma {:induction false} LeadersAreOrders(workload: string, concurrency: nat, orders: seq<bool>)
    ensures Sum(WorkloadRuns(workload, concurrency, orders), LeadsLocal()) == Sum(orders, One())
  {
    if orders != [] {
      var n := |orders| - 1;
      var front, pair := WorkloadRuns(workload, concurrency, orders[..n]),
          BlockRuns(workload, concurrency, n, orders[n]);
      LeadersAreOrders(workload, concurrency, orders[..n]);
      assert LOCAL[0] != FEDERATED[0];
      SumNext(front, pair[0], LeadsLocal());
      SumNext(front + [pair[0]], pair[1], LeadsLocal());
      assert front + [pair[0]] + [pair[1]] == front + pair;
    }
  }

  /** An adjacent pair with both topologies, in order. */
  predicate IsPair(a: ScheduledRun, b: ScheduledRun, index: nat) {
    && a.blockId == b.blockId && a.blockIndex == b.blockIndex == index
    && a.withinBlockOrder == 1 && b.withinBlockOrder == 2
    && ((a.topology == LOCAL && b.topology == FEDERATED) || (a.topology == FEDERATED && b.topology == LOCAL))
  }

  lemma PairAt(workload: string, concurrency: nat, orders: seq<bool>, i: nat)
    requires i < |orders|
    ensures var runs := WorkloadRuns(workload, concurrency, orders);
            |runs| == 2 * |orders| && IsPair(runs[2 * i], runs[2 * i + 1], i + 1)
  {
    RunAt(workload, concurrency, orders, 2 * i);
    RunAt(workload, concurrency, orders, 2 * i + 1);
  }

  /** Whatever the shuffle did: each block is an adjacent pair of its two
      topologies, and exactly half of the blocks, rounded down, start local. */
  lemma Counterbalanced(workload: string, concurrency: nat, orders: seq<bool>, blocks: nat)
    requires Shuffled(orders, blocks)
    ensures |WorkloadRuns(workload, concurrency, orders)| == 2 * blocks
    ensures Sum(WorkloadRuns(workload, concurrency, orders), LeadsLocal()) == blocks / 2
    ensures forall i: nat | i < blocks ::
              IsPair(WorkloadRuns(workload, concurrency, orders)[2 * i],
                     WorkloadRuns(workload, concurrency, orders)[2 * i + 1], i + 1)
  {
    ShuffledHalf(orders, blocks);
    LeadersAreOrders(workload, concurrency, orders);
    if blocks > 0 { RunAt(workload, concurrency, orders, 0); }
    forall i: nat | i < blocks
      ensures IsPair(WorkloadRuns(workload, concurrency, orders)[2 * i],
                     WorkloadRuns(workload, concurrency, orders)[2 * i + 1], i + 1)
    {
      PairAt(workload, concurrency, orders, i);
    }
  }

  // ------------------------------------------------------------------- keys

  lemma TwoDigitsValue(n: nat)
    ensures AllDigits(TwoDigits(n)) && Value(TwoDigits(n)) == n
  {
    DecimalRoundTrip(n);
    if |Decimal(n)| < 2 { LeadingZeros(2 - |Decimal(n)|, Decimal(n)); }
  }

  /** A run of digits ends at the first separator. */
  lemma DigitsEnd(a: string, b: string, x: string, y: string)
    requires AllDigits(a) && AllDigits(b) && a + "-" + x == b + "-" + y
    ensures a == b && x == y
  {
    var s := a + "-" + x;
    assert !IsDigit(s[|a|]) && !IsDigit(s[|b|]);
    assert forall k | 0 <= k < |a| :: IsDigit(s[k]);
    assert forall k | 0 <= k < |b| :: IsDigit(s[k]);
    assert a == s[..|a|] && b == s[..|b|];
    assert x == s[|a| + 1..] && y == s[|b| + 1..];
  }

  lemma NumberEnds(m: nat, n: nat, x: string, y: string)
    requires TwoDigits(m) + "-" + x == TwoDigits(n) + "-" + y
    ensures m == n && x == y
  {
    TwoDigitsValue(m);
    TwoDigitsValue(n);
    DigitsEnd(TwoDigits(m), TwoDigits(n), x, y);
  }

  lemma CommonPrefix(p: string, x: string, y: string)
    requires p + x == p + y
    ensures x == y
  {
    assert x == (p + x)[|p|..] && y == (p + y)[|p|..];
  }

  predicate WellFormed(r: ScheduledRun) {
    && (r.workload == LATENCY || r.workload == THROUGHPUT)
    && (r.topology == LOCAL || r.topology == FEDERATED)
    && r.blockId == BlockId(r.workload, r.concurrency, r.blockIndex)
  }

  function BlockPrefix(workload: string, concurrency: nat): string {
    if workload == LATENCY then "lat-block" else "thr-c" + (TwoDigits(concurrency) + "-" + "block")
  }

  lemma BlockIdSplit(workload: string, concurrency: nat, i: nat, t: string)
    ensures BlockId(workload, concurrency, i) + "-" + t == BlockPrefix(workload, concurrency) + (TwoDigits(i) + "-" + t)
  {}

  lemma BlockTail(workload: string, concurrency: nat, i: nat, j: nat, t: string, u: string)
    requires BlockId(workload, concurrency, i) + "-" + t == BlockId(workload, concurrency, j) + "-" + u
    ensures i == j && t == u
  {
    BlockIdSplit(workload, concurrency, i, t);
    BlockIdSplit(workload, concurrency, j, u);
    CommonPrefix(BlockPrefix(workload, concurrency), TwoDigits(i) + "-" + t, TwoDigits(j) + "-" + u);
    NumberEnds(i, j, t, u);
  }

  /** The key names workload, concurrency, block and topology without ambiguity,
      for numbers of any size. */
  lemma KeyInjective(r: ScheduledRun, s: ScheduledRun)
    requires WellFormed(r) && WellFormed(s) && r.Key() == s.Key()
    ensures r.workload == s.workload && r.concurrency == s.concurrency
    ensures r.blockIndex == s.blockIndex && r.topology == s.topology
  {
    assert r.Key()[0] == r.workload[0] && s.Key()[0] == s.workload[0];
    assert LATENCY[0] != THROUGHPUT[0];
    assert r.workload == s.workload;
    var p := r.workload + "-c";
    var x, y := r.blockId + "-" + r.topology, s.blockId + "-" + s.topology;
    CommonPrefix(p, TwoDigits(r.concurrency) + "-" + x, TwoDigits(s.concurrency) + "-" + y);
    NumberEnds(r.concurrency, s.concurrency, x, y);
    BlockTail(r.workload, r.concurrency, r.blockIndex, s.blockIndex, r.topology, s.topology);
  }

  lemma KeysDiffer(r: ScheduledRun, s: ScheduledRun)
    requires WellFormed(r) && WellFormed(s)
    requires r.workload != s.workload || r.concurrency != s.concurrency || r.blockIndex != s.blockIndex ||
             r.topology != s.topology
    ensures r.Key() != s.Key()
  {
    if r.Key() == s.Key() { KeyInjective(r, s); }
  }

  ghost predicate KeysDistinct(runs: seq<ScheduledRun>) {
    forall i, j | 0 <= i < j < |runs| :: runs[i].Key() != runs[j].Key()
  }

  lemma RunWellFormed(workload: string, concurrency: nat, orders: seq<bool>, p: nat)
    requires (workload == LATENCY || workload == THROUGHPUT) && p < 2 * |orders|
    ensures |WorkloadRuns(workload, concurrency, orders)| == 2 * |orders|
    ensures var r := WorkloadRuns(workload, concurrency, orders)[p];
            WellFormed(r) && r.workload == workload && r.concurrency == concurrency && r.blockIndex == p / 2 + 1
  {
    RunAt(workload, concurrency, orders, p);
  }

  lemma RunsDiffer(workload: string, concurrency: nat, orders: seq<bool>, i: nat, j: nat)
    requires (workload == LATENCY || workload == THROUGHPUT) && i < j < 2 * |orders|
    ensures |WorkloadRuns(workload, concurrency, orders)| == 2 * |orders|
    ensures WorkloadRuns(workload, concurrency, orders)[i].Key() != WorkloadRuns(workload, concurrency, orders)[j].Key()
  {
    RunWellFormed(workload, concurrency, orders, i);
    RunWellFormed(workload, concurrency, orders, j);
    if i / 2 == j / 2 {
      assert i == 2 * (i / 2) && j == i + 1;
      PairAt(workload, concurrency, orders, i / 2);
      assert LOCAL[0] != FEDERATED[0];
    }
    var runs := WorkloadRuns(workload, concurrency, orders);
    KeysDiffer(runs[i], runs[j]);
  }

  lemma WorkloadKeysDistinct(workload: string, concurrency: nat, orders: seq<bool>)
    requires workload == LATENCY || workload == THROUGHPUT
    ensures KeysDistinct(WorkloadRuns(workload, concurrency, orders))
  {
    var runs := WorkloadRuns(workload, concurrency, orders);
    if orders != [] { RunAt(workload, concurrency, orders, 0); }
    forall i, j | 0 <= i < j < |runs| ensures runs[i].Key() != runs[j].Key() {
      RunsDiffer(workload, concurrency, orders, i, j);
    }
  }

  /** generate_campaign_schedule with both workloads: the latency blocks, then the
      throughput blocks of every concurrency level in turn. */
  function LevelRuns(levels: seq<nat>, orders: seq<seq<bool>>): seq<ScheduledRun>
    requires |levels| == |orders|
  {
    if levels == [] then []
    else
      var n := |levels| - 1;
      LevelRuns(levels[..n], orders[..n]) + WorkloadRuns(THROUGHPUT, levels[n], orders[n])
  }

  function CampaignRuns(latency: seq<bool>, levels: seq<nat>, orders: seq<seq<bool>>): seq<ScheduledRun>
    requires |levels| == |orders|
  {
    WorkloadRuns(LATENCY, LATENCY_MAX_IN_FLIGHT, latency) + LevelRuns(levels, orders)
  }

  // ----------------------------------------------------- what a campaign holds

  /** Block `index` of a workload at one concurrency, its topologies in this order. */
  predicate IsBlock(a: ScheduledRun, b: ScheduledRun, workload: string, concurrency: nat, index: nat,
      localFirst: bool)
  {
    && IsPair(a, b, index) && a.workload == b.workload == workload && a.concurrency == b.concurrency == concurrency
    && (a.topology == LOCAL <==> localFirst)
  }

  function Blocks(orders: seq<seq<bool>>): nat {
    if orders == [] then 0 else Blocks(orders[..|orders| - 1]) + |orders[|orders| - 1]|
  }

  lemma WorkloadBlockAt(workload: string, concurrency: nat, orders: seq<bool>, i: nat)
    requires i < |orders|
    ensures var runs := WorkloadRuns(workload, concurrency, orders);
            && |runs| == 2 * |orders|
            && IsBlock(runs[2 * i], runs[2 * i + 1], workload, concurrency, i + 1, orders[i])
  {
    PairAt(workload, concurrency, orders, i);
    RunAt(workload, concurrency, orders, 2 * i);
    RunAt(workload, concurrency, orders, 2 * i + 1);
    assert LOCAL[0] != FEDERATED[0];
  }

  lemma {:induction false} LevelRunsLength(levels: seq<nat>, orders: seq<seq<bool>>)
    requires |levels| == |orders|
    ensures |LevelRuns(levels, orders)| == 2 * Blocks(orders)
  {
    if levels != [] {
      var n := |levels| - 1;
      LevelRunsLength(levels[..n], orders[..n]);
      RunsLength(THROUGHPUT, levels[n], orders[n]);
    }
  }

  lemma BehindFront(front: seq<ScheduledRun>, part: seq<ScheduledRun>, k: nat, i: nat)
    requires |front| == 2 * k && 2 * i + 1 < |part|
    ensures (front + part)[2 * (k + i)] == part[2 * i] && (front + part)[2 * (k + i) + 1] == part[2 * i + 1]
  {}

  predicate LevelBlock(runs: seq<ScheduledRun>, levels: seq<nat>, orders: seq<seq<bool>>, l: nat, i: nat)
    requires |levels| == |orders| && l < |levels| && i < |orders[l]|
  {
    var p := 2 * (Blocks(orders[..l]) + i);
    p + 1 < |runs| && IsBlock(runs[p], runs[p + 1], THROUGHPUT, levels[l], i + 1, orders[l][i])
  }

  lemma {:induction false} LevelBlockAt(levels: seq<nat>, orders: seq<seq<bool>>, l: nat, i: nat)
    requires |levels| == |orders| && l < |levels| && i < |orders[l]|
    ensures LevelBlock(LevelRuns(levels, orders), levels, orders, l, i)
  {
    var n := |levels| - 1;
    if l < n {
      LevelBlockAt(levels[..n], orders[..n], l, i);
      assert orders[..n][..l] == orders[..l];
    } else {
      var front, part := LevelRuns(levels[..n], orders[..n]), WorkloadRuns(THROUGHPUT, levels[n], orders[n]);
      LevelRunsLength(levels[..n], orders[..n]);
      WorkloadBlockAt(THROUGHPUT, levels[n], orders[n], i);
      BehindFront(front, part, Blocks(orders[..n]), i);
    }
  }

  /** The whole campaign: the latency blocks first, one interaction in flight, then the
      blocks of every level in turn, each as its shuffle ordered it, and nothing else. */
  ghost predicate HoldsCampaign(runs: seq<ScheduledRun>, latency: seq<bool>, levels: seq<nat>, orders: seq<seq<bool>>)
    requires |levels| == |orders|
  {
    && |runs| == 2 * (|latency| + Blocks(orders))
    && (forall i: nat | i < |latency| :: BlockOfLatency(runs, latency, i))
    && (forall l: nat, i: nat | l < |levels| && i < |orders[l]| :: BlockOfLevel(runs, |latency|, levels, orders, l, i))
  }

  predicate BlockOfLatency(runs: seq<ScheduledRun>, latency: seq<bool>, i: nat)
    requires i < |latency|
  {
    2 * i + 1 < |runs| && IsBlock(runs[2 * i], runs[2 * i + 1], LATENCY, 1, i + 1, latency[i])
  }

  predicate BlockOfLevel(runs: seq<ScheduledRun>, before: nat, levels: seq<nat>, orders: seq<seq<bool>>, l: nat, i: nat)
    requires |levels| == |orders| && l < |levels| && i < |orders[l]|
  {
    var p := 2 * (before + Blocks(orders[..l]) + i);
    p + 1 < |runs| && IsBlock(runs[p], runs[p + 1], THROUGHPUT, levels[l], i + 1, orders[l][i])
  }

  lemma CampaignContents(latency: seq<bool>, levels: seq<nat>, orders: seq<seq<bool>>)
    requires |levels| == |orders|
    ensures HoldsCampaign(CampaignRuns(latency, levels, orders), latency, levels, orders)
  {
    var a, b := WorkloadRuns(LATENCY, LATENCY_MAX_IN_FLIGHT, latency), LevelRuns(levels, orders);
    RunsLength(LATENCY, LATENCY_MAX_IN_FLIGHT, latency);
    LevelRunsLength(levels, orders);
    forall i: nat | i < |latency| ensures BlockOfLatency(a + b, latency, i) {
      WorkloadBlockAt(LATENCY, LATENCY_MAX_IN_FLIGHT, latency, i);
    }
    forall l: nat, i: nat | l < |levels| && i < |orders[l]|
      ensures BlockOfLevel(a + b, |latency|, levels, orders, l, i)
    {
      LevelBlockAt(levels, orders, l, i);
      BehindFront(a, b, |latency|, Blocks(orders[..l]) + i);
    }
  }

  /** generate_campaign_schedule with both workloads, for the orders of the shuffles. */
  method GenerateCampaign(latency: seq<bool>, levels: seq<nat>, orders: seq<seq<bool>>)
    returns (runs: seq<ScheduledRun>)
    requires |levels| == |orders|
    ensures runs == CampaignRuns(latency, levels, orders) && HoldsCampaign(runs, latency, levels, orders)
  {
    runs := GenerateWorkload(LATENCY, LATENCY_MAX_IN_FLIGHT, latency);
    ghost var first := runs;
    for l := 0 to |levels|
      invariant runs == first + LevelRuns(levels[..l], orders[..l])
    {
      var part := GenerateWorkload(THROUGHPUT, levels[l], orders[l]);
      LevelRunsNext(levels, orders, l);
      runs := runs + part;
    }
    assert levels[..|levels|] == levels && orders[..|orders|] == orders;
    CampaignContents(latency, levels, orders);
  }

  lemma LevelRunsNext(levels: seq<nat>, orders: seq<seq<bool>>, l: nat)
    requires |levels| == |orders| && l < |levels|
    ensures LevelRuns(levels[..l + 1], orders[..l + 1]) ==
            LevelRuns(levels[..l], orders[..l]) + WorkloadRuns(THROUGHPUT, levels[l], orders[l])
  {
    assert levels[..l + 1][..l] == levels[..l] && orders[..l + 1][..l] == orders[..l];
  }

  /** The block ids that the tests name. */
  lemma DocumentedBlockIds()
    ensures BlockId(LATENCY, 1, 1) == "lat-block" + "01"
    ensures BlockId(THROUGHPUT, 8, 1) == "thr-c" + ("08" + "-" + ("block" + "01"))
  {
    assert Decimal(1) == "1" && Decimal(8) == "8" && Repeat('0', 1) == "0";
    assert LATENCY[0] != THROUGHPUT[0];
  }

  lemma TwoDigitsWidth(n: nat)
    ensures |TwoDigits(n)| >= 2 && (|TwoDigits(n)| > 2 ==> TwoDigits(n) == Decimal(n))
  {
    DecimalRoundTrip(n);
  }

  /** Every run of the throughput part carries one of the levels; every level with
      blocks has a run of its first block on the local server. */
  lemma {:induction false} LevelMembers(levels: seq<nat>, orders: seq<seq<bool>>)
    requires |levels| == |orders|
    ensures forall r | r in LevelRuns(levels, orders) ::
              WellFormed(r) && r.workload == THROUGHPUT && r.concurrency in levels
  {
    if levels != [] {
      var n := |levels| - 1;
      LevelMembers(levels[..n], orders[..n]);
      var part := WorkloadRuns(THROUGHPUT, levels[n], orders[n]);
      forall r | r in part ensures WellFormed(r) && r.workload == THROUGHPUT && r.concurrency == levels[n] {
        PartMember(THROUGHPUT, levels[n], orders[n], r);
      }
    }
  }

  lemma PartMember(workload: string, concurrency: nat, orders: seq<bool>, r: ScheduledRun)
    requires (workload == LATENCY || workload == THROUGHPUT) && r in WorkloadRuns(workload, concurrency, orders)
    ensures WellFormed(r) && r.workload == workload && r.concurrency == concurrency
  {
    var runs := WorkloadRuns(workload, concurrency, orders);
    var p :| 0 <= p < |runs| && runs[p] == r;
    if orders != [] {
      RunAt(workload, concurrency, orders, 0);
      RunWellFormed(workload, concurrency, orders, p);
    }
  }

  lemma ConcatDistinct(a: seq<ScheduledRun>, b: seq<ScheduledRun>)
    requires KeysDistinct(a) && KeysDistinct(b) && forall r, s | r in a && s in b :: r.Key() != s.Key()
    ensures KeysDistinct(a + b)
  {
    forall i, j | 0 <= i < j < |a + b| ensures (a + b)[i].Key() != (a + b)[j].Key() {
      if i < |a| <= j { assert a[i] in a && b[j - |a|] in b; }
    }
  }

  ghost predicate DistinctLevels(levels: seq<nat>) { forall i, j | 0 <= i < j < |levels| :: levels[i] != levels[j] }

  lemma {:induction false} LevelKeysDistinct(levels: seq<nat>, orders: seq<seq<bool>>)
    requires |levels| == |orders| && DistinctLevels(levels)
    ensures KeysDistinct(LevelRuns(levels, orders))
  {
    if levels != [] {
      var n := |levels| - 1;
      var front, part := LevelRuns(levels[..n], orders[..n]), WorkloadRuns(THROUGHPUT, levels[n], orders[n]);
      LevelKeysDistinct(levels[..n], orders[..n]);
      LevelMembers(levels[..n], orders[..n]);
      WorkloadKeysDistinct(THROUGHPUT, levels[n], orders[n]);
      forall r, s | r in front && s in part ensures r.Key() != s.Key() {
        PartMember(THROUGHPUT, levels[n], orders[n], s);
        KeysDiffer(r, s);
      }
      ConcatDistinct(front, part);
    }
  }

  lemma {:induction false} LevelHasFirst(levels: seq<nat>, orders: seq<seq<bool>>, i: nat) returns (r: ScheduledRun)
    requires |levels| == |orders| && i < |levels| && orders[i] != []
    ensures r in LevelRuns(levels, orders)
    ensures r.Key() == ScheduledRun(THROUGHPUT, BlockId(THROUGHPUT, levels[i], 1), 1, 1, LOCAL, levels[i]).Key()
  {
    var n := |levels| - 1;
    if i < n {
      r := LevelHasFirst(levels[..n], orders[..n], i);
    } else {
      var part := WorkloadRuns(THROUGHPUT, levels[n], orders[n]);
      RunAt(THROUGHPUT, levels[n], orders[n], 0);
      RunAt(THROUGHPUT, levels[n], orders[n], 1);
      r := if orders[n][0] then part[0] else part[1];
      assert r in part;
    }
  }

  lemma ClashWithin(a: seq<ScheduledRun>, b: seq<ScheduledRun>)
    requires !KeysDistinct(a) || !KeysDistinct(b)
    ensures !KeysDistinct(a + b)
  {
    if !KeysDistinct(a) {
      var i, j :| 0 <= i < j < |a| && a[i].Key() == a[j].Key();
      assert (a + b)[i].Key() == (a + b)[j].Key();
    } else {
      var i, j :| 0 <= i < j < |b| && b[i].Key() == b[j].Key();
      assert (a + b)[|a| + i].Key() == (a + b)[|a| + j].Key();
    }
  }

  lemma ClashAcross(a: seq<ScheduledRun>, b: seq<ScheduledRun>, r: ScheduledRun, s: ScheduledRun)
    requires r in a && s in b && r.Key() == s.Key()
    ensures !KeysDistinct(a + b)
  {
    var i :| 0 <= i < |a| && a[i] == r;
    var j :| 0 <= j < |b| && b[j] == s;
    assert (a + b)[i].Key() == (a + b)[|a| + j].Key();
  }

  lemma {:induction false} RepeatedLevelClash(levels: seq<nat>, orders: seq<seq<bool>>, i: nat, j: nat)
    requires |levels| == |orders| && i < j < |levels| && levels[i] == levels[j] && orders[i] != [] && orders[j] != []
    ensures !KeysDistinct(LevelRuns(levels, orders))
  {
    var n := |levels| - 1;
    var front, part := LevelRuns(levels[..n], orders[..n]), WorkloadRuns(THROUGHPUT, levels[n], orders[n]);
    if j < n {
      RepeatedLevelClash(levels[..n], orders[..n], i, j);
      ClashWithin(front, part);
    } else {
      var r := LevelHasFirst(levels[..n], orders[..n], i);
      var s := LevelHasFirst([levels[n]], [orders[n]], 0);
      assert [levels[n]][..0] == [] && LevelRuns([levels[n]], [orders[n]]) == [] + part;
      ClashAcross(front, part, r, s);
    }
  }

  lemma LatencyApart(latency: seq<bool>, levels: seq<nat>, orders: seq<seq<bool>>)
    requires |levels| == |orders|
    ensures forall r, s | r in WorkloadRuns(LATENCY, LATENCY_MAX_IN_FLIGHT, latency) &&
            s in LevelRuns(levels, orders) ::
              r.Key() != s.Key()
  {
    LevelMembers(levels, orders);
    assert LATENCY[0] != THROUGHPUT[0];
    forall r, s | r in WorkloadRuns(LATENCY, LATENCY_MAX_IN_FLIGHT, latency) && s in LevelRuns(levels, orders)
      ensures r.Key() != s.Key()
    {
      PartMember(LATENCY, LATENCY_MAX_IN_FLIGHT, latency, r);
      KeysDiffer(r, s);
    }
  }

  /** Run keys identify runs exactly when the concurrency levels are distinct. */
  lemma CampaignKeysDistinctIff(latency: seq<bool>, levels: seq<nat>, orders: seq<seq<bool>>)
    requires |levels| == |orders| && forall i | 0 <= i < |orders| :: orders[i] != []
    ensures KeysDistinct(CampaignRuns(latency, levels, orders)) <==> DistinctLevels(levels)
  {
    var a, b := WorkloadRuns(LATENCY, LATENCY_MAX_IN_FLIGHT, latency), LevelRuns(levels, orders);
    if DistinctLevels(levels) {
      WorkloadKeysDistinct(LATENCY, LATENCY_MAX_IN_FLIGHT, latency);
      LevelKeysDistinct(levels, orders);
      LatencyApart(latency, levels, orders);
      ConcatDistinct(a, b);
    } else {
      var i, j :| 0 <= i < j < |levels| && levels[i] == levels[j];
      RepeatedLevelClash(levels, orders, i, j);
      ClashWithin(a, b);
    }
  }
}
