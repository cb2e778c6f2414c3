/** Nearest-rank percentiles and the paired-block bootstrap
    (src/fam/analysis/e3.py). Rationals are exact; a draw of block indices is an
    arbitrary sequence. */
module Percentile {
  import opened Options
  import opened Sorting

  function Value(): real -> real { (x: real) => x }

  ghost predicate Ascending(s: seq<real>) { SortedBy(s, Value()) }

  function Ceiling(x: real): int { -((-x).Floor) }

  /** The 1-based rank is the share rounded up, kept within 1..n. */
  function RankIndex(n: nat, share: real): (i: nat)
    requires n > 0
    ensures i < n
  {
    var ceiling := Ceiling(share);
    var rank := if ceiling < 1 then 1 else ceiling;
    (if rank < n then rank else n) - 1
  }

  function AtShare(sorted: seq<real>, share: real): Option<real> {
    if sorted == [] then None else Some(sorted[RankIndex(|sorted|, share)])
  }

  /** The product q * n, as a sum so that reasoning about it stays linear. */
  function Share(q: real, n: nat): real { if n == 0 then 0.0 else Share(q, n - 1) + q }

  lemma {:induction false} ShareIsProduct(q: real, n: nat)
    ensures Share(q, n) == q * n as real
  {
    if n > 0 {
      ShareIsProduct(q, n - 1);
      OneLess(q, n as real);
      assert (n - 1) as real == n as real - 1.0;
    }
  }

  lemma OneLess(q: real, x: real)
    ensures q * (x - 1.0) == q * x - q
  {}

  /** percentile. */
  function NearestRank(sorted: seq<real>, q: real): Option<real> { AtShare(sorted, Share(q, |sorted|)) }

  // ---------------------------------------------------------------- counting

  function AtMost(x: real): real -> int { (v: real) => if v <= x then 1 else 0 }

  function Below(x: real): real -> int { (v: real) => if v < x then 1 else 0 }

  lemma {:induction false} CountRange(s: seq<real>, f: real -> int)
    requires forall v: real :: 0 <= f(v) <= 1
    ensures 0 <= Sum(s, f) <= |s|
  {
    if s != [] { CountRange(s[..|s| - 1], f); }
  }

  lemma {:induction false} CountAll(s: seq<real>, f: real -> int)
    requires forall i | 0 <= i < |s| :: f(s[i]) == 1
    ensures Sum(s, f) == |s|
  {
    if s != [] { CountAll(s[..|s| - 1], f); }
  }

  lemma {:induction false} CountNone(s: seq<real>, f: real -> int)
    requires forall i | 0 <= i < |s| :: f(s[i]) == 0
    ensures Sum(s, f) == 0
  {
    if s != [] { CountNone(s[..|s| - 1], f); }
  }

  lemma CountAtLeast(s: seq<real>, k: nat, f: real -> int)
    requires k <= |s| && (forall v: real :: 0 <= f(v) <= 1) && forall i | 0 <= i < k :: f(s[i]) == 1
    ensures Sum(s, f) >= k
  {
    assert s == s[..k] + s[k..];
    SumConcat(s[..k], s[k..], f);
    CountAll(s[..k], f);
    CountRange(s[k..], f);
  }

  lemma CountAtMost(s: seq<real>, k: nat, f: real -> int)
    requires k <= |s| && (forall v: real :: 0 <= f(v) <= 1) && forall i | k <= i < |s| :: f(s[i]) == 0
    ensures Sum(s, f) <= k
  {
    assert s == s[..k] + s[k..];
    SumConcat(s[..k], s[k..], f);
    CountRange(s[..k], f);
    CountNone(s[k..], f);
  }

  lemma AscendingAt(s: seq<real>, i: nat, j: nat)
    requires Ascending(s) && i <= j < |s|
    ensures s[i] <= s[j]
  {
    if i < j { assert Value()(s[i]) <= Value()(s[j]); }
  }

  /** In a sorted sample the k-th value is at most x exactly when more than k
      values are. */
  lemma AtMostCount(s: seq<real>, k: nat, x: real)
    requires Ascending(s) && k < |s|
    ensures s[k] <= x <==> Sum(s, AtMost(x)) > k
  {
    if s[k] <= x {
      forall i | 0 <= i < k + 1 ensures AtMost(x)(s[i]) == 1 { AscendingAt(s, i, k); }
      CountAtLeast(s, k + 1, AtMost(x));
    } else {
      forall i | k <= i < |s| ensures AtMost(x)(s[i]) == 0 { AscendingAt(s, k, i); }
      CountAtMost(s, k, AtMost(x));
    }
  }

  /** It is below x exactly when more than k values are. */
  lemma BelowCount(s: seq<real>, k: nat, x: real)
    requires Ascending(s) && k < |s|
    ensures s[k] < x <==> Sum(s, Below(x)) > k
  {
    if s[k] < x {
      forall i | 0 <= i < k + 1 ensures Below(x)(s[i]) == 1 { AscendingAt(s, i, k); }
      CountAtLeast(s, k + 1, Below(x));
    } else {
      forall i | k <= i < |s| ensures Below(x)(s[i]) == 0 { AscendingAt(s, k, i); }
      CountAtMost(s, k, Below(x));
    }
  }

  /** The nearest-rank percentile is the one sample value that at least a share q
      of the sample does not exceed while less than q lies below it. */
  lemma NearestRankMeaning(s: seq<real>, q: real, v: real)
    requires Ascending(s) && s != [] && 0.0 < q <= 1.0
    ensures NearestRank(s, q) == Some(v) <==>
              v in s && Sum(s, AtMost(v)) as real >= Share(q, |s|) && (Sum(s, Below(v)) as real) < Share(q, |s|)
  {
    ShareBounds(q, |s|);
    ShareMeaning(s, Share(q, |s|), v);
  }

  lemma ShareMeaning(s: seq<real>, share: real, v: real)
    requires Ascending(s) && s != [] && 0.0 < share <= |s| as real
    ensures AtShare(s, share) == Some(v) <==>
              v in s && Sum(s, AtMost(v)) as real >= share && (Sum(s, Below(v)) as real) < share
  {
    var k := RankIndex(|s|, share);
    assert k as real < share <= (k + 1) as real;
    AtMostCount(s, k, v);
    BelowCount(s, k, v);
  }

  lemma {:induction false} ShareBounds(q: real, n: nat)
    requires 0.0 < q <= 1.0 && n > 0
    ensures 0.0 < Share(q, n) <= n as real
  {
    if n > 1 { ShareBounds(q, n - 1); }
  }

  lemma RankIndexMonotone(n: nat, a: real, b: real)
    requires n > 0 && a <= b
    ensures RankIndex(n, a) <= RankIndex(n, b)
  {}

  lemma {:induction false} ShareMonotone(q1: real, q2: real, n: nat)
    requires q1 <= q2
    ensures Share(q1, n) <= Share(q2, n)
  {
    if n > 0 { ShareMonotone(q1, q2, n - 1); }
  }

  lemma NearestRankMonotone(s: seq<real>, q1: real, q2: real)
    requires Ascending(s) && s != [] && q1 <= q2
    ensures NearestRank(s, q1).value <= NearestRank(s, q2).value
  {
    ShareMonotone(q1, q2, |s|);
    AtShareMonotone(s, Share(q1, |s|), Share(q2, |s|));
  }

  lemma AtShareMonotone(s: seq<real>, a: real, b: real)
    requires Ascending(s) && s != [] && a <= b
    ensures AtShare(s, a).value <= AtShare(s, b).value
  {
    RankIndexMonotone(|s|, a, b);
    AscendingAt(s, RankIndex(|s|, a), RankIndex(|s|, b));
  }

  // --------------------------------------------------------------- domination

  ghost predicate Dominates(high: seq<real>, low: seq<real>) {
    |high| == |low| && forall i | 0 <= i < |low| :: low[i] <= high[i]
  }

  lemma {:induction false} DominatedCounts(high: seq<real>, low: seq<real>, x: real)
    requires Dominates(high, low)
    ensures Sum(high, AtMost(x)) <= Sum(low, AtMost(x))
  {
    if low != [] { DominatedCounts(high[..|high| - 1], low[..|low| - 1], x); }
  }

  /** Sorting keeps elementwise domination. */
  lemma SortedDominates(high: seq<real>, low: seq<real>)
    requires Dominates(high, low)
    ensures Dominates(Sort(high, Value()), Sort(low, Value()))
  {
    var h, l := Sort(high, Value()), Sort(low, Value());
    SortMembers(high, Value());
    SortMembers(low, Value());
    SortSorted(high, Value());
    SortSorted(low, Value());
    forall k | 0 <= k < |l| ensures l[k] <= h[k] {
      AtMostCount(h, k, h[k]);
      AtMostCount(l, k, h[k]);
      SumSort(high, Value(), AtMost(h[k]));
      SumSort(low, Value(), AtMost(h[k]));
      DominatedCounts(high, low, h[k]);
    }
  }

  // ---------------------------------------------------------------- bootstrap

  /** The sorted round-trip times of one paired block. */
  datatype Block = Block(local: seq<real>, federated: seq<real>)

  type Draw = seq<nat>

  predicate ValidDraw(blocks: seq<Block>, draw: Draw) { forall i | 0 <= i < |draw| :: draw[i] < |blocks| }

  function Chain(blocks: seq<Block>, draw: Draw, federated: bool): seq<real>
    requires ValidDraw(blocks, draw)
  {
    if draw == [] then []
    else
      var b := blocks[draw[|draw| - 1]];
      Chain(blocks, draw[..|draw| - 1], federated) + (if federated then b.federated else b.local)
  }

  function Pooled(blocks: seq<Block>, draw: Draw, federated: bool): seq<real>
    requires ValidDraw(blocks, draw)
  {
    Sort(Chain(blocks, draw, federated), Value())
  }

  /** What one replicate contributes for a quantile: nothing when a pool is empty,
      and no ratio over a zero denominator. */
  datatype Replicates = Replicates(local: seq<real>, federated: seq<real>, difference: seq<real>, ratio: seq<real>)

  const NONE := Replicates([], [], [], [])

  function WithReplicate(r: Replicates, lo: Option<real>, fe: Option<real>): Replicates {
    if lo.None? || fe.None? then r
    else Replicates(r.local + [lo.value], r.federated + [fe.value], r.difference + [fe.value - lo.value],
                    if lo.value == 0.0 then r.ratio else r.ratio + [fe.value / lo.value])
  }

  function ReplicatesOf(blocks: seq<Block>, draws: seq<Draw>, q: real): Replicates
    requires forall i | 0 <= i < |draws| :: ValidDraw(blocks, draws[i])
  {
    if draws == [] then NONE
    else
      var draw := draws[|draws| - 1];
      WithReplicate(ReplicatesOf(blocks, draws[..|draws| - 1], q),
                    NearestRank(Pooled(blocks, draw, false), q), NearestRank(Pooled(blocks, draw, true), q))
  }

  lemma ReplicatesNext(blocks: seq<Block>, draws: seq<Draw>, i: nat, q: real)
    requires i < |draws| && forall j | 0 <= j < |draws| :: ValidDraw(blocks, draws[j])
    ensures ReplicatesOf(blocks, draws[..i + 1], q) ==
            WithReplicate(ReplicatesOf(blocks, draws[..i], q),
                          NearestRank(Pooled(blocks, draws[i], false), q),
                          NearestRank(Pooled(blocks, draws[i], true), q))
  {
    assert draws[..i + 1][..i] == draws[..i];
  }

  datatype Interval = Interval(low: Option<real>, high: Option<real>)

  /** _interval. */
  function IntervalOf(values: seq<real>, confidence: real): Interval {
    var ordered := Sort(values, Value());
    var tail := (1.0 - confidence) / 2.0;
    Interval(NearestRank(ordered, tail), NearestRank(ordered, 1.0 - tail))
  }

  /** Shares that are not positive give the least value, whole ones the greatest. */
  lemma NearestRankEnds(s: seq<real>, q: real)
    requires s != []
    ensures q <= 0.0 ==> NearestRank(s, q) == Some(s[0])
    ensures q >= 1.0 ==> NearestRank(s, q) == Some(s[|s| - 1])
  {
    if q <= 0.0 { ShareMonotone(q, 0.0, |s|); }
    if q >= 1.0 { ShareMonotone(1.0, q, |s|); }
    ShareOfEnds(|s|);
  }

  lemma {:induction false} ShareOfEnds(n: nat)
    ensures Share(0.0, n) == 0.0 && Share(1.0, n) == n as real
  {
    if n > 0 { ShareOfEnds(n - 1); }
  }

  /** v is the value of the sample that at least a share q of it does not exceed while
      less than q lies below. */
  ghost predicate IsQuantile(values: seq<real>, q: real, v: real) {
    && v in values
    && Sum(values, AtMost(v)) as real >= Share(q, |values|) && (Sum(values, Below(v)) as real) < Share(q, |values|)
  }

  /** The interval's ends, on the unsorted values: the quantiles that leave half of
      what the confidence leaves on either side. */
  lemma IntervalMeaning(values: seq<real>, confidence: real)
    requires values != [] && 0.0 <= confidence < 1.0
    ensures var i := IntervalOf(values, confidence);
            && i.low.Some? && IsQuantile(values, (1.0 - confidence) / 2.0, i.low.value)
            && i.high.Some? && IsQuantile(values, (1.0 + confidence) / 2.0, i.high.value)
  {
    assert 1.0 - (1.0 - confidence) / 2.0 == (1.0 + confidence) / 2.0;
    QuantileOfSorted(values, (1.0 - confidence) / 2.0);
    QuantileOfSorted(values, (1.0 + confidence) / 2.0);
  }

  lemma QuantileOfSorted(values: seq<real>, q: real)
    requires values != [] && 0.0 < q <= 1.0
    ensures NearestRank(Sort(values, Value()), q).Some?
    ensures IsQuantile(values, q, NearestRank(Sort(values, Value()), q).value)
  {
    var s := Sort(values, Value());
    SortSorted(values, Value());
    SortMembers(values, Value());
    var v := NearestRank(s, q).value;
    NearestRankMeaning(s, q, v);
    SumSort(values, Value(), AtMost(v));
    SumSort(values, Value(), Below(v));
  }

  // --------------------------------------------------- what a replicate contains

  function Times(b: Block, federated: bool): seq<real> { if federated then b.federated else b.local }

  function InBlock(blocks: seq<Block>, federated: bool, f: real -> int): nat -> int {
    (i: nat) => if i < |blocks| then Sum(Times(blocks[i], federated), f) else 0
  }

  /** A pool is sorted and has every time of every selected block, once for each time
      the block was drawn, and no other. */
  lemma {:induction false} PoolHolds(blocks: seq<Block>, draw: Draw, federated: bool, f: real -> int)
    requires ValidDraw(blocks, draw)
    ensures Ascending(Pooled(blocks, draw, federated))
    ensures Sum(Pooled(blocks, draw, federated), f) == Sum(draw, InBlock(blocks, federated, f))
  {
    SortSorted(Chain(blocks, draw, federated), Value());
    SumSort(Chain(blocks, draw, federated), Value(), f);
    ChainHolds(blocks, draw, federated, f);
  }

  lemma {:induction false} ChainHolds(blocks: seq<Block>, draw: Draw, federated: bool, f: real -> int)
    requires ValidDraw(blocks, draw)
    ensures Sum(Chain(blocks, draw, federated), f) == Sum(draw, InBlock(blocks, federated, f))
  {
    if draw != [] {
      var front, b := draw[..|draw| - 1], blocks[draw[|draw| - 1]];
      ChainHolds(blocks, front, federated, f);
      SumConcat(Chain(blocks, front, federated), Times(b, federated), f);
    }
  }

  function At(blocks: seq<Block>, draw: Draw, federated: bool, q: real): Option<real>
    requires ValidDraw(blocks, draw)
  {
    NearestRank(Pooled(blocks, draw, federated), q)
  }

  /** The draws both of whose pools have a percentile, and those of them over whose
      local one a ratio can be taken. */
  function Usable(blocks: seq<Block>, draws: seq<Draw>, q: real, divisible: bool): (us: seq<Draw>)
    requires forall i | 0 <= i < |draws| :: ValidDraw(blocks, draws[i])
    ensures forall i | 0 <= i < |us| ::
              && ValidDraw(blocks, us[i]) && At(blocks, us[i], false, q).Some? && At(blocks, us[i], true, q).Some?
              && (divisible ==> At(blocks, us[i], false, q).value != 0.0)
  {
    if draws == [] then []
    else
      var last := draws[|draws| - 1];
      var lo := At(blocks, last, false, q);
      Usable(blocks, draws[..|draws| - 1], q, divisible) +
      (if lo.Some? && At(blocks, last, true, q).Some? && (divisible ==> lo.value != 0.0) then [last] else [])
  }

  /** Entry by entry, what the replicate lists hold for the usable draws. */
  lemma {:induction false} ReplicateEntries(blocks: seq<Block>, draws: seq<Draw>, q: real)
    requires forall i | 0 <= i < |draws| :: ValidDraw(blocks, draws[i])
    ensures var r, us := ReplicatesOf(blocks, draws, q), Usable(blocks, draws, q, false);
            && |r.local| == |r.federated| == |r.difference| == |us|
            && forall i | 0 <= i < |us| ::
                 && r.local[i] == At(blocks, us[i], false, q).value
                 && r.federated[i] == At(blocks, us[i], true, q).value
                 && r.local[i] + r.difference[i] == r.federated[i]
    ensures var r, us := ReplicatesOf(blocks, draws, q), Usable(blocks, draws, q, true);
            && |r.ratio| == |us|
            && forall i | 0 <= i < |us| ::
                 r.ratio[i] == At(blocks, us[i], true, q).value / At(blocks, us[i], false, q).value
  {
    if draws != [] { ReplicateEntries(blocks, draws[..|draws| - 1], q); }
  }

  /** The replicate loop of paired_bootstrap_latency for one quantile. */
  method Bootstrap(blocks: seq<Block>, draws: seq<Draw>, q: real, confidence: real)
    returns (r: Replicates, difference: Interval, ratio: Interval)
    requires forall i | 0 <= i < |draws| :: ValidDraw(blocks, draws[i])
    ensures r == ReplicatesOf(blocks, draws, q)
    ensures difference == IntervalOf(r.difference, confidence) && ratio == IntervalOf(r.ratio, confidence)
  {
    r := NONE;
    for i := 0 to |draws|
      invariant r == ReplicatesOf(blocks, draws[..i], q)
    {
      ReplicatesNext(blocks, draws, i, q);
      var lo := NearestRank(Pooled(blocks, draws[i], false), q);
      var fe := NearestRank(Pooled(blocks, draws[i], true), q);
      r := WithReplicate(r, lo, fe);
    }
    assert draws[..|draws|] == draws;
    difference := IntervalOf(r.difference, confidence);
    ratio := IntervalOf(r.ratio, confidence);
  }

  ghost predicate BlocksDominate(blocks: seq<Block>) {
    forall b | 0 <= b < |blocks| :: Dominates(blocks[b].federated, blocks[b].local)
  }

  ghost predicate BlocksPositive(blocks: seq<Block>) {
    forall b, i | 0 <= b < |blocks| && 0 <= i < |blocks[b].local| :: blocks[b].local[i] > 0.0
  }

  lemma {:induction false} ChainDominates(blocks: seq<Block>, draw: Draw)
    requires BlocksDominate(blocks) && ValidDraw(blocks, draw)
    ensures Dominates(Chain(blocks, draw, true), Chain(blocks, draw, false))
  {
    if draw != [] {
      ChainDominates(blocks, draw[..|draw| - 1]);
      assert Dominates(blocks[draw[|draw| - 1]].federated, blocks[draw[|draw| - 1]].local);
    }
  }

  lemma {:induction false} ChainPositive(blocks: seq<Block>, draw: Draw)
    requires BlocksPositive(blocks) && ValidDraw(blocks, draw)
    ensures forall v | v in Chain(blocks, draw, false) :: v > 0.0
  {
    if draw != [] { ChainPositive(blocks, draw[..|draw| - 1]); }
  }

  lemma NearestRankDominates(high: seq<real>, low: seq<real>, q: real)
    requires Dominates(high, low)
    ensures NearestRank(high, q).Some? <==> NearestRank(low, q).Some?
    ensures NearestRank(low, q).Some? ==> NearestRank(low, q).value <= NearestRank(high, q).value
    ensures NearestRank(low, q).Some? ==> NearestRank(low, q).value in low
  {
    AtShareDominates(high, low, Share(q, |low|));
  }

  lemma AtShareDominates(high: seq<real>, low: seq<real>, share: real)
    requires Dominates(high, low)
    ensures AtShare(high, share).Some? <==> AtShare(low, share).Some?
    ensures AtShare(low, share).Some? ==> AtShare(low, share).value <= AtShare(high, share).value
    ensures AtShare(low, share).Some? ==> AtShare(low, share).value in low
  {}

  lemma PoolPositive(blocks: seq<Block>, draw: Draw)
    requires BlocksPositive(blocks) && ValidDraw(blocks, draw)
    ensures forall v | v in Pooled(blocks, draw, false) :: v > 0.0
  {
    ChainPositive(blocks, draw);
    SortMembers(Chain(blocks, draw, false), Value());
  }

  /** One replicate: the pooled federated percentile is at least the local one. */
  lemma ReplicateDominates(blocks: seq<Block>, draw: Draw, q: real)
    requires BlocksDominate(blocks) && ValidDraw(blocks, draw)
    ensures var lo, fe := NearestRank(Pooled(blocks, draw, false), q), NearestRank(Pooled(blocks, draw, true), q);
            && (lo.Some? <==> fe.Some?)
            && (lo.Some? ==> lo.value <= fe.value && (BlocksPositive(blocks) ==> lo.value > 0.0))
  {
    ChainDominates(blocks, draw);
    SortedDominates(Chain(blocks, draw, true), Chain(blocks, draw, false));
    NearestRankDominates(Pooled(blocks, draw, true), Pooled(blocks, draw, false), q);
    if BlocksPositive(blocks) { PoolPositive(blocks, draw); }
  }

  ghost predicate AllAtLeast(s: seq<real>, bound: real) { forall i | 0 <= i < |s| :: s[i] >= bound }

  lemma QuotientAtLeastOne(fe: real, lo: real)
    requires 0.0 < lo <= fe
    ensures fe / lo >= 1.0
  {}

  lemma {:induction false} ReplicatesDominate(blocks: seq<Block>, draws: seq<Draw>, q: real)
    requires BlocksDominate(blocks) && forall i | 0 <= i < |draws| :: ValidDraw(blocks, draws[i])
    ensures AllAtLeast(ReplicatesOf(blocks, draws, q).difference, 0.0)
    ensures BlocksPositive(blocks) ==> AllAtLeast(ReplicatesOf(blocks, draws, q).ratio, 1.0)
  {
    if draws != [] {
      ReplicatesDominate(blocks, draws[..|draws| - 1], q);
      var draw := draws[|draws| - 1];
      ReplicateDominates(blocks, draw, q);
      var lo, fe := NearestRank(Pooled(blocks, draw, false), q), NearestRank(Pooled(blocks, draw, true), q);
      if lo.Some? && BlocksPositive(blocks) { QuotientAtLeastOne(fe.value, lo.value); }
    }
  }

  lemma IntervalAtLeast(values: seq<real>, confidence: real, bound: real)
    requires AllAtLeast(values, bound)
    ensures var i := IntervalOf(values, confidence);
            (i.low.Some? <==> values != []) && (i.low.Some? ==> i.low.value >= bound && i.high.value >= bound)
  {
    SortMembers(values, Value());
    var s := Sort(values, Value());
    forall i | 0 <= i < |s| ensures s[i] >= bound { assert s[i] in s; }
  }

  /** If in every block the sorted federated times dominate the local ones, then
      for every resampling, quantile and confidence level the difference interval
      starts at zero or above and, for positive times, the ratio interval at one
      or above. */
  lemma PooledDomination(blocks: seq<Block>, draws: seq<Draw>, q: real, confidence: real)
    requires BlocksDominate(blocks) && forall i | 0 <= i < |draws| :: ValidDraw(blocks, draws[i])
    ensures var r := ReplicatesOf(blocks, draws, q);
            && (r.difference != [] ==> IntervalOf(r.difference, confidence).low.value >= 0.0)
            && (BlocksPositive(blocks) && r.ratio != [] ==> IntervalOf(r.ratio, confidence).low.value >= 1.0)
  {
    ReplicatesDominate(blocks, draws, q);
    IntervalAtLeast(ReplicatesOf(blocks, draws, q).difference, confidence, 0.0);
    if BlocksPositive(blocks) { IntervalAtLeast(ReplicatesOf(blocks, draws, q).ratio, confidence, 1.0); }
  }

  /** For confidence levels from zero up the interval's ends are in order. */
  lemma IntervalOrdered(values: seq<real>, confidence: real)
    requires values != [] && confidence >= 0.0
    ensures IntervalOf(values, confidence).low.value <= IntervalOf(values, confidence).high.value
  {
    SortSorted(values, Value());
    SortMembers(values, Value());
    var tail := (1.0 - confidence) / 2.0;
    NearestRankMonotone(Sort(values, Value()), tail, 1.0 - tail);
  }
}
