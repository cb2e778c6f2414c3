/** Concurrency read off raw timestamps (scripts/e3_pilot.py, `_peak_concurrency`
    and `_no_overlap`). */
module SweepLine {
  import opened Options
  import opened Sorting

  datatype Record = Record(initiated: Option<int>, completed: Option<int>)

  /** An unfinished record ends where it starts. */
  function EndOf(r: Record): int
    requires r.initiated.Some?
  {
    if r.completed.Some? then r.completed.value else r.initiated.value
  }

  /** 1 while the record is in flight: T0 <= t < T3. */
  function InFlight(t: int): Record -> int {
    (r: Record) => if r.initiated.Some? && r.initiated.value <= t < EndOf(r) then 1 else 0
  }

  function OverlapAt(records: seq<Record>, t: int): int { Sum(records, InFlight(t)) }

  /** Starts minus ends up to t; the overlap when no record ends before it starts. */
  function Net(t: int): Record -> int {
    (r: Record) =>
      if r.initiated.None? then 0
      else (if r.initiated.value <= t then 1 else 0) - (if EndOf(r) <= t then 1 else 0)
  }

  function NetAt(records: seq<Record>, t: int): int { Sum(records, Net(t)) }

  ghost predicate Forward(records: seq<Record>) {
    forall i | 0 <= i < |records| && records[i].initiated.Some? :: records[i].initiated.value <= EndOf(records[i])
  }

  /** The greatest number of records in flight at one instant. */
  ghost predicate IsPeak(records: seq<Record>, peak: int) {
    (forall t :: OverlapAt(records, t) <= peak) && peak >= 0 && (peak == 0 || exists t :: OverlapAt(records, t) == peak)
  }

  ghost predicate IsNetPeak(records: seq<Record>, peak: int) {
    (forall t :: NetAt(records, t) <= peak) && peak >= 0 && (peak == 0 || exists t :: NetAt(records, t) == peak)
  }

  lemma {:induction false} NetIsOverlap(records: seq<Record>, t: int)
    requires Forward(records)
    ensures NetAt(records, t) == OverlapAt(records, t)
  {
    if records != [] {
      assert forall i | 0 <= i < |records| - 1 :: records[..|records| - 1][i] == records[i];
      NetIsOverlap(records[..|records| - 1], t);
    }
  }

  // ------------------------------------------------------------------- marks

  datatype Mark = Mark(time: int, delta: int)

  function Order(): Mark -> real { (m: Mark) => (2 * m.time + (if m.delta > 0 then 1 else 0)) as real }

  function Delta(): Mark -> int { (m: Mark) => m.delta }

  function DeltaUpTo(t: int): Mark -> int { (m: Mark) => if m.time <= t then m.delta else 0 }

  function MarksOf(r: Record): seq<Mark> {
    if r.initiated.None? then [] else [Mark(r.initiated.value, 1), Mark(EndOf(r), -1)]
  }

  function Marks(records: seq<Record>): seq<Mark> {
    if records == [] then [] else Marks(records[..|records| - 1]) + MarksOf(records[|records| - 1])
  }

  ghost predicate UnitDeltas(s: seq<Mark>) { forall i | 0 <= i < |s| :: s[i].delta == 1 || s[i].delta == -1 }

  lemma {:induction false} MarksUnit(records: seq<Record>)
    ensures UnitDeltas(Marks(records))
  {
    if records != [] { MarksUnit(records[..|records| - 1]); }
  }

  lemma {:induction false} MarksSum(records: seq<Record>, t: int)
    ensures Sum(Marks(records), DeltaUpTo(t)) == NetAt(records, t)
  {
    if records != [] {
      var front, last := records[..|records| - 1], records[|records| - 1];
      MarksSum(front, t);
      SumConcat(Marks(front), MarksOf(last), DeltaUpTo(t));
      if last.initiated.Some? {
        var a, b := Mark(last.initiated.value, 1), Mark(EndOf(last), -1);
        SumNext([], a, DeltaUpTo(t));
        SumNext([a], b, DeltaUpTo(t));
        assert [] + [a] == [a] && [a] + [b] == MarksOf(last);
      }
    }
  }

  // ------------------------------------------------------- prefixes of marks

  lemma {:induction false} AllEarlier(s: seq<Mark>, t: int)
    requires forall i | 0 <= i < |s| :: s[i].time <= t
    ensures Sum(s, DeltaUpTo(t)) == Sum(s, Delta())
  {
    if s != [] { AllEarlier(s[..|s| - 1], t); }
  }

  lemma SortedPrefix(s: seq<Mark>, k: nat)
    requires SortedBy(s, Order()) && k <= |s|
    ensures SortedBy(s[..k], Order())
  {}

  /** The running count after all marks up to t is the net count at t. */
  lemma {:induction false} PrefixAt(s: seq<Mark>, t: int) returns (k: nat)
    requires SortedBy(s, Order()) && UnitDeltas(s)
    ensures k <= |s| && Sum(s[..k], Delta()) == Sum(s, DeltaUpTo(t))
  {
    if s == [] {
      k := 0;
    } else if s[|s| - 1].time <= t {
      k := |s|;
      forall i | 0 <= i < |s| ensures s[i].time <= t {
        if i < |s| - 1 { assert Order()(s[i]) <= Order()(s[|s| - 1]); }
      }
      AllEarlier(s, t);
      assert s[..k] == s;
    } else {
      SortedPrefix(s, |s| - 1);
      k := PrefixAt(s[..|s| - 1], t);
      assert s[..|s| - 1][..k] == s[..k];
    }
  }

  lemma {:induction false} OnlyStartsLeft(s: seq<Mark>, t: int)
    requires forall i | 0 <= i < |s| :: s[i].delta == 1 || s[i].time > t
    ensures Sum(s, DeltaUpTo(t)) >= 0
  {
    if s != [] { OnlyStartsLeft(s[..|s| - 1], t); }
  }

  /** No running count exceeds the net count at some instant, ties included. */
  lemma {:induction false} PrefixBelow(s: seq<Mark>, j: nat) returns (t: int)
    requires SortedBy(s, Order()) && UnitDeltas(s) && j <= |s|
    ensures Sum(s[..j], Delta()) <= 0 || Sum(s[..j], Delta()) <= Sum(s, DeltaUpTo(t))
  {
    t := 0;
    if j > 0 {
      var last := s[j - 1];
      assert s[..j][..j - 1] == s[..j - 1];
      if last.delta == -1 {
        t := PrefixBelow(s, j - 1);
      } else {
        t := last.time;
        forall i | 0 <= i < j ensures s[..j][i].time <= t {
          if i < j - 1 { assert Order()(s[i]) <= Order()(last); }
        }
        AllEarlier(s[..j], t);
        forall i | 0 <= i < |s| - j ensures s[j..][i].delta == 1 || s[j..][i].time > t {
          assert Order()(last) <= Order()(s[j + i]);
        }
        OnlyStartsLeft(s[j..], t);
        SumConcat(s[..j], s[j..], DeltaUpTo(t));
        assert s[..j] + s[j..] == s;
      }
    }
  }

  /** `_peak_concurrency`: the sweep finds the maximum of the net count, which is
      the greatest number of records in flight at one instant. */
  method PeakConcurrency(records: seq<Record>) returns (peak: int)
    ensures IsNetPeak(records, peak)
    ensures Forward(records) ==> IsPeak(records, peak)
  {
    var events: seq<Mark> := [];
    for i := 0 to |records|
      invariant events == Marks(records[..i])
    {
      assert records[..i + 1][..i] == records[..i];
      if records[i].initiated.Some? {
        events := events + [Mark(records[i].initiated.value, 1), Mark(EndOf(records[i]), -1)];
      }
    }
    assert records[..|records|] == records;
    events := Sort(events, Order());
    ghost var best;
    peak, best := Sweep(events);
    NetPeak(records, events, best, peak);
    if Forward(records) { PeakOfForward(records, peak); }
  }

  /** The counting loop: the greatest running count. */
  method Sweep(events: seq<Mark>) returns (peak: int, ghost best: nat)
    ensures best <= |events| && peak == Sum(events[..best], Delta()) && peak >= 0
    ensures forall j | 0 <= j <= |events| :: Sum(events[..j], Delta()) <= peak
  {
    var current := 0;
    peak, best := 0, 0;
    for i := 0 to |events|
      invariant current == Sum(events[..i], Delta())
      invariant best <= i && peak == Sum(events[..best], Delta()) && peak >= 0
      invariant forall j | 0 <= j <= i :: Sum(events[..j], Delta()) <= peak
    {
      assert events[..i + 1] == events[..i] + [events[i]];
      SumNext(events[..i], events[i], Delta());
      current := current + events[i].delta;
      if current > peak {
        peak := current;
        best := i + 1;
      }
    }
  }

  lemma SortedMarks(records: seq<Record>)
    ensures SortedBy(Sort(Marks(records), Order()), Order()) && UnitDeltas(Sort(Marks(records), Order()))
  {
    SortSorted(Marks(records), Order());
    SortMembers(Marks(records), Order());
    MarksUnit(records);
    var s := Sort(Marks(records), Order());
    forall i | 0 <= i < |s| ensures s[i].delta == 1 || s[i].delta == -1 { assert s[i] in s; }
  }

  lemma SortedNet(records: seq<Record>, t: int)
    ensures Sum(Sort(Marks(records), Order()), DeltaUpTo(t)) == NetAt(records, t)
  {
    SumSort(Marks(records), Order(), DeltaUpTo(t));
    MarksSum(records, t);
  }

  lemma NetPeak(records: seq<Record>, s: seq<Mark>, best: nat, peak: int)
    requires s == Sort(Marks(records), Order()) && best <= |s|
    requires peak == Sum(s[..best], Delta()) && peak >= 0
    requires forall j | 0 <= j <= |s| :: Sum(s[..j], Delta()) <= peak
    ensures IsNetPeak(records, peak)
  {
    SortedMarks(records);
    forall t ensures NetAt(records, t) <= peak {
      SortedNet(records, t);
      var k := PrefixAt(s, t);
    }
    var top := PrefixBelow(s, best);
    SortedNet(records, top);
  }

  lemma PeakOfForward(records: seq<Record>, peak: int)
    requires Forward(records) && IsNetPeak(records, peak)
    ensures IsPeak(records, peak)
  {
    forall t ensures OverlapAt(records, t) == NetAt(records, t) {
      NetIsOverlap(records, t);
    }
    if peak > 0 {
      var t :| NetAt(records, t) == peak;
      assert OverlapAt(records, t) == peak;
    }
  }

  // -------------------------------------------------------------- no overlap

  function StartKey(): Record -> real { (r: Record) => if r.initiated.Some? then r.initiated.value as real else 0.0 }

  ghost predicate AllStarted(records: seq<Record>) { forall i | 0 <= i < |records| :: records[i].initiated.Some? }

  /** Each record starts no earlier than the one before it ended. */
  ghost predicate Chained(s: seq<Record>)
    requires AllStarted(s)
  {
    && (s != [] ==> s[0].initiated.value >= 0)
    && (forall i | 0 <= i < |s| - 1 :: EndOf(s[i]) <= s[i + 1].initiated.value)
  }

  lemma SortStarted(records: seq<Record>)
    requires AllStarted(records)
    ensures AllStarted(Sort(records, StartKey()))
  {
    SortMembers(records, StartKey());
    var s := Sort(records, StartKey());
    forall i | 0 <= i < |s| ensures s[i] in records { assert s[i] in s; }
  }

  /** `_no_overlap`: every record has its start, as the raw schema requires. */
  method NoOverlap(records: seq<Record>) returns (ok: bool)
    requires AllStarted(records)
    ensures ok <==> NoClash(records) && (forall i | 0 <= i < |records| :: records[i].initiated.value >= 0)
  {
    SortStarted(records);
    NoOverlapIff(records);
    var ordered := Sort(records, StartKey());
    var previousEnd := 0;
    for i := 0 to |ordered|
      invariant i == 0 ==> previousEnd == 0
      invariant i > 0 ==> ordered[0].initiated.value >= 0 && previousEnd == EndOf(ordered[i - 1])
      invariant forall j | 0 <= j < i - 1 :: EndOf(ordered[j]) <= ordered[j + 1].initiated.value
    {
      if ordered[i].initiated.value < previousEnd {
        if i > 0 { assert EndOf(ordered[i - 1]) > ordered[(i - 1) + 1].initiated.value; }
        return false;
      }
      previousEnd := EndOf(ordered[i]);
    }
    return true;
  }

  /** Two records of which the one that starts later, or is listed later, starts
      before the other has ended. */
  predicate Clash(a: Record, b: Record)
    requires a.initiated.Some? && b.initiated.Some?
  {
    if a.initiated.value <= b.initiated.value then b.initiated.value < EndOf(a) else a.initiated.value < EndOf(b)
  }

  ghost predicate NoClash(records: seq<Record>)
    requires AllStarted(records)
  {
    forall i, j | 0 <= i < j < |records| :: !Clash(records[i], records[j])
  }

  ghost predicate ClearOf(s: seq<Record>, x: Record)
    requires AllStarted(s) && x.initiated.Some?
  {
    forall i | 0 <= i < |s| :: !Clash(s[i], x)
  }

  lemma NoClashNext(s: seq<Record>, x: Record)
    requires AllStarted(s) && x.initiated.Some?
    ensures AllStarted(s + [x]) && (NoClash(s + [x]) <==> NoClash(s) && ClearOf(s, x))
  {
    var t := s + [x];
    if NoClash(t) {
      forall i, j | 0 <= i < j < |s| ensures !Clash(s[i], s[j]) { assert !Clash(t[i], t[j]); }
      forall i | 0 <= i < |s| ensures !Clash(s[i], x) { assert !Clash(t[i], t[|s|]); }
    }
  }

  lemma ClearOfMembers(s: seq<Record>, t: seq<Record>, x: Record)
    requires AllStarted(s) && AllStarted(t) && x.initiated.Some? && (forall r :: r in s <==> r in t)
    ensures ClearOf(s, x) <==> ClearOf(t, x)
  {
    forall i | 0 <= i < |s| ensures s[i] in t { assert s[i] in s; }
    forall i | 0 <= i < |t| ensures t[i] in s { assert t[i] in t; }
  }

  lemma InsertStarted(s: seq<Record>, x: Record)
    requires AllStarted(s) && x.initiated.Some?
    ensures forall r :: r in InsertAfter(s, x, StartKey()) <==> r in s || r == x
    ensures AllStarted(InsertAfter(s, x, StartKey()))
  {
    InsertMembers(s, x, StartKey());
    var t := InsertAfter(s, x, StartKey());
    forall r ensures r in t <==> r in s || r == x { assert r in multiset(t) <==> r in multiset(s) + multiset{x}; }
    forall i | 0 <= i < |t| ensures t[i].initiated.Some? { assert t[i] in t; }
  }

  /** Where a stable sort puts a record does not change what it clashes with. */
  lemma {:induction false} InsertClash(s: seq<Record>, x: Record)
    requires AllStarted(s) && x.initiated.Some?
    ensures AllStarted(InsertAfter(s, x, StartKey()))
    ensures NoClash(InsertAfter(s, x, StartKey())) <==> NoClash(s + [x])
  {
    InsertStarted(s, x);
    NoClashNext(s, x);
    if s != [] && StartKey()(s[|s| - 1]) > StartKey()(x) {
      var front, last := s[..|s| - 1], s[|s| - 1];
      assert front + [last] == s && AllStarted(front);
      InsertClash(front, x);
      InsertStarted(front, x);
      var t := InsertAfter(front, x, StartKey());
      NoClashNext(t, last);
      NoClashNext(front, x);
      NoClashNext(front, last);
      ClearOfMembers(t, front + [x], last);
      ClearNext(front, x, last);
      ClearNext(front, last, x);
    }
  }

  lemma ClearNext(s: seq<Record>, y: Record, x: Record)
    requires AllStarted(s) && x.initiated.Some? && y.initiated.Some?
    ensures AllStarted(s + [y]) && (ClearOf(s + [y], x) <==> ClearOf(s, x) && !Clash(y, x))
  {
    var t := s + [y];
    if ClearOf(t, x) {
      assert !Clash(t[|s|], x);
      forall i | 0 <= i < |s| ensures !Clash(s[i], x) { assert !Clash(t[i], x); }
    }
  }

  lemma {:induction false} SortClash(records: seq<Record>)
    requires AllStarted(records)
    ensures AllStarted(Sort(records, StartKey())) && (NoClash(Sort(records, StartKey())) <==> NoClash(records))
  {
    SortStarted(records);
    if records != [] {
      var front, last := records[..|records| - 1], records[|records| - 1];
      assert front + [last] == records && AllStarted(front);
      SortClash(front);
      var s := Sort(front, StartKey());
      InsertClash(s, last);
      NoClashNext(s, last);
      NoClashNext(front, last);
      SortMembers(front, StartKey());
      ClearOfMembers(s, front, last);
    }
  }

  /** In start order, neighbours apart means all apart. */
  lemma ChainedNoClash(s: seq<Record>)
    requires AllStarted(s) && SortedBy(s, StartKey())
    ensures Chained(s) <==> NoClash(s) && (forall i | 0 <= i < |s| :: s[i].initiated.value >= 0)
  {
    forall i, j | 0 <= i < j < |s| ensures s[i].initiated.value <= s[j].initiated.value {
      assert StartKey()(s[i]) <= StartKey()(s[j]);
    }
    if Chained(s) {
      forall i, j | 0 <= i < j < |s| ensures !Clash(s[i], s[j]) {
        assert EndOf(s[i]) <= s[i + 1].initiated.value <= s[j].initiated.value;
      }
    }
    if NoClash(s) {
      forall i | 0 <= i < |s| - 1 ensures EndOf(s[i]) <= s[i + 1].initiated.value {
        assert !Clash(s[i], s[i + 1]);
      }
    }
  }

  /** What the check decides, for every sample with starts, unfinished and
      zero-length records included: no two records of the list clash. */
  lemma NoOverlapIff(records: seq<Record>)
    requires AllStarted(records)
    ensures AllStarted(Sort(records, StartKey()))
    ensures Chained(Sort(records, StartKey())) <==>
            NoClash(records) && (forall i | 0 <= i < |records| :: records[i].initiated.value >= 0)
  {
    SortStarted(records);
    SortSorted(records, StartKey());
    SortMembers(records, StartKey());
    SortClash(records);
    var s := Sort(records, StartKey());
    ChainedNoClash(s);
    forall i | 0 <= i < |s| ensures s[i] in records { assert s[i] in s; }
    forall i | 0 <= i < |records| ensures records[i] in s { assert records[i] in records; }
  }

  lemma {:induction false} SumZero(s: seq<Record>, t: int)
    requires forall i | 0 <= i < |s| :: InFlight(t)(s[i]) == 0
    ensures Sum(s, InFlight(t)) == 0
  {
    if s != [] { SumZero(s[..|s| - 1], t); }
  }

  lemma {:induction false} NoClashOverlap(records: seq<Record>, t: int)
    requires AllStarted(records) && NoClash(records)
    ensures OverlapAt(records, t) <= 1
  {
    if records != [] {
      var front, last := records[..|records| - 1], records[|records| - 1];
      assert front + [last] == records && AllStarted(front);
      NoClashNext(front, last);
      NoClashOverlap(front, t);
      if InFlight(t)(last) == 1 {
        forall i | 0 <= i < |front| ensures InFlight(t)(front[i]) == 0 { assert !Clash(front[i], last); }
        SumZero(front, t);
      }
    }
  }

  /** A passed overlap check bounds the peak by one. */
  lemma NoOverlapBoundsPeak(records: seq<Record>, t: int)
    requires AllStarted(records)
    requires AllStarted(Sort(records, StartKey())) && Chained(Sort(records, StartKey()))
    ensures OverlapAt(records, t) <= 1
  {
    NoOverlapIff(records);
    NoClashOverlap(records, t);
  }

  lemma {:induction false} SumTwo(s: seq<Record>, t: int, i: nat, j: nat)
    requires i < j < |s|
    ensures Sum(s, InFlight(t)) >= InFlight(t)(s[i]) + InFlight(t)(s[j])
  {
    var front := s[..|s| - 1];
    if j == |s| - 1 {
      SumOne(front, t, i);
    } else {
      SumTwo(front, t, i, j);
    }
  }

  lemma {:induction false} SumOne(s: seq<Record>, t: int, i: nat)
    requires i < |s|
    ensures Sum(s, InFlight(t)) >= InFlight(t)(s[i])
  {
    var front := s[..|s| - 1];
    if i == |s| - 1 { SumNonNegative(front, t); } else { SumOne(front, t, i); }
  }

  lemma {:induction false} SumNonNegative(s: seq<Record>, t: int)
    ensures Sum(s, InFlight(t)) >= 0
  {
    if s != [] { SumNonNegative(s[..|s| - 1], t); }
  }

  /** For records of positive length the check decides exactly whether the peak is
      at most one. */
  lemma NoOverlapIffSequential(records: seq<Record>)
    requires AllStarted(records) && AllStarted(Sort(records, StartKey()))
    requires forall i | 0 <= i < |records| :: 0 <= records[i].initiated.value < EndOf(records[i])
    ensures Chained(Sort(records, StartKey())) <==> forall t :: OverlapAt(records, t) <= 1
  {
    NoOverlapIff(records);
    if NoClash(records) {
      forall t ensures OverlapAt(records, t) <= 1 { NoClashOverlap(records, t); }
    } else {
      var i, j :| 0 <= i < j < |records| && Clash(records[i], records[j]);
      var a, b := records[i].initiated.value, records[j].initiated.value;
      var t := if a <= b then b else a;
      SumTwo(records, t, i, j);
      assert OverlapAt(records, t) >= 2;
    }
  }

  /** With an unfinished record the check can fail although nothing overlaps. */
  lemma ZeroLengthRejected(t0: int, t3: int)
    requires 0 <= t0 < t3
    ensures var s := [Record(Some(t0), Some(t3)), Record(Some(t0), None)];
            && AllStarted(Sort(s, StartKey())) && !Chained(Sort(s, StartKey()))
            && (forall t :: OverlapAt(s, t) <= 1)
  {
    var a, b := Record(Some(t0), Some(t3)), Record(Some(t0), None);
    var s := [a, b];
    assert s[..1] == [a] && [a][..0] == [];
    assert Clash(s[0], s[1]);
    NoOverlapIff(s);
    forall t ensures OverlapAt(s, t) <= 1 {
      assert Sum([a], InFlight(t)) == Sum([], InFlight(t)) + InFlight(t)(a);
    }
  }
}
