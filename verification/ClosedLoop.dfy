/** The bounded-concurrency closed loop (src/fam/benchmark/engine.py,
    run_throughput_workload): C slots that each send, await and send again, and the
    interactions they start, every one of them racing as in module Interaction. */
module ClosedLoop {
  import opened Options
  import opened Interaction
  import opened Sorting
  import opened SweepLine

  datatype Entry = Entry(slot: nat, sequence: nat, call: Call, returned: Option<nat>)

  datatype Slot = Free | Busy(index: nat) | Stopped

  /** `completed` lists entries in the order their requests returned. */
  datatype Loop = Loop(clock: nat, counter: nat, slots: seq<Slot>, entries: seq<Entry>, completed: seq<nat>)

  datatype Move =
    | Initiate(slot: nat, check: nat, at: nat)     // the loop condition is read before T0 is stamped
    | Do(index: nat, act: Act)                     // one step of an interaction, before or after its return
    | Stop(slot: nat, check: nat)

  function Opening(start: nat, concurrency: nat): Loop {
    Loop(start, 1, seq(concurrency, _ => Free), [], [])
  }

  predicate Allowed(l: Loop, windowEnd: nat, timeout: nat, m: Move) {
    match m
    case Initiate(slot, check, at) =>
      slot < |l.slots| && l.slots[slot].Free? && l.clock <= check < windowEnd && check <= at
    case Do(index, act) => index < |l.entries| && l.clock <= act.at && EnabledAct(l.entries[index].call, timeout, act)
    case Stop(slot, check) => slot < |l.slots| && l.slots[slot].Free? && l.clock <= check && windowEnd <= check
  }

  function Advance(l: Loop, windowEnd: nat, timeout: nat, m: Move): Loop
    requires Allowed(l, windowEnd, timeout, m)
  {
    match m
    case Initiate(slot, check, at) =>
      l.(clock := at, counter := l.counter + 1, slots := l.slots[slot := Busy(|l.entries|)],
         entries := l.entries + [Entry(slot, l.counter, Begin(at), None)])
    case Do(index, act) =>
      var e := l.entries[index];
      var call := Perform(e.call, timeout, act);
      if call.stage.Returned? && !e.call.stage.Returned? && e.slot < |l.slots| then
        l.(clock := act.at, slots := l.slots[e.slot := Free],
           entries := l.entries[index := e.(call := call, returned := Some(act.at))],
           completed := l.completed + [index])
      else l.(clock := act.at, entries := l.entries[index := e.(call := call)])
    case Stop(slot, check) => l.(clock := check, slots := l.slots[slot := Stopped])
  }

  // -------------------------------------------------------------- invariants

  predicate InFlightEntry(l: Loop, i: nat) { i < |l.entries| && !l.entries[i].call.stage.Returned? }

  /** An entry is in flight exactly while its slot is busy with it; its sequence
      id is its position, counted from one. */
  predicate EntryOk(l: Loop, timeout: nat, i: nat)
    requires i < |l.entries|
  {
    var e := l.entries[i];
    && e.slot < |l.slots| && e.sequence == i + 1
    && Consistent(e.call, timeout) && e.call.clock <= l.clock
    && (e.call.stage.Returned? <==> e.returned.Some?)
    && (e.call.stage.Returned? ==> e.call.facts.initiated <= e.returned.value <= l.clock)
    && (!e.call.stage.Returned? ==> l.slots[e.slot] == Busy(i))
    && (e.call.stage.Returned? && e.call.facts.sendErrcode == "" && e.call.facts.completed.Some? ==>
          e.call.facts.completed.value <= e.returned.value)
  }

  /** One slot runs one interaction after the other. */
  predicate Sequential(l: Loop, i: nat, j: nat)
    requires i < j < |l.entries|
  {
    l.entries[i].slot == l.entries[j].slot ==>
      l.entries[i].returned.Some? && l.entries[i].returned.value <= l.entries[j].call.facts.initiated
  }

  ghost predicate EntriesInv(l: Loop, timeout: nat) {
    && l.counter == |l.entries| + 1
    && (forall i: nat | i < |l.entries| :: EntryOk(l, timeout, i))
    && (forall i: nat, j: nat | i < j < |l.entries| :: Sequential(l, i, j))
  }

  ghost predicate SlotsInv(l: Loop) {
    forall s | 0 <= s < |l.slots| && l.slots[s].Busy? ::
      l.slots[s].index < |l.entries| && l.entries[l.slots[s].index].slot == s
  }

  ghost predicate DistinctIndices(s: seq<nat>) { forall i, j | 0 <= i < j < |s| :: s[i] != s[j] }

  /** Exactly the returned requests are listed, each once. */
  ghost predicate CompletedInv(l: Loop) {
    && DistinctIndices(l.completed)
    && (forall i: nat :: i in l.completed <==> i < |l.entries| && !InFlightEntry(l, i))
  }

  /** The list is in the order in which the requests returned. */
  ghost predicate ReturnOrder(l: Loop) {
    && (forall i | 0 <= i < |l.completed| :: l.completed[i] < |l.entries| && ReturnedBy(l, l.completed[i], l.clock))
    && (forall i, j | 0 <= i < j < |l.completed| ::
          l.completed[j] < |l.entries| && l.entries[l.completed[j]].returned.Some?
          && ReturnedBy(l, l.completed[i], l.entries[l.completed[j]].returned.value))
  }

  predicate ReturnedBy(l: Loop, i: nat, t: nat) {
    i < |l.entries| && l.entries[i].returned.Some? && l.entries[i].returned.value <= t
  }

  ghost predicate Inv(l: Loop, timeout: nat) { EntriesInv(l, timeout) && SlotsInv(l) && CompletedInv(l) }

  lemma InitiateKeeps(l: Loop, windowEnd: nat, timeout: nat, m: Move)
    requires Inv(l, timeout) && m.Initiate? && Allowed(l, windowEnd, timeout, m)
    ensures Inv(Advance(l, windowEnd, timeout, m), timeout)
  {
    var k := Advance(l, windowEnd, timeout, m);
    var n := |l.entries|;
    forall i: nat | i < |k.entries| ensures EntryOk(k, timeout, i) {
      if i < n { assert EntryOk(l, timeout, i); }
    }
    forall i: nat, j: nat | i < j < |k.entries| ensures Sequential(k, i, j) {
      assert EntryOk(l, timeout, i);
      if j < n { assert Sequential(l, i, j); }
    }
    forall i: nat ensures i in k.completed <==> i < |k.entries| && !InFlightEntry(k, i) {
      assert i in l.completed <==> i < |l.entries| && !InFlightEntry(l, i);
    }
  }

  lemma StopKeeps(l: Loop, windowEnd: nat, timeout: nat, m: Move)
    requires Inv(l, timeout) && m.Stop? && Allowed(l, windowEnd, timeout, m)
    ensures Inv(Advance(l, windowEnd, timeout, m), timeout)
  {
    var k := Advance(l, windowEnd, timeout, m);
    forall i: nat | i < |k.entries| ensures EntryOk(k, timeout, i) { assert EntryOk(l, timeout, i); }
    forall i: nat, j: nat | i < j < |k.entries| ensures Sequential(k, i, j) { assert Sequential(l, i, j); }
    forall i: nat ensures i in k.completed <==> i < |k.entries| && !InFlightEntry(k, i) {
      assert i in l.completed <==> i < |l.entries| && !InFlightEntry(l, i);
    }
  }

  /** What one step of an interaction can do to it. */
  lemma ActFacts(c: Call, timeout: nat, a: Act)
    requires Consistent(c, timeout) && EnabledAct(c, timeout, a)
    ensures var d := Perform(c, timeout, a);
            && Consistent(d, timeout) && d.facts.initiated == c.facts.initiated && d.clock == a.at
            && (c.stage.Returned? ==> d.stage.Returned? && d.facts.sendErrcode == c.facts.sendErrcode)
            && (c.stage.Returned? && c.facts.sendErrcode == "" ==> d.facts.completed == c.facts.completed)
  {
    ActKeepsConsistent(c, timeout, a);
  }

  lemma DoKeepsEntries(l: Loop, windowEnd: nat, timeout: nat, m: Move)
    requires EntriesInv(l, timeout) && m.Do? && Allowed(l, windowEnd, timeout, m)
    ensures EntriesInv(Advance(l, windowEnd, timeout, m), timeout)
  {
    var k := Advance(l, windowEnd, timeout, m);
    assert EntryOk(l, timeout, m.index);
    ActFacts(l.entries[m.index].call, timeout, m.act);
    forall i: nat | i < |k.entries| ensures EntryOk(k, timeout, i) {
      assert EntryOk(l, timeout, i);
    }
    forall i: nat, j: nat | i < j < |k.entries| ensures Sequential(k, i, j) {
      assert Sequential(l, i, j);
    }
  }

  lemma DoKeepsLists(l: Loop, windowEnd: nat, timeout: nat, m: Move)
    requires Inv(l, timeout) && m.Do? && Allowed(l, windowEnd, timeout, m)
    ensures SlotsInv(Advance(l, windowEnd, timeout, m)) && CompletedInv(Advance(l, windowEnd, timeout, m))
  {
    var k := Advance(l, windowEnd, timeout, m);
    assert EntryOk(l, timeout, m.index);
    ActFacts(l.entries[m.index].call, timeout, m.act);
    assert m.index in l.completed <==> !InFlightEntry(l, m.index);
    forall i: nat ensures i in k.completed <==> i < |k.entries| && !InFlightEntry(k, i) {
      assert i in l.completed <==> i < |l.entries| && !InFlightEntry(l, i);
    }
  }

  lemma MoveKeeps(l: Loop, windowEnd: nat, timeout: nat, m: Move)
    requires Inv(l, timeout) && Allowed(l, windowEnd, timeout, m)
    ensures Inv(Advance(l, windowEnd, timeout, m), timeout)
    ensures |Advance(l, windowEnd, timeout, m).slots| == |l.slots|
  {
    match m
    case Initiate(_, _, _) => InitiateKeeps(l, windowEnd, timeout, m);
    case Stop(_, _) => StopKeeps(l, windowEnd, timeout, m);
    case Do(_, _) =>
      DoKeepsEntries(l, windowEnd, timeout, m);
      DoKeepsLists(l, windowEnd, timeout, m);
  }

  ghost predicate Schedule(loops: seq<Loop>, moves: seq<Move>, start: nat, concurrency: nat, windowEnd: nat,
                           timeout: nat) {
    && |loops| == |moves| + 1 && loops[0] == Opening(start, concurrency)
    && forall n | 0 <= n < |moves| ::
         Allowed(loops[n], windowEnd, timeout, moves[n]) &&
             loops[n + 1] == Advance(loops[n], windowEnd, timeout, moves[n])
  }

  lemma {:induction false} ScheduleInv(loops: seq<Loop>, moves: seq<Move>, start: nat, concurrency: nat, windowEnd: nat,
                                       timeout: nat, n: nat)
    requires Schedule(loops, moves, start, concurrency, windowEnd, timeout) && n < |loops|
    ensures Inv(loops[n], timeout) && |loops[n].slots| == concurrency
  {
    if n > 0 {
      ScheduleInv(loops, moves, start, concurrency, windowEnd, timeout, n - 1);
      MoveKeeps(loops[n - 1], windowEnd, timeout, moves[n - 1]);
    }
  }

  lemma OrderStep(l: Loop, windowEnd: nat, timeout: nat, m: Move)
    requires Inv(l, timeout) && ReturnOrder(l) && Allowed(l, windowEnd, timeout, m)
    ensures ReturnOrder(Advance(l, windowEnd, timeout, m))
  {
    var k := Advance(l, windowEnd, timeout, m);
    if m.Do? {
      assert EntryOk(l, timeout, m.index);
      ActFacts(l.entries[m.index].call, timeout, m.act);
      assert m.index in l.completed <==> !InFlightEntry(l, m.index);
    }
    forall i | 0 <= i < |k.completed| ensures k.completed[i] < |k.entries| && ReturnedBy(k, k.completed[i], k.clock) {
      if i < |l.completed| { assert ReturnedBy(l, l.completed[i], l.clock); }
    }
    forall i, j | 0 <= i < j < |k.completed|
      ensures k.completed[j] < |k.entries| && k.entries[k.completed[j]].returned.Some?
      ensures ReturnedBy(k, k.completed[i], k.entries[k.completed[j]].returned.value)
    {
      assert ReturnedBy(l, l.completed[i], l.clock);
      if j < |l.completed| { assert ReturnedBy(l, l.completed[i], l.entries[l.completed[j]].returned.value); }
    }
  }

  /** The interactions are accounted for in the order in which their requests
      returned. */
  lemma {:induction false} ListedInReturnOrder(loops: seq<Loop>, moves: seq<Move>, start: nat, concurrency: nat,
                                               windowEnd: nat, timeout: nat, n: nat)
    requires Schedule(loops, moves, start, concurrency, windowEnd, timeout) && n < |loops|
    ensures ReturnOrder(loops[n])
  {
    if n > 0 {
      ListedInReturnOrder(loops, moves, start, concurrency, windowEnd, timeout, n - 1);
      ScheduleInv(loops, moves, start, concurrency, windowEnd, timeout, n - 1);
      OrderStep(loops[n - 1], windowEnd, timeout, moves[n - 1]);
    }
  }

  ghost predicate StoppedLate(l: Loop, windowEnd: nat) {
    forall s | 0 <= s < |l.slots| && l.slots[s].Stopped? :: l.clock >= windowEnd
  }

  lemma MoveClock(l: Loop, windowEnd: nat, timeout: nat, m: Move)
    requires Allowed(l, windowEnd, timeout, m) && StoppedLate(l, windowEnd)
    ensures var k := Advance(l, windowEnd, timeout, m);
            && l.clock <= k.clock && StoppedLate(k, windowEnd)
            && (l.clock >= windowEnd ==> |k.entries| == |l.entries|)
  {}

  /** No slot stops before the window ends, and from then on none initiates. */
  lemma {:induction false} StopsAtWindowEnd(loops: seq<Loop>, moves: seq<Move>, start: nat, concurrency: nat,
                                            windowEnd: nat, timeout: nat, n: nat)
    requires Schedule(loops, moves, start, concurrency, windowEnd, timeout) && n < |loops|
    ensures StoppedLate(loops[n], windowEnd)
    ensures forall m | 0 <= m <= n && loops[m].clock >= windowEnd ::
              loops[n].clock >= windowEnd && |loops[n].entries| == |loops[m].entries|
  {
    if n > 0 {
      StopsAtWindowEnd(loops, moves, start, concurrency, windowEnd, timeout, n - 1);
      MoveClock(loops[n - 1], windowEnd, timeout, moves[n - 1]);
      assert loops[(n - 1) + 1] == Advance(loops[n - 1], windowEnd, timeout, moves[n - 1]);
    }
  }

  /** Only the last interaction can have its T0 after the window. */
  ghost predicate LateStart(l: Loop, windowEnd: nat) {
    forall i: nat | i < |l.entries| && l.entries[i].call.facts.initiated >= windowEnd ::
      i == |l.entries| - 1 && l.clock >= windowEnd
  }

  lemma LateStartStep(l: Loop, windowEnd: nat, timeout: nat, m: Move)
    requires Allowed(l, windowEnd, timeout, m) && LateStart(l, windowEnd)
    ensures LateStart(Advance(l, windowEnd, timeout, m), windowEnd)
  {}

  /** Slots do not stop initiating when the window ends: the check precedes T0. Over
      every interleaving one interaction at most starts that late, the last one. */
  lemma {:induction false} OneLateStart(loops: seq<Loop>, moves: seq<Move>, start: nat, concurrency: nat,
                                        windowEnd: nat, timeout: nat, n: nat)
    requires Schedule(loops, moves, start, concurrency, windowEnd, timeout) && n < |loops|
    ensures LateStart(loops[n], windowEnd)
  {
    if n > 0 {
      OneLateStart(loops, moves, start, concurrency, windowEnd, timeout, n - 1);
      LateStartStep(loops[n - 1], windowEnd, timeout, moves[n - 1]);
      assert loops[(n - 1) + 1] == Advance(loops[n - 1], windowEnd, timeout, moves[n - 1]);
    }
  }

  // ------------------------------------------------------------------ counting

  /** As many things as places, at most, when no two share a place. */
  lemma {:induction false} Pigeonhole(a: set<nat>, place: nat -> nat, c: nat)
    requires forall i | i in a :: place(i) < c
    requires forall i, j | i in a && j in a && i != j :: place(i) != place(j)
    ensures |a| <= c
    decreases c
  {
    if c == 0 {
      assert forall i :: i !in a;
    } else if i :| i in a && place(i) == c - 1 {
      Pigeonhole(a - {i}, place, c - 1);
    } else {
      Pigeonhole(a, place, c - 1);
    }
  }

  function SlotOf(l: Loop): nat -> nat { (i: nat) => if i < |l.entries| then l.entries[i].slot else 0 }

  ghost function InFlightSet(l: Loop): set<nat> { set i: nat | i < |l.entries| && InFlightEntry(l, i) }

  /** Concurrency is never exceeded, sequence ids are exactly 1..N in order, and
      once every slot has stopped nothing is in flight and each initiated
      interaction is listed exactly once. */
  lemma ClosedLoopBound(loops: seq<Loop>, moves: seq<Move>, start: nat, concurrency: nat, windowEnd: nat, timeout: nat,
                        n: nat)
    requires Schedule(loops, moves, start, concurrency, windowEnd, timeout) && n < |loops|
    ensures var l := loops[n];
            && |InFlightSet(l)| <= concurrency
            && (forall i: nat | i < |l.entries| :: l.entries[i].sequence == i + 1)
            && ((forall s | 0 <= s < |l.slots| :: l.slots[s].Stopped?) ==>
                  && InFlightSet(l) == {}
                  && DistinctIndices(l.completed)
                  && (forall i: nat :: i in l.completed <==> i < |l.entries|))
  {
    ScheduleInv(loops, moves, start, concurrency, windowEnd, timeout, n);
    var l := loops[n];
    forall i: nat | i < |l.entries|
      ensures l.entries[i].slot < concurrency && l.entries[i].sequence == i + 1
      ensures InFlightEntry(l, i) ==> l.entries[i].slot < |l.slots| && l.slots[l.entries[i].slot] == Busy(i)
    {
      assert EntryOk(l, timeout, i);
    }
    Pigeonhole(InFlightSet(l), SlotOf(l), concurrency);
    if forall s | 0 <= s < |l.slots| :: l.slots[s].Stopped? {
      assert forall i: nat | i < |l.entries| :: !InFlightEntry(l, i);
    }
  }

  // --------------------------------------------------------- peak of records

  function RecordOf(e: Entry): Record { Record(Some(e.call.facts.initiated), AsTime(e.call.facts.completed)) }

  function AsTime(t: Option<nat>): Option<int> { if t.Some? then Some(t.value) else None }

  /** The records of the listed entries, in list order. */
  function RecordsOf(entries: seq<Entry>, listed: seq<nat>): seq<Record>
    requires forall k | 0 <= k < |listed| :: listed[k] < |entries|
  {
    if listed == [] then []
    else RecordsOf(entries, listed[..|listed| - 1]) + [RecordOf(entries[listed[|listed| - 1]])]
  }

  /** The completion was stamped after request() had returned: by `LateIsRefused`
      only a refused send that was acknowledged all the same. */
  predicate Late(e: Entry) {
    e.returned.Some? && e.call.facts.completed.Some? && e.call.facts.completed.value > e.returned.value
  }

  ghost function LateSet(l: Loop): set<nat> { set i: nat | i < |l.entries| && Late(l.entries[i]) }

  lemma LateIsRefused(l: Loop, timeout: nat, i: nat)
    requires Inv(l, timeout) && i < |l.entries| && Late(l.entries[i])
    ensures OutcomeOf(l.entries[i].call.facts).SendError?
  {
    assert EntryOk(l, timeout, i);
  }

  /** No record ends before it starts, so a sweep's peak is its overlap. */
  lemma {:induction false} RecordsForward(l: Loop, timeout: nat, listed: seq<nat>)
    requires Inv(l, timeout) && forall k | 0 <= k < |listed| :: listed[k] < |l.entries|
    ensures Forward(RecordsOf(l.entries, listed))
  {
    if listed != [] {
      RecordsForward(l, timeout, listed[..|listed| - 1]);
      assert EntryOk(l, timeout, listed[|listed| - 1]);
    }
  }

  predicate ActiveAt(l: Loop, t: int, i: nat) { i < |l.entries| && InFlight(t)(RecordOf(l.entries[i])) == 1 }

  lemma {:induction false} OverlapCounts(l: Loop, listed: seq<nat>, t: int)
    requires DistinctIndices(listed) && forall k | 0 <= k < |listed| :: listed[k] < |l.entries|
    ensures OverlapAt(RecordsOf(l.entries, listed), t) == |set i | i in listed && ActiveAt(l, t, i)|
  {
    if listed == [] {
      assert (set i | i in listed && ActiveAt(l, t, i)) == {};
    } else {
      var front, last := listed[..|listed| - 1], listed[|listed| - 1];
      OverlapCounts(l, front, t);
      CountNext(l, front, last, t);
      assert listed == front + [last];
      SumNext(RecordsOf(l.entries, front), RecordOf(l.entries[last]), InFlight(t));
    }
  }

  lemma CountNext(l: Loop, front: seq<nat>, last: nat, t: int)
    requires DistinctIndices(front + [last]) && last < |l.entries|
    ensures |set i | i in front + [last] && ActiveAt(l, t, i)| ==
            |set i | i in front && ActiveAt(l, t, i)| + InFlight(t)(RecordOf(l.entries[last]))
  {
    var before, after := set i | i in front && ActiveAt(l, t, i), set i | i in front + [last] && ActiveAt(l, t, i);
    forall k | 0 <= k < |front| ensures front[k] != last {
      assert (front + [last])[k] == front[k] && (front + [last])[|front|] == last;
    }
    assert after == if ActiveAt(l, t, last) then before + {last} else before;
  }

  /** Two timely entries in flight at one instant occupy different slots. */
  lemma TimelyApart(l: Loop, timeout: nat, t: int, i: nat, j: nat)
    requires Inv(l, timeout) && i < j && ActiveAt(l, t, i) && ActiveAt(l, t, j) && !Late(l.entries[i])
    ensures l.entries[i].slot != l.entries[j].slot
  {
    assert EntryOk(l, timeout, i) && Sequential(l, i, j);
  }

  lemma ActiveBound(l: Loop, timeout: nat, t: int)
    requires Inv(l, timeout)
    ensures |set i: nat | i < |l.entries| && ActiveAt(l, t, i)| <= |l.slots| + |LateSet(l)|
  {
    var active := set i: nat | i < |l.entries| && ActiveAt(l, t, i);
    var timely := active - LateSet(l);
    var place := SlotOf(l);
    forall i | i in timely ensures place(i) < |l.slots| {
      assert EntryOk(l, timeout, i);
    }
    forall i, j | i in timely && j in timely && i != j ensures place(i) != place(j) {
      if i < j { TimelyApart(l, timeout, t, i, j); } else { TimelyApart(l, timeout, t, j, i); }
    }
    Pigeonhole(timely, place, |l.slots|);
    assert active <= timely + LateSet(l);
    SubsetSize(active, timely + LateSet(l));
  }

  lemma {:induction false} SubsetSize(a: set<nat>, b: set<nat>)
    requires a <= b
    ensures |a| <= |b|
  {
    assert b == a + (b - a);
  }

  /** The sweep-line peak of the records is at most C, plus one for every refused
      send that was acknowledged after its request had returned. */
  lemma PeakBound(loops: seq<Loop>, moves: seq<Move>, start: nat, concurrency: nat, windowEnd: nat, timeout: nat,
                  n: nat,
                  peak: int)
    requires Schedule(loops, moves, start, concurrency, windowEnd, timeout) && n < |loops|
    requires forall k | 0 <= k < |loops[n].completed| :: loops[n].completed[k] < |loops[n].entries|
    requires IsPeak(RecordsOf(loops[n].entries, loops[n].completed), peak)
    ensures Forward(RecordsOf(loops[n].entries, loops[n].completed))
    ensures peak <= concurrency + |LateSet(loops[n])|
    ensures forall i | i in LateSet(loops[n]) :: OutcomeOf(loops[n].entries[i].call.facts).SendError?
  {
    var l := loops[n];
    ScheduleInv(loops, moves, start, concurrency, windowEnd, timeout, n);
    RecordsForward(l, timeout, l.completed);
    if peak > 0 {
      var t :| OverlapAt(RecordsOf(l.entries, l.completed), t) == peak;
      OverlapCounts(l, l.completed, t);
      ActiveBound(l, timeout, t);
      SubsetSize(set i | i in l.completed && ActiveAt(l, t, i), set i: nat | i < |l.entries| && ActiveAt(l, t, i));
    }
    forall i | i in LateSet(l) ensures OutcomeOf(l.entries[i].call.facts).SendError? { LateIsRefused(l, timeout, i); }
  }

  // ------------------------------------------------------------ the bound is met

  ghost predicate Reaches(l: Loop, start: nat, concurrency: nat, windowEnd: nat, timeout: nat) {
    exists loops: seq<Loop>, moves: seq<Move> ::
      Schedule(loops, moves, start, concurrency, windowEnd, timeout) && loops[|loops| - 1] == l
  }

  ghost predicate Follows(l: Loop, windowEnd: nat, timeout: nat, m: Move, k: Loop) {
    Allowed(l, windowEnd, timeout, m) && k == Advance(l, windowEnd, timeout, m)
  }

  lemma Extend(l: Loop, start: nat, concurrency: nat, windowEnd: nat, timeout: nat, m: Move, k: Loop)
    requires Reaches(l, start, concurrency, windowEnd, timeout) && Follows(l, windowEnd, timeout, m, k)
    ensures Reaches(k, start, concurrency, windowEnd, timeout)
  {
    var loops, moves :| Schedule(loops, moves, start, concurrency, windowEnd, timeout) && loops[|loops| - 1] == l;
    assert Schedule(loops + [k], moves + [m], start, concurrency, windowEnd, timeout);
  }

  /** And one can, however late. */
  lemma LateStartReached(start: nat, concurrency: nat, windowEnd: nat, timeout: nat, late: nat) returns (l: Loop)
    requires concurrency >= 1 && start < windowEnd
    ensures Reaches(l, start, concurrency, windowEnd, timeout)
    ensures |l.entries| == 1 && l.entries[0].call.facts.initiated == windowEnd + late
  {
    var opening := Opening(start, concurrency);
    assert Schedule([opening], [], start, concurrency, windowEnd, timeout);
    l := Advance(opening, windowEnd, timeout, Initiate(0, start, windowEnd + late));
    Extend(opening, start, concurrency, windowEnd, timeout, Initiate(0, start, windowEnd + late), l);
  }

  function AckedFacts(x: Facts, at: nat): Facts {
    x.(completed := Some(at), responseEvent := Some("$a"), ackIds := ["$a"])
  }

  /** A request refused at `start`, acknowledged a moment later or not yet. */
  function RefusedEntry(start: nat, i: nat, acked: bool): Entry {
    var x := Started(start).(sendErrcode := "M");
    if acked then Entry(0, i + 1, Call(AckedFacts(x, start + 1), Returned, start + 1), Some(start))
    else Entry(0, i + 1, Call(x, Returned, start), Some(start))
  }

  /** A request accepted at `start` in slot i, answered a moment later or not yet. */
  function SentEntry(start: nat, refused: nat, i: nat, answered: bool): Entry {
    var x := Started(start);
    if answered then Entry(i, refused + i + 1, Call(AckedFacts(x, start + 1), Returned, start + 1), Some(start + 1))
    else Entry(i, refused + i + 1, Call(x, Waiting, start), None)
  }

  function Upto(n: nat): (s: seq<nat>)
    ensures |s| == n && forall i | 0 <= i < n :: s[i] == i
  {
    seq(n, i => i)
  }

  /** `refused` requests refused, `acked` of them acknowledged since, `sent` slots
      with an accepted request, `answered` of these answered, `stopped` slots ended. */
  datatype Progress = Progress(refused: nat, acked: nat, sent: nat, answered: nat, stopped: nat)

  function SlotIn(p: Progress, i: nat): Slot {
    if i < p.stopped then Stopped
    else if p.answered <= i < p.sent then Busy(p.refused + i)
    else Free
  }

  function EntriesIn(start: nat, p: Progress): (es: seq<Entry>)
    ensures |es| == p.refused + p.sent
    ensures forall i | 0 <= i < p.refused :: es[i] == RefusedEntry(start, i, i < p.acked)
    ensures forall i | p.refused <= i < |es| ::
            es[i] == SentEntry(start, p.refused, i - p.refused, i - p.refused < p.answered)
  {
    seq(p.refused, i requires 0 <= i => RefusedEntry(start, i, i < p.acked)) +
    seq(p.sent, i requires 0 <= i => SentEntry(start, p.refused, i, i < p.answered))
  }

  function LoopIn(start: nat, concurrency: nat, p: Progress, clock: nat): Loop {
    Loop(clock, p.refused + p.sent + 1, seq(concurrency, i requires 0 <= i => SlotIn(p, i)), EntriesIn(start, p),
         Upto(p.refused + p.answered))
  }

  ghost predicate At(start: nat, concurrency: nat, windowEnd: nat, timeout: nat, p: Progress, clock: nat) {
    Reaches(LoopIn(start, concurrency, p, clock), start, concurrency, windowEnd, timeout)
  }

  lemma {:induction false} Refuse(start: nat, concurrency: nat, windowEnd: nat, timeout: nat, k: nat)
    requires concurrency >= 1 && start < windowEnd
    ensures At(start, concurrency, windowEnd, timeout, Progress(k, 0, 0, 0, 0), start)
  {
    if k == 0 {
      var l := LoopIn(start, concurrency, Progress(0, 0, 0, 0, 0), start);
      assert l.slots == Opening(start, concurrency).slots;
      assert Schedule([l], [], start, concurrency, windowEnd, timeout);
    } else {
      Refuse(start, concurrency, windowEnd, timeout, k - 1);
      var l := LoopIn(start, concurrency, Progress(k - 1, 0, 0, 0, 0), start);
      var open := Advance(l, windowEnd, timeout, Initiate(0, start, start));
      Extend(l, start, concurrency, windowEnd, timeout, Initiate(0, start, start), open);
      assert "M" != "";
      var refused := Advance(open, windowEnd, timeout, Do(k - 1, SendRejected(start, "M")));
      Extend(open, start, concurrency, windowEnd, timeout, Do(k - 1, SendRejected(start, "M")), refused);
      var next := LoopIn(start, concurrency, Progress(k, 0, 0, 0, 0), start);
      assert refused.slots == next.slots && refused.entries == next.entries && refused.completed == next.completed;
    }
  }

  lemma SendOne(start: nat, concurrency: nat, windowEnd: nat, timeout: nat, k: nat, c: nat)
    requires c < concurrency && start < windowEnd && timeout > 0
    requires At(start, concurrency, windowEnd, timeout, Progress(k, 0, c, 0, 0), start)
    ensures At(start, concurrency, windowEnd, timeout, Progress(k, 0, c + 1, 0, 0), start)
  {
    var l := LoopIn(start, concurrency, Progress(k, 0, c, 0, 0), start);
    var open := Advance(l, windowEnd, timeout, Initiate(c, start, start));
    Extend(l, start, concurrency, windowEnd, timeout, Initiate(c, start, start), open);
    var sent := Advance(open, windowEnd, timeout, Do(k + c, SendAccepted(start)));
    Extend(open, start, concurrency, windowEnd, timeout, Do(k + c, SendAccepted(start)), sent);
    var next := LoopIn(start, concurrency, Progress(k, 0, c + 1, 0, 0), start);
    assert sent.slots == next.slots && sent.entries == next.entries;
  }

  lemma {:induction false} Send(start: nat, concurrency: nat, windowEnd: nat, timeout: nat, k: nat, c: nat)
    requires 1 <= concurrency && c <= concurrency && start < windowEnd && timeout > 0
    ensures At(start, concurrency, windowEnd, timeout, Progress(k, 0, c, 0, 0), start)
  {
    if c == 0 {
      Refuse(start, concurrency, windowEnd, timeout, k);
    } else {
      Send(start, concurrency, windowEnd, timeout, k, c - 1);
      SendOne(start, concurrency, windowEnd, timeout, k, c - 1);
    }
  }

  function ClockAfter(start: nat, a: nat): nat { if a == 0 then start else start + 1 }

  lemma FirstAckOf(x: Facts, at: nat)
    requires x.ackIds == [] && !x.timedOut && x.recoveryEpisode.None?
    ensures OnAck(x, at, "$a", None) == AckedFacts(x, at)
  {
    assert x.ackIds + ["$a"] == ["$a"];
  }

  lemma {:induction false} AckRefused(start: nat, concurrency: nat, windowEnd: nat, timeout: nat, k: nat, a: nat)
    requires 1 <= concurrency && a <= k && start < windowEnd && timeout > 0
    ensures At(start, concurrency, windowEnd, timeout, Progress(k, a, concurrency, 0, 0), ClockAfter(start, a))
  {
    if a == 0 {
      Send(start, concurrency, windowEnd, timeout, k, concurrency);
    } else {
      AckRefused(start, concurrency, windowEnd, timeout, k, a - 1);
      var l := LoopIn(start, concurrency, Progress(k, a - 1, concurrency, 0, 0), ClockAfter(start, a - 1));
      FirstAckOf(l.entries[a - 1].call.facts, start + 1);
      var acked := Advance(l, windowEnd, timeout, Do(a - 1, Ack(start + 1, "$a", None)));
      Extend(l, start, concurrency, windowEnd, timeout, Do(a - 1, Ack(start + 1, "$a", None)), acked);
      var next := LoopIn(start, concurrency, Progress(k, a, concurrency, 0, 0), start + 1);
      assert acked.slots == next.slots && acked.entries == next.entries;
    }
  }

  /** One of the sent requests is acknowledged and its slot about to resume. */
  function Resuming(start: nat, concurrency: nat, k: nat, d: nat): Loop
    requires d < concurrency
  {
    var l := LoopIn(start, concurrency, Progress(k, k, concurrency, d, 0), start + 1);
    var acked := Call(AckedFacts(Started(start), start + 1), Waiting, start + 1);
    l.(entries := l.entries[k + d := Entry(d, k + d + 1, acked, None)])
  }

  lemma AnswerMove(start: nat, concurrency: nat, windowEnd: nat, timeout: nat, k: nat, d: nat)
    requires d < concurrency
    ensures Follows(LoopIn(start, concurrency, Progress(k, k, concurrency, d, 0), ClockAfter(start, k + d)),
                    windowEnd, timeout,
                    Do(k + d, Ack(start + 1, "$a", None)), Resuming(start, concurrency, k, d))
  {
    var l := LoopIn(start, concurrency, Progress(k, k, concurrency, d, 0), ClockAfter(start, k + d));
    assert l.entries[k + d] == SentEntry(start, k, d, false);
    FirstAckOf(Started(start), start + 1);
  }

  lemma ResumeMove(start: nat, concurrency: nat, windowEnd: nat, timeout: nat, k: nat, d: nat)
    requires d < concurrency
    ensures Follows(Resuming(start, concurrency, k, d), windowEnd, timeout, Do(k + d, Resume(start + 1)),
                    LoopIn(start, concurrency, Progress(k, k, concurrency, d + 1, 0), start + 1))
  {
    var done := Advance(Resuming(start, concurrency, k, d), windowEnd, timeout, Do(k + d, Resume(start + 1)));
    var next := LoopIn(start, concurrency, Progress(k, k, concurrency, d + 1, 0), start + 1);
    assert done.slots == next.slots;
    assert done.entries == next.entries;
    assert done.completed == next.completed;
  }

  lemma AnswerOne(start: nat, concurrency: nat, windowEnd: nat, timeout: nat, k: nat, d: nat)
    requires d < concurrency
    requires At(start, concurrency, windowEnd, timeout, Progress(k, k, concurrency, d, 0), ClockAfter(start, k + d))
    ensures At(start, concurrency, windowEnd, timeout, Progress(k, k, concurrency, d + 1, 0), start + 1)
  {
    var l := LoopIn(start, concurrency, Progress(k, k, concurrency, d, 0), ClockAfter(start, k + d));
    var next := LoopIn(start, concurrency, Progress(k, k, concurrency, d + 1, 0), start + 1);
    AnswerMove(start, concurrency, windowEnd, timeout, k, d);
    Extend(l, start, concurrency, windowEnd, timeout, Do(k + d, Ack(start + 1, "$a", None)),
           Resuming(start, concurrency, k, d));
    ResumeMove(start, concurrency, windowEnd, timeout, k, d);
    Extend(Resuming(start, concurrency, k, d), start, concurrency, windowEnd, timeout, Do(k + d, Resume(start + 1)),
           next);
  }

  lemma {:induction false} Answer(start: nat, concurrency: nat, windowEnd: nat, timeout: nat, k: nat, d: nat)
    requires 1 <= concurrency && d <= concurrency && start < windowEnd && timeout > 0
    ensures At(start, concurrency, windowEnd, timeout, Progress(k, k, concurrency, d, 0), ClockAfter(start, k + d))
  {
    if d == 0 {
      AckRefused(start, concurrency, windowEnd, timeout, k, k);
    } else {
      Answer(start, concurrency, windowEnd, timeout, k, d - 1);
      AnswerOne(start, concurrency, windowEnd, timeout, k, d - 1);
    }
  }

  lemma {:induction false} StopAll(start: nat, concurrency: nat, windowEnd: nat, timeout: nat, k: nat, z: nat)
    requires 1 <= concurrency && z <= concurrency && start < windowEnd && timeout > 0
    ensures At(start, concurrency, windowEnd, timeout, Progress(k, k, concurrency, concurrency, z),
               if z == 0 then start + 1 else windowEnd)
  {
    if z == 0 {
      Answer(start, concurrency, windowEnd, timeout, k, concurrency);
    } else {
      StopAll(start, concurrency, windowEnd, timeout, k, z - 1);
      var l := LoopIn(start, concurrency, Progress(k, k, concurrency, concurrency, z - 1),
                      if z == 1 then start + 1 else windowEnd);
      var stopped := Advance(l, windowEnd, timeout, Stop(z - 1, windowEnd));
      Extend(l, start, concurrency, windowEnd, timeout, Stop(z - 1, windowEnd), stopped);
      var next := LoopIn(start, concurrency, Progress(k, k, concurrency, concurrency, z), windowEnd);
      assert stopped.slots == next.slots && stopped.entries == next.entries;
    }
  }

  function Below(n: nat): set<nat> { if n == 0 then {} else Below(n - 1) + {n - 1} }

  lemma {:induction false} BelowFacts(n: nat)
    ensures |Below(n)| == n && forall i: nat :: i in Below(n) <==> i < n
  {
    if n > 0 { BelowFacts(n - 1); }
  }

  /** The bound is met for every number of slots and of late acknowledgements: a
      finished run exists in which `late` refused requests were acknowledged after
      their return and C + late records overlap at one instant. */
  lemma LateAcksOverlap(start: nat, concurrency: nat, windowEnd: nat, timeout: nat, late: nat) returns (l: Loop)
    requires concurrency >= 1 && start < windowEnd && timeout > 0
    ensures Reaches(l, start, concurrency, windowEnd, timeout)
    ensures |l.slots| == concurrency && forall i | 0 <= i < concurrency :: l.slots[i].Stopped?
    ensures |LateSet(l)| == late && forall i | 0 <= i < |l.completed| :: l.completed[i] < |l.entries|
    ensures OverlapAt(RecordsOf(l.entries, l.completed), start) == concurrency + late
  {
    StopAll(start, concurrency, windowEnd, timeout, late, concurrency);
    var p := Progress(late, late, concurrency, concurrency, concurrency);
    l := LoopIn(start, concurrency, p, windowEnd);
    AllActive(start, p, l);
    BelowFacts(late);
    assert LateSet(l) == Below(late);
    AllOverlap(l, start, concurrency + late);
  }

  lemma AllOverlap(l: Loop, t: int, n: nat)
    requires |l.entries| == n && l.completed == Upto(n) && forall i: nat | i < n :: ActiveAt(l, t, i)
    ensures (forall i | 0 <= i < |l.completed| :: l.completed[i] < |l.entries|)
    ensures OverlapAt(RecordsOf(l.entries, l.completed), t) == n
  {
    OverlapCounts(l, l.completed, t);
    BelowFacts(n);
    forall i: nat ensures i in l.completed <==> i < n {
      if i < n { assert l.completed[i] == i; }
    }
    assert (set i | i in l.completed && ActiveAt(l, t, i)) == Below(n);
  }

  lemma AllActive(start: nat, p: Progress, l: Loop)
    requires p.acked == p.refused && p.answered == p.sent && l.entries == EntriesIn(start, p)
    ensures forall i: nat | i < |l.entries| :: ActiveAt(l, start, i) && (Late(l.entries[i]) <==> i < p.refused)
  {}
}
