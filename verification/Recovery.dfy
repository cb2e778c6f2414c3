/** Startup recovery: the ledger and the runtime that fills it
    (src/fam/agent/recovery.py, src/fam/agent/runtime.py). What the homeserver does
    with a send is the business of AgentSystem. */
module Recovery {
  import opened Options
  import opened Message
  import opened Transport
  import opened Dedup
  import opened AgentSystem
  import Sorting

  datatype Source = Sync | History

  datatype Observation = Observation(firstSource: Source, timesObserved: nat)

  type Observations = map<EventId, Observation>

  ghost function SomeKey(m: Observations): EventId
    requires m != map[]
  {
    var k :| k in m; k
  }

  function Surplus(o: Observation): nat { if o.timesObserved > 1 then o.timesObserved - 1 else 0 }

  /** The sum of the repeated sightings. */
  ghost function Repeats(m: Observations): nat
    decreases |m|
  {
    if m == map[] then 0
    else
      var k := SomeKey(m);
      Surplus(m[k]) + Repeats(m - {k})
  }

  lemma {:induction false} NoRepeats(m: Observations)
    requires forall k | k in m :: m[k].timesObserved <= 1
    ensures Repeats(m) == 0
    decreases |m|
  {
    if m != map[] { NoRepeats(m - {SomeKey(m)}); }
  }

  /** The sum does not depend on the order of summation. */
  lemma {:induction false} RepeatsOf(m: Observations, k: EventId)
    requires k in m
    ensures Repeats(m) == Surplus(m[k]) + Repeats(m - {k})
    decreases |m|
  {
    var j := SomeKey(m);
    if j != k {
      RepeatsOf(m - {j}, k);
      RepeatsOf(m - {k}, j);
      assert m - {j} - {k} == m - {k} - {j};
    }
  }

  /** A repeated sighting adds one to the count of duplicate observations, a first one
      none. */
  lemma SightingCounts(m: Observations, id: EventId, source: Source)
    ensures id !in m ==> Repeats(m[id := Observation(source, 1)]) == Repeats(m)
    ensures id in m && m[id].timesObserved >= 1 ==>
              Repeats(m[id := m[id].(timesObserved := m[id].timesObserved + 1)]) == Repeats(m) + 1
  {
    if id !in m {
      var n := m[id := Observation(source, 1)];
      RepeatsOf(n, id);
      assert n - {id} == m;
    } else {
      var n := m[id := m[id].(timesObserved := m[id].timesObserved + 1)];
      RepeatsOf(n, id);
      RepeatsOf(m, id);
      assert n - {id} == m - {id};
    }
  }

  class RecoveryLedger {
    var observations: Observations
    var processed: set<EventId>
    var paginationInvoked: bool
    var historyPagesFetched: nat

    constructor ()
      ensures observations == map[] && processed == {} && !paginationInvoked && historyPagesFetched == 0
    {
      observations, processed, paginationInvoked, historyPagesFetched := map[], {}, false, 0;
    }

    function Recovered(): set<EventId>
      reads this
    {
      observations.Keys
    }

    function SeenFirst(source: Source): set<EventId>
      reads this
    {
      set id | id in observations && observations[id].firstSource == source
    }

    /** The first sighting fixes the source; later ones only count. */
    method Observe(id: EventId, source: Source) returns (first: bool)
      modifies this`observations
      ensures first <==> id !in old(observations)
      ensures observations == old(observations)[id :=
                if first then Observation(source, 1)
                else Observation(old(observations)[id].firstSource, old(observations)[id].timesObserved + 1)]
      ensures first ==> Repeats(observations) == Repeats(old(observations))
      ensures !first && old(observations)[id].timesObserved >= 1 ==>
                Repeats(observations) == Repeats(old(observations)) + 1
    {
      SightingCounts(observations, id, source);
      first := id !in observations;
      if first {
        observations := observations[id := Observation(source, 1)];
      } else {
        var seen := observations[id];
        observations := observations[id := seen.(timesObserved := seen.timesObserved + 1)];
      }
    }

    method NotePagination(pages: nat)
      modifies this`paginationInvoked, this`historyPagesFetched
      ensures paginationInvoked && historyPagesFetched == old(historyPagesFetched) + pages
    {
      paginationInvoked := true;
      historyPagesFetched := historyPagesFetched + pages;
    }

    method MarkProcessed(id: EventId)
      modifies this`processed
      ensures processed == old(processed) + {id}
    {
      processed := processed + {id};
    }
  }

  // ---------------------------------------------------------------- runtime

  function Requests(cfg: Config, events: seq<Event>): seq<Event> {
    Keep(events, e => RequestKey(cfg, e).Some?)
  }

  function Sequence(cfg: Config, e: Event): real {
    if RequestKey(cfg, e).Some? then RequestKey(cfg, e).value.sequence as real else 0.0
  }

  /** What one call of _handle does to the history of processings. */
  ghost function AfterHandle(cfg: Config, done: seq<(EventId, Key)>, e: Event): seq<(EventId, Key)> {
    if RequestKey(cfg, e).None? || SeenBefore(done, e.id, RequestKey(cfg, e).value) then done
    else done + [(e.id, RequestKey(cfg, e).value)]
  }

  /** Each of these requests was processed, or shares its event or key with one
      that was. */
  ghost predicate Served(cfg: Config, done: seq<(EventId, Key)>, events: seq<Event>) {
    forall e | e in events && RequestKey(cfg, e).Some? :: SeenBefore(done, e.id, RequestKey(cfg, e).value)
  }

  /** The history after handling these events one by one. */
  ghost function HandleAll(cfg: Config, done: seq<(EventId, Key)>, events: seq<Event>): seq<(EventId, Key)> {
    if events == [] then done
    else AfterHandle(cfg, HandleAll(cfg, done, events[..|events| - 1]), events[|events| - 1])
  }

  lemma HandleAllNext(cfg: Config, done: seq<(EventId, Key)>, events: seq<Event>, i: nat)
    requires i < |events|
    ensures HandleAll(cfg, done, events[..i + 1]) == AfterHandle(cfg, HandleAll(cfg, done, events[..i]), events[i])
  {
    assert events[..i + 1][..i] == events[..i];
  }

  function SequenceOf(cfg: Config): Event -> real { (e: Event) => Sequence(cfg, e) }

  /** The pending requests in the order in which recovery handles them. */
  function InSequence(cfg: Config, events: seq<Event>): seq<Event> {
    Sorting.Sort(Requests(cfg, events), SequenceOf(cfg))
  }

  ghost predicate Ascends(done: seq<(EventId, Key)>, from: nat) {
    forall i, j | from <= i < j < |done| :: done[i].1.sequence <= done[j].1.sequence
  }

  /** Handled in that order, new processings ascend in their sequence numbers, behind
      those there were. */
  lemma {:induction false} HandledInSequence(cfg: Config, done: seq<(EventId, Key)>, events: seq<Event>)
    requires Sorting.SortedBy(events, SequenceOf(cfg))
    ensures done <= HandleAll(cfg, done, events) && Ascends(HandleAll(cfg, done, events), |done|)
    ensures forall i | |done| <= i < |HandleAll(cfg, done, events)| ::
              events != [] && HandleAll(cfg, done, events)[i].1.sequence as real <= Sequence(cfg, events[|events| - 1])
  {
    if events != [] {
      var n := |events| - 1;
      var front, last := events[..n], events[n];
      HandledInSequence(cfg, done, front);
      var before := HandleAll(cfg, done, front);
      if n > 0 { assert SequenceOf(cfg)(events[n - 1]) <= SequenceOf(cfg)(events[n]); }
      forall i | |done| <= i < |before| ensures before[i].1.sequence as real <= Sequence(cfg, last) {}
    }
  }

  lemma SeenStays(done: seq<(EventId, Key)>, longer: seq<(EventId, Key)>, id: EventId, key: Key)
    requires done <= longer && SeenBefore(done, id, key)
    ensures SeenBefore(longer, id, key)
  {
    var i :| 0 <= i < |done| && (done[i].0 == id || done[i].1 == key);
    assert longer[i] == done[i];
  }

  lemma ServedNext(cfg: Config, before: seq<(EventId, Key)>, after: seq<(EventId, Key)>, events: seq<Event>, e: Event)
    requires Served(cfg, before, events) && Served(cfg, after, [e]) && before <= after
    ensures Served(cfg, after, events + [e])
  {
    forall d | d in events + [e] && RequestKey(cfg, d).Some? ensures SeenBefore(after, d.id, RequestKey(cfg, d).value) {
      if d in events {
        SeenStays(before, after, d.id, RequestKey(cfg, d).value);
      } else {
        assert d in [e];
      }
    }
  }

  lemma ServedAlready(cfg: Config, done: seq<(EventId, Key)>, pending: seq<Event>, handled: seq<Event>, e: Event)
    requires DistinctIds(pending) && e in pending && e.id in Ids(handled) && (forall d | d in handled :: d in pending)
    requires Served(cfg, done, handled)
    ensures Served(cfg, done, [e])
  {
    var d :| d in handled && d.id == e.id;
    DistinctEvents(pending, d, e);
  }

  /** One delivery keeps the history free of repetitions, never rewrites it, and
      leaves the request served. */
  lemma HandleFacts(cfg: Config, done: seq<(EventId, Key)>, e: Event)
    requires AllDistinct(done)
    ensures AllDistinct(AfterHandle(cfg, done, e)) && done <= AfterHandle(cfg, done, e)
    ensures Served(cfg, AfterHandle(cfg, done, e), [e])
  {
    var after := AfterHandle(cfg, done, e);
    if RequestKey(cfg, e).Some? && after != done {
      assert after[|done|] == (e.id, RequestKey(cfg, e).value);
    }
  }

  lemma HandledNext(cfg: Config, history: seq<(EventId, Key)>, handled: seq<Event>, e: Event)
    requires AllDistinct(history) && Served(cfg, history, handled)
    ensures Served(cfg, AfterHandle(cfg, history, e), handled + [e])
  {
    HandleFacts(cfg, history, e);
    ServedNext(cfg, history, AfterHandle(cfg, history, e), handled, e);
  }

  lemma SkippedNext(cfg: Config, history: seq<(EventId, Key)>, pending: seq<Event>, handled: seq<Event>, e: Event)
    requires DistinctIds(pending) && e in pending && e.id in Ids(handled) && (forall d | d in handled :: d in pending)
    requires Served(cfg, history, handled)
    ensures Served(cfg, history, handled + [e])
    ensures AfterHandle(cfg, history, e) == history
  {
    ServedAlready(cfg, history, pending, handled, e);
    assert e in [e];
    ServedNext(cfg, history, history, handled, e);
  }

  lemma {:induction false} HandleAllServes(cfg: Config, done: seq<(EventId, Key)>, events: seq<Event>)
    requires AllDistinct(done)
    ensures AllDistinct(HandleAll(cfg, done, events)) && Served(cfg, HandleAll(cfg, done, events), events)
  {
    if events != [] {
      var n := |events| - 1;
      HandleAllServes(cfg, done, events[..n]);
      HandledNext(cfg, HandleAll(cfg, done, events[..n]), events[..n], events[n]);
      HandleFacts(cfg, HandleAll(cfg, done, events[..n]), events[n]);
      assert events[..n] + [events[n]] == events;
    }
  }

  lemma ServedMembers(cfg: Config, done: seq<(EventId, Key)>, a: seq<Event>, b: seq<Event>)
    requires Served(cfg, done, a) && forall e | e in b :: e in a
    ensures Served(cfg, done, b)
  {}

  /** So recovery's new processings ascend in their sequence numbers. */
  lemma RecoveredInSequence(cfg: Config, done: seq<(EventId, Key)>, events: seq<Event>)
    ensures var after := HandleAll(cfg, done, InSequence(cfg, events)); done <= after && Ascends(after, |done|)
  {
    Sorting.SortSorted(Requests(cfg, events), SequenceOf(cfg));
    HandledInSequence(cfg, done, InSequence(cfg, events));
  }

  lemma SortedAlike(cfg: Config, pending: seq<Event>, todo: seq<Event>)
    requires DistinctIds(pending) && Clean(cfg, pending) && todo == Sorting.Sort(pending, SequenceOf(cfg))
    ensures DistinctIds(todo) && Clean(cfg, todo) && Ids(todo) == Ids(pending)
    ensures forall e :: e in todo <==> e in pending
  {
    Sorting.SortMembers(pending, SequenceOf(cfg));
    Sorting.SortPermutes(pending, SequenceOf(cfg));
    OneIdEach(pending, todo);
  }

  /** A permutation of distinct events has distinct ids. */
  lemma OneIdEach(s: seq<Event>, t: seq<Event>)
    requires DistinctIds(s) && multiset(s) == multiset(t) && |s| == |t| && forall e :: e in t <==> e in s
    ensures DistinctIds(t)
  {
    forall i, j | 0 <= i < j < |t| ensures t[i].id != t[j].id {
      assert t[i] in t && t[j] in t;
      assert t[i].id == t[j].id ==> t[i] == t[j] by {
        if t[i].id == t[j].id { DistinctEvents(s, t[i], t[j]); }
      }
      assert t[i] == t[j] ==> multiset(t)[t[i]] >= 2 by {
        if t[i] == t[j] { TwiceInMultiset(t, i, j); }
      }
      OnceInMultiset(s, t[i]);
    }
  }

  lemma TwiceInMultiset(t: seq<Event>, i: nat, j: nat)
    requires i < j < |t| && t[i] == t[j]
    ensures multiset(t)[t[i]] >= 2
  {
    assert t == t[..j] + [t[j]] + t[j + 1..];
    assert t[i] in t[..j] by { assert t[..j][i] == t[i]; }
    assert multiset(t[..j])[t[i]] >= 1;
  }

  lemma {:induction false} OnceInMultiset(s: seq<Event>, e: Event)
    requires DistinctIds(s)
    ensures multiset(s)[e] <= 1
  {
    if s != [] {
      var front, last := s[..|s| - 1], s[|s| - 1];
      OnceInMultiset(front, e);
      Sorting.LastOfMultiset(s);
      if e == last {
        forall d | d in front ensures d != last {
          var i :| 0 <= i < |front| && front[i] == d;
        }
        assert last !in multiset(front);
      }
    }
  }

  /** Each of these was observed once, first by the path that had it. */
  ghost predicate SeenOnce(m: Observations, ids: set<EventId>, directIds: set<EventId>) {
    && m.Keys == ids
    && forall id | id in m :: m[id] == Observation(if id in directIds then Sync else History, 1)
  }

  lemma CleanNext(cfg: Config, events: seq<Event>, i: nat)
    requires i < |events| && Clean(cfg, events[..i])
    ensures Clean(cfg, events[..i + 1]) <==> !Poison(cfg, events[i])
  {
    assert events[..i + 1] == events[..i] + [events[i]];
    assert events[i] in events[..i + 1];
  }

  lemma SeenIsDecided(done: seq<(EventId, Key)>, id: EventId, key: Key)
    ensures SeenBefore(done, id, key) <==> RegistryOf(done).Decide(id, key).SkipDuplicate?
  {
    if RegistryOf(done).Decide(id, key).SkipDuplicate? {
      var d :| d in done && (d.0 == id || d.1 == key);
    } else {
      assert forall i | 0 <= i < |done| :: done[i] in done;
    }
  }

  lemma DecisionsAgree(r: Registry, done: seq<(EventId, Key)>, id: EventId, key: Key)
    requires Tracks(r, done)
    ensures r == RegistryOf(done) && (r.Decide(id, key).SkipDuplicate? <==> SeenBefore(done, id, key))
    ensures r.Commit(id, key) == RegistryOf(done + [(id, key)])
  {
    TracksIff(r, done);
    SeenIsDecided(done, id, key);
    CommitAppends(done, id, key);
  }

  /** The registry part of the system's step. */
  function Decided(cfg: Config, r: Registry, done: seq<(EventId, Key)>, e: Event): (Registry, seq<(EventId, Key)>) {
    if RequestKey(cfg, e).None? || r.Decide(e.id, RequestKey(cfg, e).value).SkipDuplicate? then (r, done)
    else (r.Commit(e.id, RequestKey(cfg, e).value), done + [(e.id, RequestKey(cfg, e).value)])
  }

  lemma BeginDecides(cfg: Config, s: State)
    requires Enabled(cfg, s, BeginHandle)
    ensures var t, p := AfterBegin(cfg, s), s.process;
            t.process.Up? &&
            (t.process.registry, t.process.executed) == Decided(cfg, p.registry, p.executed, p.phase.todo[p.phase.next])
  {}

  lemma DecidedIsHandled(cfg: Config, r: Registry, done: seq<(EventId, Key)>, e: Event)
    requires Tracks(r, done)
    ensures Decided(cfg, r, done, e) == (RegistryOf(AfterHandle(cfg, done, e)), AfterHandle(cfg, done, e))
  {
    if RequestKey(cfg, e).Some? {
      DecisionsAgree(r, done, e.id, RequestKey(cfg, e).value);
    } else {
      TracksIff(r, done);
    }
  }

  /** The system's step and one call of _handle do the same to the history, and the
      system's registry is the one that history leaves. */
  lemma HandlersAgree(cfg: Config, s: State)
    requires s.process.Up? && Tracks(s.process.registry, s.process.executed) && Enabled(cfg, s, BeginHandle)
    ensures var t, e := AfterBegin(cfg, s), s.process.phase.todo[s.process.phase.next];
            var done := AfterHandle(cfg, s.process.executed, e);
            t.process.Up? && t.process.executed == done && t.process.registry == RegistryOf(done)
  {
    BeginDecides(cfg, s);
    DecidedIsHandled(cfg, s.process.registry, s.process.executed, s.process.phase.todo[s.process.phase.next]);
  }

  class AgentRuntime {
    const cfg: Config
    const ledger: RecoveryLedger
    const registry: ProcessedRegistry
    var checkpointToken: Option<nat>
    var syncToken: Option<nat>
    var saved: Option<nat>

    constructor (cfg: Config)
      ensures this.cfg == cfg && fresh(ledger) && ledger.observations == map[] && ledger.processed == {}
      ensures fresh(registry) && registry.done == [] && Valid()
      ensures !ledger.paginationInvoked && ledger.historyPagesFetched == 0
      ensures checkpointToken == syncToken == saved == None
    {
      this.cfg := cfg;
      ledger := new RecoveryLedger();
      registry := new ProcessedRegistry();
      checkpointToken, syncToken, saved := None, None, None;
    }

    /** The registry stands for its history, in which no event and no key repeats. */
    ghost predicate Valid()
      reads this, registry
    {
      registry.Valid() && AllDistinct(registry.done)
    }

    /** connect: the stored position is retained as the recovery boundary; without
        one the agent primes at the end of the room. Either way it is durable. */
    method Connect(stored: Option<nat>, primed: nat)
      modifies this
      ensures checkpointToken == stored
      ensures syncToken == saved == Some(match stored case Some(t) => t case None => primed)
    {
      checkpointToken := stored;
      if checkpointToken.Some? {
        syncToken := checkpointToken;
      } else {
        syncToken := Some(primed);
      }
      SaveCheckpoint();
    }

    method SaveCheckpoint()
      modifies this`saved
      ensures saved == syncToken
    {
      saved := syncToken;
    }

    /** One delivered event: reading it raises or not; then the registry decides, and a
        handler that answers saves the checkpoint at the position reached so far. */
    method Handle(e: Event) returns (raised: bool)
      requires Valid()
      modifies registry, this`saved
      ensures Valid() && (raised <==> Poison(cfg, e))
      ensures registry.done == if raised then old(registry.done) else AfterHandle(cfg, old(registry.done), e)
      ensures saved == if |registry.done| > |old(registry.done)| && cfg.replyOf(RequestKey(cfg, e).value).Some?
                       then syncToken else old(saved)
    {
      raised := e.sender != cfg.me && e.body.Some? && cfg.raises(e.body.value);
      if raised {
        return;
      }
      HandleFacts(cfg, registry.done, e);
      if RequestKey(cfg, e).None? {
        return;
      }
      var key := RequestKey(cfg, e).value;
      var decision := registry.Decide(e.id, key);
      if decision.SkipDuplicate? {
        return;
      }
      registry.Commit(e.id, key);
      if cfg.replyOf(key).Some? {
        SaveCheckpoint();
      }
    }

    /** The count of direct requests, which reads every event of the slice. */
    method CountForeign(events: seq<Event>) returns (raised: bool, count: nat)
      ensures raised <==> !Clean(cfg, events)
      ensures !raised ==> count == |Requests(cfg, events)|
    {
      raised, count := false, 0;
      for i := 0 to |events|
        invariant Clean(cfg, events[..i]) && count == |Requests(cfg, events[..i])|
      {
        var e := events[i];
        assert events[..i + 1] == events[..i] + [e];
        KeepNext(events[..i], e, d => RequestKey(cfg, d).Some?);
        if Poison(cfg, e) {
          return true, count;
        }
        if RequestKey(cfg, e).Some? {
          count := count + 1;
        }
      }
      assert events[..|events|] == events;
    }

    /** What the ledger holds once these pending requests have been observed. */
    ghost predicate Observed(direct: seq<Event>, pending: seq<Event>)
      reads this, ledger
    {
      && ledger.Recovered() == Ids(pending)
      && ledger.SeenFirst(Sync) == Ids(pending) * Ids(Requests(cfg, direct))
      && ledger.SeenFirst(History) == Ids(pending) - Ids(Requests(cfg, direct))
      && Repeats(ledger.observations) == 0
    }

    /** The observation loop of recover: the pending requests, each seen once, an
        event on both paths counted as direct. It raises at the first event on which
        reading does, some requests observed. */
    method ObserveAll(direct: seq<Event>, events: seq<Event>) returns (raised: bool, pending: seq<Event>)
      requires ledger.observations == map[] && DistinctIds(events)
      modifies ledger`observations
      ensures raised <==> !Clean(cfg, events)
      ensures raised ==> ledger.Recovered() <= Ids(Requests(cfg, events))
      ensures !raised ==> pending == Requests(cfg, events) && Observed(direct, pending)
    {
      var directIds := Ids(Requests(cfg, direct));
      raised, pending := false, [];
      for i := 0 to |events|
        invariant pending == Requests(cfg, events[..i]) && Clean(cfg, events[..i])
        invariant SeenOnce(ledger.observations, Ids(pending), directIds)
      {
        RequestsNext(cfg, events, i);
        var e := events[i];
        CleanNext(cfg, events, i);
        if Poison(cfg, e) {
          assert e in events;
          RequestsWithin(cfg, events, i);
          return true, pending;
        }
        if RequestKey(cfg, e).Some? {
          var first := ledger.Observe(e.id, if e.id in directIds then Sync else History);
          IdsAppend(pending, e);
          pending := pending + [e];
        }
      }
      assert events[..|events|] == events;
      NoRepeats(ledger.observations);
    }

    /** The body of the processing loop. */
    method ProcessOne(e: Event, ghost pending: seq<Event>, ghost handled: seq<Event>)
      requires Valid() && DistinctIds(pending) && e in pending && (forall d | d in handled :: d in pending)
      requires ledger.processed == Ids(handled) && Served(cfg, registry.done, handled) && !Poison(cfg, e)
      modifies registry, this`saved, ledger`processed
      ensures Valid() && ledger.processed == Ids(handled + [e])
      ensures registry.done == AfterHandle(cfg, old(registry.done), e)
      ensures saved == old(saved) || saved == syncToken
    {
      IdsAppend(handled, e);
      if e.id !in ledger.processed {
        var raised := Handle(e);
        ledger.MarkProcessed(e.id);
      } else {
        SkippedNext(cfg, registry.done, pending, handled, e);
      }
    }

    /** The processing loop over a list of distinct events. */
    method ProcessList(todo: seq<Event>)
      requires Valid() && ledger.processed == {} && DistinctIds(todo) && Clean(cfg, todo)
      modifies registry, this`saved, ledger`processed
      ensures Valid() && ledger.processed == Ids(todo)
      ensures saved == old(saved) || saved == syncToken
      ensures registry.done == HandleAll(cfg, old(registry.done), todo)
    {
      for i := 0 to |todo|
        invariant Valid() && ledger.processed == Ids(todo[..i])
        invariant saved == old(saved) || saved == syncToken
        invariant registry.done == HandleAll(cfg, old(registry.done), todo[..i])
      {
        assert todo[i] in todo;
        HandleAllServes(cfg, old(registry.done), todo[..i]);
        HandleAllNext(cfg, old(registry.done), todo, i);
        assert todo[..i + 1] == todo[..i] + [todo[i]];
        ProcessOne(todo[i], todo, todo[..i]);
      }
      assert todo[..|todo|] == todo;
    }

    /** Recovery processes in sequence order. */
    method ProcessAll(pending: seq<Event>)
      requires Valid() && ledger.processed == {} && DistinctIds(pending) && Clean(cfg, pending)
      modifies registry, this`saved, ledger`processed
      ensures Valid() && ledger.processed == Ids(pending)
      ensures saved == old(saved) || saved == syncToken
      ensures Served(cfg, registry.done, pending)
      ensures registry.done == HandleAll(cfg, old(registry.done), Sorting.Sort(pending, SequenceOf(cfg)))
    {
      var todo := Sorting.Sort(pending, SequenceOf(cfg));
      SortedAlike(cfg, pending, todo);
      ProcessList(todo);
      HandleAllServes(cfg, old(registry.done), todo);
      ServedMembers(cfg, registry.done, todo, pending);
    }

    /** What recovery of these events must leave behind. */
    ghost predicate Completed(direct: seq<Event>, events: seq<Event>, nextBatch: nat)
      reads this, ledger, registry
    {
      var wanted := Ids(Requests(cfg, events));
      && ledger.processed == ledger.Recovered() == wanted
      && ledger.SeenFirst(Sync) == Ids(Requests(cfg, direct))
      && ledger.SeenFirst(History) == wanted - Ids(Requests(cfg, direct))
      && Repeats(ledger.observations) == 0
      && syncToken == saved == Some(nextBatch)
      && Served(cfg, registry.done, Requests(cfg, events))
    }

    method Complete(direct: seq<Event>, events: seq<Event>, nextBatch: nat) returns (raised: bool)
      requires Valid() && ledger.observations == map[] && ledger.processed == {} && DistinctIds(events)
      requires Ids(Requests(cfg, direct)) <= Ids(Requests(cfg, events))
      modifies registry, this`saved, this`syncToken, ledger`observations, ledger`processed
      ensures Valid() && (raised <==> !Clean(cfg, events))
      ensures raised ==> unchanged(this) && unchanged(registry) && ledger.processed == {}
      ensures !raised ==> Completed(direct, events, nextBatch)
      ensures !raised ==> registry.done == HandleAll(cfg, old(registry.done), InSequence(cfg, events))
    {
      var pending;
      raised, pending := ObserveAll(direct, events);
      if raised {
        return;
      }
      KeepDistinct(events, e => RequestKey(cfg, e).Some?);
      KeepMembers(events, e => RequestKey(cfg, e).Some?);
      ProcessAll(pending);
      syncToken := Some(nextBatch);
      SaveCheckpoint();
    }

    /** recover: closes the gap since the checkpoint before anything else. When it
        returns, the processed, recovered and requested event sets coincide, the
        two sources partition them, the pages of history it took are counted, and
        only then has the position moved; it raises exactly when pagination does not
        reach the checkpoint or reading a foreign text of the window raises, and then
        nothing was processed and the position stands. */
    method Recover(item: Option<Slice>, nextBatch: nat, fetch: Fetch,
                   ghost log: seq<Event>, ghost start: nat)
      returns (ok: bool)
      requires Valid() && (checkpointToken.Some? ==> syncToken == checkpointToken)
      requires ledger.observations == map[] && ledger.processed == {}
      requires !ledger.paginationInvoked && ledger.historyPagesFetched == 0
      requires checkpointToken.Some? ==>
                 HonestAnswer(log, checkpointToken.value, start, nextBatch, item, fetch, cfg.pageLimit)
      modifies registry, this`saved, this`syncToken, ledger
      ensures Valid() && checkpointToken == old(checkpointToken)
      ensures checkpointToken.None? ==> ok && unchanged(this) && unchanged(ledger) && unchanged(registry)
      ensures !ok ==> unchanged(this) && unchanged(registry) && ledger.processed == {}
      ensures checkpointToken.Some? ==>
                var closes := item.Some? ==> GapCloses(item.value, checkpointToken, fetch, cfg.maxPages);
                && (ok <==> closes && Clean(cfg, Window(log, checkpointToken.value, start, nextBatch)))
                && (!closes ==> unchanged(ledger))
      ensures checkpointToken.Some? && ok ==>
                Completed(if item.Some? then item.value.events else [],
                          Window(log, checkpointToken.value, start, nextBatch), nextBatch)
      ensures checkpointToken.Some? && ok ==>
                && ledger.historyPagesFetched ==
                   (if item.Some? then HistoryPages(item.value, checkpointToken, fetch, cfg.maxPages) else 0)
                && (ledger.paginationInvoked <==> item.Some? && item.value.limited)
      ensures checkpointToken.Some? && ok ==>
                registry.done == HandleAll(cfg, old(registry.done),
                                           InSequence(cfg, Window(log, checkpointToken.value, start, nextBatch)))
    {
      if checkpointToken.None? {
        return true;
      }
      var direct: seq<Event>, events: seq<Event> := [], [];
      DirectIsMerged(cfg, log, checkpointToken.value, start, nextBatch);
      if item.Some? {
        var raised, count := CountForeign(item.value.events);
        if raised {
          return false;
        }
        var r := ReconcileSlice(item.value, checkpointToken, fetch, cfg.maxPages, log, start, nextBatch, cfg.pageLimit);
        if r.Unresolved? {
          return false;
        }
        direct, events := item.value.events, r.events;
        if r.episode.pages > 0 {
          ledger.NotePagination(r.episode.pages);
        }
      }
      var failed := Complete(direct, events, nextBatch);
      return !failed;
    }
  }

  /** With full pages startup recovery raises exactly when more than
      `pageLimit * maxPages` events separate the truncated slice from the checkpoint. */
  lemma RecoveryBound(item: Slice, since: nat, start: nat, upTo: nat, fetch: Fetch, log: seq<Event>, limit: nat,
                      maxPages: nat)
    requires HonestAnswer(log, since, start, upTo, Some(item), fetch, limit) && limit >= 1 && maxPages >= 1
    requires FullPages(fetch, since, start, limit)
    ensures GapCloses(item, Some(since), fetch, maxPages) <==> start - since <= limit * maxPages
  {
    if item.limited {
      PageLoopFromStart(fetch, log, Some(since), start, limit, maxPages);
    } else {
      assert limit * maxPages >= 0;
    }
  }

  /** The homeserver's part: distinct event ids, an honest slice and honest pages;
      the room is missing from the answer only when nothing happened in it. */
  ghost predicate HonestAnswer(log: seq<Event>, since: nat, start: nat, upTo: nat, item: Option<Slice>, fetch: Fetch,
                               limit: nat)
  {
    && since <= start <= upTo <= |log| && DistinctIds(log)
    && HonestServer(fetch, log, since, start, limit)
    && match item
       case Some(slice) => HonestSlice(log, since, start, upTo, slice)
       case None => since == upTo
  }

  lemma RequestsNext(cfg: Config, events: seq<Event>, i: nat)
    requires i < |events| && DistinctIds(events)
    ensures var e := events[i];
            && Requests(cfg, events[..i + 1]) ==
               Requests(cfg, events[..i]) + (if RequestKey(cfg, e).Some? then [e] else [])
            && e.id !in Ids(Requests(cfg, events[..i]))
  {
    assert events[..i + 1] == events[..i] + [events[i]];
    KeepNext(events[..i], events[i], e => RequestKey(cfg, e).Some?);
    KeepMembers(events[..i], e => RequestKey(cfg, e).Some?);
  }

  lemma RequestsWithin(cfg: Config, events: seq<Event>, i: nat)
    requires i <= |events|
    ensures Ids(Requests(cfg, events[..i])) <= Ids(Requests(cfg, events))
  {
    KeepMembers(events[..i], e => RequestKey(cfg, e).Some?);
    KeepMembers(events, e => RequestKey(cfg, e).Some?);
    forall e | e in Requests(cfg, events[..i]) ensures e in Requests(cfg, events) {}
  }

  /** Every directly delivered request is in the window, under its own id, and so is
      every directly delivered text that raises. */
  lemma DirectIsMerged(cfg: Config, log: seq<Event>, since: nat, start: nat, upTo: nat)
    requires since <= start <= upTo <= |log| && DistinctIds(log)
    ensures DistinctIds(Window(log, since, start, upTo))
    ensures Ids(Requests(cfg, Keep(log[start..upTo], SyncVisible))) <=
            Ids(Requests(cfg, Window(log, since, start, upTo)))
    ensures Clean(cfg, Window(log, since, start, upTo)) ==> Clean(cfg, Keep(log[start..upTo], SyncVisible))
    ensures since == upTo ==> Window(log, since, start, upTo) == [] && Keep(log[start..upTo], SyncVisible) == []
  {
    WindowMembers(log, since, start, upTo);
    var direct, window := Keep(log[start..upTo], SyncVisible), Window(log, since, start, upTo);
    KeepMembers(log[start..upTo], SyncVisible);
    KeepMembers(direct, e => RequestKey(cfg, e).Some?);
    KeepMembers(window, e => RequestKey(cfg, e).Some?);
    assert forall e | e in Requests(cfg, direct) :: e in Requests(cfg, window);
  }

  /** For ordinary messages the recovered set is the requests between checkpoint
      and new position, neither more nor fewer. */
  lemma RecoveredMessages(cfg: Config, log: seq<Event>, since: nat, start: nat, upTo: nat)
    requires since <= start <= upTo <= |log| && DistinctIds(log)
    ensures forall e | IsRequest(cfg, e) ::
              e in Requests(cfg, Window(log, since, start, upTo)) <==> e in log[since..upTo]
  {
    WindowHoldsMessages(log, since, start, upTo);
    KeepMembers(Window(log, since, start, upTo), e => RequestKey(cfg, e).Some?);
  }
}
