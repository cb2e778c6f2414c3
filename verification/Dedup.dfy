/** Exactly-once logical processing (src/fam/common/dedup.py). */
module Dedup {
  import opened Message
  import opened Transport

  datatype Decision = Process | SkipDuplicate

  /** The two identities of everything processed so far. */
  datatype Registry = Registry(events: set<EventId>, logical: set<Key>) {
    function Decide(id: EventId, key: Key): Decision {
      if id in events || key in logical then SkipDuplicate else Process
    }

    function Commit(id: EventId, key: Key): Registry { Registry(events + {id}, logical + {key}) }
  }

  const EMPTY := Registry({}, {})

  /** The registry after offering a list of deliveries, and what was processed. */
  function Offer(r: Registry, deliveries: seq<(EventId, Key)>): (Registry, seq<(EventId, Key)>) {
    if deliveries == [] then (r, [])
    else
      var (before, done) := Offer(r, deliveries[..|deliveries| - 1]);
      var (id, key) := deliveries[|deliveries| - 1];
      if before.Decide(id, key).Process? then (before.Commit(id, key), done + [(id, key)]) else (before, done)
  }

  ghost predicate AllDistinct(done: seq<(EventId, Key)>) {
    forall i, j | 0 <= i < j < |done| :: done[i].0 != done[j].0 && done[i].1 != done[j].1
  }

  ghost predicate Tracks(r: Registry, done: seq<(EventId, Key)>) {
    && AllDistinct(done)
    && (forall i | 0 <= i < |done| :: done[i].0 in r.events && done[i].1 in r.logical)
    && |r.events| == |done| && |r.logical| == |done|
  }

  lemma TrackCommit(r: Registry, done: seq<(EventId, Key)>, id: EventId, key: Key)
    requires Tracks(r, done) && r.Decide(id, key).Process?
    ensures Tracks(r.Commit(id, key), done + [(id, key)])
  {}

  /** For every delivery sequence: each event id and each key is processed at most
      once, both sets have one entry per processing, and nothing offered is left
      without a processing of its key or its event. */
  lemma {:induction false} AtMostOnce(deliveries: seq<(EventId, Key)>)
    ensures var (r, done) := Offer(EMPTY, deliveries);
            && Tracks(r, done)
            && (forall i | 0 <= i < |deliveries| :: deliveries[i].0 in r.events || deliveries[i].1 in r.logical)
  {
    if deliveries != [] {
      var front := deliveries[..|deliveries| - 1];
      AtMostOnce(front);
      var (id, key) := deliveries[|deliveries| - 1];
      var (before, done) := Offer(EMPTY, front);
      if before.Decide(id, key).Process? { TrackCommit(before, done, id, key); }
      forall i | 0 <= i < |deliveries| - 1
        ensures deliveries[i].0 in before.events || deliveries[i].1 in before.logical
      {
        assert deliveries[i] == front[i];
      }
    }
  }

  /** The registry that a history of commits leaves. */
  function RegistryOf(done: seq<(EventId, Key)>): Registry {
    Registry(set d | d in done :: d.0, set d | d in done :: d.1)
  }

  lemma CommitAppends(done: seq<(EventId, Key)>, id: EventId, key: Key)
    ensures RegistryOf(done + [(id, key)]) == RegistryOf(done).Commit(id, key)
  {
    var more := done + [(id, key)];
    assert forall d :: d in more <==> d in done || d == (id, key);
    assert RegistryOf(more).events == RegistryOf(done).events + {id};
    assert RegistryOf(more).logical == RegistryOf(done).logical + {key};
  }

  /** A registry in step with its processings is the one they leave, and no
      repetition among them is all it takes. */
  lemma {:induction false} TracksIff(r: Registry, done: seq<(EventId, Key)>)
    ensures Tracks(r, done) <==> AllDistinct(done) && r == RegistryOf(done)
  {
    if AllDistinct(done) { DistinctTracks(done); }
    if Tracks(r, done) {
      SubsetOfSize(RegistryOf(done).events, r.events);
      SubsetOfSize(RegistryOf(done).logical, r.logical);
    }
  }

  lemma DistinctTracks(done: seq<(EventId, Key)>)
    requires AllDistinct(done)
    ensures Tracks(RegistryOf(done), done)
  {
    DistinctSizes(done);
    forall i | 0 <= i < |done| ensures done[i].0 in RegistryOf(done).events && done[i].1 in RegistryOf(done).logical {
      assert done[i] in done;
    }
  }

  lemma {:induction false} DistinctSizes(done: seq<(EventId, Key)>)
    requires AllDistinct(done)
    ensures |RegistryOf(done).events| == |RegistryOf(done).logical| == |done|
  {
    if done != [] {
      var front, last := done[..|done| - 1], done[|done| - 1];
      assert forall i | 0 <= i < |front| :: front[i] == done[i];
      DistinctSizes(front);
      CommitAppends(front, last.0, last.1);
      assert front + [(last.0, last.1)] == done;
      NotYet(done);
    }
  }

  lemma NotYet(done: seq<(EventId, Key)>)
    requires AllDistinct(done) && done != []
    ensures var front, last := done[..|done| - 1], done[|done| - 1];
            last.0 !in RegistryOf(front).events && last.1 !in RegistryOf(front).logical
  {
    var front, last := done[..|done| - 1], done[|done| - 1];
    forall d | d in front ensures d.0 != last.0 && d.1 != last.1 {
      var i :| 0 <= i < |front| && front[i] == d;
    }
  }

  lemma SubsetOfSize<T>(a: set<T>, b: set<T>)
    requires a <= b && |a| >= |b|
    ensures a == b
  {
    assert |b - a| == |b| - |a|;
  }

  /** Some commit had this event id or this key. */
  ghost predicate SeenBefore(done: seq<(EventId, Key)>, id: EventId, key: Key) {
    exists i :: 0 <= i < |done| && (done[i].0 == id || done[i].1 == key)
  }

  /** Two sets mutated by commit and read by decide, standing for the history of
      the commits so far. */
  class ProcessedRegistry {
    var logical: set<Key>
    var events: set<EventId>
    ghost var done: seq<(EventId, Key)>

    function View(): Registry
      reads this
    {
      Registry(events, logical)
    }

    ghost predicate Valid()
      reads this
    {
      View() == RegistryOf(done)
    }

    constructor ()
      ensures Valid() && done == []
    {
      logical, events, done := {}, {}, [];
    }

    /** A delivery is skipped exactly when an earlier commit had its event or its key. */
    method Decide(id: EventId, key: Key) returns (d: Decision)
      requires Valid()
      ensures d.SkipDuplicate? <==> SeenBefore(done, id, key)
    {
      if id in events || key in logical {
        if id in events {
          assert id in RegistryOf(done).events;
        } else {
          assert key in RegistryOf(done).logical;
        }
        return SkipDuplicate;
      }
      assert forall i | 0 <= i < |done| :: done[i] in done && done[i].0 in events && done[i].1 in logical;
      return Process;
    }

    /** The two sets go on standing for the history, one commit longer. */
    method Commit(id: EventId, key: Key)
      requires Valid()
      modifies this
      ensures Valid() && done == old(done) + [(id, key)]
    {
      CommitAppends(done, id, key);
      events := events + {id};
      logical := logical + {key};
      done := done + [(id, key)];
    }
  }
}
