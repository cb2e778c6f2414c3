/** Gap-aware reading of a room: history pagination and slice reconciliation
    (src/fam/matrix/client.py). A token is a position in the room log; the
    homeserver is an arbitrary oracle bound only by `HonestPage`. */
module Transport {
  import opened Options

  type EventId = string

  datatype Event = Event(id: EventId, sender: string, isMessage: bool, body: Option<string>)

  /** What a /sync timeline keeps: any event with a text body. */
  predicate SyncVisible(e: Event) { e.body.Some? }

  /** What a history page keeps: m.room.message events with a text body. */
  predicate HistoryVisible(e: Event) { e.isMessage && e.body.Some? }

  // ------------------------------------------------------------- sequences

  function Reverse(s: seq<Event>): (r: seq<Event>)
    ensures |r| == |s|
    ensures forall i | 0 <= i < |r| :: r[i] == s[|s| - 1 - i]
  {
    seq(|s|, i requires 0 <= i < |s| => s[|s| - 1 - i])
  }

  function Keep(s: seq<Event>, p: Event -> bool): (r: seq<Event>)
    ensures |r| <= |s|
  {
    if s == [] then []
    else Keep(s[..|s| - 1], p) + (if p(s[|s| - 1]) then [s[|s| - 1]] else [])
  }

  function Ids(s: seq<Event>): set<EventId> { set e | e in s :: e.id }

  predicate DistinctIds(s: seq<Event>) { forall i, j | 0 <= i < j < |s| :: s[i].id != s[j].id }

  /** Insertion into a dict keyed by event id: the first event of an id stays. */
  function MergeById(s: seq<Event>): seq<Event> {
    if s == [] then []
    else
      var front := MergeById(s[..|s| - 1]);
      if s[|s| - 1].id in Ids(front) then front else front + [s[|s| - 1]]
  }

  lemma {:induction false} KeepMembers(s: seq<Event>, p: Event -> bool)
    ensures forall e :: e in Keep(s, p) <==> e in s && p(e)
  {
    if s != [] {
      KeepMembers(s[..|s| - 1], p);
      assert s == s[..|s| - 1] + [s[|s| - 1]];
    }
  }

  lemma ReverseMembers(s: seq<Event>)
    ensures forall e :: e in Reverse(s) <==> e in s
  {
    forall i | 0 <= i < |s| ensures s[i] in Reverse(s) {
      assert Reverse(s)[|s| - 1 - i] == s[i];
    }
  }

  lemma IdsAppend(s: seq<Event>, e: Event)
    ensures Ids(s + [e]) == Ids(s) + {e.id}
  {
    assert forall x :: x in s + [e] <==> x in s || x == e;
  }

  lemma DistinctAppend(s: seq<Event>, e: Event)
    requires DistinctIds(s) && e.id !in Ids(s)
    ensures DistinctIds(s + [e])
  {
    forall i | 0 <= i < |s| ensures s[i].id != e.id {
      assert s[i].id in Ids(s);
    }
  }

  lemma {:induction false} MergeFacts(s: seq<Event>)
    ensures DistinctIds(MergeById(s)) && Ids(MergeById(s)) == Ids(s)
    ensures |MergeById(s)| == |Ids(s)| <= |s|
    ensures forall e | e in MergeById(s) :: e in s
  {
    if s != [] {
      var front, last := s[..|s| - 1], s[|s| - 1];
      MergeFacts(front);
      assert s == front + [last];
      IdsAppend(front, last);
      var merged := MergeById(front);
      if last.id !in Ids(merged) {
        IdsAppend(merged, last);
        DistinctAppend(merged, last);
      } else {
        assert Ids(s) == Ids(front);
      }
    }
  }

  lemma {:induction false} KeepDistinct(s: seq<Event>, p: Event -> bool)
    requires DistinctIds(s)
    ensures DistinctIds(Keep(s, p))
  {
    if s != [] {
      var front, last := s[..|s| - 1], s[|s| - 1];
      KeepDistinct(front, p);
      KeepMembers(front, p);
      if p(last) { DistinctAppend(Keep(front, p), last); }
    }
  }

  lemma {:induction false} MergeDistinct(s: seq<Event>)
    requires DistinctIds(s)
    ensures MergeById(s) == s
  {
    if s != [] {
      var front := s[..|s| - 1];
      MergeDistinct(front);
      assert s == front + [s[|s| - 1]];
    }
  }

  /** With distinct ids, an event is merged exactly when it was observed. */
  lemma MergeMembers(s: seq<Event>)
    requires forall d, e | d in s && e in s && d.id == e.id :: d == e
    ensures forall e :: e in MergeById(s) <==> e in s
  {
    MergeFacts(s);
    forall e | e in s ensures e in MergeById(s) {
      assert e.id in Ids(MergeById(s));
    }
  }

  // ----------------------------------------------------- history pagination

  datatype PageReply = PageFailed | Page(chunk: seq<Event>, end: Option<nat>)

  /** One /messages reply going backwards from `from` to the boundary `lo`: newest
      first, at most `limit` events; an empty chunk or a missing `end` only when
      nothing is left before the boundary. Pages may be short. */
  predicate HonestPage(log: seq<Event>, from: nat, lo: nat, limit: nat, reply: PageReply)
    requires lo <= from <= |log|
  {
    reply.Page? ==>
      var n := |reply.chunk|;
      && n <= from - lo && n <= limit
      && reply.chunk == Reverse(log[from - n..from])
      && (n == 0 || reply.end.None? ==> from - n == lo)
      && (reply.end.Some? ==> reply.end.value == from - n)
  }

  /** The homeserver: the reply to the n-th request from a token. */
  type Fetch = (nat, nat) -> PageReply

  ghost predicate HonestServer(fetch: Fetch, log: seq<Event>, lo: nat, start: nat, limit: nat)
    requires lo <= start <= |log|
  {
    forall n: nat, from: nat | lo <= from <= start :: HonestPage(log, from, lo, limit, fetch(n, from))
  }

  ghost predicate FullPages(fetch: Fetch, lo: nat, start: nat, limit: nat) {
    forall n: nat, from: nat | lo <= from <= start ::
      && fetch(n, from).Page?
      && |fetch(n, from).chunk| == if from - lo < limit then from - lo else limit
  }

  datatype PageRun = Collected(events: seq<Event>, pages: nat) | RequestFailed | BoundExceeded

  /** Without a boundary token pagination walks to the start of the room. */
  function Boundary(to: Option<nat>): nat { if to.Some? then to.value else 0 }

  /** What paginate_backwards does from its request number `pages` on. */
  function PageLoop(fetch: Fetch, to: Option<nat>, token: nat, pages: nat, maxPages: nat, events: seq<Event>): PageRun
    decreases maxPages - pages
  {
    if pages >= maxPages then BoundExceeded
    else
      var reply := fetch(pages, token);
      if reply.PageFailed? then RequestFailed
      else if LastPage(reply, to) then Collected(events + reply.chunk, pages + 1)
      else PageLoop(fetch, to, reply.end.value, pages + 1, maxPages, events + reply.chunk)
  }

  /** The boundary test: nothing more to come, or the boundary token. */
  predicate LastPage(reply: PageReply, to: Option<nat>)
    requires reply.Page?
  {
    reply.chunk == [] || reply.end.None? || (to.Some? && reply.end.value == to.value)
  }

  /** Honest pages can only ever add up to the whole gap, and a failed request is
      the only other way to end within the bound. */
  lemma {:induction false} PageLoopWhole(fetch: Fetch, log: seq<Event>, to: Option<nat>, start: nat, limit: nat,
                                         token: nat,
                                         pages: nat, maxPages: nat, events: seq<Event>)
    requires Boundary(to) <= token <= start <= |log| && pages <= maxPages
    requires HonestServer(fetch, log, Boundary(to), start, limit) && events == Reverse(log[token..start])
    ensures var r := PageLoop(fetch, to, token, pages, maxPages, events);
            && (r.Collected? ==> r.events == Reverse(log[Boundary(to)..start]) && pages < r.pages <= maxPages)
            && (r.RequestFailed? ==> exists n: nat, from: nat :: n < maxPages && fetch(n, from).PageFailed?)
    decreases maxPages - pages
  {
    if pages < maxPages {
      PageStep(fetch, log, Boundary(to), start, limit, pages, token, events);
      var reply := fetch(pages, token);
      if reply.Page? && !LastPage(reply, to) {
        PageLoopWhole(fetch, log, to, start, limit, reply.end.value, pages + 1, maxPages, events + reply.chunk);
      }
    }
  }

  /** `limit * n`, added up page by page. */
  function Reach(limit: nat, n: nat): nat { if n == 0 then 0 else Reach(limit, n - 1) + limit }

  lemma {:induction false} ReachIsProduct(limit: nat, n: nat)
    ensures Reach(limit, n) == limit * n
  {
    if n > 0 {
      ReachIsProduct(limit, n - 1);
      assert limit * n == limit * (n - 1) + limit;
    }
  }

  lemma FullPage(fetch: Fetch, log: seq<Event>, lo: nat, start: nat, limit: nat, n: nat, token: nat)
    requires lo <= token <= start <= |log| && HonestServer(fetch, log, lo, start, limit) &&
             FullPages(fetch, lo, start, limit)
    ensures var reply := fetch(n, token);
            && reply.Page?
            && |reply.chunk| == (if token - lo < limit then token - lo else limit)
            && (reply.chunk == [] || reply.end.None? ==> token - |reply.chunk| == lo)
            && (reply.end.Some? ==> reply.end.value == token - |reply.chunk|)
  {
    assert HonestPage(log, token, lo, limit, fetch(n, token));
  }

  /** With full pages the outcome is decided by the gap alone when there is a
      boundary token: it raises exactly for gaps beyond `limit` events for each
      request left. Without a token only the last of those pages is open, and there
      it is decided by whether the server's reply still names an `end`. */
  lemma {:induction false} PageLoopBound(fetch: Fetch, log: seq<Event>, to: Option<nat>, start: nat, limit: nat,
                                         token: nat,
                                         pages: nat, maxPages: nat, events: seq<Event>)
    requires Boundary(to) <= token <= start <= |log| && pages < maxPages && limit >= 1
    requires HonestServer(fetch, log, Boundary(to), start, limit) && FullPages(fetch, Boundary(to), start, limit)
    ensures DecidedByGap(fetch, to, token, limit, pages, maxPages, PageLoop(fetch, to, token, pages, maxPages, events))
    decreases maxPages - pages
  {
    FullPage(fetch, log, Boundary(to), start, limit, pages, token);
    var reply := fetch(pages, token);
    if pages + 1 < maxPages && !LastPage(reply, to) {
      PageLoopBound(fetch, log, to, start, limit, reply.end.value, pages + 1, maxPages, events + reply.chunk);
    }
    BoundStep(fetch, to, token, limit, pages, maxPages, events);
  }

  predicate DecidedByGap(fetch: Fetch, to: Option<nat>, token: nat, limit: nat, pages: nat, maxPages: nat, r: PageRun)
    requires Boundary(to) <= token && pages < maxPages
  {
    var gap, reach, before := token - Boundary(to), Reach(limit, maxPages - pages), Reach(limit, maxPages - pages - 1);
    && !r.RequestFailed?
    && (to.Some? ==> (r.Collected? <==> gap <= reach))
    && (to.None? && gap <= before ==> r.Collected?)
    && (to.None? && gap > reach ==> r.BoundExceeded?)
    && (to.None? && before < gap <= reach ==> (r.Collected? <==> FinalReplyEnds(fetch, token, before, maxPages - 1)))
    && (to.Some? && r.Collected? ==> PagesFor(limit, gap, r.pages - pages))
  }

  /** So many full pages it takes, and no fewer; one for an empty gap. */
  predicate PagesFor(limit: nat, gap: nat, n: int) {
    n >= 1 && gap <= Reach(limit, n) && (n == 1 || Reach(limit, n - 1) < gap)
  }

  lemma OnePageMore(limit: nat, gap: int, n: int)
    requires gap - limit > 0 && PagesFor(limit, gap - limit, n)
    ensures PagesFor(limit, gap, n + 1)
  {
    assert Reach(limit, n + 1) == Reach(limit, n) + limit;
    assert n > 1 ==> Reach(limit, n) == Reach(limit, n - 1) + limit;
    assert Reach(limit, 1) == Reach(limit, 0) + limit;
  }

  /** One page of the argument. */
  lemma BoundStep(fetch: Fetch, to: Option<nat>, token: nat, limit: nat, pages: nat, maxPages: nat, events: seq<Event>)
    requires Boundary(to) <= token && pages < maxPages && limit >= 1 && fetch(pages, token).Page?
    requires var reply, gap := fetch(pages, token), token - Boundary(to);
             && |reply.chunk| == (if gap < limit then gap else limit)
             && (reply.chunk == [] || reply.end.None? ==> |reply.chunk| == gap)
             && (reply.end.Some? ==> reply.end.value == token - |reply.chunk|)
             && (pages + 1 < maxPages && !LastPage(reply, to) ==>
                   DecidedByGap(fetch, to, reply.end.value, limit, pages + 1, maxPages,
                                PageLoop(fetch, to, reply.end.value, pages + 1, maxPages, events + reply.chunk)))
    ensures DecidedByGap(fetch, to, token, limit, pages, maxPages, PageLoop(fetch, to, token, pages, maxPages, events))
  {
    var reply, left := fetch(pages, token), maxPages - pages;
    assert Reach(limit, left) == Reach(limit, left - 1) + limit;
    assert Reach(limit, 1) == Reach(limit, 0) + limit == limit;
    var r := PageLoop(fetch, to, token, pages, maxPages, events);
    if to.Some? && r.Collected? && !LastPage(reply, to) {
      OnePageMore(limit, token - Boundary(to), r.pages - pages - 1);
    }
    if left == 1 {
      assert token - 0 == token;
    } else {
      assert Reach(limit, left - 1) == Reach(limit, left - 2) + limit;
    }
  }

  /** The reply to request n, reached after `before` events of full pages. */
  predicate FinalReplyEnds(fetch: Fetch, token: nat, before: int, n: nat) {
    0 <= before <= token && fetch(n, token - before).Page? && fetch(n, token - before).end.None?
  }

  /** paginate_backwards: returns the whole gap or raises, never part of it. With
      full pages and a boundary token it raises exactly for gaps larger than
      `limit * maxPages`; `PageLoopBound` has the case without one. */
  method PaginateBackwards(fetch: Fetch, start: nat, to: Option<nat>, maxPages: nat,
                           ghost log: seq<Event>, ghost limit: nat)
    returns (r: PageRun)
    requires Boundary(to) <= start <= |log|
    requires HonestServer(fetch, log, Boundary(to), start, limit)
    ensures r == PageLoop(fetch, to, start, 0, maxPages, [])
    ensures r.Collected? ==> r.events == Reverse(log[Boundary(to)..start]) && 1 <= r.pages <= maxPages
    ensures r.RequestFailed? ==> exists n: nat, from: nat :: n < maxPages && fetch(n, from).PageFailed?
    ensures FullPages(fetch, Boundary(to), start, limit) && 1 <= limit && 1 <= maxPages ==>
              var gap, reach := start - Boundary(to), limit * maxPages;
              && (gap > reach ==> r.BoundExceeded?)
              && (to.Some? && gap <= reach ==> r.Collected? && PagesFor(limit, gap, r.pages))
              && (to.None? && gap <= reach - limit ==> r.Collected?)
              && (to.None? && reach - limit < gap <= reach ==>
                    (r.Collected? <==> FinalReplyEnds(fetch, start, reach - limit, maxPages - 1)))
  {
    PageLoopFromStart(fetch, log, to, start, limit, maxPages);
    var events: seq<Event>, token, pages := [], start, 0;
    while pages < maxPages
      invariant pages <= maxPages
      invariant PageLoop(fetch, to, start, 0, maxPages, []) == PageLoop(fetch, to, token, pages, maxPages, events)
      decreases maxPages - pages
    {
      var reply := fetch(pages, token);
      if reply.PageFailed? {
        return RequestFailed;
      }
      pages := pages + 1;
      events := events + reply.chunk;
      if reply.chunk == [] || reply.end.None? {
        return Collected(events, pages);
      }
      token := reply.end.value;
      if to.Some? && token == to.value {
        return Collected(events, pages);
      }
    }
    return BoundExceeded;
  }

  lemma PageLoopFromStart(fetch: Fetch, log: seq<Event>, to: Option<nat>, start: nat, limit: nat, maxPages: nat)
    requires Boundary(to) <= start <= |log| && HonestServer(fetch, log, Boundary(to), start, limit)
    ensures var r := PageLoop(fetch, to, start, 0, maxPages, []);
            && (r.Collected? ==> r.events == Reverse(log[Boundary(to)..start]) && 1 <= r.pages <= maxPages)
            && (r.RequestFailed? ==> exists n: nat, from: nat :: n < maxPages && fetch(n, from).PageFailed?)
            && (FullPages(fetch, Boundary(to), start, limit) && 1 <= limit && 1 <= maxPages ==>
                  var gap, reach := start - Boundary(to), limit * maxPages;
                  && !r.RequestFailed?
                  && (to.Some? ==> (r.Collected? <==> gap <= reach) && (r.Collected? ==> PagesFor(limit, gap, r.pages)))
                  && (to.None? && gap <= reach - limit ==> r.Collected?)
                  && (to.None? && gap > reach ==> r.BoundExceeded?)
                  && (to.None? && reach - limit < gap <= reach ==>
                        (r.Collected? <==> FinalReplyEnds(fetch, start, reach - limit, maxPages - 1))))
  {
    assert Reverse(log[start..start]) == [];
    PageLoopWhole(fetch, log, to, start, limit, start, 0, maxPages, []);
    if FullPages(fetch, Boundary(to), start, limit) && 1 <= limit && 1 <= maxPages {
      PageLoopBound(fetch, log, to, start, limit, start, 0, maxPages, []);
      ReachIsProduct(limit, maxPages);
      assert Reach(limit, maxPages - 1) == Reach(limit, maxPages) - limit;
    }
  }

  lemma PageStep(fetch: Fetch, log: seq<Event>, lo: nat, start: nat, limit: nat, n: nat, token: nat, events: seq<Event>)
    requires lo <= token <= start <= |log| && HonestServer(fetch, log, lo, start, limit)
    requires events == Reverse(log[token..start])
    ensures var reply := fetch(n, token);
            reply.Page? ==>
              && |reply.chunk| <= token - lo && |reply.chunk| <= limit
              && events + reply.chunk == Reverse(log[token - |reply.chunk|..start])
              && (reply.chunk == [] || reply.end.None? ==> token - |reply.chunk| == lo)
              && (reply.end.Some? ==> reply.end.value == token - |reply.chunk|)
  {
    var reply := fetch(n, token);
    assert HonestPage(log, token, lo, limit, reply);
    if reply.Page? {
      ReverseSplit(log, token - |reply.chunk|, token, start);
    }
  }

  lemma ReverseSplit(log: seq<Event>, a: nat, b: nat, c: nat)
    requires a <= b <= c <= |log|
    ensures Reverse(log[b..c]) + Reverse(log[a..b]) == Reverse(log[a..c])
  {
    var whole, parts := Reverse(log[a..c]), Reverse(log[b..c]) + Reverse(log[a..b]);
    forall i | 0 <= i < c - a ensures parts[i] == whole[i] {
      assert whole[i] == log[c - 1 - i];
      if i < c - b {
        assert parts[i] == log[b..c][c - b - 1 - i];
      } else {
        assert parts[i] == log[a..b][b - a - 1 - (i - (c - b))];
      }
    }
  }

  // ---------------------------------------------------------- reconciliation

  datatype Slice = Slice(events: seq<Event>, limited: bool, prevBatch: Option<nat>)

  /** One room's part of a /sync answer for the window (since, upTo]: the events
      after `start`, truncated only with the signal and the token. */
  predicate HonestSlice(log: seq<Event>, since: nat, start: nat, upTo: nat, item: Slice)
    requires since <= start <= upTo <= |log|
  {
    && item.events == Keep(log[start..upTo], SyncVisible)
    && (!item.limited ==> start == since)
    && (item.limited ==> item.prevBatch == Some(start))
  }

  datatype Episode = Episode(direct: nat, pages: nat, recoveredFromHistory: nat, duplicates: nat, unique: nat)

  datatype Reconciled = Reconciled(events: seq<Event>, episode: Episode) | Unresolved

  /** What reconciliation of an honest slice must produce. */
  function Window(log: seq<Event>, since: nat, start: nat, upTo: nat): seq<Event>
    requires since <= start <= upTo <= |log|
  {
    MergeById(Keep(log[start..upTo], SyncVisible) + Keep(Reverse(log[since..start]), HistoryVisible))
  }

  /** Whether pagination, where the slice asks for it, reaches the boundary. */
  predicate GapCloses(item: Slice, since: Option<nat>, fetch: Fetch, maxPages: nat) {
    item.limited && item.prevBatch.Some? ==>
      PageLoop(fetch, since, item.prevBatch.value, 0, maxPages, []).Collected?
  }

  /** The requests that pagination makes when it closes the gap. */
  function HistoryPages(item: Slice, since: Option<nat>, fetch: Fetch, maxPages: nat): nat {
    if !(item.limited && item.prevBatch.Some?) then 0
    else
      match PageLoop(fetch, since, item.prevBatch.value, 0, maxPages, [])
      case Collected(_, pages) => pages
      case _ => 0
  }

  /** reconcile_slice: the merged window with its exact accounting, or an
      exception; no partial window. */
  method ReconcileSlice(item: Slice, since: Option<nat>, fetch: Fetch, maxPages: nat,
                        ghost log: seq<Event>, ghost start: nat, ghost upTo: nat, ghost limit: nat)
    returns (r: Reconciled)
    requires Boundary(since) <= start <= upTo <= |log|
    requires HonestSlice(log, Boundary(since), start, upTo, item)
    requires HonestServer(fetch, log, Boundary(since), start, limit)
    ensures r.Reconciled? ==> r.events == Window(log, Boundary(since), start, upTo)
    ensures r.Reconciled? ==>
              var history := Keep(Reverse(log[Boundary(since)..start]), HistoryVisible);
              var episode := r.episode;
              && episode.unique == |r.events|
              && episode.direct == |item.events|
              && episode.direct + |history| == episode.unique + episode.duplicates
              && episode.recoveredFromHistory == episode.unique - |Ids(item.events)|
              && episode.pages == HistoryPages(item, since, fetch, maxPages)
              && episode.pages <= maxPages && (item.limited <==> episode.pages >= 1)
    ensures r.Reconciled? <==> GapCloses(item, since, fetch, maxPages)
  {
    ghost var history := Keep(Reverse(log[Boundary(since)..start]), HistoryVisible);
    var merged, duplicates := MergeDirect(item.events);
    MergeFacts(item.events);
    var pages, fromHistory := 0, 0;
    if item.limited && item.prevBatch.Some? {
      var run := PaginateBackwards(fetch, item.prevBatch.value, since, maxPages, log, limit);
      if !run.Collected? {
        return Unresolved;
      }
      pages := run.pages;
      var again;
      merged, fromHistory, again := MergeHistory(item.events, merged, run.events);
      duplicates := duplicates + again;
    } else {
      assert log[Boundary(since)..start] == [];
      assert item.events + history == item.events;
    }
    return Reconciled(merged, Episode(|item.events|, pages, fromHistory, duplicates, |merged|));
  }

  lemma MergeNext(s: seq<Event>, e: Event)
    ensures MergeById(s + [e]) == if e.id in Ids(MergeById(s)) then MergeById(s) else MergeById(s) + [e]
  {
    assert (s + [e])[..|s|] == s;
  }

  /** The first loop of reconcile_slice. */
  method MergeDirect(events: seq<Event>) returns (merged: seq<Event>, duplicates: nat)
    ensures merged == MergeById(events) && duplicates + |merged| == |events|
  {
    merged, duplicates := [], 0;
    for i := 0 to |events|
      invariant merged == MergeById(events[..i])
      invariant duplicates + |merged| == i
    {
      assert events[..i + 1] == events[..i] + [events[i]];
      MergeNext(events[..i], events[i]);
      if events[i].id in Ids(merged) {
        duplicates := duplicates + 1;
      } else {
        merged := merged + [events[i]];
      }
    }
    assert events[..|events|] == events;
  }

  lemma KeepNext(s: seq<Event>, e: Event, p: Event -> bool)
    ensures Keep(s + [e], p) == Keep(s, p) + if p(e) then [e] else []
  {
    assert (s + [e])[..|s|] == s;
  }

  lemma HistoryStep(direct: seq<Event>, raw: seq<Event>, i: nat)
    requires i < |raw|
    ensures var seen, next := Keep(raw[..i], HistoryVisible), Keep(raw[..i + 1], HistoryVisible);
            && |next| == |seen| + (if HistoryVisible(raw[i]) then 1 else 0)
            && MergeById(direct + next) ==
               (var merged := MergeById(direct + seen);
               if HistoryVisible(raw[i]) && raw[i].id !in Ids(merged) then merged + [raw[i]] else merged)
  {
    var seen := Keep(raw[..i], HistoryVisible);
    assert raw[..i + 1] == raw[..i] + [raw[i]];
    KeepNext(raw[..i], raw[i], HistoryVisible);
    assert direct + (seen + [raw[i]]) == direct + seen + [raw[i]];
    MergeNext(direct + seen, raw[i]);
    assert seen + [] == seen;
  }

  /** The second loop of reconcile_slice. */
  method MergeHistory(direct: seq<Event>, before: seq<Event>, raw: seq<Event>)
    returns (merged: seq<Event>, fromHistory: nat, duplicates: nat)
    requires before == MergeById(direct)
    ensures merged == MergeById(direct + Keep(raw, HistoryVisible))
    ensures |merged| == |before| + fromHistory
    ensures fromHistory + duplicates == |Keep(raw, HistoryVisible)|
  {
    merged, fromHistory, duplicates := before, 0, 0;
    assert direct + [] == direct;
    for i := 0 to |raw|
      invariant merged == MergeById(direct + Keep(raw[..i], HistoryVisible))
      invariant |merged| == |before| + fromHistory
      invariant fromHistory + duplicates == |Keep(raw[..i], HistoryVisible)|
    {
      HistoryStep(direct, raw, i);
      if HistoryVisible(raw[i]) {
        if raw[i].id in Ids(merged) {
          duplicates := duplicates + 1;
        } else {
          merged := merged + [raw[i]];
          fromHistory := fromHistory + 1;
        }
      }
    }
    assert raw[..|raw|] == raw;
  }

  // --------------------------------------------------------------- exactness

  lemma DistinctEvents(log: seq<Event>, d: Event, e: Event)
    requires DistinctIds(log) && d in log && e in log && d.id == e.id
    ensures d == e
  {}

  lemma SubrangeMembers(log: seq<Event>, lo: nat, mid: nat, hi: nat)
    requires lo <= mid <= hi <= |log|
    ensures forall e :: e in log[lo..hi] <==> e in log[lo..mid] || e in log[mid..hi]
    ensures forall e | e in log[lo..hi] :: e in log
  {
    assert log[lo..hi] == log[lo..mid] + log[mid..hi];
  }

  /** Filtering keeps the order. */
  lemma {:induction false} KeepConcat(a: seq<Event>, b: seq<Event>, p: Event -> bool)
    ensures Keep(a + b, p) == Keep(a, p) + Keep(b, p)
  {
    if b == [] {
      assert a + b == a;
    } else {
      KeepConcat(a, b[..|b| - 1], p);
      assert (a + b)[..|a + b| - 1] == a + b[..|b| - 1];
    }
  }

  /** Of the events with one id the merge has the one observed first. */
  lemma {:induction false} MergeKeepsFirst(s: seq<Event>, i: nat)
    requires i < |s| && forall j | 0 <= j < i :: s[j].id != s[i].id
    ensures s[i] in MergeById(s)
  {
    var front, last := s[..|s| - 1], s[|s| - 1];
    if i < |front| {
      MergeKeepsFirst(front, i);
    } else {
      MergeFacts(front);
      assert last.id !in Ids(front) by {
        forall e | e in front ensures e.id != last.id { var j :| 0 <= j < |front| && front[j] == e; }
      }
    }
  }

  /** The window's order: the slice as it came, then the gap newest first. */
  lemma WindowOrder(log: seq<Event>, since: nat, start: nat, upTo: nat)
    requires since <= start <= upTo <= |log| && DistinctIds(log)
    ensures Window(log, since, start, upTo) ==
            Keep(log[start..upTo], SyncVisible) + Keep(Reverse(log[since..start]), HistoryVisible)
  {
    var slice, gap := log[start..upTo], Reverse(log[since..start]);
    KeepDistinct(slice, SyncVisible);
    KeepDistinct(gap, HistoryVisible);
    KeepMembers(slice, SyncVisible);
    KeepMembers(gap, HistoryVisible);
    ReverseMembers(log[since..start]);
    var a, b := Keep(slice, SyncVisible), Keep(gap, HistoryVisible);
    forall i, j | 0 <= i < |a| && 0 <= j < |b| ensures a[i].id != b[j].id {
      assert a[i] in slice && b[j] in log[since..start];
      RangesApart(log, since, start, upTo, b[j], a[i]);
    }
    assert DistinctIds(a + b);
    MergeDistinct(a + b);
  }

  lemma RangesApart(log: seq<Event>, since: nat, start: nat, upTo: nat, d: Event, e: Event)
    requires since <= start <= upTo <= |log| && DistinctIds(log) && d in log[since..start] && e in log[start..upTo]
    ensures d.id != e.id
  {
    var i :| since <= i < start && log[i] == d;
    var j :| start <= j < upTo && log[j] == e;
  }

  /** Which events a reconciled window holds: the text events of the slice and
      the text messages of the gap, each once. */
  lemma WindowMembers(log: seq<Event>, since: nat, start: nat, upTo: nat)
    requires since <= start <= upTo <= |log| && DistinctIds(log)
    ensures DistinctIds(Window(log, since, start, upTo))
    ensures forall e :: e in Window(log, since, start, upTo) <==>
              || (e in log[start..upTo] && SyncVisible(e))
              || (e in log[since..start] && HistoryVisible(e))
  {
    var direct, gap := Keep(log[start..upTo], SyncVisible), Keep(Reverse(log[since..start]), HistoryVisible);
    KeepMembers(log[start..upTo], SyncVisible);
    KeepMembers(Reverse(log[since..start]), HistoryVisible);
    ReverseMembers(log[since..start]);
    SubrangeMembers(log, since, start, upTo);
    var all := direct + gap;
    forall d: Event, e: Event | d in all && e in all && d.id == e.id ensures d == e {
      DistinctEvents(log, d, e);
    }
    MergeMembers(all);
    MergeFacts(all);
  }

  /** No message is lost and none is invented, however the slice was truncated. */
  lemma WindowHoldsMessages(log: seq<Event>, since: nat, start: nat, upTo: nat)
    requires since <= start <= upTo <= |log| && DistinctIds(log)
    ensures forall e | HistoryVisible(e) :: e in Window(log, since, start, upTo) <==> e in log[since..upTo]
  {
    WindowMembers(log, since, start, upTo);
    SubrangeMembers(log, since, start, upTo);
  }

  /** The reconciled window equals what an untruncated /sync would have shown
      exactly when no text event of another type fell into the gap: the two
      paths filter differently. */
  lemma WindowExactIff(log: seq<Event>, since: nat, start: nat, upTo: nat)
    requires since <= start <= upTo <= |log| && DistinctIds(log)
    ensures (forall e :: e in Window(log, since, start, upTo) <==> e in Window(log, since, since, upTo))
            <==> (forall e: Event | e in log[since..start] :: e.body.Some? ==> e.isMessage)
  {
    WindowMembers(log, since, start, upTo);
    WindowMembers(log, since, since, upTo);
    SubrangeMembers(log, since, start, upTo);
    assert log[since..since] == [];
    if e: Event :| e in log[since..start] && e.body.Some? && !e.isMessage {
      assert e in Window(log, since, since, upTo);
      assert e !in log[start..upTo] by { DisjointRanges(log, since, start, upTo, e); }
      assert e !in Window(log, since, start, upTo);
    }
  }

  lemma DisjointRanges(log: seq<Event>, since: nat, start: nat, upTo: nat, e: Event)
    requires since <= start <= upTo <= |log| && DistinctIds(log) && e in log[since..start]
    ensures e !in log[start..upTo]
  {
    var i :| since <= i < start && log[i] == e;
    forall j | start <= j < upTo ensures log[j] != e {
      assert log[i].id != log[j].id;
    }
  }
}
