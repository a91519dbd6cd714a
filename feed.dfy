/**
 * `getFeed` (`feed/feed.service.ts`): the non-expired events, each with its
 * like and attendee counts, liveness and ranking score, ordered by score
 * descending and cut to a `LIMIT`/`OFFSET` window, plus the separate count
 * of all non-expired events.
 */
module Feed {
  import opened Wrappers
  import opened Schema
  import opened Ranking
  import opened Ordering

  datatype FeedQuery = FeedQuery(page: int, limit: int)

  /** A `FeedEvent`: the event's columns plus the four computed ones. */
  datatype FeedRow = FeedRow(event: Event, likeCount: nat, attendeeCount: nat, isLive: bool, score: real)

  datatype FeedResponse = FeedResponse(events: seq<FeedRow>, total: nat, page: int, limit: int)

  /** `(page - 1) * limit`. */
  function Offset(q: FeedQuery): int {
    (q.page - 1) * q.limit
  }

  /** `WHERE end_time > NOW()`, in table order. */
  function Unexpired(events: seq<Event>, now: Instant): (r: seq<Event>)
    ensures |r| <= |events|
    ensures forall i :: 0 <= i < |r| ==> r[i] in events && r[i].end > now
    ensures forall e | e in events && e.end > now :: e in r
    ensures forall e: Event | e.end > now :: multiset(r)[e] == multiset(events)[e]
  {
    if events == [] then []
    else
      assert events == [events[0]] + events[1..];
      if events[0].end > now then [events[0]] + Unexpired(events[1..], now)
      else Unexpired(events[1..], now)
  }

  /** What a returned row promises about the tables at `now`. */
  ghost predicate IsFeedRow(t: Tables, decay: real -> real, now: Instant, row: FeedRow) {
    && row.event in t.events
    && row.event.end > now
    && row.likeCount == LikeCount(t.likes, row.event.id)
    && row.attendeeCount == AttendeeCount(t.attendees, row.event.id)
    && row.isLive == IsLive(row.event.start, row.event.end, now)
    && row.score == Score(row.likeCount, row.attendeeCount,
                          decay(AgeHours(row.event.createdAt, now)),
                          Boost(row.event.start, row.event.end, now))
  }

  /** The selected columns of one event: the correlated counts, `is_live` and `score`. */
  function RowOf(t: Tables, decay: real -> real, now: Instant, e: Event): FeedRow {
    var likes := LikeCount(t.likes, e.id);
    var attendees := AttendeeCount(t.attendees, e.id);
    FeedRow(e, likes, attendees, IsLive(e.start, e.end, now), EventScore(likes, attendees, decay, e, now))
  }

  function RowEvent(row: FeedRow): Event {
    row.event
  }

  /** The rows the query ranks: one per non-expired event, in table order. */
  function Candidates(t: Tables, decay: real -> real, now: Instant): (r: seq<FeedRow>)
    ensures |r| == |Unexpired(t.events, now)|
    ensures forall i :: 0 <= i < |r| ==> r[i].event == Unexpired(t.events, now)[i]
    ensures MapSeq(RowEvent, r) == Unexpired(t.events, now)
    ensures forall i :: 0 <= i < |r| ==> IsFeedRow(t, decay, now, r[i])
  {
    var u := Unexpired(t.events, now);
    seq(|u|, i requires 0 <= i < |u| => RowOf(t, decay, now, u[i]))
  }

  function RowScore(row: FeedRow): real {
    row.score
  }

  /**
   * An ordering of the candidates is a feed row for each non-expired event:
   * its events are those events, each as often as in the table.
   */
  lemma OrderedRowsAreFeedRows(t: Tables, decay: real -> real, now: Instant, ranked: seq<FeedRow>)
    requires IsDescOrdering(Candidates(t, decay, now), ranked, RowScore)
    ensures |ranked| == |Unexpired(t.events, now)|
    ensures multiset(MapSeq(RowEvent, ranked)) == multiset(Unexpired(t.events, now))
    ensures forall i :: 0 <= i < |ranked| ==> IsFeedRow(t, decay, now, ranked[i])
  {
    RankedRowsAreFeedRows(t, decay, now, ranked);
    RankedEvents(t, decay, now, ranked);
  }

  lemma RankedRowsAreFeedRows(t: Tables, decay: real -> real, now: Instant, ranked: seq<FeedRow>)
    requires IsDescOrdering(Candidates(t, decay, now), ranked, RowScore)
    ensures |ranked| == |Unexpired(t.events, now)|
    ensures forall i :: 0 <= i < |ranked| ==> IsFeedRow(t, decay, now, ranked[i])
  {
    var c := Candidates(t, decay, now);
    assert |ranked| == |multiset(ranked)| == |multiset(c)| == |c|;
    forall i | 0 <= i < |ranked|
      ensures IsFeedRow(t, decay, now, ranked[i])
    {
      assert ranked[i] in multiset(ranked);
      assert ranked[i] in multiset(c);
      var j :| 0 <= j < |c| && c[j] == ranked[i];
    }
  }

  lemma RankedEvents(t: Tables, decay: real -> real, now: Instant, ranked: seq<FeedRow>)
    requires IsDescOrdering(Candidates(t, decay, now), ranked, RowScore)
    ensures multiset(MapSeq(RowEvent, ranked)) == multiset(Unexpired(t.events, now))
  {
    MapPermutation(RowEvent, ranked, Candidates(t, decay, now));
  }

  /** A window of an ordering of the candidates: its rows are feed rows, in score order. */
  lemma WindowOfRanking(t: Tables, decay: real -> real, now: Instant, ranked: seq<FeedRow>, offset: nat, limit: nat)
    requires IsDescOrdering(Candidates(t, decay, now), ranked, RowScore)
    ensures var page := Window(ranked, offset, limit);
      && (page == [] <==> offset >= |Unexpired(t.events, now)| || limit == 0)
      && (forall i :: 0 <= i < |page| ==> IsFeedRow(t, decay, now, page[i]))
      && NonIncreasing(page, RowScore)
  {
    OrderedRowsAreFeedRows(t, decay, now, ranked);
    var page := Window(ranked, offset, limit);
    forall i, j | 0 <= i < j < |page| ensures RowScore(page[i]) >= RowScore(page[j]) {
      assert page[i] == ranked[offset + i] && page[j] == ranked[offset + j];
    }
    forall i | 0 <= i < |page| ensures IsFeedRow(t, decay, now, page[i]) {
      assert page[i] == ranked[offset + i];
    }
  }

  const NegativeLimit: string := "LIMIT and OFFSET must not be negative"
  const BigintOutOfRange: string := "value out of range for type bigint"
  const IntegerOutOfRange: string := "integer out of range"

  /**
   * `getFeed` at instant `now`. `ranked` is the order PostgreSQL chose for
   * `ORDER BY score DESC`: any ordering of the candidates by non-increasing
   * score, since ties are not broken. The database rejects a negative
   * `LIMIT` or `OFFSET`, and one beyond the `bigint` range; the count query
   * fails when `COUNT(*)::int` overflows `integer`. When both queries fail,
   * `Promise.all` reports whichever fails first; the model reports the
   * page query's error.
   */
  function GetFeed(t: Tables, decay: real -> real, now: Instant, q: FeedQuery, ranked: seq<FeedRow>): (r: Result<FeedResponse, Failure>)
    requires IsDescOrdering(Candidates(t, decay, now), ranked, RowScore)
    ensures r.Success? <==> 0 <= q.limit <= MaxBigint && 0 <= Offset(q) <= MaxBigint && |Unexpired(t.events, now)| <= MaxInt
    ensures q.limit < 0 || Offset(q) < 0 ==> r == Failure(DbError(NegativeLimit))
    ensures q.limit >= 0 && Offset(q) >= 0 && (q.limit > MaxBigint || Offset(q) > MaxBigint) ==> r == Failure(DbError(BigintOutOfRange))
    ensures 0 <= q.limit <= MaxBigint && 0 <= Offset(q) <= MaxBigint && |Unexpired(t.events, now)| > MaxInt ==> r == Failure(DbError(IntegerOutOfRange))
    ensures r.Success? ==> r.value.page == q.page && r.value.limit == q.limit
    ensures r.Success? ==> r.value.total == |Unexpired(t.events, now)|
    ensures r.Success? ==> r.value.events == Window(ranked, Offset(q), q.limit)
    ensures r.Success? ==> |r.value.events| <= q.limit
    ensures r.Success? ==> (r.value.events == [] <==> Offset(q) >= r.value.total || q.limit == 0)
    ensures r.Success? ==> forall i :: 0 <= i < |r.value.events| ==> Offset(q) + i < |ranked| && r.value.events[i] == ranked[Offset(q) + i]
    ensures r.Success? ==> forall i :: 0 <= i < |r.value.events| ==> IsFeedRow(t, decay, now, r.value.events[i])
    ensures r.Success? ==> NonIncreasing(r.value.events, RowScore)
  {
    if q.limit < 0 || Offset(q) < 0 then
      Failure(DbError(NegativeLimit))
    else if q.limit > MaxBigint || Offset(q) > MaxBigint then
      Failure(DbError(BigintOutOfRange))
    else if |Unexpired(t.events, now)| > MaxInt then
      Failure(DbError(IntegerOutOfRange))
    else
      WindowOfRanking(t, decay, now, ranked, Offset(q), q.limit);
      Success(FeedResponse(Window(ranked, Offset(q), q.limit), |Unexpired(t.events, now)|, q.page, q.limit))
  }

  /** `total` depends only on the tables and the instant, never on `page` or `limit`. */
  lemma TotalIgnoresPaging(t: Tables, decay: real -> real, now: Instant, q1: FeedQuery, q2: FeedQuery, ranked1: seq<FeedRow>, ranked2: seq<FeedRow>)
    requires IsDescOrdering(Candidates(t, decay, now), ranked1, RowScore)
    requires IsDescOrdering(Candidates(t, decay, now), ranked2, RowScore)
    requires GetFeed(t, decay, now, q1, ranked1).Success? && GetFeed(t, decay, now, q2, ranked2).Success?
    ensures GetFeed(t, decay, now, q1, ranked1).value.total == GetFeed(t, decay, now, q2, ranked2).value.total
  {
  }

  /** The rows of pages `1..n` served from one ordering, concatenated. */
  function PagesUpTo(ranked: seq<FeedRow>, limit: nat, n: nat): seq<FeedRow> {
    if n == 0 then [] else PagesUpTo(ranked, limit, n - 1) + Window(ranked, PageStart(limit, n - 1), limit)
  }

  /** `k * limit`, the offset of page `k + 1`, as a sum of page sizes. */
  function PageStart(limit: nat, k: nat): nat {
    if k == 0 then 0 else PageStart(limit, k - 1) + limit
  }

  lemma {:induction false} PageStartIsOffset(limit: nat, k: nat)
    ensures PageStart(limit, k) == k * limit
  {
    if k > 0 {
      PageStartIsOffset(limit, k - 1);
      assert k * limit == (k - 1) * limit + limit;
    }
  }

  /** One page is the slice of the ordering between its offset and the next one, clipped to its length. */
  lemma WindowIsSlice(ranked: seq<FeedRow>, offset: nat, limit: nat)
    ensures Min(offset, |ranked|) <= Min(offset + limit, |ranked|)
    ensures Window(ranked, offset, limit) == ranked[Min(offset, |ranked|)..Min(offset + limit, |ranked|)]
  {
    var w := Window(ranked, offset, limit);
    if offset < |ranked| {
      assert |w| == Min(offset + limit, |ranked|) - offset;
    }
  }

  lemma {:induction false} PagesUpToPrefix(ranked: seq<FeedRow>, limit: nat, n: nat)
    ensures PagesUpTo(ranked, limit, n) == ranked[..Min(PageStart(limit, n), |ranked|)]
  {
    if n > 0 {
      var offset := PageStart(limit, n - 1);
      PagesUpToPrefix(ranked, limit, n - 1);
      WindowIsSlice(ranked, offset, limit);
      SliceJoin(ranked, Min(offset, |ranked|), Min(offset + limit, |ranked|));
    }
  }

  lemma SliceJoin<T>(s: seq<T>, lo: nat, hi: nat)
    requires lo <= hi <= |s|
    ensures s[..lo] + s[lo..hi] == s[..hi]
  {
    assert forall i :: 0 <= i < hi ==> (s[..lo] + s[lo..hi])[i] == s[i];
  }

  /**
   * Served from one fixed ordering, pages `1..ceil(total / limit)` hold every
   * ranked row exactly once and in order.
   */
  lemma PagesCoverRanking(ranked: seq<FeedRow>, limit: nat, n: nat)
    requires limit >= 1
    requires (n - 1) * limit < |ranked| <= n * limit
    ensures PagesUpTo(ranked, limit, n) == ranked
  {
    PagesUpToPrefix(ranked, limit, n);
    PageStartIsOffset(limit, n);
  }

  /** Pages `1..n` asked with `limit` have offsets within `bigint`, and the count fits `integer`. */
  predicate PagesInRange(t: Tables, now: Instant, limit: nat, n: nat) {
    n >= 1 ==> limit <= MaxBigint && PageStart(limit, n - 1) <= MaxBigint && |Unexpired(t.events, now)| <= MaxInt
  }

  /**
   * The `events` of the responses to pages `1..n` asked with one `limit`
   * and served from one ordering, concatenated.
   */
  function ServedPages(t: Tables, decay: real -> real, now: Instant, ranked: seq<FeedRow>, limit: nat, n: nat): (r: seq<FeedRow>)
    requires IsDescOrdering(Candidates(t, decay, now), ranked, RowScore)
    requires PagesInRange(t, now, limit, n)
    ensures r == PagesUpTo(ranked, limit, n)
  {
    if n == 0 then []
    else
      assert n >= 2 ==> PageStart(limit, n - 1) == PageStart(limit, n - 2) + limit;
      ServedPageIsWindow(t, decay, now, ranked, limit, n);
      ServedPages(t, decay, now, ranked, limit, n - 1) + GetFeed(t, decay, now, FeedQuery(n, limit), ranked).value.events
  }

  /**
   * Page `k` asked with a `limit` and an offset within `bigint` is served,
   * and is the window at `PageStart(limit, k - 1)`.
   */
  lemma ServedPageIsWindow(t: Tables, decay: real -> real, now: Instant, ranked: seq<FeedRow>, limit: nat, k: nat)
    requires IsDescOrdering(Candidates(t, decay, now), ranked, RowScore)
    requires k >= 1
    requires limit <= MaxBigint && PageStart(limit, k - 1) <= MaxBigint && |Unexpired(t.events, now)| <= MaxInt
    ensures GetFeed(t, decay, now, FeedQuery(k, limit), ranked).Success?
    ensures GetFeed(t, decay, now, FeedQuery(k, limit), ranked).value.events == Window(ranked, PageStart(limit, k - 1), limit)
  {
    var q := FeedQuery(k, limit);
    OffsetOfPage(limit, k);
    var r := GetFeed(t, decay, now, q, ranked);
    assert r.Success? && r.value.events == Window(ranked, Offset(q), q.limit);
  }

  lemma OffsetOfPage(limit: nat, k: nat)
    requires k >= 1
    ensures Offset(FeedQuery(k, limit)) == PageStart(limit, k - 1)
  {
    PageStartIsOffset(limit, k - 1);
  }

  /** When page `n` starts before the last of fewer than `bigint` rows, its offset lies within `bigint`. */
  lemma LastPageWithinBigint(limit: nat, n: nat, count: nat)
    requires n >= 1 && (n - 1) * limit < count <= MaxBigint
    ensures PageStart(limit, n - 1) <= MaxBigint
  {
    PageStartIsOffset(limit, n - 1);
  }

  /**
   * Pages `1..ceil(total / limit)` of `getFeed`, served from one ordering,
   * list the ranking in order, and so every non-expired event exactly as
   * often as the table holds it. The limit lies within `bigint` and the
   * number of non-expired events within `integer`, so every offset lies
   * within `bigint` and the count does not overflow.
   */
  lemma ServedPagesListEachEventOnce(t: Tables, decay: real -> real, now: Instant, ranked: seq<FeedRow>, limit: nat, n: nat)
    requires IsDescOrdering(Candidates(t, decay, now), ranked, RowScore)
    requires 1 <= limit <= MaxBigint && |Unexpired(t.events, now)| <= MaxInt
    requires (n - 1) * limit < |Unexpired(t.events, now)| <= n * limit
    ensures PagesInRange(t, now, limit, n)
    ensures ServedPages(t, decay, now, ranked, limit, n) == ranked
    ensures multiset(MapSeq(RowEvent, ServedPages(t, decay, now, ranked, limit, n))) == multiset(Unexpired(t.events, now))
  {
    if n >= 1 {
      LastPageWithinBigint(limit, n, |Unexpired(t.events, now)|);
    }
    OrderedRowsAreFeedRows(t, decay, now, ranked);
    PagesCoverRanking(ranked, limit, n);
  }
}
