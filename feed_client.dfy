/**
 * The web client's infinite feed (`hooks/useFeed.ts`): every request asks
 * for `LIMIT` rows, and `getNextPageParam` asks for the next page while the
 * last page is below `ceil(total / LIMIT)`.
 */
module FeedClient {
  import opened Wrappers
  import opened Feed
  import opened FeedController
  import opened Schema
  import opened Ordering

  const Limit: nat := 20

  /** `Math.ceil(total / LIMIT)`. */
  function TotalPages(total: nat): (n: nat)
    ensures (n - 1) * Limit < total <= n * Limit || (total == 0 && n == 0)
  {
    (total + Limit - 1) / Limit
  }

  /** `getNextPageParam`; it reads only `page` and `total` of the last response. */
  function NextPageParam(lastPage: FeedResponse): (next: Option<int>)
    ensures next.Some? <==> lastPage.page < TotalPages(lastPage.total)
    ensures next.Some? ==> next.value == lastPage.page + 1
  {
    if lastPage.page < TotalPages(lastPage.total) then Some(lastPage.page + 1) else None
  }

  /** The `page` and `limit` parameters of `/feed?page=${pageParam}&limit=${LIMIT}`. */
  function RequestParams(pageParam: int): (IntParam, IntParam) {
    (Int(pageParam), Int(Limit))
  }

  /** The server reads the request back as that page and the same `LIMIT` the client divides by. */
  lemma RequestRoundTrip(pageParam: int)
    requires pageParam >= 1
    ensures var (p, l) := RequestParams(pageParam);
      ParseFeedQuery(p, l) == FeedQuery(pageParam, Limit)
  {
  }

  /**
   * The pages fetched from page `p` on while the server keeps reporting
   * `total`; the server echoes the page it was asked for.
   */
  function PagesFrom(p: int, total: nat): seq<int>
    decreases TotalPages(total) - p
  {
    match NextPageParam(FeedResponse([], total, p, Limit))
    case None => [p]
    case Some(next) => [p] + PagesFrom(next, total)
  }

  lemma {:induction false} PagesFromCounts(p: int, total: nat)
    requires 1 <= p
    ensures var n := if TotalPages(total) > p then TotalPages(total) else p;
      PagesFrom(p, total) == seq(n - p + 1, i => p + i)
    decreases TotalPages(total) - p
  {
    var n := if TotalPages(total) > p then TotalPages(total) else p;
    if p < TotalPages(total) {
      PagesFromCounts(p + 1, total);
      var rest := PagesFrom(p + 1, total);
      assert [p] + rest == seq(n - p + 1, i => p + i);
    }
  }

  /**
   * Starting from `initialPageParam = 1`, the client requests exactly pages
   * `1..max(1, ceil(total / 20))`, each once and in order.
   */
  lemma VisitsEveryPageOnce(total: nat)
    ensures var n := if TotalPages(total) > 1 then TotalPages(total) else 1;
      PagesFrom(1, total) == seq(n, i => i + 1)
  {
    PagesFromCounts(1, total);
  }

  /** With nothing to show, page 1 is the only request. */
  lemma EmptyFeedFetchesOnce()
    ensures PagesFrom(1, 0) == [1]
  {
  }

  /**
   * Against one fixed ordering, the pages the client fetches from page 1 on,
   * each asked with `LIMIT`, hold every non-expired event exactly as often
   * as the table holds it, in ranking order, as long as their number lies
   * within `integer` (beyond it the count query fails).
   */
  lemma ClientFetchListsEachEventOnce(t: Tables, decay: real -> real, now: Instant, ranked: seq<FeedRow>)
    requires IsDescOrdering(Candidates(t, decay, now), ranked, RowScore)
    requires |Unexpired(t.events, now)| <= MaxInt
    ensures GetFeed(t, decay, now, FeedQuery(1, Limit), ranked).Success?
    ensures GetFeed(t, decay, now, FeedQuery(1, Limit), ranked).value.total == |Unexpired(t.events, now)|
    ensures var total := |Unexpired(t.events, now)|;
      var n := if TotalPages(total) > 1 then TotalPages(total) else 1;
      && PagesFrom(1, total) == seq(n, i => i + 1)
      && PagesInRange(t, now, Limit, n)
      && ServedPages(t, decay, now, ranked, Limit, n) == ranked
      && multiset(MapSeq(RowEvent, ServedPages(t, decay, now, ranked, Limit, n))) == multiset(Unexpired(t.events, now))
  {
    var total := GetFeed(t, decay, now, FeedQuery(1, Limit), ranked).value.total;
    var n := if TotalPages(total) > 1 then TotalPages(total) else 1;
    VisitsEveryPageOnce(total);
    OrderedRowsAreFeedRows(t, decay, now, ranked);
    if total == 0 {
      assert ServedPages(t, decay, now, ranked, Limit, n) == PagesUpTo(ranked, Limit, 1);
    } else {
      ServedPagesListEachEventOnce(t, decay, now, ranked, Limit, n);
    }
  }
}
