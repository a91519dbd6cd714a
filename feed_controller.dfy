/**
 * `getFeedHandler` (`feed/feed.controller.ts`): turn the `page` and `limit`
 * query parameters into a `FeedQuery` by `parseInt(...) || default`
 * followed by clamping, then call `getFeed`. The controller rejects
 * nothing; `page` is clamped from below only.
 */
module FeedController {
  import opened Wrappers
  import opened Schema
  import opened Ordering
  import opened Feed

  const DefaultPage: int := 1
  const DefaultLimit: int := 20
  const MaxLimit: int := 100

  /**
   * A query parameter after `parseInt(String(...), 10)`: absent, not a
   * number, or the integer it starts with.
   */
  datatype IntParam = Missing | NaN | Int(n: int)

  /**
   * `parseInt(String(param ?? dflt), 10) || dflt`: a missing parameter
   * parses to the default, and `NaN` and `0` are falsy.
   */
  function OrDefault(param: IntParam, dflt: int): (v: int)
    ensures param.Int? && param.n != 0 ==> v == param.n
    ensures !(param.Int? && param.n != 0) ==> v == dflt
  {
    match param
    case Missing => dflt
    case NaN => dflt
    case Int(n) => if n != 0 then n else dflt
  }

  function Max(a: int, b: int): int { if a >= b then a else b }

  /** `Math.max(1, parseInt(...) || DEFAULT_PAGE)`. */
  function PageOf(param: IntParam): (page: int)
    ensures page >= 1
    ensures param.Int? && param.n >= 1 ==> page == param.n
    ensures !(param.Int? && param.n >= 1) ==> page == DefaultPage
  {
    Max(1, OrDefault(param, DefaultPage))
  }

  /** `Math.min(MAX_LIMIT, Math.max(1, parseInt(...) || DEFAULT_LIMIT))`. */
  function LimitOf(param: IntParam): (limit: int)
    ensures 1 <= limit <= MaxLimit
    ensures param.Int? && 1 <= param.n <= MaxLimit ==> limit == param.n
    ensures param.Int? && param.n > MaxLimit ==> limit == MaxLimit
    ensures param.Int? && param.n < 0 ==> limit == 1
    ensures param.Missing? || param.NaN? || param == Int(0) ==> limit == DefaultLimit
  {
    Min(MaxLimit, Max(1, OrDefault(param, DefaultLimit)))
  }

  function ParseFeedQuery(page: IntParam, limit: IntParam): (q: FeedQuery)
    ensures q.page >= 1 && 1 <= q.limit <= MaxLimit
    ensures Offset(q) >= 0
  {
    var q := FeedQuery(PageOf(page), LimitOf(limit));
    var p: nat, l: nat := q.page - 1, q.limit;
    assert Offset(q) == p * l;
    q
  }

  /**
   * The handler's query makes `getFeed` fail only when the offset
   * `(page - 1) * limit` lies beyond `bigint`, since `page` has no upper
   * bound, or when the count overflows `integer`. Either failure is a
   * database error, which the error handler answers with 500.
   */
  lemma HandlerFailsOnlyOutOfRange(t: Tables, decay: real -> real, now: Instant, page: IntParam, limit: IntParam, ranked: seq<FeedRow>)
    requires IsDescOrdering(Candidates(t, decay, now), ranked, RowScore)
    ensures var q := ParseFeedQuery(page, limit);
      var r := GetFeed(t, decay, now, q, ranked);
      && (r.Success? <==> Offset(q) <= MaxBigint && |Unexpired(t.events, now)| <= MaxInt)
      && (r.Failure? ==> r == Failure(DbError(BigintOutOfRange)) || r == Failure(DbError(IntegerOutOfRange)))
      && (r.Success? ==> |r.value.events| <= MaxLimit && r.value.page == q.page && r.value.limit == q.limit)
  {
  }

  /** Every page up to JavaScript's largest safe integer is served, while the count fits `integer`. */
  lemma SafePageServed(t: Tables, decay: real -> real, now: Instant, page: IntParam, limit: IntParam, ranked: seq<FeedRow>)
    requires IsDescOrdering(Candidates(t, decay, now), ranked, RowScore)
    requires page.Int? ==> page.n <= MaxSafeInteger
    requires |Unexpired(t.events, now)| <= MaxInt
    ensures GetFeed(t, decay, now, ParseFeedQuery(page, limit), ranked).Success?
  {
    var q := ParseFeedQuery(page, limit);
    assert 1 <= q.page <= MaxSafeInteger && 1 <= q.limit <= MaxLimit;
    SafeOffset(q);
  }

  lemma SafeOffset(q: FeedQuery)
    requires 1 <= q.page <= MaxSafeInteger && 1 <= q.limit <= MaxLimit
    ensures 0 <= Offset(q) <= MaxBigint
  {
    var a: nat, b: nat := q.page - 1, q.limit;
    assert a * b <= a * MaxLimit;
    assert a * MaxLimit <= MaxSafeInteger * MaxLimit;
  }

  /** `?page=1000000000000000000` asks for an offset near `2e19`, past `bigint`, so the request fails. */
  lemma HugePageFails(t: Tables, decay: real -> real, now: Instant, ranked: seq<FeedRow>)
    requires IsDescOrdering(Candidates(t, decay, now), ranked, RowScore)
    ensures GetFeed(t, decay, now, ParseFeedQuery(Int(1000000000000000000), Missing), ranked) == Failure(DbError(BigintOutOfRange))
  {
    var q := ParseFeedQuery(Int(1000000000000000000), Missing);
    assert q == FeedQuery(1000000000000000000, DefaultLimit);
    assert Offset(q) == 999999999999999999 * 20 == 19999999999999999980;
  }

  /** `?limit=0` gives the default 20, not the lower bound 1; `?page=0` gives page 1. */
  lemma ZeroFallsBackToDefault()
    ensures LimitOf(Int(0)) == 20 && PageOf(Int(0)) == 1
    ensures LimitOf(Int(-5)) == 1 && LimitOf(Int(500)) == 100
  {
  }
}
