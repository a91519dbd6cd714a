/**
 * `searchEvents` (`search/search.service.ts`): build the `WHERE` conditions
 * and the parameter list with a running `$n` counter, then select the
 * matching events, ordered by distance or by creation time, at most 50.
 * Search SQL is represented by conditions that hold placeholder numbers,
 * so that what each `$k` names, and what the `WHERE` clause means, can be
 * evaluated.
 */
module SearchService {
  import opened Wrappers
  import opened Text
  import opened Schema
  import opened Ordering
  import opened SearchValidation

  const ResultLimit: nat := 50

  /** One entry of `conditions`; the numbers are the `$k` placeholders it contains. */
  datatype Condition =
    | NotExpired                                                  // e.end_time > NOW()
    | TextMatches(patternParam: int)                              // (e.title ILIKE $k OR e.description ILIKE $k)
    | WithinRadius(lngParam: int, latParam: int, metresParam: int) // ST_DWithin(e.location, ST_MakePoint($a, $b), $c)

  /** The `distance_km` column: `NULL`, or the distance to `ST_MakePoint($a, $b)`. */
  datatype DistanceExpr = NullDistance | DistanceFrom(lngParam: int, latParam: int)

  datatype OrderBy = DistanceAsc | CreatedAtDesc

  datatype SearchSql = SearchSql(conditions: seq<Condition>, values: seq<SqlValue>, distance: DistanceExpr, orderBy: OrderBy, limit: nat)

  /** The geodesic distance in metres between two points (`ST_Distance` on geography). */
  type Distance = (Point, Point) -> real

  /** A number as it is bound: `NaN` stays `NaN`. */
  function NumValue(n: NumParam): SqlValue {
    if n.Num? then SqlNumber(n.x) else SqlNaN
  }

  /** `radius_km! * 1000`. */
  function Metres(radiusKm: NumParam): SqlValue {
    if radiusKm.Num? then SqlNumber(radiusKm.x * 1000.0) else SqlNaN
  }

  /** `if (q)`: the text filter is on for a non-empty (already trimmed) `q`. */
  predicate TextOn(query: SearchQuery) {
    query.q.Some? && query.q.value != ""
  }

  /** `` `%${q}%` ``. */
  function Pattern(q: string): string {
    "%" + q + "%"
  }

  /** `e.title ILIKE p OR e.description ILIKE p`; a `NULL` description does not match. */
  predicate TextHit(e: Event, pattern: string) {
    ILike(e.title, pattern) || (e.description.Some? && ILike(e.description.value, pattern))
  }

  /** Every placeholder of `c` names one of `n` values. */
  predicate Bound(c: Condition, n: int) {
    match c
    case NotExpired => true
    case TextMatches(k) => 1 <= k <= n
    case WithinRadius(a, b, m) => 1 <= a <= n && 1 <= b <= n && 1 <= m <= n
  }

  /** A condition evaluated for one event with the parameters bound to `values`. */
  predicate EvalCondition(c: Condition, values: seq<SqlValue>, e: Event, now: Instant, dist: Distance) {
    match c
    case NotExpired => e.end > now
    case TextMatches(k) =>
      var p := Param(values, k);
      p.Some? && p.value.SqlText? && TextHit(e, p.value.text)
    case WithinRadius(a, b, m) =>
      var (lng, lat, metres) := (Param(values, a), Param(values, b), Param(values, m));
      && lng.Some? && lng.value.SqlNumber?
      && lat.Some? && lat.value.SqlNumber?
      && metres.Some? && metres.value.SqlNumber?
      && dist(e.location, Point(lng.value.number, lat.value.number)) <= metres.value.number
  }

  /** `WHERE c1 AND c2 AND ...`. */
  predicate EvalWhere(conds: seq<Condition>, values: seq<SqlValue>, e: Event, now: Instant, dist: Distance) {
    forall i | 0 <= i < |conds| :: EvalCondition(conds[i], values, e, now, dist)
  }

  /**
   * What a search is meant to select: an unexpired event that, when a text
   * is given, matches it in title or description and, when the geo
   * parameters are given, lies within `radius_km` kilometres of (lng, lat).
   */
  predicate MatchesSearch(query: SearchQuery, e: Event, now: Instant, dist: Distance) {
    && e.end > now
    && (TextOn(query) ==> TextHit(e, Pattern(query.q.value)))
    && (GeoOn(query) ==>
          && query.lat.Num? && query.lng.Num? && query.radiusKm.Num?
          && dist(e.location, Point(query.lng.x, query.lat.x)) <= query.radiusKm.x * 1000.0)
  }

  /** Conditions built before more values are pushed keep their meaning. */
  lemma EvalConditionExtends(c: Condition, values: seq<SqlValue>, more: seq<SqlValue>, e: Event, now: Instant, dist: Distance)
    requires Bound(c, |values|)
    ensures EvalCondition(c, values + more, e, now, dist) == EvalCondition(c, values, e, now, dist)
  {
  }

  /** The SQL-building part of `searchEvents`. */
  method BuildSearchSql(query: SearchQuery) returns (sql: SearchSql, paramIdx: int)
    ensures |sql.conditions| >= 1 && sql.conditions[0] == NotExpired
    ensures paramIdx == |sql.values| + 1
    ensures |sql.values| == (if TextOn(query) then 1 else 0) + (if GeoOn(query) then 3 else 0)
    ensures |sql.conditions| == 1 + (if TextOn(query) then 1 else 0) + (if GeoOn(query) then 1 else 0)
    ensures TextOn(query) ==> sql.values[0] == SqlText(Pattern(query.q.value))
    ensures GeoOn(query) ==>
      sql.values[|sql.values| - 3..] == [NumValue(query.lng), NumValue(query.lat), Metres(query.radiusKm)]
    ensures forall i :: 0 <= i < |sql.conditions| ==> Bound(sql.conditions[i], |sql.values|)
    ensures sql.distance.DistanceFrom? <==> GeoOn(query)
    ensures sql.distance.DistanceFrom? ==>
      && Param(sql.values, sql.distance.lngParam) == Some(NumValue(query.lng))
      && Param(sql.values, sql.distance.latParam) == Some(NumValue(query.lat))
    ensures sql.orderBy == (if GeoOn(query) then DistanceAsc else CreatedAtDesc)
    ensures sql.limit == ResultLimit
    ensures forall dist: Distance, e: Event, now: Instant ::
      EvalWhere(sql.conditions, sql.values, e, now, dist) <==> MatchesSearch(query, e, now, dist)
  {
    var conditions := [NotExpired];
    var values: seq<SqlValue> := [];
    paramIdx := 1;

    if query.q.Some? && query.q.value != "" {
      conditions := conditions + [TextMatches(paramIdx)];
      values := values + [SqlText(Pattern(query.q.value))];
      paramIdx := paramIdx + 1;
    }

    assert values == (if TextOn(query) then [SqlText(Pattern(query.q.value))] else []);
    assert conditions == [NotExpired] + (if TextOn(query) then [TextMatches(1)] else []);
    assert paramIdx == |values| + 1;

    var hasGeo := !query.lat.Absent? && !query.lng.Absent? && !query.radiusKm.Absent?;
    if hasGeo {
      var radiusMetres := Metres(query.radiusKm);
      conditions := conditions + [WithinRadius(paramIdx, paramIdx + 1, paramIdx + 2)];
      values := values + [NumValue(query.lng), NumValue(query.lat), radiusMetres];
      paramIdx := paramIdx + 3;
    }

    assert hasGeo == GeoOn(query);
    assert conditions == [NotExpired]
      + (if TextOn(query) then [TextMatches(1)] else [])
      + (if GeoOn(query) then [WithinRadius(|values| - 2, |values| - 1, |values|)] else []);
    SearchShape(query, conditions, values);
    var distance := if hasGeo then DistanceFrom(paramIdx - 3, paramIdx - 2) else NullDistance;
    sql := SearchSql(conditions, values, distance, if hasGeo then DistanceAsc else CreatedAtDesc, ResultLimit);

    forall dist: Distance, e: Event, now: Instant
      ensures EvalWhere(sql.conditions, sql.values, e, now, dist) <==> MatchesSearch(query, e, now, dist)
    {
      WhereMeansSearch(query, conditions, values, e, now, dist);
    }
  }

  /** The shape of the built conditions and values: sizes, the text pattern, the geo values and placeholders. */
  lemma SearchShape(query: SearchQuery, conditions: seq<Condition>, values: seq<SqlValue>)
    requires conditions == [NotExpired]
      + (if TextOn(query) then [TextMatches(1)] else [])
      + (if GeoOn(query) then [WithinRadius(|values| - 2, |values| - 1, |values|)] else [])
    requires values == (if TextOn(query) then [SqlText(Pattern(query.q.value))] else [])
      + (if GeoOn(query) then [NumValue(query.lng), NumValue(query.lat), Metres(query.radiusKm)] else [])
    ensures |values| == (if TextOn(query) then 1 else 0) + (if GeoOn(query) then 3 else 0)
    ensures |conditions| == 1 + (if TextOn(query) then 1 else 0) + (if GeoOn(query) then 1 else 0)
    ensures TextOn(query) ==> values[0] == SqlText(Pattern(query.q.value))
    ensures GeoOn(query) ==>
      && values[|values| - 3..] == [NumValue(query.lng), NumValue(query.lat), Metres(query.radiusKm)]
      && Param(values, |values| - 2) == Some(NumValue(query.lng))
      && Param(values, |values| - 1) == Some(NumValue(query.lat))
    ensures forall i :: 0 <= i < |conditions| ==> Bound(conditions[i], |values|)
  {
  }

  /**
   * The conditions and values of `BuildSearchSql` mean the search: the
   * expiry test, the text test on `$1` when a text is given, and the radius
   * test on the last three values when the geo parameters are given.
   */
  lemma WhereMeansSearch(query: SearchQuery, conditions: seq<Condition>, values: seq<SqlValue>, e: Event, now: Instant, dist: Distance)
    requires conditions == [NotExpired]
      + (if TextOn(query) then [TextMatches(1)] else [])
      + (if GeoOn(query) then [WithinRadius(|values| - 2, |values| - 1, |values|)] else [])
    requires values == (if TextOn(query) then [SqlText(Pattern(query.q.value))] else [])
      + (if GeoOn(query) then [NumValue(query.lng), NumValue(query.lat), Metres(query.radiusKm)] else [])
    ensures EvalWhere(conditions, values, e, now, dist) <==> MatchesSearch(query, e, now, dist)
  {
    assert EvalCondition(conditions[0], values, e, now, dist) <==> e.end > now;
    if TextOn(query) {
      assert conditions[1] == TextMatches(1) && values[0] == SqlText(Pattern(query.q.value));
    }
    if GeoOn(query) {
      var g := |conditions| - 1;
      assert conditions[g] == WithinRadius(|values| - 2, |values| - 1, |values|);
      assert EvalCondition(conditions[g], values, e, now, dist) <==>
        && query.lat.Num? && query.lng.Num? && query.radiusKm.Num?
        && dist(e.location, Point(query.lng.x, query.lat.x)) <= query.radiusKm.x * 1000.0;
    }
  }

  /** A result row: the event's columns, the two counts and `distance_km`. */
  datatype SearchResult = SearchResult(event: Event, likeCount: nat, attendeeCount: nat, distanceKm: Option<real>)

  /**
   * `ROUND(x, 2)` of a `numeric` x: to two decimals, halves away from zero.
   * This is what `ROUND((ST_Distance(...) / 1000.0)::numeric, 2)` computes;
   * see `TypeOf` for the query as written.
   */
  function Round2(x: real): (r: real)
    ensures -0.005 <= r - x <= 0.005
    ensures x >= 0.0 ==> r >= 0.0
  {
    if x >= 0.0 then ((x * 100.0 + 0.5).Floor as real) / 100.0
    else -((((-x) * 100.0 + 0.5).Floor as real) / 100.0)
  }

  /** The coordinate a matching geo row was measured from (only numbers can match). */
  function Coord(n: NumParam): real {
    if n.Num? then n.x else 0.0
  }

  function ResultOf(t: Tables, query: SearchQuery, dist: Distance, e: Event): SearchResult {
    SearchResult(e, LikeCount(t.likes, e.id), AttendeeCount(t.attendees, e.id),
      if GeoOn(query) then Some(Round2(dist(e.location, Point(Coord(query.lng), Coord(query.lat))) / 1000.0)) else None)
  }

  /** The events of the table the `WHERE` clause selects, in table order. */
  function Matching(events: seq<Event>, query: SearchQuery, now: Instant, dist: Distance): (r: seq<Event>)
    ensures |r| <= |events|
    ensures forall i :: 0 <= i < |r| ==> r[i] in events && MatchesSearch(query, r[i], now, dist)
    ensures forall e | e in events && MatchesSearch(query, e, now, dist) :: e in r
    ensures multiset(r) <= multiset(events)
  {
    if events == [] then []
    else
      assert events == [events[0]] + events[1..];
      if MatchesSearch(query, events[0], now, dist) then [events[0]] + Matching(events[1..], query, now, dist)
      else Matching(events[1..], query, now, dist)
  }

  /** What a returned row promises. */
  ghost predicate IsSearchRow(t: Tables, query: SearchQuery, now: Instant, dist: Distance, row: SearchResult) {
    && row.event in t.events
    && MatchesSearch(query, row.event, now, dist)
    && row.likeCount == LikeCount(t.likes, row.event.id)
    && row.attendeeCount == AttendeeCount(t.attendees, row.event.id)
    && (GeoOn(query) ==> row.distanceKm == Some(Round2(dist(row.event.location, Point(query.lng.x, query.lat.x)) / 1000.0)))
    && (!GeoOn(query) ==> row.distanceKm.None?)
  }

  function ResultEvent(row: SearchResult): Event {
    row.event
  }

  /** The row of a selected event is a result row. */
  lemma ResultsOfMatches(t: Tables, query: SearchQuery, now: Instant, dist: Distance, m: seq<Event>)
    requires forall i :: 0 <= i < |m| ==> m[i] in t.events && MatchesSearch(query, m[i], now, dist)
    ensures forall i :: 0 <= i < |m| ==> IsSearchRow(t, query, now, dist, ResultOf(t, query, dist, m[i]))
  {
  }

  /** The rows the query orders: one per matching event, in table order. */
  function Candidates(t: Tables, query: SearchQuery, now: Instant, dist: Distance): (r: seq<SearchResult>)
    ensures |r| == |Matching(t.events, query, now, dist)|
    ensures forall i :: 0 <= i < |r| ==> r[i].event == Matching(t.events, query, now, dist)[i]
    ensures MapSeq(ResultEvent, r) == Matching(t.events, query, now, dist)
    ensures forall i :: 0 <= i < |r| ==> IsSearchRow(t, query, now, dist, r[i])
  {
    var m := Matching(t.events, query, now, dist);
    ResultsOfMatches(t, query, now, dist, m);
    seq(|m|, i requires 0 <= i < |m| => ResultOf(t, query, dist, m[i]))
  }

  function DistanceKey(row: SearchResult): real {
    if row.distanceKm.Some? then row.distanceKm.value else 0.0
  }

  function CreatedKey(row: SearchResult): real {
    row.event.createdAt as real
  }

  /** `ORDER BY distance_km ASC` with geo, `ORDER BY e.created_at DESC` without; ties unbroken. */
  predicate IsSearchOrdering(query: SearchQuery, rows: seq<SearchResult>, ordered: seq<SearchResult>) {
    if GeoOn(query) then IsAscOrdering(rows, ordered, DistanceKey) else IsDescOrdering(rows, ordered, CreatedKey)
  }

  /**
   * An ordering of the candidates is a result row for each matching event:
   * its events are those events, each as often as in the table.
   */
  lemma OrderedRowsAreSearchRows(t: Tables, query: SearchQuery, now: Instant, dist: Distance, ordered: seq<SearchResult>)
    requires IsSearchOrdering(query, Candidates(t, query, now, dist), ordered)
    ensures |ordered| == |Matching(t.events, query, now, dist)|
    ensures multiset(MapSeq(ResultEvent, ordered)) == multiset(Matching(t.events, query, now, dist))
    ensures forall i :: 0 <= i < |ordered| ==> IsSearchRow(t, query, now, dist, ordered[i])
  {
    var c := Candidates(t, query, now, dist);
    assert multiset(ordered) == multiset(c);
    OrderedEvents(t, query, now, dist, ordered);
    assert |ordered| == |multiset(ordered)| == |multiset(c)| == |c|;
    forall i | 0 <= i < |ordered|
      ensures IsSearchRow(t, query, now, dist, ordered[i])
    {
      assert ordered[i] in multiset(c);
      var j :| 0 <= j < |c| && c[j] == ordered[i];
    }
  }

  lemma OrderedEvents(t: Tables, query: SearchQuery, now: Instant, dist: Distance, ordered: seq<SearchResult>)
    requires IsSearchOrdering(query, Candidates(t, query, now, dist), ordered)
    ensures multiset(MapSeq(ResultEvent, ordered)) == multiset(Matching(t.events, query, now, dist))
  {
    MapPermutation(ResultEvent, ordered, Candidates(t, query, now, dist));
  }

  /**
   * The rows `searchEvents` returns at `now`, with the distance column cast
   * to `numeric` before `ROUND` (`CastDistance`); `ordered` is the order
   * PostgreSQL chose for the matching rows.
   */
  function SearchEvents(t: Tables, query: SearchQuery, now: Instant, dist: Distance, ordered: seq<SearchResult>): (r: seq<SearchResult>)
    requires IsSearchOrdering(query, Candidates(t, query, now, dist), ordered)
    ensures |r| == Min(ResultLimit, |Matching(t.events, query, now, dist)|)
    ensures forall i :: 0 <= i < |r| ==> i < |ordered| && r[i] == ordered[i]
    ensures forall i :: 0 <= i < |r| ==> IsSearchRow(t, query, now, dist, r[i])
    ensures GeoOn(query) ==> NonDecreasing(r, DistanceKey)
    ensures !GeoOn(query) ==> NonIncreasing(r, CreatedKey)
  {
    OrderedRowsAreSearchRows(t, query, now, dist, ordered);
    Take(ordered, ResultLimit)
  }

  /**
   * `LIMIT 50` keeps the nearest matches with geo and the newest without:
   * the returned rows are candidates, and no candidate left out is nearer
   * (with geo) or newer (without) than a returned row.
   */
  lemma SearchKeepsNearestOrNewest(t: Tables, query: SearchQuery, now: Instant, dist: Distance, ordered: seq<SearchResult>)
    requires IsSearchOrdering(query, Candidates(t, query, now, dist), ordered)
    ensures multiset(SearchEvents(t, query, now, dist, ordered)) <= multiset(Candidates(t, query, now, dist))
    ensures GeoOn(query) ==>
      var r := SearchEvents(t, query, now, dist, ordered);
      forall x | x in multiset(Candidates(t, query, now, dist)) - multiset(r) ::
        forall i :: 0 <= i < |r| ==> DistanceKey(x) >= DistanceKey(r[i])
    ensures !GeoOn(query) ==>
      var r := SearchEvents(t, query, now, dist, ordered);
      forall x | x in multiset(Candidates(t, query, now, dist)) - multiset(r) ::
        forall i :: 0 <= i < |r| ==> CreatedKey(x) <= CreatedKey(r[i])
  {
    var c := Candidates(t, query, now, dist);
    assert SearchEvents(t, query, now, dist, ordered) == Take(ordered, ResultLimit);
    if GeoOn(query) {
      AscLimitKeepsBottom(c, ordered, DistanceKey, ResultLimit);
    } else {
      DescLimitKeepsTop(c, ordered, CreatedKey, ResultLimit);
    }
  }

  // ─────────────────── the distance column as written ───────────────────

  /** The two numeric types the distance expression involves. */
  datatype SqlType = DoublePrecision | Numeric

  /** The `distance_km` expression's syntax tree. */
  datatype NumExpr =
    | StDistance                     // ST_Distance(geography, geography), a double precision
    | NumericLiteral(value: real)    // a literal such as 1000.0, a numeric
    | Divide(a: NumExpr, b: NumExpr) // a / b
    | CastNumeric(a: NumExpr)        // (a)::numeric
    | Round(a: NumExpr, digits: int) // ROUND(a, digits)

  /**
   * PostgreSQL's typing of the expression, `None` when it is refused. For
   * `/` a numeric operand is cast implicitly to double precision when the
   * other one is double precision; `ROUND` with a digit count exists only as
   * `round(numeric, integer)`, and double precision is not cast implicitly
   * to numeric.
   */
  function TypeOf(e: NumExpr): (r: Option<SqlType>)
    ensures e.Round? ==> (r.Some? <==> TypeOf(e.a) == Some(Numeric))
    ensures e.Divide? && TypeOf(e.a) == Some(DoublePrecision) && TypeOf(e.b).Some? ==> r == Some(DoublePrecision)
  {
    match e
    case StDistance => Some(DoublePrecision)
    case NumericLiteral(_) => Some(Numeric)
    case Divide(a, b) =>
      if TypeOf(a).None? || TypeOf(b).None? then None
      else if TypeOf(a) == Some(Numeric) && TypeOf(b) == Some(Numeric) then Some(Numeric)
      else Some(DoublePrecision)
    case CastNumeric(a) => if TypeOf(a).Some? then Some(Numeric) else None
    case Round(a, _) => if TypeOf(a) == Some(Numeric) then Some(Numeric) else None
  }

  /** `ROUND(ST_Distance(...) / 1000.0, 2)`, as the source writes it. */
  const WrittenDistance: NumExpr := Round(Divide(StDistance, NumericLiteral(1000.0)), 2)

  /** `ROUND((ST_Distance(...) / 1000.0)::numeric, 2)`, the expression `SearchEvents` computes. */
  const CastDistance: NumExpr := Round(CastNumeric(Divide(StDistance, NumericLiteral(1000.0))), 2)

  const NoRoundForDouble: string := "function round(double precision, integer) does not exist"

  /** The written distance expression is refused; with the cast it is a numeric. */
  lemma DistanceTyping()
    ensures TypeOf(WrittenDistance).None?
    ensures TypeOf(CastDistance) == Some(Numeric)
  {
    assert TypeOf(Divide(StDistance, NumericLiteral(1000.0))) == Some(DoublePrecision);
  }

  /**
   * `searchEvents` as written: with the geo parameters the select list holds
   * `WrittenDistance` and the query fails; without them `distance_km` is
   * `NULL` and the query runs.
   */
  function SearchEventsAsWritten(t: Tables, query: SearchQuery, now: Instant, dist: Distance, ordered: seq<SearchResult>): (r: Result<seq<SearchResult>, Failure>)
    requires IsSearchOrdering(query, Candidates(t, query, now, dist), ordered)
    ensures r.Failure? <==> GeoOn(query)
    ensures r.Failure? ==> r.error == DbError(NoRoundForDouble)
    ensures r.Success? ==> r.value == SearchEvents(t, query, now, dist, ordered)
  {
    DistanceTyping();
    if GeoOn(query) && TypeOf(WrittenDistance).None? then Failure(DbError(NoRoundForDouble))
    else Success(SearchEvents(t, query, now, dist, ordered))
  }

  /**
   * For a `q` without `%`, `_` or `\`, the text condition is a
   * case-insensitive substring test on the title or the description.
   */
  lemma TextConditionIsSubstring(q: string, e: Event)
    requires IsLiteral(q)
    ensures TextHit(e, Pattern(q)) <==>
      IsSubstring(Lower(q), Lower(e.title)) || (e.description.Some? && IsSubstring(Lower(q), Lower(e.description.value)))
  {
    ILikeContains(q, e.title);
    if e.description.Some? {
      ILikeContains(q, e.description.value);
    }
  }

  /** `q` is not escaped: the search "a_c" finds an event titled "abc". */
  lemma WildcardsNotEscaped(e: Event, now: Instant, dist: Distance)
    requires e.title == "abc" && e.end > now
    ensures MatchesSearch(SearchQuery(Some("a_c"), Absent, Absent, Absent), e, now, dist)
    ensures !IsSubstring("a_c", e.title)
  {
    UnderscoreIsWildcard();
    assert Pattern("a_c") == "%a_c%";
  }

  /**
   * As written, a whitespace-only `q` with no geo parameters passes
   * validation and the search then filters on nothing but expiry.
   */
  lemma WhitespaceQuerySearchesEverything(s: string, e: Event, now: Instant, dist: Distance)
    requires s != [] && forall i :: 0 <= i < |s| ==> IsSpace(s[i])
    ensures var raw := RawSearch(Text(s), Absent, Absent, Absent);
      && ValidateSearchQuery(raw).None?
      && (MatchesSearch(ParseSearchQuery(raw), e, now, dist) <==> e.end > now)
  {
    WhitespaceQueryAccepted(s);
  }

  /** The `/search` handler with the corrected validation: 400 on a rejected query. */
  function HandleSearch(t: Tables, raw: RawSearch, now: Instant, dist: Distance, ordered: seq<SearchResult>): (r: Result<seq<SearchResult>, Failure>)
    requires IsSearchOrdering(ParseSearchQuery(raw), Candidates(t, ParseSearchQuery(raw), now, dist), ordered)
    ensures r.Failure? <==> ValidateSearchQueryTrimmed(raw).Some?
    ensures r.Failure? ==> r.error == AppError(400, ValidateSearchQueryTrimmed(raw).value)
    ensures r.Success? ==> r.value == SearchEvents(t, ParseSearchQuery(raw), now, dist, ordered)
    ensures r.Success? ==> |r.value| <= ResultLimit
    ensures r.Success? ==> var query := ParseSearchQuery(raw);
      && (TextOn(query) || GeoOn(query))
      && forall i :: 0 <= i < |r.value| ==> IsSearchRow(t, query, now, dist, r.value[i])
  {
    match ValidateSearchQueryTrimmed(raw)
    case Some(message) => Failure(AppError(400, message))
    case None =>
      TrimmedValidationGivesFilter(raw);
      Success(SearchEvents(t, ParseSearchQuery(raw), now, dist, ordered))
  }

  /**
   * The `/search` handler as written: 400 on a query the validator refuses;
   * every query it accepts with the geo parameters then fails in the
   * database and goes to the error handler.
   */
  function HandleSearchAsWritten(t: Tables, raw: RawSearch, now: Instant, dist: Distance, ordered: seq<SearchResult>): (r: Result<seq<SearchResult>, Failure>)
    requires IsSearchOrdering(ParseSearchQuery(raw), Candidates(t, ParseSearchQuery(raw), now, dist), ordered)
    ensures ValidateSearchQuery(raw).Some? ==> r == Failure(AppError(400, ValidateSearchQuery(raw).value))
    ensures ValidateSearchQuery(raw).None? && GeoOn(ParseSearchQuery(raw)) ==> r == Failure(DbError(NoRoundForDouble))
    ensures ValidateSearchQuery(raw).None? && !GeoOn(ParseSearchQuery(raw)) ==>
      r == Success(SearchEvents(t, ParseSearchQuery(raw), now, dist, ordered))
  {
    match ValidateSearchQuery(raw)
    case Some(message) => Failure(AppError(400, message))
    case None => SearchEventsAsWritten(t, ParseSearchQuery(raw), now, dist, ordered)
  }
}
