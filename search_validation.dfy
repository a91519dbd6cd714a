/**
 * `validateSearchQuery` and `parseSearchQuery` (`search/search.validation.ts`):
 * an ordered chain of checks over the raw query parameters that reports the
 * first failure, and the conversion of the raw parameters into a `SearchQuery`.
 */
module SearchValidation {
  import opened Wrappers
  import opened Text

  /**
   * A numeric query parameter after `raw.x !== undefined ? Number(raw.x) : undefined`:
   * absent, `NaN`, or a number.
   */
  datatype NumParam = Absent | NotANumber | Num(x: real)

  /**
   * The raw `q`: absent, a string, or something else (an array or an object
   * from a repeated or nested parameter), shown by the string `String(q)` makes of it.
   */
  datatype TextParam = NoText | Text(s: string) | NonString(asString: string)

  datatype RawSearch = RawSearch(q: TextParam, lat: NumParam, lng: NumParam, radiusKm: NumParam)

  /** `SearchQuery`: the text is trimmed; the numbers are passed on as `Number` made them. */
  datatype SearchQuery = SearchQuery(q: Option<string>, lat: NumParam, lng: NumParam, radiusKm: NumParam)

  const LatRequired: string := "lat (number) is required for geo search"
  const LngRequired: string := "lng (number) is required for geo search"
  const RadiusRequired: string := "radius_km is required for geo search"
  const LatRange: string := "lat must be between -90 and 90"
  const LngRange: string := "lng must be between -180 and 180"
  const RadiusRange: string := "radius_km must be between 1 and 100"
  const QNotString: string := "q must be a string"
  const NothingToSearch: string := "Provide at least a text query (q) or geo params (lat, lng, radius_km)"

  /** `lat !== undefined || lng !== undefined || radius_km !== undefined`. */
  predicate HasGeo(raw: RawSearch) {
    !raw.lat.Absent? || !raw.lng.Absent? || !raw.radiusKm.Absent?
  }

  /** JavaScript truthiness of `raw.q`: a non-empty string, or any array or object. */
  predicate QTruthy(q: TextParam) {
    (q.Text? && q.s != "") || q.NonString?
  }

  predicate InRange(n: NumParam, lo: real, hi: real) {
    n.Num? && lo <= n.x <= hi
  }

  /** The geo parameters are all present, numeric and inside their inclusive ranges. */
  predicate GeoValid(raw: RawSearch) {
    InRange(raw.lat, -90.0, 90.0) && InRange(raw.lng, -180.0, 180.0) && InRange(raw.radiusKm, 1.0, 100.0)
  }

  /** What the checks accept, stated without their order. */
  predicate AcceptableSearch(raw: RawSearch) {
    && (HasGeo(raw) ==> GeoValid(raw))
    && !raw.q.NonString?
    && (QTruthy(raw.q) || HasGeo(raw))
  }

  /** `validateSearchQuery`: the first failing check's message, or `None` (`null`). */
  function ValidateSearchQuery(raw: RawSearch): (r: Option<string>)
    ensures r.None? <==> AcceptableSearch(raw)
    ensures r == Some(LatRequired) <==> HasGeo(raw) && !raw.lat.Num?
    ensures r == Some(LngRequired) <==> HasGeo(raw) && raw.lat.Num? && !raw.lng.Num?
    ensures r == Some(RadiusRequired) <==> HasGeo(raw) && raw.lat.Num? && raw.lng.Num? && !raw.radiusKm.Num?
    ensures r == Some(LatRange) <==>
      raw.lat.Num? && raw.lng.Num? && raw.radiusKm.Num? && !InRange(raw.lat, -90.0, 90.0)
    ensures r == Some(LngRange) <==>
      raw.lat.Num? && raw.lng.Num? && raw.radiusKm.Num? && InRange(raw.lat, -90.0, 90.0) && !InRange(raw.lng, -180.0, 180.0)
    ensures r == Some(RadiusRange) <==>
      InRange(raw.lat, -90.0, 90.0) && InRange(raw.lng, -180.0, 180.0) && raw.radiusKm.Num? && !InRange(raw.radiusKm, 1.0, 100.0)
    ensures r == Some(QNotString) <==> (HasGeo(raw) ==> GeoValid(raw)) && raw.q.NonString?
    ensures r == Some(NothingToSearch) <==> !HasGeo(raw) && !QTruthy(raw.q) && !raw.q.NonString?
  {
    if HasGeo(raw) && !raw.lat.Num? then Some(LatRequired)
    else if HasGeo(raw) && !raw.lng.Num? then Some(LngRequired)
    else if HasGeo(raw) && !raw.radiusKm.Num? then Some(RadiusRequired)
    else if HasGeo(raw) && (raw.lat.x < -90.0 || raw.lat.x > 90.0) then Some(LatRange)
    else if HasGeo(raw) && (raw.lng.x < -180.0 || raw.lng.x > 180.0) then Some(LngRange)
    else if HasGeo(raw) && (raw.radiusKm.x < 1.0 || raw.radiusKm.x > 100.0) then Some(RadiusRange)
    else if !raw.q.NoText? && !raw.q.Text? then Some(QNotString)
    else if !QTruthy(raw.q) && !HasGeo(raw) then Some(NothingToSearch)
    else None
  }

  /** `String(raw.q)`. */
  function QText(q: TextParam): string {
    match q
    case NoText => "undefined"
    case Text(s) => s
    case NonString(asString) => asString
  }

  /** `parseSearchQuery`. */
  function ParseSearchQuery(raw: RawSearch): (r: SearchQuery)
    ensures r.q.Some? <==> QTruthy(raw.q)
    ensures raw.q.Text? && raw.q.s != "" ==> r.q == Some(Trim(raw.q.s))
    ensures r.lat == raw.lat && r.lng == raw.lng && r.radiusKm == raw.radiusKm
  {
    SearchQuery(if QTruthy(raw.q) then Some(Trim(QText(raw.q))) else None, raw.lat, raw.lng, raw.radiusKm)
  }

  /** `lat !== undefined && lng !== undefined && radius_km !== undefined`, the service's test. */
  predicate GeoOn(query: SearchQuery) {
    !query.lat.Absent? && !query.lng.Absent? && !query.radiusKm.Absent?
  }

  /**
   * After a successful validation the parsed query has all three geo fields,
   * numeric and in range, or none of them.
   */
  lemma ValidatedGeoAllOrNone(raw: RawSearch)
    requires ValidateSearchQuery(raw).None?
    ensures var query := ParseSearchQuery(raw);
      || (query.lat.Absent? && query.lng.Absent? && query.radiusKm.Absent? && !GeoOn(query))
      || (GeoOn(query) && GeoValid(raw))
  {
  }

  /**
   * The checks look at `raw.q` before it is trimmed, so a whitespace-only
   * `q` without geo parameters is accepted although it parses to "".
   */
  lemma WhitespaceQueryAccepted(s: string)
    requires s != [] && forall i :: 0 <= i < |s| ==> IsSpace(s[i])
    ensures var raw := RawSearch(Text(s), Absent, Absent, Absent);
      && ValidateSearchQuery(raw).None?
      && ParseSearchQuery(raw).q == Some("")
      && !GeoOn(ParseSearchQuery(raw))
  {
    TrimEmpty(s);
  }

  /** A text query that is non-empty once trimmed. */
  predicate QTruthyTrimmed(q: TextParam) {
    q.Text? && Trim(q.s) != ""
  }

  /** `validateSearchQuery` with the last check made on the trimmed `q`. */
  function ValidateSearchQueryTrimmed(raw: RawSearch): (r: Option<string>)
    ensures r.None? ==> ValidateSearchQuery(raw).None?
    ensures r != ValidateSearchQuery(raw) <==>
      !HasGeo(raw) && raw.q.Text? && raw.q.s != "" && Trim(raw.q.s) == ""
  {
    var r := ValidateSearchQuery(raw);
    if r.None? && !HasGeo(raw) && !QTruthyTrimmed(raw.q) then Some(NothingToSearch) else r
  }

  /**
   * With the corrected check, an accepted query always reaches the
   * service with a non-empty text or with the geo filter switched on.
   */
  lemma TrimmedValidationGivesFilter(raw: RawSearch)
    requires ValidateSearchQueryTrimmed(raw).None?
    ensures var query := ParseSearchQuery(raw);
      (query.q.Some? && query.q.value != "") || (GeoOn(query) && GeoValid(raw))
  {
  }
}
