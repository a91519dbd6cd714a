/**
 * The web client's search hook (`hooks/useSearch.ts`): whether a search is
 * sent at all (`hasQuery`), and the query string it sends, built by
 * successive `URLSearchParams.set` calls. Every test is on JavaScript
 * truthiness, so a coordinate equal to 0 counts as absent.
 */
module SearchClient {
  import opened Wrappers
  import opened SearchValidation

  /** `SearchParams`; a JavaScript `NaN` is not represented. */
  datatype SearchParams = SearchParams(q: Option<string>, lat: Option<real>, lng: Option<real>, radiusKm: Option<real>)

  predicate TextTruthy(v: Option<string>) {
    v.Some? && v.value != ""
  }

  predicate NumTruthy(v: Option<real>) {
    v.Some? && v.value != 0.0
  }

  /** `!!(params.q || (params.lat && params.lng && params.radius_km))`: the query's `enabled`. */
  function HasQuery(p: SearchParams): (enabled: bool)
    ensures enabled <==> TextTruthy(p.q) || (NumTruthy(p.lat) && NumTruthy(p.lng) && NumTruthy(p.radiusKm))
  {
    (p.q.Some? && p.q.value != "") || (p.lat.Some? && p.lat.value != 0.0 && p.lng.Some? && p.lng.value != 0.0 && p.radiusKm.Some? && p.radiusKm.value != 0.0)
  }

  /** The names `useSearch` sets: `q`, `lat`, `lng`, `radius_km`. */
  datatype Key = QKey | LatKey | LngKey | RadiusKmKey

  function Name(k: Key): string {
    match k
    case QKey => "q"
    case LatKey => "lat"
    case LngKey => "lng"
    case RadiusKmKey => "radius_km"
  }

  /** A `URLSearchParams` list of name/value pairs. */
  type Entries = seq<(Key, string)>

  /** The names of a parameter list, in order. */
  function Keys(es: Entries): (r: seq<Key>)
    ensures |r| == |es| && forall i :: 0 <= i < |es| ==> r[i] == es[i].0
  {
    if es == [] then [] else [es[0].0] + Keys(es[1..])
  }

  /** `qs.get(key)`: the value of the first pair named `key`. */
  function Lookup(es: Entries, key: Key): Option<string> {
    if es == [] then None else if es[0].0 == key then Some(es[0].1) else Lookup(es[1..], key)
  }

  /** The pairs not named `key`. */
  function Without(es: Entries, key: Key): (r: Entries)
    ensures key !in Keys(r)
    ensures key !in Keys(es) ==> r == es
  {
    if es == [] then [] else if es[0].0 == key then Without(es[1..], key) else [es[0]] + Without(es[1..], key)
  }

  /**
   * `URLSearchParams.set(key, value)`: the first pair named `key` takes the
   * value and later ones are removed; without one, the pair is appended.
   */
  function SetEntry(es: Entries, key: Key, value: string): (r: Entries)
    ensures Lookup(r, key) == Some(value)
    ensures Without(r, key) == Without(es, key)
    ensures key !in Keys(es) ==> r == es + [(key, value)]
  {
    if es == [] then [(key, value)]
    else if es[0].0 == key then [(key, value)] + Without(es[1..], key)
    else [es[0]] + SetEntry(es[1..], key, value)
  }

  /** A `URLSearchParams` object. */
  class QueryString {
    var entries: Entries

    constructor ()
      ensures entries == []
    {
      entries := [];
    }

    method Set(key: Key, value: string)
      modifies this
      ensures entries == SetEntry(old(entries), key, value)
    {
      entries := SetEntry(entries, key, value);
    }
  }

  function SetIf(es: Entries, cond: bool, key: Key, value: string): Entries {
    if cond then SetEntry(es, key, value) else es
  }

  function ValueOf(v: Option<real>, show: real -> string): string {
    if v.Some? then show(v.value) else ""
  }

  /**
   * The list four conditional `qs.set` calls leave, setting each geo
   * parameter when its test holds; `show` is `String(number)`.
   */
  function Assemble(p: SearchParams, show: real -> string, latOn: bool, lngOn: bool, radiusOn: bool): Entries {
    var withQ := SetIf([], TextTruthy(p.q), QKey, if p.q.Some? then p.q.value else "");
    var withLat := SetIf(withQ, latOn, LatKey, ValueOf(p.lat, show));
    var withLng := SetIf(withLat, lngOn, LngKey, ValueOf(p.lng, show));
    SetIf(withLng, radiusOn, RadiusKmKey, ValueOf(p.radiusKm, show))
  }

  /** The parameters `useSearch` sends: each is set only when truthy. */
  function QueryEntries(p: SearchParams, show: real -> string): Entries {
    Assemble(p, show, NumTruthy(p.lat), NumTruthy(p.lng), NumTruthy(p.radiusKm))
  }

  /** The pair `set` adds when `cond` holds. */
  function Part(cond: bool, key: Key, value: string): Entries {
    if cond then [(key, value)] else []
  }

  lemma {:induction false} KeysAppend(a: Entries, b: Entries)
    ensures Keys(a + b) == Keys(a) + Keys(b)
  {
    assert forall i :: 0 <= i < |a + b| ==> Keys(a + b)[i] == (Keys(a) + Keys(b))[i];
  }

  lemma {:induction false} LookupConcat(a: Entries, b: Entries, key: Key)
    ensures Lookup(a + b, key) == if key in Keys(a) then Lookup(a, key) else Lookup(b, key)
  {
    if a == [] {
      assert a + b == b;
    } else {
      assert (a + b)[1..] == a[1..] + b;
      assert Keys(a) == [a[0].0] + Keys(a[1..]);
      LookupConcat(a[1..], b, key);
    }
  }

  lemma PartFacts(cond: bool, k: Key, v: string, key: Key)
    ensures Keys(Part(cond, k, v)) == (if cond then [k] else [])
    ensures key in Keys(Part(cond, k, v)) <==> cond && k == key
    ensures Lookup(Part(cond, k, v), key) == if cond && k == key then Some(v) else None
  {
  }

  lemma Lookup4(p1: Entries, p2: Entries, p3: Entries, p4: Entries, key: Key)
    ensures Lookup(p1 + p2 + p3 + p4, key) ==
      if key in Keys(p1) then Lookup(p1, key)
      else if key in Keys(p2) then Lookup(p2, key)
      else if key in Keys(p3) then Lookup(p3, key)
      else Lookup(p4, key)
  {
    LookupConcat(p1 + p2 + p3, p4, key);
    LookupConcat(p1 + p2, p3, key);
    LookupConcat(p1, p2, key);
    KeysAppend(p1, p2);
    KeysAppend(p1 + p2, p3);
  }

  /** Setting a key not yet present appends it. */
  lemma SetIfFresh(es: Entries, cond: bool, key: Key, value: string)
    requires key !in Keys(es)
    ensures SetIf(es, cond, key, value) == es + Part(cond, key, value)
  {
  }

  /** A lookup in four single-pair-or-empty parts with distinct names. */
  lemma LookupParts(c1: bool, v1: string, c2: bool, v2: string, c3: bool, v3: string, c4: bool, v4: string, key: Key)
    ensures Lookup(Part(c1, QKey, v1) + Part(c2, LatKey, v2) + Part(c3, LngKey, v3) + Part(c4, RadiusKmKey, v4), key) ==
      if c1 && key == QKey then Some(v1)
      else if c2 && key == LatKey then Some(v2)
      else if c3 && key == LngKey then Some(v3)
      else if c4 && key == RadiusKmKey then Some(v4)
      else None
  {
    Lookup4(Part(c1, QKey, v1), Part(c2, LatKey, v2), Part(c3, LngKey, v3), Part(c4, RadiusKmKey, v4), key);
    PartFacts(c1, QKey, v1, key);
    PartFacts(c2, LatKey, v2, key);
    PartFacts(c3, LngKey, v3, key);
    PartFacts(c4, RadiusKmKey, v4, key);
  }

  lemma KeysParts(c1: bool, v1: string, c2: bool, v2: string, c3: bool, v3: string, c4: bool, v4: string)
    ensures Keys(Part(c1, QKey, v1) + Part(c2, LatKey, v2) + Part(c3, LngKey, v3) + Part(c4, RadiusKmKey, v4))
         == Keys(Part(c1, QKey, "")) + Keys(Part(c2, LatKey, "")) + Keys(Part(c3, LngKey, "")) + Keys(Part(c4, RadiusKmKey, ""))
  {
    var p1, p2, p3, p4 := Part(c1, QKey, v1), Part(c2, LatKey, v2), Part(c3, LngKey, v3), Part(c4, RadiusKmKey, v4);
    KeysAppend(p1, p2);
    KeysAppend(p1 + p2, p3);
    KeysAppend(p1 + p2 + p3, p4);
  }

  lemma AssembleKeys(p: SearchParams, show: real -> string, latOn: bool, lngOn: bool, radiusOn: bool)
    ensures Keys(Assemble(p, show, latOn, lngOn, radiusOn))
         == Keys(Part(TextTruthy(p.q), QKey, "")) + Keys(Part(latOn, LatKey, ""))
          + Keys(Part(lngOn, LngKey, "")) + Keys(Part(radiusOn, RadiusKmKey, ""))
  {
    AssembleIsParts(p, show, latOn, lngOn, radiusOn);
    KeysParts(TextTruthy(p.q), if p.q.Some? then p.q.value else "", latOn, ValueOf(p.lat, show),
      lngOn, ValueOf(p.lng, show), radiusOn, ValueOf(p.radiusKm, show));
  }

  lemma AssembleLookup(p: SearchParams, show: real -> string, latOn: bool, lngOn: bool, radiusOn: bool, key: Key)
    ensures Lookup(Assemble(p, show, latOn, lngOn, radiusOn), key) ==
      if TextTruthy(p.q) && key == QKey then Some(p.q.value)
      else if latOn && key == LatKey then Some(ValueOf(p.lat, show))
      else if lngOn && key == LngKey then Some(ValueOf(p.lng, show))
      else if radiusOn && key == RadiusKmKey then Some(ValueOf(p.radiusKm, show))
      else None
  {
    AssembleIsParts(p, show, latOn, lngOn, radiusOn);
    LookupParts(TextTruthy(p.q), if p.q.Some? then p.q.value else "", latOn, ValueOf(p.lat, show),
      lngOn, ValueOf(p.lng, show), radiusOn, ValueOf(p.radiusKm, show), key);
  }

  /** The parameters are set in the order q, lat, lng, radius_km, each once, when its test holds. */
  lemma AssembleShape(p: SearchParams, show: real -> string, latOn: bool, lngOn: bool, radiusOn: bool)
    ensures var es := Assemble(p, show, latOn, lngOn, radiusOn);
      && Keys(es) == Keys(Part(TextTruthy(p.q), QKey, "")) + Keys(Part(latOn, LatKey, ""))
                   + Keys(Part(lngOn, LngKey, "")) + Keys(Part(radiusOn, RadiusKmKey, ""))
      && Lookup(es, QKey) == (if TextTruthy(p.q) then Some(p.q.value) else None)
      && Lookup(es, LatKey) == (if latOn then Some(ValueOf(p.lat, show)) else None)
      && Lookup(es, LngKey) == (if lngOn then Some(ValueOf(p.lng, show)) else None)
      && Lookup(es, RadiusKmKey) == (if radiusOn then Some(ValueOf(p.radiusKm, show)) else None)
  {
    AssembleKeys(p, show, latOn, lngOn, radiusOn);
    AssembleLookup(p, show, latOn, lngOn, radiusOn, QKey);
    AssembleLookup(p, show, latOn, lngOn, radiusOn, LatKey);
    AssembleLookup(p, show, latOn, lngOn, radiusOn, LngKey);
    AssembleLookup(p, show, latOn, lngOn, radiusOn, RadiusKmKey);
  }

  /** The first pair, set on the empty list. */
  function FirstPart(p: SearchParams): Entries {
    Part(TextTruthy(p.q), QKey, if p.q.Some? then p.q.value else "")
  }

  lemma TwoParts(p: SearchParams, show: real -> string, latOn: bool)
    ensures SetIf(SetIf([], TextTruthy(p.q), QKey, if p.q.Some? then p.q.value else ""), latOn, LatKey, ValueOf(p.lat, show))
         == FirstPart(p) + Part(latOn, LatKey, ValueOf(p.lat, show))
    ensures Keys(FirstPart(p) + Part(latOn, LatKey, ValueOf(p.lat, show))) == Keys(FirstPart(p)) + (if latOn then [LatKey] else [])
    ensures Keys(FirstPart(p)) == (if TextTruthy(p.q) then [QKey] else [])
  {
    var p1 := FirstPart(p);
    assert SetIf([], TextTruthy(p.q), QKey, if p.q.Some? then p.q.value else "") == p1;
    SetIfFresh(p1, latOn, LatKey, ValueOf(p.lat, show));
    KeysAppend(p1, Part(latOn, LatKey, ValueOf(p.lat, show)));
  }

  /** Neither `lng` nor `radius_km` is among the pairs set before it. */
  lemma LaterKeysFresh(p: SearchParams, show: real -> string, latOn: bool, lngOn: bool)
    ensures LngKey !in Keys(FirstPart(p) + Part(latOn, LatKey, ValueOf(p.lat, show)))
    ensures RadiusKmKey !in Keys(FirstPart(p) + Part(latOn, LatKey, ValueOf(p.lat, show)) + Part(lngOn, LngKey, ValueOf(p.lng, show)))
  {
    var p12 := FirstPart(p) + Part(latOn, LatKey, ValueOf(p.lat, show));
    TwoParts(p, show, latOn);
    assert LngKey !in Keys(p12) && RadiusKmKey !in Keys(p12);
    KeysAppend(p12, Part(lngOn, LngKey, ValueOf(p.lng, show)));
    PartFacts(lngOn, LngKey, ValueOf(p.lng, show), RadiusKmKey);
  }

  lemma AssembleIsParts(p: SearchParams, show: real -> string, latOn: bool, lngOn: bool, radiusOn: bool)
    ensures Assemble(p, show, latOn, lngOn, radiusOn)
         == FirstPart(p)
          + Part(latOn, LatKey, ValueOf(p.lat, show))
          + Part(lngOn, LngKey, ValueOf(p.lng, show))
          + Part(radiusOn, RadiusKmKey, ValueOf(p.radiusKm, show))
  {
    var p12 := FirstPart(p) + Part(latOn, LatKey, ValueOf(p.lat, show));
    var p3 := Part(lngOn, LngKey, ValueOf(p.lng, show));
    TwoParts(p, show, latOn);
    LaterKeysFresh(p, show, latOn, lngOn);
    SetIfFresh(p12, lngOn, LngKey, ValueOf(p.lng, show));
    SetIfFresh(p12 + p3, radiusOn, RadiusKmKey, ValueOf(p.radiusKm, show));
  }

  /**
   * `useSearch` sends `q`, `lat`, `lng`, `radius_km` in that order, each
   * once and only when truthy, each with its own value.
   */
  lemma QueryEntriesShape(p: SearchParams, show: real -> string)
    ensures var es := QueryEntries(p, show);
      && Keys(es) == Keys(Part(TextTruthy(p.q), QKey, "")) + Keys(Part(NumTruthy(p.lat), LatKey, ""))
                   + Keys(Part(NumTruthy(p.lng), LngKey, "")) + Keys(Part(NumTruthy(p.radiusKm), RadiusKmKey, ""))
      && Lookup(es, QKey) == (if TextTruthy(p.q) then Some(p.q.value) else None)
      && Lookup(es, LatKey) == (if NumTruthy(p.lat) then Some(show(p.lat.value)) else None)
      && Lookup(es, LngKey) == (if NumTruthy(p.lng) then Some(show(p.lng.value)) else None)
      && Lookup(es, RadiusKmKey) == (if NumTruthy(p.radiusKm) then Some(show(p.radiusKm.value)) else None)
  {
    AssembleShape(p, show, NumTruthy(p.lat), NumTruthy(p.lng), NumTruthy(p.radiusKm));
  }

  /** `useSearch`'s query-string assembly. */
  method BuildQueryString(p: SearchParams, show: real -> string) returns (es: Entries)
    ensures es == QueryEntries(p, show)
  {
    var qs := new QueryString();
    if p.q.Some? && p.q.value != "" {
      qs.Set(QKey, p.q.value);
    }
    if p.lat.Some? && p.lat.value != 0.0 {
      qs.Set(LatKey, show(p.lat.value));
    }
    if p.lng.Some? && p.lng.value != 0.0 {
      qs.Set(LngKey, show(p.lng.value));
    }
    if p.radiusKm.Some? && p.radiusKm.value != 0.0 {
      qs.Set(RadiusKmKey, show(p.radiusKm.value));
    }
    es := qs.entries;
  }

  /**
   * `Number(String(x)) === x` at one value `x`: the server's `Number` reads
   * back what the client's `String` wrote. The law is stated per value,
   * since no `show` from the reals into strings could be one-to-one.
   */
  ghost predicate RoundTripsAt(show: real -> string, parse: string -> NumParam, x: real) {
    parse(show(x)) == Num(x)
  }

  /** The round trip holds at every number the client has to send. */
  ghost predicate RoundTripsFor(show: real -> string, parse: string -> NumParam, p: SearchParams) {
    && (p.lat.Some? ==> RoundTripsAt(show, parse, p.lat.value))
    && (p.lng.Some? ==> RoundTripsAt(show, parse, p.lng.value))
    && (p.radiusKm.Some? ==> RoundTripsAt(show, parse, p.radiusKm.value))
  }

  /** For any parameters, some `String`/`Number` pair round-trips all their numbers. */
  lemma RoundTripsForSomeCodec(p: SearchParams)
    ensures exists show: real -> string, parse: string -> NumParam :: RoundTripsFor(show, parse, p)
  {
    var a := if p.lat.Some? then p.lat.value else 0.0;
    var b := if p.lng.Some? then p.lng.value else 0.0;
    var c := if p.radiusKm.Some? then p.radiusKm.value else 0.0;
    var show := (x: real) => if x == a then "a" else if x == b then "b" else "c";
    var parse := (v: string) => if v == "a" then Num(a) else if v == "b" then Num(b) else Num(c);
    assert RoundTripsFor(show, parse, p);
  }

  function NumEntry(es: Entries, key: Key, parse: string -> NumParam): NumParam {
    match Lookup(es, key)
    case None => Absent
    case Some(v) => parse(v)
  }

  /** The raw query the server reads from `/search?` followed by `es`. */
  function ReceivedQuery(es: Entries, parse: string -> NumParam): RawSearch {
    RawSearch(
      match Lookup(es, QKey) case None => NoText case Some(v) => Text(v),
      NumEntry(es, LatKey, parse), NumEntry(es, LngKey, parse), NumEntry(es, RadiusKmKey, parse))
  }

  /**
   * As written, a search for "rock" at latitude 0 drops `lat` from the
   * query string while sending `lng` and `radius_km`, and the server
   * rejects it for the missing latitude.
   */
  lemma ZeroLatitudeRejected(show: real -> string, parse: string -> NumParam)
    requires RoundTripsAt(show, parse, 10.0) && RoundTripsAt(show, parse, 5.0)
    ensures var p := SearchParams(Some("rock"), Some(0.0), Some(10.0), Some(5.0));
      && HasQuery(p)
      && ValidateSearchQuery(ReceivedQuery(QueryEntries(p, show), parse)) == Some(LatRequired)
  {
    var p := SearchParams(Some("rock"), Some(0.0), Some(10.0), Some(5.0));
    QueryEntriesShape(p, show);
    assert parse(show(10.0)) == Num(10.0) && parse(show(5.0)) == Num(5.0);
  }

  /** Presence tests instead of truthiness: `params.lat !== undefined` and so on. */
  function QueryEntriesDefined(p: SearchParams, show: real -> string): Entries {
    Assemble(p, show, p.lat.Some?, p.lng.Some?, p.radiusKm.Some?)
  }

  /** The server receives exactly the parameters the client has, zeros included. */
  lemma DefinedEntriesReceived(p: SearchParams, show: real -> string, parse: string -> NumParam)
    requires RoundTripsFor(show, parse, p)
    ensures var raw := ReceivedQuery(QueryEntriesDefined(p, show), parse);
      && raw.q == (if TextTruthy(p.q) then Text(p.q.value) else NoText)
      && raw.lat == (if p.lat.Some? then Num(p.lat.value) else Absent)
      && raw.lng == (if p.lng.Some? then Num(p.lng.value) else Absent)
      && raw.radiusKm == (if p.radiusKm.Some? then Num(p.radiusKm.value) else Absent)
  {
    AssembleShape(p, show, p.lat.Some?, p.lng.Some?, p.radiusKm.Some?);
  }

  /**
   * With presence tests, any coordinates and radius inside the server's
   * ranges, zeros included, reach the server as a valid geo search.
   */
  lemma DefinedGeoAccepted(p: SearchParams, show: real -> string, parse: string -> NumParam)
    requires RoundTripsFor(show, parse, p)
    requires p.lat.Some? && p.lng.Some? && p.radiusKm.Some?
    requires -90.0 <= p.lat.value <= 90.0 && -180.0 <= p.lng.value <= 180.0 && 1.0 <= p.radiusKm.value <= 100.0
    ensures ValidateSearchQuery(ReceivedQuery(QueryEntriesDefined(p, show), parse)).None?
  {
    DefinedEntriesReceived(p, show, parse);
    var raw := ReceivedQuery(QueryEntriesDefined(p, show), parse);
    assert raw.lat == Num(p.lat.value) && raw.lng == Num(p.lng.value) && raw.radiusKm == Num(p.radiusKm.value);
    assert HasGeo(raw) && GeoValid(raw) && !raw.q.NonString?;
  }
}
