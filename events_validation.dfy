/**
 * `validateCreateEvent` and `validateUpdateEvent` (`events/events.validation.ts`):
 * ordered checks over a JSON request body that report the first failure.
 * `jsDate` is `new Date(value)`, `None` standing for an invalid date.
 */
module EventsValidation {
  import opened Wrappers
  import opened Text
  import opened Json
  import opened Schema

  const TitleRequired: string := "title is required"
  const LatRequired: string := "lat (number) is required"
  const LngRequired: string := "lng (number) is required"
  const LatRange: string := "lat must be between -90 and 90"
  const LngRange: string := "lng must be between -180 and 180"
  const StartRequired: string := "start_time (ISO-8601) is required"
  const EndRequired: string := "end_time (ISO-8601) is required"
  const StartInvalid: string := "start_time is not a valid date"
  const EndInvalid: string := "end_time is not a valid date"
  const EndNotAfterStart: string := "end_time must be after start_time"
  const NothingToUpdate: string := "At least one field must be provided for update"
  const LatNotNumber: string := "lat must be a number"
  const LngNotNumber: string := "lng must be a number"

  type DateParser = Value -> Option<Instant>

  /** A string title that is not blank: `title.trim() !== ''`. */
  predicate TitleOk(v: Value) {
    v.Str? && !IsBlank(v.s)
  }

  predicate InRange(v: Value, lo: real, hi: real) {
    v.Number? && lo <= v.x <= hi
  }

  /** A truthy string. */
  predicate TimeGiven(v: Value) {
    v.Str? && v.s != ""
  }

  /** The two times parse and the end is strictly later. */
  predicate TimesOrdered(start: Value, end: Value, jsDate: DateParser) {
    jsDate(start).Some? && jsDate(end).Some? && jsDate(end).value > jsDate(start).value
  }

  /** What `validateCreateEvent` accepts, stated without the order of its checks. */
  predicate AcceptableCreate(b: Body, jsDate: DateParser) {
    && TitleOk(Field(b, "title"))
    && InRange(Field(b, "lat"), -90.0, 90.0)
    && InRange(Field(b, "lng"), -180.0, 180.0)
    && TimeGiven(Field(b, "start_time")) && TimeGiven(Field(b, "end_time"))
    && TimesOrdered(Field(b, "start_time"), Field(b, "end_time"), jsDate)
  }

  /** `validateCreateEvent`: the first failing check's message, or `None` (`null`). */
  function ValidateCreateEvent(b: Body, jsDate: DateParser): (r: Option<string>)
    ensures r.None? <==> AcceptableCreate(b, jsDate)
    ensures r == Some(TitleRequired) <==> !TitleOk(Field(b, "title"))
    ensures r == Some(LatRequired) <==> TitleOk(Field(b, "title")) && !Field(b, "lat").Number?
    ensures r == Some(LngRequired) <==>
      TitleOk(Field(b, "title")) && Field(b, "lat").Number? && !Field(b, "lng").Number?
  {
    var title, lat, lng := Field(b, "title"), Field(b, "lat"), Field(b, "lng");
    var startTime, endTime := Field(b, "start_time"), Field(b, "end_time");
    if !Truthy(title) || !title.Str? || IsBlank(title.s) then Some(TitleRequired)
    else if lat.Undefined? || lat.Null? || !lat.Number? then Some(LatRequired)
    else if lng.Undefined? || lng.Null? || !lng.Number? then Some(LngRequired)
    else if lat.x < -90.0 || lat.x > 90.0 then Some(LatRange)
    else if lng.x < -180.0 || lng.x > 180.0 then Some(LngRange)
    else if !Truthy(startTime) || !startTime.Str? then Some(StartRequired)
    else if !Truthy(endTime) || !endTime.Str? then Some(EndRequired)
    else if jsDate(startTime).None? then Some(StartInvalid)
    else if jsDate(endTime).None? then Some(EndInvalid)
    else if jsDate(endTime).value <= jsDate(startTime).value then Some(EndNotAfterStart)
    else None
  }

  /** The latitude-range message, with the exact inputs that produce it. */
  lemma CreateLatRangeMessage(b: Body, jsDate: DateParser, r: Option<string>)
    requires r == ValidateCreateEvent(b, jsDate)
    ensures r == Some(LatRange) <==>
      TitleOk(Field(b, "title")) && Field(b, "lat").Number? && Field(b, "lng").Number? && !InRange(Field(b, "lat"), -90.0, 90.0)
  {
  }

  /** The longitude-range message, with the exact inputs that produce it. */
  lemma CreateLngRangeMessage(b: Body, jsDate: DateParser, r: Option<string>)
    requires r == ValidateCreateEvent(b, jsDate)
    ensures r == Some(LngRange) <==>
      TitleOk(Field(b, "title")) && InRange(Field(b, "lat"), -90.0, 90.0) && Field(b, "lng").Number?
      && !InRange(Field(b, "lng"), -180.0, 180.0)
  {
  }

  /** The message for a missing start time, with the exact inputs that produce it. */
  lemma CreateStartRequiredMessage(b: Body, jsDate: DateParser, r: Option<string>)
    requires r == ValidateCreateEvent(b, jsDate)
    ensures r == Some(StartRequired) <==>
      TitleOk(Field(b, "title")) && InRange(Field(b, "lat"), -90.0, 90.0) && InRange(Field(b, "lng"), -180.0, 180.0)
      && !TimeGiven(Field(b, "start_time"))
  {
  }

  /** The message for a missing end time, with the exact inputs that produce it. */
  lemma CreateEndRequiredMessage(b: Body, jsDate: DateParser, r: Option<string>)
    requires r == ValidateCreateEvent(b, jsDate)
    ensures r == Some(EndRequired) <==>
      TitleOk(Field(b, "title")) && InRange(Field(b, "lat"), -90.0, 90.0) && InRange(Field(b, "lng"), -180.0, 180.0)
      && TimeGiven(Field(b, "start_time")) && !TimeGiven(Field(b, "end_time"))
  {
  }

  /** The message for an unparsable start time, with the exact inputs that produce it. */
  lemma CreateStartInvalidMessage(b: Body, jsDate: DateParser, r: Option<string>)
    requires r == ValidateCreateEvent(b, jsDate)
    ensures r == Some(StartInvalid) <==>
      TitleOk(Field(b, "title")) && InRange(Field(b, "lat"), -90.0, 90.0) && InRange(Field(b, "lng"), -180.0, 180.0)
      && TimeGiven(Field(b, "start_time")) && TimeGiven(Field(b, "end_time")) && jsDate(Field(b, "start_time")).None?
  {
  }

  /** The message for an unparsable end time, with the exact inputs that produce it. */
  lemma CreateEndInvalidMessage(b: Body, jsDate: DateParser, r: Option<string>)
    requires r == ValidateCreateEvent(b, jsDate)
    ensures r == Some(EndInvalid) <==>
      TitleOk(Field(b, "title")) && InRange(Field(b, "lat"), -90.0, 90.0) && InRange(Field(b, "lng"), -180.0, 180.0)
      && TimeGiven(Field(b, "start_time")) && TimeGiven(Field(b, "end_time"))
      && jsDate(Field(b, "start_time")).Some? && jsDate(Field(b, "end_time")).None?
  {
  }

  /** The message for an end time not after the start, with the exact inputs that produce it. */
  lemma CreateEndNotAfterStartMessage(b: Body, jsDate: DateParser, r: Option<string>)
    requires r == ValidateCreateEvent(b, jsDate)
    ensures r == Some(EndNotAfterStart) <==>
      TitleOk(Field(b, "title")) && InRange(Field(b, "lat"), -90.0, 90.0) && InRange(Field(b, "lng"), -180.0, 180.0)
      && TimeGiven(Field(b, "start_time")) && TimeGiven(Field(b, "end_time"))
      && jsDate(Field(b, "start_time")).Some? && jsDate(Field(b, "end_time")).Some?
      && jsDate(Field(b, "end_time")).value <= jsDate(Field(b, "start_time")).value
  {
  }

  /** A title whose trim is empty is refused. */
  lemma BlankTitleRefused(b: Body, jsDate: DateParser)
    requires Field(b, "title").Str? && Trim(Field(b, "title").s) == []
    ensures ValidateCreateEvent(b, jsDate) == Some(TitleRequired)
  {
    TrimEmpty(Field(b, "title").s);
  }

  /** `allowedKeys`: the body has at least one of them. */
  predicate HasAllowedKey(b: Body) {
    "title" in b || "description" in b || "lat" in b || "lng" in b || "start_time" in b || "end_time" in b
  }

  /** Absent, or a number in range. */
  predicate OptionalInRange(v: Value, lo: real, hi: real) {
    v.Undefined? || InRange(v, lo, hi)
  }

  /** What `validateUpdateEvent` accepts, stated without the order of its checks. */
  predicate AcceptableUpdate(b: Body, jsDate: DateParser) {
    && HasAllowedKey(b)
    && OptionalInRange(Field(b, "lat"), -90.0, 90.0)
    && OptionalInRange(Field(b, "lng"), -180.0, 180.0)
    && (Truthy(Field(b, "start_time")) && Truthy(Field(b, "end_time")) ==>
          TimesOrdered(Field(b, "start_time"), Field(b, "end_time"), jsDate))
  }

  /** `validateUpdateEvent`: the first failing check's message, or `None` (`null`). */
  function ValidateUpdateEvent(b: Body, jsDate: DateParser): (r: Option<string>)
    ensures r.None? <==> AcceptableUpdate(b, jsDate)
    ensures r == Some(NothingToUpdate) <==> !HasAllowedKey(b)
    ensures r == Some(LatNotNumber) <==> HasAllowedKey(b) && !Field(b, "lat").Undefined? && !Field(b, "lat").Number?
    ensures r == Some(LngNotNumber) <==>
      HasAllowedKey(b) && (Field(b, "lat").Undefined? || Field(b, "lat").Number?)
      && !Field(b, "lng").Undefined? && !Field(b, "lng").Number?
    ensures r == Some(LatRange) <==>
      HasAllowedKey(b) && Field(b, "lat").Number? && (Field(b, "lng").Undefined? || Field(b, "lng").Number?)
      && !InRange(Field(b, "lat"), -90.0, 90.0)
    ensures r == Some(LngRange) <==>
      HasAllowedKey(b) && OptionalInRange(Field(b, "lat"), -90.0, 90.0) && Field(b, "lng").Number?
      && !InRange(Field(b, "lng"), -180.0, 180.0)
    ensures r == Some(StartInvalid) || r == Some(EndInvalid) || r == Some(EndNotAfterStart) ==>
      Truthy(Field(b, "start_time")) && Truthy(Field(b, "end_time"))
    ensures !(Truthy(Field(b, "start_time")) && Truthy(Field(b, "end_time"))) ==>
      (r.None? <==> HasAllowedKey(b) && OptionalInRange(Field(b, "lat"), -90.0, 90.0) && OptionalInRange(Field(b, "lng"), -180.0, 180.0))
  {
    var lat, lng := Field(b, "lat"), Field(b, "lng");
    var startTime, endTime := Field(b, "start_time"), Field(b, "end_time");
    if !HasAllowedKey(b) then Some(NothingToUpdate)
    else if !lat.Undefined? && !lat.Number? then Some(LatNotNumber)
    else if !lng.Undefined? && !lng.Number? then Some(LngNotNumber)
    else if !lat.Undefined? && (lat.x < -90.0 || lat.x > 90.0) then Some(LatRange)
    else if !lng.Undefined? && (lng.x < -180.0 || lng.x > 180.0) then Some(LngRange)
    else if Truthy(startTime) && Truthy(endTime) then
      if jsDate(startTime).None? then Some(StartInvalid)
      else if jsDate(endTime).None? then Some(EndInvalid)
      else if jsDate(endTime).value <= jsDate(startTime).value then Some(EndNotAfterStart)
      else None
    else None
  }

  /** The update checks that come before the time checks pass. */
  predicate UpdateFieldsOk(b: Body) {
    HasAllowedKey(b) && OptionalInRange(Field(b, "lat"), -90.0, 90.0) && OptionalInRange(Field(b, "lng"), -180.0, 180.0)
  }

  /** The update's message for an unparsable start time, with the exact inputs that produce it. */
  lemma UpdateStartInvalidMessage(b: Body, jsDate: DateParser, r: Option<string>)
    requires r == ValidateUpdateEvent(b, jsDate)
    ensures r == Some(StartInvalid) <==>
      UpdateFieldsOk(b) && Truthy(Field(b, "start_time")) && Truthy(Field(b, "end_time"))
      && jsDate(Field(b, "start_time")).None?
  {
  }

  /** The update's message for an unparsable end time, with the exact inputs that produce it. */
  lemma UpdateEndInvalidMessage(b: Body, jsDate: DateParser, r: Option<string>)
    requires r == ValidateUpdateEvent(b, jsDate)
    ensures r == Some(EndInvalid) <==>
      UpdateFieldsOk(b) && Truthy(Field(b, "start_time")) && Truthy(Field(b, "end_time"))
      && jsDate(Field(b, "start_time")).Some? && jsDate(Field(b, "end_time")).None?
  {
  }

  /** The update's message for an end time not after the start, with the exact inputs that produce it. */
  lemma UpdateEndNotAfterStartMessage(b: Body, jsDate: DateParser, r: Option<string>)
    requires r == ValidateUpdateEvent(b, jsDate)
    ensures r == Some(EndNotAfterStart) <==>
      UpdateFieldsOk(b) && Truthy(Field(b, "start_time")) && Truthy(Field(b, "end_time"))
      && jsDate(Field(b, "start_time")).Some? && jsDate(Field(b, "end_time")).Some?
      && jsDate(Field(b, "end_time")).value <= jsDate(Field(b, "start_time")).value
  {
  }

  /** Keys outside the six allowed ones are neither required nor checked. */
  lemma UnknownKeysIgnored(b: Body, key: string, v: Value, jsDate: DateParser)
    requires key !in {"title", "description", "lat", "lng", "start_time", "end_time"}
    ensures ValidateUpdateEvent(b[key := v], jsDate) == ValidateUpdateEvent(b, jsDate)
  {
    assert forall k :: k != key ==> Field(b[key := v], k) == Field(b, k);
    assert HasAllowedKey(b[key := v]) == HasAllowedKey(b);
  }

  /** A body with only one of `lat`, `lng` passes: a single coordinate is allowed. */
  lemma SingleCoordinatePasses(jsDate: DateParser)
    ensures ValidateUpdateEvent(map["lat" := Number(10.0)], jsDate).None?
  {
  }

  /**
   * The time an update leaves in place: the stored one when the body does
   * not carry the field, the parsed body value otherwise.
   */
  function EffectiveTime(stored: Instant, v: Value, jsDate: DateParser): Option<Instant> {
    if v.Undefined? then Some(stored) else jsDate(v)
  }

  /**
   * Corrected `validateUpdateEvent`: the same checks, and then the time order
   * is checked on the times the row will have after the update, whichever of
   * the two the body supplies.
   */
  function ValidateUpdateAgainst(existing: Event, b: Body, jsDate: DateParser): (r: Option<string>)
    ensures r.None? <==>
      && ValidateUpdateEvent(b, jsDate).None?
      && EffectiveTime(existing.start, Field(b, "start_time"), jsDate).Some?
      && EffectiveTime(existing.end, Field(b, "end_time"), jsDate).Some?
      && EffectiveTime(existing.end, Field(b, "end_time"), jsDate).value
         > EffectiveTime(existing.start, Field(b, "start_time"), jsDate).value
    ensures ValidateUpdateEvent(b, jsDate).Some? ==> r == ValidateUpdateEvent(b, jsDate)
    ensures Truthy(Field(b, "start_time")) && Truthy(Field(b, "end_time")) ==> r == ValidateUpdateEvent(b, jsDate)
  {
    match ValidateUpdateEvent(b, jsDate)
    case Some(m) => Some(m)
    case None =>
      var start := EffectiveTime(existing.start, Field(b, "start_time"), jsDate);
      var end := EffectiveTime(existing.end, Field(b, "end_time"), jsDate);
      if start.None? then Some(StartInvalid)
      else if end.None? then Some(EndInvalid)
      else if end.value <= start.value then Some(EndNotAfterStart)
      else None
  }
}
