/**
 * Event CRUD on the `events` table (`events/events.service.ts`): creation,
 * the detail view, the owner-only update built as a dynamic `SET` list with
 * a running `$n` counter, and the owner-only delete.
 *
 * `pgTime` is PostgreSQL's `timestamptz` input conversion of the ISO-8601
 * strings the service binds, `None` standing for a value it refuses.
 */
module EventsService {
  import opened Wrappers
  import opened Text
  import opened Json
  import opened Schema
  import opened Ordering
  import opened EventsValidation

  const NotFound: string := "Event not found"
  const NotOwner: string := "Forbidden: you are not the owner of this event"
  const CommentLimit: nat := 50

  /** The reason PostgreSQL refuses `UPDATE events SET  WHERE ...`. */
  const EmptySetList: string := "syntax error at or near \"WHERE\""
  /** The reason PostgreSQL refuses a string that is not a timestamp. */
  const InvalidTimestamp: string := "invalid input syntax for type timestamp with time zone"

  type TimestampParser = string -> Option<Instant>

  predicate IsDigit(c: char) {
    '0' <= c <= '9'
  }

  /**
   * The string ends in an explicit UTC offset, `Z` or `+hh:mm`/`-hh:mm`, as
   * `toISOString()` writes it. Without one, `new Date` reads a date-time in
   * the server's time zone and PostgreSQL in the session's, which can differ.
   */
  predicate ExplicitOffset(s: string) {
    || (|s| >= 1 && s[|s| - 1] == 'Z')
    || (|s| >= 6 && (s[|s| - 6] == '+' || s[|s| - 6] == '-') && IsDigit(s[|s| - 5]) && IsDigit(s[|s| - 4])
        && s[|s| - 3] == ':' && IsDigit(s[|s| - 2]) && IsDigit(s[|s| - 1]))
  }

  /** `new Date(s)` and PostgreSQL read every string with an explicit offset alike. */
  ghost predicate SameDates(jsDate: DateParser, pgTime: TimestampParser) {
    forall s | ExplicitOffset(s) :: jsDate(Str(s)) == pgTime(s)
  }

  /** No stored event ends at or before its start. */
  predicate EndsAfterStart(events: seq<Event>) {
    forall i :: 0 <= i < |events| ==> events[i].start < events[i].end
  }

  // ───────────────────────────── create ─────────────────────────────

  /** `CreateEventDto`. */
  datatype CreateDto = CreateDto(
    title: string, description: Option<string>, lat: real, lng: real, startTime: string, endTime: string)

  /**
   * The body as the typed `CreateEventDto` the service receives; `None` when
   * a field is not of the declared type (a body this model does not follow
   * past validation). An absent or `null` description is `None`.
   */
  function CreateDtoOf(b: Body): Option<CreateDto> {
    var title, lat, lng := Field(b, "title"), Field(b, "lat"), Field(b, "lng");
    var startTime, endTime, description := Field(b, "start_time"), Field(b, "end_time"), Field(b, "description");
    if !(title.Str? && lat.Number? && lng.Number? && startTime.Str? && endTime.Str?) then None
    else if description.Undefined? || description.Null? then
      Some(CreateDto(title.s, None, lat.x, lng.x, startTime.s, endTime.s))
    else if description.Str? then
      Some(CreateDto(title.s, Some(description.s), lat.x, lng.x, startTime.s, endTime.s))
    else None
  }

  /** A body the create validator accepts has the declared types, save for the description. */
  lemma AcceptedCreateIsTyped(b: Body, jsDate: DateParser)
    requires ValidateCreateEvent(b, jsDate).None?
    requires Field(b, "description").Undefined? || Field(b, "description").Null? || Field(b, "description").Str?
    ensures CreateDtoOf(b).Some?
    ensures CreateDtoOf(b).value.title == Field(b, "title").s && Trim(CreateDtoOf(b).value.title) != []
    ensures -90.0 <= CreateDtoOf(b).value.lat <= 90.0 && -180.0 <= CreateDtoOf(b).value.lng <= 180.0
  {
    TrimEmpty(Field(b, "title").s);
  }

  /**
   * `createEvent`: insert one row with the trimmed title, the description or
   * `NULL`, the point `ST_MakePoint(lng, lat)` and the caller as owner. The
   * id (`gen_random_uuid()`) and `created_at` default come from the database
   * and are parameters. A time PostgreSQL cannot read aborts the insert.
   */
  method CreateEvent(db: Database, userId: UserId, dto: CreateDto, pgTime: TimestampParser, id: EventId, createdAt: Instant)
    returns (r: Result<Event, Failure>)
    modifies db
    ensures r.Success? <==> pgTime(dto.startTime).Some? && pgTime(dto.endTime).Some?
    ensures r.Failure? ==> r.error == DbError(InvalidTimestamp) && db.tables == old(db.tables)
    ensures r.Success? ==>
      && r.value == Event(id, Trim(dto.title), dto.description, Point(dto.lng, dto.lat),
                          pgTime(dto.startTime).value, pgTime(dto.endTime).value, userId, createdAt)
      && db.tables == old(db.tables).(events := old(db.tables.events) + [r.value])
  {
    var start := pgTime(dto.startTime);
    var end := pgTime(dto.endTime);
    if start.None? || end.None? {
      return Failure(DbError(InvalidTimestamp));
    }
    var row := Event(id, Trim(dto.title), dto.description, Point(dto.lng, dto.lat), start.value, end.value, userId, createdAt);
    db.tables := db.tables.(events := db.tables.events + [row]);
    r := Success(row);
  }

  /**
   * A validated creation stores an event that ends after it starts, so
   * creating events keeps `EndsAfterStart`.
   */
  lemma ValidatedCreateEndsAfterStart(events: seq<Event>, b: Body, jsDate: DateParser, pgTime: TimestampParser,
                                      dto: CreateDto, row: Event)
    requires SameDates(jsDate, pgTime)
    requires ValidateCreateEvent(b, jsDate).None? && CreateDtoOf(b) == Some(dto)
    requires ExplicitOffset(dto.startTime) && ExplicitOffset(dto.endTime)
    requires pgTime(dto.startTime).Some? && pgTime(dto.endTime).Some?
    requires row.start == pgTime(dto.startTime).value && row.end == pgTime(dto.endTime).value
    requires EndsAfterStart(events)
    ensures row.start < row.end
    ensures EndsAfterStart(events + [row])
  {
    assert jsDate(Str(dto.startTime)) == pgTime(dto.startTime);
    assert jsDate(Str(dto.endTime)) == pgTime(dto.endTime);
  }

  /** Validation already rules out the times PostgreSQL would refuse. */
  lemma ValidatedCreateParses(b: Body, jsDate: DateParser, pgTime: TimestampParser, dto: CreateDto)
    requires SameDates(jsDate, pgTime)
    requires ValidateCreateEvent(b, jsDate).None? && CreateDtoOf(b) == Some(dto)
    requires ExplicitOffset(dto.startTime) && ExplicitOffset(dto.endTime)
    ensures pgTime(dto.startTime).Some? && pgTime(dto.endTime).Some?
  {
    assert jsDate(Str(dto.startTime)) == pgTime(dto.startTime);
    assert jsDate(Str(dto.endTime)) == pgTime(dto.endTime);
  }

  // ───────────────────────────── detail ─────────────────────────────

  /** A row of `SELECT user_id, status FROM event_attendees`. */
  datatype AttendeeRow = AttendeeRow(userId: UserId, status: AttendStatus)

  /** `EventDetail`: the event's row and what the three follow-up queries return. */
  datatype EventDetail = EventDetail(
    event: Event, likeCount: nat, attendeeCount: nat, attendees: seq<AttendeeRow>, comments: seq<Comment>)

  /** The attendee rows for `keys`, in the order of `keys`. */
  function AttendeeRows(attendees: map<(UserId, EventId), AttendStatus>, keys: seq<(UserId, EventId)>): (r: seq<AttendeeRow>)
    requires forall k | k in keys :: k in attendees
    ensures |r| == |keys|
    ensures forall i :: 0 <= i < |keys| ==> r[i] == AttendeeRow(keys[i].0, attendees[keys[i]])
  {
    if keys == [] then [] else [AttendeeRow(keys[0].0, attendees[keys[0]])] + AttendeeRows(attendees, keys[1..])
  }

  /**
   * `getEventDetail`: `None` (`null`) for a missing event, otherwise the
   * event with its like count, every attendance row of the event whatever
   * its status (`attendee_count` is their number), and its 50 newest
   * comments. `attendeeKeys` is the row order PostgreSQL chose for the
   * attendee query, `orderedComments` the one it chose for
   * `ORDER BY created_at DESC`.
   */
  function GetEventDetail(t: Tables, id: EventId, attendeeKeys: seq<(UserId, EventId)>, orderedComments: seq<Comment>)
    : (r: Option<EventDetail>)
    requires Enumerates(attendeeKeys, AttendeeKeysOf(t.attendees, id))
    requires IsDescOrdering(CommentsOf(t.comments, id), orderedComments, CommentTime)
    ensures r.None? <==> FindEvent(t.events, id).None?
    ensures r.Some? ==> r.value.event == FindEvent(t.events, id).value && r.value.event.id == id
    ensures r.Some? ==> r.value.likeCount == LikeCount(t.likes, id)
    ensures r.Some? ==> r.value.attendeeCount == AttendeeCount(t.attendees, id) == |r.value.attendees|
    ensures r.Some? ==> forall a | a in r.value.attendees :: (a.userId, id) in t.attendees && t.attendees[(a.userId, id)] == a.status
    ensures r.Some? ==> forall u | (u, id) in t.attendees :: AttendeeRow(u, t.attendees[(u, id)]) in r.value.attendees
    ensures r.Some? ==> |r.value.comments| == Min(CommentLimit, |CommentsOf(t.comments, id)|)
    ensures r.Some? ==> forall i :: 0 <= i < |r.value.comments| ==>
      r.value.comments[i] in t.comments && r.value.comments[i].eventId == id
    ensures r.Some? ==> forall i :: 0 <= i < |r.value.comments| ==>
      i < |orderedComments| && r.value.comments[i] == orderedComments[i]
    ensures r.Some? ==> NonIncreasing(r.value.comments, CommentTime)
  {
    match FindEvent(t.events, id)
    case None => None
    case Some(e) =>
      EnumerationLength(attendeeKeys, AttendeeKeysOf(t.attendees, id));
      OrderedComments(t.comments, id, orderedComments);
      var rows := AttendeeRows(t.attendees, attendeeKeys);
      assert forall u | (u, id) in t.attendees :: AttendeeRow(u, t.attendees[(u, id)]) in rows by {
        forall u | (u, id) in t.attendees ensures AttendeeRow(u, t.attendees[(u, id)]) in rows {
          assert (u, id) in AttendeeKeysOf(t.attendees, id);
          var i :| 0 <= i < |attendeeKeys| && attendeeKeys[i] == (u, id);
          assert rows[i] == AttendeeRow(u, t.attendees[(u, id)]);
        }
      }
      Some(EventDetail(e, LikeCount(t.likes, id), |attendeeKeys|, rows, Take(orderedComments, CommentLimit)))
  }

  /**
   * `LIMIT 50` keeps the event's newest comments: the detail's comments are
   * comments of the event, and none left out is newer than one shown.
   */
  lemma DetailCommentsAreNewest(t: Tables, id: EventId, attendeeKeys: seq<(UserId, EventId)>, orderedComments: seq<Comment>)
    requires Enumerates(attendeeKeys, AttendeeKeysOf(t.attendees, id))
    requires IsDescOrdering(CommentsOf(t.comments, id), orderedComments, CommentTime)
    requires FindEvent(t.events, id).Some?
    ensures var shown := GetEventDetail(t, id, attendeeKeys, orderedComments).value.comments;
      && multiset(shown) <= multiset(CommentsOf(t.comments, id))
      && forall c | c in multiset(CommentsOf(t.comments, id)) - multiset(shown) ::
           forall i :: 0 <= i < |shown| ==> c.createdAt <= shown[i].createdAt
  {
    assert GetEventDetail(t, id, attendeeKeys, orderedComments).value.comments == Take(orderedComments, CommentLimit);
    DescLimitKeepsTop(CommentsOf(t.comments, id), orderedComments, CommentTime, CommentLimit);
  }

  // ───────────────────────────── update ─────────────────────────────

  /** `UpdateEventDto`: every field optional. */
  datatype UpdateDto = UpdateDto(
    title: Option<string>, description: Option<string>, lat: Option<real>, lng: Option<real>,
    startTime: Option<string>, endTime: Option<string>)

  /** An optional JSON string as `string | undefined`; `None` when it is of another type. */
  function OptText(v: Value): Option<Option<string>> {
    if v.Undefined? then Some(None) else if v.Str? then Some(Some(v.s)) else None
  }

  /** An optional JSON number as `number | undefined`; `None` when it is of another type. */
  function OptNumber(v: Value): Option<Option<real>> {
    if v.Undefined? then Some(None) else if v.Number? then Some(Some(v.x)) else None
  }

  /** The body as the typed `UpdateEventDto`; `None` when a field is not of the declared type. */
  function UpdateDtoOf(b: Body): Option<UpdateDto> {
    var title, description := OptText(Field(b, "title")), OptText(Field(b, "description"));
    var lat, lng := OptNumber(Field(b, "lat")), OptNumber(Field(b, "lng"));
    var startTime, endTime := OptText(Field(b, "start_time")), OptText(Field(b, "end_time"));
    if title.Some? && description.Some? && lat.Some? && lng.Some? && startTime.Some? && endTime.Some? then
      Some(UpdateDto(title.value, description.value, lat.value, lng.value, startTime.value, endTime.value))
    else None
  }

  /** One entry of `setClauses`, with the placeholder numbers it uses. */
  datatype SetClause =
    | SetTitle(param: nat)
    | SetDescription(param: nat)
    | SetLocation(lngParam: nat, latParam: nat)
    | SetStart(param: nat)
    | SetEnd(param: nat)

  /** The column a clause assigns. */
  datatype Column = TitleColumn | DescriptionColumn | LocationColumn | StartColumn | EndColumn

  function ColumnOf(c: SetClause): Column {
    match c
    case SetTitle(_) => TitleColumn
    case SetDescription(_) => DescriptionColumn
    case SetLocation(_, _) => LocationColumn
    case SetStart(_) => StartColumn
    case SetEnd(_) => EndColumn
  }

  function Columns(cs: seq<SetClause>): (r: seq<Column>)
    ensures |r| == |cs|
    ensures forall i :: 0 <= i < |cs| ==> r[i] == ColumnOf(cs[i])
  {
    if cs == [] then [] else [ColumnOf(cs[0])] + Columns(cs[1..])
  }

  function PlaceholdersOf(c: SetClause): seq<nat> {
    match c
    case SetLocation(a, b) => [a, b]
    case SetTitle(k) => [k]
    case SetDescription(k) => [k]
    case SetStart(k) => [k]
    case SetEnd(k) => [k]
  }

  /** Every placeholder of the clause list, left to right. */
  function Placeholders(cs: seq<SetClause>): seq<nat> {
    if cs == [] then [] else PlaceholdersOf(cs[0]) + Placeholders(cs[1..])
  }

  lemma {:induction false} PlaceholdersAppend(cs: seq<SetClause>, c: SetClause)
    ensures Placeholders(cs + [c]) == Placeholders(cs) + PlaceholdersOf(c)
  {
    if cs != [] {
      assert (cs + [c])[1..] == cs[1..] + [c];
      PlaceholdersAppend(cs[1..], c);
    } else {
      assert [c][1..] == [];
    }
  }

  lemma ColumnsAppend(cs: seq<SetClause>, c: SetClause)
    ensures Columns(cs + [c]) == Columns(cs) + [ColumnOf(c)]
  {
  }

  /** The placeholders are `$1, $2, ..., $n` in this order. */
  predicate NumberedFromOne(ps: seq<nat>) {
    forall i :: 0 <= i < |ps| ==> ps[i] == i + 1
  }

  /** `[col]` when the dto supplies `col`, else nothing. */
  function SupplyOf(col: Column, dto: UpdateDto): seq<Column> {
    if Supplied(col, dto) then [col] else []
  }

  /** The columns the dto supplies, in the order the service tests them. */
  function SuppliedColumns(dto: UpdateDto): seq<Column> {
    SupplyOf(TitleColumn, dto) + SupplyOf(DescriptionColumn, dto) + SupplyOf(LocationColumn, dto)
    + SupplyOf(StartColumn, dto) + SupplyOf(EndColumn, dto)
  }

  /** Nothing the service would assign: neither title, description, both coordinates nor a time. */
  predicate NothingToSet(dto: UpdateDto) {
    dto.title.None? && dto.description.None? && !(dto.lat.Some? && dto.lng.Some?)
    && dto.startTime.None? && dto.endTime.None?
  }

  lemma NothingToSetIsEmpty(dto: UpdateDto)
    ensures SuppliedColumns(dto) == [] <==> NothingToSet(dto)
  {
  }

  /** The clause binds, through its placeholders, the value the dto supplies for its column. */
  predicate ClauseMeans(c: SetClause, values: seq<SqlValue>, dto: UpdateDto) {
    match c
    case SetTitle(k) => dto.title.Some? && Param(values, k) == Some(SqlText(Trim(dto.title.value)))
    case SetDescription(k) => dto.description.Some? && Param(values, k) == Some(SqlText(dto.description.value))
    case SetLocation(a, b) =>
      dto.lat.Some? && dto.lng.Some?
      && Param(values, a) == Some(SqlNumber(dto.lng.value)) && Param(values, b) == Some(SqlNumber(dto.lat.value))
    case SetStart(k) => dto.startTime.Some? && Param(values, k) == Some(SqlText(dto.startTime.value))
    case SetEnd(k) => dto.endTime.Some? && Param(values, k) == Some(SqlText(dto.endTime.value))
  }

  /** Placeholders at most `n` name the same values once more values are pushed. */
  lemma ClauseMeansExtends(c: SetClause, values: seq<SqlValue>, more: seq<SqlValue>, dto: UpdateDto)
    requires ClauseMeans(c, values, dto)
    ensures ClauseMeans(c, values + more, dto)
  {
  }

  /** What holds after each step of the builder: bound clauses, placeholders `$1..$n` for the values pushed. */
  predicate Built(cs: seq<SetClause>, values: seq<SqlValue>, dto: UpdateDto) {
    && (forall i :: 0 <= i < |cs| ==> ClauseMeans(cs[i], values, dto))
    && NumberedFromOne(Placeholders(cs)) && |Placeholders(cs)| == |values|
  }

  /** Pushing a clause together with the values its fresh placeholders name keeps `Built`. */
  lemma PushKeepsBuilt(cs: seq<SetClause>, values: seq<SqlValue>, c: SetClause, more: seq<SqlValue>, dto: UpdateDto)
    requires Built(cs, values, dto)
    requires |PlaceholdersOf(c)| == |more|
    requires forall i :: 0 <= i < |more| ==> PlaceholdersOf(c)[i] == |values| + i + 1
    requires ClauseMeans(c, values + more, dto)
    ensures Built(cs + [c], values + more, dto)
  {
    PlaceholdersAppend(cs, c);
    forall i | 0 <= i < |cs| ensures ClauseMeans((cs + [c])[i], values + more, dto) {
      ClauseMeansExtends(cs[i], values, more, dto);
    }
  }

  /** The dto supplies a value for the column (for the location: both coordinates). */
  predicate Supplied(col: Column, dto: UpdateDto) {
    match col
    case TitleColumn => dto.title.Some?
    case DescriptionColumn => dto.description.Some?
    case LocationColumn => dto.lat.Some? && dto.lng.Some?
    case StartColumn => dto.startTime.Some?
    case EndColumn => dto.endTime.Some?
  }

  /**
   * One `if (dto.field !== undefined) { setClauses.push(...); values.push(...) }`
   * block of `updateEvent`, for column `col`: when the dto supplies it, push
   * its clause, whose placeholders take the next `paramIndex++` numbers, and
   * the values they name.
   */
  method PushColumn(col: Column, cs: seq<SetClause>, values: seq<SqlValue>, paramIndex: nat, dto: UpdateDto)
    returns (cs': seq<SetClause>, values': seq<SqlValue>, paramIndex': nat)
    requires Built(cs, values, dto) && paramIndex == |values| + 1
    ensures Built(cs', values', dto) && paramIndex' == |values'| + 1
    ensures Columns(cs') == Columns(cs) + SupplyOf(col, dto)
    ensures !Supplied(col, dto) ==> cs' == cs && values' == values
  {
    cs', values', paramIndex' := cs, values, paramIndex;
    match col
    case TitleColumn =>
      if dto.title.Some? {
        cs', values', paramIndex' := Push(cs, values, SetTitle(paramIndex), [SqlText(Trim(dto.title.value))], dto);
      }
    case DescriptionColumn =>
      if dto.description.Some? {
        cs', values', paramIndex' := Push(cs, values, SetDescription(paramIndex), [SqlText(dto.description.value)], dto);
      }
    case LocationColumn =>
      // `ST_MakePoint` takes the longitude first
      if dto.lat.Some? && dto.lng.Some? {
        var point := [SqlNumber(dto.lng.value), SqlNumber(dto.lat.value)];
        assert Param(values + point, paramIndex) == Some(point[0]) && Param(values + point, paramIndex + 1) == Some(point[1]);
        cs', values', paramIndex' := Push(cs, values, SetLocation(paramIndex, paramIndex + 1), point, dto);
      }
    case StartColumn =>
      if dto.startTime.Some? {
        cs', values', paramIndex' := Push(cs, values, SetStart(paramIndex), [SqlText(dto.startTime.value)], dto);
      }
    case EndColumn =>
      if dto.endTime.Some? {
        cs', values', paramIndex' := Push(cs, values, SetEnd(paramIndex), [SqlText(dto.endTime.value)], dto);
      }
  }

  /** `setClauses.push(c); values.push(...more)`, where `c`'s placeholders are the next free numbers. */
  method Push(cs: seq<SetClause>, values: seq<SqlValue>, c: SetClause, more: seq<SqlValue>, dto: UpdateDto)
    returns (cs': seq<SetClause>, values': seq<SqlValue>, paramIndex': nat)
    requires Built(cs, values, dto)
    requires |PlaceholdersOf(c)| == |more|
    requires forall i :: 0 <= i < |more| ==> PlaceholdersOf(c)[i] == |values| + i + 1
    requires ClauseMeans(c, values + more, dto)
    ensures cs' == cs + [c] && values' == values + more && paramIndex' == |values'| + 1
    ensures Built(cs', values', dto)
    ensures Columns(cs') == Columns(cs) + [ColumnOf(c)]
  {
    PushKeepsBuilt(cs, values, c, more, dto);
    ColumnsAppend(cs, c);
    cs', values', paramIndex' := cs + [c], values + more, |values| + |more| + 1;
  }

  /** The query `updateEvent` sends: `SET` list, bound values and the `WHERE id = $n` placeholder. */
  datatype UpdateSql = UpdateSql(clauses: seq<SetClause>, values: seq<SqlValue>, whereParam: nat)

  /** The five guarded pushes of `updateEvent`, in the source's order. */
  method BuildSetList(dto: UpdateDto) returns (setClauses: seq<SetClause>, values: seq<SqlValue>, paramIndex: nat)
    ensures Built(setClauses, values, dto) && paramIndex == |values| + 1
    ensures Columns(setClauses) == SuppliedColumns(dto)
  {
    setClauses, values, paramIndex := [], [], 1;
    ghost var t, d, l, st := SupplyOf(TitleColumn, dto), SupplyOf(DescriptionColumn, dto),
      SupplyOf(LocationColumn, dto), SupplyOf(StartColumn, dto);
    setClauses, values, paramIndex := PushColumn(TitleColumn, setClauses, values, paramIndex, dto);
    assert Columns(setClauses) == t;
    setClauses, values, paramIndex := PushColumn(DescriptionColumn, setClauses, values, paramIndex, dto);
    assert Columns(setClauses) == t + d;
    setClauses, values, paramIndex := PushColumn(LocationColumn, setClauses, values, paramIndex, dto);
    assert Columns(setClauses) == t + d + l;
    setClauses, values, paramIndex := PushColumn(StartColumn, setClauses, values, paramIndex, dto);
    assert Columns(setClauses) == t + d + l + st;
    setClauses, values, paramIndex := PushColumn(EndColumn, setClauses, values, paramIndex, dto);
  }

  /**
   * The statement-building part of `updateEvent`: one clause per supplied
   * field in the order title, description, location (only when both
   * coordinates are supplied, longitude first), start, end; every
   * placeholder names the value it should, they are numbered `$1..$n` in
   * order, and the id is pushed last for `WHERE id = $paramIndex`.
   */
  method BuildUpdateSql(id: EventId, dto: UpdateDto) returns (sql: UpdateSql)
    ensures Columns(sql.clauses) == SuppliedColumns(dto)
    ensures sql.clauses == [] <==> NothingToSet(dto)
    ensures forall i :: 0 <= i < |sql.clauses| ==> ClauseMeans(sql.clauses[i], sql.values, dto)
    ensures NumberedFromOne(Placeholders(sql.clauses)) && |Placeholders(sql.clauses)| == |sql.values| - 1
    ensures sql.whereParam == |sql.values| && Param(sql.values, sql.whereParam) == Some(SqlText(id))
  {
    var setClauses, values, paramIndex := BuildSetList(dto);
    NothingToSetIsEmpty(dto);
    forall i | 0 <= i < |setClauses| ensures ClauseMeans(setClauses[i], values + [SqlText(id)], dto) {
      ClauseMeansExtends(setClauses[i], values, [SqlText(id)], dto);
    }
    values := values + [SqlText(id)];
    sql := UpdateSql(setClauses, values, paramIndex);
  }

  /** The reason PostgreSQL refuses a bound value of the wrong type for its column. */
  const WrongParameterType: string := "parameter of the wrong type for its column"

  /** What PostgreSQL does with one `SET` entry on a row, reading its placeholders from `values`. */
  function ApplyClause(c: SetClause, values: seq<SqlValue>, pgTime: TimestampParser, row: Event): Result<Event, Failure> {
    match c
    case SetTitle(k) =>
      (match Param(values, k) case Some(SqlText(s)) => Success(row.(title := s)) case _ => Failure(DbError(WrongParameterType)))
    case SetDescription(k) =>
      (match Param(values, k) case Some(SqlText(s)) => Success(row.(description := Some(s))) case _ => Failure(DbError(WrongParameterType)))
    case SetLocation(a, b) =>
      (match (Param(values, a), Param(values, b))
       case (Some(SqlNumber(x)), Some(SqlNumber(y))) => Success(row.(location := Point(x, y)))
       case _ => Failure(DbError(WrongParameterType)))
    case SetStart(k) =>
      (match Param(values, k)
       case Some(SqlText(s)) => if pgTime(s).Some? then Success(row.(start := pgTime(s).value)) else Failure(DbError(InvalidTimestamp))
       case _ => Failure(DbError(WrongParameterType)))
    case SetEnd(k) =>
      (match Param(values, k)
       case Some(SqlText(s)) => if pgTime(s).Some? then Success(row.(end := pgTime(s).value)) else Failure(DbError(InvalidTimestamp))
       case _ => Failure(DbError(WrongParameterType)))
  }

  /** The whole `SET` list on a row; the first refused entry aborts the statement. */
  function ApplyClauses(cs: seq<SetClause>, values: seq<SqlValue>, pgTime: TimestampParser, row: Event): Result<Event, Failure> {
    if cs == [] then Success(row)
    else match ApplyClause(cs[0], values, pgTime, row)
      case Failure(err) => Failure(err)
      case Success(next) => ApplyClauses(cs[1..], values, pgTime, next)
  }

  /**
   * What an update with `dto` means for a row, column by column: a supplied
   * field replaces the stored one (the title trimmed, the location only when
   * both coordinates are supplied), anything else is kept; a supplied time
   * PostgreSQL cannot read refuses the whole update.
   */
  function ApplyDto(row: Event, dto: UpdateDto, pgTime: TimestampParser): (r: Result<Event, Failure>)
    ensures r.Failure? <==>
      (dto.startTime.Some? && pgTime(dto.startTime.value).None?) || (dto.endTime.Some? && pgTime(dto.endTime.value).None?)
    ensures r.Failure? ==> r.error == DbError(InvalidTimestamp)
    ensures r.Success? ==> r.value.id == row.id && r.value.createdBy == row.createdBy && r.value.createdAt == row.createdAt
    ensures r.Success? && dto.title.None? ==> r.value.title == row.title
    ensures r.Success? && dto.description.None? ==> r.value.description == row.description
    ensures r.Success? && !(dto.lat.Some? && dto.lng.Some?) ==> r.value.location == row.location
    ensures r.Success? && dto.startTime.None? ==> r.value.start == row.start
    ensures r.Success? && dto.endTime.None? ==> r.value.end == row.end
  {
    if dto.startTime.Some? && pgTime(dto.startTime.value).None? then Failure(DbError(InvalidTimestamp))
    else if dto.endTime.Some? && pgTime(dto.endTime.value).None? then Failure(DbError(InvalidTimestamp))
    else Success(row.(
      title := if dto.title.Some? then Trim(dto.title.value) else row.title,
      description := if dto.description.Some? then dto.description else row.description,
      location := if dto.lat.Some? && dto.lng.Some? then Point(dto.lng.value, dto.lat.value) else row.location,
      start := if dto.startTime.Some? then pgTime(dto.startTime.value).value else row.start,
      end := if dto.endTime.Some? then pgTime(dto.endTime.value).value else row.end))
  }

  /** The effect of assigning the dto's value to one column. */
  function ApplyColumn(col: Column, dto: UpdateDto, pgTime: TimestampParser, row: Event): Result<Event, Failure> {
    match col
    case TitleColumn => if dto.title.Some? then Success(row.(title := Trim(dto.title.value))) else Success(row)
    case DescriptionColumn => if dto.description.Some? then Success(row.(description := dto.description)) else Success(row)
    case LocationColumn =>
      if dto.lat.Some? && dto.lng.Some? then Success(row.(location := Point(dto.lng.value, dto.lat.value))) else Success(row)
    case StartColumn =>
      if dto.startTime.Some? then
        (if pgTime(dto.startTime.value).Some? then Success(row.(start := pgTime(dto.startTime.value).value))
         else Failure(DbError(InvalidTimestamp)))
      else Success(row)
    case EndColumn =>
      if dto.endTime.Some? then
        (if pgTime(dto.endTime.value).Some? then Success(row.(end := pgTime(dto.endTime.value).value))
         else Failure(DbError(InvalidTimestamp)))
      else Success(row)
  }

  function ApplyColumns(cols: seq<Column>, dto: UpdateDto, pgTime: TimestampParser, row: Event): Result<Event, Failure> {
    if cols == [] then Success(row)
    else match ApplyColumn(cols[0], dto, pgTime, row)
      case Failure(err) => Failure(err)
      case Success(next) => ApplyColumns(cols[1..], dto, pgTime, next)
  }

  /** A bound clause does what assigning the dto's value to its column does. */
  lemma {:induction false} BoundClausesApply(cs: seq<SetClause>, values: seq<SqlValue>, dto: UpdateDto, pgTime: TimestampParser, row: Event)
    requires forall i :: 0 <= i < |cs| ==> ClauseMeans(cs[i], values, dto)
    ensures ApplyClauses(cs, values, pgTime, row) == ApplyColumns(Columns(cs), dto, pgTime, row)
  {
    if cs != [] {
      assert ClauseMeans(cs[0], values, dto);
      assert ApplyClause(cs[0], values, pgTime, row) == ApplyColumn(ColumnOf(cs[0]), dto, pgTime, row);
      assert Columns(cs)[1..] == Columns(cs[1..]);
      match ApplyClause(cs[0], values, pgTime, row)
      case Failure(_) =>
      case Success(next) =>
        BoundClausesApply(cs[1..], values, dto, pgTime, next);
    }
  }

  lemma {:induction false} ApplyColumnsConcat(a: seq<Column>, b: seq<Column>, dto: UpdateDto, pgTime: TimestampParser, row: Event)
    ensures ApplyColumns(a + b, dto, pgTime, row) ==
      match ApplyColumns(a, dto, pgTime, row)
      case Failure(err) => Failure(err)
      case Success(next) => ApplyColumns(b, dto, pgTime, next)
  {
    if a == [] {
      assert a + b == b;
    } else {
      assert (a + b)[0] == a[0] && (a + b)[1..] == a[1..] + b;
      match ApplyColumn(a[0], dto, pgTime, row)
      case Failure(_) =>
      case Success(next) =>
        ApplyColumnsConcat(a[1..], b, dto, pgTime, next);
    }
  }

  lemma ApplyOneColumn(col: Column, dto: UpdateDto, pgTime: TimestampParser, row: Event)
    ensures ApplyColumns([col], dto, pgTime, row) == ApplyColumn(col, dto, pgTime, row)
  {
    match ApplyColumn(col, dto, pgTime, row)
    case Failure(_) =>
    case Success(next) => assert [col][1..] == [];
  }

  /** Stepping a prefix of the supplied columns one optional column further. */
  lemma ApplyStep(prefix: seq<Column>, col: Column, dto: UpdateDto, pgTime: TimestampParser, row: Event)
    ensures ApplyColumns(prefix + SupplyOf(col, dto), dto, pgTime, row) ==
      match ApplyColumns(prefix, dto, pgTime, row)
      case Failure(err) => Failure(err)
      case Success(next) => ApplyColumn(col, dto, pgTime, next)
  {
    ApplyColumnsConcat(prefix, SupplyOf(col, dto), dto, pgTime, row);
    match ApplyColumns(prefix, dto, pgTime, row)
    case Failure(_) =>
    case Success(next) =>
      if Supplied(col, dto) { ApplyOneColumn(col, dto, pgTime, next); }
  }

  /** Assigning the supplied columns in the service's order is the meaning of the dto. */
  lemma SuppliedColumnsApply(dto: UpdateDto, pgTime: TimestampParser, row: Event)
    ensures ApplyColumns(SuppliedColumns(dto), dto, pgTime, row) == ApplyDto(row, dto, pgTime)
  {
    var p1 := SupplyOf(TitleColumn, dto);
    var p2 := p1 + SupplyOf(DescriptionColumn, dto);
    var p3 := p2 + SupplyOf(LocationColumn, dto);
    var p4 := p3 + SupplyOf(StartColumn, dto);
    ApplyStep([], TitleColumn, dto, pgTime, row);
    assert [] + p1 == p1;
    ApplyStep(p1, DescriptionColumn, dto, pgTime, row);
    ApplyStep(p2, LocationColumn, dto, pgTime, row);
    ApplyStep(p3, StartColumn, dto, pgTime, row);
    ApplyStep(p4, EndColumn, dto, pgTime, row);
  }

  /** The statement `BuildUpdateSql` produces does what the dto means. */
  lemma BuiltUpdateMeansDto(cs: seq<SetClause>, values: seq<SqlValue>, dto: UpdateDto, pgTime: TimestampParser, row: Event)
    requires Columns(cs) == SuppliedColumns(dto)
    requires forall i :: 0 <= i < |cs| ==> ClauseMeans(cs[i], values, dto)
    ensures ApplyClauses(cs, values, pgTime, row) == ApplyDto(row, dto, pgTime)
  {
    BoundClausesApply(cs, values, dto, pgTime, row);
    SuppliedColumnsApply(dto, pgTime, row);
  }

  /**
   * `UPDATE events SET ... WHERE id = $n`: every row with that id becomes
   * `row`; `id` is the primary key, so that is the one row `RETURNING` gives.
   */
  function ReplaceById(events: seq<Event>, id: EventId, row: Event): (r: seq<Event>)
    ensures |r| == |events|
    ensures forall i :: 0 <= i < |events| ==> r[i] == (if events[i].id == id then row else events[i])
  {
    if events == [] then []
    else [if events[0].id == id then row else events[0]] + ReplaceById(events[1..], id, row)
  }

  /** After the update, looking the id up gives the new row and every other id what it gave before. */
  lemma {:induction false} ReplaceByIdLookups(events: seq<Event>, id: EventId, row: Event, other: EventId)
    requires row.id == id && other != id
    ensures FindEvent(events, id).Some? ==> FindEvent(ReplaceById(events, id, row), id) == Some(row)
    ensures FindEvent(ReplaceById(events, id, row), other) == FindEvent(events, other)
  {
    if events != [] {
      assert ReplaceById(events, id, row)[1..] == ReplaceById(events[1..], id, row);
      ReplaceByIdLookups(events[1..], id, row, other);
    }
  }

  /**
   * `updateEvent` before any write: 404 for a missing event, 403 for a caller
   * who does not own it, PostgreSQL's syntax error for an empty `SET` list,
   * otherwise what the dto means for the stored row.
   */
  function UpdateOutcome(t: Tables, id: EventId, userId: UserId, dto: UpdateDto, pgTime: TimestampParser): (r: Result<Event, Failure>)
    ensures r == Failure(AppError(404, NotFound)) <==> FindEvent(t.events, id).None?
    ensures r == Failure(AppError(403, NotOwner)) <==>
      FindEvent(t.events, id).Some? && FindEvent(t.events, id).value.createdBy != userId
    ensures r == Failure(DbError(EmptySetList)) <==>
      FindEvent(t.events, id).Some? && FindEvent(t.events, id).value.createdBy == userId && NothingToSet(dto)
    ensures r.Success? ==>
      && FindEvent(t.events, id).Some? && FindEvent(t.events, id).value.createdBy == userId && !NothingToSet(dto)
      && r == ApplyDto(FindEvent(t.events, id).value, dto, pgTime)
      && r.value.id == id && r.value.createdBy == userId
  {
    match FindEvent(t.events, id)
    case None => Failure(AppError(404, NotFound))
    case Some(existing) =>
      if existing.createdBy != userId then Failure(AppError(403, NotOwner))
      else if NothingToSet(dto) then Failure(DbError(EmptySetList))
      else ApplyDto(existing, dto, pgTime)
  }

  /**
   * `updateEvent`: the ownership checks, then the built statement. On success
   * the stored row is replaced by the updated one and nothing else changes;
   * on any failure nothing changes.
   */
  method UpdateEvent(db: Database, id: EventId, userId: UserId, dto: UpdateDto, pgTime: TimestampParser)
    returns (r: Result<Event, Failure>)
    modifies db
    ensures r == UpdateOutcome(old(db.tables), id, userId, dto, pgTime)
    ensures r.Success? ==> db.tables == old(db.tables).(events := ReplaceById(old(db.tables.events), id, r.value))
    ensures r.Failure? ==> db.tables == old(db.tables)
  {
    var existing := FindEvent(db.tables.events, id);
    if existing.None? {
      return Failure(AppError(404, NotFound));
    }
    if existing.value.createdBy != userId {
      return Failure(AppError(403, NotOwner));
    }
    var sql := BuildUpdateSql(id, dto);
    if sql.clauses == [] {
      return Failure(DbError(EmptySetList));
    }
    BuiltUpdateMeansDto(sql.clauses, sql.values, dto, pgTime, existing.value);
    r := ApplyClauses(sql.clauses, sql.values, pgTime, existing.value);
    if r.Success? {
      var whereId := Param(sql.values, sql.whereParam).value.text;
      db.tables := db.tables.(events := ReplaceById(db.tables.events, whereId, r.value));
    }
  }

  /** `DELETE FROM events WHERE id = $1`. */
  function RemoveById(events: seq<Event>, id: EventId): (r: seq<Event>)
    ensures |r| <= |events|
    ensures forall e :: e in r <==> e in events && e.id != id
  {
    if events == [] then []
    else if events[0].id == id then RemoveById(events[1..], id)
    else [events[0]] + RemoveById(events[1..], id)
  }

  /** After the delete the id is gone and every other id finds what it found before. */
  lemma {:induction false} RemoveByIdLookups(events: seq<Event>, id: EventId, other: EventId)
    requires other != id
    ensures FindEvent(RemoveById(events, id), id).None?
    ensures FindEvent(RemoveById(events, id), other) == FindEvent(events, other)
  {
    if events != [] {
      RemoveByIdLookups(events[1..], id, other);
      if events[0].id != id {
        assert RemoveById(events, id)[1..] == RemoveById(events[1..], id);
      }
    }
  }

  /**
   * `deleteEvent`: 404 for a missing event, 403 for a caller who does not
   * own it, both before the delete; otherwise only that event's row goes.
   */
  method DeleteEvent(db: Database, id: EventId, userId: UserId) returns (r: Result<(), Failure>)
    modifies db
    ensures FindEvent(old(db.tables.events), id).None? ==>
      r == Failure(AppError(404, NotFound)) && db.tables == old(db.tables)
    ensures FindEvent(old(db.tables.events), id).Some? && FindEvent(old(db.tables.events), id).value.createdBy != userId ==>
      r == Failure(AppError(403, NotOwner)) && db.tables == old(db.tables)
    ensures FindEvent(old(db.tables.events), id).Some? && FindEvent(old(db.tables.events), id).value.createdBy == userId ==>
      r == Success(()) && db.tables == old(db.tables).(events := RemoveById(old(db.tables.events), id))
  {
    var existing := FindEvent(db.tables.events, id);
    if existing.None? {
      return Failure(AppError(404, NotFound));
    }
    if existing.value.createdBy != userId {
      return Failure(AppError(403, NotOwner));
    }
    db.tables := db.tables.(events := RemoveById(db.tables.events, id));
    r := Success(());
  }

  // ───────────────────── validation and update together ─────────────────────

  /**
   * A body with a single coordinate, only `lat` or only `lng`, passes
   * `validateUpdateEvent`, yet the service assigns nothing and sends
   * `SET  WHERE`, which PostgreSQL refuses.
   */
  lemma SingleCoordinateUpdateFails(t: Tables, e: Event, lat: real, lng: real, jsDate: DateParser, pgTime: TimestampParser)
    requires FindEvent(t.events, e.id) == Some(e)
    requires -90.0 <= lat <= 90.0 && -180.0 <= lng <= 180.0
    ensures ValidateUpdateEvent(map["lat" := Number(lat)], jsDate).None?
    ensures UpdateDtoOf(map["lat" := Number(lat)]) == Some(UpdateDto(None, None, Some(lat), None, None, None))
    ensures UpdateOutcome(t, e.id, e.createdBy, UpdateDto(None, None, Some(lat), None, None, None), pgTime)
      == Failure(DbError(EmptySetList))
    ensures ValidateUpdateEvent(map["lng" := Number(lng)], jsDate).None?
    ensures UpdateDtoOf(map["lng" := Number(lng)]) == Some(UpdateDto(None, None, None, Some(lng), None, None))
    ensures UpdateOutcome(t, e.id, e.createdBy, UpdateDto(None, None, None, Some(lng), None, None), pgTime)
      == Failure(DbError(EmptySetList))
  {
  }

  /**
   * As written, an update that supplies only `start_time` is not checked
   * against the stored `end_time`: moving the start to or past the stored
   * end passes validation and is stored.
   */
  lemma PartialUpdateBreaksOrder(t: Tables, e: Event, s: string, x: Instant, jsDate: DateParser, pgTime: TimestampParser)
    requires FindEvent(t.events, e.id) == Some(e)
    requires pgTime(s) == Some(x) && x >= e.end
    ensures ValidateUpdateEvent(map["start_time" := Str(s)], jsDate).None?
    ensures UpdateDtoOf(map["start_time" := Str(s)]) == Some(UpdateDto(None, None, None, None, Some(s), None))
    ensures UpdateOutcome(t, e.id, e.createdBy, UpdateDto(None, None, None, None, Some(s), None), pgTime) == Success(e.(start := x))
    ensures !(e.(start := x).start < e.(start := x).end)
  {
  }

  /** A concrete instance: an event from 10 to 20 whose start is moved to 30. */
  lemma PartialUpdateExample()
    ensures var e := Event("e1", "Jazz night", None, Point(0.0, 0.0), 10, 20, "u1", 0);
      var pgTime := (s: string) => if s == "T30" then Some(30) else None;
      var t := Tables([e], {}, map[], [], map[], map[]);
      && ValidateUpdateEvent(map["start_time" := Str("T30")], _ => None).None?
      && UpdateOutcome(t, "e1", "u1", UpdateDto(None, None, None, None, Some("T30"), None), pgTime).Success?
      && UpdateOutcome(t, "e1", "u1", UpdateDto(None, None, None, None, Some("T30"), None), pgTime).value.start == 30
      && UpdateOutcome(t, "e1", "u1", UpdateDto(None, None, None, None, Some("T30"), None), pgTime).value.end == 20
  {
    var e := Event("e1", "Jazz night", None, Point(0.0, 0.0), 10, 20, "u1", 0);
    var pgTime := (s: string) => if s == "T30" then Some(30) else None;
    var t := Tables([e], {}, map[], [], map[], map[]);
    PartialUpdateBreaksOrder(t, e, "T30", 30, _ => None, pgTime);
  }

  lemma ReplaceKeepsEndsAfterStart(events: seq<Event>, id: EventId, row: Event)
    requires EndsAfterStart(events) && row.start < row.end
    ensures EndsAfterStart(ReplaceById(events, id, row))
  {
  }

  /**
   * With the corrected validator, which checks the order of the times the
   * row will have, a successful update stores an event that ends after it
   * starts, so updates keep `EndsAfterStart`.
   */
  lemma CorrectedUpdateKeepsOrder(t: Tables, id: EventId, userId: UserId, b: Body, dto: UpdateDto,
                                  jsDate: DateParser, pgTime: TimestampParser)
    requires SameDates(jsDate, pgTime)
    requires UpdateDtoOf(b) == Some(dto)
    requires dto.startTime.Some? ==> ExplicitOffset(dto.startTime.value)
    requires dto.endTime.Some? ==> ExplicitOffset(dto.endTime.value)
    requires FindEvent(t.events, id).Some? ==> ValidateUpdateAgainst(FindEvent(t.events, id).value, b, jsDate).None?
    requires EndsAfterStart(t.events)
    ensures UpdateOutcome(t, id, userId, dto, pgTime).Success? ==>
      && UpdateOutcome(t, id, userId, dto, pgTime).value.start < UpdateOutcome(t, id, userId, dto, pgTime).value.end
      && EndsAfterStart(ReplaceById(t.events, id, UpdateOutcome(t, id, userId, dto, pgTime).value))
  {
    var r := UpdateOutcome(t, id, userId, dto, pgTime);
    if r.Success? {
      var e := FindEvent(t.events, id).value;
      var startV, endV := Field(b, "start_time"), Field(b, "end_time");
      assert dto.startTime.Some? ==> startV == Str(dto.startTime.value);
      assert dto.startTime.None? ==> startV.Undefined?;
      assert dto.endTime.Some? ==> endV == Str(dto.endTime.value);
      assert dto.endTime.None? ==> endV.Undefined?;
      if dto.startTime.Some? { assert jsDate(Str(dto.startTime.value)) == pgTime(dto.startTime.value); }
      if dto.endTime.Some? { assert jsDate(Str(dto.endTime.value)) == pgTime(dto.endTime.value); }
      assert r.value.start == EffectiveTime(e.start, startV, jsDate).value;
      assert r.value.end == EffectiveTime(e.end, endV, jsDate).value;
      ReplaceKeepsEndsAfterStart(t.events, id, r.value);
    }
  }
}
