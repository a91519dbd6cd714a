/**
 * The PostgreSQL tables the services read and write, as one value, and the
 * counting queries several services share.
 */
module Schema {
  import opened Wrappers
  import opened Ordering

  type EventId = string
  type UserId = string
  type ClerkId = string
  type CommentId = string

  /**
   * Instants are whole microseconds on the database clock, the resolution of
   * `timestamptz`; a JavaScript `Date` holds whole milliseconds, a multiple
   * of 1000 here.
   */
  type Instant = int

  /** A PostGIS point; `x` is the longitude and `y` the latitude. */
  datatype Point = Point(x: real, y: real)

  /** A row of `events`; `location_lat` is `ST_Y(location)`, `location_lng` is `ST_X(location)`. */
  datatype Event = Event(
    id: EventId,
    title: string,
    description: Option<string>,
    location: Point,
    start: Instant,
    end: Instant,
    createdBy: UserId,
    createdAt: Instant)

  /** The two attendance statuses the route accepts (`going`, `interested`). */
  datatype AttendStatus = Going | Interested

  /** A row of `event_comments`, shared by comments and lobby chat. */
  datatype Comment = Comment(id: CommentId, eventId: EventId, userId: UserId, content: string, createdAt: Instant)

  /**
   * All tables at one instant:
   * `event_likes` as the set of (user, event) pairs,
   * `event_attendees` keyed by its unique (user, event) pair,
   * `users` as the map from Clerk id to internal id that `resolveDbUserId` reads,
   * `user_follows` as the map from (follower, following) to the time of following.
   */
  datatype Tables = Tables(
    events: seq<Event>,
    likes: set<(UserId, EventId)>,
    attendees: map<(UserId, EventId), AttendStatus>,
    comments: seq<Comment>,
    users: map<ClerkId, UserId>,
    follows: map<(UserId, UserId), Instant>)

  /** The database the services change; every service changes only `tables`. */
  class Database {
    var tables: Tables

    constructor (initial: Tables)
      ensures tables == initial
    {
      tables := initial;
    }
  }

  /** A service failure: an error carrying `statusCode`, or one raised by the database without it. */
  datatype Failure = AppError(statusCode: int, message: string) | DbError(reason: string)

  /** The largest PostgreSQL `bigint`, the type of a `LIMIT` or `OFFSET` argument. */
  const MaxBigint: int := 9223372036854775807

  /** The largest PostgreSQL `integer`, the type `COUNT(*)::int` casts to. */
  const MaxInt: int := 2147483647

  /** `Number.MAX_SAFE_INTEGER`: up to here a JavaScript number holds every integer exactly. */
  const MaxSafeInteger: int := 9007199254740991

  /** A bound parameter of a parameterised query; `SqlNaN` is a JavaScript `NaN` sent as a number. */
  datatype SqlValue = SqlText(text: string) | SqlNumber(number: real) | SqlNaN

  /** `values[k - 1]`, the value placeholder `$k` names, if there is one. */
  function Param(values: seq<SqlValue>, k: int): (r: Option<SqlValue>)
    ensures r.Some? <==> 1 <= k <= |values|
    ensures r.Some? ==> r.value == values[k - 1]
  {
    if 1 <= k <= |values| then Some(values[k - 1]) else None
  }

  /** The likes of event `e`. */
  function LikesOf(likes: set<(UserId, EventId)>, e: EventId): set<(UserId, EventId)> {
    set p | p in likes && p.1 == e
  }

  /** `SELECT COUNT(*) FROM event_likes WHERE event_id = e`. */
  function LikeCount(likes: set<(UserId, EventId)>, e: EventId): nat {
    |LikesOf(likes, e)|
  }

  /** The attendance rows of event `e`, whatever their status. */
  function AttendeeKeysOf(attendees: map<(UserId, EventId), AttendStatus>, e: EventId): set<(UserId, EventId)> {
    set k | k in attendees && k.1 == e
  }

  /** `SELECT COUNT(*) FROM event_attendees WHERE event_id = e`. */
  function AttendeeCount(attendees: map<(UserId, EventId), AttendStatus>, e: EventId): nat {
    |AttendeeKeysOf(attendees, e)|
  }

  /** `SELECT ... FROM events WHERE id = $1`, first row or nothing. */
  function FindEvent(events: seq<Event>, id: EventId): (r: Option<Event>)
    ensures r.Some? ==> r.value in events && r.value.id == id
    ensures r.None? <==> forall i :: 0 <= i < |events| ==> events[i].id != id
  {
    if events == [] then None
    else if events[0].id == id then Some(events[0])
    else FindEvent(events[1..], id)
  }

  /** Event ids are unique: `id` is the primary key. */
  predicate UniqueIds(events: seq<Event>) {
    forall i, j | 0 <= i < j < |events| :: events[i].id != events[j].id
  }

  /** The comments of one event, in table order. */
  function CommentsOf(comments: seq<Comment>, eventId: EventId): (r: seq<Comment>)
    ensures |r| <= |comments|
    ensures forall i :: 0 <= i < |r| ==> r[i] in comments && r[i].eventId == eventId
    ensures forall c | c in comments && c.eventId == eventId :: c in r
  {
    if comments == [] then []
    else if comments[0].eventId == eventId then [comments[0]] + CommentsOf(comments[1..], eventId)
    else CommentsOf(comments[1..], eventId)
  }

  /** The `created_at` key of `ORDER BY created_at`. */
  function CommentTime(c: Comment): real {
    c.createdAt as real
  }

  /** Any `ORDER BY created_at DESC` of an event's comments lists exactly that event's comments. */
  lemma OrderedComments(comments: seq<Comment>, eventId: EventId, ordered: seq<Comment>)
    requires IsDescOrdering(CommentsOf(comments, eventId), ordered, CommentTime)
    ensures |ordered| == |CommentsOf(comments, eventId)|
    ensures forall i :: 0 <= i < |ordered| ==> ordered[i] in comments && ordered[i].eventId == eventId
  {
    var c := CommentsOf(comments, eventId);
    assert |ordered| == |multiset(ordered)| == |multiset(c)| == |c|;
    forall i | 0 <= i < |ordered| ensures ordered[i] in comments && ordered[i].eventId == eventId {
      assert ordered[i] in multiset(c);
    }
  }
}
