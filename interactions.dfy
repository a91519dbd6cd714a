/**
 * Likes and attendance (`interactions/interactions.service.ts`): the like
 * toggle over `event_likes` and the attendance upsert over
 * `event_attendees`, each followed by a count of the event's rows.
 */
module Interactions {
  import opened Wrappers
  import opened Json
  import opened Schema

  // ───────────────────────────── likes ─────────────────────────────

  /** The like set after toggling `(userId, eventId)`: removed when present, added otherwise. */
  function ToggledLikes(likes: set<(UserId, EventId)>, userId: UserId, eventId: EventId): (r: set<(UserId, EventId)>)
    ensures (userId, eventId) in r <==> (userId, eventId) !in likes
    ensures forall p | p != (userId, eventId) :: p in r <==> p in likes
  {
    if (userId, eventId) in likes then likes - {(userId, eventId)} else likes + {(userId, eventId)}
  }

  /** Toggling the same pair twice gives the original likes back. */
  lemma ToggleTwiceRestores(likes: set<(UserId, EventId)>, userId: UserId, eventId: EventId)
    ensures ToggledLikes(ToggledLikes(likes, userId, eventId), userId, eventId) == likes
  {
  }

  /** The event's like count goes down by one on an unlike and up by one on a like. */
  lemma ToggleCount(likes: set<(UserId, EventId)>, userId: UserId, eventId: EventId)
    ensures (userId, eventId) in likes ==>
      LikeCount(ToggledLikes(likes, userId, eventId), eventId) == LikeCount(likes, eventId) - 1
    ensures (userId, eventId) !in likes ==>
      LikeCount(ToggledLikes(likes, userId, eventId), eventId) == LikeCount(likes, eventId) + 1
  {
    var p := (userId, eventId);
    if p in likes {
      assert LikesOf(ToggledLikes(likes, userId, eventId), eventId) == LikesOf(likes, eventId) - {p};
    } else {
      assert LikesOf(ToggledLikes(likes, userId, eventId), eventId) == LikesOf(likes, eventId) + {p};
    }
  }

  /** The like counts of other events do not move. */
  lemma ToggleOtherEvents(likes: set<(UserId, EventId)>, userId: UserId, eventId: EventId, other: EventId)
    requires other != eventId
    ensures LikeCount(ToggledLikes(likes, userId, eventId), other) == LikeCount(likes, other)
  {
    assert LikesOf(ToggledLikes(likes, userId, eventId), other) == LikesOf(likes, other);
  }

  /**
   * `toggleLike`: delete the pair's like if there is one (`liked = false`),
   * insert it otherwise (`liked = true`), then count the event's likes.
   */
  method ToggleLike(db: Database, userId: UserId, eventId: EventId) returns (liked: bool, likeCount: nat)
    modifies db
    ensures db.tables == old(db.tables).(likes := ToggledLikes(old(db.tables.likes), userId, eventId))
    ensures liked <==> (userId, eventId) !in old(db.tables.likes)
    ensures liked <==> (userId, eventId) in db.tables.likes
    ensures likeCount == LikeCount(db.tables.likes, eventId)
  {
    var existing := (userId, eventId) in db.tables.likes;
    if existing {
      db.tables := db.tables.(likes := db.tables.likes - {(userId, eventId)});
      liked := false;
    } else {
      db.tables := db.tables.(likes := db.tables.likes + {(userId, eventId)});
      liked := true;
    }
    likeCount := LikeCount(db.tables.likes, eventId);
  }

  // ─────────────────────────── attendance ───────────────────────────

  const StatusMessage: string := "status must be one of: going, interested"

  /** The route's whitelist (`VALID_STATUSES`): only `going` and `interested` reach the service. */
  function StatusOf(v: Value): (r: Option<AttendStatus>)
    ensures r == Some(Going) <==> v == Str("going")
    ensures r == Some(Interested) <==> v == Str("interested")
  {
    if v == Str("going") then Some(Going)
    else if v == Str("interested") then Some(Interested)
    else None
  }

  /**
   * `INSERT ... ON CONFLICT (user_id, event_id) DO UPDATE SET status`: the
   * pair has exactly one row afterwards, carrying `status`.
   */
  function Upserted(attendees: map<(UserId, EventId), AttendStatus>, userId: UserId, eventId: EventId, status: AttendStatus)
    : (r: map<(UserId, EventId), AttendStatus>)
    ensures (userId, eventId) in r && r[(userId, eventId)] == status
    ensures forall k | k != (userId, eventId) :: (k in r <==> k in attendees) && (k in r ==> r[k] == attendees[k])
  {
    attendees[(userId, eventId) := status]
  }

  /** Marking the same attendance again changes nothing. */
  lemma UpsertIdempotent(attendees: map<(UserId, EventId), AttendStatus>, userId: UserId, eventId: EventId, status: AttendStatus)
    ensures Upserted(Upserted(attendees, userId, eventId, status), userId, eventId, status)
      == Upserted(attendees, userId, eventId, status)
  {
  }

  /**
   * The attendee count rises by one for a new attendee and stays put for a
   * status change: rows of every status are counted.
   */
  lemma UpsertCount(attendees: map<(UserId, EventId), AttendStatus>, userId: UserId, eventId: EventId, status: AttendStatus)
    ensures (userId, eventId) in attendees ==>
      AttendeeCount(Upserted(attendees, userId, eventId, status), eventId) == AttendeeCount(attendees, eventId)
    ensures (userId, eventId) !in attendees ==>
      AttendeeCount(Upserted(attendees, userId, eventId, status), eventId) == AttendeeCount(attendees, eventId) + 1
  {
    var k := (userId, eventId);
    if k in attendees {
      assert AttendeeKeysOf(Upserted(attendees, userId, eventId, status), eventId) == AttendeeKeysOf(attendees, eventId);
    } else {
      assert AttendeeKeysOf(Upserted(attendees, userId, eventId, status), eventId) == AttendeeKeysOf(attendees, eventId) + {k};
    }
  }

  /** `markAttendance`: upsert the pair's row, then count the event's rows of any status. */
  method MarkAttendance(db: Database, userId: UserId, eventId: EventId, status: AttendStatus)
    returns (resultStatus: AttendStatus, attendeeCount: nat)
    modifies db
    ensures db.tables == old(db.tables).(attendees := Upserted(old(db.tables.attendees), userId, eventId, status))
    ensures resultStatus == status
    ensures attendeeCount == AttendeeCount(db.tables.attendees, eventId)
  {
    db.tables := db.tables.(attendees := db.tables.attendees[(userId, eventId) := status]);
    attendeeCount := AttendeeCount(db.tables.attendees, eventId);
    resultStatus := status;
  }
}
