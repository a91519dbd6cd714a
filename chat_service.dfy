/**
 * The lobby chat's database side (`chat/chat.service.ts`): whether an
 * event's lobby is open, saving a message into `event_comments`, and the
 * most recent messages of an open lobby.
 */
module ChatService {
  import opened Wrappers
  import opened Schema
  import opened Ranking
  import opened Ordering
  import opened Users

  const DefaultMessageLimit: nat := 50
  const UserIdRefused: string := "event_comments.user_id must be a users.id"

  /**
   * `isEventActive`: the event's row, if there is one, is live at `now`;
   * a missing event is inactive (`rows[0]?.active ?? false`).
   */
  function IsEventActive(events: seq<Event>, eventId: EventId, now: Instant): (active: bool)
    ensures FindEvent(events, eventId).None? ==> !active
    ensures FindEvent(events, eventId).Some? ==>
      (active <==> IsLive(FindEvent(events, eventId).value.start, FindEvent(events, eventId).value.end, now))
  {
    match FindEvent(events, eventId)
    case None => false
    case Some(e) => e.start <= now && e.end > now
  }

  /** An active lobby belongs to an existing event that has started and not yet ended. */
  lemma ActiveMeansLive(events: seq<Event>, eventId: EventId, now: Instant)
    requires UniqueIds(events)
    ensures IsEventActive(events, eventId, now) <==>
      exists i :: 0 <= i < |events| && events[i].id == eventId && events[i].start <= now < events[i].end
  {
    if IsEventActive(events, eventId, now) {
      var e := FindEvent(events, eventId).value;
      var i :| 0 <= i < |events| && events[i] == e;
    }
    if exists i :: 0 <= i < |events| && events[i].id == eventId && events[i].start <= now < events[i].end {
      var i :| 0 <= i < |events| && events[i].id == eventId && events[i].start <= now < events[i].end;
      var e := FindEvent(events, eventId).value;
      var j :| 0 <= j < |events| && events[j] == e;
      assert i == j;
    }
  }

  /**
   * `saveMessage`: insert one row. The id (`gen_random_uuid()`) and the
   * `created_at` default are given by the database and are parameters here.
   * `user_id` holds a `users.id`, a UUID the column references, so a user id
   * that is not one makes the insert fail and changes nothing.
   */
  method SaveMessage(db: Database, userId: UserId, eventId: EventId, content: string, id: CommentId, createdAt: Instant)
    returns (r: Result<Comment, Failure>)
    modifies db
    ensures userId in UserIds(old(db.tables.users)) ==>
      && r == Success(Comment(id, eventId, userId, content, createdAt))
      && db.tables == old(db.tables).(comments := old(db.tables.comments) + [r.value])
    ensures userId !in UserIds(old(db.tables.users)) ==>
      r == Failure(DbError(UserIdRefused)) && db.tables == old(db.tables)
  {
    if userId !in UserIds(db.tables.users) {
      return Failure(DbError(UserIdRefused));
    }
    var message := Comment(id, eventId, userId, content, createdAt);
    db.tables := db.tables.(comments := db.tables.comments + [message]);
    r := Success(message);
  }

  /**
   * `getRecentMessages` at `now`: nothing for an inactive lobby, otherwise
   * the event's messages newest first, at most `limit`. `ordered` is the
   * order PostgreSQL chose for `ORDER BY created_at DESC`.
   */
  function GetRecentMessages(t: Tables, eventId: EventId, now: Instant, ordered: seq<Comment>, limit: nat := DefaultMessageLimit): (r: seq<Comment>)
    requires IsDescOrdering(CommentsOf(t.comments, eventId), ordered, CommentTime)
    ensures !IsEventActive(t.events, eventId, now) ==> r == []
    ensures IsEventActive(t.events, eventId, now) ==> |r| == Min(limit, |CommentsOf(t.comments, eventId)|)
    ensures IsEventActive(t.events, eventId, now) ==> forall i :: 0 <= i < |r| ==> i < |ordered| && r[i] == ordered[i]
    ensures forall i :: 0 <= i < |r| ==> r[i] in t.comments && r[i].eventId == eventId
    ensures NonIncreasing(r, CommentTime)
  {
    if !IsEventActive(t.events, eventId, now) then []
    else
      OrderedComments(t.comments, eventId, ordered);
      Take(ordered, limit)
  }

  /**
   * `LIMIT` keeps the newest messages: what an active lobby shows is among
   * the event's comments, and no comment of the event left out is newer
   * than one shown.
   */
  lemma RecentMessagesAreNewest(t: Tables, eventId: EventId, now: Instant, ordered: seq<Comment>, limit: nat)
    requires IsDescOrdering(CommentsOf(t.comments, eventId), ordered, CommentTime)
    requires IsEventActive(t.events, eventId, now)
    ensures var r := GetRecentMessages(t, eventId, now, ordered, limit);
      && multiset(r) <= multiset(CommentsOf(t.comments, eventId))
      && forall c | c in multiset(CommentsOf(t.comments, eventId)) - multiset(r) ::
           forall i :: 0 <= i < |r| ==> c.createdAt <= r[i].createdAt
  {
    DescLimitKeepsTop(CommentsOf(t.comments, eventId), ordered, CommentTime, limit);
  }

  /**
   * After a message is saved to an active lobby, the lobby's recent messages
   * list it when it is newer than the event's other comments.
   */
  lemma SavedMessageIsListed(t: Tables, m: Comment, now: Instant, ordered: seq<Comment>, limit: nat)
    requires limit >= 1
    requires IsEventActive(t.events, m.eventId, now)
    requires forall c | c in t.comments && c.eventId == m.eventId :: c.createdAt < m.createdAt
    requires IsDescOrdering(CommentsOf(t.comments + [m], m.eventId), ordered, CommentTime)
    ensures m in GetRecentMessages(t.(comments := t.comments + [m]), m.eventId, now, ordered, limit)
  {
    var t' := t.(comments := t.comments + [m]);
    var rows := CommentsOf(t'.comments, m.eventId);
    var r := GetRecentMessages(t', m.eventId, now, ordered, limit);
    assert m in rows;
    assert r == Take(ordered, limit);
    RecentMessagesAreNewest(t', m.eventId, now, ordered, limit);
    assert |rows| >= 1 && |r| >= 1;
    if m !in r {
      assert false;
    }
  }
}
