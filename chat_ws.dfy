/**
 * The lobby chat's WebSocket side (`chat/chat.ws.ts`): the in-memory map
 * from event id to the sockets in its room, broadcasting to a room, the
 * handling of one incoming message, and the checks an upgrade request
 * passes before its socket joins a room.
 */
module ChatWs {
  import opened Wrappers
  import opened Text
  import opened Json
  import opened Schema
  import opened ChatService
  import opened Users

  /** A connected socket, by identity. */
  type Socket = nat

  type Rooms = map<EventId, set<Socket>>

  const MaxMessageLength: nat := 1000
  const LobbyClosed: string := "Event lobby is closed"
  const ContentInvalid: string := "Message content invalid"
  const ProcessingFailed: string := "Failed to process message"

  /** The invariant `leaveRoom` keeps: no event maps to an empty room. */
  predicate NoEmptyRoom(rooms: Rooms) {
    forall e | e in rooms :: rooms[e] != {}
  }

  /** The map after `joinRoom(e, ws)`. */
  function Joined(rooms: Rooms, e: EventId, ws: Socket): (r: Rooms)
    ensures e in r && ws in r[e]
    ensures e in rooms ==> r[e] == rooms[e] + {ws}
    ensures e !in rooms ==> r[e] == {ws}
    ensures forall f | f != e :: (f in r <==> f in rooms) && (f in rooms ==> r[f] == rooms[f])
    ensures NoEmptyRoom(rooms) ==> NoEmptyRoom(r)
  {
    rooms[e := (if e in rooms then rooms[e] else {}) + {ws}]
  }

  /** The map after `leaveRoom(e, ws)`. */
  function Left(rooms: Rooms, e: EventId, ws: Socket): (r: Rooms)
    ensures e !in rooms ==> r == rooms
    ensures e in r ==> e in rooms && r[e] == rooms[e] - {ws} && r[e] != {}
    ensures e in rooms && rooms[e] - {ws} != {} ==> e in r
    ensures forall f | f != e :: (f in r <==> f in rooms) && (f in rooms ==> r[f] == rooms[f])
    ensures NoEmptyRoom(rooms) ==> NoEmptyRoom(r)
  {
    if e !in rooms then rooms
    else if rooms[e] - {ws} == {} then rooms - {e}
    else rooms[e := rooms[e] - {ws}]
  }

  /** A socket that was not in the room joins and leaves again: the map is as before. */
  lemma JoinThenLeave(rooms: Rooms, e: EventId, ws: Socket)
    requires NoEmptyRoom(rooms)
    requires e in rooms ==> ws !in rooms[e]
    ensures Left(Joined(rooms, e, ws), e, ws) == rooms
  {
    if e in rooms {
      assert rooms[e] + {ws} - {ws} == rooms[e];
    }
  }

  /** The sockets `broadcast(e, data, exclude)` sends to; `open` are those whose `readyState` is `OPEN`. */
  function Targets(rooms: Rooms, e: EventId, exclude: Option<Socket>, open: set<Socket>): set<Socket> {
    if e !in rooms then {} else set c | c in rooms[e] && Some(c) != exclude && c in open
  }

  /** Without `exclude`, every open member receives the message, the sender included. */
  lemma NoExcludeReachesSender(rooms: Rooms, e: EventId, sender: Socket, open: set<Socket>)
    requires e in rooms && sender in rooms[e] && sender in open
    ensures sender in Targets(rooms, e, None, open)
    ensures sender !in Targets(rooms, e, Some(sender), open)
  {
  }

  /** What one incoming frame looks like after `JSON.parse`. */
  datatype Incoming =
    | NotJson            // JSON.parse throws
    | NullJson           // the frame is `null`: reading `.content` throws
    | Parsed(content: Value) // any other value; `content` is Undefined when it has no such property

  /**
   * `(parsed.content ?? '').trim()` and the length check. A `content`
   * that is not a string makes `.trim` throw, which the handler reports
   * as a processing failure.
   */
  function CheckContent(msg: Incoming): (r: Result<string, string>)
    ensures r.Success? ==> msg.Parsed? && msg.content.Str? && r.value == Trim(msg.content.s)
    ensures r.Success? ==> 1 <= |r.value| <= MaxMessageLength
    ensures r == Failure(ContentInvalid) <==>
      msg.Parsed? && (msg.content.Undefined? || msg.content.Null? ||
                      (msg.content.Str? && (Trim(msg.content.s) == [] || |Trim(msg.content.s)| > MaxMessageLength)))
    ensures r == Failure(ProcessingFailed) <==>
      !msg.Parsed? || msg.content.Number? || msg.content.Bool? || msg.content.Other?
  {
    match msg
    case NotJson => Failure(ProcessingFailed)
    case NullJson => Failure(ProcessingFailed)
    case Parsed(v) =>
      match v
      case Undefined => Failure(ContentInvalid)
      case Null => Failure(ContentInvalid)
      case Str(s) =>
        var c := Trim(s);
        if c == [] || |c| > MaxMessageLength then Failure(ContentInvalid) else Success(c)
      case _ => Failure(ProcessingFailed)
  }

  /** Whitespace-only content is rejected. */
  lemma BlankContentInvalid(s: string)
    requires forall i :: 0 <= i < |s| ==> IsSpace(s[i])
    ensures CheckContent(Parsed(Str(s))) == Failure(ContentInvalid)
  {
    TrimEmpty(s);
  }

  /** What the message handler does with one frame. */
  datatype Outcome =
    | CloseNotAuthenticated                       // ws.close(1008, 'Not authenticated')
    | SendError(error: string)                    // ws.send({ error })
    | Delivered(message: Comment, targets: set<Socket>)

  predicate Present(s: Option<string>) {
    s.Some? && s.value != ""
  }

  /** Splitting on `/`, skipping empty pieces: `cur` is the piece read so far. */
  function Segs(s: string, cur: string): (r: seq<string>)
    requires '/' !in cur
    ensures forall i :: 0 <= i < |r| ==> r[i] != "" && '/' !in r[i]
  {
    if s == [] then (if cur == "" then [] else [cur])
    else if s[0] == '/' then (if cur == "" then [] else [cur]) + Segs(s[1..], "")
    else Segs(s[1..], cur + [s[0]])
  }

  /** `pathname.split('/').filter(Boolean)`. */
  function Segments(path: string): seq<string> {
    Segs(path, "")
  }

  lemma {:induction false} SegsPiece(p: string, s: string, cur: string)
    requires '/' !in p && '/' !in cur
    ensures Segs(p + s, cur) == Segs(s, cur + p)
  {
    if p != [] {
      assert (p + s)[0] == p[0] && (p + s)[1..] == p[1..] + s;
      SegsPiece(p[1..], s, cur + [p[0]]);
      assert cur + [p[0]] + p[1..] == cur + p;
    } else {
      assert p + s == s && cur + p == cur;
    }
  }

  /** The event id of a chat path: the second non-empty segment after `chat`. */
  function ChatPathEventId(path: string): (r: Option<EventId>)
    ensures r.Some? ==> r.value != "" && '/' !in r.value
  {
    var parts := Segments(path);
    if |parts| < 2 || parts[0] != "chat" || parts[1] == "" then None else Some(parts[1])
  }

  /** A leading `/` is skipped. */
  lemma SegsSlash(s: string)
    ensures Segs("/" + s, "") == Segs(s, "")
  {
    assert ("/" + s)[1..] == s;
  }

  lemma ChatPathSegments(id: string, tail: string)
    requires id != "" && '/' !in id
    requires tail == [] || tail[0] == '/'
    ensures Segments("/chat/" + id + tail) == ["chat", id] + Segs(if tail == [] then [] else tail[1..], "")
  {
    var path := "/chat/" + id + tail;
    assert path == "/" + ("chat" + ("/" + (id + tail)));
    SegsSlash("chat" + ("/" + (id + tail)));
    assert Segments(path) == Segs("chat" + ("/" + (id + tail)), "");
    SegsPiece("chat", "/" + (id + tail), "");
    assert "" + "chat" == "chat";
    assert Segments(path) == Segs("/" + (id + tail), "chat");
    assert ("/" + (id + tail))[1..] == id + tail;
    assert Segs("/" + (id + tail), "chat") == ["chat"] + Segs(id + tail, "");
    SegsPiece(id, tail, "");
    assert "" + id == id;
    assert Segs(id + tail, "") == Segs(tail, id);
    if tail != [] {
      assert Segs(tail, id) == [id] + Segs(tail[1..], "");
      assert ["chat"] + ([id] + Segs(tail[1..], "")) == ["chat", id] + Segs(tail[1..], "");
    } else {
      assert Segs(tail, id) == [id];
      assert ["chat"] + [id] == ["chat", id] + Segs([], "");
    }
  }

  /** `/chat/<id>` names the event `<id>`, with or without more segments after it. */
  lemma ChatPathAccepted(id: string, rest: string)
    requires id != "" && '/' !in id
    ensures ChatPathEventId("/chat/" + id) == Some(id)
    ensures ChatPathEventId("/chat/" + id + "/" + rest) == Some(id)
  {
    ChatPathSegments(id, []);
    ChatPathSegments(id, "/" + rest);
    assert "/chat/" + id == "/chat/" + id + [];
    assert ("/" + rest)[0] == '/';
    assert "/chat/" + id + "/" + rest == "/chat/" + id + ("/" + rest);
  }

  /** A run of slashes has no segments. */
  lemma {:induction false} SegsOfSlashes(s: string)
    requires forall i :: 0 <= i < |s| ==> s[i] == '/'
    ensures Segs(s, "") == []
  {
    if s != [] {
      SegsOfSlashes(s[1..]);
    }
  }

  /**
   * Every path whose first segment is not `chat` is refused, whatever
   * follows it, and so is `/chat` followed by nothing but slashes.
   */
  lemma ChatPathRefusedAll(first: string, rest: string, slashes: string)
    requires first != "" && '/' !in first && first != "chat"
    requires forall i :: 0 <= i < |slashes| ==> slashes[i] == '/'
    ensures ChatPathEventId("/" + first) == None
    ensures ChatPathEventId("/" + first + "/" + rest) == None
    ensures ChatPathEventId("/chat" + slashes) == None
  {
    SegsSlash(first);
    SegsPiece(first, [], "");
    assert first + [] == first && "" + first == first;
    assert Segments("/" + first) == [first];
    SegsSlash(first + ("/" + rest));
    SegsPiece(first, "/" + rest, "");
    assert ("/" + rest)[1..] == rest;
    assert Segs("/" + rest, first) == [first] + Segs(rest, "");
    assert "/" + first + "/" + rest == "/" + (first + ("/" + rest));
    assert Segments("/" + first + "/" + rest)[0] == first;
    SegsSlash("chat" + slashes);
    SegsPiece("chat", slashes, "");
    assert "/chat" + slashes == "/" + ("chat" + slashes);
    assert "" + "chat" == "chat";
    if slashes == [] {
      assert Segments("/chat" + slashes) == ["chat"];
    } else {
      SegsOfSlashes(slashes[1..]);
      assert Segs(slashes, "chat") == ["chat"] + Segs(slashes[1..], "");
      assert Segments("/chat" + slashes) == ["chat"];
    }
  }

  /** Worked examples: `/chat`, `/chat/` and a path outside `chat` are refused. */
  lemma ChatPathRefused()
    ensures ChatPathEventId("/chat") == None
    ensures ChatPathEventId("/chat/") == None
    ensures ChatPathEventId("/lobby/e1") == None
  {
    SegsSlash("chat");
    SegsPiece("chat", [], "");
    assert "chat" + [] == "chat";
    assert "/chat" == "/" + "chat";
    SegsSlash("chat/");
    SegsPiece("chat", "/", "");
    assert "chat" + "/" == "chat/";
    assert "/chat/" == "/" + "chat/";
    assert Segs("/", "chat") == ["chat"] + Segs([], "");
    SegsSlash("lobby/e1");
    SegsPiece("lobby", "/e1", "");
    assert "lobby" + "/e1" == "lobby/e1";
    assert "/lobby/e1" == "/" + "lobby/e1";
  }

  /**
   * The checks of `handleUpgrade`, in order: a chat path, a non-empty
   * `token`, a token Clerk accepts with a non-empty user id, an active
   * lobby. `authenticate` stands for Clerk's verification.
   */
  function UpgradeDecision(path: string, token: Option<string>, authenticate: string -> Option<ClerkId>,
                           events: seq<Event>, now: Instant): (r: Option<(ClerkId, EventId)>)
    ensures r.Some? <==>
      && ChatPathEventId(path).Some?
      && Present(token)
      && Present(authenticate(token.value))
      && IsEventActive(events, ChatPathEventId(path).value, now)
    ensures r.Some? ==> r.value == (authenticate(token.value).value, ChatPathEventId(path).value)
  {
    match ChatPathEventId(path)
    case None => None
    case Some(eventId) =>
      if !Present(token) then None
      else
        var user := authenticate(token.value);
        if !Present(user) then None
        else if !IsEventActive(events, eventId, now) then None
        else Some((user.value, eventId))
  }

  /** The process-wide `rooms` map and the operations on it. */
  class Lobby {
    var rooms: Rooms

    predicate Valid()
      reads this
    {
      NoEmptyRoom(rooms)
    }

    constructor ()
      ensures Valid() && rooms == map[]
    {
      rooms := map[];
    }

    /** `joinRoom`. */
    method JoinRoom(e: EventId, ws: Socket)
      requires Valid()
      modifies this
      ensures Valid()
      ensures rooms == Joined(old(rooms), e, ws)
    {
      if e !in rooms {
        rooms := rooms[e := {}];
      }
      rooms := rooms[e := rooms[e] + {ws}];
    }

    /** `leaveRoom`. */
    method LeaveRoom(e: EventId, ws: Socket)
      requires Valid()
      modifies this
      ensures Valid()
      ensures rooms == Left(old(rooms), e, ws)
    {
      if e in rooms {
        rooms := rooms[e := rooms[e] - {ws}];
      }
      if e in rooms && rooms[e] == {} {
        rooms := rooms - {e};
      }
    }

    /** `broadcast`: the sockets of the room the payload is sent to. */
    method Broadcast(e: EventId, exclude: Option<Socket>, open: set<Socket>) returns (sent: set<Socket>)
      ensures sent == Targets(rooms, e, exclude, open)
    {
      sent := {};
      if e !in rooms {
        return;
      }
      var room := rooms[e];
      var remaining := room;
      while remaining != {}
        invariant remaining <= room
        invariant sent == set c | c in room && c !in remaining && Some(c) != exclude && c in open
        decreases |remaining|
      {
        var client :| client in remaining;
        if Some(client) != exclude && client in open {
          sent := sent + {client};
        }
        remaining := remaining - {client};
      }
    }

    /**
     * The connection's `message` handler for socket `ws`, whose `userId` and
     * `eventId` were set on upgrade. The lobby check, the insert and the
     * broadcast happen at `now`; `id` is the new row's generated id. As
     * written, `userId` (the Clerk id from the upgrade) goes into
     * `user_id` unresolved, so the insert succeeds only for a user id that is
     * an internal id.
     */
    method OnMessage(db: Database, ws: Socket, userId: Option<string>, eventId: Option<EventId>, msg: Incoming,
                     now: Instant, id: CommentId, open: set<Socket>) returns (out: Outcome)
      modifies db
      ensures !Present(userId) || !Present(eventId) ==>
        out == CloseNotAuthenticated && db.tables == old(db.tables)
      ensures Present(userId) && Present(eventId) && !IsEventActive(old(db.tables).events, eventId.value, now) ==>
        out == SendError(LobbyClosed) && db.tables == old(db.tables)
      ensures Present(userId) && Present(eventId) && IsEventActive(old(db.tables).events, eventId.value, now)
              && CheckContent(msg).Failure? ==>
        out == SendError(CheckContent(msg).error) && db.tables == old(db.tables)
      ensures Present(userId) && Present(eventId) && IsEventActive(old(db.tables).events, eventId.value, now)
              && CheckContent(msg).Success? && userId.value !in UserIds(old(db.tables.users)) ==>
        out == SendError(ProcessingFailed) && db.tables == old(db.tables)
      ensures Present(userId) && Present(eventId) && IsEventActive(old(db.tables).events, eventId.value, now)
              && CheckContent(msg).Success? && userId.value in UserIds(old(db.tables.users)) ==>
        var m := Comment(id, eventId.value, userId.value, CheckContent(msg).value, now);
        && out == Delivered(m, Targets(rooms, eventId.value, None, open))
        && db.tables == old(db.tables).(comments := old(db.tables.comments) + [m])
    {
      if !Present(userId) || !Present(eventId) {
        return CloseNotAuthenticated;
      }
      if !IsEventActive(db.tables.events, eventId.value, now) {
        return SendError(LobbyClosed);
      }
      match CheckContent(msg)
      case Failure(error) =>
        out := SendError(error);
      case Success(content) =>
        var saved := SaveMessage(db, userId.value, eventId.value, content, id, now);
        if saved.Failure? {
          return SendError(ProcessingFailed);
        }
        var targets := Broadcast(eventId.value, None, open);
        out := Delivered(saved.value, targets);
    }

    /**
     * The message handler with the socket's Clerk id resolved to its
     * internal id (`resolveDbUserId`) just before the insert; a Clerk id
     * without a profile takes the handler's `catch`.
     */
    method OnMessageResolved(db: Database, ws: Socket, clerkId: Option<string>, eventId: Option<EventId>, msg: Incoming,
                             now: Instant, id: CommentId, open: set<Socket>) returns (out: Outcome)
      modifies db
      ensures !Present(clerkId) || !Present(eventId) ==>
        out == CloseNotAuthenticated && db.tables == old(db.tables)
      ensures Present(clerkId) && Present(eventId) && !IsEventActive(old(db.tables).events, eventId.value, now) ==>
        out == SendError(LobbyClosed) && db.tables == old(db.tables)
      ensures Present(clerkId) && Present(eventId) && IsEventActive(old(db.tables).events, eventId.value, now)
              && CheckContent(msg).Failure? ==>
        out == SendError(CheckContent(msg).error) && db.tables == old(db.tables)
      ensures Present(clerkId) && Present(eventId) && IsEventActive(old(db.tables).events, eventId.value, now)
              && CheckContent(msg).Success? && clerkId.value !in old(db.tables.users) ==>
        out == SendError(ProcessingFailed) && db.tables == old(db.tables)
      ensures Present(clerkId) && Present(eventId) && IsEventActive(old(db.tables).events, eventId.value, now)
              && CheckContent(msg).Success? && clerkId.value in old(db.tables.users) ==>
        var m := Comment(id, eventId.value, old(db.tables.users)[clerkId.value], CheckContent(msg).value, now);
        && out == Delivered(m, Targets(rooms, eventId.value, None, open))
        && db.tables == old(db.tables).(comments := old(db.tables.comments) + [m])
    {
      if !Present(clerkId) || !Present(eventId) {
        return CloseNotAuthenticated;
      }
      if !IsEventActive(db.tables.events, eventId.value, now) {
        return SendError(LobbyClosed);
      }
      match CheckContent(msg)
      case Failure(error) =>
        out := SendError(error);
      case Success(content) =>
        var userId := ResolveDbUserId(db.tables.users, clerkId.value);
        if userId.Failure? {
          return SendError(ProcessingFailed);
        }
        var saved := SaveMessage(db, userId.value, eventId.value, content, id, now);
        assert saved.Success?;
        var targets := Broadcast(eventId.value, None, open);
        out := Delivered(saved.value, targets);
    }

    /**
     * `handleUpgrade` for the socket `ws` the upgrade would create: join
     * the room when every check passes, leave the rooms alone otherwise.
     */
    method HandleUpgrade(path: string, token: Option<string>, authenticate: string -> Option<ClerkId>,
                         events: seq<Event>, now: Instant, ws: Socket) returns (accepted: Option<(ClerkId, EventId)>)
      requires Valid()
      modifies this
      ensures Valid()
      ensures accepted == UpgradeDecision(path, token, authenticate, events, now)
      ensures accepted.Some? ==> rooms == Joined(old(rooms), accepted.value.1, ws)
      ensures accepted.None? ==> rooms == old(rooms)
    {
      accepted := UpgradeDecision(path, token, authenticate, events, now);
      if accepted.Some? {
        JoinRoom(accepted.value.1, ws);
      }
    }
  }
}
