/**
 * The follow system (`users/users.service.ts`) and the Clerk-id lookup it
 * starts with (`lib/resolveUser.ts`): the follow toggle over `user_follows`
 * and the two listing queries ordered by the time of following.
 */
module Users {
  import opened Wrappers
  import opened Schema
  import opened Ordering

  const ProfileNotFound: string :=
    "User profile not found. Please sign out and sign back in to complete account setup."
  const CannotFollowSelf: string := "You cannot follow yourself"

  /** `resolveDbUserId`: the internal id of the Clerk user, or a 401 when `users` has no such row. */
  function ResolveDbUserId(users: map<ClerkId, UserId>, clerkId: ClerkId): (r: Result<UserId, Failure>)
    ensures r.Failure? <==> clerkId !in users
    ensures r.Failure? ==> r.error == AppError(401, ProfileNotFound)
    ensures r.Success? ==> r.value == users[clerkId]
  {
    if clerkId in users then Success(users[clerkId]) else Failure(AppError(401, ProfileNotFound))
  }

  /**
   * `user_follows` after toggling `(followerId, followingId)`: the row is
   * deleted when present, inserted with `created_at = now` otherwise.
   */
  function ToggledFollows(follows: map<(UserId, UserId), Instant>, followerId: UserId, followingId: UserId, now: Instant)
    : (r: map<(UserId, UserId), Instant>)
    ensures (followerId, followingId) in r <==> (followerId, followingId) !in follows
    ensures (followerId, followingId) in r ==> r[(followerId, followingId)] == now
    ensures forall k | k != (followerId, followingId) :: (k in r <==> k in follows) && (k in r ==> r[k] == follows[k])
  {
    if (followerId, followingId) in follows then follows - {(followerId, followingId)}
    else follows[(followerId, followingId) := now]
  }

  /**
   * Toggling twice restores which pairs follow; starting from "not
   * following" it restores the table exactly (a re-follow gets a new time).
   */
  lemma ToggleFollowTwice(follows: map<(UserId, UserId), Instant>, followerId: UserId, followingId: UserId, now: Instant, later: Instant)
    ensures ToggledFollows(ToggledFollows(follows, followerId, followingId, now), followerId, followingId, later).Keys == follows.Keys
    ensures (followerId, followingId) !in follows ==>
      ToggledFollows(ToggledFollows(follows, followerId, followingId, now), followerId, followingId, later) == follows
  {
    var twice := ToggledFollows(ToggledFollows(follows, followerId, followingId, now), followerId, followingId, later);
    assert forall k :: k in twice <==> k in follows;
  }

  /**
   * `toggleFollow`: resolve the follower (401 before anything else), refuse
   * following oneself (400, nothing changes), then unfollow (`false`) or
   * follow (`true`). `now` is the `created_at` default of a new row.
   */
  method ToggleFollow(db: Database, followerClerkId: ClerkId, followingId: UserId, now: Instant)
    returns (r: Result<bool, Failure>)
    modifies db
    ensures followerClerkId !in old(db.tables.users) ==>
      r == Failure(AppError(401, ProfileNotFound)) && db.tables == old(db.tables)
    ensures followerClerkId in old(db.tables.users) && old(db.tables.users)[followerClerkId] == followingId ==>
      r == Failure(AppError(400, CannotFollowSelf)) && db.tables == old(db.tables)
    ensures followerClerkId in old(db.tables.users) && old(db.tables.users)[followerClerkId] != followingId ==>
      && r.Success?
      && db.tables == old(db.tables).(follows := ToggledFollows(old(db.tables.follows), old(db.tables.users)[followerClerkId], followingId, now))
      && (r.value <==> (old(db.tables.users)[followerClerkId], followingId) in db.tables.follows)
  {
    var followerDbId := ResolveDbUserId(db.tables.users, followerClerkId);
    if followerDbId.Failure? {
      return Failure(followerDbId.error);
    }
    if followerDbId.value == followingId {
      return Failure(AppError(400, CannotFollowSelf));
    }
    var pair := (followerDbId.value, followingId);
    if pair in db.tables.follows {
      db.tables := db.tables.(follows := db.tables.follows - {pair});
      r := Success(false);
    } else {
      db.tables := db.tables.(follows := db.tables.follows[pair := now]);
      r := Success(true);
    }
  }

  /** The internal ids that have a `users` row. */
  function UserIds(users: map<ClerkId, UserId>): set<UserId> {
    users.Values
  }

  /** A hexadecimal digit as `gen_random_uuid()` writes it, in lower case. */
  predicate IsHexDigit(c: char) {
    '0' <= c <= '9' || 'a' <= c <= 'f'
  }

  /** The text form of a UUID: 36 characters, dashes at 8, 13, 18 and 23, hex digits elsewhere. */
  predicate IsUuid(s: string) {
    |s| == 36 && forall i :: 0 <= i < |s| ==> if i == 8 || i == 13 || i == 18 || i == 23 then s[i] == '-' else IsHexDigit(s[i])
  }

  /** Internal ids are `gen_random_uuid()` values, as the profile sync inserts them. */
  predicate InternalIdsAreUuids(users: map<ClerkId, UserId>) {
    forall c | c in users :: IsUuid(users[c])
  }

  /** A Clerk user id: `user_` and at least one more character. */
  predicate IsClerkUserId(c: ClerkId) {
    |c| > 5 && c[..5] == "user_"
  }

  /** A Clerk user id is never an internal id: the two id spaces are disjoint. */
  lemma ClerkIdIsNoUserId(users: map<ClerkId, UserId>, clerkId: ClerkId)
    requires InternalIdsAreUuids(users)
    requires IsClerkUserId(clerkId)
    ensures clerkId !in UserIds(users)
  {
    assert clerkId[4] == '_';
    forall c | c in users
      ensures users[c] != clerkId
    {
      assert IsUuid(users[c]);
      assert IsHexDigit(users[c][4]);
    }
  }

  /** Every follow row names two existing users (the foreign keys of `user_follows`). */
  predicate FollowsReferenceUsers(t: Tables) {
    forall k | k in t.follows :: k.0 in UserIds(t.users) && k.1 in UserIds(t.users)
  }

  /** The users the `INNER JOIN` of `getFollowers(u)` finds: those who follow `u`. */
  function FollowerSet(t: Tables, u: UserId): set<UserId> {
    set k | k in t.follows && k.1 == u && k.0 in UserIds(t.users) :: k.0
  }

  /** The users the `INNER JOIN` of `getFollowing(u)` finds: those `u` follows. */
  function FollowingSet(t: Tables, u: UserId): set<UserId> {
    set k | k in t.follows && k.0 == u && k.1 in UserIds(t.users) :: k.1
  }

  /** The `f.created_at` of follower `f`'s row for `u`, the key of `getFollowers`' `ORDER BY`. */
  function FollowerTime(t: Tables, u: UserId): UserId -> real {
    f => if (f, u) in t.follows then t.follows[(f, u)] as real else 0.0
  }

  /** The `f.created_at` of `u`'s row for followed user `g`, the key of `getFollowing`' `ORDER BY`. */
  function FollowingTime(t: Tables, u: UserId): UserId -> real {
    g => if (u, g) in t.follows then t.follows[(u, g)] as real else 0.0
  }

  /** One of the answers `getFollowers(u)` may give: each follower once, newest follow first. */
  predicate IsFollowersResult(t: Tables, u: UserId, rows: seq<UserId>) {
    Enumerates(rows, FollowerSet(t, u)) && NonIncreasing(rows, FollowerTime(t, u))
  }

  /** One of the answers `getFollowing(u)` may give: each followed user once, newest follow first. */
  predicate IsFollowingResult(t: Tables, u: UserId, rows: seq<UserId>) {
    Enumerates(rows, FollowingSet(t, u)) && NonIncreasing(rows, FollowingTime(t, u))
  }

  /** A permutation of a listing without repeats lists the same set without repeats. */
  lemma PermutedEnumeration<T>(s: seq<T>, r: seq<T>, elems: set<T>)
    requires Enumerates(s, elems) && multiset(r) == multiset(s)
    ensures Enumerates(r, elems)
  {
    forall i, j | 0 <= i < j < |r| ensures r[i] != r[j] {
      if r[i] == r[j] {
        assert multiset(r)[r[i]] >= 2 by {
          assert r == r[..i] + [r[i]] + r[i + 1..j] + [r[j]] + r[j + 1..];
          assert multiset(r) == multiset(r[..i]) + multiset{r[i]} + multiset(r[i + 1..j]) + multiset{r[j]} + multiset(r[j + 1..]);
        }
        DistinctCountsOne(s, r[i]);
      }
    }
    forall x | x in r ensures x in elems {
      assert x in multiset(s);
    }
    forall x | x in elems ensures x in r {
      assert x in multiset(r);
    }
  }

  /** In a sequence without repeats every element occurs at most once. */
  lemma {:induction false} DistinctCountsOne<T>(s: seq<T>, x: T)
    requires Distinct(s)
    ensures multiset(s)[x] <= 1
  {
    if s != [] {
      assert s == [s[0]] + s[1..];
      assert Distinct(s[1..]) by {
        forall i, j | 0 <= i < j < |s[1..]| ensures s[1..][i] != s[1..][j] {
          assert s[1..][i] == s[i + 1] && s[1..][j] == s[j + 1];
        }
      }
      DistinctCountsOne(s[1..], x);
      if x == s[0] {
        assert x !in s[1..] by {
          forall i | 0 <= i < |s[1..]| ensures s[1..][i] != x {
            assert s[1..][i] == s[i + 1];
          }
        }
      }
    }
  }

  /** The queries always have an answer: list the set, then sort it by follow time. */
  lemma FollowersResultExists(t: Tables, u: UserId)
    ensures exists rows :: IsFollowersResult(t, u, rows)
    ensures exists rows :: IsFollowingResult(t, u, rows)
  {
    EnumerationExists(FollowerSet(t, u));
    var s :| Enumerates(s, FollowerSet(t, u));
    var r := SortDesc(s, FollowerTime(t, u));
    PermutedEnumeration(s, r, FollowerSet(t, u));
    assert IsFollowersResult(t, u, r);
    EnumerationExists(FollowingSet(t, u));
    var s' :| Enumerates(s', FollowingSet(t, u));
    var r' := SortDesc(s', FollowingTime(t, u));
    PermutedEnumeration(s', r', FollowingSet(t, u));
    assert IsFollowingResult(t, u, r');
  }

  /**
   * With the foreign keys in place, `getFollowers(u)` lists exactly the users
   * `f` with a row `(f, u)`, as many as there are such rows.
   */
  lemma FollowersAreFollowRows(t: Tables, u: UserId, rows: seq<UserId>)
    requires FollowsReferenceUsers(t) && IsFollowersResult(t, u, rows)
    ensures forall f :: f in rows <==> (f, u) in t.follows
    ensures |rows| == |FollowerSet(t, u)|
  {
    EnumerationLength(rows, FollowerSet(t, u));
    forall f | (f, u) in t.follows ensures f in rows {
      assert f in FollowerSet(t, u);
    }
  }

  /** `getFollowing` is the converse: `g` is listed for `u` iff `u` would be listed among `g`'s followers. */
  lemma FollowingIsConverse(t: Tables, u: UserId, g: UserId, following: seq<UserId>, followers: seq<UserId>)
    requires IsFollowingResult(t, u, following) && IsFollowersResult(t, g, followers)
    requires u in UserIds(t.users) && g in UserIds(t.users)
    ensures g in following <==> u in followers
  {
    if g in following {
      assert g in FollowingSet(t, u);
      assert (u, g) in t.follows;
      assert u in FollowerSet(t, g);
    }
    if u in followers {
      assert u in FollowerSet(t, g);
      assert (u, g) in t.follows;
      assert g in FollowingSet(t, u);
    }
  }

  /** After a successful toggle, the follower appears in any listing of the followed user's followers iff the result is `true`. */
  lemma ToggleShowsInFollowers(t: Tables, followerId: UserId, followingId: UserId, now: Instant, rows: seq<UserId>)
    requires followerId in UserIds(t.users)
    requires IsFollowersResult(t.(follows := ToggledFollows(t.follows, followerId, followingId, now)), followingId, rows)
    ensures followerId in rows <==> (followerId, followingId) !in t.follows
  {
    var t' := t.(follows := ToggledFollows(t.follows, followerId, followingId, now));
    if (followerId, followingId) !in t.follows {
      assert (followerId, followingId) in t'.follows;
      assert followerId in FollowerSet(t', followingId);
    }
  }
}
