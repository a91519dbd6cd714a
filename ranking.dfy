/**
 * The feed's ranking formula and the liveness predicate it boosts on
 * (`recommendations/ranking.util.ts`). Instants are microseconds; the time decay
 * `EXP(-0.1 * hours)` is floating point, so it enters as a parameter obeying
 * `DecayLaw`.
 */
module Ranking {
  import opened Schema

  const LikeWeight: real := 2.0
  const AttendeeWeight: real := 1.5
  const LiveMultiplier: real := 2.0
  const MicrosecondsPerHour: real := 3600000000.0

  /** `IS_LIVE_SQL`: `start_time <= NOW() AND end_time > NOW()`; the end is exclusive. */
  predicate IsLive(start: Instant, end: Instant, now: Instant) {
    start <= now && end > now
  }

  /** Live at the first instant, no longer live at the end instant. */
  lemma LiveBoundaries(start: Instant, end: Instant, now: Instant)
    ensures start < end ==> IsLive(start, end, start)
    ensures !IsLive(start, end, end)
    ensures IsLive(start, end, now) ==> !IsLive(start, end, end)
  {
  }

  /** The `CASE` of the score: 2.0 when the event is live, 1.0 otherwise. */
  function Boost(start: Instant, end: Instant, now: Instant): (b: real)
    ensures IsLive(start, end, now) ==> b == LiveMultiplier
    ensures !IsLive(start, end, now) ==> b == 1.0
  {
    if start <= now && end > now then 2.0 else 1.0
  }

  /**
   * `EXTRACT(EPOCH FROM (NOW() - created_at)) / 3600.0`: the epoch is in
   * seconds with microsecond fraction, so the age is microseconds over
   * 3600 * 10^6. Negative for a future `created_at`.
   */
  function AgeHours(createdAt: Instant, now: Instant): (h: real)
    ensures createdAt <= now <==> h >= 0.0
  {
    (now - createdAt) as real / MicrosecondsPerHour
  }

  /**
   * The law the model asks of `EXP(-0.1 * h)`: one at age zero, positive,
   * and strictly decreasing in the age.
   */
  ghost predicate DecayLaw(decay: real -> real) {
    && decay(0.0) == 1.0
    && (forall h :: decay(h) > 0.0)
    && (forall h1, h2 :: h1 < h2 ==> decay(h2) < decay(h1))
  }

  /** `(likes * 2.0 + attendees * 1.5)`. */
  function Base(likes: nat, attendees: nat): (b: real)
    ensures b >= 0.0
    ensures b == 0.0 <==> likes == 0 && attendees == 0
  {
    likes as real * LikeWeight + attendees as real * AttendeeWeight
  }

  /** `base * decay * boost` for a given decay factor and boost. */
  function Score(likes: nat, attendees: nat, decayFactor: real, boost: real): (r: real)
    ensures likes == 0 && attendees == 0 ==> r == 0.0
    ensures decayFactor > 0.0 && boost > 0.0 ==> (r > 0.0 <==> likes + attendees > 0)
  {
    var b := Base(likes, attendees);
    assert b > 0.0 && decayFactor > 0.0 && boost > 0.0 ==> b * decayFactor > 0.0;
    b * decayFactor * boost
  }

  /** The score the feed query computes for one event at `now`. */
  function EventScore(likes: nat, attendees: nat, decay: real -> real, e: Event, now: Instant): real {
    Score(likes, attendees, decay(AgeHours(e.createdAt, now)), Boost(e.start, e.end, now))
  }

  /** A live event scores exactly twice what the same counts and age score when not live. */
  lemma LiveDoublesScore(likes: nat, attendees: nat, decayFactor: real)
    ensures Score(likes, attendees, decayFactor, LiveMultiplier) == 2.0 * Score(likes, attendees, decayFactor, 1.0)
  {
  }

  /** Each like adds `2 * decay * boost`, each attendee `1.5 * decay * boost`. */
  lemma {:induction false} Weights(likes: nat, attendees: nat, decayFactor: real, boost: real)
    ensures Score(likes + 1, attendees, decayFactor, boost)
         == Score(likes, attendees, decayFactor, boost) + LikeWeight * decayFactor * boost
    ensures Score(likes, attendees + 1, decayFactor, boost)
         == Score(likes, attendees, decayFactor, boost) + AttendeeWeight * decayFactor * boost
  {
    var b := Base(likes, attendees);
    assert Base(likes + 1, attendees) == b + LikeWeight;
    assert Base(likes, attendees + 1) == b + AttendeeWeight;
    assert (b + LikeWeight) * decayFactor * boost == b * decayFactor * boost + LikeWeight * decayFactor * boost;
    assert (b + AttendeeWeight) * decayFactor * boost == b * decayFactor * boost + AttendeeWeight * decayFactor * boost;
  }

  /** With decay and boost fixed (and non-negative), more likes or attendees never lower the score. */
  lemma ScoreMonotone(l1: nat, l2: nat, a1: nat, a2: nat, decayFactor: real, boost: real)
    requires l1 <= l2 && a1 <= a2
    requires decayFactor >= 0.0 && boost >= 0.0
    ensures Score(l1, a1, decayFactor, boost) <= Score(l2, a2, decayFactor, boost)
  {
    var b1, b2 := Base(l1, a1), Base(l2, a2);
    MulLeq(b1, b2, decayFactor);
    MulLeq(b1 * decayFactor, b2 * decayFactor, boost);
  }

  lemma MulLeq(a: real, b: real, c: real)
    requires a <= b && c >= 0.0
    ensures a * c <= b * c
  {
    assert b * c - a * c == (b - a) * c;
  }

  /**
   * Under `DecayLaw`, of two events with the same counts and the same
   * liveness, the older one never scores higher.
   */
  lemma OlderScoresLower(likes: nat, attendees: nat, decay: real -> real, older: Event, newer: Event, now: Instant)
    requires DecayLaw(decay)
    requires older.createdAt <= newer.createdAt
    requires IsLive(older.start, older.end, now) == IsLive(newer.start, newer.end, now)
    ensures EventScore(likes, attendees, decay, older, now) <= EventScore(likes, attendees, decay, newer, now)
  {
    var ho, hn := AgeHours(older.createdAt, now), AgeHours(newer.createdAt, now);
    assert hn <= ho;
    assert decay(ho) <= decay(hn) by {
      if hn < ho {
        assert decay(ho) < decay(hn);
      }
    }
    var k := Boost(older.start, older.end, now);
    var b := Base(likes, attendees);
    assert b * decay(ho) <= b * decay(hn) by {
      assert b * decay(hn) - b * decay(ho) == b * (decay(hn) - decay(ho));
    }
    MulLeq(b * decay(ho), b * decay(hn), k);
  }

  /** There is no clamp: a `created_at` in the future gives a decay factor above one. */
  lemma FutureCreationExceedsOne(decay: real -> real, createdAt: Instant, now: Instant)
    requires DecayLaw(decay)
    requires createdAt > now
    ensures decay(AgeHours(createdAt, now)) > 1.0
  {
    assert AgeHours(createdAt, now) < 0.0;
  }
}
