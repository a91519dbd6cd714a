/**
 * What an SQL `ORDER BY ... LIMIT ... OFFSET ...` may return. None of the
 * source's queries breaks ties, so an ordering is specified as a relation
 * (a permutation of the candidate rows whose keys are monotone) rather than
 * computed; `SortDesc` shows that such an ordering always exists.
 */
module Ordering {

  /** Keys never increase along `s`: the shape of `ORDER BY key DESC`. */
  predicate NonIncreasing<T>(s: seq<T>, key: T -> real) {
    forall i, j | 0 <= i < j < |s| :: key(s[i]) >= key(s[j])
  }

  /** Keys never decrease along `s`: the shape of `ORDER BY key ASC`. */
  predicate NonDecreasing<T>(s: seq<T>, key: T -> real) {
    forall i, j | 0 <= i < j < |s| :: key(s[i]) <= key(s[j])
  }

  /** `ordered` is one of the answers to `SELECT rows ORDER BY key DESC`. */
  predicate IsDescOrdering<T(==)>(rows: seq<T>, ordered: seq<T>, key: T -> real) {
    multiset(ordered) == multiset(rows) && NonIncreasing(ordered, key)
  }

  /** `ordered` is one of the answers to `SELECT rows ORDER BY key ASC`. */
  predicate IsAscOrdering<T(==)>(rows: seq<T>, ordered: seq<T>, key: T -> real) {
    multiset(ordered) == multiset(rows) && NonDecreasing(ordered, key)
  }

  function Min(a: int, b: int): int { if a <= b then a else b }

  /** `LIMIT n`: the first `n` rows, or all of them when there are fewer. */
  function Take<T>(s: seq<T>, n: nat): (r: seq<T>)
    ensures |r| <= n && |r| <= |s|
    ensures |r| == n || |r| == |s|
    ensures forall i :: 0 <= i < |r| ==> r[i] == s[i]
  {
    s[..Min(n, |s|)]
  }

  /** `LIMIT limit OFFSET offset`. */
  function Window<T>(s: seq<T>, offset: nat, limit: nat): (r: seq<T>)
    ensures |r| <= limit
    ensures offset >= |s| ==> r == []
    ensures offset < |s| ==> |r| == Min(limit, |s| - offset)
    ensures forall i :: 0 <= i < |r| ==> r[i] == s[offset + i]
  {
    if offset >= |s| then [] else Take(s[offset..], limit)
  }

  /** A sequence is its first `n` rows followed by the rest, as multisets too. */
  lemma TakeSplits<T>(s: seq<T>, n: nat)
    ensures multiset(s) == multiset(Take(s, n)) + multiset(s[Min(n, |s|)..])
  {
    assert s == Take(s, n) + s[Min(n, |s|)..];
  }

  /**
   * `ORDER BY key DESC LIMIT n` keeps a top `n`: the kept rows are candidate
   * rows, and every candidate row left out has a key no higher than any kept
   * row's.
   */
  lemma DescLimitKeepsTop<T>(rows: seq<T>, ordered: seq<T>, key: T -> real, n: nat)
    requires IsDescOrdering(rows, ordered, key)
    ensures multiset(Take(ordered, n)) <= multiset(rows)
    ensures forall x | x in multiset(rows) - multiset(Take(ordered, n)) ::
      forall i :: 0 <= i < |Take(ordered, n)| ==> key(x) <= key(Take(ordered, n)[i])
  {
    var m := Min(n, |ordered|);
    TakeSplits(ordered, n);
    forall x | x in multiset(rows) - multiset(Take(ordered, n))
      ensures forall i :: 0 <= i < |Take(ordered, n)| ==> key(x) <= key(Take(ordered, n)[i])
    {
      assert x in multiset(ordered[m..]);
      var j :| 0 <= j < |ordered[m..]| && ordered[m..][j] == x;
      assert ordered[m + j] == x;
    }
  }

  /** `ORDER BY key ASC LIMIT n` keeps a bottom `n`, in the same sense. */
  lemma AscLimitKeepsBottom<T>(rows: seq<T>, ordered: seq<T>, key: T -> real, n: nat)
    requires IsAscOrdering(rows, ordered, key)
    ensures multiset(Take(ordered, n)) <= multiset(rows)
    ensures forall x | x in multiset(rows) - multiset(Take(ordered, n)) ::
      forall i :: 0 <= i < |Take(ordered, n)| ==> key(x) >= key(Take(ordered, n)[i])
  {
    var m := Min(n, |ordered|);
    TakeSplits(ordered, n);
    forall x | x in multiset(rows) - multiset(Take(ordered, n))
      ensures forall i :: 0 <= i < |Take(ordered, n)| ==> key(x) >= key(Take(ordered, n)[i])
    {
      assert x in multiset(ordered[m..]);
      var j :| 0 <= j < |ordered[m..]| && ordered[m..][j] == x;
      assert ordered[m + j] == x;
    }
  }

  /** `f` applied to each element of `s`, in order: a column of a result set. */
  function MapSeq<T, U>(f: T -> U, s: seq<T>): (r: seq<U>)
    ensures |r| == |s|
    ensures forall i :: 0 <= i < |s| ==> r[i] == f(s[i])
  {
    if s == [] then [] else [f(s[0])] + MapSeq(f, s[1..])
  }

  /** Taking out the element at `j` takes one occurrence out of the multiset. */
  lemma RemoveAt<T>(s: seq<T>, j: nat)
    requires j < |s|
    ensures multiset(s) == multiset(s[..j] + s[j + 1..]) + multiset{s[j]}
  {
    assert s == s[..j] + [s[j]] + s[j + 1..];
  }

  lemma {:induction false} MapSeqAppend<T, U>(f: T -> U, s: seq<T>, t: seq<T>)
    ensures MapSeq(f, s + t) == MapSeq(f, s) + MapSeq(f, t)
  {
    if s == [] {
      assert s + t == t;
    } else {
      assert (s + t)[1..] == s[1..] + t;
      MapSeqAppend(f, s[1..], t);
    }
  }

  lemma MapRemoveAt<T, U>(f: T -> U, s: seq<T>, j: nat)
    requires j < |s|
    ensures multiset(MapSeq(f, s)) == multiset(MapSeq(f, s[..j] + s[j + 1..])) + multiset{f(s[j])}
  {
    var p, q := s[..j], s[j + 1..];
    assert s == p + ([s[j]] + q);
    MapSeqAppend(f, p, [s[j]] + q);
    MapSeqAppend(f, [s[j]], q);
    MapSeqAppend(f, p, q);
    assert MapSeq(f, [s[j]]) == [f(s[j])];
  }

  lemma Cancel<T>(p: multiset<T>, q: multiset<T>, x: T)
    requires p + multiset{x} == q + multiset{x}
    ensures p == q
  {
    forall y ensures p[y] == q[y] {
      assert (p + multiset{x})[y] == (q + multiset{x})[y];
    }
  }

  /** Rows that are a permutation of each other have columns that are a permutation of each other. */
  lemma {:induction false} MapPermutation<T, U>(f: T -> U, a: seq<T>, b: seq<T>)
    requires multiset(a) == multiset(b)
    ensures multiset(MapSeq(f, a)) == multiset(MapSeq(f, b))
    decreases |a|
  {
    if a == [] {
      assert |b| == |multiset(b)| == 0;
    } else {
      var x := a[0];
      assert x in multiset(b);
      var j :| 0 <= j < |b| && b[j] == x;
      var rest := b[..j] + b[j + 1..];
      var tail := a[1..];
      assert a == [x] + tail;
      RemoveAt(b, j);
      Cancel(multiset(tail), multiset(rest), x);
      MapPermutation(f, tail, rest);
      assert MapSeq(f, a) == [f(x)] + MapSeq(f, tail);
      MapRemoveAt(f, b, j);
    }
  }

  lemma NonIncreasingTail<T>(s: seq<T>, key: T -> real)
    requires s != [] && NonIncreasing(s, key)
    ensures NonIncreasing(s[1..], key)
  {
    assert forall i :: 0 <= i < |s[1..]| ==> s[1..][i] == s[i + 1];
  }

  /** A key at least the first one of a non-increasing sequence can head it. */
  lemma ConsNonIncreasing<T>(x: T, s: seq<T>, key: T -> real)
    requires NonIncreasing(s, key) && (s == [] || key(x) >= key(s[0]))
    ensures NonIncreasing([x] + s, key)
  {
    var r := [x] + s;
    forall i, j | 0 <= i < j < |r| ensures key(r[i]) >= key(r[j]) {
      if i == 0 {
        assert r[j] == s[j - 1];
        if j > 1 { assert key(s[0]) >= key(s[j - 1]); }
      } else {
        assert r[i] == s[i - 1] && r[j] == s[j - 1];
      }
    }
  }

  /** The step of `InsertDesc` that keeps the head of `s` in front of the insertion into its tail. */
  lemma InsertBehindHead<T>(x: T, s: seq<T>, t: seq<T>, key: T -> real)
    requires s != [] && key(x) < key(s[0]) && NonIncreasing(s, key)
    requires NonIncreasing(t, key) && multiset(t) == multiset(s[1..]) + multiset{x}
    requires t != [] && (t[0] == x || (|s| > 1 && t[0] == s[1]))
    ensures NonIncreasing([s[0]] + t, key)
    ensures multiset([s[0]] + t) == multiset(s) + multiset{x}
  {
    assert key(s[0]) >= key(t[0]) by {
      if t[0] != x { assert key(s[0]) >= key(s[1]); }
    }
    ConsNonIncreasing(s[0], t, key);
    assert s == [s[0]] + s[1..];
    assert multiset([s[0]] + t) == multiset([s[0]]) + multiset(t);
  }

  /** Insert `x` into a non-increasing `s`, before the first smaller key. */
  function InsertDesc<T(==)>(x: T, s: seq<T>, key: T -> real): (r: seq<T>)
    requires NonIncreasing(s, key)
    ensures multiset(r) == multiset(s) + multiset{x}
    ensures NonIncreasing(r, key)
    ensures |r| == |s| + 1
    ensures r[0] == x || (s != [] && r[0] == s[0])
  {
    if s == [] || key(x) >= key(s[0]) then
      ConsNonIncreasing(x, s, key);
      [x] + s
    else
      NonIncreasingTail(s, key);
      var t := InsertDesc(x, s[1..], key);
      InsertBehindHead(x, s, t, key);
      [s[0]] + t
  }

  /** Insertion sort: a witness that every row sequence has a DESC ordering. */
  function SortDesc<T(==)>(s: seq<T>, key: T -> real): (r: seq<T>)
    ensures IsDescOrdering(s, r, key)
    ensures |r| == |s|
  {
    if s == [] then []
    else
      assert s == [s[0]] + s[1..];
      InsertDesc(s[0], SortDesc(s[1..], key), key)
  }

  /** An ASC ordering also always exists (sort by the negated key). */
  lemma AscOrderingExists<T>(s: seq<T>, key: T -> real)
    ensures exists r :: IsAscOrdering(s, r, key)
  {
    var r := SortDesc(s, x => -key(x));
    assert IsAscOrdering(s, r, key);
  }

  lemma DescOrderingExists<T>(s: seq<T>, key: T -> real)
    ensures exists r :: IsDescOrdering(s, r, key)
  {
    var r := SortDesc(s, key);
  }

  /** No element occurs twice. */
  predicate Distinct<T(==)>(s: seq<T>) {
    forall i, j | 0 <= i < j < |s| :: s[i] != s[j]
  }

  /** `s` lists the members of `elems`, each exactly once. */
  predicate Enumerates<T(==)>(s: seq<T>, elems: set<T>) {
    Distinct(s) && (forall x | x in s :: x in elems) && (forall x | x in elems :: x in s)
  }

  /** A listing without repeats is as long as the set it lists. */
  lemma {:induction false} EnumerationLength<T>(s: seq<T>, elems: set<T>)
    requires Enumerates(s, elems)
    ensures |s| == |elems|
  {
    if s != [] {
      var rest := s[1..];
      assert forall i :: 0 <= i < |rest| ==> rest[i] == s[i + 1];
      assert s[0] !in rest;
      assert Enumerates(rest, elems - {s[0]});
      EnumerationLength(rest, elems - {s[0]});
    } else {
      assert forall x :: x !in elems;
      assert elems == {};
    }
  }

  /** Every finite set can be listed without repeats. */
  lemma {:induction false} EnumerationExists<T>(elems: set<T>)
    ensures exists s :: Enumerates(s, elems)
    decreases |elems|
  {
    if elems == {} {
      assert Enumerates([], elems);
    } else {
      var x :| x in elems;
      EnumerationExists(elems - {x});
      var t :| Enumerates(t, elems - {x});
      var s := [x] + t;
      assert forall i :: 1 <= i < |s| ==> s[i] == t[i - 1];
      assert Enumerates(s, elems);
    }
  }
}
