/**
 * Character-level helpers shared by the validators and by the search filter:
 * ASCII whitespace trimming (the model of `String.prototype.trim`), ASCII
 * lower-casing, substring search, and the PostgreSQL `LIKE` pattern matcher
 * that `ILIKE` runs on lower-cased operands.
 */
module Text {

  /** The whitespace characters `trim` removes, restricted to ASCII. */
  predicate IsSpace(c: char) {
    c == ' ' || c == '\t' || c == '\n' || c == '\r' || c == '\U{000B}' || c == '\U{000C}'
  }

  /** The number of whitespace characters `s` starts with. */
  function LeadingSpaces(s: string): (n: nat)
    ensures n <= |s|
    ensures forall i :: 0 <= i < n ==> IsSpace(s[i])
    ensures n < |s| ==> !IsSpace(s[n])
  {
    if s != [] && IsSpace(s[0]) then
      assert forall i :: 0 < i < |s| ==> s[i] == s[1..][i - 1];
      1 + LeadingSpaces(s[1..])
    else 0
  }

  /** The number of whitespace characters `s` ends with. */
  function TrailingSpaces(s: string): (n: nat)
    ensures n <= |s|
    ensures forall i :: |s| - n <= i < |s| ==> IsSpace(s[i])
    ensures n < |s| ==> !IsSpace(s[|s| - 1 - n])
  {
    if s != [] && IsSpace(s[|s| - 1]) then
      assert forall i :: 0 <= i < |s| - 1 ==> s[i] == s[..|s| - 1][i];
      1 + TrailingSpaces(s[..|s| - 1])
    else 0
  }

  /**
   * `s.trim()`: drop leading and trailing whitespace. When some character
   * is not whitespace, the trailing run ends after the leading one.
   */
  function Trim(s: string): (r: string)
    ensures |r| <= |s|
  {
    var a := LeadingSpaces(s);
    if a == |s| then [] else s[a..|s| - TrailingSpaces(s)]
  }

  /**
   * The trim is a slice `s[a..b]` of its input whose cut-off ends `s[..a]`
   * and `s[b..]` are whitespace.
   */
  lemma TrimIsSlice(s: string)
    ensures exists a, b :: 0 <= a <= b <= |s| && Trim(s) == s[a..b] && IsBlank(s[..a]) && IsBlank(s[b..])
  {
    var a := LeadingSpaces(s);
    if a == |s| {
      BlankEnds(s, a, a);
      assert Trim(s) == s[a..a];
    } else {
      assert !IsSpace(s[a]);
      var b := |s| - TrailingSpaces(s);
      BlankEnds(s, a, b);
      assert Trim(s) == s[a..b];
    }
  }

  /** The leading `a` and trailing `|s| - b` characters are whitespace. */
  lemma BlankEnds(s: string, a: nat, b: nat)
    requires a <= b <= |s|
    requires forall i :: 0 <= i < a ==> IsSpace(s[i])
    requires forall i :: b <= i < |s| ==> IsSpace(s[i])
    ensures IsBlank(s[..a]) && IsBlank(s[b..])
  {
    assert forall i :: 0 <= i < a ==> s[..a][i] == s[i];
    assert forall i :: 0 <= i < |s| - b ==> s[b..][i] == s[b + i];
  }

  /** Every character is whitespace: what `s.trim() === ''` tests. */
  predicate IsBlank(s: string) {
    forall i :: 0 <= i < |s| ==> IsSpace(s[i])
  }

  /** The trim is empty exactly when every character is whitespace. */
  lemma TrimEmpty(s: string)
    ensures Trim(s) == [] <==> IsBlank(s)
  {
    var a := LeadingSpaces(s);
    if a < |s| {
      assert !IsSpace(s[a]);
      assert |s| - TrailingSpaces(s) > a;
    }
  }

  /** A non-empty trim begins and ends with a character that is not whitespace. */
  lemma TrimEnds(s: string)
    ensures Trim(s) == [] || (!IsSpace(Trim(s)[0]) && !IsSpace(Trim(s)[|Trim(s)| - 1]))
  {
    var a := LeadingSpaces(s);
    if a < |s| {
      assert !IsSpace(s[a]);
      var b := |s| - TrailingSpaces(s);
      assert Trim(s)[0] == s[a] && Trim(s)[|Trim(s)| - 1] == s[b - 1];
    }
  }

  /** A string without a whitespace character at either end is its own trim. */
  lemma TrimOfTrimmed(s: string)
    requires s == [] || (!IsSpace(s[0]) && !IsSpace(s[|s| - 1]))
    ensures Trim(s) == s
  {
    if s != [] {
      assert LeadingSpaces(s) == 0;
      assert TrailingSpaces(s) == 0;
      assert s[0..|s|] == s;
    }
  }

  /** Trimming an already trimmed string changes nothing. */
  lemma TrimIdempotent(s: string)
    ensures Trim(Trim(s)) == Trim(s)
  {
    TrimEnds(s);
    TrimOfTrimmed(Trim(s));
  }

  function LowerChar(c: char): (d: char)
    ensures 'A' <= c <= 'Z' ==> d as int == c as int + 32
    ensures !('A' <= c <= 'Z') ==> d == c
  {
    if 'A' <= c <= 'Z' then (c as int + 32) as char else c
  }

  /** ASCII lower-casing, the case folding `ILIKE` applies to both operands. */
  function Lower(s: string): (r: string)
    ensures |r| == |s|
    ensures forall i :: 0 <= i < |s| ==> r[i] == LowerChar(s[i])
  {
    if s == [] then [] else [LowerChar(s[0])] + Lower(s[1..])
  }

  lemma LowerAppend(a: string, b: string)
    ensures Lower(a + b) == Lower(a) + Lower(b)
  {
    assert forall i :: 0 <= i < |a + b| ==> Lower(a + b)[i] == (Lower(a) + Lower(b))[i];
  }

  /** `needle` occurs in `hay` starting at position `i`. */
  predicate OccursAt(needle: string, hay: string, i: int) {
    0 <= i && i + |needle| <= |hay| && hay[i..i + |needle|] == needle
  }

  predicate IsSubstring(needle: string, hay: string) {
    exists i | 0 <= i <= |hay| :: OccursAt(needle, hay, i)
  }

  /** The characters that are special inside a `LIKE` pattern. */
  predicate IsLikeSpecial(c: char) {
    c == '%' || c == '_' || c == '\\'
  }

  /**
   * PostgreSQL `s LIKE p`: `%` matches any run of characters, `_` any one
   * character, and the default escape character `\` makes the next
   * character literal. A pattern ending in a lone `\` is an error in
   * PostgreSQL; it cannot arise from the patterns built here (they end in
   * `%`), and the matcher treats it as matching nothing.
   */
  function LikeMatch(p: string, s: string): bool
    decreases |p| + |s|
  {
    if p == [] then s == []
    else if p[0] == '%' then LikeMatch(p[1..], s) || (s != [] && LikeMatch(p, s[1..]))
    else if p[0] == '_' then s != [] && LikeMatch(p[1..], s[1..])
    else if p[0] == '\\' then |p| >= 2 && s != [] && s[0] == p[1] && LikeMatch(p[2..], s[1..])
    else s != [] && s[0] == p[0] && LikeMatch(p[1..], s[1..])
  }

  /** `s ILIKE p`: `LIKE` on lower-cased operands. */
  predicate ILike(s: string, p: string) {
    LikeMatch(Lower(p), Lower(s))
  }

  /** True when no character of `q` is special to `LIKE`. */
  predicate IsLiteral(q: string) {
    forall i :: 0 <= i < |q| ==> !IsLikeSpecial(q[i])
  }

  /** A literal pattern matches exactly itself. */
  lemma {:induction false} LiteralMatch(lit: string, s: string)
    requires IsLiteral(lit)
    ensures LikeMatch(lit, s) <==> s == lit
  {
    if lit != [] {
      assert IsLiteral(lit[1..]) by {
        forall i | 0 <= i < |lit[1..]| ensures !IsLikeSpecial(lit[1..][i]) {
          assert lit[1..][i] == lit[i + 1];
        }
      }
      if s != [] {
        LiteralMatch(lit[1..], s[1..]);
        assert s == lit <==> s[0] == lit[0] && s[1..] == lit[1..];
      }
    }
  }

  /** `%` followed by a pattern `p` matches `s` iff `p` matches some suffix of `s`. */
  lemma {:induction false} PercentPrefix(p: string, s: string)
    ensures LikeMatch(['%'] + p, s) <==> exists k :: 0 <= k <= |s| && LikeMatch(p, s[k..])
  {
    var pp := ['%'] + p;
    assert pp[1..] == p;
    if s == [] {
      assert s[0..] == s;
    } else {
      PercentPrefix(p, s[1..]);
      assert s[0..] == s;
      if exists k :: 0 <= k <= |s| && LikeMatch(p, s[k..]) {
        var k :| 0 <= k <= |s| && LikeMatch(p, s[k..]);
        if k > 0 {
          assert s[1..][k - 1..] == s[k..];
        }
      }
      if exists k :: 0 <= k <= |s[1..]| && LikeMatch(p, s[1..][k..]) {
        var k :| 0 <= k <= |s[1..]| && LikeMatch(p, s[1..][k..]);
        assert s[1..][k..] == s[k + 1..];
      }
    }
  }

  /** A literal followed by `%` matches `s` iff the literal is a prefix of `s`. */
  lemma {:induction false} LiteralPercent(lit: string, s: string)
    requires IsLiteral(lit)
    ensures LikeMatch(lit + ['%'], s) <==> |lit| <= |s| && s[..|lit|] == lit
  {
    var p := lit + ['%'];
    if lit == [] {
      assert p == ['%'] + [];
      PercentPrefix([], s);
      assert s[|s|..] == [];
      assert LikeMatch([], s[|s|..]);
    } else {
      assert p[0] == lit[0] && p[1..] == lit[1..] + ['%'];
      assert IsLiteral(lit[1..]) by {
        forall i | 0 <= i < |lit[1..]| ensures !IsLikeSpecial(lit[1..][i]) {
          assert lit[1..][i] == lit[i + 1];
        }
      }
      if s != [] {
        LiteralPercent(lit[1..], s[1..]);
        if |lit| <= |s| {
          assert s[..|lit|] == [s[0]] + s[1..][..|lit| - 1];
          assert lit == [lit[0]] + lit[1..];
        }
      }
    }
  }

  /**
   * The central search fact: for a `q` without `%`, `_` or `\`, the pattern
   * `%q%` matches `s` exactly when `q` occurs in `s`.
   */
  lemma ContainsPattern(q: string, s: string)
    requires IsLiteral(q)
    ensures LikeMatch(['%'] + q + ['%'], s) <==> IsSubstring(q, s)
  {
    assert ['%'] + q + ['%'] == ['%'] + (q + ['%']);
    PercentPrefix(q + ['%'], s);
    forall k | 0 <= k <= |s|
      ensures LikeMatch(q + ['%'], s[k..]) <==> OccursAt(q, s, k)
    {
      LiteralPercent(q, s[k..]);
      if |q| <= |s[k..]| {
        assert s[k..][..|q|] == s[k..k + |q|];
      }
    }
    if IsSubstring(q, s) {
      var i :| 0 <= i <= |s| && OccursAt(q, s, i);
      assert LikeMatch(q + ['%'], s[i..]);
    }
  }

  lemma LowerPreservesLiteral(q: string)
    requires IsLiteral(q)
    ensures IsLiteral(Lower(q))
  {
  }

  /**
   * `s ILIKE '%q%'` for a literal `q` is case-insensitive substring search.
   */
  lemma ILikeContains(q: string, s: string)
    requires IsLiteral(q)
    ensures ILike(s, "%" + q + "%") <==> IsSubstring(Lower(q), Lower(s))
  {
    LowerAppend("%", q);
    LowerAppend("%" + q, "%");
    assert Lower("%") == "%";
    assert Lower("%" + q + "%") == ['%'] + Lower(q) + ['%'];
    ContainsPattern(Lower(q), Lower(s));
  }

  /** `_` is a wildcard: the pattern `%a_c%` matches "abc" although "a_c" does not occur in it. */
  lemma UnderscoreIsWildcard()
    ensures ILike("abc", "%a_c%")
    ensures !IsSubstring("a_c", "abc")
  {
    assert LikeMatch("c%", "c") by { assert LikeMatch("%", ""); }
    assert LikeMatch("_c%", "bc");
    assert LikeMatch("a_c%", "abc");
    assert Lower("%a_c%") == "%a_c%";
    assert Lower("abc") == "abc";
    assert LikeMatch("%a_c%", "abc");
    assert !OccursAt("a_c", "abc", 0) by {
      assert "abc"[0..3] == "abc";
    }
  }
}
