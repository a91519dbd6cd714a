/**
 * Comment sanitising (`interactions/comments.validation.ts`): `stripHtml`
 * removes every `<...>` tag and trims, and `validateAndSanitizeComment`
 * applies the presence, emptiness and length rules to the result.
 */
module CommentsValidation {
  import opened Wrappers
  import opened Text
  import opened Json

  const MaxContentLength: nat := 1000
  const ContentRequired: string := "content is required"
  const EmptyAfterSanitization: string := "content cannot be empty after sanitization"
  const ContentTooLong: string := "content must not exceed 1000 characters"

  /** Some `<` is followed, anywhere later, by a `>`. */
  predicate HasTag(s: string) {
    exists i, j | 0 <= i < j < |s| :: s[i] == '<' && s[j] == '>'
  }

  predicate NoClose(s: string) {
    forall i :: 0 <= i < |s| ==> s[i] != '>'
  }

  /** The position of the first `>` in `s`. */
  function FirstClose(s: string): (k: nat)
    requires !NoClose(s)
    ensures k < |s| && s[k] == '>'
    ensures forall i :: 0 <= i < k ==> s[i] != '>'
  {
    if s[0] == '>' then 0 else 1 + FirstClose(s[1..])
  }

  /**
   * `input.replace(/<[^>]*>/g, '')`: scanning left to right, a `<` that has
   * a `>` after it is removed together with everything up to the first such
   * `>`; a `<` without one, and every other character, is kept.
   */
  function StripTags(s: string): (r: string)
    ensures |r| <= |s|
    ensures forall i :: 0 <= i < |r| ==> r[i] in s
    decreases |s|
  {
    if s == [] then []
    else if s[0] == '<' && !NoClose(s[1..]) then StripTags(s[1..][FirstClose(s[1..]) + 1..])
    else [s[0]] + StripTags(s[1..])
  }

  /** `stripHtml`. */
  function StripHtml(s: string): string {
    Trim(StripTags(s))
  }

  /** Characters of `r` that all occur in `s`: `s` without `>` gives `r` without `>`. */
  lemma NoCloseSub(s: string, r: string)
    requires NoClose(s) && forall i :: 0 <= i < |r| ==> r[i] in s
    ensures NoClose(r)
  {
  }

  /** Putting `c` in front of a tag-free `rest` makes no tag, unless `c` opens one that `rest` closes. */
  lemma ConsNoTag(c: char, rest: string)
    requires !HasTag(rest)
    requires c == '<' ==> NoClose(rest)
    ensures !HasTag([c] + rest)
  {
    var r := [c] + rest;
    forall i, j | 0 <= i < j < |r| && r[i] == '<' ensures r[j] != '>' {
      if i == 0 {
        assert r[j] == rest[j - 1];
      } else {
        assert r[i] == rest[i - 1] && r[j] == rest[j - 1];
      }
    }
  }

  /** No tag is left after stripping. */
  lemma {:induction false} StripTagsNoTag(s: string)
    ensures !HasTag(StripTags(s))
    decreases |s|
  {
    if s != [] {
      if s[0] == '<' && !NoClose(s[1..]) {
        StripTagsNoTag(s[1..][FirstClose(s[1..]) + 1..]);
      } else {
        var rest := StripTags(s[1..]);
        StripTagsNoTag(s[1..]);
        if s[0] == '<' {
          NoCloseSub(s[1..], rest);
        }
        ConsNoTag(s[0], rest);
      }
    }
  }

  /** Stripping changes nothing in a string without tags. */
  lemma {:induction false} StripTagsTagFree(s: string)
    requires !HasTag(s)
    ensures StripTags(s) == s
    decreases |s|
  {
    if s != [] {
      TagFreeTail(s);
      StripTagsTagFree(s[1..]);
      assert s == [s[0]] + s[1..];
    }
  }

  /** A piece cut out of a tag-free string is tag-free. */
  lemma TagFreeSlice(s: string, a: nat, b: nat)
    requires a <= b <= |s| && !HasTag(s)
    ensures !HasTag(s[a..b])
  {
    forall i, j | 0 <= i < j < b - a && s[a..b][i] == '<' ensures s[a..b][j] != '>' {
      assert s[a + i] == '<' && s[a..b][j] == s[a + j];
    }
  }

  /** The tail of a tag-free string is tag-free, and has no `>` when the string starts with `<`. */
  lemma TagFreeTail(s: string)
    requires s != [] && !HasTag(s)
    ensures !HasTag(s[1..])
    ensures s[0] == '<' ==> NoClose(s[1..])
  {
    TagFreeSlice(s, 1, |s|);
    assert s[1..|s|] == s[1..];
    if s[0] == '<' {
      forall i | 0 <= i < |s[1..]| ensures s[1..][i] != '>' {
        assert s[i + 1] == s[1..][i];
      }
    }
  }

  /** The result of `stripHtml` has no tag. */
  lemma StripHtmlNoTag(s: string)
    ensures !HasTag(StripHtml(s))
  {
    var t := StripTags(s);
    StripTagsNoTag(s);
    if Trim(t) != [] {
      TagFreeSlice(t, LeadingSpaces(t), |t| - TrailingSpaces(t));
    }
  }

  /** `stripHtml` is idempotent. */
  lemma StripHtmlIdempotent(s: string)
    ensures StripHtml(StripHtml(s)) == StripHtml(s)
  {
    StripHtmlNoTag(s);
    StripTagsTagFree(StripHtml(s));
    TrimIdempotent(StripTags(s));
  }

  /** The outcome of `validateAndSanitizeComment`: `error` is `None` (`null`) on success. */
  datatype CommentCheck = CommentCheck(error: Option<string>, content: string)

  /** The raw content is a string that is not blank: the first check passes. */
  predicate Present(raw: Value) {
    raw.Str? && Trim(raw.s) != []
  }

  /** `validateAndSanitizeComment(body)` on `body.content`. */
  function ValidateAndSanitizeComment(raw: Value): (r: CommentCheck)
    ensures r.error == Some(ContentRequired) <==> !Present(raw)
    ensures r.error == Some(EmptyAfterSanitization) <==> Present(raw) && StripHtml(raw.s) == []
    ensures r.error == Some(ContentTooLong) <==> Present(raw) && |StripHtml(raw.s)| > MaxContentLength
    ensures r.error.None? <==> Present(raw) && 1 <= |StripHtml(raw.s)| <= MaxContentLength
    ensures r.error.None? ==> r.content == StripHtml(raw.s) && !HasTag(r.content)
    ensures r.error.Some? ==> r.content == []
  {
    if !Truthy(raw) || !raw.Str? || Trim(raw.s) == [] then CommentCheck(Some(ContentRequired), [])
    else
      var sanitized := StripHtml(raw.s);
      StripHtmlNoTag(raw.s);
      if |sanitized| == 0 then CommentCheck(Some(EmptyAfterSanitization), [])
      else if |sanitized| > MaxContentLength then CommentCheck(Some(ContentTooLong), [])
      else CommentCheck(None, sanitized)
  }

  lemma {:induction false} FirstCloseAtEnd(t: string)
    requires NoClose(t)
    ensures !NoClose(t + ['>']) && FirstClose(t + ['>']) == |t|
  {
    var u := t + ['>'];
    assert u[|t|] == '>';
    if t != [] {
      assert u[1..] == t[1..] + ['>'];
      FirstCloseAtEnd(t[1..]);
    }
  }

  /** A single tag `<t>` is removed entirely. */
  lemma SingleTagStripped(t: string)
    requires NoClose(t)
    ensures StripTags(['<'] + t + ['>']) == []
  {
    var s := ['<'] + t + ['>'];
    assert s[1..] == t + ['>'];
    FirstCloseAtEnd(t);
    assert s[1..][|t| + 1..] == [];
  }

  /** Content made only of a tag is refused as empty after sanitising, not as missing. */
  lemma OnlyTagsRefused(t: string)
    requires NoClose(t)
    ensures ValidateAndSanitizeComment(Str(['<'] + t + ['>'])).error == Some(EmptyAfterSanitization)
  {
    var s := ['<'] + t + ['>'];
    SingleTagStripped(t);
    TrimEmpty(s);
    assert !IsSpace(s[0]);
    assert Trim([]) == [];
  }

  /** An unclosed `<` is kept. */
  lemma UnclosedKept()
    ensures StripTags("a<b") == "a<b"
  {
    assert NoClose("b");
  }
}
