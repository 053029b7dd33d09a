/**
 * The string operations the two backends rely on: lower-casing, substring
 * search (Python's `in` on strings), whitespace stripping (`str.strip()`) and
 * the first piece of `str.split(sep)`.
 */
module Text {

  /** Upper-case ASCII letters map to lower case; every other character is kept. */
  function LowerChar(c: char): char
  {
    if 'A' <= c <= 'Z' then (c as int + 32) as char else c
  }

  /** Lower-casing of a string, character by character. */
  function Lower(s: string): (r: string)
    ensures |r| == |s|
    ensures forall i :: 0 <= i < |s| ==> r[i] == LowerChar(s[i])
  {
    if s == [] then [] else [LowerChar(s[0])] + Lower(s[1..])
  }

  /** Lower-casing twice is lower-casing once. */
  lemma LowerIdempotent(s: string)
    ensures Lower(Lower(s)) == Lower(s)
  {
  }

  /** Lower-casing distributes over concatenation. */
  lemma LowerAppend(a: string, b: string)
    ensures Lower(a + b) == Lower(a) + Lower(b)
  {
  }

  /** `pat` occurs in `text` starting at index `i`. */
  predicate OccursAt(text: string, pat: string, i: int)
  {
    0 <= i <= |text| - |pat| && text[i..i + |pat|] == pat
  }

  /**
   * `pat` occurs as a contiguous piece of `text` (Python's `pat in text`): the
   * empty pattern occurs everywhere, a text contains itself, and no pattern
   * longer than the text occurs in it.
   */
  predicate Contains(text: string, pat: string)
    ensures pat == [] ==> Contains(text, pat)
    ensures pat == text ==> Contains(text, pat)
    ensures Contains(text, pat) ==> |pat| <= |text|
  {
    assert OccursAt(text, text, 0);
    assert pat == [] ==> OccursAt(text, pat, 0);
    exists i | 0 <= i <= |text| - |pat| :: OccursAt(text, pat, i)
  }

  /** Each character of an occurrence is the matching character of the text. */
  lemma OccursAtChar(text: string, pat: string, i: int, k: int)
    requires OccursAt(text, pat, i)
    requires 0 <= k < |pat|
    ensures text[i + k] == pat[k]
  {
  }

  /** A text that contains `pat + more` contains `pat`. */
  lemma ContainsPrefixOf(text: string, pat: string, more: string)
    requires Contains(text, pat + more)
    ensures Contains(text, pat)
  {
    var p := pat + more;
    var i :| 0 <= i <= |text| - |p| && OccursAt(text, p, i);
    assert text[i..i + |pat|] == p[..|pat|] == pat;
    assert OccursAt(text, pat, i);
  }

  /**
   * A pattern that does not contain the separator occurs in `a + [sep] + b`
   * exactly when it occurs in `a` or in `b`: no occurrence straddles the separator.
   */
  lemma ContainsAroundSeparator(a: string, sep: char, b: string, pat: string)
    requires sep !in pat
    ensures Contains(a + [sep] + b, pat) <==> Contains(a, pat) || Contains(b, pat)
  {
    var t := a + [sep] + b;
    if Contains(t, pat) {
      var i :| 0 <= i <= |t| - |pat| && OccursAt(t, pat, i);
      if i + |pat| <= |a| {
        assert a[i..i + |pat|] == t[i..i + |pat|];
        assert OccursAt(a, pat, i);
      } else if i > |a| {
        var j := i - |a| - 1;
        assert t[|a| + 1..] == b;
        assert b[j..j + |pat|] == t[|a| + 1..][j..j + |pat|] == t[i..i + |pat|];
        assert OccursAt(b, pat, j);
      } else {
        // the occurrence would cover the separator at index |a|
        OccursAtChar(t, pat, i, |a| - i);
        assert false;
      }
    }
    if Contains(a, pat) {
      var i :| 0 <= i <= |a| - |pat| && OccursAt(a, pat, i);
      assert t[i..i + |pat|] == a[i..i + |pat|];
      assert OccursAt(t, pat, i);
    }
    if Contains(b, pat) {
      var i :| 0 <= i <= |b| - |pat| && OccursAt(b, pat, i);
      var j := i + |a| + 1;
      assert t[|a| + 1..] == b;
      assert t[j..j + |pat|] == t[|a| + 1..][i..i + |pat|] == b[i..i + |pat|];
      assert OccursAt(t, pat, j);
    }
  }

  /**
   * The characters Python's `str.isspace()` accepts, which `str.strip()` with no
   * argument removes: the ASCII controls 9-13 and 28-31, the space, and the
   * Unicode spaces and separators.
   */
  predicate IsSpace(c: char)
  {
    var n := c as int;
    (9 <= n <= 13) || (28 <= n <= 32) || n == 0x85 || n == 0xA0 || n == 0x1680
    || (0x2000 <= n <= 0x200A) || n == 0x2028 || n == 0x2029 || n == 0x202F
    || n == 0x205F || n == 0x3000
  }

  /** The number of whitespace characters at the start of `s`. */
  function LeadingSpaces(s: string): (n: nat)
    ensures n <= |s|
  {
    if s == [] || !IsSpace(s[0]) then 0 else 1 + LeadingSpaces(s[1..])
  }

  /** The number of whitespace characters at the end of `s`. */
  function TrailingSpaces(s: string): (n: nat)
    ensures n <= |s|
  {
    if s == [] || !IsSpace(s[|s| - 1]) then 0 else 1 + TrailingSpaces(s[..|s| - 1])
  }

  /** `LeadingSpaces(s)` counts a maximal run of whitespace at the start. */
  lemma {:induction false} LeadingSpacesRun(s: string)
    ensures forall k :: 0 <= k < LeadingSpaces(s) ==> IsSpace(s[k])
    ensures LeadingSpaces(s) < |s| ==> !IsSpace(s[LeadingSpaces(s)])
  {
    if s != [] && IsSpace(s[0]) {
      LeadingSpacesRun(s[1..]);
    }
  }

  /** `TrailingSpaces(s)` counts a maximal run of whitespace at the end. */
  lemma {:induction false} TrailingSpacesRun(s: string)
    ensures forall k :: |s| - TrailingSpaces(s) <= k < |s| ==> IsSpace(s[k])
    ensures TrailingSpaces(s) < |s| ==> !IsSpace(s[|s| - 1 - TrailingSpaces(s)])
  {
    if s != [] && IsSpace(s[|s| - 1]) {
      TrailingSpacesRun(s[..|s| - 1]);
    }
  }

  /** `r` is `s[i..]` cut short by the end of `s`, and only whitespace lies outside it. */
  predicate StrippedAt(s: string, r: string, i: int)
  {
    && 0 <= i <= |s| - |r|
    && s[i..i + |r|] == r
    && (forall k :: 0 <= k < i ==> IsSpace(s[k]))
    && (forall k :: i + |r| <= k < |s| ==> IsSpace(s[k]))
  }

  /** Python's `s.strip()`: `s` without its leading and trailing whitespace. */
  function Strip(s: string): (r: string)
    ensures |r| <= |s|
    ensures r != [] ==> !IsSpace(r[0]) && !IsSpace(r[|r| - 1])
  {
    var rest := s[LeadingSpaces(s)..];
    LeadingSpacesRun(s);
    TrailingSpacesRun(rest);
    rest[..|rest| - TrailingSpaces(rest)]
  }

  /**
   * What `strip()` promises: only whitespace is removed, from both ends; the
   * result neither starts nor ends with whitespace; it is empty exactly when
   * `s` is all whitespace.
   */
  lemma StripTrims(s: string)
    ensures var r := Strip(s);
            && StrippedAt(s, r, LeadingSpaces(s))
            && (r != [] ==> !IsSpace(r[0]) && !IsSpace(r[|r| - 1]))
            && (r == [] <==> forall k :: 0 <= k < |s| ==> IsSpace(s[k]))
  {
    var start := LeadingSpaces(s);
    LeadingSpacesRun(s);
    TrailingSpacesRun(s[start..]);
    var r := Strip(s);
    var rest := s[start..];
    assert r == rest[..|rest| - TrailingSpaces(rest)];
    assert r != [] ==> r[0] == s[start];
  }

  /** Stripping a stripped string changes nothing. */
  lemma StripIdempotent(s: string)
    ensures Strip(Strip(s)) == Strip(s)
  {
    var r := Strip(s);
    StripTrims(s);
    if r != [] {
      assert LeadingSpaces(r) == 0;
      assert TrailingSpaces(r) == 0;
    }
    assert Strip(r) == r;
  }

  /**
   * The first piece of Python's `s.split(sep)`: the text before the first `sep`,
   * or all of `s` when it holds no `sep`.
   */
  function BeforeFirst(s: string, sep: char): (r: string)
    ensures |r| <= |s| && r == s[..|r|]
    ensures sep !in r
    ensures |r| < |s| ==> s[|r|] == sep
  {
    if s == [] || s[0] == sep then [] else [s[0]] + BeforeFirst(s[1..], sep)
  }

  /** When `s` holds no `sep`, the first piece is the whole string. */
  lemma BeforeFirstWithoutSeparator(s: string, sep: char)
    requires sep !in s
    ensures BeforeFirst(s, sep) == s
  {
  }
}
