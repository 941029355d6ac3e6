/**
 * The string operations of Python that the forwarder relies on:
 * `str.strip()`, the `in` substring test, `str.replace` and the
 * case folding behind `re.IGNORECASE` (ASCII only).
 */
module Text {

  // ---------------------------------------------------------------------------
  // Whitespace and str.strip()
  // ---------------------------------------------------------------------------

  /** The characters Python's `str.isspace()` accepts. */
  predicate IsSpace(c: char) {
    ('\U{9}' <= c <= '\U{D}') || ('\U{1C}' <= c <= ' ') ||
    c == '\U{85}' || c == '\U{A0}' || c == '\U{1680}' ||
    ('\U{2000}' <= c <= '\U{200A}') || c == '\U{2028}' || c == '\U{2029}' ||
    c == '\U{202F}' || c == '\U{205F}' || c == '\U{3000}'
  }

  /** Number of whitespace characters at the start of `s`. */
  function LeadingSpaces(s: string): (n: nat)
    ensures n <= |s|
    ensures forall k :: 0 <= k < n ==> IsSpace(s[k])
    ensures n < |s| ==> !IsSpace(s[n])
  {
    if s != [] && IsSpace(s[0]) then 1 + LeadingSpaces(s[1..]) else 0
  }

  /** Number of whitespace characters at the end of `s`. */
  function TrailingSpaces(s: string): (n: nat)
    ensures n <= |s|
    ensures forall k :: |s| - n <= k < |s| ==> IsSpace(s[k])
    ensures n < |s| ==> !IsSpace(s[|s| - 1 - n])
  {
    if s != [] && IsSpace(s[|s| - 1]) then 1 + TrailingSpaces(s[..|s| - 1]) else 0
  }

  /** `r` sits in `s` at `lo`, and everything of `s` around it is whitespace. */
  ghost predicate SpaceBordered(s: string, r: string, lo: int) {
    0 <= lo && lo + |r| <= |s| && s[lo..lo + |r|] == r &&
    (forall k :: 0 <= k < lo ==> IsSpace(s[k])) &&
    (forall k :: lo + |r| <= k < |s| ==> IsSpace(s[k]))
  }

  /** No whitespace at either end. */
  predicate IsStripped(s: string) {
    s == [] || (!IsSpace(s[0]) && !IsSpace(s[|s| - 1]))
  }

  /**
   * Python's `s.strip()`: the longest infix of `s` that neither starts nor
   * ends with whitespace, obtained by removing only whitespace around it.
   */
  function Strip(s: string): (r: string)
    ensures IsStripped(r)
    ensures exists lo :: SpaceBordered(s, r, lo)
  {
    var lo := LeadingSpaces(s);
    var rest := s[lo..];
    var hi := TrailingSpaces(rest);
    assert SpaceBordered(s, rest[..|rest| - hi], lo);
    rest[..|rest| - hi]
  }

  /** The two ensures of `Strip` pin its result down: any such `r` is `Strip(s)`. */
  lemma StripUnique(s: string, r: string, lo: int)
    requires IsStripped(r) && SpaceBordered(s, r, lo)
    ensures r == Strip(s)
  {
    var t := Strip(s);
    var lo' :| SpaceBordered(s, t, lo');
    if r != [] && t != [] {
      assert s[lo] == r[0] && s[lo'] == t[0];
      assert s[lo + |r| - 1] == r[|r| - 1] && s[lo' + |t| - 1] == t[|t| - 1];
    }
  }

  /** Stripping twice is stripping once. */
  lemma StripIdempotent(s: string)
    ensures Strip(Strip(s)) == Strip(s)
  {
    var r := Strip(s);
    assert r[0..|r|] == r;
    StripUnique(r, r, 0);
  }

  // ---------------------------------------------------------------------------
  // Case folding (the ASCII part of re.IGNORECASE)
  // ---------------------------------------------------------------------------

  /** ASCII lower-casing of one character; every other character is unchanged. */
  function LowerChar(c: char): (d: char)
    ensures 'A' <= c <= 'Z' ==> d as int == c as int + 32
    ensures !('A' <= c <= 'Z') ==> d == c
  {
    if 'A' <= c <= 'Z' then (c as int + 32) as char else c
  }

  /** ASCII lower-casing of a string, character by character. */
  function Lower(s: string): (r: string)
    ensures |r| == |s|
    ensures forall k :: 0 <= k < |s| ==> r[k] == LowerChar(s[k])
  {
    if s == [] then [] else [LowerChar(s[0])] + Lower(s[1..])
  }

  lemma LowerConcat(a: string, b: string)
    ensures Lower(a + b) == Lower(a) + Lower(b)
  {
    var l, r := Lower(a + b), Lower(a) + Lower(b);
    forall k | 0 <= k < |a + b| ensures l[k] == r[k] {
      if k < |a| {
        assert (a + b)[k] == a[k];
      } else {
        assert (a + b)[k] == b[k - |a|];
      }
    }
  }

  /** Folding is idempotent, so a folded text folds to itself. */
  lemma LowerIdempotent(s: string)
    ensures Lower(Lower(s)) == Lower(s)
  {
    assert forall k :: 0 <= k < |s| ==> Lower(Lower(s))[k] == Lower(s)[k];
  }

  /** A string without capitals is its own folding. */
  lemma LowerWithoutCapitals(s: string)
    requires forall k :: 0 <= k < |s| ==> !('A' <= s[k] <= 'Z')
    ensures Lower(s) == s
  {
    assert forall k :: 0 <= k < |s| ==> Lower(s)[k] == s[k];
  }

  // ---------------------------------------------------------------------------
  // Substrings: Python's `p in s`
  // ---------------------------------------------------------------------------

  predicate StartsWith(s: string, p: string) {
    |p| <= |s| && s[..|p|] == p
  }

  /** `p` occurs in `s` starting at index `i`. */
  ghost predicate OccursAt(s: string, p: string, i: int) {
    0 <= i && i + |p| <= |s| && s[i..i + |p|] == p
  }

  /** Python's `p in s`, scanning start positions left to right. */
  predicate Contains(s: string, p: string)
    decreases |s|
  {
    StartsWith(s, p) || (s != [] && Contains(s[1..], p))
  }

  /** The scan answers yes exactly when `p` occurs at some index of `s`. */
  lemma {:induction false} ContainsIff(s: string, p: string)
    ensures Contains(s, p) <==> exists i :: OccursAt(s, p, i)
    decreases |s|
  {
    if StartsWith(s, p) {
      assert OccursAt(s, p, 0);
    } else if s != [] {
      ContainsIff(s[1..], p);
      if Contains(s[1..], p) {
        var i :| OccursAt(s[1..], p, i);
        assert s[i + 1..i + 1 + |p|] == s[1..][i..i + |p|];
        assert OccursAt(s, p, i + 1);
      }
      if exists i :: OccursAt(s, p, i) {
        var i :| OccursAt(s, p, i);
        if i > 0 {
          assert s[1..][i - 1..i - 1 + |p|] == s[i..i + |p|];
          assert OccursAt(s[1..], p, i - 1);
        }
      }
    }
  }

  /** An occurrence stays an occurrence when text is added on either side. */
  lemma ContainsInContext(a: string, s: string, b: string, p: string)
    requires Contains(s, p)
    ensures Contains(a + s + b, p)
  {
    ContainsIff(s, p);
    var i :| OccursAt(s, p, i);
    assert (a + s + b)[|a| + i..|a| + i + |p|] == s[i..i + |p|];
    assert OccursAt(a + s + b, p, |a| + i);
    ContainsIff(a + s + b, p);
  }

  /** A text of six pieces starts with the first, contains the third and ends with the last two. */
  lemma SixPieces(a: string, b: string, c: string, d: string, e: string, f: string)
    ensures StartsWith(a + b + c + d + e + f, a)
    ensures Contains(a + b + c + d + e + f, c)
    ensures a + b + c + d + e + f == (a + b + c + d) + e + f
  {
    var s := a + b + c + d + e + f;
    assert s == a + (b + c + d + e + f);
    assert s[..|a|] == a;
    assert s == (a + b) + c + (d + e + f);
    assert StartsWith(c, c);
    ContainsInContext(a + b, c, d + e + f, c);
  }

  /** Case-insensitive substring test, folding both sides. */
  predicate ContainsIgnoreCase(s: string, p: string) {
    Contains(Lower(s), Lower(p))
  }

  // ---------------------------------------------------------------------------
  // str.replace(pat, rep) with a non-empty pattern
  // ---------------------------------------------------------------------------

  /** Python's `s.replace(pat, rep)`: non-overlapping occurrences, left to right. */
  function ReplaceAll(s: string, pat: string, rep: string): string
    requires pat != []
    decreases |s|
  {
    if |s| < |pat| then s
    else if s[..|pat|] == pat then rep + ReplaceAll(s[|pat|..], pat, rep)
    else [s[0]] + ReplaceAll(s[1..], pat, rep)
  }

  /** A text without the pattern is returned unchanged. */
  lemma {:induction false} ReplaceAllAbsent(s: string, pat: string, rep: string)
    requires pat != [] && !Contains(s, pat)
    ensures ReplaceAll(s, pat, rep) == s
    decreases |s|
  {
    if |s| >= |pat| {
      assert s != [];
      ReplaceAllAbsent(s[1..], pat, rep);
      assert [s[0]] + s[1..] == s;
    }
  }

  /** Text whose characters cannot start the pattern is copied through unchanged. */
  lemma {:induction false} ReplaceAllSkipsForeign(a: string, b: string, pat: string, rep: string)
    requires pat != [] && pat[0] !in a
    ensures ReplaceAll(a + b, pat, rep) == a + ReplaceAll(b, pat, rep)
    decreases |a|
  {
    if a != [] {
      if |a + b| >= |pat| {
        assert (a + b)[..|pat|][0] == a[0];
        assert (a + b)[1..] == a[1..] + b;
        ReplaceAllSkipsForeign(a[1..], b, pat, rep);
      }
    } else {
      assert a + b == b;
    }
  }

  /**
   * Replacement copies the text before the first occurrence, puts `rep` in
   * its place and carries on after it.
   */
  lemma {:induction false} ReplaceAllFirst(a: string, b: string, pat: string, rep: string)
    requires pat != []
    requires forall i :: 0 <= i < |a| ==> !OccursAt(a + pat + b, pat, i)
    ensures ReplaceAll(a + pat + b, pat, rep) == a + rep + ReplaceAll(b, pat, rep)
    decreases |a|
  {
    var s := a + pat + b;
    if a == [] {
      ConcatSplit(a, pat, b);
    } else {
      ConsSplit(a, pat, b);
      NoOccurrenceInTail(a, b, pat);
      ReplaceAllFirst(a[1..], b, pat, rep);
      ReplaceAllCopiesHead(s, pat, rep);
      ConsSplit(a, rep, ReplaceAll(b, pat, rep));
    }
  }

  /** With nothing before it, `p` is the head of `a + p + b` and `b` the rest. */
  lemma ConcatSplit<T>(a: seq<T>, p: seq<T>, b: seq<T>)
    requires a == []
    ensures (a + p + b)[..|p|] == p && (a + p + b)[|p|..] == b
  {
    assert a + p + b == p + b;
  }

  /** Splitting off the first element of `a` in `a + p + b`. */
  lemma ConsSplit<T>(a: seq<T>, p: seq<T>, b: seq<T>)
    requires a != []
    ensures (a + p + b)[0] == a[0] && (a + p + b)[1..] == a[1..] + p + b
    ensures [a[0]] + (a[1..] + p + b) == a + p + b
  {
    assert [a[0]] + a[1..] == a;
  }

  /** Dropping the first character keeps the text before the first occurrence free of it. */
  lemma NoOccurrenceInTail(a: string, b: string, pat: string)
    requires a != []
    requires forall i :: 0 <= i < |a| ==> !OccursAt(a + pat + b, pat, i)
    ensures !OccursAt(a + pat + b, pat, 0)
    ensures forall i :: 0 <= i < |a| - 1 ==> !OccursAt(a[1..] + pat + b, pat, i)
  {
    var s := a + pat + b;
    var t := a[1..] + pat + b;
    assert s[1..] == t;
    forall i | 0 <= i < |a| - 1 ensures !OccursAt(t, pat, i) {
      assert !OccursAt(s, pat, i + 1);
      assert t[i..i + |pat|] == s[i + 1..i + 1 + |pat|];
    }
  }

  /** Where the pattern does not start the text, the first character is copied. */
  lemma ReplaceAllCopiesHead(s: string, pat: string, rep: string)
    requires pat != [] && |pat| <= |s| && !OccursAt(s, pat, 0)
    ensures ReplaceAll(s, pat, rep) == [s[0]] + ReplaceAll(s[1..], pat, rep)
  {
  }

  /** A text lacking the pattern's first character does not contain the pattern. */
  lemma MissingFirstChar(s: string, p: string)
    requires p != [] && p[0] !in s
    ensures !Contains(s, p)
  {
    NoOccurrenceAfterForeignPrefix(s, [], p);
    assert s + [] == s;
  }

  /** No character of one string occurs in the other. */
  predicate Disjoint(a: string, b: string) {
    forall k :: 0 <= k < |a| ==> a[k] !in b
  }

  /** A prefix of the output made of characters not in `rep` was copied from the input. */
  lemma {:induction false} ReplaceAllPrefixCopied(t: string, pat: string, rep: string, k: nat)
    requires pat != [] && rep != []
    requires k <= |ReplaceAll(t, pat, rep)|
    ensures (forall j :: 0 <= j < k ==> ReplaceAll(t, pat, rep)[j] !in rep) ==>
              k <= |t| && ReplaceAll(t, pat, rep)[..k] == t[..k]
    decreases |t|
  {
    var r := ReplaceAll(t, pat, rep);
    if |t| < |pat| {
    } else if t[..|pat|] == pat {
      if k > 0 {
        assert r[0] == rep[0];
      }
    } else if k > 0 {
      var r' := ReplaceAll(t[1..], pat, rep);
      assert r == [t[0]] + r';
      ReplaceAllPrefixCopied(t[1..], pat, rep, k - 1);
      if forall j :: 0 <= j < k ==> r[j] !in rep {
        forall j | 0 <= j < k - 1 ensures r'[j] !in rep {
          assert r'[j] == r[j + 1];
        }
        assert r[..k] == [t[0]] + r'[..k - 1];
        assert t[..k] == [t[0]] + t[1..][..k - 1];
      }
    }
  }

  /** An occurrence needs room: a text shorter than `p` does not contain it. */
  lemma {:induction false} ContainsFits(s: string, p: string)
    ensures Contains(s, p) ==> |p| <= |s|
    decreases |s|
  {
    if s != [] {
      ContainsFits(s[1..], p);
    }
  }

  /** Prepending text whose characters cannot start `p` adds no occurrence of `p`. */
  lemma {:induction false} NoOccurrenceAfterForeignPrefix(a: string, b: string, p: string)
    requires p != [] && p[0] !in a && !Contains(b, p)
    ensures !Contains(a + b, p)
    decreases |a|
  {
    if a != [] {
      assert (a + b)[0] == a[0];
      assert (a + b)[1..] == a[1..] + b;
      NoOccurrenceAfterForeignPrefix(a[1..], b, p);
    } else {
      assert a + b == b;
    }
  }

  /**
   * When the pattern and its replacement share no character, every
   * occurrence of the pattern is gone from the result.
   */
  lemma {:induction false} ReplaceAllRemovesPattern(s: string, pat: string, rep: string)
    requires pat != [] && rep != [] && Disjoint(pat, rep)
    ensures !Contains(ReplaceAll(s, pat, rep), pat)
    decreases |s|
  {
    var r := ReplaceAll(s, pat, rep);
    if |s| < |pat| {
      ContainsFits(s, pat);
    } else if s[..|pat|] == pat {
      ReplaceAllRemovesPattern(s[|pat|..], pat, rep);
      assert pat[0] !in rep;
      NoOccurrenceAfterForeignPrefix(rep, ReplaceAll(s[|pat|..], pat, rep), pat);
    } else {
      var r' := ReplaceAll(s[1..], pat, rep);
      ReplaceAllRemovesPattern(s[1..], pat, rep);
      assert r == [s[0]] + r';
      assert r[1..] == r';
      if StartsWith(r, pat) {
        var n := |pat|;
        forall j | 0 <= j < n - 1 ensures r'[j] !in rep {
          assert r'[j] == pat[j + 1];
        }
        ReplaceAllPrefixCopied(s[1..], pat, rep, n - 1);
      }
    }
  }
}
