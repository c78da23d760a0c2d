/** String primitives the three front ends rely on: whitespace as Python and
    Kotlin define it, `str.strip()`, `CharSequence.isBlank()`, substring search
    (`str.find` and the `in` operator) and `str.split(sep)`. */
module Text {
  import opened Wrappers

  /** Python's `str.isspace()` on one character: the characters `str.strip()`
      removes when called without arguments. */
  predicate IsPySpace(c: char) {
    ('\t' <= c <= '\r') || ('\U{1C}' <= c <= '\U{1F}') || c == ' '
    || c == '\U{85}' || c == '\U{A0}' || c == '\U{1680}'
    || ('\U{2000}' <= c <= '\U{200A}') || c == '\U{2028}' || c == '\U{2029}'
    || c == '\U{202F}' || c == '\U{205F}' || c == '\U{3000}'
  }

  /** Kotlin's `Char.isWhitespace()` on the JVM: `Character.isWhitespace`
      (ASCII controls TAB..CR, FS..US, and the space separators other than
      the no-break ones) or `Character.isSpaceChar` (every Zs, Zl, Zp). */
  predicate IsKtWhitespace(c: char): (b: bool)
    ensures b <==> IsPySpace(c) && c != '\U{85}'
  {
    ('\t' <= c <= '\r') || ('\U{1C}' <= c <= '\U{1F}') || c == ' '
    || c == '\U{A0}' || c == '\U{1680}'
    || ('\U{2000}' <= c <= '\U{200A}') || c == '\U{2028}' || c == '\U{2029}'
    || c == '\U{202F}' || c == '\U{205F}' || c == '\U{3000}'
  }

  predicate AllPySpace(s: string) {
    forall k :: 0 <= k < |s| ==> IsPySpace(s[k])
  }

  /** Every character of `s` at an index in `[lo, hi)` is whitespace. */
  predicate SpaceBetween(s: string, lo: nat, hi: nat) {
    forall k :: lo <= k < hi && k < |s| ==> IsPySpace(s[k])
  }

  /** Kotlin's `CharSequence.isBlank()`: empty or only whitespace. Text
      Kotlin calls blank is whitespace-only for Python too. */
  predicate IsBlank(s: string): (b: bool)
    ensures s == [] ==> b
    ensures b ==> AllPySpace(s)
  {
    forall k :: 0 <= k < |s| ==> IsKtWhitespace(s[k])
  }

  predicate IsNotBlank(s: string) {
    !IsBlank(s)
  }

  // ---------------------------------------------------------------------
  // str.strip()

  /** `r` has no whitespace at either end. */
  predicate IsTrimmed(r: string) {
    r == [] || (!IsPySpace(r[0]) && !IsPySpace(r[|r| - 1]))
  }

  /** `r` sits in `s` at offset `i` with only whitespace before and after it. */
  predicate Margins(s: string, r: string, i: nat) {
    i + |r| <= |s| && s[i..i + |r|] == r
    && SpaceBetween(s, 0, i) && SpaceBetween(s, i + |r|, |s|)
  }

  /** The index of the first non-whitespace character at or after `from`,
      or `|s|` when there is none. */
  function SkipSpace(s: string, from: nat): (i: nat)
    requires from <= |s|
    ensures from <= i <= |s| && SpaceBetween(s, from, i)
    ensures i < |s| ==> !IsPySpace(s[i])
    decreases |s| - from
  {
    if from < |s| && IsPySpace(s[from]) then SkipSpace(s, from + 1) else from
  }

  /** The index just past the last non-whitespace character before `to`,
      or `0` when there is none. */
  function SkipSpaceBack(s: string, to: nat): (j: nat)
    requires to <= |s|
    ensures j <= to && SpaceBetween(s, j, to)
    ensures j > 0 ==> !IsPySpace(s[j - 1])
  {
    if to > 0 && IsPySpace(s[to - 1]) then SkipSpaceBack(s, to - 1) else to
  }

  /** Python's `str.lstrip()`. */
  function StripStart(s: string): (r: string)
    ensures |r| <= |s| && r == s[|s| - |r|..]
    ensures SpaceBetween(s, 0, |s| - |r|)
    ensures r == [] || !IsPySpace(r[0])
  {
    s[SkipSpace(s, 0)..]
  }

  /** Python's `str.rstrip()`. */
  function StripEnd(s: string): (r: string)
    ensures |r| <= |s| && r == s[..|r|]
    ensures SpaceBetween(s, |r|, |s|)
    ensures r == [] || !IsPySpace(r[|r| - 1])
  {
    s[..SkipSpaceBack(s, |s|)]
  }

  /** Python's `str.strip()`: the text between the leading and the trailing
      whitespace. */
  function Strip(s: string): (r: string)
    ensures IsTrimmed(r)
    ensures Margins(s, r, |s| - |StripStart(s)|)
  {
    var i := SkipSpace(s, 0);
    var j := SkipSpaceBack(s, |s|);
    if j <= i then [] else s[i..j]
  }

  /** Two trimmed strings with whitespace margins in the same text are equal. */
  lemma MarginsUnique(s: string, r1: string, i1: nat, r2: string, i2: nat)
    requires Margins(s, r1, i1) && IsTrimmed(r1)
    requires Margins(s, r2, i2) && IsTrimmed(r2)
    ensures r1 == r2
  {
  }

  /** `Strip` is exactly the trimmed string with whitespace margins in `s`. */
  lemma StripCharacterised(s: string, r: string)
    ensures Strip(s) == r <==> IsTrimmed(r) && exists i: nat :: Margins(s, r, i)
  {
    if IsTrimmed(r) && exists i: nat :: Margins(s, r, i) {
      var i: nat :| Margins(s, r, i);
      MarginsUnique(s, r, i, Strip(s), |s| - |StripStart(s)|);
    }
  }

  /** `str.strip()` is `str.lstrip()` followed by `str.rstrip()`. */
  lemma StripIsBoth(s: string)
    ensures Strip(s) == StripEnd(StripStart(s))
  {
    StripCharacterised(s, StripEnd(StripStart(s)));
  }

  /** `not s.strip()` holds exactly for whitespace-only text. */
  lemma StripEmptyIffAllSpace(s: string)
    ensures Strip(s) == [] <==> AllPySpace(s)
  {
    if AllPySpace(s) {
      assert Margins(s, [], 0);
      StripCharacterised(s, []);
    }
  }

  // ---------------------------------------------------------------------
  // Substring search

  /** `pat` occurs in `s` starting at index `i`. */
  predicate OccursAt(s: string, pat: string, i: nat) {
    i + |pat| <= |s| && s[i..i + |pat|] == pat
  }

  /** Python's `pat in s`: the empty pattern is in every text, and no
      pattern longer than the text is in it. */
  predicate Contains(s: string, pat: string): (b: bool)
    ensures pat == [] ==> b
  {
    assert pat == [] ==> OccursAt(s, pat, 0);
    exists i: nat | i <= |s| :: OccursAt(s, pat, i)
  }

  /** The first occurrence of `pat` in `s` at or after `from`. */
  function FindFrom(s: string, pat: string, from: nat): (r: Option<nat>)
    ensures r.Some? ==> from <= r.value && OccursAt(s, pat, r.value)
    ensures r.Some? ==> forall j: nat :: from <= j < r.value ==> !OccursAt(s, pat, j)
    ensures r.None? ==> forall j: nat :: from <= j ==> !OccursAt(s, pat, j)
    decreases |s| - from
  {
    if from + |pat| > |s| then None
    else if OccursAt(s, pat, from) then Some(from)
    else FindFrom(s, pat, from + 1)
  }

  /** Python's `s.find(pat)`, with -1 as None: the least index of an occurrence. */
  function Find(s: string, pat: string): (r: Option<nat>)
    ensures r.None? <==> !Contains(s, pat)
    ensures r.Some? ==> OccursAt(s, pat, r.value)
    ensures r.Some? ==> forall j: nat :: j < r.value ==> !OccursAt(s, pat, j)
  {
    FindFrom(s, pat, 0)
  }

  /** An occurrence inside a slice is an occurrence in the whole text. */
  lemma OccursInSlice(s: string, lo: nat, hi: nat, pat: string, j: nat)
    requires lo <= hi <= |s|
    requires OccursAt(s[lo..hi], pat, j)
    ensures OccursAt(s, pat, lo + j)
  {
    assert forall k :: 0 <= k < |pat| ==> pat[k] == s[lo..hi][j + k] == s[lo + j + k];
    assert s[lo + j..lo + j + |pat|] == pat;
  }

  /** A slice of text free of `pat` is free of `pat`. */
  lemma SliceAvoids(s: string, lo: nat, hi: nat, pat: string)
    requires lo <= hi <= |s|
    requires !Contains(s, pat)
    ensures !Contains(s[lo..hi], pat)
  {
    if Contains(s[lo..hi], pat) {
      var j: nat :| OccursAt(s[lo..hi], pat, j);
      OccursInSlice(s, lo, hi, pat, j);
    }
  }

  /** Stripping text free of `pat` leaves it free of `pat`. */
  lemma StripAvoids(s: string, pat: string)
    requires !Contains(s, pat)
    ensures !Contains(Strip(s), pat)
  {
    var i := |s| - |StripStart(s)|;
    SliceAvoids(s, i, i + |Strip(s)|, pat);
  }

  // ---------------------------------------------------------------------
  // str.split(sep)

  /** `sep.join(parts)`. */
  function Join(parts: seq<string>, sep: string): string
    requires |parts| >= 1
  {
    if |parts| == 1 then parts[0] else parts[0] + sep + Join(parts[1..], sep)
  }

  /** Python's `s.split(sep)` for a non-empty separator (an empty one raises
      `ValueError`): cut at each occurrence found scanning left to right. */
  function Split(s: string, sep: string): (parts: seq<string>)
    requires sep != []
    ensures |parts| >= 1
    ensures Join(parts, sep) == s
    ensures forall k :: 0 <= k < |parts| ==> !Contains(parts[k], sep)
    decreases |s|
  {
    match Find(s, sep)
    case None => [s]
    case Some(i) =>
      var rest := Split(s[i + |sep|..], sep);
      assert s[..i] + sep + s[i + |sep|..] == s by {
        assert s[i..i + |sep|] == sep;
      }
      assert !Contains(s[..i], sep) by {
        if Contains(s[..i], sep) {
          var j: nat :| OccursAt(s[..i], sep, j);
          OccursInSlice(s, 0, i, sep, j);
        }
      }
      [s[..i]] + rest
  }

  /** `xs[-1]` in Python. */
  function Last(parts: seq<string>): string
    requires |parts| >= 1
  {
    parts[|parts| - 1]
  }

  /** No proper suffix of `sep` is also a prefix of it, so two occurrences
      of `sep` can never overlap. */
  predicate BorderFree(sep: string) {
    forall d :: 0 < d < |sep| ==> sep[d..] != sep[..|sep| - d]
  }

  /** Two occurrences of a border-free separator at distinct indices are at
      least a separator's length apart. */
  lemma NoOverlap(s: string, sep: string, i: nat, j: nat)
    requires BorderFree(sep)
    requires OccursAt(s, sep, i) && OccursAt(s, sep, j)
    requires i < j
    ensures i + |sep| <= j
  {
    if j < i + |sep| {
      OverlapIsBorder(s, sep, i, j);
    }
  }

  /** Overlapping occurrences of `sep` exhibit a border of `sep`. */
  lemma OverlapIsBorder(s: string, sep: string, i: nat, j: nat)
    requires OccursAt(s, sep, i) && OccursAt(s, sep, j)
    requires i < j < i + |sep|
    ensures sep[j - i..] == sep[..|sep| - (j - i)]
  {
  }

  /** When the text ends with a separator followed by separator-free text
      `g`, the last split segment is `g`, whatever comes before. */
  lemma {:induction false} LastSegmentAfterFinalSeparator(x: string, sep: string, g: string)
    requires sep != [] && BorderFree(sep)
    requires !Contains(g, sep)
    ensures Last(Split(x + sep + g, sep)) == g
    decreases |x|
  {
    var s := x + sep + g;
    SeparatorBetween(x, sep, g);
    var i := Find(s, sep).value;
    LastAfterFirstSeparator(s, sep, i);
    if i == |x| {
      LastOfSeparatorFree(g, sep);
    } else {
      assert i + |sep| <= |x| by {
        NoOverlap(s, sep, i, |x|);
      }
      CutInsidePrefix(x, sep, g, i);
      LastSegmentAfterFinalSeparator(x[i + |sep|..], sep, g);
    }
  }

  /** In `x + sep + g`, `sep` occurs at `|x|` and is followed by `g`. */
  lemma SeparatorBetween(x: string, sep: string, g: string)
    ensures OccursAt(x + sep + g, sep, |x|)
    ensures (x + sep + g)[|x| + |sep|..] == g
  {
    assert (x + sep + g)[|x|..|x| + |sep|] == sep;
  }

  /** Cutting `x + sep + g` after an occurrence of `sep` inside `x` leaves
      the rest of `x`, then `sep` and `g`. */
  lemma CutInsidePrefix(x: string, sep: string, g: string, i: nat)
    requires i + |sep| <= |x|
    ensures (x + sep + g)[i + |sep|..] == x[i + |sep|..] + sep + g
  {
  }

  /** Text free of the separator splits into itself alone. */
  lemma LastOfSeparatorFree(g: string, sep: string)
    requires sep != [] && !Contains(g, sep)
    ensures Last(Split(g, sep)) == g
  {
    assert Split(g, sep) == [g];
  }

  /** The last segment of a split is the last segment of what follows the
      first separator. */
  lemma LastAfterFirstSeparator(s: string, sep: string, i: nat)
    requires sep != [] && Find(s, sep) == Some(i)
    ensures Last(Split(s, sep)) == Last(Split(s[i + |sep|..], sep))
  {
    var rest := Split(s[i + |sep|..], sep);
    assert Split(s, sep) == [s[..i]] + rest;
    LastOfCons(s[..i], rest);
  }

  /** Putting a part in front does not change the last part. */
  lemma LastOfCons(p: string, parts: seq<string>)
    requires |parts| >= 1
    ensures Last([p] + parts) == Last(parts)
  {
  }

  /** An occurrence that ends before `hi` is an occurrence in `s[..hi]`. */
  lemma OccursInPrefix(s: string, hi: nat, pat: string, j: nat)
    requires hi <= |s|
    requires OccursAt(s, pat, j) && j + |pat| <= hi
    ensures OccursAt(s[..hi], pat, j)
  {
    assert s[..hi][j..j + |pat|] == s[j..j + |pat|];
  }

  /** For a border-free separator, splitting undoes joining separator-free
      parts: `sep.join(parts).split(sep) == parts`. */
  lemma {:induction false} SplitJoin(parts: seq<string>, sep: string)
    requires sep != [] && BorderFree(sep)
    requires |parts| >= 1
    requires forall k :: 0 <= k < |parts| ==> !Contains(parts[k], sep)
    ensures Split(Join(parts, sep), sep) == parts
    decreases |parts|
  {
    var p0 := parts[0];
    if |parts| == 1 {
      assert Find(p0, sep).None?;
    } else {
      var rest := Join(parts[1..], sep);
      var s := p0 + sep + rest;
      assert OccursAt(s, sep, |p0|) by {
        assert s[|p0|..|p0| + |sep|] == sep;
      }
      var i := Find(s, sep).value;
      if i < |p0| {
        if i + |sep| <= |p0| {
          assert s[..|p0|] == p0;
          OccursInPrefix(s, |p0|, sep, i);
        } else {
          NoOverlap(s, sep, i, |p0|);
        }
      }
      assert i == |p0|;
      assert s[i + |sep|..] == rest;
      SplitJoin(parts[1..], sep);
    }
  }
}
