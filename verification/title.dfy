/** Title normalisation: Python's argument-less `str.strip`, which removes
    leading and trailing whitespace characters. */
module Title {

  /** The characters for which Python's `str.isspace` holds, and which a
      bare `str.strip()` therefore removes: the ASCII controls TAB to CR, the
      four information separators, SPACE, NEL, NO-BREAK SPACE and the Unicode
      space and line/paragraph separators. */
  predicate IsWhitespace(c: char) {
    || ('\t' <= c <= '\r')
    || ('\U{1C}' <= c <= '\U{1F}')
    || c == ' '
    || c == '\U{85}'
    || c == '\U{A0}'
    || c == '\U{1680}'
    || ('\U{2000}' <= c <= '\U{200A}')
    || c == '\U{2028}'
    || c == '\U{2029}'
    || c == '\U{202F}'
    || c == '\U{205F}'
    || c == '\U{3000}'
  }

  /** Every character of `s` is whitespace (the empty string included). */
  predicate IsBlank(s: string) {
    forall i :: 0 <= i < |s| ==> IsWhitespace(s[i])
  }

  /** `s` neither starts nor ends with whitespace. */
  predicate IsStripped(s: string) {
    |s| == 0 || (!IsWhitespace(s[0]) && !IsWhitespace(s[|s| - 1]))
  }

  /** `r` is the slice `s[i..j]` and only whitespace lies outside it. */
  predicate Frames(s: string, r: string, i: int, j: int) {
    && 0 <= i <= j <= |s|
    && r == s[i..j]
    && (forall k :: 0 <= k < i ==> IsWhitespace(s[k]))
    && (forall k :: j <= k < |s| ==> IsWhitespace(s[k]))
  }

  /** Drops the leading whitespace: the result is a suffix of `s` that is
      either empty or starts with a non-whitespace character, and all that
      was dropped is whitespace. */
  function TrimStart(s: string): (r: string)
    ensures |r| <= |s| && r == s[|s| - |r|..]
    ensures forall k :: 0 <= k < |s| - |r| ==> IsWhitespace(s[k])
    ensures |r| == 0 || !IsWhitespace(r[0])
  {
    if |s| > 0 && IsWhitespace(s[0]) then
      TrimStart(s[1..])
    else
      s
  }

  /** Drops the trailing whitespace: the result is a prefix of `s` that is
      either empty or ends with a non-whitespace character, and all that was
      dropped is whitespace. */
  function TrimEnd(s: string): (r: string)
    ensures |r| <= |s| && r == s[..|r|]
    ensures forall k :: |r| <= k < |s| ==> IsWhitespace(s[k])
    ensures |r| == 0 || !IsWhitespace(r[|r| - 1])
  {
    if |s| > 0 && IsWhitespace(s[|s| - 1]) then
      TrimEnd(s[..|s| - 1])
    else
      s
  }

  /** Dropping a whitespace prefix and then a whitespace suffix leaves a
      slice framed by whitespace. */
  lemma FramedBySuffixOfSuffix(s: string, t: string, r: string)
    requires |t| <= |s| && t == s[|s| - |t|..]
    requires forall k :: 0 <= k < |s| - |t| ==> IsWhitespace(s[k])
    requires |r| <= |t| && r == t[..|r|]
    requires forall k :: |r| <= k < |t| ==> IsWhitespace(t[k])
    ensures Frames(s, r, |s| - |t|, |s| - |t| + |r|)
  {
    var i := |s| - |t|;
    forall k | i + |r| <= k < |s|
      ensures IsWhitespace(s[k])
    {
      assert s[k] == t[k - i];
    }
  }

  /** Trimming the start and then the end leaves a slice of `s` framed by
      whitespace. */
  lemma TrimBothFrames(s: string)
    ensures exists i, j :: Frames(s, TrimEnd(TrimStart(s)), i, j)
  {
    FramedBySuffixOfSuffix(s, TrimStart(s), TrimEnd(TrimStart(s)));
  }

  /** Trimming both ends leaves nothing exactly when `s` is blank. */
  lemma TrimBothEmptyIffBlank(s: string)
    ensures TrimEnd(TrimStart(s)) == [] <==> IsBlank(s)
  {
  }

  /** `str.strip()`: the slice of `s` left once the whitespace at both ends
      is removed. It is empty exactly when `s` is blank. */
  function Strip(s: string): (r: string)
    ensures exists i, j :: Frames(s, r, i, j)
    ensures IsStripped(r)
    ensures r == [] <==> IsBlank(s)
  {
    TrimBothFrames(s);
    TrimBothEmptyIffBlank(s);
    TrimEnd(TrimStart(s))
  }

  /** `_normalise_title` (todo.py:32-33): the stripped title. */
  function Normalise(title: string): (r: string)
    ensures exists i, j :: Frames(title, r, i, j)
    ensures IsStripped(r)
    ensures r == [] <==> IsBlank(title)
  {
    Strip(title)
  }

  /** A string without whitespace at either end is left alone by strip. */
  lemma StrippedIsFixpoint(s: string)
    requires IsStripped(s)
    ensures Strip(s) == s
  {
    assert TrimStart(s) == s;
    assert TrimEnd(s) == s;
  }

  /** Strip has exactly one possible result: any slice of `s` without
      whitespace at its ends, with only whitespace outside it, is `Strip(s)`.
      Together with Strip's contract this characterises it completely. */
  lemma StripUnique(s: string, r: string, i: int, j: int)
    requires Frames(s, r, i, j)
    requires IsStripped(r)
    ensures Strip(s) == r
  {
    if r == [] {
      assert s == s[..i] + s[j..];
      assert IsBlank(s);
    } else {
      var t := TrimStart(s);
      var k := |s| - |t|;
      assert s[i] == r[0];
      assert k == i;
      assert t == s[i..];
      var u := TrimEnd(t);
      var m := j - i;
      assert t[m - 1] == r[|r| - 1];
      assert |u| == m;
      assert u == t[..m] == s[i..j];
    }
  }

  /** Normalising twice is the same as normalising once. */
  lemma NormaliseIdempotent(title: string)
    ensures Normalise(Normalise(title)) == Normalise(title)
  {
    StrippedIsFixpoint(Normalise(title));
  }

  /** A title is left unchanged by normalisation exactly when it has no
      whitespace at either end. */
  lemma NormalisedIffStripped(title: string)
    ensures Normalise(title) == title <==> IsStripped(title)
  {
    if IsStripped(title) {
      StrippedIsFixpoint(title);
    }
  }
}
