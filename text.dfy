/** Python's `str.strip()` with no argument: removes leading and trailing
    whitespace, where whitespace is what `str.isspace()` accepts. */
module Text {

  /** The characters Python treats as whitespace when stripping a `str`. */
  predicate IsWhitespace(c: char)
  {
    ('\t' <= c <= '\r') || ('\U{1C}' <= c <= '\U{1F}') || c == ' '
    || c == '\U{85}' || c == '\U{A0}' || c == '\U{1680}'
    || ('\U{2000}' <= c <= '\U{200A}') || c == '\U{2028}' || c == '\U{2029}'
    || c == '\U{202F}' || c == '\U{205F}' || c == '\U{3000}'
  }

  /** Every character of `s` from index `lo` up to (not including) `hi` is whitespace. */
  predicate AllWhitespaceIn(s: string, lo: nat, hi: nat)
  {
    forall i :: lo <= i < hi && i < |s| ==> IsWhitespace(s[i])
  }

  /** The index of the first character at or after `i` that is not whitespace
      (or `|s|` when there is none). */
  function SkipLeading(s: string, i: nat): (k: nat)
    requires i <= |s|
    ensures i <= k <= |s|
    ensures k < |s| ==> !IsWhitespace(s[k])
    decreases |s| - i
  {
    if i < |s| && IsWhitespace(s[i]) then SkipLeading(s, i + 1) else i
  }

  /** Everything `SkipLeading` skips is whitespace. */
  lemma {:induction false} SkipLeadingSkipsWhitespace(s: string, i: nat)
    requires i <= |s|
    ensures AllWhitespaceIn(s, i, SkipLeading(s, i))
    decreases |s| - i
  {
    if i < |s| && IsWhitespace(s[i]) {
      SkipLeadingSkipsWhitespace(s, i + 1);
    }
  }

  /** The index just past the last character before `j`, and at or after `lo`,
      that is not whitespace (or `lo` when there is none). */
  function SkipTrailing(s: string, lo: nat, j: nat): (k: nat)
    requires lo <= j <= |s|
    ensures lo <= k <= j
    ensures k > lo ==> !IsWhitespace(s[k - 1])
  {
    if j > lo && IsWhitespace(s[j - 1]) then SkipTrailing(s, lo, j - 1) else j
  }

  /** Everything `SkipTrailing` skips is whitespace. */
  lemma {:induction false} SkipTrailingSkipsWhitespace(s: string, lo: nat, j: nat)
    requires lo <= j <= |s|
    ensures AllWhitespaceIn(s, SkipTrailing(s, lo, j), j)
  {
    if j > lo && IsWhitespace(s[j - 1]) {
      SkipTrailingSkipsWhitespace(s, lo, j - 1);
    }
  }

  /** Python's `s.strip()`: the text between the leading and the trailing whitespace. */
  function Strip(s: string): (r: string)
    ensures |r| <= |s|
    ensures r == [] || (!IsWhitespace(r[0]) && !IsWhitespace(r[|r| - 1]))
  {
    var lo := SkipLeading(s, 0);
    s[lo..SkipTrailing(s, lo, |s|)]
  }

  /** What `Strip` removes is whitespace, on both sides of what it keeps, and
      it keeps every character that is not whitespace. */
  lemma StripRemovesOnlyWhitespace(s: string)
    ensures var lo := SkipLeading(s, 0);
      var hi := lo + |Strip(s)|;
      hi <= |s| && s[lo..hi] == Strip(s)
      && AllWhitespaceIn(s, 0, lo) && AllWhitespaceIn(s, hi, |s|)
      && forall k :: 0 <= k < |s| && !IsWhitespace(s[k]) ==> lo <= k < hi
  {
    var lo := SkipLeading(s, 0);
    SkipLeadingSkipsWhitespace(s, 0);
    SkipTrailingSkipsWhitespace(s, lo, |s|);
  }

  /** A string that does not start with whitespace loses only trailing whitespace. */
  lemma StripNoLeading(s: string)
    requires s != [] && !IsWhitespace(s[0])
    ensures Strip(s) == s[..|Strip(s)|]
    ensures AllWhitespaceIn(s, |Strip(s)|, |s|)
    ensures forall k :: 0 <= k < |s| && !IsWhitespace(s[k]) ==> k < |Strip(s)|
  {
    StripRemovesOnlyWhitespace(s);
  }

  /** A string that starts with a character other than whitespace keeps that
      character first once stripped. */
  lemma StripKeepsFirst(s: string)
    requires s != [] && !IsWhitespace(s[0])
    ensures Strip(s) != [] && Strip(s)[0] == s[0]
  {
    assert SkipLeading(s, 0) == 0;
    SkipTrailingSkipsWhitespace(s, 0, |s|);
  }

  /** Stripping twice is the same as stripping once. */
  lemma StripIdempotent(s: string)
    ensures Strip(Strip(s)) == Strip(s)
  {
    var r := Strip(s);
    if r != [] {
      assert SkipLeading(r, 0) == 0;
      assert SkipTrailing(r, 0, |r|) == |r|;
    }
  }
}
