/** Character classes and string scanning shared by the slicers and the
    hand-written recognisers of the three regular expressions. */
module Text {
  import opened Errors

  /** Unicode White_Space, the class Rust's `str::trim` strips. */
  predicate IsWhitespace(c: char) {
    || c == ' '
    || ('\t' <= c <= '\r')
    || c == '\U{0085}' || c == '\U{00A0}' || c == '\U{1680}'
    || ('\U{2000}' <= c <= '\U{200A}')
    || c == '\U{2028}' || c == '\U{2029}' || c == '\U{202F}'
    || c == '\U{205F}' || c == '\U{3000}'
  }

  /** The regex class `[[:space:]]`: ASCII space, tab, LF, VT, FF, CR. */
  predicate IsAsciiSpace(c: char) {
    c == ' ' || ('\t' <= c <= '\r')
  }

  /** The regex class `[[:digit:]]`. */
  predicate IsDigit(c: char) {
    '0' <= c <= '9'
  }

  /** The regex class `[[:word:]]`: ASCII letters, digits and underscore. */
  predicate IsWordChar(c: char) {
    IsDigit(c) || ('a' <= c <= 'z') || ('A' <= c <= 'Z') || c == '_'
  }

  predicate AllDigits(s: string) {
    forall i :: 0 <= i < |s| ==> IsDigit(s[i])
  }

  predicate AllAsciiSpace(s: string) {
    forall i :: 0 <= i < |s| ==> IsAsciiSpace(s[i])
  }

  predicate AllWhitespace(s: string) {
    forall i :: 0 <= i < |s| ==> IsWhitespace(s[i])
  }

  predicate StartsWith(s: string, prefix: string) {
    |prefix| <= |s| && s[..|prefix|] == prefix
  }

  predicate EndsWith(s: string, suffix: string) {
    |suffix| <= |s| && s[|s| - |suffix|..] == suffix
  }

  predicate IsSuffix(suffix: string, s: string) {
    EndsWith(s, suffix)
  }

  /** `pat` occurs in `s` starting at index `i`. */
  predicate IsAt(s: string, pat: string, i: int) {
    0 <= i && i + |pat| <= |s| && s[i..i + |pat|] == pat
  }

  predicate Contains(s: string, pat: string) {
    exists i :: 0 <= i <= |s| && IsAt(s, pat, i)
  }

  /** Dropping the first character shifts every occurrence one place left. */
  lemma ShiftIsAt(s: string, pat: string, j: int)
    requires 0 < j && 0 < |s|
    ensures IsAt(s, pat, j) <==> IsAt(s[1..], pat, j - 1)
  {
    if j + |pat| <= |s| {
      assert s[1..][j - 1..j - 1 + |pat|] == s[j..j + |pat|];
    }
  }

  /** `pat` occurs at `i` and nowhere earlier. */
  predicate FirstAt(s: string, pat: string, i: int) {
    IsAt(s, pat, i) && forall j :: 0 <= j < i ==> !IsAt(s, pat, j)
  }

  /** Occurrences in a suffix are occurrences in the whole string, shifted. */
  lemma IsAtDrop(s: string, pat: string, x: int, k: int)
    requires 0 <= x <= |s| && 0 <= k
    ensures IsAt(s[x..], pat, k) <==> IsAt(s, pat, x + k)
  {
    if x + k + |pat| <= |s| {
      assert s[x..][k..k + |pat|] == s[x + k..x + k + |pat|];
    }
  }

  /** Occurrences that end inside a prefix are occurrences in the whole string. */
  lemma IsAtTake(s: string, pat: string, y: int, k: int)
    requires 0 <= y <= |s| && k + |pat| <= y
    ensures IsAt(s[..y], pat, k) <==> IsAt(s, pat, k)
  {
    if 0 <= k {
      assert s[..y][k..k + |pat|] == s[k..k + |pat|];
    }
  }

  lemma SliceOfSlice(s: string, a: int, b: int, c: int, d: int)
    requires 0 <= a <= b <= |s| && 0 <= c <= d <= b - a
    ensures s[a..b][c..d] == s[a + c..a + d]
  {
    assert forall t :: 0 <= t < d - c ==> s[a..b][c..d][t] == s[a + c..a + d][t];
  }

  lemma SliceOfSuffix(s: string, a: int, c: int, d: int)
    requires 0 <= a <= |s| && 0 <= c <= d <= |s| - a
    ensures s[a..][c..d] == s[a + c..a + d]
  {
    assert forall t :: 0 <= t < d - c ==> s[a..][c..d][t] == s[a + c..a + d][t];
  }

  /** The first index at which `pat` occurs in `s`, like `str::find`
      (indices count characters rather than UTF-8 bytes). */
  function Find(s: string, pat: string): (r: Option<nat>)
    ensures r.Some? ==> IsAt(s, pat, r.value)
    ensures r.Some? ==> forall j :: 0 <= j < r.value ==> !IsAt(s, pat, j)
    ensures r.None? <==> !Contains(s, pat)
    decreases |s|
  {
    if |s| < |pat| then
      None
    else if s[..|pat|] == pat then
      assert IsAt(s, pat, 0);
      Some(0)
    else
      var t := Find(s[1..], pat);
      forall j | 0 < j
        ensures IsAt(s, pat, j) <==> IsAt(s[1..], pat, j - 1)
      {
        ShiftIsAt(s, pat, j);
      }
      assert !IsAt(s, pat, 0);
      match t
      case None =>
        None
      case Some(k) =>
        assert IsAt(s, pat, k + 1);
        Some(k + 1)
  }

  /** `str::trim_start`: drops the leading whitespace. */
  function TrimStart(s: string): (r: string)
    ensures |r| <= |s|
  {
    if |s| > 0 && IsWhitespace(s[0]) then TrimStart(s[1..]) else s
  }

  /** What `TrimStart` drops is whitespace, what it keeps is a suffix that
      does not start with whitespace. */
  lemma {:induction false} TrimStartShape(s: string)
    ensures IsSuffix(TrimStart(s), s)
    ensures AllWhitespace(s[..|s| - |TrimStart(s)|])
    ensures |TrimStart(s)| > 0 ==> !IsWhitespace(TrimStart(s)[0])
  {
    if |s| > 0 && IsWhitespace(s[0]) {
      var r := TrimStart(s[1..]);
      TrimStartShape(s[1..]);
      assert s[|s| - |r|..] == s[1..][|s[1..]| - |r|..];
      assert s[..|s| - |r|] == [s[0]] + s[1..][..|s[1..]| - |r|];
    }
  }

  /** Drops the trailing whitespace. */
  function TrimEnd(s: string): (r: string)
    ensures StartsWith(s, r)
    ensures AllWhitespace(s[|r|..])
    ensures |r| > 0 ==> !IsWhitespace(r[|r| - 1])
  {
    if |s| > 0 && IsWhitespace(s[|s| - 1]) then
      var r := TrimEnd(s[..|s| - 1]);
      assert s[..|r|] == s[..|s| - 1][..|r|];
      assert s[|r|..] == s[..|s| - 1][|r|..] + [s[|s| - 1]];
      r
    else
      s
  }

  /** `str::trim`: a middle part of `s` with no whitespace at either end,
      everything removed being whitespace. */
  function Trim(s: string): (r: string)
    ensures exists i :: 0 <= i <= |s| - |r| && s[i..i + |r|] == r
                && AllWhitespace(s[..i]) && AllWhitespace(s[i + |r|..])
    ensures |r| > 0 ==> !IsWhitespace(r[0]) && !IsWhitespace(r[|r| - 1])
  {
    var t := TrimStart(s);
    TrimStartShape(s);
    var r := TrimEnd(t);
    TrimParts(s, t, r);
    r
  }

  /** Text with no whitespace at either end is its own trim. */
  lemma TrimUntouched(s: string)
    requires |s| > 0 && !IsWhitespace(s[0]) && !IsWhitespace(s[|s| - 1])
    ensures Trim(s) == s
  {
    assert TrimStart(s) == s;
    assert TrimEnd(s) == s;
  }

  /** A prefix `r` of a suffix `t` of `s` sits in `s` where `t` starts, and
      what follows it in `s` is what follows it in `t`. */
  lemma TrimParts<T>(s: seq<T>, t: seq<T>, r: seq<T>)
    requires |t| <= |s| && s[|s| - |t|..] == t && |r| <= |t| && t[..|r|] == r
    ensures s[|s| - |t|..|s| - |t| + |r|] == r && s[|s| - |t| + |r|..] == t[|r|..]
  {
    var i := |s| - |t|;
    assert s[i..i + |r|] == s[i..][..|r|];
    assert s[i + |r|..] == s[i..][|r|..];
  }

  /** The longest prefix of `s` made of characters satisfying the regex
      class `[[:digit:]]`. */
  function DigitPrefix(s: string): (r: nat)
    ensures r <= |s| && AllDigits(s[..r])
    ensures r < |s| ==> !IsDigit(s[r])
  {
    if |s| > 0 && IsDigit(s[0]) then
      var k := DigitPrefix(s[1..]);
      assert s[..k + 1] == [s[0]] + s[1..][..k];
      k + 1
    else
      0
  }

  /** The longest prefix of ASCII spaces. */
  function SpacePrefix(s: string): (r: nat)
    ensures r <= |s| && AllAsciiSpace(s[..r])
    ensures r < |s| ==> !IsAsciiSpace(s[r])
  {
    if |s| > 0 && IsAsciiSpace(s[0]) then
      var k := SpacePrefix(s[1..]);
      assert s[..k + 1] == [s[0]] + s[1..][..k];
      k + 1
    else
      0
  }

  /** The decimal value of a digit string, as `parse::<u32>` reads it
      (overflow is not modelled). */
  function DigitsValue(s: string): nat
    requires AllDigits(s)
  {
    if |s| == 0 then 0
    else 10 * DigitsValue(s[..|s| - 1]) + (s[|s| - 1] as int - '0' as int)
  }
}
