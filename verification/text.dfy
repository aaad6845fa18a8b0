/**
 * The string operations the filters rely on: Python's `str.strip()`, the
 * case-insensitive substring test of `str.contains(..., case=False)`,
 * `startswith`/`endswith`, and fixed-width decimal digits for timestamps.
 */
module Text {
  import opened Common

  /** Python's `str.isspace()` for a single character. */
  predicate IsSpace(c: char) {
    || c == ' ' || c == '\t' || c == '\n' || c == '\r'
    || c == '\U{000B}' || c == '\U{000C}'
    || ('\U{001C}' <= c <= '\U{001F}')
    || c == '\U{0085}' || c == '\U{00A0}' || c == '\U{1680}'
    || ('\U{2000}' <= c <= '\U{200A}')
    || c == '\U{2028}' || c == '\U{2029}' || c == '\U{202F}' || c == '\U{205F}' || c == '\U{3000}'
  }

  /** Every character of `s` is whitespace (true of the empty string). */
  predicate AllSpace(s: string) {
    forall k :: 0 <= k < |s| ==> IsSpace(s[k])
  }

  function StripLeft(s: string): string
    decreases |s|
  {
    if s != [] && IsSpace(s[0]) then StripLeft(s[1..]) else s
  }

  function StripRight(s: string): string
    decreases |s|
  {
    if s != [] && IsSpace(s[|s| - 1]) then StripRight(s[..|s| - 1]) else s
  }

  /** `s.strip()`: drop leading and trailing whitespace. */
  function Strip(s: string): string {
    StripRight(StripLeft(s))
  }

  lemma {:induction false} StripLeftShape(s: string) returns (i: nat)
    ensures i <= |s| && StripLeft(s) == s[i..]
    ensures AllSpace(s[..i])
    ensures StripLeft(s) == [] || !IsSpace(StripLeft(s)[0])
    decreases |s|
  {
    if s != [] && IsSpace(s[0]) {
      var j := StripLeftShape(s[1..]);
      i := j + 1;
      assert s[1..][j..] == s[i..];
      assert forall k :: 1 <= k < i ==> s[..i][k] == s[1..][..j][k - 1];
    } else {
      i := 0;
    }
  }

  lemma {:induction false} StripRightShape(s: string) returns (j: nat)
    ensures j <= |s| && StripRight(s) == s[..j]
    ensures AllSpace(s[j..])
    ensures StripRight(s) == [] || !IsSpace(StripRight(s)[|StripRight(s)| - 1])
    decreases |s|
  {
    if s != [] && IsSpace(s[|s| - 1]) {
      var t := s[..|s| - 1];
      j := StripRightShape(t);
      assert t[..j] == s[..j];
      forall k | 0 <= k < |s| - j ensures IsSpace(s[j..][k]) {
        if k < |t| - j { assert s[j..][k] == t[j..][k]; }
      }
    } else {
      j := |s|;
    }
  }

  /**
   * What `strip()` returns: the infix of `s` left after removing a run of
   * whitespace at each end, and that infix neither starts nor ends with whitespace.
   */
  lemma StripShape(s: string) returns (i: nat, j: nat)
    ensures i <= j <= |s| && Strip(s) == s[i..j]
    ensures AllSpace(s[..i]) && AllSpace(s[j..])
    ensures Strip(s) != [] ==> !IsSpace(Strip(s)[0]) && !IsSpace(Strip(s)[|Strip(s)| - 1])
  {
    i := StripLeftShape(s);
    var t := s[i..];
    var j' := StripRightShape(t);
    j := i + j';
    assert t[..j'] == s[i..j];
    forall k | 0 <= k < |s| - j ensures IsSpace(s[j..][k]) {
      assert s[j..][k] == t[j'..][k];
    }
  }

  /** A value is blank (`not v.strip()`) exactly when it is all whitespace. */
  lemma BlankIffAllSpace(s: string)
    ensures Strip(s) == [] <==> AllSpace(s)
  {
    var i, j := StripShape(s);
    if Strip(s) == [] {
      forall k | 0 <= k < |s| ensures IsSpace(s[k]) {
        if k < i { assert s[..i][k] == s[k]; } else { assert s[j..][k - j] == s[k]; }
      }
    } else {
      assert !IsSpace(s[i]);
    }
  }

  /** ASCII lower-casing of one character. */
  function LowerChar(c: char): (d: char)
  {
    if 'A' <= c <= 'Z' then (c as int - 'A' as int + 'a' as int) as char else c
  }

  function Lower(s: string): (r: string)
    ensures |r| == |s|
  {
    seq(|s|, k requires 0 <= k < |s| => LowerChar(s[k]))
  }

  /** `p` is a prefix of `s` (`s.startswith(p)`). */
  predicate IsPrefix(p: string, s: string) {
    |p| <= |s| && s[..|p|] == p
  }

  /** `p` is a suffix of `s` (`s.endswith(p)`). */
  predicate IsSuffix(p: string, s: string) {
    |p| <= |s| && s[|s| - |p|..] == p
  }

  /** `needle` occurs somewhere in `hay` as a contiguous block. */
  predicate IsSubstring(needle: string, hay: string)
    decreases |hay|
  {
    IsPrefix(needle, hay) || (hay != [] && IsSubstring(needle, hay[1..]))
  }

  /** The substring test of `contains` with `case=False`. */
  predicate ContainsIgnoringCase(text: string, needle: string) {
    IsSubstring(Lower(needle), Lower(text))
  }

  /** A needle longer than the text never occurs in it. */
  lemma {:induction false} TooLongNeverOccurs(needle: string, hay: string)
    requires |needle| > |hay|
    ensures !IsSubstring(needle, hay)
    decreases |hay|
  {
    if hay != [] {
      TooLongNeverOccurs(needle, hay[1..]);
    }
  }

  // ----- fixed-width decimal digits -----

  function DigitChar(d: int): char
    requires 0 <= d < 10
  {
    ('0' as int + d) as char
  }

  predicate IsDigit(c: char) {
    '0' <= c <= '9'
  }

  function DigitValue(c: char): (d: int)
    requires IsDigit(c)
    ensures 0 <= d < 10
  {
    c as int - '0' as int
  }

  function Pow10(w: nat): (p: nat)
    ensures p >= 1
  {
    if w == 0 then 1 else 10 * Pow10(w - 1)
  }

  /** The last `width` decimal digits of `n`, zero-padded (`%02d`, `%04d`). */
  function Digits(n: int, width: nat): (s: string)
    ensures |s| == width
    decreases width
    ensures forall k :: 0 <= k < |s| ==> IsDigit(s[k])
  {
    if width == 0 then [] else Digits(n / 10, width - 1) + [DigitChar(n % 10)]
  }

  /** Reads a string of decimal digits back as a number; `None` if a character is not a digit. */
  function ParseDigits(s: string): (r: Option<nat>)
    ensures r.Some? <==> forall k :: 0 <= k < |s| ==> IsDigit(s[k])
    decreases |s|
  {
    if s == [] then Some(0)
    else
      var last := s[|s| - 1];
      match ParseDigits(s[..|s| - 1])
      case None => None
      case Some(v) => if IsDigit(last) then Some(10 * v + DigitValue(last)) else None
  }

  /** Padding to a width that fits the number loses nothing: the digits read back as the number. */
  lemma {:induction false} DigitsRoundTrip(n: int, width: nat)
    requires 0 <= n < Pow10(width)
    ensures ParseDigits(Digits(n, width)) == Some(n)
  {
    if width > 0 {
      var s := Digits(n, width);
      assert s[..|s| - 1] == Digits(n / 10, width - 1);
      DigitsRoundTrip(n / 10, width - 1);
    }
  }
}
