/**
 * String helpers standing in for Python's `str.strip`, `str.lower`,
 * `str.upper`, `in` on strings and decimal formatting of integers, and for
 * JavaScript's `String.prototype.trim`. Whitespace is Unicode whitespace as
 * each language defines it; case is modelled on ASCII.
 */
module Text {

  /**
   * Which whitespace a strip removes: Python's `str.isspace` characters
   * (`str.strip()` with no argument) or JavaScript's WhiteSpace and
   * LineTerminator characters (`trim()`).
   */
  datatype Strip = PyStrip | JsTrim

  /** `c.isspace()` in Python: tab to carriage return, the four separators 28 to 31, space and the Unicode spaces. */
  predicate PySpace(c: char) {
    9 <= c as int <= 13 || 28 <= c as int <= 32 || c as int == 0x85 || c as int == 0xA0 || c as int == 0x1680 ||
    0x2000 <= c as int <= 0x200A || c as int == 0x2028 || c as int == 0x2029 || c as int == 0x202F ||
    c as int == 0x205F || c as int == 0x3000
  }

  /** What `trim()` removes: tab to carriage return, space, the Unicode spaces and the byte-order mark, but not 28 to 31 or 0x85. */
  predicate JsSpace(c: char) {
    9 <= c as int <= 13 || c as int == 32 || c as int == 0xA0 || c as int == 0x1680 ||
    0x2000 <= c as int <= 0x200A || c as int == 0x2028 || c as int == 0x2029 || c as int == 0x202F ||
    c as int == 0x205F || c as int == 0x3000 || c as int == 0xFEFF
  }

  predicate IsSpace(c: char, w: Strip) {
    match w
    case PyStrip => PySpace(c)
    case JsTrim => JsSpace(c)
  }

  /** The two sets differ: the file separator is stripped by Python only, the byte-order mark by JavaScript only. */
  lemma StripsDiffer()
    ensures IsSpace(28 as char, PyStrip) && !IsSpace(28 as char, JsTrim)
    ensures IsSpace(0xFEFF as char, JsTrim) && !IsSpace(0xFEFF as char, PyStrip)
  {
  }

  /** `s.lstrip()`: the suffix of `s` left after dropping leading whitespace. */
  function TrimLeft(s: string, w: Strip): (r: string)
    ensures |r| <= |s|
    ensures r == [] || !IsSpace(r[0], w)
    ensures forall i :: 0 <= i < |s| - |r| ==> IsSpace(s[i], w)
  {
    if s != [] && IsSpace(s[0], w) then TrimLeft(s[1..], w) else s
  }

  /** `s.rstrip()`: the prefix of `s` left after dropping trailing whitespace. */
  function TrimRight(s: string, w: Strip): (r: string)
    ensures |r| <= |s|
    ensures r == [] || !IsSpace(r[|r| - 1], w)
    ensures forall i :: |r| <= i < |s| ==> IsSpace(s[i], w)
  {
    if s != [] && IsSpace(s[|s| - 1], w) then TrimRight(s[..|s| - 1], w) else s
  }

  /** `lstrip` keeps a suffix of its input. */
  lemma {:induction false} TrimLeftSuffix(s: string, w: Strip)
    ensures TrimLeft(s, w) == s[|s| - |TrimLeft(s, w)|..]
  {
    if s != [] && IsSpace(s[0], w) {
      TrimLeftSuffix(s[1..], w);
    }
  }

  /** `rstrip` keeps a prefix of its input. */
  lemma {:induction false} TrimRightPrefix(s: string, w: Strip)
    ensures TrimRight(s, w) == s[..|TrimRight(s, w)|]
  {
    if s != [] && IsSpace(s[|s| - 1], w) {
      TrimRightPrefix(s[..|s| - 1], w);
    }
  }

  /** `s.strip()` in Python, `s.trim()` in JavaScript. */
  function Trim(s: string, w: Strip): string {
    TrimRight(TrimLeft(s, w), w)
  }

  predicate AllSpace(s: string, w: Strip) {
    forall i :: 0 <= i < |s| ==> IsSpace(s[i], w)
  }

  predicate Trimmed(s: string, w: Strip) {
    s == [] || (!IsSpace(s[0], w) && !IsSpace(s[|s| - 1], w))
  }

  /** The stripped string has no whitespace at either end and is a contiguous piece of the input. */
  lemma TrimShape(s: string, w: Strip)
    ensures Trimmed(Trim(s, w), w)
    ensures IsSubstring(Trim(s, w), s)
  {
    var l := TrimLeft(s, w);
    var r := TrimRight(l, w);
    TrimLeftSuffix(s, w);
    TrimRightPrefix(l, w);
    var i := |s| - |l|;
    assert s[i..i + |r|] == l[..|r|];
    assert OccursAt(r, s, i);
    if r != [] {
      assert r[0] == l[0];
    }
  }

  /** `r` is a piece of `s` with nothing but whitespace before and after it. */
  predicate StrippedFrom(r: string, s: string, w: Strip) {
    exists i :: 0 <= i <= |s| - |r| && OccursAt(r, s, i) && AllSpace(s[..i], w) && AllSpace(s[i + |r|..], w)
  }

  /** Stripping removes exactly the whitespace around the kept piece. */
  lemma TrimSurroundingSpace(s: string, w: Strip)
    ensures StrippedFrom(Trim(s, w), s, w)
  {
    var l := TrimLeft(s, w);
    var r := TrimRight(l, w);
    TrimLeftSuffix(s, w);
    TrimRightPrefix(l, w);
    var i := |s| - |l|;
    assert s[i..i + |r|] == l[..|r|];
    assert OccursAt(r, s, i);
    var before, after := s[..i], s[i + |r|..];
    forall j | 0 <= j < |before|
      ensures IsSpace(before[j], w)
    {
      assert before[j] == s[j];
    }
    forall j | 0 <= j < |after|
      ensures IsSpace(after[j], w)
    {
      assert after[j] == l[|r| + j];
    }
    assert AllSpace(before, w) && AllSpace(after, w);
    assert OccursAt(r, s, i) && AllSpace(s[..i], w) && AllSpace(s[i + |r|..], w);
  }

  /** Stripping is empty exactly when the input is all whitespace: the "blank" test of the views. */
  lemma TrimEmptyIffAllSpace(s: string, w: Strip)
    ensures Trim(s, w) == [] <==> AllSpace(s, w)
  {
    var l := TrimLeft(s, w);
    TrimLeftSuffix(s, w);
    assert l != [] ==> l[0] == s[|s| - |l|];
  }

  /** Stripping twice is stripping once. */
  lemma {:induction false} TrimIdempotent(s: string, w: Strip)
    ensures Trim(Trim(s, w), w) == Trim(s, w)
  {
    TrimShape(s, w);
    var t := Trim(s, w);
    if t != [] {
      assert TrimLeft(t, w) == t;
      assert TrimRight(t, w) == t;
    }
  }

  function LowerChar(c: char): char {
    if 'A' <= c <= 'Z' then (c as int + 32) as char else c
  }

  function UpperChar(c: char): char {
    if 'a' <= c <= 'z' then (c as int - 32) as char else c
  }

  /** `s.lower()` on ASCII. */
  function Lower(s: string): (r: string)
    ensures |r| == |s|
    ensures forall i :: 0 <= i < |s| ==> r[i] == LowerChar(s[i])
  {
    seq(|s|, i requires 0 <= i < |s| => LowerChar(s[i]))
  }

  /** `s.upper()` on ASCII. */
  function Upper(s: string): (r: string)
    ensures |r| == |s|
    ensures forall i :: 0 <= i < |s| ==> r[i] == UpperChar(s[i])
  {
    seq(|s|, i requires 0 <= i < |s| => UpperChar(s[i]))
  }

  predicate HasLowercase(s: string) {
    exists i :: 0 <= i < |s| && 'a' <= s[i] <= 'z'
  }

  /** Upper-casing leaves no lower-case letter and keeps whitespace where it is. */
  lemma UpperShape(s: string, w: Strip)
    ensures !HasLowercase(Upper(s))
    ensures forall i :: 0 <= i < |s| ==> (IsSpace(Upper(s)[i], w) <==> IsSpace(s[i], w))
  {
  }

  /** Strings with no lower-case letter are fixed points of `upper`. */

  /** `upper` undoes `lower` on strings that were upper-case already. */
  lemma UpperLower(s: string)
    requires !HasLowercase(s)
    ensures Upper(Lower(s)) == s
  {
  }

  /** `needle` occurs in `haystack` starting at position `i`. */
  predicate OccursAt(needle: string, haystack: string, i: int) {
    0 <= i <= |haystack| - |needle| && haystack[i..i + |needle|] == needle
  }

  /** Python's `needle in haystack` on strings (and Django's `__contains` lookup). */
  predicate IsSubstring(needle: string, haystack: string) {
    exists i :: 0 <= i <= |haystack| - |needle| && OccursAt(needle, haystack, i)
  }

  /** The character of a decimal digit. */
  function Digit(d: nat): (c: char)
    requires d < 10
    ensures '0' <= c <= '9'
  {
    ('0' as int + d) as char
  }

  predicate IsDigit(c: char) {
    '0' <= c <= '9'
  }

  function DigitValue(c: char): (d: nat)
    requires IsDigit(c)
    ensures d < 10 && Digit(d) == c
  {
    c as int - '0' as int
  }

  /** `str(n)` for a natural number. */
  function Decimal(n: nat): (r: string)
    ensures 1 <= |r|
    ensures forall i :: 0 <= i < |r| ==> IsDigit(r[i])
  {
    if n < 10 then [Digit(n)] else Decimal(n / 10) + [Digit(n % 10)]
  }

  /** `f"{n:02d}"` and `strftime('%H')`/`'%M'` for a value below 100. */
  function TwoDigits(n: nat): (r: string)
    requires n < 100
    ensures |r| == 2 && IsDigit(r[0]) && IsDigit(r[1])
    ensures DigitValue(r[0]) * 10 + DigitValue(r[1]) == n
  {
    [Digit(n / 10), Digit(n % 10)]
  }

  /** The number a string of decimal digits denotes (`int(s)`). */
  function DecimalValue(s: string): nat
    requires forall i :: 0 <= i < |s| ==> IsDigit(s[i])
  {
    if s == [] then 0 else DecimalValue(s[..|s| - 1]) * 10 + DigitValue(s[|s| - 1])
  }

  /** Reading back `str(n)` gives `n`. */
  lemma {:induction false} DecimalRoundTrip(n: nat)
    ensures DecimalValue(Decimal(n)) == n
  {
    if n >= 10 {
      var r := Decimal(n);
      assert r[..|r| - 1] == Decimal(n / 10);
      DecimalRoundTrip(n / 10);
    }
  }

  /** Numbers below 100 print with one or two digits. */
  lemma DecimalBelow100(n: nat)
    requires n < 100
    ensures |Decimal(n)| <= 2
  {
    if n >= 10 {
      assert Decimal(n) == Decimal(n / 10) + [Digit(n % 10)];
    }
  }
}
