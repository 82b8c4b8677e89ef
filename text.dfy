/**
 * String helpers that the pages use through JavaScript built-ins:
 * `String(n)` on a non-negative integer, `padStart(2, '0')`,
 * `toLowerCase()` (over ASCII), `includes` and `trim()`.
 */
module Text {

  predicate IsDigit(c: char) {
    '0' <= c <= '9'
  }

  function DigitChar(d: nat): (c: char)
    requires d < 10
    ensures IsDigit(c)
  {
    ('0' as int + d) as char
  }

  function DigitValue(c: char): (d: nat)
    requires IsDigit(c)
    ensures d < 10 && DigitChar(d) == c
  {
    c as int - '0' as int
  }

  predicate AllDigits(s: string) {
    forall i :: 0 <= i < |s| ==> IsDigit(s[i])
  }

  /** `String(n)` for a non-negative integer: decimal digits without leading zeros. */
  function Digits(n: nat): (s: string)
    ensures AllDigits(s)
    ensures 1 <= |s|
    ensures |s| == 1 <==> n < 10
    ensures s[0] == '0' ==> n == 0
  {
    if n < 10 then [DigitChar(n)] else Digits(n / 10) + [DigitChar(n % 10)]
  }

  /** The number a string of decimal digits denotes (the inverse of `Digits`). */
  function DecimalValue(s: string): nat
    requires AllDigits(s)
  {
    if s == [] then 0 else DecimalValue(s[..|s| - 1]) * 10 + DigitValue(s[|s| - 1])
  }

  lemma {:induction false} DigitsRoundTrip(n: nat)
    ensures DecimalValue(Digits(n)) == n
  {
    if n >= 10 {
      var s := Digits(n);
      assert s[..|s| - 1] == Digits(n / 10);
      DigitsRoundTrip(n / 10);
    }
  }

  /** Numbers 10..99 have two digits, 1000..9999 have four. */
  lemma DigitsLength(n: nat)
    ensures 10 <= n < 100 ==> |Digits(n)| == 2
    ensures 1000 <= n < 10000 ==> |Digits(n)| == 4
  {
    if 1000 <= n < 10000 {
      assert |Digits(n / 1000)| == 1;
      assert |Digits(n / 100)| == 2;
      assert |Digits(n / 10)| == 3;
    }
  }

  /** `String(n).padStart(2, '0')`. */
  function Pad2(n: nat): string {
    var d := Digits(n);
    if |d| < 2 then ['0'] + d else d
  }

  /** Below 100, `Pad2` gives exactly two digits that denote `n`; a leading zero
      appears exactly for 0..9. */
  lemma Pad2Spec(n: nat)
    requires n < 100
    ensures |Pad2(n)| == 2 && AllDigits(Pad2(n))
    ensures DecimalValue(Pad2(n)) == n
    ensures Pad2(n)[0] == '0' <==> n < 10
  {
    DigitsRoundTrip(n);
    DigitsLength(n);
    var p := Pad2(n);
    if n < 10 {
      assert p[..1] == ['0'];
      assert p[..1][..0] == [];
    }
  }

  predicate IsUpper(c: char) {
    'A' <= c <= 'Z'
  }

  /** `toLowerCase()` restricted to ASCII: letters A-Z become a-z, every other
      character is kept. */
  function LowerChar(c: char): (r: char)
    ensures !IsUpper(r)
    ensures IsUpper(c) ==> r as int == c as int + 32
    ensures !IsUpper(c) ==> r == c
  {
    if IsUpper(c) then (c as int + 32) as char else c
  }

  function Lower(s: string): (r: string)
    ensures |r| == |s|
    ensures forall i :: 0 <= i < |s| ==> r[i] == LowerChar(s[i])
  {
    if s == [] then [] else [LowerChar(s[0])] + Lower(s[1..])
  }

  /** Lowercasing an already lowercased string changes nothing. */
  lemma LowerIdempotent(s: string)
    ensures Lower(Lower(s)) == Lower(s)
  {
  }

  predicate IsPrefix(p: string, s: string) {
    |p| <= |s| && s[..|p|] == p
  }

  /** `s.includes(sub)`: `sub` occurs somewhere in `s` as a contiguous substring. */
  predicate Includes(s: string, sub: string)
    decreases |s|
  {
    IsPrefix(sub, s) || (s != [] && Includes(s[1..], sub))
  }

  /** `Includes` holds exactly when `sub` sits at some offset of `s`. */
  lemma {:induction false} IncludesAt(s: string, sub: string)
    ensures Includes(s, sub) <==> exists k :: 0 <= k <= |s| - |sub| && IsPrefix(sub, s[k..])
    decreases |s|
  {
    assert s[0..] == s;
    if s != [] {
      IncludesAt(s[1..], sub);
      if Includes(s[1..], sub) {
        var k :| 0 <= k <= |s[1..]| - |sub| && IsPrefix(sub, s[1..][k..]);
        assert s[1..][k..] == s[k + 1..];
      }
      if k :| 0 <= k <= |s| - |sub| && IsPrefix(sub, s[k..]) {
        if k > 0 {
          assert s[1..][k - 1..] == s[k..];
        }
      }
    }
  }

  /** The empty string occurs in every string. */
  lemma IncludesEmpty(s: string)
    ensures Includes(s, [])
  {
    assert IsPrefix([], s);
  }

  /** A character `trim()` removes: ECMAScript WhiteSpace and LineTerminator. */
  predicate IsJsWhitespace(c: char) {
    c == '\t' || c == '\n' || c == '\U{000B}' || c == '\U{000C}' || c == '\r' || c == ' '
    || c == '\U{00A0}' || c == '\U{1680}' || ('\U{2000}' <= c <= '\U{200A}')
    || c == '\U{2028}' || c == '\U{2029}' || c == '\U{202F}' || c == '\U{205F}'
    || c == '\U{3000}' || c == '\U{FEFF}'
  }

  predicate IsBlank(s: string) {
    forall i :: 0 <= i < |s| ==> IsJsWhitespace(s[i])
  }

  function TrimStart(s: string): (r: string)
    ensures |r| <= |s| && r == s[|s| - |r|..]
    ensures forall i :: 0 <= i < |s| - |r| ==> IsJsWhitespace(s[i])
    ensures r != [] ==> !IsJsWhitespace(r[0])
  {
    if s != [] && IsJsWhitespace(s[0]) then TrimStart(s[1..]) else s
  }

  function TrimEnd(s: string): (r: string)
    ensures |r| <= |s| && r == s[..|r|]
    ensures forall i :: |r| <= i < |s| ==> IsJsWhitespace(s[i])
    ensures r != [] ==> !IsJsWhitespace(r[|r| - 1])
  {
    if s != [] && IsJsWhitespace(s[|s| - 1]) then TrimEnd(s[..|s| - 1]) else s
  }

  /** `s.trim()`: leading and trailing whitespace removed. */
  function Trim(s: string): string {
    TrimEnd(TrimStart(s))
  }

  /** `!s.trim()` holds exactly when every character of `s` is whitespace. */
  lemma TrimEmptyIffBlank(s: string)
    ensures Trim(s) == [] <==> IsBlank(s)
  {
    var t := TrimStart(s);
    if t == [] {
      assert s[..|s|] == s;
    } else {
      assert t[0] == s[|s| - |t|];
      assert t[0..] == t;
    }
  }
}
