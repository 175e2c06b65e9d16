/**
 * The few Kotlin standard-library operations the core relies on, with
 * their exact edge cases: 32-bit `Int` addition, `coerceAtLeast`,
 * `Int.toString()` and `String.contains(other, ignoreCase)`.
 */
module Lang {

  const INT_MIN: int := -0x8000_0000
  const INT_MAX: int := 0x7fff_ffff

  /** Kotlin's `Int`. */
  type Int32 = x: int | INT_MIN <= x <= INT_MAX

  /** Kotlin's `a + b` on `Int`: two's-complement wrap-around. */
  function AddInt32(a: Int32, b: Int32): (r: Int32)
    ensures INT_MIN <= a + b <= INT_MAX ==> r == a + b
    ensures a + b > INT_MAX ==> r == a + b - 0x1_0000_0000
    ensures a + b < INT_MIN ==> r == a + b + 0x1_0000_0000
  {
    (a + b - INT_MIN) % 0x1_0000_0000 + INT_MIN
  }

  /** Kotlin's `x.coerceAtLeast(lo)`. */
  function CoerceAtLeast(x: int, lo: int): (r: int)
    ensures r >= lo && r >= x
    ensures r == x || r == lo
  {
    if x < lo then lo else x
  }

  // ---------------------------------------------------------------------
  // Decimal text

  predicate IsDigit(c: char) {
    '0' <= c <= '9'
  }

  predicate AllDigits(s: string) {
    forall i :: 0 <= i < |s| ==> IsDigit(s[i])
  }

  function DigitChar(d: nat): (c: char)
    requires d < 10
    ensures IsDigit(c) && DigitValue(c) == d
  {
    (('0' as int) + d) as char
  }

  function DigitValue(c: char): nat
    requires IsDigit(c)
  {
    (c as int) - ('0' as int)
  }

  /** The shortest decimal spelling of `n` (no leading zeros). */
  function Digits(n: nat): (s: string)
    ensures |s| >= 1 && AllDigits(s)
    decreases n
  {
    if n < 10 then [DigitChar(n)] else Digits(n / 10) + [DigitChar(n % 10)]
  }

  /** The number a string of decimal digits spells; an independent reading of `Digits`. */
  function Value(s: string): nat
    requires AllDigits(s)
  {
    if s == [] then 0 else 10 * Value(s[..|s| - 1]) + DigitValue(s[|s| - 1])
  }

  /** `k` zero characters. */
  function Zeros(k: nat): (s: string)
    ensures |s| == k && AllDigits(s)
  {
    seq(k, _ => '0')
  }

  /** `n` in at least `width` digits, padded on the left with zeros (a `SimpleDateFormat` field). */
  function ZeroPad(n: nat, width: nat): (s: string)
    ensures |s| >= width
  {
    var ds := Digits(n);
    var k := if |ds| >= width then 0 else width - |ds|;
    Zeros(k) + ds
  }

  /** A padded number is all digits and reads back as the number. */
  lemma ZeroPadValue(n: nat, width: nat)
    ensures AllDigits(ZeroPad(n, width)) && Value(ZeroPad(n, width)) == n
  {
    var ds := Digits(n);
    ValueOfDigits(n);
    var k := if |ds| >= width then 0 else width - |ds|;
    ValueIgnoresLeadingZeros(k, ds);
  }

  /** Kotlin's `Int.toString()`: a minus sign for negatives, then the digits. */
  function IntToString(n: int): (s: string)
    ensures |s| >= 1
    ensures IntValue(s) == n
  {
    ValueOfDigits(if n < 0 then -n else n);
    if n < 0 then "-" + Digits(-n) else Digits(n)
  }

  /** Reading back an optionally signed decimal; 0 for anything else. */
  function IntValue(s: string): int {
    if |s| >= 1 && s[0] == '-' && AllDigits(s[1..]) then -(Value(s[1..]) as int)
    else if AllDigits(s) then Value(s)
    else 0
  }

  lemma {:induction false} ValueOfDigits(n: nat)
    ensures Value(Digits(n)) == n
    decreases n
  {
    if n >= 10 {
      ValueOfDigits(n / 10);
      var s := Digits(n);
      assert s[..|s| - 1] == Digits(n / 10);
    }
  }

  lemma {:induction false} ValueIgnoresLeadingZeros(k: nat, s: string)
    requires AllDigits(s)
    ensures Value(Zeros(k) + s) == Value(s)
    decreases |s|
  {
    var t := Zeros(k) + s;
    if s == [] {
      ValueOfZeros(k);
      assert t == Zeros(k);
    } else {
      ValueIgnoresLeadingZeros(k, s[..|s| - 1]);
      assert t[..|t| - 1] == Zeros(k) + s[..|s| - 1];
    }
  }

  lemma {:induction false} ValueOfZeros(k: nat)
    ensures Value(Zeros(k)) == 0
  {
    if k > 0 {
      ValueOfZeros(k - 1);
      assert Zeros(k)[..k - 1] == Zeros(k - 1);
    }
  }

  /** Fewer than `width` digits suffice for any `n` below 10^width. */
  lemma {:induction false} DigitsFit(n: nat, width: nat)
    requires 1 <= width && n < Pow10(width)
    ensures |Digits(n)| <= width
    decreases n
  {
    if n >= 10 {
      DigitsFit(n / 10, width - 1);
    }
  }

  function Pow10(k: nat): (p: nat)
    ensures p >= 1
  {
    if k == 0 then 1 else 10 * Pow10(k - 1)
  }

  /** A value below 10^width is spelled by `ZeroPad` in exactly `width` digits. */
  lemma ZeroPadWidth(n: nat, width: nat)
    requires 1 <= width && n < Pow10(width)
    ensures |ZeroPad(n, width)| == width
  {
    DigitsFit(n, width);
  }

  // ---------------------------------------------------------------------
  // Substring search

  /** ASCII upper-casing of one character. */
  function AsciiUpper(c: char): char {
    if 'a' <= c <= 'z' then ((c as int) - 32) as char else c
  }

  /** Kotlin's `Char.equals(other, ignoreCase)` restricted to ASCII case folding. */
  predicate CharEquals(a: char, b: char, ignoreCase: bool) {
    a == b || (ignoreCase && AsciiUpper(a) == AsciiUpper(b))
  }

  /** `pattern` matches `s` at offset `i`, character by character. */
  predicate MatchesAt(s: string, pattern: string, i: int, ignoreCase: bool) {
    0 <= i && i + |pattern| <= |s| &&
    forall k :: 0 <= k < |pattern| ==> CharEquals(s[i + k], pattern[k], ignoreCase)
  }

  /** Kotlin's `s.contains(pattern, ignoreCase)`, scanning offsets left to right. */
  predicate Contains(s: string, pattern: string, ignoreCase: bool)
    decreases |s|
  {
    if |s| < |pattern| then false
    else MatchesAt(s, pattern, 0, ignoreCase) || Contains(s[1..], pattern, ignoreCase)
  }

  /** The scan finds a match exactly when the pattern occurs at some offset. */
  lemma {:induction false} ContainsIffOccurs(s: string, pattern: string, ignoreCase: bool)
    ensures Contains(s, pattern, ignoreCase) <==>
            exists i :: 0 <= i <= |s| - |pattern| && MatchesAt(s, pattern, i, ignoreCase)
    decreases |s|
  {
    if |s| >= |pattern| && |s| > 0 {
      ContainsIffOccurs(s[1..], pattern, ignoreCase);
      if Contains(s[1..], pattern, ignoreCase) {
        var i :| 0 <= i <= |s| - 1 - |pattern| && MatchesAt(s[1..], pattern, i, ignoreCase);
        assert MatchesAt(s, pattern, i + 1, ignoreCase);
      }
      if i :| 0 <= i <= |s| - |pattern| && MatchesAt(s, pattern, i, ignoreCase) {
        if i > 0 {
          assert MatchesAt(s[1..], pattern, i - 1, ignoreCase);
        }
      }
    }
  }
}
