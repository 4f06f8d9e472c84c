/**
 * The few pieces of java.lang the interceptor relies on: 64-bit `long` values,
 * `Long.parseLong`, decimal rendering of numbers (string concatenation and SLF4J's
 * `{}` placeholders both use `Long.toString`) and `String.equalsIgnoreCase`.
 */
module JavaLang {
  import opened Wrappers

  const MIN_LONG: int := -0x8000_0000_0000_0000
  const MAX_LONG: int := 0x7FFF_FFFF_FFFF_FFFF

  /** The values of Java's 64-bit signed `long`. */
  predicate IsLong(n: int) {
    MIN_LONG <= n <= MAX_LONG
  }

  // ---------------------------------------------------------------------------
  // Case-insensitive comparison

  /** ASCII-only case folding (Java folds every Unicode letter). */
  function ToLowerAscii(c: char): char {
    if 'A' <= c <= 'Z' then (c as int + 32) as char else c
  }

  /** `a.equalsIgnoreCase(b)` for two non-null strings, with ASCII folding. */
  predicate EqualsIgnoreCase(a: string, b: string) {
    |a| == |b| && forall i :: 0 <= i < |a| ==> ToLowerAscii(a[i]) == ToLowerAscii(b[i])
  }

  // ---------------------------------------------------------------------------
  // Decimal digits

  predicate IsDigit(c: char) {
    '0' <= c <= '9'
  }

  predicate AllDigits(s: string) {
    forall i :: 0 <= i < |s| ==> IsDigit(s[i])
  }

  function DigitValue(c: char): nat
    requires IsDigit(c)
  {
    c as int - '0' as int
  }

  /** The number a string of decimal digits denotes (most significant digit first). */
  function DigitsValue(s: string): nat
    requires AllDigits(s)
  {
    if s == [] then 0 else DigitsValue(s[..|s| - 1]) * 10 + DigitValue(s[|s| - 1])
  }

  /** `Long.parseLong(s)`: an optional sign, then at least one decimal digit, and a value that fits a `long`. */
  function ParseLong(s: string): (r: Option<int>)
    ensures r.Some? ==> IsLong(r.value)
  {
    var signed := |s| > 0 && (s[0] == '-' || s[0] == '+');
    var digits := if signed then s[1..] else s;
    if digits == [] || !AllDigits(digits) then None
    else
      var magnitude: int := DigitsValue(digits);
      var value := if s[0] == '-' then -magnitude else magnitude;
      if IsLong(value) then Some(value) else None
  }

  /** The shortest decimal digit string of `n`. */
  function NatToString(n: nat): (s: string)
    ensures |s| > 0 && AllDigits(s)
  {
    var last := ('0' as int + n % 10) as char;
    if n < 10 then [last] else NatToString(n / 10) + [last]
  }

  /** `Long.toString(n)`: a '-' for negative values, then the digits of the magnitude. */
  function LongToString(n: int): (s: string)
    ensures |s| > 0
  {
    if n < 0 then "-" + NatToString(-n) else NatToString(n)
  }

  lemma {:induction false} NatToStringValue(n: nat)
    ensures DigitsValue(NatToString(n)) == n
  {
    var s := NatToString(n);
    if n >= 10 {
      NatToStringValue(n / 10);
      assert s[..|s| - 1] == NatToString(n / 10);
    }
  }

  /** Every `long` survives rendering and parsing back: the two are inverse. */
  lemma ParseLongOfLongToString(n: int)
    requires IsLong(n)
    ensures ParseLong(LongToString(n)) == Some(n)
  {
    var s := LongToString(n);
    if n < 0 {
      NatToStringValue(-n);
      assert s[1..] == NatToString(-n);
    } else {
      NatToStringValue(n);
      assert IsDigit(s[0]);
    }
  }

  /** A value outside the `long` range is refused rather than wrapped around. */
  lemma ParseLongRejectsOverflow(n: int)
    requires !IsLong(n)
    ensures ParseLong(LongToString(n)) == None
  {
    var s := LongToString(n);
    if n < 0 {
      NatToStringValue(-n);
      assert s[1..] == NatToString(-n);
    } else {
      NatToStringValue(n);
      assert IsDigit(s[0]);
    }
  }

  /** What `Long.parseLong` accepts and refuses, on typical header values. */
  lemma ParseLongExamples()
    ensures ParseLong("42") == Some(42)
    ensures ParseLong("+7") == Some(7)
    ensures ParseLong("-1") == Some(-1)
    ensures ParseLong("abc") == None
    ensures ParseLong("") == None
    ensures ParseLong("-") == None
    ensures ParseLong("4 2") == None
  {
    assert "42"[..1] == "4";
    assert DigitsValue("4") == 4;
    assert "+7"[1..] == "7";
    assert "-1"[1..] == "1";
    assert !IsDigit("abc"[0]);
    assert !IsDigit("4 2"[1]);
  }
}
