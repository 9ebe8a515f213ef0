/**
  Numerals as Ruby writes and reads them: `"%o" % n`, `Integer#to_s`, and
  `Kernel#Integer` applied to a string of decimal digits, which reads a
  leading `0` as the octal prefix.
 */
module Numerals {
  import opened Wrappers
  import opened Text

  predicate IsDigit(c: char) { '0' <= c <= '9' }

  predicate IsOctalDigit(c: char) { '0' <= c <= '7' }

  /** What `/^\d+$/` accepts on a single-line string. */
  predicate AllDigits(s: string) {
    |s| > 0 && forall i :: 0 <= i < |s| ==> IsDigit(s[i])
  }

  predicate AllOctalDigits(s: string) {
    forall i :: 0 <= i < |s| ==> IsOctalDigit(s[i])
  }

  /** No superfluous leading zero: the way "%o" and `to_s` print. */
  predicate Canonical(s: string) {
    |s| > 0 && (|s| > 1 ==> s[0] != '0')
  }

  function DigitValue(c: char): nat
    requires IsDigit(c)
  {
    c as int - '0' as int
  }

  function DigitChar(d: nat): (c: char)
    requires d < 10
    ensures IsDigit(c) && DigitValue(c) == d
  {
    ('0' as int + d) as char
  }

  /** The number an octal digit string denotes, most significant digit first. */
  function OctalValue(s: string): nat
    requires AllOctalDigits(s)
  {
    if |s| == 0 then 0 else 8 * OctalValue(s[..|s| - 1]) + DigitValue(s[|s| - 1])
  }

  /** The number a decimal digit string denotes. */
  function DecimalValue(s: string): nat
    requires forall i :: 0 <= i < |s| ==> IsDigit(s[i])
  {
    if |s| == 0 then 0 else 10 * DecimalValue(s[..|s| - 1]) + DigitValue(s[|s| - 1])
  }

  /** `"%o" % n` for a non-negative n. */
  function OctalText(n: nat): (s: string)
    ensures AllDigits(s) && AllOctalDigits(s) && Canonical(s)
  {
    if n < 8 then [DigitChar(n)]
    else
      var s := OctalText(n / 8) + [DigitChar(n % 8)];
      assert s[0] == OctalText(n / 8)[0];
      s
  }

  /** `n.to_s` for a non-negative n. */
  function DecimalText(n: nat): (s: string)
    ensures AllDigits(s) && Canonical(s)
  {
    if n < 10 then [DigitChar(n)]
    else
      var s := DecimalText(n / 10) + [DigitChar(n % 10)];
      assert s[0] == DecimalText(n / 10)[0];
      s
  }

  /** `Integer#to_s` for any integer. */
  function IntText(i: int): string
  {
    if i < 0 then "-" + DecimalText(-i) else DecimalText(i)
  }

  /** `Kernel#Integer` on a string of decimal digits: a leading `0` followed by
      more digits selects octal, in which `8` and `9` are invalid. */
  function IntegerOfDigits(s: string): (r: Result<nat>)
    requires AllDigits(s)
    ensures r.Err? ==> r.error.kind == ArgumentError
    ensures r.Err? <==> |s| > 1 && s[0] == '0' && !AllOctalDigits(s)
    ensures r.Ok? ==> r.value == (if |s| > 1 && s[0] == '0' then OctalValue(s) else DecimalValue(s))
  {
    if |s| > 1 && s[0] == '0' then
      if AllOctalDigits(s) then Ok(OctalValue(s))
      else Err(Error(ArgumentError, "invalid value for Integer: " + s))
    else Ok(DecimalValue(s))
  }

  lemma {:induction false} OctalTextValue(n: nat)
    ensures OctalValue(OctalText(n)) == n
    decreases n
  {
    if n >= 8 {
      OctalTextValue(n / 8);
      var s := OctalText(n);
      assert s[..|s| - 1] == OctalText(n / 8);
    }
  }

  lemma {:induction false} DecimalTextValue(n: nat)
    ensures DecimalValue(DecimalText(n)) == n
    decreases n
  {
    if n >= 10 {
      DecimalTextValue(n / 10);
      var s := DecimalText(n);
      assert s[..|s| - 1] == DecimalText(n / 10);
    }
  }

  lemma {:induction false} OctalValuePositive(s: string)
    requires AllOctalDigits(s) && |s| > 0 && s[0] != '0'
    ensures OctalValue(s) > 0
    decreases |s|
  {
    if |s| > 1 {
      OctalValuePositive(s[..|s| - 1]);
    }
  }

  /** Reading and printing are inverse on canonical octal text. */
  lemma {:induction false} OctalValueText(s: string)
    requires AllOctalDigits(s) && Canonical(s)
    ensures OctalText(OctalValue(s)) == s
    decreases |s|
  {
    if |s| > 1 {
      var front := s[..|s| - 1];
      OctalValuePositive(front);
      OctalValueText(front);
      assert s == front + [s[|s| - 1]];
    }
  }

  /** Leading zeros do not change an octal value. */
  lemma {:induction false} OctalLeadingZero(s: string)
    requires AllOctalDigits(s)
    ensures AllOctalDigits("0" + s) && OctalValue("0" + s) == OctalValue(s)
    decreases |s|
  {
    if |s| > 0 {
      var z := "0" + s;
      assert z[..|z| - 1] == "0" + s[..|s| - 1];
      OctalLeadingZero(s[..|s| - 1]);
    }
  }

  /** `Integer()` reads back what "%o" printed once a leading `0` marks it as
      octal, and what `to_s` printed as it stands. */
  lemma IntegerOfPrintedNumbers(n: nat)
    ensures IntegerOfDigits("0" + OctalText(n)) == Ok(n)
    ensures IntegerOfDigits(DecimalText(n)) == Ok(n)
  {
    OctalLeadingZero(OctalText(n));
    OctalTextValue(n);
    DecimalTextValue(n);
  }
}
