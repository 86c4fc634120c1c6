/** The `%d` conversion of sprintf(3), used to build a namespace path, and its inverse. */
module Decimal {

  function DigitChar(d: nat): (c: char)
    requires d < 10
    ensures '0' <= c <= '9' && (c as int) - ('0' as int) == d
  {
    "0123456789"[d]
  }

  predicate IsDigit(c: char) {
    '0' <= c <= '9'
  }

  function DigitValue(c: char): (d: nat) {
    if IsDigit(c) then (c as int) - ('0' as int) else 0
  }

  /** The decimal digits of `n`, most significant first, with no leading zero. */
  function Digits(n: nat): (s: string)
    decreases n
  {
    if n < 10 then [DigitChar(n)] else Digits(n / 10) + [DigitChar(n % 10)]
  }

  /** `sprintf("%d", n)`: an optional minus sign followed by the digits of |n|. */
  function Format(n: int): (s: string)
    ensures |s| > (if n < 0 then 1 else 0) && (s[0] == '-' <==> n < 0)
    ensures forall i :: (if n < 0 then 1 else 0) <= i < |s| ==> IsDigit(s[i])
    ensures s[if n < 0 then 1 else 0] == '0' ==> n == 0
  {
    DigitsAreDigits(if n < 0 then -n else n);
    DigitsLead(if n < 0 then -n else n);
    if n < 0 then "-" + Digits(-n) else Digits(n)
  }

  /** Reads a string of decimal digits back to the number it denotes. */
  function ParseDigits(s: string): (n: nat) {
    if s == [] then 0 else ParseDigits(s[..|s| - 1]) * 10 + DigitValue(s[|s| - 1])
  }

  /** Reads back what `Format` writes. */
  function Parse(s: string): (n: int) {
    if |s| > 0 && s[0] == '-' then 0 - (ParseDigits(s[1..]) as int) else ParseDigits(s)
  }

  function Pow10(k: nat): (p: nat)
    ensures p >= 1
  {
    if k == 0 then 1 else 10 * Pow10(k - 1)
  }

  /** Every character `Digits` writes is a digit, and there is at least one. */
  lemma {:induction false} DigitsAreDigits(n: nat)
    ensures |Digits(n)| >= 1
    ensures forall i :: 0 <= i < |Digits(n)| ==> IsDigit(Digits(n)[i])
    decreases n
  {
    if n >= 10 {
      DigitsAreDigits(n / 10);
    }
  }

  /** Only zero is written with a leading `0`. */
  lemma {:induction false} DigitsLead(n: nat)
    ensures Digits(n)[0] == '0' ==> n == 0
    decreases n
  {
    if n >= 10 {
      DigitsAreDigits(n / 10);
      DigitsLead(n / 10);
    }
  }

  /** Parsing the digits of `n` gives back `n`. */
  lemma {:induction false} DigitsRoundTrip(n: nat)
    ensures ParseDigits(Digits(n)) == n
    decreases n
  {
    var s := Digits(n);
    if n < 10 {
      assert s[..|s| - 1] == [];
    } else {
      assert s[..|s| - 1] == Digits(n / 10);
      DigitsRoundTrip(n / 10);
    }
  }

  /** A number below 10^k (k >= 1) has at most k digits. */
  lemma {:induction false} DigitsLength(n: nat, k: nat)
    requires 1 <= k && n < Pow10(k)
    ensures |Digits(n)| <= k
    decreases n
  {
    if n >= 10 {
      assert k >= 2;
      DigitsLength(n / 10, k - 1);
    }
  }

  /** `%d` loses no information: `Parse` inverts `Format` on every integer. */
  lemma FormatRoundTrip(n: int)
    ensures Parse(Format(n)) == n
  {
    var m := if n < 0 then -n else n;
    DigitsAreDigits(m);
    DigitsRoundTrip(m);
    if n < 0 {
      assert Format(n)[1..] == Digits(m);
    } else {
      assert IsDigit(Format(n)[0]);
    }
  }

  /** `%d` of an integer that fits in 32 bits takes at most 11 characters. */
  lemma FormatLength32(n: int)
    requires -0x8000_0000 <= n < 0x8000_0000
    ensures 1 <= |Format(n)| <= 11
  {
    var m := if n < 0 then -n else n;
    assert Pow10(10) == 10_000_000_000;
    DigitsLength(m, 10);
    DigitsAreDigits(m);
  }
}
