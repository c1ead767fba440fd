/** Decimal text of integers, with the 64-bit bounds of Go's strconv. */
module Numbers {
  import opened Text

  const MAX_INT64: int := 0x7FFF_FFFF_FFFF_FFFF
  const MIN_INT64: int := -0x8000_0000_0000_0000

  /** Two's-complement wrap-around of 64-bit addition. */
  function Wrap64(n: int): int
  {
    (n - MIN_INT64) % 0x1_0000_0000_0000_0000 + MIN_INT64
  }

  predicate IsDigit(c: char)
  {
    '0' <= c <= '9'
  }

  predicate AllDigits(s: string)
  {
    forall i :: 0 <= i < |s| ==> IsDigit(s[i])
  }

  function DigitOf(n: nat): (c: char)
    requires n < 10
    ensures IsDigit(c)
  {
    '0' + n as char
  }

  /** Decimal digits without leading zeros. */
  function Digits(n: nat): (s: string)
    ensures s != "" && IsDigit(s[0])
  {
    if n < 10 then [DigitOf(n)] else Digits(n / 10) + [DigitOf(n % 10)]
  }

  function DigitsValue(s: string): nat
    requires AllDigits(s)
  {
    if s == "" then 0 else 10 * DigitsValue(s[..|s| - 1]) + (s[|s| - 1] - '0') as nat
  }

  /** strconv.Itoa. */
  function Itoa(n: int): string
  {
    if n < 0 then "-" + Digits(-n) else Digits(n)
  }

  /** strconv.ParseInt(s, 10, 64): the value (clamped when out of range) and whether it is exact. */
  function ParseInt64(s: string): (int, bool)
  {
    var signed := s != "" && (s[0] == '-' || s[0] == '+');
    var digits := if signed then s[1..] else s;
    if digits == "" || !AllDigits(digits) then (0, false)
    else
      var n: int := DigitsValue(digits);
      var n := if s[0] == '-' then -n else n;
      if n > MAX_INT64 then (MAX_INT64, false)
      else if n < MIN_INT64 then (MIN_INT64, false)
      else (n, true)
  }

  lemma {:induction false} DigitsRoundTrip(n: nat)
    ensures AllDigits(Digits(n)) && DigitsValue(Digits(n)) == n
  {
    if n < 10 {
      assert Digits(n)[..0] == "";
    } else {
      DigitsRoundTrip(n / 10);
      assert Digits(n)[..|Digits(n)| - 1] == Digits(n / 10);
    }
  }

  lemma ParseUnsigned(digits: string)
    requires digits != "" && AllDigits(digits) && DigitsValue(digits) <= MAX_INT64
    ensures ParseInt64(digits) == (DigitsValue(digits), true)
  {
    assert IsDigit(digits[0]);
  }

  lemma ParseNegative(digits: string)
    requires digits != "" && AllDigits(digits) && 0 - DigitsValue(digits) >= MIN_INT64
    ensures ParseInt64("-" + digits) == (0 - DigitsValue(digits), true)
  {
    assert ("-" + digits)[1..] == digits;
  }

  /** Printing a 64-bit integer and parsing it back is exact. */
  lemma ItoaRoundTrip(n: int)
    requires MIN_INT64 <= n <= MAX_INT64
    ensures ParseInt64(Itoa(n)) == (n, true)
  {
    if n < 0 {
      DigitsRoundTrip(-n);
      ParseNegative(Digits(-n));
    } else {
      DigitsRoundTrip(n);
      ParseUnsigned(Digits(n));
    }
  }

  // ------------------------------------------------------------------ decimal values

  /** The value of decimal digits, the most significant first. */
  function Decimal(digits: string): nat
    requires AllDigits(digits)
  {
    if digits == "" then 0 else (digits[0] - '0') as nat * Power10(|digits| - 1) + Decimal(digits[1..])
  }

  function Power10(n: nat): nat
  {
    if n == 0 then 1 else 10 * Power10(n - 1)
  }

  lemma Shifted(digit: nat, power: nat)
    ensures digit * (10 * power) == 10 * (digit * power)
    ensures digit < 10 ==> digit * power <= 9 * power
  {
  }

  lemma {:induction false} DecimalSnoc(digits: string)
    requires digits != "" && AllDigits(digits)
    ensures Decimal(digits) == 10 * Decimal(digits[..|digits| - 1]) + (digits[|digits| - 1] - '0') as nat
    decreases |digits|
  {
    if |digits| > 1 {
      var front := digits[..|digits| - 1];
      DecimalSnoc(digits[1..]);
      assert digits[1..][..|digits| - 2] == front[1..];
      Shifted((digits[0] - '0') as nat, Power10(|digits| - 2));
      assert Decimal(front) == (digits[0] - '0') as nat * Power10(|digits| - 2) + Decimal(front[1..]);
    }
  }

  /** The reader's value of digits is their decimal value. */
  lemma {:induction false} DecimalValue(digits: string)
    requires AllDigits(digits)
    ensures DigitsValue(digits) == Decimal(digits)
  {
    if digits != "" {
      DecimalSnoc(digits);
      DecimalValue(digits[..|digits| - 1]);
    }
  }

  /** Printed numbers are decimal, the most significant digit first, without leading zeros, and with a sign if negative. */
  lemma ItoaDecimal(n: nat)
    ensures AllDigits(Itoa(n)) && Decimal(Itoa(n)) == n && (Itoa(n)[0] == '0' ==> n == 0)
    ensures n > 0 ==> Itoa(0 - n) == "-" + Itoa(n)
  {
    DigitsRoundTrip(n);
    DecimalValue(Digits(n));
    LeadingDigit(n);
  }

  lemma {:induction false} LeadingDigit(n: nat)
    ensures Digits(n)[0] == '0' <==> n == 0
  {
    if n >= 10 { LeadingDigit(n / 10); }
  }
}
