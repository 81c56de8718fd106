/** Go's `strconv.Atoi` as the error server uses it, on a 64-bit platform: an
    optional `+` or `-` followed by one or more ASCII decimal digits, whose
    value must lie in the int64 range; anything else is an error. `Itoa` is
    its inverse on that range. */
module Strconv {
  import opened Wrappers

  const MinInt64: int := -0x8000_0000_0000_0000
  const MaxInt64: int := 0x7fff_ffff_ffff_ffff

  predicate IsDigit(c: char) {
    '0' <= c <= '9'
  }

  predicate AllDigits(s: string) {
    forall i :: 0 <= i < |s| ==> IsDigit(s[i])
  }

  function DigitValue(c: char): nat
    requires IsDigit(c)
  {
    c as int - '0' as int
  }

  /** The value of a string of decimal digits, most significant first. */
  function DecimalValue(s: string): nat
    requires AllDigits(s)
  {
    if s == [] then 0 else DecimalValue(s[..|s| - 1]) * 10 + DigitValue(s[|s| - 1])
  }

  /** The digits after an optional leading sign. */
  function Unsigned(s: string): string {
    if |s| > 0 && (s[0] == '-' || s[0] == '+') then s[1..] else s
  }

  function Atoi(s: string): (r: Option<int>)
    ensures r.Some? ==> MinInt64 <= r.value <= MaxInt64
    ensures r.Some? ==> Unsigned(s) != [] && AllDigits(Unsigned(s))
    ensures r.Some? && s[0] == '-' ==> r.value == -(DecimalValue(Unsigned(s)) as int)
    ensures r.Some? && s[0] != '-' ==> r.value == DecimalValue(Unsigned(s))
  {
    var digits := Unsigned(s);
    if digits == [] || !AllDigits(digits) then None
    else
      var magnitude: int := DecimalValue(digits);
      var n := if s[0] == '-' then -magnitude else magnitude;
      if MinInt64 <= n <= MaxInt64 then Some(n) else None
  }

  function DigitChar(d: nat): (c: char)
    requires d < 10
    ensures IsDigit(c) && DigitValue(c) == d
  {
    ('0' as int + d) as char
  }

  /** The decimal digits of a natural number, without leading zeros. */
  function Digits(n: nat): (s: string)
    ensures |s| > 0
    ensures |s| == 1 || s[0] != '0'
  {
    if n < 10 then [DigitChar(n)] else Digits(n / 10) + [DigitChar(n % 10)]
  }

  /** `strconv.Itoa`: the decimal form, with `-` before a negative number. */
  function Itoa(n: int): string {
    if n < 0 then "-" + Digits(-n) else Digits(n)
  }

  /** The digits of `n` read back as `n`. */
  lemma {:induction false} DecimalValueDigits(n: nat)
    ensures AllDigits(Digits(n)) && DecimalValue(Digits(n)) == n
  {
    if n >= 10 {
      DecimalValueDigits(n / 10);
      var s := Digits(n);
      assert s[..|s| - 1] == Digits(n / 10);
    }
  }

  /** Round trip: `Atoi(Itoa(n)) == n` for every int64 `n`. */
  lemma AtoiItoa(n: int)
    requires MinInt64 <= n <= MaxInt64
    ensures Atoi(Itoa(n)) == Some(n)
  {
    if n < 0 {
      DecimalValueDigits(-n);
      assert Unsigned(Itoa(n)) == Digits(-n);
    } else {
      DecimalValueDigits(n);
      assert Digits(n)[0] != '-' && Digits(n)[0] != '+';
    }
  }

  /** Syntax errors: the empty string and a lone sign are rejected. */
  lemma AtoiRejectsNoDigits(s: string)
    requires Unsigned(s) == []
    ensures Atoi(s) == None
  {
  }

  /** Syntax errors: any character after the optional sign that is not a
      digit is rejected. */
  lemma AtoiRejectsSyntax(s: string, i: int)
    requires 0 <= i < |s| && !IsDigit(s[i])
    requires i > 0 || (s[0] != '-' && s[0] != '+')
    ensures Atoi(s) == None
  {
  }

  /** Every well-formed header is accepted with its signed value when that
      lies in int64, and rejected otherwise: a `+` sign, leading zeros and
      `-0` are all read as Go reads them. */
  lemma AtoiAccepts(s: string)
    requires Unsigned(s) != [] && AllDigits(Unsigned(s))
    ensures var v := if s[0] == '-' then -(DecimalValue(Unsigned(s)) as int) else DecimalValue(Unsigned(s));
            (MinInt64 <= v <= MaxInt64 ==> Atoi(s) == Some(v)) &&
            (v < MinInt64 || MaxInt64 < v ==> Atoi(s) == None)
  {
  }

  /** Range errors: a number beyond int64 is rejected. */
  lemma AtoiRejectsOverflow(n: int)
    requires n < MinInt64 || MaxInt64 < n
    ensures Atoi(Itoa(n)) == None
  {
    if n < 0 {
      DecimalValueDigits(-n);
      assert Unsigned(Itoa(n)) == Digits(-n);
    } else {
      DecimalValueDigits(n);
      assert Digits(n)[0] != '-' && Digits(n)[0] != '+';
    }
  }
}
