/** Decimal numerals: the text form of a number, as `format!("{}", n)` renders it,
    and the parse of a command-line value into a `usize`, as `str::parse::<usize>()`
    performs it on a 64-bit target. */
module Decimal {
  import opened Results

  /** The largest `usize` on a 64-bit target. */
  const USIZE_MAX: nat := 0xFFFF_FFFF_FFFF_FFFF

  predicate IsDigit(c: char) {
    '0' <= c <= '9'
  }

  predicate AllDigits(s: string) {
    forall i :: 0 <= i < |s| ==> IsDigit(s[i])
  }

  function DigitValue(c: char): (d: nat)
    requires IsDigit(c)
    ensures d < 10
  {
    c as int - '0' as int
  }

  function DigitChar(d: nat): (c: char)
    requires d < 10
    ensures IsDigit(c) && DigitValue(c) == d
  {
    ('0' as int + d) as char
  }

  /** The number a string of decimal digits denotes (most significant digit first). */
  function DigitsValue(s: string): nat
    requires AllDigits(s)
  {
    if s == [] then 0 else DigitsValue(s[..|s| - 1]) * 10 + DigitValue(s[|s| - 1])
  }

  /** The decimal rendering of `n`: no sign, no leading zeros. */
  function DecimalString(n: nat): (s: string)
    ensures |s| > 0 && AllDigits(s)
    ensures |s| > 1 ==> s[0] != '0'
  {
    if n < 10 then [DigitChar(n)] else DecimalString(n / 10) + [DigitChar(n % 10)]
  }

  /** `s.parse::<usize>()`: an optional leading `+`, then one or more ASCII digits,
      and a value that fits in a `usize`. A sign on its own, a `-`, any other
      character, the empty string and an overflow are all errors; which error it is
      does not matter to the callers, which replace it with their own message. */
  function ParseUsize(s: string): (r: Option<nat>)
    ensures r.Some? ==> r.value <= USIZE_MAX
    ensures r.Some? ==> |s| > 0 && (s[0] == '+' || IsDigit(s[0]))
  {
    if s == [] then None
    else if |s| == 1 && (s[0] == '+' || s[0] == '-') then None
    else
      var digits := if s[0] == '+' then s[1..] else s;
      if !AllDigits(digits) then None
      else if DigitsValue(digits) > USIZE_MAX then None
      else Some(DigitsValue(digits))
  }

  lemma {:induction false} DigitsValueAppend(s: string, c: char)
    requires AllDigits(s) && IsDigit(c)
    ensures AllDigits(s + [c]) && DigitsValue(s + [c]) == DigitsValue(s) * 10 + DigitValue(c)
  {
    assert (s + [c])[..|s + [c]| - 1] == s;
  }

  /** Reading back a rendered number gives the number. */
  lemma {:induction false} DigitsValueOfDecimal(n: nat)
    ensures DigitsValue(DecimalString(n)) == n
  {
    if n >= 10 {
      DigitsValueOfDecimal(n / 10);
      DigitsValueAppend(DecimalString(n / 10), DigitChar(n % 10));
    }
  }

  /** Leading zeros do not change the value of a digit string. */
  lemma {:induction false} DigitsValueLeadingZero(s: string)
    requires AllDigits(s)
    ensures AllDigits(['0'] + s) && DigitsValue(['0'] + s) == DigitsValue(s)
  {
    if s != [] {
      var init := s[..|s| - 1];
      DigitsValueLeadingZero(init);
      assert (['0'] + s)[..|['0'] + s| - 1] == ['0'] + init;
    }
  }

  /** Round trip: every `usize` parses back from its rendering, with or without a
      leading `+`; a number too large for a `usize` is rejected. */
  lemma ParseDecimalString(n: nat)
    ensures ParseUsize(DecimalString(n)) == if n <= USIZE_MAX then Some(n) else None
    ensures ParseUsize(['+'] + DecimalString(n)) == if n <= USIZE_MAX then Some(n) else None
  {
    var s := DecimalString(n);
    DigitsValueOfDecimal(n);
    assert (['+'] + s)[1..] == s;
  }

  /** A non-empty digit string parses to its value, with or without a leading `+`,
      exactly when that value fits in a `usize`. */
  lemma ParseDigits(s: string)
    requires |s| > 0 && AllDigits(s)
    ensures ParseUsize(s) == if DigitsValue(s) <= USIZE_MAX then Some(DigitsValue(s)) else None
    ensures ParseUsize(['+'] + s) == ParseUsize(s)
  {
  }

  /** Any character other than a digit rejects the string, except a `+` in front
      of something. */
  lemma ParseRejectsNonDigit(s: string, i: nat)
    requires i < |s| && !IsDigit(s[i]) && !(i == 0 && s[0] == '+' && |s| > 1)
    ensures ParseUsize(s) == None
  {
  }

  /** A leading zero is accepted and ignored, as long as digits follow. */
  lemma ParseLeadingZero(s: string)
    requires |s| > 0 && AllDigits(s)
    ensures ParseUsize(['0'] + s) == ParseUsize(s)
  {
    DigitsValueLeadingZero(s);
  }
}
