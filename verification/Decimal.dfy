/** Decimal text of integers, as the language library writes and reads it. */
module Decimal {
  import opened Wrappers

  const MIN_I64: int := -0x8000_0000_0000_0000

  const MAX_I64: int := 0x7FFF_FFFF_FFFF_FFFF

  predicate IsI64(n: int) {
    MIN_I64 <= n <= MAX_I64
  }

  function DigitChar(d: nat): char
    requires d < 10
  {
    ('0' as int + d) as char
  }

  predicate IsDigit(c: char) {
    '0' <= c <= '9'
  }

  function Digits(n: nat): (s: string)
    ensures s != "" && forall i :: 0 <= i < |s| ==> IsDigit(s[i])
  {
    if n < 10 then [DigitChar(n)] else Digits(n / 10) + [DigitChar(n % 10)]
  }

  function ToString(n: int): (s: string)
    ensures s != "" && forall i :: 0 <= i < |s| ==> IsDigit(s[i]) || (i == 0 && s[i] == '-')
  {
    if n < 0 then "-" + Digits(-n) else Digits(n)
  }

  /** The value of a non-empty run of digits. */
  function ParseDigits(s: string): Option<nat> {
    if s == "" || !IsDigit(s[|s| - 1]) then None
    else
      var d := s[|s| - 1] as int - '0' as int;
      if |s| == 1 then Some(d)
      else
        match ParseDigits(s[..|s| - 1])
        case None => None
        case Some(n) => Some(10 * n + d)
  }

  /** An optional sign, then digits, with a value in range. */
  function ParseI64(s: string): Option<int> {
    var negative := s != "" && s[0] == '-';
    var body := if s != "" && (s[0] == '-' || s[0] == '+') then s[1..] else s;
    match ParseDigits(body)
    case None => None
    case Some(n) =>
      var magnitude: int := n;
      var value := if negative then -magnitude else magnitude;
      if IsI64(value) then Some(value) else None
  }

  lemma {:induction false} ParseDigitsOfDigits(n: nat)
    ensures ParseDigits(Digits(n)) == Some(n)
  {
    if n >= 10 {
      ParseDigitsOfDigits(n / 10);
      var s := Digits(n);
      assert s[..|s| - 1] == Digits(n / 10);
    }
  }

  lemma {:induction false} ParsesDigitsOnly(s: string)
    ensures ParseDigits(s).Some? <==> s != "" && forall i :: 0 <= i < |s| ==> IsDigit(s[i])
  {
    if s == "" {
    } else {
      ParsesDigitsOnly(s[..|s| - 1]);
      assert forall i :: 0 <= i < |s| - 1 ==> s[i] == s[..|s| - 1][i];
    }
  }

  /** Anything but an optional sign and digits is refused, and so is what does not fit. */
  lemma ParsesNumbersOnly(s: string)
    ensures ParseI64(s).Some? ==>
              var body := if s != "" && (s[0] == '-' || s[0] == '+') then s[1..] else s;
              body != "" && (forall i :: 0 <= i < |body| ==> IsDigit(body[i])) && IsI64(ParseI64(s).value)
  {
    var body := if s != "" && (s[0] == '-' || s[0] == '+') then s[1..] else s;
    ParsesDigitsOnly(body);
  }

  /** Every 64-bit integer is read back from its own text. */
  lemma ParseOfToString(n: int)
    requires IsI64(n)
    ensures ParseI64(ToString(n)) == Some(n)
  {
    if n < 0 {
      ParseDigitsOfDigits(-n);
      assert ToString(n)[1..] == Digits(-n);
    } else {
      ParseDigitsOfDigits(n);
    }
  }
}
