/** `APIError`: an error carrying an HTTP status code, whose `status` is
    `"fail"` when the code's decimal rendering begins with `4` (a client
    error) and `"error"` otherwise. */
module Errors {

  /** The character of a decimal digit. */
  function DigitChar(d: nat): char
    requires d < 10
  {
    ('0' as int + d) as char
  }

  /** The decimal digits of `n`, most significant first, without leading
      zeros. */
  function Digits(n: nat): (s: string)
    ensures |s| >= 1
    ensures forall i :: 0 <= i < |s| ==> '0' <= s[i] <= '9'
    ensures s[0] == '0' ==> n == 0
  {
    if n < 10 then [DigitChar(n)] else Digits(n / 10) + [DigitChar(n % 10)]
  }

  /** The template literal `${statusCode}` for an integral code: a minus sign
      exactly for negative codes, then the digits of the magnitude, which read
      back as that magnitude. */
  function DecimalString(n: int): (s: string)
    ensures |s| >= 1
    ensures s[0] == '-' <==> n < 0
    ensures n >= 0 ==> (StartsWithFour(s) <==> Digits(n)[0] == '4')
    ensures var magnitude := if n < 0 then s[1..] else s;
      (forall i :: 0 <= i < |magnitude| ==> '0' <= magnitude[i] <= '9') &&
      ParseDigits(magnitude) == if n < 0 then -n else n
  {
    DigitsRoundTrip(if n < 0 then -n else n);
    assert n < 0 ==> ("-" + Digits(-n))[1..] == Digits(-n);
    if n < 0 then "-" + Digits(-n) else Digits(n)
  }

  /** The value of a string of decimal digits. */
  function ParseDigits(s: string): nat
    requires forall i :: 0 <= i < |s| ==> '0' <= s[i] <= '9'
  {
    if |s| == 0 then 0
    else ParseDigits(s[..|s| - 1]) * 10 + (s[|s| - 1] as int - '0' as int)
  }

  /** Reading the digits back gives the number: the rendering loses nothing. */
  lemma {:induction false} DigitsRoundTrip(n: nat)
    ensures ParseDigits(Digits(n)) == n
  {
    if n >= 10 {
      DigitsRoundTrip(n / 10);
      var s := Digits(n);
      assert s[..|s| - 1] == Digits(n / 10);
    }
  }

  /** The most significant decimal digit of `n`. */
  function LeadingDigit(n: nat): (d: nat)
    ensures d < 10
    ensures d == 0 ==> n == 0
  {
    if n < 10 then n else LeadingDigit(n / 10)
  }

  /** The rendering begins with the most significant digit. */
  lemma {:induction false} DigitsStartWithLeadingDigit(n: nat)
    ensures Digits(n)[0] == DigitChar(LeadingDigit(n))
  {
    if n >= 10 {
      DigitsStartWithLeadingDigit(n / 10);
    }
  }

  /** `s.startsWith('4')`. */
  predicate StartsWithFour(s: string)
  {
    |s| > 0 && s[0] == '4'
  }

  /** The `status` the constructor derives from a status code: one of the
      two values, and never `"fail"` for a negative code. */
  function Status(statusCode: int): (r: string)
    ensures r == "fail" || r == "error"
    ensures statusCode < 0 ==> r == "error"
  {
    if StartsWithFour(DecimalString(statusCode)) then "fail" else "error"
  }

  /** A code is a `"fail"` exactly when it is non-negative and its most
      significant digit is 4; every other code is an `"error"`. */
  lemma StatusFailIff(statusCode: int)
    ensures Status(statusCode) == "fail" <==> statusCode >= 0 && LeadingDigit(statusCode) == 4
    ensures Status(statusCode) == "error" <==> !(statusCode >= 0 && LeadingDigit(statusCode) == 4)
  {
    if statusCode >= 0 {
      DigitsStartWithLeadingDigit(statusCode);
    }
  }

  /** Among three-digit HTTP status codes, the client errors 400..499 are
      `"fail"` and every other code (500 included) is `"error"`. */
  lemma HttpStatusClass(statusCode: int)
    requires 100 <= statusCode <= 999
    ensures Status(statusCode) == "fail" <==> 400 <= statusCode <= 499
    ensures Status(statusCode) == "error" <==> !(400 <= statusCode <= 499)
  {
    StatusFailIff(statusCode);
    var tens := statusCode / 10;
    assert 10 <= tens < 100 && tens / 10 == statusCode / 100;
    assert LeadingDigit(statusCode) == LeadingDigit(tens) == LeadingDigit(tens / 10);
    assert 400 <= statusCode <= 499 <==> statusCode / 100 == 4;
  }

  /** An API error: its message, the status code it was built with, the
      status derived from that code, and the operational flag. */
  class APIError {
    var message: string
    var statusCode: int
    var status: string
    var isOperational: bool

    constructor (message: string, statusCode: int)
      ensures this.message == message
      ensures this.statusCode == statusCode
      ensures status == "fail" <==> StartsWithFour(DecimalString(statusCode))
      ensures status == "error" <==> !StartsWithFour(DecimalString(statusCode))
      ensures isOperational
    {
      this.message := message;
      this.statusCode := statusCode;
      this.status := Status(statusCode);
      this.isOperational := true;
    }
  }
}
