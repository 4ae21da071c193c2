/**
 * Decimal text for timestamps. The request stores the integer clock value, which
 * PHP renders in decimal when it is concatenated into the signed string; the
 * response carries the timestamp back as text, compared with the clock as a number.
 */
module Decimal {
  import opened Optional

  predicate IsDigit(c: char)
  {
    '0' <= c <= '9'
  }

  predicate AllDigits(s: string)
  {
    forall i :: 0 <= i < |s| ==> IsDigit(s[i])
  }

  function DigitChar(d: nat): (c: char)
    requires d < 10
    ensures IsDigit(c) && c as int - '0' as int == d
  {
    ('0' as int + d) as char
  }

  /** PHP's rendering of a non-negative integer: decimal, no sign, no leading zeros. */
  function Render(n: nat): (s: string)
    ensures |s| > 0 && AllDigits(s)
    ensures n > 0 ==> s[0] != '0'
    decreases n
  {
    if n < 10 then [DigitChar(n)] else Render(n / 10) + [DigitChar(n % 10)]
  }

  /** The number a string of digits denotes. */
  function Value(s: string): nat
    requires AllDigits(s)
  {
    if |s| == 0 then 0 else 10 * Value(s[..|s| - 1]) + (s[|s| - 1] as int - '0' as int)
  }

  /** A non-empty string of decimal digits, read as a number; anything else is not a timestamp. */
  function Parse(s: string): (r: Option<nat>)
    ensures r.Some? <==> |s| > 0 && AllDigits(s)
  {
    if |s| > 0 && AllDigits(s) then Some(Value(s)) else None
  }

  /** Reading back a rendered clock value gives the same value. */
  lemma {:induction false} ParseRender(n: nat)
    ensures Parse(Render(n)) == Some(n)
    decreases n
  {
    var s := Render(n);
    if n < 10 {
      assert s[..0] == [];
    } else {
      ParseRender(n / 10);
      assert s[..|s| - 1] == Render(n / 10);
      assert s[|s| - 1] == DigitChar(n % 10);
      assert Value(s) == 10 * (n / 10) + n % 10;
    }
  }

  /** Distinct clock values are rendered differently. */
  lemma RenderInjective(m: nat, n: nat)
    requires Render(m) == Render(n)
    ensures m == n
  {
    ParseRender(m);
    ParseRender(n);
  }
}
