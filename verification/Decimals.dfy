/** Decimal numerals. */
module Decimals {

  function DigitChar(d: nat): char
    requires d < 10
  {
    '0' + d as char
  }

  function Decimal(n: nat): (text: string)
    ensures text != []
  {
    if n < 10 then [DigitChar(n)] else Decimal(n / 10) + [DigitChar(n % 10)]
  }

  lemma {:induction false} DecimalIsInjective(a: nat, b: nat)
    requires Decimal(a) == Decimal(b)
    ensures a == b
  {
    var s, t := Decimal(a), Decimal(b);
    assert s[|s| - 1] == DigitChar(a % 10) && t[|t| - 1] == DigitChar(b % 10);
    if a >= 10 && b >= 10 {
      assert s[..|s| - 1] == Decimal(a / 10) && t[..|t| - 1] == Decimal(b / 10);
      DecimalIsInjective(a / 10, b / 10);
    }
  }

  lemma {:induction false} DecimalHasDigits(n: nat)
    ensures forall i :: 0 <= i < |Decimal(n)| ==> '0' <= Decimal(n)[i] <= '9'
  {
    if n >= 10 {
      DecimalHasDigits(n / 10);
    }
  }

  function SignedDecimal(n: int): string {
    if n < 0 then "-" + Decimal(-n) else Decimal(n)
  }

  lemma SignedDecimalIsInjective(a: int, b: int)
    requires SignedDecimal(a) == SignedDecimal(b)
    ensures a == b
  {
    var m, n := if a < 0 then -a else a, if b < 0 then -b else b;
    DecimalHasDigits(m);
    DecimalHasDigits(n);
    assert SignedDecimal(a)[0] == '-' <==> a < 0;
    assert SignedDecimal(b)[0] == '-' <==> b < 0;
    if a < 0 {
      assert SignedDecimal(a)[1..] == Decimal(m) && SignedDecimal(b)[1..] == Decimal(n);
    }
    DecimalIsInjective(m, n);
  }

  /** The number behind the last dash of a text can be told from what stands before it. */
  lemma LastNumberIsTold(p: string, q: string, m: nat, n: nat)
    requires p + "-" + Decimal(m) == q + "-" + Decimal(n)
    ensures p == q && m == n
  {
    var s, t := p + "-" + Decimal(m), q + "-" + Decimal(n);
    DecimalHasDigits(m);
    DecimalHasDigits(n);
    assert s[|p|] == '-' && t[|q|] == '-';
    assert s[..|p|] == p && t[..|q|] == q && s[|p| + 1..] == Decimal(m) && t[|q| + 1..] == Decimal(n);
    DecimalIsInjective(m, n);
  }
}
