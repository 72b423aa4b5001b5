/** Which numerals `str::parse` takes for which numbers, and the fixed challenge values
    that rest on it. */
module Numerals {
  import opened Prelude
  import opened Text
  import opened Ledger
  import opened Scoreboard

  function Digit(n: nat): char
    requires n < 10
  {
    '0' + (n as char)
  }

  /** The decimal numeral, without leading zeros. */
  function Decimal(n: nat): string {
    if n < 10 then [Digit(n)] else Decimal(n / 10) + [Digit(n % 10)]
  }

  predicate AllDigits(s: string) {
    forall i :: 0 <= i < |s| ==> IsDigit(s[i])
  }

  lemma {:induction false} DigitsExactly(s: string)
    ensures DigitsValue(s).Some? <==> AllDigits(s)
  {
    if s == "" {
    } else {
      var n := |s| - 1;
      DigitsExactly(s[..n]);
      assert s == s[..n] + [s[n]];
    }
  }

  lemma {:induction false} DecimalValue(n: nat)
    ensures DigitsValue(Decimal(n)) == Some(n) && AllDigits(Decimal(n)) && Decimal(n) != ""
  {
    if n < 10 {
      assert [Digit(n)][..0] == "";
      assert DigitsValue("") == Some(0);
    } else {
      DecimalValue(n / 10);
      var front := Decimal(n / 10);
      assert (front + [Digit(n % 10)])[..|front|] == front;
    }
  }

  /** Leading zeros do not count. */
  lemma {:induction false} ZerosValue(zeros: string, s: string)
    requires forall i :: 0 <= i < |zeros| ==> zeros[i] == '0'
    ensures DigitsValue(zeros + s) == DigitsValue(s)
  {
    if s == "" {
      assert zeros + s == zeros;
      if zeros == "" {
      } else {
        ZerosValue(zeros[..|zeros| - 1], "");
        assert zeros[..|zeros| - 1] + "" == zeros[..|zeros| - 1];
      }
    } else {
      var n := |s| - 1;
      ZerosValue(zeros, s[..n]);
      assert (zeros + s)[..|zeros| + n] == zeros + s[..n];
    }
  }

  /** A numeral, perhaps with a plus sign and leading zeros, is read as its number, up
      to the largest one. */
  lemma NumeralsParse(zeros: string, n: nat, max: nat)
    requires forall i :: 0 <= i < |zeros| ==> zeros[i] == '0'
    ensures ParseUnsigned(zeros + Decimal(n), max) == if n <= max then Some(n) else None
    ensures ParseUnsigned("+" + (zeros + Decimal(n)), max) == if n <= max then Some(n) else None
  {
    DecimalValue(n);
    ZerosValue(zeros, Decimal(n));
    var digits := zeros + Decimal(n);
    assert digits[0] != '+' by {
      assert digits[0] == if zeros == "" then Decimal(n)[0] else zeros[0];
    }
    assert ("+" + digits)[1..] == digits;
  }

  /** Nothing but digits after at most one plus sign is read at all. */
  lemma OnlyDigitsParse(s: string, max: nat)
    ensures ParseUnsigned(s, max).Some? ==>
      var digits := if s != "" && s[0] == '+' then s[1..] else s; digits != "" && AllDigits(digits)
  {
    DigitsExactly(if s != "" && s[0] == '+' then s[1..] else s);
  }

  /** A challenge of fixed value is worth the number its equation is, and 100 points
      where that is no number of 32 bits. */
  lemma FixedValueExactly(c: Challenge, solveCount: nat, n: nat)
    requires c.mode == PointValue || c.mode == PointAttribution
    ensures c.equation == Decimal(n) && n <= U32_MAX ==> BasePoints(c, solveCount) == n
    ensures c.equation == Decimal(n) && n > U32_MAX ==> BasePoints(c, solveCount) == 100
    ensures var digits := if c.equation != "" && c.equation[0] == '+' then c.equation[1..] else c.equation;
      digits == "" || !AllDigits(digits) ==> BasePoints(c, solveCount) == 100
  {
    assert "" + Decimal(n) == Decimal(n);
    NumeralsParse("", n, U32_MAX);
    OnlyDigitsParse(c.equation, U32_MAX);
  }
}
