/** Decimal rendering of integers, as printf's `%d` conversion produces it:
    an optional '-' followed by the digits of the magnitude, with no leading
    zeros (zero itself is "0"). A parser is given as its partner. */
module Decimal {
  import opened Wrappers

  predicate IsDigit(c: char) {
    '0' <= c <= '9'
  }

  function DigitChar(d: nat): (c: char)
    requires d < 10
    ensures IsDigit(c)
  {
    "0123456789"[d]
  }

  function DigitValue(c: char): (d: nat)
    requires IsDigit(c)
    ensures d < 10
  {
    (c as int - '0' as int) as nat
  }

  /** The digits of a natural number, most significant first. */
  function NatDigits(n: nat): (s: string)
    ensures |s| >= 1
    ensures forall i :: 0 <= i < |s| ==> IsDigit(s[i])
    decreases n
  {
    if n < 10 then [DigitChar(n)] else NatDigits(n / 10) + [DigitChar(n % 10)]
  }

  /** The value of a string of digits; the empty string is 0. */
  function ParseNat(s: string): (n: nat)
    requires forall i :: 0 <= i < |s| ==> IsDigit(s[i])
    decreases |s|
  {
    if s == [] then 0 else 10 * ParseNat(s[..|s| - 1]) + DigitValue(s[|s| - 1])
  }

  /** `%d`: a '-' exactly for negative numbers, then only digits. */
  function Render(x: int): (s: string)
    ensures |s| >= 1
    ensures s[0] == '-' <==> x < 0
    ensures forall i :: (if x < 0 then 1 else 0) <= i < |s| ==> IsDigit(s[i])
  {
    if x < 0 then "-" + NatDigits(-x) else NatDigits(x)
  }

  /** The value of an optional '-' followed by at least one digit, if `s` has that
      shape. It also reads texts `Render` never produces, such as "-0" and "007". */
  function Parse(s: string): (r: Option<int>)
  {
    if |s| >= 1 && (forall i :: 0 <= i < |s| ==> IsDigit(s[i])) then Some(ParseNat(s))
    else if |s| >= 2 && s[0] == '-' && (forall i :: 1 <= i < |s| ==> IsDigit(s[i])) then Some(-(ParseNat(s[1..]) as int))
    else None
  }

  lemma DigitRoundTrip(d: nat)
    requires d < 10
    ensures DigitValue(DigitChar(d)) == d
  {
  }

  lemma {:induction false} NatDigitsRoundTrip(n: nat)
    ensures ParseNat(NatDigits(n)) == n
    decreases n
  {
    var s := NatDigits(n);
    if n < 10 {
      DigitRoundTrip(n);
      assert s[..0] == [];
    } else {
      NatDigitsRoundTrip(n / 10);
      DigitRoundTrip(n % 10);
      assert s[..|s| - 1] == NatDigits(n / 10);
    }
  }

  /** No leading zero: only zero itself starts with '0'. */
  lemma {:induction false} NatDigitsNoLeadingZero(n: nat)
    ensures NatDigits(n)[0] == '0' <==> n == 0
    decreases n
  {
    if n >= 10 {
      NatDigitsNoLeadingZero(n / 10);
    }
  }

  /** `%d` can be read back: rendering loses nothing. */
  lemma RenderRoundTrip(x: int)
    ensures Parse(Render(x)) == Some(x)
  {
    var s := Render(x);
    if x < 0 {
      NatDigitsRoundTrip(-x);
      assert s[1..] == NatDigits(-x);
      assert !IsDigit(s[0]);
    } else {
      NatDigitsRoundTrip(x);
    }
  }

  lemma RenderInjective(x: int, y: int)
    ensures Render(x) == Render(y) <==> x == y
  {
    RenderRoundTrip(x);
    RenderRoundTrip(y);
  }

  function Pow10(k: nat): (r: nat)
    ensures r >= 1
  {
    if k == 0 then 1 else 10 * Pow10(k - 1)
  }

  lemma {:induction false} NatDigitsLength(n: nat, k: nat)
    requires n < Pow10(k)
    ensures |NatDigits(n)| <= if k == 0 then 1 else k
    decreases k
  {
    if n >= 10 {
      NatDigitsLength(n / 10, k - 1);
    }
  }

  /** A C `int` renders in at most eleven characters. */
  lemma RenderInt32Short(x: int)
    requires -0x8000_0000 <= x < 0x8000_0000
    ensures |Render(x)| <= 11
  {
    assert Pow10(10) == 10_000_000_000;
    NatDigitsLength(if x < 0 then -x else x, 10);
  }
}
