/** Decimal printing and reading of integers of any size, as math/big does it. */
module Decimal {
  import opened Prelude

  predicate IsDigit(c: char) { '0' <= c <= '9' }

  predicate AllDigits(s: string) { forall i :: 0 <= i < |s| ==> IsDigit(s[i]) }

  function DigitChar(d: nat): (c: char)
    requires d < 10
    ensures IsDigit(c) && DigitValue(c) == d
  {
    (d + 48) as char
  }

  function DigitValue(c: char): nat
    requires IsDigit(c)
  {
    c as int - 48
  }

  /** The number a digit string denotes; the empty string denotes zero. */
  function NatValue(s: string): nat
    requires AllDigits(s)
  {
    if s == [] then 0 else 10 * NatValue(s[..|s| - 1]) + DigitValue(s[|s| - 1])
  }

  /** The shortest digit string of n. */
  function NatString(n: nat): (s: string)
    ensures s != [] && AllDigits(s) && NatValue(s) == n
    ensures n > 0 ==> s[0] != '0'
  {
    if n < 10 then
      assert [DigitChar(n)][..0] == [];
      [DigitChar(n)]
    else
      var front := NatString(n / 10);
      assert (front + [DigitChar(n % 10)])[..|front|] == front;
      front + [DigitChar(n % 10)]
  }

  /** big.Int.String. */
  function IntString(n: int): string {
    if n < 0 then "-" + NatString(-n) else NatString(n)
  }

  /** big.Int.SetString in base 10: an optional sign, then one or more digits and nothing else. */
  function ParseInt(s: string): Option<int> {
    if s == "" then None
    else if s[0] == '-' || s[0] == '+' then
      if |s| > 1 && AllDigits(s[1..]) then
        var n: int := NatValue(s[1..]);
        Some(if s[0] == '-' then -n else n)
      else None
    else if AllDigits(s) then Some(NatValue(s)) else None
  }

  /** Printing loses nothing: what is printed reads back as the same integer. */
  lemma IntStringReadsBack(n: int)
    ensures ParseInt(IntString(n)) == Some(n)
  {
    if n < 0 {
      assert IntString(n)[1..] == NatString(-n);
    } else {
      assert IsDigit(NatString(n)[0]);
    }
  }

  /** What can be read: one or more digits, with a sign or without one. */
  lemma ParseIntIs(s: string)
    ensures ParseInt(s).Some? <==> exists sign, digits :: IsLiteral(s, sign, digits)
    ensures forall sign, digits :: IsLiteral(s, sign, digits) ==>
              ParseInt(s) == Some(if sign == "-" then -(NatValue(digits) as int) else NatValue(digits))
  {
    if ParseInt(s).Some? {
      if s[0] == '-' || s[0] == '+' {
        assert IsLiteral(s, [s[0]], s[1..]);
      } else {
        assert IsLiteral(s, "", s);
      }
    }
    forall sign, digits | IsLiteral(s, sign, digits)
      ensures ParseInt(s) == Some(if sign == "-" then -(NatValue(digits) as int) else NatValue(digits))
    {
      if sign == "" {
        assert s == digits && IsDigit(s[0]);
      } else {
        assert s[1..] == digits;
      }
    }
  }

  predicate IsLiteral(s: string, sign: string, digits: string) {
    s == sign + digits && (sign == "" || sign == "-" || sign == "+") && digits != "" && AllDigits(digits)
  }

  /** Padding on the left with zeros does not change the number. */
  lemma {:induction false} LeadingZeros(zeros: string, s: string)
    requires AllDigits(s) && forall i :: 0 <= i < |zeros| ==> zeros[i] == '0'
    ensures AllDigits(zeros + s) && NatValue(zeros + s) == NatValue(s)
    decreases |zeros| + |s|
  {
    var t := zeros + s;
    if s != [] {
      assert t[..|t| - 1] == zeros + s[..|s| - 1];
      LeadingZeros(zeros, s[..|s| - 1]);
    } else if zeros != [] {
      assert t[..|t| - 1] == zeros[..|zeros| - 1] + [];
      LeadingZeros(zeros[..|zeros| - 1], []);
    }
  }

  function Pow10(k: nat): (p: nat)
    ensures p >= 1
  {
    if k == 0 then 1 else 10 * Pow10(k - 1)
  }

  /** A digit string without a leading zero is as long as its size says. */
  lemma {:induction false} NatStringLength(n: nat, k: nat)
    requires k > 0 && n < Pow10(k)
    ensures |NatString(n)| <= k
  {
    if n >= 10 {
      assert k > 1;
      NatStringLength(n / 10, k - 1);
    }
  }
}
