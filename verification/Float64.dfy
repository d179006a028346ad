/** What happens to a JSON integer that encoding/json puts into a float64 and Go then converts to int64. */
module Float64 {
  import opened Prelude

  /** The distance between neighbouring float64 values at n: 53 significant bits. */
  function Spacing(n: nat): (u: nat)
    ensures u >= 1
  {
    if n < TWO_TO_53 then 1 else 2 * Spacing(n / 2)
  }

  /** Rounding to the nearest float64, ties to the even one. */
  function RoundNat(n: nat): nat {
    var u := Spacing(n);
    var below, rest := n / u, n % u;
    if 2 * rest < u || (2 * rest == u && below % 2 == 0) then below * u else (below + 1) * u
  }

  function Round(n: int): int {
    var r: int := RoundNat(if n < 0 then -n else n);
    if n < 0 then -r else r
  }

  /** int64(f): out of range the language leaves the result open; this is what amd64 gives. */
  function ToInt64(n: int): int {
    if -TWO_TO_63 <= n < TWO_TO_63 then n else -TWO_TO_63
  }

  const TWO_TO_52: int := TWO_TO_53 / 2

  /** A multiple of the spacing there. */
  predicate Fits(n: int) {
    if n < 0 then -n % Spacing(-n) == 0 else n % Spacing(n) == 0
  }

  /** m, of no more than 53 bits, shifted left by k. */
  predicate IsShifted(n: int, m: int, k: nat) { -TWO_TO_53 <= m <= TWO_TO_53 && n == m * Pow2(k) }

  /** No more than 53 significant bits: an integer float64, of any size. */
  ghost predicate HasFewBits(n: int) { exists m: int, k: nat :: IsShifted(n, m, k) }

  /** An integer survives exactly when it is a multiple of the spacing. */
  lemma RoundKeepsIffFits(n: int)
    ensures Round(n) == n <==> Fits(n)
  {
    var m: nat := if n < 0 then -n else n;
    var u := Spacing(m);
    DivMod(m, u);
  }

  lemma DivMod(m: nat, u: nat)
    requires u >= 1
    ensures m == m / u * u + m % u && (m / u + 1) * u == m / u * u + u
  {}

  // ----- Spacing and significant bits

  /** The spacing is a power of two, and n lies in its binade. */
  lemma {:induction false} SpacingIs(n: nat) returns (k: nat)
    ensures Spacing(n) == Pow2(k) && n < TWO_TO_53 * Pow2(k)
    ensures k > 0 ==> n >= TWO_TO_52 * Pow2(k)
  {
    if n < TWO_TO_53 {
      k := 0;
    } else {
      var half := SpacingIs(n / 2);
      k := half + 1;
      assert Pow2(k) == 2 * Pow2(half);
      if half == 0 {
        assert Pow2(0) == 1;
      }
    }
  }

  lemma Regroup(m: int, a: int, b: int)
    ensures m * (a * b) == m * a * b
  {}

  lemma Cancel(a: int, b: int, u: nat)
    requires u >= 1 && a * u >= b * u
    ensures a >= b
  {
    TimesAtLeast(a - b, u);
    Distribute(a, b, u);
  }

  /** A number of few bits that is as large as a binade is a multiple of the spacing there. */
  lemma MultipleAbove(f: nat, m: int, j: nat, k: nat) returns (q: nat)
    requires IsShifted(f, m, j) && k > 0 && f >= TWO_TO_52 * Pow2(k)
    ensures f == q * Pow2(k)
  {
    Cancel(m, 0, Pow2(j));
    if j >= k {
      Pow2Sum(j - k, k);
      Regroup(m, Pow2(j - k), Pow2(k));
      Cancel(m * Pow2(j - k), 0, Pow2(k));
      q := m * Pow2(j - k);
    } else {
      Pow2Sum(k - j, j);
      Regroup(TWO_TO_52, Pow2(k - j), Pow2(j));
      Cancel(m, TWO_TO_52 * Pow2(k - j), Pow2(j));
      OneDoubling(k - j);
      q := TWO_TO_52;
    }
  }

  lemma OneDoubling(d: nat)
    requires d > 0 && TWO_TO_52 * Pow2(d) <= TWO_TO_53
    ensures Pow2(d) == 2
  {
    if d > 1 {
      assert Pow2(d) == 4 * Pow2(d - 2);
    }
  }

  lemma FitsIffNat(n: nat)
    ensures Fits(n) <==> HasFewBits(n)
  {
    var k := SpacingIs(n);
    var u := Pow2(k);
    DivMod(n, u);
    if Fits(n) {
      Cancel(TWO_TO_53, n / u, u);
      assert IsShifted(n, n / u, k);
    }
    if HasFewBits(n) && k > 0 {
      var m: int, j: nat :| IsShifted(n, m, j);
      var q := MultipleAbove(n, m, j, k);
      Multiple(q, u);
    }
  }

  lemma NegatedBits(n: int)
    ensures HasFewBits(n) ==> HasFewBits(-n)
  {
    if HasFewBits(n) {
      var m: int, k: nat :| IsShifted(n, m, k);
      assert IsShifted(-n, -m, k);
    }
  }

  /** Being a multiple of the spacing is having at most 53 significant bits. */
  lemma FitsIffFewBits(n: int)
    ensures Fits(n) <==> HasFewBits(n)
  {
    FitsIffNat(if n < 0 then -n else n);
    NegatedBits(n);
    NegatedBits(-n);
  }

  // ----- Rounding is to the nearest float64

  lemma RoundedNatFits(n: nat)
    ensures Fits(RoundNat(n))
  {
    var k := SpacingIs(n);
    var u := Pow2(k);
    DivMod(n, u);
    QuotientBelow(n, u);
    var m := if RoundNat(n) == n / u * u then n / u else n / u + 1;
    assert IsShifted(RoundNat(n), m, k);
    FitsIffNat(RoundNat(n));
  }

  lemma QuotientBelow(n: nat, u: nat)
    requires u >= 1 && n < TWO_TO_53 * u
    ensures n / u < TWO_TO_53
  {
    DivMod(n, u);
    Distribute(TWO_TO_53, n / u, u);
    TimesAtLeast(TWO_TO_53 - n / u, u);
  }

  /** What comes out is an integer float64. */
  lemma RoundFits(n: int)
    ensures Fits(Round(n))
  {
    RoundedNatFits(if n < 0 then -n else n);
  }

  /** No float64 lies strictly between the two multiples of the spacing around n. */
  lemma NoneBetween(n: nat, f: nat)
    requires Fits(f)
    ensures f <= n / Spacing(n) * Spacing(n) || f >= (n / Spacing(n) + 1) * Spacing(n)
  {
    var k := SpacingIs(n);
    var u, b := Pow2(k), n / Pow2(k);
    DivMod(n, u);
    if k > 0 && f >= TWO_TO_52 * u {
      FitsIffNat(f);
      var m: int, j: nat :| IsShifted(f, m, j);
      var q := MultipleAbove(f, m, j, k);
      Distribute(q, b, u);
      TimesAtLeast(q - b, u);
    } else if k > 0 {
      AtLeastQuotient(n, u);
    }
  }

  lemma AtLeastQuotient(n: nat, u: nat)
    requires u >= 1 && n >= TWO_TO_52 * u
    ensures n / u * u >= TWO_TO_52 * u
  {
    DivMod(n, u);
    Distribute(TWO_TO_52, n / u, u);
    TimesAtLeast(TWO_TO_52 - n / u, u);
  }

  function Distance(a: int, b: int): nat { if a <= b then b - a else a - b }

  lemma RoundNatIsNearest(n: nat, f: nat)
    requires Fits(f)
    ensures Distance(n, RoundNat(n)) <= Distance(n, f)
  {
    DivMod(n, Spacing(n));
    NoneBetween(n, f);
  }

  /** No integer float64 is nearer to n than what n is rounded to. */
  lemma RoundIsNearest(n: int, f: int)
    requires Fits(f)
    ensures Distance(n, Round(n)) <= Distance(n, f)
  {
    var a: nat := if n < 0 then -n else n;
    if n < 0 < f || f < 0 < n {
      SmallFits(0);
      RoundNatIsNearest(a, 0);
    } else {
      RoundNatIsNearest(a, if f < 0 then -f else f);
    }
  }

  lemma SmallFits(n: int)
    requires -TWO_TO_53 <= n <= TWO_TO_53
    ensures Fits(n)
  {
    assert Spacing(TWO_TO_53) == 2 * Spacing(TWO_TO_53 / 2) == 2;
  }

  /** The smallest positive integer that does not survive. */
  lemma FirstLoss()
    ensures !Fits(TWO_TO_53 + 1) && Round(TWO_TO_53 + 1) == TWO_TO_53
  {
    assert Spacing(TWO_TO_53 + 1) == 2;
  }

  /** Through int64 a non-negative or signed 64-bit integer is recovered exactly when it fits and is below 2^63. */
  lemma Int64KeepsIff(n: int)
    requires -TWO_TO_63 <= n < TWO_TO_64
    ensures ToInt64(Round(n)) == n <==> Fits(n) && n < TWO_TO_63
  {
    RoundKeepsIffFits(n);
    if n < TWO_TO_63 && !Fits(n) && ToInt64(Round(n)) == n {
      assert n == -TWO_TO_63;
      MinFits();
    }
  }

  lemma MinFits()
    ensures Fits(-TWO_TO_63)
  {
    SpacingOfPower(10);
  }

  lemma {:induction false} SpacingOfPower(k: nat)
    ensures Spacing(TWO_TO_53 * Pow2(k)) == 2 * Pow2(k) && TWO_TO_53 * Pow2(k) % (2 * Pow2(k)) == 0
  {
    var p := Pow2(k);
    if k == 0 {
      assert Spacing(TWO_TO_53) == 2 * Spacing(TWO_TO_53 / 2) == 2;
    } else {
      SpacingOfPower(k - 1);
      assert TWO_TO_53 * p / 2 == TWO_TO_53 * Pow2(k - 1);
    }
    Multiple(TWO_TO_53 / 2, 2 * p);
    assert TWO_TO_53 * p == TWO_TO_53 / 2 * (2 * p);
  }

  lemma Multiple(a: nat, u: nat)
    requires u >= 1
    ensures a * u % u == 0
  {
    var m := a * u;
    DivMod(m, u);
    Distribute(a, m / u, u);
    TimesAtLeast(a - m / u, u);
  }

  lemma Distribute(a: int, b: int, u: int)
    ensures (a - b) * u == a * u - b * u
  {}

  lemma TimesAtLeast(x: int, u: int)
    requires u >= 1
    ensures x >= 1 ==> x * u >= u
    ensures x <= -1 ==> x * u <= -u
  {
    Distribute(x, 1, u);
    Distribute(x, -1, u);
  }

  /** Half way between two neighbours the even one is taken, on either side of zero. */
  lemma TiesGoToEven(n: int, m: int, k: nat)
    requires TWO_TO_52 <= m < TWO_TO_53 && k > 0 && 2 * n == (2 * m + 1) * Pow2(k) && n > 0
    ensures Round(n) == (if m % 2 == 0 then m else m + 1) * Pow2(k)
    ensures Round(-n) == -Round(n)
  {
    var u, half := Pow2(k), Pow2(k - 1);
    HalfWay(n, m, half);
    Multiples(TWO_TO_52, m, u);
    Multiples(m + 1, TWO_TO_53, u);
    assert (m + 1) * u == m * u + u;
    SpacingOf(n, k);
    QuotientIs(n, u, m, half);
    DivMod(n, u);
  }

  lemma HalfWay(n: nat, m: nat, half: nat)
    requires 2 * n == (2 * m + 1) * (2 * half)
    ensures n == m * (2 * half) + half
  {
    assert (2 * m + 1) * (2 * half) == 2 * (m * (2 * half)) + 2 * half;
  }

  lemma {:induction false} SpacingOf(n: nat, k: nat)
    requires TWO_TO_52 * Pow2(k) <= n < TWO_TO_53 * Pow2(k)
    ensures Spacing(n) == Pow2(k)
  {
    if k > 0 {
      assert Pow2(k) == 2 * Pow2(k - 1);
      SpacingOf(n / 2, k - 1);
    }
  }
}
