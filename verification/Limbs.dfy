/** lib/scval/integers.go: 128- and 256-bit integers folded from 64-bit limbs. */
module Limbs {
  import opened Prelude
  import opened Decimal

  type Limb = x: int | 0 <= x < TWO_TO_64
  type SignedLimb = x: int | -TWO_TO_63 <= x < TWO_TO_63

  const TWO_TO_128: int := 0x1_0000_0000_0000_0000_0000_0000_0000_0000
  const TWO_TO_192: int := 0x1_0000_0000_0000_0000_0000_0000_0000_0000_0000_0000_0000_0000
  const TWO_TO_256: int := 0x1_0000_0000_0000_0000_0000_0000_0000_0000_0000_0000_0000_0000_0000_0000_0000_0000

  function Magnitude(n: int): nat { if n < 0 then -n - 1 else n }

  /** big.Int.Or: bitwise or of two's-complement integers without a width. */
  function Or(a: int, b: int): int
    decreases Magnitude(a) + Magnitude(b)
  {
    if a == 0 then b
    else if b == 0 then a
    else if a == -1 || b == -1 then -1
    else 2 * Or(a / 2, b / 2) + (if a % 2 == 1 || b % 2 == 1 then 1 else 0)
  }

  /** big.Int.Lsh. */
  function Lsh(a: int, k: nat): int { a * Pow2(k) }

  /** Or-ing a number below 2^k into one shifted left by k adds it, whatever the sign. */
  lemma {:induction false} OrOfDisjoint(a: int, b: nat, k: nat)
    requires b < Pow2(k)
    ensures Or(Lsh(a, k), b) == Lsh(a, k) + b
  {
    if a == 0 || b == 0 {
      assert Lsh(0, k) == 0;
      OrZero(Lsh(a, k));
    } else {
      var p := Pow2(k - 1);
      Assoc(a, p);
      NonZero(a, p);
      OrOfDisjoint(a, b / 2, k - 1);
    }
  }

  lemma OrZero(a: int)
    ensures Or(a, 0) == a
  {}

  lemma Assoc(a: int, p: int)
    ensures a * (2 * p) == 2 * (a * p)
  {}

  lemma NonZero(a: int, p: nat)
    requires a != 0 && p >= 1
    ensures a * p != 0
  {}

  lemma Pow2Of64()
    ensures Pow2(64) == TWO_TO_64
  {
    assert Pow2(4) == 16;
    Pow2Sum(4, 4);
    Pow2Sum(8, 8);
    Pow2Sum(16, 16);
    Pow2Sum(32, 32);
  }

  /** One step of every folding: shift by 64, or in the next limb. */
  lemma PushLimb(n: int, limb: Limb)
    ensures Or(Lsh(n, 64), limb) == n * TWO_TO_64 + limb
  {
    Pow2Of64();
    OrOfDisjoint(n, limb, 64);
  }

  // ----- The four printers

  method U128Decimal(hi: Limb, lo: Limb) returns (s: string)
    ensures s == IntString(Value128(hi, lo))
  {
    var n: int := hi;
    n := Lsh(n, 64);
    PushLimb(hi, lo);
    n := Or(n, lo);
    s := IntString(n);
  }

  method I128Decimal(hi: SignedLimb, lo: Limb) returns (s: string)
    ensures s == IntString(Value128(hi, lo))
  {
    var n: int := hi;
    n := Lsh(n, 64);
    PushLimb(hi, lo);
    n := Or(n, lo);
    s := IntString(n);
  }

  method U256Decimal(hiHi: Limb, hiLo: Limb, loHi: Limb, loLo: Limb) returns (s: string)
    ensures s == IntString(Value256(hiHi, hiLo, loHi, loLo))
  {
    var n := FoldLimbs(hiHi, [hiLo, loHi, loLo]);
    FoldOfThree(hiHi, hiLo, loHi, loLo);
    s := IntString(n);
  }

  method I256Decimal(hiHi: SignedLimb, hiLo: Limb, loHi: Limb, loLo: Limb) returns (s: string)
    ensures s == IntString(Value256(hiHi, hiLo, loHi, loLo))
  {
    var n := FoldLimbs(hiHi, [hiLo, loHi, loLo]);
    FoldOfThree(hiHi, hiLo, loHi, loLo);
    s := IntString(n);
  }

  /** The limb loop the two 256-bit printers share, after the high limb is loaded. */
  method FoldLimbs(high: int, limbs: seq<Limb>) returns (n: int)
    ensures n == Positional(high, limbs)
  {
    n := high;
    for i := 0 to |limbs|
      invariant n == Positional(high, limbs[..i])
    {
      PushLimb(n, limbs[i]);
      n := Lsh(n, 64);
      n := Or(n, limbs[i]);
      assert limbs[..i + 1][..i] == limbs[..i];
    }
    assert limbs[..|limbs|] == limbs;
  }

  /** Positional reading in base 2^64. */
  function Positional(high: int, limbs: seq<Limb>): int {
    if limbs == [] then high
    else Positional(high, limbs[..|limbs| - 1]) * TWO_TO_64 + limbs[|limbs| - 1]
  }

  // ----- What the printed numbers mean

  /** The positional sum of two limbs; the high limb carries the sign, if there is one. */
  function Value128(hi: int, lo: int): int { hi * TWO_TO_64 + lo }

  /** The positional sum of four limbs. */
  function Value256(hiHi: int, hiLo: int, loHi: int, loLo: int): int {
    hiHi * TWO_TO_192 + hiLo * TWO_TO_128 + loHi * TWO_TO_64 + loLo
  }

  /** Reading a word of `size` bit patterns as a two's-complement number. */
  function TwosComplement(word: nat, size: nat): int {
    if 2 * word < size then word else word - size
  }

  /** The bit pattern of a signed limb. */
  function Bits(limb: SignedLimb): Limb { limb % TWO_TO_64 }

  function Split128(v: int): (int, int) { (v / TWO_TO_64, v % TWO_TO_64) }

  function Split256(v: int): (int, int, int, int) {
    var v1 := v / TWO_TO_64;
    var v2 := v1 / TWO_TO_64;
    (v2 / TWO_TO_64, v2 % TWO_TO_64, v1 % TWO_TO_64, v % TWO_TO_64)
  }

  lemma FoldOfThree(high: int, a: Limb, b: Limb, c: Limb)
    ensures Positional(high, [a, b, c]) == Value256(high, a, b, c)
  {
    assert [a, b, c][..2] == [a, b] && [a, b][..1] == [a] && [a][..0] == [];
    assert Positional(high, [a]) == high * TWO_TO_64 + a;
    assert Positional(high, [a, b]) == (high * TWO_TO_64 + a) * TWO_TO_64 + b;
  }

  lemma SplitOfValue256(hiHi: int, hiLo: Limb, loHi: Limb, loLo: Limb)
    ensures Split256(Value256(hiHi, hiLo, loHi, loLo)) == (hiHi, hiLo, loHi, loLo)
  {
    var v := Value256(hiHi, hiLo, loHi, loLo);
    var v2 := hiHi * TWO_TO_64 + hiLo;
    var v1 := v2 * TWO_TO_64 + loHi;
    assert v == v1 * TWO_TO_64 + loLo;
  }

  /** The unsigned 128-bit printer is exact, onto the whole width, and its text gives back the limbs. */
  lemma U128Exact(hi: Limb, lo: Limb)
    ensures 0 <= Value128(hi, lo) < TWO_TO_128
    ensures var v := ParseInt(IntString(Value128(hi, lo))); v.Some? && Split128(v.value) == (hi, lo)
  {
    IntStringReadsBack(Value128(hi, lo));
  }

  lemma U128Onto(v: int)
    requires 0 <= v < TWO_TO_128
    ensures var (hi, lo) := Split128(v); 0 <= hi < TWO_TO_64 && 0 <= lo < TWO_TO_64 && Value128(hi, lo) == v
  {}

  /** The signed 128-bit printer prints the two's-complement value of the 128 bits, negative ones included. */
  lemma I128Exact(hi: SignedLimb, lo: Limb)
    ensures -TWO_TO_128 / 2 <= Value128(hi, lo) < TWO_TO_128 / 2
    ensures Value128(hi, lo) == TwosComplement(Value128(Bits(hi), lo), TWO_TO_128)
    ensures var v := ParseInt(IntString(Value128(hi, lo))); v.Some? && Split128(v.value) == (hi, lo)
  {
    IntStringReadsBack(Value128(hi, lo));
    SignOfHighLimb(hi);
    SplitOfValue128(hi, lo);
  }

  lemma SplitOfValue128(hi: int, lo: Limb)
    ensures Split128(Value128(hi, lo)) == (hi, lo)
  {}

  lemma SignOfHighLimb(hi: SignedLimb)
    ensures Bits(hi) == if hi < 0 then hi + TWO_TO_64 else hi
  {}

  lemma I128Onto(v: int)
    requires -TWO_TO_128 / 2 <= v < TWO_TO_128 / 2
    ensures var (hi, lo) := Split128(v); -TWO_TO_63 <= hi < TWO_TO_63 && 0 <= lo < TWO_TO_64 && Value128(hi, lo) == v
  {}

  lemma U256Exact(hiHi: Limb, hiLo: Limb, loHi: Limb, loLo: Limb)
    ensures 0 <= Value256(hiHi, hiLo, loHi, loLo) < TWO_TO_256
    ensures var v := ParseInt(IntString(Value256(hiHi, hiLo, loHi, loLo)));
            v.Some? && Split256(v.value) == (hiHi, hiLo, loHi, loLo)
  {
    IntStringReadsBack(Value256(hiHi, hiLo, loHi, loLo));
    SplitOfValue256(hiHi, hiLo, loHi, loLo);
  }

  lemma U256Onto(v: int)
    requires 0 <= v < TWO_TO_256
    ensures var (a, b, c, d) := Split256(v);
            0 <= a < TWO_TO_64 && 0 <= b < TWO_TO_64 && 0 <= c < TWO_TO_64 && 0 <= d < TWO_TO_64 && Value256(a, b, c, d) == v
  {}

  lemma I256Exact(hiHi: SignedLimb, hiLo: Limb, loHi: Limb, loLo: Limb)
    ensures -TWO_TO_256 / 2 <= Value256(hiHi, hiLo, loHi, loLo) < TWO_TO_256 / 2
    ensures Value256(hiHi, hiLo, loHi, loLo) == TwosComplement(Value256(Bits(hiHi), hiLo, loHi, loLo), TWO_TO_256)
    ensures var v := ParseInt(IntString(Value256(hiHi, hiLo, loHi, loLo)));
            v.Some? && Split256(v.value) == (hiHi, hiLo, loHi, loLo)
  {
    IntStringReadsBack(Value256(hiHi, hiLo, loHi, loLo));
    SplitOfValue256(hiHi, hiLo, loHi, loLo);
    SignOfHighLimb(hiHi);
  }

  lemma I256Onto(v: int)
    requires -TWO_TO_256 / 2 <= v < TWO_TO_256 / 2
    ensures var (a, b, c, d) := Split256(v);
            -TWO_TO_63 <= a < TWO_TO_63 && 0 <= b < TWO_TO_64 && 0 <= c < TWO_TO_64 && 0 <= d < TWO_TO_64 && Value256(a, b, c, d) == v
  {}
}
