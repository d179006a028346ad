/** Result and option types, and small facts about sequences used by several models. */
module Prelude {

  datatype Option<+T> = None | Some(value: T)

  datatype Result<+T, +E> = Ok(value: T) | Err(error: E)

  const TWO_TO_31: int := 0x8000_0000
  const TWO_TO_32: int := 0x1_0000_0000
  const TWO_TO_53: int := 0x20_0000_0000_0000
  const TWO_TO_62: int := 0x4000_0000_0000_0000
  const TWO_TO_63: int := 0x8000_0000_0000_0000
  const TWO_TO_64: int := 0x1_0000_0000_0000_0000

  function Min(a: int, b: int): int { if a <= b then a else b }

  function Max(a: int, b: int): int { if a >= b then a else b }

  /** 2 to the power k. */
  function Pow2(k: nat): (p: nat)
    ensures p >= 1
  {
    if k == 0 then 1 else 2 * Pow2(k - 1)
  }

  lemma {:induction false} Pow2Sum(j: nat, k: nat)
    ensures Pow2(j + k) == Pow2(j) * Pow2(k)
  {
    if j > 0 {
      Pow2Sum(j - 1, k);
      assert Pow2(j + k) == 2 * Pow2(j - 1 + k);
    }
  }

  lemma QuotientIs(n: nat, d: nat, q: int, r: nat)
    requires d > 0 && n == q * d + r && r < d
    ensures n / d == q
  {
    var p := n / d;
    assert n == p * d + n % d;
    Multiples(p + 1, q, d);
    Multiples(q + 1, p, d);
    assert (p + 1) * d == p * d + d && (q + 1) * d == q * d + d;
  }

  lemma Multiples(a: int, b: int, d: nat)
    ensures a <= b ==> a * d <= b * d
  {}
}
