/** Integer facts the components share. */
module Arithmetic {

  const TWO63: int := 0x8000_0000_0000_0000
  const TWO64: int := 0x1_0000_0000_0000_0000

  function Min(a: int, b: int): int { if a <= b then a else b }

  function Abs(x: int): nat { if x < 0 then -x else x }

  function Pow2(k: nat): nat { if k == 0 then 1 else 2 * Pow2(k - 1) }

  lemma {:induction false} Pow2Positive(k: nat)
    ensures Pow2(k) >= 1
  {
    if k > 0 { Pow2Positive(k - 1); }
  }

  lemma MulMono(a: int, b: int, m: nat)
    requires a <= b
    ensures a * m <= b * m
  {
  }

  lemma DivUnique(x: int, q: int, r: int, m: nat)
    requires m >= 1 && x == q * m + r && 0 <= r < m
    ensures x / m == q && x % m == r
  {
    var d := x / m - q;
    assert x == (x / m) * m + x % m;
    assert d * m == r - x % m by { assert (x / m) * m - q * m == d * m; }
    if d >= 1 { MulMono(1, d, m); } else if d <= -1 { MulMono(d, -1, m); }
  }
}
