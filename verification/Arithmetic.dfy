/** Arithmetic shared by the modules that work with blocks, lines and granules. */
module Arithmetic {
  function Min(a: int, b: int): int { if a <= b then a else b }

  /** The only multiple of `d` that is less than `d` away from zero is zero. */
  lemma SmallMultiple(m: int, d: int)
    requires -d < m * d < d
    ensures m == 0
  {
    assert m >= 1 ==> m * d >= d;
    assert m <= -1 ==> m * d <= -d;
  }
}
