module Basics {
  datatype Option<+T> = None | Some(value: T)

  function Min(a: int, b: int): int { if a < b then a else b }

  function Max(a: int, b: int): int { if a > b then a else b }

  /** The only multiple of b strictly between -b and b is zero. */
  lemma SmallMultiple(b: nat, k: int)
    requires 0 - b < b * k < b
    ensures k == 0
  {
    NonNegativeProduct(b, k - 1);
    NonNegativeProduct(b, -1 - k);
    assert b * (k - 1) == b * k - b && b * (-1 - k) == 0 - b - b * k;
  }

  lemma NonNegativeProduct(b: nat, x: int)
    ensures x >= 0 ==> b * x >= 0
  {
  }
}
