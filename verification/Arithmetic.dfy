/** Facts about natural numbers shared by the modules. */
module Arithmetic {

  /** The first number a `u64` does not hold. */
  const U64 := 0x1_0000_0000_0000_0000

  /** 2^n */
  function Pow2(n: nat): nat {
    if n == 0 then 1 else 2 * Pow2(n - 1)
  }

  lemma MulMonotone(a: nat, b: nat, x: nat, y: nat)
    requires a <= b && x <= y
    ensures a * x <= b * y && x * a <= y * b
  {
    assert a * x <= b * x;
    assert b * x <= b * y;
  }
}
