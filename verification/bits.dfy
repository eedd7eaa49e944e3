/** Powers, and bitwise or on non-negative integers of any size. */
module Bits {
  function Pow(b: nat, e: nat): (r: nat)
    ensures b > 0 ==> r > 0
  {
    if e == 0 then 1 else b * Pow(b, e - 1)
  }

  /** Bitwise or. */
  function BitOr(a: nat, b: nat): nat
    decreases a + b
  {
    if a == 0 && b == 0 then 0
    else 2 * BitOr(a / 2, b / 2) + if a % 2 == 1 || b % 2 == 1 then 1 else 0
  }

  lemma {:induction false} BitOrZero(a: nat)
    ensures BitOr(0, a) == a && BitOr(a, 0) == a
  {
    if a > 0 {
      BitOrZero(a / 2);
    }
  }

  /** On disjoint bits, or is addition. */
  lemma {:induction false} OrDisjoint(a: nat, b: nat, bits: nat)
    requires a < Pow(2, bits)
    ensures BitOr(a, b * Pow(2, bits)) == a + b * Pow(2, bits)
    decreases bits
  {
    if bits == 0 {
      BitOrZero(b);
    } else {
      var p := Pow(2, bits - 1);
      assert b * Pow(2, bits) == 2 * (b * p);
      OrDisjoint(a / 2, b, bits - 1);
    }
  }
}
