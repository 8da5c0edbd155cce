/** Small facts on products and remainders, stated apart so that they are proved apart. */
module Arithmetic {

  function Min(a: int, b: int): int { if a < b then a else b }

  /** A 32-bit word read as an `int`. */
  function Signed(x: int): int
  {
    var w := x % 0x1_0000_0000;
    if w < 0x8000_0000 then w else w - 0x1_0000_0000
  }

  /** Words in the same half of the range are in the same order either way. */
  lemma SignedOrder(x: int, y: int)
    requires (0 <= x < 0x8000_0000 && 0 <= y < 0x8000_0000)
      || (0x8000_0000 <= x < 0x1_0000_0000 && 0x8000_0000 <= y < 0x1_0000_0000)
    ensures Signed(x) < Signed(y) <==> x < y
  {
  }

  /** A number is itself read as an `int` just when it is one. */
  lemma SignedIs(x: int)
    ensures Signed(x) == x <==> -0x8000_0000 <= x < 0x8000_0000
  {
  }

  lemma MulOrder(m: nat, a: int, b: int)
    requires a <= b
    ensures m * a <= m * b
  {
    assert m * b - m * a == m * (b - a);
    assert m * (b - a) >= 0;
  }

  lemma MulStep(m: nat, k: int)
    ensures m * k == m * (k - 1) + m
    ensures k > 0 ==> m * (k - 1) >= 0
  {
  }

  lemma FourTimes(x: int, k: int)
    requires x == 4 * k
    ensures x % 4 == 0
  {
  }

  lemma ModEight(x: nat, k: nat, b: nat)
    requires x == 8 * k + b && b < 8
    ensures x % 8 == b
  {
  }
}
