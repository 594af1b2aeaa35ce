/** Octets and the few bitwise operations the sources need, on mathematical integers. */
module Bytes {
  type byte = x: int | 0 <= x < 256

  const TWO32 := 0x1_0000_0000

  /** Bitwise OR of two naturals, bit by bit from the low end. */
  function BitOr(a: nat, b: nat): nat {
    if a == 0 && b == 0 then 0
    else (if a % 2 == 1 || b % 2 == 1 then 1 else 0) + 2 * BitOr(a / 2, b / 2)
  }

  /** Bitwise exclusive OR of two naturals. */
  function BitXor(a: nat, b: nat): nat {
    if a == 0 && b == 0 then 0
    else (if a % 2 != b % 2 then 1 else 0) + 2 * BitXor(a / 2, b / 2)
  }

  /** Count of trailing zero bits, defined for non-zero words only (as is __builtin_ctz). */
  function TrailingZeros(v: nat): nat
    requires v > 0
  {
    if v % 2 == 1 then 0 else 1 + TrailingZeros(v / 2)
  }

  lemma {:induction false} OrWithZero(a: nat)
    ensures BitOr(a, 0) == a
  {
    if a == 0 {
      assert BitOr(0, 0) == 0;
    } else {
      OrWithZero(a / 2);
    }
  }

  /** OR-ing a value below 4 into a number whose two low bits are free adds it. */
  lemma {:induction false} OrIntoFreeLowBits(a: nat, t: nat)
    requires a % 4 == 0 && t < 4
    ensures BitOr(a, t) == a + t
  {
    OrWithZero(a / 4);
    assert a / 2 / 2 == a / 4 && t / 2 / 2 == 0;
    assert BitOr(a / 2, t / 2) == t / 2 + 2 * BitOr(a / 4, 0);
  }

  lemma {:induction false} XorZeroIffEqual(x: nat, y: nat)
    ensures BitXor(x, y) == 0 <==> x == y
  {
    if x == 0 && y == 0 {
    } else {
      XorZeroIffEqual(x / 2, y / 2);
    }
  }
}
