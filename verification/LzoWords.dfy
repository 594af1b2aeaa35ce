/**
 * Unaligned words: the loads, stores and comparisons that stand for four or eight bytes at once.
 */
module LzoWords {
  import opened Bytes

  /** UA_COPY32: four bytes are loaded, then stored; the two ranges may overlap. */
  method Copy4(src: array<byte>, sp: nat, dst: array<byte>, dp: nat)
    requires sp + 4 <= src.Length && dp + 4 <= dst.Length
    modifies dst
    ensures forall k | dp <= k < dp + 4 :: dst[k] == old(src[k - dp + sp])
    ensures forall k | 0 <= k < dst.Length && !(dp <= k < dp + 4) :: dst[k] == old(dst[k])
  {
    var b0, b1, b2, b3 := src[sp], src[sp + 1], src[sp + 2], src[sp + 3];
    dst[dp], dst[dp + 1], dst[dp + 2], dst[dp + 3] := b0, b1, b2, b3;
  }

  /** UA_COPY64. */
  method Copy8(src: array<byte>, sp: nat, dst: array<byte>, dp: nat)
    requires sp + 8 <= src.Length && dp + 8 <= dst.Length
    modifies dst
    ensures forall k | dp <= k < dp + 8 :: dst[k] == old(src[k - dp + sp])
    ensures forall k | 0 <= k < dst.Length && !(dp <= k < dp + 8) :: dst[k] == old(dst[k])
  {
    var b4, b5, b6, b7 := src[sp + 4], src[sp + 5], src[sp + 6], src[sp + 7];
    Copy4(src, sp, dst, dp);
    dst[dp + 4], dst[dp + 5], dst[dp + 6], dst[dp + 7] := b4, b5, b6, b7;
  }

  // ----- Comparing words

  /** UA_GET32 and UA_GET64 on a little-endian machine. */
  function Load(b: seq<byte>): nat {
    if b == [] then 0 else b[0] + 256 * Load(b[1..])
  }

  lemma XorStep(x: nat, y: nat)
    ensures BitXor(x, y) == (if x % 2 != y % 2 then 1 else 0) + 2 * BitXor(x / 2, y / 2)
  {
  }

  lemma TrailingZerosStep(v: nat, bit: nat, h: nat)
    requires v == bit + 2 * h && bit < 2 && v > 0
    ensures bit == 1 ==> TrailingZeros(v) == 0
    ensures bit == 0 ==> h > 0 && TrailingZeros(v) == 1 + TrailingZeros(h)
  {
    assert v % 2 == bit && v / 2 == h;
  }

  /** An equal low bit adds one to the count of trailing zeros. */
  lemma EqualLowBit(x: nat, y: nat)
    requires x % 2 == y % 2 && x != y
    ensures BitXor(x, y) > 0 && BitXor(x / 2, y / 2) > 0
    ensures TrailingZeros(BitXor(x, y)) == 1 + TrailingZeros(BitXor(x / 2, y / 2))
  {
    hide BitXor, TrailingZeros;
    XorZeroIffEqual(x, y);
    XorStep(x, y);
    TrailingZerosStep(BitXor(x, y), 0, BitXor(x / 2, y / 2));
  }

  lemma UnequalLowBit(x: nat, y: nat)
    requires x % 2 != y % 2
    ensures BitXor(x, y) > 0 && TrailingZeros(BitXor(x, y)) == 0
  {
    hide BitXor, TrailingZeros;
    XorStep(x, y);
    TrailingZerosStep(BitXor(x, y), 1, BitXor(x / 2, y / 2));
  }

  /** p shifted left by n bits. */
  function Shifted(p: nat, n: nat): nat {
    if n == 0 then p else 2 * Shifted(p, n - 1)
  }

  /** Over a unequal to b in n low bits the count is less than n; otherwise they add n to it. */
  lemma {:induction false} CountedBits(a: nat, b: nat, p: nat, q: nat, n: nat)
    requires a < Shifted(1, n) && b < Shifted(1, n) && (a != b || p != q)
    ensures var x, y := a + Shifted(p, n), b + Shifted(q, n);
      && BitXor(x, y) > 0
      && (a != b ==> TrailingZeros(BitXor(x, y)) < n)
      && (a == b ==> BitXor(p, q) > 0 && TrailingZeros(BitXor(x, y)) == n + TrailingZeros(BitXor(p, q)))
    decreases n
  {
    hide BitXor, TrailingZeros;
    if n == 0 {
      XorZeroIffEqual(p, q);
    } else {
      var x, y := a + Shifted(p, n), b + Shifted(q, n);
      assert x % 2 == a % 2 && x / 2 == a / 2 + Shifted(p, n - 1);
      assert y % 2 == b % 2 && y / 2 == b / 2 + Shifted(q, n - 1);
      if x % 2 != y % 2 {
        UnequalLowBit(x, y);
      } else {
        CountedBits(a / 2, b / 2, p, q, n - 1);
        XorZeroIffEqual(x / 2, y / 2);
        EqualLowBit(x, y);
      }
    }
  }

  lemma EightBits(p: nat)
    ensures Shifted(p, 8) == 256 * p
  {
    assert Shifted(p, 4) == 2 * Shifted(p, 3) == 4 * Shifted(p, 2) == 8 * Shifted(p, 1) == 16 * p;
    assert Shifted(p, 8) == 2 * Shifted(p, 7) == 4 * Shifted(p, 6) == 8 * Shifted(p, 5) == 16 * Shifted(p, 4);
  }

  /** One byte of two words: an unequal byte stops the count, an equal one adds eight to it. */
  lemma CountedByte(a: byte, b: byte, p: nat, q: nat)
    requires a != b || p != q
    ensures var v := BitXor(a + 256 * p, b + 256 * q);
      && v > 0
      && (a != b ==> TrailingZeros(v) / 8 == 0)
      && (a == b ==> BitXor(p, q) > 0 && TrailingZeros(v) / 8 == 1 + TrailingZeros(BitXor(p, q)) / 8)
  {
    EightBits(p);
    EightBits(q);
    EightBits(1);
    CountedBits(a, b, p, q, 8);
  }

  /** Words are equal exactly when their bytes are... */
  lemma {:induction false} LoadIsInjective(a: seq<byte>, b: seq<byte>)
    requires |a| == |b|
    ensures Load(a) == Load(b) <==> a == b
  {
    if a == [] {
    } else {
      LoadIsInjective(a[1..], b[1..]);
      assert a == [a[0]] + a[1..] && b == [b[0]] + b[1..];
    }
  }

  /** ...and otherwise the trailing zeros of their XOR, over eight, count the leading equal bytes. */
  lemma {:induction false} TrailingZerosCountBytes(a: seq<byte>, b: seq<byte>)
    requires |a| == |b| && a != b
    ensures BitXor(Load(a), Load(b)) > 0
    ensures var n := TrailingZeros(BitXor(Load(a), Load(b))) / 8;
      n < |a| && a[n] != b[n] && a[..n] == b[..n]
  {
    LoadIsInjective(a, b);
    LoadIsInjective(a[1..], b[1..]);
    CountedByte(a[0], b[0], Load(a[1..]), Load(b[1..]));
    if a[0] == b[0] {
      assert a == [a[0]] + a[1..] && b == [b[0]] + b[1..];
      TrailingZerosCountBytes(a[1..], b[1..]);
      var m := TrailingZeros(BitXor(Load(a[1..]), Load(b[1..]))) / 8;
      assert a[..m + 1] == [a[0]] + a[1..][..m] && b[..m + 1] == [b[0]] + b[1..][..m];
    }
  }
}
