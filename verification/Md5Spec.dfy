/** MD5 as RFC 1321 defines it: padding, the 64-step block transform as a loop, the digest. */
module Md5Spec {
  import opened Bytes

  type word = x: int | 0 <= x < TWO32

  datatype Regs = Regs(a: word, b: word, c: word, d: word)

  // ----- Section 3.4: the auxiliary functions, as 32-bit operations

  function Bits(x: word): bv32 {
    x as bv32
  }

  function Value(u: bv32): word {
    u as int
  }

  function F(x: word, y: word, z: word): word {
    Value((Bits(x) & Bits(y)) | (!Bits(x) & Bits(z)))
  }

  function G(x: word, y: word, z: word): word {
    Value((Bits(x) & Bits(z)) | (Bits(y) & !Bits(z)))
  }

  function H(x: word, y: word, z: word): word {
    Value(Bits(x) ^ Bits(y) ^ Bits(z))
  }

  function I(x: word, y: word, z: word): word {
    Value(Bits(y) ^ (Bits(x) | !Bits(z)))
  }

  function RotateLeft(x: word, n: nat): word
    requires 0 < n < 32
  {
    Value((Bits(x) << n) | (Bits(x) >> (32 - n)))
  }

  /** a = b + ((a + f + x + t) <<< s), with additions modulo 2^32. */
  function Mix(f: word, a: word, b: word, x: word, s: nat, t: word): word
    requires 0 < s < 32
  {
    (b + RotateLeft((a as int + f + x + t) % TWO32, s)) % TWO32
  }

  // ----- Section 3.4: one block, as a loop over 64 steps

  /** The integer parts of 2^32 |sin(i + 1)|, in radians, sixteen for each round. */
  const T1: seq<word> := [
    0xd76aa478, 0xe8c7b756, 0x242070db, 0xc1bdceee, 0xf57c0faf, 0x4787c62a, 0xa8304613, 0xfd469501,
    0x698098d8, 0x8b44f7af, 0xffff5bb1, 0x895cd7be, 0x6b901122, 0xfd987193, 0xa679438e, 0x49b40821]
  const T2: seq<word> := [
    0xf61e2562, 0xc040b340, 0x265e5a51, 0xe9b6c7aa, 0xd62f105d, 0x02441453, 0xd8a1e681, 0xe7d3fbc8,
    0x21e1cde6, 0xc33707d6, 0xf4d50d87, 0x455a14ed, 0xa9e3e905, 0xfcefa3f8, 0x676f02d9, 0x8d2a4c8a]
  const T3: seq<word> := [
    0xfffa3942, 0x8771f681, 0x6d9d6122, 0xfde5380c, 0xa4beea44, 0x4bdecfa9, 0xf6bb4b60, 0xbebfbc70,
    0x289b7ec6, 0xeaa127fa, 0xd4ef3085, 0x04881d05, 0xd9d4d039, 0xe6db99e5, 0x1fa27cf8, 0xc4ac5665]
  const T4: seq<word> := [
    0xf4292244, 0x432aff97, 0xab9423a7, 0xfc93a039, 0x655b59c3, 0x8f0ccc92, 0xffeff47d, 0x85845dd1,
    0x6fa87e4f, 0xfe2ce6e0, 0xa3014314, 0x4e0811a1, 0xf7537e82, 0xbd3af235, 0x2ad7d2bb, 0xeb86d391]

  function SineWord(i: nat): word
    requires i < 64
  {
    if i < 16 then T1[i] else if i < 32 then T2[i - 16] else if i < 48 then T3[i - 32] else T4[i - 48]
  }

  const SHIFTS: seq<nat> := [7, 12, 17, 22, 5, 9, 14, 20, 4, 11, 16, 23, 6, 10, 15, 21]

  function Schedule(i: nat): (r: nat)
    ensures r < 16
  {
    if i < 16 then i
    else if i < 32 then (5 * i + 1) % 16
    else if i < 48 then (3 * i + 5) % 16
    else 7 * i % 16
  }

  function Auxiliary(i: nat, x: word, y: word, z: word): word {
    if i < 16 then F(x, y, z) else if i < 32 then G(x, y, z) else if i < 48 then H(x, y, z) else I(x, y, z)
  }

  function ShiftOf(i: nat): (s: nat)
    requires i < 64
    ensures 0 < s < 32
  {
    SHIFTS[i / 16 * 4 + i % 4]
  }

  /** Step i, in the form that rotates the registers instead of renaming them. */
  function Step(r: Regs, x: seq<word>, i: nat): Regs
    requires |x| == 16 && i < 64
  {
    Regs(r.d, Mix(Auxiliary(i, r.b, r.c, r.d), r.a, r.b, x[Schedule(i)], ShiftOf(i), SineWord(i)), r.b, r.c)
  }

  function Steps(r: Regs, x: seq<word>, n: nat): Regs
    requires |x| == 16 && n <= 64
  {
    if n == 0 then r else Step(Steps(r, x, n - 1), x, n - 1)
  }

  /** The low-order byte comes first. */
  function LeWord(b: seq<byte>): word
    requires |b| == 4
  {
    b[0] as int + 0x100 * b[1] as int + 0x1_0000 * b[2] as int + 0x100_0000 * b[3] as int
  }

  function Words(b: seq<byte>): (r: seq<word>)
    requires |b| % 4 == 0
    ensures |r| == |b| / 4
  {
    seq(|b| / 4, i requires 0 <= i < |b| / 4 => LeWord(b[4 * i..4 * i + 4]))
  }

  function AddRegs(p: Regs, q: Regs): Regs {
    Regs((p.a as int + q.a) % TWO32, (p.b as int + q.b) % TWO32, (p.c as int + q.c) % TWO32, (p.d as int + q.d) % TWO32)
  }

  function Transform(r: Regs, block: seq<byte>): Regs
    requires |block| == 64
  {
    AddRegs(r, Steps(r, Words(block), 64))
  }

  // ----- Sections 3.1 to 3.3 and 3.5

  const INIT := Regs(0x67452301, 0xefcdab89, 0x98badcfe, 0x10325476)

  /** All complete blocks of m; what is left over is not touched. */
  function Blocks(r: Regs, m: seq<byte>): Regs
    decreases |m|
  {
    if |m| < 64 then r else Blocks(Transform(r, m[..64]), m[64..])
  }

  function LeBytes(w: word): (r: seq<byte>)
    ensures |r| == 4
  {
    [w % 0x100, w / 0x100 % 0x100, w / 0x1_0000 % 0x100, w / 0x100_0000]
  }

  function Zeros(n: nat): seq<byte> {
    seq(n, _ => 0)
  }

  /** A one bit and the fewest zero bits that make the length 448 modulo 512. */
  function PadLength(n: nat): (r: nat)
    ensures 1 <= r <= 64 && (n + r) % 64 == 56
  {
    1 + (119 - n % 64) % 64
  }

  function Pad(n: nat): (r: seq<byte>)
    ensures |r| == PadLength(n)
  {
    [0x80] + Zeros(PadLength(n) - 1)
  }

  /** The length in bits modulo 2^64, low-order word first. */
  function LengthField(n: nat): (r: seq<byte>)
    ensures |r| == 8
  {
    LeBytes(8 * n % TWO32) + LeBytes(8 * n / TWO32 % TWO32)
  }

  lemma FullAfterLength(n: nat)
    requires n % 64 == 56
    ensures (n + 8) % 64 == 0
  {
  }

  function Padded(m: seq<byte>): (r: seq<byte>)
    ensures |r| % 64 == 0
  {
    FullAfterLength(|m| + PadLength(|m|));
    m + Pad(|m|) + LengthField(|m|)
  }

  function RegBytes(r: Regs): (b: seq<byte>)
    ensures |b| == 16
  {
    LeBytes(r.a) + LeBytes(r.b) + LeBytes(r.c) + LeBytes(r.d)
  }

  function Digest(m: seq<byte>): (r: seq<byte>)
    ensures |r| == 16
  {
    RegBytes(Blocks(INIT, Padded(m)))
  }

  /** Blocks can be absorbed in two goes wherever the first is a whole number of blocks. */
  lemma {:induction false} BlocksConcat(r: Regs, p: seq<byte>, q: seq<byte>)
    requires |p| % 64 == 0
    ensures Blocks(r, p + q) == Blocks(Blocks(r, p), q)
    decreases |p|
  {
    hide Transform;
    if p == [] {
      assert p + q == q;
    } else {
      assert (p + q)[..64] == p[..64] && (p + q)[64..] == p[64..] + q;
      BlocksConcat(Transform(r, p[..64]), p[64..], q);
    }
  }

  lemma BlocksOne(r: Regs, b: seq<byte>)
    requires |b| == 64
    ensures Blocks(r, b) == Transform(r, b)
  {
    hide Transform;
    assert b[..64] == b;
  }

  lemma WordRoundTrip(w: word)
    ensures LeWord(LeBytes(w)) == w
  {
    var a := w / 0x100;
    var b := a / 0x100;
    assert w / 0x1_0000 == b && w / 0x100_0000 == b / 0x100;
    assert w as int == 0x100 * a + w % 0x100 && a == 0x100 * b + a % 0x100;
  }

  lemma BytesRoundTrip(b: seq<byte>)
    requires |b| == 4
    ensures LeBytes(LeWord(b)) == b
  {
    var h := b[2] as int + 0x100 * b[3] as int;
    var m := b[1] as int + 0x100 * h;
    var w := LeWord(b);
    assert w as int == b[0] as int + 0x100 * m;
    assert w / 0x100 == m && w % 0x100 == b[0];
    assert m / 0x100 == h && m % 0x100 == b[1];
    assert w / 0x1_0000 == h && w / 0x100_0000 == b[3];
  }

  /** Read back, the length field is the number of bits modulo 2^64, low-order byte first. */
  lemma LengthFieldIs(n: nat)
    ensures var b := LengthField(n);
      LeWord(b[..4]) + TWO32 * LeWord(b[4..]) == 8 * n % 0x1_0000_0000_0000_0000
  {
    hide LeWord, LeBytes;
    var lo, hi := 8 * n % TWO32, 8 * n / TWO32;
    WordRoundTrip(lo);
    WordRoundTrip(hi % TWO32);
    assert LengthField(n)[..4] == LeBytes(lo) && LengthField(n)[4..] == LeBytes(hi % TWO32);
    assert 8 * n == 0x1_0000_0000_0000_0000 * (hi / TWO32) + (TWO32 * (hi % TWO32) + lo);
  }
}
