/**
 * The LZO1X byte format as the compressor writes it: literal-run headers, the M2, M3 and M4
 * match encodings, the back-patching of short literal runs into the preceding match, and the
 * end marker.
 */
module LzoFormat {
  import opened Bytes

  const M2_MAX_LEN := 8
  const M2_MAX_OFFSET := 0x0800
  const M3_MAX_LEN := 33
  const M3_MAX_OFFSET := 0x4000
  const M4_MAX_LEN := 9
  const M4_MAX_OFFSET := 0xbfff
  const M3_MARKER := 32
  const M4_MARKER := 16

  /** The literals x[from..at], then a match that rebuilds x[at..to] from `off` bytes back. */
  datatype Inst = Inst(from: nat, at: nat, to: nat, off: nat)

  /** x[at..to] repeats the bytes `off` positions earlier. */
  ghost predicate Repeats(x: seq<byte>, at: nat, to: nat, off: nat)
  {
    off <= at <= to <= |x| && x[at..to] == x[at - off..to - off]
  }

  ghost predicate GoodInst(x: seq<byte>, i: Inst)
  {
    && i.from <= i.at
    && i.at + 4 <= i.to
    && 1 <= i.off <= M4_MAX_OFFSET
    && Repeats(x, i.at, i.to, i.off)
  }

  /** Where instruction k must begin: at 0, or where the one before it ended. */
  function Boundary(insts: seq<Inst>, k: nat): nat
    requires k <= |insts|
  {
    if k == 0 then 0 else insts[k - 1].to
  }

  /** How far into x the instructions reach. */
  function End(insts: seq<Inst>): nat {
    Boundary(insts, |insts|)
  }

  /** The instructions cover a prefix of x without gaps, and open with at least four literals. */
  ghost predicate Parses(x: seq<byte>, insts: seq<Inst>)
  {
    && (forall k | 0 <= k < |insts| :: GoodInst(x, insts[k]))
    && (forall k {:trigger Boundary(insts, k)} | 0 <= k < |insts| :: insts[k].from == Boundary(insts, k))
    && (insts != [] ==> insts[0].at >= 4)
  }

  /** A count of at least 1: one zero byte for each 255, then what is left as 1..255. */
  function ZeroRun(n: nat): (r: seq<byte>)
    requires n >= 1
    ensures |r| == (n + 254) / 255
  {
    if n > 255 then [0] + ZeroRun(n - 255) else [n]
  }

  function LitHeader(n: nat): seq<byte>
    requires n >= 4
  {
    if n <= 18 then [n - 3] else [0] + ZeroRun(n - 18)
  }

  lemma LowTwoBitsAreFree(o: nat)
    ensures o * 4 % 256 == o % 64 * 4
  {
  }

  /** The two bytes that close an M3 or M4 match; the low two bits of the first stay free. */
  function OffsetBytes(o: nat): (r: seq<byte>)
    ensures |r| == 2 && r[0] % 4 == 0
  {
    LowTwoBitsAreFree(o);
    [o * 4 % 256, o / 64 % 256]
  }

  function M3Head(len: nat): (r: seq<byte>)
    requires len >= 4
    ensures 1 <= |r| <= len - 3 && M3_MARKER <= r[0] < 64
  {
    if len <= M3_MAX_LEN then [M3_MARKER + (len - 2)] else [M3_MARKER] + ZeroRun(len - M3_MAX_LEN)
  }

  /** Bit 3 carries bit 14 of the reduced offset, which the offset bytes have no room for. */
  function M4Head(len: nat, bit14: nat): (r: seq<byte>)
    requires len >= 4 && bit14 < 2
    ensures 1 <= |r| <= len - 3 && M4_MARKER <= r[0] < 32
  {
    if len <= M4_MAX_LEN then [M4_MARKER + bit14 * 8 + (len - 2)]
    else [M4_MARKER + bit14 * 8] + ZeroRun(len - M4_MAX_LEN)
  }

  function MatchBytes(len: nat, off: nat): (r: seq<byte>)
    requires len >= 4 && 1 <= off <= M4_MAX_OFFSET
    ensures 2 <= |r| <= len - 1
    ensures r[|r| - 2] % 4 == 0
    ensures r[0] >= 16
  {
    if len <= M2_MAX_LEN && off <= M2_MAX_OFFSET then
      [(len - 1) * 32 + (off - 1) % 8 * 4, (off - 1) / 8]
    else if off <= M3_MAX_OFFSET then M3Head(len) + OffsetBytes(off - 1)
    else M4Head(len, (off - 0x4000) / 0x4000 % 2) + OffsetBytes(off - 0x4000)
  }

  /** A count below 4 added to the free low bits of the second-to-last byte. */
  function Tagged(m: seq<byte>, t: byte): (r: seq<byte>)
    requires |m| >= 2 && m[|m| - 2] % 4 == 0 && t < 4
    ensures |r| == |m|
  {
    m[|m| - 2 := m[|m| - 2] + t]
  }

  /** op[-2] |= t: the bits are free, so this adds the tag. */
  function Patched(b: seq<byte>, t: byte): (r: seq<byte>)
    requires |b| >= 2 && b[|b| - 2] % 4 == 0 && t < 4
    ensures r == Tagged(b, t)
  {
    OrIntoFreeLowBits(b[|b| - 2], t);
    b[|b| - 2 := BitOr(b[|b| - 2], t)]
  }

  /** A run of one to three literals has no header: its length is OR-ed into the last match. */
  function PutLits(b: seq<byte>, lits: seq<byte>): (r: seq<byte>)
    requires 1 <= |lits| <= 3 ==> |b| >= 2 && b[|b| - 2] % 4 == 0
  {
    if |lits| == 0 then b
    else if |lits| <= 3 then Patched(b, |lits|) + lits
    else b + LitHeader(|lits|) + lits
  }

  lemma ParsesPrefix(x: seq<byte>, insts: seq<Inst>, n: nat)
    requires Parses(x, insts) && n <= |insts|
    ensures Parses(x, insts[..n])
  {
    var p := insts[..n];
    forall k | 0 <= k < |p|
      ensures GoodInst(x, p[k]) && p[k].from == Boundary(p, k)
    {
      assert p[k] == insts[k] && Boundary(p, k) == Boundary(insts, k);
    }
  }

  lemma ParsesInside(x: seq<byte>, insts: seq<Inst>, k: nat)
    requires Parses(x, insts) && k <= |insts|
    ensures Boundary(insts, k) <= |x|
    ensures k < |insts| ==>
      var i := insts[k];
      && GoodInst(x, i)
      && Boundary(insts, k) == i.from <= i.at && i.at + 4 <= i.to <= |x| && 1 <= i.off <= M4_MAX_OFFSET
      && (k == 0 ==> i.at > 3)
  {
    assert k > 0 ==> GoodInst(x, insts[k - 1]);
  }

  /** Everything the block compressor writes for a list of instructions. */
  function Body(x: seq<byte>, insts: seq<Inst>): (r: seq<byte>)
    requires Parses(x, insts)
    ensures insts != [] ==> |r| >= 2 && r[|r| - 2] % 4 == 0
    ensures insts == [] <==> r == []
  {
    if insts == [] then []
    else
      var n := |insts| - 1;
      var i := insts[n];
      ParsesPrefix(x, insts, n);
      ParsesInside(x, insts, n);
      PutLits(Body(x, insts[..n]), x[i.from..i.at]) + MatchBytes(i.to - i.at, i.off)
  }

  lemma EmptyParse(x: seq<byte>)
    ensures Parses(x, []) && Body(x, []) == []
  {
  }

  const EOF_MARK: seq<byte> := [M4_MARKER + 1, 0, 0]

  /** The last literals: an initial run of at most 238 has its own one-byte header. */
  function PutTail(b: seq<byte>, tail: seq<byte>): seq<byte>
    requires b != [] ==> |b| >= 2 && b[|b| - 2] % 4 == 0
  {
    if b == [] && 1 <= |tail| <= 238 then [17 + |tail|] + tail else PutLits(b, tail)
  }

  /** The complete compressed stream. */
  function Stream(x: seq<byte>, insts: seq<Inst>): seq<byte>
    requires Parses(x, insts)
  {
    PutTail(Body(x, insts), x[End(insts)..]) + EOF_MARK
  }

  /** s is what the compressor may write for x: some parse of x, encoded. */
  ghost predicate Encodes(s: seq<byte>, x: seq<byte>) {
    exists insts :: Parses(x, insts) && s == Stream(x, insts)
  }
}
