/** MD5_CTX: hashing a message piece by piece. */
module Md5Context {
  import opened Bytes
  import opened Md5Spec
  import opened Md5

  // ----- The bit counter

  /** The two count words hold the number of message bits modulo 2^64. */
  predicate Counts(c0: word, c1: word, n: nat) {
    c0 == 8 * n % TWO32 && c1 == 8 * n / TWO32 % TWO32
  }

  lemma CarriesAdd(q: nat, carry: nat, hi: nat)
    ensures ((q % TWO32 + carry) % TWO32 + hi) % TWO32 == (q + hi + carry) % TWO32
  {
  }

  /** The sum wrapped around exactly if it is less than what was added. */
  lemma CarryIsSeen(c: word, lo: word)
    ensures var s := (c + lo) % TWO32; c + lo == s + (if s < lo then 1 else 0) * TWO32
  {
  }

  lemma SplitsAt32(n: nat, q: nat, r: nat)
    requires n == TWO32 * q + r && r < TWO32
    ensures n / TWO32 == q && n % TWO32 == r
  {
  }

  /** Adding a length in two parts, with the carry found by comparing, counts on. */
  lemma CounterAdds(c0: word, c1: word, n: nat, len: word)
    requires Counts(c0, c1, n)
    ensures var lo := 8 * len as int % TWO32; var c0' := (c0 + lo) % TWO32;
      Counts(c0', ((c1 as int + if c0' < lo then 1 else 0) % TWO32 + len as int / 0x2000_0000) % TWO32, n + len)
  {
    var lo: word, hi := 8 * len as int % TWO32, len as int / 0x2000_0000;
    var c0' := (c0 + lo) % TWO32;
    var carry := if c0' < lo then 1 else 0;
    var q := 8 * n / TWO32;
    assert 8 * len as int == TWO32 * hi + lo;
    CarryIsSeen(c0, lo);
    SplitsAt32(8 * (n + len), q + hi + carry, c0');
    CarriesAdd(q, carry, hi);
  }

  lemma SplitLowBits(n: nat)
    ensures 8 * n % TWO32 == 8 * (n % 0x2000_0000)
  {
    var q, r := n / 0x2000_0000, n % 0x2000_0000;
    assert 8 * n == TWO32 * q + 8 * r;
  }

  lemma LowBitsOfLowBits(n: nat)
    ensures n % 0x2000_0000 % 64 == n % 64
  {
    var q, r := n / 0x2000_0000, n % 0x2000_0000;
    assert n == 64 * (0x80_0000 * q) + r;
  }

  /** The low word gives the position in the buffer. */
  lemma CounterIndexes(c0: word, c1: word, n: nat)
    requires Counts(c0, c1, n)
    ensures c0 as int / 8 % 64 == n % 64
  {
    SplitLowBits(n);
    LowBitsOfLowBits(n);
  }

  // ----- The buffer

  lemma AbsorbBlock(m: seq<byte>, b: seq<byte>)
    requires |m| % 64 == 0 && |b| == 64
    ensures Blocks(INIT, m + b) == Transform(Blocks(INIT, m), b)
  {
    BlocksConcat(INIT, m, b);
    BlocksOne(Blocks(INIT, m), b);
  }

  lemma AbsorbTail(m: seq<byte>, tail: seq<byte>)
    requires |m| % 64 == 0 && |tail| < 64
    ensures Blocks(INIT, m + tail) == Blocks(INIT, m)
  {
    BlocksConcat(INIT, m, tail);
  }

  /** The bytes of m behind its last complete block. */
  function Tail(m: seq<byte>): seq<byte> {
    m[|m| - |m| % 64..]
  }

  lemma CountBytes(ws: seq<word>)
    requires |ws| == 2
    ensures WordBytes(ws) == LeBytes(ws[0]) + LeBytes(ws[1])
  {
    hide LeBytes;
    assert WordBytes(ws[..1]) == LeBytes(ws[0]) by { assert ws[..1][..0] == []; }
  }


  lemma LengthBytes(c0: word, c1: word, n: nat)
    requires Counts(c0, c1, n)
    ensures LeBytes(c0) + LeBytes(c1) == LengthField(n)
  {
  }


  lemma RegisterBytes(state: array<word>)
    requires state.Length == 4
    ensures WordBytes(state[..4]) == RegBytes(StateOf(state))
  {
    hide LeBytes;
    var ws := state[..4];
    CountBytes(ws[..2]);
    assert ws[..3][..2] == ws[..2];
    assert WordBytes(ws[..3]) == WordBytes(ws[..2]) + LeBytes(ws[2]);
  }


  lemma BeyondBlocks(n: nat, k: nat)
    requires n % 64 == 0 && k < 64
    ensures (n + k) % 64 == k
  {
  }


  /** Behind any block boundary, fewer than 64 bytes are the tail of the message. */
  lemma TailIs(whole: seq<byte>, tail: seq<byte>)
    requires |whole| % 64 == 0 && |tail| < 64
    ensures Blocks(INIT, whole + tail) == Blocks(INIT, whole)
    ensures Tail(whole + tail) == tail && |whole + tail| % 64 == |tail|
  {
    hide Blocks;
    AbsorbTail(whole, tail);
    BeyondBlocks(|whole|, |tail|);
  }


  /** Every message is whole blocks and a tail. */
  lemma Splits(m: seq<byte>) returns (whole: seq<byte>, tail: seq<byte>)
    ensures m == whole + tail && |whole| % 64 == 0 && |tail| == |m| % 64
  {
    whole, tail := m[..|m| - |m| % 64], m[|m| - |m| % 64..];
  }


  /** A piece that does not complete the buffered block only lengthens it. */
  lemma PieceIsBuffered(m: seq<byte>, p: seq<byte>)
    requires |m| % 64 + |p| < 64
    ensures Blocks(INIT, m + p) == Blocks(INIT, m)
    ensures |m + p| % 64 == |m| % 64 + |p| && Tail(m + p) == Tail(m) + p
  {
    hide Blocks, Tail;
    var whole, tail := Splits(m);
    TailIs(whole, tail);
    TailIs(whole, tail + p);
    assert whole + (tail + p) == m + p;
  }


  /** Otherwise what follows its last block boundary becomes the buffer. */
  lemma RestIsBuffered(m: seq<byte>, p: seq<byte>, i: nat)
    requires i <= |p| && (|m| + i) % 64 == 0 && |p| - i < 64
    ensures Blocks(INIT, m + p) == Blocks(INIT, m + p[..i])
    ensures |m + p| % 64 == |p| - i && Tail(m + p) == p[i..]
  {
    hide Blocks, Tail;
    assert m + p[..i] + p[i..] == m + p;
    TailIs(m + p[..i], p[i..]);
  }


  // ----- The loop guard

  /** i + 64 in 32-bit arithmetic, as the guard of the block loop computes it. */
  function Add64(i: nat): nat {
    (i + 64) % TWO32
  }

  /** Where the block loop may look: from the first block boundary of the input, in steps of 64. */
  predicate Visited(index: nat, i: nat) {
    i >= 64 - index && (i + index) % 64 == 0
  }

  /** No guard test wraps around. */
  predicate NoWrap(index: nat, len: nat) {
    len + (if index == 0 then 64 else index) < TWO32
  }

  /** Exactly then the guard is the comparison it looks like, wherever the loop may look. */
  lemma GuardIsExact(index: nat, len: nat)
    requires index < 64 && len < TWO32
    ensures NoWrap(index, len) <==> forall i: nat | Visited(index, i) && i <= len :: (Add64(i) <= len <==> i + 64 <= len)
  {
    if NoWrap(index, len) {
      forall i: nat | Visited(index, i) && i <= len ensures i + 64 < TWO32 {
        assert index > 0 ==> i + index <= TWO32 - 64;
      }
    } else {
      var i := TWO32 - (if index == 0 then 64 else index);
      assert Visited(index, i) && i <= len && Add64(i) <= len && i + 64 > len;
    }
  }

  lemma GuardAt(n: nat, len: nat, i: nat)
    requires NoWrap(n % 64, len) && (n + i) % 64 == 0 && 64 - n % 64 <= i <= len < TWO32
    ensures Add64(i) <= len <==> i + 64 <= len
  {
    GuardIsExact(n % 64, len);
    assert Visited(n % 64, i);
  }

  /** What the guard of round k adds up to; the index of the loop is 32 bits wide as well. */
  function GuardOfRound(index: nat, k: nat): nat
    requires index < 64
  {
    Add64((64 - index + 64 * k) % TWO32)
  }

  /** The sum keeps the residue of its start modulo 64, so it never exceeds the last such number. */
  lemma GuardStaysLow(index: nat, k: nat)
    requires index < 64
    ensures GuardOfRound(index, k) <= TWO32 - (if index == 0 then 64 else index)
  {
    var n := 64 - index + 64 * k;
    var q, r := n / TWO32, n % TWO32;
    assert r == 64 * (k + 1 - 0x400_0000 * q) - index;
  }

  /** So the block loop ends if and only if nothing wraps around. */
  lemma LoopEnds(index: nat, len: nat)
    requires index < 64 && len < TWO32
    ensures NoWrap(index, len) <==> exists k: nat :: GuardOfRound(index, k) > len
  {
    if NoWrap(index, len) {
      var k := if len < 64 - index then 0 else (len - (64 - index)) / 64;
      assert GuardOfRound(index, k) == 64 - index + 64 * k + 64;
    } else {
      forall k: nat ensures GuardOfRound(index, k) <= len {
        GuardStaysLow(index, k);
      }
    }
  }

  /** The least input that an empty buffer never gets to the end of. */
  lemma LargeInputNeverEnds(k: nat)
    ensures GuardOfRound(0, k) <= TWO32 - 64
  {
    LoopEnds(0, TWO32 - 64);
  }

  // ----- The context

  method CopyBytes(dst: array<byte>, dp: nat, src: array<byte>, sp: nat, n: nat)
    requires dst != src && dp + n <= dst.Length && sp + n <= src.Length
    modifies dst
    ensures dst[..dp + n] == old(dst[..dp]) + src[sp..sp + n]
  {
    forall k | 0 <= k < n { dst[dp + k] := src[sp + k]; }
  }

  class Context {
    const count: array<word>
    const state: array<word>
    const buffer: array<byte>
    ghost var message: seq<byte>

    ghost predicate Valid()
      reads this, count, state, buffer
    {
      && count.Length == 2 && state.Length == 4 && buffer.Length == 64 && count != state
      && Counts(count[0], count[1], |message|)
      && StateOf(state) == Blocks(INIT, message)
      && buffer[..|message| % 64] == Tail(message)
    }

    /** MD5Init. */
    constructor ()
      ensures Valid() && message == []
      ensures fresh(count) && fresh(state) && fresh(buffer)
    {
      count := new word[2](_ => 0);
      state := new word[4](i => if i == 0 then INIT.a else if i == 1 then INIT.b else if i == 2 then INIT.c else INIT.d);
      buffer := new byte[64];
      message := [];
    }

    /** Adds len to the bit count; the carry is detected by comparison. */
    method AddLength(len: word, ghost n: nat)
      requires count.Length == 2 && Counts(count[0], count[1], n)
      modifies count
      ensures Counts(count[0], count[1], n + len)
    {
      CounterAdds(count[0], count[1], n, len);
      hide Counts;
      var lo := 8 * len as int % TWO32;
      count[0] := (count[0] + lo) % TWO32;
      if count[0] < lo {
        count[1] := (count[1] as int + 1) % TWO32;
      }
      count[1] := (count[1] + len as int / 0x2000_0000) % TWO32;
    }

    /** Completes the buffered block. */
    method CompleteBlock(input: array<byte>, at: nat, index: nat, ghost m: seq<byte>)
      requires state.Length == 4 && buffer.Length == 64 && input != buffer
      requires index == |m| % 64 && at + (64 - index) <= input.Length
      requires StateOf(state) == Blocks(INIT, m) && buffer[..index] == Tail(m)
      modifies state, buffer
      ensures StateOf(state) == Blocks(INIT, m + input[at..at + (64 - index)])
    {
      hide Transform, Blocks, StateOf;
      ghost var whole := m[..|m| - index];
      assert whole + Tail(m) == m;
      AbsorbTail(whole, Tail(m));
      CopyBytes(buffer, index, input, at, 64 - index);
      AbsorbBlock(whole, buffer[..]);
      assert whole + buffer[..] == m + input[at..at + (64 - index)];
      MD5Transform(state, buffer, 0);
      assert buffer[0..0 + 64] == buffer[..];
    }

    /** Takes one more block straight from the input. */
    method TakeBlock(input: array<byte>, at: nat, i: nat, ghost m: seq<byte>)
      requires state.Length == 4 && at + i + 64 <= input.Length && (|m| + i) % 64 == 0
      requires StateOf(state) == Blocks(INIT, m + input[at..at + i])
      modifies state
      ensures StateOf(state) == Blocks(INIT, m + input[at..at + (i + 64)])
    {
      hide Transform, Blocks, StateOf;
      ghost var block := input[at + i..at + i + 64];
      AbsorbBlock(m + input[at..at + i], block);
      assert m + input[at..at + (i + 64)] == m + input[at..at + i] + block;
      MD5Transform(state, input, at + i);
    }

    /** The buffered block, then whole blocks while there are any. */
    method TakeBlocks(input: array<byte>, at: nat, len: nat, index: nat, ghost m: seq<byte>) returns (i: nat)
      requires state.Length == 4 && buffer.Length == 64 && input != buffer && at + len <= input.Length
      requires index == |m| % 64 && 64 - index <= len < TWO32 && NoWrap(index, len)
      requires StateOf(state) == Blocks(INIT, m) && buffer[..index] == Tail(m)
      modifies state, buffer
      ensures i <= len && len - i < 64 && (|m| + i) % 64 == 0
      ensures StateOf(state) == Blocks(INIT, m + input[at..at + i])
    {
      hide Transform, Blocks, StateOf, NoWrap, Add64, Tail;
      var partlen := 64 - index;
      CompleteBlock(input, at, index, m);
      i := partlen;
      GuardAt(|m|, len, i);
      while Add64(i) <= len
        invariant partlen <= i <= len && (|m| + i) % 64 == 0
        invariant Add64(i) <= len <==> i + 64 <= len
        invariant StateOf(state) == Blocks(INIT, m + input[at..at + i])
        decreases len - i
      {
        TakeBlock(input, at, i, m);
        i := i + 64;
        GuardAt(|m|, len, i);
      }
    }

    /** MD5Update: appends len bytes of input, in any pieces, to the message. */
    method Update(input: array<byte>, at: nat, len: word)
      requires Valid() && input != buffer && at + len <= input.Length
      requires NoWrap(|message| % 64, len)
      modifies this, count, state, buffer
      ensures Valid() && message == old(message) + input[at..at + len]
    {
      hide Transform, Blocks, StateOf, NoWrap, Counts, Tail;
      ghost var m, piece := message, input[at..at + len];
      CounterIndexes(count[0], count[1], |m|);
      var index := count[0] as int / 8 % 64;
      AddLength(len, |m|);
      if len >= 64 - index {
        var i := TakeBlocks(input, at, len, index, m);
        assert input[at..at + len] == piece;
        assert input[at..at + len][..i] == input[at..at + i];
        assert input[at..at + len][i..] == input[at + i..at + i + (len - i)];
        RestIsBuffered(m, piece, i);
        CopyBytes(buffer, 0, input, at + i, len - i);
      } else {
        PieceIsBuffered(m, piece);
        CopyBytes(buffer, index, input, at, len);
      }
      message := m + piece;
    }

    /** The count as eight bytes. */
    method LengthBits() returns (bits: array<byte>)
      requires Valid()
      ensures fresh(bits) && bits.Length == 8 && bits[..] == LengthField(|message|)
    {
      hide LeBytes, LengthField, StateOf, Blocks, Tail;
      bits := new byte[8];
      Encode(bits, count, 8);
      CountBytes(count[..2]);
      LengthBytes(count[0], count[1], |message|);
      assert bits[..] == bits[..8];
    }

    /** MD5Final: the digest RFC 1321 defines for the whole message. */
    method Final(digest: array<byte>)
      requires Valid() && digest.Length >= 16 && digest != buffer
      modifies this, count, state, buffer, digest
      ensures digest[..16] == Digest(old(message))
      ensures digest[16..] == old(digest[16..])
    {
      hide Blocks, Transform, Counts, Tail, LeBytes, StateOf, LengthField, RegBytes;
      ghost var m := message;
      var index := count[0] as int / 8 % 64;
      CounterIndexes(count[0], count[1], |m|);
      var padlen := if index < 56 then 56 - index else 120 - index;
      var bits := LengthBits();
      var padding := new byte[64](i => if i == 0 then 0x80 else 0);
      Update(padding, 0, padlen);
      assert padding[0..0 + padlen] == Pad(|m|);
      Update(bits, 0, 8);
      assert message == Padded(m);
      Encode(digest, state, 16);
      RegisterBytes(state);
    }
  }

  /** MD5Fast: the whole message in one piece. */
  method MD5Fast(input: array<byte>, len: word, output: array<byte>)
    requires len <= input.Length && NoWrap(0, len) && output.Length >= 16
    modifies output
    ensures output[..16] == Digest(old(input[..len]))
    ensures output[16..] == old(output[16..])
  {
    var md5 := new Context();
    md5.Update(input, 0, len);
    assert md5.message == input[..len];
    md5.Final(output);
  }

  function Total(cuts: seq<word>): nat {
    if cuts == [] then 0 else Total(cuts[..|cuts| - 1]) + cuts[|cuts| - 1]
  }

  /** No update with these lengths meets a guard that wraps around. */
  predicate Pieces(cuts: seq<word>) {
    forall k | 0 <= k < |cuts| :: NoWrap(Total(cuts[..k]) % 64, cuts[k])
  }

  lemma {:induction false} TotalGrows(cuts: seq<word>, k: nat)
    requires k < |cuts|
    ensures Total(cuts[..k + 1]) == Total(cuts[..k]) + cuts[k] <= Total(cuts)
    decreases |cuts|
  {
    assert cuts[..k + 1][..k] == cuts[..k];
    if k + 1 < |cuts| {
      var front := cuts[..|cuts| - 1];
      TotalGrows(front, k);
      assert front[..k + 1] == cuts[..k + 1];
    } else {
      assert cuts[..k + 1] == cuts;
    }
  }

  /** However a message of any length is cut into updates, the digest is the same. */
  method DigestInPieces(input: array<byte>, cuts: seq<word>) returns (digest: array<byte>)
    requires Total(cuts) == input.Length && Pieces(cuts)
    ensures digest.Length == 16 && digest[..] == Digest(input[..])
  {
    hide Digest, Context.Valid, NoWrap;
    var md5 := new Context();
    var at: nat := 0;
    for k := 0 to |cuts|
      invariant at == Total(cuts[..k]) && at <= input.Length && md5.Valid() && md5.message == input[..at]
      invariant fresh(md5) && fresh(md5.count) && fresh(md5.state) && fresh(md5.buffer)
    {
      TotalGrows(cuts, k);
      md5.Update(input, at, cuts[k]);
      assert input[..at + cuts[k]] == input[..at] + input[at..at + cuts[k]];
      at := at + cuts[k];
    }
    assert cuts[..|cuts|] == cuts && input[..at] == input[..];
    digest := new byte[16];
    md5.Final(digest);
    assert digest[..] == digest[..16];
  }
}
