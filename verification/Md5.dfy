/** The incremental MD5 of the source, held to RFC 1321 as Md5Spec states it. */
module Md5 {
  import opened Bytes
  import opened Md5Spec

  // ----- MD5Encode and MD5Decode

  function WordBytes(ws: seq<word>): (r: seq<byte>)
    ensures |r| == 4 * |ws|
  {
    if ws == [] then [] else WordBytes(ws[..|ws| - 1]) + LeBytes(ws[|ws| - 1])
  }

  /** The body of the encoding loop. */
  method PutWord(output: array<byte>, j: nat, w: word)
    requires j + 4 <= output.Length
    modifies output
    ensures output[..j + 4] == old(output[..j]) + LeBytes(w)
    ensures output[j + 4..] == old(output[j + 4..])
  {
    output[j] := w % 0x100;
    output[j + 1] := w as int / 0x100 % 0x100;
    output[j + 2] := w as int / 0x1_0000 % 0x100;
    output[j + 3] := w as int / 0x100_0000 % 0x100;
  }

  method Encode(output: array<byte>, input: array<word>, len: nat)
    requires len % 4 == 0 && len <= output.Length && len / 4 <= input.Length
    modifies output
    ensures output[..len] == WordBytes(input[..len / 4])
    ensures output[len..] == old(output[len..])
  {
    hide LeBytes;
    var i, j := 0, 0;
    while j < len
      invariant j == 4 * i && j <= len
      invariant output[..j] == WordBytes(input[..i])
      invariant output[len..] == old(output[len..])
    {
      PutWord(output, j, input[i]);
      assert input[..i + 1][..i] == input[..i];
      i, j := i + 1, j + 4;
    }
  }

  method Decode(output: array<word>, input: array<byte>, at: nat, len: nat)
    requires len % 4 == 0 && at + len <= input.Length && len / 4 <= output.Length
    modifies output
    ensures output[..len / 4] == Words(input[at..at + len])
  {
    var i, j := 0, 0;
    while j < len
      invariant j == 4 * i && j <= len
      invariant forall k | 0 <= k < i :: output[k] == LeWord(input[at + 4 * k..at + 4 * k + 4])
    {
      output[i] := input[at + j] as int + 0x100 * input[at + j + 1] as int
                 + 0x1_0000 * input[at + j + 2] as int + 0x100_0000 * input[at + j + 3] as int;
      i, j := i + 1, j + 4;
    }
    assert forall k | 0 <= k < len / 4 :: input[at..at + len][4 * k..4 * k + 4] == input[at + 4 * k..at + 4 * k + 4];
  }

  lemma WordsGrow(front: seq<byte>, last: seq<byte>)
    requires |front| % 4 == 0 && |last| == 4
    ensures Words(front + last) == Words(front) + [LeWord(last)]
  {
    hide LeWord;
    var n, b := |front| / 4, front + last;
    forall i | 0 <= i < n ensures Words(b)[i] == Words(front)[i] {
      assert b[4 * i..4 * i + 4] == front[4 * i..4 * i + 4];
    }
    assert b[4 * n..4 * n + 4] == last;
  }

  /** Whole arrays: decoding what was encoded gives the words back... */
  lemma {:induction false} EncodedWordsDecode(ws: seq<word>)
    ensures Words(WordBytes(ws)) == ws
  {
    hide LeWord, LeBytes, Words;
    if ws == [] {
      assert |Words([])| == 0;
    } else {
      var n := |ws| - 1;
      EncodedWordsDecode(ws[..n]);
      WordsGrow(WordBytes(ws[..n]), LeBytes(ws[n]));
      WordRoundTrip(ws[n]);
    }
  }

  /** ...and encoding what was decoded gives the bytes back. */
  lemma {:induction false} DecodedBytesEncode(b: seq<byte>)
    requires |b| % 4 == 0
    ensures WordBytes(Words(b)) == b
  {
    hide LeWord, LeBytes, Words;
    if b == [] {
      assert |Words([])| == 0;
    } else {
      var front, last := b[..|b| - 4], b[|b| - 4..];
      var ws, w := Words(front), LeWord(last);
      DecodedBytesEncode(front);
      WordsGrow(front, last);
      BytesRoundTrip(last);
      assert front + last == b && (ws + [w])[..|ws|] == ws;
    }
  }

  // ----- MD5Transform

  function FF(a: word, b: word, c: word, d: word, x: word, s: nat, ac: word): word
    requires 0 < s < 32
  {
    Mix(F(b, c, d), a, b, x, s, ac)
  }

  function GG(a: word, b: word, c: word, d: word, x: word, s: nat, ac: word): word
    requires 0 < s < 32
  {
    Mix(G(b, c, d), a, b, x, s, ac)
  }

  function HH(a: word, b: word, c: word, d: word, x: word, s: nat, ac: word): word
    requires 0 < s < 32
  {
    Mix(H(b, c, d), a, b, x, s, ac)
  }

  function II(a: word, b: word, c: word, d: word, x: word, s: nat, ac: word): word
    requires 0 < s < 32
  {
    Mix(I(b, c, d), a, b, x, s, ac)
  }

  lemma FourSteps(r: Regs, x: seq<word>, n: nat)
    requires |x| == 16 && n + 4 <= 64
    ensures Steps(r, x, n + 4) == Step(Step(Step(Step(Steps(r, x, n), x, n), x, n + 1), x, n + 2), x, n + 3)
  {
    hide Step;
    assert Steps(r, x, n + 3) == Step(Steps(r, x, n + 2), x, n + 2);
    assert Steps(r, x, n + 1) == Step(Steps(r, x, n), x, n);
  }

  method Round1(ghost r: Regs, ghost xs: seq<word>, x: array<word>, a0: word, b0: word, c0: word, d0: word)
    returns (a: word, b: word, c: word, d: word)
    requires x.Length == 64 && xs == x[..16] && Regs(a0, b0, c0, d0) == Steps(r, xs, 0)
    ensures Regs(a, b, c, d) == Steps(r, xs, 16)
  {
    hide Mix, F, G, H, I, Steps;
    a, b, c, d := a0, b0, c0, d0;
    a := FF(a, b, c, d, x[0], 7, 0xd76aa478);
    d := FF(d, a, b, c, x[1], 12, 0xe8c7b756);
    c := FF(c, d, a, b, x[2], 17, 0x242070db);
    b := FF(b, c, d, a, x[3], 22, 0xc1bdceee);
    FourSteps(r, xs, 0); assert Regs(a, b, c, d) == Steps(r, xs, 4);
    a := FF(a, b, c, d, x[4], 7, 0xf57c0faf);
    d := FF(d, a, b, c, x[5], 12, 0x4787c62a);
    c := FF(c, d, a, b, x[6], 17, 0xa8304613);
    b := FF(b, c, d, a, x[7], 22, 0xfd469501);
    FourSteps(r, xs, 4); assert Regs(a, b, c, d) == Steps(r, xs, 8);
    a := FF(a, b, c, d, x[8], 7, 0x698098d8);
    d := FF(d, a, b, c, x[9], 12, 0x8b44f7af);
    c := FF(c, d, a, b, x[10], 17, 0xffff5bb1);
    b := FF(b, c, d, a, x[11], 22, 0x895cd7be);
    FourSteps(r, xs, 8); assert Regs(a, b, c, d) == Steps(r, xs, 12);
    a := FF(a, b, c, d, x[12], 7, 0x6b901122);
    d := FF(d, a, b, c, x[13], 12, 0xfd987193);
    c := FF(c, d, a, b, x[14], 17, 0xa679438e);
    b := FF(b, c, d, a, x[15], 22, 0x49b40821);
    FourSteps(r, xs, 12); assert Regs(a, b, c, d) == Steps(r, xs, 16);
  }

  method Round2(ghost r: Regs, ghost xs: seq<word>, x: array<word>, a0: word, b0: word, c0: word, d0: word)
    returns (a: word, b: word, c: word, d: word)
    requires x.Length == 64 && xs == x[..16] && Regs(a0, b0, c0, d0) == Steps(r, xs, 16)
    ensures Regs(a, b, c, d) == Steps(r, xs, 32)
  {
    hide Mix, F, G, H, I, Steps;
    a, b, c, d := a0, b0, c0, d0;
    a := GG(a, b, c, d, x[1], 5, 0xf61e2562);
    d := GG(d, a, b, c, x[6], 9, 0xc040b340);
    c := GG(c, d, a, b, x[11], 14, 0x265e5a51);
    b := GG(b, c, d, a, x[0], 20, 0xe9b6c7aa);
    FourSteps(r, xs, 16); assert Regs(a, b, c, d) == Steps(r, xs, 20);
    a := GG(a, b, c, d, x[5], 5, 0xd62f105d);
    d := GG(d, a, b, c, x[10], 9, 0x02441453);
    c := GG(c, d, a, b, x[15], 14, 0xd8a1e681);
    b := GG(b, c, d, a, x[4], 20, 0xe7d3fbc8);
    FourSteps(r, xs, 20); assert Regs(a, b, c, d) == Steps(r, xs, 24);
    a := GG(a, b, c, d, x[9], 5, 0x21e1cde6);
    d := GG(d, a, b, c, x[14], 9, 0xc33707d6);
    c := GG(c, d, a, b, x[3], 14, 0xf4d50d87);
    b := GG(b, c, d, a, x[8], 20, 0x455a14ed);
    FourSteps(r, xs, 24); assert Regs(a, b, c, d) == Steps(r, xs, 28);
    a := GG(a, b, c, d, x[13], 5, 0xa9e3e905);
    d := GG(d, a, b, c, x[2], 9, 0xfcefa3f8);
    c := GG(c, d, a, b, x[7], 14, 0x676f02d9);
    b := GG(b, c, d, a, x[12], 20, 0x8d2a4c8a);
    FourSteps(r, xs, 28); assert Regs(a, b, c, d) == Steps(r, xs, 32);
  }

  method Round3(ghost r: Regs, ghost xs: seq<word>, x: array<word>, a0: word, b0: word, c0: word, d0: word)
    returns (a: word, b: word, c: word, d: word)
    requires x.Length == 64 && xs == x[..16] && Regs(a0, b0, c0, d0) == Steps(r, xs, 32)
    ensures Regs(a, b, c, d) == Steps(r, xs, 48)
  {
    hide Mix, F, G, H, I, Steps;
    a, b, c, d := a0, b0, c0, d0;
    a := HH(a, b, c, d, x[5], 4, 0xfffa3942);
    d := HH(d, a, b, c, x[8], 11, 0x8771f681);
    c := HH(c, d, a, b, x[11], 16, 0x6d9d6122);
    b := HH(b, c, d, a, x[14], 23, 0xfde5380c);
    FourSteps(r, xs, 32); assert Regs(a, b, c, d) == Steps(r, xs, 36);
    a := HH(a, b, c, d, x[1], 4, 0xa4beea44);
    d := HH(d, a, b, c, x[4], 11, 0x4bdecfa9);
    c := HH(c, d, a, b, x[7], 16, 0xf6bb4b60);
    b := HH(b, c, d, a, x[10], 23, 0xbebfbc70);
    FourSteps(r, xs, 36); assert Regs(a, b, c, d) == Steps(r, xs, 40);
    a := HH(a, b, c, d, x[13], 4, 0x289b7ec6);
    d := HH(d, a, b, c, x[0], 11, 0xeaa127fa);
    c := HH(c, d, a, b, x[3], 16, 0xd4ef3085);
    b := HH(b, c, d, a, x[6], 23, 0x04881d05);
    FourSteps(r, xs, 40); assert Regs(a, b, c, d) == Steps(r, xs, 44);
    a := HH(a, b, c, d, x[9], 4, 0xd9d4d039);
    d := HH(d, a, b, c, x[12], 11, 0xe6db99e5);
    c := HH(c, d, a, b, x[15], 16, 0x1fa27cf8);
    b := HH(b, c, d, a, x[2], 23, 0xc4ac5665);
    FourSteps(r, xs, 44); assert Regs(a, b, c, d) == Steps(r, xs, 48);
  }

  method Round4(ghost r: Regs, ghost xs: seq<word>, x: array<word>, a0: word, b0: word, c0: word, d0: word)
    returns (a: word, b: word, c: word, d: word)
    requires x.Length == 64 && xs == x[..16] && Regs(a0, b0, c0, d0) == Steps(r, xs, 48)
    ensures Regs(a, b, c, d) == Steps(r, xs, 64)
  {
    hide Mix, F, G, H, I, Steps;
    a, b, c, d := a0, b0, c0, d0;
    a := II(a, b, c, d, x[0], 6, 0xf4292244);
    d := II(d, a, b, c, x[7], 10, 0x432aff97);
    c := II(c, d, a, b, x[14], 15, 0xab9423a7);
    b := II(b, c, d, a, x[5], 21, 0xfc93a039);
    FourSteps(r, xs, 48); assert Regs(a, b, c, d) == Steps(r, xs, 52);
    a := II(a, b, c, d, x[12], 6, 0x655b59c3);
    d := II(d, a, b, c, x[3], 10, 0x8f0ccc92);
    c := II(c, d, a, b, x[10], 15, 0xffeff47d);
    b := II(b, c, d, a, x[1], 21, 0x85845dd1);
    FourSteps(r, xs, 52); assert Regs(a, b, c, d) == Steps(r, xs, 56);
    a := II(a, b, c, d, x[8], 6, 0x6fa87e4f);
    d := II(d, a, b, c, x[15], 10, 0xfe2ce6e0);
    c := II(c, d, a, b, x[6], 15, 0xa3014314);
    b := II(b, c, d, a, x[13], 21, 0x4e0811a1);
    FourSteps(r, xs, 56); assert Regs(a, b, c, d) == Steps(r, xs, 60);
    a := II(a, b, c, d, x[4], 6, 0xf7537e82);
    d := II(d, a, b, c, x[11], 10, 0xbd3af235);
    c := II(c, d, a, b, x[2], 15, 0x2ad7d2bb);
    b := II(b, c, d, a, x[9], 21, 0xeb86d391);
    FourSteps(r, xs, 60); assert Regs(a, b, c, d) == Steps(r, xs, 64);
  }

  ghost function StateOf(state: array<word>): Regs
    requires state.Length == 4
    reads state
  {
    Regs(state[0], state[1], state[2], state[3])
  }

  lemma StepsStart(r: Regs, x: seq<word>)
    requires |x| == 16
    ensures Steps(r, x, 0) == r
  {
  }

  /** The 64 unrolled macro calls are the loop of RFC 1321. */
  method MD5Transform(state: array<word>, block: array<byte>, at: nat)
    requires state.Length == 4 && at + 64 <= block.Length
    modifies state
    ensures StateOf(state) == Transform(old(StateOf(state)), block[at..at + 64])
  {
    hide Steps;
    ghost var r := StateOf(state);
    var x := new word[64];
    Decode(x, block, at, 64);
    ghost var xs := x[..16];
    StepsStart(r, xs);
    var a, b, c, d := Round1(r, xs, x, state[0], state[1], state[2], state[3]);
    a, b, c, d := Round2(r, xs, x, a, b, c, d);
    a, b, c, d := Round3(r, xs, x, a, b, c, d);
    a, b, c, d := Round4(r, xs, x, a, b, c, d);
    state[0] := (state[0] as int + a) % TWO32;
    state[1] := (state[1] as int + b) % TWO32;
    state[2] := (state[2] as int + c) % TWO32;
    state[3] := (state[3] as int + d) % TWO32;
  }
}
