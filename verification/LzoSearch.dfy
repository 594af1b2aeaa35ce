/** What the match search finds: the dictionary, the matches it takes, and what becomes of whole inputs. */
module LzoSearch {
  import opened Bytes
  import opened LzoFormat
  import opened LzoWords
  import opened LzoParse
  import C = LzoCompress

  // ----- The hash

  /** The inverse of the multiplier modulo 2^32. */
  const UNMULTIPLY := 0x329453b5

  lemma MultiplierIsUndone(dv: nat)
    requires dv < TWO32
    ensures 0x1824429d * dv % TWO32 * UNMULTIPLY % TWO32 == dv
  {
    var q, r := 0x1824429d * dv / TWO32, 0x1824429d * dv % TWO32;
    assert 0x1824429d * UNMULTIPLY == TWO32 * 80024030 + 1;
    assert r * UNMULTIPLY == TWO32 * (80024030 * dv - q * UNMULTIPLY) + dv;
  }

  lemma TopAndRest(p: nat)
    ensures p % TWO32 == p % TWO32 / 0x4_0000 * 0x4_0000 + p % 0x4_0000
  {
    var q, w := p / TWO32, p % TWO32;
    var h, rest := w / 0x4_0000, w % 0x4_0000;
    assert p == 0x4_0000 * (0x4000 * q + h) + rest;
  }

  /** The slot is the top of a product that can be undone: with the rest of it, it determines the word. */
  lemma SlotAndRestDetermineWord(dv: nat)
    requires dv < TWO32
    ensures var rest := 0x1824429d * dv % 0x4_0000;
      (DictIndex(dv) * 0x4_0000 + rest) * UNMULTIPLY % TWO32 == dv
  {
    TopAndRest(0x1824429d * dv);
    MultiplierIsUndone(dv);
  }

  // ----- One round

  /** The slot that serves position p. */
  function SlotAt(x: seq<byte>, p: nat): (h: nat)
    requires p + 4 <= |x|
    ensures h < DICT_SIZE
  {
    DictIndex(Load(x[p..p + 4]))
  }

  lemma SameSlot(x: seq<byte>, p: nat, q: nat)
    requires p + 4 <= |x| && q + 4 <= |x| && x[p..p + 4] == x[q..q + 4]
    ensures SlotAt(x, p) == SlotAt(x, q)
  {
  }

  /** The slot of the four bytes at ip now holds ip, relative to the block; no other slot changes. */
  lemma RoundRemembers(x: seq<byte>, b: Block, wide: bool, s: Scan, h: nat)
    requires ScanOk(x, b, s) && s.ip < b.end - 20 && h < DICT_SIZE
    ensures Advance(x, b, wide, s).dict[h] == if h == SlotAt(x, s.ip) then s.ip - b.base else s.dict[h]
  {
    hide Parses, Load, InBlock, DictIndex, ExtendMatch;
    AdvanceIs(x, b, wide, s);
  }

  /** Where the four bytes at ip differ from the remembered ones, only the cursor moves on. */
  lemma RoundSkips(x: seq<byte>, b: Block, wide: bool, s: Scan, m: nat)
    requires ScanOk(x, b, s) && s.ip < b.end - 20
    requires var pos := b.base + s.dict[SlotAt(x, s.ip)]; pos < s.ip && x[pos..pos + 4] != x[s.ip..s.ip + 4]
    requires 32 * m <= s.ip - s.ii < 32 * (m + 1)
    ensures var r := Advance(x, b, wide, s);
      r.ip == s.ip + m + 1 && r.ii == s.ii && r.ti == s.ti && r.insts == s.insts
  {
    hide Parses, Load, InBlock, DictIndex, Entered, Taken;
    var pos := Candidate(x, b, s);
    LoadIsInjective(x[pos..pos + 4], x[s.ip..s.ip + 4]);
    AdvanceIs(x, b, wide, s);
  }

  /** Where they agree, the match is taken, with the literals before it. */
  lemma RoundTakes(x: seq<byte>, b: Block, wide: bool, s: Scan)
    requires ScanOk(x, b, s) && s.ip < b.end - 20
    requires var pos := b.base + s.dict[SlotAt(x, s.ip)]; pos < s.ip && x[pos..pos + 4] == x[s.ip..s.ip + 4]
    ensures var r, pos := Advance(x, b, wide, s), b.base + s.dict[SlotAt(x, s.ip)];
      && r.ii == r.ip && r.ti == 0
      && r.insts == s.insts + [Inst(s.ii - s.ti, s.ip, r.ip, s.ip - pos)]
      && s.ip + 4 <= r.ip < b.end
      && (x[pos + (r.ip - s.ip)] != x[r.ip]
          || (r.ip >= b.end - 20 && (r.ip - s.ip - 4) % (if wide then 8 else 4) == 0))
  {
    hide Parses, Load, InBlock, DictIndex, Entered, ExtendMatch;
    var pos := Candidate(x, b, s);
    AdvanceIs(x, b, wide, s);
    ExtendedMatchIsLongest(x, pos, s.ip, 4, b.end - 20, wide);
  }

  // ----- Many rounds

  /** The search after k rounds, or at its end if that comes first. */
  function Rounds(x: seq<byte>, b: Block, wide: bool, s: Scan, k: nat): (r: Scan)
    requires ScanOk(x, b, s)
    ensures ScanOk(x, b, r)
  {
    if k == 0 then s
    else
      var r := Rounds(x, b, wide, s, k - 1);
      if r.ip < b.end - 20 then Advance(x, b, wide, r) else r
  }

  predicate Inside(x: seq<byte>, ps: seq<nat>) {
    forall i | 0 <= i < |ps| :: ps[i] + 4 <= |x|
  }

  /** The positions it probed on the way. */
  function Probed(x: seq<byte>, b: Block, wide: bool, s: Scan, k: nat): (ps: seq<nat>)
    requires ScanOk(x, b, s)
    ensures Inside(x, ps)
  {
    if k == 0 then []
    else
      var r := Rounds(x, b, wide, s, k - 1);
      Probed(x, b, wide, s, k - 1) + if r.ip < b.end - 20 then [r.ip] else []
  }

  /** The last of these positions that slot h serves; the start of the block if none does. */
  function LastIn(x: seq<byte>, b: Block, ps: seq<nat>, h: nat): nat
    requires Inside(x, ps)
  {
    if ps == [] then b.base
    else
      var n := |ps| - 1;
      if SlotAt(x, ps[n]) == h then ps[n] else LastIn(x, b, ps[..n], h)
  }

  /** What the dictionary holds at any time: for each slot, the last position probed for it. */
  lemma {:induction false} DictionaryIsLastProbed(x: seq<byte>, b: Block, wide: bool, s: Scan, k: nat, h: nat)
    requires ScanOk(x, b, s) && s.dict == seq(DICT_SIZE, _ => 0) && h < DICT_SIZE
    ensures b.base + Rounds(x, b, wide, s, k).dict[h] == LastIn(x, b, Probed(x, b, wide, s, k), h)
  {
    hide ScanOk, SlotAt, Advance;
    if k == 0 {
      assert s.dict[h] == 0;
    } else {
      var r, ps := Rounds(x, b, wide, s, k - 1), Probed(x, b, wide, s, k - 1);
      DictionaryIsLastProbed(x, b, wide, s, k - 1, h);
      if r.ip < b.end - 20 {
        RoundRemembers(x, b, wide, r, h);
        assert (ps + [r.ip])[..|ps|] == ps;
      } else {
        assert ps + [] == ps;
      }
    }
  }

  /** The rounds lead to the end of the block. */
  lemma {:induction false} RoundsEnd(x: seq<byte>, b: Block, wide: bool, s: Scan, k: nat)
    requires ScanOk(x, b, s)
    ensures ScanBlock(x, b, wide, Rounds(x, b, wide, s, k)) == ScanBlock(x, b, wide, s)
    ensures s.ip + k >= b.end - 20 ==> ScanBlock(x, b, wide, s) == Rounds(x, b, wide, s, k)
    ensures Rounds(x, b, wide, s, k).ip >= if s.ip + k < b.end - 20 then s.ip + k else b.end - 20
  {
    hide ScanOk, Advance, ScanBlock;
    if k == 0 {
      ScanEnds(x, b, wide, s);
    } else {
      var r := Rounds(x, b, wide, s, k - 1);
      RoundsEnd(x, b, wide, s, k - 1);
      if r.ip < b.end - 20 { ScanUnfolds(x, b, wide, r); }
      ScanEnds(x, b, wide, Rounds(x, b, wide, s, k));
    }
  }

  // ----- Whole inputs

  /** Below 32 bytes nothing is searched: the input is stored behind its length. */
  lemma ShortInputStaysLiteral(x: seq<byte>, wide: bool)
    requires |x| < 32
    ensures Compressed(x, wide) == (if x == [] then [] else [17 + |x|] + x) + [17, 0, 0]
  {
    EmptyParse(x);
    assert ParseOf(x, wide) == [];
    assert x[0..] == x;
  }

  lemma AllParsed(x: seq<byte>, ip: nat, t: nat, insts: seq<Inst>, wide: bool)
    requires t <= ip == |x| && Parses(x, insts) && End(insts) == ip - t
    ensures ParseFrom(x, ip, t, insts, wide) == insts
  {
  }

  /** An input of at most 49152 bytes is one block, searched from its fifth position or later. */
  lemma OneBlockParse(x: seq<byte>, wide: bool)
    requires 32 <= |x| <= 49152
    ensures Parses(x, [])
    ensures var b := Block(0, |x|, 0);
      && Enter(x, b, 0, []) == Scan(5, 0, 0, seq(DICT_SIZE, _ => 0), [])
      && ParseOf(x, wide) == ScanBlock(x, b, wide, Enter(x, b, 0, [])).insts
  {
    hide Parses, Enter, ScanBlock, ScanOk, Body, NextBlock;
    EmptyParse(x);
    var b := Block(0, |x|, 0);
    EnterAt(x, b, 0, []);
    var s := ScanBlock(x, b, wide, Enter(x, b, 0, []));
    ScanEnds(x, b, wide, s);
    AllParsed(x, b.end, b.end - (s.ii - s.ti), s.insts, wide);
  }

  /** Four bytes, then one byte over and over. */
  function RunInput(p: seq<byte>, n: nat, v: byte): (x: seq<byte>)
    requires |p| == 4
    ensures |x| == n + 4
  {
    p + seq(n, _ => v)
  }

  /** Positions in the run look alike, and so does the start if it has the same bytes. */
  lemma RunLooksAlike(p: seq<byte>, n: nat, v: byte, pos: nat, ip: nat, len: nat)
    requires |p| == 4 && (pos >= 4 || p == [v, v, v, v]) && pos < ip && 4 <= ip && ip + len <= n + 4
    ensures var x := RunInput(p, n, v); x[pos..pos + len] == x[ip..ip + len]
  {
    var x := RunInput(p, n, v);
    assert forall i | 0 <= i < n + 4 && (i >= 4 || p == [v, v, v, v]) :: x[i] == v;
  }

  lemma RunTaken(p: seq<byte>, n: nat, v: byte, b: Block, wide: bool, s: Scan)
    requires |p| == 4 && 28 <= n && b == Block(0, n + 4, 0)
    requires var x := RunInput(p, n, v);
      ScanOk(x, b, s) && s.ip == 6 && s.ii == s.ti == 0 && s.insts == [] && s.dict[SlotAt(x, 5)] == 5
    ensures var r := Advance(RunInput(p, n, v), b, wide, s);
      r.insts == [Inst(0, 6, r.ip, 1)] && b.end - 20 <= r.ip < b.end
  {
    hide ScanOk, Advance, SlotAt;
    var x := RunInput(p, n, v);
    RunLooksAlike(p, n, v, 5, 6, 4);
    SameSlot(x, 5, 6);
    RoundTakes(x, b, wide, s);
    var r := Advance(x, b, wide, s);
    RunLooksAlike(p, n, v, r.ip - 1, r.ip, 1);
    assert x[r.ip - 1..r.ip][0] == x[r.ip..r.ip + 1][0];
  }

  /** At the fifth position nothing is known but the start, at the sixth the fifth is. */
  lemma RunIsFound(p: seq<byte>, n: nat, v: byte, wide: bool)
    requires |p| == 4 && 28 <= n <= 49148
    ensures var x, b := RunInput(p, n, v), Block(0, n + 4, 0);
      && Parses(x, [])
      && var s := Enter(x, b, 0, []);
         var at := if p == [v, v, v, v] then 5 else 6;
         var r := Rounds(x, b, wide, s, at - 4);
         && r.insts == [Inst(0, at, r.ip, if at == 5 then 5 else 1)]
         && b.end - 20 <= r.ip < b.end
  {
    hide Enter, ScanOk, Advance, SlotAt;
    var x, b := RunInput(p, n, v), Block(0, n + 4, 0);
    OneBlockParse(x, wide);
    var s := Enter(x, b, 0, []);
    assert Rounds(x, b, wide, s, 0) == s;
    assert Rounds(x, b, wide, s, 1) == Advance(x, b, wide, s);
    var h := SlotAt(x, 5);
    assert s.dict[h] == 0;
    if p == [v, v, v, v] {
      RunLooksAlike(p, n, v, 0, 5, 4);
      RoundTakes(x, b, wide, s);
      var r := Advance(x, b, wide, s);
      RunLooksAlike(p, n, v, r.ip - 5, r.ip, 1);
      assert x[r.ip - 5..r.ip - 4][0] == x[r.ip..r.ip + 1][0];
    } else {
      assert x[0..4] == p && x[5..9] == [v, v, v, v];
      RoundSkips(x, b, wide, s, 0);
      RoundRemembers(x, b, wide, s, h);
      RunTaken(p, n, v, b, wide, Advance(x, b, wide, s));
    }
  }

  lemma MatchSize(len: nat, off: nat)
    requires len >= 4 && 1 <= off <= M3_MAX_OFFSET
    ensures |MatchBytes(len, off)| <= 4 + len / 255
  {
  }

  lemma OneMatchBody(x: seq<byte>, i: Inst)
    requires Parses(x, [i]) && i.from == 0 && i.at <= 6 && i.off <= 5 && i.to <= |x|
    ensures |Body(x, [i])| <= 11 + |x| / 255
  {
    hide Parses, PutLits, MatchBytes, Body;
    EmptyParse(x);
    C.BodyUnfolds(x, [i]);
    assert [i][..0] == [];
    C.PutLitsSize([], x[0..i.at]);
    MatchSize(i.to - i.at, i.off);
  }

  lemma OneMatchSize(x: seq<byte>, i: Inst)
    requires Parses(x, [i]) && i.from == 0 && i.at <= 6 && i.off <= 5 && |x| - 20 <= i.to <= |x|
    ensures |Stream(x, [i])| <= 36 + |x| / 255
  {
    hide Parses, PutLits, Body;
    OneMatchBody(x, i);
    C.BodyTag(x, [i]);
    C.PutLitsSize(Body(x, [i]), x[i.to..]);
  }

  /**
   * A run compresses to its first bytes, one match and at most twenty literals: the search finds
   * the byte before, and the match reaches the end of the search.
   */
  lemma RunIsCompressed(p: seq<byte>, n: nat, v: byte, wide: bool)
    requires |p| == 4 && 28 <= n <= 49148
    ensures |Compressed(RunInput(p, n, v), wide)| <= 36 + (n + 4) / 255
  {
    hide Parses, ScanOk, ScanBlock, Enter, Rounds, Stream, RunInput;
    var x, b := RunInput(p, n, v), Block(0, n + 4, 0);
    OneBlockParse(x, wide);
    RunIsFound(p, n, v, wide);
    var s, at := Enter(x, b, 0, []), if p == [v, v, v, v] then 5 else 6;
    var r := Rounds(x, b, wide, s, at - 4);
    RoundsEnd(x, b, wide, s, at - 4);
    ScanEnds(x, b, wide, r);
    OneMatchSize(x, Inst(0, at, r.ip, if at == 5 then 5 else 1));
  }
}
