/** lzo1x_1_compress: the match finder, the block compressor and the driver over 49152-byte blocks. */
module LzoCompress {
  import opened Bytes
  import opened LzoFormat
  import opened LzoParse
  import opened LzoWords

  /** The documented size of the output buffer, for n bytes of input. */
  function Room(n: nat): nat {
    n + n / 16 + 64 + 3
  }

  // ----- Growing a parse

  lemma Append(insts: seq<Inst>, i: Inst)
    ensures var p := insts + [i]; |p| - 1 == |insts| && p[..|insts|] == insts && p[|insts|] == i
  {
  }

  /** The last instruction adds its literals and its match to what was written before it. */
  lemma BodyUnfolds(x: seq<byte>, p: seq<Inst>)
    requires Parses(x, p) && p != []
    ensures var n := |p| - 1; var i := p[n];
      && Parses(x, p[..n]) && GoodInst(x, i) && i.from == End(p[..n])
      && (1 <= i.at - i.from <= 3 ==> Body(x, p[..n]) != [])
      && Body(x, p) == PutLits(Body(x, p[..n]), x[i.from..i.at]) + MatchBytes(i.to - i.at, i.off)
  {
    ParsesPrefix(x, p, |p| - 1);
    ParsesInside(x, p, |p| - 1);
    hide Parses, PutLits, MatchBytes;
  }

  lemma BodyTag(x: seq<byte>, insts: seq<Inst>)
    requires Parses(x, insts)
    ensures var b := Body(x, insts); b != [] ==> |b| >= 2 && b[|b| - 2] % 4 == 0
  {
  }

  lemma LitHeaderSize(n: nat)
    requires n >= 4
    ensures |LitHeader(n)| <= 1 + n / 16
  {
  }

  lemma ShortHeader(n: nat)
    requires 4 <= n <= 18
    ensures LitHeader(n) == [n - 3]
  {
  }

  lemma PutLitsSize(b: seq<byte>, lits: seq<byte>)
    requires 1 <= |lits| <= 3 ==> |b| >= 2 && b[|b| - 2] % 4 == 0
    ensures |PutLits(b, lits)| <= |b| + |lits| + 1 + |lits| / 16
  {
    if |lits| >= 4 { LitHeaderSize(|lits|); }
  }

  /** Each match saves the byte that the header of the literals before it may cost. */
  lemma {:induction false} BodySize(x: seq<byte>, insts: seq<Inst>)
    requires Parses(x, insts)
    ensures End(insts) <= |x|
    ensures |Body(x, insts)| <= End(insts) + End(insts) / 16
  {
    hide Body, Parses, PutLits, MatchBytes;
    if insts == [] {
      EmptyParse(x);
    } else {
      var n := |insts| - 1;
      var i := insts[n];
      BodyUnfolds(x, insts);
      BodySize(x, insts[..n]);
      PutLitsSize(Body(x, insts[..n]), x[i.from..i.at]);
    }
  }

  lemma NoTail(b: seq<byte>)
    requires b != [] ==> |b| >= 2 && b[|b| - 2] % 4 == 0
    ensures PutTail(b, []) == b
  {
  }

  /** The documented bound, with room to spare. */
  lemma StreamSize(x: seq<byte>, insts: seq<Inst>)
    requires Parses(x, insts)
    ensures |Stream(x, insts)| <= |x| + |x| / 16 + 4 <= Room(|x|)
  {
    hide Parses, Body, PutLits, LitHeader;
    BodySize(x, insts);
    var b, tail := Body(x, insts), x[End(insts)..];
    BodyTag(x, insts);
    if b != [] || |tail| > 3 { PutLitsSize(b, tail); }
    if tail == [] { NoTail(b); }
  }

  // ----- Match length

  /** The match length, found a word at a time. */
  method MatchLength(inp: array<byte>, ip: nat, pos: nat, ipEnd: nat, wide: bool) returns (len: nat)
    requires pos < ip < ipEnd && ipEnd + 20 <= inp.Length
    ensures len == ExtendMatch(inp[..], pos, ip, 4, ipEnd, wide)
  {
    hide WordDifference, TrailingZeros;
    ghost var x := inp[..];
    var w := WordSize(wide);
    len := 4;
    var v := WordDifference(inp[..], pos + len, ip + len, w);
    while v == 0
      invariant len >= 4 && ip + len < ipEnd + 4
      invariant v == WordDifference(x, pos + len, ip + len, w)
      invariant ExtendMatch(x, pos, ip, 4, ipEnd, wide) == ExtendMatch(x, pos, ip, len, ipEnd, wide)
      decreases ipEnd + 4 - ip - len
    {
      len := len + w;
      v := WordDifference(inp[..], pos + len, ip + len, w);
      if ip + len >= ipEnd { return; }
    }
    len := len + TrailingZeros(v) / 8;
  }

  // ----- Writing

  method EmitZeroRun(out: array<byte>, op0: nat, n0: nat) returns (op: nat)
    requires n0 >= 1 && op0 + |ZeroRun(n0)| <= out.Length
    modifies out
    ensures op == op0 + |ZeroRun(n0)|
    ensures out[..op] == old(out[..op0]) + ZeroRun(n0)
  {
    op := op0;
    var n := n0;
    while n > 255
      invariant n >= 1 && op0 <= op && op + |ZeroRun(n)| == op0 + |ZeroRun(n0)|
      invariant out[..op] + ZeroRun(n) == old(out[..op0]) + ZeroRun(n0)
    {
      n := n - 255;
      out[op] := 0;
      op := op + 1;
    }
    out[op] := n;
    op := op + 1;
  }

  method EmitOffset(out: array<byte>, op0: nat, o: nat) returns (op: nat)
    requires op0 + 2 <= out.Length
    modifies out
    ensures op == op0 + 2 && out[..op] == old(out[..op0]) + OffsetBytes(o)
  {
    out[op0] := o * 4 % 256;
    out[op0 + 1] := o / 64 % 256;
    op := op0 + 2;
  }

  method EmitM3Head(out: array<byte>, op0: nat, len: nat) returns (op: nat)
    requires len >= 4 && op0 + |M3Head(len)| <= out.Length
    modifies out
    ensures op == op0 + |M3Head(len)| && out[..op] == old(out[..op0]) + M3Head(len)
  {
    hide ZeroRun;
    if len <= M3_MAX_LEN {
      out[op0] := M3_MARKER + (len - 2);
      op := op0 + 1;
    } else {
      out[op0] := M3_MARKER;
      op := EmitZeroRun(out, op0 + 1, len - M3_MAX_LEN);
    }
  }

  method EmitM4Head(out: array<byte>, op0: nat, len: nat, bit: nat) returns (op: nat)
    requires len >= 4 && bit < 2 && op0 + |M4Head(len, bit)| <= out.Length
    modifies out
    ensures op == op0 + |M4Head(len, bit)| && out[..op] == old(out[..op0]) + M4Head(len, bit)
  {
    hide ZeroRun;
    if len <= M4_MAX_LEN {
      out[op0] := M4_MARKER + bit * 8 + (len - 2);
      op := op0 + 1;
    } else {
      out[op0] := M4_MARKER + bit * 8;
      op := EmitZeroRun(out, op0 + 1, len - M4_MAX_LEN);
    }
  }

  method EmitMatch(out: array<byte>, op0: nat, len: nat, off: nat) returns (op: nat)
    requires len >= 4 && 1 <= off <= M4_MAX_OFFSET && op0 + |MatchBytes(len, off)| <= out.Length
    modifies out
    ensures op == op0 + |MatchBytes(len, off)|
    ensures out[..op] == old(out[..op0]) + MatchBytes(len, off)
  {
    hide M3Head, M4Head, OffsetBytes;
    if len <= M2_MAX_LEN && off <= M2_MAX_OFFSET {
      out[op0] := (len - 1) * 32 + (off - 1) % 8 * 4;
      out[op0 + 1] := (off - 1) / 8;
      op := op0 + 2;
    } else if off <= M3_MAX_OFFSET {
      op := EmitM3Head(out, op0, len);
      op := EmitOffset(out, op, off - 1);
    } else {
      op := EmitM4Head(out, op0, len, (off - 0x4000) / 0x4000 % 2);
      op := EmitOffset(out, op, off - 0x4000);
    }
  }

  method EmitLitHeader(out: array<byte>, op0: nat, t: nat) returns (op: nat)
    requires t >= 4 && op0 + |LitHeader(t)| <= out.Length
    modifies out
    ensures op == op0 + |LitHeader(t)|
    ensures out[..op] == old(out[..op0]) + LitHeader(t)
  {
    if t <= 18 {
      out[op0] := t - 3;
      op := op0 + 1;
    } else {
      out[op0] := 0;
      op := EmitZeroRun(out, op0 + 1, t - 18);
    }
  }

  /** Sixteen bytes by word stores, of which the caller may keep fewer. */
  method Copy16(inp: array<byte>, ii: nat, out: array<byte>, op: nat, wide: bool)
    requires inp != out && ii + 16 <= inp.Length && op + 16 <= out.Length
    modifies out
    ensures out[..op + 16] == old(out[..op]) + inp[ii..ii + 16]
  {
    if wide {
      Copy8(inp, ii, out, op);
      Copy8(inp, ii + 8, out, op + 8);
    } else {
      Copy4(inp, ii, out, op);
      Copy4(inp, ii + 4, out, op + 4);
      Copy4(inp, ii + 8, out, op + 8);
      Copy4(inp, ii + 12, out, op + 12);
    }
  }

  method EmitBytes(inp: array<byte>, ii: nat, t: nat, out: array<byte>, op: nat)
    requires inp != out && ii + t <= inp.Length && op + t <= out.Length
    modifies out
    ensures out[..op + t] == old(out[..op]) + inp[ii..ii + t]
  {
    var i := 0;
    while i < t
      invariant i <= t && out[..op + i] == old(out[..op]) + inp[ii..ii + i]
    {
      out[op + i] := inp[ii + i];
      i := i + 1;
    }
  }

  method EmitLongRun(inp: array<byte>, ii0: nat, t0: nat, out: array<byte>, op0: nat, wide: bool) returns (op: nat)
    requires inp != out && t0 >= 17 && ii0 + t0 <= inp.Length && op0 + |LitHeader(t0)| + t0 <= out.Length
    modifies out
    ensures op == op0 + |LitHeader(t0)| + t0
    ensures out[..op] == old(out[..op0]) + LitHeader(t0) + inp[ii0..ii0 + t0]
  {
    hide LitHeader;
    op := EmitLitHeader(out, op0, t0);
    ghost var head := out[..op];
    var ii, t := ii0, t0;
    while t >= 16
      invariant t <= t0 && ii + t == ii0 + t0 && op + t == op0 + |LitHeader(t0)| + t0
      invariant out[..op] == head + inp[ii0..ii]
      decreases t
    {
      Copy16(inp, ii, out, op, wide);
      assert inp[ii0..ii + 16] == inp[ii0..ii] + inp[ii..ii + 16];
      op, ii, t := op + 16, ii + 16, t - 16;
    }
    EmitBytes(inp, ii, t, out, op);
    assert inp[ii0..ii0 + t0] == inp[ii0..ii] + inp[ii..ii + t];
    op := op + t;
  }

  /** The back-patch: a count of literals goes into the tag of the match before them. */
  method OrCount(out: array<byte>, op: nat, t: nat)
    requires 1 <= t <= 3 && 2 <= op <= out.Length && out[op - 2] % 4 == 0
    modifies out
    ensures out[..op] == Patched(old(out[..op]), t) && out[op..] == old(out[op..])
  {
    OrIntoFreeLowBits(out[op - 2], t);
    out[op - 2] := BitOr(out[op - 2], t);
  }

  /** A store of four bytes, of which t are kept. */
  method EmitFewLits(inp: array<byte>, ii: nat, t: nat, out: array<byte>, op0: nat) returns (op: nat)
    requires inp != out && 1 <= t <= 3 && ii + 4 <= inp.Length
    requires 2 <= op0 && op0 + 4 <= out.Length && out[op0 - 2] % 4 == 0
    modifies out
    ensures op == op0 + t && out[..op] == Patched(old(out[..op0]), t) + inp[ii..ii + t]
  {
    OrCount(out, op0, t);
    Copy4(inp, ii, out, op0);
    op := op0 + t;
  }

  /** A store of sixteen bytes, of which t are kept. */
  method EmitSomeLits(inp: array<byte>, ii: nat, t: nat, out: array<byte>, op0: nat, wide: bool) returns (op: nat)
    requires inp != out && 4 <= t <= 16 && ii + 16 <= inp.Length && op0 + 17 <= out.Length
    modifies out
    ensures op == op0 + 1 + t && out[..op] == old(out[..op0]) + [t - 3] + inp[ii..ii + t]
  {
    out[op0] := t - 3;
    ghost var head := out[..op0 + 1];
    Copy16(inp, ii, out, op0 + 1, wide);
    op := op0 + 1 + t;
    assert out[..op] == out[..op0 + 17][..op];
  }

  /**
   * The literals before a match. Up to three are stored as a word of four and up to sixteen as
   * sixteen bytes, so the stores reach past what is kept.
   */
  method EmitLits(inp: array<byte>, ii: nat, t: nat, out: array<byte>, op0: nat, wide: bool) returns (op: nat)
    requires inp != out && ii + t <= inp.Length && ii + 16 <= inp.Length
    requires op0 + t + 1 + t / 16 + 16 <= out.Length
    requires 1 <= t <= 3 ==> op0 >= 2 && out[op0 - 2] % 4 == 0
    modifies out
    ensures op <= out.Length
    ensures out[..op] == PutLits(old(out[..op0]), inp[ii..ii + t])
  {
    hide LitHeader, Patched;
    if t == 0 { return op0; }
    if t <= 3 {
      op := EmitFewLits(inp, ii, t, out, op0);
    } else if t <= 16 {
      ShortHeader(t);
      op := EmitSomeLits(inp, ii, t, out, op0, wide);
    } else {
      LitHeaderSize(t);
      op := EmitLongRun(inp, ii, t, out, op0, wide);
    }
  }

  // ----- Blocks

  /** The output so far is the encoding of a parse of the input so far. */
  ghost predicate Wrote(x: seq<byte>, insts: seq<Inst>, out: array<byte>, op: nat)
    reads out
  {
    Parses(x, insts) && op <= out.Length && out[..op] == Body(x, insts)
  }

  lemma WroteParses(x: seq<byte>, insts: seq<Inst>, out: array<byte>, op: nat)
    requires Wrote(x, insts, out, op)
    ensures Parses(x, insts) && op <= out.Length && out[..op] == Body(x, insts)
  {
  }

  /** There is room for one more instruction, with its literals stored up to 16 bytes too wide. */
  lemma RoomForInst(x: seq<byte>, insts: seq<Inst>, i: Inst)
    requires Parses(x, insts) && GoodInst(x, i) && i.from == End(insts)
    requires 1 <= i.at - i.from <= 3 ==> Body(x, insts) != []
    ensures var t, b := i.at - i.from, Body(x, insts);
      && |b| + t + 1 + t / 16 + 16 <= Room(|x|)
      && |PutLits(b, x[i.from..i.at])| + |MatchBytes(i.to - i.at, i.off)| <= Room(|x|)
  {
    hide Parses, PutLits, MatchBytes, Body;
    BodySize(x, insts);
    PutLitsSize(Body(x, insts), x[i.from..i.at]);
  }

  lemma InstInside(x: seq<byte>, i: Inst)
    requires GoodInst(x, i)
    ensures i.from <= i.at && i.at + 4 <= i.to <= |x| && 1 <= i.off <= M4_MAX_OFFSET
  {
  }

  /** Literals x[from..at] and a match up to `to`, with every store inside the documented room. */
  method EmitInst(inp: array<byte>, ghost insts: seq<Inst>, i: Inst, out: array<byte>, op0: nat, wide: bool)
    returns (op: nat)
    requires inp != out && out.Length >= Room(inp.Length)
    requires Wrote(inp[..], insts, out, op0)
    requires GoodInst(inp[..], i) && i.from == End(insts) && i.from + 16 <= inp.Length
    requires insts == [] ==> i.at >= 4
    modifies out
    ensures Wrote(inp[..], insts + [i], out, op)
  {
    hide Parses, PutLits, MatchBytes, Body, Room, GoodInst;
    InstInside(inp[..], i);
    ghost var x := inp[..];
    ParsesGrows(x, insts, i);
    Append(insts, i);
    BodyUnfolds(x, insts + [i]);
    RoomForInst(x, insts, i);
    BodyTag(x, insts);
    assert out[..op0] == Body(x, insts);
    op := EmitLits(inp, i.from, i.at - i.from, out, op0, wide);
    op := EmitMatch(out, op, i.to - i.at, i.off);
  }

  /** The search state these cursors stand for. */
  ghost function ScanOf(ip: nat, ii: nat, ti: nat, dict: array<nat>, insts: seq<Inst>): Scan
    reads dict
  {
    Scan(ip, ii, ti, dict[..], insts)
  }

  /** One probe: the candidate is looked up and replaced by ip, and four bytes are compared. */
  method Probe(inp: array<byte>, ghost b: Block, ghost s: Scan, base: nat, ip: nat, dict: array<nat>)
    returns (found: bool, pos: nat)
    requires ScanOk(inp[..], b, s) && s.ip < b.end - 20
    requires s.ip == ip && b.base == base && s.dict == dict[..]
    modifies dict
    ensures pos == Candidate(inp[..], b, s) && dict[..] == Entered(inp[..], b, s)
    ensures found <==> Load(inp[..][ip..ip + 4]) == Load(inp[..][pos..pos + 4])
  {
    hide Load, DictIndex, Parses;
    ghost var x := inp[..];
    var dv := Load(inp[ip..ip + 4]);
    assert inp[ip..ip + 4] == x[ip..ip + 4];
    var dindex := DictIndex(dv);
    pos := base + dict[dindex];
    dict[dindex] := (ip - base) % 0x1_0000;
    found := dv == Load(inp[pos..pos + 4]);
    assert inp[pos..pos + 4] == x[pos..pos + 4];
  }

  lemma LastOfParse(x: seq<byte>, insts: seq<Inst>, i: Inst)
    requires Parses(x, insts + [i])
    ensures GoodInst(x, i) && (insts == [] ==> i.at >= 4)
  {
    assert (insts + [i])[|insts|] == i;
  }

  /** A match was found: its length is measured, and its literals and itself are written. */
  method TakeMatch(inp: array<byte>, ghost b: Block, ghost s: Scan, ip: nat, from: nat, pos: nat, ipEnd: nat,
                   out: array<byte>, op0: nat, wide: bool)
    returns (op: nat, mLen: nat)
    requires inp != out && out.Length >= Room(inp.Length)
    requires ScanOk(inp[..], b, s) && s.ip < b.end - 20 && s.ip == ip && s.ii - s.ti == from && ipEnd == b.end - 20
    requires pos == Candidate(inp[..], b, s) && Load(inp[..][ip..ip + 4]) == Load(inp[..][pos..pos + 4])
    requires Wrote(inp[..], s.insts, out, op0)
    modifies out
    ensures var r := Taken(inp[..], b, wide, s);
      ip + mLen == r.ip && Wrote(inp[..], r.insts, out, op)
  {
    hide Parses, Body, Load, Candidate, Entered, InBlock, ExtendMatch;
    ghost var x := inp[..];
    TakenKeeps(x, b, wide, s);
    mLen := MatchLength(inp, ip, pos, ipEnd, wide);
    var i := Inst(from, ip, ip + mLen, ip - pos);
    LastOfParse(x, s.insts, i);
    op := EmitInst(inp, s.insts, i, out, op0, wide);
    assert inp[..] == x;
  }

  /** One round of the search loop. */
  method SearchAt(inp: array<byte>, ghost b: Block, ghost s: Scan, base: nat, ip0: nat, ii0: nat, ti0: nat, ipEnd: nat,
                  dict: array<nat>, out: array<byte>, op0: nat, wide: bool)
    returns (op: nat, ip: nat, ii: nat, ti: nat)
    requires inp != out && out.Length >= Room(inp.Length)
    requires ScanOk(inp[..], b, s) && s.ip < b.end - 20 && b.base == base && b.end - 20 == ipEnd
    requires s == ScanOf(ip0, ii0, ti0, dict, s.insts) && Wrote(inp[..], s.insts, out, op0)
    modifies out, dict
    ensures var r := Advance(inp[..], b, wide, s);
      r == ScanOf(ip, ii, ti, dict, r.insts) && Wrote(inp[..], r.insts, out, op)
  {
    hide Parses, Load, Candidate, Entered, InBlock, ExtendMatch, Wrote, Before, Advance;
    ghost var x := inp[..];
    AdvanceIs(x, b, wide, s);
    op, ip, ii, ti := op0, ip0, ii0, ti0;
    var found, pos := Probe(inp, b, s, base, ip, dict);
    if !found {
      ip := ip + 1 + (ip - ii) / 32;
    } else {
      var mLen;
      op, mLen := TakeMatch(inp, b, s, ip, ii - ti, pos, ipEnd, out, op, wide);
      ti := 0;
      ip := ip + mLen;
      ii := ip;
    }
    assert inp[..] == x;
  }

  /**
   * do_compress: one block at base, with ti literals left over from the blocks before it. Returns
   * the literals left over behind the last match.
   */
  method CompressBlock(inp: array<byte>, base: nat, len: nat, out: array<byte>, op0: nat, ti0: nat,
                       dict: array<nat>, wide: bool, ghost insts0: seq<Inst>)
    returns (op: nat, rest: nat, ghost s: Scan)
    requires inp != out && out.Length >= Room(inp.Length)
    requires 20 < len <= BLOCK && base + len <= inp.Length && ti0 <= base
    requires dict[..] == seq(DICT_SIZE, _ => 0)
    requires Wrote(inp[..], insts0, out, op0) && End(insts0) == base - ti0
    modifies out, dict
    ensures var b := Block(base, base + len, |insts0|);
      s == ScanBlock(inp[..], b, wide, Enter(inp[..], b, ti0, insts0))
    ensures rest == base + len - (s.ii - s.ti) && Wrote(inp[..], s.insts, out, op)
  {
    hide Parses, Wrote, Advance, Enter, ScanOk, ScanBlock, Body;
    WroteParses(inp[..], insts0, out, op0);
    ghost var x, b := inp[..], Block(base, base + len, |insts0|);
    ghost var start := Enter(x, b, ti0, insts0);
    EnterAt(x, b, ti0, insts0);
    var ti: nat := ti0;
    op := op0;
    var ii: nat := base;
    var ip: nat := base + if ti < 4 then 4 - ti else 0;
    ip := ip + 1 + (ip - ii) / 32;
    s := start;
    while ip < base + len - 20
      invariant inp[..] == x && ScanOk(x, b, s) && s == ScanOf(ip, ii, ti, dict, s.insts)
      invariant ScanBlock(x, b, wide, s) == ScanBlock(x, b, wide, start)
      invariant Wrote(x, s.insts, out, op)
      decreases base + len - 20 - ip
    {
      ghost var next := Advance(x, b, wide, s);
      ScanUnfolds(x, b, wide, s);
      op, ip, ii, ti := SearchAt(inp, b, s, base, ip, ii, ti, base + len - 20, dict, out, op, wide);
      assert inp[..] == x;
      s := next;
    }
    ScanEnds(x, b, wide, s);
    rest := base + len - (ii - ti);
  }

  // ----- The driver

  /** What announces the literals behind the last match. */
  method EmitTailHead(out: array<byte>, op0: nat, t: nat) returns (op: nat)
    requires t >= 1 && op0 + 1 + t / 16 <= out.Length && op0 + 1 <= out.Length
    requires op0 > 0 ==> op0 >= 2 && out[op0 - 2] % 4 == 0
    modifies out
    ensures op <= op0 + 1 + t / 16
    ensures forall lits: seq<byte> | |lits| == t :: PutTail(old(out[..op0]), lits) == out[..op] + lits
  {
    hide LitHeader, Patched;
    op := op0;
    if op == 0 && t <= 238 {
      out[op] := 17 + t;
      op := op + 1;
    } else if t <= 3 {
      OrCount(out, op, t);
    } else {
      LitHeaderSize(t);
      op := EmitLitHeader(out, op, t);
    }
  }

  /** The literals behind the last match. */
  method EmitTail(inp: array<byte>, ii: nat, t: nat, out: array<byte>, op0: nat) returns (op: nat)
    requires inp != out && t >= 1 && ii + t <= inp.Length && op0 + t + 1 + t / 16 <= out.Length
    requires op0 > 0 ==> op0 >= 2 && out[op0 - 2] % 4 == 0
    modifies out
    ensures op <= op0 + t + 1 + t / 16
    ensures out[..op] == PutTail(old(out[..op0]), inp[ii..ii + t])
  {
    hide PutTail;
    op := EmitTailHead(out, op0, t);
    EmitBytes(inp, ii, t, out, op);
    op := op + t;
  }

  /** What follows the blocks: the t literals left over and the end marker. */
  method EmitEnd(inp: array<byte>, t: nat, out: array<byte>, op0: nat, ghost insts: seq<Inst>) returns (outLen: nat)
    requires inp != out && t <= inp.Length && op0 + t + t / 16 + 4 <= out.Length
    requires Wrote(inp[..], insts, out, op0) && End(insts) == inp.Length - t
    modifies out
    ensures outLen <= op0 + t + t / 16 + 4
    ensures out[..outLen] == Stream(inp[..], insts)
  {
    hide Parses, Body, PutLits;
    ghost var x := inp[..];
    var op := op0;
    BodyTag(x, insts);
    if t > 0 {
      assert op > 0 ==> out[..op] != [];
      ghost var tail := x[End(insts)..];
      op := EmitTail(inp, inp.Length - t, t, out, op);
      assert inp[inp.Length - t..inp.Length - t + t] == tail;
      assert out[..op] == PutTail(Body(x, insts), tail);
    } else {
      NoTail(Body(x, insts));
      assert x[End(insts)..] == [];
    }
    assert out[..op] == PutTail(Body(x, insts), x[End(insts)..]);
    out[op], out[op + 1], out[op + 2] := M4_MARKER + 1, 0, 0;
    outLen := op + 3;
    assert out[..outLen] == out[..op] + EOF_MARK;
  }

  method ClearDict(dict: array<nat>)
    requires dict.Length == DICT_SIZE
    modifies dict
    ensures dict[..] == seq(DICT_SIZE, _ => 0)
  {
    forall k | 0 <= k < dict.Length { dict[k] := 0; }
  }

  /**
   * lzo1x_1_compress. dict is the work memory, cleared before each block, so that neither what it
   * held nor what the output buffer held matters. The result is no longer than documented.
   */
  method Compress(inp: array<byte>, out: array<byte>, dict: array<nat>, wide: bool) returns (outLen: nat)
    requires inp != out && out.Length >= inp.Length + inp.Length / 16 + 64 + 3 && dict.Length == DICT_SIZE
    modifies out, dict
    ensures outLen <= inp.Length + inp.Length / 16 + 64 + 3
    ensures out[..outLen] == Compressed(inp[..], wide)
  {
    hide Parses, Body, ScanBlock, Enter, ScanOk, ParseFrom, NextBlock, Stream;
    ghost var x := inp[..];
    ghost var insts: seq<Inst> := [];
    EmptyParse(x);
    var ip: nat, op: nat, l: nat, t: nat := 0, 0, inp.Length, 0;
    while l > 20
      invariant ip + l == inp.Length && t <= ip && inp[..] == x
      invariant Wrote(x, insts, out, op) && End(insts) == ip - t
      invariant ParseFrom(x, ip, t, insts, wide) == ParseOf(x, wide)
      decreases l
    {
      ParseUnfolds(x, ip, t, insts, wide);
      var ll := if l < BLOCK then l else BLOCK;
      if (t + ll) / 32 == 0 { break; }
      ClearDict(dict);
      assert inp[..] == x;
      ghost var s, b := *, Block(ip, ip + ll, |insts|);
      op, t, s := CompressBlock(inp, ip, ll, out, op, t, dict, wide, insts);
      assert inp[..] == x;
      ScanEnds(x, b, wide, s);
      insts := s.insts;
      ip, l := ip + ll, l - ll;
    }
    ParseUnfolds(x, ip, t, insts, wide);
    assert insts == ParseOf(x, wide);
    t := t + l;
    BodySize(x, insts);
    outLen := EmitEnd(inp, t, out, op, insts);
    assert inp[..] == x;
  }
}
