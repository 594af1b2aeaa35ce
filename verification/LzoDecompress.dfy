/**
 * lzo1x_decompress and lzo1x_decompress_safe. The source compiles one text twice; `checked` says
 * whether the overrun tests are in it, and `wide` whether the build copies by 8 bytes (AMD64)
 * as well as by 4 (i386). Both are held to the machine of LzoMachine.
 */
module LzoDecompress {
  import opened Bytes
  import LzoFormat
  import opened LzoMachine
  import opened LzoWords

  /** Copies n bytes of input: by words while a whole word is left, then byte by byte. */
  method CopyInput(inp: array<byte>, ip: nat, out: array<byte>, op: nat, n: nat, wide: bool, words: bool)
    requires inp != out && ip + n <= inp.Length && op + n <= out.Length
    modifies out
    ensures out[..op + n] == old(out[..op]) + inp[ip..ip + n]
    ensures out[op + n..] == old(out[op + n..])
  {
    var i := 0;
    while words && wide && n - i >= 8
      invariant i <= n
      invariant forall k | op <= k < op + i :: out[k] == inp[k - op + ip]
      invariant forall k | 0 <= k < out.Length && !(op <= k < op + i) :: out[k] == old(out[k])
    {
      Copy8(inp, ip + i, out, op + i);
      i := i + 8;
    }
    while words && n - i >= 4
      invariant i <= n
      invariant forall k | op <= k < op + i :: out[k] == inp[k - op + ip]
      invariant forall k | 0 <= k < out.Length && !(op <= k < op + i) :: out[k] == old(out[k])
    {
      Copy4(inp, ip + i, out, op + i);
      i := i + 4;
    }
    while i < n
      invariant i <= n
      invariant forall k | op <= k < op + i :: out[k] == inp[k - op + ip]
      invariant forall k | 0 <= k < out.Length && !(op <= k < op + i) :: out[k] == old(out[k])
    {
      out[op + i] := inp[ip + i];
      i := i + 1;
    }
  }

  /** The loops of CopyMatch below keep this: the bytes written so far repeat with period off. */
  twostate predicate Replayed(out: array<byte>, op: nat, i: nat, off: nat)
    requires 1 <= off <= op && op + i <= out.Length
    reads out
  {
    && (forall k | op <= k < op + i :: out[k] == out[k - off])
    && (forall k | 0 <= k < out.Length && !(op <= k < op + i) :: out[k] == old(out[k]))
  }

  lemma RepeatsByByte(s: seq<byte>, from: nat, off: nat)
    requires off <= from <= |s| && forall k | from <= k < |s| :: s[k] == s[k - off]
    ensures RepeatsFrom(s, from, off)
  {
    assert forall k | 0 <= k < |s| - from :: s[from..][k] == s[from - off..|s| - off][k];
  }

  /** The word loops: eight bytes at a time where the build has them, then four. */
  method CopyWords(out: array<byte>, op: nat, off: nat, n: nat, wide: bool) returns (i: nat)
    requires 1 <= off <= op && op + n <= out.Length
    modifies out
    ensures i <= n && Replayed(out, op, i, off)
  {
    i := 0;
    while wide && off >= 8 && n - i >= 8
      invariant i <= n && Replayed(out, op, i, off)
    {
      Copy8(out, op + i - off, out, op + i);
      i := i + 8;
    }
    while (if wide then off >= 8 else n >= 8 && off >= 4) && n - i >= 4
      invariant i <= n && Replayed(out, op, i, off)
    {
      Copy4(out, op + i - off, out, op + i);
      i := i + 4;
    }
  }

  /**
   * Copies n bytes from `off` back. Words may be used only when the distance is at least a word;
   * then they too give the byte-by-byte overlapping copy.
   */
  method CopyMatch(out: array<byte>, op: nat, off: nat, n: nat, wide: bool, words: bool)
    requires 1 <= off <= op && op + n <= out.Length
    modifies out
    ensures out[..op + n] == CopyBack(old(out[..op]), off, n)
    ensures out[op + n..] == old(out[op + n..])
  {
    hide CopyBack, RepeatsFrom;
    var i := 0;
    if words { i := CopyWords(out, op, off, n, wide); }
    while i < n
      invariant i <= n && Replayed(out, op, i, off)
    {
      out[op + i] := out[op + i - off];
      i := i + 1;
    }
    ghost var before := old(out[..op]);
    assert out[..op + n][..op] == before;
    RepeatsByByte(out[..op + n], op, off);
    CopyBackRepeats(before, off, out[..op + n]);
  }

  // ----- From label to label

  /** The machine state that stands at a label with these cursors. */
  ghost function At(pc: Pc, ip: nat, out: array<byte>, op: nat): State
    requires op <= out.Length
    reads out
  {
    State(pc, ip, out[..op])
  }

  /** What the caller hands over: readable input, room for cap bytes, separate buffers. */
  ghost predicate Buffers(d: Job, inp: array<byte>, out: array<byte>)
    reads inp
  {
    d.Readable() && d.inp == inp[..] && d.cap <= out.Length && inp != out
  }

  /** The unchecked decoder may only run where the checked one would not stop with an error. */
  predicate Sound(checked: bool, r: State) {
    !checked && r.pc.Halt? ==> r.pc == Halt(Ok)
  }

  method ReadCount(ghost d: Job, inp: array<byte>, ipEnd: nat, ip0: nat, t0: nat, checked: bool) returns (r: Run)
    requires d.inp == inp[..] && d.ipEnd == ipEnd && ip0 <= ipEnd <= inp.Length
    requires !checked ==> ReadRun(d, ip0, t0).Run?
    ensures r == ReadRun(d, ip0, t0)
  {
    var ip, t := ip0, t0;
    if checked && InputShort(ip, ipEnd, 1) { return Overrun; }
    while inp[ip] == 0
      invariant ip < ipEnd && ReadRun(d, ip, t) == ReadRun(d, ip0, t0)
      decreases ipEnd - ip
    {
      t, ip := t + 255, ip + 1;
      if checked && InputShort(ip, ipEnd, 1) { return Overrun; }
    }
    r := Run(t + inp[ip], ip + 1);
  }

  method AtTop(ghost d: Job, inp: array<byte>, ipEnd: nat, ip: nat,
               out: array<byte>, cap: nat, op: nat, checked: bool, wide: bool)
    returns (pc: Pc, ip': nat, op': nat)
    requires Buffers(d, inp, out) && d.ipEnd == ipEnd && d.cap == cap && op <= cap
    requires Valid(d, At(Top, ip, out, op)) && Sound(checked, StepTop(d, At(Top, ip, out, op)))
    modifies out
    ensures op <= op' <= cap && At(pc, ip', out, op') == old(StepTop(d, At(Top, ip, out, op)))
    ensures out[op'..] == old(out[op'..])
  {
    hide ReadRun;
    if checked && ip >= ipEnd { return Halt(EofNotFound), ip, op; }
    var t: byte := inp[ip];
    if t >= 16 { return AtMatch(t), ip + 1, op; }
    var run := Run(t, ip + 1);
    if t == 0 {
      run := ReadCount(d, inp, ipEnd, ip + 1, 15, checked);
      if run.Overrun? { return Halt(InputOverrun), ip, op; }
    }
    var n := run.n + 3;
    if checked && cap - op < n { return Halt(OutputOverrun), ip, op; }
    if checked && InputShort(run.ip, ipEnd, n + 1) { return Halt(InputOverrun), ip, op; }
    CopyInput(inp, run.ip, out, op, n, wide, true);
    return FirstRun, run.ip + n, op + n;
  }

  /** TEST_LB, NEED_OP and the copy at copy_match, then match_done. */
  method CopyOrStop(ghost d: Job, inp: array<byte>, ghost s: State, ip: nat, ip': nat, off: nat, n: nat,
                    out: array<byte>, cap: nat, op: nat, checked: bool, wide: bool, words: bool)
    returns (pc: Pc, ip'': nat, op': nat)
    requires Buffers(d, inp, out) && d.cap == cap && op <= cap
    requires s == At(s.pc, ip, out, op) && Valid(d, s)
    requires off >= 1 && ip < ip' <= d.ipEnd + 2 && ip' >= 2
    requires Sound(checked, Copy(d, s, ip', off, n))
    modifies out
    ensures op <= op' <= cap && At(pc, ip'', out, op') == Copy(d, s, ip', off, n)
    ensures out[op'..] == old(out[op'..])
  {
    if checked && off > op { return Halt(LookbehindOverrun), ip, op; }
    if checked && cap - op < n { return Halt(OutputOverrun), ip, op; }
    CopyMatch(out, op, off, n, wide, words);
    var t := inp[ip' - 2] % 4;
    return if t == 0 then Top else MatchNext(t), ip', op + n;
  }

  method AtFirstRun(ghost d: Job, inp: array<byte>, ip: nat,
                    out: array<byte>, cap: nat, op: nat, checked: bool, wide: bool)
    returns (pc: Pc, ip': nat, op': nat)
    requires Buffers(d, inp, out) && d.cap == cap && op <= cap
    requires Valid(d, At(FirstRun, ip, out, op)) && Sound(checked, StepFirstRun(d, At(FirstRun, ip, out, op)))
    modifies out
    ensures op <= op' <= cap && At(pc, ip', out, op') == old(StepFirstRun(d, At(FirstRun, ip, out, op)))
    ensures out[op'..] == old(out[op'..])
  {
    var t: byte := inp[ip];
    if t >= 16 { return AtMatch(t), ip + 1, op; }
    var off := 1 + LzoFormat.M2_MAX_OFFSET + t as int / 4 + inp[ip + 1] as int * 4;
    pc, ip', op' := CopyOrStop(d, inp, At(FirstRun, ip, out, op), ip, ip + 2, off, 3, out, cap, op, checked, wide, false);
  }

  /** The operand bytes of the four formats. */
  method ReadOperand(ghost d: Job, inp: array<byte>, ipEnd: nat, t: byte, ip: nat, checked: bool) returns (r: Operand)
    requires d.Readable() && d.inp == inp[..] && d.ipEnd == ipEnd && ip <= ipEnd
    requires !checked ==> !MatchOperand(d, t, ip).Short?
    ensures r == MatchOperand(d, t, ip)
  {
    if t >= 64 {
      return Match(ip + 1, 1 + t as int / 4 % 8 + inp[ip] as int * 8, t as int / 32 - 1 + 2);
    } else if t < 16 {
      return Match(ip + 1, 1 + t as int / 4 + inp[ip] as int * 4, 2);
    }
    var bits, base := if t >= 32 then t % 32 else t % 8, if t >= 32 then 31 else 7;
    var run := Run(bits, ip);
    if bits == 0 {
      run := ReadCount(d, inp, ipEnd, ip, base, checked);
      if run.Overrun? { return Short; }
    }
    var word := (inp[run.ip] + 256 * inp[run.ip + 1] as int) / 4;
    if t >= 32 { return Match(run.ip + 2, 1 + word, run.n + 2); }
    var off := t as int / 8 % 2 * 0x4000 + word;
    return if off == 0 then EndMark(run.ip + 2) else Match(run.ip + 2, off + 0x4000, run.n + 2);
  }

  method AtMatchLabel(ghost d: Job, inp: array<byte>, ipEnd: nat, t: byte, ip: nat,
                      out: array<byte>, cap: nat, op: nat, checked: bool, wide: bool)
    returns (pc: Pc, ip': nat, op': nat)
    requires Buffers(d, inp, out) && d.ipEnd == ipEnd && d.cap == cap && op <= cap
    requires Valid(d, At(AtMatch(t), ip, out, op)) && Sound(checked, StepMatch(d, At(AtMatch(t), ip, out, op)))
    modifies out
    ensures op <= op' <= cap && At(pc, ip', out, op') == old(StepMatch(d, At(AtMatch(t), ip, out, op)))
    ensures out[op'..] == old(out[op'..])
  {
    var o := ReadOperand(d, inp, ipEnd, t, ip, checked);
    match o
    case Short => return Halt(InputOverrun), ip, op;
    case EndMark(e) =>
      return Halt(if e == ipEnd then Ok else if e < ipEnd then InputNotConsumed else InputOverrun), e, op;
    case Match(e, off, n) =>
      pc, ip', op' := CopyOrStop(d, inp, At(AtMatch(t), ip, out, op), ip, e, off, n,
                                 out, cap, op, checked, wide, 16 <= t < 64);
  }

  method AtMatchNext(ghost d: Job, inp: array<byte>, ipEnd: nat, n: nat, ip: nat,
                     out: array<byte>, cap: nat, op: nat, checked: bool)
    returns (pc: Pc, ip': nat, op': nat)
    requires Buffers(d, inp, out) && d.ipEnd == ipEnd && d.cap == cap && op <= cap
    requires Valid(d, At(MatchNext(n), ip, out, op)) && Sound(checked, StepMatchNext(d, At(MatchNext(n), ip, out, op)))
    modifies out
    ensures op <= op' <= cap && At(pc, ip', out, op') == old(StepMatchNext(d, At(MatchNext(n), ip, out, op)))
    ensures out[op'..] == old(out[op'..])
  {
    if checked && cap - op < n { return Halt(OutputOverrun), ip, op; }
    if checked && InputShort(ip, ipEnd, n + 1) { return Halt(InputOverrun), ip, op; }
    CopyInput(inp, ip, out, op, n, false, false);
    var e := ip + n + 1;
    if checked && e >= ipEnd { return Halt(EofNotFound), e, op + n; }
    return AtMatch(inp[ip + n]), e, op + n;
  }

  /** The initial literal run, when the first byte announces one. */
  method AtStart(ghost d: Job, inp: array<byte>, ipEnd: nat, out: array<byte>, cap: nat, checked: bool)
    returns (pc: Pc, ip: nat, op: nat)
    requires Buffers(d, inp, out) && d.ipEnd == ipEnd && d.cap == cap
    requires Sound(checked, Start(d))
    modifies out
    ensures op <= cap && At(pc, ip, out, op) == Start(d)
    ensures out[op..] == old(out[op..])
  {
    var first: int := inp[0];
    if first <= 17 { return Top, 0, 0; }
    var n := first - 17;
    if n < 4 { return MatchNext(n), 1, 0; }
    if checked && cap < n { return Halt(OutputOverrun), 1, 0; }
    if checked && InputShort(1, ipEnd, n + 1) { return Halt(InputOverrun), 1, 0; }
    CopyInput(inp, 1, out, 0, n, false, false);
    return FirstRun, n + 1, n;
  }

  lemma SuccessIsSound(d: Job, s: State, checked: bool)
    requires Valid(d, s) && (!checked ==> Finish(d, s).pc == Halt(Ok))
    ensures Sound(checked, s)
    ensures !s.pc.Halt? ==> Sound(checked, Step(d, s))
  {
  }

  lemma SuffixStays(a: seq<byte>, b: seq<byte>, i: nat, j: nat)
    requires |a| == |b| && i <= j <= |a| && a[i..] == b[i..]
    ensures a[j..] == b[j..]
  {
    assert a[j..] == a[i..][j - i..] && b[j..] == b[i..][j - i..];
  }

  /** Both decoders: the result is the machine's, and nothing behind the reported bytes is written. */
  method Decompress(inp: array<byte>, inLen: nat, out: array<byte>, cap: nat, checked: bool, wide: bool)
    returns (code: Code, outLen: nat)
    requires inp != out && cap <= out.Length
    requires 1 <= inLen && inLen + SLACK <= inp.Length
    requires !checked ==> Decode(Job(inp[..], inLen, cap)).pc == Halt(Ok)
    modifies out
    ensures var r := Decode(Job(inp[..], inLen, cap));
      r.pc == Halt(code) && outLen <= cap && out[..outLen] == r.out
    ensures out[outLen..] == old(out[outLen..])
  {
    hide StepTop, StepFirstRun, StepMatch, StepMatchNext, Start, Sound;
    ghost var d, orig := Job(inp[..], inLen, cap), out[..];
    SuccessIsSound(d, Start(d), checked);
    var pc: Pc, ip: nat, op: nat := AtStart(d, inp, inLen, out, cap, checked);
    while !pc.Halt?
      invariant op <= cap && inp[..] == d.inp
      invariant Valid(d, At(pc, ip, out, op)) && Finish(d, At(pc, ip, out, op)) == Decode(d)
      invariant out[..][op..] == orig[op..]
      decreases if pc.Halt? then 0 else inLen + SLACK + 1 - ip
    {
      ghost var s, op0, before := At(pc, ip, out, op), op, out[..];
      SuccessIsSound(d, s, checked);
      match pc
      case Top => pc, ip, op := AtTop(d, inp, inLen, ip, out, cap, op, checked, wide);
      case FirstRun => pc, ip, op := AtFirstRun(d, inp, ip, out, cap, op, checked, wide);
      case AtMatch(t) => pc, ip, op := AtMatchLabel(d, inp, inLen, t, ip, out, cap, op, checked, wide);
      case MatchNext(n) => pc, ip, op := AtMatchNext(d, inp, inLen, n, ip, out, cap, op, checked);
      assert At(pc, ip, out, op) == Step(d, s);
      assert out[..][op..] == before[op..];
      SuffixStays(before, orig, op0, op);
    }
    return pc.code, op;
  }
}
