/**
 * The LZO1X decoder as a machine whose states are the goto labels of the decompressor. One step
 * runs from one label to the next, with every overrun test of the checked decoder.
 */
module LzoMachine {
  import opened Bytes
  import LzoFormat

  /** Bytes behind the input that a truncated stream makes the checked decoder read. */
  const SLACK := 6

  datatype Code =
    | Ok
    | InputOverrun
    | OutputOverrun
    | LookbehindOverrun
    | EofNotFound
    | InputNotConsumed

  /** Top: the outer loop test. FirstRun: after a literal run. AtMatch, MatchNext: those labels. */
  datatype Pc = Top | FirstRun | AtMatch(t: byte) | MatchNext(n: nat) | Halt(code: Code)

  datatype State = State(pc: Pc, ip: nat, out: seq<byte>)

  /** A call of the decoder: in_len = ipEnd bytes of inp to read, *out_len = cap bytes of room. */
  datatype Job = Job(inp: seq<byte>, ipEnd: nat, cap: nat) {
    predicate Readable() { 1 <= ipEnd && ipEnd + SLACK <= |inp| }
  }

  /** The stream s, with arbitrary memory behind it. */
  function On(s: seq<byte>, behind: seq<byte>, cap: nat): Job {
    Job(s + behind, |s|, cap)
  }

  /** NEED_IP: the subtraction is unsigned, so the test passes once ip has run past the end. */
  predicate InputShort(ip: nat, ipEnd: nat, n: nat) {
    ip <= ipEnd && ipEnd - ip < n
  }

  /** NEED_OP. */
  predicate OutputShort(out: seq<byte>, cap: nat, n: nat)
    requires |out| <= cap
  {
    cap - |out| < n
  }

  predicate Valid(d: Job, s: State) {
    && d.ipEnd + SLACK <= |d.inp|
    && |s.out| <= d.cap
    && match s.pc
       case Top => s.ip <= d.ipEnd + 2
       case FirstRun => s.ip < d.ipEnd
       case AtMatch(_) => 1 <= s.ip <= d.ipEnd
       case MatchNext(n) => 1 <= n <= 3 && s.ip <= d.ipEnd + 2
       case Halt(code) => s.ip <= d.ipEnd + SLACK && (code == Ok ==> s.ip == d.ipEnd)
  }

  datatype Run = Run(n: nat, ip: nat) | Overrun

  /** Zero bytes count 255 each and a non-zero byte closes the run. */
  function ReadRun(d: Job, ip: nat, t: nat): (r: Run)
    requires ip <= d.ipEnd <= |d.inp|
    ensures r.Run? ==> ip < r.ip <= d.ipEnd && r.n > t
    decreases d.ipEnd - ip
  {
    if InputShort(ip, d.ipEnd, 1) then Overrun
    else if d.inp[ip] == 0 then ReadRun(d, ip + 1, t + 255)
    else Run(t + d.inp[ip], ip + 1)
  }

  /** A byte-by-byte copy from `off` bytes back, which may overlap what it writes. */
  function CopyBack(out: seq<byte>, off: nat, n: nat): (r: seq<byte>)
    requires 1 <= off <= |out|
    ensures |r| == |out| + n
    ensures out <= r
    decreases n
  {
    if n == 0 then out else CopyBack(out + [out[|out| - off]], off, n - 1)
  }

  function Fail(s: State, code: Code): State {
    State(Halt(code), s.ip, s.out)
  }

  /** TEST_LB, NEED_OP and the copy, up to match_done and the trailing-literal count there. */
  function Copy(d: Job, s: State, ip: nat, off: nat, n: nat): (r: State)
    requires Valid(d, s)
    requires off >= 1 && s.ip < ip <= d.ipEnd + 2 && ip >= 2
    ensures Valid(d, r)
    ensures r.pc.Halt? || r.ip == ip
  {
    if off > |s.out| then Fail(s, LookbehindOverrun)
    else if OutputShort(s.out, d.cap, n) then Fail(s, OutputOverrun)
    else
      var t := d.inp[ip - 2] % 4;
      State(if t == 0 then Top else MatchNext(t), ip, CopyBack(s.out, off, n))
  }

  /** The literal run that first byte t < 16 announces; three more literals follow than n. */
  function LiteralRun(d: Job, ip: nat): (r: Run)
    requires ip < d.ipEnd <= |d.inp| && d.inp[ip] < 16
    ensures r.Run? ==> ip < r.ip <= d.ipEnd && r.n >= 1
  {
    if d.inp[ip] == 0 then ReadRun(d, ip + 1, 15) else Run(d.inp[ip], ip + 1)
  }

  function StepTop(d: Job, s: State): (r: State)
    requires Valid(d, s) && s.pc.Top?
    ensures Valid(d, r) && (r.pc.Halt? || r.ip > s.ip)
  {
    if s.ip >= d.ipEnd then Fail(s, EofNotFound)
    else if d.inp[s.ip] >= 16 then State(AtMatch(d.inp[s.ip]), s.ip + 1, s.out)
    else
      var run := LiteralRun(d, s.ip);
      if run.Overrun? then Fail(s, InputOverrun)
      else if OutputShort(s.out, d.cap, run.n + 3) then Fail(s, OutputOverrun)
      else if InputShort(run.ip, d.ipEnd, run.n + 4) then Fail(s, InputOverrun)
      else State(FirstRun, run.ip + run.n + 3, s.out + d.inp[run.ip..run.ip + run.n + 3])
  }

  function StepFirstRun(d: Job, s: State): (r: State)
    requires Valid(d, s) && s.pc.FirstRun?
    ensures Valid(d, r) && (r.pc.Halt? || r.ip > s.ip)
  {
    var t: int := d.inp[s.ip];
    if t >= 16 then State(AtMatch(t), s.ip + 1, s.out)
    else Copy(d, s, s.ip + 2, 1 + LzoFormat.M2_MAX_OFFSET + t / 4 + d.inp[s.ip + 1] as int * 4, 3)
  }

  /** The 14 offset bits of the two bytes at ip, read as one little-endian word. */
  function OffsetWord(inp: seq<byte>, ip: nat): (r: nat)
    requires ip + 2 <= |inp|
    ensures r < 0x4000
  {
    (inp[ip] + 256 * inp[ip + 1] as int) / 4
  }

  /** The match length field: its own low bits, or a run when they are all zero. */
  function MatchRun(d: Job, ip: nat, bits: nat, base: nat): (r: Run)
    requires ip <= d.ipEnd <= |d.inp|
    ensures r.Run? ==> ip <= r.ip <= d.ipEnd && r.n >= 1
  {
    if bits == 0 then ReadRun(d, ip, base) else Run(bits, ip)
  }

  /** What the operand bytes of a match say, and where they end. */
  datatype Operand = Match(ip: nat, off: nat, n: nat) | EndMark(ip: nat) | Short

  /** A first byte of 32..63. */
  function M3Operand(d: Job, t: nat, ip: nat): (r: Operand)
    requires ip <= d.ipEnd && d.ipEnd + SLACK <= |d.inp|
    ensures r.Match? ==> ip < r.ip <= d.ipEnd + 2 && r.off >= 1
  {
    var run := MatchRun(d, ip, t % 32, 31);
    if run.Overrun? then Short else Match(run.ip + 2, 1 + OffsetWord(d.inp, run.ip), run.n + 2)
  }

  /** A first byte of 16..31: a far match, or the end marker when the offset is zero. */
  function M4Operand(d: Job, t: nat, ip: nat): (r: Operand)
    requires ip <= d.ipEnd && d.ipEnd + SLACK <= |d.inp|
    ensures r.Match? ==> ip < r.ip <= d.ipEnd + 2 && r.off >= 1
    ensures r.EndMark? ==> ip < r.ip <= d.ipEnd + 2
  {
    var run := MatchRun(d, ip, t % 8, 7);
    if run.Overrun? then Short
    else
      var off := t / 8 % 2 * 0x4000 + OffsetWord(d.inp, run.ip);
      if off == 0 then EndMark(run.ip + 2) else Match(run.ip + 2, off + 0x4000, run.n + 2)
  }

  /** The four formats, told apart by the first byte t, which stands just before ip. */
  function MatchOperand(d: Job, t: nat, ip: nat): (r: Operand)
    requires ip <= d.ipEnd && d.ipEnd + SLACK <= |d.inp|
    ensures r.Match? ==> ip < r.ip <= d.ipEnd + 2 && r.off >= 1
    ensures r.EndMark? ==> ip < r.ip <= d.ipEnd + 2
  {
    if t >= 64 then Match(ip + 1, 1 + t / 4 % 8 + d.inp[ip] as int * 8, t / 32 - 1 + 2)
    else if t >= 32 then M3Operand(d, t, ip)
    else if t >= 16 then M4Operand(d, t, ip)
    else Match(ip + 1, 1 + t / 4 + d.inp[ip] as int * 4, 2)
  }

  function StepMatch(d: Job, s: State): (r: State)
    requires Valid(d, s) && s.pc.AtMatch?
    ensures Valid(d, r) && (r.pc.Halt? || r.ip > s.ip)
  {
    match MatchOperand(d, s.pc.t, s.ip)
    case Short => Fail(s, InputOverrun)
    case EndMark(ip) =>
      var code := if ip == d.ipEnd then Ok else if ip < d.ipEnd then InputNotConsumed else InputOverrun;
      State(Halt(code), ip, s.out)
    case Match(ip, off, n) => Copy(d, s, ip, off, n)
  }

  function StepMatchNext(d: Job, s: State): (r: State)
    requires Valid(d, s) && s.pc.MatchNext?
    ensures Valid(d, r) && (r.pc.Halt? || r.ip > s.ip)
  {
    var n := s.pc.n;
    if OutputShort(s.out, d.cap, n) then Fail(s, OutputOverrun)
    else if InputShort(s.ip, d.ipEnd, n + 1) then Fail(s, InputOverrun)
    else
      var out := s.out + d.inp[s.ip..s.ip + n];
      var ip := s.ip + n + 1;
      State(if ip < d.ipEnd then AtMatch(d.inp[s.ip + n]) else Halt(EofNotFound), ip, out)
  }

  function Step(d: Job, s: State): (r: State)
    requires Valid(d, s) && !s.pc.Halt?
    ensures Valid(d, r) && (r.pc.Halt? || r.ip > s.ip)
  {
    match s.pc
    case Top => StepTop(d, s)
    case FirstRun => StepFirstRun(d, s)
    case AtMatch(_) => StepMatch(d, s)
    case MatchNext(_) => StepMatchNext(d, s)
  }

  /** A first byte above 17 is an initial literal run. */
  function Start(d: Job): (r: State)
    requires d.Readable()
    ensures Valid(d, r)
  {
    var n := d.inp[0] as int - 17;
    if n <= 0 then State(Top, 0, [])
    else if n < 4 then State(MatchNext(n), 1, [])
    else if d.cap < n then State(Halt(OutputOverrun), 1, [])
    else if InputShort(1, d.ipEnd, n + 1) then State(Halt(InputOverrun), 1, [])
    else State(FirstRun, n + 1, d.inp[1..n + 1])
  }

  function Finish(d: Job, s: State): (r: State)
    requires Valid(d, s)
    ensures Valid(d, r) && r.pc.Halt?
    decreases if s.pc.Halt? then 0 else d.ipEnd + SLACK + 1 - s.ip
  {
    if s.pc.Halt? then s else Finish(d, Step(d, s))
  }

  /**
   * The result of lzo1x_decompress_safe on the first ipEnd bytes of inp with room for cap bytes
   * of output. What lies behind those ipEnd bytes is arbitrary.
   */
  function Decode(d: Job): (r: State)
    requires d.Readable()
    ensures r.pc.Halt? && |r.out| <= d.cap
  {
    Finish(d, Start(d))
  }

  // ----- Overlapping copies

  /** From `from` on, s repeats what stands off places before. */
  ghost predicate RepeatsFrom(s: seq<byte>, from: nat, off: nat)
    requires off <= from <= |s|
  {
    s[from..] == s[from - off..|s| - off]
  }

  lemma RepeatsOneMore(s: seq<byte>, from: nat, off: nat)
    requires off <= from < |s|
    ensures RepeatsFrom(s, from, off) <==> s[from] == s[from - off] && RepeatsFrom(s, from + 1, off)
  {
    var a, b := s[from..], s[from - off..|s| - off];
    assert a == [s[from]] + s[from + 1..];
    assert b == [s[from - off]] + s[from + 1 - off..|s| - off];
  }

  /** Repeating with period off is what the overlapping copy does, and nothing else is. */
  lemma {:induction false} CopyBackRepeats(out: seq<byte>, off: nat, s: seq<byte>)
    requires 1 <= off <= |out| && out <= s
    ensures s == CopyBack(out, off, |s| - |out|) <==> RepeatsFrom(s, |out|, off)
    decreases |s| - |out|
  {
    var n := |out|;
    if n == |s| {
      assert s[n..] == [] == s[n - off..n - off];
    } else {
      var next := out + [out[n - off]];
      RepeatsOneMore(s, n, off);
      if s[n] == s[n - off] {
        assert next == s[..n + 1];
        CopyBackRepeats(next, off, s);
      } else {
        assert CopyBack(next, off, |s| - n - 1)[n] == next[n];
      }
    }
  }

  // ----- Accepted streams are prefix-free

  /** d' reads the same bytes as d, and perhaps more behind them, with no less room for output. */
  ghost predicate Longer(d: Job, d': Job) {
    && d.ipEnd + SLACK <= |d.inp| && d'.ipEnd + SLACK <= |d'.inp|
    && d.ipEnd <= d'.ipEnd && d.cap <= d'.cap
    && forall i | 0 <= i < d.ipEnd :: d.inp[i] == d'.inp[i]
  }

  /** Success on the shorter input becomes unconsumed input on a longer one. */
  ghost predicate SameMove(r: State, r': State, ipEnd: nat, ipEnd': nat) {
    && (!r.pc.Halt? ==> r' == r)
    && (r.pc == Halt(Ok) ==>
          r' == State(Halt(if ipEnd == ipEnd' then Ok else InputNotConsumed), ipEnd, r.out))
  }

  lemma {:induction false} ReadRunExtends(d: Job, d': Job, ip: nat, t: nat)
    requires Longer(d, d') && ip <= d.ipEnd
    ensures var r := ReadRun(d, ip, t); r.Run? ==> ReadRun(d', ip, t) == r
    decreases d.ipEnd - ip
  {
    if ip < d.ipEnd && d.inp[ip] == 0 {
      ReadRunExtends(d, d', ip + 1, t + 255);
    }
  }

  lemma StepTopExtends(d: Job, d': Job, s: State)
    requires Valid(d, s) && s.pc.Top?
    requires Longer(d, d')
    requires StepTop(d, s).ip <= d.ipEnd
    ensures Valid(d', s)
    ensures SameMove(StepTop(d, s), StepTop(d', s), d.ipEnd, d'.ipEnd)
  {
    hide ReadRun;
    if s.ip < d.ipEnd && d.inp[s.ip] < 16 {
      ReadRunExtends(d, d', s.ip + 1, 15);
      var run := LiteralRun(d, s.ip);
      if run.Run? && run.ip + run.n + 3 <= d.ipEnd {
        assert d.inp[run.ip..run.ip + run.n + 3] == d'.inp[run.ip..run.ip + run.n + 3];
      }
    }
  }

  lemma CopyExtends(d: Job, d': Job, s: State, ip: nat, off: nat, n: nat)
    requires Valid(d, s) && Valid(d', s)
    requires Longer(d, d')
    requires off >= 1 && s.ip < ip <= d.ipEnd && ip >= 2
    ensures SameMove(Copy(d, s, ip, off, n), Copy(d', s, ip, off, n), d.ipEnd, d'.ipEnd)
  {
  }

  lemma M3OperandExtends(d: Job, d': Job, t: nat, ip: nat)
    requires Longer(d, d') && ip <= d.ipEnd
    ensures var o := M3Operand(d, t, ip); !o.Short? && o.ip <= d.ipEnd ==> M3Operand(d', t, ip) == o
  {
    hide ReadRun;
    ReadRunExtends(d, d', ip, 31);
  }

  lemma M4OperandExtends(d: Job, d': Job, t: nat, ip: nat)
    requires Longer(d, d') && ip <= d.ipEnd
    ensures var o := M4Operand(d, t, ip); !o.Short? && o.ip <= d.ipEnd ==> M4Operand(d', t, ip) == o
  {
    hide ReadRun;
    ReadRunExtends(d, d', ip, 7);
  }

  lemma MatchOperandExtends(d: Job, d': Job, t: nat, ip: nat)
    requires Longer(d, d') && ip <= d.ipEnd
    ensures var o := MatchOperand(d, t, ip); !o.Short? && o.ip <= d.ipEnd ==> MatchOperand(d', t, ip) == o
  {
    hide M3Operand, M4Operand;
    M3OperandExtends(d, d', t, ip);
    M4OperandExtends(d, d', t, ip);
  }

  lemma StepMatchExtends(d: Job, d': Job, s: State)
    requires Valid(d, s) && s.pc.AtMatch?
    requires Longer(d, d')
    requires StepMatch(d, s).ip <= d.ipEnd
    ensures Valid(d', s)
    ensures SameMove(StepMatch(d, s), StepMatch(d', s), d.ipEnd, d'.ipEnd)
  {
    MatchOperandExtends(d, d', s.pc.t, s.ip);
    var o := MatchOperand(d, s.pc.t, s.ip);
    if o.Match? && o.ip <= d.ipEnd { CopyExtends(d, d', s, o.ip, o.off, o.n); }
  }

  lemma StepMatchNextExtends(d: Job, d': Job, s: State)
    requires Valid(d, s) && s.pc.MatchNext?
    requires Longer(d, d')
    requires StepMatchNext(d, s).ip <= d.ipEnd
    ensures Valid(d', s)
    ensures SameMove(StepMatchNext(d, s), StepMatchNext(d', s), d.ipEnd, d'.ipEnd)
  {
    var n := s.pc.n;
    if s.ip + n < d.ipEnd { assert d.inp[s.ip..s.ip + n] == d'.inp[s.ip..s.ip + n]; }
  }

  /** One step that stays inside its input goes the same way on any longer input. */
  lemma StepExtends(d: Job, d': Job, s: State)
    requires Valid(d, s) && !s.pc.Halt?
    requires Longer(d, d')
    requires Step(d, s).ip <= d.ipEnd
    ensures Valid(d', s)
    ensures SameMove(Step(d, s), Step(d', s), d.ipEnd, d'.ipEnd)
  {
    match s.pc
    case Top => StepTopExtends(d, d', s);
    case FirstRun =>
    case AtMatch(_) => StepMatchExtends(d, d', s);
    case MatchNext(_) => StepMatchNextExtends(d, d', s);
  }

  lemma StepMovesForward(d: Job, s: State)
    requires Valid(d, s) && !s.pc.Halt?
    ensures Step(d, s).ip >= s.ip
  {
  }

  lemma {:induction false} FinishMovesForward(d: Job, s: State)
    requires Valid(d, s)
    ensures Finish(d, s).ip >= s.ip
    decreases if s.pc.Halt? then 0 else d.ipEnd + SLACK + 1 - s.ip
  {
    if s.pc.Halt? {
    } else {
      StepMovesForward(d, s);
      FinishMovesForward(d, Step(d, s));
    }
  }

  /** A run that ends in success goes the same way on longer input and with more room. */
  lemma {:induction false} FinishExtends(d: Job, d': Job, s: State)
    requires Valid(d, s) && !s.pc.Halt?
    requires Finish(d, s).pc == Halt(Ok)
    requires Longer(d, d')
    ensures Valid(d', s)
    ensures Finish(d', s)
         == State(Halt(if d.ipEnd == d'.ipEnd then Ok else InputNotConsumed), d.ipEnd, Finish(d, s).out)
    decreases d.ipEnd + SLACK + 1 - s.ip
  {
    var r := Step(d, s);
    FinishMovesForward(d, r);
    StepExtends(d, d', s);
    if !r.pc.Halt? {
      FinishExtends(d, d', r);
    }
  }

  /**
   * Whatever the bytes behind the stream and however much more room there is, an accepted stream
   * decodes alike; followed by anything at all it is reported as not consumed, with that output.
   */
  lemma AcceptedStreamExtends(d: Job, d': Job)
    requires d.Readable() && Longer(d, d')
    requires Decode(d).pc == Halt(Ok)
    ensures Decode(d')
         == State(Halt(if d.ipEnd == d'.ipEnd then Ok else InputNotConsumed), d.ipEnd, Decode(d).out)
  {
    var s := Start(d);
    assert s == Start(d') by {
      if s.pc.FirstRun? { assert d.inp[1..s.ip] == d'.inp[1..s.ip]; }
    }
    FinishExtends(d, d', s);
  }

  /** No stream the checked decoder accepts is a proper prefix of another one it accepts. */
  lemma AcceptedStreamsArePrefixFree(a: seq<byte>, b: seq<byte>, behindA: seq<byte>, behindB: seq<byte>,
                                     capA: nat, capB: nat)
    requires 1 <= |a| < |b| && a <= b && |behindA| >= SLACK && |behindB| >= SLACK
    requires Decode(On(b, behindB, capB)).pc == Halt(Ok)
    ensures Decode(On(a, behindA, capA)).pc != Halt(Ok)
  {
    var room := if capA < capB then capB else capA;
    if Decode(On(a, behindA, capA)).pc == Halt(Ok) {
      AcceptedStreamExtends(On(a, behindA, capA), On(b, behindB, room));
      AcceptedStreamExtends(On(b, behindB, capB), On(b, behindB, room));
    }
  }
}
