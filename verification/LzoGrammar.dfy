/**
 * The LZO1X format as a grammar, apart from compressor and decompressor: what a stream consists of,
 * the bytes of each part, and what it stands for. The checked decoder accepts exactly this.
 */
module LzoGrammar {
  import opened Bytes
  import M = LzoMachine

  // ----- The parts of a stream

  /** The five ways to write a match. */
  datatype Form = TwoBytes | BehindRun | M2 | M3 | M4

  /** A run of literals with a header, literals announced by the match before them, or a match. */
  datatype Op =
    | Run(lits: seq<byte>)
    | Few(lits: seq<byte>)
    | Copy(form: Form, off: nat, len: nat, next: nat)

  /** Anything but announced literals; behind a run; n literals announced; behind announced literals. */
  datatype Place = Open | Ran | Due(n: nat) | Paid

  predicate FormFits(form: Form, off: nat, len: nat) {
    match form
    case TwoBytes => len == 2 && 1 <= off <= 1024
    case BehindRun => len == 3 && 2049 <= off <= 3072
    case M2 => 3 <= len <= 8 && 1 <= off <= 2048
    case M3 => len >= 3 && 1 <= off <= 16384
    case M4 => len >= 3 && 16385 <= off <= 49151
  }

  predicate Fits(place: Place, op: Op) {
    match op
    case Run(lits) => place.Open? && |lits| >= 4
    case Few(lits) => place == Due(|lits|) && 1 <= |lits| <= 3
    case Copy(form, off, len, next) =>
      && !place.Due? && FormFits(form, off, len) && next < 4
      && (form.TwoBytes? ==> place.Paid?) && (form.BehindRun? ==> place.Ran?)
  }

  function Leads(op: Op): Place {
    match op
    case Run(_) => Ran
    case Few(_) => Paid
    case Copy(_, _, _, next) => if next == 0 then Open else Due(next)
  }

  // ----- Their bytes

  /** A count of at least 1: a zero byte for each 255, then the rest, 1 to 255. */
  function Count(n: nat): (r: seq<byte>)
    requires n >= 1
    ensures |r| >= 1
  {
    seq((n - 1) / 255, _ => 0) + [(n - 1) % 255 + 1]
  }

  function Header(n: nat): (r: seq<byte>)
    requires n >= 4
    ensures |r| >= 1
  {
    if n <= 18 then [n - 3] else [0] + Count(n - 18)
  }

  /** The low `width` values of the first byte hold the length less two, or zero and a count follows. */
  function Head(marker: nat, width: nat, len: nat): (r: seq<byte>)
    requires len >= 3 && marker + width < 256 && width >= 1
    ensures |r| >= 1
  {
    if len - 2 <= width then [marker + (len - 2)] else [marker] + Count(len - 2 - width)
  }

  /** Fourteen bits of offset, low bits first, above two bits for the literals announced. */
  function OffsetField(o: nat, next: nat): (r: seq<byte>)
    requires o < 0x4000 && next < 4
    ensures |r| == 2
  {
    [o % 64 * 4 + next, o / 64]
  }

  function FormBytes(form: Form, off: nat, len: nat, next: nat): (r: seq<byte>)
    requires FormFits(form, off, len) && next < 4
    ensures |r| >= 2
  {
    match form
    case TwoBytes => [(off - 1) % 4 * 4 + next, (off - 1) / 4]
    case BehindRun => [(off - 2049) % 4 * 4 + next, (off - 2049) / 4]
    case M2 => [(len - 1) * 32 + (off - 1) % 8 * 4 + next, (off - 1) / 8]
    case M3 => Head(32, 31, len) + OffsetField(off - 1, next)
    case M4 => Head(if off < 32768 then 16 else 24, 7, len) + OffsetField(off % 16384, next)
  }

  function OpBytes(place: Place, op: Op): (r: seq<byte>)
    requires Fits(place, op)
    ensures |r| >= 1
  {
    match op
    case Run(lits) => Header(|lits|) + lits
    case Few(lits) => lits
    case Copy(form, off, len, next) => FormBytes(form, off, len, next)
  }

  /** The end marker is a far match of offset zero; its length and its low bits mean nothing. */
  function EndBytes(len: nat, next: nat): (r: seq<byte>)
    requires len >= 3 && next < 4
    ensures |r| >= 3
  {
    Head(16, 7, len) + [next, 0]
  }

  // ----- What they stand for

  /** A match must not reach back before the output. */
  predicate Grounded(out: seq<byte>, op: Op) {
    op.Copy? ==> 1 <= op.off <= |out|
  }

  function Apply(out: seq<byte>, op: Op): (r: seq<byte>)
    requires Grounded(out, op)
    ensures |r| >= |out|
  {
    if op.Copy? then M.CopyBack(out, op.off, op.len) else out + op.lits
  }

  // ----- Sequences of parts

  predicate AllFit(place: Place, out: seq<byte>, ops: seq<Op>)
    decreases |ops|
  {
    ops == [] || (Fits(place, ops[0]) && Grounded(out, ops[0])
                  && AllFit(Leads(ops[0]), Apply(out, ops[0]), ops[1..]))
  }

  function AllBytes(place: Place, out: seq<byte>, ops: seq<Op>): seq<byte>
    requires AllFit(place, out, ops)
    decreases |ops|
  {
    if ops == [] then []
    else OpBytes(place, ops[0]) + AllBytes(Leads(ops[0]), Apply(out, ops[0]), ops[1..])
  }

  function Meaning(place: Place, out: seq<byte>, ops: seq<Op>): (r: seq<byte>)
    requires AllFit(place, out, ops)
    ensures |r| >= |out|
    decreases |ops|
  {
    if ops == [] then out else Meaning(Leads(ops[0]), Apply(out, ops[0]), ops[1..])
  }

  function LastPlace(place: Place, ops: seq<Op>): Place
    decreases |ops|
  {
    if ops == [] then place else LastPlace(Leads(ops[0]), ops[1..])
  }

  // ----- Reading bytes

  /** The bytes b stand in the input at position ip. */
  ghost predicate At(d: M.Job, ip: nat, b: seq<byte>) {
    ip + |b| <= d.ipEnd && d.ipEnd + M.SLACK <= |d.inp| && d.inp[ip..ip + |b|] == b
  }

  lemma AtSplits(d: M.Job, ip: nat, a: seq<byte>, b: seq<byte>)
    requires At(d, ip, a + b)
    ensures At(d, ip, a) && At(d, ip + |a|, b)
  {
    var w := d.inp[ip..ip + |a + b|];
    assert w[..|a|] == a && w[|a|..] == b;
  }

  lemma AtFirst(d: M.Job, ip: nat, b: seq<byte>, i: nat)
    requires At(d, ip, b) && i < |b|
    ensures d.inp[ip + i] == b[i]
  {
    assert d.inp[ip..ip + |b|][i] == b[i];
  }

  lemma CountUnfolds(n: nat)
    requires n > 255
    ensures Count(n) == [0] + Count(n - 255)
  {
    assert (n - 1) / 255 == (n - 256) / 255 + 1;
  }

  lemma {:induction false} CountIsRead(d: M.Job, ip: nat, n: nat, t: nat)
    requires n >= 1 && At(d, ip, Count(n))
    ensures M.ReadRun(d, ip, t) == M.Run(t + n, ip + |Count(n)|)
    decreases n
  {
    AtFirst(d, ip, Count(n), 0);
    if n <= 255 {
      assert Count(n) == [n];
    } else {
      CountUnfolds(n);
      AtSplits(d, ip, [0], Count(n - 255));
      CountIsRead(d, ip + 1, n - 255, t + 255);
    }
  }

  lemma {:induction false} RunIsCount(d: M.Job, ip: nat, t: nat)
    requires ip <= d.ipEnd <= |d.inp| && M.ReadRun(d, ip, t).Run?
    ensures var r := M.ReadRun(d, ip, t); d.inp[ip..r.ip] == Count(r.n - t)
    decreases d.ipEnd - ip
  {
    var r := M.ReadRun(d, ip, t);
    if d.inp[ip] == 0 {
      RunIsCount(d, ip + 1, t + 255);
      CountUnfolds(r.n - t);
      assert d.inp[ip..r.ip] == [0] + d.inp[ip + 1..r.ip];
    } else {
      assert d.inp[ip..r.ip] == [d.inp[ip]];
    }
  }

  lemma OffsetFieldIsRead(d: M.Job, ip: nat, o: nat, next: nat)
    requires o < 0x4000 && next < 4 && At(d, ip, OffsetField(o, next))
    ensures M.OffsetWord(d.inp, ip) == o && d.inp[ip] % 4 == next
  {
    AtFirst(d, ip, OffsetField(o, next), 0);
    AtFirst(d, ip, OffsetField(o, next), 1);
    var a, b := o / 64, o % 64;
    assert (b * 4 + next + 256 * a) / 4 == b + 64 * a;
  }

  lemma WordIsOffsetField(d: M.Job, ip: nat)
    requires ip + 2 <= |d.inp|
    ensures d.inp[ip..ip + 2] == OffsetField(M.OffsetWord(d.inp, ip), d.inp[ip] % 4)
  {
    var b0, b1 := d.inp[ip] as int, d.inp[ip + 1] as int;
    assert (b0 + 256 * b1) / 4 == b0 / 4 + 64 * b1;
  }

  // ----- Reading headers and matches, both ways

  lemma HeaderIsRead(d: M.Job, ip: nat, n: nat)
    requires n >= 4 && At(d, ip, Header(n)) && ip < d.ipEnd
    ensures d.inp[ip] < 16
    ensures M.LiteralRun(d, ip) == M.Run(n - 3, ip + |Header(n)|)
  {
    hide Count, M.ReadRun;
    AtFirst(d, ip, Header(n), 0);
    if n > 18 {
      AtSplits(d, ip, [0], Count(n - 18));
      CountIsRead(d, ip + 1, n - 18, 15);
    }
  }

  lemma RunIsHeader(d: M.Job, ip: nat)
    requires ip < d.ipEnd <= |d.inp| && d.inp[ip] < 16 && M.LiteralRun(d, ip).Run?
    ensures var r := M.LiteralRun(d, ip); d.inp[ip..r.ip] == Header(r.n + 3)
  {
    hide Count, M.ReadRun;
    var r := M.LiteralRun(d, ip);
    if d.inp[ip] == 0 {
      RunIsCount(d, ip + 1, 15);
      assert d.inp[ip..r.ip] == [0] + d.inp[ip + 1..r.ip];
    } else {
      assert d.inp[ip..r.ip] == [d.inp[ip]];
    }
  }

  lemma HeadIsRead(d: M.Job, ip: nat, marker: nat, width: nat, len: nat)
    requires len >= 3 && width >= 1 && marker + width < 256 && marker % (width + 1) == 0
    requires At(d, ip, Head(marker, width, len)) && ip < d.ipEnd
    ensures marker <= d.inp[ip] <= marker + width
    ensures M.MatchRun(d, ip + 1, d.inp[ip] - marker, width) == M.Run(len - 2, ip + |Head(marker, width, len)|)
  {
    hide Count, M.ReadRun;
    AtFirst(d, ip, Head(marker, width, len), 0);
    if len - 2 > width {
      AtSplits(d, ip, [marker], Count(len - 2 - width));
      CountIsRead(d, ip + 1, len - 2 - width, width);
    }
  }

  lemma RunIsHead(d: M.Job, ip: nat, marker: nat, width: nat)
    requires width >= 1 && marker + width < 256
    requires ip < d.ipEnd <= |d.inp| && marker <= d.inp[ip] <= marker + width
    requires M.MatchRun(d, ip + 1, d.inp[ip] - marker, width).Run?
    ensures var r := M.MatchRun(d, ip + 1, d.inp[ip] - marker, width);
      d.inp[ip..r.ip] == Head(marker, width, r.n + 2)
  {
    hide Count, M.ReadRun;
    var r := M.MatchRun(d, ip + 1, d.inp[ip] - marker, width);
    if d.inp[ip] == marker {
      RunIsCount(d, ip + 1, width);
      assert d.inp[ip..r.ip] == [marker] + d.inp[ip + 1..r.ip];
    } else {
      assert d.inp[ip..r.ip] == [d.inp[ip]];
    }
  }

  lemma TwoBytesAreRead(d: M.Job, ip: nat, off: nat, next: nat)
    requires FormFits(TwoBytes, off, 2) && next < 4
    requires At(d, ip, FormBytes(TwoBytes, off, 2, next))
    ensures d.inp[ip] < 16
    ensures var n := |FormBytes(TwoBytes, off, 2, next)|;
      && M.MatchOperand(d, d.inp[ip], ip + 1) == M.Match(ip + n, off, 2)
      && d.inp[ip + n - 2] % 4 == next
  {
    AtFirst(d, ip, FormBytes(TwoBytes, off, 2, next), 0);
    AtFirst(d, ip, FormBytes(TwoBytes, off, 2, next), 1);
  }

  lemma M2Bits(a: nat, b: nat, next: nat)
    requires b < 8 && next < 4
    ensures var t := a * 32 + b * 4 + next; t / 32 == a && t / 4 % 8 == b && t % 4 == next
  {
    assert (a * 32 + b * 4 + next) / 4 == a * 8 + b;
  }

  lemma M2IsRead(d: M.Job, ip: nat, off: nat, len: nat, next: nat)
    requires FormFits(M2, off, len) && next < 4
    requires At(d, ip, FormBytes(M2, off, len, next))
    ensures d.inp[ip] >= 16
    ensures var n := |FormBytes(M2, off, len, next)|;
      && M.MatchOperand(d, d.inp[ip], ip + 1) == M.Match(ip + n, off, len)
      && d.inp[ip + n - 2] % 4 == next
  {
    AtFirst(d, ip, FormBytes(M2, off, len, next), 0);
    AtFirst(d, ip, FormBytes(M2, off, len, next), 1);
    M2Bits(len - 1, (off - 1) % 8, next);
  }

  lemma M3IsRead(d: M.Job, ip: nat, off: nat, len: nat, next: nat)
    requires FormFits(M3, off, len) && next < 4
    requires At(d, ip, FormBytes(M3, off, len, next))
    ensures d.inp[ip] >= 16
    ensures var n := |FormBytes(M3, off, len, next)|;
      && M.MatchOperand(d, d.inp[ip], ip + 1) == M.Match(ip + n, off, len)
      && d.inp[ip + n - 2] % 4 == next
  {
    hide Head, OffsetField, M.MatchRun, M.OffsetWord;
    var head := Head(32, 31, len);
    AtSplits(d, ip, head, OffsetField(off - 1, next));
    HeadIsRead(d, ip, 32, 31, len);
    OffsetFieldIsRead(d, ip + |head|, off - 1, next);
  }

  lemma M4IsRead(d: M.Job, ip: nat, off: nat, len: nat, next: nat)
    requires FormFits(M4, off, len) && next < 4
    requires At(d, ip, FormBytes(M4, off, len, next))
    ensures d.inp[ip] >= 16
    ensures var n := |FormBytes(M4, off, len, next)|;
      && M.MatchOperand(d, d.inp[ip], ip + 1) == M.Match(ip + n, off, len)
      && d.inp[ip + n - 2] % 4 == next
  {
    hide Head, OffsetField, M.MatchRun, M.OffsetWord;
    var marker := if off < 32768 then 16 else 24;
    var head := Head(marker, 7, len);
    AtSplits(d, ip, head, OffsetField(off % 16384, next));
    HeadIsRead(d, ip, marker, 7, len);
    OffsetFieldIsRead(d, ip + |head|, off % 16384, next);
  }

  /** The codec law, for every match the format can express. */
  lemma FormIsRead(d: M.Job, ip: nat, form: Form, off: nat, len: nat, next: nat)
    requires FormFits(form, off, len) && next < 4 && !form.BehindRun?
    requires At(d, ip, FormBytes(form, off, len, next))
    ensures d.inp[ip] < 16 <==> form.TwoBytes?
    ensures var n := |FormBytes(form, off, len, next)|;
      && M.MatchOperand(d, d.inp[ip], ip + 1) == M.Match(ip + n, off, len)
      && d.inp[ip + n - 2] % 4 == next
  {
    match form
    case TwoBytes => TwoBytesAreRead(d, ip, off, next);
    case M2 => M2IsRead(d, ip, off, len, next);
    case M3 => M3IsRead(d, ip, off, len, next);
    case M4 => M4IsRead(d, ip, off, len, next);
  }

  /** The form that a first byte at the match label announces. */
  function FormOf(t: byte): Form {
    if t >= 64 then M2 else if t >= 32 then M3 else if t >= 16 then M4 else TwoBytes
  }

  lemma Joined(s: seq<byte>, a: nat, b: nat, c: nat)
    requires a <= b <= c <= |s|
    ensures s[a..c] == s[a..b] + s[b..c]
  {
  }

  lemma M2IsForm(d: M.Job, ip: nat)
    requires ip < d.ipEnd && d.ipEnd + M.SLACK <= |d.inp| && d.inp[ip] >= 64
    ensures var o := M.MatchOperand(d, d.inp[ip], ip + 1);
      && o.Match? && o.ip == ip + 2 && FormFits(M2, o.off, o.n)
      && d.inp[ip..o.ip] == FormBytes(M2, o.off, o.n, d.inp[ip] % 4)
  {
    var t, u := d.inp[ip] as int, d.inp[ip + 1] as int;
    assert t == t / 32 * 32 + t / 4 % 8 * 4 + t % 4;
    assert (t / 4 % 8 + u * 8) % 8 == t / 4 % 8 && (t / 4 % 8 + u * 8) / 8 == u;
    assert d.inp[ip..ip + 2] == [t, u];
  }

  lemma TwoBytesAreForm(d: M.Job, ip: nat)
    requires ip < d.ipEnd && d.ipEnd + M.SLACK <= |d.inp| && d.inp[ip] < 16
    ensures var o := M.MatchOperand(d, d.inp[ip], ip + 1);
      && o.Match? && o.ip == ip + 2 && FormFits(TwoBytes, o.off, o.n)
      && d.inp[ip..o.ip] == FormBytes(TwoBytes, o.off, o.n, d.inp[ip] % 4)
  {
    var t, u := d.inp[ip] as int, d.inp[ip + 1] as int;
    assert (t / 4 + u * 4) % 4 == t / 4 && (t / 4 + u * 4) / 4 == u;
    assert d.inp[ip..ip + 2] == [t, u];
  }

  lemma M3IsForm(d: M.Job, ip: nat)
    requires ip < d.ipEnd && d.ipEnd + M.SLACK <= |d.inp| && 32 <= d.inp[ip] < 64
    requires M.M3Operand(d, d.inp[ip], ip + 1).Match?
    ensures var o := M.M3Operand(d, d.inp[ip], ip + 1);
      && o.ip >= ip + 2 && FormFits(M3, o.off, o.n)
      && d.inp[ip..o.ip] == FormBytes(M3, o.off, o.n, d.inp[o.ip - 2] % 4)
  {
    hide Head, M.MatchRun, M.OffsetWord;
    var t: int := d.inp[ip];
    assert t % 32 == t - 32;
    var run := M.MatchRun(d, ip + 1, t - 32, 31);
    RunIsHead(d, ip, 32, 31);
    WordIsOffsetField(d, run.ip);
    Joined(d.inp, ip, run.ip, run.ip + 2);
  }

  lemma MarkerBits(t: int)
    requires 16 <= t < 32
    ensures var marker := if t < 24 then 16 else 24; t % 8 == t - marker && t / 8 % 2 == (marker - 16) / 8
  {
  }

  lemma FarOffset(marker: nat, word: nat)
    requires (marker == 16 || marker == 24) && word < 0x4000 && (marker == 24 || word > 0)
    ensures var off := (marker - 16) / 8 * 0x4000 + word + 0x4000;
      off % 16384 == word && 16385 <= off <= 49151 && (off < 32768 <==> marker == 16)
  {
  }

  lemma M4IsForm(d: M.Job, ip: nat)
    requires ip < d.ipEnd && d.ipEnd + M.SLACK <= |d.inp| && 16 <= d.inp[ip] < 32
    requires M.M4Operand(d, d.inp[ip], ip + 1).Match?
    ensures var o := M.M4Operand(d, d.inp[ip], ip + 1);
      && o.ip >= ip + 2 && FormFits(M4, o.off, o.n)
      && d.inp[ip..o.ip] == FormBytes(M4, o.off, o.n, d.inp[o.ip - 2] % 4)
  {
    hide Head, M.MatchRun, M.OffsetWord;
    var t: int := d.inp[ip];
    var marker := if t < 24 then 16 else 24;
    MarkerBits(t);
    var run := M.MatchRun(d, ip + 1, t - marker, 7);
    RunIsHead(d, ip, marker, 7);
    WordIsOffsetField(d, run.ip);
    Joined(d.inp, ip, run.ip, run.ip + 2);
    FarOffset(marker, M.OffsetWord(d.inp, run.ip));
  }

  /** Whatever is read as a match was written in one of these forms. */
  lemma MatchIsForm(d: M.Job, ip: nat)
    requires ip < d.ipEnd && d.ipEnd + M.SLACK <= |d.inp|
    requires M.MatchOperand(d, d.inp[ip], ip + 1).Match?
    ensures var o, form := M.MatchOperand(d, d.inp[ip], ip + 1), FormOf(d.inp[ip]);
      && o.ip >= ip + 2 && FormFits(form, o.off, o.n)
      && d.inp[ip..o.ip] == FormBytes(form, o.off, o.n, d.inp[o.ip - 2] % 4)
  {
    hide M.M3Operand, M.M4Operand, FormBytes;
    if d.inp[ip] >= 64 {
      M2IsForm(d, ip);
    } else if d.inp[ip] >= 32 {
      M3IsForm(d, ip);
    } else if d.inp[ip] >= 16 {
      M4IsForm(d, ip);
    } else {
      TwoBytesAreForm(d, ip);
    }
  }

  /** And whatever is read as an end marker is one. */
  lemma EndIsRead(d: M.Job, ip: nat, len: nat, next: nat)
    requires len >= 3 && next < 4 && At(d, ip, EndBytes(len, next))
    ensures 16 <= d.inp[ip] < 24
    ensures M.MatchOperand(d, d.inp[ip], ip + 1) == M.EndMark(ip + |EndBytes(len, next)|)
  {
    hide Head, M.MatchRun, M.OffsetWord;
    var head := Head(16, 7, len);
    AtSplits(d, ip, head, OffsetField(0, next));
    HeadIsRead(d, ip, 16, 7, len);
    OffsetFieldIsRead(d, ip + |head|, 0, next);
  }

  lemma EndIsEnd(d: M.Job, ip: nat) returns (len: nat, next: nat)
    requires ip < d.ipEnd && d.ipEnd + M.SLACK <= |d.inp|
    requires M.MatchOperand(d, d.inp[ip], ip + 1).EndMark?
    ensures len >= 3 && next < 4
    ensures d.inp[ip..M.MatchOperand(d, d.inp[ip], ip + 1).ip] == EndBytes(len, next)
  {
    hide Head, M.MatchRun, M.OffsetWord;
    var t: int := d.inp[ip];
    var run := M.MatchRun(d, ip + 1, t % 8, 7);
    assert t < 24 && t % 8 == t - 16;
    RunIsHead(d, ip, 16, 7);
    WordIsOffsetField(d, run.ip);
    len, next := run.n + 2, d.inp[run.ip] % 4;
    Joined(d.inp, ip, run.ip, run.ip + 2);
  }
}
