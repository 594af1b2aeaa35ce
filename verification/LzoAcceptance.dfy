/**
 * The checked decoder accepts exactly the streams of the grammar and yields what they stand for; on
 * a stream that breaks off or goes wrong behind well-formed parts, its error code says how.
 */
module LzoAcceptance {
  import opened Bytes
  import opened LzoGrammar
  import M = LzoMachine

  // ----- Runs of the machine

  /** s1 is reached from s0, so the two runs end alike. */
  ghost predicate Reaches(d: M.Job, s0: M.State, s1: M.State) {
    M.Valid(d, s0) && M.Valid(d, s1) && M.Finish(d, s0) == M.Finish(d, s1)
  }

  lemma OneStep(d: M.Job, s0: M.State, s1: M.State)
    requires M.Valid(d, s0) && !s0.pc.Halt? && M.Step(d, s0) == s1
    ensures Reaches(d, s0, s1)
  {
  }

  lemma RunEnds(d: M.Job, s: M.State, end: M.State)
    requires Reaches(d, s, end) && end.pc.Halt?
    ensures M.Finish(d, s) == end
  {
  }

  /** The decoder before the part of the stream at ip, at a place. */
  function StateAt(d: M.Job, place: Place, ip: nat, out: seq<byte>): M.State
    requires ip < |d.inp|
  {
    match place
    case Open => M.State(M.Top, ip, out)
    case Ran => M.State(M.FirstRun, ip, out)
    case Due(n) => M.State(M.MatchNext(n), ip, out)
    case Paid => M.State(M.AtMatch(d.inp[ip]), ip + 1, out)
  }

  /** What holds there: behind literals the decoder has made sure that one or two bytes follow. */
  ghost predicate Stands(d: M.Job, place: Place, ip: nat, out: seq<byte>) {
    && d.ipEnd + M.SLACK <= |d.inp| && ip <= d.ipEnd && |out| <= d.cap
    && (place.Due? ==> 1 <= place.n <= 3)
    && (place.Ran? ==> ip < d.ipEnd) && (place.Paid? ==> ip + 1 < d.ipEnd)
  }

  // ----- One part

  /** The input suffices for a part: behind literals one more byte is asked for, or two. */
  ghost predicate Given(d: M.Job, place: Place, ip: nat, op: Op)
    requires Fits(place, op)
  {
    && At(d, ip, OpBytes(place, op))
    && (op.Run? ==> ip + |OpBytes(place, op)| < d.ipEnd) && (op.Few? ==> ip + |OpBytes(place, op)| + 1 < d.ipEnd)
  }

  lemma RunIsDecoded(d: M.Job, ip: nat, out: seq<byte>, op: Op)
    requires Fits(Open, op) && op.Run? && Stands(d, Open, ip, out) && Given(d, Open, ip, op)
    requires |out| + |op.lits| <= d.cap
    ensures var e := ip + |OpBytes(Open, op)|;
      Reaches(d, StateAt(d, Open, ip, out), StateAt(d, Ran, e, out + op.lits))
  {
    hide Header, M.Finish, M.LiteralRun;
    var n := |op.lits|;
    AtSplits(d, ip, Header(n), op.lits);
    HeaderIsRead(d, ip, n);
    OneStep(d, StateAt(d, Open, ip, out), StateAt(d, Ran, ip + |OpBytes(Open, op)|, out + op.lits));
  }

  lemma FewAreDecoded(d: M.Job, ip: nat, out: seq<byte>, op: Op)
    requires op.Few? && Fits(Due(|op.lits|), op) && Stands(d, Due(|op.lits|), ip, out)
    requires Given(d, Due(|op.lits|), ip, op) && |out| + |op.lits| <= d.cap
    ensures Reaches(d, StateAt(d, Due(|op.lits|), ip, out), StateAt(d, Paid, ip + |op.lits|, out + op.lits))
  {
    hide M.Finish;
    assert d.inp[ip..ip + |op.lits|] == op.lits;
    OneStep(d, StateAt(d, Due(|op.lits|), ip, out), StateAt(d, Paid, ip + |op.lits|, out + op.lits));
  }

  /** From any place where a match may stand, its first byte leads to the match label. */
  lemma MatchIsReached(d: M.Job, place: Place, ip: nat, out: seq<byte>)
    requires Stands(d, place, ip, out) && !place.Due? && ip < d.ipEnd && (d.inp[ip] >= 16 || place.Paid?)
    ensures Reaches(d, StateAt(d, place, ip, out), M.State(M.AtMatch(d.inp[ip]), ip + 1, out))
  {
    hide M.Finish;
    if !place.Paid? { OneStep(d, StateAt(d, place, ip, out), M.State(M.AtMatch(d.inp[ip]), ip + 1, out)); }
  }

  /** What becomes of a match: it fails in one of two ways or is copied. */
  ghost predicate Copied(d: M.Job, s: M.State, e: nat, out: seq<byte>, op: Op)
    requires op.Copy? && op.off >= 1 && e < |d.inp| && M.Valid(d, s)
  {
    if op.off > |out| then M.Finish(d, s).pc == M.Halt(M.LookbehindOverrun)
    else if |out| + op.len > d.cap then M.Finish(d, s).pc == M.Halt(M.OutputOverrun)
    else Reaches(d, s, StateAt(d, Leads(op), e, M.CopyBack(out, op.off, op.len)))
  }

  lemma CopyStep(d: M.Job, s: M.State, e: nat, out: seq<byte>, op: Op)
    requires op.Copy? && 1 <= op.off && op.next < 4 && M.Valid(d, s) && !s.pc.Halt? && s.out == out
    requires s.ip < e <= d.ipEnd && e >= 2 && d.inp[e - 2] % 4 == op.next
    requires M.Step(d, s) == M.Copy(d, s, e, op.off, op.len)
    ensures Copied(d, s, e, out, op)
  {
    hide M.Finish, M.Step, M.CopyBack;
    var r := M.Copy(d, s, e, op.off, op.len);
    OneStep(d, s, r);
    if r.pc.Halt? { RunEnds(d, s, r); }
  }

  lemma BehindRunIsDecoded(d: M.Job, ip: nat, out: seq<byte>, op: Op)
    requires op.Copy? && op.form.BehindRun? && Fits(Ran, op) && Stands(d, Ran, ip, out) && Given(d, Ran, ip, op)
    ensures Copied(d, StateAt(d, Ran, ip, out), ip + 2, out, op)
  {
    hide M.Finish, M.Copy;
    var b := FormBytes(BehindRun, op.off, 3, op.next);
    AtFirst(d, ip, b, 0);
    AtFirst(d, ip, b, 1);
    CopyStep(d, StateAt(d, Ran, ip, out), ip + 2, out, op);
  }

  lemma MatchStep(d: M.Job, ip: nat, out: seq<byte>, e: nat, off: nat, n: nat)
    requires d.ipEnd + M.SLACK <= |d.inp| && ip < d.ipEnd && |out| <= d.cap
    requires M.MatchOperand(d, d.inp[ip], ip + 1) == M.Match(e, off, n)
    ensures var s := M.State(M.AtMatch(d.inp[ip]), ip + 1, out);
      M.Valid(d, s) && M.Step(d, s) == M.Copy(d, s, e, off, n)
  {
    hide M.MatchOperand, M.Copy;
  }

  lemma FormHasOffset(form: Form, off: nat, len: nat)
    requires FormFits(form, off, len)
    ensures off >= 1
  {
  }

  lemma FormIsDecoded(d: M.Job, place: Place, ip: nat, out: seq<byte>, op: Op)
    requires op.Copy? && !op.form.BehindRun? && Fits(place, op) && Stands(d, place, ip, out) && Given(d, place, ip, op)
    ensures M.Valid(d, StateAt(d, place, ip, out))
    ensures Copied(d, StateAt(d, place, ip, out), ip + |OpBytes(place, op)|, out, op)
  {
    hide FormBytes, FormFits, M.Finish, M.Copy, M.MatchOperand, M.Step;
    var e, s := ip + |OpBytes(place, op)|, M.State(M.AtMatch(d.inp[ip]), ip + 1, out);
    FormHasOffset(op.form, op.off, op.len);
    FormIsRead(d, ip, op.form, op.off, op.len, op.next);
    MatchIsReached(d, place, ip, out);
    MatchStep(d, ip, out, e, op.off, op.len);
    CopyStep(d, s, e, out, op);
  }

  lemma CopyIsDecoded(d: M.Job, place: Place, ip: nat, out: seq<byte>, op: Op)
    requires op.Copy? && Fits(place, op) && Stands(d, place, ip, out) && Given(d, place, ip, op)
    ensures M.Valid(d, StateAt(d, place, ip, out))
    ensures Copied(d, StateAt(d, place, ip, out), ip + |OpBytes(place, op)|, out, op)
  {
    hide Copied;
    if op.form.BehindRun? {
      BehindRunIsDecoded(d, ip, out, op);
    } else {
      FormIsDecoded(d, place, ip, out, op);
    }
  }

  /** Any part is decoded to what it stands for, if there is room. */
  lemma OpIsDecoded(d: M.Job, place: Place, ip: nat, out: seq<byte>, op: Op)
    requires Fits(place, op) && Grounded(out, op) && Stands(d, place, ip, out) && Given(d, place, ip, op)
    requires |Apply(out, op)| <= d.cap
    ensures var e := ip + |OpBytes(place, op)|;
      && Stands(d, Leads(op), e, Apply(out, op))
      && Reaches(d, StateAt(d, place, ip, out), StateAt(d, Leads(op), e, Apply(out, op)))
  {
    hide Reaches, FormBytes, FormFits, Header, M.Finish, M.Valid, M.CopyBack;
    match op
    case Run(_) => RunIsDecoded(d, ip, out, op);
    case Few(_) => FewAreDecoded(d, ip, out, op);
    case Copy(_, _, _, _) => CopyIsDecoded(d, place, ip, out, op);
  }

  // ----- Many parts

  lemma StandsIsValid(d: M.Job, place: Place, ip: nat, out: seq<byte>)
    requires Stands(d, place, ip, out)
    ensures M.Valid(d, StateAt(d, place, ip, out))
  {
  }

  /** Well-formed parts are decoded one by one. */
  lemma {:induction false} OpsAreDecoded(d: M.Job, place: Place, ip: nat, out: seq<byte>, ops: seq<Op>)
    requires AllFit(place, out, ops) && Stands(d, place, ip, out)
    requires At(d, ip, AllBytes(place, out, ops)) && ip + |AllBytes(place, out, ops)| + 1 < d.ipEnd
    requires |Meaning(place, out, ops)| <= d.cap
    ensures var e, r := ip + |AllBytes(place, out, ops)|, Meaning(place, out, ops);
      && Stands(d, LastPlace(place, ops), e, r)
      && Reaches(d, StateAt(d, place, ip, out), StateAt(d, LastPlace(place, ops), e, r))
    decreases |ops|
  {
    hide OpBytes, Apply, Fits, Grounded, Leads, StateAt, M.Finish, M.Valid;
    if ops == [] {
      StandsIsValid(d, place, ip, out);
    } else {
      var op, rest := ops[0], ops[1..];
      var bytes := AllBytes(Leads(op), Apply(out, op), rest);
      AtSplits(d, ip, OpBytes(place, op), bytes);
      OpIsDecoded(d, place, ip, out, op);
      OpsAreDecoded(d, Leads(op), ip + |OpBytes(place, op)|, Apply(out, op), rest);
    }
  }

  lemma EndIsDecoded(d: M.Job, place: Place, ip: nat, out: seq<byte>, len: nat, next: nat)
    requires Stands(d, place, ip, out) && !place.Due? && len >= 3 && next < 4
    requires At(d, ip, EndBytes(len, next)) && ip + |EndBytes(len, next)| == d.ipEnd
    ensures M.Finish(d, StateAt(d, place, ip, out)) == M.State(M.Halt(M.Ok), d.ipEnd, out)
  {
    hide M.Finish, M.MatchOperand, EndBytes;
    EndIsRead(d, ip, len, next);
    MatchIsReached(d, place, ip, out);
    OneStep(d, M.State(M.AtMatch(d.inp[ip]), ip + 1, out), M.State(M.Halt(M.Ok), d.ipEnd, out));
    RunEnds(d, StateAt(d, place, ip, out), M.State(M.Halt(M.Ok), d.ipEnd, out));
  }

  // ----- Errors behind well-formed parts

  lemma OpOverflows(d: M.Job, place: Place, ip: nat, out: seq<byte>, op: Op)
    requires Fits(place, op) && Grounded(out, op) && Stands(d, place, ip, out) && At(d, ip, OpBytes(place, op))
    requires |Apply(out, op)| > d.cap
    ensures M.Finish(d, StateAt(d, place, ip, out)).pc == M.Halt(M.OutputOverrun)
  {
    hide M.Finish, M.LiteralRun, M.CopyBack, Header, FormBytes;
    StandsIsValid(d, place, ip, out);
    var s := StateAt(d, place, ip, out);
    if op.Copy? {
      CopyIsDecoded(d, place, ip, out, op);
    } else {
      if op.Run? {
        AtSplits(d, ip, Header(|op.lits|), op.lits);
        HeaderIsRead(d, ip, |op.lits|);
      }
      OneStep(d, s, M.Fail(s, M.OutputOverrun));
      RunEnds(d, s, M.Fail(s, M.OutputOverrun));
    }
  }

  /** With less room than the parts need, and only then, the output overruns. */
  lemma {:induction false} OpsOverflow(d: M.Job, place: Place, ip: nat, out: seq<byte>, ops: seq<Op>)
    requires AllFit(place, out, ops) && Stands(d, place, ip, out)
    requires At(d, ip, AllBytes(place, out, ops)) && ip + |AllBytes(place, out, ops)| + 1 < d.ipEnd
    requires |Meaning(place, out, ops)| > d.cap
    ensures M.Finish(d, StateAt(d, place, ip, out)).pc == M.Halt(M.OutputOverrun)
    decreases |ops|
  {
    hide OpBytes, Apply, Fits, Grounded, Leads, M.Finish;
    if ops != [] {
      var op, rest := ops[0], ops[1..];
      AtSplits(d, ip, OpBytes(place, op), AllBytes(Leads(op), Apply(out, op), rest));
      if |Apply(out, op)| > d.cap {
        OpOverflows(d, place, ip, out, op);
      } else {
        OpIsDecoded(d, place, ip, out, op);
        OpsOverflow(d, Leads(op), ip + |OpBytes(place, op)|, Apply(out, op), rest);
      }
    }
  }

  /** A match that reaches back before the output is reported as that. */
  lemma StrayOffsetIsReported(d: M.Job, place: Place, ip: nat, out: seq<byte>, ops: seq<Op>, op: Op)
    requires AllFit(place, out, ops) && Stands(d, place, ip, out) && |Meaning(place, out, ops)| <= d.cap
    requires op.Copy? && Fits(LastPlace(place, ops), op) && op.off > |Meaning(place, out, ops)|
    requires At(d, ip, AllBytes(place, out, ops) + OpBytes(LastPlace(place, ops), op))
    ensures M.Finish(d, StateAt(d, place, ip, out)).pc == M.Halt(M.LookbehindOverrun)
  {
    hide M.Finish, Stands, AllFit, AllBytes, Meaning, LastPlace, FormBytes, Fits;
    var bytes, at := AllBytes(place, out, ops), LastPlace(place, ops);
    AtSplits(d, ip, bytes, OpBytes(at, op));
    OpsAreDecoded(d, place, ip, out, ops);
    CopyIsDecoded(d, at, ip + |bytes|, Meaning(place, out, ops), op);
  }

  lemma LiteralsBreakOff(d: M.Job, place: Place, ip: nat, out: seq<byte>, op: Op)
    requires Fits(place, op) && !op.Copy? && Stands(d, place, ip, out) && At(d, ip, OpBytes(place, op))
    requires ip + |OpBytes(place, op)| == d.ipEnd && |out| + |op.lits| <= d.cap
    ensures M.Finish(d, StateAt(d, place, ip, out)).pc == M.Halt(M.InputOverrun)
  {
    hide M.Finish, M.LiteralRun, Header;
    StandsIsValid(d, place, ip, out);
    var s := StateAt(d, place, ip, out);
    if op.Run? {
      AtSplits(d, ip, Header(|op.lits|), op.lits);
      HeaderIsRead(d, ip, |op.lits|);
    }
    OneStep(d, s, M.Fail(s, M.InputOverrun));
    RunEnds(d, s, M.Fail(s, M.InputOverrun));
  }

  lemma NothingFollows(d: M.Job, place: Place, out: seq<byte>)
    requires Stands(d, place, d.ipEnd, out) && |out| + 3 <= d.cap
    ensures M.Finish(d, StateAt(d, place, d.ipEnd, out)).pc ==
      M.Halt(if place.Open? then M.EofNotFound else M.InputOverrun)
  {
    hide M.Finish;
    StandsIsValid(d, place, d.ipEnd, out);
    var s := StateAt(d, place, d.ipEnd, out);
    var end := M.Fail(s, if place.Open? then M.EofNotFound else M.InputOverrun);
    OneStep(d, s, end);
    RunEnds(d, s, end);
  }

  /** Behind literals at least two bytes follow when anything does. */
  lemma PartsFollow(place: Place, out: seq<byte>, ops: seq<Op>)
    requires AllFit(place, out, ops) && ops != []
    ensures |AllBytes(place, out, ops)| >= if place.Paid? then 2 else 1
  {
  }

  lemma ApplyGrows(out: seq<byte>, op: Op)
    requires Grounded(out, op) && !op.Copy?
    ensures |Apply(out, op)| == |out| + |op.lits|
  {
  }

  /** A stream that stops without an end marker: between parts, or where literals were to follow. */
  lemma {:induction false} MissingEndIsReported(d: M.Job, place: Place, ip: nat, out: seq<byte>, ops: seq<Op>)
    requires AllFit(place, out, ops) && Stands(d, place, ip, out)
    requires At(d, ip, AllBytes(place, out, ops)) && ip + |AllBytes(place, out, ops)| == d.ipEnd
    requires |Meaning(place, out, ops)| + 3 <= d.cap
    ensures M.Finish(d, StateAt(d, place, ip, out)).pc ==
      M.Halt(if LastPlace(place, ops).Open? then M.EofNotFound else M.InputOverrun)
    decreases |ops|
  {
    hide OpBytes, Apply, Fits, Grounded, M.Finish;
    if ops == [] {
      NothingFollows(d, place, out);
    } else {
      var op, rest := ops[0], ops[1..];
      var bytes := AllBytes(Leads(op), Apply(out, op), rest);
      AtSplits(d, ip, OpBytes(place, op), bytes);
      if rest == [] && !op.Copy? {
        ApplyGrows(out, op);
        LiteralsBreakOff(d, place, ip, out, op);
      } else {
        if rest != [] { PartsFollow(Leads(op), Apply(out, op), rest); }
        OpIsDecoded(d, place, ip, out, op);
        MissingEndIsReported(d, Leads(op), ip + |OpBytes(place, op)|, Apply(out, op), rest);
      }
    }
  }

  // ----- What is accepted is well-formed

  /** The run from s ends in success. */
  ghost predicate Succeeds(d: M.Job, s: M.State) {
    M.Valid(d, s) && M.Finish(d, s).pc == M.Halt(M.Ok)
  }

  lemma SuccessGoesOn(d: M.Job, s: M.State)
    requires Succeeds(d, s) && !s.pc.Halt?
    ensures var r := M.Step(d, s);
      Succeeds(d, r) && M.Finish(d, s) == M.Finish(d, r) && r.ip <= d.ipEnd && (r.pc.Halt? ==> r.pc == M.Halt(M.Ok))
  {
    hide M.Step;
    M.FinishMovesForward(d, M.Step(d, s));
  }

  /** op is written at ip and leads the decoder on to the next place. */
  ghost predicate Leading(d: M.Job, place: Place, ip: nat, out: seq<byte>, op: Op) {
    && ip < |d.inp| && Fits(place, op) && Grounded(out, op) && At(d, ip, OpBytes(place, op))
    && var e := ip + |OpBytes(place, op)|;
       && Stands(d, Leads(op), e, Apply(out, op)) && Succeeds(d, StateAt(d, Leads(op), e, Apply(out, op)))
       && M.Finish(d, StateAt(d, place, ip, out)) == M.Finish(d, StateAt(d, Leads(op), e, Apply(out, op)))
  }

  lemma RunWasWritten(d: M.Job, ip: nat, out: seq<byte>) returns (op: Op)
    requires Stands(d, Open, ip, out) && Succeeds(d, StateAt(d, Open, ip, out)) && ip < d.ipEnd && d.inp[ip] < 16
    ensures Leading(d, Open, ip, out, op)
  {
    hide M.Finish, M.LiteralRun, Header, Succeeds;
    SuccessGoesOn(d, StateAt(d, Open, ip, out));
    RunIsHeader(d, ip);
    var r := M.LiteralRun(d, ip);
    var e := r.ip + r.n + 3;
    op := Run(d.inp[r.ip..e]);
    Joined(d.inp, ip, r.ip, e);
  }

  lemma FewWereWritten(d: M.Job, ip: nat, out: seq<byte>, n: nat) returns (op: Op)
    requires Stands(d, Due(n), ip, out) && Succeeds(d, StateAt(d, Due(n), ip, out))
    ensures Leading(d, Due(n), ip, out, op)
  {
    hide M.Finish;
    SuccessGoesOn(d, StateAt(d, Due(n), ip, out));
    op := Few(d.inp[ip..ip + n]);
  }

  /** A copy that went well, and where it leads. */
  lemma CopyGoesOn(d: M.Job, s: M.State, e: nat, op: Op)
    requires op.Copy? && 1 <= op.off && op.next < 4 && !s.pc.Halt? && Succeeds(d, s)
    requires s.ip < e <= d.ipEnd + 2 && e >= 2 && d.inp[e - 2] % 4 == op.next
    requires M.Step(d, s) == M.Copy(d, s, e, op.off, op.len)
    ensures e <= d.ipEnd && Grounded(s.out, op) && |Apply(s.out, op)| <= d.cap
    ensures var next := StateAt(d, Leads(op), e, Apply(s.out, op));
      Succeeds(d, next) && M.Finish(d, s) == M.Finish(d, next)
  {
    hide M.Finish, M.Step, M.CopyBack;
    SuccessGoesOn(d, s);
  }

  lemma BehindRunWasWritten(d: M.Job, ip: nat, out: seq<byte>) returns (op: Op)
    requires Stands(d, Ran, ip, out) && Succeeds(d, StateAt(d, Ran, ip, out)) && d.inp[ip] < 16
    ensures Leading(d, Ran, ip, out, op)
  {
    hide M.Finish, M.Copy;
    var t, u := d.inp[ip] as int, d.inp[ip + 1] as int;
    op := Copy(BehindRun, 2049 + t / 4 + u * 4, 3, t % 4);
    assert (t / 4 + u * 4) % 4 == t / 4 && (t / 4 + u * 4) / 4 == u;
    assert d.inp[ip..ip + 2] == [t, u];
    CopyGoesOn(d, StateAt(d, Ran, ip, out), ip + 2, op);
  }

  lemma FormIsPlaced(t: byte, place: Place)
    requires t >= 16 || place.Paid?
    ensures !FormOf(t).BehindRun? && (FormOf(t).TwoBytes? ==> place.Paid?)
  {
  }

  /** At a match: the end marker, or a match in one of its forms. */
  lemma MatchWasWritten(d: M.Job, place: Place, ip: nat, out: seq<byte>) returns (op: Op)
    requires Stands(d, place, ip, out) && !place.Due? && ip < d.ipEnd && (d.inp[ip] >= 16 || place.Paid?)
    requires Succeeds(d, StateAt(d, place, ip, out)) && M.MatchOperand(d, d.inp[ip], ip + 1).Match?
    ensures Leading(d, place, ip, out, op)
  {
    hide M.Finish, M.Copy, M.MatchOperand, M.Step, FormBytes, FormFits, FormOf;
    var s, o := M.State(M.AtMatch(d.inp[ip]), ip + 1, out), M.MatchOperand(d, d.inp[ip], ip + 1);
    MatchIsReached(d, place, ip, out);
    MatchIsForm(d, ip);
    var form := FormOf(d.inp[ip]);
    op := Copy(form, o.off, o.n, d.inp[o.ip - 2] % 4);
    FormHasOffset(form, o.off, o.n);
    FormIsPlaced(d.inp[ip], place);
    MatchStep(d, ip, out, o.ip, o.off, o.n);
    CopyGoesOn(d, s, o.ip, op);
  }

  lemma EndWasWritten(d: M.Job, place: Place, ip: nat, out: seq<byte>) returns (len: nat, next: nat)
    requires Stands(d, place, ip, out) && !place.Due? && ip < d.ipEnd && (d.inp[ip] >= 16 || place.Paid?)
    requires Succeeds(d, StateAt(d, place, ip, out)) && !M.MatchOperand(d, d.inp[ip], ip + 1).Match?
    ensures len >= 3 && next < 4 && At(d, ip, EndBytes(len, next)) && ip + |EndBytes(len, next)| == d.ipEnd
    ensures M.Finish(d, StateAt(d, place, ip, out)).out == out
  {
    hide M.Finish, M.MatchOperand, EndBytes;
    var s := M.State(M.AtMatch(d.inp[ip]), ip + 1, out);
    MatchIsReached(d, place, ip, out);
    SuccessGoesOn(d, s);
    RunEnds(d, M.Step(d, s), M.Step(d, s));
    len, next := EndIsEnd(d, ip);
  }

  lemma SomethingFollows(d: M.Job, place: Place, ip: nat, out: seq<byte>)
    requires Stands(d, place, ip, out) && Succeeds(d, StateAt(d, place, ip, out)) && !place.Due?
    ensures ip < d.ipEnd
  {
    hide M.Finish;
    if place.Open? { SuccessGoesOn(d, StateAt(d, place, ip, out)); }
  }

  /** A part leads on, or the end marker ends the stream. */
  lemma PartWasWritten(d: M.Job, place: Place, ip: nat, out: seq<byte>)
      returns (last: bool, op: Op, len: nat, next: nat)
    requires Stands(d, place, ip, out) && Succeeds(d, StateAt(d, place, ip, out))
    ensures !last ==> Leading(d, place, ip, out, op)
    ensures last ==> !place.Due? && len >= 3 && next < 4 && At(d, ip, EndBytes(len, next))
    ensures last ==> ip + |EndBytes(len, next)| == d.ipEnd && M.Finish(d, StateAt(d, place, ip, out)).out == out
  {
    hide M.Finish, M.MatchOperand, Leading, EndBytes;
    last, op, len, next := false, Few([]), 3, 0;
    if place.Due? {
      op := FewWereWritten(d, ip, out, place.n);
    } else {
      SomethingFollows(d, place, ip, out);
      if d.inp[ip] < 16 && place.Open? {
        op := RunWasWritten(d, ip, out);
      } else if d.inp[ip] < 16 && place.Ran? {
        op := BehindRunWasWritten(d, ip, out);
      } else if M.MatchOperand(d, d.inp[ip], ip + 1).Match? {
        op := MatchWasWritten(d, place, ip, out);
      } else {
        last := true;
        len, next := EndWasWritten(d, place, ip, out);
      }
    }
  }

  /** What stands from ip to the end of the input, as parts and an end marker. */
  ghost predicate Spelled(d: M.Job, place: Place, ip: nat, out: seq<byte>, ops: seq<Op>, len: nat, next: nat) {
    && ip <= d.ipEnd <= |d.inp| && AllFit(place, out, ops) && !LastPlace(place, ops).Due?
    && len >= 3 && next < 4 && d.inp[ip..d.ipEnd] == AllBytes(place, out, ops) + EndBytes(len, next)
  }

  lemma PartBefore(d: M.Job, place: Place, ip: nat, out: seq<byte>, op: Op, rest: seq<Op>, len: nat, next: nat)
    requires Fits(place, op) && Grounded(out, op) && At(d, ip, OpBytes(place, op))
    requires Spelled(d, Leads(op), ip + |OpBytes(place, op)|, Apply(out, op), rest, len, next)
    ensures Spelled(d, place, ip, out, [op] + rest, len, next)
    ensures Meaning(place, out, [op] + rest) == Meaning(Leads(op), Apply(out, op), rest)
  {
    hide EndBytes, OpBytes, Fits, Grounded, Apply, Leads;
    var ops := [op] + rest;
    assert ops[0] == op && ops[1..] == rest;
    Joined(d.inp, ip, ip + |OpBytes(place, op)|, d.ipEnd);
  }

  /** From any place, what leads to success is a sequence of parts and an end marker. */
  lemma {:induction false} PartsWereWritten(d: M.Job, place: Place, ip: nat, out: seq<byte>)
      returns (ops: seq<Op>, len: nat, next: nat)
    requires Stands(d, place, ip, out) && Succeeds(d, StateAt(d, place, ip, out))
    ensures Spelled(d, place, ip, out, ops, len, next)
    ensures M.Finish(d, StateAt(d, place, ip, out)).out == Meaning(place, out, ops)
    decreases d.ipEnd - ip
  {
    hide M.Finish, EndBytes, OpBytes, Fits, Grounded, Apply, Leads;
    var last, op;
    last, op, len, next := PartWasWritten(d, place, ip, out);
    if last {
      ops := [];
    } else {
      var rest;
      rest, len, next := PartsWereWritten(d, Leads(op), ip + |OpBytes(place, op)|, Apply(out, op));
      PartBefore(d, place, ip, out, op, rest, len, next);
      ops := [op] + rest;
    }
  }

  // ----- Whole streams

  /** A stream may open with up to 238 literals behind one byte. */
  function FirstBytes(first: seq<byte>): seq<byte>
    requires |first| <= 238
  {
    if first == [] then [] else [17 + |first|] + first
  }

  function FirstPlace(first: seq<byte>): Place {
    if first == [] then Open else if |first| <= 3 then Paid else Ran
  }

  /**
   * The literals at the front, the parts behind them and the end marker make up s. Without any part
   * the end marker must not look like the byte that announces literals.
   */
  ghost predicate StreamOf(s: seq<byte>, first: seq<byte>, ops: seq<Op>, len: nat, next: nat) {
    && |first| <= 238 && AllFit(FirstPlace(first), first, ops) && !LastPlace(FirstPlace(first), ops).Due?
    && len >= 3 && next < 4 && (first == [] && ops == [] ==> len == 3 || len > 9)
    && s == FirstBytes(first) + (AllBytes(FirstPlace(first), first, ops) + EndBytes(len, next))
  }

  /** s is an LZO1X stream, and x is what it stands for. */
  ghost predicate StandsFor(s: seq<byte>, x: seq<byte>) {
    exists first, ops, len, next ::
      StreamOf(s, first, ops, len, next) && x == Meaning(FirstPlace(first), first, ops)
  }

  /** The decoder has taken the literals at the front and stands behind them. */
  lemma FirstIsDecoded(d: M.Job, first: seq<byte>)
    requires |first| <= 238 && |first| <= d.cap && d.Readable() && At(d, 0, FirstBytes(first))
    requires |FirstBytes(first)| + 1 < d.ipEnd && (first == [] ==> d.inp[0] <= 17)
    ensures var ip := |FirstBytes(first)|;
      && Stands(d, FirstPlace(first), ip, first)
      && Reaches(d, M.Start(d), StateAt(d, FirstPlace(first), ip, first))
  {
    hide M.Finish;
    var n := |first|;
    if n > 0 {
      AtSplits(d, 0, [17 + n], first);
      AtFirst(d, 0, [17 + n], 0);
      if n <= 3 {
        assert first == [] + first && Given(d, Due(n), 1, Few(first));
        FewAreDecoded(d, 1, [], Few(first));
      }
    }
  }

  /** Without literals at the front the first byte is a header or the marker's. */
  lemma OpensLow(d: M.Job, ops: seq<Op>, len: nat, next: nat)
    requires AllFit(Open, [], ops) && !LastPlace(Open, ops).Due? && len >= 3 && next < 4
    requires ops == [] ==> len == 3 || len > 9
    requires At(d, 0, AllBytes(Open, [], ops) + EndBytes(len, next))
    ensures d.inp[0] <= 17
  {
    var bytes := AllBytes(Open, [], ops) + EndBytes(len, next);
    AtFirst(d, 0, bytes, 0);
    if ops != [] { assert ops[0].Run?; }
  }

  lemma FrontIs(first: seq<byte>)
    requires |first| <= 238
    ensures first == [] ==> FirstBytes(first) == [] && FirstPlace(first) == Open
  {
  }

  /** Where the pieces of a stream stand. */
  lemma StreamLies(d: M.Job, first: seq<byte>, ops: seq<Op>, len: nat, next: nat)
    requires d.Readable() && StreamOf(d.inp[..d.ipEnd], first, ops, len, next)
    ensures var bytes := AllBytes(FirstPlace(first), first, ops);
      var ip := |FirstBytes(first)|;
      && At(d, 0, FirstBytes(first)) && At(d, ip, bytes) && At(d, ip + |bytes|, EndBytes(len, next))
      && ip + |bytes| + |EndBytes(len, next)| == d.ipEnd
      && (first == [] ==> d.inp[0] <= 17)
  {
    hide EndBytes, FirstBytes, FirstPlace;
    var bytes, end := AllBytes(FirstPlace(first), first, ops), EndBytes(len, next);
    assert d.inp[0..d.ipEnd] == d.inp[..d.ipEnd];
    AtSplits(d, 0, FirstBytes(first), bytes + end);
    AtSplits(d, |FirstBytes(first)|, bytes, end);
    FrontIs(first);
    if first == [] { OpensLow(d, ops, len, next); }
  }

  /** Every stream of the grammar is accepted as what it stands for, given room for that. */
  lemma StreamIsAccepted(d: M.Job, first: seq<byte>, ops: seq<Op>, len: nat, next: nat)
    requires d.Readable() && StreamOf(d.inp[..d.ipEnd], first, ops, len, next)
    requires |Meaning(FirstPlace(first), first, ops)| <= d.cap
    ensures M.Decode(d) == M.State(M.Halt(M.Ok), d.ipEnd, Meaning(FirstPlace(first), first, ops))
  {
    hide M.Finish, EndBytes, FirstBytes, FirstPlace, At, Stands, StateAt, AllBytes, Meaning, LastPlace;
    var place, x := FirstPlace(first), Meaning(FirstPlace(first), first, ops);
    var ip, bytes := |FirstBytes(first)|, AllBytes(FirstPlace(first), first, ops);
    StreamLies(d, first, ops, len, next);
    FirstIsDecoded(d, first);
    OpsAreDecoded(d, place, ip, first, ops);
    EndIsDecoded(d, LastPlace(place, ops), ip + |bytes|, x, len, next);
  }

  lemma HaltStays(d: M.Job, s: M.State)
    requires M.Valid(d, s) && s.pc.Halt?
    ensures M.Finish(d, s) == s
  {
  }

  lemma FirstOverflows(d: M.Job, first: seq<byte>)
    requires 1 <= |first| <= 238 && |first| > d.cap && d.Readable() && At(d, 0, FirstBytes(first))
    ensures M.Decode(d).pc == M.Halt(M.OutputOverrun)
  {
    hide M.Finish;
    AtFirst(d, 0, FirstBytes(first), 0);
    var s := M.Start(d);
    if |first| <= 3 {
      OneStep(d, s, M.Fail(s, M.OutputOverrun));
      RunEnds(d, s, M.Fail(s, M.OutputOverrun));
    } else {
      HaltStays(d, s);
    }
  }

  /** With too little room it is not, and that is what the decoder says. */
  lemma TooLittleRoomIsReported(d: M.Job, first: seq<byte>, ops: seq<Op>, len: nat, next: nat)
    requires d.Readable() && StreamOf(d.inp[..d.ipEnd], first, ops, len, next)
    requires |Meaning(FirstPlace(first), first, ops)| > d.cap
    ensures M.Decode(d).pc == M.Halt(M.OutputOverrun)
  {
    hide EndBytes, M.Finish, FirstBytes, At, Stands, StateAt;
    StreamLies(d, first, ops, len, next);
    if |first| <= d.cap {
      FirstIsDecoded(d, first);
      OpsOverflow(d, FirstPlace(first), |FirstBytes(first)|, first, ops);
    } else {
      FirstOverflows(d, first);
    }
  }

  lemma FirstWasWritten(d: M.Job)
    requires d.Readable() && M.Decode(d).pc == M.Halt(M.Ok)
    ensures var n := d.inp[0] as int - 17;
      var first := if n <= 0 then [] else if n < d.ipEnd then d.inp[1..n + 1] else [];
      && (n > 0 ==> n < d.ipEnd && d.inp[0..n + 1] == FirstBytes(first))
      && var ip := if n <= 0 then 0 else n + 1;
         && Stands(d, FirstPlace(first), ip, first) && Succeeds(d, StateAt(d, FirstPlace(first), ip, first))
         && M.Finish(d, M.Start(d)) == M.Finish(d, StateAt(d, FirstPlace(first), ip, first))
  {
    hide M.Finish;
    var n := d.inp[0] as int - 17;
    var s := M.Start(d);
    if s.pc.Halt? {
      RunEnds(d, s, s);
    } else if 0 < n < 4 {
      SuccessGoesOn(d, s);
      assert [] + d.inp[1..n + 1] == d.inp[1..n + 1];
    }
  }

  lemma MarkerIsLow(d: M.Job, len: nat, next: nat)
    requires d.Readable() && d.inp[0] <= 17 && len >= 3 && next < 4 && At(d, 0, EndBytes(len, next))
    ensures len == 3 || len > 9
  {
    AtFirst(d, 0, EndBytes(len, next), 0);
  }

  lemma WholeInput(d: M.Job, b: seq<byte>)
    requires d.Readable() && d.inp[..d.ipEnd] == b
    ensures At(d, 0, b)
  {
  }

  /** A stream that stops where a part or the end marker should begin, or inside announced literals. */
  lemma BrokenOffStreamIsReported(d: M.Job, first: seq<byte>, ops: seq<Op>)
    requires d.Readable() && |first| <= 238 && AllFit(FirstPlace(first), first, ops)
    requires d.inp[..d.ipEnd] == FirstBytes(first) + AllBytes(FirstPlace(first), first, ops)
    requires ops != [] && |AllBytes(FirstPlace(first), first, ops)| >= 2 && (first == [] ==> d.inp[0] <= 17)
    requires |Meaning(FirstPlace(first), first, ops)| + 3 <= d.cap
    ensures M.Decode(d).pc ==
      M.Halt(if LastPlace(FirstPlace(first), ops).Open? then M.EofNotFound else M.InputOverrun)
  {
    hide M.Finish, FirstBytes, FirstPlace, StateAt, Stands, At, AllFit, AllBytes, Meaning, LastPlace;
    WholeInput(d, FirstBytes(first) + AllBytes(FirstPlace(first), first, ops));
    AtSplits(d, 0, FirstBytes(first), AllBytes(FirstPlace(first), first, ops));
    FrontIs(first);
    FirstIsDecoded(d, first);
    MissingEndIsReported(d, FirstPlace(first), |FirstBytes(first)|, first, ops);
  }

  /** A stream whose next match reaches back before the output. */
  lemma StrayStreamIsReported(d: M.Job, first: seq<byte>, ops: seq<Op>, op: Op, rest: seq<byte>)
    requires d.Readable() && |first| <= 238 && AllFit(FirstPlace(first), first, ops)
    requires op.Copy? && Fits(LastPlace(FirstPlace(first), ops), op)
    requires d.inp[..d.ipEnd] ==
      FirstBytes(first)
      + (AllBytes(FirstPlace(first), first, ops) + OpBytes(LastPlace(FirstPlace(first), ops), op)) + rest
    requires op.off > |Meaning(FirstPlace(first), first, ops)| && (first == [] ==> d.inp[0] <= 17)
    requires |Meaning(FirstPlace(first), first, ops)| <= d.cap
    ensures M.Decode(d).pc == M.Halt(M.LookbehindOverrun)
  {
    hide M.Finish, FirstBytes, FirstPlace, StateAt, Stands, AllFit, AllBytes, Meaning, LastPlace, FormBytes, Fits;
    var bytes := AllBytes(FirstPlace(first), first, ops) + OpBytes(LastPlace(FirstPlace(first), ops), op);
    WholeInput(d, FirstBytes(first) + bytes + rest);
    AtSplits(d, 0, FirstBytes(first) + bytes, rest);
    AtSplits(d, 0, FirstBytes(first), bytes);
    FrontIs(first);
    FirstIsDecoded(d, first);
    StrayOffsetIsReported(d, FirstPlace(first), |FirstBytes(first)|, first, ops, op);
  }

  /** And whatever is accepted is such a stream. */
  lemma AcceptedStandsFor(d: M.Job)
    requires d.Readable() && M.Decode(d).pc == M.Halt(M.Ok)
    ensures StandsFor(d.inp[..d.ipEnd], M.Decode(d).out)
  {
    hide M.Finish, EndBytes;
    var n := d.inp[0] as int - 17;
    var first := if n <= 0 then [] else if n < d.ipEnd then d.inp[1..n + 1] else [];
    var ip := if n <= 0 then 0 else n + 1;
    FirstWasWritten(d);
    var ops, len, next := PartsWereWritten(d, FirstPlace(first), ip, first);
    Joined(d.inp, 0, ip, d.ipEnd);
    assert d.inp[0..d.ipEnd] == d.inp[..d.ipEnd];
    if first == [] && ops == [] { MarkerIsLow(d, len, next); }
    assert StreamOf(d.inp[..d.ipEnd], first, ops, len, next);
  }

  /** The decoder accepts exactly the streams of the grammar that fit, and yields their meaning. */
  lemma AcceptsExactly(d: M.Job, x: seq<byte>)
    requires d.Readable()
    ensures M.Decode(d) == M.State(M.Halt(M.Ok), d.ipEnd, x) <==>
      StandsFor(d.inp[..d.ipEnd], x) && |x| <= d.cap
  {
    hide M.Decode;
    if M.Decode(d) == M.State(M.Halt(M.Ok), d.ipEnd, x) { AcceptedStandsFor(d); }
    if StandsFor(d.inp[..d.ipEnd], x) && |x| <= d.cap {
      var first, ops, len, next :|
        StreamOf(d.inp[..d.ipEnd], first, ops, len, next) && x == Meaning(FirstPlace(first), first, ops);
      StreamIsAccepted(d, first, ops, len, next);
    }
  }
}
