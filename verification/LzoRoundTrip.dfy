/**
 * Every stream the compressor may write is decoded back to its input. The compressor's output is
 * described left to right instead of by back-patching, and the decoder is run along it.
 */
module LzoRoundTrip {
  import opened Bytes
  import opened LzoFormat
  import opened LzoGrammar
  import opened LzoAcceptance
  import M = LzoMachine

  // ----- The stream read from left to right

  /** Literals as they stand in the stream; short runs are counted in the match before them. */
  function Lits(lits: seq<byte>): seq<byte> {
    if |lits| <= 3 then lits else LitHeader(|lits|) + lits
  }

  /** How many literals instruction k begins with; behind the last one stand the final literals. */
  function RunLength(x: seq<byte>, insts: seq<Inst>, k: nat): nat
    requires Parses(x, insts) && k <= |insts|
  {
    ParsesInside(x, insts, k);
    (if k < |insts| then insts[k].at else |x|) - Boundary(insts, k)
  }

  /** The literal count stored in the two low bits of the match before instruction k. */
  function Tag(n: nat): byte {
    if n <= 3 then n else 0
  }

  /** What follows the match of instruction k - 1. */
  function Rest(x: seq<byte>, insts: seq<Inst>, k: nat): seq<byte>
    requires Parses(x, insts) && k <= |insts|
    decreases |insts| - k
  {
    ParsesInside(x, insts, k);
    if k == |insts| then Lits(x[End(insts)..]) + EOF_MARK
    else
      Lits(x[insts[k].from..insts[k].at])
      + Tagged(MatchBytes(insts[k].to - insts[k].at, insts[k].off), Tag(RunLength(x, insts, k + 1)))
      + Rest(x, insts, k + 1)
  }

  /** Back-patching is the same as tagging: the low two bits were free. */
  lemma PutLitsTags(b: seq<byte>, lits: seq<byte>)
    requires b == [] ==> |lits| > 3
    requires b != [] ==> |b| >= 2 && b[|b| - 2] % 4 == 0
    ensures PutLits(b, lits) == (if b == [] then [] else Tagged(b, Tag(|lits|))) + Lits(lits)
  {
  }

  lemma TaggedConcat(a: seq<byte>, m: seq<byte>, t: byte)
    requires |m| >= 2 && m[|m| - 2] % 4 == 0 && t < 4
    ensures Tagged(a + m, t) == a + Tagged(m, t)
  {
  }

  function Written(x: seq<byte>, insts: seq<Inst>, k: nat): (r: seq<byte>)
    requires Parses(x, insts) && k <= |insts|
    ensures r != [] ==> |r| >= 2 && r[|r| - 2] % 4 == 0
  {
    ParsesPrefix(x, insts, k);
    Body(x, insts[..k])
  }

  /** One instruction later, the tag has moved from the old last match to the new one. */
  lemma TagMoves(b: seq<byte>, lits: seq<byte>, m: seq<byte>, t: byte, rest: seq<byte>)
    requires b == [] ==> |lits| > 3
    requires b != [] ==> |b| >= 2 && b[|b| - 2] % 4 == 0
    requires |m| >= 2 && m[|m| - 2] % 4 == 0 && t < 4
    ensures Tagged(PutLits(b, lits) + m, t) + rest
         == (if b == [] then [] else Tagged(b, Tag(|lits|))) + (Lits(lits) + Tagged(m, t) + rest)
  {
    hide PutLits, Lits, Tagged;
    PutLitsTags(b, lits);
    TaggedConcat(PutLits(b, lits), m, t);
  }

  lemma WrittenStep(x: seq<byte>, insts: seq<Inst>, k: nat)
    requires Parses(x, insts) && k < |insts|
    ensures GoodInst(x, insts[k])
    ensures Written(x, insts, k) == [] ==> insts[k].at - insts[k].from > 3
    ensures Written(x, insts, k) == [] <==> k == 0
    ensures var i := insts[k];
      Written(x, insts, k + 1) == PutLits(Written(x, insts, k), x[i.from..i.at]) + MatchBytes(i.to - i.at, i.off)
  {
    hide Parses, GoodInst, PutLits, MatchBytes;
    ParsesInside(x, insts, k);
    ParsesPrefix(x, insts, k);
    ParsesPrefix(x, insts, k + 1);
    var p := insts[..k + 1];
    assert p[..k] == insts[..k] && p[k] == insts[k];
  }

  /** What stands before Rest in the stream: all that was written, its last match tagged. */
  function Front(x: seq<byte>, insts: seq<Inst>, k: nat): seq<byte>
    requires Parses(x, insts) && k <= |insts|
  {
    var w := Written(x, insts, k);
    if w == [] then [] else Tagged(w, Tag(RunLength(x, insts, k)))
  }

  lemma TagMovesOver(x: seq<byte>, insts: seq<Inst>, k: nat)
    requires Parses(x, insts) && k < |insts|
    ensures Front(x, insts, k + 1) + Rest(x, insts, k + 1) == Front(x, insts, k) + Rest(x, insts, k)
  {
    hide Parses, GoodInst, PutLits, MatchBytes, Written, Tagged, Lits;
    WrittenStep(x, insts, k);
    ParsesInside(x, insts, k);
    var i := insts[k];
    TagMoves(Written(x, insts, k), x[i.from..i.at], MatchBytes(i.to - i.at, i.off),
             Tag(RunLength(x, insts, k + 1)), Rest(x, insts, k + 1));
  }

  lemma WholeStream(x: seq<byte>, insts: seq<Inst>)
    requires Parses(x, insts) && insts != []
    ensures Stream(x, insts) == Front(x, insts, |insts|) + Rest(x, insts, |insts|)
  {
    hide Parses, GoodInst, PutLits, Tagged, Lits, Body;
    assert insts[..|insts|] == insts;
    ParsesInside(x, insts, |insts|);
    PutLitsTags(Body(x, insts), x[End(insts)..]);
  }

  /** The stream splits before each instruction into what was written and what is still to read. */
  lemma {:induction false} StreamSplits(x: seq<byte>, insts: seq<Inst>, k: nat)
    requires Parses(x, insts) && k <= |insts| && insts != []
    ensures Stream(x, insts) == Front(x, insts, k) + Rest(x, insts, k)
    decreases |insts| - k
  {
    hide Parses, Front, Rest, Stream;
    if k == |insts| {
      WholeStream(x, insts);
    } else {
      StreamSplits(x, insts, k + 1);
      TagMovesOver(x, insts, k);
    }
  }

  lemma StreamReads(x: seq<byte>, insts: seq<Inst>)
    requires Parses(x, insts) && insts != []
    ensures Stream(x, insts) == Rest(x, insts, 0)
  {
    hide Stream, Rest, Tagged;
    StreamSplits(x, insts, 0);
    WrittenStep(x, insts, 0);
  }

  // ----- The bytes are those of the grammar

  lemma {:induction false} ZeroRunIsCount(n: nat)
    requires n >= 1
    ensures ZeroRun(n) == Count(n)
  {
    if n <= 255 {
      assert Count(n) == [n];
    } else {
      ZeroRunIsCount(n - 255);
      CountUnfolds(n);
    }
  }

  lemma HeadersAgree(n: nat)
    requires n >= 4
    ensures LitHeader(n) == Header(n)
    ensures M3Head(n) == Head(32, 31, n)
    ensures M4Head(n, 0) == Head(16, 7, n) && M4Head(n, 1) == Head(24, 7, n)
  {
    hide ZeroRun, Count;
    if n > 18 { ZeroRunIsCount(n - 18); }
    if n > 33 { ZeroRunIsCount(n - 33); }
    if n > 9 { ZeroRunIsCount(n - 9); }
  }

  /** The form the compressor gives a match: the first that fits. */
  function FormFor(len: nat, off: nat): Form {
    if len <= 8 && off <= 2048 then Form.M2 else if off <= 16384 then M3 else M4
  }

  lemma LowFourteenBits(o: nat)
    ensures o % 16384 == 64 * (o / 64 % 256) + o % 64
  {
    var a, b := o / 64, o % 64;
    assert o == 16384 * (a / 256) + (64 * (a % 256) + b);
  }

  lemma OffsetsAgree(o: nat, t: byte)
    requires t < 4
    ensures Tagged(OffsetBytes(o), t) == OffsetField(o % 16384, t)
  {
    LowTwoBitsAreFree(o);
    LowFourteenBits(o);
    var b, c := o % 64, o / 64 % 256;
    assert (64 * c + b) % 64 == b && (64 * c + b) / 64 == c;
  }

  lemma MatchBytesAreForm(len: nat, off: nat, t: byte)
    requires len >= 4 && 1 <= off <= M4_MAX_OFFSET && t < 4
    ensures FormFits(FormFor(len, off), off, len)
    ensures Tagged(MatchBytes(len, off), t) == FormBytes(FormFor(len, off), off, len, t)
  {
    hide M3Head, M4Head, Head, OffsetBytes, OffsetField;
    HeadersAgree(len);
    if off <= M3_MAX_OFFSET {
      TaggedConcat(M3Head(len), OffsetBytes(off - 1), t);
      OffsetsAgree(off - 1, t);
    } else {
      var o := off - 0x4000;
      TaggedConcat(M4Head(len, o / 0x4000 % 2), OffsetBytes(o), t);
      OffsetsAgree(o, t);
    }
  }

  /** No other form the decoder would read for this match is shorter. */
  lemma MatchBytesAreShortest(len: nat, off: nat, form: Form)
    requires len >= 4 && FormFits(form, off, len)
    ensures off <= M4_MAX_OFFSET && |MatchBytes(len, off)| <= |FormBytes(form, off, len, 0)|
  {
    hide Head, OffsetField;
    MatchBytesAreForm(len, off, 0);
  }

  // ----- The parts of a compressed stream

  function LitOps(lits: seq<byte>): seq<Op> {
    if lits == [] then [] else if |lits| <= 3 then [Few(lits)] else [Run(lits)]
  }

  /** The place behind a match that n literals follow. */
  function PlaceBefore(n: nat): Place {
    if Tag(n) == 0 then Open else Due(n)
  }

  function CopyOf(i: Inst, n: nat): Op
    requires i.at <= i.to
  {
    Copy(FormFor(i.to - i.at, i.off), i.off, i.to - i.at, Tag(n))
  }

  /** The parts from instruction k on. */
  function OpsFrom(x: seq<byte>, insts: seq<Inst>, k: nat): seq<Op>
    requires Parses(x, insts) && k <= |insts|
    decreases |insts| - k
  {
    ParsesInside(x, insts, k);
    if k == |insts| then LitOps(x[End(insts)..])
    else
      LitOps(x[insts[k].from..insts[k].at])
      + ([CopyOf(insts[k], RunLength(x, insts, k + 1))] + OpsFrom(x, insts, k + 1))
  }

  /** These parts make up the bytes s and rebuild the rest of x. */
  ghost predicate Rebuilds(place: Place, out: seq<byte>, ops: seq<Op>, s: seq<byte>, x: seq<byte>) {
    && AllFit(place, out, ops) && !LastPlace(place, ops).Due?
    && s == AllBytes(place, out, ops) + EndBytes(3, 0) && Meaning(place, out, ops) == x
  }

  lemma PartBefore(place: Place, out: seq<byte>, op: Op, ops: seq<Op>, s: seq<byte>, x: seq<byte>)
    requires Fits(place, op) && Grounded(out, op) && Rebuilds(Leads(op), Apply(out, op), ops, s, x)
    ensures Rebuilds(place, out, [op] + ops, OpBytes(place, op) + s, x)
  {
    hide OpBytes, Fits, Grounded, Apply, Leads, EndBytes;
    assert ([op] + ops)[0] == op && ([op] + ops)[1..] == ops;
  }

  /** Literals behind a match, or none, and what follows them at a match. */
  lemma LitsBefore(out: seq<byte>, lits: seq<byte>, ops: seq<Op>, s: seq<byte>, x: seq<byte>)
    requires var place := if lits == [] then Open else if |lits| <= 3 then Paid else Ran;
      Rebuilds(place, out + lits, ops, s, x)
    ensures Rebuilds(PlaceBefore(|lits|), out, LitOps(lits) + ops, Lits(lits) + s, x)
  {
    hide Rebuilds, Header;
    if lits == [] {
      assert out + lits == out && LitOps(lits) + ops == ops && Lits(lits) + s == s;
    } else if |lits| <= 3 {
      PartBefore(Due(|lits|), out, Few(lits), ops, s, x);
    } else {
      HeadersAgree(|lits|);
      PartBefore(Open, out, Run(lits), ops, s, x);
    }
  }

  /** A match of the parse rebuilds exactly the bytes it stands for. */
  lemma MatchIsReplayed(x: seq<byte>, i: Inst, n: nat)
    requires GoodInst(x, i)
    ensures Grounded(x[..i.at], CopyOf(i, n)) && Apply(x[..i.at], CopyOf(i, n)) == x[..i.to]
  {
    assert x[..i.to][..i.at] == x[..i.at];
    assert x[..i.to][i.at..] == x[i.at..i.to];
    assert x[..i.to][i.at - i.off..i.to - i.off] == x[i.at - i.off..i.to - i.off];
    M.CopyBackRepeats(x[..i.at], i.off, x[..i.to]);
  }

  lemma MatchBefore(x: seq<byte>, i: Inst, place: Place, n: nat, ops: seq<Op>, s: seq<byte>)
    requires GoodInst(x, i) && !place.Due? && Rebuilds(PlaceBefore(n), x[..i.to], ops, s, x)
    ensures Rebuilds(place, x[..i.at], [CopyOf(i, n)] + ops, Tagged(MatchBytes(i.to - i.at, i.off), Tag(n)) + s, x)
  {
    hide Rebuilds, FormBytes, MatchBytes, Tagged, Apply, Grounded;
    var op := CopyOf(i, n);
    MatchBytesAreForm(i.to - i.at, i.off, Tag(n));
    MatchIsReplayed(x, i, n);
    PartBefore(place, x[..i.at], op, ops, s, x);
  }

  lemma NothingBefore(place: Place, x: seq<byte>)
    requires !place.Due?
    ensures Rebuilds(place, x, [], EOF_MARK, x)
  {
    assert EndBytes(3, 0) == EOF_MARK;
  }

  /** From behind any match, the stream consists of parts of the grammar that rebuild the rest of x. */
  lemma {:induction false} RestIsParts(x: seq<byte>, insts: seq<Inst>, k: nat)
    requires Parses(x, insts) && k <= |insts|
    ensures Boundary(insts, k) <= |x|
    ensures Rebuilds(PlaceBefore(RunLength(x, insts, k)), x[..Boundary(insts, k)],
                     OpsFrom(x, insts, k), Rest(x, insts, k), x)
    decreases |insts| - k
  {
    hide Parses, GoodInst, Lits, LitOps, Tagged, MatchBytes, Rebuilds, CopyOf, PlaceBefore;
    ParsesInside(x, insts, k);
    if k == |insts| {
      var from, lits := End(insts), x[End(insts)..];
      assert x[..from] + lits == x && LitOps(lits) + [] == LitOps(lits);
      NothingBefore(if lits == [] then Open else if |lits| <= 3 then Paid else Ran, x);
      LitsBefore(x[..from], lits, [], EOF_MARK, x);
    } else {
      var i, n := insts[k], RunLength(x, insts, k + 1);
      var lits, m, rest := x[i.from..i.at], Tagged(MatchBytes(i.to - i.at, i.off), Tag(n)), Rest(x, insts, k + 1);
      var ops := [CopyOf(i, n)] + OpsFrom(x, insts, k + 1);
      RestIsParts(x, insts, k + 1);
      MatchBefore(x, i, if lits == [] then Open else if |lits| <= 3 then Paid else Ran, n, OpsFrom(x, insts, k + 1), rest);
      assert x[..i.from] + lits == x[..i.at];
      LitsBefore(x[..i.from], lits, ops, m + rest, x);
      assert Lits(lits) + m + rest == Lits(lits) + (m + rest);
    }
  }

  /** Without a match the stream is literals and the end marker. */
  lemma LiteralStream(x: seq<byte>)
    ensures Parses(x, [])
    ensures Stream(x, []) == if 1 <= |x| <= 238 then [17 + |x|] + x + EOF_MARK else Rest(x, [], 0)
  {
    EmptyParse(x);
    hide Parses, Body, LitHeader;
    assert x[0..] == x;
    assert Stream(x, []) == PutTail([], x) + EOF_MARK && Rest(x, [], 0) == Lits(x) + EOF_MARK;
    if |x| > 238 {
      PutLitsTags([], x);
      assert PutTail([], x) == Lits(x);
    } else if x == [] {
      assert PutTail([], x) == Lits(x);
    }
  }

  lemma OpensOpen(x: seq<byte>, insts: seq<Inst>)
    requires Parses(x, insts)
    requires insts == [] ==> x == [] || |x| > 238
    ensures PlaceBefore(RunLength(x, insts, 0)) == Open && Boundary(insts, 0) == 0
  {
    ParsesInside(x, insts, 0);
  }

  /** Every stream the compressor may write is one of the grammar, and stands for its input. */
  lemma StreamStandsFor(x: seq<byte>, insts: seq<Inst>)
    requires Parses(x, insts)
    ensures StandsFor(Stream(x, insts), x)
  {
    hide Rest, Stream, OpsFrom, EndBytes;
    if insts == [] && 1 <= |x| <= 238 {
      LiteralStream(x);
      NothingBefore(FirstPlace(x), x);
      assert StreamOf(Stream(x, insts), x, [], 3, 0);
    } else {
      if insts != [] { StreamReads(x, insts); } else { LiteralStream(x); }
      RestIsParts(x, insts, 0);
      OpensOpen(x, insts);
      assert x[..0] == [];
      assert StreamOf(Stream(x, insts), [], OpsFrom(x, insts, 0), 3, 0);
    }
  }

  /** The end marker of the compressor. */
  lemma StreamEnds(x: seq<byte>, insts: seq<Inst>)
    requires Parses(x, insts)
    ensures var s := Stream(x, insts); |s| >= 3 && s[|s| - 3..] == [17, 0, 0]
  {
    hide Parses, Body, PutTail;
  }

  /**
   * Round trip: whatever the parse the match finder happens to choose, and whatever memory lies
   * behind the stream, the checked decoder returns success, all of the stream and exactly x.
   */
  lemma StreamIsDecoded(x: seq<byte>, insts: seq<Inst>, behind: seq<byte>, cap: nat)
    requires Parses(x, insts) && |behind| >= M.SLACK && |x| <= cap
    ensures Stream(x, insts) != []
    ensures M.Decode(M.On(Stream(x, insts), behind, cap))
         == M.State(M.Halt(M.Ok), |Stream(x, insts)|, x)
  {
    hide M.Decode, Stream, StandsFor;
    var d := M.On(Stream(x, insts), behind, cap);
    StreamStandsFor(x, insts);
    StreamEnds(x, insts);
    assert d.inp[..d.ipEnd] == Stream(x, insts);
    AcceptsExactly(d, x);
  }

  lemma EncodingIsDecoded(s: seq<byte>, x: seq<byte>, behind: seq<byte>, cap: nat)
    requires Encodes(s, x) && |behind| >= M.SLACK && |x| <= cap
    ensures s != [] && M.Decode(M.On(s, behind, cap)) == M.State(M.Halt(M.Ok), |s|, x)
  {
    var insts :| Parses(x, insts) && s == Stream(x, insts);
    StreamIsDecoded(x, insts, behind, cap);
  }

  /** Different inputs never compress to the same stream. */
  lemma EncodingIsInjective(s: seq<byte>, x: seq<byte>, y: seq<byte>)
    requires Encodes(s, x) && Encodes(s, y)
    ensures x == y
  {
    hide Encodes, M.Decode;
    var behind: seq<byte> := seq(M.SLACK, _ => 0);
    EncodingIsDecoded(s, x, behind, |x| + |y|);
    EncodingIsDecoded(s, y, behind, |x| + |y|);
  }

  /** A truncated compressed stream is never accepted, whatever stands behind the cut. */
  lemma TruncationIsRejected(s: seq<byte>, x: seq<byte>, n: nat, behind: seq<byte>, cap: nat)
    requires Encodes(s, x) && 1 <= n < |s| && |behind| >= M.SLACK
    ensures M.Decode(M.On(s[..n], behind, cap)).pc != M.Halt(M.Ok)
  {
    EncodingIsDecoded(s, x, behind, |x|);
    M.AcceptedStreamsArePrefixFree(s[..n], s, behind, behind, cap, |x|);
  }

  /** Anything appended to a compressed stream is reported, and x still comes out. */
  lemma TrailingJunkIsReported(s: seq<byte>, x: seq<byte>, junk: seq<byte>, behind: seq<byte>, cap: nat)
    requires Encodes(s, x) && junk != [] && |behind| >= M.SLACK && |x| <= cap
    ensures M.Decode(M.On(s + junk, behind, cap)) == M.State(M.Halt(M.InputNotConsumed), |s|, x)
  {
    EncodingIsDecoded(s, x, behind, cap);
    M.AcceptedStreamExtends(M.On(s, behind, cap), M.On(s + junk, behind, cap));
  }
}
