/**
 * The parse lzo1x_1_compress chooses, as a function of the input: the hash-guided search for
 * matches, block by block. The word size of the build is its only other argument.
 */
module LzoParse {
  import opened Bytes
  import opened LzoFormat
  import opened LzoWords

  const DICT_SIZE := 16384
  const BLOCK := 49152

  /** DINDEX: the top 14 bits of a 32-bit product. The proofs use only its range. */
  function DictIndex(dv: nat): (r: nat)
    ensures r < DICT_SIZE
  {
    0x1824429d * dv % 0x1_0000_0000 / 0x4_0000
  }

  // ----- Equal bytes, found by words

  /** The n bytes at p and at q are equal. */
  ghost predicate SameBytes(x: seq<byte>, p: nat, q: nat, n: nat) {
    p + n <= |x| && q + n <= |x| && x[p..p + n] == x[q..q + n]
  }

  lemma SameBytesGrow(x: seq<byte>, p: nat, q: nat, n: nat, m: nat)
    requires SameBytes(x, p, q, n) && SameBytes(x, p + n, q + n, m)
    ensures SameBytes(x, p, q, n + m)
  {
    assert x[p..p + n + m] == x[p..p + n] + x[p + n..p + n + m];
    assert x[q..q + n + m] == x[q..q + n] + x[q + n..q + n + m];
  }

  /** UA_GET of the w bytes at p and at q, exclusive-ORed. */
  function WordDifference(x: seq<byte>, p: nat, q: nat, w: nat): nat
    requires p + w <= |x| && q + w <= |x|
  {
    BitXor(Load(x[p..p + w]), Load(x[q..q + w]))
  }

  lemma EqualWord(x: seq<byte>, p: nat, q: nat, n: nat, w: nat)
    requires SameBytes(x, p, q, n) && p + n + w <= |x| && q + n + w <= |x|
    requires WordDifference(x, p + n, q + n, w) == 0
    ensures SameBytes(x, p, q, n + w)
  {
    var a, b := x[p + n..p + n + w], x[q + n..q + n + w];
    XorZeroIffEqual(Load(a), Load(b));
    LoadIsInjective(a, b);
    SameBytesGrow(x, p, q, n, w);
  }

  lemma FirstDifference(x: seq<byte>, p: nat, q: nat, n: nat, w: nat, m: nat)
    requires SameBytes(x, p, q, n) && p + n + w <= |x| && q + n + w <= |x| && m < w
    requires var a, b := x[p + n..p + n + w], x[q + n..q + n + w]; a[..m] == b[..m] && a[m] != b[m]
    ensures SameBytes(x, p, q, n + m) && x[p + n + m] != x[q + n + m]
  {
    var a, b := x[p + n..p + n + w], x[q + n..q + n + w];
    assert x[p + n..p + n + m] == a[..m] && x[q + n..q + n + m] == b[..m];
    SameBytesGrow(x, p, q, n, m);
  }

  lemma UnequalWord(x: seq<byte>, p: nat, q: nat, n: nat, w: nat)
    requires SameBytes(x, p, q, n) && p + n + w <= |x| && q + n + w <= |x|
    requires WordDifference(x, p + n, q + n, w) > 0
    ensures var m := TrailingZeros(WordDifference(x, p + n, q + n, w)) / 8;
      m < w && SameBytes(x, p, q, n + m) && x[p + n + m] != x[q + n + m]
  {
    hide TrailingZeros, BitXor, Load, SameBytes;
    var a, b := x[p + n..p + n + w], x[q + n..q + n + w];
    XorZeroIffEqual(Load(a), Load(b));
    TrailingZerosCountBytes(a, b);
    FirstDifference(x, p, q, n, w, TrailingZeros(BitXor(Load(a), Load(b))) / 8);
  }

  function WordSize(wide: bool): nat {
    if wide then 8 else 4
  }

  /** The length of a match known to have len bytes: words are compared until they differ. */
  function ExtendMatch(x: seq<byte>, pos: nat, ip: nat, len: nat, ipEnd: nat, wide: bool): (r: nat)
    requires pos < ip && len >= 4 && ip + len < ipEnd + 4 && ipEnd + 20 <= |x|
    decreases ipEnd + 4 - ip - len
  {
    var w := WordSize(wide);
    var v := WordDifference(x, pos + len, ip + len, w);
    if v != 0 then len + TrailingZeros(v) / 8
    else if ip + len + w >= ipEnd then len + w
    else ExtendMatch(x, pos, ip, len + w, ipEnd, wide)
  }

  /** n bytes are a whole number of words. */
  predicate WholeWords(n: nat, wide: bool) {
    n % (if wide then 8 else 4) == 0
  }

  lemma NextWord(n: nat, wide: bool)
    ensures WholeWords(0, wide) && (WholeWords(n, wide) ==> WholeWords(n + WordSize(wide), wide))
  {
  }

  /**
   * The longest common prefix, unless the search stopped because it had come within 20 bytes of
   * the end of the block; it stops at the first whole word there, and never beyond the block.
   */
  lemma {:induction false} ExtendedMatchIsLongest(x: seq<byte>, pos: nat, ip: nat, len: nat, ipEnd: nat, wide: bool)
    requires pos < ip && len >= 4 && ip + len < ipEnd + 4 && ipEnd + 20 <= |x|
    requires SameBytes(x, pos, ip, len)
    ensures var r := ExtendMatch(x, pos, ip, len, ipEnd, wide);
      && len <= r && ip + r < ipEnd + 20 && SameBytes(x, pos, ip, r)
      && (x[pos + r] != x[ip + r] || (ip + r >= ipEnd && WholeWords(r - len, wide)))
      && (r <= len + (if wide then 8 else 4) || ip + r < ipEnd + if wide then 8 else 4)
    decreases ipEnd + 4 - ip - len
  {
    hide WordDifference, SameBytes, TrailingZeros, WholeWords;
    var w := WordSize(wide);
    NextWord(0, wide);
    if WordDifference(x, pos + len, ip + len, w) != 0 {
      UnequalWord(x, pos, ip, len, w);
    } else {
      EqualWord(x, pos, ip, len, w);
      if ip + len + w < ipEnd {
        ExtendedMatchIsLongest(x, pos, ip, len + w, ipEnd, wide);
        var r := ExtendMatch(x, pos, ip, len + w, ipEnd, wide);
        NextWord(r - len - w, wide);
      }
    }
  }

  // ----- One block

  lemma ParsesGrows(x: seq<byte>, insts: seq<Inst>, i: Inst)
    requires Parses(x, insts) && GoodInst(x, i) && i.from == End(insts)
    requires insts == [] ==> i.at >= 4
    ensures Parses(x, insts + [i])
  {
    hide GoodInst;
    var p := insts + [i];
    forall k | 0 <= k < |p| ensures GoodInst(x, p[k]) && p[k].from == Boundary(p, k) {
      assert Boundary(p, k) == Boundary(insts, k);
      if k < |insts| { assert p[k] == insts[k]; }
    }
  }

  lemma MatchIsGood(x: seq<byte>, from: nat, at: nat, pos: nat, len: nat)
    requires from <= at && pos < at && at - pos <= M4_MAX_OFFSET && len >= 4
    requires SameBytes(x, pos, at, len)
    ensures GoodInst(x, Inst(from, at, at + len, at - pos))
  {
  }

  /** A block of the input, and how many instructions there were before it. */
  datatype Block = Block(base: nat, end: nat, before: nat)

  /** The cursors of the search; ti literals from earlier blocks stand before ii. */
  datatype Scan = Scan(ip: nat, ii: nat, ti: nat, dict: seq<nat>, insts: seq<Inst>)

  /** The dictionary holds positions in the block before n. */
  ghost predicate Before(dict: seq<nat>, n: int) {
    |dict| == DICT_SIZE && forall k | 0 <= k < DICT_SIZE :: dict[k] < n
  }

  /** The block adds matches within itself only, behind a first run of at least four literals. */
  ghost predicate InBlock(b: Block, insts: seq<Inst>) {
    && b.before <= |insts|
    && (forall k | b.before <= k < |insts| :: b.base + insts[k].off <= insts[k].at && insts[k].to <= b.end)
    && (b.before < |insts| ==> insts[b.before].at - insts[b.before].from >= 4)
  }

  /** What the search keeps. */
  ghost predicate ScanOk(x: seq<byte>, b: Block, s: Scan) {
    && b.base + 20 < b.end <= |x| && b.end <= b.base + BLOCK
    && b.base < s.ip && s.ti <= s.ii <= s.ip && s.ii <= b.end
    && Before(s.dict, s.ip - b.base)
    && Parses(x, s.insts) && End(s.insts) == s.ii - s.ti
    && InBlock(b, s.insts)
    && (|s.insts| == b.before ==> s.ip - (s.ii - s.ti) >= 4)
  }

  /** Literals are skipped faster the longer nothing matches. */
  function Skip(s: Scan, dict: seq<nat>): Scan
    requires s.ii <= s.ip
  {
    s.(ip := s.ip + 1 + (s.ip - s.ii) / 32, dict := dict)
  }

  /** The candidate position for the four bytes at ip. */
  function Candidate(x: seq<byte>, b: Block, s: Scan): (pos: nat)
    requires ScanOk(x, b, s) && s.ip < b.end - 20
    ensures b.base <= pos < s.ip
  {
    b.base + s.dict[DictIndex(Load(x[s.ip..s.ip + 4]))]
  }

  /** Positions are kept in 16 bits. */
  function Put(dict: seq<nat>, i: nat, n: nat): (r: seq<nat>)
    requires Before(dict, n) && i < DICT_SIZE
    ensures Before(r, n + 1)
  {
    dict[i := n % 0x1_0000]
  }

  /** The dictionary with ip entered in the candidate's place. */
  function Entered(x: seq<byte>, b: Block, s: Scan): (dict: seq<nat>)
    requires ScanOk(x, b, s) && s.ip < b.end - 20
    ensures Before(dict, s.ip - b.base + 1)
  {
    Put(s.dict, DictIndex(Load(x[s.ip..s.ip + 4])), s.ip - b.base)
  }

  /** The match at ip with the candidate. */
  function Taken(x: seq<byte>, b: Block, wide: bool, s: Scan): Scan
    requires ScanOk(x, b, s) && s.ip < b.end - 20
  {
    var pos := Candidate(x, b, s);
    var to := s.ip + ExtendMatch(x, pos, s.ip, 4, b.end - 20, wide);
    Scan(to, to, 0, Entered(x, b, s), s.insts + [Inst(s.ii - s.ti, s.ip, to, s.ip - pos)])
  }

  lemma SkipKeeps(x: seq<byte>, b: Block, s: Scan)
    requires ScanOk(x, b, s) && s.ip < b.end - 20
    ensures var r := Skip(s, Entered(x, b, s)); ScanOk(x, b, r) && r.ip > s.ip
  {
    hide Parses, Load, InBlock, Entered;
  }

  /** The match with a candidate that agrees on four bytes belongs to a parse, inside the block. */
  lemma MatchKeeps(x: seq<byte>, b: Block, s: Scan, pos: nat, to: nat)
    requires ScanOk(x, b, s) && b.base <= pos < s.ip && s.ip + 4 <= to <= b.end && SameBytes(x, pos, s.ip, to - s.ip)
    ensures var insts := s.insts + [Inst(s.ii - s.ti, s.ip, to, s.ip - pos)];
      Parses(x, insts) && End(insts) == to && InBlock(b, insts) && b.before < |insts|
  {
    hide Parses;
    MatchIsGood(x, s.ii - s.ti, s.ip, pos, to - s.ip);
    ParsesGrows(x, s.insts, Inst(s.ii - s.ti, s.ip, to, s.ip - pos));
  }

  lemma TakenKeeps(x: seq<byte>, b: Block, wide: bool, s: Scan)
    requires ScanOk(x, b, s) && s.ip < b.end - 20
    requires var pos := Candidate(x, b, s); Load(x[s.ip..s.ip + 4]) == Load(x[pos..pos + 4])
    ensures var r := Taken(x, b, wide, s); ScanOk(x, b, r) && r.ip >= s.ip + 4
  {
    hide Parses, Load, ExtendMatch, Candidate, Entered, InBlock;
    var pos := Candidate(x, b, s);
    LoadIsInjective(x[s.ip..s.ip + 4], x[pos..pos + 4]);
    ExtendedMatchIsLongest(x, pos, s.ip, 4, b.end - 20, wide);
    MatchKeeps(x, b, s, pos, s.ip + ExtendMatch(x, pos, s.ip, 4, b.end - 20, wide));
  }

  /** Probe the dictionary at ip; take the match found there or go on. */
  function Advance(x: seq<byte>, b: Block, wide: bool, s: Scan): (r: Scan)
    requires ScanOk(x, b, s) && s.ip < b.end - 20
    ensures ScanOk(x, b, r) && r.ip > s.ip
  {
    var pos := Candidate(x, b, s);
    if Load(x[s.ip..s.ip + 4]) != Load(x[pos..pos + 4]) then
      SkipKeeps(x, b, s);
      Skip(s, Entered(x, b, s))
    else
      TakenKeeps(x, b, wide, s);
      Taken(x, b, wide, s)
  }

  function ScanBlock(x: seq<byte>, b: Block, wide: bool, s: Scan): (r: Scan)
    requires ScanOk(x, b, s)
    ensures ScanOk(x, b, r)
    decreases b.end - s.ip
  {
    if s.ip >= b.end - 20 then s else ScanBlock(x, b, wide, Advance(x, b, wide, s))
  }

  /** The search starts with a cleared dictionary, at least four literals in. */
  function Enter(x: seq<byte>, b: Block, ti: nat, insts: seq<Inst>): (r: Scan)
    requires b.base + 20 < b.end <= |x| && b.end <= b.base + BLOCK && b.before == |insts|
    requires Parses(x, insts) && ti <= b.base && End(insts) == b.base - ti
    ensures ScanOk(x, b, r)
  {
    var ip := b.base + if ti < 4 then 4 - ti else 0;
    Skip(Scan(ip, b.base, ti, [], insts), seq(DICT_SIZE, _ => 0))
  }

  lemma EnterAt(x: seq<byte>, b: Block, ti: nat, insts: seq<Inst>)
    requires b.base + 20 < b.end <= |x| && b.end <= b.base + BLOCK && b.before == |insts|
    requires Parses(x, insts) && ti <= b.base && End(insts) == b.base - ti
    ensures var ip := b.base + if ti < 4 then 4 - ti else 0;
      Enter(x, b, ti, insts)
        == Scan(ip + 1 + (ip - b.base) / 32, b.base, ti, seq(DICT_SIZE, _ => 0), insts)
  {
    hide Parses;
  }

  /** One round of the search. */
  lemma ScanUnfolds(x: seq<byte>, b: Block, wide: bool, s: Scan)
    requires ScanOk(x, b, s) && s.ip < b.end - 20
    ensures ScanBlock(x, b, wide, s) == ScanBlock(x, b, wide, Advance(x, b, wide, s))
  {
    hide ScanOk, Advance;
  }

  lemma AdvanceIs(x: seq<byte>, b: Block, wide: bool, s: Scan)
    requires ScanOk(x, b, s) && s.ip < b.end - 20
    ensures var pos := Candidate(x, b, s);
      Advance(x, b, wide, s) == if Load(x[s.ip..s.ip + 4]) == Load(x[pos..pos + 4]) then Taken(x, b, wide, s)
                                else Skip(s, Entered(x, b, s))
  {
    hide Parses, Load, Taken, Candidate, Entered, Skip, Before, InBlock;
  }

  lemma ScanEnds(x: seq<byte>, b: Block, wide: bool, s: Scan)
    requires ScanOk(x, b, s)
    ensures s.ip >= b.end - 20 ==> ScanBlock(x, b, wide, s) == s
    ensures Parses(x, s.insts) && End(s.insts) == s.ii - s.ti && s.ti <= s.ii <= b.end <= |x|
  {
  }

  // ----- All blocks

  /** The length of the next block of an input with l bytes left; 0 when the rest stays literal. */
  function NextBlock(l: nat, t: nat): (r: nat)
    ensures r == 0 <==> l <= 20 || t + l < 32
    ensures r > 0 ==> r == if l < 49152 then l else 49152
  {
    var ll := if l < BLOCK then l else BLOCK;
    if l <= 20 || (t + ll) / 32 == 0 then 0 else ll
  }

  /** The parse from position ip on, with t literals pending before it. */
  function ParseFrom(x: seq<byte>, ip: nat, t: nat, insts: seq<Inst>, wide: bool): (r: seq<Inst>)
    requires t <= ip <= |x| && Parses(x, insts) && End(insts) == ip - t
    ensures Parses(x, r)
    decreases |x| - ip
  {
    var ll := NextBlock(|x| - ip, t);
    if ll == 0 then insts
    else
      var b := Block(ip, ip + ll, |insts|);
      var s := ScanBlock(x, b, wide, Enter(x, b, t, insts));
      ParseFrom(x, b.end, b.end - (s.ii - s.ti), s.insts, wide)
  }

  lemma ParseUnfolds(x: seq<byte>, ip: nat, t: nat, insts: seq<Inst>, wide: bool)
    requires t <= ip <= |x| && Parses(x, insts) && End(insts) == ip - t
    ensures var ll := NextBlock(|x| - ip, t);
      if ll == 0 then ParseFrom(x, ip, t, insts, wide) == insts
      else
        var b := Block(ip, ip + ll, |insts|);
        var s := ScanBlock(x, b, wide, Enter(x, b, t, insts));
        ParseFrom(x, ip, t, insts, wide) == ParseFrom(x, b.end, b.end - (s.ii - s.ti), s.insts, wide)
  {
    hide Parses, ScanBlock, Enter, NextBlock;
  }

  function ParseOf(x: seq<byte>, wide: bool): (r: seq<Inst>)
    ensures Parses(x, r)
  {
    EmptyParse(x);
    ParseFrom(x, 0, 0, [], wide)
  }

  /** The compressed form of x: nothing but x and the word size decides it. */
  function Compressed(x: seq<byte>, wide: bool): (r: seq<byte>)
    ensures Encodes(r, x)
  {
    Stream(x, ParseOf(x, wide))
  }
}
