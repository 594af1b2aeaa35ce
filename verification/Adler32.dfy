/** lzo_adler32: the checksum of RFC 1950, with the reductions put off as long as 32 bits allow. */
module Adler32 {
  import opened Bytes

  const LZO_BASE := 65521
  const LZO_NMAX := 5552

  // ----- Section 8.2 of RFC 1950

  datatype Sums = Sums(s1: nat, s2: nat)

  /** Both sums are reduced after every byte. */
  function Fold(start: Sums, buf: seq<byte>): Sums {
    if buf == [] then start
    else
      var p := Fold(start, buf[..|buf| - 1]);
      var s1 := (p.s1 + buf[|buf| - 1]) % LZO_BASE;
      Sums(s1, (p.s2 + s1) % LZO_BASE)
  }

  function Checksum(adler: nat, buf: seq<byte>): nat {
    var r := Fold(Sums(adler % 0x1_0000, adler / 0x1_0000 % 0x1_0000), buf);
    r.s2 * 0x1_0000 + r.s1
  }

  lemma {:induction false} FoldConcat(start: Sums, x: seq<byte>, y: seq<byte>)
    ensures Fold(start, x + y) == Fold(Fold(start, x), y)
    decreases |y|
  {
    if y == [] {
      assert x + y == x;
    } else {
      assert (x + y)[..|x + y| - 1] == x + y[..|y| - 1];
      FoldConcat(start, x, y[..|y| - 1]);
    }
  }

  lemma FoldStep(start: Sums, buf: seq<byte>, at: nat)
    requires at < |buf|
    ensures var p := Fold(start, buf[..at]); var r := Fold(start, buf[..at + 1]);
      r.s1 == (p.s1 + buf[at]) % LZO_BASE && r.s2 == (p.s2 + r.s1) % LZO_BASE
  {
    assert buf[..at + 1][..at] == buf[..at];
  }

  lemma FoldIsReduced(start: Sums, buf: seq<byte>)
    requires buf != []
    ensures Fold(start, buf).s1 < LZO_BASE && Fold(start, buf).s2 < LZO_BASE
  {
  }

  lemma FoldOfNothing(start: Sums)
    ensures Fold(start, []) == start
  {
  }

  /** A checksum can be continued: x then y gives the checksum of both together. */
  lemma ChecksumContinues(adler: nat, x: seq<byte>, y: seq<byte>)
    requires adler < TWO32
    ensures Checksum(Checksum(adler, x), y) == Checksum(adler, x + y)
  {
    hide Fold;
    var start := Sums(adler % 0x1_0000, adler / 0x1_0000 % 0x1_0000);
    FoldConcat(start, x, y);
    var r := Fold(start, x);
    assert r.s1 < 0x1_0000 && r.s2 < 0x1_0000 by {
      if x == [] { FoldOfNothing(start); } else { FoldIsReduced(start, x); }
    }
  }

  // ----- The sums as section 8.2 of RFC 1950 describes them

  function Sum(buf: seq<byte>): nat {
    if buf == [] then 0 else Sum(buf[..|buf| - 1]) + buf[|buf| - 1]
  }

  /** Each byte counts as often as there are bytes from it to the end. */
  function Weighted(buf: seq<byte>): nat {
    if buf == [] then 0 else |buf| * buf[0] + Weighted(buf[1..])
  }

  lemma {:induction false} SumFromFront(buf: seq<byte>)
    requires buf != []
    ensures Sum(buf) == buf[0] + Sum(buf[1..])
  {
    if |buf| == 1 {
      assert buf[..0] == [] && buf[1..] == [];
    } else {
      var front := buf[..|buf| - 1];
      SumFromFront(front);
      assert front[1..] == buf[1..][..|buf| - 2];
    }
  }

  lemma {:induction false} WeightedGrows(buf: seq<byte>, c: byte)
    ensures Weighted(buf + [c]) == Weighted(buf) + Sum(buf) + c
  {
    if buf == [] {
      assert Weighted([c]) == c;
    } else {
      var rest := buf[1..];
      assert (buf + [c])[0] == buf[0] && (buf + [c])[1..] == rest + [c];
      WeightedGrows(rest, c);
      SumFromFront(buf);
      assert (|buf| + 1) * buf[0] == |buf| * buf[0] + buf[0];
    }
  }

  predicate Congruent(a: nat, b: nat) {
    a % 65521 == b % 65521
  }

  lemma SameModulo(n: nat, m: nat, k: int)
    requires n == m + 65521 * k
    ensures n % 65521 == m % 65521
  {
  }

  lemma SumsCongruent(a: nat, b: nat, c: nat, d: nat)
    requires Congruent(a, b) && Congruent(c, d)
    ensures Congruent((a + c) % LZO_BASE, b + d)
  {
    var p, q := a / 65521, b / 65521;
    var s, t := c / 65521, d / 65521;
    var m := a % 65521 + c % 65521;
    SameModulo(a + c, m, p + s);
    SameModulo(b + d, m, q + t);
  }

  lemma FoldStepIsCongruent(start: Sums, buf: seq<byte>, n: nat, sum: nat, weighted: nat)
    requires n < |buf|
    requires var p := Fold(start, buf[..n]); Congruent(p.s1, sum) && Congruent(p.s2, weighted)
    ensures var r := Fold(start, buf[..n + 1]);
      Congruent(r.s1, sum + buf[n]) && Congruent(r.s2, weighted + (sum + buf[n]))
  {
    hide Fold;
    FoldStep(start, buf, n);
    var p, c := Fold(start, buf[..n]), buf[n];
    SumsCongruent(p.s1, sum, c, c);
    SumsCongruent(p.s2, weighted, (p.s1 + c) % LZO_BASE, sum + c);
  }

  function Times(n: nat, a: nat): nat {
    n * a
  }

  lemma EndGrows(n: nat, a: nat, front: seq<byte>, c: byte)
    ensures Times(n + 1, a) == Times(n, a) + a && Sum(front + [c]) == Sum(front) + c
  {
    assert (front + [c])[..|front|] == front;
  }

  lemma {:induction false} FoldIsWeighted(start: Sums, buf: seq<byte>)
    ensures var r := Fold(start, buf);
      && Congruent(r.s1, start.s1 + Sum(buf))
      && Congruent(r.s2, start.s2 + (Times(|buf|, start.s1) + Weighted(buf)))
  {
    if buf == [] {
      assert Fold(start, buf) == start;
    } else {
      hide Fold, Sum, Weighted, Congruent, Times;
      var n := |buf| - 1;
      var front, c := buf[..n], buf[n];
      FoldIsWeighted(start, front);
      WeightedGrows(front, c);
      EndGrows(n, start.s1, front, c);
      FoldStepIsCongruent(start, buf, n, start.s1 + Sum(front), start.s2 + (Times(n, start.s1) + Weighted(front)));
      assert front + [c] == buf && buf[..n + 1] == buf;
    }
  }

  lemma Reduced(a: nat, b: nat)
    requires a < 65521 && Congruent(a, b)
    ensures a == b % 65521
  {
  }

  lemma HighHalf(adler: nat)
    requires adler < TWO32
    ensures adler / 0x1_0000 % 0x1_0000 == adler / 0x1_0000
  {
  }

  /** The closed form: a one-byte sum and a weighted sum modulo 65521, side by side in 32 bits. */
  lemma ChecksumIs(adler: nat, buf: seq<byte>)
    requires adler < TWO32 && buf != []
    ensures var a, b := adler % 0x1_0000, adler / 0x1_0000;
      Checksum(adler, buf) ==
        (b + (|buf| * a + Weighted(buf))) % 65521 * 0x1_0000 + (a + Sum(buf)) % 65521
  {
    hide Fold, Sum, Weighted, Congruent;
    HighHalf(adler);
    var start := Sums(adler % 0x1_0000, adler / 0x1_0000);
    var r := Fold(start, buf);
    FoldIsWeighted(start, buf);
    FoldIsReduced(start, buf);
    Reduced(r.s1, start.s1 + Sum(buf));
    Reduced(r.s2, start.s2 + (Times(|buf|, start.s1) + Weighted(buf)));
  }

  // ----- How far the sums may run without a reduction

  /** The largest s2 after j bytes of 255, from sums that still fit 16 bits. */
  function Worst(j: nat): nat {
    if j == 0 then 65535 else Worst(j - 1) + 65535 + 255 * j
  }

  lemma {:induction false} WorstIs(j: nat)
    ensures 2 * Worst(j) == 131070 + 131070 * j + 255 * (j * (j + 1))
  {
    if j == 0 {
      assert Worst(0) == 65535;
    } else {
      WorstIs(j - 1);
    }
  }

  lemma {:induction false} WorstGrows(j: nat, k: nat)
    requires j <= k
    ensures Worst(j) <= Worst(k)
    decreases k
  {
    if j == k {
    } else {
      WorstGrows(j, k - 1);
    }
  }

  /** 5552 bytes are safe from any start value; the source's constant leaves no 32-bit overflow. */
  lemma NothingOverflows(j: nat)
    requires j <= LZO_NMAX
    ensures 65535 + 255 * j < TWO32 && Worst(j) < TWO32
  {
    WorstIs(LZO_NMAX);
    WorstGrows(j, LZO_NMAX);
  }

  /** The running sums after `at` bytes, j of them since the last reduction. */
  ghost predicate Tracks(start: Sums, buf: seq<byte>, at: nat, j: nat, s1: nat, s2: nat) {
    && at <= |buf| && j <= LZO_NMAX
    && Congruent(Fold(start, buf[..at]).s1, s1) && Congruent(Fold(start, buf[..at]).s2, s2)
    && s1 <= 65535 + 255 * j && s2 <= Worst(j)
  }

  /** One more byte: neither sum wraps around, and both stay congruent to the reduced ones. */
  lemma OneByte(start: Sums, buf: seq<byte>, at: nat, j: nat, s1: nat, s2: nat)
    requires at < |buf| && j < LZO_NMAX && Tracks(start, buf, at, j, s1, s2)
    ensures s1 + buf[at] < TWO32 && s2 + (s1 + buf[at]) < TWO32
    ensures Tracks(start, buf, at + 1, j + 1, s1 + buf[at], s2 + (s1 + buf[at]))
  {
    hide Fold, Congruent;
    NothingOverflows(j + 1);
    FoldStepIsCongruent(start, buf, at, s1, s2);
  }

  /** The reduction makes the running sums the RFC's. */
  lemma Reduce(start: Sums, buf: seq<byte>, at: nat, j: nat, s1: nat, s2: nat)
    requires at > 0 && Tracks(start, buf, at, j, s1, s2)
    ensures Sums(s1 % LZO_BASE, s2 % LZO_BASE) == Fold(start, buf[..at])
    ensures Tracks(start, buf, at, 0, s1 % LZO_BASE, s2 % LZO_BASE)
  {
    FoldIsReduced(start, buf[..at]);
  }

  // ----- The unrolled macros

  method Do1(ghost start: Sums, buf: array<byte>, at: nat, ghost j: nat, t1: nat, t2: nat) returns (s1: nat, s2: nat)
    requires at + 1 <= buf.Length && j + 1 <= LZO_NMAX && Tracks(start, buf[..], at, j, t1, t2)
    ensures Tracks(start, buf[..], at + 1, j + 1, s1, s2)
  {
    hide Tracks;
    OneByte(start, buf[..], at, j, t1, t2);
    s1 := (t1 + buf[at]) % TWO32;
    s2 := (t2 + s1) % TWO32;
  }

  method Do2(ghost start: Sums, buf: array<byte>, at: nat, ghost j: nat, t1: nat, t2: nat) returns (s1: nat, s2: nat)
    requires at + 2 <= buf.Length && j + 2 <= LZO_NMAX && Tracks(start, buf[..], at, j, t1, t2)
    ensures Tracks(start, buf[..], at + 2, j + 2, s1, s2)
  {
    hide Tracks;
    s1, s2 := Do1(start, buf, at, j, t1, t2);
    s1, s2 := Do1(start, buf, at + 1, j + 1, s1, s2);
  }

  method Do4(ghost start: Sums, buf: array<byte>, at: nat, ghost j: nat, t1: nat, t2: nat) returns (s1: nat, s2: nat)
    requires at + 4 <= buf.Length && j + 4 <= LZO_NMAX && Tracks(start, buf[..], at, j, t1, t2)
    ensures Tracks(start, buf[..], at + 4, j + 4, s1, s2)
  {
    hide Tracks;
    s1, s2 := Do2(start, buf, at, j, t1, t2);
    s1, s2 := Do2(start, buf, at + 2, j + 2, s1, s2);
  }

  method Do8(ghost start: Sums, buf: array<byte>, at: nat, ghost j: nat, t1: nat, t2: nat) returns (s1: nat, s2: nat)
    requires at + 8 <= buf.Length && j + 8 <= LZO_NMAX && Tracks(start, buf[..], at, j, t1, t2)
    ensures Tracks(start, buf[..], at + 8, j + 8, s1, s2)
  {
    hide Tracks;
    s1, s2 := Do4(start, buf, at, j, t1, t2);
    s1, s2 := Do4(start, buf, at + 4, j + 4, s1, s2);
  }

  method Do16(ghost start: Sums, buf: array<byte>, at: nat, ghost j: nat, t1: nat, t2: nat) returns (s1: nat, s2: nat)
    requires at + 16 <= buf.Length && j + 16 <= LZO_NMAX && Tracks(start, buf[..], at, j, t1, t2)
    ensures Tracks(start, buf[..], at + 16, j + 16, s1, s2)
  {
    hide Tracks;
    s1, s2 := Do8(start, buf, at, j, t1, t2);
    s1, s2 := Do8(start, buf, at + 8, j + 8, s1, s2);
  }

  /** One stretch of at most 5552 bytes, and the reduction behind it. */
  method Stretch(ghost start: Sums, buf: array<byte>, at: nat, n: nat, t1: nat, t2: nat) returns (s1: nat, s2: nat)
    requires 1 <= n <= LZO_NMAX && at + n <= buf.Length && Tracks(start, buf[..], at, 0, t1, t2)
    ensures Sums(s1, s2) == Fold(start, buf[..at + n])
    ensures Tracks(start, buf[..], at + n, 0, s1, s2)
  {
    hide Tracks, Fold;
    s1, s2 := t1, t2;
    var k: nat, p: nat := n, at;
    while k >= 16
      invariant k <= n && p + k == at + n && Tracks(start, buf[..], p, p - at, s1, s2)
      decreases k
    {
      s1, s2 := Do16(start, buf, p, p - at, s1, s2);
      p, k := p + 16, k - 16;
    }
    while k > 0
      invariant k <= n && p + k == at + n && Tracks(start, buf[..], p, p - at, s1, s2)
      decreases k
    {
      s1, s2 := Do1(start, buf, p, p - at, s1, s2);
      p, k := p + 1, k - 1;
    }
    Reduce(start, buf[..], p, n, s1, s2);
    s1, s2 := s1 % LZO_BASE, s2 % LZO_BASE;
    assert buf[..][..at + n] == buf[..at + n];
  }

  lemma TracksAtStart(start: Sums, buf: seq<byte>)
    requires start.s1 < 0x1_0000 && start.s2 < 0x1_0000
    ensures Tracks(start, buf, 0, 0, start.s1, start.s2)
  {
    assert buf[..0] == [];
  }

  /** No buffer gives 1; otherwise the RFC's checksum, for any 32-bit start value. */
  method Adler(adler: nat, buf: array?<byte>, len: nat) returns (r: nat)
    requires adler < TWO32 && (buf != null ==> len <= buf.Length)
    ensures r == if buf == null then 1 else Checksum(adler, buf[..len])
  {
    hide Tracks, Fold;
    var s1: nat, s2: nat := adler % 0x1_0000, adler / 0x1_0000 % 0x1_0000;
    if buf == null { return 1; }
    ghost var start := Sums(s1, s2);
    FoldOfNothing(start);
    TracksAtStart(start, buf[..]);
    assert buf[..0] == [];
    var left: nat, at: nat := len, 0;
    while left > 0
      invariant at + left == len
      invariant Tracks(start, buf[..], at, 0, s1, s2) && Sums(s1, s2) == Fold(start, buf[..at])
      decreases left
    {
      var k := if left < LZO_NMAX then left else LZO_NMAX;
      left := left - k;
      s1, s2 := Stretch(start, buf, at, k, s1, s2);
      at := at + k;
    }
    r := s2 * 0x1_0000 + s1;
  }
}
