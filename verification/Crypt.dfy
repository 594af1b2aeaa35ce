/** The substitution cipher: a byte permutation built from a 16-byte key and a user's identity. */
module Crypt {
  import opened Bytes

  const IP_MAGIC_HEADER := 0x45
  const PRIME_FOR_GEN := 47

  // ----- The key schedule

  /** One multiplication: byte j times 47, its high byte carried into byte j + 1. */
  function Carry(md: seq<byte>, j: nat): (r: seq<byte>)
    requires |md| == 16 && j < 15
    ensures |r| == 16
  {
    var k := md[j] as int * PRIME_FOR_GEN;
    md[j := k % 256][j + 1 := (md[j + 1] + k / 256) % 256]
  }

  /** 47 * 207 = 38 * 256 + 1, so multiplying by 207 takes the multiplication back. */
  function Uncarry(md: seq<byte>, j: nat): (r: seq<byte>)
    requires |md| == 16 && j < 15
    ensures |r| == 16
  {
    var m := md[j] as int * 207 % 256;
    md[j := m][j + 1 := (md[j + 1] - m * PRIME_FOR_GEN / 256) % 256]
  }

  lemma LowByte(k: int, m: byte)
    ensures (256 * k + m) % 256 == m
  {
  }

  lemma InverseOf47(m: byte)
    ensures m as int * 47 % 256 * 207 % 256 == m
    ensures m as int * 207 % 256 * 47 % 256 == m
  {
    var q, r := m as int * 47 / 256, m as int * 47 % 256;
    assert m as int * 47 == 256 * q + r;
    LowByte(38 * m as int - 207 * q, m);
    assert r * 207 == 256 * (38 * m as int - 207 * q) + m;
    var q', r' := m as int * 207 / 256, m as int * 207 % 256;
    assert m as int * 207 == 256 * q' + r';
    LowByte(38 * m as int - 47 * q', m);
    assert r' * 47 == 256 * (38 * m as int - 47 * q') + m;
  }

  lemma CarryCancels(b: byte, k: int)
    ensures ((b + k) % 256 - k) % 256 == b
  {
    var q, r := (b + k) / 256, (b + k) % 256;
    LowByte(-q, b);
    assert r - k == 256 * -q + b;
  }

  lemma CarryIsUndone(md: seq<byte>, j: nat)
    requires |md| == 16 && j < 15
    ensures Uncarry(Carry(md, j), j) == md && Carry(Uncarry(md, j), j) == md
  {
    InverseOf47(md[j]);
    CarryCancels(md[j + 1], md[j] as int * PRIME_FOR_GEN / 256);
    CarryCancels(md[j + 1], -(md[j] as int * 207 % 256 * PRIME_FOR_GEN / 256));
  }

  function Carries(md: seq<byte>, n: nat): (r: seq<byte>)
    requires |md| == 16 && n <= 15
    ensures |r| == 16
  {
    if n == 0 then md else Carry(Carries(md, n - 1), n - 1)
  }

  function Uncarries(md: seq<byte>, n: nat): (r: seq<byte>)
    requires |md| == 16 && n <= 15
    ensures |r| == 16
    decreases n
  {
    if n == 0 then md else Uncarries(Uncarry(md, n - 1), n - 1)
  }

  /** One round of the schedule, and k rounds. */
  function KeyRounds(md: seq<byte>, k: nat): (r: seq<byte>)
    requires |md| == 16
    ensures |r| == 16
  {
    if k == 0 then md else Carries(KeyRounds(md, k - 1), |md| - 1)
  }

  function KeyUnrounds(md: seq<byte>, k: nat): (r: seq<byte>)
    requires |md| == 16
    ensures |r| == 16
    decreases k
  {
    if k == 0 then md else KeyUnrounds(Uncarries(md, 15), k - 1)
  }

  lemma {:induction false} CarriesAreUndone(md: seq<byte>, n: nat)
    requires |md| == 16 && n <= 15
    ensures Uncarries(Carries(md, n), n) == md && Carries(Uncarries(md, n), n) == md
    decreases n
  {
    hide Carry, Uncarry;
    if n == 0 {
    } else {
      CarryIsUndone(Carries(md, n - 1), n - 1);
      CarryIsUndone(md, n - 1);
      CarriesAreUndone(md, n - 1);
      CarriesAreUndone(Uncarry(md, n - 1), n - 1);
    }
  }

  /** The schedule is a bijection of 16-byte states, for any number of rounds. */
  lemma {:induction false} KeyRoundsAreUndone(md: seq<byte>, k: nat)
    requires |md| == 16
    ensures KeyUnrounds(KeyRounds(md, k), k) == md && KeyRounds(KeyUnrounds(md, k), k) == md
    decreases k
  {
    hide Carries, Uncarries;
    if k == 0 {
    } else {
      CarriesAreUndone(KeyRounds(md, k - 1), 15);
      CarriesAreUndone(md, 15);
      KeyRoundsAreUndone(md, k - 1);
      KeyRoundsAreUndone(Uncarries(md, 15), k - 1);
    }
  }

  /** No two keys ever meet: the state after k rounds determines the key. */
  lemma KeysStayApart(key: seq<byte>, other: seq<byte>, k: nat)
    requires |key| == |other| == 16 && KeyRounds(key, k) == KeyRounds(other, k)
    ensures key == other
  {
    KeyRoundsAreUndone(key, k);
    KeyRoundsAreUndone(other, k);
  }

  /** The carry that reaches byte j in a round. */
  function CarryInto(md: seq<byte>, j: nat): nat
    requires |md| == 16 && j < 16
  {
    if j == 0 then 0 else (md[j - 1] + CarryInto(md, j - 1)) % 256 * 47 / 256
  }

  lemma {:induction false} CarriesAre(md: seq<byte>, n: nat, j: nat)
    requires |md| == 16 && n <= 15 && j < 16
    ensures Carries(md, n)[j] ==
      if j < n then (md[j] + CarryInto(md, j)) % 256 * 47 % 256
      else if j == n then (md[j] + CarryInto(md, j)) % 256
      else md[j]
  {
    if n == 0 {
      assert Carries(md, 0) == md;
    } else {
      hide KeyRounds;
      var m := Carries(md, n - 1);
      CarriesAre(md, n - 1, n - 1);
      CarriesAre(md, n - 1, n);
      CarriesAre(md, n - 1, j);
      assert CarryInto(md, n) == m[n - 1] as int * 47 / 256;
    }
  }

  lemma TimesModulo(a: nat)
    ensures a % 256 * 47 % 256 == a * 47 % 256
  {
    var q, b := a / 256, a % 256 * 47;
    assert a * 47 == 256 * (q * 47 + b / 256) + b % 256;
    LowByte(q * 47 + b / 256, b % 256);
  }

  /** A round byte by byte: all but the last are multiplied by 47, each takes the carry before it. */
  lemma KeyRoundIs(md: seq<byte>, j: nat)
    requires |md| == 16 && j < 16
    ensures KeyRounds(md, 1)[j] ==
      if j < 15 then (md[j] + CarryInto(md, j)) * 47 % 256 else (md[j] + CarryInto(md, j)) % 256
  {
    assert KeyRounds(md, 1) == Carries(KeyRounds(md, 0), 15) && KeyRounds(md, 0) == md;
    CarriesAre(md, 15, j);
    TimesModulo(md[j] + CarryInto(md, j));
  }

  // ----- Permutations of the byte values

  type table = t: seq<byte> | |t| == 256 witness seq(256, _ => 0)

  /** Each table undoes the other. */
  ghost predicate Inverse(s: table, t: table) {
    forall u: byte, v: byte :: s[u] == v <==> t[v] == u
  }

  lemma InverseAt(s: table, t: table, v: byte)
    requires Inverse(s, t)
    ensures t[s[v]] == v && s[t[v]] == v
  {
  }

  function Swap(s: table, i: byte, j: byte): table {
    s[i := s[j]][j := s[i]]
  }

  /** The inverse of a table after two of its entries were exchanged. */
  function SwapImages(t: table, u: byte, v: byte, i: byte, j: byte): table {
    t[u := j][v := i]
  }

  lemma SwapKeepsInverse(s: table, t: table, i: byte, j: byte)
    requires Inverse(s, t)
    ensures Inverse(Swap(s, i, j), SwapImages(t, s[i], s[j], i, j))
  {
    assert t[s[i]] == i && t[s[j]] == j;
  }

  // ----- Encryption

  function Translate(t: table, s: seq<byte>): (r: seq<byte>)
    ensures |r| == |s|
  {
    seq(|s|, i requires 0 <= i < |s| => t[s[i]])
  }

  lemma TranslationIsUndone(s: table, t: table, m: seq<byte>)
    requires Inverse(s, t)
    ensures Translate(t, Translate(s, m)) == m && Translate(s, Translate(t, m)) == m
  {
    forall i | 0 <= i < |m| ensures t[s[m[i]]] == m[i] && s[t[m[i]]] == m[i] { InverseAt(s, t, m[i]); }
  }

  // ----- The table of a key and an identity

  function Unshuffled(): (r: table) {
    seq(256, i requires 0 <= i < 256 => i)
  }

  /** The table after n swaps, each with the last byte of the next schedule round. */
  function Shuffled(key: seq<byte>, n: nat): table
    requires |key| == 16 && n <= 256
  {
    if n == 0 then Unshuffled() else Swap(Shuffled(key, n - 1), KeyRounds(key, n)[15], n - 1)
  }

  /** Where place p goes when a and b are exchanged. */
  function Exchanged(p: byte, a: byte, b: byte): byte {
    if p == a then b else if p == b then a else p
  }

  /** The places exchanged with 0, 1, 2 and so on: the last byte of each state of the schedule. */
  function Partners(key: seq<byte>, n: nat): (js: seq<byte>)
    requires |key| == 16
    ensures |js| == n
  {
    if n == 0 then [] else Partners(key, n - 1) + [KeyRounds(key, n)[15]]
  }

  /** Traced from the last exchange back to the first, place p started out here. */
  function Origin(js: seq<byte>, p: byte): byte
    requires |js| <= 256
    decreases |js|
  {
    if js == [] then p
    else
      var n := |js| - 1;
      Origin(js[..n], Exchanged(p, n, js[n]))
  }

  /** What stands at each place of the table depends on all of the schedule's exchanges. */
  lemma {:induction false} ShuffledIsTraced(key: seq<byte>, n: nat, p: byte)
    requires |key| == 16 && n <= 256
    ensures Shuffled(key, n)[p] == Origin(Partners(key, n), p)
  {
    hide KeyRounds;
    if n == 0 {
      assert Shuffled(key, 0) == Unshuffled();
    } else {
      var js := Partners(key, n);
      assert js[..n - 1] == Partners(key, n - 1);
      ShuffledIsTraced(key, n - 1, Exchanged(p, n - 1, js[n - 1]));
    }
  }

  lemma {:induction false} ZeroCarries(n: nat)
    requires n <= 15
    ensures Carries(seq(16, _ => 0), n) == seq(16, _ => 0)
  {
    var z: seq<byte> := seq(16, _ => 0);
    if n == 0 {
      assert Carries(z, 0) == z;
    } else {
      ZeroCarries(n - 1);
      assert Carry(z, n - 1) == z;
    }
  }

  lemma {:induction false} ZeroKeyStays(k: nat)
    ensures KeyRounds(seq(16, _ => 0), k) == seq(16, _ => 0)
  {
    var z: seq<byte> := seq(16, _ => 0);
    if k == 0 {
      assert KeyRounds(z, 0) == z;
    } else {
      ZeroKeyStays(k - 1);
      ZeroCarries(15);
    }
  }

  /** A known answer: the digest of zeros exchanges every place with place 0 in turn. */
  lemma {:induction false} ZeroKeyShuffles(n: nat, p: byte)
    requires n <= 256
    ensures Shuffled(seq(16, _ => 0), n)[p] == if p >= n then p else if p == 0 then n - 1 else p - 1
  {
    hide KeyRounds;
    var z: seq<byte> := seq(16, _ => 0);
    if n == 0 {
      assert Shuffled(z, 0) == Unshuffled();
    } else {
      ZeroKeyStays(n);
      ZeroKeyShuffles(n - 1, p);
      ZeroKeyShuffles(n - 1, 0);
      ZeroKeyShuffles(n - 1, n - 1);
    }
  }

  lemma {:induction false} ShuffledIsPermutation(key: seq<byte>, n: nat) returns (t: table)
    requires |key| == 16 && n <= 256
    ensures Inverse(Shuffled(key, n), t)
  {
    if n == 0 {
      t := Unshuffled();
    } else {
      var s, i, j := Shuffled(key, n - 1), KeyRounds(key, n)[15], n - 1;
      t := ShuffledIsPermutation(key, n - 1);
      SwapKeepsInverse(s, t, i, j);
      t := SwapImages(t, s[i], s[j], i, j);
    }
  }

  /** The first place at or behind i where v stands; 256 if there is none. */
  function Find(s: table, v: byte, i: nat): (r: nat)
    requires i <= 256
    ensures i <= r <= 256
    decreases |s| - i
  {
    if i == 256 || s[i] == v then i else Find(s, v, i + 1)
  }

  /** In a permutation the search for any value stops before the end. */
  lemma {:induction false} SearchSucceeds(s: table, t: table, v: byte, i: nat)
    requires Inverse(s, t) && i <= t[v]
    ensures Find(s, v, i) == t[v]
    decreases 256 - i
  {
    if i == t[v] {
      assert s[i] == v;
    } else {
      var w: byte := i;
      assert t[s[w]] == w;
      SearchSucceeds(s, t, v, i + 1);
    }
  }

  /** The shuffled table, with the identity swapped to where the IP header byte is looked up. */
  function EncodeTable(key: seq<byte>, identity: byte): (r: table)
    requires |key| == 16
  {
    var s := Shuffled(key, 256);
    var i := Find(s, identity, 0);
    if i < 256 then Swap(s, IP_MAGIC_HEADER, i) else s
  }

  /** For every key and identity the result is a permutation that sends 0x45 to the identity. */
  lemma EncodeTableIsPermutation(key: seq<byte>, identity: byte) returns (t: table)
    requires |key| == 16
    ensures Find(Shuffled(key, 256), identity, 0) < 256
    ensures Inverse(EncodeTable(key, identity), t)
    ensures EncodeTable(key, identity)[IP_MAGIC_HEADER] == identity
  {
    hide Shuffled;
    var s := Shuffled(key, 256);
    t := ShuffledIsPermutation(key, 256);
    SearchSucceeds(s, t, identity, 0);
    var i: byte := t[identity];
    assert s[i] == identity;
    SwapKeepsInverse(s, t, IP_MAGIC_HEADER, i);
    t := SwapImages(t, s[IP_MAGIC_HEADER], s[i], IP_MAGIC_HEADER, i);
  }

  /** Apart from the identity and what it changed places with, the table is the shuffled one. */
  lemma EncodeTableIs(key: seq<byte>, identity: byte, p: byte)
    requires |key| == 16
    ensures var s := Shuffled(key, 256);
      EncodeTable(key, identity)[p] ==
        if p == 0x45 then identity else if s[p] == identity then s[0x45] else s[p]
  {
    hide Shuffled;
    var s := Shuffled(key, 256);
    var t := ShuffledIsPermutation(key, 256);
    SearchSucceeds(s, t, identity, 0);
    InverseAt(s, t, identity);
    InverseAt(s, t, p);
  }

  /** The table of the zero digest for id 0x44. */
  lemma ZeroKeyTable(p: byte)
    ensures EncodeTable(seq(16, _ => 0), 0x44)[p] == if p == 0 then 255 else p - 1
  {
    hide EncodeTable;
    EncodeTableIs(seq(16, _ => 0), 0x44, p);
    ZeroKeyShuffles(256, p);
    ZeroKeyShuffles(256, 0x45);
  }

  class CodeTable {
    const encode: array<byte>
    const decode: array<byte>

    constructor ()
      ensures fresh(encode) && fresh(decode) && encode != decode && encode.Length == decode.Length == 256
    {
      encode := new byte[256];
      decode := new byte[256];
    }

    /** What BuildTable leaves behind for a key and an identity. */
    ghost predicate Built(key: seq<byte>, identity: byte)
      requires |key| == 16
      reads encode, decode
    {
      && encode != decode && encode.Length == decode.Length == 256
      && encode[..] == EncodeTable(key, identity)
      && Inverse(encode[..], decode[..])
    }

    method Shuffle(passmd5: array<byte>)
      requires passmd5.Length >= 16 && encode.Length == 256 && passmd5 != encode
      modifies encode
      ensures encode[..] == Shuffled(passmd5[..16], 256)
    {
      ghost var key := passmd5[..16];
      var md := new byte[16];
      forall j | 0 <= j < 16 { md[j] := passmd5[j]; }
      for i := 0 to 256
        invariant md[..] == key && forall j | 0 <= j < i :: encode[j] == j
      {
        encode[i] := i;
      }
      assert encode[..] == Unshuffled();
      for i := 0 to 256
        invariant md[..] == KeyRounds(key, i) && encode[..] == Shuffled(key, i)
      {
        ghost var before, shuffled := md[..], encode[..];
        for j := 0 to 15
          invariant md[..] == Carries(before, j) && encode[..] == shuffled
        {
          var k := md[j] as int * PRIME_FOR_GEN;
          md[j] := k % 256;
          md[j + 1] := (md[j + 1] + k / 256) % 256;
        }
        var tmp := encode[md[15]];
        encode[md[15]] := encode[i];
        encode[i] := tmp;
      }
      assert passmd5[..16] == key;
    }

    /** The identity search and swap. */
    method FixIdentity(ghost key: seq<byte>, identity: byte)
      requires |key| == 16 && encode.Length == 256 && encode[..] == Shuffled(key, 256)
      modifies encode
      ensures encode[..] == EncodeTable(key, identity)
    {
      hide Shuffled;
      ghost var t := EncodeTableIsPermutation(key, identity);
      var i := 0;
      while i < 256 && encode[i] != identity
        invariant i <= 256 && Find(encode[..], identity, 0) == Find(encode[..], identity, i)
      {
        i := i + 1;
      }
      var tmp := encode[IP_MAGIC_HEADER];
      encode[IP_MAGIC_HEADER] := encode[i];
      encode[i] := tmp;
    }

    method FillDecode(ghost t: table)
      requires encode != decode && encode.Length == decode.Length == 256
      requires Inverse(encode[..], t)
      modifies decode
      ensures decode[..] == t
    {
      ghost var s := encode[..];
      for i := 0 to 256
        invariant encode[..] == s && forall v: byte | t[v] < i :: decode[v] == t[v]
      {
        var w: byte := i;
        assert s[w] == encode[w] && t[s[w]] == w;
        decode[encode[i]] := w;
        forall v: byte | t[v] < i + 1 ensures decode[v] == t[v] {
          assert s[t[v]] == v;
        }
      }
      forall v | 0 <= v < 256 ensures decode[v] == t[v] {
        var w: byte := v;
        assert t[w] < 256;
      }
    }

    method BuildTable(passmd5: array<byte>, identity: byte)
      requires passmd5.Length >= 16 && passmd5 != encode && passmd5 != decode
      requires encode != decode && encode.Length == decode.Length == 256
      modifies encode, decode
      ensures Built(passmd5[..16], identity)
    {
      hide Shuffled, EncodeTable;
      ghost var key := passmd5[..16];
      Shuffle(passmd5);
      FixIdentity(key, identity);
      ghost var t := EncodeTableIsPermutation(key, identity);
      FillDecode(t);
    }
  }

  /** Input and output may be the same buffer. */
  method Encrypt(ct: CodeTable, input: array<byte>, output: array<byte>, len: nat)
    requires ct.encode.Length == 256 && output != ct.encode
    requires len <= input.Length && len <= output.Length
    modifies output
    ensures output[..len] == Translate(ct.encode[..], old(input[..len]))
    ensures output[len..] == old(output[len..])
  {
    for i := 0 to len
      invariant forall k | 0 <= k < i :: output[k] == ct.encode[old(input[k])]
      invariant forall k | i <= k < input.Length :: input[k] == old(input[k])
      invariant forall k | i <= k < output.Length :: output[k] == old(output[k])
    {
      output[i] := ct.encode[input[i]];
    }
  }

  method Decrypt(ct: CodeTable, input: array<byte>, output: array<byte>, len: nat)
    requires ct.decode.Length == 256 && output != ct.decode
    requires len <= input.Length && len <= output.Length
    modifies output
    ensures output[..len] == Translate(ct.decode[..], old(input[..len]))
    ensures output[len..] == old(output[len..])
  {
    for i := 0 to len
      invariant forall k | 0 <= k < i :: output[k] == ct.decode[old(input[k])]
      invariant forall k | i <= k < input.Length :: input[k] == old(input[k])
      invariant forall k | i <= k < output.Length :: output[k] == old(output[k])
    {
      output[i] := ct.decode[input[i]];
    }
  }
}
