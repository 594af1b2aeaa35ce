/**
 * The loop bodies of server and client as functions of their state: what one readable socket or
 * one readable tun device makes them do. Both keep two packet buffers across iterations, and a
 * short datagram leaves the old bytes behind it in place.
 */
module Tunnel {
  import opened Bytes
  import opened Crypt

  const BUFFER_LEN := 4096

  datatype Option<T> = None | Some(value: T)

  /** The bytes of a socket address. */
  type Addr = seq<byte>

  type buffer = b: seq<byte> | |b| == BUFFER_LEN witness seq(BUFFER_LEN, _ => 0)

  datatype Tables = Tables(encode: table, decode: table)

  ghost predicate Matched(t: Tables) {
    Inverse(t.encode, t.decode)
  }

  /** A matched pair as BuildTable makes it for a 16-byte key and a user id. */
  ghost predicate TablesOf(t: Tables, key: seq<byte>, uid: byte) {
    |key| == 16 && t.encode == EncodeTable(key, uid) && Matched(t)
  }

  lemma TablesOfRecognise(t: Tables, key: seq<byte>, uid: byte)
    requires TablesOf(t, key, uid)
    ensures t.encode[IP_MAGIC_HEADER] == uid && t.decode[uid] == IP_MAGIC_HEADER
  {
    var _ := EncodeTableIsPermutation(key, uid);
    var h: byte := IP_MAGIC_HEADER;
    assert t.decode[t.encode[h]] == h;
  }

  /** memcpy and recvfrom: the first bytes are replaced, the rest stays. */
  function Overwrite(b: buffer, s: seq<byte>): (r: buffer)
    requires |s| <= BUFFER_LEN
  {
    s + b[|s|..]
  }

  /** recvfrom and read deliver at most a buffer's worth. */
  function Received(d: seq<byte>): (r: seq<byte>)
    ensures |r| <= BUFFER_LEN && r <= d
    ensures |r| == if |d| < 4096 then |d| else 4096
  {
    if |d| <= BUFFER_LEN then d else d[..BUFFER_LEN]
  }

  // ----- The server

  datatype Peer = Peer(addr: Addr, tables: Tables)

  datatype Stat = Stat(totalSend: nat, totalRecv: nat, pkgSend: nat, pkgRecv: nat)

  datatype Server = Server(local: seq<byte>, peers: map<byte, Peer>, tmp: buffer, buf: buffer, stat: Stat)

  ghost predicate ServerOk(s: Server, keys: map<byte, seq<byte>>) {
    && |s.local| == 4
    && s.peers.Keys == keys.Keys
    && forall uid | uid in s.peers :: TablesOf(s.peers[uid].tables, keys[uid], uid)
  }

  /** src_ip and dst_ip of the IPv4 header a buffer begins with. */
  function Source(b: seq<byte>): (r: seq<byte>)
    requires |b| >= 20
    ensures |r| == 4
  {
    b[12..16]
  }

  function Destination(b: seq<byte>): seq<byte>
    requires |b| >= 20
  {
    b[16..20]
  }

  /** prefix.uid: the tunnel address of a user. */
  function UserAddress(local: seq<byte>, uid: byte): (r: seq<byte>)
    requires |local| == 4
    ensures |r| == 4 && (forall i | 0 <= i < 3 :: r[i] == local[i]) && r[3] == uid
  {
    local[..3] + [uid]
  }

  /** The comparison byte by byte. */
  lemma SourceIs(b: seq<byte>, local: seq<byte>, uid: byte)
    requires |b| >= 20 && |local| == 4
    ensures Source(b) == UserAddress(local, uid) <==> b[12..15] == local[..3] && b[15] == uid
  {
    var u := UserAddress(local, uid);
    assert Source(b)[..3] == b[12..15] && u[..3] == local[..3];
    assert Source(b) == b[12..15] + [b[15]];
  }

  datatype Accepted = Accepted(uid: byte, from: Addr, packet: seq<byte>)

  /** The plain bytes of a datagram attributed to uid. */
  function Plain(s: Server, uid: byte, d: seq<byte>): (p: seq<byte>)
    requires uid in s.peers
    ensures |p| == |Received(d)|
  {
    Translate(s.peers[uid].tables.decode, Received(d))
  }

  /** What is in the decryption buffer after a datagram attributed to uid. */
  function Decrypted(s: Server, uid: byte, d: seq<byte>): (r: buffer)
    requires uid in s.peers
  {
    Overwrite(s.buf, Plain(s, uid, d))
  }

  /** The decrypted source must be the user's; then its packet is written and its address noted. */
  function Judge(s: Server, uid: byte, from: Addr, len: nat): (Server, Option<Accepted>)
    requires |s.local| == 4 && uid in s.peers && len <= BUFFER_LEN
  {
    if Source(s.buf) != UserAddress(s.local, uid) then (s, None)
    else
      (s.(peers := s.peers[uid := s.peers[uid].(addr := from)],
          stat := s.stat.(totalSend := s.stat.totalSend + len, pkgSend := s.stat.pkgSend + 1)),
       Some(Accepted(uid, from, s.buf[..len])))
  }

  /** The socket is readable: the first byte names the user. */
  function OnSocket(s: Server, from: Addr, d: seq<byte>): (Server, Option<Accepted>)
    requires |s.local| == 4
  {
    if d == [] then (s, None)
    else
      var tmp := Overwrite(s.tmp, Received(d));
      var uid := tmp[0];
      if uid !in s.peers then (s.(tmp := tmp), None)
      else Judge(s.(tmp := tmp, buf := Decrypted(s, uid, d)), uid, from, |Received(d)|)
  }

  datatype Sent = Sent(uid: byte, to: Addr, datagram: seq<byte>)

  /** What stands in the buffer is sent to the user; `ok` is sendto's success. */
  function Dispatch(s: Server, uid: byte, len: nat, ok: bool): (Server, Option<Sent>)
    requires uid in s.peers && len <= BUFFER_LEN
  {
    if !ok then (s, None)
    else
      (s.(stat := s.stat.(totalRecv := s.stat.totalRecv + len, pkgRecv := s.stat.pkgRecv + 1)),
       Some(Sent(uid, s.peers[uid].addr, s.buf[..len])))
  }

  /** The tun device is readable: the destination names the user. */
  function OnTun(s: Server, p: seq<byte>, ok: bool): (Server, Option<Sent>)
    requires |s.local| == 4
  {
    if p == [] then (s, None)
    else
      var tmp := Overwrite(s.tmp, Received(p));
      var uid := Destination(tmp)[3];
      if uid !in s.peers then (s.(tmp := tmp), None)
      else
        var e := Translate(s.peers[uid].tables.encode, Received(p));
        Dispatch(s.(tmp := tmp, buf := Overwrite(s.buf, e)), uid, |Received(p)|, ok)
  }

  // ----- The client

  datatype Client = Client(tables: Tables, tmp: buffer, buf: buffer)

  /** Whatever its tun device delivers is encrypted and sent to the server. */
  function ClientOnTun(c: Client, p: seq<byte>): (Client, seq<byte>) {
    var e := Translate(c.tables.encode, Received(p));
    (c.(tmp := Overwrite(c.tmp, Received(p)), buf := Overwrite(c.buf, e)), e)
  }

  /** A datagram is decrypted and, when it looks like IP version 4, written to the tun device. */
  function ClientOnSocket(c: Client, d: seq<byte>): (Client, Option<seq<byte>>) {
    var p := Translate(c.tables.decode, Received(d));
    var buf := Overwrite(c.buf, p);
    (c.(tmp := Overwrite(c.tmp, Received(d)), buf := buf), if buf[0] / 16 != 4 then None else Some(p))
  }

  // ----- One step of the server, for any datagram whatsoever

  /** The socket step changes no table, and no address but that of the user it accepts. */
  lemma SocketKeepsTables(s: Server, keys: map<byte, seq<byte>>, from: Addr, d: seq<byte>)
    requires ServerOk(s, keys)
    ensures ServerOk(OnSocket(s, from, d).0, keys) && OnSocket(s, from, d).0.local == s.local
    ensures var (s', r) := OnSocket(s, from, d);
      s'.peers == if r.None? then s.peers else s.peers[r.value.uid := s.peers[r.value.uid].(addr := from)]
  {
    hide TablesOf;
  }

  /** As much of the source address as a packet reaches to: all four bytes, a part or nothing. */
  function SourceCarried(p: seq<byte>): (r: seq<byte>)
    ensures |r| == if |p| >= 16 then 4 else if |p| >= 12 then |p| - 12 else 0
  {
    if |p| >= 16 then p[12..16] else if |p| >= 12 then p[12..] else []
  }

  /** The source that is compared: what the datagram carries, completed from the old buffer. */
  lemma SourceIsCompleted(b: buffer, p: seq<byte>)
    requires |p| <= BUFFER_LEN
    ensures var c := SourceCarried(p);
      Source(Overwrite(b, p)) == c + Source(b)[|c|..]
  {
  }

  /** A packet is accepted only for a known user named by the first byte, and then starts with 0x45. */
  lemma AcceptedPacket(s: Server, keys: map<byte, seq<byte>>, from: Addr, d: seq<byte>)
    requires ServerOk(s, keys) && OnSocket(s, from, d).1.Some?
    ensures var r := OnSocket(s, from, d).1.value;
      && d != [] && r.uid == d[0] && d[0] in keys && r.from == from
      && r.packet == Translate(s.peers[d[0]].tables.decode, Received(d))
      && r.packet != [] && r.packet[0] == IP_MAGIC_HEADER
      && (|d| >= 16 ==> r.packet[12..16] == UserAddress(s.local, d[0]))
  {
    var t, p := s.peers[d[0]].tables, Plain(s, d[0], d);
    TablesOfRecognise(t, keys[d[0]], d[0]);
    assert p[0] == IP_MAGIC_HEADER;
    hide TablesOf, Translate;
    assert Overwrite(s.buf, p)[..|p|] == p;
    SourceIsCompleted(s.buf, p);
  }

  /**
   * The condition of acceptance, for any datagram: a known user, and a source that is right once
   * completed from what an earlier packet left in the buffer.
   */
  lemma AcceptanceIs(s: Server, from: Addr, d: seq<byte>)
    requires |s.local| == 4 && d != []
    ensures OnSocket(s, from, d).1.Some? <==>
      && d[0] in s.peers
      && var c := SourceCarried(Plain(s, d[0], d));
         c + Source(s.buf)[|c|..] == UserAddress(s.local, d[0])
  {
    hide Translate, SourceCarried, Source, UserAddress;
    if d[0] in s.peers { SourceIsCompleted(s.buf, Plain(s, d[0], d)); }
  }

  /** From 16 bytes on acceptance depends on the datagram alone... */
  lemma LongDatagramStandsAlone(s: Server, from: Addr, d: seq<byte>)
    requires |s.local| == 4 && |d| >= 16
    ensures OnSocket(s, from, d).1.Some? <==>
      d[0] in s.peers && Plain(s, d[0], d)[12..16] == UserAddress(s.local, d[0])
  {
    hide Plain, Source, UserAddress;
    AcceptanceIs(s, from, d);
    if d[0] in s.peers {
      var c := SourceCarried(Plain(s, d[0], d));
      assert c + Source(s.buf)[4..] == c;
    }
  }

  /** ...but below that the end of the source, up to all of it, was left by an earlier packet. */
  lemma ShortDatagramBorrowsSource(s: Server, from: Addr, d: seq<byte>)
    requires |s.local| == 4 && 1 <= |d| < 16
    ensures var n := if |d| < 12 then 12 else |d|;
      OnSocket(s, from, d).1.Some? <==>
        && d[0] in s.peers
        && SourceCarried(Plain(s, d[0], d)) + s.buf[n..16] == UserAddress(s.local, d[0])
  {
    hide Plain, SourceCarried, UserAddress;
    AcceptanceIs(s, from, d);
    if d[0] in s.peers {
      var c := SourceCarried(Plain(s, d[0], d));
      assert Source(s.buf)[|c|..] == s.buf[12 + |c|..16];
    }
  }

  /** The verdict on a datagram is the same whatever the decryption buffer held before. */
  ghost predicate IgnoresBuffer(s: Server, from: Addr, d: seq<byte>)
    requires |s.local| == 4
  {
    forall b: buffer, b': buffer ::
      OnSocket(s.(buf := b), from, d).1.Some? <==> OnSocket(s.(buf := b'), from, d).1.Some?
  }

  /** A buffer whose header has this source address. */
  function WithSource(b: buffer, a: seq<byte>): (r: buffer)
    requires |a| == 4
    ensures Source(r) == a
  {
    b[..12] + a + b[16..]
  }

  /**
   * The exact extent of that: a known user's datagram is judged by itself if and only if it has all
   * of the source address, or a part that is already wrong.
   */
  lemma VerdictIgnoresBuffer(s: Server, from: Addr, d: seq<byte>)
    requires |s.local| == 4 && d != [] && d[0] in s.peers
    ensures IgnoresBuffer(s, from, d) <==>
      |d| >= 16 || !(SourceCarried(Plain(s, d[0], d)) <= UserAddress(s.local, d[0]))
  {
    hide OnSocket, Translate, WithSource, UserAddress, Source, SourceCarried;
    var c, a := SourceCarried(Plain(s, d[0], d)), UserAddress(s.local, d[0]);
    forall b: buffer
      ensures OnSocket(s.(buf := b), from, d).1.Some? <==> c + Source(b)[|c|..] == a
    {
      AcceptanceIs(s.(buf := b), from, d);
    }
    if |c| == 4 {
      forall b: buffer ensures c + Source(b)[|c|..] == c { }
    } else if c <= a {
      var last := if a[3] == 0 then 1 else 0;
      var good, bad := WithSource(s.buf, a), WithSource(s.buf, a[..3] + [last]);
      assert c + Source(good)[|c|..] == a;
      assert (c + Source(bad)[|c|..])[3] == last;
      assert s.(buf := good).buf == good && s.(buf := bad).buf == bad;
    } else {
      forall b: buffer ensures c + Source(b)[|c|..] != a {
        assert (c + Source(b)[|c|..])[..|c|] == c;
      }
    }
  }

  /** An instance: behind an accepted packet, its first byte alone passes the source check too. */
  lemma SourceCheckSkipsShortDatagrams(s: Server, from: Addr, d: seq<byte>)
    requires |s.local| == 4 && OnSocket(s, from, d).1.Some?
    ensures OnSocket(OnSocket(s, from, d).0, from, [d[0]]).1.Some?
  {
    hide Plain, Source, UserAddress;
    AcceptanceIs(OnSocket(s, from, d).0, from, [d[0]]);
  }

  /** What the socket step leaves in the two buffers: the new bytes, and the old ones behind them. */
  lemma SocketLeaves(s: Server, from: Addr, d: seq<byte>)
    requires |s.local| == 4
    ensures var s', n := OnSocket(s, from, d).0, |Received(d)|;
      && s'.tmp[..n] == Received(d) && s'.tmp[n..] == s.tmp[n..]
      && (if d != [] && d[0] in s.peers then s'.buf[..n] == Plain(s, d[0], d) && s'.buf[n..] == s.buf[n..]
          else s'.buf == s.buf)
  {
    hide Plain, Source, UserAddress;
    assert d == [] ==> s.tmp[..0] == [];
  }

  // ----- One step for any packet of the server's tun device

  /** The last byte of the destination; a packet too short for it borrows it from an earlier one. */
  function LastOfDestination(tmp: buffer, p: seq<byte>): byte {
    if |p| >= 20 then p[19] else tmp[19]
  }

  /** A packet is sent exactly if its user exists and sendto succeeds: encrypted, to that user's address. */
  lemma TunPacketIsSent(s: Server, p: seq<byte>, ok: bool)
    requires |s.local| == 4
    ensures var uid := LastOfDestination(s.tmp, p);
      OnTun(s, p, ok).1 ==
        if p != [] && ok && uid in s.peers
        then Some(Sent(uid, s.peers[uid].addr, Translate(s.peers[uid].tables.encode, Received(p))))
        else None
  {
    hide Translate;
    if p != [] {
      var uid := LastOfDestination(s.tmp, p);
      assert Destination(Overwrite(s.tmp, Received(p)))[3] == uid;
      if uid in s.peers {
        var e := Translate(s.peers[uid].tables.encode, Received(p));
        assert Overwrite(s.buf, e)[..|e|] == e;
      }
    }
  }

  /** What the tun step leaves: no user changes, and the buffers are overwritten from the front. */
  lemma TunLeaves(s: Server, p: seq<byte>, ok: bool)
    requires |s.local| == 4
    ensures var s', n, uid := OnTun(s, p, ok).0, |Received(p)|, LastOfDestination(s.tmp, p);
      && s'.local == s.local && s'.peers == s.peers
      && s'.tmp[..n] == Received(p) && s'.tmp[n..] == s.tmp[n..]
      && (if p != [] && uid in s.peers
          then s'.buf[..n] == Translate(s.peers[uid].tables.encode, Received(p)) && s'.buf[n..] == s.buf[n..]
          else s'.buf == s.buf)
  {
    hide Translate;
    if p == [] {
      assert s.tmp[..0] == [];
    } else {
      assert Destination(Overwrite(s.tmp, Received(p)))[3] == LastOfDestination(s.tmp, p);
    }
  }

  // ----- Honest packets

  /** A packet the client of uid may read from its tun device: IPv4 without options, own source. */
  predicate Honest(local: seq<byte>, uid: byte, p: seq<byte>) {
    |local| == 4 && 20 <= |p| <= 4096 && p[0] == 0x45 && p[12..16] == UserAddress(local, uid)
  }

  /** An honest packet, encrypted by its client, is recognised, accepted and restored. */
  lemma HonestPacketIsAccepted(s: Server, keys: map<byte, seq<byte>>, c: Client, uid: byte, from: Addr, p: seq<byte>)
    requires ServerOk(s, keys) && uid in keys && TablesOf(c.tables, keys[uid], uid)
    requires Honest(s.local, uid, p)
    ensures var d := ClientOnTun(c, p).1;
      d[0] == uid && OnSocket(s, from, d).1 == Some(Accepted(uid, from, p))
  {
    var d := ClientOnTun(c, p).1;
    var t := s.peers[uid].tables;
    TablesOfRecognise(c.tables, keys[uid], uid);
    assert d[0] == uid;
    TranslationIsUndone(t.encode, t.decode, p);
    assert Translate(t.decode, d) == p;
    LongDatagramStandsAlone(s, from, d);
    AcceptedPacket(s, keys, from, d);
  }

  /**
   * A client restores what was encrypted for it and writes it exactly when it is IP version 4; an
   * empty datagram is judged by the old buffer.
   */
  lemma ClientRestores(c: Client, p: seq<byte>)
    requires Matched(c.tables) && |p| <= BUFFER_LEN
    ensures ClientOnSocket(c, Translate(c.tables.encode, p)).1 ==
      if (if p == [] then c.buf[0] else p[0]) / 16 == 4 then Some(p) else None
  {
    hide Translate, Inverse;
    TranslationIsUndone(c.tables.encode, c.tables.decode, p);
    assert Overwrite(c.buf, p)[0] == if p == [] then c.buf[0] else p[0];
  }

  /** A client sends whatever it reads, so that its own table restores it. */
  lemma ClientSendsEverything(c: Client, p: seq<byte>)
    requires Matched(c.tables)
    ensures Translate(c.tables.decode, ClientOnTun(c, p).1) == Received(p)
  {
    hide Translate, Inverse;
    TranslationIsUndone(c.tables.encode, c.tables.decode, Received(p));
  }

  /** What a client's steps leave: its tables, and its buffers overwritten from the front. */
  lemma ClientLeaves(c: Client, b: seq<byte>)
    ensures var c', n := ClientOnTun(c, b).0, |Received(b)|;
      && c'.tables == c.tables && c'.tmp[..n] == Received(b) && c'.tmp[n..] == c.tmp[n..]
      && c'.buf[..n] == Translate(c.tables.encode, Received(b)) && c'.buf[n..] == c.buf[n..]
    ensures var c', n := ClientOnSocket(c, b).0, |Received(b)|;
      && c'.tables == c.tables && c'.tmp[..n] == Received(b) && c'.tmp[n..] == c.tmp[n..]
      && c'.buf[..n] == Translate(c.tables.decode, Received(b)) && c'.buf[n..] == c.buf[n..]
  {
    hide Translate;
  }

  /** What the server sends for uid is restored by the client, and written if it is IP version 4. */
  lemma ServerPacketIsRestored(s: Server, keys: map<byte, seq<byte>>, c: Client, p: seq<byte>)
    requires ServerOk(s, keys) && 20 <= |p| <= BUFFER_LEN
    requires OnTun(s, p, true).1.Some?
    requires TablesOf(c.tables, keys[p[19]], p[19])
    ensures var r := OnTun(s, p, true).1.value;
      && r.uid == p[19] && r.to == s.peers[p[19]].addr
      && r.datagram == Translate(c.tables.encode, p)
      && ClientOnSocket(c, r.datagram).1 == if p[0] / 16 == 4 then Some(p) else None
  {
    var r := OnTun(s, p, true).1.value;
    assert Destination(Overwrite(s.tmp, p))[3] == p[19];
    assert r.datagram == Translate(c.tables.encode, p);
    ClientRestores(c, p);
  }
}
