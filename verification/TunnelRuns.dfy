/** Every run of the server, over any datagrams and packets whatsoever. */
module TunnelRuns {
  import opened Bytes
  import opened Crypt
  import opened Tunnel

  datatype Event = Socket(from: Addr, datagram: seq<byte>) | Tun(packet: seq<byte>, ok: bool)

  /** The server and everything it has handed on so far. */
  datatype Run = Run(server: Server, accepted: seq<Accepted>, sent: seq<Sent>)

  function Log<T>(log: seq<T>, entry: Option<T>): seq<T> {
    if entry.None? then log else log + [entry.value]
  }

  function Next(r: Run, e: Event): (r': Run)
    requires |r.server.local| == 4
    ensures r'.server.local == r.server.local
  {
    match e
    case Socket(from, d) =>
      var step := OnSocket(r.server, from, d);
      Run(step.0, Log(r.accepted, step.1), r.sent)
    case Tun(p, ok) =>
      var step := OnTun(r.server, p, ok);
      Run(step.0, r.accepted, Log(r.sent, step.1))
  }

  function After(s: Server, events: seq<Event>): (r: Run)
    requires |s.local| == 4
    ensures r.server.local == s.local
  {
    if events == [] then Run(s, [], []) else Next(After(s, events[..|events| - 1]), events[|events| - 1])
  }

  /** The source of the last packet accepted for uid, or where the run found it. */
  function LastSource(accepted: seq<Accepted>, uid: byte, unset: Addr): Addr {
    if accepted == [] then unset
    else if accepted[|accepted| - 1].uid == uid then accepted[|accepted| - 1].from
    else LastSource(accepted[..|accepted| - 1], uid, unset)
  }

  function AcceptedBytes(accepted: seq<Accepted>): nat {
    if accepted == [] then 0
    else AcceptedBytes(accepted[..|accepted| - 1]) + |accepted[|accepted| - 1].packet|
  }

  function SentBytes(sent: seq<Sent>): nat {
    if sent == [] then 0 else SentBytes(sent[..|sent| - 1]) + |sent[|sent| - 1].datagram|
  }

  /** The statistics are those of the log. */
  predicate Counted(r: Run) {
    r.server.stat == Stat(AcceptedBytes(r.accepted), SentBytes(r.sent), |r.accepted|, |r.sent|)
  }

  /** Each user's address is the source of the last packet accepted for it, and only that. */
  ghost predicate Located(r: Run, s: Server)
    requires r.server.peers.Keys == s.peers.Keys
  {
    forall uid | uid in s.peers ::
      r.server.peers[uid] == Peer(LastSource(r.accepted, uid, s.peers[uid].addr), s.peers[uid].tables)
  }

  /** Everything written to the tun device is a packet of a known user. */
  ghost predicate Attributed(a: Accepted, local: seq<byte>, keys: map<byte, seq<byte>>)
    requires |local| == 4
  {
    && a.uid in keys && a.packet != [] && a.packet[0] == IP_MAGIC_HEADER
    && (|a.packet| >= 16 ==> a.packet[12..16] == UserAddress(local, a.uid))
  }

  ghost predicate RunOk(r: Run, s: Server, keys: map<byte, seq<byte>>) {
    && ServerOk(s, keys) && ServerOk(r.server, keys) && r.server.local == s.local
    && Counted(r) && Located(r, s)
    && forall a | a in r.accepted :: Attributed(a, s.local, keys)
  }

  lemma AcceptedGrows(log: seq<Accepted>, a: Accepted)
    ensures AcceptedBytes(log + [a]) == AcceptedBytes(log) + |a.packet|
    ensures forall uid, unset ::
      LastSource(log + [a], uid, unset) == if a.uid == uid then a.from else LastSource(log, uid, unset)
  {
    assert (log + [a])[..|log|] == log;
  }

  lemma SentGrows(log: seq<Sent>, m: Sent)
    ensures SentBytes(log + [m]) == SentBytes(log) + |m.datagram|
  {
    assert (log + [m])[..|log|] == log;
  }

  lemma PacketIsAttributed(s: Server, keys: map<byte, seq<byte>>, from: Addr, d: seq<byte>)
    requires ServerOk(s, keys) && OnSocket(s, from, d).1.Some?
    ensures Attributed(OnSocket(s, from, d).1.value, s.local, keys)
  {
    hide TablesOf, OnSocket;
    AcceptedPacket(s, keys, from, d);
  }

  lemma SocketKeeps(r: Run, s: Server, keys: map<byte, seq<byte>>, from: Addr, d: seq<byte>)
    requires RunOk(r, s, keys)
    ensures RunOk(Next(r, Socket(from, d)), s, keys)
  {
    hide TablesOf, Attributed, UserAddress, Translate, Source, LastSource, AcceptedBytes, SentBytes;
    var step := OnSocket(r.server, from, d);
    SocketKeepsTables(r.server, keys, from, d);
    if step.1.Some? {
      PacketIsAttributed(r.server, keys, from, d);
      AcceptedGrows(r.accepted, step.1.value);
    }
  }

  lemma TunKeeps(r: Run, s: Server, keys: map<byte, seq<byte>>, p: seq<byte>, ok: bool)
    requires RunOk(r, s, keys)
    ensures RunOk(Next(r, Tun(p, ok)), s, keys)
  {
    hide TablesOf, Attributed, UserAddress, Translate, LastSource, AcceptedBytes, SentBytes;
    var step := OnTun(r.server, p, ok);
    if step.1.Some? { SentGrows(r.sent, step.1.value); }
  }

  /**
   * Safety over whole runs: however datagrams and packets arrive, accounting, addresses and
   * attribution are those of the log, and the tables never change.
   */
  lemma {:induction false} EveryRunIsOk(s: Server, keys: map<byte, seq<byte>>, events: seq<Event>)
    requires ServerOk(s, keys) && s.stat == Stat(0, 0, 0, 0)
    ensures RunOk(After(s, events), s, keys)
  {
    if events == [] {
    } else {
      var n := |events| - 1;
      EveryRunIsOk(s, keys, events[..n]);
      match events[n]
      case Socket(from, d) => SocketKeeps(After(s, events[..n]), s, keys, from, d);
      case Tun(p, ok) => TunKeeps(After(s, events[..n]), s, keys, p, ok);
    }
  }
}
