/**
 * Server, honest clients and the network between them. A datagram once sent may be delivered any
 * number of times, in any order, or never; so the network is a set that only grows.
 */
module TunnelSystem {
  import opened Bytes
  import opened Crypt
  import opened Tunnel

  /** A client's datagram, with the packet it was made from. */
  datatype Up = Up(uid: byte, from: Addr, packet: seq<byte>, datagram: seq<byte>)

  /** A datagram of the server, with the packet read from the server's tun device. */
  datatype Down = Down(sent: Sent, packet: seq<byte>)

  /** What came of delivering a datagram. */
  datatype AtServer = AtServer(up: Up, outcome: Option<Accepted>)
  datatype AtClient = AtClient(uid: byte, down: Down, outcome: Option<seq<byte>>)

  /** Who shares which key, and whose socket has which address; neither changes. */
  datatype Setting = Setting(local: seq<byte>, keys: map<byte, seq<byte>>, owner: map<Addr, byte>, unset: map<byte, Addr>)

  datatype System = System(server: Server, clients: map<byte, Client>, up: set<Up>, down: set<Down>,
                           atServer: seq<AtServer>, atClient: seq<AtClient>)

  datatype Event =
    | ClientReads(uid: byte, from: Addr, packet: seq<byte>)
    | ServerGets(u: Up)
    | ServerReads(p: seq<byte>, ok: bool)
    | ClientGets(d: Down)

  /** Clients read honest packets and send from their own addresses; datagrams are not invented. */
  predicate Enabled(c: Setting, s: System, e: Event) {
    match e
    case ClientReads(uid, from, p) =>
      uid in s.clients && Honest(c.local, uid, p) && from in c.owner && c.owner[from] == uid
    case ServerGets(u) => u in s.up
    case ServerReads(p, ok) => 20 <= |p| <= 4096
    case ClientGets(d) => d in s.down && d.sent.to in c.owner && c.owner[d.sent.to] in s.clients
  }

  function Next(c: Setting, s: System, e: Event): System
    requires Enabled(c, s, e) && |s.server.local| == 4
  {
    match e
    case ClientReads(uid, from, p) =>
      var (client, d) := ClientOnTun(s.clients[uid], p);
      s.(clients := s.clients[uid := client], up := s.up + {Up(uid, from, p, d)})
    case ServerGets(u) =>
      var (server, a) := OnSocket(s.server, u.from, u.datagram);
      s.(server := server, atServer := s.atServer + [AtServer(u, a)])
    case ServerReads(p, ok) =>
      var (server, sent) := OnTun(s.server, p, ok);
      s.(server := server, down := if sent.None? then s.down else s.down + {Down(sent.value, p)})
    case ClientGets(d) =>
      var uid := c.owner[d.sent.to];
      var (client, p) := ClientOnSocket(s.clients[uid], d.sent.datagram);
      s.(clients := s.clients[uid := client], atClient := s.atClient + [AtClient(uid, d, p)])
  }

  // ----- The invariant

  ghost predicate UpOk(c: Setting, u: Up) {
    && u.uid in c.keys && |c.keys[u.uid]| == 16 && Honest(c.local, u.uid, u.packet)
    && u.datagram == Translate(EncodeTable(c.keys[u.uid], u.uid), u.packet)
    && u.from in c.owner && c.owner[u.from] == u.uid
  }

  /** The server knows a user by an address of its own, once it has heard from it. */
  ghost predicate AddressOk(c: Setting, uid: byte, a: Addr) {
    (uid in c.unset && a == c.unset[uid]) || (a in c.owner && c.owner[a] == uid)
  }

  ghost predicate DownOk(c: Setting, d: Down) {
    && 20 <= |d.packet| <= BUFFER_LEN && d.sent.uid == d.packet[19]
    && d.sent.uid in c.keys && |c.keys[d.sent.uid]| == 16
    && d.sent.datagram == Translate(EncodeTable(c.keys[d.sent.uid], d.sent.uid), d.packet)
    && AddressOk(c, d.sent.uid, d.sent.to)
  }

  /** Every client datagram that arrives is accepted, attributed to its client and restored. */
  ghost predicate AtServerOk(s: System, a: AtServer) {
    a.up in s.up && a.outcome == Some(Accepted(a.up.uid, a.up.from, a.up.packet))
  }

  /** A server datagram restores the packet at its user; it goes astray only to the unset address. */
  ghost predicate AtClientOk(c: Setting, s: System, a: AtClient) {
    && a.down in s.down && a.down.packet != []
    && (a.uid == a.down.sent.uid ==>
          a.outcome == if a.down.packet[0] / 16 == 4 then Some(a.down.packet) else None)
    && (a.uid != a.down.sent.uid ==>
          a.down.sent.uid in c.unset && a.down.sent.to == c.unset[a.down.sent.uid])
  }

  ghost predicate ClientsOk(c: Setting, clients: map<byte, Client>) {
    clients.Keys == c.keys.Keys && forall uid | uid in clients :: TablesOf(clients[uid].tables, c.keys[uid], uid)
  }

  ghost predicate Ok(c: Setting, s: System) {
    && ServerOk(s.server, c.keys) && s.server.local == c.local
    && (forall uid | uid in c.keys :: AddressOk(c, uid, s.server.peers[uid].addr))
    && ClientsOk(c, s.clients)
    && (forall u | u in s.up :: UpOk(c, u))
    && (forall d | d in s.down :: DownOk(c, d))
    && (forall a | a in s.atServer :: AtServerOk(s, a))
    && (forall a | a in s.atClient :: AtClientOk(c, s, a))
  }

  lemma ClientReadsKeeps(c: Setting, s: System, uid: byte, from: Addr, p: seq<byte>)
    requires Ok(c, s) && Enabled(c, s, ClientReads(uid, from, p))
    ensures Ok(c, Next(c, s, ClientReads(uid, from, p)))
  {
    hide EncodeTable, Translate, Inverse;
    var s' := Next(c, s, ClientReads(uid, from, p));
    assert UpOk(c, Up(uid, from, p, ClientOnTun(s.clients[uid], p).1));
    forall a | a in s.atServer ensures AtServerOk(s', a) { assert AtServerOk(s, a); }
    forall a | a in s.atClient ensures AtClientOk(c, s', a) { assert AtClientOk(c, s, a); }
  }

  lemma ServerGetsKeeps(c: Setting, s: System, u: Up)
    requires Ok(c, s) && Enabled(c, s, ServerGets(u))
    ensures Ok(c, Next(c, s, ServerGets(u)))
  {
    hide EncodeTable, Translate, Inverse, OnSocket;
    var s' := Next(c, s, ServerGets(u));
    assert UpOk(c, u);
    HonestPacketIsAccepted(s.server, c.keys, s.clients[u.uid], u.uid, u.from, u.packet);
    SocketKeepsTables(s.server, c.keys, u.from, u.datagram);
    forall a | a in s.atServer ensures AtServerOk(s', a) { assert AtServerOk(s, a); }
    forall a | a in s.atClient ensures AtClientOk(c, s', a) { assert AtClientOk(c, s, a); }
  }

  lemma ServerReadsKeeps(c: Setting, s: System, p: seq<byte>, ok: bool)
    requires Ok(c, s) && Enabled(c, s, ServerReads(p, ok))
    ensures Ok(c, Next(c, s, ServerReads(p, ok)))
  {
    hide EncodeTable, Inverse, Honest;
    var s' := Next(c, s, ServerReads(p, ok));
    var sent := OnTun(s.server, p, ok).1;
    if sent.Some? {
      assert OnTun(s.server, p, true).1 == sent;
      ServerPacketIsRestored(s.server, c.keys, s.clients[p[19]], p);
      assert DownOk(c, Down(sent.value, p));
    }
    forall a | a in s.atServer ensures AtServerOk(s', a) { assert AtServerOk(s, a); }
    forall a | a in s.atClient ensures AtClientOk(c, s', a) { assert AtClientOk(c, s, a); }
  }

  lemma ClientGetsKeeps(c: Setting, s: System, d: Down)
    requires Ok(c, s) && Enabled(c, s, ClientGets(d))
    ensures Ok(c, Next(c, s, ClientGets(d)))
  {
    hide EncodeTable, Inverse, Honest, Translate;
    var s' := Next(c, s, ClientGets(d));
    var uid := c.owner[d.sent.to];
    assert DownOk(c, d);
    if uid == d.sent.uid { ClientRestores(s.clients[uid], d.packet); }
    forall a | a in s.atServer ensures AtServerOk(s', a) { assert AtServerOk(s, a); }
    forall a | a in s.atClient ensures AtClientOk(c, s', a) { assert AtClientOk(c, s, a); }
  }

  // ----- Runs

  /** Both ends were set up with the same keys, and nothing has been sent. */
  ghost predicate Initial(c: Setting, s: System) {
    && ServerOk(s.server, c.keys) && s.server.local == c.local && ClientsOk(c, s.clients)
    && c.unset == (map uid | uid in s.server.peers :: s.server.peers[uid].addr)
    && s.up == {} && s.down == {} && s.atServer == [] && s.atClient == []
  }

  /** s' is reached from s by these events, each enabled when it happens. */
  ghost predicate Reaches(c: Setting, s: System, events: seq<Event>, s': System)
    decreases |events|
  {
    if events == [] then s' == s
    else
      && Enabled(c, s, events[0]) && |s.server.local| == 4
      && Reaches(c, Next(c, s, events[0]), events[1..], s')
  }

  lemma StepKeeps(c: Setting, s: System, e: Event)
    requires Ok(c, s) && Enabled(c, s, e)
    ensures Ok(c, Next(c, s, e))
  {
    match e
    case ClientReads(uid, from, p) => ClientReadsKeeps(c, s, uid, from, p);
    case ServerGets(u) => ServerGetsKeeps(c, s, u);
    case ServerReads(p, ok) => ServerReadsKeeps(c, s, p, ok);
    case ClientGets(d) => ClientGetsKeeps(c, s, d);
  }

  lemma {:induction false} RunsKeep(c: Setting, s: System, events: seq<Event>, s': System)
    requires Ok(c, s) && Reaches(c, s, events, s')
    ensures Ok(c, s')
    decreases |events|
  {
    hide Ok, Next, Enabled;
    if events == [] {
      assert s' == s;
    } else {
      StepKeeps(c, s, events[0]);
      RunsKeep(c, Next(c, s, events[0]), events[1..], s');
    }
  }

  /** The read that a datagram on the network comes from, at its client or at the server. */
  function ReadOfUp(u: Up): Event {
    ClientReads(u.uid, u.from, u.packet)
  }

  function ReadOfDown(d: Down): Event {
    ServerReads(d.packet, true)
  }

  /** No step but a read puts a datagram on the network. */
  lemma OnlyReadsSend(c: Setting, s: System, e: Event)
    requires Enabled(c, s, e) && |s.server.local| == 4
    ensures forall u | u in Next(c, s, e).up :: u in s.up || e == ReadOfUp(u)
    ensures forall d | d in Next(c, s, e).down :: d in s.down || e == ReadOfDown(d)
  {
    hide Honest, Translate;
  }

  lemma {:induction false} PacketsWereRead(c: Setting, s: System, events: seq<Event>, s': System)
    requires Reaches(c, s, events, s')
    ensures forall u | u in s'.up :: u in s.up || ReadOfUp(u) in events
    ensures forall d | d in s'.down :: d in s.down || ReadOfDown(d) in events
    decreases |events|
  {
    hide Next, Enabled;
    if events == [] {
      assert s' == s;
    } else {
      OnlyReadsSend(c, s, events[0]);
      PacketsWereRead(c, Next(c, s, events[0]), events[1..], s');
    }
  }

  /** The datagram a read puts on the network. */
  ghost predicate Carried(s: System, e: Event) {
    match e
    case ClientReads(_, _, _) => exists u :: u in s.up && ReadOfUp(u) == e
    case ServerReads(_, _) => exists d :: d in s.down && ReadOfDown(d) == e
    case _ => true
  }

  /** Reads that must send: every client's, and the server's for a known user if sendto succeeds. */
  predicate MustSend(c: Setting, e: Event) {
    match e
    case ServerReads(p, ok) => ok && |p| >= 20 && p[19] in c.keys
    case _ => true
  }

  lemma ReadIsSent(c: Setting, s: System, e: Event)
    requires Ok(c, s) && Enabled(c, s, e)
    ensures s.up <= Next(c, s, e).up && s.down <= Next(c, s, e).down
    ensures MustSend(c, e) ==> Carried(Next(c, s, e), e)
  {
    hide Honest, UpOk, DownOk, AtServerOk, AtClientOk, OnSocket, OnTun, TablesOf;
    var s' := Next(c, s, e);
    match e
    case ClientReads(uid, from, p) =>
      var u := Up(uid, from, p, ClientOnTun(s.clients[uid], p).1);
      assert u in s'.up && ReadOfUp(u) == e;
    case ServerReads(p, ok) =>
      TunPacketIsSent(s.server, p, ok);
      if MustSend(c, e) {
        var d := Down(OnTun(s.server, p, ok).1.value, p);
        assert d in s'.down && ReadOfDown(d) == e;
      }
    case _ =>
  }

  /** Nothing that is read gets lost before the network. */
  lemma {:induction false} ReadsAreSent(c: Setting, s: System, events: seq<Event>, s': System)
    requires Ok(c, s) && Reaches(c, s, events, s')
    ensures s.up <= s'.up && s.down <= s'.down
    ensures forall e | e in events && MustSend(c, e) :: Carried(s', e)
    decreases |events|
  {
    hide Ok, Next, Enabled, MustSend;
    if events == [] {
      assert s' == s;
    } else {
      var next := Next(c, s, events[0]);
      StepKeeps(c, s, events[0]);
      ReadIsSent(c, s, events[0]);
      ReadsAreSent(c, next, events[1..], s');
    }
  }

  /** What an event delivers, and what was delivered in the order of the run. */
  function UpOf(e: Event): seq<Up> {
    if e.ServerGets? then [e.u] else []
  }

  function DownOf(e: Event): seq<Down> {
    if e.ClientGets? then [e.d] else []
  }

  function ToServer(events: seq<Event>): seq<Up> {
    if events == [] then [] else UpOf(events[0]) + ToServer(events[1..])
  }

  function ToClients(events: seq<Event>): seq<Down> {
    if events == [] then [] else DownOf(events[0]) + ToClients(events[1..])
  }

  function Ups(log: seq<AtServer>): seq<Up> {
    seq(|log|, i requires 0 <= i < |log| => log[i].up)
  }

  function Downs(log: seq<AtClient>): seq<Down> {
    seq(|log|, i requires 0 <= i < |log| => log[i].down)
  }

  lemma StepLogs(c: Setting, s: System, e: Event)
    requires Enabled(c, s, e) && |s.server.local| == 4
    ensures Ups(Next(c, s, e).atServer) == Ups(s.atServer) + UpOf(e)
    ensures Downs(Next(c, s, e).atClient) == Downs(s.atClient) + DownOf(e)
  {
    hide Honest, OnSocket, OnTun;
  }

  lemma {:induction false} ServerLogs(c: Setting, s: System, events: seq<Event>, s': System)
    requires Reaches(c, s, events, s')
    ensures Ups(s'.atServer) == Ups(s.atServer) + ToServer(events)
    decreases |events|
  {
    hide Next, Enabled, Ups, Downs, UpOf, DownOf;
    if events == [] {
      assert s' == s;
    } else {
      StepLogs(c, s, events[0]);
      ServerLogs(c, Next(c, s, events[0]), events[1..], s');
    }
  }

  lemma {:induction false} ClientsLog(c: Setting, s: System, events: seq<Event>, s': System)
    requires Reaches(c, s, events, s')
    ensures Downs(s'.atClient) == Downs(s.atClient) + ToClients(events)
    decreases |events|
  {
    hide Next, Enabled, Ups, Downs, UpOf, DownOf;
    if events == [] {
      assert s' == s;
    } else {
      StepLogs(c, s, events[0]);
      ClientsLog(c, Next(c, s, events[0]), events[1..], s');
    }
  }

  /** Every delivery has an outcome in the log, once for each time it happened. */
  lemma DeliveriesAreLogged(c: Setting, s: System, events: seq<Event>, s': System)
    requires Reaches(c, s, events, s') && s.atServer == [] && s.atClient == []
    ensures Ups(s'.atServer) == ToServer(events)
    ensures Downs(s'.atClient) == ToClients(events)
  {
    hide Reaches;
    ServerLogs(c, s, events, s');
    ClientsLog(c, s, events, s');
  }

  /**
   * Safety of the tunnel: in every run, whatever the network loses, repeats and reorders, each
   * datagram delivered to the server comes out as a packet its client read in this run, under that
   * client's name, and each delivered to the user it was meant for as a packet the server read.
   */
  lemma TunnelIsTransparent(c: Setting, s: System, events: seq<Event>, s': System)
    requires Initial(c, s) && Reaches(c, s, events, s')
    ensures forall a | a in s'.atServer :: AtServerOk(s', a) && UpOk(c, a.up) && ReadOfUp(a.up) in events
    ensures forall a | a in s'.atClient :: AtClientOk(c, s', a) && DownOk(c, a.down) && ReadOfDown(a.down) in events
    ensures Ups(s'.atServer) == ToServer(events) && Downs(s'.atClient) == ToClients(events)
    ensures forall e | e in events && MustSend(c, e) :: Carried(s', e)
    ensures forall uid | uid in c.keys :: uid in s'.server.peers && AddressOk(c, uid, s'.server.peers[uid].addr)
  {
    assert Ok(c, s);
    RunsKeep(c, s, events, s');
    PacketsWereRead(c, s, events, s');
    ReadsAreSent(c, s, events, s');
    DeliveriesAreLogged(c, s, events, s');
    hide UpOk, DownOk, AddressOk, ServerOk, ClientsOk, Reaches, Carried, MustSend, ToServer, ToClients;
    forall a | a in s'.atServer ensures AtServerOk(s', a) { }
    forall a | a in s'.atClient ensures AtClientOk(c, s', a) { }
  }
}
