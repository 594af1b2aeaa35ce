/** The server's objects: users' nodes, the two packet buffers, the statistics. */
module SvpnServer {
  import opened Bytes
  import opened Crypt
  import opened Md5Context
  import opened Md5Spec
  import opened Tunnel

  class ClientNode {
    var addr: Addr
    const table: CodeTable

    /** The address is whatever the memory holds. */
    constructor (table: CodeTable, addr: Addr)
      ensures this.table == table && this.addr == addr
    {
      this.table := table;
      this.addr := addr;
    }
  }

  /** The key a user list gives each id: the MD5 digest of its first password. */
  function WithUser(keys: map<byte, seq<byte>>, id: byte, password: seq<byte>): map<byte, seq<byte>> {
    if id in keys then keys else keys[id := Digest(password)]
  }

  function KeysOf(users: seq<(byte, seq<byte>)>): map<byte, seq<byte>> {
    if users == [] then map[]
    else
      var last := users[|users| - 1];
      WithUser(KeysOf(users[..|users| - 1]), last.0, last.1)
  }

  /** users[k] is the first line for its id. */
  predicate FirstLine(users: seq<(byte, seq<byte>)>, k: nat)
    requires k < |users|
  {
    forall j | 0 <= j < k :: users[j].0 != users[k].0
  }

  /** Every listed id, and no other, has a key: the digest of the password on its first line. */
  lemma {:induction false} KeysAreThoseOfFirstLines(users: seq<(byte, seq<byte>)>, id: byte)
    ensures id in KeysOf(users) <==> exists k :: 0 <= k < |users| && users[k].0 == id
    ensures forall k | 0 <= k < |users| && users[k].0 == id && FirstLine(users, k) ::
      KeysOf(users)[id] == Digest(users[k].1)
  {
    hide Digest;
    if users == [] {
      assert KeysOf(users) == map[];
    } else {
      var n := |users| - 1;
      var front := users[..n];
      KeysAreThoseOfFirstLines(front, id);
      if id in KeysOf(front) {
        var k :| 0 <= k < n && front[k].0 == id;
        assert users[k].0 == id;
      }
      forall k | 0 <= k < n && users[k].0 == id && FirstLine(users, k)
        ensures id in KeysOf(front) && KeysOf(front)[id] == Digest(users[k].1)
      {
        assert front[k] == users[k] && FirstLine(front, k);
      }
    }
  }

  lemma UserIsAdded(s: Server, keys: map<byte, seq<byte>>, id: byte, password: seq<byte>, peer: Peer)
    requires ServerOk(s, keys) && id !in keys && TablesOf(peer.tables, Digest(password), id)
    ensures ServerOk(s.(peers := s.peers[id := peer]), WithUser(keys, id, password))
  {
    hide TablesOf, Digest;
  }

  method NewTable(password: seq<byte>, id: byte) returns (table: CodeTable)
    requires |password| < 128
    ensures fresh(table) && fresh(table.encode) && fresh(table.decode)
    ensures table.Built(Digest(password), id)
  {
    hide Digest, EncodeTable, Inverse;
    var text := new byte[|password|](i requires 0 <= i < |password| => password[i]);
    assert text[..|password|] == password;
    var pmd5 := new byte[16];
    MD5Fast(text, |password|, pmd5);
    table := new CodeTable();
    table.BuildTable(pmd5, id);
    assert pmd5[..16] == Digest(password);
  }

  class SvpnServer {
    const localAddr: seq<byte>
    const clients: array<ClientNode?>
    const buffer: array<byte>
    const tmpBuffer: array<byte>
    var totalSend: nat
    var totalRecv: nat
    var pkgSend: nat
    var pkgRecv: nat

    ghost function Nodes(): set<ClientNode>
      reads clients
    {
      set i | 0 <= i < clients.Length && clients[i] != null :: clients[i]
    }

    ghost function TableArrays(): set<array<byte>>
      reads clients
    {
      (set n | n in Nodes() :: n.table.encode) + (set n | n in Nodes() :: n.table.decode)
    }

    static ghost predicate TableShape(t: CodeTable) {
      t.encode != t.decode && t.encode.Length == t.decode.Length == 256
    }

    ghost predicate Valid()
      reads clients
    {
      && |localAddr| == 4 && clients.Length == 256
      && buffer.Length == tmpBuffer.Length == BUFFER_LEN && buffer != tmpBuffer
      && buffer !in TableArrays() && tmpBuffer !in TableArrays()
      && (forall i | 0 <= i < 256 && clients[i] != null :: TableShape(clients[i].table))
      && (forall i, j | 0 <= i < j < 256 && clients[i] != null :: clients[i] != clients[j])
    }

    static ghost function PeerOf(n: ClientNode): Peer
      requires TableShape(n.table)
      reads n, n.table.encode, n.table.decode
    {
      Peer(n.addr, Tables(n.table.encode[..], n.table.decode[..]))
    }

    /** The state as the step functions see it. */
    ghost function View(): Server
      requires Valid()
      reads this, clients, Nodes(), TableArrays(), buffer, tmpBuffer
    {
      Server(localAddr,
             map uid: byte | clients[uid] != null :: PeerOf(clients[uid]),
             tmpBuffer[..], buffer[..],
             Stat(totalSend, totalRecv, pkgSend, pkgRecv))
    }

    lemma ViewParts()
      requires Valid()
      ensures View().local == localAddr && View().tmp == tmpBuffer[..] && View().buf == buffer[..]
      ensures forall uid: byte :: uid in View().peers <==> clients[uid] != null
      ensures forall uid: byte | clients[uid] != null :: View().peers[uid] == PeerOf(clients[uid])
    {
    }

    /** recvfrom or read: the bytes arrive in tmpBuffer. */
    method Receive(d: seq<byte>) returns (len: nat)
      requires Valid()
      modifies tmpBuffer
      ensures Valid() && len == |Received(d)| && tmpBuffer[..len] == Received(d)
      ensures View() == old(View()).(tmp := Overwrite(old(View().tmp), Received(d)))
    {
      len := if |d| <= BUFFER_LEN then |d| else BUFFER_LEN;
      forall i | 0 <= i < len { tmpBuffer[i] := d[i]; }
      assert tmpBuffer[..] == Overwrite(old(tmpBuffer[..]), Received(d));
      assert View().peers == old(View().peers);
    }

    method DecryptFor(uid: byte, d: seq<byte>, len: nat)
      requires Valid() && clients[uid] != null
      requires len == |Received(d)| && tmpBuffer[..len] == Received(d)
      modifies buffer
      ensures Valid() && View() == old(View()).(buf := Decrypted(old(View()), uid, d))
    {
      hide Translate;
      Decrypt(clients[uid].table, tmpBuffer, buffer, len);
      assert buffer[..] == buffer[..len] + buffer[len..];
      assert View().peers == old(View().peers);
    }

    method EncryptFor(uid: byte, p: seq<byte>, len: nat)
      requires Valid() && clients[uid] != null
      requires len == |Received(p)| && tmpBuffer[..len] == Received(p)
      modifies buffer
      ensures Valid()
      ensures var s := old(View());
        View() == s.(buf := Overwrite(s.buf, Translate(s.peers[uid].tables.encode, Received(p))))
    {
      hide Translate;
      Encrypt(clients[uid].table, tmpBuffer, buffer, len);
      assert buffer[..] == buffer[..len] + buffer[len..];
      assert View().peers == old(View().peers);
    }

    /** The client may have moved. */
    method Locate(uid: byte, from: Addr)
      requires Valid() && clients[uid] != null
      modifies clients[uid]
      ensures Valid() && uid in old(View()).peers
      ensures var s := old(View()); View() == s.(peers := s.peers[uid := s.peers[uid].(addr := from)])
    {
      if clients[uid].addr != from { clients[uid].addr := from; }
      ghost var s := old(View());
      assert View().peers == s.peers[uid := s.peers[uid].(addr := from)];
    }

    method CountAccepted(len: nat)
      requires Valid()
      modifies this`totalSend, this`pkgSend
      ensures Valid()
      ensures var s := old(View());
        View() == s.(stat := s.stat.(totalSend := s.stat.totalSend + len, pkgSend := s.stat.pkgSend + 1))
    {
      totalSend, pkgSend := totalSend + len, pkgSend + 1;
      assert View().peers == old(View().peers);
    }

    /** The source comparison, with what follows when it succeeds. */
    method Judge(uid: byte, from: Addr, len: nat) returns (written: Option<Accepted>)
      requires Valid() && clients[uid] != null && len <= BUFFER_LEN
      modifies this, clients[uid]
      ensures Valid() && uid in old(View()).peers
      ensures (View(), written) == Tunnel.Judge(old(View()), uid, from, len)
    {
      hide View, PeerOf, Source, UserAddress;
      ViewParts();
      SourceIs(buffer[..], localAddr, uid);
      if buffer[12..15] != localAddr[..3] || buffer[15] != uid { return None; }
      written := Some(Accepted(uid, from, buffer[..len]));
      Locate(uid, from);
      CountAccepted(len);
    }

    /** The socket branch of the loop body. */
    method OnSocket(from: Addr, d: seq<byte>) returns (written: Option<Accepted>)
      requires Valid()
      modifies this, Nodes(), buffer, tmpBuffer
      ensures Valid() && (View(), written) == Tunnel.OnSocket(old(View()), from, d)
    {
      hide Overwrite, Translate, View, PeerOf, Tunnel.Judge;
      if |d| == 0 { ViewParts(); return None; }
      var len := Receive(d);
      ViewParts();
      var uid := tmpBuffer[0];
      if clients[uid] == null { return None; }
      DecryptFor(uid, d, len);
      written := Judge(uid, from, len);
    }

    method CountSent(len: nat)
      requires Valid()
      modifies this`totalRecv, this`pkgRecv
      ensures Valid()
      ensures var s := old(View());
        View() == s.(stat := s.stat.(totalRecv := s.stat.totalRecv + len, pkgRecv := s.stat.pkgRecv + 1))
    {
      totalRecv, pkgRecv := totalRecv + len, pkgRecv + 1;
      assert View().peers == old(View().peers);
    }

    method Dispatch(uid: byte, len: nat, ok: bool) returns (sent: Option<Sent>)
      requires Valid() && clients[uid] != null && len <= BUFFER_LEN
      modifies this
      ensures Valid() && uid in old(View()).peers
      ensures (View(), sent) == Tunnel.Dispatch(old(View()), uid, len, ok)
    {
      hide View;
      ViewParts();
      if !ok { return None; }
      sent := Some(Sent(uid, clients[uid].addr, buffer[..len]));
      CountSent(len);
    }

    /** The tun branch; `ok` is what sendto will report. */
    method OnTun(p: seq<byte>, ok: bool) returns (sent: Option<Sent>)
      requires Valid()
      modifies this, buffer, tmpBuffer
      ensures Valid() && (View(), sent) == Tunnel.OnTun(old(View()), p, ok)
    {
      hide Overwrite, View, Tunnel.Dispatch;
      if |p| == 0 { ViewParts(); return None; }
      var len := Receive(p);
      ViewParts();
      var uid := tmpBuffer[19];
      assert uid == Destination(tmpBuffer[..])[3];
      if clients[uid] == null { return None; }
      EncryptFor(uid, p, len);
      sent := Dispatch(uid, len, ok);
    }

    // ----- Loading the user list

    /** No users, zeroed statistics; the packet buffers hold whatever the stack held. */
    constructor (local: seq<byte>)
      requires |local| == 4
      ensures Valid() && fresh(clients) && fresh(buffer) && fresh(tmpBuffer)
      ensures ServerOk(View(), map[]) && View().local == local && View().stat == Stat(0, 0, 0, 0)
    {
      localAddr := local;
      clients := new ClientNode?[256](_ => null);
      buffer := new byte[BUFFER_LEN];
      tmpBuffer := new byte[BUFFER_LEN];
      totalSend, totalRecv, pkgSend, pkgRecv := 0, 0, 0, 0;
    }

    method Install(id: byte, node: ClientNode)
      requires Valid() && clients[id] == null && node !in Nodes() && TableShape(node.table)
      requires {node.table.encode, node.table.decode} !! {buffer, tmpBuffer}
      modifies clients
      ensures Valid() && View() == old(View()).(peers := old(View().peers)[id := PeerOf(node)])
    {
      hide PeerOf;
      ghost var s, arrays := View(), TableArrays();
      clients[id] := node;
      assert TableArrays() <= arrays + {node.table.encode, node.table.decode};
      assert View().peers == s.peers[id := PeerOf(node)];
    }

    /** The tables of the password's digest; the address is never set. */
    static method NewNode(password: seq<byte>, id: byte) returns (node: ClientNode)
      requires |password| < 128
      ensures fresh(node) && fresh(node.table) && fresh(node.table.encode) && fresh(node.table.decode)
      ensures TableShape(node.table) && TablesOf(PeerOf(node).tables, Digest(password), id)
    {
      hide Digest, EncodeTable, Inverse;
      var table := NewTable(password, id);
      var addr: Addr := *;
      node := new ClientNode(table, addr);
    }

    /** One user line; a second line for the same id is ignored. */
    method AddUser(id: byte, password: seq<byte>, ghost keys: map<byte, seq<byte>>)
      requires Valid() && ServerOk(View(), keys) && |password| < 128
      modifies clients
      ensures Valid() && ServerOk(View(), WithUser(keys, id, password))
      ensures View().local == old(View().local) && View().stat == old(View().stat)
      ensures forall uid | uid in old(View().peers) :: uid in View().peers && View().peers[uid] == old(View().peers[uid])
    {
      hide Digest, View, TablesOf, PeerOf;
      ViewParts();
      if clients[id] != null { return; }
      var node := NewNode(password, id);
      ghost var s, peer := View(), PeerOf(node);
      Install(id, node);
      UserIsAdded(s, keys, id, password, peer);
    }

  }

  /** svpn_server_init_client: every user of the list gets the tables of its key. */
  method LoadUsers(server: SvpnServer, users: seq<(byte, seq<byte>)>)
    requires server.Valid() && ServerOk(server.View(), map[])
    requires forall u | u in users :: |u.1| < 128
    modifies server.clients
    ensures server.Valid() && ServerOk(server.View(), KeysOf(users))
    ensures server.View().stat == old(server.View().stat)
  {
    hide ServerOk, Digest;
    for k := 0 to |users|
      invariant server.Valid() && ServerOk(server.View(), KeysOf(users[..k]))
      invariant server.View().stat == old(server.View().stat)
    {
      assert users[k] in users && users[..k + 1][..k] == users[..k];
      server.AddUser(users[k].0, users[k].1, KeysOf(users[..k]));
    }
    assert users[..|users|] == users;
  }
}
