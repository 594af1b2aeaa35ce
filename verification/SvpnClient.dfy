/** The client's object: its table and the two packet buffers. */
module SvpnClient {
  import opened Bytes
  import opened Crypt
  import opened Tunnel

  class SvpnClient {
    const table: CodeTable
    const buffer: array<byte>
    const tmpBuffer: array<byte>

    ghost predicate Valid() {
      && table.encode != table.decode && table.encode.Length == table.decode.Length == 256
      && buffer.Length == tmpBuffer.Length == BUFFER_LEN && buffer != tmpBuffer
      && {buffer, tmpBuffer} !! {table.encode, table.decode}
    }

    ghost function View(): Client
      requires Valid()
      reads table.encode, table.decode, buffer, tmpBuffer
    {
      Client(Tables(table.encode[..], table.decode[..]), tmpBuffer[..], buffer[..])
    }

    constructor (table: CodeTable)
      requires table.encode != table.decode && table.encode.Length == table.decode.Length == 256
      ensures Valid() && this.table == table && fresh(buffer) && fresh(tmpBuffer)
    {
      this.table := table;
      buffer := new byte[BUFFER_LEN];
      tmpBuffer := new byte[BUFFER_LEN];
    }

    method Receive(d: seq<byte>) returns (len: nat)
      requires Valid()
      modifies tmpBuffer
      ensures len == |Received(d)| && tmpBuffer[..len] == Received(d)
      ensures View() == old(View()).(tmp := Overwrite(old(View().tmp), Received(d)))
    {
      len := if |d| <= BUFFER_LEN then |d| else BUFFER_LEN;
      forall i | 0 <= i < len { tmpBuffer[i] := d[i]; }
      assert tmpBuffer[..] == Overwrite(old(tmpBuffer[..]), Received(d));
    }

    /** The tun branch of the loop body: what is read is encrypted and sent. */
    method OnTun(p: seq<byte>) returns (sent: seq<byte>)
      requires Valid()
      modifies buffer, tmpBuffer
      ensures (View(), sent) == ClientOnTun(old(View()), p)
    {
      hide Translate;
      var len := Receive(p);
      Encrypt(table, tmpBuffer, buffer, len);
      assert buffer[..] == buffer[..len] + buffer[len..];
      sent := buffer[..len];
    }

    /** The socket branch: what decrypts to IP version 4 is written to the tun device. */
    method OnSocket(d: seq<byte>) returns (written: Option<seq<byte>>)
      requires Valid()
      modifies buffer, tmpBuffer
      ensures (View(), written) == ClientOnSocket(old(View()), d)
    {
      hide Translate;
      var len := Receive(d);
      Decrypt(table, tmpBuffer, buffer, len);
      assert buffer[..] == buffer[..len] + buffer[len..];
      if buffer[0] as int / 16 != 4 { return None; }
      written := Some(buffer[..len]);
    }
  }

  /** svpn_init: the id is cut to a byte, as the parameter of BuildTable is. */
  method Init(md5: array<byte>, timestamp: int) returns (psc: SvpnClient)
    requires md5.Length >= 16
    ensures fresh(psc) && fresh(psc.buffer) && fresh(psc.tmpBuffer)
    ensures psc.Valid() && TablesOf(psc.View().tables, md5[..16], timestamp % 256)
  {
    hide EncodeTable;
    var table := new CodeTable();
    table.BuildTable(md5, timestamp % 256);
    psc := new SvpnClient(table);
    assert table.Built(md5[..16], timestamp % 256);
  }
}
