/**
 * `RTUBluetoothMasterConnection`: the master side of an RTU link over
 * classic Bluetooth (RFCOMM, serial port profile). `connect` has the UI
 * thread create the socket, connects it, checks that it reports itself
 * connected, prepares the transport and sets the flag.
 */
module BtConnection {
  import opened Outcomes
  import opened Messages
  import opened Streams
  import BtTransport

  class Connection {
    /** `mSocket`. */
    var socket: Socket?
    /** `mTransport`. */
    var transport: BtTransport.Transport?
    var connected: bool

    /** While connected the transport works on this connection's socket. */
    ghost predicate Valid()
      reads this, transport
    {
      && (transport != null ==> transport.socket != null)
      && (connected ==> transport != null && socket != null && transport.socket == socket)
    }

    /** The constructor: no socket, no transport, not connected. */
    constructor ()
      ensures Valid()
      ensures socket == null && transport == null && !IsConnected()
    {
      socket := null;
      transport := null;
      connected := false;
    }

    /** `isConnected`. */
    function IsConnected(): (b: bool)
      reads this
      ensures b <==> connected
    {
      connected
    }

    /**
     * `connect`: unless already connected, takes the socket `init` created
     * (`created` is `None` when creating it threw, which leaves `mSocket`
     * null), calls `connect` on it (ending as `result` says) and checks
     * `isConnected`. A failing `connect` closes the socket and re-raises;
     * a socket that is not connected afterwards is an IOException. Only
     * then is the transport prepared and the flag set.
     */
    method Connect(created: Option<Peer>, result: ConnectResult) returns (r: Outcome<Fault>)
      requires Valid()
      modifies this, transport, if transport != null then {transport.socket} else {}
      ensures Valid()
      ensures old(IsConnected()) ==>
        r.Pass? && IsConnected() && socket == old(socket) && transport == old(transport)
        && transport.socket == old(transport.socket)
      ensures old(IsConnected()) ==> unchanged(this) && unchanged(transport) && unchanged(transport.socket)
      ensures r.Fail? ==> connected == old(connected) && transport == old(transport)
      ensures r.Fail? && transport != null ==> unchanged(transport) && unchanged(old(transport.socket))
      ensures !old(IsConnected()) ==>
        && (created.None? <==> r == Fail(Escaped(NullPointer)))
        && (created.None? <==> socket == null)
        && (created.Some? ==> (r.Pass? <==> result == Established))
        && (created.Some? && result == Refused ==> socket.closed)
        && (created.Some? && result == Dropped ==> !socket.closed && r == Fail(SocketError))
      ensures r.Fail? ==> !IsConnected() && r.error in {SocketError, Escaped(NullPointer)}
      ensures r.Pass? ==> IsConnected() && transport != null && transport.socket == socket
      ensures !old(IsConnected()) && r.Pass? ==>
        && fresh(socket) && socket.incoming == created.value.replies && socket.peerClosed == created.value.hangsUp
        && socket.outgoing == [] && !socket.closed && socket.connected
      ensures old(transport) != null ==> transport == old(transport)
      ensures old(transport) != null && !old(IsConnected()) && r.Pass? ==> old(transport.socket).closed
    {
      if connected {
        return Pass;
      }
      if created.None? {
        socket := null;
        return Fail(Escaped(NullPointer));
      }
      var s := new Socket(created.value.replies, created.value.hangsUp, false);
      socket := s;
      var ok := s.Connect(result);
      if !ok {
        s.Close();
        return Fail(SocketError);
      }
      if !s.connected {
        return Fail(SocketError);
      }
      if transport == null {
        transport := new BtTransport.Transport(s);
      } else {
        transport.SetSocket(s);
      }
      connected := true;
      r := Pass;
    }

    /** `close`: when connected, closes the transport (which closes the
        socket), forgets the socket and clears the flag; otherwise nothing. */
    method Close()
      requires Valid()
      modifies this`connected, this`socket, if transport != null then {transport.socket} else {}
      ensures Valid()
      ensures !IsConnected()
      ensures old(IsConnected()) ==> socket == null && old(socket).closed && !old(socket).connected
      ensures !old(IsConnected()) ==> socket == old(socket)
      ensures transport != null ==>
        && transport.socket.incoming == old(transport.socket.incoming)
        && transport.socket.outgoing == old(transport.socket.outgoing)
        && transport.socket.peerClosed == old(transport.socket.peerClosed)
      ensures !old(IsConnected()) && transport != null ==>
        transport.socket.closed == old(transport.socket.closed) && transport.socket.connected == old(transport.socket.connected)
    {
      if connected {
        var closed := transport.Close();
        socket := null;
        connected := false;
      }
    }

    /** `getModbusTransport`. */
    function ModbusTransport(): (t: BtTransport.Transport?)
      reads this
      ensures t == transport
    {
      transport
    }
  }
}
