/**
 * `RTUTCPMasterConnection`: the master side of an RTU-over-TCP link. It
 * opens a socket towards the slave, creates its transport the first time
 * and rebinds that same transport to every later socket.
 */
module TcpConnection {
  import opened Outcomes
  import opened Messages
  import opened Streams
  import TcpTransport

  /** The slave's address, as far as the model needs it: a value. */
  datatype InetAddress = InetAddress(octets: seq<int>)

  class Connection {
    /** `slaveIPAddress` and `slaveIPPort`. */
    var address: InetAddress
    var port: int
    /** The socket of the last successful socket construction. */
    var socket: Socket?
    /** `modbusRTUTCPTransport`. */
    var transport: TcpTransport.Transport?
    var connected: bool

    /** The transport, once there is one, is bound to the streams of an
        open socket slot, by the one-argument constructor (no envelope);
        while connected it is bound to this connection's socket. */
    ghost predicate Valid()
      reads this, transport
    {
      && (transport != null ==>
            && transport.Valid() && transport.stream != null && transport.socket == transport.stream
            && transport.wifiHack == 0 && transport.tailIP == 0)
      && (connected ==> transport != null && socket != null && transport.stream == socket)
    }

    /** `new RTUTCPMasterConnection(adr, port)`. */
    constructor (address: InetAddress, port: int)
      ensures Valid()
      ensures this.address == address && this.port == port
      ensures socket == null && transport == null && !IsConnected()
    {
      this.address := address;
      this.port := port;
      socket := null;
      transport := null;
      connected := false;
    }

    /** `isConnected`. */
    function IsConnected(): (b: bool)
      reads this
      ensures b <==> connected
    {
      connected
    }

    /**
     * `connect`: unless already connected, constructs a socket towards the
     * slave (`reached` is `None` when the constructor throws), prepares the
     * transport and sets the flag. The transport is created only the first
     * time; later connects rebind it, which closes the streams it had.
     */
    method Connect(reached: Option<Peer>) returns (r: Outcome<Fault>)
      requires Valid()
      modifies this, transport, if transport != null then {transport.stream} else {}
      ensures Valid()
      ensures old(IsConnected()) ==>
        && r.Pass? && IsConnected() && socket == old(socket) && transport == old(transport)
        && transport.stream == old(transport.stream) && transport.socket == old(transport.socket)
      ensures old(IsConnected()) ==> unchanged(this) && unchanged(transport) && unchanged(transport.stream)
      ensures r.Fail? ==>
        unchanged(this) && (transport != null ==> unchanged(transport) && unchanged(transport.stream))
      ensures !old(IsConnected()) ==> (r.Pass? <==> reached.Some?)
      ensures r.Fail? ==> r.error == SocketError && !IsConnected() && socket == old(socket)
      ensures r.Pass? ==> IsConnected() && transport != null && transport.stream == socket
      ensures !old(IsConnected()) && r.Pass? ==>
        && fresh(socket) && socket.incoming == reached.value.replies && socket.peerClosed == reached.value.hangsUp
        && socket.outgoing == [] && !socket.closed && socket.connected
      ensures old(transport) != null ==> transport == old(transport)
      ensures old(transport) != null && !old(IsConnected()) && r.Pass? ==> old(transport.stream).closed
      ensures address == old(address) && port == old(port)
    {
      if connected {
        return Pass;
      }
      if reached.None? {
        return Fail(SocketError);
      }
      var s := new Socket(reached.value.replies, reached.value.hangsUp, true);
      socket := s;
      // A freshly constructed socket is open and connected, so neither the
      // transport constructor nor `setSocket` can throw here.
      if transport == null {
        var created := TcpTransport.Create(s, 0, 0);
        transport := created.value;
      } else {
        var bound := transport.SetSocket(s);
        assert bound.Pass?;
      }
      connected := true;
      r := Pass;
    }

    /** `close`: when connected, closes the transport (an IOException there
        is swallowed) and clears the flag in any case; otherwise nothing. */
    method Close()
      requires Valid()
      modifies this`connected, if transport != null then {transport.stream} else {}
      ensures Valid()
      ensures !IsConnected()
      ensures old(IsConnected()) ==> transport.stream.closed && !transport.stream.connected
      ensures transport != null ==>
        && transport.stream.incoming == old(transport.stream.incoming)
        && transport.stream.outgoing == old(transport.stream.outgoing)
        && transport.stream.peerClosed == old(transport.stream.peerClosed)
      ensures !old(IsConnected()) && transport != null ==>
        transport.stream.closed == old(transport.stream.closed) && transport.stream.connected == old(transport.stream.connected)
    {
      if connected {
        var closed := transport.Close();
        connected := false;
      }
    }

    /** `getModbusTransport`. */
    function ModbusTransport(): (t: TcpTransport.Transport?)
      reads this
      ensures t == transport
    {
      transport
    }

    /** `getPort`/`setPort`, `getAddress`/`setAddress`. */
    function Port(): int
      reads this
    {
      port
    }

    method SetPort(p: int)
      modifies this`port
      ensures Port() == p
    {
      port := p;
    }

    function Address(): InetAddress
      reads this
    {
      address
    }

    method SetAddress(a: InetAddress)
      modifies this`address
      ensures Address() == a
    {
      address := a;
    }
  }
}
