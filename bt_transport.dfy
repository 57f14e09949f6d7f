/**
 * `ModbusRTUBluetoothTransport`: RTU frames over the streams of an RFCOMM
 * socket, with the same receive path as the TCP transport and no envelope.
 */
module BtTransport {
  import opened Outcomes
  import opened RtuFrame
  import opened Messages
  import opened Streams
  import opened StreamFraming

  class Transport {
    /** `mSocket`, whose streams `mInputStream` and `mOutputStream` are:
        getting the streams of a Bluetooth socket does not fail. */
    var socket: Socket?
    /** The frame the last successful `ReadResponse` decoded. */
    ghost var lastFrame: seq<byte>

    /** `new ModbusRTUBluetoothTransport(socket)`. */
    constructor (socket: Socket?)
      ensures this.socket == socket
    {
      this.socket := socket;
      lastFrame := [];
    }

    /** `setSocket`: closes the streams in use, which closes their socket,
        and takes over `s`. */
    method SetSocket(s: Socket)
      modifies this`socket, if socket != null then {socket} else {}
      ensures socket == s
      ensures old(socket) != null ==> old(socket).closed && !old(socket).connected
      ensures old(socket) != null ==>
        old(socket).incoming == old(socket.incoming) && old(socket).outgoing == old(socket.outgoing)
    {
      if socket != null {
        socket.Close();
      }
      socket := s;
    }

    /** `writeMessage`: assembles the frame and writes it; every failure,
        the missing stream included, is the write failure. */
    method WriteMessage(payload: seq<byte>) returns (r: Outcome<Fault>)
      modifies if socket != null then {socket} else {}
      ensures r.Fail? ==> r.error == IOFailure(WriteFailed)
      ensures r.Pass? <==> socket != null && !socket.closed
      ensures socket != null ==>
        && socket.outgoing == old(socket.outgoing) + (if r.Pass? then AppendCrc(payload) else [])
        && socket.incoming == old(socket.incoming) && socket.closed == old(socket.closed)
        && socket.connected == old(socket.connected) && socket.peerClosed == old(socket.peerClosed)
    {
      if socket == null {
        return Fail(IOFailure(WriteFailed));
      }
      var ok := socket.Write(AppendCrc(payload));
      if !ok {
        return Fail(IOFailure(WriteFailed));
      }
      r := Pass;
    }

    /** `readRequest` is not supported by a master transport. */
    method ReadRequest() returns (r: Outcome<Fault>)
      ensures r == Fail(Escaped(OperationNotSupported))
    {
      r := Fail(Escaped(OperationNotSupported));
    }

    /** `readResponse`: receives one frame and decodes it; without streams
        the `synchronized` dereferences null. */
    method ReadResponse() returns (r: Result<Response, Fault>)
      modifies if socket != null then {socket} else {}, this`lastFrame
      ensures socket == null ==> r == Err(Escaped(NullPointer))
      ensures r.Err? ==> r.error in {IOFailure(ReadFailed), IOFailure(HeaderTruncated),
                                     Escaped(IndexOutOfBounds), Escaped(NullPointer)}
      ensures socket != null ==>
        && socket.outgoing == old(socket.outgoing) && socket.closed == old(socket.closed)
        && socket.connected == old(socket.connected) && socket.peerClosed == old(socket.peerClosed)
      ensures r.Ok? ==>
        && 3 <= |lastFrame| <= MaxMessageLength && CrcMatches(lastFrame) && r.value == Decode(lastFrame)
      ensures r.Ok? && IsByteCountCode(lastFrame[1]) ==> old(socket.incoming) == lastFrame + socket.incoming
      ensures r == Err(IOFailure(ReadFailed)) ==> socket.incoming == [] || socket.closed
      ensures r == Err(IOFailure(HeaderTruncated)) <==>
        socket != null && !socket.closed && old(socket.incoming) == [] && socket.peerClosed
    {
      if socket == null {
        return Err(Escaped(NullPointer));
      }
      var f := ReceiveFrame(socket);
      if f.Err? {
        return Err(f.error);
      }
      lastFrame := f.value;
      r := Ok(Decode(f.value));
    }

    /** `close`: closes both streams, which closes the socket; without
        streams the call dereferences null. */
    method Close() returns (r: Outcome<Fault>)
      modifies if socket != null then {socket} else {}
      ensures socket == null <==> r == Fail(Escaped(NullPointer))
      ensures socket != null ==> socket.closed && !socket.connected
      ensures socket != null ==>
        && socket.incoming == old(socket.incoming) && socket.outgoing == old(socket.outgoing)
        && socket.peerClosed == old(socket.peerClosed)
    {
      if socket == null {
        return Fail(Escaped(NullPointer));
      }
      socket.Close();
      r := Pass;
    }
  }
}
