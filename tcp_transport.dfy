/**
 * `ModbusRTUTCPTransport`: RTU frames over a TCP socket, optionally wrapped
 * in the 9-byte envelope of the newer wifi module (mode 100): the ASCII
 * letters "wifi", the last octet of the module's IP address, the fixed
 * bytes 01 00 and the frame length, big-endian. An outbound envelope is
 * assembled in a 100-byte send buffer; an inbound one is read and skipped.
 */
module TcpTransport {
  import opened Outcomes
  import opened RtuFrame
  import opened Messages
  import opened Streams
  import opened StreamFraming

  /** `mSendBuffer` has room for 100 bytes. */
  const SendBufferSize: nat := 100
  /** The value of `wifiHack` that turns the envelope on. */
  const WifiEnvelopeMode: int := 100
  const WifiHeadLength: nat := 9

  /** `createNewWifiHead(dataSize)`. */
  function WifiHead(tailIP: byte, dataSize: nat): (head: seq<byte>)
    ensures |head| == WifiHeadLength
  {
    [0x77, 0x69, 0x66, 0x69, tailIP, 0x01, 0x00, (dataSize / 256 % 256) as byte, (dataSize % 256) as byte]
  }

  /** The frame length a receiver reads back out of an envelope head. */
  function AnnouncedLength(head: seq<byte>): nat
    requires |head| == WifiHeadLength
  {
    head[7] as nat * 256 + head[8] as nat
  }

  /** Whether a 9-byte head is a wifi envelope head at all. */
  predicate IsWifiHead(head: seq<byte>)
    requires |head| == WifiHeadLength
  {
    head[..4] == [0x77, 0x69, 0x66, 0x69] && head[5] == 0x01 && head[6] == 0x00
  }

  /** Every head `createNewWifiHead` builds is recognised as one, carries the
      module address, and announces the frame length modulo 2^16, so exactly
      the length for every frame below 64 KiB. */
  lemma WifiHeadRoundTrip(tailIP: byte, dataSize: nat)
    ensures IsWifiHead(WifiHead(tailIP, dataSize)) && WifiHead(tailIP, dataSize)[4] == tailIP
    ensures AnnouncedLength(WifiHead(tailIP, dataSize)) == dataSize % 65536
    ensures dataSize < 65536 ==> AnnouncedLength(WifiHead(tailIP, dataSize)) == dataSize
  {
    var hi := dataSize / 256;
    assert dataSize == hi * 256 + dataSize % 256;
    assert hi % 256 * 256 + dataSize % 256 == dataSize % 65536 by {
      assert hi == hi / 256 * 256 + hi % 256;
      assert dataSize == hi / 256 * 65536 + (hi % 256 * 256 + dataSize % 256);
    }
  }

  /** The bytes `writeMessage` puts on the wire for an assembled frame, or
      `None` when copying the frame behind the envelope head overruns the
      send buffer. */
  function WireBytes(wifiHack: int, tailIP: byte, frame: seq<byte>): (w: Option<seq<byte>>)
    ensures wifiHack != WifiEnvelopeMode ==> w == Some(frame)
    ensures wifiHack == WifiEnvelopeMode ==> (w.Some? <==> WifiHeadLength + |frame| <= SendBufferSize)
  {
    if wifiHack != WifiEnvelopeMode then Some(frame)
    else if WifiHeadLength + |frame| > SendBufferSize then None
    else Some(WifiHead(tailIP, |frame|) + frame)
  }

  /** A receiver that knows the envelope recovers the frame exactly: a
      valid head announcing the length of what follows it. */
  lemma EnvelopeUnwraps(tailIP: byte, frame: seq<byte>)
    requires WireBytes(WifiEnvelopeMode, tailIP, frame).Some?
    ensures var w := WireBytes(WifiEnvelopeMode, tailIP, frame).value;
      && |w| == WifiHeadLength + |frame| <= SendBufferSize
      && IsWifiHead(w[..WifiHeadLength]) && w[4] == tailIP
      && AnnouncedLength(w[..WifiHeadLength]) == |frame|
      && w[WifiHeadLength..] == frame
  {
    var w := WireBytes(WifiEnvelopeMode, tailIP, frame).value;
    assert w[..WifiHeadLength] == WifiHead(tailIP, |frame|);
    WifiHeadRoundTrip(tailIP, |frame|);
  }

  /** `s` is what is left of `t` once some non-empty or empty prefix of
      `t` of length `lo` to `hi` was taken. */
  ghost predicate LeftAfter(t: seq<byte>, s: seq<byte>, lo: nat, hi: nat) {
    lo <= |t| - |s| <= hi && t[|t| - |s|..] == s
  }

  /** The envelope read of `readResponse`: up to 9 bytes, dropped; only
      the end of the stream is noticed, and a read failure drains. */
  method SkipWifiHead(input: Socket) returns (r: Outcome<Fault>)
    modifies input`incoming
    ensures r.Pass? ==> LeftAfter(old(input.incoming), input.incoming, 1, WifiHeadLength)
    ensures r.Fail? ==> r.error in {IOFailure(WifiHeadTruncated), IOFailure(ReadFailed)}
    ensures r == Fail(IOFailure(WifiHeadTruncated)) <==>
      !input.closed && old(input.incoming) == [] && input.peerClosed
    ensures r == Fail(IOFailure(ReadFailed)) ==> input.incoming == [] || input.closed
  {
    var head := new byte[WifiHeadLength];
    var h := input.Read(head, 0, WifiHeadLength);
    if h == EndOfStream {
      return Fail(IOFailure(WifiHeadTruncated));
    }
    if h == IoError {
      input.Drain();
      return Fail(IOFailure(ReadFailed));
    }
    r := Pass;
  }

  class Transport {
    /** `mSocket`. */
    var socket: Socket?
    /** The socket whose streams `mInputStream` and `mOutputStream` are. */
    var stream: Socket?
    /** `mWifiHack` and `mTailIP`. */
    const wifiHack: int
    const tailIP: byte
    /** `mSendBuffer`. */
    const sendBuffer: array<byte>
    /** The frame the last successful `ReadResponse` decoded. */
    ghost var lastFrame: seq<byte>

    /** The send buffer keeps its size. */
    ghost predicate Valid()
      reads this
    {
      sendBuffer.Length == SendBufferSize
    }

    /** The constructor with a null socket. */
    constructor (wifiHack: int, tailIP: byte)
      ensures socket == null && stream == null
      ensures this.wifiHack == wifiHack && this.tailIP == tailIP
      ensures fresh(sendBuffer) && Valid()
    {
      socket := null;
      stream := null;
      this.wifiHack := wifiHack;
      this.tailIP := tailIP;
      sendBuffer := new byte[SendBufferSize];
      lastFrame := [];
    }

    /**
     * `setSocket`: closes the streams of the socket in use, if one was set,
     * then installs `s`, whose streams can only be had while it is open and
     * connected. When that fails, `mSocket` is already `s` but the old
     * (closed) streams stay.
     */
    method SetSocket(s: Socket) returns (r: Outcome<Fault>)
      modifies this`socket, this`stream, if stream != null then {stream} else {}
      ensures old(socket) != null && old(stream) == null ==>
        r == Fail(Escaped(NullPointer)) && socket == old(socket) && stream == null
      ensures old(socket) != null && old(stream) != null ==> old(stream).closed && !old(stream).connected
      ensures !(old(socket) != null && old(stream) == null) ==>
        && socket == s
        && (r.Pass? <==> !s.closed && s.connected)
        && (r.Fail? ==> r.error == SocketError)
        && stream == if r.Pass? then s else old(stream)
      ensures old(stream) != null ==>
        old(stream).incoming == old(stream.incoming) && old(stream).outgoing == old(stream.outgoing)
    {
      if socket != null {
        if stream == null {
          return Fail(Escaped(NullPointer));
        }
        stream.Close();
      }
      socket := s;
      if s.closed || !s.connected {
        return Fail(SocketError);
      }
      stream := s;
      r := Pass;
    }

    /**
     * `writeMessage`: assembles the frame and writes it, behind the
     * envelope head in mode 100. Any failure, the missing stream and the
     * overrun of the send buffer included, is the write failure.
     */
    method WriteMessage(payload: seq<byte>) returns (r: Outcome<Fault>)
      requires Valid()
      modifies sendBuffer, if stream != null then {stream} else {}
      ensures r.Fail? ==> r.error == IOFailure(WriteFailed)
      ensures r.Pass? <==>
        stream != null && !stream.closed && WireBytes(wifiHack, tailIP, AppendCrc(payload)).Some?
      ensures stream != null ==>
        && stream.outgoing == old(stream.outgoing) +
             (if r.Pass? then WireBytes(wifiHack, tailIP, AppendCrc(payload)).value else [])
        && stream.incoming == old(stream.incoming) && stream.closed == old(stream.closed)
        && stream.connected == old(stream.connected) && stream.peerClosed == old(stream.peerClosed)
      ensures wifiHack == WifiEnvelopeMode && stream != null ==>
        sendBuffer[..WifiHeadLength] == WifiHead(tailIP, |AppendCrc(payload)|)
      ensures wifiHack != WifiEnvelopeMode || stream == null ==> sendBuffer[..] == old(sendBuffer[..])
    {
      if stream == null {
        return Fail(IOFailure(WriteFailed));
      }
      var frame := AppendCrc(payload);
      var ok: bool;
      if wifiHack == WifiEnvelopeMode {
        var head := WifiHead(tailIP, |frame|);
        forall i | 0 <= i < WifiHeadLength {
          sendBuffer[i] := head[i];
        }
        if WifiHeadLength + |frame| > sendBuffer.Length {
          assert sendBuffer[..WifiHeadLength] == head;
          return Fail(IOFailure(WriteFailed));
        }
        forall i | 0 <= i < |frame| {
          sendBuffer[WifiHeadLength + i] := frame[i];
        }
        assert sendBuffer[..WifiHeadLength + |frame|] == head + frame;
        ok := stream.Write(sendBuffer[..WifiHeadLength + |frame|]);
      } else {
        ok := stream.Write(frame);
      }
      if !ok {
        return Fail(IOFailure(WriteFailed));
      }
      r := Pass;
    }

    /** `readRequest` is not supported by a master transport. */
    method ReadRequest() returns (r: Outcome<Fault>)
      ensures r == Fail(Escaped(OperationNotSupported))
    {
      r := Fail(Escaped(OperationNotSupported));
    }

    /** `readResponse`: in mode 100 skips the envelope, then receives one
        frame and decodes it; without streams the `synchronized`
        dereferences null. */
    method ReadResponse() returns (r: Result<Response, Fault>)
      modifies if stream != null then {stream} else {}, this`lastFrame
      ensures stream == null ==> r == Err(Escaped(NullPointer))
      ensures r.Err? ==> r.error in {IOFailure(ReadFailed), IOFailure(HeaderTruncated),
                                     IOFailure(WifiHeadTruncated), Escaped(IndexOutOfBounds),
                                     Escaped(NullPointer)}
      ensures stream != null ==>
        && stream.outgoing == old(stream.outgoing) && stream.closed == old(stream.closed)
        && stream.connected == old(stream.connected) && stream.peerClosed == old(stream.peerClosed)
      ensures r.Ok? ==>
        && 3 <= |lastFrame| <= MaxMessageLength && CrcMatches(lastFrame) && r.value == Decode(lastFrame)
      ensures r.Ok? && IsByteCountCode(lastFrame[1]) ==>
        LeftAfter(old(stream.incoming), lastFrame + stream.incoming,
                  if wifiHack == WifiEnvelopeMode then 1 else 0,
                  if wifiHack == WifiEnvelopeMode then WifiHeadLength else 0)
      ensures r == Err(IOFailure(ReadFailed)) ==> stream.incoming == [] || stream.closed
      ensures r == Err(IOFailure(WifiHeadTruncated)) <==>
        stream != null && wifiHack == WifiEnvelopeMode && !stream.closed && old(stream.incoming) == [] && stream.peerClosed
    {
      if stream == null {
        return Err(Escaped(NullPointer));
      }
      ghost var start := stream.incoming;
      if wifiHack == WifiEnvelopeMode {
        var skipped := SkipWifiHead(stream);
        if skipped.Fail? {
          return Err(skipped.error);
        }
      }
      var f := ReceiveFrame(stream);
      if f.Err? {
        return Err(f.error);
      }
      lastFrame := f.value;
      r := Ok(Decode(f.value));
    }

    /** `close`: closes both streams, which closes the socket; without
        streams the call dereferences null. */
    method Close() returns (r: Outcome<Fault>)
      modifies if stream != null then {stream} else {}
      ensures stream == null <==> r == Fail(Escaped(NullPointer))
      ensures stream != null ==> stream.closed && !stream.connected
      ensures stream != null ==>
        && stream.incoming == old(stream.incoming) && stream.outgoing == old(stream.outgoing)
        && stream.peerClosed == old(stream.peerClosed)
    {
      if stream == null {
        return Fail(Escaped(NullPointer));
      }
      stream.Close();
      r := Pass;
    }
  }

  /** `new ModbusRTUTCPTransport(socket, wifiHack, tailIP)`: with a socket,
      the constructor fails as `setSocket` does. */
  method Create(socket: Socket?, wifiHack: int, tailIP: byte) returns (r: Result<Transport, Fault>)
    ensures r.Err? <==> socket != null && (socket.closed || !socket.connected)
    ensures r.Err? ==> r.error == SocketError
    ensures r.Ok? ==>
      && fresh(r.value) && fresh(r.value.sendBuffer) && r.value.Valid()
      && r.value.socket == socket && r.value.stream == socket
      && r.value.wifiHack == wifiHack && r.value.tailIP == tailIP
  {
    var t := new Transport(wifiHack, tailIP);
    if socket != null {
      var bound := t.SetSocket(socket);
      if bound.Fail? {
        return Err(bound.error);
      }
    }
    r := Ok(t);
  }
}
