/**
 * A stream socket (a TCP `Socket` or an RFCOMM `BluetoothSocket`) and its
 * two streams, as far as the transports depend on them. The peer's data is
 * a queue of bytes; a read hands out some non-empty prefix of it whose size
 * the network chooses, returns -1 once the peer has closed and nothing is
 * left, and otherwise fails with an `IOException` (the socket timeout or a
 * locally closed socket).
 */
module Streams {
  import opened RtuFrame

  /** What `InputStream.read(b, off, len)` does. */
  datatype ReadResult =
    | Count(n: nat)       // n bytes were stored at b[off..off + n]
    | EndOfStream         // -1
    | IoError             // IOException, e.g. SocketTimeoutException
    | OutOfRange          // IndexOutOfBoundsException for a bad off/len

  /** How `BluetoothSocket.connect()` ends. */
  datatype ConnectResult =
    | Refused             // connect() throws IOException
    | Established         // connected, isConnected() is true
    | Dropped             // connect() returned, but isConnected() is false

  /** The far end a new socket reaches: the bytes it will send and whether
      it hangs up after them. */
  datatype Peer = Peer(replies: seq<byte>, hangsUp: bool)

  class Socket {
    /** Bytes the peer has sent that nobody has read yet. */
    var incoming: seq<byte>
    /** The peer closed its side: reads past the last byte return -1. */
    var peerClosed: bool
    /** Everything written and flushed to the output stream, in order. */
    var outgoing: seq<byte>
    /** Closed on this side. */
    var closed: bool
    /** What `isConnected()` reports. */
    var connected: bool

    /** A socket the network hands out, with the peer's bytes still to come. */
    constructor (incoming: seq<byte>, peerClosed: bool, connected: bool)
      ensures this.incoming == incoming && this.peerClosed == peerClosed
      ensures this.connected == connected
      ensures outgoing == [] && !closed
    {
      this.incoming := incoming;
      this.peerClosed := peerClosed;
      this.connected := connected;
      outgoing := [];
      closed := false;
    }

    /** `read(buf, off, len)`. */
    method Read(buf: array<byte>, off: int, len: int) returns (r: ReadResult)
      modifies this`incoming, buf
      ensures (off < 0 || len < 0 || off + len > buf.Length) <==> r == OutOfRange
      ensures r.Count? ==>
        && r.n <= len && (len > 0 ==> r.n > 0)
        && 0 <= off && off + r.n <= buf.Length
        && r.n <= |old(incoming)|
        && buf[off..off + r.n] == old(incoming)[..r.n]
        && incoming == old(incoming)[r.n..]
      ensures r == EndOfStream <==>
        r != OutOfRange && len > 0 && !closed && old(incoming) == [] && peerClosed
      ensures r == IoError <==>
        r != OutOfRange && len > 0 && (closed || (old(incoming) == [] && !peerClosed))
      ensures !r.Count? ==> incoming == old(incoming)
      ensures forall i :: 0 <= i < buf.Length && !(r.Count? && off <= i < off + r.n) ==>
        buf[i] == old(buf[i])
    {
      if off < 0 || len < 0 || off + len > buf.Length {
        return OutOfRange;
      }
      if len == 0 {
        return Count(0);
      }
      if closed || (incoming == [] && !peerClosed) {
        return IoError;
      }
      if incoming == [] {
        return EndOfStream;
      }
      var most := if len < |incoming| then len else |incoming|;
      var n :| 1 <= n <= most;
      forall i | 0 <= i < n {
        buf[off + i] := incoming[i];
      }
      incoming := incoming[n..];
      r := Count(n);
    }

    /** `write(bytes)` followed by `flush()`; fails on a closed socket. */
    method Write(bytes: seq<byte>) returns (ok: bool)
      modifies this`outgoing
      ensures ok <==> !closed
      ensures outgoing == if ok then old(outgoing) + bytes else old(outgoing)
    {
      if closed {
        return false;
      }
      outgoing := outgoing + bytes;
      ok := true;
    }

    /** `cleanInputStream()`: reads until -1 or an exception, so everything
        already received is discarded; on a closed socket the first read throws. */
    method Drain()
      modifies this`incoming
      ensures incoming == if closed then old(incoming) else []
    {
      if !closed {
        incoming := [];
      }
    }

    /** `connect()` of a Bluetooth socket. */
    method Connect(result: ConnectResult) returns (ok: bool)
      modifies this`connected
      ensures ok <==> result != Refused
      ensures connected == (result == Established)
    {
      connected := result == Established;
      ok := result != Refused;
    }

    /** `close()` of the socket or of one of its streams. */
    method Close()
      modifies this`closed, this`connected
      ensures closed && !connected
    {
      closed := true;
      connected := false;
    }
  }
}
