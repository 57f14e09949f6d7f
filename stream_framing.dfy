/**
 * The receive path both stream transports share (classic Bluetooth and
 * TCP): read the two header bytes, let `getResponse(fn)` read what the
 * function code announces, then compare the CRC. The two Java files carry
 * the same `getResponse` switch and the same read loop, so they are
 * modelled once here and called by both transport classes.
 *
 * The unwrapped header read and the fixed-length reads ignore the count
 * `read` returns, as the code does: a short read leaves zeros behind.
 */
module StreamFraming {
  import opened Outcomes
  import opened RtuFrame
  import opened Messages
  import opened LengthTables
  import opened Streams

  /** How reading a frame off the stream can fail, by the Java exception
      that carries it out of `readResponse`'s try block. */
  datatype ReadFault =
    | Truncated    // ModbusIOException "Premature end of stream": not an IOException
    | Failed       // an IOException from a read: the socket timeout
    | CrcMismatch  // the IOException "CRC Error in received frame"
    | BadIndex     // IndexOutOfBoundsException, an unchecked exception

  /** The cases of `getResponse(fn)` that read nothing after the header. */
  predicate ReadsNothing(fn: byte) {
    !IsByteCountCode(fn) && !(IsStreamFixedCode(fn) && fn != 0x16) && fn != 0x18 && fn !in {0x83, 0x90}
  }

  /** What the stream lost went, in order, to `buf[from..]`, and no other
      cell of `buf` changed. */
  ghost predicate Landed(buf: seq<byte>, was: seq<byte>, from: nat, inWas: seq<byte>, inNow: seq<byte>) {
    && |inNow| <= |inWas|
    && inWas[|inWas| - |inNow|..] == inNow
    && from + (|inWas| - |inNow|) <= |buf| == |was|
    && buf[from..from + (|inWas| - |inNow|)] == inWas[..|inWas| - |inNow|]
    && (forall i :: 0 <= i < |buf| && !(from <= i < from + (|inWas| - |inNow|)) ==> buf[i] == was[i])
  }

  /** A read that stored the next `n` stream bytes right after those that
      already landed keeps `Landed`. */
  lemma LandedExtend(was: seq<byte>, from: nat, inWas: seq<byte>, buf1: seq<byte>, in1: seq<byte>,
                     buf2: seq<byte>, n: nat)
    requires Landed(buf1, was, from, inWas, in1)
    requires n <= |in1| && |buf2| == |buf1|
    requires from + (|inWas| - |in1|) + n <= |buf2|
    requires buf2[from + (|inWas| - |in1|)..from + (|inWas| - |in1|) + n] == in1[..n]
    requires forall i :: 0 <= i < |buf2| && !(from + (|inWas| - |in1|) <= i < from + (|inWas| - |in1|) + n) ==>
      buf2[i] == buf1[i]
    ensures Landed(buf2, was, from, inWas, in1[n..])
  {
    var c := |inWas| - |in1|;
    var c2 := c + n;
    assert inWas[..c2] == inWas[..c] + in1[..n] by {
      assert inWas[c..] == in1;
      forall i | c <= i < c2
        ensures inWas[i] == in1[i - c]
      {
        assert inWas[c..][i - c] == inWas[i];
      }
    }
    assert buf2[from..from + c2] == buf2[from..from + c] + buf2[from + c..from + c2];
    assert buf2[from..from + c] == buf1[from..from + c];
    assert inWas[|inWas| - |in1[n..]|..] == in1[n..] by {
      assert inWas[c..] == in1;
    }
  }

  /** Two reads in a row, the second storing where the first stopped. */
  lemma LandedCompose(was: seq<byte>, mid: seq<byte>, now: seq<byte>, from: nat,
                      in0: seq<byte>, in1: seq<byte>, in2: seq<byte>)
    requires Landed(mid, was, from, in0, in1)
    requires Landed(now, mid, from + (|in0| - |in1|), in1, in2)
    ensures Landed(now, was, from, in0, in2)
  {
    var c1 := |in0| - |in1|;
    var c2 := |in1| - |in2|;
    assert in0[..c1 + c2] == in0[..c1] + in1[..c2] by {
      assert in0[c1..] == in1;
    }
    assert now[from..from + c1 + c2] == now[from..from + c1] + now[from + c1..from + c1 + c2];
    assert now[from..from + c1] == mid[from..from + c1];
    assert in0[|in0| - |in2|..] == in2 by {
      assert in0[c1..] == in1;
    }
  }

  /** When no byte was taken, where they would have landed does not matter. */
  lemma LandedNothing(now: seq<byte>, was: seq<byte>, from: nat, to: nat, in0: seq<byte>)
    requires Landed(now, was, from, in0, in0) && to <= |now|
    ensures Landed(now, was, to, in0, in0)
  {
  }

  /** The end of `readResponse` once the reads are done: the table length
      must index the buffer (otherwise indexing the CRC bytes throws) and
      the CRC must match. */
  function CheckFrame(buf: seq<byte>): (r: Result<Response, ReadFault>)
    requires |buf| == MaxMessageLength
    ensures r.Err? ==> r.error in {BadIndex, CrcMismatch}
  {
    var len := StreamFrameLength(buf[1], buf[2], buf[3]);
    if len < 2 || len > |buf| then Err(BadIndex)
    else if !CrcMatches(buf[..len]) then Err(CrcMismatch)
    else Ok(Decode(buf[..len]))
  }

  /** One `read(buffer, offset, len)` of the loop: the bytes it takes land
      right after those taken before, wherever the stream still has any. */
  method ReadOn(input: Socket, buffer: array<byte>, offset: int, len: int,
                ghost was: seq<byte>, ghost from: nat, ghost start: seq<byte>) returns (r: ReadResult)
    requires Landed(buffer[..], was, from, start, input.incoming)
    requires len > 0
    requires input.incoming != [] ==> offset == from + (|start| - |input.incoming|)
    modifies input`incoming, buffer
    ensures Landed(buffer[..], was, from, start, input.incoming)
    ensures (offset < 0 || offset + len > buffer.Length) <==> r == OutOfRange
    ensures r.Count? ==> 0 < r.n <= len && |input.incoming| == |old(input.incoming)| - r.n
    ensures r == EndOfStream <==>
      r != OutOfRange && !input.closed && old(input.incoming) == [] && input.peerClosed
    ensures r == IoError <==>
      r != OutOfRange && (input.closed || (old(input.incoming) == [] && !input.peerClosed))
    ensures !r.Count? ==> input.incoming == old(input.incoming)
  {
    ghost var before := input.incoming;
    ghost var bufBefore := buffer[..];
    r := input.Read(buffer, offset, len);
    if r.Count? {
      LandedExtend(was, from, start, bufBefore, before, buffer[..], r.n);
    } else {
      assert buffer[..] == bufBefore;
    }
  }

  /**
   * The `while (remain > 0)` loop: reads the `dataLength + 2` bytes after
   * the byte count into `buffer[3..]`, however the stream splits them.
   * A -1 from `read` is not tested: it grows `remain` and shrinks `offset`
   * until a read with a negative offset throws.
   */
  method FillRemaining(input: Socket, buffer: array<byte>, dataLength: nat) returns (r: Result<(), ReadFault>)
    requires buffer.Length == MaxMessageLength
    modifies input`incoming, buffer
    ensures Landed(buffer[..], old(buffer[..]), 3, old(input.incoming), input.incoming)
    ensures r.Ok? ==> |old(input.incoming)| - |input.incoming| == dataLength + 2
    ensures r.Err? ==> r.error in {Failed, BadIndex}
    ensures r == Err(BadIndex) ==>
      dataLength + 5 > buffer.Length || (input.incoming == [] && input.peerClosed)
    ensures |old(input.incoming)| >= dataLength + 2 && !input.closed && dataLength + 5 <= buffer.Length
            ==> r.Ok?
  {
    ghost var start := input.incoming;
    ghost var was := buffer[..];
    ghost var enough := |start| >= dataLength + 2 && !input.closed && dataLength + 5 <= buffer.Length;
    ghost var eofs: nat := 0;
    var remain: int := dataLength + 2;
    var offset: int := 3;
    while remain > 0
      invariant offset + remain == dataLength + 5
      invariant offset == 3 + (|start| - |input.incoming|) - eofs
      invariant Landed(buffer[..], was, 3, start, input.incoming)
      invariant eofs > 0 ==> input.incoming == [] && input.peerClosed && !input.closed
      invariant offset >= -1 && remain >= 0
      invariant eofs > 0 ==> remain > 0
      invariant input.closed == old(input.closed)
      invariant enough ==> eofs == 0 && |input.incoming| >= remain
      decreases |input.incoming|, offset + 1
    {
      var count := ReadOn(input, buffer, offset, remain, was, 3, start);
      match count {
        case Count(n) =>
          remain := remain - n;
          offset := offset + n;
        case EndOfStream =>
          remain := remain + 1;
          offset := offset - 1;
          eofs := eofs + 1;
        case IoError =>
          return Err(Failed);
        case OutOfRange =>
          return Err(BadIndex);
      }
    }
    return Ok(());
  }

  /** The byte-count case of `getResponse(fn)`: one read for the count at
      offset 2 (its result unchecked), then the loop for count + 2 bytes. */
  method ReadCounted(input: Socket, buffer: array<byte>) returns (r: Result<nat, ReadFault>)
    requires buffer.Length == MaxMessageLength
    modifies input`incoming, buffer
    ensures Landed(buffer[..], old(buffer[..]), 2, old(input.incoming), input.incoming)
    ensures r.Ok? ==> r.value == buffer[2] as nat + 5 == 2 + |old(input.incoming)| - |input.incoming|
    ensures r.Err? ==> r.error in {Failed, BadIndex}
    ensures r == Err(BadIndex) ==>
      buffer[2] as nat + 5 > MaxMessageLength || (input.incoming == [] && input.peerClosed)
    ensures !input.closed && |old(input.incoming)| > 0
            && |old(input.incoming)| >= old(input.incoming)[0] as int + 3
            && old(input.incoming)[0] as int + 5 <= MaxMessageLength
            ==> r.Ok?
  {
    ghost var start := input.incoming;
    ghost var was := buffer[..];
    assert Landed(was, was, 2, start, start);
    var count := ReadOn(input, buffer, 2, 1, was, 2, start);
    if count == IoError {
      return Err(Failed);
    }
    var dataLength := buffer[2] as nat;
    ghost var mid := input.incoming;
    ghost var midBuf := buffer[..];
    var rest := FillRemaining(input, buffer, dataLength);
    assert buffer[2] == midBuf[2];
    if count.Count? {
      LandedCompose(was, midBuf, buffer[..], 2, start, mid, input.incoming);
    } else {
      LandedNothing(buffer[..], midBuf, 3, 2, mid);
      LandedCompose(was, midBuf, buffer[..], 2, start, mid, input.incoming);
    }
    if rest.Err? {
      return Err(rest.error);
    }
    return Ok(dataLength + 5);
  }

  /** A read of `len` bytes at offset 2 whose count is not looked at. */
  method ReadUnchecked(input: Socket, buffer: array<byte>, len: nat) returns (r: Outcome<ReadFault>)
    requires buffer.Length == MaxMessageLength && len <= 6
    modifies input`incoming, buffer
    ensures Landed(buffer[..], old(buffer[..]), 2, old(input.incoming), input.incoming)
    ensures r.Fail? ==> r.error == Failed
  {
    var count := input.Read(buffer, 2, len);
    if count == IoError {
      return Fail(Failed);
    }
    return Pass;
  }

  /**
   * `getResponse(fn)`: reads the part of the frame after the two header
   * bytes that the function code announces and answers the total length of
   * the length table. Whatever it takes from the stream lands contiguously
   * from offset 2; for a byte-count code a successful read took exactly the
   * rest of the frame.
   */
  method GetResponse(input: Socket, buffer: array<byte>, fn: byte) returns (r: Result<nat, ReadFault>)
    requires buffer.Length == MaxMessageLength
    modifies input`incoming, buffer
    ensures Landed(buffer[..], old(buffer[..]), 2, old(input.incoming), input.incoming)
    ensures r.Ok? ==> r.value == StreamFrameLength(fn, buffer[2], buffer[3])
    ensures r.Ok? && IsByteCountCode(fn) ==> 2 + |old(input.incoming)| - |input.incoming| == r.value
    ensures ReadsNothing(fn) ==> input.incoming == old(input.incoming) && r.Ok?
    ensures r.Err? ==> r.error in {Failed, BadIndex}
    ensures r == Err(BadIndex) ==>
      StreamFrameLength(fn, buffer[2], buffer[3]) > MaxMessageLength || (input.incoming == [] && input.peerClosed)
    ensures IsByteCountCode(fn) && !input.closed && |old(input.incoming)| > 0
            && |old(input.incoming)| >= old(input.incoming)[0] as int + 3
            && old(input.incoming)[0] as int + 5 <= MaxMessageLength
            ==> r.Ok?
  {
    if IsByteCountCode(fn) {
      r := ReadCounted(input, buffer);
    } else if IsStreamFixedCode(fn) && fn != 0x16 {
      var o := ReadUnchecked(input, buffer, 6);
      r := if o.Fail? then Err(o.error) else Ok(8);
    } else if fn in {0x07, 0x08} {
      r := Ok(3);
    } else if fn == 0x16 {
      r := Ok(8);
    } else if fn == 0x18 {
      var o := ReadUnchecked(input, buffer, 2);
      r := if o.Fail? then Err(o.error) else Ok(buffer[2] as nat * 256 + buffer[3] as nat + 6);
    } else if fn in {0x83, 0x90} {
      var o := ReadUnchecked(input, buffer, 3);
      r := if o.Fail? then Err(o.error) else Ok(5);
    } else {
      r := Ok(0);
    }
  }

  /** `read(buffer, 0, 2)` for unit id and function code, -1 being the
      premature end of the stream; the count read is not checked. */
  method ReadHeader(input: Socket, buffer: array<byte>) returns (r: Outcome<ReadFault>)
    requires buffer.Length == MaxMessageLength
    modifies input`incoming, buffer
    ensures Landed(buffer[..], old(buffer[..]), 0, old(input.incoming), input.incoming)
    ensures r.Pass? ==> 1 <= |old(input.incoming)| - |input.incoming| <= 2
    ensures r == Fail(Truncated) <==> !input.closed && old(input.incoming) == [] && input.peerClosed
    ensures r.Fail? ==> r.error in {Truncated, Failed}
  {
    ghost var start := input.incoming;
    ghost var was := buffer[..];
    var header := input.Read(buffer, 0, 2);
    assert Landed(was, was, 0, start, start);
    LandedExtend(was, 0, start, was, start, buffer[..], if header.Count? then header.n else 0);
    if header == EndOfStream {
      return Fail(Truncated);
    }
    if header == IoError {
      return Fail(Failed);
    }
    return Pass;
  }

  /** When the bytes taken from the stream are exactly the first `n` of
      the buffer, the stream was those bytes followed by what is left. */
  lemma TakenPrefix(buf: seq<byte>, was: seq<byte>, inWas: seq<byte>, inNow: seq<byte>, n: nat)
    requires Landed(buf, was, 0, inWas, inNow) && |inWas| - |inNow| == n
    ensures inWas == buf[..n] + inNow
  {
    assert inWas == inWas[..n] + inWas[n..];
  }

  /** The reads of `readResponse`: the header, then `getResponse` for the
      function code it brought. On a buffer whose byte 1 starts at zero, a
      non-zero function code means the header came in whole, so the bytes
      taken from the stream stand contiguously from offset 0. */
  method ReadRaw(input: Socket, buffer: array<byte>) returns (r: Result<nat, ReadFault>)
    requires buffer.Length == MaxMessageLength && buffer[1] == 0
    modifies input`incoming, buffer
    ensures r.Ok? ==> r.value == StreamFrameLength(buffer[1], buffer[2], buffer[3])
    ensures r.Ok? && buffer[1] != 0 ==> Landed(buffer[..], old(buffer[..]), 0, old(input.incoming), input.incoming)
    ensures r.Ok? && IsByteCountCode(buffer[1]) ==> |old(input.incoming)| - |input.incoming| == r.value
    ensures r.Err? ==> r.error in {Truncated, Failed, BadIndex}
    ensures r == Err(Truncated) <==> !input.closed && old(input.incoming) == [] && input.peerClosed
    ensures r == Err(BadIndex) ==>
      StreamFrameLength(buffer[1], buffer[2], buffer[3]) > MaxMessageLength || (input.incoming == [] && input.peerClosed)
    ensures |input.incoming| <= |old(input.incoming)|
  {
    ghost var start := input.incoming;
    ghost var was := buffer[..];
    var header := ReadHeader(input, buffer);
    if header.Fail? {
      return Err(header.error);
    }
    ghost var mid := input.incoming;
    ghost var midBuf := buffer[..];
    var fn := buffer[1];
    r := GetResponse(input, buffer, fn);
    assert buffer[..][1] == midBuf[1];
    if r.Ok? && fn != 0 {
      LandedCompose(was, midBuf, buffer[..], 0, start, mid, input.incoming);
    }
  }

  /**
   * The body of `readResponse` inside its `synchronized` block, on the
   * zeroed buffer it allocates: the reads, the index `buffer[length - 2]`
   * and the CRC comparison. It answers the frame handed on to
   * `createModbusResponse`. When the reads got through, the verdict is
   * what `CheckFrame` says of the buffer the reads left; an accepted frame
   * starts with the bytes taken from the stream, and for a byte-count code
   * it is exactly those bytes.
   */
  method ReadFrame(input: Socket, buffer: array<byte>) returns (r: Result<seq<byte>, ReadFault>)
    requires buffer.Length == MaxMessageLength
    requires forall i :: 0 <= i < buffer.Length ==> buffer[i] == 0
    modifies input`incoming, buffer
    ensures r.Ok? ==> 3 <= |r.value| <= MaxMessageLength && CrcMatches(r.value)
    ensures r.Ok? ==> CheckFrame(buffer[..]) == Ok(Decode(r.value)) && r.value == buffer[..|r.value|]
    ensures r == Err(CrcMismatch) ==> CheckFrame(buffer[..]) == Err(CrcMismatch)
    ensures r == Err(Truncated) <==> !input.closed && old(input.incoming) == [] && input.peerClosed
    ensures r == Err(BadIndex) ==>
      CheckFrame(buffer[..]) == Err(BadIndex) || (input.incoming == [] && input.peerClosed)
    ensures |input.incoming| <= |old(input.incoming)|
    ensures r.Ok? ==> Landed(buffer[..], old(buffer[..]), 0, old(input.incoming), input.incoming)
    ensures r.Ok? && IsByteCountCode(r.value[1]) ==> old(input.incoming) == r.value + input.incoming
  {
    ghost var start := input.incoming;
    var raw := ReadRaw(input, buffer);
    if raw.Err? {
      return Err(raw.error);
    }
    var length := raw.value;
    if length < 2 || length > buffer.Length {
      return Err(BadIndex);
    }
    var frame := buffer[..length];
    if !CrcMatches(frame) {
      return Err(CrcMismatch);
    }
    if IsByteCountCode(frame[1]) {
      TakenPrefix(buffer[..], old(buffer[..]), start, input.incoming, length);
    }
    r := Ok(frame);
  }

  /**
   * The try block of `readResponse` after any envelope, with its handler:
   * reads and checks one frame into a fresh zeroed buffer. An IOException
   * (a timeout, the CRC error) drains the input stream and becomes the read
   * failure; the premature end of stream and the bad indices leave the try
   * block unwrapped and undrained.
   */
  method ReceiveFrame(input: Socket) returns (r: Result<seq<byte>, Fault>)
    modifies input`incoming
    ensures r.Err? ==> r.error in {IOFailure(ReadFailed), IOFailure(HeaderTruncated), Escaped(IndexOutOfBounds)}
    ensures r.Ok? ==> 3 <= |r.value| <= MaxMessageLength && CrcMatches(r.value)
    ensures r.Ok? && IsByteCountCode(r.value[1]) ==> old(input.incoming) == r.value + input.incoming
    ensures r == Err(IOFailure(ReadFailed)) ==> input.incoming == [] || input.closed
    ensures r == Err(IOFailure(HeaderTruncated)) <==>
      !input.closed && old(input.incoming) == [] && input.peerClosed
  {
    var buffer := new byte[MaxMessageLength](_ => 0);
    var f := ReadFrame(input, buffer);
    match f {
      case Ok(frame) =>
        r := Ok(frame);
      case Err(Truncated) =>
        r := Err(IOFailure(HeaderTruncated));
      case Err(BadIndex) =>
        r := Err(Escaped(IndexOutOfBounds));
      case Err(_) =>
        input.Drain();
        r := Err(IOFailure(ReadFailed));
    }
  }

  /** A frame the writing side assembled, standing at the front of the
      buffer with the length its own header announces, passes the check and
      decodes from exactly its bytes. */
  lemma AssembledFrameAccepted(buf: seq<byte>, payload: seq<byte>)
    requires |buf| == MaxMessageLength
    requires 3 <= |AppendCrc(payload)| <= MaxMessageLength
    requires buf[..|AppendCrc(payload)|] == AppendCrc(payload)
    requires StreamFrameLength(buf[1], buf[2], buf[3]) == |AppendCrc(payload)|
    ensures CheckFrame(buf) == Ok(Decode(AppendCrc(payload)))
  {
    AppendCrcAccepted(payload);
  }

  /** Any frame whose last two bytes are not the CRC of the rest is rejected
      with the CRC error. */
  lemma CorruptFrameRejected(buf: seq<byte>)
    requires |buf| == MaxMessageLength
    requires var len := StreamFrameLength(buf[1], buf[2], buf[3]);
      3 <= len <= MaxMessageLength && Crc(buf[..len - 2]) != (buf[len - 2], buf[len - 1])
    ensures CheckFrame(buf) == Err(CrcMismatch)
  {
    var len := StreamFrameLength(buf[1], buf[2], buf[3]);
    assert buf[..len][..len - 2] == buf[..len - 2];
  }

  /** For 0x07 and 0x08 the frame is taken to be three bytes: the CRC of the
      unit id alone is compared with the function code and byte 2. */
  lemma ThreeByteCodes(buf: seq<byte>)
    requires |buf| == MaxMessageLength && buf[1] in {0x07, 0x08}
    ensures CheckFrame(buf).Ok? <==> Crc([buf[0]]) == (buf[1], buf[2])
  {
    assert buf[..3][..1] == [buf[0]];
  }

  /** A function code outside the table gives length 0, and indexing
      `buffer[-2]` throws an unchecked exception rather than an IOException. */
  lemma UnknownCodeEscapes(buf: seq<byte>)
    requires |buf| == MaxMessageLength
    requires StreamFrameLength(buf[1], buf[2], buf[3]) == 0
    ensures CheckFrame(buf) == Err(BadIndex)
  {
  }
}
