/**
 * The BLE transport: a blocking write/read contract built over a radio that
 * acknowledges writes and delivers notifications through callbacks. The
 * notifier callback appends every chunk to a fixed 256-byte reassembly
 * buffer and raises a "received" flag once the length table says a whole
 * frame is there; the blocking reader checks the flag after its wait and
 * takes the frame out of the buffer.
 *
 * The two timed waits are not modelled as time: a write's wait ends either
 * with the acknowledgement callback having run (`Acknowledged`) or without
 * it (`TimedOut`), and a read observes the buffer after whatever chunks the
 * notifier delivered during its wait, each delivered by `OnReceive`.
 */
module BleTransport {
  import opened Outcomes
  import opened RtuFrame
  import opened Messages
  import opened LengthTables

  /** The size of `mBuffer`. */
  const BufferSize: nat := 256

  /** How the write's wait for the acknowledgement callback ends. */
  datatype WriteAck = TimedOut | Acknowledged(success: bool)

  /** What the notifier and the reader share: the buffer contents, the
      cursor and the "received" flag. */
  datatype RxState = RxState(buffer: seq<byte>, index: nat, received: bool)

  /** The completion test of `onRecieve`: more than two bytes are in, and at
      least as many as the length table asks for. */
  predicate Complete(buffer: seq<byte>, index: nat)
    requires |buffer| == BufferSize
  {
    index > 2 && index >= BleFrameLength(buffer[1], buffer[2])
  }

  /** The states the transport can be in: a full-size buffer, a cursor
      inside it, and no complete frame without the flag raised. */
  ghost predicate Good(st: RxState) {
    && |st.buffer| == BufferSize
    && st.index <= BufferSize
    && (Complete(st.buffer, st.index) ==> st.received)
  }

  /** The state `writeMessage` leaves behind: zeroed buffer, cursor 0, no frame. */
  function Cleared(): (st: RxState)
    ensures Good(st)
  {
    RxState(seq(BufferSize, _ => 0), 0, false)
  }

  /** `onRecieve(data)` on the shared state. A chunk that does not fit makes
      `System.arraycopy` throw before it copies anything. */
  ghost function Receive(st: RxState, data: seq<byte>): (st': RxState)
    requires Good(st)
    ensures Good(st')
    ensures st.index + |data| > BufferSize ==> st' == st
    ensures st.index + |data| <= BufferSize ==>
      && st'.index == st.index + |data|
      && st'.buffer[st.index..st'.index] == data
      && (forall i :: 0 <= i < BufferSize && !(st.index <= i < st'.index) ==> st'.buffer[i] == st.buffer[i])
    ensures st.received ==> st'.received
    ensures st'.received <==>
      st.received || (st.index + |data| <= BufferSize && Complete(st'.buffer, st'.index))
  {
    if st.index + |data| > BufferSize then st
    else
      var b := st.buffer[..st.index] + data + st.buffer[st.index + |data|..];
      var i := st.index + |data|;
      assert b[st.index..i] == data;
      RxState(b, i, st.received || Complete(b, i))
  }

  /** The chunks delivered one after the other, as one byte sequence. */
  function Concat(chunks: seq<seq<byte>>): seq<byte> {
    if chunks == [] then [] else chunks[0] + Concat(chunks[1..])
  }

  /** The state after the notifier delivered the chunks in order. */
  ghost function Feed(st: RxState, chunks: seq<seq<byte>>): (st': RxState)
    requires Good(st)
    ensures Good(st')
    decreases |chunks|
  {
    if chunks == [] then st else Feed(Receive(st, chunks[0]), chunks[1..])
  }

  /** Two chunks in a row leave the same state as their concatenation in one. */
  lemma ReceiveTwice(st: RxState, a: seq<byte>, b: seq<byte>)
    requires Good(st)
    requires st.index + |a| + |b| <= BufferSize
    ensures Receive(Receive(st, a), b) == Receive(st, a + b)
  {
    var s1 := Receive(st, a);
    var s2 := Receive(s1, b);
    var t := Receive(st, a + b);
    assert s2.index == t.index;
    forall i | 0 <= i < BufferSize
      ensures s2.buffer[i] == t.buffer[i]
    {
      if st.index <= i < st.index + |a| {
        assert s2.buffer[i] == s1.buffer[i] == a[i - st.index];
        assert t.buffer[i] == t.buffer[st.index..t.index][i - st.index] == (a + b)[i - st.index];
      } else if st.index + |a| <= i < t.index {
        assert s2.buffer[i] == s2.buffer[s1.index..s2.index][i - s1.index] == b[i - s1.index];
        assert t.buffer[i] == t.buffer[st.index..t.index][i - st.index] == (a + b)[i - st.index];
      }
    }
    assert s2.buffer == t.buffer;
    if Complete(s1.buffer, s1.index) {
      // once more than two bytes are in, bytes 1 and 2 never change again
      assert s2.buffer[1] == s1.buffer[1] && s2.buffer[2] == s1.buffer[2];
    }
  }

  /**
   * Reassembly does not depend on how the radio splits the bytes: feeding
   * any sequence of chunks leaves exactly the buffer, cursor and flag that
   * feeding their concatenation as one chunk leaves.
   */
  lemma {:induction false} FeedIsSplitIndependent(st: RxState, chunks: seq<seq<byte>>)
    requires Good(st)
    requires st.index + |Concat(chunks)| <= BufferSize
    ensures Feed(st, chunks) == Receive(st, Concat(chunks))
    decreases |chunks|
  {
    if chunks == [] {
      assert Receive(st, []).buffer == st.buffer;
    } else {
      var s1 := Receive(st, chunks[0]);
      FeedIsSplitIndependent(s1, chunks[1..]);
      ReceiveTwice(st, chunks[0], Concat(chunks[1..]));
    }
  }

  /** A response frame as the BLE transport accepts it: its length is what
      the table gives for its own bytes 1 and 2, it fits the buffer, and its
      CRC is right. */
  predicate WellFormed(frame: seq<byte>) {
    && 5 <= |frame| <= BufferSize
    && BleFrameLength(frame[1], frame[2]) == |frame|
    && CrcMatches(frame)
  }

  /** `readResponse` on the shared state: the flag must be up, the table
      length must index the buffer (a length of 0 makes `buffer[length - 2]`
      throw, which the catch-all turns into a `ModbusIOException` like every
      other failure), and the CRC must match. */
  function ReadOutcome(st: RxState): (r: Result<Response, Fault>)
    requires |st.buffer| == BufferSize
    ensures r.Err? ==> r.error == IOFailure(ReadFailed)
    ensures r.Ok? <==> (st.received &&
      var len := BleFrameLength(st.buffer[1], st.buffer[2]);
      len <= BufferSize && WellFormed(st.buffer[..len]))
  {
    if !st.received then Err(IOFailure(ReadFailed))
    else
      var len := BleFrameLength(st.buffer[1], st.buffer[2]);
      if len < 2 || len > BufferSize then Err(IOFailure(ReadFailed))
      else if !CrcMatches(st.buffer[..len]) then Err(IOFailure(ReadFailed))
      else Ok(Decode(st.buffer[..len]))
  }

  /** Feeding a proper prefix of a well-formed frame after a write never
      raises the flag: the reader is not woken with half a frame. */
  lemma PrefixIsIncomplete(frame: seq<byte>, k: nat)
    requires WellFormed(frame)
    requires k < |frame|
    ensures !Receive(Cleared(), frame[..k]).received
  {
    var st := Receive(Cleared(), frame[..k]);
    if k > 2 {
      assert st.buffer[1] == st.buffer[0..k][1] == frame[1];
      assert st.buffer[2] == st.buffer[0..k][2] == frame[2];
    }
  }

  /**
   * The round trip of the BLE path: after a write cleared the state, a
   * well-formed response delivered in any chunks raises the flag and is
   * read back as the decoding of exactly that frame.
   */
  lemma DeliveredFrameIsRead(frame: seq<byte>, chunks: seq<seq<byte>>)
    requires WellFormed(frame)
    requires Concat(chunks) == frame
    ensures Feed(Cleared(), chunks).received
    ensures ReadOutcome(Feed(Cleared(), chunks)) == Ok(Decode(frame))
  {
    FeedIsSplitIndependent(Cleared(), chunks);
    var st := Receive(Cleared(), frame);
    assert st.buffer[..|frame|] == frame;
    assert st.buffer[1] == frame[1] && st.buffer[2] == frame[2];
  }

  /** A function code outside the table answers length 0, so the flag goes up
      as soon as three bytes are in, and the read that follows fails. */
  lemma UnknownCodeCompletesEarly(data: seq<byte>)
    requires 3 <= |data| <= BufferSize
    requires BleFrameLength(data[1], data[2]) == 0
    ensures Receive(Cleared(), data).received
    ensures ReadOutcome(Receive(Cleared(), data)) == Err(IOFailure(ReadFailed))
  {
    var st := Receive(Cleared(), data);
    assert st.buffer[1] == st.buffer[0..|data|][1] == data[1];
    assert st.buffer[2] == st.buffer[0..|data|][2] == data[2];
  }

  /** `ModbusRTUBLETransport`: the reassembly buffer and the write flag. */
  class Transport {
    /** `mBuffer`, written by the notifier callback. */
    var buffer: array<byte>
    /** `mIndex`, the cursor of the next byte the notifier writes. */
    var index: nat
    /** `isRecieved`, raised when a complete frame is in. */
    var received: bool
    /** `mWriteResult`, what the write acknowledgement callback reported. */
    var writeResult: bool
    /** Every frame handed to the radio thread by `writeData`, in order. */
    var outbox: seq<seq<byte>>

    ghost predicate Valid()
      reads this, buffer
    {
      Good(State())
    }

    /** The part of the transport the notifier and the reader share. */
    ghost function State(): RxState
      reads this, buffer
    {
      RxState(buffer[..], index, received)
    }

    constructor ()
      ensures Valid() && fresh(buffer)
      ensures State() == Cleared()
      ensures !writeResult && outbox == []
    {
      buffer := new byte[BufferSize](_ => 0);
      index := 0;
      received := false;
      writeResult := false;
      outbox := [];
      new;
      assert buffer[..] == Cleared().buffer;
    }

    /** `onRecieve(data)`: the notifier callback. `ok` is false when the chunk
        overruns the buffer and `System.arraycopy` throws. */
    method OnReceive(data: seq<byte>) returns (ok: bool)
      requires Valid()
      modifies this`index, this`received, buffer
      ensures Valid()
      ensures State() == Receive(old(State()), data)
      ensures ok <==> old(index) + |data| <= BufferSize
    {
      if index + |data| > buffer.Length {
        return false;
      }
      forall i | 0 <= i < |data| {
        buffer[index + i] := data[i];
      }
      ghost var was := old(buffer[..]);
      assert buffer[..] == was[..index] + data + was[index + |data|..];
      index := index + |data|;
      if index > 2 {
        var len := BleFrameLength(buffer[1], buffer[2]);
        if index >= len {
          received := true;
        }
      }
      ok := true;
    }

    /** `onWrite(result)`: the write acknowledgement callback stores the
        result verbatim. */
    method OnWrite(result: bool)
      modifies this`writeResult
      ensures writeResult == result
    {
      writeResult := result;
    }

    /**
     * `writeMessage`: clears the reassembly state, hands the payload with its
     * CRC to the radio thread and waits for the acknowledgement. The write
     * succeeds only when the acknowledgement arrived in time and reported
     * success.
     */
    method WriteMessage(payload: seq<byte>, ack: WriteAck) returns (r: Outcome<Fault>)
      requires Valid()
      modifies this, buffer
      ensures Valid() && buffer == old(buffer)
      ensures State() == Cleared()
      ensures outbox == old(outbox) + [AppendCrc(payload)]
      ensures writeResult <==> ack == Acknowledged(true)
      ensures r.Pass? <==> ack == Acknowledged(true)
      ensures r.Fail? ==> r.error == IOFailure(WriteFailed)
    {
      forall i | 0 <= i < buffer.Length {
        buffer[i] := 0;
      }
      index := 0;
      var frame := AppendCrc(payload);
      received := false;
      writeResult := false;
      outbox := outbox + [frame];
      if ack.Acknowledged? {
        OnWrite(ack.success);
      }
      assert buffer[..] == Cleared().buffer;
      if !writeResult {
        return Fail(IOFailure(WriteFailed));
      }
      return Pass;
    }

    /** `getResponse(fn, buffer)`: copies the rest of the frame out of
        `mBuffer` into the reader's buffer, which already holds bytes 0 and
        1, and answers the same length as `calcLength` with byte 2. */
    method GetResponse(fn: byte, frame: array<byte>) returns (length: nat)
      requires Valid() && frame.Length == BufferSize
      modifies frame
      ensures length == BleFrameLength(fn, buffer[2])
      ensures var k := if length == 0 then 2 else Min(length, BufferSize);
        && (forall i :: 2 <= i < k ==> frame[i] == buffer[i])
        && (forall i :: k <= i < BufferSize || 0 <= i < 2 ==> frame[i] == old(frame[i]))
    {
      if IsByteCountCode(fn) {
        frame[2] := buffer[2];
        var dataLength := frame[2] as nat;
        var n := Min(dataLength + 2, BufferSize - 3);
        forall i | 3 <= i < 3 + n {
          frame[i] := buffer[i];
        }
        length := dataLength + 5;
      } else if IsBleFixedCode(fn) {
        forall i | 2 <= i < 8 {
          frame[i] := buffer[i];
        }
        length := 8;
      } else if fn == 0x83 {
        forall i | 2 <= i < 5 {
          frame[i] := buffer[i];
        }
        length := 5;
      } else {
        length := 0;
      }
    }

    /** `readResponse`: after the wait, fails unless the flag is up, then
        takes the frame out of the buffer and checks its CRC. */
    method ReadResponse() returns (r: Result<Response, Fault>)
      requires Valid()
      ensures r == ReadOutcome(State())
    {
      if !received {
        return Err(IOFailure(ReadFailed));
      }
      var frame := new byte[BufferSize];
      frame[0], frame[1] := buffer[0], buffer[1];
      var fn := frame[1];
      var length := GetResponse(fn, frame);
      if length < 2 || length > frame.Length {
        return Err(IOFailure(ReadFailed));
      }
      var got := frame[..length];
      assert forall i :: 0 <= i < length ==> got[i] == buffer[i];
      assert got == buffer[..length];
      // the comparison of the two received CRC bytes with `calculateCRC`
      if !CrcMatches(got) {
        return Err(IOFailure(ReadFailed));
      }
      r := Ok(Decode(got));
    }

    /** `close`: the BLE transport holds no stream of its own, so closing
        it changes nothing. */
    method Close()
      ensures unchanged(this, buffer)
    {
    }

    /** `readRequest`: the transport is master-only. */
    method ReadRequest() returns (r: Outcome<Fault>)
      ensures r == Fail(Escaped(OperationNotSupported))
    {
      r := Fail(Escaped(OperationNotSupported));
    }
  }

  function Min(a: nat, b: nat): nat { if a <= b then a else b }
}
