/**
 * The two response-length tables of the adapters: the one the BLE
 * notifier callback uses to decide that a frame is complete, and the one
 * the two stream transports use to decide how many bytes to read after the
 * two header bytes. Both give the total frame length including unit id,
 * function code and the two CRC bytes; 0 means the code is not in the table.
 */
module LengthTables {
  import opened RtuFrame

  /** The fixed-length codes of the BLE table. */
  predicate IsBleFixedCode(fn: byte) {
    fn in {0x05, 0x06, 0x0B, 0x0F, 0x10}
  }

  /** The codes the stream table answers with 8 bytes. */
  predicate IsStreamFixedCode(fn: byte) {
    fn in {0x05, 0x06, 0x0B, 0x0F, 0x10, 0x16}
  }

  /** `calcLength(fn, ll)` of the BLE transport, `ll` being byte 2 of the buffer. */
  function BleFrameLength(fn: byte, ll: byte): (n: nat)
    ensures n == 0 || 5 <= n <= MaxMessageLength + 4
    ensures n > MaxMessageLength ==> IsByteCountCode(fn) && ll as int > MaxMessageLength - 5
  {
    if IsByteCountCode(fn) then ll as nat + 5
    else if IsBleFixedCode(fn) then 8
    else if fn == 0x83 then 5
    else 0
  }

  /** The length `getResponse(fn)` of the stream transports computes, with
      `b2` and `b3` the bytes at offsets 2 and 3 as they stand once the
      count field has been read (`readUnsignedShort` reads them big-endian). */
  function StreamFrameLength(fn: byte, b2: byte, b3: byte): (n: nat)
    ensures n == 0 || 3 <= n
    ensures n == 3 <==> fn in {0x07, 0x08}
    ensures n > MaxMessageLength + 4 ==> fn == 0x18
  {
    if IsByteCountCode(fn) then b2 as nat + 5
    else if IsStreamFixedCode(fn) then 8
    else if fn in {0x07, 0x08} then 3
    else if fn == 0x18 then b2 as nat * 256 + b3 as nat + 6
    else if fn in {0x83, 0x90} then 5
    else 0
  }

  /** The two tables agree on every code the BLE table knows, and the BLE
      table answers 0 for exactly the five codes only the stream table
      knows (0x07, 0x08, 0x16, 0x18, 0x90). */
  lemma TablesAgree(fn: byte, b2: byte, b3: byte)
    ensures BleFrameLength(fn, b2) == 0 && StreamFrameLength(fn, b2, b3) != 0
            <==> fn in {0x07, 0x08, 0x16, 0x18, 0x90}
    ensures BleFrameLength(fn, b2) != 0 ==> BleFrameLength(fn, b2) == StreamFrameLength(fn, b2, b3)
    ensures StreamFrameLength(fn, b2, b3) == 0 ==> BleFrameLength(fn, b2) == 0
  {
  }

  /** Every exception response either of the tables knows is five bytes. */
  lemma ExceptionResponsesAreFiveBytes(fn: byte, b2: byte, b3: byte)
    requires fn >= 0x80
    ensures BleFrameLength(fn, b2) == (if fn == 0x83 then 5 else 0)
    ensures StreamFrameLength(fn, b2, b3) == (if fn in {0x83, 0x90} then 5 else 0)
  {
  }

  /** A byte-count response is its count plus unit id, function code,
      count byte and the two CRC bytes, in both tables and whatever follows. */
  lemma ByteCountLength(fn: byte, b2: byte, b3: byte)
    requires IsByteCountCode(fn)
    ensures BleFrameLength(fn, b2) == b2 as nat + 5 == StreamFrameLength(fn, b2, b3)
  {
  }

  /** A write response of the BLE table's fixed codes (0x05, 0x06, 0x0B,
      0x0F, 0x10) is 8 bytes in both tables, whatever its body. */
  lemma FixedLength(fn: byte, b2: byte, b3: byte)
    requires IsBleFixedCode(fn)
    ensures BleFrameLength(fn, b2) == 8 == StreamFrameLength(fn, b2, b3)
  {
  }
}
