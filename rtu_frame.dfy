/**
 * The Modbus RTU frame codec shared by the three transports: bytes, the
 * CRC-16 of section 6.2.2 of the MODBUS over Serial Line Specification V1.02,
 * frame assembly (payload followed by the two CRC bytes, low byte first) and
 * the CRC comparison every `readResponse` performs on a received frame.
 */
module RtuFrame {

  /** An octet as the Java code sees it after masking with `& 0xff`. */
  newtype byte = x: int | 0 <= x < 256

  /** The largest RTU frame, 256 bytes (section 2.5.1.1 of the serial line
      specification); the stream transports allocate their receive buffer
      with this size. */
  const MaxMessageLength: nat := 256

  /** Function codes whose response carries a byte count at offset 2, so
      that the whole frame is that count plus 5 bytes (unit id, function
      code, count, two CRC bytes). Every table in the three transports
      treats these nine codes alike. */
  predicate IsByteCountCode(fn: byte) {
    fn in {0x01, 0x02, 0x03, 0x04, 0x0C, 0x11, 0x14, 0x15, 0x17}
  }

  /** One of the eight shift steps of the CRC-16/MODBUS update (polynomial
      0xA001, least significant bit first). */
  function CrcShift(c: bv16): bv16 {
    if c & 1 == 1 then (c >> 1) ^ 0xA001 else c >> 1
  }

  /** Folds one message byte into the CRC register. */
  function CrcUpdate(c: bv16, b: byte): bv16 {
    var x := c ^ (b as int as bv16);
    CrcShift(CrcShift(CrcShift(CrcShift(CrcShift(CrcShift(CrcShift(CrcShift(x))))))))
  }

  /** The CRC register after all of `s`, starting from 0xFFFF. */
  function CrcRegister(s: seq<byte>): bv16
    decreases |s|
  {
    if |s| == 0 then 0xFFFF else CrcUpdate(CrcRegister(s[..|s| - 1]), s[|s| - 1])
  }

  /** `ModbusUtil.calculateCRC(buf, 0, n)`: the CRC of the first n bytes as
      (crc[0], crc[1]), the byte sent first and the byte sent second. */
  function Crc(s: seq<byte>): (byte, byte) {
    var c := CrcRegister(s) as int;
    ((c % 256) as byte, (c / 256) as byte)
  }

  /** A known answer that fixes the algorithm and the byte order: the
      request "read one holding register at address 0 of unit 1",
      01 03 00 00 00 01, is sent with the CRC bytes 84 0A in that order. */
  lemma CrcKnownAnswer()
    ensures Crc([0x01, 0x03, 0x00, 0x00, 0x00, 0x01]) == (0x84, 0x0A)
  {
    ReadOneRegisterCrc([0x01, 0x03, 0x00, 0x00, 0x00, 0x01]);
  }

  /** The register after 01 03 00 00 00 01, one byte at a time. */
  lemma ReadOneRegisterCrc(s: seq<byte>)
    requires |s| == 6 && s[0] == 0x01 && s[1] == 0x03 && s[2] == 0x00
    requires s[3] == 0x00 && s[4] == 0x00 && s[5] == 0x01
    ensures CrcRegister(s) == 0x0A84
  {
    assert (0x00 as byte) as int as bv16 == 0x0000;
    assert (0x01 as byte) as int as bv16 == 0x0001;
    assert (0x03 as byte) as int as bv16 == 0x0003;
    assert s[..0] == [];
    CrcRegisterStep(s, 0, 0xFFFF, 0x01, 0x807E);
    CrcRegisterStep(s, 1, 0x807E, 0x03, 0x2140);
    CrcRegisterStep(s, 2, 0x2140, 0x00, 0xF020);
    CrcRegisterStep(s, 3, 0xF020, 0x00, 0xD8F1);
    CrcRegisterStep(s, 4, 0xD8F1, 0x00, 0x8419);
    CrcRegisterStep(s, 5, 0x8419, 0x01, 0x0A84);
    assert s[..6] == s;
  }

  /** When the register after the first k bytes is `c` and byte k is `b`,
      the register after the first k + 1 is `CrcUpdate(c, b)`. */
  lemma CrcRegisterStep(s: seq<byte>, k: nat, c: bv16, b: byte, d: bv16)
    requires k < |s| && s[k] == b && CrcRegister(s[..k]) == c && CrcUpdate(c, b) == d
    ensures CrcRegister(s[..k + 1]) == d
  {
    assert s[..k + 1][..k] == s[..k];
  }

  /** The outbound frame: the serialised message followed by crc[0], crc[1]. */
  function AppendCrc(payload: seq<byte>): seq<byte> {
    payload + [Crc(payload).0, Crc(payload).1]
  }

  /** The comparison at the end of every readResponse: the frame's last two
      bytes are the CRC of everything before them. */
  predicate CrcMatches(frame: seq<byte>)
    requires |frame| >= 2
  {
    var crc := Crc(frame[..|frame| - 2]);
    frame[|frame| - 2] == crc.0 && frame[|frame| - 1] == crc.1
  }

  /** A frame built by the writing side passes the reading side's CRC check,
      and removing the CRC gives back the payload. */
  lemma AppendCrcAccepted(payload: seq<byte>)
    ensures |AppendCrc(payload)| == |payload| + 2
    ensures CrcMatches(AppendCrc(payload))
    ensures AppendCrc(payload)[..|payload|] == payload
  {
    var f := AppendCrc(payload);
    assert f[..|f| - 2] == payload;
  }

  /** A frame is accepted exactly when it is its own prefix with the CRC
      appended: the check accepts precisely the frames the writer produces. */
  lemma CrcMatchesIffAssembled(frame: seq<byte>)
    requires |frame| >= 2
    ensures CrcMatches(frame) <==> frame == AppendCrc(frame[..|frame| - 2])
  {
    var p := frame[..|frame| - 2];
    if CrcMatches(frame) {
      assert frame == p + [frame[|frame| - 2], frame[|frame| - 1]];
    }
    if frame == AppendCrc(p) {
      AppendCrcAccepted(p);
    }
  }

  /** Changing either CRC byte of an assembled frame makes the check fail. */
  lemma CorruptedCrcRejected(payload: seq<byte>, k: nat, b: byte)
    requires k < 2
    requires b != AppendCrc(payload)[|payload| + k]
    ensures !CrcMatches(AppendCrc(payload)[|payload| + k := b])
  {
    var f := AppendCrc(payload)[|payload| + k := b];
    assert f[..|f| - 2] == payload;
  }
}
