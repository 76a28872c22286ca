/** The 8-byte control frame carried by the radio from the transmitter to the
    control receiver: sync byte 0xA5, steering angle and motor level as
    little-endian unsigned 16-bit values, and an 8-bit additive checksum.
    The frame is unpacked with the 6-byte layout `<BHHB`; the radio payload is
    8 bytes long, so bytes 6 and 7 are padding that nobody looks at. */
module ControlFrame {
  import opened Common

  const SyncByte := 0xA5
  const FrameLength := 8

  /** `verificar_checksum`'s sum: the sync byte plus the low and high byte of
      both fields, truncated to 8 bits. Python's `& 0xFF` and `>> 8` on a
      non-negative or negative int agree with Dafny's Euclidean `% 256` and
      `/ 256`, so this is exact for every integer. */
  function Checksum(sync: int, angle: int, level: int): (c: int)
    ensures 0 <= c < 256
  {
    (sync + angle % 256 + (angle / 256) % 256 + level % 256 + (level / 256) % 256) % 256
  }

  predicate ChecksumOk(sync: int, angle: int, level: int, chk: int)
  {
    chk == Checksum(sync, angle, level)
  }

  /** The four values `struct.unpack("<BHHB", ...)` takes from the first six
      bytes of a buffer. */
  datatype Header = Header(sync: int, angle: int, level: int, chk: int)

  function Unpack(b: seq<Byte>): (h: Header)
    requires |b| >= 6
    ensures 0 <= h.angle < 65536 && 0 <= h.level < 65536
  {
    Header(b[0], Word16(b[1], b[2]), Word16(b[3], b[4]), b[5])
  }

  /** A decoded control command: the raw, unclamped angle and level. */
  datatype Command = Command(angle: int, level: int)

  datatype FrameError = BadLength | BadSync | ChecksumMismatch

  /** The receiver's acceptance test, in the order the receiver applies it. */
  function ParseFrame(b: seq<Byte>): (r: Result<Command, FrameError>)
    ensures r.Ok? <==> |b| == FrameLength && b[0] == SyncByte
                        && b[5] == (b[0] as int + b[1] + b[2] + b[3] + b[4]) % 256
    ensures r.Ok? ==> r.value == Command(Word16(b[1], b[2]), Word16(b[3], b[4]))
    ensures |b| != FrameLength ==> r == Err(BadLength)
    ensures |b| == FrameLength && b[0] != SyncByte ==> r == Err(BadSync)
    ensures |b| == FrameLength && b[0] == SyncByte && !r.Ok? ==> r == Err(ChecksumMismatch)
  {
    if |b| != FrameLength then Err(BadLength)
    else
      var h := Unpack(b);
      ChecksumOfBytes(b[0], b[1], b[2], b[3], b[4]);
      if h.sync != SyncByte then Err(BadSync)
      else if !ChecksumOk(h.sync, h.angle, h.level, h.chk) then Err(ChecksumMismatch)
      else Ok(Command(h.angle, h.level))
  }

  /** A 16-bit field splits back into the bytes it was read from. */
  lemma LowHigh(lo: Byte, hi: Byte)
    ensures Word16(lo, hi) % 256 == lo
    ensures (Word16(lo, hi) / 256) % 256 == hi
  {
    var v := Word16(lo, hi);
    assert v == 256 * hi + lo;
    assert v / 256 == hi;
  }

  /** On unpacked bytes the checksum is the plain byte sum mod 256. */
  lemma ChecksumOfBytes(b0: Byte, b1: Byte, b2: Byte, b3: Byte, b4: Byte)
    ensures Checksum(b0, Word16(b1, b2), Word16(b3, b4)) == (b0 as int + b1 + b2 + b3 + b4) % 256
  {
    LowHigh(b1, b2);
    LowHigh(b3, b4);
  }

  /** The two padding bytes never change the verdict nor the values. */
  lemma PaddingIgnored(b: seq<Byte>, b': seq<Byte>)
    requires |b| == |b'| == FrameLength && b[..6] == b'[..6]
    ensures ParseFrame(b) == ParseFrame(b')
  {
    assert forall i :: 0 <= i < 6 ==> b[i] == b[..6][i] == b'[..6][i] == b'[i];
  }

  /** A valid frame whose checksum byte is changed is rejected as a checksum
      mismatch. */
  lemma CorruptedChecksumRejected(b: seq<Byte>, chk: Byte)
    requires ParseFrame(b).Ok? && chk != b[5]
    ensures ParseFrame(b[5 := chk]) == Err(ChecksumMismatch)
  {
  }

  /** The transmitter's `struct.pack("<BHHB", SYNC_BYTE, s, m, chk)`: six
      bytes, which the radio sends in an 8-byte payload. `<H` demands
      values in [0, 65535]. */
  function Pack(angle: int, level: int): (b: seq<Byte>)
    requires 0 <= angle < 65536 && 0 <= level < 65536
    ensures |b| == 6
  {
    [SyncByte, angle % 256, angle / 256, level % 256, level / 256, Checksum(SyncByte, angle, level)]
  }

  /** Whatever fills the last two bytes, a packed command is accepted and
      decodes to itself. */
  lemma PackParse(angle: int, level: int, pad: seq<Byte>)
    requires 0 <= angle < 65536 && 0 <= level < 65536 && |pad| == 2
    ensures ParseFrame(Pack(angle, level) + pad) == Ok(Command(angle, level))
  {
    var b := Pack(angle, level) + pad;
    assert angle == Word16(b[1], b[2]) && level == Word16(b[3], b[4]);
    ChecksumOfBytes(b[0], b[1], b[2], b[3], b[4]);
  }

  /** Conversely every accepted frame is a packed command plus padding. */
  lemma ParsePack(b: seq<Byte>)
    requires ParseFrame(b).Ok?
    ensures var c := ParseFrame(b).value;
            0 <= c.angle < 65536 && 0 <= c.level < 65536 && b == Pack(c.angle, c.level) + b[6..]
  {
    var c := ParseFrame(b).value;
    LowHigh(b[1], b[2]);
    LowHigh(b[3], b[4]);
    ChecksumOfBytes(b[0], b[1], b[2], b[3], b[4]);
    assert Pack(c.angle, c.level) == b[..6];
    assert b == b[..6] + b[6..];
  }
}
