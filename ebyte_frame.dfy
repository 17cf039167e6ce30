/**
  The EByte adapter's fixed 13-byte binary CAN frame: one header byte
  (DLC in bits 0-3, remote flag in bit 6, extended flag in bit 7), a
  big-endian 32-bit identifier in bytes 1-4 and eight data bytes in 5-12.

  Bit operations on a byte are written arithmetically: for 0 <= h < 256,
  `h & 0x0F` is `h % 0x10`, `h & 0x40 != 0` is `(h / 0x40) % 2 == 1` and
  `h & 0x80 != 0` is `h / 0x80 == 1`; OR-ing disjoint bits is addition.
*/
module EByte {
  import opened Wrappers
  import opened Bytes

  /** Size in bytes of every frame exchanged with the adapter. */
  const FRAME_SIZE: nat := 13

  /** The fixed 8-byte data buffer of a frame (Go's `[8]byte`). */
  type Payload = s: seq<byte> | |s| == 8 witness [0, 0, 0, 0, 0, 0, 0, 0]

  /** A CAN frame in the adapter's model; `dlc` is a Go `uint8`, so it may exceed 8. */
  datatype Frame = Frame(id: uint32, extended: bool, remote: bool, dlc: byte, data: Payload)

  /** The two errors of the codec, carrying the values Go formats into its messages. */
  datatype FrameError = InvalidSize(size: nat) | InvalidDlc(dlc: nat)

  // ----- header bits -----

  /** `header & 0x0F` */
  function DlcBits(h: byte): byte {
    h % 0x10
  }

  /** `header & 0x40 != 0` */
  predicate RemoteBit(h: byte) {
    (h / 0x40) % 2 == 1
  }

  /** `header & 0x80 != 0` */
  predicate ExtendedBit(h: byte) {
    h / 0x80 == 1
  }

  /** Bits 4 and 5 of a header, which the format leaves unused. */
  function ReservedBits(h: byte): nat {
    (h / 0x10) % 4
  }

  // ----- big-endian identifier (encoding/binary.BigEndian) -----

  /** `binary.BigEndian.Uint32`: the bytes are the base-256 digits of the result, most significant first. */
  function Uint32BE(b: seq<byte>): (v: uint32)
    requires |b| == 4
    ensures v / 0x100_0000 == b[0] && (v / 0x1_0000) % 0x100 == b[1]
    ensures (v / 0x100) % 0x100 == b[2] && v % 0x100 == b[3]
  {
    ByteDigit((b[0] as int * 0x100 + b[1]) * 0x100 + b[2], b[3]);
    ByteDigit(b[0] as int * 0x100 + b[1], b[2]);
    ByteDigit(b[0], b[1]);
    ((b[0] as int * 0x100 + b[1]) * 0x100 + b[2]) * 0x100 + b[3]
  }

  /** `binary.BigEndian.PutUint32`: the four bytes, most significant first, that read back as `v`. */
  function PutUint32BE(v: uint32): (b: seq<byte>)
    ensures |b| == 4 && Uint32BE(b) == v
  {
    var q1 := v / 0x100;
    var q2 := q1 / 0x100;
    var q3 := q2 / 0x100;
    [q3, q2 % 0x100, q1 % 0x100, v % 0x100]
  }

  lemma ByteDigit(k: nat, r: byte)
    ensures (k * 0x100 + r) / 0x100 == k && (k * 0x100 + r) % 0x100 == r
  {
  }

  /** Reading four bytes big-endian and writing the value back gives the same bytes. */
  lemma PutUint32BEOfUint32BE(b: seq<byte>)
    requires |b| == 4
    ensures PutUint32BE(Uint32BE(b)) == b
  {
    var v := Uint32BE(b);
    ByteDigit((b[0] as int * 0x100 + b[1]) * 0x100 + b[2], b[3]);
    ByteDigit(b[0] as int * 0x100 + b[1], b[2]);
    ByteDigit(b[0], b[1]);
  }

  // ----- decoding and encoding -----

  /**
    ParseFrame: decodes a raw adapter frame. It fails exactly when the input
    is not FRAME_SIZE bytes long or its DLC nibble exceeds 8; otherwise the
    DLC and the remote and extended flags are the header's bits, the
    identifier is the big-endian value of bytes 1-4 and the data is bytes 5-12.
  */
  function ParseFrame(raw: seq<byte>): (r: Result<Frame, FrameError>)
    ensures r.Err? <==> |raw| != FRAME_SIZE || DlcBits(raw[0]) > 8
    ensures |raw| != FRAME_SIZE ==> r == Err(InvalidSize(|raw|))
    ensures |raw| == FRAME_SIZE && DlcBits(raw[0]) > 8 ==> r == Err(InvalidDlc(DlcBits(raw[0])))
    ensures r.Ok? ==> r.value.dlc == DlcBits(raw[0]) && r.value.dlc <= 8
    ensures r.Ok? ==> r.value.remote == RemoteBit(raw[0]) && r.value.extended == ExtendedBit(raw[0])
    ensures r.Ok? ==> PutUint32BE(r.value.id) == raw[1..5] && r.value.data == raw[5..]
  {
    if |raw| != FRAME_SIZE then
      Err(InvalidSize(|raw|))
    else
      var header := raw[0];
      var dlc := DlcBits(header);
      if dlc > 8 then
        Err(InvalidDlc(dlc))
      else
        PutUint32BEOfUint32BE(raw[1..5]);
        Ok(Frame(Uint32BE(raw[1..5]), ExtendedBit(header), RemoteBit(header), dlc, raw[5..]))
  }

  /** The header byte SerializeFrame writes: `DLC & 0x0F`, OR 0x40 if remote, OR 0x80 if extended. */
  function Header(f: Frame): byte {
    DlcBits(f.dlc) + (if f.remote then 0x40 else 0) + (if f.extended then 0x80 else 0)
  }

  /**
    SerializeFrame: encodes a frame for the adapter. It fails exactly when
    the DLC exceeds 8; otherwise it yields FRAME_SIZE bytes.
  */
  function SerializeFrame(f: Frame): (r: Result<seq<byte>, FrameError>)
    ensures r.Err? <==> f.dlc > 8
    ensures r.Err? ==> r.error == InvalidDlc(f.dlc)
    ensures r.Ok? ==> |r.value| == FRAME_SIZE
  {
    if f.dlc > 8 then
      Err(InvalidDlc(f.dlc))
    else
      Ok([Header(f)] + PutUint32BE(f.id) + f.data)
  }

  /** The header of a valid frame carries exactly its DLC and flags, with bits 4-5 clear. */
  lemma HeaderFields(f: Frame)
    requires f.dlc <= 8
    ensures DlcBits(Header(f)) == f.dlc
    ensures RemoteBit(Header(f)) == f.remote
    ensures ExtendedBit(Header(f)) == f.extended
    ensures ReservedBits(Header(f)) == 0
  {
  }

  /**
    The serialized layout, read back field by field: the header decodes to
    the DLC and both flags with bits 4-5 zero, bytes 1-4 are the identifier
    big-endian and bytes 5-12 the data.
  */
  lemma SerializeLayout(f: Frame)
    requires f.dlc <= 8
    ensures var raw := SerializeFrame(f).value;
      && DlcBits(raw[0]) == f.dlc
      && RemoteBit(raw[0]) == f.remote
      && ExtendedBit(raw[0]) == f.extended
      && ReservedBits(raw[0]) == 0
      && Uint32BE(raw[1..5]) == f.id
      && raw[5..] == f.data
  {
    var raw := SerializeFrame(f).value;
    HeaderFields(f);
    assert raw[1..5] == PutUint32BE(f.id);
  }

  /** Round trip: parsing a serialized valid frame gives the frame back. */
  lemma RoundTrip(f: Frame)
    requires f.dlc <= 8
    ensures SerializeFrame(f).Ok?
    ensures ParseFrame(SerializeFrame(f).value) == Ok(f)
  {
    SerializeLayout(f);
  }

  /** A header is determined by its DLC, flag and reserved bits. */
  lemma HeaderDecomposition(h: byte)
    ensures h == DlcBits(h) + 0x10 * ReservedBits(h)
               + (if RemoteBit(h) then 0x40 else 0) + (if ExtendedBit(h) then 0x80 else 0)
  {
  }

  /**
    Reverse round trip: re-serializing a parsed frame reproduces the raw
    bytes exactly when header bits 4-5 were zero (they are dropped by the parser).
  */
  lemma ReverseRoundTrip(raw: seq<byte>)
    requires ParseFrame(raw).Ok?
    ensures SerializeFrame(ParseFrame(raw).value).Ok?
    ensures SerializeFrame(ParseFrame(raw).value).value == raw <==> ReservedBits(raw[0]) == 0
  {
    var f := ParseFrame(raw).value;
    var out := SerializeFrame(f).value;
    HeaderDecomposition(raw[0]);
    HeaderFields(f);
    if ReservedBits(raw[0]) == 0 {
      assert out[0] == raw[0];
      assert out[1..5] == raw[1..5];
      assert out == [out[0]] + out[1..5] + out[5..];
      assert raw == [raw[0]] + raw[1..5] + raw[5..];
    } else {
      assert out[0] != raw[0];
    }
  }

  /** Header bits 4-5 are ignored: raw frames that differ only there decode alike. */
  lemma ReservedBitsIgnored(raw: seq<byte>, raw': seq<byte>)
    requires |raw| == FRAME_SIZE && |raw'| == FRAME_SIZE && raw[1..] == raw'[1..]
    requires DlcBits(raw[0]) == DlcBits(raw'[0])
    requires RemoteBit(raw[0]) == RemoteBit(raw'[0]) && ExtendedBit(raw[0]) == ExtendedBit(raw'[0])
    ensures ParseFrame(raw) == ParseFrame(raw')
  {
    assert raw[1..5] == raw[1..][..4] == raw'[1..][..4] == raw'[1..5];
    assert raw[5..] == raw[1..][4..] == raw'[1..][4..] == raw'[5..];
  }

  // ----- worked examples from the package's tests -----

  /** An extended data frame with DLC 8 and identifier 0x12345678. */
  lemma ParseExtendedExample()
    ensures ParseFrame([0x88, 0x12, 0x34, 0x56, 0x78, 0x11, 0x22, 0x33, 0x44, 0x55, 0x66, 0x77, 0x88])
         == Ok(Frame(0x12345678, true, false, 8, [0x11, 0x22, 0x33, 0x44, 0x55, 0x66, 0x77, 0x88]))
  {
  }

  /** A standard data frame with DLC 6 and identifier 0x3F0. */
  lemma ParseStandardExample()
    ensures ParseFrame([0x06, 0x00, 0x00, 0x03, 0xF0, 0xAA, 0xBB, 0xCC, 0xDD, 0x00, 0x00, 0x00, 0x00])
         == Ok(Frame(0x3F0, false, false, 6, [0xAA, 0xBB, 0xCC, 0xDD, 0x00, 0x00, 0x00, 0x00]))
  {
  }

  /** A remote frame sets bit 6 of the header and keeps its identifier. */
  lemma SerializeRemoteExample()
    ensures var raw := SerializeFrame(Frame(0x123, false, true, 2, [0, 0, 0, 0, 0, 0, 0, 0])).value;
      raw == [0x42, 0x00, 0x00, 0x01, 0x23, 0, 0, 0, 0, 0, 0, 0, 0] && RemoteBit(raw[0])
  {
  }
}
