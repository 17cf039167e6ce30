/**
  The SLCAN text encoding of a CAN frame: a type letter (`t`, `T`, `r`,
  `R`), the identifier as fixed-width uppercase hex (3 digits standard,
  8 extended, masked to 11 or 29 bits), one DLC character, the payload as
  uppercase hex pairs (data frames only) and a terminating carriage return.

  `id & 0x1FFFFFFF` is written `id % 0x2000_0000` and `id & 0x7FF` is
  written `id % 0x800`.
*/
module SlcanFrame {
  import opened Bytes
  import opened EByte

  // ----- fixed-width uppercase hexadecimal (fmt's %0wX) -----

  function Pow16(w: nat): (p: nat)
    ensures p >= 1
  {
    if w == 0 then 1 else 16 * Pow16(w - 1)
  }

  predicate IsHexDigit(c: char) {
    '0' <= c <= '9' || 'A' <= c <= 'F'
  }

  predicate IsHexString(s: string) {
    forall i :: 0 <= i < |s| ==> IsHexDigit(s[i])
  }

  /** The value of one uppercase hex digit (0 for any other character). */
  function DigitValue(c: char): nat {
    if '0' <= c <= '9' then c as int - '0' as int
    else if 'A' <= c <= 'F' then c as int - 'A' as int + 10
    else 0
  }

  /** The uppercase hex digit of a value below 16; DigitValue reads it back. */
  function HexDigit(d: nat): (c: char)
    requires d < 16
    ensures IsHexDigit(c) && DigitValue(c) == d
  {
    if d < 10 then ('0' as int + d) as char else ('A' as int + d - 10) as char
  }

  /** The value of a string of uppercase hex digits, most significant first. */
  function HexValue(s: string): nat {
    if s == "" then 0 else HexValue(s[..|s| - 1]) * 16 + DigitValue(s[|s| - 1])
  }

  /**
    `fmt.Sprintf("%0wX", n)` for a value that fits in `w` digits: exactly `w`
    uppercase hex digits, zero-padded on the left.
  */
  function Hex(n: nat, w: nat): (s: string)
    requires n < Pow16(w)
    ensures |s| == w
  {
    if w == 0 then "" else Hex(n / 16, w - 1) + [HexDigit(n % 16)]
  }

  /** A Hex field consists of uppercase hex digits only. */
  lemma {:induction false} HexIsHexString(n: nat, w: nat)
    requires n < Pow16(w)
    ensures IsHexString(Hex(n, w))
  {
    if w > 0 {
      HexIsHexString(n / 16, w - 1);
      var s := Hex(n, w);
      assert forall i :: 0 <= i < w - 1 ==> s[i] == Hex(n / 16, w - 1)[i];
    }
  }

  /** Reading a Hex field back gives the formatted value. */
  lemma {:induction false} HexRoundTrip(n: nat, w: nat)
    requires n < Pow16(w)
    ensures HexValue(Hex(n, w)) == n
  {
    if w > 0 {
      var s := Hex(n, w);
      assert s[..w - 1] == Hex(n / 16, w - 1);
      HexRoundTrip(n / 16, w - 1);
    }
  }

  /** The payload formatted byte by byte with `%02X`. */
  function HexBytes(bs: seq<byte>): (s: string)
    ensures |s| == 2 * |bs|
  {
    if bs == [] then "" else HexBytes(bs[..|bs| - 1]) + Hex(bs[|bs| - 1], 2)
  }

  /** A formatted payload consists of uppercase hex digits only. */
  lemma {:induction false} HexBytesIsHexString(bs: seq<byte>)
    ensures IsHexString(HexBytes(bs))
  {
    if bs != [] {
      var n := |bs| - 1;
      HexBytesIsHexString(bs[..n]);
      HexIsHexString(bs[n], 2);
      var pre := HexBytes(bs[..n]);
      var s := HexBytes(bs);
      assert forall i :: 0 <= i < |pre| ==> s[i] == pre[i];
      assert forall i :: |pre| <= i < |s| ==> s[i] == Hex(bs[n], 2)[i - |pre|];
    }
  }

  /** Byte `k` of the payload is formatted at characters 2k and 2k+1. */
  lemma {:induction false} HexBytesAt(bs: seq<byte>, k: nat)
    requires k < |bs|
    ensures HexBytes(bs)[2 * k..2 * k + 2] == Hex(bs[k], 2)
  {
    var n := |bs| - 1;
    var pre := HexBytes(bs[..n]);
    var last := Hex(bs[n], 2);
    assert HexBytes(bs) == pre + last;
    if k < n {
      HexBytesAt(bs[..n], k);
      assert (pre + last)[2 * k..2 * k + 2] == pre[2 * k..2 * k + 2];
    } else {
      assert (pre + last)[2 * k..2 * k + 2] == last;
    }
  }

  /** Formatting one more byte appends its hex pair. */
  lemma HexBytesSnoc(bs: seq<byte>, i: nat)
    requires i < |bs|
    ensures HexBytes(bs[..i + 1]) == HexBytes(bs[..i]) + Hex(bs[i], 2)
  {
    assert bs[..i + 1][..i] == bs[..i];
  }

  /** A slice of a slice is a slice. */
  lemma SubSlice(s: string, a: nat, b: nat, i: nat, j: nat)
    requires a <= b <= |s| && i <= j <= b - a
    ensures s[a..b][i..j] == s[a + i..a + j]
  {
    assert forall t :: 0 <= t < j - i ==> s[a..b][i..j][t] == s[a + i + t];
  }

  /** The capacities of the two identifier widths. */
  lemma IdWidths()
    ensures Pow16(3) == 0x1000 && Pow16(8) == 0x1_0000_0000
  {
    assert Pow16(2) == 0x100;
    assert Pow16(4) == 0x1_0000;
    assert Pow16(6) == 0x100_0000;
  }

  // ----- the encoded line -----

  /** `R` remote+extended, `r` remote+standard, `T` data+extended, `t` data+standard. */
  function TypeLetter(f: Frame): char {
    if f.remote && f.extended then 'R'
    else if f.remote then 'r'
    else if f.extended then 'T'
    else 't'
  }

  /** Digits of the identifier field: 8 for extended frames, 3 for standard ones. */
  function IdWidth(f: Frame): nat {
    if f.extended then 8 else 3
  }

  /** The identifier bits that survive the mask: 29 for extended frames, 11 for standard ones. */
  function MaskedId(f: Frame): nat {
    if f.extended then f.id % 0x2000_0000 else f.id % 0x800
  }

  function IdField(f: Frame): string {
    assert Pow16(3) == 0x1000 && Pow16(8) == 0x1_0000_0000;
    Hex(MaskedId(f), IdWidth(f))
  }

  /** `'0' + byte(DLC & 0x0F)`. */
  function DlcChar(f: Frame): char {
    ('0' as int + DlcBits(f.dlc)) as char
  }

  function Min(a: int, b: int): int {
    if a <= b then a else b
  }

  /** Number of payload bytes written: `min(DLC, 8)` for data frames, none for remote ones. */
  function PayloadLength(f: Frame): nat {
    if f.remote then 0 else Min(f.dlc, 8)
  }

  function PayloadField(f: Frame): string {
    HexBytes(f.data[..PayloadLength(f)])
  }

  /** The SLCAN line that EncodeFrame produces. */
  function Line(f: Frame): string {
    [TypeLetter(f)] + IdField(f) + [DlcChar(f)] + PayloadField(f) + "\r"
  }

  /**
    The payload part of EncodeFrame: for a data frame, one `%02X` pair for
    each of the first DLC bytes, stopping at 8; nothing for a remote frame.
  */
  method AppendPayload(frame: Frame, head: string) returns (b: string)
    ensures b == head + PayloadField(frame)
  {
    b := head;
    if !frame.remote {
      var i := 0;
      while i < frame.dlc && i < 8
        invariant 0 <= i <= Min(frame.dlc, 8)
        invariant b == head + HexBytes(frame.data[..i])
      {
        HexBytesSnoc(frame.data, i);
        b := b + Hex(frame.data[i], 2);
        i := i + 1;
      }
      assert i == PayloadLength(frame);
    } else {
      assert frame.data[..PayloadLength(frame)] == [];
    }
  }

  /**
    EncodeFrame: builds the SLCAN line step by step, as the source's
    strings.Builder does, including the payload loop bounded by DLC and 8.
  */
  method EncodeFrame(frame: Frame) returns (line: string)
    ensures line == Line(frame)
  {
    var b: string := "";
    if frame.remote && frame.extended {
      b := b + "R";
    } else if frame.remote && !frame.extended {
      b := b + "r";
    } else if !frame.remote && frame.extended {
      b := b + "T";
    } else {
      b := b + "t";
    }

    IdWidths();
    assert b == [TypeLetter(frame)];
    if frame.extended {
      b := b + Hex(frame.id % 0x2000_0000, 8);
    } else {
      b := b + Hex(frame.id % 0x800, 3);
    }
    assert b == [TypeLetter(frame)] + IdField(frame);

    b := b + [('0' as int + frame.dlc % 0x10) as char];
    assert b == [TypeLetter(frame)] + IdField(frame) + [DlcChar(frame)];

    b := AppendPayload(frame, b);

    b := b + "\r";
    line := b;
  }

  // ----- properties of the line -----

  /** Where each field of the line sits. */
  lemma LineParts(f: Frame)
    ensures var s, w := Line(f), IdWidth(f);
      && |s| == w + 3 + 2 * PayloadLength(f)
      && s[0] == TypeLetter(f)
      && s[1..1 + w] == IdField(f)
      && s[1 + w] == DlcChar(f)
      && s[2 + w..|s| - 1] == PayloadField(f)
      && s[|s| - 1] == '\r'
  {
    var id, pl := IdField(f), PayloadField(f);
    var s := [TypeLetter(f)] + id + [DlcChar(f)] + pl + "\r";
    assert s[1..1 + |id|] == id;
    assert s[2 + |id|..|s| - 1] == pl;
  }

  /** The line's length: letter, identifier digits, DLC character, payload pairs, terminator. */
  lemma LineLength(f: Frame)
    ensures |Line(f)| == 1 + (if f.extended then 8 else 3) + 1
                         + (if f.remote then 0 else 2 * Min(f.dlc, 8)) + 1
  {
    LineParts(f);
  }

  /**
    The first character tells the frame kind: it is upper-case exactly for
    extended frames and an `r`/`R` exactly for remote frames.
  */
  lemma LineTypeLetter(f: Frame)
    ensures Line(f)[0] in {'t', 'T', 'r', 'R'}
    ensures ('A' <= Line(f)[0] <= 'Z') <==> f.extended
    ensures (Line(f)[0] == 'r' || Line(f)[0] == 'R') <==> f.remote
  {
    LineParts(f);
  }

  /**
    The line has the shape letter, identifier, DLC character, payload, `\r`,
    where identifier and payload are uppercase hex.
  */
  lemma LineFieldsAreHex(f: Frame)
    ensures var s, w := Line(f), IdWidth(f);
      IsHexString(s[1..1 + w]) && IsHexString(s[2 + w..|s| - 1])
  {
    LineParts(f);
    assert Pow16(3) == 0x1000 && Pow16(8) == 0x1_0000_0000;
    HexIsHexString(MaskedId(f), IdWidth(f));
    HexBytesIsHexString(f.data[..PayloadLength(f)]);
  }

  /** The line ends in a single carriage return and holds no other. */
  lemma LineTerminator(f: Frame)
    ensures Line(f)[|Line(f)| - 1] == '\r'
    ensures forall i :: 0 <= i < |Line(f)| - 1 ==> Line(f)[i] != '\r'
  {
    var s, w := Line(f), IdWidth(f);
    LineParts(f);
    LineFieldsAreHex(f);
    forall i | 0 <= i < |s| - 1
      ensures s[i] != '\r'
    {
      if 1 <= i < 1 + w {
        assert s[i] == s[1..1 + w][i - 1];
      } else if 2 + w <= i {
        assert s[i] == s[2 + w..|s| - 1][i - 2 - w];
      }
    }
  }

  /**
    Characters 1 to IdWidth hold the identifier in uppercase hex, masked to
    29 bits (extended) or 11 bits (standard); higher bits are dropped.
  */
  lemma LineIdentifier(f: Frame)
    ensures var field := Line(f)[1..1 + IdWidth(f)];
      IsHexString(field) && HexValue(field) == (if f.extended then f.id % 0x2000_0000 else f.id % 0x800)
  {
    LineParts(f);
    LineFieldsAreHex(f);
    assert Pow16(3) == 0x1000 && Pow16(8) == 0x1_0000_0000;
    HexRoundTrip(MaskedId(f), IdWidth(f));
  }

  /**
    The DLC character follows the identifier; for a frame that ParseFrame
    produced (DLC at most 8) it is the decimal digit of the DLC.
  */
  lemma LineDlc(f: Frame)
    ensures Line(f)[1 + IdWidth(f)] as int == '0' as int + f.dlc % 0x10
    ensures f.dlc <= 8 ==>
              '0' <= Line(f)[1 + IdWidth(f)] <= '8' && Line(f)[1 + IdWidth(f)] as int - '0' as int == f.dlc
  {
    LineParts(f);
  }

  /**
    After the DLC character come exactly PayloadLength pairs of uppercase hex
    digits, pair k reading back as data byte k; remote frames have none.
  */
  lemma LinePayload(f: Frame, k: nat)
    requires k < PayloadLength(f)
    ensures var start := 2 + IdWidth(f) + 2 * k;
      IsHexString(Line(f)[start..start + 2]) && HexValue(Line(f)[start..start + 2]) == f.data[k]
  {
    var s, w := Line(f), IdWidth(f);
    var bs := f.data[..PayloadLength(f)];
    LineParts(f);
    SubSlice(s, 2 + w, |s| - 1, 2 * k, 2 * k + 2);
    HexBytesAt(bs, k);
    assert bs[k] == f.data[k];
    assert s[2 + w + 2 * k..2 + w + 2 * k + 2] == Hex(f.data[k], 2);
    HexIsHexString(f.data[k], 2);
    HexRoundTrip(f.data[k], 2);
  }

  /**
    For a frame decoded from the adapter, the line is the type letter, then
    uppercase hex digits only (identifier, DLC digit, payload), then `\r`.
  */
  lemma ParsedFrameLine(raw: seq<byte>)
    requires EByte.ParseFrame(raw).Ok?
    ensures var s := Line(EByte.ParseFrame(raw).value);
      s[0] in {'t', 'T', 'r', 'R'} && IsHexString(s[1..|s| - 1]) && s[|s| - 1] == '\r'
  {
    var f := EByte.ParseFrame(raw).value;
    var s, w := Line(f), IdWidth(f);
    LineParts(f);
    LineFieldsAreHex(f);
    forall i | 1 <= i < |s| - 1
      ensures IsHexDigit(s[i])
    {
      if i < 1 + w {
        assert s[i] == s[1..1 + w][i - 1];
      } else if 2 + w <= i {
        assert s[i] == s[2 + w..|s| - 1][i - 2 - w];
      }
    }
  }

  // ----- worked examples from the package's tests -----

  /** A standard data frame with identifier 0x123 and payload AB CD. */
  lemma EncodeStandardExample()
    ensures Line(Frame(0x123, false, false, 2, [0xAB, 0xCD, 0, 0, 0, 0, 0, 0])) == "t1232ABCD\r"
  {
    var f := Frame(0x123, false, false, 2, [0xAB, 0xCD, 0, 0, 0, 0, 0, 0]);
    HexStandardIdExample();
    HexPayloadExample();
    assert MaskedId(f) == 0x123;
    assert f.data[..PayloadLength(f)] == [0xAB, 0xCD];
    assert Line(f) == ['t'] + "123" + ['2'] + "ABCD" + "\r";
  }

  /** The identifier 0x123 in three hex digits. */
  lemma HexStandardIdExample()
    ensures Hex(0x123, 3) == "123"
  {
    assert Pow16(3) == 0x1000;
    assert Hex(0x123, 3) == Hex(0x12, 2) + [HexDigit(3)];
    assert Hex(0x12, 2) == Hex(0x1, 1) + [HexDigit(2)];
    assert Hex(0x1, 1) == Hex(0, 0) + [HexDigit(1)];
  }

  /** The payload AB CD as hex pairs. */
  lemma HexPayloadExample()
    ensures HexBytes([0xAB, 0xCD]) == "ABCD"
  {
    assert Hex(0xAB, 2) == Hex(0xA, 1) + [HexDigit(0xB)];
    assert Hex(0xA, 1) == Hex(0, 0) + [HexDigit(0xA)];
    assert Hex(0xCD, 2) == Hex(0xC, 1) + [HexDigit(0xD)];
    assert Hex(0xC, 1) == Hex(0, 0) + [HexDigit(0xC)];
    assert [0xAB, 0xCD][..1] == [0xAB];
    assert HexBytes([0xAB]) == HexBytes([]) + Hex(0xAB, 2);
  }

  /** The identifier 0x1ABCDEF0 in eight hex digits. */
  lemma HexIdExample()
    ensures Hex(0x1ABCDEF0, 8) == "1ABCDEF0"
  {
    assert Pow16(8) == 0x1_0000_0000;
    assert Hex(0x1ABCDEF0, 8) == Hex(0x1ABCDEF, 7) + [HexDigit(0)];
    assert Hex(0x1ABCDEF, 7) == Hex(0x1ABCDE, 6) + [HexDigit(0xF)];
    assert Hex(0x1ABCDE, 6) == Hex(0x1ABCD, 5) + [HexDigit(0xE)];
    assert Hex(0x1ABCD, 5) == Hex(0x1ABC, 4) + [HexDigit(0xD)];
    assert Hex(0x1ABC, 4) == Hex(0x1AB, 3) + [HexDigit(0xC)];
    assert Hex(0x1AB, 3) == Hex(0x1A, 2) + [HexDigit(0xB)];
    assert Hex(0x1A, 2) == Hex(0x1, 1) + [HexDigit(0xA)];
    assert Hex(0x1, 1) == Hex(0, 0) + [HexDigit(1)];
  }

  /** An extended remote frame with identifier 0x1ABCDEF0. */
  lemma EncodeExtendedRemoteExample()
    ensures var s := Line(Frame(0x1ABCDEF0, true, true, 0, [0, 0, 0, 0, 0, 0, 0, 0]));
      s[..9] == "R1ABCDEF0" && s[|s| - 1] == '\r'
  {
    var f := Frame(0x1ABCDEF0, true, true, 0, [0, 0, 0, 0, 0, 0, 0, 0]);
    assert MaskedId(f) == 0x1ABCDEF0;
    HexIdExample();
    LineParts(f);
  }
}
