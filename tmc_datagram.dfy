/** The UART datagrams of the TMC2209 stepper driver as the easyTMC2209
    library builds them (easyTMC2209.cpp, defines.h): the byte reversal of
    the 32-bit data word, the CRC-8 of section 4.2 "CRC Calculation" of the
    Trinamic TMC2209 datasheet (polynomial x^8 + x^2 + x + 1, initial value 0,
    each byte taken bit 0 first), and the 64-bit write/read-reply and 32-bit
    read-request datagrams, sent least significant byte first. */
module TmcDatagram {

  const SYNC: bv8 := 0x05
  const RW_READ: bv8 := 0
  const RW_WRITE: bv8 := 1
  const WRITE_READ_REPLY_DATAGRAM_SIZE: nat := 8
  const READ_REQUEST_DATAGRAM_SIZE: nat := 4
  const DATA_SIZE: nat := 4
  const POLYNOMIAL: bv8 := 0x07

  // --- Byte order ------------------------------------------------------------------------

  /** Byte i of a datagram held in a 64-bit word, counted from the least
      significant end: the i-th byte on the wire. */
  function ByteAt(w: bv64, i: nat): bv8
    requires i < 8
  {
    if i == 0 then (w & 0xFF) as bv8
    else if i == 1 then ((w >> 8) & 0xFF) as bv8
    else if i == 2 then ((w >> 16) & 0xFF) as bv8
    else if i == 3 then ((w >> 24) & 0xFF) as bv8
    else if i == 4 then ((w >> 32) & 0xFF) as bv8
    else if i == 5 then ((w >> 40) & 0xFF) as bv8
    else if i == 6 then ((w >> 48) & 0xFF) as bv8
    else (w >> 56) as bv8
  }

  /** The first n bytes a datagram word puts on the wire. */
  function Wire(w: bv64, n: nat): (r: seq<bv8>)
    requires n <= 8
    ensures |r| == n && forall i :: 0 <= i < n ==> r[i] == ByteAt(w, i)
  {
    seq(n, i requires 0 <= i < n => ByteAt(w, i))
  }

  /** The four bytes of a word, most significant first. */
  function BigEndian(d: bv32): (r: seq<bv8>)
    ensures |r| == 4
  {
    [(d >> 24) as bv8, ((d >> 16) & 0xFF) as bv8, ((d >> 8) & 0xFF) as bv8, (d & 0xFF) as bv8]
  }

  /** The word whose most significant byte comes first in s. */
  function FromBigEndian(s: seq<bv8>): bv32
    requires |s| == 4
  {
    FromBe4(s[0], s[1], s[2], s[3])
  }

  function FromBe4(b0: bv8, b1: bv8, b2: bv8, b3: bv8): bv32
  {
    ((b0 as bv32) << 24) | ((b1 as bv32) << 16) | ((b2 as bv32) << 8) | (b3 as bv32)
  }

  lemma BigEndianRoundTrip(d: bv32, s: seq<bv8>)
    requires |s| == 4
    ensures FromBigEndian(BigEndian(d)) == d
    ensures BigEndian(FromBigEndian(s)) == s
  {
  }

  /** The byte-swapped word, written out. */
  function ReverseBytes(d: bv32): bv32
  {
    (d >> 24) | ((d >> 8) & 0xFF00) | ((d << 8) & 0xFF_0000) | (d << 24)
  }

  /** Swapping twice gives the word back, and the swapped word read least
      significant byte first is the original read most significant byte first:
      this is why the data field carries ReverseBytes(data). */
  lemma ReverseBytesInvolution(d: bv32)
    ensures ReverseBytes(ReverseBytes(d)) == d
    ensures FromBigEndian([(ReverseBytes(d) & 0xFF) as bv8, ((ReverseBytes(d) >> 8) & 0xFF) as bv8,
                           ((ReverseBytes(d) >> 16) & 0xFF) as bv8, (ReverseBytes(d) >> 24) as bv8]) == d
  {
  }

  /** The low 8*i bits of a word. */
  function LowBytes(d: bv32, i: nat): bv32
    requires i <= 4
  {
    if i == 0 then 0 else if i == 1 then d & 0xFF else if i == 2 then d & 0xFFFF
    else if i == 3 then d & 0xFF_FFFF else d
  }

  /** reverseData: byte i of the result is byte 3 - i of the data. */
  method ReverseData(data: bv32) returns (reversed: bv32)
    ensures reversed == ReverseBytes(data)
  {
    reversed := 0;
    var i: nat := 0;
    while i < DATA_SIZE
      invariant i <= DATA_SIZE
      invariant reversed == LowBytes(ReverseBytes(data), i)
    {
      var rightShift := (DATA_SIZE - i - 1) * 8;
      var leftShift := i * 8;
      reversed := reversed | (((data >> rightShift) & 0xFF) << leftShift);
      i := i + 1;
    }
  }

  // --- CRC-8 -----------------------------------------------------------------------------

  /** One bit b (bit 0 of its argument) shifted into the CRC register. */
  function CrcBit(crc: bv8, b: bv8): bv8
  {
    if ((crc >> 7) ^ (b & 1)) != 0 then (crc << 1) ^ POLYNOMIAL else crc << 1
  }

  /** The low n bits of b shifted in, bit 0 first. */
  function CrcBits(crc: bv8, b: bv8, n: nat): bv8
    decreases n
  {
    if n == 0 then crc else CrcBits(CrcBit(crc, b), b >> 1, n - 1)
  }

  function CrcByte(crc: bv8, b: bv8): bv8
  {
    CrcBits(crc, b, 8)
  }

  /** The CRC of a byte string, starting from 0. */
  function Crc(s: seq<bv8>): bv8
  {
    if |s| == 0 then 0 else CrcByte(Crc(s[..|s| - 1]), s[|s| - 1])
  }

  /** calculateCrc: the CRC of the first size - 1 bytes of the datagram, the
      byte the CRC field itself occupies left out. */
  method CalculateCrc(datagram: bv64, size: nat) returns (crc: bv8)
    requires 1 <= size <= 8
    ensures crc == Crc(Wire(datagram, size - 1))
  {
    crc := 0;
    var i: nat := 0;
    while i < size - 1
      invariant i <= size - 1
      invariant crc == Crc(Wire(datagram, size - 1)[..i])
    {
      var b := ByteAt(datagram, i);
      ghost var b0 := b;
      ghost var c0 := crc;
      var j: nat := 0;
      while j < 8
        invariant j <= 8
        invariant CrcBits(crc, b, 8 - j) == CrcBits(c0, b0, 8)
      {
        if ((crc >> 7) ^ (b & 1)) != 0 {
          crc := (crc << 1) ^ POLYNOMIAL;
        } else {
          crc := crc << 1;
        }
        b := b >> 1;
        j := j + 1;
      }
      assert Wire(datagram, size - 1)[..i + 1][..i] == Wire(datagram, size - 1)[..i];
      i := i + 1;
    }
    assert Wire(datagram, size - 1)[..size - 1] == Wire(datagram, size - 1);
  }

  /** The bits of a byte in reverse order. */
  function Reflect(c: bv8): bv8
  {
    ((c & 0x01) << 7) | ((c & 0x02) << 5) | ((c & 0x04) << 3) | ((c & 0x08) << 1)
    | ((c & 0x10) >> 1) | ((c & 0x20) >> 3) | ((c & 0x40) >> 5) | ((c & 0x80) >> 7)
  }

  lemma CrcByteOfReflected(c: bv8)
    ensures CrcByte(c, Reflect(c)) == 0
  {
    var b := Reflect(c);
    var c1 := CrcBit(c, b);
    var c2 := CrcBit(c1, b >> 1);
    var c3 := CrcBit(c2, b >> 2);
    var c4 := CrcBit(c3, b >> 3);
    var c5 := CrcBit(c4, b >> 4);
    var c6 := CrcBit(c5, b >> 5);
    var c7 := CrcBit(c6, b >> 6);
    var c8 := CrcBit(c7, b >> 7);
    assert CrcBits(c7, b >> 7, 1) == c8 by { assert CrcBits(c8, b >> 7 >> 1, 0) == c8; }
    assert CrcBits(c6, b >> 6, 2) == c8 by { assert (b >> 6) >> 1 == b >> 7; }
    assert CrcBits(c5, b >> 5, 3) == c8 by { assert (b >> 5) >> 1 == b >> 6; }
    assert CrcBits(c4, b >> 4, 4) == c8 by { assert (b >> 4) >> 1 == b >> 5; }
    assert CrcBits(c3, b >> 3, 5) == c8 by { assert (b >> 3) >> 1 == b >> 4; }
    assert CrcBits(c2, b >> 2, 6) == c8 by { assert (b >> 2) >> 1 == b >> 3; }
    assert CrcBits(c1, b >> 1, 7) == c8 by { assert (b >> 1) >> 1 == b >> 2; }
    assert c8 == 0;
  }

  /** A property of the CRC alone: a byte string followed by its CRC with the
      bits reversed has CRC 0. The datagrams carry the CRC itself, not its
      reflection, so this is not a check made on them. */
  lemma CrcResidue(s: seq<bv8>)
    ensures Crc(s + [Reflect(Crc(s))]) == 0
  {
    assert (s + [Reflect(Crc(s))])[..|s|] == s;
    CrcByteOfReflected(Crc(s));
  }

  // --- Datagrams ---------------------------------------------------------------------------

  /** The write datagram before its CRC: sync in bits 0-3, the serial address
      in bits 8-15, the 7-bit register address in bits 16-22, rw = 1 in bit 23
      and the byte-reversed data in bits 24-55 (WriteReadReplyDatagram). */
  function WriteFields(address: bv8, register: bv8, data: bv32): bv64
  {
    (SYNC as bv64) | ((address as bv64) << 8) | (((register & 0x7F) as bv64) << 16)
    | ((RW_WRITE as bv64) << 23) | ((ReverseBytes(data) as bv64) << 24)
  }

  /** The read request before its CRC (ReadRequestDatagram): the same first
      three bytes with rw = 0. The 32-bit union is held in the low half of a
      64-bit word. */
  function ReadFields(address: bv8, register: bv8): bv64
  {
    (SYNC as bv64) | ((address as bv64) << 8) | (((register & 0x7F) as bv64) << 16)
    | ((RW_READ as bv64) << 23)
  }

  /** The eight bytes a write sends, as the datasheet lists them: sync,
      address, register with the write bit, the data most significant byte
      first, and the CRC of the seven before it. */
  function WriteFrame(address: bv8, register: bv8, data: bv32): (r: seq<bv8>)
    ensures |r| == WRITE_READ_REPLY_DATAGRAM_SIZE
  {
    var head := [SYNC, address, (register & 0x7F) | 0x80] + BigEndian(data);
    head + [Crc(head)]
  }

  /** The four bytes a read request sends. */
  function ReadFrame(address: bv8, register: bv8): (r: seq<bv8>)
    ensures |r| == READ_REQUEST_DATAGRAM_SIZE
  {
    var head := [SYNC, address, register & 0x7F];
    head + [Crc(head)]
  }

  lemma WriteFieldsValues(address: bv8, register: bv8, data: bv32)
    ensures ByteAt(WriteFields(address, register, data), 0) == SYNC
    ensures ByteAt(WriteFields(address, register, data), 1) == address
    ensures ByteAt(WriteFields(address, register, data), 2) == (register & 0x7F) | 0x80
    ensures ByteAt(WriteFields(address, register, data), 3) == BigEndian(data)[0]
    ensures ByteAt(WriteFields(address, register, data), 4) == BigEndian(data)[1]
    ensures ByteAt(WriteFields(address, register, data), 5) == BigEndian(data)[2]
    ensures ByteAt(WriteFields(address, register, data), 6) == BigEndian(data)[3]
    ensures ByteAt(WriteFields(address, register, data), 7) == 0
  {
  }

  lemma WriteFieldsBytes(address: bv8, register: bv8, data: bv32)
    ensures Wire(WriteFields(address, register, data), 7) == [SYNC, address, (register & 0x7F) | 0x80] + BigEndian(data)
    ensures ByteAt(WriteFields(address, register, data), 7) == 0
  {
    WriteFieldsValues(address, register, data);
  }

  lemma ReadRequestValues(address: bv8, register: bv8, crc: bv8)
    ensures ByteAt(ReadFields(address, register), 0) == SYNC
    ensures ByteAt(ReadFields(address, register), 1) == address
    ensures ByteAt(ReadFields(address, register), 2) == register & 0x7F
    ensures ByteAt(ReadFields(address, register) | ((crc as bv64) << 24), 3) == crc
    ensures (ReadFields(address, register) | ((crc as bv64) << 24)) >> 32 == 0
  {
  }

  lemma ReadRequestKeeps(w: bv64, crc: bv8)
    requires w >> 24 == 0
    ensures ByteAt(w | ((crc as bv64) << 24), 0) == ByteAt(w, 0)
    ensures ByteAt(w | ((crc as bv64) << 24), 1) == ByteAt(w, 1)
    ensures ByteAt(w | ((crc as bv64) << 24), 2) == ByteAt(w, 2)
  {
  }

  /** A CRC placed in the top byte of a datagram whose top byte was clear:
      the wire bytes are the old ones followed by the CRC. */
  lemma PlaceCrc(w: bv64, crc: bv8)
    requires ByteAt(w, 7) == 0
    ensures Wire(w | ((crc as bv64) << 56), 8) == Wire(w, 7) + [crc]
  {
    var w' := w | ((crc as bv64) << 56);
    assert ByteAt(w', 0) == ByteAt(w, 0);
    assert ByteAt(w', 1) == ByteAt(w, 1);
    assert ByteAt(w', 2) == ByteAt(w, 2);
    assert ByteAt(w', 3) == ByteAt(w, 3);
    assert ByteAt(w', 4) == ByteAt(w, 4);
    assert ByteAt(w', 5) == ByteAt(w, 5);
    assert ByteAt(w', 6) == ByteAt(w, 6);
    assert ByteAt(w', 7) == crc;
  }

  /** The write datagram with its CRC, as write() assembles it: its wire
      bytes are WriteFrame. */
  method WriteDatagram(address: bv8, register: bv8, data: bv32) returns (datagram: bv64)
    ensures Wire(datagram, WRITE_READ_REPLY_DATAGRAM_SIZE) == WriteFrame(address, register, data)
  {
    var reversed := ReverseData(data);
    datagram := (SYNC as bv64) | ((address as bv64) << 8) | (((register & 0x7F) as bv64) << 16)
                | ((RW_WRITE as bv64) << 23) | ((reversed as bv64) << 24);
    assert datagram == WriteFields(address, register, data);
    WriteFieldsBytes(address, register, data);
    var crc := CalculateCrc(datagram, WRITE_READ_REPLY_DATAGRAM_SIZE);
    PlaceCrc(datagram, crc);
    datagram := datagram | ((crc as bv64) << 56);
  }

  /** The read request's wire bytes once the CRC of its first three is put
      in the byte above them. */
  lemma ReadRequestWire(address: bv8, register: bv8, crc: bv8)
    requires crc == Crc(Wire(ReadFields(address, register), 3))
    ensures Wire(ReadFields(address, register) | ((crc as bv64) << 24), 4) == ReadFrame(address, register)
    ensures (ReadFields(address, register) | ((crc as bv64) << 24)) >> 32 == 0
  {
    ReadRequestValues(address, register, crc);
    ReadRequestKeeps(ReadFields(address, register), crc);
    assert Wire(ReadFields(address, register), 3) == [SYNC, address, register & 0x7F];
  }

  /** The read request with its CRC, as read() assembles it; only the low
      four bytes are used. */
  method ReadRequestDatagram(address: bv8, register: bv8) returns (datagram: bv64)
    ensures Wire(datagram, READ_REQUEST_DATAGRAM_SIZE) == ReadFrame(address, register)
    ensures datagram >> 32 == 0
  {
    datagram := ReadFields(address, register);
    var crc := CalculateCrc(datagram, READ_REQUEST_DATAGRAM_SIZE);
    ReadRequestWire(address, register, crc);
    datagram := datagram | ((crc as bv64) << 24);
  }

  /** The reply word read() assembles from the eight reply bytes, the first
      one least significant. */
  function Pack(s: seq<bv8>): bv64
    requires |s| == 8
  {
    Pack8(s[0], s[1], s[2], s[3], s[4], s[5], s[6], s[7])
  }

  function Pack8(b0: bv8, b1: bv8, b2: bv8, b3: bv8, b4: bv8, b5: bv8, b6: bv8, b7: bv8): bv64
  {
    (b0 as bv64) | ((b1 as bv64) << 8) | ((b2 as bv64) << 16) | ((b3 as bv64) << 24)
    | ((b4 as bv64) << 32) | ((b5 as bv64) << 40) | ((b6 as bv64) << 48) | ((b7 as bv64) << 56)
  }

  lemma Pack8Bytes(b0: bv8, b1: bv8, b2: bv8, b3: bv8, b4: bv8, b5: bv8, b6: bv8, b7: bv8)
    ensures var p := Pack8(b0, b1, b2, b3, b4, b5, b6, b7);
            && ByteAt(p, 0) == b0 && ByteAt(p, 1) == b1 && ByteAt(p, 2) == b2 && ByteAt(p, 3) == b3
            && ByteAt(p, 4) == b4 && ByteAt(p, 5) == b5 && ByteAt(p, 6) == b6 && ByteAt(p, 7) == b7
  {
  }

  lemma BytesPack8(w: bv64)
    ensures Pack8(ByteAt(w, 0), ByteAt(w, 1), ByteAt(w, 2), ByteAt(w, 3),
                  ByteAt(w, 4), ByteAt(w, 5), ByteAt(w, 6), ByteAt(w, 7)) == w
  {
  }

  /** Packing is the inverse of putting a word on the wire. */
  lemma PackWire(s: seq<bv8>, w: bv64)
    requires |s| == 8
    ensures Wire(Pack(s), 8) == s
    ensures Pack(Wire(w, 8)) == w
  {
    Pack8Bytes(s[0], s[1], s[2], s[3], s[4], s[5], s[6], s[7]);
    BytesPack8(w);
  }

  /** The data field of a reply, byte-reversed as read() returns it, is the
      big-endian value of reply bytes 3 to 6; the reply's CRC byte is not
      looked at. */
  lemma ReplyData(s: seq<bv8>)
    requires |s| == 8
    ensures ReverseBytes(DataField(Pack(s))) == FromBigEndian(s[3..7])
  {
    DataFieldBytes(s[0], s[1], s[2], s[3], s[4], s[5], s[6], s[7]);
    ReverseLe(s[3], s[4], s[5], s[6]);
    assert s[3..7][0] == s[3] && s[3..7][1] == s[4] && s[3..7][2] == s[5] && s[3..7][3] == s[6];
  }

  /** Bits 24-55 of a datagram: WriteReadReplyDatagram.data. */
  function DataField(w: bv64): bv32
  {
    ((w >> 24) & 0xFFFF_FFFF) as bv32
  }

  lemma DataFieldBytes(b0: bv8, b1: bv8, b2: bv8, b3: bv8, b4: bv8, b5: bv8, b6: bv8, b7: bv8)
    ensures DataField(Pack8(b0, b1, b2, b3, b4, b5, b6, b7))
            == (b3 as bv32) | ((b4 as bv32) << 8) | ((b5 as bv32) << 16) | ((b6 as bv32) << 24)
  {
  }

  lemma ReverseLe(b0: bv8, b1: bv8, b2: bv8, b3: bv8)
    ensures ReverseBytes((b0 as bv32) | ((b1 as bv32) << 8) | ((b2 as bv32) << 16) | ((b3 as bv32) << 24))
            == FromBe4(b0, b1, b2, b3)
  {
  }
}
