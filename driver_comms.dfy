/** The oldest host-side frame builders (DriverComms.py): a little-endian type,
    a body size, the body and a checksum that is the body's byte sum masked to
    its low byte. The header takes no part in the checksum. */
module DriverComms {
  import opened Wrappers
  import opened Bytes

  /** sum(body) & 0xFF. */
  function Checksum(body: seq<byte>): (c: byte)
    ensures c == Sum(body) % 256
  {
    Sum(body) % 256
  }

  /** A frame whose body-size field, read little-endian as the firmware reads
      its Header, announces exactly the bytes between a 4-byte header and a
      2-byte footer. */
  predicate SizeConsistent(m: seq<byte>)
  {
    |m| >= 6 && ReadLe16(m, 2) + 6 == |m|
  }

  /** The frame every Set* builder assembles once its fields are encoded. */
  function Frame(msgId: nat, body: seq<byte>): (m: seq<byte>)
    requires msgId < U16 && |body| < U16
    ensures |m| == |body| + 6
    ensures ReadLe16(m, 0) == msgId && ReadLe16(m, 2) == |body|
    ensures m[4..4 + |body|] == body
    ensures ReadLe16(m, 4 + |body|) == Checksum(body)
    ensures SizeConsistent(m)
  {
    var m := Le16(msgId) + Le16(|body|) + body + Le16(Checksum(body));
    assert m[0..2] == Le16(msgId) && m[2..4] == Le16(|body|);
    assert m[4 + |body|..6 + |body|] == Le16(Checksum(body));
    ReadLe16At(msgId, m, 0);
    ReadLe16At(|body|, m, 2);
    ReadLe16At(Checksum(body), m, 4 + |body|);
    m
  }

  /** SetU8: OverflowError unless the id fits 2 bytes and the value 1 byte. */
  function SetU8(msgId: int, value: int): (r: Result<seq<byte>, PyError>)
    ensures r.Ok? <==> 0 <= msgId < U16 && 0 <= value < U8
    ensures r.Err? ==> r.error == OverflowError
    ensures r.Ok? ==> |r.value| == 7 && r.value == Frame(msgId, [value])
  {
    var t := ToBytes(msgId, 2);
    var b := ToBytes(value, 1);
    if t.Err? then Err(t.error)
    else if b.Err? then Err(b.error)
    else
      ToBytesLe16(msgId);
      ToBytesByte(value);
      Ok(Frame(msgId, b.value))
  }

  /** GetU8: message[4], an IndexError when the message is shorter. */
  function GetU8(message: seq<byte>): (r: Result<byte, PyError>)
    ensures r.Ok? <==> |message| > 4
    ensures r.Ok? ==> r.value == message[4]
    ensures r.Err? ==> r.error == IndexError
  {
    if |message| > 4 then Ok(message[4]) else Err(IndexError)
  }

  /** SetU32: OverflowError unless the id fits 2 bytes and the value 4. */
  function SetU32(msgId: int, value: int): (r: Result<seq<byte>, PyError>)
    ensures r.Ok? <==> 0 <= msgId < U16 && 0 <= value < U32
    ensures r.Err? ==> r.error == OverflowError
    ensures r.Ok? ==> |r.value| == 10 && r.value == Frame(msgId, Le32(value))
  {
    var t := ToBytes(msgId, 2);
    var b := ToBytes(value, 4);
    if t.Err? then Err(t.error)
    else if b.Err? then Err(b.error)
    else
      ToBytesLe16(msgId);
      ToBytesLe32(value);
      Ok(Frame(msgId, b.value))
  }

  /** GetU32: int.from_bytes(message[4:8], 'little'); the slice is clipped,
      never an error. */
  function GetU32(message: seq<byte>): (r: nat)
    ensures |message| >= 8 ==> r == ReadLe32(message, 4)
    ensures r < U32
  {
    var s := Slice(message, 4, 8);
    FromLeBound(s);
    assert Pow256(|s|) <= Pow256(4) by { Pow256Mono(|s|, 4); }
    if |message| >= 8 then
      FromLeLe32(s);
      FromLe(s)
    else FromLe(s)
  }

  /** SetDouble: the 8 bytes struct.pack('d', value) produces (native order)
      carried as the body; their meaning as a double is not modelled. */
  function SetDouble(msgId: int, packed: seq<byte>): (r: Result<seq<byte>, PyError>)
    requires |packed| == 8
    ensures r.Ok? <==> 0 <= msgId < U16
    ensures r.Err? ==> r.error == OverflowError
    ensures r.Ok? ==> |r.value| == 14 && r.value == Frame(msgId, packed)
  {
    var t := ToBytes(msgId, 2);
    if t.Err? then Err(t.error)
    else
      ToBytesLe16(msgId);
      Ok(Frame(msgId, packed))
  }

  /** GetDouble: the bytes struct.unpack('d', message[4:12]) decodes, or the
      struct.error it raises when the slice is not 8 bytes long. */
  function GetDouble(message: seq<byte>): (r: Result<seq<byte>, PyError>)
    ensures r.Ok? <==> |message| >= 12
    ensures r.Ok? ==> r.value == message[4..12]
    ensures r.Err? ==> r.error == StructError
  {
    var s := Slice(message, 4, 12);
    if |s| == 8 then Ok(s) else Err(StructError)
  }

  /** SetLedColor as written: the id little-endian, then (3).to_bytes(2, 'big'),
      the three colour bytes and a one-byte checksum. bytearray raises ValueError
      for a colour outside 0..255. */
  function SetLedColor(msgId: int, r: int, g: int, b: int): (m: Result<seq<byte>, PyError>)
    ensures m.Ok? <==> 0 <= msgId < U16 && 0 <= r < U8 && 0 <= g < U8 && 0 <= b < U8
    ensures m.Err? ==> m.error == (if 0 <= msgId < U16 then ValueError else OverflowError)
    ensures m.Ok? ==> |m.value| == 8 && ReadLe16(m.value, 0) == msgId
    ensures m.Ok? ==> m.value[2..4] == [0, 3] && m.value[4..7] == [r, g, b]
    ensures m.Ok? ==> m.value[7] == (r + g + b) % 256
  {
    var t := ToBytes(msgId, 2);
    if t.Err? then Err(t.error)
    else if !(0 <= r < U8 && 0 <= g < U8 && 0 <= b < U8) then Err(ValueError)
    else
      ToBytesLe16(msgId);
      var body: seq<byte> := [r, g, b];
      assert Sum(body) == r + g + b by { SumTriple(r, g, b); }
      var m := Le16(msgId) + [0, 3] + body + [Checksum(body)];
      assert m[0..2] == Le16(msgId);
      ReadLe16At(msgId, m, 0);
      Ok(m)
  }

  /** GetMacAddressMessage as written: the body is six zero bytes but the size
      field is (3).to_bytes(2, 'big'). */
  function GetMacAddressMessage(msgId: int): (m: Result<seq<byte>, PyError>)
    ensures m.Ok? <==> 0 <= msgId < U16
    ensures m.Err? ==> m.error == OverflowError
    ensures m.Ok? ==> |m.value| == 11 && ReadLe16(m.value, 0) == msgId
    ensures m.Ok? ==> m.value[2..4] == [0, 3] && m.value[4..10] == Zeros(6) && m.value[10] == 0
  {
    var t := ToBytes(msgId, 2);
    if t.Err? then Err(t.error)
    else
      ToBytesLe16(msgId);
      SumZeros(Zeros(6));
      var m := Le16(msgId) + [0, 3] + Zeros(6) + [Checksum(Zeros(6))];
      assert m[0..2] == Le16(msgId);
      ReadLe16At(msgId, m, 0);
      Ok(m)
  }

  // --- Properties ------------------------------------------------------------------

  /** GetU8 reads back what SetU8 wrote. */
  lemma U8RoundTrip(msgId: int, value: int)
    requires 0 <= msgId < U16 && 0 <= value < U8
    ensures SetU8(msgId, value).Ok? && GetU8(SetU8(msgId, value).value) == Ok(value)
  {
  }

  /** GetU32 reads back what SetU32 wrote. */
  lemma U32RoundTrip(msgId: int, value: int)
    requires 0 <= msgId < U16 && 0 <= value < U32
    ensures SetU32(msgId, value).Ok? && GetU32(SetU32(msgId, value).value) == value
  {
    var m := SetU32(msgId, value).value;
    assert m[4..8] == Le32(value);
    ReadLe32At(value, m, 4);
  }

  /** GetDouble hands back the eight bytes SetDouble carried. */
  lemma DoubleRoundTrip(msgId: int, packed: seq<byte>)
    requires 0 <= msgId < U16 && |packed| == 8
    ensures SetDouble(msgId, packed).Ok? && GetDouble(SetDouble(msgId, packed).value) == Ok(packed)
  {
  }

  /** The checksum covers the body only: two frames with the same body end in
      the same two bytes whatever their types. */
  lemma ChecksumIgnoresHeader(a: int, b: int, value: int)
    requires 0 <= a < U16 && 0 <= b < U16 && 0 <= value < U32
    ensures var ma, mb := SetU32(a, value).value, SetU32(b, value).value;
      ma[8..10] == mb[8..10]
  {
    var ma, mb := SetU32(a, value).value, SetU32(b, value).value;
    assert ma[8..10] == Le16(Checksum(Le32(value)));
    assert mb[8..10] == Le16(Checksum(Le32(value)));
  }

  /** SetLedColor's size field, read little-endian as the firmware's Header
      reads it, is 0x0300, and its one-byte footer leaves the frame a byte short
      of header + body + 2-byte footer. */
  lemma LedColorSizeMisread(msgId: int, r: int, g: int, b: int)
    requires 0 <= msgId < U16 && 0 <= r < U8 && 0 <= g < U8 && 0 <= b < U8
    ensures var m := SetLedColor(msgId, r, g, b).value;
      ReadLe16(m, 2) == 0x0300 && !SizeConsistent(m)
  {
  }

  /** SetLedColor as intended: the same frame as the other builders, body size 3
      little-endian and a 2-byte checksum. */
  function SetLedColorFixed(msgId: int, r: int, g: int, b: int): (m: Result<seq<byte>, PyError>)
    ensures m.Ok? <==> 0 <= msgId < U16 && 0 <= r < U8 && 0 <= g < U8 && 0 <= b < U8
    ensures m.Ok? ==> |m.value| == 9 && SizeConsistent(m.value)
    ensures m.Ok? ==> m.value[4..7] == [r, g, b] && ReadLe16(m.value, 7) == (r + g + b) % 256
  {
    var t := ToBytes(msgId, 2);
    if t.Err? then Err(t.error)
    else if !(0 <= r < U8 && 0 <= g < U8 && 0 <= b < U8) then Err(ValueError)
    else
      SumTriple(r, g, b);
      Ok(Frame(msgId, [r, g, b]))
  }

  /** GetMacAddressMessage announces 3 body bytes (or 0x0300 read little-endian)
      while it carries 6. */
  lemma MacRequestSizeMismatch(msgId: int)
    requires 0 <= msgId < U16
    ensures var m := GetMacAddressMessage(msgId).value;
      ReadLe16(m, 2) == 0x0300 && m[3] == 3 && |m[4..10]| == 6 && !SizeConsistent(m)
  {
  }

  /** The MAC request as intended: six zero body bytes announced as six. */
  function GetMacAddressMessageFixed(msgId: int): (m: Result<seq<byte>, PyError>)
    ensures m.Ok? <==> 0 <= msgId < U16
    ensures m.Ok? ==> |m.value| == 12 && SizeConsistent(m.value)
    ensures m.Ok? ==> m.value[4..10] == Zeros(6) && ReadLe16(m.value, 10) == 0
  {
    var t := ToBytes(msgId, 2);
    if t.Err? then Err(t.error)
    else
      SumZeros(Zeros(6));
      Ok(Frame(msgId, Zeros(6)))
  }

  // --- Helpers ---------------------------------------------------------------------

  lemma SumTriple(r: byte, g: byte, b: byte)
    ensures Sum([r, g, b]) == r + g + b
  {
    assert Sum([r]) == r by { assert [r][..0] == []; }
    assert Sum([r, g]) == r + g by { assert [r, g][..1] == [r]; }
    assert [r, g, b][..2] == [r, g];
  }
}
