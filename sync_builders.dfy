/** The sync-prefixed revision as the browser configurator writes and reads it
    (configurator/AxisMessages.js). Each builder allocates a zeroed buffer of the
    message's total length and writes the header, the body fields and a zero
    footer at a running offset; each parser reads the fields back at fixed
    offsets, checking nothing but that the buffer is long enough. */
module SyncBuilders {
  import opened Wrappers
  import opened Bytes
  import SyncMessages

  /** MaxMessageType: one past the last id; the ids below it are the Python
      host library's, in the same order. */
  const MAX_MESSAGE_TYPE: int := |SyncMessages.MESSAGE_NAMES|

  // --- Byte images ------------------------------------------------------------------

  /** The eight header bytes: sync word, message type and body size, each written
      little-endian through a DataView, which keeps the value modulo 2^32 or 2^16. */
  function HeaderBytes(syncBytes: int, messageType: int, bodySize: int): (r: seq<byte>)
    ensures |r| == 8
  {
    Le32(syncBytes % U32) + Le16(messageType % U16) + Le16(bodySize % U16)
  }

  /** The frame every builder produces for a body: the header with the body's
      length as body_size, the body, and a footer of two zero bytes. */
  function SyncFrame(msgId: int, body: seq<byte>): (r: seq<byte>)
    ensures |r| == |body| + 10
  {
    HeaderBytes(SyncMessages.SYNC_BYTES, msgId, |body|) + body + [0, 0]
  }

  /** What an n-byte field holds after buffer.set copies src into a zeroed field
      and the footer is written after it: the first n bytes of src, padded with
      zeros. */
  function Fit(src: seq<byte>, n: nat): (r: seq<byte>)
    ensures |r| == n
    ensures forall i :: 0 <= i < n ==> r[i] == (if i < |src| then src[i] else 0)
  {
    if |src| >= n then src[..n] else src + Zeros(n - |src|)
  }

  /** A plain array stored into a Uint8Array: each element modulo 256. */
  function ToUint8s(values: seq<int>): (r: seq<byte>)
    ensures |r| == |values|
    ensures forall i :: 0 <= i < |values| ==> r[i] == values[i] % 256
  {
    if |values| == 0 then [] else [values[0] % 256] + ToUint8s(values[1..])
  }

  // --- Writing into a buffer ---------------------------------------------------------

  /** buildHeader: a fresh 8-byte buffer with the three fields written in turn. */
  method BuildHeader(syncBytes: int, messageType: int, bodySize: int) returns (h: seq<byte>)
    ensures h == HeaderBytes(syncBytes, messageType, bodySize)
  {
    var buffer := new byte[8](_ => 0);
    var offset := 0;
    SetAt(buffer, Le32(syncBytes % U32), offset);
    assert buffer[..4] == Le32(syncBytes % U32);
    offset := offset + 4;
    SetAt(buffer, Le16(messageType % U16), offset);
    assert buffer[..6] == Le32(syncBytes % U32) + Le16(messageType % U16);
    offset := offset + 2;
    SetAt(buffer, Le16(bodySize % U16), offset);
    h := buffer[..];
  }

  /** buildFooter: the checksum written as a u16. */
  method BuildFooter(checksum: int) returns (f: seq<byte>)
    ensures f == Le16(checksum % U16)
  {
    var buffer := new byte[2](_ => 0);
    SetAt(buffer, Le16(checksum % U16), 0);
    f := buffer[..];
  }

  /** The shape every build*Message shares: a zeroed buffer of bodySize + 10
      bytes, the header with body_size = totalLength - (HEADER_SIZE + FOOTER_SIZE),
      the body fields from offset 8, and buildFooter(0) at offset 8 + bodySize,
      over anything the fields wrote past the body. */
  method BuildMessage(msgId: int, bodySize: nat, fields: seq<byte>) returns (m: seq<byte>)
    requires |fields| <= bodySize + 2
    ensures m == SyncFrame(msgId, Fit(fields, bodySize))
  {
    var totalLength := bodySize + 10;
    var buffer := new byte[totalLength](_ => 0);
    ghost var zeros := buffer[..];
    assert zeros == Zeros(totalLength);
    var offset := 0;
    var headerBytes := BuildHeader(SyncMessages.SYNC_BYTES, msgId,
                                   totalLength - (SyncMessages.HEADER_SIZE + SyncMessages.FOOTER_SIZE));
    SetAt(buffer, headerBytes, offset);
    offset := offset + |headerBytes|;
    SetAt(buffer, fields, offset);
    offset := offset + bodySize;
    var footerBytes := BuildFooter(0);
    SetAt(buffer, footerBytes, offset);
    m := buffer[..];
    Assembled(headerBytes, fields, footerBytes, bodySize);
    ZeroFooter();
    assert headerBytes == HeaderBytes(SyncMessages.SYNC_BYTES, msgId, |Fit(fields, bodySize)|);
  }

  /** Fields followed by zeros, cut to n bytes, are the fields fitted to n. */
  lemma FitOfPadded(fields: seq<byte>, pad: seq<byte>, n: nat)
    requires |fields| + |pad| >= n
    requires forall i :: 0 <= i < |pad| ==> pad[i] == 0
    ensures (fields + pad)[..n] == Fit(fields, n)
  {
  }

  /** buildFooter(0) writes two zero bytes. */
  lemma ZeroFooter()
    ensures Le16(0 % U16) == [0, 0]
  {
  }

  /** The bytes BuildMessage leaves: the header, the fields over the zeroed
      buffer, and the footer written over the two bytes after the body. */
  lemma Assembled(h: seq<byte>, fields: seq<byte>, footer: seq<byte>, n: nat)
    requires |h| == 8 && |footer| == 2 && |fields| <= n + 2
    ensures var b := Overwritten(Overwritten(Zeros(n + 10), h, 0), fields, 8);
      Overwritten(b, footer, 8 + n) == h + Fit(fields, n) + footer
  {
    var zeros := Zeros(n + 10);
    var pad := zeros[8 + |fields|..];
    var b := h + (fields + pad);
    assert Overwritten(zeros, h, 0) == h + zeros[8..];
    assert Overwritten(h + zeros[8..], fields, 8) == b;
    FitOfPadded(fields, pad, n);
    PrefixOfAppend(h, fields + pad, n);
    assert b[10 + n..] == [];
  }

  lemma PrefixOfAppend(a: seq<byte>, b: seq<byte>, n: nat)
    requires n <= |b|
    ensures (a + b)[..|a| + n] == a + b[..n]
  {
  }

  /** buildU8Message and buildS8Message: setUint8 and setInt8 both store the
      value modulo 256. */
  method BuildU8Message(msgId: int, value: int) returns (m: seq<byte>)
    ensures m == SyncFrame(msgId, [value % 256])
  {
    m := BuildMessage(msgId, 1, [value % 256]);
    assert Fit([value % 256], 1) == [value % 256];
  }

  /** buildU32Message and buildS32Message: setUint32 and setInt32 both store the
      value modulo 2^32, low byte first. */
  method BuildU32Message(msgId: int, value: int) returns (m: seq<byte>)
    ensures m == SyncFrame(msgId, Le32(value % U32))
  {
    m := BuildMessage(msgId, 4, Le32(value % U32));
    assert Fit(Le32(value % U32), 4) == Le32(value % U32);
  }

  /** buildDoubleMessage: setFloat32 writes four bytes, the offset advances by
      eight, so the body is the single-precision image followed by four zeros. */
  method BuildDoubleMessage(msgId: int, float32Bits: seq<byte>) returns (m: seq<byte>)
    requires |float32Bits| == 4
    ensures m == SyncFrame(msgId, float32Bits + Zeros(4))
  {
    m := BuildMessage(msgId, 8, float32Bits);
  }

  /** buildMacAddressMessage (6 bytes), buildLedColorMessage (3),
      buildHAIpAddressMessage (4) and buildStringMessage (32): buffer.set copies the
      given array. A shorter array leaves zeros; up to two extra elements land in
      the footer and are overwritten; more raise RangeError (None). */
  method BuildBytesMessage(msgId: int, value: seq<int>, bodySize: nat) returns (m: Option<seq<byte>>)
    ensures m.Some? <==> |value| <= bodySize + 2
    ensures m.Some? ==> m.value == SyncFrame(msgId, Fit(ToUint8s(value), bodySize))
  {
    if |value| > bodySize + 2 {
      return None;
    }
    var frame := BuildMessage(msgId, bodySize, ToUint8s(value));
    m := Some(frame);
  }

  /** buildVelocityAndStepsMessage: two setInt32 fields and a setUint8. */
  method BuildVelocityAndStepsMessage(msgId: int, velocity: int, steps: int, positionMode: int)
    returns (m: seq<byte>)
    ensures m == SyncFrame(msgId, Le32(velocity % U32) + Le32(steps % U32) + [positionMode % 256])
  {
    var fields := Le32(velocity % U32) + Le32(steps % U32) + [positionMode % 256];
    m := BuildMessage(msgId, 9, fields);
    assert Fit(fields, 9) == fields;
  }

  // --- Parsers --------------------------------------------------------------------------

  /** What every parse*Message returns: the type and size from the header, the
      body value and the footer checksum. The sync word is read but not kept. */
  datatype Parsed<T> = Parsed(messageType: nat, bodySize: nat, value: T, checksum: nat)

  function WithValue<T, U>(p: Parsed<T>, v: U): Parsed<U>
  {
    Parsed(p.messageType, p.bodySize, v, p.checksum)
  }

  /** parseHeader: the three header fields; a DataView read past the end raises
      RangeError (None). */
  function ParseHeader(buffer: seq<byte>): (r: Option<(nat, nat, nat)>)
    ensures r.Some? <==> |buffer| >= 8
  {
    if |buffer| < 8 then None
    else Some((ReadLe32(buffer, 0), ReadLe16(buffer, 4), ReadLe16(buffer, 6)))
  }

  /** The header fields parseHeader reads write the same eight bytes back. */
  lemma HeaderOfReads(buffer: seq<byte>)
    requires |buffer| >= 8
    ensures var p := ParseHeader(buffer).value;
      HeaderBytes(p.0, p.1, p.2) == buffer[..8]
  {
    var p := ParseHeader(buffer).value;
    Le32ReadLe32(buffer, 0);
    Le16ReadLe16(buffer, 4);
    Le16ReadLe16(buffer, 6);
    HeaderOfParts(p.0, p.1, p.2, buffer[0..4], buffer[4..6], buffer[6..8]);
    HeaderSpan(buffer);
  }

  lemma HeaderOfParts(a: nat, b: nat, c: nat, x: seq<byte>, y: seq<byte>, z: seq<byte>)
    requires a < U32 && b < U16 && c < U16
    requires Le32(a) == x && Le16(b) == y && Le16(c) == z
    ensures HeaderBytes(a, b, c) == x + y + z
  {
    assert a % U32 == a && b % U16 == b && c % U16 == c;
  }

  lemma HeaderSpan(buffer: seq<byte>)
    requires |buffer| >= 8
    ensures buffer[..8] == buffer[0..4] + buffer[4..6] + buffer[6..8]
  {
  }

  /** parseFooter: the checksum. */
  function ParseFooter(buffer: seq<byte>): (r: Option<nat>)
    ensures r.Some? <==> |buffer| >= 2
    ensures r.Some? ==> r.value < U16 && Le16(r.value) == buffer[..2]
  {
    if |buffer| < 2 then None
    else
      Le16ReadLe16(buffer, 0);
      Some(ReadLe16(buffer, 0))
  }

  /** The parsers' common frame: the header fields, a body field of n bytes at
      offset 8 and the checksum after it. The body's bytes come back as read; each
      parser gives them its own reading. */
  function ParseFields(buffer: seq<byte>, n: nat): (r: Option<Parsed<seq<byte>>>)
    ensures r.Some? <==> |buffer| >= n + 10
    ensures r.Some? ==> (&& r.value.value == buffer[8..8 + n]
                         && r.value.messageType == ReadLe16(buffer, 4)
                         && r.value.bodySize == ReadLe16(buffer, 6)
                         && r.value.checksum == ReadLe16(buffer, 8 + n))
  {
    if |buffer| < n + 10 then None
    else Some(Parsed(ReadLe16(buffer, 4), ReadLe16(buffer, 6), buffer[8..8 + n], ReadLe16(buffer, 8 + n)))
  }

  /** parseU8Message: getUint8 at offset 8. */
  function ParseU8Message(buffer: seq<byte>): (r: Option<Parsed<int>>)
    ensures r.Some? <==> |buffer| >= 11
    ensures r.Some? ==> r.value.value == buffer[8] && r.value.checksum == ReadLe16(buffer, 9)
  {
    var p := ParseFields(buffer, 1);
    if p.None? then None else Some(WithValue(p.value, p.value.value[0]))
  }

  /** parseS8Message: getInt8 at offset 8. */
  function ParseS8Message(buffer: seq<byte>): (r: Option<Parsed<int>>)
    ensures r.Some? <==> |buffer| >= 11
    ensures r.Some? ==> -128 <= r.value.value < 128 && r.value.value % 256 == buffer[8]
  {
    var p := ParseFields(buffer, 1);
    if p.None? then None else Some(WithValue(p.value, Signed(p.value.value[0], 1)))
  }

  /** parseU32Message: getUint32 at offset 8. */
  function ParseU32Message(buffer: seq<byte>): (r: Option<Parsed<int>>)
    ensures r.Some? <==> |buffer| >= 14
    ensures r.Some? ==> 0 <= r.value.value < U32 && Le32(r.value.value) == buffer[8..12]
  {
    var p := ParseFields(buffer, 4);
    if p.None? then None
    else
      Le32ReadLe32(buffer, 8);
      Some(WithValue(p.value, ReadLe32(buffer, 8)))
  }

  /** parseS32Message: getInt32 at offset 8. */
  function ParseS32Message(buffer: seq<byte>): (r: Option<Parsed<int>>)
    ensures r.Some? <==> |buffer| >= 14
    ensures r.Some? ==> (&& -0x8000_0000 <= r.value.value < 0x8000_0000
                         && Le32(r.value.value % U32) == buffer[8..12])
  {
    var p := ParseFields(buffer, 4);
    if p.None? then None
    else
      Le32ReadLe32(buffer, 8);
      var u := ReadLe32(buffer, 8);
      assert Pow256(4) == U32;
      assert Signed(u, 4) % U32 == u by {
        if u >= 0x8000_0000 {
          ModUnique(u - U32, U32, -1, u);
        }
      }
      Some(WithValue(p.value, Signed(u, 4)))
  }

  /** parseDoubleMessage: getFloat32 at offset 8 (its four bytes are returned),
      the checksum read after the eight-byte body. */
  function ParseDoubleMessage(buffer: seq<byte>): (r: Option<Parsed<seq<byte>>>)
    ensures r.Some? <==> |buffer| >= 18
    ensures r.Some? ==> r.value.value == buffer[8..12] && r.value.checksum == ReadLe16(buffer, 16)
  {
    var p := ParseFields(buffer, 8);
    if p.None? then None else Some(WithValue(p.value, p.value.value[..4]))
  }

  /** parseMacAddressMessage, parseLedColorMessage, parseHAIpAddressMessage and
      parseStringMessage: a Uint8Array view of bodySize bytes at offset 8. */
  function ParseBytesMessage(buffer: seq<byte>, bodySize: nat): (r: Option<Parsed<seq<byte>>>)
    ensures r.Some? <==> |buffer| >= bodySize + 10
    ensures r.Some? ==> r.value.value == buffer[8..8 + bodySize]
  {
    ParseFields(buffer, bodySize)
  }

  /** parseVelocityAndStepsMessage: two getInt32 fields and a getUint8. */
  function ParseVelocityAndStepsMessage(buffer: seq<byte>): (r: Option<Parsed<(int, int, int)>>)
    ensures r.Some? <==> |buffer| >= 19
    ensures r.Some? ==> r.value.value.2 == buffer[16] && r.value.checksum == ReadLe16(buffer, 17)
  {
    var p := ParseFields(buffer, 9);
    if p.None? then None
    else
      Some(WithValue(p.value, (Signed(ReadLe32(buffer, 8), 4), Signed(ReadLe32(buffer, 12), 4), buffer[16])))
  }

  // --- Round trips -----------------------------------------------------------------------

  /** The header of a built frame reads back as the sync word, the type modulo
      2^16 and the body length. */
  lemma HeaderOfFrame(msgId: int, body: seq<byte>)
    requires |body| < U16
    ensures ParseHeader(SyncFrame(msgId, body)) == Some((SyncMessages.SYNC_BYTES, msgId % U16, |body|))
  {
    var h := HeaderBytes(SyncMessages.SYNC_BYTES, msgId, |body|);
    HeaderFieldsBack(SyncMessages.SYNC_BYTES, msgId % U16, |body|, body + [0, 0]);
    TypeReduced(SyncMessages.SYNC_BYTES, msgId, |body|);
    Associate(h, body, [0, 0]);
  }

  /** The message type is written modulo 2^16, so reducing it first changes nothing. */
  lemma TypeReduced(syncBytes: int, messageType: int, bodySize: int)
    ensures HeaderBytes(syncBytes, messageType % U16, bodySize) == HeaderBytes(syncBytes, messageType, bodySize)
  {
    var t := messageType % U16;
    assert t % U16 == t;
  }

  /** Header fields that fit their widths are read back from the header bytes,
      whatever follows them. */
  lemma HeaderFieldsBack(syncBytes: nat, messageType: nat, bodySize: nat, rest: seq<byte>)
    requires syncBytes < U32 && messageType < U16 && bodySize < U16
    ensures ParseHeader(HeaderBytes(syncBytes, messageType, bodySize) + rest) == Some((syncBytes, messageType, bodySize))
  {
    HeaderWords(syncBytes, messageType, bodySize, rest);
  }

  /** The three little-endian reads over a header followed by anything. */
  lemma HeaderWords(syncBytes: nat, messageType: nat, bodySize: nat, rest: seq<byte>)
    requires syncBytes < U32 && messageType < U16 && bodySize < U16
    ensures var m := HeaderBytes(syncBytes, messageType, bodySize) + rest;
      ReadLe32(m, 0) == syncBytes && ReadLe16(m, 4) == messageType && ReadLe16(m, 6) == bodySize
  {
    var m := HeaderBytes(syncBytes, messageType, bodySize) + rest;
    assert m[0..4] == Le32(syncBytes % U32) && m[4..6] == Le16(messageType % U16) && m[6..8] == Le16(bodySize % U16);
    ReadLe32At(syncBytes % U32, m, 0);
    ReadLe16At(messageType % U16, m, 4);
    ReadLe16At(bodySize % U16, m, 6);
  }

  /** An int32 written as a u32 at offset i reads back through getInt32. */
  lemma Int32At(m: seq<byte>, i: nat, v: int)
    requires -0x8000_0000 <= v < 0x8000_0000 && i + 4 <= |m| && m[i..i + 4] == Le32(v % U32)
    ensures Signed(ReadLe32(m, i), 4) == v
  {
    ReadLe32At(v % U32, m, i);
    assert Pow256(4) == U32;
    SignedUnsigned(v, 4);
  }

  /** The fields of a built frame: the type, the body length, the body and the
      zero checksum. */
  lemma FieldsOfFrame(msgId: int, body: seq<byte>)
    requires |body| < U16
    ensures ParseFields(SyncFrame(msgId, body), |body|) == Some(Parsed(msgId % U16, |body|, body, 0))
  {
    var m := SyncFrame(msgId, body);
    HeaderOfFrame(msgId, body);
    assert m[8..8 + |body|] == body;
    assert m[8 + |body|] == 0 && m[9 + |body|] == 0;
  }

  /** parseU8Message(buildU8Message(id, v)): the type, size 1, v modulo 256 and the
      zero checksum. */
  lemma U8RoundTrip(msgId: int, value: int)
    ensures ParseU8Message(SyncFrame(msgId, [value % 256])) == Some(Parsed(msgId % U16, 1, value % 256, 0))
  {
    FieldsOfFrame(msgId, [value % 256]);
  }

  /** parseS8Message(buildS8Message(id, v)) gives v back for -128 <= v < 128. */
  lemma S8RoundTrip(msgId: int, value: int)
    requires -128 <= value < 128
    ensures ParseS8Message(SyncFrame(msgId, [value % 256])) == Some(Parsed(msgId % U16, 1, value, 0))
  {
    FieldsOfFrame(msgId, [value % 256]);
    assert Pow256(1) == 256;
    SignedUnsigned(value, 1);
  }

  /** parseU32Message(buildU32Message(id, v)): the type, size 4, v modulo 2^32 and
      the zero checksum. */
  lemma U32RoundTrip(msgId: int, value: int)
    ensures ParseU32Message(SyncFrame(msgId, Le32(value % U32)))
            == Some(Parsed(msgId % U16, 4, value % U32, 0))
  {
    var m := SyncFrame(msgId, Le32(value % U32));
    FieldsOfFrame(msgId, Le32(value % U32));
    ReadLe32At(value % U32, m, 8);
  }

  /** parseS32Message(buildS32Message(id, v)) gives v back in the int32 range. */
  lemma S32RoundTrip(msgId: int, value: int)
    requires -0x8000_0000 <= value < 0x8000_0000
    ensures ParseS32Message(SyncFrame(msgId, Le32(value % U32)))
            == Some(Parsed(msgId % U16, 4, value, 0))
  {
    var m := SyncFrame(msgId, Le32(value % U32));
    FieldsOfFrame(msgId, Le32(value % U32));
    Int32At(m, 8, value);
  }

  /** The single-precision image written by buildDoubleMessage is what
      parseDoubleMessage reads back. */
  lemma DoubleRoundTrip(msgId: int, float32Bits: seq<byte>)
    requires |float32Bits| == 4
    ensures ParseDoubleMessage(SyncFrame(msgId, float32Bits + Zeros(4)))
            == Some(Parsed(msgId % U16, 8, float32Bits, 0))
  {
    FieldsOfFrame(msgId, float32Bits + Zeros(4));
    assert (float32Bits + Zeros(4))[..4] == float32Bits;
  }

  /** A byte array of exactly the body size comes back unchanged. */
  lemma BytesRoundTrip(msgId: int, value: seq<byte>, bodySize: nat)
    requires |value| == bodySize < U16
    ensures ParseBytesMessage(SyncFrame(msgId, Fit(ToUint8s(value), bodySize)), bodySize)
            == Some(Parsed(msgId % U16, bodySize, value, 0))
  {
    Uint8sOfBytes(value);
    assert Fit(value, |value|) == value;
    FieldsOfFrame(msgId, value);
  }

  /** Bytes stored into a Uint8Array are kept as they are. */
  lemma Uint8sOfBytes(value: seq<byte>)
    ensures ToUint8s(value) == value
  {
    var r := ToUint8s(value);
    assert forall i :: 0 <= i < |value| ==> r[i] == value[i];
  }

  /** The VelocityAndSteps frame is 19 bytes: velocity as int32 at 8, steps at 12,
      the position mode at 16, and parseVelocityAndStepsMessage reads back the
      int32-range velocity and steps and the mode modulo 256. */
  lemma VelocityAndStepsRoundTrip(msgId: int, velocity: int, steps: int, positionMode: int)
    requires -0x8000_0000 <= velocity < 0x8000_0000 && -0x8000_0000 <= steps < 0x8000_0000
    ensures var m := SyncFrame(msgId, Le32(velocity % U32) + Le32(steps % U32) + [positionMode % 256]);
      && |m| == 19
      && ParseVelocityAndStepsMessage(m)
         == Some(Parsed(msgId % U16, 9, (velocity, steps, positionMode % 256), 0))
  {
    var body := Le32(velocity % U32) + Le32(steps % U32) + [positionMode % 256];
    var m := SyncFrame(msgId, body);
    FieldsOfFrame(msgId, body);
    assert m[8..12] == Le32(velocity % U32);
    assert m[12..16] == Le32(steps % U32);
    Int32At(m, 8, velocity);
    Int32At(m, 12, steps);
  }

  // --- Agreement with the host library -------------------------------------------

  /** The configurator's header bytes are the host library's Header.serialize,
      for any sync word, type and body size that fit their fields. */
  lemma HeaderBytesAreHostHeader(syncBytes: int, msgId: int, bodySize: int)
    requires 0 <= syncBytes < U32 && 0 <= msgId < U16 && 0 <= bodySize < U16
    ensures SyncMessages.SerializeHeader(SyncMessages.Header(syncBytes, msgId, bodySize))
            == Ok(HeaderBytes(syncBytes, msgId, bodySize))
  {
    ToBytesLe32(syncBytes);
    ToBytesLe16(msgId);
    ToBytesLe16(bodySize);
    assert syncBytes % U32 == syncBytes && msgId % U16 == msgId && bodySize % U16 == bodySize;
  }

  /** A configurator frame has the host library's layout: its header and body are
      the host's, and only the footer is fixed at zero. */
  lemma SyncFrameIsHostLayout(msgId: int, body: seq<byte>)
    requires 0 <= msgId < U16 && |body| < U16
    ensures var h := SyncMessages.SerializeHeader(SyncMessages.Header(SyncMessages.SYNC_BYTES, msgId, |body|));
      h.Ok? && SyncFrame(msgId, body) == h.value + body + [0, 0]
  {
    HeaderBytesAreHostHeader(SyncMessages.SYNC_BYTES, msgId, |body|);
  }

  /** A u32 frame built by the configurator decodes on the host library's side to
      the same header and value, with checksum 0. */
  lemma U32DecodesOnHost(msgId: int, value: int)
    requires 0 <= msgId < U16 && 0 <= value < U32
    ensures SyncMessages.Deserialize(SyncMessages.U32Body, SyncFrame(msgId, Le32(value)))
            == Ok(SyncMessages.Decoded(SyncMessages.Header(SyncMessages.SYNC_BYTES, msgId, 4),
                                       SyncMessages.Int(value), 0))
  {
    var hdr := SyncMessages.Header(SyncMessages.SYNC_BYTES, msgId, 4);
    SyncFrameIsHostLayout(msgId, Le32(value));
    var h := SyncMessages.SerializeHeader(hdr).value;
    SyncMessages.HeaderRoundTrip(hdr, Le32(value) + [0, 0]);
    assert h + (Le32(value) + [0, 0]) == h + Le32(value) + [0, 0];
    SyncMessages.SliceOfFrame(h, Le32(value), [0, 0]);
    assert Pow256(4) == U32;
    ToLeLe32(value);
    FromToLe(value, 4);
    assert FromLe([0, 0]) == 0;
  }

  /** Every message the host library serializes is the configurator's header for
      the class's body size, the body, and the body sum modulo 0xFFFF as footer. */
  lemma HostFrameLayout(c: SyncMessages.Codec, msgId: int, v: SyncMessages.Value)
    requires SyncMessages.Serialize(c, msgId, v).Ok?
    ensures var body := SyncMessages.SerializeBody(c, v).value;
      SyncMessages.Serialize(c, msgId, v).value
      == HeaderBytes(SyncMessages.SYNC_BYTES, msgId, SyncMessages.BodySize(c)) + body
         + Le16(SyncMessages.BodyChecksum(body))
  {
    var body := SyncMessages.SerializeBody(c, v).value;
    HeaderBytesAreHostHeader(SyncMessages.SYNC_BYTES, msgId, SyncMessages.BodySize(c));
    assert Pow256(2) == U16;
    ToLeLe16(SyncMessages.BodyChecksum(body));
  }

  /** The same u32 message from the host library differs from the configurator's
      only in the footer: the host writes the body sum modulo 0xFFFF, the
      configurator zero. */
  lemma U32AgreesWithHost(msgId: int, value: int)
    requires 0 <= msgId < U16 && 0 <= value < U32
    ensures SyncMessages.Serialize(SyncMessages.U32Body, msgId, SyncMessages.Int(value))
            == Ok(SyncFrame(msgId, Le32(value))[..12] + Le16(SyncMessages.BodyChecksum(Le32(value))))
  {
    assert Pow256(4) == U32;
    ToLeLe32(value);
    HostFrameLayout(SyncMessages.U32Body, msgId, SyncMessages.Int(value));
    var m := SyncFrame(msgId, Le32(value));
    assert m[..12] == HeaderBytes(SyncMessages.SYNC_BYTES, msgId, 4) + Le32(value);
  }

}
