/** The browser configurator's codec of the current protocol revision.

    It writes the same frames as the Python codec, but through JavaScript typed
    arrays: nothing is range-checked, a value stored into a Uint8Array or through
    DataView.setUint8/setUint16/setUint32/setInt32 keeps only its low 8, 16 or 32
    bits. Its parsers check the total length only, and throw an Error (None
    here) when it is wrong. */
module WebProtocol {
  import opened Wrappers
  import opened Bytes
  import opened AxisCatalog
  import AxisProtocol

  /** The values of the MESSAGE_TYPES object. */
  function JsId(t: MessageType): (r: nat)
    ensures r < U16
  {
    match t
    case Ack => 0x0100
    case GetVersion => 0x0101
    case SetI2CAddress => 0x0102
    case GetI2CAddress => 0x0103
    case SetEthernetAddress => 0x0104
    case GetEthernetAddress => 0x0105
    case SetEthernetPort => 0x0106
    case GetEthernetPort => 0x0107
    case GetMacAddress => 0x0108
    case SaveConfiguration => 0x0109
    case SetLedColor => 0x0200
    case GetLedColor => 0x0201
    case AddLedStep => 0x0202
    case SetHomeDirection => 0x0300
    case GetHomeDirection => 0x0301
    case SetHomeThreshold => 0x0302
    case GetHomeThreshold => 0x0303
    case SetHomeSpeed => 0x0304
    case GetHomeSpeed => 0x0305
    case GetHomedState => 0x0306
    case Home => 0x0400
    case SetMotorState => 0x0307
    case GetMotorState => 0x0308
    case SetMotorBrake => 0x0309
    case GetMotorBrake => 0x030A
    case SetMaxSpeed => 0x030B
    case GetMaxSpeed => 0x030C
    case SetAcceleration => 0x030D
    case GetAcceleration => 0x030E
    case SetCurrentPosition => 0x030F
    case GetCurrentPosition => 0x0310
    case SetTargetPosition => 0x0311
    case GetTargetPosition => 0x0312
    case SetRelativeTargetPosition => 0x0401
    case SetVelocity => 0x0313
    case GetVelocity => 0x0314
    case SetVelocityAndSteps => 0x0402
    case StartPath => 0x0403
  }

  /** The JavaScript ids are the firmware's and the Python codec's. */
  lemma JsIdIsCatalogId(t: MessageType)
    ensures JsId(t) == Id(t) == AxisProtocol.PyId(t)
  {
  }

  /** calculateChecksum: the bytes summed in a loop, then masked with 0xFFFF. */
  method CalculateChecksum(data: seq<byte>) returns (r: nat)
    ensures r == AxisProtocol.CalculateChecksum(data)
  {
    var sum := 0;
    var i := 0;
    while i < |data|
      invariant 0 <= i <= |data|
      invariant sum == Sum(data[..i])
    {
      assert data[..i + 1][..i] == data[..i];
      sum := sum + data[i];
      i := i + 1;
    }
    assert data[..i] == data;
    r := sum % U16;
  }

  /** The bytes buildMessage returns: the type and the body length each kept to
      16 bits, the body, and the checksum of the first 4 + |body| bytes. */
  function Frame(msgType: int, body: seq<byte>): (r: seq<byte>)
    ensures |r| == |body| + 6 && r[4..4 + |body|] == body
  {
    var header := Le16(msgType % U16) + Le16(|body| % U16);
    header + body + Le16(AxisProtocol.CalculateChecksum(header + body))
  }

  /** Within the ranges create_message accepts, buildMessage writes the same bytes. */
  lemma FrameIsCreateMessage(msgType: int, body: seq<byte>)
    requires 0 <= msgType < U16 && |body| < U16
    ensures Frame(msgType, body) == AxisProtocol.CreateMessage(msgType, body).value
  {
    assert msgType % U16 == msgType && |body| % U16 == |body|;
  }

  /** A built frame always passes verifyChecksum, and carries the type and body
      length modulo 65536. */
  lemma FrameVerifies(msgType: int, body: seq<byte>)
    ensures AxisProtocol.VerifyChecksum(Frame(msgType, body))
    ensures ReadLe16(Frame(msgType, body), 0) == msgType % U16
    ensures ReadLe16(Frame(msgType, body), 2) == |body| % U16
  {
    var header := Le16(msgType % U16) + Le16(|body| % U16);
    var m := Frame(msgType, body);
    var c := AxisProtocol.CalculateChecksum(header + body);
    assert m[0..2] == Le16(msgType % U16);
    ReadLe16At(msgType % U16, m, 0);
    assert m[2..4] == Le16(|body| % U16);
    ReadLe16At(|body| % U16, m, 2);
    assert m[|m| - 2..|m|] == Le16(c);
    ReadLe16At(c, m, |m| - 2);
    assert m[..|m| - 2] == header + body;
  }

  /** A frame whose type and body length fit 16 bits is well formed. */
  lemma FrameFrames(msgType: int, body: seq<byte>)
    requires 0 <= msgType < U16 && |body| < U16
    ensures AxisProtocol.Frames(Frame(msgType, body), msgType, body)
  {
    FrameVerifies(msgType, body);
  }

  /** buildMessage: the header written through a DataView, the body copied after
      it, the checksum computed over both and appended. */
  method BuildMessage(msgType: int, body: seq<byte>) returns (m: seq<byte>)
    ensures m == Frame(msgType, body)
  {
    var header := Le16(msgType % U16) + Le16(|body| % U16);
    var withoutChecksum := new byte[|header| + |body|](_ => 0);
    SetAt(withoutChecksum, header, 0);
    assert withoutChecksum[..|header|] == header;
    SetAt(withoutChecksum, body, |header|);
    assert withoutChecksum[..] == header + body;
    var checksum := CalculateChecksum(withoutChecksum[..]);
    var footer := Le16(checksum);
    var finalMessage := new byte[withoutChecksum.Length + |footer|](_ => 0);
    SetAt(finalMessage, withoutChecksum[..], 0);
    assert finalMessage[..withoutChecksum.Length] == header + body;
    SetAt(finalMessage, footer, withoutChecksum.Length);
    assert finalMessage[..] == header + body + footer;
    m := finalMessage[..];
  }

  // --- Builders (no range checks; typed arrays wrap) ----------------------------

  /** buildAckMessage: ack type via setUint16, status via setUint8. */
  method BuildAck(ackType: int, status: int) returns (m: seq<byte>)
    ensures m == Frame(JsId(Ack), Le16(ackType % U16) + [status % 256])
  {
    m := BuildMessage(JsId(Ack), Le16(ackType % U16) + [status % 256]);
  }

  /** Every buildGet* request: an empty body. */
  method BuildRequest(kind: MessageType) returns (m: seq<byte>)
    ensures |m| == 6 && AxisProtocol.Frames(m, JsId(kind), [])
  {
    m := BuildMessage(JsId(kind), []);
    FrameFrames(JsId(kind), []);
  }

  /** The one-byte setters written through new Uint8Array([v]) (I2C address, home
      direction, motor state, motor brake, start path): v modulo 256. */
  method BuildU8(kind: MessageType, v: int) returns (m: seq<byte>)
    ensures AxisProtocol.Frames(m, JsId(kind), [v % 256])
  {
    m := BuildMessage(JsId(kind), [v % 256]);
    FrameFrames(JsId(kind), [v % 256]);
  }

  /** buildSaveConfiguration: 1 or 0. */
  method BuildSaveConfiguration(saveFlag: bool) returns (m: seq<byte>)
    ensures AxisProtocol.Frames(m, JsId(SaveConfiguration), [if saveFlag then 1 else 0])
  {
    m := BuildMessage(JsId(SaveConfiguration), [if saveFlag then 1 else 0]);
    FrameFrames(JsId(SaveConfiguration), [if saveFlag then 1 else 0]);
  }

  /** buildSetLedColor: each component modulo 256. */
  method BuildSetLedColor(r: int, g: int, b: int) returns (m: seq<byte>)
    ensures AxisProtocol.Frames(m, JsId(SetLedColor), [r % 256, g % 256, b % 256])
  {
    m := BuildMessage(JsId(SetLedColor), [r % 256, g % 256, b % 256]);
    FrameFrames(JsId(SetLedColor), [r % 256, g % 256, b % 256]);
  }

  /** The setUint32 setters (Ethernet address and port, home threshold and speed,
      home, maximum speed, acceleration): v modulo 2^32. */
  method BuildU32(kind: MessageType, v: int) returns (m: seq<byte>)
    ensures AxisProtocol.Frames(m, JsId(kind), Le32(v % U32))
  {
    m := BuildMessage(JsId(kind), Le32(v % U32));
    FrameFrames(JsId(kind), Le32(v % U32));
  }

  /** buildAddLedStep: time via setUint32, the colours via setUint8. */
  method BuildAddLedStep(timeMs: int, r: int, g: int, b: int) returns (m: seq<byte>)
    ensures AxisProtocol.Frames(m, JsId(AddLedStep), Le32(timeMs % U32) + [r % 256, g % 256, b % 256])
  {
    var body := Le32(timeMs % U32) + [r % 256, g % 256, b % 256];
    m := BuildMessage(JsId(AddLedStep), body);
    FrameFrames(JsId(AddLedStep), body);
  }

  /** The setFloat64 setters: the eight bytes taken as given. */
  method BuildDouble(kind: MessageType, packed: seq<byte>) returns (m: seq<byte>)
    requires |packed| == 8
    ensures AxisProtocol.Frames(m, JsId(kind), packed)
  {
    m := BuildMessage(JsId(kind), packed);
    FrameFrames(JsId(kind), packed);
  }

  /** buildSetVelocityAndSteps: two setInt32 fields and a setUint8. */
  method BuildSetVelocityAndSteps(velocity: int, steps: int, positionMode: int) returns (m: seq<byte>)
    ensures AxisProtocol.Frames(m, JsId(SetVelocityAndSteps),
                                Le32(velocity % U32) + Le32(steps % U32) + [positionMode % 256])
  {
    var body := Le32(velocity % U32) + Le32(steps % U32) + [positionMode % 256];
    m := BuildMessage(JsId(SetVelocityAndSteps), body);
    FrameFrames(JsId(SetVelocityAndSteps), body);
  }

  // --- Parsers (length check only) ------------------------------------------------

  /** parseAck: the acked type and the raw status byte of a 9-byte frame. */
  function ParseAck(data: seq<byte>): (r: Option<(nat, byte)>)
    ensures r.Some? <==> |data| == 9
    ensures r.Some? ==> r.value.0 == ReadLe16(data, 4) && r.value.1 == data[6]
  {
    if |data| != 9 then None else Some((ReadLe16(data, 4), data[6]))
  }

  /** The u32 response parsers: the value at offset 4 of a 10-byte frame. */
  function ParseU32(data: seq<byte>): (r: Option<nat>)
    ensures r.Some? <==> |data| == 10
    ensures r.Some? ==> r.value < U32 && Le32(r.value) == data[4..8]
  {
    if |data| != 10 then None
    else
      Le32ReadLe32(data, 4);
      Some(ReadLe32(data, 4))
  }

  /** The u8 response parsers: the byte at offset 4 of a 7-byte frame. */
  function ParseU8(data: seq<byte>): (r: Option<byte>)
    ensures r.Some? <==> |data| == 7
    ensures r.Some? ==> r.value == data[4]
  {
    if |data| != 7 then None else Some(data[4])
  }

  /** parseGetHomedState: whether that byte is non-zero. */
  function ParseHomedState(data: seq<byte>): (r: Option<bool>)
    ensures r.Some? <==> |data| == 7
    ensures r.Some? ==> (r.value <==> data[4] != 0)
  {
    if |data| != 7 then None else Some(data[4] != 0)
  }

  /** parseGetMacAddress: the six bytes at offset 4 of a 12-byte frame. */
  function ParseMac(data: seq<byte>): (r: Option<seq<byte>>)
    ensures r.Some? <==> |data| == 12
    ensures r.Some? ==> r.value == data[4..10]
  {
    if |data| != 12 then None else Some(data[4..10])
  }

  /** parseGetLedColor: r, g, b at offsets 4..6 of a 9-byte frame. */
  function ParseLedColor(data: seq<byte>): (r: Option<(byte, byte, byte)>)
    ensures r.Some? <==> |data| == 9
    ensures r.Some? ==> r.value == (data[4], data[5], data[6])
  {
    if |data| != 9 then None else Some((data[4], data[5], data[6]))
  }

  /** The double response parsers: the eight bytes at offset 4 of a 14-byte frame. */
  function ParseDouble(data: seq<byte>): (r: Option<seq<byte>>)
    ensures r.Some? <==> |data| == 14
    ensures r.Some? ==> r.value == data[4..12]
  {
    if |data| != 14 then None else Some(data[4..12])
  }

  /** A u32 frame built by buildMessage parses back to its value modulo 2^32. */
  lemma ParseU32OfFrame(kind: MessageType, v: int)
    ensures ParseU32(Frame(JsId(kind), Le32(v % U32))) == Some(v % U32)
  {
    U32FrameReads(JsId(kind), v % U32);
  }

  lemma U32FrameReads(msgType: int, u: nat)
    requires u < U32
    ensures ParseU32(Frame(msgType, Le32(u))) == Some(u)
  {
    var m := Frame(msgType, Le32(u));
    assert m[4..8] == Le32(u);
    ReadLe32At(u, m, 4);
  }

  /** A colour frame parses back to its three bytes. */
  lemma ParseLedColorOfFrame(r: byte, g: byte, b: byte)
    ensures ParseLedColor(Frame(JsId(GetLedColor), [r, g, b])) == Some((r, g, b))
  {
    var m := Frame(JsId(GetLedColor), [r, g, b]);
    assert m[4..7] == [r, g, b];
  }

  /** A u8 response frame (buildMessage with one byte) parses back to that byte. */
  lemma ParseU8OfFrame(kind: MessageType, v: int)
    ensures ParseU8(Frame(JsId(kind), [v % 256])) == Some(v % 256)
  {
    var m := Frame(JsId(kind), [v % 256]);
    assert m[4..5] == [v % 256];
  }

  /** A homed-state frame parses back to whether its byte is non-zero. */
  lemma ParseHomedStateOfFrame(v: int)
    ensures ParseHomedState(Frame(JsId(GetHomedState), [v % 256])) == Some(v % 256 != 0)
  {
    var m := Frame(JsId(GetHomedState), [v % 256]);
    assert m[4..5] == [v % 256];
  }

  /** A MAC address frame parses back to its six bytes. */
  lemma ParseMacOfFrame(mac: seq<byte>)
    requires |mac| == 6
    ensures ParseMac(Frame(JsId(GetMacAddress), mac)) == Some(mac)
  {
  }

  /** A double response frame parses back to its eight bytes. */
  lemma ParseDoubleOfFrame(kind: MessageType, d: seq<byte>)
    requires |d| == 8
    ensures ParseDouble(Frame(JsId(kind), d)) == Some(d)
  {
  }

  /** An ack frame parses back to its type and status. */
  lemma ParseAckOfFrame(ackType: int, status: int)
    ensures ParseAck(Frame(JsId(Ack), Le16(ackType % U16) + [status % 256]))
            == Some((ackType % U16, status % 256))
  {
    var m := Frame(JsId(Ack), Le16(ackType % U16) + [status % 256]);
    assert m[4..7] == Le16(ackType % U16) + [status % 256];
    assert m[4..6] == Le16(ackType % U16);
    ReadLe16At(ackType % U16, m, 4);
  }

  /** The parsers accept a frame of the right length whatever its type and
      checksum: a corrupted response is read as if it were valid. */
  lemma ParsersIgnoreTypeAndChecksum(kind: MessageType, v: int, i: nat, x: byte)
    requires i < 4 || 8 <= i < 10
    ensures ParseU32(Frame(JsId(kind), Le32(v % U32))[i := x]) == Some(v % U32)
  {
    var m := Frame(JsId(kind), Le32(v % U32));
    ParseU32OfFrame(kind, v);
    assert m[i := x][4..8] == m[4..8];
  }

  /** parseMessageHeader: type and body size, throwing below 4 bytes. */
  function ParseMessageHeader(data: seq<byte>): (r: Option<(nat, nat)>)
    ensures r.Some? <==> |data| >= 4
    ensures r.Some? ==> AxisProtocol.ParseMessageHeader(data) == Ok(r.value)
  {
    if |data| < 4 then None else Some((ReadLe16(data, 0), ReadLe16(data, 2)))
  }

  /** verifyChecksum: false below 6 bytes, otherwise the footer compared with the
      calculateChecksum loop over the rest. */
  method VerifyChecksum(data: seq<byte>) returns (ok: bool)
    ensures ok == AxisProtocol.VerifyChecksum(data)
  {
    if |data| < 6 {
      return false;
    }
    var received := ReadLe16(data, |data| - 2);
    var calculated := CalculateChecksum(data[..|data| - 2]);
    ok := received == calculated;
  }
}
