/** The host-side Python codec of the current protocol revision.

    A frame is a 4-byte header (message type and body size, both u16
    little-endian), the body, and a 2-byte footer holding the u16 little-endian
    checksum: the sum of the header and body bytes modulo 65536. Builders raise
    ValueError on an out-of-range argument they check themselves and struct.error
    when a packed field does not fit; parsers raise ValueError, and the kind of
    failure records which of their checks failed first. */
module AxisProtocol {
  import opened Wrappers
  import opened Bytes
  import opened Text
  import opened AxisCatalog

  /** The values of the Python MessageTypes class. */
  function PyId(t: MessageType): (r: nat)
    ensures r < U16
  {
    match t
    case Ack => 0x0100
    case GetVersion => 0x0101
    case SetI2CAddress => 0x0102
    case GetI2CAddress => 0x0103
    case SetEthernetAddress => 0x0104
    case GetEthernetAddress => 0x0105
    case SetEthernetPort => 0x0106
    case GetEthernetPort => 0x0107
    case GetMacAddress => 0x0108
    case SaveConfiguration => 0x0109
    case SetLedColor => 0x0200
    case GetLedColor => 0x0201
    case AddLedStep => 0x0202
    case SetHomeDirection => 0x0300
    case GetHomeDirection => 0x0301
    case SetHomeThreshold => 0x0302
    case GetHomeThreshold => 0x0303
    case SetHomeSpeed => 0x0304
    case GetHomeSpeed => 0x0305
    case GetHomedState => 0x0306
    case SetMotorState => 0x0307
    case GetMotorState => 0x0308
    case SetMotorBrake => 0x0309
    case GetMotorBrake => 0x030A
    case SetMaxSpeed => 0x030B
    case GetMaxSpeed => 0x030C
    case SetAcceleration => 0x030D
    case GetAcceleration => 0x030E
    case SetCurrentPosition => 0x030F
    case GetCurrentPosition => 0x0310
    case SetTargetPosition => 0x0311
    case GetTargetPosition => 0x0312
    case SetVelocity => 0x0313
    case GetVelocity => 0x0314
    case Home => 0x0400
    case SetRelativeTargetPosition => 0x0401
    case SetVelocityAndSteps => 0x0402
    case StartPath => 0x0403
  }

  /** The Python ids are the firmware's MessageTypes values. */
  lemma PyIdIsCatalogId(t: MessageType)
    ensures PyId(t) == Id(t)
  {
  }

  /** MESSAGE_LENGTHS: the total frame length of each kind (a Get* entry is the
      length of its response). */
  function MessageLength(t: MessageType): nat
  {
    match t
    case Ack => 9
    case GetVersion => 10
    case SetI2CAddress | GetI2CAddress => 7
    case SetEthernetAddress | GetEthernetAddress => 10
    case SetEthernetPort | GetEthernetPort => 10
    case GetMacAddress => 12
    case SaveConfiguration => 7
    case SetLedColor | GetLedColor => 9
    case AddLedStep => 13
    case SetHomeDirection | GetHomeDirection => 7
    case SetHomeThreshold | GetHomeThreshold => 10
    case SetHomeSpeed | GetHomeSpeed => 10
    case GetHomedState => 7
    case Home => 10
    case SetMotorState | GetMotorState => 7
    case SetMotorBrake | GetMotorBrake => 7
    case SetMaxSpeed | GetMaxSpeed => 10
    case SetAcceleration | GetAcceleration => 10
    case SetCurrentPosition | GetCurrentPosition => 14
    case SetTargetPosition | GetTargetPosition => 14
    case SetRelativeTargetPosition => 14
    case SetVelocity | GetVelocity => 14
    case SetVelocityAndSteps => 15
    case StartPath => 7
  }

  /** Every MESSAGE_LENGTHS entry is the size of the packed struct the firmware
      declares for that kind. */
  lemma MessageLengthIsFrameSize(t: MessageType)
    ensures MessageLength(t) == FrameSize(LayoutOf(t))
  {
    FrameSizes();
  }

  // --- Frames -------------------------------------------------------------------

  /** calculate_checksum: the byte sum kept to 16 bits. */
  function CalculateChecksum(data: seq<byte>): (r: nat)
    ensures r < U16
  {
    Sum(data) % U16
  }

  /** verify_checksum: at least a header and a footer, and the last two bytes
      (little-endian) equal the checksum of everything before them. */
  predicate VerifyChecksum(data: seq<byte>)
  {
    |data| >= 6 && ReadLe16(data, |data| - 2) == CalculateChecksum(data[..|data| - 2])
  }

  /** m is a well-formed frame of type id carrying body. */
  predicate Frames(m: seq<byte>, id: nat, body: seq<byte>)
  {
    |m| == |body| + 6
    && ReadLe16(m, 0) == id && ReadLe16(m, 2) == |body|
    && m[4..4 + |body|] == body
    && VerifyChecksum(m)
  }

  /** create_message: header, body and footer; struct.error when the type or the
      body length does not fit a u16. */
  function CreateMessage(msgType: int, body: seq<byte>): (r: Result<seq<byte>, PyError>)
    ensures r.Ok? <==> 0 <= msgType < U16 && |body| < U16
    ensures r.Err? ==> r.error == StructError
    ensures r.Ok? ==> Frames(r.value, msgType, body)
  {
    if 0 <= msgType < U16 && |body| < U16 then
      var header := Le16(msgType) + Le16(|body|);
      var m := header + body + Le16(CalculateChecksum(header + body));
      CreateMessageFrames(msgType, body, header, m);
      Ok(m)
    else
      Err(StructError)
  }

  lemma CreateMessageFrames(msgType: nat, body: seq<byte>, header: seq<byte>, m: seq<byte>)
    requires msgType < U16 && |body| < U16
    requires header == Le16(msgType) + Le16(|body|)
    requires m == header + body + Le16(CalculateChecksum(header + body))
    ensures Frames(m, msgType, body)
  {
    assert m[0..2] == Le16(msgType);
    ReadLe16At(msgType, m, 0);
    assert m[2..4] == Le16(|body|);
    ReadLe16At(|body|, m, 2);
    assert m[4..4 + |body|] == body;
    var c := CalculateChecksum(header + body);
    assert m[|m| - 2..|m|] == Le16(c);
    ReadLe16At(c, m, |m| - 2);
    assert m[..|m| - 2] == header + body;
  }

  /** A frame is determined by its type and body: the header and footer bytes are
      fixed by them. */
  lemma FramesUnique(m1: seq<byte>, m2: seq<byte>, id: nat, body: seq<byte>)
    requires Frames(m1, id, body) && Frames(m2, id, body)
    ensures m1 == m2
  {
    Le16ReadLe16(m1, 0);
    Le16ReadLe16(m2, 0);
    Le16ReadLe16(m1, 2);
    Le16ReadLe16(m2, 2);
    assert m1[..4] == m2[..4] by {
      assert m1[..4] == m1[0..2] + m1[2..4];
      assert m2[..4] == m2[0..2] + m2[2..4];
    }
    assert m1[..|m1| - 2] == m2[..|m2| - 2] by {
      assert m1[..|m1| - 2] == m1[..4] + m1[4..4 + |body|];
      assert m2[..|m2| - 2] == m2[..4] + m2[4..4 + |body|];
    }
    Le16ReadLe16(m1, |m1| - 2);
    Le16ReadLe16(m2, |m2| - 2);
    assert m1 == m1[..|m1| - 2] + m1[|m1| - 2..|m1|];
    assert m2 == m2[..|m2| - 2] + m2[|m2| - 2..|m2|];
  }

  lemma SumUpdate(s: seq<byte>, i: nat, b: byte)
    requires i < |s|
    ensures Sum(s[i := b]) == Sum(s) - s[i] + b
  {
    assert s == s[..i] + [s[i]] + s[i + 1..];
    assert s[i := b] == s[..i] + [b] + s[i + 1..];
    SumAppend(s[..i] + [s[i]], s[i + 1..]);
    SumAppend(s[..i], [s[i]]);
    SumAppend(s[..i] + [b], s[i + 1..]);
    SumAppend(s[..i], [b]);
    assert Sum([s[i]]) == s[i] by { assert [s[i]][..0] == []; }
    assert Sum([b]) == b by { assert [b][..0] == []; }
  }

  /** Changing any single byte of a frame that passes verify_checksum makes it
      fail: the checksum detects every one-byte corruption. */
  lemma SingleByteCorruptionDetected(m: seq<byte>, i: nat, b: byte)
    requires VerifyChecksum(m) && i < |m| && b != m[i]
    ensures !VerifyChecksum(m[i := b])
  {
    var n := |m| - 2;
    var m2 := m[i := b];
    if i < n {
      assert m2[..n] == m[..n][i := b];
      SumUpdate(m[..n], i, b);
      var s := Sum(m[..n]);
      var d := b - m[i];
      assert Sum(m2[..n]) == s + d;
      assert ReadLe16(m2, n) == ReadLe16(m, n);
      if (s + d) % U16 == s % U16 {
        ModUnique(s + d, U16, (s + d) / U16, s % U16);
        ModUnique(s, U16, s / U16, s % U16);
        assert d == U16 * ((s + d) / U16 - s / U16);
        MulSmall(U16, (s + d) / U16 - s / U16);
        assert false;
      }
    } else {
      assert m2[..n] == m[..n];
      Le16ReadLe16(m, n);
      Le16ReadLe16(m2, n);
      assert m2[n..n + 2] != m[n..n + 2] by {
        assert m2[n..n + 2][i - n] == b;
      }
    }
  }

  /** parse_message_header: the type and body size, or ValueError below 4 bytes. */
  function ParseMessageHeader(data: seq<byte>): (r: Result<(nat, nat), PyError>)
    ensures r.Err? <==> |data| < 4
    ensures r.Err? ==> r.error == ValueError
    ensures r.Ok? ==> r.value.0 < U16 && r.value.1 < U16
  {
    if |data| < 4 then Err(ValueError) else Ok((ReadLe16(data, 0), ReadLe16(data, 2)))
  }

  /** The header parser returns what create_message wrote. */
  lemma ParseHeaderOfCreated(msgType: int, body: seq<byte>)
    requires CreateMessage(msgType, body).Ok?
    ensures ParseMessageHeader(CreateMessage(msgType, body).value) == Ok((msgType, |body|))
  {
  }

  /** create_message output passes verify_checksum. */
  lemma VerifyCreated(msgType: int, body: seq<byte>)
    requires CreateMessage(msgType, body).Ok?
    ensures VerifyChecksum(CreateMessage(msgType, body).value)
  {
  }

  // --- Parsers --------------------------------------------------------------------

  /** Which check of a parse_* function raised (all are ValueError). */
  datatype ParseFailure = WrongLength | BadChecksum | BadFormat | BadEnumValue

  /** The checks every parse_* function makes, in order: the exact length, the
      checksum, then the type and body size; the body on success. */
  function ParseFrame(data: seq<byte>, kind: MessageType, bodySize: nat): (r: Result<seq<byte>, ParseFailure>)
    ensures r.Ok? <==> |data| == bodySize + 6 && VerifyChecksum(data)
                        && ReadLe16(data, 0) == PyId(kind) && ReadLe16(data, 2) == bodySize
    ensures r.Ok? ==> Frames(data, PyId(kind), r.value)
    ensures r == Err(BadChecksum) ==> |data| == bodySize + 6
    ensures r == Err(BadFormat) ==> |data| == bodySize + 6 && VerifyChecksum(data)
    ensures r.Err? ==> r.error != BadEnumValue
  {
    if |data| != bodySize + 6 then Err(WrongLength)
    else if !VerifyChecksum(data) then Err(BadChecksum)
    else if ReadLe16(data, 0) != PyId(kind) || ReadLe16(data, 2) != bodySize then Err(BadFormat)
    else Ok(data[4..4 + bodySize])
  }

  /** Parsing a frame create_message built for the expected kind returns its body. */
  lemma ParseFrameOfCreated(kind: MessageType, body: seq<byte>)
    requires |body| < U16
    ensures ParseFrame(CreateMessage(PyId(kind), body).value, kind, |body|) == Ok(body)
  {
  }

  /** parse_ack_message: the acknowledged type and the status. */
  function ParseAck(data: seq<byte>): (r: Result<(nat, StatusCode), ParseFailure>)
    ensures r.Ok? ==> |data| == 9 && VerifyChecksum(data) && ReadLe16(data, 0) == PyId(Ack)
    ensures r.Ok? ==> r.value.0 == ReadLe16(data, 4) && r.value.1.Code() == data[6]
  {
    var f := ParseFrame(data, Ack, 3);
    if f.Err? then Err(f.error)
    else
      match StatusFromCode(f.value[2])
      case None => Err(BadEnumValue)
      case Some(s) => Ok((ReadLe16(f.value, 0), s))
  }

  /** The response parsers whose body is one u32 (version, Ethernet address and
      port, home threshold and speed, maximum speed, acceleration). */
  function ParseU32Response(kind: MessageType, data: seq<byte>): (r: Result<nat, ParseFailure>)
    ensures r.Ok? ==> Frames(data, PyId(kind), Le32(r.value)) && r.value < U32
  {
    var f := ParseFrame(data, kind, 4);
    if f.Err? then Err(f.error)
    else
      Le32ReadLe32(f.value, 0);
      assert f.value == f.value[0..4];
      Ok(ReadLe32(f.value, 0))
  }

  /** The response parsers whose body is one raw byte (I2C address). */
  function ParseU8Response(kind: MessageType, data: seq<byte>): (r: Result<byte, ParseFailure>)
    ensures r.Ok? ==> Frames(data, PyId(kind), [r.value])
  {
    var f := ParseFrame(data, kind, 1);
    if f.Err? then Err(f.error) else Ok(f.value[0])
  }

  /** parse_get_homed_state_response: the byte read as a truth value. */
  function ParseHomedStateResponse(data: seq<byte>): (r: Result<bool, ParseFailure>)
    ensures r.Ok? <==> ParseU8Response(GetHomedState, data).Ok?
    ensures r.Ok? ==> (r.value <==> data[4] != 0)
  {
    var f := ParseU8Response(GetHomedState, data);
    if f.Err? then Err(f.error) else Ok(f.value != 0)
  }

  /** parse_get_home_direction_response: HomeDirection(byte). */
  function ParseHomeDirectionResponse(data: seq<byte>): (r: Result<HomeDirection, ParseFailure>)
    ensures r.Ok? ==> Frames(data, PyId(GetHomeDirection), [r.value.Code()])
    ensures r == Err(BadEnumValue) <==> ParseU8Response(GetHomeDirection, data).Ok? && data[4] >= 2
  {
    var f := ParseU8Response(GetHomeDirection, data);
    if f.Err? then Err(f.error)
    else match HomeDirectionFromCode(f.value)
      case None => Err(BadEnumValue)
      case Some(d) => Ok(d)
  }

  /** parse_get_motor_state_response: MotorStates(byte). */
  function ParseMotorStateResponse(data: seq<byte>): (r: Result<MotorState, ParseFailure>)
    ensures r.Ok? ==> Frames(data, PyId(GetMotorState), [r.value.Code()])
    ensures r == Err(BadEnumValue) <==> ParseU8Response(GetMotorState, data).Ok? && data[4] >= 6
  {
    var f := ParseU8Response(GetMotorState, data);
    if f.Err? then Err(f.error)
    else match MotorStateFromCode(f.value)
      case None => Err(BadEnumValue)
      case Some(s) => Ok(s)
  }

  /** parse_get_motor_brake_response: MotorBrake(byte). */
  function ParseMotorBrakeResponse(data: seq<byte>): (r: Result<MotorBrake, ParseFailure>)
    ensures r.Ok? ==> Frames(data, PyId(GetMotorBrake), [r.value.Code()])
    ensures r == Err(BadEnumValue) <==> ParseU8Response(GetMotorBrake, data).Ok? && data[4] >= 4
  {
    var f := ParseU8Response(GetMotorBrake, data);
    if f.Err? then Err(f.error)
    else match MotorBrakeFromCode(f.value)
      case None => Err(BadEnumValue)
      case Some(b) => Ok(b)
  }

  /** parse_get_mac_address_response: the six address bytes in wire order. */
  function ParseMacResponse(data: seq<byte>): (r: Result<seq<byte>, ParseFailure>)
    ensures r.Ok? ==> |r.value| == 6 && Frames(data, PyId(GetMacAddress), r.value)
  {
    ParseFrame(data, GetMacAddress, 6)
  }

  /** parse_get_led_color_response: (red, green, blue). */
  function ParseLedColorResponse(data: seq<byte>): (r: Result<(byte, byte, byte), ParseFailure>)
    ensures r.Ok? ==> Frames(data, PyId(GetLedColor), [r.value.0, r.value.1, r.value.2])
  {
    var f := ParseFrame(data, GetLedColor, 3);
    if f.Err? then Err(f.error)
    else
      assert f.value == [f.value[0], f.value[1], f.value[2]];
      Ok((f.value[0], f.value[1], f.value[2]))
  }

  /** The response parsers whose body is one double (current and target position,
      velocity); the eight bytes are kept as they are. */
  function ParseDoubleResponse(kind: MessageType, data: seq<byte>): (r: Result<seq<byte>, ParseFailure>)
    ensures r.Ok? ==> |r.value| == 8 && Frames(data, PyId(kind), r.value)
  {
    ParseFrame(data, kind, 8)
  }

  // --- Builders ---------------------------------------------------------------------

  /** Every Get* request builder: an empty body. */
  function RequestMessage(kind: MessageType): (r: Result<seq<byte>, PyError>)
    ensures r.Ok? && Frames(r.value, PyId(kind), []) && |r.value| == 6
  {
    CreateMessage(PyId(kind), [])
  }

  /** AckMessage: the acknowledged type (u16) and the status byte. */
  function AckMessage(ackType: int, status: StatusCode): (r: Result<seq<byte>, PyError>)
    ensures r.Ok? <==> 0 <= ackType < U16
    ensures r.Err? ==> r.error == StructError
    ensures r.Ok? ==> Frames(r.value, PyId(Ack), Le16(ackType) + [status.Code()])
    ensures r.Ok? ==> |r.value| == MessageLength(Ack)
  {
    if 0 <= ackType < U16 then CreateMessage(PyId(Ack), Le16(ackType) + [status.Code()])
    else Err(StructError)
  }

  /** parse_ack_message inverts AckMessage. */
  lemma ParseAckOfAckMessage(ackType: nat, status: StatusCode)
    requires ackType < U16
    ensures ParseAck(AckMessage(ackType, status).value) == Ok((ackType, status))
  {
    var body := Le16(ackType) + [status.Code()];
    var m := AckMessage(ackType, status).value;
    ParseFrameOfCreated(Ack, body);
    assert m[4..6] == Le16(ackType);
    ReadLe16At(ackType, m, 4);
    assert ParseFrame(m, Ack, 3) == Ok(body);
    assert body[0..2] == Le16(ackType);
    ReadLe16At(ackType, body, 0);
  }

  /** SetI2CAddressMessage: ValueError outside 0..127. */
  function SetI2CAddressMessage(address: int): (r: Result<seq<byte>, PyError>)
    ensures r.Ok? <==> 0 <= address <= 127
    ensures r.Err? ==> r.error == ValueError
    ensures r.Ok? ==> Frames(r.value, PyId(SetI2CAddress), [address])
                      && |r.value| == MessageLength(SetI2CAddress)
  {
    if !(0 <= address <= 127) then Err(ValueError)
    else CreateMessage(PyId(SetI2CAddress), [address])
  }

  /** SetEthernetAddressMessage: '<I' of the address, struct.error outside u32. */
  function SetEthernetAddressMessage(ip: int): (r: Result<seq<byte>, PyError>)
    ensures r.Ok? <==> 0 <= ip < U32
    ensures r.Err? ==> r.error == StructError
    ensures r.Ok? ==> Frames(r.value, PyId(SetEthernetAddress), Le32(ip))
                      && |r.value| == MessageLength(SetEthernetAddress)
  {
    SetU32Message(SetEthernetAddress, ip)
  }

  /** The '<I' setters without a range check of their own (Ethernet address, home
      threshold and speed, home, maximum speed, acceleration). */
  function SetU32Message(kind: MessageType, v: int): (r: Result<seq<byte>, PyError>)
    ensures r.Ok? <==> 0 <= v < U32
    ensures r.Err? ==> r.error == StructError
    ensures r.Ok? ==> Frames(r.value, PyId(kind), Le32(v)) && |r.value| == 10
  {
    if 0 <= v < U32 then CreateMessage(PyId(kind), Le32(v)) else Err(StructError)
  }

  /** A u32 response built by create_message parses back to its value. */
  lemma ParseU32OfCreated(kind: MessageType, v: nat)
    requires v < U32
    ensures ParseU32Response(kind, CreateMessage(PyId(kind), Le32(v)).value) == Ok(v)
  {
    var body := Le32(v);
    ParseFrameOfCreated(kind, body);
    assert body[0..4] == Le32(v);
    ReadLe32At(v, body, 0);
  }

  /** SetEthernetPortMessage: ValueError outside 0..65535, then '<I'. */
  function SetEthernetPortMessage(port: int): (r: Result<seq<byte>, PyError>)
    ensures r.Ok? <==> 0 <= port <= 65535
    ensures r.Err? ==> r.error == ValueError
    ensures r.Ok? ==> Frames(r.value, PyId(SetEthernetPort), Le32(port))
                      && |r.value| == MessageLength(SetEthernetPort)
  {
    if !(0 <= port <= 65535) then Err(ValueError)
    else CreateMessage(PyId(SetEthernetPort), Le32(port))
  }

  /** SaveConfigurationMessage: body 1 to save, 0 otherwise. */
  function SaveConfigurationMessage(save: bool): (r: Result<seq<byte>, PyError>)
    ensures r.Ok? && Frames(r.value, PyId(SaveConfiguration), [if save then 1 else 0])
    ensures |r.value| == MessageLength(SaveConfiguration)
  {
    CreateMessage(PyId(SaveConfiguration), [if save then 1 else 0])
  }

  predicate IsByte(x: int) { 0 <= x <= 255 }

  /** AddLedStepMessage: ValueError unless time_ms fits a u32 and each colour a
      byte; body '<IBBB'. */
  function AddLedStepMessage(timeMs: int, red: int, green: int, blue: int): (r: Result<seq<byte>, PyError>)
    ensures r.Ok? <==> 0 <= timeMs < U32 && IsByte(red) && IsByte(green) && IsByte(blue)
    ensures r.Err? ==> r.error == ValueError
    ensures r.Ok? ==> Frames(r.value, PyId(AddLedStep), Le32(timeMs) + [red, green, blue])
                      && |r.value| == MessageLength(AddLedStep)
  {
    if timeMs < 0 || timeMs > 0xFFFF_FFFF then Err(ValueError)
    else if !(IsByte(red) && IsByte(green) && IsByte(blue)) then Err(ValueError)
    else CreateMessage(PyId(AddLedStep), Le32(timeMs) + [red, green, blue])
  }

  /** SetLedColorMessage: ValueError unless each colour is a byte. */
  function SetLedColorMessage(red: int, green: int, blue: int): (r: Result<seq<byte>, PyError>)
    ensures r.Ok? <==> IsByte(red) && IsByte(green) && IsByte(blue)
    ensures r.Err? ==> r.error == ValueError
    ensures r.Ok? ==> Frames(r.value, PyId(SetLedColor), [red, green, blue])
                      && |r.value| == MessageLength(SetLedColor)
  {
    if !(IsByte(red) && IsByte(green) && IsByte(blue)) then Err(ValueError)
    else CreateMessage(PyId(SetLedColor), [red, green, blue])
  }

  /** A colour response built by create_message parses back to its three bytes. */
  lemma ParseLedColorOfCreated(red: byte, green: byte, blue: byte)
    ensures ParseLedColorResponse(CreateMessage(PyId(GetLedColor), [red, green, blue]).value)
            == Ok((red, green, blue))
  {
    ParseFrameOfCreated(GetLedColor, [red, green, blue]);
  }

  /** A MAC response built by create_message parses back to its six bytes. */
  lemma ParseMacOfCreated(mac: seq<byte>)
    requires |mac| == 6
    ensures ParseMacResponse(CreateMessage(PyId(GetMacAddress), mac).value) == Ok(mac)
  {
    ParseFrameOfCreated(GetMacAddress, mac);
  }

  /** The enumeration setters (home direction, motor state, motor brake): '<B' of
      the member's value. */
  function SetCodeMessage(kind: MessageType, code: nat): (r: Result<seq<byte>, PyError>)
    requires code < 256
    ensures r.Ok? && Frames(r.value, PyId(kind), [code]) && |r.value| == 7
  {
    CreateMessage(PyId(kind), [code])
  }

  /** The double setters (current, target and relative target position,
      velocity): the eight bytes of '<d', taken as given. */
  function SetDoubleMessage(kind: MessageType, packed: seq<byte>): (r: Result<seq<byte>, PyError>)
    requires |packed| == 8
    ensures r.Ok? && Frames(r.value, PyId(kind), packed) && |r.value| == 14
  {
    CreateMessage(PyId(kind), packed)
  }

  const INT32_MIN: int := -0x8000_0000
  const INT32_MAX: int := 0x7FFF_FFFF

  /** '<iiB': velocity and steps as two's complement int32, then the mode. */
  function VelocityAndStepsBody(velocity: int, steps: int, mode: PositionMode): (b: seq<byte>)
    requires INT32_MIN <= velocity <= INT32_MAX && INT32_MIN <= steps <= INT32_MAX
    ensures |b| == 9
  {
    Le32(Unsigned(velocity, 4)) + Le32(Unsigned(steps, 4)) + [mode.Code()]
  }

  /** SetVelocityAndStepsMessage: '<iiB' of velocity, steps and the position
      mode; struct.error when velocity or steps is outside int32. */
  function SetVelocityAndStepsMessage(velocity: int, steps: int, mode: PositionMode): (r: Result<seq<byte>, PyError>)
    ensures r.Ok? <==> INT32_MIN <= velocity <= INT32_MAX && INT32_MIN <= steps <= INT32_MAX
    ensures r.Err? ==> r.error == StructError
    ensures r.Ok? ==> Frames(r.value, PyId(SetVelocityAndSteps), VelocityAndStepsBody(velocity, steps, mode))
                      && |r.value| == MessageLength(SetVelocityAndSteps)
  {
    if INT32_MIN <= velocity <= INT32_MAX && INT32_MIN <= steps <= INT32_MAX then
      CreateMessage(PyId(SetVelocityAndSteps), VelocityAndStepsBody(velocity, steps, mode))
    else Err(StructError)
  }

  /** The velocity and step count of a SetVelocityAndSteps frame read back, as
      signed 32-bit values, to the ones it was built from. */
  lemma VelocityAndStepsRoundTrip(velocity: int, steps: int, mode: PositionMode)
    requires INT32_MIN <= velocity <= INT32_MAX && INT32_MIN <= steps <= INT32_MAX
    ensures var m := SetVelocityAndStepsMessage(velocity, steps, mode).value;
            Signed(ReadLe32(m, 4), 4) == velocity && Signed(ReadLe32(m, 8), 4) == steps
            && m[12] == mode.Code()
  {
    var m := SetVelocityAndStepsMessage(velocity, steps, mode).value;
    var body := VelocityAndStepsBody(velocity, steps, mode);
    assert m[4..13] == body;
    assert m[4..8] == body[0..4] == Le32(Unsigned(velocity, 4));
    assert m[8..12] == body[4..8] == Le32(Unsigned(steps, 4));
    SignedLe32(velocity, m, 4);
    SignedLe32(steps, m, 8);
  }

  /** An int32 written in two's complement reads back as itself. */
  lemma SignedLe32(v: int, s: seq<byte>, i: nat)
    requires INT32_MIN <= v <= INT32_MAX
    requires i + 4 <= |s| && s[i..i + 4] == Le32(Unsigned(v, 4))
    ensures Signed(ReadLe32(s, i), 4) == v
  {
    assert Pow256(4) == U32;
    ReadLe32At(Unsigned(v, 4), s, i);
    SignedUnsigned(v, 4);
  }

  /** StartPathMessage: ValueError outside 0..255. */
  function StartPathMessage(pathId: int): (r: Result<seq<byte>, PyError>)
    ensures r.Ok? <==> 0 <= pathId <= 255
    ensures r.Err? ==> r.error == ValueError
    ensures r.Ok? ==> Frames(r.value, PyId(StartPath), [pathId])
                      && |r.value| == MessageLength(StartPath)
  {
    if !(0 <= pathId <= 255) then Err(ValueError)
    else CreateMessage(PyId(StartPath), [pathId])
  }

  // --- Dotted addresses -------------------------------------------------------------

  /** The characters int() skips around its literal. Non-ASCII whitespace
      becomes a space before parsing, but ASCII characters are kept as they are
      and only ASCII whitespace is skipped, so unlike str.strip() it does not
      skip the separators \x1c to \x1f. */
  predicate IsIntSpace(c: char)
  {
    || c == ' ' || '\t' <= c <= '\r'
    || c == '\U{0085}' || c == '\U{00A0}' || c == '\U{1680}' || '\U{2000}' <= c <= '\U{200A}'
    || c == '\U{2028}' || c == '\U{2029}' || c == '\U{202F}' || c == '\U{205F}' || c == '\U{3000}'
  }

  const INT_WHITESPACE: set<char> := set c: char | IsIntSpace(c)

  /** int() skips what str.strip() does except the four ASCII separators. */
  lemma IntSpaceIsStripSpace(c: char)
    ensures c in INT_WHITESPACE <==> c in WHITESPACE && !('\U{001C}' <= c <= '\U{001F}')
  {
  }

  /** The digits of a base-10 int() literal: decimal digits, with single
      underscores allowed between two of them. */
  predicate UnderscoredDigits(s: string)
  {
    |s| >= 1 && IsDigit(s[0])
    && (|s| == 1 || UnderscoredDigits(if s[1] == '_' then s[2..] else s[1..]))
  }

  /** Every character of such a literal is a digit or an underscore. */
  lemma {:induction false} UnderscoredDigitsChars(s: string, i: nat)
    requires UnderscoredDigits(s) && i < |s|
    ensures IsDigit(s[i]) || s[i] == '_'
  {
    if i > 0 {
      if s[1] == '_' {
        if i > 1 {
          UnderscoredDigitsChars(s[2..], i - 2);
        }
      } else {
        UnderscoredDigitsChars(s[1..], i - 1);
      }
    }
  }

  /** The digits of s, underscores removed. */
  function DropUnderscores(s: string): (r: string)
    ensures AllDigits(r) && |r| <= |s|
    ensures AllDigits(s) ==> r == s
  {
    if |s| == 0 then []
    else if IsDigit(s[0]) then [s[0]] + DropUnderscores(s[1..])
    else DropUnderscores(s[1..])
  }

  /** int(x) with base 10: surrounding whitespace, an optional sign and
      underscore-separated decimal digits; None where int() raises ValueError. */
  function PyInt(s: string): (r: Option<int>)
    ensures Canonical(s) ==> r == Some(DecimalValue(s))
  {
    CanonicalLiteral(s);
    IntLiteral(Strip(s, INT_WHITESPACE))
  }

  /** What int() makes of the text left once whitespace is stripped. */
  function IntLiteral(t: string): (r: Option<int>)
    ensures UnderscoredDigits(t) ==> r == Some(DecimalValue(DropUnderscores(t)))
    ensures |t| == 0 ==> r == None
  {
    if |t| >= 1 && (t[0] == '+' || t[0] == '-') then
      if UnderscoredDigits(t[1..]) then
        var v: int := DecimalValue(DropUnderscores(t[1..]));
        Some(if t[0] == '-' then -v else v)
      else None
    else if UnderscoredDigits(t) then Some(DecimalValue(DropUnderscores(t)))
    else None
  }

  /** Whitespace around a literal does not change what int() reads. */
  lemma PyIntPadded(pre: string, s: string, post: string)
    requires |s| > 0 && s[0] !in INT_WHITESPACE && s[|s| - 1] !in INT_WHITESPACE
    requires forall k :: 0 <= k < |pre| ==> pre[k] in INT_WHITESPACE
    requires forall k :: 0 <= k < |post| ==> post[k] in INT_WHITESPACE
    ensures PyInt(pre + s + post) == PyInt(s)
  {
    StripPadding(pre, s, post, INT_WHITESPACE);
    StripKeeps(s, INT_WHITESPACE);
  }

  /** An underscore between two runs of digits is skipped: int("1_0") is 10. */
  lemma PyIntUnderscore(a: string, b: string)
    requires |a| >= 1 && AllDigits(a) && |b| >= 1 && AllDigits(b)
    ensures PyInt(a + "_" + b) == Some(DecimalValue(a + b))
  {
    var s := a + "_" + b;
    assert s[0] == a[0] && s[|s| - 1] == b[|b| - 1];
    StripKeeps(s, INT_WHITESPACE);
    UnderscoredJoin(a, b);
    DropUnderscoresSplit(a, b);
    PyIntOfLiteral(s);
  }

  /** An unsigned literal with nothing to strip reads as its digits. */
  lemma PyIntOfLiteral(t: string)
    requires UnderscoredDigits(t) && Strip(t, INT_WHITESPACE) == t
    ensures PyInt(t) == Some(DecimalValue(DropUnderscores(t)))
  {
    assert IsDigit(t[0]);
  }

  /** A canonical numeral is its own strip and an int() literal of itself. */
  lemma CanonicalLiteral(s: string)
    ensures Canonical(s) ==> Strip(s, INT_WHITESPACE) == s && UnderscoredDigits(s)
                             && DropUnderscores(s) == s
  {
    if Canonical(s) {
      StripKeeps(s, INT_WHITESPACE);
      DigitsUnderscored(s);
    }
  }

  lemma {:induction false} DigitsUnderscored(s: string)
    requires |s| >= 1 && AllDigits(s)
    ensures UnderscoredDigits(s)
  {
    if |s| > 1 {
      DigitsUnderscored(s[1..]);
    }
  }

  lemma {:induction false} UnderscoredJoin(a: string, b: string)
    requires |a| >= 1 && AllDigits(a) && |b| >= 1 && AllDigits(b)
    ensures UnderscoredDigits(a + "_" + b)
  {
    var s := a + "_" + b;
    if |a| == 1 {
      assert s[1] == '_' && s[2..] == b;
      DigitsUnderscored(b);
    } else {
      assert s[1] == a[1] && s[1..] == a[1..] + "_" + b;
      UnderscoredJoin(a[1..], b);
    }
  }

  lemma {:induction false} DropUnderscoresSplit(a: string, b: string)
    requires AllDigits(a) && AllDigits(b)
    ensures DropUnderscores(a + "_" + b) == a + b
  {
    var s := a + "_" + b;
    if |a| == 0 {
      assert s[0] == '_' && s[1..] == b;
    } else {
      assert s[0] == a[0] && s[1..] == a[1..] + "_" + b;
      DropUnderscoresSplit(a[1..], b);
      assert a + b == [a[0]] + (a[1..] + b);
    }
  }

  /** int() rejects text holding any character other than a digit, an
      underscore, a sign or the whitespace it skips, such as '.' or a letter. */
  lemma PyIntRejects(s: string, i: nat)
    requires i < |s| && !IsDigit(s[i]) && s[i] !in {'_', '+', '-'} && s[i] !in INT_WHITESPACE
    ensures PyInt(s) == None
  {
    StripMiddle(s, INT_WHITESPACE);
    var t, j := Strip(s, INT_WHITESPACE), |s| - |TrimStart(s, INT_WHITESPACE)|;
    assert j <= i < j + |t|;
    assert t[i - j] == s[i];
    if |t| >= 1 && (t[0] == '+' || t[0] == '-') {
      assert i - j >= 1;
      assert t[1..][i - j - 1] == s[i];
      if UnderscoredDigits(t[1..]) {
        UnderscoredDigitsChars(t[1..], i - j - 1);
      }
    } else if UnderscoredDigits(t) {
      UnderscoredDigitsChars(t, i - j);
    }
  }

  /** [int(x) for x in parts], None at the first part int() rejects. */
  function PyInts(parts: seq<string>): (r: Option<seq<int>>)
    ensures r.Some? ==> |r.value| == |parts|
                        && forall i :: 0 <= i < |parts| ==> PyInt(parts[i]) == Some(r.value[i])
    ensures r.None? <==> exists i :: 0 <= i < |parts| && PyInt(parts[i]).None?
  {
    if |parts| == 0 then Some([])
    else
      match PyInt(parts[0])
      case None => None
      case Some(v) =>
        var rest := PyInts(parts[1..]);
        if rest.None? then None else Some([v] + rest.value)
  }

  lemma PyIntsSingle(x: string, v: int)
    requires PyInt(x) == Some(v)
    ensures PyInts([x]) == Some([v])
  {
    assert [x][1..] == [];
    assert PyInts([]) == Some([]);
    assert [v] + [] == [v];
  }

  predicate AllOctets(p: seq<int>)
  {
    forall i :: 0 <= i < |p| ==> 0 <= p[i] <= 255
  }

  /** m is the SetEthernetAddress message for the four octets p, the first
      one in the most significant byte (last on the wire). */
  predicate AddressMessage(m: seq<byte>, p: seq<int>)
  {
    |p| == 4 && AllOctets(p) && Frames(m, PyId(SetEthernetAddress), [p[3], p[2], p[1], p[0]])
  }

  /** SetEthernetAddressFromString: exactly four dotted integers 0..255, the first
      one in the most significant byte. */
  function SetEthernetAddressFromString(ipString: string): (r: Result<seq<byte>, PyError>)
    ensures |Split(ipString, '.') | != 4 ==> r == Err(ValueError)
    ensures r.Err? ==> r.error == ValueError
    ensures r.Ok? <==> PyInts(Split(ipString, '.')).Some? && |PyInts(Split(ipString, '.')).value| == 4
                       && AllOctets(PyInts(Split(ipString, '.')).value)
    ensures r.Ok? ==> AddressMessage(r.value, PyInts(Split(ipString, '.')).value)
  {
    AddressOfInts(PyInts(Split(ipString, '.')))
  }

  /** The message for the integers of the fields: ValueError unless there are
      four and each is an octet. */
  function AddressOfInts(ints: Option<seq<int>>): (r: Result<seq<byte>, PyError>)
    ensures r.Err? ==> r.error == ValueError
    ensures r.Ok? <==> ints.Some? && |ints.value| == 4 && AllOctets(ints.value)
    ensures r.Ok? ==> AddressMessage(r.value, ints.value)
  {
    if ints.None? then Err(ValueError)
    else
      var p := ints.value;
      if |p| != 4 || !AllOctets(p) then Err(ValueError)
      else Ok(OctetsAddressMessage(p[0], p[1], p[2], p[3]))
  }

  /** (a << 24) | (b << 16) | (c << 8) | d sent as SetEthernetAddress, the fields
      being disjoint. */
  function OctetsAddressMessage(a: byte, b: byte, c: byte, d: byte): (m: seq<byte>)
    ensures Frames(m, PyId(SetEthernetAddress), [d, c, b, a])
  {
    var ip := a * 0x100_0000 + b * 0x1_0000 + c * 0x100 + d;
    Le32OfOctets(a, b, c, d);
    SetEthernetAddressMessage(ip).value
  }

  lemma Le32OfOctets(a: byte, b: byte, c: byte, d: byte)
    ensures Le32(a * 0x100_0000 + b * 0x1_0000 + c * 0x100 + d) == [d, c, b, a]
  {
    var v := a * 0x100_0000 + b * 0x1_0000 + c * 0x100 + d;
    var x := a * 0x1_0000 + b * 0x100 + c;
    ModUnique(v, 256, x, d);
    var y := a * 0x100 + b;
    ModUnique(x, 256, y, c);
    ModUnique(y, 256, a, b);
  }

  lemma PyIntOfFormat(n: nat)
    ensures PyInt(FormatDecimal(n)) == Some(n as int)
  {
    FormatDecimalCanonical(n);
    DecimalValueFormat(n);
  }

  lemma PyIntsCons(x: string, rest: seq<string>, v: int, vs: seq<int>)
    requires PyInt(x) == Some(v) && PyInts(rest) == Some(vs)
    ensures PyInts([x] + rest) == Some([v] + vs)
  {
    assert ([x] + rest)[1..] == rest;
  }

  /** The four fields of a dotted quad read back as its octets. */
  lemma PyIntsOfDotted(a: byte, b: byte, c: byte, d: byte)
    ensures PyInts(Split(Dotted(a, b, c, d), '.')) == Some([a as int, b as int, c as int, d as int])
  {
    DottedFields(a, b, c, d);
    PyIntOfFormat(a);
    PyIntOfFormat(b);
    PyIntOfFormat(c);
    PyIntOfFormat(d);
    PyIntsQuad(FormatDecimal(a), FormatDecimal(b), FormatDecimal(c), FormatDecimal(d), a, b, c, d);
  }

  /** Four parts int() accepts convert to their four values. */
  lemma PyIntsQuad(w: string, x: string, y: string, z: string, a: int, b: int, c: int, d: int)
    requires PyInt(w) == Some(a) && PyInt(x) == Some(b) && PyInt(y) == Some(c) && PyInt(z) == Some(d)
    ensures PyInts([w, x, y, z]) == Some([a, b, c, d])
  {
    PyIntsSingle(z, d);
    PyIntsCons(y, [z], c, [d]);
    PyIntsCons(x, [y] + [z], b, [c] + [d]);
    PyIntsCons(w, [x] + ([y] + [z]), a, [b] + ([c] + [d]));
    assert [w] + ([x] + ([y] + [z])) == [w, x, y, z];
    assert [a] + ([b] + ([c] + [d])) == [a, b, c, d];
  }

  /** A dotted quad of decimal octets is accepted, with the first octet in the most
      significant byte (last on the wire). */
  lemma EthernetAddressFromDotted(a: byte, b: byte, c: byte, d: byte)
    ensures SetEthernetAddressFromString(Dotted(a, b, c, d)).Ok?
    ensures Frames(SetEthernetAddressFromString(Dotted(a, b, c, d)).value,
                   PyId(SetEthernetAddress), [d, c, b, a])
  {
    PyIntsOfDotted(a, b, c, d);
    var p := [a as int, b as int, c as int, d as int];
    assert AllOctets(p);
  }

  /** Four dot-free fields that int() reads as octets make the address with
      the first field most significant. */
  lemma AddressFromFields(w: string, x: string, y: string, z: string, p: seq<int>)
    requires '.' !in w && '.' !in x && '.' !in y && '.' !in z
    requires |p| == 4 && AllOctets(p) && PyInts([w, x, y, z]) == Some(p)
    ensures SetEthernetAddressFromString(Join([w, x, y, z], '.')) == Ok(OctetsAddressMessage(p[0], p[1], p[2], p[3]))
  {
    SplitJoin([w, x, y, z], '.');
    AddressFromInts(Join([w, x, y, z], '.'), p);
  }

  lemma AddressFromInts(ip: string, p: seq<int>)
    requires |p| == 4 && AllOctets(p) && PyInts(Split(ip, '.')) == Some(p)
    ensures SetEthernetAddressFromString(ip) == Ok(OctetsAddressMessage(p[0], p[1], p[2], p[3]))
  {
  }

  /** The decimal text of an octet is a dot-free field int() reads back. */
  lemma OctetField(a: byte)
    ensures PyInt(FormatDecimal(a)) == Some(a as int) && '.' !in FormatDecimal(a)
  {
    PyIntOfFormat(a);
    NoDotInDigits(FormatDecimal(a));
  }

  lemma PaddedField(d: byte, pre: string, post: string)
    requires forall k :: 0 <= k < |pre| ==> pre[k] in INT_WHITESPACE
    requires forall k :: 0 <= k < |post| ==> post[k] in INT_WHITESPACE
    ensures PyInt(pre + FormatDecimal(d) + post) == Some(d as int) && '.' !in pre + FormatDecimal(d) + post
  {
    var fd := FormatDecimal(d);
    PyIntPadded(pre, fd, post);
    OctetField(d);
    NoDotInDigits(fd);
    PaddingKeepsOut(pre, fd, post, INT_WHITESPACE, '.');
  }

  lemma UnderscoredField(hi: string, lo: string)
    requires |hi| >= 1 && AllDigits(hi) && |lo| >= 1 && AllDigits(lo)
    ensures PyInt(hi + "_" + lo) == Some(DecimalValue(hi + lo)) && '.' !in hi + "_" + lo
  {
    PyIntUnderscore(hi, lo);
    NoDotInDigits(hi);
    NoDotInDigits(lo);
  }

  /** Four dot-free fields that int() reads as the octets a, b, c and d make
      the address a.b.c.d. */
  lemma OctetFieldsAccepted(w: string, x: string, y: string, z: string, a: byte, b: byte, c: byte, d: byte)
    requires '.' !in w && '.' !in x && '.' !in y && '.' !in z
    requires PyInt(w) == Some(a as int) && PyInt(x) == Some(b as int)
    requires PyInt(y) == Some(c as int) && PyInt(z) == Some(d as int)
    ensures SetEthernetAddressFromString(Join([w, x, y, z], '.')) == Ok(OctetsAddressMessage(a, b, c, d))
  {
    PyIntsQuad(w, x, y, z, a, b, c, d);
    var p := [a as int, b as int, c as int, d as int];
    assert AllOctets(p);
    AddressFromFields(w, x, y, z, p);
  }

  /** Three decimal octets and a last dot-free field that int() reads as d
      make the address a.b.c.d. */
  lemma LastFieldAccepted(a: byte, b: byte, c: byte, z: string, d: byte)
    requires PyInt(z) == Some(d as int) && '.' !in z
    ensures SetEthernetAddressFromString(Join([FormatDecimal(a), FormatDecimal(b), FormatDecimal(c), z], '.'))
            == Ok(OctetsAddressMessage(a, b, c, d))
  {
    OctetField(a);
    OctetField(b);
    OctetField(c);
    OctetFieldsAccepted(FormatDecimal(a), FormatDecimal(b), FormatDecimal(c), z, a, b, c, d);
  }

  /** Whitespace around a field is accepted: "1.2.3. 4" is the address
      1.2.3.4. */
  lemma SpacedFieldAccepted(a: byte, b: byte, c: byte, d: byte, pre: string, post: string)
    requires forall k :: 0 <= k < |pre| ==> pre[k] in INT_WHITESPACE
    requires forall k :: 0 <= k < |post| ==> post[k] in INT_WHITESPACE
    ensures SetEthernetAddressFromString(
              Join([FormatDecimal(a), FormatDecimal(b), FormatDecimal(c), pre + FormatDecimal(d) + post], '.'))
            == Ok(OctetsAddressMessage(a, b, c, d))
  {
    PaddedField(d, pre, post);
    LastFieldAccepted(a, b, c, pre + FormatDecimal(d) + post, d);
  }

  /** An underscore between the digits of a field is accepted: "1.2.3.1_0"
      is the address 1.2.3.10. */
  lemma UnderscoredFieldAccepted(a: byte, b: byte, c: byte, hi: string, lo: string)
    requires |hi| >= 1 && AllDigits(hi) && |lo| >= 1 && AllDigits(lo) && DecimalValue(hi + lo) < 256
    ensures SetEthernetAddressFromString(
              Join([FormatDecimal(a), FormatDecimal(b), FormatDecimal(c), hi + "_" + lo], '.'))
            == Ok(OctetsAddressMessage(a, b, c, DecimalValue(hi + lo)))
  {
    UnderscoredField(hi, lo);
    LastFieldAccepted(a, b, c, hi + "_" + lo, DecimalValue(hi + lo));
  }
}
