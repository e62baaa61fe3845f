/** The firmware header of the oldest revision (Messages.hpp): the string-to-enum
    maps of the JSON interface, the typed JSON lookup, the MessageTypes enum whose
    members without an initializer take their predecessor's value plus one, and
    the packed frames built from a 4-byte header and a 2-byte footer. */
module MessagesHpp {
  import opened Wrappers
  import opened Bytes
  import LegacyMessages

  // --- JSON interface ------------------------------------------------------------

  datatype EncoderCommand = GetPosition | SetPosition | GetUpdateRate | UnknownCommand

  /** ToEncoderCommandsEnum: each command's own name selects it; every other string
      is Unknown. */
  function ToEncoderCommandsEnum(commandStr: string): (r: EncoderCommand)
    ensures r == GetPosition <==> commandStr == "GetPosition"
    ensures r == SetPosition <==> commandStr == "SetPosition"
    ensures r == GetUpdateRate <==> commandStr == "GetUpdateRate"
  {
    if commandStr == "GetPosition" then GetPosition
    else if commandStr == "SetPosition" then SetPosition
    else if commandStr == "GetUpdateRate" then GetUpdateRate
    else UnknownCommand
  }

  datatype JsonMessageType = Motor | Encoder | Led | UnknownType

  /** ToJsonMessageTypes: "Motor", "Encoder" and "Led" select their type; every
      other string is Unknown. */
  function ToJsonMessageTypes(typeStr: string): (r: JsonMessageType)
    ensures r == Motor <==> typeStr == "Motor"
    ensures r == Encoder <==> typeStr == "Encoder"
    ensures r == Led <==> typeStr == "Led"
  {
    if typeStr == "Motor" then Motor
    else if typeStr == "Encoder" then Encoder
    else if typeStr == "Led" then Led
    else UnknownType
  }

  /** A JSON document's values, and the C++ types a lookup may ask for. */
  datatype JsonValue = JsonNull | JsonBool(b: bool) | JsonInt(i: int) | JsonString(s: string)

  datatype JsonKind = BoolKind | IntKind | StringKind

  /** json_doc[key].is<T>(): the key holds a value of that kind (a missing key
      reads as null, which is no kind). */
  predicate Holds(doc: map<string, JsonValue>, key: string, kind: JsonKind)
  {
    key in doc &&
    match kind
    case BoolKind => doc[key].JsonBool?
    case IntKind => doc[key].JsonInt?
    case StringKind => doc[key].JsonString?
  }

  /** TryParseJson: whether the key holds a T, and the value *out has afterwards:
      the key's value when it does, otherwise *out unchanged. */
  function TryParseJson(key: string, out: JsonValue, doc: map<string, JsonValue>, kind: JsonKind): (r: (bool, JsonValue))
    ensures r.0 <==> Holds(doc, key, kind)
    ensures r.0 ==> key in doc && r.1 == doc[key]
    ensures !r.0 ==> r.1 == out
  {
    if !Holds(doc, key, kind) then (false, out) else (true, doc[key])
  }

  // --- MessageTypes ------------------------------------------------------------------

  datatype MessageType =
    | DeviceInfoMessageTypeLowerBounds | GetVersion | DeviceInfoMessageTypeUpperBounds
    | SetI2CAddress | GetI2CAddress
    | LedControlMessageTypeLowerBounds | SetLedColor | GetLedColor | SetLedState
    | LedControlMessageTypeUpperBounds
    | MotorControlMessageTypeLowerBounds | GetMotorPosition | GetMotorVelocity
    | GetMotorCurrent | SetMotorPosition | SetMotorVelocity | SetMotorCurrent
    | SetControlMode | GetControlMode | GetMotorStatus | StartMotor
    | MotorControlMessageTypeUpperBounds
    | EncoderControlMessageTypeLowerBounds | EncoderControlMessageTypeUpperBounds

  /** The initializer written after a member in the declaration, if any. */
  function Initializer(t: MessageType): Option<nat>
  {
    match t
    case DeviceInfoMessageTypeLowerBounds => Some(0x0001)
    case DeviceInfoMessageTypeUpperBounds => Some(0x00FF)
    case SetI2CAddress => Some(0x0500)
    case GetI2CAddress => Some(0x0501)
    case LedControlMessageTypeLowerBounds => Some(0x3000)
    case LedControlMessageTypeUpperBounds => Some(0x30FF)
    case MotorControlMessageTypeLowerBounds => Some(0x5000)
    case MotorControlMessageTypeUpperBounds => Some(0x5FFF)
    case EncoderControlMessageTypeLowerBounds => Some(0x6000)
    case EncoderControlMessageTypeUpperBounds => Some(0x6FFF)
    case _ => None
  }

  /** The member declared just before each implicitly numbered one. */
  function Predecessor(t: MessageType): Option<MessageType>
  {
    match t
    case GetVersion => Some(DeviceInfoMessageTypeLowerBounds)
    case SetLedColor => Some(LedControlMessageTypeLowerBounds)
    case GetLedColor => Some(SetLedColor)
    case SetLedState => Some(GetLedColor)
    case GetMotorPosition => Some(MotorControlMessageTypeLowerBounds)
    case GetMotorVelocity => Some(GetMotorPosition)
    case GetMotorCurrent => Some(GetMotorVelocity)
    case SetMotorPosition => Some(GetMotorCurrent)
    case SetMotorVelocity => Some(SetMotorPosition)
    case SetMotorCurrent => Some(SetMotorVelocity)
    case SetControlMode => Some(SetMotorCurrent)
    case GetControlMode => Some(SetControlMode)
    case GetMotorStatus => Some(GetControlMode)
    case StartMotor => Some(GetMotorStatus)
    case _ => None
  }

  /** The uint16_t value of each member. */
  function Value(t: MessageType): nat
  {
    match t
    case DeviceInfoMessageTypeLowerBounds => 0x0001
    case GetVersion => 0x0002
    case DeviceInfoMessageTypeUpperBounds => 0x00FF
    case SetI2CAddress => 0x0500
    case GetI2CAddress => 0x0501
    case LedControlMessageTypeLowerBounds => 0x3000
    case SetLedColor => 0x3001
    case GetLedColor => 0x3002
    case SetLedState => 0x3003
    case LedControlMessageTypeUpperBounds => 0x30FF
    case MotorControlMessageTypeLowerBounds => 0x5000
    case GetMotorPosition => 0x5001
    case GetMotorVelocity => 0x5002
    case GetMotorCurrent => 0x5003
    case SetMotorPosition => 0x5004
    case SetMotorVelocity => 0x5005
    case SetMotorCurrent => 0x5006
    case SetControlMode => 0x5007
    case GetControlMode => 0x5008
    case GetMotorStatus => 0x5009
    case StartMotor => 0x500A
    case MotorControlMessageTypeUpperBounds => 0x5FFF
    case EncoderControlMessageTypeLowerBounds => 0x6000
    case EncoderControlMessageTypeUpperBounds => 0x6FFF
  }

  /** The values follow the C++ rule: a member takes its initializer where one is
      written, otherwise its predecessor's value plus one (the first member has an
      initializer, so every member without one has a predecessor). */
  lemma NumberingRule(t: MessageType)
    ensures Initializer(t).Some? ==> Value(t) == Initializer(t).value
    ensures Initializer(t).None? ==>
              Predecessor(t).Some? && Value(t) == Value(Predecessor(t).value) + 1
  {
    match t
    case DeviceInfoMessageTypeLowerBounds =>
    case GetVersion =>
    case DeviceInfoMessageTypeUpperBounds =>
    case SetI2CAddress =>
    case GetI2CAddress =>
    case LedControlMessageTypeLowerBounds =>
    case SetLedColor =>
    case GetLedColor =>
    case SetLedState =>
    case LedControlMessageTypeUpperBounds =>
    case MotorControlMessageTypeLowerBounds =>
    case GetMotorPosition =>
    case GetMotorVelocity =>
    case GetMotorCurrent =>
    case SetMotorPosition =>
    case SetMotorVelocity =>
    case SetMotorCurrent =>
    case SetControlMode =>
    case GetControlMode =>
    case GetMotorStatus =>
    case StartMotor =>
    case MotorControlMessageTypeUpperBounds =>
    case EncoderControlMessageTypeLowerBounds =>
    case EncoderControlMessageTypeUpperBounds =>
  }

  /** The messages.py member of the same name; the encoder markers have none. */
  function Counterpart(t: MessageType): Option<LegacyMessages.MessageType>
  {
    match t
    case DeviceInfoMessageTypeLowerBounds => Some(LegacyMessages.DeviceInfoMessageTypeLowerBounds)
    case GetVersion => Some(LegacyMessages.GetVersion)
    case DeviceInfoMessageTypeUpperBounds => Some(LegacyMessages.DeviceInfoMessageTypeUpperBounds)
    case SetI2CAddress => Some(LegacyMessages.SetI2CAddress)
    case GetI2CAddress => Some(LegacyMessages.GetI2CAddress)
    case LedControlMessageTypeLowerBounds => Some(LegacyMessages.LedControlMessageTypeLowerBounds)
    case SetLedColor => Some(LegacyMessages.SetLedColor)
    case GetLedColor => Some(LegacyMessages.GetLedColor)
    case SetLedState => Some(LegacyMessages.SetLedState)
    case LedControlMessageTypeUpperBounds => Some(LegacyMessages.LedControlMessageTypeUpperBounds)
    case MotorControlMessageTypeLowerBounds => Some(LegacyMessages.MotorControlMessageTypeLowerBounds)
    case GetMotorPosition => Some(LegacyMessages.GetMotorPosition)
    case GetMotorVelocity => Some(LegacyMessages.GetMotorVelocity)
    case GetMotorCurrent => Some(LegacyMessages.GetMotorCurrent)
    case SetMotorPosition => Some(LegacyMessages.SetMotorPosition)
    case SetMotorVelocity => Some(LegacyMessages.SetMotorVelocity)
    case SetMotorCurrent => Some(LegacyMessages.SetMotorCurrent)
    case SetControlMode => Some(LegacyMessages.SetControlMode)
    case GetControlMode => Some(LegacyMessages.GetControlMode)
    case GetMotorStatus => Some(LegacyMessages.GetMotorStatus)
    case StartMotor => Some(LegacyMessages.StartMotor)
    case MotorControlMessageTypeUpperBounds => Some(LegacyMessages.MotorControlMessageTypeUpperBounds)
    case _ => None
  }

  /** Every member with a counterpart in messages.py has the value it has there. */
  lemma ValuesAgree(t: MessageType)
    requires Counterpart(t).Some?
    ensures Value(t) == LegacyMessages.Value(Counterpart(t).value)
  {
  }

  /** The functional groups the bounds markers enclose. */
  datatype Group = DeviceInfo | LedControl | MotorControl | EncoderControl

  function LowerBound(g: Group): MessageType
  {
    match g
    case DeviceInfo => DeviceInfoMessageTypeLowerBounds
    case LedControl => LedControlMessageTypeLowerBounds
    case MotorControl => MotorControlMessageTypeLowerBounds
    case EncoderControl => EncoderControlMessageTypeLowerBounds
  }

  function UpperBound(g: Group): MessageType
  {
    match g
    case DeviceInfo => DeviceInfoMessageTypeUpperBounds
    case LedControl => LedControlMessageTypeUpperBounds
    case MotorControl => MotorControlMessageTypeUpperBounds
    case EncoderControl => EncoderControlMessageTypeUpperBounds
  }

  /** The group whose markers surround a member in the declaration; the I2C members
      and the markers themselves belong to none. */
  function GroupOf(t: MessageType): Option<Group>
  {
    match t
    case GetVersion => Some(DeviceInfo)
    case SetLedColor | GetLedColor | SetLedState => Some(LedControl)
    case GetMotorPosition | GetMotorVelocity | GetMotorCurrent | SetMotorPosition
      | SetMotorVelocity | SetMotorCurrent | SetControlMode | GetControlMode
      | GetMotorStatus | StartMotor => Some(MotorControl)
    case _ => None
  }

  /** Each group's members lie strictly between its two markers, so a range check
      against the markers selects exactly the group. */
  lemma GroupsWithinBounds(t: MessageType)
    requires GroupOf(t).Some?
    ensures var g := GroupOf(t).value;
      Value(LowerBound(g)) < Value(t) < Value(UpperBound(g))
  {
  }

  // --- Packed frames --------------------------------------------------------------

  const HEADER_SIZE: nat := 4   // MessageTypes message_type (uint16_t), uint16_t body_size
  const FOOTER_SIZE: nat := 2   // uint16_t checksum

  datatype Layout = GetVersionMessage | VersionMessage | SetIpAddressMessage | SetLedColorMessage

  /** The bytes between header and footer of each struct. */
  function BodySize(l: Layout): nat
  {
    match l
    case GetVersionMessage => 0
    case VersionMessage => 32      // char version[32]
    case SetIpAddressMessage => 4  // uint32_t ip_address
    case SetLedColorMessage => 3   // LedColors
  }

  function FrameSize(l: Layout): nat
  {
    HEADER_SIZE + BodySize(l) + FOOTER_SIZE
  }

  /** A VersionMessage as declared: header, the 32-character version field
      initialised to zeros, and footer. */
  datatype Version = Version(messageType: nat, bodySize: nat, version: seq<byte>, checksum: nat)

  /** `VersionMessage msg;`: only the version field has an initialiser. The header
      and footer fields start indeterminate; the model writes 0 for them, and
      the firmware assigns all three before the message is sent. */
  function NewVersionMessage(): (m: Version)
    ensures |m.version| == BodySize(VersionMessage)
    ensures forall i :: 0 <= i < |m.version| ==> m.version[i] == 0
  {
    Version(0, 0, Zeros(32), 0)
  }

  /** The struct's bytes: the little-endian header, the version field, the footer. */
  function VersionBytes(m: Version): (r: seq<byte>)
    requires m.messageType < U16 && m.bodySize < U16 && m.checksum < U16
    requires |m.version| == BodySize(VersionMessage)
    ensures |r| == FrameSize(VersionMessage)
  {
    Le16(m.messageType) + Le16(m.bodySize) + m.version + Le16(m.checksum)
  }

  /** The packed struct reads back field by field at its offsets 0, 2, 4 and 36. */
  lemma VersionBytesFields(m: Version)
    requires m.messageType < U16 && m.bodySize < U16 && m.checksum < U16
    requires |m.version| == BodySize(VersionMessage)
    ensures var r := VersionBytes(m);
      ReadLe16(r, 0) == m.messageType && ReadLe16(r, 2) == m.bodySize &&
      r[HEADER_SIZE..HEADER_SIZE + 32] == m.version && ReadLe16(r, 36) == m.checksum
  {
    var r := VersionBytes(m);
    assert r[0..2] == Le16(m.messageType);
    assert r[2..4] == Le16(m.bodySize);
    assert r[36..38] == Le16(m.checksum);
    ReadLe16At(m.messageType, r, 0);
    ReadLe16At(m.bodySize, r, 2);
    ReadLe16At(m.checksum, r, 36);
  }

  /** The sizes of the frames: a bare request is 6 bytes, the version reply 38. */
  lemma FrameSizes()
    ensures FrameSize(GetVersionMessage) == 6 && FrameSize(VersionMessage) == 38
    ensures FrameSize(SetIpAddressMessage) == 10 && FrameSize(SetLedColorMessage) == 9
    ensures FrameSize(GetVersionMessage) == LegacyMessages.HEADER_SIZE + LegacyMessages.FOOTER_SIZE
  {
  }
}
