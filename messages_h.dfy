/** The firmware header of the intermediate revision (Messages.h): the MessageTypes
    catalog, the 4-byte header and 2-byte footer, the packed message layouts, the
    LedColors union whose named fields alias its raw bytes, and the LED and motor
    state enumerations. */
module MessagesH {
  import opened Wrappers
  import opened Bytes

  // --- MessageTypes ------------------------------------------------------------

  datatype MessageType =
    | GetVersion
    | SetI2CAddress | GetI2CAddress | SetEthernetAddress | GetEthernetAddress
    | SetEthernetPort | GetEthernetPort | GetMacAddress
    | SetLedState | SetLedColor | GetLedColor
    | SetMotorState | GetMotorState
    | GetTargetPosition | GetMotorVelocity | GetMotorCurrent
    | SetTargetPosition | SetTargetPositionRelative | SetMotorVelocity | SetMotorCurrent

  /** The uint16_t value of each member. */
  function Value(t: MessageType): (r: nat)
    ensures r < U16
  {
    match t
    case GetVersion => 0x0002
    case SetI2CAddress => 0x0500
    case GetI2CAddress => 0x0501
    case SetEthernetAddress => 0x0502
    case GetEthernetAddress => 0x0503
    case SetEthernetPort => 0x0504
    case GetEthernetPort => 0x0505
    case GetMacAddress => 0x0506
    case SetLedState => 0x3001
    case SetLedColor => 0x3002
    case GetLedColor => 0x3003
    case SetMotorState => 0x5000
    case GetMotorState => 0x5001
    case GetTargetPosition => 0x5010
    case GetMotorVelocity => 0x5012
    case GetMotorCurrent => 0x5013
    case SetTargetPosition => 0x5014
    case SetTargetPositionRelative => 0x5015
    case SetMotorVelocity => 0x5016
    case SetMotorCurrent => 0x5017
  }

  /** The member whose value is v, if any: the high byte selects the block of the
      declaration, the low byte the member within it. */
  function FromValue(v: int): (r: Option<MessageType>)
    ensures r.Some? ==> Value(r.value) == v
  {
    var hi, lo := v / 256, v % 256;
    if v == 0x0002 then Some(GetVersion)
    else if hi == 0x05 then SettingsMember(lo)
    else if hi == 0x30 then LedMember(lo)
    else if hi == 0x50 then MotorMember(lo)
    else None
  }

  function SettingsMember(lo: int): (r: Option<MessageType>)
    ensures r.Some? ==> Value(r.value) == 0x0500 + lo
  {
    if lo == 0 then Some(SetI2CAddress)
    else if lo == 1 then Some(GetI2CAddress)
    else if lo == 2 then Some(SetEthernetAddress)
    else if lo == 3 then Some(GetEthernetAddress)
    else if lo == 4 then Some(SetEthernetPort)
    else if lo == 5 then Some(GetEthernetPort)
    else if lo == 6 then Some(GetMacAddress)
    else None
  }

  function LedMember(lo: int): (r: Option<MessageType>)
    ensures r.Some? ==> Value(r.value) == 0x3000 + lo
  {
    if lo == 1 then Some(SetLedState)
    else if lo == 2 then Some(SetLedColor)
    else if lo == 3 then Some(GetLedColor)
    else None
  }

  function MotorMember(lo: int): (r: Option<MessageType>)
    ensures r.Some? ==> Value(r.value) == 0x5000 + lo
  {
    if lo == 0x00 then Some(SetMotorState)
    else if lo == 0x01 then Some(GetMotorState)
    else if lo == 0x10 then Some(GetTargetPosition)
    else if lo == 0x12 then Some(GetMotorVelocity)
    else if lo == 0x13 then Some(GetMotorCurrent)
    else if lo == 0x14 then Some(SetTargetPosition)
    else if lo == 0x15 then Some(SetTargetPositionRelative)
    else if lo == 0x16 then Some(SetMotorVelocity)
    else if lo == 0x17 then Some(SetMotorCurrent)
    else None
  }

  /** Every member is found again from its own value. */
  lemma FromValueOfValue(t: MessageType)
    ensures FromValue(Value(t)) == Some(t)
  {
    match t
    case GetVersion =>
    case SetI2CAddress =>
    case GetI2CAddress =>
    case SetEthernetAddress =>
    case GetEthernetAddress =>
    case SetEthernetPort =>
    case GetEthernetPort =>
    case GetMacAddress =>
    case SetLedState =>
    case SetLedColor =>
    case GetLedColor =>
    case SetMotorState =>
    case GetMotorState =>
    case GetTargetPosition =>
    case GetMotorVelocity =>
    case GetMotorCurrent =>
    case SetTargetPosition =>
    case SetTargetPositionRelative =>
    case SetMotorVelocity =>
    case SetMotorCurrent =>
  }

  /** No two members share a value. */
  lemma ValueInjective(a: MessageType, b: MessageType)
    requires Value(a) == Value(b)
    ensures a == b
  {
    FromValueOfValue(a);
    FromValueOfValue(b);
  }

  // --- Header, footer and layouts ---------------------------------------------------

  const HEADER_SIZE: nat := 4   // sizeof(Header): MessageTypes message_type, uint16_t body_size
  const FOOTER_SIZE: nat := 2   // sizeof(Footer): uint16_t checksum

  /** The packed structs; the typedefs (VersionMessage, I2CAddressMessage, ...)
      name one of these. */
  datatype Layout =
    | U8Message | S8Message | U32Message | S32Message | DoubleMessage
    | MacAddressMessage | SetLedColorMessage | GetLedColorMessage
    | SetEthernetIpAddressMessage | SetEthernetPortMessage

  /** The bytes between header and footer of each struct. */
  function BodySize(l: Layout): nat
  {
    match l
    case U8Message => 1                     // uint8_t value
    case S8Message => 1                     // int8_t value
    case U32Message => 4                    // uint32_t value
    case S32Message => 4                    // int32_t value
    case DoubleMessage => 8                 // double value
    case MacAddressMessage => 6             // uint8_t mac[6]
    case SetLedColorMessage => 3            // LedColors
    case GetLedColorMessage => 3            // LedColors
    case SetEthernetIpAddressMessage => 4   // uint32_t ip_address
    case SetEthernetPortMessage => 4        // uint32_t ip_address
  }

  /** sizeof of a packed message: header, body and footer with no padding. */
  function FrameSize(l: Layout): nat
  {
    HEADER_SIZE + BodySize(l) + FOOTER_SIZE
  }

  /** The struct each message kind is declared with (the typedefs). */
  function LayoutOf(t: MessageType): Layout
  {
    match t
    case GetVersion => U32Message
    case SetI2CAddress | GetI2CAddress => U8Message
    case SetEthernetAddress => SetEthernetIpAddressMessage
    case GetEthernetAddress => U32Message
    case SetEthernetPort => SetEthernetPortMessage
    case GetEthernetPort => U32Message
    case GetMacAddress => MacAddressMessage
    case SetLedState => U8Message
    case SetLedColor => SetLedColorMessage
    case GetLedColor => GetLedColorMessage
    case SetMotorState | GetMotorState => U8Message
    case GetTargetPosition | SetTargetPosition | SetTargetPositionRelative => DoubleMessage
    case GetMotorVelocity | SetMotorVelocity => DoubleMessage
    case GetMotorCurrent | SetMotorCurrent => DoubleMessage
  }

  /** The frame sizes of the structs. */
  lemma FrameSizes()
    ensures FrameSize(U8Message) == 7 && FrameSize(U32Message) == 10
    ensures FrameSize(DoubleMessage) == 14 && FrameSize(MacAddressMessage) == 12
    ensures FrameSize(SetLedColorMessage) == 9
    ensures FrameSize(SetEthernetIpAddressMessage) == FrameSize(U32Message)
    ensures FrameSize(SetEthernetPortMessage) == FrameSize(U32Message)
  {
  }

  /** The bytes of a packed struct in memory: the little-endian header fields,
      the body, and the little-endian checksum. */
  function Packed(t: MessageType, bodySize: nat, body: seq<byte>, checksum: nat): (r: seq<byte>)
    requires bodySize < U16 && checksum < U16
    ensures |r| == HEADER_SIZE + |body| + FOOTER_SIZE
  {
    Le16(Value(t)) + Le16(bodySize) + body + Le16(checksum)
  }

  /** The fields of a struct's bytes, read back from their fixed offsets; the
      type is None when the first two bytes name no member. */
  datatype Fields = Fields(messageType: Option<MessageType>, bodySize: nat, body: seq<byte>, checksum: nat)

  function Unpacked(l: Layout, bytes: seq<byte>): (f: Fields)
    requires |bytes| == FrameSize(l)
    ensures |f.body| == BodySize(l) && f.bodySize < U16 && f.checksum < U16
  {
    var n := BodySize(l);
    Fields(FromValue(ReadLe16(bytes, 0)), ReadLe16(bytes, 2), bytes[HEADER_SIZE..HEADER_SIZE + n],
           ReadLe16(bytes, HEADER_SIZE + n))
  }

  /** A struct laid down with a body of its layout's size reads back field for
      field. */
  lemma PackedUnpacked(l: Layout, t: MessageType, bodySize: nat, body: seq<byte>, checksum: nat)
    requires bodySize < U16 && checksum < U16 && |body| == BodySize(l)
    ensures Unpacked(l, Packed(t, bodySize, body, checksum))
         == Fields(Some(t), bodySize, body, checksum)
  {
    var n := |body|;
    var bytes := Packed(t, bodySize, body, checksum);
    assert bytes[0..2] == Le16(Value(t));
    assert bytes[2..4] == Le16(bodySize);
    assert bytes[4..4 + n] == body;
    assert bytes[4 + n..4 + n + 2] == Le16(checksum);
    ReadLe16At(Value(t), bytes, 0);
    ReadLe16At(bodySize, bytes, 2);
    ReadLe16At(checksum, bytes, 4 + n);
    FromValueOfValue(t);
  }

  // --- LedColors ----------------------------------------------------------------

  /** LedColors: three bytes, raw[0..3). */
  type LedColors = c: seq<byte> | |c| == 3 witness [0, 0, 0]

  /** The names through which the union's bytes can be reached. */
  datatype ColorName = R | Red | G | Green | B | Blue | Raw(i: nat)

  /** The byte a name occupies: r and red share raw[0], g and green raw[1], b and
      blue raw[2]; None for a raw index outside the array. */
  function Slot(n: ColorName): (r: Option<nat>)
    ensures r.Some? ==> r.value < 3
  {
    match n
    case R | Red => Some(0)
    case G | Green => Some(1)
    case B | Blue => Some(2)
    case Raw(i) => if i < 3 then Some(i) else None
  }

  /** Reading a member of the union. */
  function Read(c: LedColors, n: ColorName): byte
    requires Slot(n).Some?
  {
    c[Slot(n).value]
  }

  /** Assigning a member of the union. */
  function Write(c: LedColors, n: ColorName, v: byte): (d: LedColors)
    requires Slot(n).Some?
    ensures d[Slot(n).value] == v
    ensures forall k :: 0 <= k < 3 && k != Slot(n).value ==> d[k] == c[k]
  {
    c[Slot(n).value := v]
  }

  /** The union aliases: a write through one name is seen through every name of
      the same byte, and leaves the other bytes as they were. */
  lemma Aliasing(c: LedColors, w: ColorName, v: byte, n: ColorName)
    requires Slot(w).Some? && Slot(n).Some?
    ensures Read(Write(c, w, v), n) == if Slot(n) == Slot(w) then v else Read(c, n)
  {
  }

  /** The two names of each colour, and its raw index, always read the same byte. */
  lemma NamesAgree(c: LedColors)
    ensures Read(c, R) == Read(c, Red) == Read(c, Raw(0)) == c[0]
    ensures Read(c, G) == Read(c, Green) == Read(c, Raw(1)) == c[1]
    ensures Read(c, B) == Read(c, Blue) == Read(c, Raw(2)) == c[2]
  {
  }

  // --- State enumerations -----------------------------------------------------------

  /** LedStates (uint8_t); MAX_VALUE is a member, one past the last real state. */
  datatype LedState = Off | FlashError | ErrorBlink | Bootup | Rainbow | Solid | MaxValue
  {
    function Code(): (r: nat)
      ensures r <= 6
    {
      match this
      case Off => 0
      case FlashError => 1
      case ErrorBlink => 2
      case Bootup => 3
      case Rainbow => 4
      case Solid => 5
      case MaxValue => 6
    }
  }

  /** The member with code c, if any. */
  function LedStateFromCode(c: int): (r: Option<LedState>)
    ensures r.Some? <==> 0 <= c <= 6
    ensures r.Some? ==> r.value.Code() == c
  {
    if c == 0 then Some(Off)
    else if c == 1 then Some(FlashError)
    else if c == 2 then Some(ErrorBlink)
    else if c == 3 then Some(Bootup)
    else if c == 4 then Some(Rainbow)
    else if c == 5 then Some(Solid)
    else if c == 6 then Some(MaxValue)
    else None
  }

  /** Each state is found again from its code. */
  lemma LedStateCodeRoundTrip(s: LedState)
    ensures LedStateFromCode(s.Code()) == Some(s)
  {
    match s
    case Off =>
    case FlashError =>
    case ErrorBlink =>
    case Bootup =>
    case Rainbow =>
    case Solid =>
    case MaxValue =>
  }

  /** MotorStates (uint8_t). */
  datatype MotorState = MotorOff | Position | Velocity | Idle
  {
    function Code(): (r: nat)
      ensures r <= 3
    {
      match this
      case MotorOff => 0
      case Position => 1
      case Velocity => 2
      case Idle => 3
    }
  }

  /** The member with code c, if any. */
  function MotorStateFromCode(c: int): (r: Option<MotorState>)
    ensures r.Some? <==> 0 <= c <= 3
    ensures r.Some? ==> r.value.Code() == c
  {
    if c == 0 then Some(MotorOff)
    else if c == 1 then Some(Position)
    else if c == 2 then Some(Velocity)
    else if c == 3 then Some(Idle)
    else None
  }

  /** Each state is found again from its code. */
  lemma MotorStateCodeRoundTrip(s: MotorState)
    ensures MotorStateFromCode(s.Code()) == Some(s)
  {
    match s
    case MotorOff =>
    case Position =>
    case Velocity =>
    case Idle =>
  }
}
