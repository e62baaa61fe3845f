/** The firmware's catalog for the current protocol revision: the MessageTypes
    ids, the status and setting enumerations, and the packed frame layouts with
    their sizes (header of type and body size, body, footer of checksum). */
module AxisCatalog {
  import opened Wrappers

  datatype MessageType =
    | Ack | GetVersion | SetI2CAddress | GetI2CAddress
    | SetEthernetAddress | GetEthernetAddress | SetEthernetPort | GetEthernetPort
    | GetMacAddress | SaveConfiguration
    | SetLedColor | GetLedColor | AddLedStep
    | SetHomeDirection | GetHomeDirection | SetHomeThreshold | GetHomeThreshold
    | SetHomeSpeed | GetHomeSpeed | GetHomedState | Home
    | SetMotorState | GetMotorState | SetMotorBrake | GetMotorBrake
    | SetMaxSpeed | GetMaxSpeed | SetAcceleration | GetAcceleration
    | SetCurrentPosition | GetCurrentPosition | SetTargetPosition | GetTargetPosition
    | SetRelativeTargetPosition | SetVelocity | GetVelocity
    | SetVelocityAndSteps | StartPath

  /** The uint16_t value of each MessageTypes member. */
  function Id(t: MessageType): (r: nat)
    ensures 0x0100 <= r < 0x0500
  {
    match t
    case Ack => 0x0100
    case GetVersion => 0x0101
    case SetI2CAddress => 0x0102
    case GetI2CAddress => 0x0103
    case SetEthernetAddress => 0x0104
    case GetEthernetAddress => 0x0105
    case SetEthernetPort => 0x0106
    case GetEthernetPort => 0x0107
    case GetMacAddress => 0x0108
    case SaveConfiguration => 0x0109
    case SetLedColor => 0x0200
    case GetLedColor => 0x0201
    case AddLedStep => 0x0202
    case SetHomeDirection => 0x0300
    case GetHomeDirection => 0x0301
    case SetHomeThreshold => 0x0302
    case GetHomeThreshold => 0x0303
    case SetHomeSpeed => 0x0304
    case GetHomeSpeed => 0x0305
    case GetHomedState => 0x0306
    case Home => 0x0400
    case SetMotorState => 0x0307
    case GetMotorState => 0x0308
    case SetMotorBrake => 0x0309
    case GetMotorBrake => 0x030A
    case SetMaxSpeed => 0x030B
    case GetMaxSpeed => 0x030C
    case SetAcceleration => 0x030D
    case GetAcceleration => 0x030E
    case SetCurrentPosition => 0x030F
    case GetCurrentPosition => 0x0310
    case SetTargetPosition => 0x0311
    case GetTargetPosition => 0x0312
    case SetRelativeTargetPosition => 0x0401
    case SetVelocity => 0x0313
    case GetVelocity => 0x0314
    case SetVelocityAndSteps => 0x0402
    case StartPath => 0x0403
  }

  /** The member whose value is id, if there is one: the high byte selects the
      group and the low byte the member within it. */
  function FromId(id: int): (r: Option<MessageType>)
    ensures r.Some? ==> Id(r.value) == id
  {
    var hi, lo := id / 256, id % 256;
    if hi == 0x01 then DeviceMember(lo)
    else if hi == 0x02 then LedMember(lo)
    else if hi == 0x03 then MotorSettingsMember(lo)
    else if hi == 0x04 then MotionMember(lo)
    else None
  }

  function DeviceMember(lo: int): (r: Option<MessageType>)
    ensures r.Some? ==> Id(r.value) == 0x0100 + lo
  {
    if lo == 0 then Some(Ack)
    else if lo == 1 then Some(GetVersion)
    else if lo == 2 then Some(SetI2CAddress)
    else if lo == 3 then Some(GetI2CAddress)
    else if lo == 4 then Some(SetEthernetAddress)
    else if lo == 5 then Some(GetEthernetAddress)
    else if lo == 6 then Some(SetEthernetPort)
    else if lo == 7 then Some(GetEthernetPort)
    else if lo == 8 then Some(GetMacAddress)
    else if lo == 9 then Some(SaveConfiguration)
    else None
  }

  function LedMember(lo: int): (r: Option<MessageType>)
    ensures r.Some? ==> Id(r.value) == 0x0200 + lo
  {
    if lo == 0 then Some(SetLedColor)
    else if lo == 1 then Some(GetLedColor)
    else if lo == 2 then Some(AddLedStep)
    else None
  }

  function MotorSettingsMember(lo: int): (r: Option<MessageType>)
    ensures r.Some? ==> Id(r.value) == 0x0300 + lo
  {
    if lo < 7 then HomingMember(lo) else if lo < 14 then MotorMember(lo) else MotionSettingMember(lo)
  }

  function HomingMember(lo: int): (r: Option<MessageType>)
    ensures r.Some? ==> Id(r.value) == 0x0300 + lo
  {
    if lo == 0 then Some(SetHomeDirection)
    else if lo == 1 then Some(GetHomeDirection)
    else if lo == 2 then Some(SetHomeThreshold)
    else if lo == 3 then Some(GetHomeThreshold)
    else if lo == 4 then Some(SetHomeSpeed)
    else if lo == 5 then Some(GetHomeSpeed)
    else if lo == 6 then Some(GetHomedState)
    else None
  }

  function MotorMember(lo: int): (r: Option<MessageType>)
    ensures r.Some? ==> Id(r.value) == 0x0300 + lo
  {
    if lo == 7 then Some(SetMotorState)
    else if lo == 8 then Some(GetMotorState)
    else if lo == 9 then Some(SetMotorBrake)
    else if lo == 10 then Some(GetMotorBrake)
    else if lo == 11 then Some(SetMaxSpeed)
    else if lo == 12 then Some(GetMaxSpeed)
    else if lo == 13 then Some(SetAcceleration)
    else None
  }

  function MotionSettingMember(lo: int): (r: Option<MessageType>)
    ensures r.Some? ==> Id(r.value) == 0x0300 + lo
  {
    if lo == 14 then Some(GetAcceleration)
    else if lo == 15 then Some(SetCurrentPosition)
    else if lo == 16 then Some(GetCurrentPosition)
    else if lo == 17 then Some(SetTargetPosition)
    else if lo == 18 then Some(GetTargetPosition)
    else if lo == 19 then Some(SetVelocity)
    else if lo == 20 then Some(GetVelocity)
    else None
  }

  function MotionMember(lo: int): (r: Option<MessageType>)
    ensures r.Some? ==> Id(r.value) == 0x0400 + lo
  {
    if lo == 0 then Some(Home)
    else if lo == 1 then Some(SetRelativeTargetPosition)
    else if lo == 2 then Some(SetVelocityAndSteps)
    else if lo == 3 then Some(StartPath)
    else None
  }

  /** Every member is found again from its own value. */
  lemma FromIdId(t: MessageType)
    ensures FromId(Id(t)) == Some(t)
  {
    match t
    case Ack =>
    case GetVersion =>
    case SetI2CAddress =>
    case GetI2CAddress =>
    case SetEthernetAddress =>
    case GetEthernetAddress =>
    case SetEthernetPort =>
    case GetEthernetPort =>
    case GetMacAddress =>
    case SaveConfiguration =>
    case SetLedColor =>
    case GetLedColor =>
    case AddLedStep =>
    case SetHomeDirection =>
    case GetHomeDirection =>
    case SetHomeThreshold =>
    case GetHomeThreshold =>
    case SetHomeSpeed =>
    case GetHomeSpeed =>
    case GetHomedState =>
    case SetMotorState =>
    case GetMotorState =>
    case SetMotorBrake =>
    case GetMotorBrake =>
    case SetMaxSpeed =>
    case GetMaxSpeed =>
    case SetAcceleration =>
    case GetAcceleration =>
    case SetCurrentPosition =>
    case GetCurrentPosition =>
    case SetTargetPosition =>
    case GetTargetPosition =>
    case SetVelocity =>
    case GetVelocity =>
    case Home =>
    case SetRelativeTargetPosition =>
    case SetVelocityAndSteps =>
    case StartPath =>
  }

  /** No two members share a value. */
  lemma IdInjective(a: MessageType, b: MessageType)
    requires Id(a) == Id(b)
    ensures a == b
  {
    FromIdId(a);
    FromIdId(b);
  }

  /** The functional groups the high byte of an id names. */
  datatype Group = Device | Led | MotorSettings | Motion

  function GroupOf(t: MessageType): Group
  {
    match t
    case Ack | GetVersion | SetI2CAddress | GetI2CAddress | SetEthernetAddress
      | GetEthernetAddress | SetEthernetPort | GetEthernetPort | GetMacAddress
      | SaveConfiguration => Device
    case SetLedColor | GetLedColor | AddLedStep => Led
    case Home | SetRelativeTargetPosition | SetVelocityAndSteps | StartPath => Motion
    case _ => MotorSettings
  }

  function GroupCode(g: Group): nat
  {
    match g
    case Device => 0x01
    case Led => 0x02
    case MotorSettings => 0x03
    case Motion => 0x04
  }

  /** The high byte of every id is the code of the member's group. */
  lemma IdHighByteIsGroup(t: MessageType)
    ensures Id(t) / 256 == GroupCode(GroupOf(t))
  {
  }

  // --- Enumerations -----------------------------------------------------------

  datatype StatusCode = Success | Error | InvalidCommand
  {
    function Code(): (r: nat)
      ensures r < 3
    {
      match this
      case Success => 0
      case Error => 1
      case InvalidCommand => 2
    }
  }

  /** StatusCodes(value): the status with that value, if any. */
  function StatusFromCode(c: int): (r: Option<StatusCode>)
    ensures r.Some? <==> 0 <= c < 3
    ensures r.Some? ==> r.value.Code() == c
  {
    if c == 0 then Some(Success) else if c == 1 then Some(Error)
    else if c == 2 then Some(InvalidCommand) else None
  }

  datatype LedState = Off | FlashError | ErrorBlink | Bootup | Rainbow | Solid
  {
    function Code(): (r: nat)
      ensures r < LED_STATES_MAX_VALUE
    {
      match this
      case Off => 0
      case FlashError => 1
      case ErrorBlink => 2
      case Bootup => 3
      case Rainbow => 4
      case Solid => 5
    }
  }

  /** The end marker of LedStates, one past the last state. */
  const LED_STATES_MAX_VALUE: nat := 6

  function LedStateFromCode(c: int): (r: Option<LedState>)
    ensures r.Some? <==> 0 <= c < LED_STATES_MAX_VALUE
    ensures r.Some? ==> r.value.Code() == c
  {
    if c == 0 then Some(Off) else if c == 1 then Some(FlashError)
    else if c == 2 then Some(ErrorBlink) else if c == 3 then Some(Bootup)
    else if c == 4 then Some(Rainbow) else if c == 5 then Some(Solid) else None
  }

  datatype MotorState = MotorOff | Position | Velocity | VelocityStep | IdleOn | Homing
  {
    function Code(): (r: nat)
      ensures r < 6
    {
      match this
      case MotorOff => 0
      case Position => 1
      case Velocity => 2
      case VelocityStep => 3
      case IdleOn => 4
      case Homing => 5
    }
  }

  function MotorStateFromCode(c: int): (r: Option<MotorState>)
    ensures r.Some? <==> 0 <= c < 6
    ensures r.Some? ==> r.value.Code() == c
  {
    if c == 0 then Some(MotorOff) else if c == 1 then Some(Position)
    else if c == 2 then Some(Velocity) else if c == 3 then Some(VelocityStep)
    else if c == 4 then Some(IdleOn) else if c == 5 then Some(Homing) else None
  }

  datatype MotorBrake = Normal | Freewheeling | StrongBraking | Braking
  {
    function Code(): (r: nat)
      ensures r < 4
    {
      match this
      case Normal => 0
      case Freewheeling => 1
      case StrongBraking => 2
      case Braking => 3
    }
  }

  function MotorBrakeFromCode(c: int): (r: Option<MotorBrake>)
    ensures r.Some? <==> 0 <= c < 4
    ensures r.Some? ==> r.value.Code() == c
  {
    if c == 0 then Some(Normal) else if c == 1 then Some(Freewheeling)
    else if c == 2 then Some(StrongBraking) else if c == 3 then Some(Braking) else None
  }

  datatype HomeDirection = Clockwise | CounterClockwise
  {
    function Code(): (r: nat)
      ensures r < 2
    {
      if this == Clockwise then 0 else 1
    }
  }

  function HomeDirectionFromCode(c: int): (r: Option<HomeDirection>)
    ensures r.Some? <==> 0 <= c < 2
    ensures r.Some? ==> r.value.Code() == c
  {
    if c == 0 then Some(Clockwise) else if c == 1 then Some(CounterClockwise) else None
  }

  datatype PositionMode = Absolute | Relative
  {
    function Code(): (r: nat)
      ensures r < 2
    {
      if this == Absolute then 0 else 1
    }
  }

  // --- Packed layouts -----------------------------------------------------------

  const HEADER_SIZE: nat := 4   // uint16_t message_type, uint16_t body_size
  const FOOTER_SIZE: nat := 2   // uint16_t checksum

  /** The packed message structs; the typedefs name one of these per message. */
  datatype Layout =
    | U8Message | S8Message | U32Message | S32Message | DoubleMessage
    | AckMessage | MacAddressMessage | LedColorMessage | AddLedStepMessage
    | VelocityAndStepsMessage

  /** The widths of the body fields of a layout, in declaration order. */
  function BodyFields(l: Layout): (r: seq<nat>)
    ensures |r| >= 1
  {
    match l
    case U8Message => [1]
    case S8Message => [1]
    case U32Message => [4]
    case S32Message => [4]
    case DoubleMessage => [8]
    case AckMessage => [2, 1]                 // ack_message_type, status
    case MacAddressMessage => [1, 1, 1, 1, 1, 1]
    case LedColorMessage => [1, 1, 1]
    case AddLedStepMessage => [4, 1, 1, 1]    // time_ms, ledColor[3]
    case VelocityAndStepsMessage => [4, 4, 1] // velocity, steps, positionMode
  }

  function Total(ws: seq<nat>): nat
  {
    if |ws| == 0 then 0 else ws[0] + Total(ws[1..])
  }

  /** The body size of a layout: the sum of its field widths. */
  function BodySize(l: Layout): nat
  {
    Total(BodyFields(l))
  }

  /** sizeof of a packed message: header, body and footer with no padding. */
  function FrameSize(l: Layout): nat
  {
    HEADER_SIZE + BodySize(l) + FOOTER_SIZE
  }

  /** The struct each message kind is declared with (the typedefs). */
  function LayoutOf(t: MessageType): Layout
  {
    match t
    case Ack => AckMessage
    case GetVersion => U32Message
    case SetI2CAddress | GetI2CAddress => U8Message
    case SetEthernetAddress | GetEthernetAddress => U32Message
    case SetEthernetPort | GetEthernetPort => U32Message
    case GetMacAddress => MacAddressMessage
    case SaveConfiguration => U8Message
    case SetLedColor | GetLedColor => LedColorMessage
    case AddLedStep => AddLedStepMessage
    case SetHomeDirection | GetHomeDirection => U8Message
    case SetHomeThreshold | GetHomeThreshold => U32Message
    case SetHomeSpeed | GetHomeSpeed => U32Message
    case GetHomedState => U8Message
    case Home => U32Message
    case SetMotorState | GetMotorState => U8Message
    case SetMotorBrake | GetMotorBrake => U8Message
    case SetMaxSpeed | GetMaxSpeed => U32Message
    case SetAcceleration | GetAcceleration => U32Message
    case SetCurrentPosition | GetCurrentPosition => DoubleMessage
    case SetTargetPosition | GetTargetPosition => DoubleMessage
    case SetRelativeTargetPosition => DoubleMessage
    case SetVelocity | GetVelocity => DoubleMessage
    case SetVelocityAndSteps => VelocityAndStepsMessage
    case StartPath => U8Message
  }

  /** The sizes the *_MESSAGE_LENGTH constants take. */
  lemma FrameSizes()
    ensures FrameSize(U8Message) == 7 && FrameSize(S8Message) == 7
    ensures FrameSize(U32Message) == 10 && FrameSize(S32Message) == 10
    ensures FrameSize(DoubleMessage) == 14 && FrameSize(AckMessage) == 9
    ensures FrameSize(MacAddressMessage) == 12 && FrameSize(LedColorMessage) == 9
    ensures FrameSize(AddLedStepMessage) == 13 && FrameSize(VelocityAndStepsMessage) == 15
  {
    ScalarBodySizes();
    ByteArrayBodySizes();
    MixedBodySizes();
  }

  lemma ScalarBodySizes()
    ensures BodySize(U8Message) == 1 && BodySize(S8Message) == 1
    ensures BodySize(U32Message) == 4 && BodySize(S32Message) == 4
    ensures BodySize(DoubleMessage) == 8
  {
    assert Total([1]) == 1 && Total([4]) == 4 && Total([8]) == 8;
  }

  lemma ByteArrayBodySizes()
    ensures BodySize(MacAddressMessage) == 6 && BodySize(LedColorMessage) == 3
  {
    assert Total([1]) == 1;
    assert Total([1, 1]) == 2 && Total([1, 1, 1]) == 3;
    assert Total([1, 1, 1, 1]) == 4 && Total([1, 1, 1, 1, 1]) == 5;
    assert Total([1, 1, 1, 1, 1, 1]) == 6;
  }

  lemma MixedBodySizes()
    ensures BodySize(AckMessage) == 3 && BodySize(AddLedStepMessage) == 7
    ensures BodySize(VelocityAndStepsMessage) == 9
  {
    assert Total([1]) == 1 && Total([1, 1]) == 2 && Total([1, 1, 1]) == 3;
    assert Total([2, 1]) == 3 && Total([4, 1, 1, 1]) == 7;
    assert Total([4, 1]) == 5 && Total([4, 4, 1]) == 9;
  }
}
