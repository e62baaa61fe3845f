/** The oldest host-side revision of the protocol (messages.py): a '<HH' header of
    message type and body size, a fixed body per message class, and a '<H' footer
    checksum that every create_* helper leaves at zero. Each message class packs
    its fields with struct and unpacks them again from fixed offsets. */
module LegacyMessages {
  import opened Wrappers
  import opened Bytes
  import Utf8

  // --- Message types --------------------------------------------------------------

  datatype MessageType =
    | DeviceInfoMessageTypeLowerBounds | GetVersion | DeviceInfoMessageTypeUpperBounds
    | SetI2CAddress | GetI2CAddress
    | LedControlMessageTypeLowerBounds | SetLedColor | GetLedColor | SetLedState
    | LedControlMessageTypeUpperBounds
    | SetEthernetAddress | SetEthernetPort
    | MotorControlMessageTypeLowerBounds | GetMotorPosition | GetMotorVelocity
    | GetMotorCurrent | SetMotorPosition | SetMotorVelocity | SetMotorCurrent
    | SetControlMode | GetControlMode | GetMotorStatus | StartMotor
    | MotorControlMessageTypeUpperBounds

  /** The value of each MessageTypes member; all fit a u16. */
  function Value(t: MessageType): (r: nat)
    ensures r < U16
  {
    match t
    case DeviceInfoMessageTypeLowerBounds => 0x0001
    case GetVersion => 0x0002
    case DeviceInfoMessageTypeUpperBounds => 0x00FF
    case SetI2CAddress => 0x0500
    case GetI2CAddress => 0x0501
    case LedControlMessageTypeLowerBounds => 0x3000
    case SetLedColor => 0x3001
    case GetLedColor => 0x3002
    case SetLedState => 0x3003
    case LedControlMessageTypeUpperBounds => 0x30FF
    case SetEthernetAddress => 0x4000
    case SetEthernetPort => 0x4001
    case MotorControlMessageTypeLowerBounds => 0x5000
    case GetMotorPosition => 0x5001
    case GetMotorVelocity => 0x5002
    case GetMotorCurrent => 0x5003
    case SetMotorPosition => 0x5004
    case SetMotorVelocity => 0x5005
    case SetMotorCurrent => 0x5006
    case SetControlMode => 0x5007
    case GetControlMode => 0x5008
    case GetMotorStatus => 0x5009
    case StartMotor => 0x500A
    case MotorControlMessageTypeUpperBounds => 0x5FFF
  }

  /** MessageTypes(v): the member with value v, None where the lookup raises
      ValueError. */
  function FromValue(v: int): (r: Option<MessageType>)
    ensures r.Some? ==> Value(r.value) == v
  {
    if v < 0x3000 then DeviceMember(v) else LedOrMotorMember(v)
  }

  function DeviceMember(v: int): (r: Option<MessageType>)
    ensures r.Some? ==> Value(r.value) == v
  {
    if v == 0x0001 then Some(DeviceInfoMessageTypeLowerBounds)
    else if v == 0x0002 then Some(GetVersion)
    else if v == 0x00FF then Some(DeviceInfoMessageTypeUpperBounds)
    else if v == 0x0500 then Some(SetI2CAddress)
    else if v == 0x0501 then Some(GetI2CAddress)
    else None
  }

  function LedOrMotorMember(v: int): (r: Option<MessageType>)
    ensures r.Some? ==> Value(r.value) == v
  {
    if v == 0x3000 then Some(LedControlMessageTypeLowerBounds)
    else if v == 0x3001 then Some(SetLedColor)
    else if v == 0x3002 then Some(GetLedColor)
    else if v == 0x3003 then Some(SetLedState)
    else if v == 0x30FF then Some(LedControlMessageTypeUpperBounds)
    else if v == 0x4000 then Some(SetEthernetAddress)
    else if v == 0x4001 then Some(SetEthernetPort)
    else if v == 0x5000 then Some(MotorControlMessageTypeLowerBounds)
    else if 0x5001 <= v <= 0x500A then MotorMember(v)
    else if v == 0x5FFF then Some(MotorControlMessageTypeUpperBounds)
    else None
  }

  function MotorMember(v: int): (r: Option<MessageType>)
    ensures r.Some? ==> Value(r.value) == v
  {
    if v == 0x5001 then Some(GetMotorPosition)
    else if v == 0x5002 then Some(GetMotorVelocity)
    else if v == 0x5003 then Some(GetMotorCurrent)
    else if v == 0x5004 then Some(SetMotorPosition)
    else if v == 0x5005 then Some(SetMotorVelocity)
    else if v == 0x5006 then Some(SetMotorCurrent)
    else if v == 0x5007 then Some(SetControlMode)
    else if v == 0x5008 then Some(GetControlMode)
    else if v == 0x5009 then Some(GetMotorStatus)
    else if v == 0x500A then Some(StartMotor)
    else None
  }

  /** Every member is found again from its own value, so no two members share a
      value. */
  lemma FromValueOfValue(t: MessageType)
    ensures FromValue(Value(t)) == Some(t)
  {
    match t
    case DeviceInfoMessageTypeLowerBounds =>
    case GetVersion =>
    case DeviceInfoMessageTypeUpperBounds =>
    case SetI2CAddress =>
    case GetI2CAddress =>
    case LedControlMessageTypeLowerBounds =>
    case SetLedColor =>
    case GetLedColor =>
    case SetLedState =>
    case LedControlMessageTypeUpperBounds =>
    case SetEthernetAddress =>
    case SetEthernetPort =>
    case MotorControlMessageTypeLowerBounds =>
    case GetMotorPosition =>
    case GetMotorVelocity =>
    case GetMotorCurrent =>
    case SetMotorPosition =>
    case SetMotorVelocity =>
    case SetMotorCurrent =>
    case SetControlMode =>
    case GetControlMode =>
    case GetMotorStatus =>
    case StartMotor =>
    case MotorControlMessageTypeUpperBounds =>
  }

  // --- Header and footer ------------------------------------------------------------

  const HEADER_SIZE: nat := 4   // struct.calcsize('<HH')
  const FOOTER_SIZE: nat := 2   // struct.calcsize('<H')

  datatype Header = Header(messageType: MessageType, bodySize: int)

  datatype Footer = Footer(checksum: int)

  /** Header.pack: '<HH' of the type's value and the body size; struct.error when
      the body size does not fit a u16. */
  function PackHeader(h: Header): (r: Result<seq<byte>, PyError>)
    ensures r.Ok? <==> 0 <= h.bodySize < U16
    ensures r.Err? ==> r.error == StructError
    ensures r.Ok? ==> |r.value| == HEADER_SIZE
  {
    if 0 <= h.bodySize < U16 then Ok(Le16(Value(h.messageType)) + Le16(h.bodySize))
    else Err(StructError)
  }

  /** Header.unpack: struct.error unless given exactly four bytes, then ValueError
      when the type is not a MessageTypes value. */
  function UnpackHeader(data: seq<byte>): (r: Result<Header, PyError>)
    ensures |data| != HEADER_SIZE ==> r == Err(StructError)
    ensures |data| == HEADER_SIZE ==>
              (r.Ok? <==> FromValue(ReadLe16(data, 0)).Some?)
              && (r.Err? ==> r.error == ValueError)
    ensures r.Ok? ==> Value(r.value.messageType) == ReadLe16(data, 0)
                      && r.value.bodySize == ReadLe16(data, 2)
  {
    if |data| != HEADER_SIZE then Err(StructError)
    else
      match FromValue(ReadLe16(data, 0))
      case None => Err(ValueError)
      case Some(t) => Ok(Header(t, ReadLe16(data, 2)))
  }

  /** Unpacking a packed header gives the header back. */
  lemma HeaderRoundTrip(h: Header)
    requires PackHeader(h).Ok?
    ensures UnpackHeader(PackHeader(h).value) == Ok(h)
  {
    var m := PackHeader(h).value;
    ReadLe16At(Value(h.messageType), m, 0);
    ReadLe16At(h.bodySize, m, 2);
    FromValueOfValue(h.messageType);
  }

  /** Footer.pack: '<H' of the checksum. */
  function PackFooter(f: Footer): (r: Result<seq<byte>, PyError>)
    ensures r.Ok? <==> 0 <= f.checksum < U16
    ensures r.Err? ==> r.error == StructError
    ensures r.Ok? ==> |r.value| == FOOTER_SIZE
  {
    if 0 <= f.checksum < U16 then Ok(Le16(f.checksum)) else Err(StructError)
  }

  /** Footer.unpack: struct.error unless given exactly two bytes. */
  function UnpackFooter(data: seq<byte>): (r: Result<Footer, PyError>)
    ensures r.Ok? <==> |data| == FOOTER_SIZE
    ensures r.Err? ==> r.error == StructError
    ensures r.Ok? ==> r.value.checksum == ReadLe16(data, 0)
  {
    if |data| != FOOTER_SIZE then Err(StructError) else Ok(Footer(ReadLe16(data, 0)))
  }

  lemma FooterRoundTrip(f: Footer)
    requires PackFooter(f).Ok?
    ensures UnpackFooter(PackFooter(f).value) == Ok(f)
  {
    ReadLe16At(f.checksum, PackFooter(f).value, 0);
  }

  // --- Bodies -------------------------------------------------------------------------

  datatype LedColors = LedColors(r: int, g: int, b: int)

  datatype LedState = Off | FlashError | ErrorBlink | Bootup | Rainbow | Solid
  {
    function Code(): (r: nat)
      ensures r < 6
    {
      match this
      case Off => 0
      case FlashError => 1
      case ErrorBlink => 2
      case Bootup => 3
      case Rainbow => 4
      case Solid => 5
    }
  }

  /** LedStates(v): ValueError outside 0..5. */
  function LedStateFromCode(v: int): (r: Option<LedState>)
    ensures r.Some? <==> 0 <= v < 6
    ensures r.Some? ==> r.value.Code() == v
  {
    if v == 0 then Some(Off) else if v == 1 then Some(FlashError)
    else if v == 2 then Some(ErrorBlink) else if v == 3 then Some(Bootup)
    else if v == 4 then Some(Rainbow) else if v == 5 then Some(Solid) else None
  }

  /** The payload of each message class between its header and footer. The version
      text is a string of characters; pack writes its UTF-8 bytes. */
  datatype Body =
    | NoBody                          // GetVersionMessage
    | VersionText(version: string)    // VersionMessage
    | IpAddress(ipAddress: int)       // SetIpAddressMessage
    | Color(ledColor: LedColors)      // SetLedColorMessage
    | State(ledState: LedState)       // SetLedStateMessage

  datatype Kind = GetVersionKind | VersionKind | SetIpAddressKind | SetLedColorKind | SetLedStateKind

  function KindOf(b: Body): Kind
  {
    match b
    case NoBody => GetVersionKind
    case VersionText(_) => VersionKind
    case IpAddress(_) => SetIpAddressKind
    case Color(_) => SetLedColorKind
    case State(_) => SetLedStateKind
  }

  /** The number of bytes each class packs between header and footer. */
  function BodyLength(k: Kind): nat
  {
    match k
    case GetVersionKind => 0
    case VersionKind => 32
    case SetIpAddressKind => 4
    case SetLedColorKind => 3
    case SetLedStateKind => 1
  }

  /** '<32s': the text cut or NUL-padded to exactly 32 bytes. */
  function Fixed32(s: seq<byte>): (r: seq<byte>)
    ensures |r| == 32
    ensures |s| <= 32 ==> r[..|s|] == s && forall i :: |s| <= i < 32 ==> r[i] == 0
    ensures |s| > 32 ==> r == s[..32]
  {
    if |s| >= 32 then s[..32] else s + Zeros(32 - |s|)
  }

  /** rstrip('\x00'): the text without its trailing NUL characters. */
  function StripNuls(s: string): (r: string)
    ensures |r| <= |s| && r == s[..|r|]
    ensures r == [] || r[|r| - 1] != '\0'
    ensures forall i :: |r| <= i < |s| ==> s[i] == '\0'
  {
    if |s| == 0 || s[|s| - 1] != '\0' then s else StripNuls(s[..|s| - 1])
  }

  /** LedColors.pack: '<BBB', struct.error unless each component is a byte. */
  function PackColors(c: LedColors): (r: Result<seq<byte>, PyError>)
    ensures r.Ok? <==> 0 <= c.r < 256 && 0 <= c.g < 256 && 0 <= c.b < 256
    ensures r.Err? ==> r.error == StructError
    ensures r.Ok? ==> r.value == [c.r, c.g, c.b]
  {
    if 0 <= c.r < 256 && 0 <= c.g < 256 && 0 <= c.b < 256 then Ok([c.r, c.g, c.b])
    else Err(StructError)
  }

  /** The bytes each class packs between header and footer. */
  function PackBody(b: Body): (r: Result<seq<byte>, PyError>)
    ensures r.Ok? ==> |r.value| == BodyLength(KindOf(b))
    ensures r.Err? ==> r.error == StructError
  {
    match b
    case NoBody => Ok([])
    case VersionText(v) => Ok(Fixed32(Utf8.Encode(v)))
    case IpAddress(ip) => if 0 <= ip < U32 then Ok(Le32(ip)) else Err(StructError)
    case Color(c) => PackColors(c)
    case State(s) => Ok([s.Code()])
  }

  /** Reading a body back: struct.error unless the slice has the class's exact
      length; UnicodeDecodeError for version bytes that are not UTF-8; ValueError
      for a LED state byte outside 0..5. */
  function UnpackBody(k: Kind, data: seq<byte>): (r: Result<Body, PyError>)
    ensures |data| != BodyLength(k) ==> r == Err(StructError)
    ensures r.Ok? ==> KindOf(r.value) == k
    ensures k == VersionKind && |data| == 32 ==>
              (r.Ok? <==> Utf8.Decode(data).Some?) && (r.Err? ==> r.error == UnicodeDecodeError)
    ensures k == SetLedStateKind && |data| == 1 ==>
              (r.Ok? <==> data[0] < 6) && (r.Err? ==> r.error == ValueError)
  {
    if |data| != BodyLength(k) then Err(StructError)
    else
      match k
      case GetVersionKind => Ok(NoBody)
      case VersionKind =>
        (match Utf8.Decode(data)
         case None => Err(UnicodeDecodeError)
         case Some(text) => Ok(VersionText(StripNuls(text))))
      case SetIpAddressKind => Ok(IpAddress(ReadLe32(data, 0)))
      case SetLedColorKind => Ok(Color(LedColors(data[0], data[1], data[2])))
      case SetLedStateKind =>
        match LedStateFromCode(data[0])
        case None => Err(ValueError)
        case Some(s) => Ok(State(s))
  }

  // --- Messages ----------------------------------------------------------------------

  datatype Message = Message(header: Header, body: Body, footer: Footer)

  /** <Class>.pack: header, body and footer packed in that order; the first part
      that does not fit its format raises struct.error. */
  function Pack(m: Message): (r: Result<seq<byte>, PyError>)
    ensures r.Ok? <==> PackHeader(m.header).Ok? && PackBody(m.body).Ok? && PackFooter(m.footer).Ok?
    ensures r.Err? ==> r.error == StructError
    ensures r.Ok? ==> |r.value| == HEADER_SIZE + BodyLength(KindOf(m.body)) + FOOTER_SIZE
  {
    var h := PackHeader(m.header);
    if h.Err? then Err(h.error)
    else
      var b := PackBody(m.body);
      if b.Err? then Err(b.error)
      else
        var f := PackFooter(m.footer);
        if f.Err? then Err(f.error)
        else Ok(h.value + b.value + f.value)
  }

  /** <Class>.unpack: data[:4] is the header, the next BodyLength bytes the body and
      the rest the footer, each unpacked in that order; the first failure
      raises. Nothing relates the header's size or type to the class. */
  function Unpack(k: Kind, data: seq<byte>): (r: Result<Message, PyError>)
    ensures r.Ok? ==> |data| == HEADER_SIZE + BodyLength(k) + FOOTER_SIZE
    ensures r.Ok? ==> KindOf(r.value.body) == k
    ensures r.Ok? ==> r.value.footer.checksum == ReadLe16(data, |data| - 2)
  {
    var n := BodyLength(k);
    var h := UnpackHeader(Slice(data, 0, HEADER_SIZE));
    if h.Err? then Err(h.error)
    else
      var b := UnpackBody(k, Slice(data, HEADER_SIZE, HEADER_SIZE + n));
      if b.Err? then Err(b.error)
      else
        var f := UnpackFooter(Slice(data, HEADER_SIZE + n, |data|));
        if f.Err? then Err(f.error)
        else
          assert Slice(data, HEADER_SIZE + n, |data|) == data[|data| - 2..];
          Ok(Message(h.value, b.value, f.value))
  }

  /** A version text that encode, '<32s', decode and rstrip('\x00') give back
      unchanged: its UTF-8 bytes fit in 32, and it does not end in NUL. */
  predicate KeepsVersion(v: string)
  {
    |Utf8.Encode(v)| <= 32 && (v == [] || v[|v| - 1] != '\0')
  }

  /** What unpacking a packed body gives: the same body, except for a version
      text, whose UTF-8 bytes are cut to 32. A text that fits comes back without
      its trailing NULs. A longer one comes back as the characters that fit,
      without trailing NULs, when the cut falls between two characters, and
      raises UnicodeDecodeError when the cut falls inside one. */
  function Recovered(b: Body): Result<Body, PyError>
  {
    if !b.VersionText? then Ok(b)
    else if |Utf8.Encode(b.version)| <= 32 then Ok(VersionText(StripNuls(b.version)))
    else
      var p := Utf8.FittingPrefix(b.version, 32);
      if |Utf8.Encode(p)| == 32 then Ok(VersionText(StripNuls(p))) else Err(UnicodeDecodeError)
  }

  /** A message that packs unpacks, as its own class, to the same header and footer
      and the recovered body, or raises as recovering the body does. */
  lemma PackUnpack(m: Message)
    requires Pack(m).Ok?
    ensures Unpack(KindOf(m.body), Pack(m).value)
         == if Recovered(m.body).Ok? then Ok(Message(m.header, Recovered(m.body).value, m.footer))
            else Err(Recovered(m.body).error)
  {
    var h, b, f := PackHeader(m.header).value, PackBody(m.body).value, PackFooter(m.footer).value;
    SliceParts(h, b, f);
    HeaderRoundTrip(m.header);
    FooterRoundTrip(m.footer);
    BodyRoundTrip(m.body);
  }

  lemma BodyRoundTrip(b: Body)
    requires PackBody(b).Ok?
    ensures UnpackBody(KindOf(b), PackBody(b).value) == Recovered(b)
  {
    match b
    case NoBody =>
    case VersionText(v) => VersionBodyRoundTrip(v);
    case IpAddress(ip) => ReadLe32At(ip, Le32(ip), 0);
    case Color(c) =>
    case State(s) =>
  }

  lemma VersionBodyRoundTrip(v: string)
    ensures UnpackBody(VersionKind, PackBody(VersionText(v)).value) == Recovered(VersionText(v))
  {
    var e := Utf8.Encode(v);
    if |e| <= 32 {
      var n := 32 - |e|;
      Utf8.EncodeNuls(n);
      Utf8.EncodeAppend(v, Utf8.Nuls(n));
      assert Fixed32(e) == Utf8.Encode(v + Utf8.Nuls(n));
      Utf8.DecodeEncode(v + Utf8.Nuls(n));
      StripNulPadding(v, n);
    } else {
      assert Fixed32(e) == e[..32];
      Utf8.DecodeCut(v, 32);
    }
  }

  /** A version text that fits and does not end in NUL survives packing and
      unpacking. */
  lemma VersionRoundTrip(v: string)
    requires KeepsVersion(v)
    ensures UnpackBody(VersionKind, PackBody(VersionText(v)).value) == Ok(VersionText(v))
  {
    VersionBodyRoundTrip(v);
  }

  /** A version text whose 32-byte cut falls inside a character cannot be read
      back: unpacking raises UnicodeDecodeError. */
  lemma VersionCutRaises(v: string)
    requires |Utf8.Encode(v)| > 32 && |Utf8.Encode(Utf8.FittingPrefix(v, 32))| != 32
    ensures UnpackBody(VersionKind, PackBody(VersionText(v)).value) == Err(UnicodeDecodeError)
  {
    VersionBodyRoundTrip(v);
  }

  /** 'a' followed by sixteen U+00E9 (two bytes each) takes 33 bytes, so the
      32-byte field ends in half a character and unpacking raises
      UnicodeDecodeError. */
  lemma AccentedVersionRaises()
    ensures UnpackBody(VersionKind, PackBody(VersionText(['a'] + Utf8.Repeat('\U{E9}', 16))).value)
         == Err(UnicodeDecodeError)
  {
    var e := '\U{E9}';
    var s := ['a'] + Utf8.Repeat(e, 15);
    var v := ['a'] + Utf8.Repeat(e, 16);
    assert v == s + [e];
    Utf8.EncodeRepeat(e, 15);
    Utf8.EncodeCons('a', Utf8.Repeat(e, 15));
    Utf8.EncodeAppend(s, [e]);
    Utf8.EncodeCons(e, []);
    var bytes := Utf8.Encode(v);
    assert |Utf8.Encode(s)| == 31;
    assert bytes[..32] == Utf8.Encode(s) + Utf8.EncodeChar(e)[..1];
    Utf8.CutCharacterRaises(s, e, 1);
  }

  /** Stripping the NULs from a text followed by NULs strips those too. */
  lemma {:induction false} StripNulPadding(v: string, n: nat)
    ensures StripNuls(v + Utf8.Nuls(n)) == StripNuls(v)
  {
    if n > 0 {
      assert (v + Utf8.Nuls(n))[..|v| + n - 1] == v + Utf8.Nuls(n - 1);
      StripNulPadding(v, n - 1);
    } else {
      assert v + Utf8.Nuls(n) == v;
    }
  }

  // --- create_* helpers -----------------------------------------------------------

  function CreateLedStateMessage(ledState: LedState): Message
  {
    Message(Header(SetLedState, 1), State(ledState), Footer(0))
  }

  function CreateGetVersionMessage(): Message
  {
    Message(Header(GetVersion, 0), NoBody, Footer(0))
  }

  /** create_version_message as written: the header's body size is the length of
      the text, although pack always writes 32 body bytes. */
  function CreateVersionMessage(version: string): Message
  {
    Message(Header(GetVersion, |version|), VersionText(version), Footer(0))
  }

  /** create_set_ip_address_message as written: the SetI2CAddress type with a
      4-byte body. */
  function CreateSetIpAddressMessage(ipAddress: int): Message
  {
    Message(Header(SetI2CAddress, 4), IpAddress(ipAddress), Footer(0))
  }

  function CreateSetLedColorMessage(r: int, g: int, b: int): Message
  {
    Message(Header(SetLedColor, 3), Color(LedColors(r, g, b)), Footer(0))
  }

  /** Every create_* helper's frame ends in a zero checksum and carries the type it
      names; the LED helpers also declare their true body size. */
  lemma CreatedFrames(s: LedState, r: byte, g: byte, b: byte)
    ensures var m := Pack(CreateLedStateMessage(s));
      m.Ok? && m.value == Le16(0x3003) + Le16(1) + [s.Code()] + [0, 0]
    ensures var m := Pack(CreateSetLedColorMessage(r, g, b));
      m.Ok? && m.value == Le16(0x3001) + Le16(3) + [r, g, b] + [0, 0]
    ensures var m := Pack(CreateGetVersionMessage());
      m.Ok? && m.value == Le16(0x0002) + Le16(0) + [] + [0, 0]
  {
  }

  /** The version and IP helpers also end in a zero checksum. */
  lemma CreatedZeroChecksum(version: string, ip: int)
    requires |version| < U16 && 0 <= ip < U32
    ensures var m := Pack(CreateVersionMessage(version));
      m.Ok? && m.value[|m.value| - 2..] == [0, 0]
    ensures var m := Pack(CreateSetIpAddressMessage(ip));
      m.Ok? && m.value[|m.value| - 2..] == [0, 0]
  {
  }

  /** The body size create_version_message declares disagrees with the packed
      body whenever the text is not exactly 32 bytes long; "1.0" gives a header
      saying 3 in front of a 32-byte body. */
  lemma VersionSizeMismatch(version: string)
    requires |version| < U16 && |version| != 32
    ensures var m := Pack(CreateVersionMessage(version)).value;
      ReadLe16(m, 2) != |m| - HEADER_SIZE - FOOTER_SIZE
  {
    var m := Pack(CreateVersionMessage(version)).value;
    var h := Le16(Value(GetVersion)) + Le16(|version|);
    assert m == h + Fixed32(Utf8.Encode(version)) + Le16(0);
    assert m[2..4] == h[2..4] == Le16(|version|);
    ReadLe16At(|version|, m, 2);
  }

  /** A VersionMessage whose header gives the 32 bytes pack writes. */
  function CreateSizedVersionMessage(version: string): Message
  {
    Message(Header(GetVersion, 32), VersionText(version), Footer(0))
  }

  /** Its header always gives the true body size, and the text reads back. */
  lemma SizedVersionMessage(version: string)
    requires KeepsVersion(version)
    ensures var m := Pack(CreateSizedVersionMessage(version)).value;
      ReadLe16(m, 2) == |m| - HEADER_SIZE - FOOTER_SIZE
      && Unpack(VersionKind, m) == Ok(CreateSizedVersionMessage(version))
  {
    var msg := CreateSizedVersionMessage(version);
    var m := Pack(msg).value;
    ReadLe16At(32, m, 2);
    PackUnpack(msg);
    VersionRoundTrip(version);
  }

  /** create_set_ip_address_message labels its frame SetI2CAddress (0x0500), the
      type of a one-byte I2C address, not SetEthernetAddress (0x4000). */
  lemma IpAddressMislabelled(ip: int)
    requires 0 <= ip < U32
    ensures var m := Pack(CreateSetIpAddressMessage(ip)).value;
      ReadLe16(m, 0) == Value(SetI2CAddress) != Value(SetEthernetAddress)
  {
    var m := Pack(CreateSetIpAddressMessage(ip)).value;
    ReadLe16At(Value(SetI2CAddress), m, 0);
  }

  /** The address message under the SetEthernetAddress type. */
  function CreateEthernetAddressMessage(ipAddress: int): Message
  {
    Message(Header(SetEthernetAddress, 4), IpAddress(ipAddress), Footer(0))
  }

  /** Its frame reads back as SetEthernetAddress with the address. */
  lemma EthernetAddressMessage(ip: int)
    requires 0 <= ip < U32
    ensures var m := Pack(CreateEthernetAddressMessage(ip)).value;
      var u := Unpack(SetIpAddressKind, m);
      u.Ok? && u.value.header.messageType == SetEthernetAddress
      && u.value.body == IpAddress(ip)
  {
    PackUnpack(CreateEthernetAddressMessage(ip));
  }

  /** SetLedStateMessage.unpack raises ValueError for a state byte outside 0..5,
      after a header that unpacks. */
  lemma LedStateOutOfRange(h: seq<byte>, v: byte, f: seq<byte>)
    requires UnpackHeader(h).Ok? && v >= 6
    ensures Unpack(SetLedStateKind, h + [v] + f) == Err(ValueError)
  {
    SliceParts(h, [v], f);
  }

  /** SetLedColorMessage round-trips every colour of three bytes. */
  lemma LedColorRoundTrip(r: byte, g: byte, b: byte)
    ensures var m := Pack(CreateSetLedColorMessage(r, g, b));
      m.Ok? && Unpack(SetLedColorKind, m.value) == Ok(CreateSetLedColorMessage(r, g, b))
  {
    PackUnpack(CreateSetLedColorMessage(r, g, b));
  }
}
