/** The sync-prefixed revision of the protocol as the Python host library writes
    it (AxisMessages.py). A frame is the sync word 0xDEADBABE, a u16
    message type and a u16 body size (an 8-byte header, all little-endian), the
    body, and a u16 footer holding the sum of the body bytes modulo 0xFFFF. */
module SyncMessages {
  import opened Wrappers
  import opened Bytes

  const SYNC_BYTES: int := 0xDEAD_BABE
  const HEADER_SIZE: int := 8
  const FOOTER_SIZE: int := 2

  /** The message type constants in declaration order; each constant's value is its
      position, 0x00 to 0x43. */
  const MESSAGE_NAMES: seq<string> :=
    ["GetVersionId", "SetI2CAddressId", "GetI2CAddressId",
     "SetEthernetAddressId", "GetEthernetAddressId", "SetEthernetPortId",
     "GetEthernetPortId", "GetMacAddressId", "SaveConfigurationId",
     "SetLedStateId", "GetLedStateId", "SetLedColorId",
     "GetLedColorId", "SetHomeDirectionId", "GetHomeDirectionId",
     "SetHomeThresholdId", "GetHomeThresholdId", "SetHomeSpeedId",
     "GetHomeSpeedId", "GetHomedStateId", "HomeId",
     "SetMotorStateId", "GetMotorStateId", "SetMotorBrakeId",
     "GetMotorBrakeId", "SetMaxSpeedId", "GetMaxSpeedId",
     "SetAccelerationId", "GetAccelerationId", "SetCurrentPositionId",
     "GetCurrentPositionId", "SetTargetPositionId", "GetTargetPositionId",
     "SetRelativeTargetPositionId", "SetVelocityId", "GetVelocityId",
     "SetVelocityAndStepsId", "StartPathId", "SetHAEnableId",
     "GetHAEnableId", "SetHAModeId", "GetHAModeId",
     "SetHAIpAddressId", "GetHAIpAddressId", "SetHAVelocitySwitchOnSpeedId",
     "GetHAVelocitySwitchOnSpeedId", "SetHAVelocitySwitchOffSpeedId", "GetHAVelocitySwitchOffSpeedId",
     "SetHAPositionSwitchOnPositionId", "GetHAPositionSwitchOnPositionId", "SetHAPositionSwitchOffPositionId",
     "GetHAPositionSwitchOffPositionId", "SetHAVelocitySliderMinId", "GetHAVelocitySliderMinId",
     "SetHAVelocitySliderMaxId", "GetHAVelocitySliderMaxId", "SetHAPositionSliderMinId",
     "GetHAPositionSliderMinId", "SetHAPositionSliderMaxId", "GetHAPositionSliderMaxId",
     "SetHAMqttUserId", "GetHAMqttUserId", "SetHAMqttPasswordId",
     "GetHAMqttPasswordId", "SetHAMqttNameId", "GetHAMqttNameId",
     "SetHAMqttIconId", "GetHAMqttIconId"]

  // --- int.to_bytes, int.from_bytes and slicing --------------------------------------

  // --- Header and Footer ----------------------------------------------------------------

  datatype Header = Header(syncBytes: int, messageType: int, bodySize: int)

  predicate HeaderFits(h: Header)
  {
    0 <= h.syncBytes < U32 && 0 <= h.messageType < U16 && 0 <= h.bodySize < U16
  }

  /** Header.serialize: sync (4 bytes), type (2), body size (2), each to_bytes little-endian. */
  function SerializeHeader(h: Header): (r: Result<seq<byte>, PyError>)
    ensures r.Ok? <==> HeaderFits(h)
    ensures r.Err? ==> r.error == OverflowError
    ensures r.Ok? ==> |r.value| == HEADER_SIZE
  {
    var s := ToBytes(h.syncBytes, 4);
    var t := ToBytes(h.messageType, 2);
    var n := ToBytes(h.bodySize, 2);
    if s.Err? then Err(s.error)
    else if t.Err? then Err(t.error)
    else if n.Err? then Err(n.error)
    else Ok(s.value + t.value + n.value)
  }

  /** Header.deserialize: the three fields from the slices [0:4], [4:6] and [6:8]. */
  function DeserializeHeader(b: seq<byte>): Header
  {
    Header(FromLe(Slice(b, 0, 4)), FromLe(Slice(b, 4, 6)), FromLe(Slice(b, 6, 8)))
  }

  /** Header.deserialize inverts Header.serialize, whatever follows the header. */
  lemma HeaderRoundTrip(h: Header, rest: seq<byte>)
    requires HeaderFits(h)
    ensures DeserializeHeader(SerializeHeader(h).value + rest) == h
  {
    var b := SerializeHeader(h).value + rest;
    var s := ToBytes(h.syncBytes, 4).value;
    var t := ToBytes(h.messageType, 2).value;
    var n := ToBytes(h.bodySize, 2).value;
    assert b[0..4] == s && b[4..6] == t && b[6..8] == n;
  }

  /** Footer.serialize: the checksum as two little-endian bytes. */
  function SerializeFooter(checksum: int): (r: Result<seq<byte>, PyError>)
    ensures r.Ok? <==> 0 <= checksum < U16
    ensures r.Ok? ==> |r.value| == FOOTER_SIZE && FromLe(r.value) == checksum
  {
    ToBytes(checksum, 2)
  }

  /** The footer every message computes: the body bytes only, modulo 0xFFFF. */
  function BodyChecksum(body: seq<byte>): (r: nat)
    ensures r < 0xFFFF
  {
    Sum(body) % 0xFFFF
  }

  // --- Bodies ------------------------------------------------------------------------------

  /** The body classes the message classes are built from. */
  datatype Codec =
    | U8Body | S8Body | U32Body | DoubleBody | MacBody | LedColorBody
    | VelocityAndStepsBody | HAIpBody | StringBody

  /** The body_size each message class puts in its header. */
  function BodySize(c: Codec): nat
  {
    match c
    case U8Body => 1
    case S8Body => 1
    case U32Body => 4
    case DoubleBody => 8
    case MacBody => 6
    case LedColorBody => 3
    case VelocityAndStepsBody => 9
    case HAIpBody => 4
    case StringBody => 32
  }

  /** The codec of the message class each wrapper uses, indexed by message id. */
  const ID_CODECS: seq<Codec> :=
    [U32Body, U8Body, U8Body, U32Body,
     U32Body, U32Body, U32Body, MacBody,
     U8Body, U8Body, U8Body, LedColorBody,
     LedColorBody, S8Body, S8Body, U32Body,
     U32Body, U32Body, U32Body, U8Body,
     U32Body, U8Body, U8Body, U8Body,
     U8Body, U32Body, U32Body, U32Body,
     U32Body, DoubleBody, DoubleBody, DoubleBody,
     DoubleBody, DoubleBody, DoubleBody, DoubleBody,
     VelocityAndStepsBody, U8Body, U8Body, U8Body,
     U8Body, U8Body, HAIpBody, HAIpBody,
     DoubleBody, DoubleBody, DoubleBody, DoubleBody,
     DoubleBody, DoubleBody, DoubleBody, DoubleBody,
     DoubleBody, DoubleBody, DoubleBody, DoubleBody,
     DoubleBody, DoubleBody, DoubleBody, DoubleBody,
     StringBody, StringBody, StringBody, StringBody,
     StringBody, StringBody, StringBody, StringBody]

  /** A Python value handed to a message class: an int, a list or bytes-like of ints
      (for bytearray), a double given by its eight IEEE-754 bytes, or the three
      fields of a VelocityAndSteps body. */
  datatype Value =
    | Int(n: int)
    | ByteList(items: seq<int>)
    | Float(bits: seq<byte>)
    | VelocityAndSteps(velocity: int, steps: int, positionMode: int)

  predicate AllBytes(items: seq<int>)
  {
    forall i :: 0 <= i < |items| ==> 0 <= items[i] < 256
  }

  function AsBytes(items: seq<int>): (r: seq<byte>)
    requires AllBytes(items)
    ensures r == items
  {
    if |items| == 0 then [] else [items[0] as byte] + AsBytes(items[1..])
  }

  /** bytearray(x): an int n gives n zero bytes (ValueError when negative); a list
      gives its items, each of which must be a byte (ValueError otherwise). */
  function ByteArray(v: Value): (r: Result<seq<byte>, PyError>)
    ensures v.Int? ==> (r.Ok? <==> v.n >= 0)
    ensures v.Int? && r.Ok? ==> r.value == Zeros(v.n)
    ensures v.ByteList? ==> (r.Ok? <==> AllBytes(v.items))
    ensures v.ByteList? && r.Ok? ==> r.value == v.items
    ensures r.Err? ==> r.error == ValueError || r.error == TypeError
  {
    match v
    case Int(n) => if n >= 0 then Ok(Zeros(n)) else Err(ValueError)
    case ByteList(items) => if AllBytes(items) then Ok(AsBytes(items)) else Err(ValueError)
    case Float(_) => Err(TypeError)
    case VelocityAndSteps(_, _, _) => Err(TypeError)
  }

  const INT32_MIN: int := -0x8000_0000
  const INT32_MAX: int := 0x7FFF_FFFF

  /** struct.pack('<i', v): struct.error outside the int32 range. */
  function PackInt32(v: int): (r: Result<seq<byte>, PyError>)
    ensures r.Ok? <==> INT32_MIN <= v <= INT32_MAX
    ensures r.Err? ==> r.error == StructError
    ensures r.Ok? ==> |r.value| == 4 && Signed(FromLe(r.value), 4) == v
  {
    if INT32_MIN <= v <= INT32_MAX then
      assert Pow256(4) == U32;
      FromToLe(Unsigned(v, 4), 4);
      SignedUnsigned(v, 4);
      Ok(ToLe(Unsigned(v, 4), 4))
    else Err(StructError)
  }

  /** The body bytes a message class serializes for a value. */
  function SerializeBody(c: Codec, v: Value): (r: Result<seq<byte>, PyError>)
    ensures r.Ok? && c != MacBody && c != LedColorBody && c != HAIpBody && c != StringBody
            ==> |r.value| == BodySize(c)
  {
    match c
    case U8Body => if v.Int? then ToBytes(v.n, 1) else Err(TypeError)
    case S8Body => if v.Int? then ToBytes(v.n, 1) else Err(TypeError)
    case U32Body => if v.Int? then ToBytes(v.n, 4) else Err(TypeError)
    case DoubleBody => if v.Float? && |v.bits| == 8 then Ok(v.bits) else Err(TypeError)
    case MacBody => ByteArray(v)
    case LedColorBody => ByteArray(v)
    case HAIpBody => ByteArray(v)
    case StringBody => ByteArray(v)
    case VelocityAndStepsBody =>
      if !v.VelocityAndSteps? then Err(TypeError)
      else
        var a := PackInt32(v.velocity);
        var b := PackInt32(v.steps);
        var m := ToBytes(v.positionMode, 1);
        if a.Err? then Err(a.error)
        else if b.Err? then Err(b.error)
        else if m.Err? then Err(StructError)
        else Ok(a.value + b.value + m.value)
  }

  /** <Class>(msg_id, value).serialize(): the constructor serializes the body for the
      footer first, then the header, body and footer are written in order. */
  function Serialize(c: Codec, msgId: int, v: Value): (r: Result<seq<byte>, PyError>)
    ensures r.Ok? <==> SerializeBody(c, v).Ok? && 0 <= msgId < U16
    ensures r.Err? && SerializeBody(c, v).Ok? ==> r.error == OverflowError
  {
    var body := SerializeBody(c, v);
    if body.Err? then Err(body.error)
    else
      var h := SerializeHeader(Header(SYNC_BYTES, msgId, BodySize(c)));
      if h.Err? then Err(h.error)
      else
        var f := SerializeFooter(BodyChecksum(body.value));
        Ok(h.value + body.value + f.value)
  }

  /** A serialized message: the header names the sync word, the type and the class's
      body size, the body follows, and the footer is the body's sum modulo 0xFFFF,
      the header bytes taking no part in it. */
  lemma SerializeLayout(c: Codec, msgId: int, v: Value)
    requires Serialize(c, msgId, v).Ok?
    ensures var m := Serialize(c, msgId, v).value;
      var body := SerializeBody(c, v).value;
      && |m| == HEADER_SIZE + |body| + FOOTER_SIZE
      && DeserializeHeader(m) == Header(SYNC_BYTES, msgId, BodySize(c))
      && m[HEADER_SIZE..HEADER_SIZE + |body|] == body
      && FromLe(m[|m| - 2..]) == Sum(body) % 0xFFFF
  {
    var body := SerializeBody(c, v).value;
    var hdr := Header(SYNC_BYTES, msgId, BodySize(c));
    var h := SerializeHeader(hdr).value;
    var f := SerializeFooter(BodyChecksum(body)).value;
    FrameParts(h, body, f);
    HeaderRoundTrip(hdr, body + f);
    Associate(h, body, f);
  }

  /** Where the parts of a frame lie. */
  lemma FrameParts(h: seq<byte>, body: seq<byte>, f: seq<byte>)
    requires |h| == HEADER_SIZE && |f| == FOOTER_SIZE
    ensures var m := h + body + f;
      && |m| == HEADER_SIZE + |body| + FOOTER_SIZE
      && m[HEADER_SIZE..HEADER_SIZE + |body|] == body
      && m[|m| - 2..] == f
  {
  }

  /** S8Message serializes with unsigned to_bytes, so a negative value raises. */
  lemma S8RejectsNegative(msgId: int, v: int)
    requires v < 0
    ensures Serialize(S8Body, msgId, Int(v)) == Err(OverflowError)
  {
  }

  // --- Deserialization ------------------------------------------------------------------

  /** What <Class>.deserialize recovers: the header fields, the body value and the
      footer checksum. */
  datatype Decoded = Decoded(header: Header, value: Value, checksum: int)

  /** VelocityAndStepsBody.deserialize: velocity and steps read unsigned, then the
      message constructor re-serializes them with '<i' for its footer. */
  function DecodeVelocityAndSteps(body: seq<byte>): (r: Result<Value, PyError>)
    ensures r.Ok? ==> r.value.VelocityAndSteps? && 0 <= r.value.velocity && 0 <= r.value.steps
  {
    var v := VelocityAndSteps(FromLe(Slice(body, 0, 4)), FromLe(Slice(body, 4, 8)), FromLe(Slice(body, 8, 9)));
    var check := SerializeBody(VelocityAndStepsBody, v);
    if check.Err? then Err(check.error) else Ok(v)
  }

  /** <Class>.deserialize: fixed slices after the 8-byte header, with no check of the
      sync word, the type, the body size or the checksum. Only a double body shorter
      than 8 bytes and a VelocityAndSteps body that cannot be packed again raise. */
  function Deserialize(c: Codec, b: seq<byte>): (r: Result<Decoded, PyError>)
    ensures r.Err? ==> r.error == StructError && (c == DoubleBody || c == VelocityAndStepsBody)
    ensures r.Ok? ==> r.value.header == DeserializeHeader(b)
  {
    var n := BodySize(c);
    var header := DeserializeHeader(Slice(b, 0, 8));
    assert header == DeserializeHeader(b) by {
      assert Slice(Slice(b, 0, 8), 0, 4) == Slice(b, 0, 4);
      assert Slice(Slice(b, 0, 8), 4, 6) == Slice(b, 4, 6);
      assert Slice(Slice(b, 0, 8), 6, 8) == Slice(b, 6, 8);
    }
    var body := Slice(b, HEADER_SIZE, HEADER_SIZE + n);
    var checksum := FromLe(Slice(b, HEADER_SIZE + n, HEADER_SIZE + n + FOOTER_SIZE));
    var value := DecodeBody(c, body);
    if value.Err? then Err(value.error) else Ok(Decoded(header, value.value, checksum))
  }

  /** The body value each class's deserialize reads from its slice. */
  function DecodeBody(c: Codec, body: seq<byte>): (r: Result<Value, PyError>)
    ensures r.Err? ==> r.error == StructError && (c == DoubleBody || c == VelocityAndStepsBody)
  {
    match c
    case U8Body => Ok(Int(FromLe(body)))
    case S8Body => Ok(Int(FromLe(body)))
    case U32Body => Ok(Int(FromLe(body)))
    case DoubleBody => if |body| == 8 then Ok(Float(body)) else Err(StructError)
    case MacBody => Ok(ByteList(body))
    case LedColorBody => Ok(ByteList(body))
    case HAIpBody => Ok(ByteList(body))
    case StringBody => Ok(ByteList(body))
    case VelocityAndStepsBody => DecodeVelocityAndSteps(body)
  }

  /** deserialize over a header, a body of the class's size and a footer reads the
      three parts back where they were written. */
  lemma DeserializeFrame(c: Codec, h: seq<byte>, body: seq<byte>, f: seq<byte>)
    requires |h| == HEADER_SIZE && |body| == BodySize(c) && |f| == FOOTER_SIZE
    ensures var d := DecodeBody(c, body);
      Deserialize(c, h + body + f)
      == if d.Err? then Err(d.error) else Ok(Decoded(DeserializeHeader(h), d.value, FromLe(f)))
  {
    var m := h + body + f;
    assert m[0..HEADER_SIZE] == h;
    assert Slice(m, 0, HEADER_SIZE) == h;
    SliceOfFrame(h, body, f);
  }

  /** deserialize never looks at the sync word, the type, the body size or the
      checksum: apart from the two codecs that can raise, every input decodes. */
  lemma DeserializeAccepts(c: Codec, b: seq<byte>)
    requires c != DoubleBody && c != VelocityAndStepsBody
    ensures Deserialize(c, b).Ok?
  {
  }

  lemma SliceOfFrame(h: seq<byte>, body: seq<byte>, f: seq<byte>)
    requires |h| == HEADER_SIZE && |f| == FOOTER_SIZE
    ensures Slice(h + body + f, HEADER_SIZE, HEADER_SIZE + |body|) == body
    ensures Slice(h + body + f, HEADER_SIZE + |body|, HEADER_SIZE + |body| + FOOTER_SIZE) == f
  {
    var m := h + body + f;
    assert m[HEADER_SIZE..HEADER_SIZE + |body|] == body;
    assert m[HEADER_SIZE + |body|..HEADER_SIZE + |body| + FOOTER_SIZE] == f;
  }

  /** VersionMessage and the other u8/u32 classes: deserialize(serialize) recovers
      the id, the value and the footer for every value the class can encode. */
  lemma IntRoundTrip(c: Codec, msgId: int, v: int)
    requires c == U8Body || c == S8Body || c == U32Body
    requires 0 <= msgId < U16 && 0 <= v < Pow256(BodySize(c))
    ensures Serialize(c, msgId, Int(v)).Ok?
    ensures Deserialize(c, Serialize(c, msgId, Int(v)).value)
            == Ok(Decoded(Header(SYNC_BYTES, msgId, BodySize(c)), Int(v), BodyChecksum(ToLe(v, BodySize(c)))))
  {
    var body := SerializeBody(c, Int(v)).value;
    assert body == ToLe(v, BodySize(c));
    FrameRoundTrip(c, msgId, Int(v));
  }

  /** Values outside the class's unsigned range raise OverflowError instead. */
  lemma IntOutOfRange(c: Codec, msgId: int, v: int)
    requires c == U8Body || c == S8Body || c == U32Body
    requires !(0 <= v < Pow256(BodySize(c)))
    ensures Serialize(c, msgId, Int(v)) == Err(OverflowError)
  {
  }

  /** The MAC, LED colour, HA address and string classes carry bytes through: a list
      of exactly body_size bytes round-trips. */
  lemma ByteListRoundTrip(c: Codec, msgId: int, items: seq<byte>)
    requires c == MacBody || c == LedColorBody || c == HAIpBody || c == StringBody
    requires 0 <= msgId < U16 && |items| == BodySize(c)
    ensures Serialize(c, msgId, ByteList(items)).Ok?
    ensures Deserialize(c, Serialize(c, msgId, ByteList(items)).value)
            == Ok(Decoded(Header(SYNC_BYTES, msgId, BodySize(c)), ByteList(items), BodyChecksum(items)))
  {
    FrameRoundTrip(c, msgId, ByteList(items));
  }

  /** Double bodies are carried as their eight bytes and come back unchanged. */
  lemma DoubleRoundTrip(msgId: int, bits: seq<byte>)
    requires 0 <= msgId < U16 && |bits| == 8
    ensures Serialize(DoubleBody, msgId, Float(bits)).Ok?
    ensures Deserialize(DoubleBody, Serialize(DoubleBody, msgId, Float(bits)).value)
            == Ok(Decoded(Header(SYNC_BYTES, msgId, 8), Float(bits), BodyChecksum(bits)))
  {
    FrameRoundTrip(DoubleBody, msgId, Float(bits));
  }

  /** A message whose body has the class's size and decodes back to its value
      round-trips with its header and footer. */
  lemma FrameRoundTrip(c: Codec, msgId: int, v: Value)
    requires 0 <= msgId < U16 && SerializeBody(c, v).Ok?
    requires |SerializeBody(c, v).value| == BodySize(c)
    requires DecodeBody(c, SerializeBody(c, v).value) == Ok(v)
    ensures Serialize(c, msgId, v).Ok?
    ensures Deserialize(c, Serialize(c, msgId, v).value)
            == Ok(Decoded(Header(SYNC_BYTES, msgId, BodySize(c)), v, BodyChecksum(SerializeBody(c, v).value)))
  {
    var body := SerializeBody(c, v).value;
    var hdr := Header(SYNC_BYTES, msgId, BodySize(c));
    var h := SerializeHeader(hdr).value;
    var f := SerializeFooter(BodyChecksum(body)).value;
    DeserializeFrame(c, h, body, f);
    HeaderRoundTrip(hdr, []);
    assert h + [] == h;
  }

  /** The VelocityAndSteps body of a serialized message: two '<i' fields and a '<B'. */
  lemma VelocityAndStepsBodyLayout(msgId: int, velocity: int, steps: int, mode: int)
    requires Serialize(VelocityAndStepsBody, msgId, VelocityAndSteps(velocity, steps, mode)).Ok?
    ensures var m := Serialize(VelocityAndStepsBody, msgId, VelocityAndSteps(velocity, steps, mode)).value;
      var body := Slice(m, HEADER_SIZE, HEADER_SIZE + 9);
      && Signed(FromLe(Slice(body, 0, 4)), 4) == velocity
      && Signed(FromLe(Slice(body, 4, 8)), 4) == steps
      && FromLe(Slice(body, 8, 9)) == mode
  {
    var body := SerializeBody(VelocityAndStepsBody, VelocityAndSteps(velocity, steps, mode)).value;
    var h := SerializeHeader(Header(SYNC_BYTES, msgId, 9)).value;
    var f := SerializeFooter(BodyChecksum(body)).value;
    SliceOfFrame(h, body, f);
    var a := PackInt32(velocity).value;
    var b := PackInt32(steps).value;
    var p := ToBytes(mode, 1).value;
    assert body == a + b + p;
    assert body[0..4] == a && body[4..8] == b && body[8..9] == p;
  }

  /** As written, a negative velocity does not survive: deserialize reads it back
      unsigned, as v + 2^32, and the message constructor's '<i' re-pack of that value
      raises struct.error. */
  lemma VelocityAndStepsNegativeRaises(msgId: int, velocity: int, steps: int, mode: int)
    requires Serialize(VelocityAndStepsBody, msgId, VelocityAndSteps(velocity, steps, mode)).Ok?
    requires velocity < 0
    ensures Deserialize(VelocityAndStepsBody,
                        Serialize(VelocityAndStepsBody, msgId, VelocityAndSteps(velocity, steps, mode)).value)
            == Err(StructError)
  {
    var m := Serialize(VelocityAndStepsBody, msgId, VelocityAndSteps(velocity, steps, mode)).value;
    VelocityAndStepsBodyLayout(msgId, velocity, steps, mode);
    var body := Slice(m, HEADER_SIZE, HEADER_SIZE + 9);
    assert FromLe(Slice(body, 0, 4)) >= 0x8000_0000 by {
      assert Pow256(4) == U32;
    }
  }

  /** The body decoder the packing side implies: velocity and steps read back with
      '<i', signed. */
  function DecodeVelocityAndStepsSigned(body: seq<byte>): (r: Value)
    ensures r.VelocityAndSteps?
    ensures |body| >= 8 ==> INT32_MIN <= r.velocity <= INT32_MAX && INT32_MIN <= r.steps <= INT32_MAX
  {
    var v := FromLe(Slice(body, 0, 4));
    var s := FromLe(Slice(body, 4, 8));
    if |body| >= 8 then
      FromLeBound(Slice(body, 0, 4));
      FromLeBound(Slice(body, 4, 8));
      assert Pow256(4) == U32;
      VelocityAndSteps(Signed(v, 4), Signed(s, 4), FromLe(Slice(body, 8, 9)))
    else VelocityAndSteps(v, s, FromLe(Slice(body, 8, 9)))
  }

  /** With the signed decoder every packable VelocityAndSteps value round-trips. */
  lemma VelocityAndStepsSignedRoundTrip(msgId: int, velocity: int, steps: int, mode: int)
    requires Serialize(VelocityAndStepsBody, msgId, VelocityAndSteps(velocity, steps, mode)).Ok?
    ensures var m := Serialize(VelocityAndStepsBody, msgId, VelocityAndSteps(velocity, steps, mode)).value;
      DecodeVelocityAndStepsSigned(Slice(m, HEADER_SIZE, HEADER_SIZE + 9)) == VelocityAndSteps(velocity, steps, mode)
  {
    VelocityAndStepsBodyLayout(msgId, velocity, steps, mode);
    var body := SerializeBody(VelocityAndStepsBody, VelocityAndSteps(velocity, steps, mode)).value;
    var m := Serialize(VelocityAndStepsBody, msgId, VelocityAndSteps(velocity, steps, mode)).value;
    SerializeLayout(VelocityAndStepsBody, msgId, VelocityAndSteps(velocity, steps, mode));
    assert Slice(m, HEADER_SIZE, HEADER_SIZE + 9) == body;
  }

  // --- Get and Set wrappers -----------------------------------------------------------

  /** The value a Get wrapper sends: 0, which struct.pack('d', 0) writes as eight zero
      bytes for the double classes. */
  function ZeroValue(c: Codec): Value
  {
    if c == DoubleBody then Float(Zeros(8)) else Int(0)
  }

  /** A Get request always serializes, and for the byte-string classes it carries no
      body at all even though its header declares the class's body size. */
  lemma GetRequestShape(c: Codec, getId: int)
    requires c != VelocityAndStepsBody && 0 <= getId < U16
    ensures Serialize(c, getId, ZeroValue(c)).Ok?
    ensures c == MacBody || c == LedColorBody || c == HAIpBody || c == StringBody
            ==> |Serialize(c, getId, ZeroValue(c)).value| == HEADER_SIZE + FOOTER_SIZE
    ensures DeserializeHeader(Serialize(c, getId, ZeroValue(c)).value).bodySize == BodySize(c)
  {
    SerializeLayout(c, getId, ZeroValue(c));
  }

  /** How a Get wrapper treats the reply wait_message returned: no reply fails at
      ret[4] with TypeError, a reply of 4 bytes or fewer with IndexError; a reply whose
      byte 4 is the request id is deserialized and its body returned; any other reply
      gives None. */
  function GetReply(c: Codec, getId: int, reply: Option<seq<byte>>): (r: Result<Option<Value>, PyError>)
    ensures reply.None? ==> r == Err(TypeError)
    ensures reply.Some? && |reply.value| <= 4 ==> r == Err(IndexError)
    ensures r.Ok? && r.value.Some? ==> reply.Some? && |reply.value| > 4 && reply.value[4] == getId
    ensures reply.Some? && |reply.value| > 4 && reply.value[4] != getId ==> r == Ok(None)
    ensures reply.Some? && |reply.value| > 4 && reply.value[4] == getId && Deserialize(c, reply.value).Ok?
            ==> r == Ok(Some(Deserialize(c, reply.value).value.value))
  {
    match reply
    case None => Err(TypeError)
    case Some(ret) =>
      if |ret| <= 4 then Err(IndexError)
      else Answer(getId, ret, Deserialize(c, ret))
  }

  /** What the Get wrapper makes of a reply long enough to carry a type byte,
      given what deserializing it gives (consulted only when the type matches). */
  function Answer(getId: int, ret: seq<byte>, msg: Result<Decoded, PyError>): (r: Result<Option<Value>, PyError>)
    requires |ret| > 4
    ensures r.Ok? && r.value.Some? <==> ret[4] == getId && msg.Ok?
    ensures r.Err? ==> msg.Err? && r.error == msg.error
  {
    if ret[4] == getId then
      if msg.Err? then Err(msg.error) else Ok(Some(msg.value.value))
    else Ok(None)
  }

  /** A device answering a Get with the value it holds: the wrapper returns that value. */
  lemma GetOfIntReply(c: Codec, getId: int, v: int)
    requires c == U8Body || c == S8Body || c == U32Body
    requires 0 <= getId < 256 && 0 <= v < Pow256(BodySize(c))
    ensures GetReply(c, getId, Some(Serialize(c, getId, Int(v)).value)) == Ok(Some(Int(v)))
  {
    var m := Serialize(c, getId, Int(v)).value;
    IntRoundTrip(c, getId, v);
    TypeByte(c, getId, Int(v));
    GetOfDecoded(getId, m, Deserialize(c, m), Int(v));
    assert GetReply(c, getId, Some(m)) == Answer(getId, m, Deserialize(c, m));
  }

  /** A reply whose type byte matches and which deserializes gives its value. */
  lemma GetOfDecoded(getId: int, m: seq<byte>, msg: Result<Decoded, PyError>, v: Value)
    requires |m| > 4 && m[4] == getId % 256 && 0 <= getId < 256
    requires msg.Ok? && msg.value.value == v
    ensures Answer(getId, m, msg) == Ok(Some(v))
  {
    assert m[4] == getId;
  }

  /** Byte 4 of a serialized message is the low byte of its type. */
  lemma TypeByte(c: Codec, msgId: int, v: Value)
    requires Serialize(c, msgId, v).Ok?
    ensures |Serialize(c, msgId, v).value| > 4 && Serialize(c, msgId, v).value[4] == msgId % 256
  {
    var h := SerializeHeader(Header(SYNC_BYTES, msgId, BodySize(c))).value;
    var t := ToBytes(msgId, 2).value;
    assert h[4] == t[0];
    assert t == ToLe(msgId, 2);
  }

  /** The connection the wrappers talk through: the frames sent so far, and the
      replies wait_message will return in turn (None once they run out). */
  class Axis {
    var sent: seq<seq<byte>>
    var replies: seq<Option<seq<byte>>>

    constructor(replies: seq<Option<seq<byte>>>)
      ensures this.sent == [] && this.replies == replies
    {
      this.sent := [];
      this.replies := replies;
    }

    method SendMessage(m: seq<byte>)
      modifies this
      ensures sent == old(sent) + [m] && replies == old(replies)
    {
      sent := sent + [m];
    }

    method WaitMessage() returns (r: Option<seq<byte>>)
      modifies this
      ensures old(replies) == [] ==> r.None? && replies == []
      ensures old(replies) != [] ==> r == old(replies)[0] && replies == old(replies)[1..]
      ensures sent == old(sent)
    {
      if replies == [] {
        r := None;
      } else {
        r := replies[0];
        replies := replies[1..];
      }
    }
  }

  /** Get<Field>: send the class's message with value 0 under the Get id, wait for
      one reply and decode it as GetReply says. */
  method Get(axis: Axis, c: Codec, getId: int) returns (r: Result<Option<Value>, PyError>)
    requires 0 <= getId < |MESSAGE_NAMES| && c == ID_CODECS[getId] && c != VelocityAndStepsBody
    modifies axis
    ensures Serialize(c, getId, ZeroValue(c)).Ok?
    ensures axis.sent == old(axis.sent) + [Serialize(c, getId, ZeroValue(c)).value]
    ensures old(axis.replies) == [] ==> r == Err(TypeError) && axis.replies == []
    ensures old(axis.replies) != [] ==> r == GetReply(c, getId, old(axis.replies)[0])
                                        && axis.replies == old(axis.replies)[1..]
  {
    GetRequestShape(c, getId);
    var request := Serialize(c, getId, ZeroValue(c)).value;
    axis.SendMessage(request);
    var ret := axis.WaitMessage();
    r := GetReply(c, getId, ret);
  }

  /** Set<Field>: serialize the value under the Set id and send it; nothing is sent
      when serialization raises. No reply is read. */
  method Set(axis: Axis, c: Codec, setId: int, v: Value) returns (r: Result<(), PyError>)
    modifies axis
    ensures r.Ok? <==> Serialize(c, setId, v).Ok?
    ensures r.Ok? ==> axis.sent == old(axis.sent) + [Serialize(c, setId, v).value]
    ensures r.Err? ==> r.error == Serialize(c, setId, v).error && axis.sent == old(axis.sent)
    ensures axis.replies == old(axis.replies)
  {
    var m := Serialize(c, setId, v);
    if m.Err? {
      return Err(m.error);
    }
    axis.SendMessage(m.value);
    r := Ok(());
  }
}
