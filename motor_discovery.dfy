/** Finding the two gimbal motors on the serial ports (DualMotorGimbal.py): probe
    every AxisDriver port for its MAC address, take the port that reports the
    pitch motor's address as pitch and the first other responding port as yaw,
    close the ports that gave no address, and configure a motor for velocity
    control. A port is an index into the scanned list; each port's connection
    answers from its own script of replies. */
module MotorDiscovery {
  import opened Wrappers
  import opened Bytes
  import opened Transport
  import AxisCatalog
  import AxisProtocol

  /** The USB identity of an AxisDriver board. */
  const AXIS_VID: int := 0x239A
  const AXIS_PID: int := 0x8031

  /** The pitch motor's MAC address FC:C2:3D:6D:B4:2A as an integer. */
  const PITCH_MOTOR_MAC: nat := 0xFCC23D6DB42A
  const PITCH_MAC_BYTES: seq<byte> := [0xFC, 0xC2, 0x3D, 0x6D, 0xB4, 0x2A]

  /** A serial port as the scan sees it: its USB ids, whether opening an
      AxisSerial on it returned, and what its connection answers. */
  datatype Port = Port(vid: int, pid: int, opens: bool, replies: seq<Reply>)

  /** Only AxisDriver boards are probed. */
  predicate Probed(p: Port)
  {
    p.vid == AXIS_VID && p.pid == AXIS_PID
  }

  // --- MAC addresses ------------------------------------------------------------------

  /** int.from_bytes(s, byteorder='big'). */
  function FromBe(s: seq<byte>): (r: nat)
    ensures r < Pow256(|s|)
  {
    if |s| == 0 then 0 else FromBe(s[..|s| - 1]) * 256 + s[|s| - 1]
  }

  /** Two addresses of the same length read as the same integer only if they
      are the same bytes. */
  lemma {:induction false} FromBeInjective(a: seq<byte>, b: seq<byte>)
    requires |a| == |b| && FromBe(a) == FromBe(b)
    ensures a == b
  {
    if |a| > 0 {
      var n := |a| - 1;
      assert a[n] == FromBe(a) % 256 && b[n] == FromBe(b) % 256;
      assert FromBe(a[..n]) == FromBe(a) / 256 && FromBe(b[..n]) == FromBe(b) / 256;
      FromBeInjective(a[..n], b[..n]);
      assert a == a[..n] + [a[n]] && b == b[..n] + [b[n]];
    }
  }

  /** A six-byte address is the pitch motor's exactly when its bytes are
      FC C2 3D 6D B4 2A in wire order. */
  lemma PitchMacBytes(mac: seq<byte>)
    requires |mac| == 6
    ensures FromBe(mac) == PITCH_MOTOR_MAC <==> mac == PITCH_MAC_BYTES
  {
    var p := PITCH_MAC_BYTES;
    assert FromBe(p[..1]) == 0xFC by { assert p[..1][..0] == []; }
    assert FromBe(p[..2]) == 0xFCC2 by { assert p[..2][..1] == p[..1]; }
    assert FromBe(p[..3]) == 0xFCC23D by { assert p[..3][..2] == p[..2]; }
    assert FromBe(p[..4]) == 0xFCC23D6D by { assert p[..4][..3] == p[..3]; }
    assert FromBe(p[..5]) == 0xFCC23D6DB4 by { assert p[..5][..4] == p[..4]; }
    assert FromBe(p) == PITCH_MOTOR_MAC by { assert p[..5] == p[..|p| - 1]; }
    if FromBe(mac) == PITCH_MOTOR_MAC {
      FromBeInjective(mac, p);
    }
  }

  /** The MAC request every probe sends: GetMacAddressMessage(). */
  function MacRequest(): (m: seq<byte>)
    ensures |m| == 6 && AxisProtocol.Frames(m, AxisProtocol.PyId(AxisCatalog.GetMacAddress), [])
  {
    AxisProtocol.RequestMessage(AxisCatalog.GetMacAddress).value
  }

  /** What get_motor_mac_address makes of one reply: the six address bytes of a
      reply that parses, None for a timeout, an empty reply, an exception, or a
      reply that parse_get_mac_address_response rejects. */
  function MacOf(r: Reply): (m: Option<seq<byte>>)
    ensures m.Some? <==> Truthy(r) && AxisProtocol.ParseMacResponse(r.bytes).Ok?
    ensures m.Some? ==> |m.value| == 6
                        && AxisProtocol.Frames(r.bytes, AxisProtocol.PyId(AxisCatalog.GetMacAddress), m.value)
  {
    if !Truthy(r) then None
    else match AxisProtocol.ParseMacResponse(r.bytes)
      case Ok(mac) => Some(mac)
      case Err(_) => None
  }

  /** A board's own MAC response yields its address. */
  lemma MacOfResponse(mac: seq<byte>)
    requires |mac| == 6
    ensures MacOf(Data(AxisProtocol.CreateMessage(AxisProtocol.PyId(AxisCatalog.GetMacAddress), mac).value)) == Some(mac)
  {
    AxisProtocol.ParseMacOfCreated(mac);
  }

  // --- Roles ----------------------------------------------------------------------------

  datatype Role = Pitch | Other

  /** Port p answered the probe with an address, and it is the pitch motor's
      (Pitch) or another one (Other). */
  predicate Reports(p: Port, role: Role)
  {
    Probed(p) && p.opens && MacOf(At(p.replies, 0)).Some?
    && (FromBe(MacOf(At(p.replies, 0)).value) == PITCH_MOTOR_MAC <==> role == Pitch)
  }

  /** The last port that reports the role: a later report replaces an earlier one. */
  function Last(ports: seq<Port>, role: Role): (r: Option<nat>)
    ensures r.Some? ==> r.value < |ports| && Reports(ports[r.value], role)
                        && forall j :: r.value < j < |ports| ==> !Reports(ports[j], role)
    ensures r.None? ==> forall j :: 0 <= j < |ports| ==> !Reports(ports[j], role)
  {
    if |ports| == 0 then None
    else if Reports(ports[|ports| - 1], role) then Some(|ports| - 1)
    else Last(ports[..|ports| - 1], role)
  }

  /** The ports that report another address, in scan order; the first of them
      is the earliest such port. */
  function Others(ports: seq<Port>): (r: seq<nat>)
    ensures forall i :: 0 <= i < |r| ==> r[i] < |ports|
    ensures forall i :: i in r <==> 0 <= i < |ports| && Reports(ports[i], Other)
    ensures forall a, b :: 0 <= a < b < |r| ==> r[a] < r[b]
    ensures r != [] ==> forall j :: 0 <= j < r[0] ==> !Reports(ports[j], Other)
  {
    if |ports| == 0 then []
    else
      var init := Others(ports[..|ports| - 1]);
      if Reports(ports[|ports| - 1], Other) then init + [|ports| - 1] else init
  }

  /** What the scan has gathered: the pitch port, the other responding ports in
      order, the port `motor` names, and the ports closed so far. */
  datatype Scan = Scan(pitch: Option<nat>, discovered: seq<nat>, motor: Option<nat>, closed: seq<nat>)

  /** One iteration of discover_motors' loop on port p, the i-th scanned. When
      opening p raises, the handler closes whatever `motor` still names. */
  function ScanStep(s: Scan, p: Port, i: nat): Scan
  {
    if !Probed(p) then s
    else if !p.opens then s.(closed := s.closed + (if s.motor.Some? then [s.motor.value] else []))
    else match MacOf(At(p.replies, 0))
      case None => s.(motor := Some(i), closed := s.closed + [i])
      case Some(mac) =>
        if FromBe(mac) == PITCH_MOTOR_MAC then s.(motor := Some(i), pitch := Some(i))
        else s.(motor := Some(i), discovered := s.discovered + [i])
  }

  /** The state of the scan after the given ports. */
  function Scanned(ports: seq<Port>): Scan
  {
    if |ports| == 0 then Scan(None, [], None, [])
    else ScanStep(Scanned(ports[..|ports| - 1]), ports[|ports| - 1], |ports| - 1)
  }

  /** The scan keeps the last pitch report and every other report in order. */
  lemma {:induction false} ScannedRoles(ports: seq<Port>)
    ensures Scanned(ports).pitch == Last(ports, Pitch)
    ensures Scanned(ports).discovered == Others(ports)
  {
    if |ports| > 0 {
      ScannedRoles(ports[..|ports| - 1]);
    }
  }

  /** Only probed ports that opened are named by `motor` or closed, and a
      probed port that opened but gave no address is closed. */
  lemma {:induction false} ScannedCloses(ports: seq<Port>)
    ensures var s := Scanned(ports);
      && (s.motor.Some? ==> s.motor.value < |ports| && Probed(ports[s.motor.value]) && ports[s.motor.value].opens)
      && (forall k :: 0 <= k < |s.closed| ==> s.closed[k] < |ports| && Probed(ports[s.closed[k]]) && ports[s.closed[k]].opens)
      && (forall i :: 0 <= i < |ports| && Probed(ports[i]) && ports[i].opens && MacOf(At(ports[i].replies, 0)).None?
            ==> i in s.closed)
  {
    if |ports| > 0 {
      var n := |ports| - 1;
      var init := ports[..n];
      ScannedCloses(init);
      var s0 := Scanned(init);
      assert forall i :: 0 <= i < n ==> init[i] == ports[i];
      assert forall k :: 0 <= k < |s0.closed| ==> s0.closed[k] in Scanned(ports).closed;
    }
  }

  /** A port whose probe gave an address is never closed unless a later port
      fails to open. */
  lemma {:induction false} ReportingPortsStayOpen(ports: seq<Port>, i: nat)
    requires i < |ports| && (Reports(ports[i], Pitch) || Reports(ports[i], Other))
    requires forall j :: i < j < |ports| && Probed(ports[j]) ==> ports[j].opens
    ensures i !in Scanned(ports).closed
  {
    var n := |ports| - 1;
    if i < n {
      ReportingPortsStayOpen(ports[..n], i);
    } else {
      ScannedCloses(ports[..n]);
    }
  }

  /** When the port after the pitch motor fails to open, the handler closes the
      pitch motor's port, which discover_motors still returns as pitch. */
  lemma PitchClosedByLaterFailure(pitch: Port, failing: Port)
    requires Reports(pitch, Pitch) && Probed(failing) && !failing.opens
    ensures var s := Scanned([pitch, failing]);
      s.pitch == Some(0) && s.closed == [0]
  {
    var ports := [pitch, failing];
    assert ports[..1] == [pitch];
    assert ports[..1][..0] == [];
    var s1 := Scanned([pitch]);
    assert [pitch][..0] == [];
    assert s1 == ScanStep(Scanned([]), pitch, 0);
    assert s1.motor == Some(0) && s1.closed == [] && s1.pitch == Some(0);
  }

  /** With Axis.py as it stands, whose wait_message takes no expected_bytes
      keyword, every MAC wait raises TypeError. get_motor_mac_address turns that
      into None, so the scan finds neither the pitch motor nor any other, and
      discover_motors fails. */
  lemma RaisingWaitsFindNoMotor(ports: seq<Port>)
    requires forall i :: 0 <= i < |ports| ==> At(ports[i].replies, 0) == Raised
    ensures Scanned(ports).pitch == None && Scanned(ports).discovered == []
  {
    ScannedRoles(ports);
  }

  /** Such a pitch port exists: a board that answers with the pitch address. */
  lemma PitchPortExists()
    ensures Reports(Port(AXIS_VID, AXIS_PID, true,
      [Data(AxisProtocol.CreateMessage(AxisProtocol.PyId(AxisCatalog.GetMacAddress), PITCH_MAC_BYTES).value)]), Pitch)
  {
    MacOfResponse(PITCH_MAC_BYTES);
    PitchMacBytes(PITCH_MAC_BYTES);
  }

  // --- Setup ------------------------------------------------------------------------------

  /** The configuration frames of the two setup routines, byte for byte. */
  const VELOCITY_MODE_FRAME: seq<byte> := [0x07, 0x03, 0x01, 0x00, 0x02, 0x0D, 0x00]
  const POSITION_MODE_FRAME: seq<byte> := [0x07, 0x03, 0x01, 0x00, 0x01, 0x0C, 0x00]
  const MAX_SPEED_FRAME: seq<byte> := [0x0B, 0x03, 0x04, 0x00, 0xD0, 0x07, 0x00, 0x00, 0xE9, 0x00]
  const ACCELERATION_FRAME: seq<byte> := [0x0D, 0x03, 0x04, 0x00, 0xE8, 0x03, 0x00, 0x00, 0xFF, 0x00]
  const ZERO_POSITION_FRAME: seq<byte> :=
    [0x0F, 0x03, 0x08, 0x00, 0x00, 0x00, 0x00, 0x00, 0x00, 0x00, 0x00, 0x00, 0x1A, 0x00]
  const STOP_FRAME: seq<byte> :=
    [0x13, 0x03, 0x08, 0x00, 0x00, 0x00, 0x00, 0x00, 0x00, 0x00, 0x00, 0x00, 0x1E, 0x00]

  /** The three frames the gimbal's setup_motor waits an ACK for: velocity
      mode, maximum speed 2000, acceleration 1000. */
  const VELOCITY_SETUP: seq<seq<byte>> := [VELOCITY_MODE_FRAME, MAX_SPEED_FRAME, ACCELERATION_FRAME]

  /** create_message of a type and body is the frame m when m is the header,
      the body and their checksum. */
  lemma BuiltAs(id: nat, body: seq<byte>, m: seq<byte>)
    requires id < U16 && |body| < U16
    requires m == Le16(id) + Le16(|body|) + body
                  + Le16(AxisProtocol.CalculateChecksum(Le16(id) + Le16(|body|) + body))
    ensures AxisProtocol.CreateMessage(id, body).value == m
  {
    AxisProtocol.CreateMessageFrames(id, body, Le16(id) + Le16(|body|), m);
    AxisProtocol.FramesUnique(m, AxisProtocol.CreateMessage(id, body).value, id, body);
  }

  lemma Sum2(a: byte, b: byte)
    ensures Sum([a, b]) == a + b
  {
    assert Sum([a]) == a by { assert [a][..0] == []; }
    assert [a, b][..1] == [a];
  }

  /** The byte sum of a header and body: the four header bytes and the body's. */
  lemma FrameSum(id: nat, body: seq<byte>)
    ensures Sum(Le16(id) + Le16(|body|) + body)
            == id % 256 + (id / 256) % 256 + |body| % 256 + (|body| / 256) % 256 + Sum(body)
  {
    SumAppend(Le16(id) + Le16(|body|), body);
    SumAppend(Le16(id), Le16(|body|));
    Sum2(id % 256, (id / 256) % 256);
    Sum2(|body| % 256, (|body| / 256) % 256);
  }

  /** SetMotorStateMessage(MotorStates.VELOCITY), byte for byte. */
  lemma VelocityModeFrame()
    ensures AxisProtocol.SetCodeMessage(AxisCatalog.SetMotorState, AxisCatalog.MotorState.Velocity.Code()).value == VELOCITY_MODE_FRAME
  {
    assert AxisProtocol.CalculateChecksum(Le16(0x0307) + Le16(1) + [2]) == 0x0D by {
      assert Sum([2]) == 2 by { assert [2][..0] == []; }
      FrameSum(0x0307, [2]);
    }
    BuiltAs(0x0307, [2], VELOCITY_MODE_FRAME);
  }

  /** SetMotorStateMessage(MotorStates.POSITION), byte for byte. */
  lemma PositionModeFrame()
    ensures AxisProtocol.SetCodeMessage(AxisCatalog.SetMotorState, AxisCatalog.MotorState.Position.Code()).value == POSITION_MODE_FRAME
  {
    assert AxisProtocol.CalculateChecksum(Le16(0x0307) + Le16(1) + [1]) == 0x0C by {
      assert Sum([1]) == 1 by { assert [1][..0] == []; }
      FrameSum(0x0307, [1]);
    }
    BuiltAs(0x0307, [1], POSITION_MODE_FRAME);
  }

  /** SetMaxSpeedMessage(2000), byte for byte. */
  lemma MaxSpeedFrame()
    ensures AxisProtocol.SetU32Message(AxisCatalog.SetMaxSpeed, 2000).value == MAX_SPEED_FRAME
  {
    assert AxisProtocol.CalculateChecksum(Le16(0x030B) + Le16(4) + Le32(2000)) == 0xE9 by {
      assert Le32(2000) == [0xD0, 0x07] + [0x00, 0x00];
      Sum2(0xD0, 0x07);
      Sum2(0x00, 0x00);
      SumAppend([0xD0, 0x07], [0x00, 0x00]);
      FrameSum(0x030B, Le32(2000));
    }
    BuiltAs(0x030B, Le32(2000), MAX_SPEED_FRAME);
  }

  /** SetAccelerationMessage(1000), byte for byte. */
  lemma AccelerationFrame()
    ensures AxisProtocol.SetU32Message(AxisCatalog.SetAcceleration, 1000).value == ACCELERATION_FRAME
  {
    assert AxisProtocol.CalculateChecksum(Le16(0x030D) + Le16(4) + Le32(1000)) == 0xFF by {
      assert Le32(1000) == [0xE8, 0x03] + [0x00, 0x00];
      Sum2(0xE8, 0x03);
      Sum2(0x00, 0x00);
      SumAppend([0xE8, 0x03], [0x00, 0x00]);
      FrameSum(0x030D, Le32(1000));
    }
    BuiltAs(0x030D, Le32(1000), ACCELERATION_FRAME);
  }

  /** SetCurrentPositionMessage(0.0), byte for byte: +0.0 packs to eight zero bytes. */
  lemma ZeroPositionFrame()
    ensures AxisProtocol.SetDoubleMessage(AxisCatalog.SetCurrentPosition, Zeros(8)).value == ZERO_POSITION_FRAME
  {
    assert AxisProtocol.CalculateChecksum(Le16(0x030F) + Le16(8) + Zeros(8)) == 0x1A by {
      SumZeros(Zeros(8));
      FrameSum(0x030F, Zeros(8));
    }
    BuiltAs(0x030F, Zeros(8), ZERO_POSITION_FRAME);
  }

  /** SetVelocityMessage(0.0), byte for byte. */
  lemma StopFrame()
    ensures AxisProtocol.SetDoubleMessage(AxisCatalog.SetVelocity, Zeros(8)).value == STOP_FRAME
  {
    assert AxisProtocol.CalculateChecksum(Le16(0x0313) + Le16(8) + Zeros(8)) == 0x1E by {
      SumZeros(Zeros(8));
      FrameSum(0x0313, Zeros(8));
    }
    BuiltAs(0x0313, Zeros(8), STOP_FRAME);
  }

  /** The controller's motors, as port indices, and the log of close() calls. */
  class DualMotorGimbalController {
    var pitchMotor: Option<nat>
    var yawMotor: Option<nat>
    var closeCalls: seq<nat>

    constructor()
      ensures pitchMotor == None && yawMotor == None && closeCalls == []
    {
      pitchMotor := None;
      yawMotor := None;
      closeCalls := [];
    }

    /** get_motor_mac_address: send the MAC request, wait, and parse; every
        failure, raised or not, comes back as None. */
    method GetMotorMacAddress(motor: Link) returns (mac: Option<seq<byte>>)
      modifies motor
      ensures mac == MacOf(At(old(motor.replies), 0))
      ensures motor.sent == old(motor.sent) + [MacRequest()]
      ensures motor.replies == Drop(old(motor.replies), 1)
    {
      var response := motor.Exchange(MacRequest());
      if !Truthy(response) {
        return None;
      }
      var parsed := AxisProtocol.ParseMacResponse(response.bytes);
      if parsed.Err? {
        return None;
      }
      mac := Some(parsed.value);
    }

    /** discover_motors: probe the AxisDriver ports in order, then assign pitch
        and, when another board answered, the first of those as yaw. True iff a
        pitch motor was found; nothing is assigned otherwise. */
    method DiscoverMotors(ports: seq<Port>) returns (found: bool)
      modifies this
      ensures var s := Scanned(ports);
        && (found <==> s.pitch.Some?)
        && (found ==> pitchMotor == s.pitch)
        && (found && s.discovered != [] ==> yawMotor == Some(s.discovered[0]))
        && (found && s.discovered == [] ==> yawMotor == old(yawMotor))
        && (!found ==> pitchMotor == old(pitchMotor) && yawMotor == old(yawMotor))
        && closeCalls == old(closeCalls) + s.closed
    {
      var pitch: Option<nat> := None;
      var discovered: seq<nat> := [];
      var motor: Option<nat> := None;
      var closed: seq<nat> := [];
      var i := 0;
      while i < |ports|
        invariant 0 <= i <= |ports|
        invariant Scan(pitch, discovered, motor, closed) == Scanned(ports[..i])
        invariant pitchMotor == old(pitchMotor) && yawMotor == old(yawMotor) && closeCalls == old(closeCalls)
      {
        var port := ports[i];
        assert ports[..i + 1][..i] == ports[..i];
        if Probed(port) {
          if !port.opens {
            // The constructor raised: the handler closes whatever `motor` still names.
            if motor.Some? {
              closed := closed + [motor.value];
            }
          } else {
            var link := new Link(port.replies);
            motor := Some(i);
            var ret := GetMotorMacAddress(link);
            if ret.Some? {
              if FromBe(ret.value) == PITCH_MOTOR_MAC {
                pitch := Some(i);
              } else {
                discovered := discovered + [i];
              }
            } else {
              closed := closed + [i];
            }
          }
        }
        i := i + 1;
      }
      assert ports[..|ports|] == ports;
      closeCalls := closeCalls + closed;
      if pitch.Some? && discovered != [] {
        pitchMotor := pitch;
        yawMotor := Some(discovered[0]);
        return true;
      } else if pitch.Some? {
        pitchMotor := pitch;
        return true;
      }
      return false;
    }

    /** setup_motor: the three configuration frames, each followed by a wait
        whose reply must be truthy (its content is not looked at), then
        set_velocity(0.0), whose reply is ignored. False stands for the
        exception setup_motor raises at the first falsy reply or failed call. */
    method SetupMotor(motor: Link) returns (ok: bool)
      modifies motor
      ensures ok <==> forall i :: 0 <= i < 3 ==> Truthy(At(old(motor.replies), i))
      ensures ok ==> motor.sent == old(motor.sent) + VELOCITY_SETUP + [STOP_FRAME]
                     && motor.replies == Drop(old(motor.replies), 4)
      ensures !ok ==> exists k :: 0 <= k < 3 && !Truthy(At(old(motor.replies), k))
                        && (forall j :: 0 <= j < k ==> Truthy(At(old(motor.replies), j)))
                        && motor.sent == old(motor.sent) + VELOCITY_SETUP[..k + 1]
                        && motor.replies == Drop(old(motor.replies), k + 1)
    {
      ghost var script := motor.replies;
      ghost var sent0 := motor.sent;
      VelocityModeFrame();
      MaxSpeedFrame();
      AccelerationFrame();
      var response := motor.Exchange(AxisProtocol.SetCodeMessage(AxisCatalog.SetMotorState, AxisCatalog.MotorState.Velocity.Code()).value);
      assert motor.sent == sent0 + VELOCITY_SETUP[..1];
      if !Truthy(response) {
        return false;
      }
      response := motor.Exchange(AxisProtocol.SetU32Message(AxisCatalog.SetMaxSpeed, 2000).value);
      assert response == At(script, 1);
      DropDrop(script, 1, 1);
      assert motor.sent == sent0 + VELOCITY_SETUP[..2];
      if !Truthy(response) {
        return false;
      }
      response := motor.Exchange(AxisProtocol.SetU32Message(AxisCatalog.SetAcceleration, 1000).value);
      assert response == At(script, 2);
      DropDrop(script, 2, 1);
      assert motor.sent == sent0 + VELOCITY_SETUP;
      if !Truthy(response) {
        return false;
      }
      var _ := SetVelocity(motor, Zeros(8));
      StopFrame();
      DropDrop(script, 3, 1);
      return true;
    }

    /** set_velocity with the clamped velocity already packed: send, wait, and
        report whether any reply (even an empty one) came back. */
    method SetVelocity(motor: Link, packed: seq<byte>) returns (answered: bool)
      requires |packed| == 8
      modifies motor
      ensures answered <==> At(old(motor.replies), 0).Data?
      ensures motor.sent == old(motor.sent) + [AxisProtocol.SetDoubleMessage(AxisCatalog.SetVelocity, packed).value]
      ensures motor.replies == Drop(old(motor.replies), 1)
    {
      var response := motor.Exchange(AxisProtocol.SetDoubleMessage(AxisCatalog.SetVelocity, packed).value);
      answered := response.Data?;
    }
  }

  /** setup_motor accepts any non-empty reply as the ACK, a NACK included. */
  lemma SetupAcceptsNack(ackType: nat)
    requires ackType < U16
    ensures Truthy(Data(AxisProtocol.AckMessage(ackType, AxisCatalog.StatusCode.Error).value))
  {
  }
}
