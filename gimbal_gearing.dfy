/** Finding and configuring the gimbal motors for the gearing test
    (GimbalGearingTest.py): the same MAC probe as the gimbal controller, but the
    last other responding port becomes yaw, an exception skips the port without
    closing it, and setup ignores every reply. */
module GimbalGearing {
  import opened Wrappers
  import opened Bytes
  import opened Transport
  import opened MotorDiscovery
  import AxisCatalog
  import AxisProtocol

  /** A probed port that opened and whose MAC request got a falsy reply (a
      timeout or no bytes): find_motors closes it. */
  predicate Silent(p: Port)
  {
    Probed(p) && p.opens && !Truthy(At(p.replies, 0)) && !At(p.replies, 0).Raised?
  }

  /** The ports find_motors closes, in scan order. */
  function SilentPorts(ports: seq<Port>): (r: seq<nat>)
    ensures forall k :: 0 <= k < |r| ==> r[k] < |ports|
    ensures forall i :: i in r <==> 0 <= i < |ports| && Silent(ports[i])
    ensures forall a, b :: 0 <= a < b < |r| ==> r[a] < r[b]
  {
    if |ports| == 0 then []
    else
      var init := SilentPorts(ports[..|ports| - 1]);
      if Silent(ports[|ports| - 1]) then init + [|ports| - 1] else init
  }

  /** find_motors: probe the AxisDriver ports in order. The pitch address
      selects pitch, any other address overwrites yaw, a falsy reply closes the
      port, and an exception (opening, sending, waiting or parsing) skips it. */
  method FindMotors(ports: seq<Port>) returns (pitch: Option<nat>, yaw: Option<nat>, closed: seq<nat>)
    ensures pitch == Last(ports, Pitch) && yaw == Last(ports, Other)
    ensures closed == SilentPorts(ports)
  {
    pitch, yaw, closed := None, None, [];
    var i := 0;
    while i < |ports|
      invariant 0 <= i <= |ports|
      invariant pitch == Last(ports[..i], Pitch) && yaw == Last(ports[..i], Other)
      invariant closed == SilentPorts(ports[..i])
    {
      var port := ports[i];
      assert ports[..i + 1][..i] == ports[..i];
      if Probed(port) && port.opens {
        var motor := new Link(port.replies);
        var response := motor.Exchange(MacRequest());
        if Truthy(response) {
          var parsed := AxisProtocol.ParseMacResponse(response.bytes);
          if parsed.Ok? {
            assert MacOf(response) == Some(parsed.value);
            if FromBe(parsed.value) == PITCH_MOTOR_MAC {
              pitch := Some(i);
            } else {
              yaw := Some(i);
            }
          }
        } else if !response.Raised? {
          closed := closed + [i];
        }
      }
      i := i + 1;
    }
    assert ports[..|ports|] == ports;
  }

  /** Unlike the gimbal controller, find_motors does not close a port whose MAC
      reply fails to parse. */
  lemma UnparsedReplyLeftOpen(p: Port)
    requires Probed(p) && p.opens && At(p.replies, 0) == Data([0])
    ensures SilentPorts([p]) == [] && Scanned([p]).closed == [0]
  {
    assert [p][..0] == [];
    assert AxisProtocol.ParseMacResponse([0]).Err?;
  }

  /** With Axis.py as it stands every MAC wait raises TypeError, which
      find_motors catches for each port: no pitch, no yaw, and no port closed. */
  lemma RaisingWaitsSkipEveryPort(ports: seq<Port>)
    requires forall i :: 0 <= i < |ports| ==> At(ports[i].replies, 0) == Raised
    ensures Last(ports, Pitch) == None && Last(ports, Other) == None && SilentPorts(ports) == []
  {
  }

  // --- setup_motor ------------------------------------------------------------------------

  /** The four frames setup_motor sends: position mode, maximum speed 2000,
      acceleration 1000, current position 0.0. */
  const POSITION_SETUP: seq<seq<byte>> :=
    [POSITION_MODE_FRAME, MAX_SPEED_FRAME, ACCELERATION_FRAME, ZERO_POSITION_FRAME]

  /** setup_motor: send the four frames, each followed by a wait whose reply is
      ignored; False only when an exception escapes, which ends the sequence. */
  method SetupMotor(motor: Link) returns (ok: bool)
    modifies motor
    ensures ok <==> forall i :: 0 <= i < 4 ==> !At(old(motor.replies), i).Raised?
    ensures ok ==> motor.sent == old(motor.sent) + POSITION_SETUP
                   && motor.replies == Drop(old(motor.replies), 4)
    ensures !ok ==> exists k :: 0 <= k < 4 && At(old(motor.replies), k).Raised?
                      && (forall j :: 0 <= j < k ==> !At(old(motor.replies), j).Raised?)
                      && motor.sent == old(motor.sent) + POSITION_SETUP[..k + 1]
                      && motor.replies == Drop(old(motor.replies), k + 1)
  {
    ghost var script := motor.replies;
    ghost var sent0 := motor.sent;
    PositionModeFrame();
    MaxSpeedFrame();
    AccelerationFrame();
    ZeroPositionFrame();
    var response := motor.Exchange(AxisProtocol.SetCodeMessage(AxisCatalog.SetMotorState, AxisCatalog.MotorState.Position.Code()).value);
    assert motor.sent == sent0 + POSITION_SETUP[..1];
    if response.Raised? {
      return false;
    }
    response := motor.Exchange(AxisProtocol.SetU32Message(AxisCatalog.SetMaxSpeed, 2000).value);
    assert response == At(script, 1);
    DropDrop(script, 1, 1);
    assert motor.sent == sent0 + POSITION_SETUP[..2];
    if response.Raised? {
      return false;
    }
    response := motor.Exchange(AxisProtocol.SetU32Message(AxisCatalog.SetAcceleration, 1000).value);
    assert response == At(script, 2);
    DropDrop(script, 2, 1);
    assert motor.sent == sent0 + POSITION_SETUP[..3];
    if response.Raised? {
      return false;
    }
    response := motor.Exchange(AxisProtocol.SetDoubleMessage(AxisCatalog.SetCurrentPosition, Zeros(8)).value);
    assert response == At(script, 3);
    DropDrop(script, 3, 1);
    assert motor.sent == sent0 + POSITION_SETUP[..4];
    if response.Raised? {
      return false;
    }
    assert POSITION_SETUP[..4] == POSITION_SETUP;
    return true;
  }
}
