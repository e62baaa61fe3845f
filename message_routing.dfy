/** The firmware's message processor in its two versions. MessageProcessor.h
    routes a binary frame to every controller whose id range strictly
    contains the frame's type and broadcasts outgoing frames to every
    external interface; MessageProcessor.cpp splits JSON from binary input
    and dispatches the two LED frames itself. A handler call on another
    object is recorded as a Call; the LED controller is modelled in full. */
module MessageRouting {
  import opened Bytes
  import opened FrameChecks
  import LedControl
  import MessagesHpp

  /** An IExternalInterface or IInternalInterface: all the processor sees of
      it is the back-pointer SetProcessorInterface sets. */
  class Interface {
    var processor: object?

    constructor ()
      ensures processor == null
    {
      processor := null;
    }
  }

  /** One call of an interface's SendMsg or HandleIncomingMsg: the buffer
      pointer's contents and the size passed along. */
  datatype Call = Call(target: Interface, bytes: seq<byte>, size: nat)

  /** An InterfaceLimits entry: the controller and its exclusive id bounds. */
  datatype Limits = Limits(iface: Interface, low: nat, high: nat)

  predicate InRange(l: Limits, t: nat)
  {
    l.low < t < l.high
  }

  /** The HandleIncomingMsg calls one frame of type t causes, in registration
      order. */
  function Routed(cs: seq<Limits>, t: nat, bytes: seq<byte>, size: nat): (r: seq<Call>)
    ensures |r| <= |cs|
    ensures forall c :: c in r ==> c.bytes == bytes && c.size == size
  {
    if |cs| == 0 then []
    else
      var last := cs[|cs| - 1];
      Routed(cs[..|cs| - 1], t, bytes, size)
        + (if InRange(last, t) then [Call(last.iface, bytes, size)] else [])
  }

  /** An interface is called exactly when one of its registrations' ranges
      strictly contains the type. */
  lemma {:induction false} RoutedTargets(cs: seq<Limits>, t: nat, bytes: seq<byte>, size: nat, i: Interface)
    ensures Call(i, bytes, size) in Routed(cs, t, bytes, size)
            <==> exists k :: 0 <= k < |cs| && cs[k].iface == i && InRange(cs[k], t)
  {
    if |cs| > 0 {
      var init := cs[..|cs| - 1];
      RoutedTargets(init, t, bytes, size, i);
      if exists k :: 0 <= k < |init| && init[k].iface == i && InRange(init[k], t) {
        var k :| 0 <= k < |init| && init[k].iface == i && InRange(init[k], t);
        assert cs[k] == init[k];
      }
      if exists k :: 0 <= k < |cs| && cs[k].iface == i && InRange(cs[k], t) {
        var k :| 0 <= k < |cs| && cs[k].iface == i && InRange(cs[k], t);
        if k < |init| {
          assert init[k] == cs[k];
        }
      }
    }
  }

  /** The controllers registered first are called first: routing over two
      registration lists is the routing over the first followed by the second. */
  lemma {:induction false} RoutedAppend(a: seq<Limits>, b: seq<Limits>, t: nat, bytes: seq<byte>, size: nat)
    ensures Routed(a + b, t, bytes, size) == Routed(a, t, bytes, size) + Routed(b, t, bytes, size)
  {
    if |b| > 0 {
      var bi := b[..|b| - 1];
      assert (a + b)[..|a + b| - 1] == a + bi;
      RoutedAppend(a, bi, t, bytes, size);
    } else {
      assert a + b == a;
    }
  }

  /** A type equal to either bound of a range does not reach its controller. */
  lemma BoundsExcluded(l: Limits, bytes: seq<byte>, size: nat)
    ensures Routed([l], l.low, bytes, size) == [] && Routed([l], l.high, bytes, size) == []
  {
    assert [l][..0] == [];
  }

  /** The SendMsg calls one outgoing frame causes: every external interface,
      in registration order, with identical bytes. */
  function Broadcast(es: seq<Interface>, bytes: seq<byte>, size: nat): (r: seq<Call>)
    ensures |r| == |es|
    ensures forall k :: 0 <= k < |r| ==> r[k] == Call(es[k], bytes, size)
  {
    if |es| == 0 then []
    else Broadcast(es[..|es| - 1], bytes, size) + [Call(es[|es| - 1], bytes, size)]
  }

  /** The MessageProcessor of MessageProcessor.h. */
  class RangeProcessor {
    var externals: seq<Interface>
    var controllers: seq<Limits>
    /** The controllers' HandleIncomingMsg calls made so far. */
    var handled: seq<Call>
    /** The external interfaces' SendMsg calls made so far. */
    var sent: seq<Call>
    const executionPeriod: nat

    constructor (period: nat)
      ensures externals == [] && controllers == [] && handled == [] && sent == []
      ensures executionPeriod == period
    {
      externals, controllers, handled, sent := [], [], [], [];
      executionPeriod := period;
    }

    method AddExternalInterface(i: Interface)
      modifies this, i
      ensures externals == old(externals) + [i] && i.processor == this
      ensures controllers == old(controllers) && handled == old(handled) && sent == old(sent)
    {
      externals := externals + [i];
      i.processor := this;
    }

    /** Registers the controller for the ids strictly between low and high
        (the MessageTypes values, cast to uint16_t). */
    method AddControllerInterface(i: Interface, low: nat, high: nat)
      requires low < U16 && high < U16
      modifies this, i
      ensures controllers == old(controllers) + [Limits(i, low, high)] && i.processor == this
      ensures externals == old(externals) && handled == old(handled) && sent == old(sent)
    {
      controllers := controllers + [Limits(i, low, high)];
      i.processor := this;
    }

    /** Reads the type from the first two bytes whatever the size, and hands
        the frame to every controller whose range contains it. */
    method HandleIncomingMsg(buf: seq<byte>, size: nat)
      requires |buf| >= 2
      modifies this
      ensures handled == old(handled) + Routed(controllers, MessageTypeOf(buf), buf, size)
      ensures externals == old(externals) && controllers == old(controllers) && sent == old(sent)
    {
      var t := MessageTypeOf(buf);
      var i := 0;
      while i < |controllers|
        invariant 0 <= i <= |controllers|
        invariant handled == old(handled) + Routed(controllers[..i], t, buf, size)
        invariant externals == old(externals) && controllers == old(controllers) && sent == old(sent)
      {
        var l := controllers[i];
        assert controllers[..i + 1][..i] == controllers[..i];
        if l.low < t && t < l.high {
          handled := handled + [Call(l.iface, buf, size)];
        }
        i := i + 1;
      }
      assert controllers[..|controllers|] == controllers;
    }

    method SendMsg(bytes: seq<byte>, size: nat)
      modifies this
      ensures sent == old(sent) + Broadcast(externals, bytes, size)
      ensures externals == old(externals) && controllers == old(controllers) && handled == old(handled)
    {
      var i := 0;
      while i < |externals|
        invariant 0 <= i <= |externals|
        invariant sent == old(sent) + Broadcast(externals[..i], bytes, size)
        invariant externals == old(externals) && controllers == old(controllers) && handled == old(handled)
      {
        assert externals[..i + 1][..i] == externals[..i];
        sent := sent + [Call(externals[i], bytes, size)];
        i := i + 1;
      }
      assert externals[..|externals|] == externals;
    }
  }

  // --- MessageProcessor.cpp -----------------------------------------------------------

  /** An InterfaceLimits entry of the .cpp version, which also records the
      JSON message type the controller answers to. */
  datatype JsonLimits = JsonLimits(iface: Interface, jsonType: MessagesHpp.JsonMessageType, low: nat, high: nat)

  /** What HandleIncomingMsg did with one input. */
  datatype Route =
    | Empty              // recv_bytes_size == 0
    | Json               // HandleJsonMsg, whose body is commented out
    | LedColor           // SetLedColor dispatched to the LED controller
    | LedState           // SetLedState dispatched to the LED controller
    | Unhandled(t: nat)  // "Unable to handle message type"

  const OPEN_BRACE: byte := 0x7B  // '{'

  /** The route an input takes: empty input is dropped, '{' goes to the JSON
      handler, and everything else is dispatched on its type with no length
      or checksum check. */
  function RouteOf(buf: seq<byte>, size: nat, setLedColorId: nat, setLedStateId: nat): (r: Route)
    requires |buf| >= 2
    ensures r == Empty <==> size == 0
    ensures r == Json <==> size > 0 && buf[0] == OPEN_BRACE
    ensures r.Unhandled? ==> r.t == MessageTypeOf(buf) && r.t != setLedColorId && r.t != setLedStateId
  {
    if size == 0 then Empty
    else if buf[0] == OPEN_BRACE then Json
    else if MessageTypeOf(buf) == setLedColorId then LedColor
    else if MessageTypeOf(buf) == setLedStateId then LedState
    else Unhandled(MessageTypeOf(buf))
  }

  /** A frame that starts with '{' never reaches the binary dispatch, so no
      binary frame whose type has 0x7B as its low byte is ever handled. */
  lemma BraceTypeNeverDispatched(buf: seq<byte>, size: nat, setLedColorId: nat, setLedStateId: nat)
    requires |buf| >= 2 && size > 0 && MessageTypeOf(buf) % 256 == OPEN_BRACE as nat
    ensures RouteOf(buf, size, setLedColorId, setLedStateId) == Json
  {
  }

  /** The MessageProcessor of MessageProcessor.cpp, wired to the LED
      controller. The two MessageTypes ids it switches on are parameters. */
  class ByteProcessor {
    var externals: seq<Interface>
    var controllers: seq<JsonLimits>
    var sent: seq<Call>
    /** The route each input took. */
    var routes: seq<Route>
    const led: LedControl.LedController
    const setLedColorId: nat
    const setLedStateId: nat
    const executionPeriod: nat

    constructor (period: nat, led: LedControl.LedController, setLedColorId: nat, setLedStateId: nat)
      ensures externals == [] && controllers == [] && sent == [] && routes == []
      ensures this.led == led && this.setLedColorId == setLedColorId && this.setLedStateId == setLedStateId
      ensures executionPeriod == period
    {
      externals, controllers, sent, routes := [], [], [], [];
      this.led := led;
      this.setLedColorId := setLedColorId;
      this.setLedStateId := setLedStateId;
      executionPeriod := period;
    }

    method AddExternalInterface(i: Interface)
      modifies this, i
      ensures externals == old(externals) + [i] && i.processor == this
      ensures controllers == old(controllers) && sent == old(sent) && routes == old(routes)
    {
      externals := externals + [i];
      i.processor := this;
    }

    method AddControllerInterface(i: Interface, jsonType: MessagesHpp.JsonMessageType, low: nat, high: nat)
      requires low < U16 && high < U16
      modifies this, i
      ensures controllers == old(controllers) + [JsonLimits(i, jsonType, low, high)] && i.processor == this
      ensures externals == old(externals) && sent == old(sent) && routes == old(routes)
    {
      controllers := controllers + [JsonLimits(i, jsonType, low, high)];
      i.processor := this;
    }

    /** HandleByteMsg: a SetLedColor frame shows the colour in bytes 4 to 6, a
        SetLedState frame requests the state in byte 4, and any other type is
        only reported. The bytes are read from the buffer whatever the size. */
    method HandleByteMsg(buf: seq<byte>, size: nat) returns (route: Route)
      requires |buf| >= 7 && size > 0 && buf[0] != OPEN_BRACE
      modifies led
      ensures route == RouteOf(buf, size, setLedColorId, setLedStateId)
      ensures route == LedColor ==>
        led.State() == LedControl.Show(old(led.State()), LedControl.Rgb(buf[4], buf[5], buf[6]))
      ensures route == LedState ==>
        led.State() == LedControl.Enter(old(led.State()), buf[4], led.periods)
      ensures route.Unhandled? ==> led.State() == old(led.State())
      ensures led.log == old(led.log)
    {
      var t := MessageTypeOf(buf);
      if t == setLedColorId {
        led.SetLedColor(LedControl.Rgb(buf[4], buf[5], buf[6]));
        route := LedColor;
      } else if t == setLedStateId {
        led.SetLedState(buf[4]);
        route := LedState;
      } else {
        route := Unhandled(t);
      }
    }

    method HandleIncomingMsg(buf: seq<byte>, size: nat)
      requires |buf| >= 7
      modifies this, led
      ensures routes == old(routes) + [RouteOf(buf, size, setLedColorId, setLedStateId)]
      ensures var route := RouteOf(buf, size, setLedColorId, setLedStateId);
              && (route == LedColor ==>
                    led.State() == LedControl.Show(old(led.State()), LedControl.Rgb(buf[4], buf[5], buf[6])))
              && (route == LedState ==>
                    led.State() == LedControl.Enter(old(led.State()), buf[4], led.periods))
              && (route != LedColor && route != LedState ==> led.State() == old(led.State()))
      ensures led.log == old(led.log)
      ensures externals == old(externals) && controllers == old(controllers) && sent == old(sent)
    {
      var route;
      if size == 0 {
        route := Empty;
      } else if buf[0] == OPEN_BRACE {
        route := Json;
      } else {
        route := HandleByteMsg(buf, size);
      }
      routes := routes + [route];
    }

    method SendMsg(bytes: seq<byte>, size: nat)
      modifies this
      ensures sent == old(sent) + Broadcast(externals, bytes, size)
      ensures externals == old(externals) && controllers == old(controllers) && routes == old(routes)
    {
      var i := 0;
      while i < |externals|
        invariant 0 <= i <= |externals|
        invariant sent == old(sent) + Broadcast(externals[..i], bytes, size)
        invariant externals == old(externals) && controllers == old(controllers) && routes == old(routes)
      {
        assert externals[..i + 1][..i] == externals[..i];
        sent := sent + [Call(externals[i], bytes, size)];
        i := i + 1;
      }
      assert externals[..|externals|] == externals;
    }
  }
}
