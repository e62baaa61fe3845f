/** The addressable status LED (LedController.cpp, LedController.h): a state
    machine over the LedStates of Messages.h whose periodic OnRun plays the
    flash-error, error and boot-up blink patterns, and the SetLedColor frame
    handler. FastLED is reduced to the pixel value and the list of values
    pushed to the LED by FastLED.show(). */
module LedControl {
  import opened Bytes
  import opened FrameChecks
  import Tasks

  // --- LedStates (Messages.h: enum LedStates : uint8_t) -------------------------------

  const OFF: byte := 0
  const FLASH_ERROR: byte := 1
  const ERROR: byte := 2
  const BOOTUP: byte := 3
  const RAINBOW: byte := 4
  const SOLID: byte := 5

  /** leds[0]: an RGB value, or an HSV value FastLED converts when shown. */
  datatype Pixel = Rgb(r: byte, g: byte, b: byte) | Hsv(h: byte, s: byte, v: byte)

  const BLACK: Pixel := Rgb(0, 0, 0)    // CRGB::Black, and the integer 0
  const RED: Pixel := Rgb(255, 0, 0)    // CRGB::Red
  const GREEN: Pixel := Rgb(0, 128, 0)  // CRGB::Green is 0x008000
  const BLUE: Pixel := Rgb(0, 0, 255)   // CRGB::Blue

  /** The per-state execution periods FLASH_ERROR_EXEC_PERIOD, ERROR_EXEC_PERIOD,
      BOOTUP_EXEC_PERIOD and RAINBOW_EXEC_PERIOD. */
  datatype Periods = Periods(flashError: nat, error: nat, bootup: nat, rainbow: nat)

  /** The controller's state: LED state, previous state, step counter,
      execution period, hue, pixel and the values shown so far. */
  datatype Led = Led(state: byte, prev: byte, step: nat, period: nat, hue: byte, pixel: Pixel, shown: seq<Pixel>)

  /** leds[0] = px; FastLED.show(). */
  function Show(s: Led, px: Pixel): (r: Led)
    ensures r.shown == s.shown + [px] && r.pixel == px
    ensures r.(pixel := s.pixel, shown := s.shown) == s
  {
    s.(pixel := px, shown := s.shown + [px])
  }

  /** SetLedState: a request for the current state changes nothing; otherwise
      the old state becomes prevState and the new state sets up its pattern. */
  function Enter(s: Led, state: byte, p: Periods): (r: Led)
    ensures state == s.state ==> r == s
    ensures state != s.state ==> r.state == state && r.prev == s.state && r.prev != r.state
    ensures state != s.state && (state == FLASH_ERROR || state == ERROR || state == BOOTUP) ==> r.step == 0
    ensures state != s.state && (state == OFF || state == SOLID) ==> r.period == Tasks.NEVER
    ensures state != s.state && state == OFF ==> r.shown == s.shown + [BLACK]
  {
    if state == s.state then s
    else
      var s1 := s.(prev := s.state, state := state);
      if state == OFF then Show(s1, BLACK).(period := Tasks.NEVER)
      else if state == FLASH_ERROR then s1.(step := 0, period := p.flashError)
      else if state == ERROR then s1.(step := 0, period := p.error)
      else if state == BOOTUP then s1.(step := 0, period := p.bootup)
      else if state == RAINBOW then
        var h := (s.hue + 1) % 255;
        Show(s1.(hue := h), Hsv(h, 255, 100)).(period := p.rainbow)
      else if state == SOLID then s1.(period := Tasks.NEVER)
      else s1
  }

  /** The colour the flash-error pattern shows at steps 0 to 3. */
  function FlashColor(step: nat): Pixel
    requires step < 4
  {
    if step % 2 == 0 then RED else BLACK
  }

  /** The colour the boot-up pattern shows at steps 0 to 5. */
  function BootColor(step: nat): Pixel
    requires step < 6
  {
    if step % 2 == 1 then BLACK else if step == 0 then BLUE else if step == 2 then RED else GREEN
  }

  /** One OnRun. FLASH_ERROR shows red, off, red, off and at step 4 restores
      the previous state; ERROR alternates red and off; BOOTUP shows blue,
      off, red, off, green, off and at step 6 restores the previous state;
      RAINBOW advances the hue; every other state does nothing. The step
      counter advances after the step's action. */
  function Tick(s: Led, p: Periods, brightness: byte): (r: Led)
  {
    if s.state == FLASH_ERROR then
      var s1 := if s.step < 4 then Show(s, FlashColor(s.step))
                else if s.step == 4 then Enter(s, s.prev, p)
                else s;
      s1.(step := s1.step + 1)
    else if s.state == ERROR then
      var s1 := if s.step == 0 then Show(s, RED) else if s.step == 1 then Show(s, BLACK) else s;
      s1.(step := (s1.step + 1) % 2)
    else if s.state == BOOTUP then
      var s1 := if s.step < 6 then Show(s, BootColor(s.step))
                else if s.step == 6 then Enter(s, s.prev, p)
                else s;
      s1.(step := s1.step + 1)
    else if s.state == RAINBOW then
      var h := (s.hue + 1) % 256;
      Show(s.(hue := h), Hsv(h, 255, brightness))
    else s
  }

  /** n successive OnRun calls. */
  function Ticks(s: Led, p: Periods, brightness: byte, n: nat): Led
    decreases n
  {
    if n == 0 then s else Ticks(Tick(s, p, brightness), p, brightness, n - 1)
  }

  lemma {:induction false} TicksSplit(s: Led, p: Periods, brightness: byte, m: nat, n: nat)
    ensures Ticks(s, p, brightness, m + n) == Ticks(Ticks(s, p, brightness, m), p, brightness, n)
    decreases m
  {
    if m > 0 {
      TicksSplit(Tick(s, p, brightness), p, brightness, m - 1, n);
    }
  }

  /** A flash-error request from any other state shows red, off, red, off,
      then hands the LED back to that state, with FLASH_ERROR as the new
      previous state. */
  lemma FlashErrorReturns(s: Led, p: Periods, brightness: byte)
    requires s.state != FLASH_ERROR
    ensures var f := Enter(s, FLASH_ERROR, p);
            && Ticks(f, p, brightness, 4).shown == f.shown + [RED, BLACK, RED, BLACK]
            && Ticks(f, p, brightness, 4).state == FLASH_ERROR
            && Ticks(f, p, brightness, 5).state == s.state
            && Ticks(f, p, brightness, 5).prev == FLASH_ERROR
  {
    var f := Enter(s, FLASH_ERROR, p);
    var t1 := Tick(f, p, brightness);
    var t2 := Tick(t1, p, brightness);
    var t3 := Tick(t2, p, brightness);
    var t4 := Tick(t3, p, brightness);
    assert t4.shown == f.shown + [RED, BLACK, RED, BLACK];
    assert Ticks(f, p, brightness, 4) == t4 by {
      assert Ticks(t4, p, brightness, 0) == t4;
      assert Ticks(t3, p, brightness, 1) == t4;
      assert Ticks(t2, p, brightness, 2) == t4;
      assert Ticks(t1, p, brightness, 3) == t4;
    }
    assert Ticks(f, p, brightness, 5) == Tick(t4, p, brightness) by {
      TicksSplit(f, p, brightness, 4, 1);
    }
  }

  /** A boot-up request from any other state shows blue, off, red, off,
      green, off and then hands the LED back to that state. */
  lemma BootupReturns(s: Led, p: Periods, brightness: byte)
    requires s.state != BOOTUP
    ensures var b := Enter(s, BOOTUP, p);
            && Ticks(b, p, brightness, 6).shown == b.shown + [BLUE, BLACK, RED, BLACK, GREEN, BLACK]
            && Ticks(b, p, brightness, 7).state == s.state
  {
    var b := Enter(s, BOOTUP, p);
    var t1 := Tick(b, p, brightness);
    var t2 := Tick(t1, p, brightness);
    var t3 := Tick(t2, p, brightness);
    var t4 := Tick(t3, p, brightness);
    var t5 := Tick(t4, p, brightness);
    var t6 := Tick(t5, p, brightness);
    assert t6.shown == b.shown + [BLUE, BLACK, RED, BLACK, GREEN, BLACK];
    assert Ticks(b, p, brightness, 6) == t6 by {
      assert Ticks(t6, p, brightness, 0) == t6;
      assert Ticks(t5, p, brightness, 1) == t6;
      assert Ticks(t4, p, brightness, 2) == t6;
      assert Ticks(t3, p, brightness, 3) == t6;
      assert Ticks(t2, p, brightness, 4) == t6;
      assert Ticks(t1, p, brightness, 5) == t6;
    }
    assert Ticks(b, p, brightness, 7) == Tick(t6, p, brightness) by {
      TicksSplit(b, p, brightness, 6, 1);
    }
  }

  /** red, off repeated n times. */
  function Blinks(n: nat): (r: seq<Pixel>)
    ensures |r| == 2 * n
    ensures forall i :: 0 <= i < |r| ==> r[i] == (if i % 2 == 0 then RED else BLACK)
  {
    if n == 0 then [] else Blinks(n - 1) + [RED, BLACK]
  }

  /** In ERROR the step counter goes 0, 1, 0, 1, ... and the LED alternates
      red and off for as long as the state lasts. */
  lemma {:induction false} ErrorBlinks(s: Led, p: Periods, brightness: byte, n: nat)
    requires s.state == ERROR && s.step == 0
    ensures Ticks(s, p, brightness, 2 * n).state == ERROR
    ensures Ticks(s, p, brightness, 2 * n).step == 0
    ensures Ticks(s, p, brightness, 2 * n).shown == s.shown + Blinks(n)
  {
    if n > 0 {
      ErrorBlinks(s, p, brightness, n - 1);
      var m := Ticks(s, p, brightness, 2 * (n - 1));
      TicksSplit(s, p, brightness, 2 * (n - 1), 2);
      assert Ticks(m, p, brightness, 2) == Tick(Tick(m, p, brightness), p, brightness) by {
        assert Ticks(Tick(Tick(m, p, brightness), p, brightness), p, brightness, 0) == Tick(Tick(m, p, brightness), p, brightness);
      }
      assert s.shown + Blinks(n - 1) + [RED, BLACK] == s.shown + Blinks(n);
    }
  }

  /** OFF and SOLID set the period to 0xFFFFFFFF, so OnRun is never scheduled
      again until the state changes. */
  lemma StillStatesNeverRun(s: Led, state: byte, p: Periods, now: nat, last: nat)
    requires state != s.state && (state == OFF || state == SOLID)
    ensures !(Enter(s, state, p).period == 0 || Tasks.Elapsed(now, last) > Enter(s, state, p).period)
  {
  }

  /** The AddrLedController task. */
  class LedController {
    var ledState: byte
    var prevState: byte
    var stepCounter: nat
    var executionPeriod: nat
    var hue: byte
    var pixel: Pixel
    var shown: seq<Pixel>
    var log: seq<Diag>
    const periods: Periods
    const rainbowBrightness: byte
    const setLedColorId: nat
    const getLedColorId: nat

    function State(): Led
      reads this
    {
      Led(ledState, prevState, stepCounter, executionPeriod, hue, pixel, shown)
    }

    /** The global instance: zero-initialised storage, the given period. */
    constructor (period: nat, periods: Periods, rainbowBrightness: byte, setLedColorId: nat, getLedColorId: nat)
      ensures State() == Led(OFF, OFF, 0, period, 0, BLACK, [])
      ensures log == []
      ensures this.periods == periods && this.rainbowBrightness == rainbowBrightness
      ensures this.setLedColorId == setLedColorId && this.getLedColorId == getLedColorId
    {
      ledState, prevState, stepCounter, executionPeriod := OFF, OFF, 0, period;
      hue, pixel, shown, log := 0, BLACK, [], [];
      this.periods := periods;
      this.rainbowBrightness := rainbowBrightness;
      this.setLedColorId := setLedColorId;
      this.getLedColorId := getLedColorId;
    }

    /** OnStart: the previous state starts as OFF. */
    method OnStart()
      modifies this
      ensures State() == old(State()).(prev := OFF)
      ensures log == old(log)
    {
      prevState := OFF;
    }

    method SetLedState(state: byte)
      modifies this
      ensures State() == Enter(old(State()), state, periods)
      ensures log == old(log)
    {
      if state == ledState {
        return;
      }
      prevState := ledState;
      ledState := state;
      if ledState == OFF {
        pixel := BLACK;
        shown := shown + [BLACK];
        executionPeriod := Tasks.NEVER;
      } else if ledState == FLASH_ERROR {
        stepCounter := 0;
        executionPeriod := periods.flashError;
      } else if ledState == ERROR {
        stepCounter := 0;
        executionPeriod := periods.error;
      } else if ledState == BOOTUP {
        stepCounter := 0;
        executionPeriod := periods.bootup;
      } else if ledState == RAINBOW {
        hue := (hue + 1) % 255;
        pixel := Hsv(hue, 255, 100);
        shown := shown + [pixel];
        executionPeriod := periods.rainbow;
      } else if ledState == SOLID {
        executionPeriod := Tasks.NEVER;
      }
    }

    method OnRun()
      modifies this
      ensures State() == Tick(old(State()), periods, rainbowBrightness)
      ensures log == old(log)
    {
      if ledState == FLASH_ERROR {
        if stepCounter < 4 {
          pixel := FlashColor(stepCounter);
          shown := shown + [pixel];
        } else if stepCounter == 4 {
          SetLedState(prevState);
        }
        stepCounter := stepCounter + 1;
      } else if ledState == ERROR {
        if stepCounter == 0 {
          pixel := RED;
          shown := shown + [pixel];
        } else if stepCounter == 1 {
          pixel := BLACK;
          shown := shown + [pixel];
        }
        stepCounter := (stepCounter + 1) % 2;
      } else if ledState == BOOTUP {
        if stepCounter < 6 {
          pixel := BootColor(stepCounter);
          shown := shown + [pixel];
        } else if stepCounter == 6 {
          SetLedState(prevState);
        }
        stepCounter := stepCounter + 1;
      } else if ledState == RAINBOW {
        hue := (hue + 1) % 256;
        pixel := Hsv(hue, 255, rainbowBrightness);
        shown := shown + [pixel];
      }
    }

    /** SetLEDColor: show the given colour. */
    method SetLedColor(px: Pixel)
      modifies this
      ensures State() == Show(old(State()), px)
      ensures log == old(log)
    {
      pixel := px;
      shown := shown + [px];
    }

    /** HandleIncomingMsg: after the length checks, a SetLedColor frame with
        a 3-byte body shows the colour in bytes 4 to 6; one with any other
        body size is reported; every other frame is ignored. buf is the
        receive buffer, of which the first size bytes arrived. */
    method HandleIncomingMsg(buf: seq<byte>, size: nat)
      requires 4 <= |buf| && size <= |buf|
      modifies this
      ensures var colour := Complete(buf, size) && MessageTypeOf(buf) == setLedColorId;
              && (if colour && BodySizeOf(buf) == 3 then State() == Show(old(State()), Rgb(buf[4], buf[5], buf[6]))
                  else State() == old(State()))
              && log == old(log) + LengthDiags(buf, size)
                        + (if colour && BodySizeOf(buf) != 3 then [SetLedBodySizeIncorrect] else [])
    {
      if size < HEADER_SIZE + FOOTER_SIZE {
        log := log + [SizeTooSmall];
      }
      var bodySize := BodySizeOf(buf);
      if size < HEADER_SIZE + bodySize + FOOTER_SIZE {
        log := log + [InvalidBodySize];
        return;
      }
      var messageType := MessageTypeOf(buf);
      if messageType == setLedColorId {
        if bodySize == 3 {
          pixel := Rgb(buf[HEADER_SIZE], buf[HEADER_SIZE + 1], buf[HEADER_SIZE + 2]);
          shown := shown + [pixel];
        } else {
          log := log + [SetLedBodySizeIncorrect];
        }
      }
    }
  }

  // --- Wrap360 (LedController.h) ----------------------------------------------------------

  /** Wrap360: one correction of 360 in either direction. */
  function Wrap360(input: int): (r: int)
    ensures 0 <= input <= 360 ==> r == input
    ensures r == input || r == input - 360 || r == input + 360
  {
    if input > 360 then input - 360
    else if input < 0 then input + 360
    else input
  }

  /** The result lies in [0, 360] exactly for inputs in [-360, 720]; anything
      further out stays out of range. */
  lemma Wrap360Range(input: int)
    ensures 0 <= Wrap360(input) <= 360 <==> -360 <= input <= 720
  {
  }
}
