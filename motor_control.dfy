/** The motor controller task (MotorController.cpp): the error word built
    from the driver's version register and the supply voltage, the edge
    detector that switches the stepper outputs, and the button that toggles
    between MOTOR_OFF and DETECTSTEPS. millis(), the button and the two
    sensor readings are parameters; the stepper outputs are a flag plus the
    list of enable (true) and disable (false) calls. */
module MotorControl {
  import opened Bytes
  import Tasks
  import LedControl

  /** ControlMode, in declaration order. */
  datatype ControlMode = MotorOff | DetectSteps | Test | Test2 | Position | Velocity | Torque

  const TOGGLE_DEBOUNCE: nat := 500        // ms a button press must follow the last toggle
  const ERROR_CHECK_PERIOD: nat := 1000    // error_check_period
  const TEST2_DURATION: nat := 2000

  /** MotorError.errors: lostPower in bit 0, TMC_lost_comms in bit 1, the
      spare bits never set. */
  function ErrorWord(lostPower: bool, lostComms: bool): (r: nat)
    ensures r < 4
  {
    (if lostPower then 1 else 0) + (if lostComms then 2 else 0)
  }

  /** The word is non-zero exactly when some error is present, and each flag
      is recovered from its bit. */
  lemma ErrorWordBits(lostPower: bool, lostComms: bool)
    ensures ErrorWord(lostPower, lostComms) > 0 <==> lostPower || lostComms
    ensures ErrorWord(lostPower, lostComms) % 2 == 1 <==> lostPower
    ensures ErrorWord(lostPower, lostComms) / 2 == 1 <==> lostComms
  {
  }

  /** The button check: from MOTOR_OFF or DETECTSTEPS, a press more than
      500 ms after the last toggle switches to the other mode. */
  function Toggled(mode: ControlMode, pressed: bool, sinceToggle: nat): (r: ControlMode)
    ensures r != mode <==> (mode == MotorOff || mode == DetectSteps) && pressed && sinceToggle > TOGGLE_DEBOUNCE
    ensures mode == MotorOff && r != mode ==> r == DetectSteps
    ensures mode == DetectSteps && r != mode ==> r == MotorOff
  {
    if mode == MotorOff && pressed && sinceToggle > TOGGLE_DEBOUNCE then DetectSteps
    else if mode == DetectSteps && pressed && sinceToggle > TOGGLE_DEBOUNCE then MotorOff
    else mode
  }

  class MotorController {
    var controlMode: ControlMode
    var startMillis: nat
    var motorErrors: nat
    var previousErrors: nat
    var errorCheckTimer: nat
    var outputsEnabled: bool
    /** stepper.enableOutputs() (true) and disableOutputs() (false) calls. */
    var outputCalls: seq<bool>
    /** The error words printed with "Motor Error Present". */
    var reports: seq<nat>
    /** The last stepper.setSpeed argument, in steps per second. */
    var speed: int
    const led: LedControl.LedController
    const executionPeriod: nat

    /** The global instance: zero-initialised storage. */
    constructor (period: nat, led: LedControl.LedController)
      ensures controlMode == MotorOff && startMillis == 0 && errorCheckTimer == 0
      ensures motorErrors == 0 && previousErrors == 0 && !outputsEnabled
      ensures outputCalls == [] && reports == [] && speed == 0
      ensures this.led == led && executionPeriod == period
    {
      controlMode, startMillis, errorCheckTimer := MotorOff, 0, 0;
      motorErrors, previousErrors := 0, 0;
      outputsEnabled, outputCalls, reports, speed := false, [], [], 0;
      this.led := led;
      executionPeriod := period;
    }

    /** The outputs are on exactly while the last check found no error. */
    predicate OutputsFollowErrors()
      reads this
    {
      outputsEnabled <==> previousErrors == 0
    }

    /** OnStart at millis() == now, past the pin and driver set-up: outputs
        on, mode MOTOR_OFF, toggle timer restarted. */
    method OnStart(now: nat)
      requires now < U32
      modifies this
      ensures outputsEnabled && outputCalls == old(outputCalls) + [true]
      ensures controlMode == MotorOff && startMillis == now
      ensures motorErrors == old(motorErrors) && previousErrors == old(previousErrors)
      ensures errorCheckTimer == old(errorCheckTimer) && reports == old(reports) && speed == old(speed)
      ensures previousErrors == 0 ==> OutputsFollowErrors()
    {
      outputsEnabled := true;
      outputCalls := outputCalls + [true];
      controlMode := MotorOff;
      startMillis := now;
    }

    method OnStop()
      modifies this
      ensures !outputsEnabled && outputCalls == old(outputCalls) + [false]
      ensures controlMode == old(controlMode) && startMillis == old(startMillis)
      ensures motorErrors == old(motorErrors) && previousErrors == old(previousErrors)
      ensures errorCheckTimer == old(errorCheckTimer) && reports == old(reports) && speed == old(speed)
    {
      outputsEnabled := false;
      outputCalls := outputCalls + [false];
    }

    /** CheckForErrors with the driver's version register and whether VBUS
        reads below 5 V: outputs are switched on when the errors clear and
        off (with a report) when they appear; while any error is present the
        LED is asked to flash. */
    method CheckForErrors(version: nat, vbusLow: bool)
      modifies this, led
      ensures motorErrors == ErrorWord(vbusLow, version == 0) && previousErrors == motorErrors
      ensures old(previousErrors) > 0 && motorErrors == 0 ==>
                outputsEnabled && outputCalls == old(outputCalls) + [true] && reports == old(reports)
      ensures old(previousErrors) == 0 && motorErrors > 0 ==>
                !outputsEnabled && outputCalls == old(outputCalls) + [false] && reports == old(reports) + [motorErrors]
      ensures (old(previousErrors) > 0) == (motorErrors > 0) ==>
                outputsEnabled == old(outputsEnabled) && outputCalls == old(outputCalls) && reports == old(reports)
      ensures motorErrors > 0 ==> led.State() == LedControl.Enter(old(led.State()), LedControl.FLASH_ERROR, led.periods)
      ensures motorErrors == 0 ==> led.State() == old(led.State())
      ensures led.log == old(led.log)
      ensures old(OutputsFollowErrors()) ==> OutputsFollowErrors()
      ensures controlMode == old(controlMode) && startMillis == old(startMillis)
      ensures errorCheckTimer == old(errorCheckTimer) && speed == old(speed)
    {
      motorErrors := ErrorWord(vbusLow, version == 0);
      if previousErrors > 0 && motorErrors == 0 {
        outputsEnabled := true;
        outputCalls := outputCalls + [true];
      }
      if previousErrors == 0 && motorErrors > 0 {
        outputsEnabled := false;
        outputCalls := outputCalls + [false];
        reports := reports + [motorErrors];
      }
      previousErrors := motorErrors;
      if motorErrors > 0 {
        led.SetLedState(LedControl.FLASH_ERROR);
      }
    }

    /** The two button tests at the head of OnRun. The second test sees the
        timer the first one may have restarted, so a call toggles at most
        once. */
    method CheckButton(now: nat, pressed: bool)
      requires now < U32
      modifies this
      ensures controlMode == Toggled(old(controlMode), pressed, Tasks.Elapsed(now, old(startMillis)))
      ensures startMillis == (if controlMode != old(controlMode) then now else old(startMillis))
      ensures motorErrors == old(motorErrors) && previousErrors == old(previousErrors)
      ensures errorCheckTimer == old(errorCheckTimer) && outputsEnabled == old(outputsEnabled)
      ensures outputCalls == old(outputCalls) && reports == old(reports) && speed == old(speed)
    {
      if controlMode == MotorOff && pressed && Tasks.Elapsed(now, startMillis) > TOGGLE_DEBOUNCE {
        controlMode := DetectSteps;
        startMillis := now;
      }
      if controlMode == DetectSteps && pressed && Tasks.Elapsed(now, startMillis) > TOGGLE_DEBOUNCE {
        controlMode := MotorOff;
        startMillis := now;
      }
    }

    /** The speed commands of the mode switch that involve no encoder
        reading: MOTOR_OFF stops the motor; TEST2 runs at 200 steps/s and
        drops to MOTOR_OFF once 2000 ms have passed since the last toggle. */
    method Drive(now: nat)
      requires now < U32
      modifies this
      ensures speed == (if old(controlMode) == MotorOff then 0 else if old(controlMode) == Test2 then 200 else old(speed))
      ensures controlMode == (if old(controlMode) == Test2 && Tasks.Elapsed(now, startMillis) > TEST2_DURATION
                              then MotorOff else old(controlMode))
      ensures startMillis == old(startMillis) && motorErrors == old(motorErrors) && previousErrors == old(previousErrors)
      ensures errorCheckTimer == old(errorCheckTimer) && outputsEnabled == old(outputsEnabled)
      ensures outputCalls == old(outputCalls) && reports == old(reports)
    {
      if controlMode == MotorOff {
        speed := 0;
      } else if controlMode == Test2 {
        if Tasks.Elapsed(now, startMillis) > TEST2_DURATION {
          controlMode := MotorOff;
        }
        speed := 200;
      }
    }

    /** OnRun at millis() == now: the button toggle, the error check once
        more than 1000 ms have passed since the last, then the mode's speed
        command. */
    method OnRun(now: nat, pressed: bool, version: nat, vbusLow: bool)
      requires now < U32
      modifies this, led
      ensures var mode := Toggled(old(controlMode), pressed, Tasks.Elapsed(now, old(startMillis)));
              && startMillis == (if mode != old(controlMode) then now else old(startMillis))
              && controlMode == (if mode == Test2 && Tasks.Elapsed(now, startMillis) > TEST2_DURATION then MotorOff else mode)
              && speed == (if mode == MotorOff then 0 else if mode == Test2 then 200 else old(speed))
      ensures var check := Tasks.Elapsed(now, old(errorCheckTimer)) > ERROR_CHECK_PERIOD;
              && errorCheckTimer == (if check then now else old(errorCheckTimer))
              && (check ==> motorErrors == ErrorWord(vbusLow, version == 0) && previousErrors == motorErrors)
              && (!check ==> motorErrors == old(motorErrors) && previousErrors == old(previousErrors)
                             && outputCalls == old(outputCalls) && reports == old(reports)
                             && led.State() == old(led.State()))
      ensures old(OutputsFollowErrors()) ==> OutputsFollowErrors()
      ensures led.log == old(led.log)
    {
      CheckButton(now, pressed);
      if Tasks.Elapsed(now, errorCheckTimer) > ERROR_CHECK_PERIOD {
        errorCheckTimer := now;
        CheckForErrors(version, vbusLow);
      }
      Drive(now);
    }
  }

  /** After a toggle at t, no call within the next 500 ms toggles again, so
      holding the button does not make the mode chatter. */
  lemma NoToggleWithinDebounce(mode: ControlMode, t: nat, later: nat)
    requires t < U32 && later < U32 && Tasks.Elapsed(later, t) <= TOGGLE_DEBOUNCE
    ensures Toggled(mode, true, Tasks.Elapsed(later, t)) == mode
  {
  }

  /** Two presses more than 500 ms apart return the mode to where it was. */
  lemma ToggleTwice(mode: ControlMode, d1: nat, d2: nat)
    requires (mode == MotorOff || mode == DetectSteps) && d1 > TOGGLE_DEBOUNCE && d2 > TOGGLE_DEBOUNCE
    ensures Toggled(Toggled(mode, true, d1), true, d2) == mode
  {
  }
}
