/** The parts of the easyTMC2209 driver object (easyTMC2209.cpp) that the
    firmware relies on: its register write and read over the UART, the
    microstep resolution, the current settings and CoolStep. The object keeps
    copies of the write-only registers and rewrites them whole; the UART is
    the list of bytes sent. */
module TmcDriver {
  import opened Wrappers
  import opened TmcDatagram

  const ADDRESS_REPLYDELAY: bv8 := 0x03
  const ADDRESS_IHOLD_IRUN: bv8 := 0x10
  const ADDRESS_COOLCONF: bv8 := 0x42
  const ADDRESS_CHOPCONF: bv8 := 0x6C

  const PERCENT_MIN: int := 0
  const PERCENT_MAX: int := 100
  const CURRENT_SETTING_MIN: int := 10
  const CURRENT_SETTING_MAX: int := 31
  const HOLD_DELAY_MIN: int := 0
  const HOLD_DELAY_MAX: int := 15
  const SEIMIN_UPPER_CURRENT_LIMIT: int := 20
  const SEMIN_MIN: int := 1
  const SEMIN_MAX: int := 15
  const SEMAX_MIN: int := 0
  const SEMAX_MAX: int := 15
  const SEMIN_OFF: U4 := 0
  const REPLY_DELAY_MAX: int := 15
  const MICROSTEPS_PER_STEP_MAX: nat := 256

  // --- Register layouts ----------------------------------------------------------------

  type U1 = x: nat | x < 2
  type U2 = x: nat | x < 4
  type U3 = x: nat | x < 8
  type U4 = x: nat | x < 16
  type U5 = x: nat | x < 32

  /** The DriverCurrent union: ihold in bits 0-4, irun in bits 8-12,
      iholddelay in bits 16-19, the reserved bits zero. */
  datatype DriverCurrent = DriverCurrent(ihold: U5, irun: U5, iholddelay: U4)

  /** The CoolConfig union: semin 0-3, seup 5-6, semax 8-11, sedn 13-14,
      seimin 15. */
  datatype CoolConfig = CoolConfig(semin: U4, seup: U2, semax: U4, sedn: U2, seimin: U1)

  /** The ChopperConfig union: toff 0-3, hstart 4-6, hend 7-10, tbl 15-16,
      vsense 17, mres 24-27, intpol 28, dedge 29, diss2g 30, diss2vs 31. */
  datatype ChopperConfig = ChopperConfig(toff: U4, hstart: U3, hend: U4, tbl: U2, vsense: U1,
                                         mres: U4, interpolation: U1, doubleEdge: U1,
                                         diss2g: U1, diss2vs: U1)

  /** Numbers below 2^32, the value range of the unions' `bytes` member. */
  function Word(n: nat): bv32
    requires n < 0x1_0000_0000
  {
    n as bv32
  }

  /** The `bytes` member of a DriverCurrent, as a number. */
  function DriverCurrentBytes(c: DriverCurrent): (n: nat)
    ensures n < 0x1_0000_0000
  {
    c.ihold + 8 * (0 + 32 * (c.irun + 8 * (0 + 32 * c.iholddelay)))
  }

  function CoolConfigBytes(c: CoolConfig): (n: nat)
    ensures n < 0x1_0000_0000
  {
    c.semin + 16 * (0 + 2 * (c.seup + 4 * (0 + 2 * (c.semax + 16 * (0 + 2 * (c.sedn + 4 * c.seimin)))))) 
  }

  function ChopperConfigBytes(c: ChopperConfig): (n: nat)
    ensures n < 0x1_0000_0000
  {
    c.toff + 16 * (c.hstart + 8 * (c.hend + 16 * (0 + 16 * (c.tbl + 4 * (c.vsense + 2 * (0 + 64 *
      (c.mres + 16 * (c.interpolation + 2 * (c.doubleEdge + 2 * (c.diss2g + 2 * c.diss2vs))))))))))
  }

  /** The `bytes` member of a ReplyDelay whose other bits were cleared:
      replydelay in bits 8-11. */
  function ReplyDelayBytes(replyDelay: U4): (n: nat)
    ensures n < 0x1_0000_0000
  {
    256 * replyDelay
  }

  /** Bits lo .. lo + width - 1 of n, for a field starting at bit lo, whose
      place value is scale = 2^lo, and whose range is size = 2^width. */
  function Bits(n: nat, scale: nat, size: nat): nat
    requires scale > 0 && size > 0
  {
    (n / scale) % size
  }

  /** Division by k recovers the two parts of low + k * high. */
  lemma DivModStep(low: nat, high: nat, k: nat)
    requires low < k
    ensures (low + k * high) / k == high && (low + k * high) % k == low
  {
    var n := low + k * high;
    var q, r := n / k, n % k;
    assert k * q + r == k * high + low;
    if q > high {
      AtLeastOnce(k, q - high);
    } else if q < high {
      AtLeastOnce(k, high - q);
    }
  }

  lemma AtLeastOnce(k: nat, m: nat)
    requires m >= 1
    ensures k * m >= k
  {
  }

  /** The C bit-field layout: every field is read back from its own bits of
      the register word. */
  lemma DriverCurrentLayout(c: DriverCurrent)
    ensures Bits(DriverCurrentBytes(c), 1, 32) == c.ihold
    ensures Bits(DriverCurrentBytes(c), 256, 32) == c.irun
    ensures Bits(DriverCurrentBytes(c), 65536, 16) == c.iholddelay
  {
    var n := DriverCurrentBytes(c);
    var h1 := 0 + 32 * (c.irun + 8 * (0 + 32 * c.iholddelay));
    DivModStep(c.ihold, h1, 32);
    var h2 := c.irun + 8 * (0 + 32 * c.iholddelay);
    assert n == c.ihold + 256 * h2;
    DivModStep(c.ihold, h2, 256);
    DivModStep(c.irun, 32 * c.iholddelay, 256);
    assert n == c.ihold + 256 * c.irun + 65536 * c.iholddelay;
    DivModStep(c.ihold + 256 * c.irun, c.iholddelay, 65536);
  }

  lemma ChopperConfigLayout(c: ChopperConfig)
    ensures Bits(ChopperConfigBytes(c), 1, 16) == c.toff
    ensures Bits(ChopperConfigBytes(c), 0x100_0000, 16) == c.mres
  {
    var n := ChopperConfigBytes(c);
    var top := c.interpolation + 2 * (c.doubleEdge + 2 * (c.diss2g + 2 * c.diss2vs));
    var mid := c.tbl + 4 * (c.vsense + 2 * (0 + 64 * (c.mres + 16 * top)));
    var rest := c.hstart + 8 * (c.hend + 16 * (0 + 16 * mid));
    assert n == c.toff + 16 * rest;
    DivModStep(c.toff, rest, 16);
    var low := c.toff + 16 * (c.hstart + 8 * (c.hend + 16 * (0 + 16 * (c.tbl + 4 * c.vsense))));
    assert n == low + 0x100_0000 * (c.mres + 16 * top);
    DivModStep(low, c.mres + 16 * top, 0x100_0000);
    DivModStep(c.mres, top, 16);
  }

  lemma CoolConfigLayout(c: CoolConfig)
    ensures Bits(CoolConfigBytes(c), 1, 16) == c.semin
    ensures Bits(CoolConfigBytes(c), 256, 16) == c.semax
    ensures Bits(CoolConfigBytes(c), 0x8000, 2) == c.seimin
  {
    var n := CoolConfigBytes(c);
    var high := c.semax + 16 * (0 + 2 * (c.sedn + 4 * c.seimin));
    var rest := 0 + 2 * (c.seup + 4 * (0 + 2 * high));
    assert n == c.semin + 16 * rest;
    DivModStep(c.semin, rest, 16);
    assert n == c.semin + 32 * c.seup + 256 * high;
    DivModStep(c.semin + 32 * c.seup, high, 256);
    DivModStep(c.semax, 2 * (c.sedn + 4 * c.seimin), 16);
    assert n == c.semin + 32 * c.seup + 256 * c.semax + 8192 * c.sedn + 0x8000 * c.seimin;
    DivModStep(c.semin + 32 * c.seup + 256 * c.semax + 8192 * c.sedn, c.seimin, 0x8000);
  }

  // --- Arduino helpers -------------------------------------------------------------------

  /** constrain(x, lo, hi). */
  function Constrain(x: int, lo: int, hi: int): (r: int)
    requires lo <= hi
    ensures lo <= r <= hi
    ensures lo <= x <= hi ==> r == x
    ensures x < lo ==> r == lo
    ensures x > hi ==> r == hi
  {
    if x < lo then lo else if x > hi then hi else x
  }

  /** C's division of a long, which truncates toward zero. */
  function TruncDiv(a: int, b: int): (q: int)
    requires b > 0
    ensures a >= 0 ==> q == a / b
    ensures a < 0 ==> q == -((-a) / b)
  {
    if a >= 0 then a / b else -((-a) / b)
  }

  /** map(x, inMin, inMax, outMin, outMax), the Arduino core's linear
      rescaling in long arithmetic. */
  function ArduinoMap(x: int, inMin: int, inMax: int, outMin: int, outMax: int): int
    requires inMin < inMax
  {
    TruncDiv((x - inMin) * (outMax - outMin), inMax - inMin) + outMin
  }

  /** The value stored into a uint8_t: the low 8 bits. */
  function ToUint8(x: int): (r: nat)
    ensures r < 256 && (0 <= x < 256 ==> r == x)
  {
    x % 256
  }

  // --- Current conversions -----------------------------------------------------------------

  /** percentToCurrentSetting: the percentage, clamped to 0-100, scaled onto
      the settings 10-31 and rounded down. */
  function PercentToCurrentSetting(percent: nat): (r: nat)
    requires percent < 256
    ensures CURRENT_SETTING_MIN <= r <= CURRENT_SETTING_MAX
    ensures percent == 0 ==> r == CURRENT_SETTING_MIN
    ensures percent >= PERCENT_MAX ==> r == CURRENT_SETTING_MAX
    ensures (r - CURRENT_SETTING_MIN) * 100 <= 21 * Constrain(percent, 0, 100) < (r - CURRENT_SETTING_MIN + 1) * 100
  {
    var p := Constrain(percent, PERCENT_MIN, PERCENT_MAX);
    ToUint8(ArduinoMap(p, PERCENT_MIN, PERCENT_MAX, CURRENT_SETTING_MIN, CURRENT_SETTING_MAX))
  }

  /** currentSettingToPercent: settings 10-31 give 0-100; a setting below 10
      maps to a negative long, which wraps to above 100 in the uint8_t. */
  function CurrentSettingToPercent(setting: nat): (r: nat)
    requires setting < 256
    ensures CURRENT_SETTING_MIN <= setting <= CURRENT_SETTING_MAX ==>
              r <= 100 && r * 21 <= (setting - CURRENT_SETTING_MIN) * 100 < (r + 1) * 21
    ensures setting < CURRENT_SETTING_MIN ==> r > 100
  {
    ToUint8(ArduinoMap(setting, CURRENT_SETTING_MIN, CURRENT_SETTING_MAX, PERCENT_MIN, PERCENT_MAX))
  }

  /** percentToHoldDelaySetting: the clamped percentage scaled onto 0-15. */
  function PercentToHoldDelaySetting(percent: nat): (r: nat)
    requires percent < 256
    ensures r <= HOLD_DELAY_MAX
    ensures r * 100 <= 15 * Constrain(percent, 0, 100) < (r + 1) * 100
  {
    var p := Constrain(percent, PERCENT_MIN, PERCENT_MAX);
    ToUint8(ArduinoMap(p, PERCENT_MIN, PERCENT_MAX, HOLD_DELAY_MIN, HOLD_DELAY_MAX))
  }

  /** holdDelaySettingToPercent: 0-15 scaled onto 0-100. */
  function HoldDelaySettingToPercent(setting: nat): (r: nat)
    requires setting < 256
    ensures setting <= HOLD_DELAY_MAX ==> r <= 100 && r * 15 <= setting * 100 < (r + 1) * 15
  {
    ToUint8(ArduinoMap(setting, HOLD_DELAY_MIN, HOLD_DELAY_MAX, PERCENT_MIN, PERCENT_MAX))
  }

  /** Converting a percentage to a setting and back never gives more than was
      asked for, and converting a setting to a percentage and back never gives
      a larger setting: the two roundings form a Galois connection. */
  lemma CurrentRoundTrips(percent: nat, setting: nat)
    requires percent <= 100 && CURRENT_SETTING_MIN <= setting <= CURRENT_SETTING_MAX
    ensures CurrentSettingToPercent(PercentToCurrentSetting(percent)) <= percent
    ensures PercentToCurrentSetting(CurrentSettingToPercent(setting)) <= setting
  {
    var s := PercentToCurrentSetting(percent);
    var q := CurrentSettingToPercent(s);
    assert q * 21 <= (s - 10) * 100 <= 21 * percent;
    var p := CurrentSettingToPercent(setting);
    var t := PercentToCurrentSetting(p);
    assert (t - 10) * 100 <= 21 * p <= (setting - 10) * 100;
  }

  // --- Microstep resolution ------------------------------------------------------------------

  /** The number of bits needed to write k. */
  function BitLength(k: nat): nat
  {
    if k == 0 then 0 else 1 + BitLength(k / 2)
  }

  function Pow2(e: nat): (r: nat)
    ensures r >= 1
  {
    if e == 0 then 1 else 2 * Pow2(e - 1)
  }

  lemma {:induction false} BitLengthBounds(k: nat)
    requires k >= 1
    ensures Pow2(BitLength(k) - 1) <= k < Pow2(BitLength(k))
  {
    if k >= 2 {
      BitLengthBounds(k / 2);
    }
  }

  /** The MRES code of a power-of-two exponent: MRES_001 = 8 for exponent 0
      down to MRES_256 = 0 for exponent 8, and MRES_256 for any larger
      exponent (the default branch). */
  function MresCode(exponent: nat): (code: U4)
    ensures exponent <= 8 ==> code == 8 - exponent
    ensures exponent > 8 ==> code == 0
  {
    if exponent <= 8 then 8 - exponent else 0
  }

  /** getMicrostepsPerStep's decoding of an MRES code: exponent 8 - code for
      the codes 0-8, exponent 8 (MRES_256) for the others. */
  function MicrostepsOf(code: U4): (r: nat)
    ensures r in {1, 2, 4, 8, 16, 32, 64, 128, 256}
  {
    if code == 8 then 1 else if code == 7 then 2 else if code == 6 then 4
    else if code == 5 then 8 else if code == 4 then 16 else if code == 3 then 32
    else if code == 2 then 64 else if code == 1 then 128 else 256
  }

  /** Encoding an exponent and decoding it again gives 2^exponent, capped
      at 256. */
  lemma MresRoundTrip(exponent: nat)
    ensures MicrostepsOf(MresCode(exponent)) == if exponent <= 8 then Pow2(exponent) else 256
  {
    if exponent <= 8 {
      assert Pow2(1) == 2 && Pow2(2) == 4 && Pow2(3) == 8 && Pow2(4) == 16;
      assert Pow2(5) == 32 && Pow2(6) == 64 && Pow2(7) == 128 && Pow2(8) == 256;
    }
  }

  /** The exponent setMicrostepsPerStep computes brackets n. */
  lemma ExponentBounds(n: nat)
    ensures n >= 1 ==> Pow2(BitLength(n / 2)) <= n < 2 * Pow2(BitLength(n / 2))
    ensures n <= MICROSTEPS_PER_STEP_MAX ==> BitLength(n / 2) <= 8
    ensures n > MICROSTEPS_PER_STEP_MAX ==> BitLength(n / 2) >= 8
  {
    if n >= 2 {
      BitLengthBounds(n / 2);
    }
    assert Pow2(7) == 128 && Pow2(8) == 256;
    if n <= MICROSTEPS_PER_STEP_MAX {
      BitLengthBelow(n / 2, 8);
    } else {
      BitLengthAbove(n / 2, 7);
    }
  }

  lemma {:induction false} BitLengthAbove(k: nat, m: nat)
    requires Pow2(m) <= k
    ensures BitLength(k) >= m + 1
  {
    if m > 0 {
      BitLengthAbove(k / 2, m - 1);
    }
  }

  /** irun reaches 20 exactly from 48 percent up. */
  lemma RunCurrentThreshold(percent: nat)
    requires percent < 256
    ensures PercentToCurrentSetting(percent) >= SEIMIN_UPPER_CURRENT_LIMIT <==> percent >= 48
  {
  }

  // --- The driver object ---------------------------------------------------------------------

  class Tmc2209 {
    var serialAddress: bv8
    var driverCurrent: DriverCurrent
    var coolConfig: CoolConfig
    var chopperConfig: ChopperConfig
    var coolStepEnabled: bool
    /** Every byte written to the UART, in order. */
    var wire: seq<bv8>

    /** The constructor of a global object: address 0, CoolStep off, the
        register copies zero. */
    constructor ()
      ensures serialAddress == 0 && !coolStepEnabled && wire == []
      ensures driverCurrent == DriverCurrent(0, 0, 0) && coolConfig == CoolConfig(0, 0, 0, 0, 0)
      ensures chopperConfig == ChopperConfig(0, 0, 0, 0, 0, 0, 0, 0, 0, 0)
    {
      serialAddress := 0;
      coolStepEnabled := false;
      wire := [];
      driverCurrent := DriverCurrent(0, 0, 0);
      coolConfig := CoolConfig(0, 0, 0, 0, 0);
      chopperConfig := ChopperConfig(0, 0, 0, 0, 0, 0, 0, 0, 0, 0);
    }

    /** sendDatagramUnidirectional: the datagram's bytes, least significant
        first. */
    method SendDatagram(datagram: bv64, size: nat)
      requires size <= 8
      modifies this
      ensures wire == old(wire) + Wire(datagram, size)
      ensures serialAddress == old(serialAddress) && coolStepEnabled == old(coolStepEnabled)
      ensures driverCurrent == old(driverCurrent) && coolConfig == old(coolConfig) && chopperConfig == old(chopperConfig)
    {
      var i: nat := 0;
      while i < size
        invariant i <= size
        invariant wire == old(wire) + Wire(datagram, size)[..i]
        invariant serialAddress == old(serialAddress) && coolStepEnabled == old(coolStepEnabled)
        invariant driverCurrent == old(driverCurrent) && coolConfig == old(coolConfig) && chopperConfig == old(chopperConfig)
      {
        assert Wire(datagram, size)[..i + 1] == Wire(datagram, size)[..i] + [ByteAt(datagram, i)];
        wire := wire + [ByteAt(datagram, i)];
        i := i + 1;
      }
      assert Wire(datagram, size)[..size] == Wire(datagram, size);
    }

    /** write(): one write datagram to the driver. */
    method Write(register: bv8, data: bv32)
      modifies this
      ensures wire == old(wire) + WriteFrame(serialAddress, register, data)
      ensures serialAddress == old(serialAddress) && coolStepEnabled == old(coolStepEnabled)
      ensures driverCurrent == old(driverCurrent) && coolConfig == old(coolConfig) && chopperConfig == old(chopperConfig)
    {
      var datagram := WriteDatagram(serialAddress, register, data);
      SendDatagram(datagram, WRITE_READ_REPLY_DATAGRAM_SIZE);
    }

    /** read(): the request is sent, then the reply is None when fewer than
        eight bytes arrive within REPLY_DELAY_MAX_MICROSECONDS, which reads as
        0; otherwise the value is the reply's data field, most significant
        byte first. */
    method Read(register: bv8, reply: Option<seq<bv8>>) returns (data: bv32)
      requires reply.Some? ==> |reply.value| == WRITE_READ_REPLY_DATAGRAM_SIZE
      modifies this
      ensures wire == old(wire) + ReadFrame(serialAddress, register)
      ensures reply.None? ==> data == 0
      ensures reply.Some? ==> data == FromBigEndian(reply.value[3..7])
      ensures serialAddress == old(serialAddress) && coolStepEnabled == old(coolStepEnabled)
      ensures driverCurrent == old(driverCurrent) && coolConfig == old(coolConfig) && chopperConfig == old(chopperConfig)
    {
      var request := ReadRequestDatagram(serialAddress, register);
      SendDatagram(request, READ_REQUEST_DATAGRAM_SIZE);
      if reply.None? {
        return 0;
      }
      var bytes := Pack(reply.value);
      ReplyData(reply.value);
      data := ReverseData(DataField(bytes));
    }

    /** getMicrostepsPerStep, from the stored chopper configuration. */
    function MicrostepsPerStep(): (r: nat)
      reads this
      ensures r in {1, 2, 4, 8, 16, 32, 64, 128, 256}
    {
      MicrostepsOf(chopperConfig.mres)
    }

    /** writeStoredChopperConfig. */
    method WriteStoredChopperConfig()
      modifies this
      ensures wire == old(wire) + WriteFrame(serialAddress, ADDRESS_CHOPCONF, Word(ChopperConfigBytes(chopperConfig)))
      ensures serialAddress == old(serialAddress) && coolStepEnabled == old(coolStepEnabled)
      ensures driverCurrent == old(driverCurrent) && coolConfig == old(coolConfig) && chopperConfig == old(chopperConfig)
    {
      Write(ADDRESS_CHOPCONF, Word(ChopperConfigBytes(chopperConfig)));
    }

    /** setMicrostepsPerStepPowerOfTwo: only the MRES field changes and the
        chopper configuration is written; the driver then runs 2^exponent
        microsteps per step, or 256 for exponents above 8. */
    method SetMicrostepsPerStepPowerOfTwo(exponent: nat)
      requires exponent < 256
      modifies this
      ensures chopperConfig == old(chopperConfig).(mres := MresCode(exponent))
      ensures MicrostepsPerStep() == if exponent <= 8 then Pow2(exponent) else 256
      ensures wire == old(wire) + WriteFrame(serialAddress, ADDRESS_CHOPCONF, Word(ChopperConfigBytes(chopperConfig)))
      ensures serialAddress == old(serialAddress) && coolStepEnabled == old(coolStepEnabled)
      ensures driverCurrent == old(driverCurrent) && coolConfig == old(coolConfig)
    {
      chopperConfig := chopperConfig.(mres := MresCode(exponent));
      MresRoundTrip(exponent);
      WriteStoredChopperConfig();
    }

    /** setMicrostepsPerStep: the exponent is the bit length of n >> 1, that
        is floor(log2 n), or 0 for n <= 1. The clamped value the source
        computes first is overwritten, so the clamp has no effect; the
        default branch of the exponent switch caps the result at 256. The
        result is the largest power of two not above n. */
    method SetMicrostepsPerStep(n: nat)
      requires n < 0x1_0000
      modifies this
      ensures n == 0 ==> MicrostepsPerStep() == 1
      ensures 1 <= n <= MICROSTEPS_PER_STEP_MAX ==> MicrostepsPerStep() <= n < 2 * MicrostepsPerStep()
      ensures n > MICROSTEPS_PER_STEP_MAX ==> MicrostepsPerStep() == MICROSTEPS_PER_STEP_MAX
      ensures chopperConfig == old(chopperConfig).(mres := chopperConfig.mres)
      ensures wire == old(wire) + WriteFrame(serialAddress, ADDRESS_CHOPCONF, Word(ChopperConfigBytes(chopperConfig)))
      ensures serialAddress == old(serialAddress) && coolStepEnabled == old(coolStepEnabled)
      ensures driverCurrent == old(driverCurrent) && coolConfig == old(coolConfig)
    {
      var shifted: nat := n / 2;
      var exponent: nat := 0;
      while shifted > 0
        invariant exponent + BitLength(shifted) == BitLength(n / 2)
        decreases shifted
      {
        shifted := shifted / 2;
        exponent := exponent + 1;
      }
      ExponentBounds(n);
      SixteenBitLength(n / 2);
      SetMicrostepsPerStepPowerOfTwo(exponent);
    }

    /** writeStoredDriverCurrent: the current register is written; seimin is
        set exactly when irun is at least 20; the CoolStep configuration is
        rewritten only while CoolStep is enabled. */
    method WriteStoredDriverCurrent()
      modifies this
      ensures coolConfig == old(coolConfig).(seimin := if driverCurrent.irun >= SEIMIN_UPPER_CURRENT_LIMIT then 1 else 0)
      ensures wire == old(wire) + WriteFrame(serialAddress, ADDRESS_IHOLD_IRUN, Word(DriverCurrentBytes(driverCurrent)))
                     + (if coolStepEnabled then WriteFrame(serialAddress, ADDRESS_COOLCONF, Word(CoolConfigBytes(coolConfig))) else [])
      ensures serialAddress == old(serialAddress) && coolStepEnabled == old(coolStepEnabled)
      ensures driverCurrent == old(driverCurrent) && chopperConfig == old(chopperConfig)
    {
      Write(ADDRESS_IHOLD_IRUN, Word(DriverCurrentBytes(driverCurrent)));
      if driverCurrent.irun >= SEIMIN_UPPER_CURRENT_LIMIT {
        coolConfig := coolConfig.(seimin := 1);
      } else {
        coolConfig := coolConfig.(seimin := 0);
      }
      if coolStepEnabled {
        Write(ADDRESS_COOLCONF, Word(CoolConfigBytes(coolConfig)));
      }
    }

    /** setRunCurrent: irun from the percentage, then the stored current
        written. */
    method SetRunCurrent(percent: nat)
      requires percent < 256
      modifies this
      ensures driverCurrent == old(driverCurrent).(irun := PercentToCurrentSetting(percent))
      ensures coolConfig == old(coolConfig).(seimin := if percent >= 48 then 1 else 0)
      ensures wire == old(wire) + WriteFrame(serialAddress, ADDRESS_IHOLD_IRUN, Word(DriverCurrentBytes(driverCurrent)))
                     + (if coolStepEnabled then WriteFrame(serialAddress, ADDRESS_COOLCONF, Word(CoolConfigBytes(coolConfig))) else [])
      ensures serialAddress == old(serialAddress) && coolStepEnabled == old(coolStepEnabled)
      ensures chopperConfig == old(chopperConfig)
    {
      driverCurrent := driverCurrent.(irun := PercentToCurrentSetting(percent));
      RunCurrentThreshold(percent);
      WriteStoredDriverCurrent();
    }

    /** setHoldCurrent: ihold from the percentage, then the stored current
        written. */
    method SetHoldCurrent(percent: nat)
      requires percent < 256
      modifies this
      ensures driverCurrent == old(driverCurrent).(ihold := PercentToCurrentSetting(percent))
      ensures coolConfig == old(coolConfig).(seimin := if driverCurrent.irun >= SEIMIN_UPPER_CURRENT_LIMIT then 1 else 0)
      ensures wire == old(wire) + WriteFrame(serialAddress, ADDRESS_IHOLD_IRUN, Word(DriverCurrentBytes(driverCurrent)))
                     + (if coolStepEnabled then WriteFrame(serialAddress, ADDRESS_COOLCONF, Word(CoolConfigBytes(coolConfig))) else [])
      ensures serialAddress == old(serialAddress) && coolStepEnabled == old(coolStepEnabled)
      ensures chopperConfig == old(chopperConfig)
    {
      driverCurrent := driverCurrent.(ihold := PercentToCurrentSetting(percent));
      WriteStoredDriverCurrent();
    }

    /** setHoldDelay: iholddelay from the percentage, then the stored current
        written. */
    method SetHoldDelay(percent: nat)
      requires percent < 256
      modifies this
      ensures driverCurrent == old(driverCurrent).(iholddelay := PercentToHoldDelaySetting(percent))
      ensures coolConfig == old(coolConfig).(seimin := if driverCurrent.irun >= SEIMIN_UPPER_CURRENT_LIMIT then 1 else 0)
      ensures wire == old(wire) + WriteFrame(serialAddress, ADDRESS_IHOLD_IRUN, Word(DriverCurrentBytes(driverCurrent)))
                     + (if coolStepEnabled then WriteFrame(serialAddress, ADDRESS_COOLCONF, Word(CoolConfigBytes(coolConfig))) else [])
      ensures serialAddress == old(serialAddress) && coolStepEnabled == old(coolStepEnabled)
      ensures chopperConfig == old(chopperConfig)
    {
      driverCurrent := driverCurrent.(iholddelay := PercentToHoldDelaySetting(percent));
      WriteStoredDriverCurrent();
    }

    /** setAllCurrentValues: the three percentages converted and stored in
        their fields of the current register, then written out. */
    method SetAllCurrentValues(runPercent: nat, holdPercent: nat, holdDelayPercent: nat)
      requires runPercent < 256 && holdPercent < 256 && holdDelayPercent < 256
      modifies this
      ensures driverCurrent == DriverCurrent(PercentToCurrentSetting(holdPercent), PercentToCurrentSetting(runPercent),
                                             PercentToHoldDelaySetting(holdDelayPercent))
      ensures coolConfig == old(coolConfig).(seimin := if runPercent >= 48 then 1 else 0)
      ensures wire == old(wire) + WriteFrame(serialAddress, ADDRESS_IHOLD_IRUN, Word(DriverCurrentBytes(driverCurrent)))
                     + (if coolStepEnabled then WriteFrame(serialAddress, ADDRESS_COOLCONF, Word(CoolConfigBytes(coolConfig))) else [])
      ensures serialAddress == old(serialAddress) && coolStepEnabled == old(coolStepEnabled)
      ensures chopperConfig == old(chopperConfig)
    {
      var runCurrent := PercentToCurrentSetting(runPercent);
      var holdCurrent := PercentToCurrentSetting(holdPercent);
      var holdDelay := PercentToHoldDelaySetting(holdDelayPercent);
      driverCurrent := driverCurrent.(irun := runCurrent);
      driverCurrent := driverCurrent.(ihold := holdCurrent);
      driverCurrent := driverCurrent.(iholddelay := holdDelay);
      RunCurrentThreshold(runPercent);
      WriteStoredDriverCurrent();
    }

    /** setReplyDelay: the delay, clamped to 15, in bits 8-11 of an otherwise
        zero word written to REPLYDELAY. */
    method SetReplyDelay(delay: nat)
      requires delay < 256
      modifies this
      ensures wire == old(wire) + WriteFrame(serialAddress, ADDRESS_REPLYDELAY,
                                             Word(ReplyDelayBytes(Constrain(delay, 0, REPLY_DELAY_MAX))))
      ensures serialAddress == old(serialAddress) && coolStepEnabled == old(coolStepEnabled)
      ensures driverCurrent == old(driverCurrent) && coolConfig == old(coolConfig) && chopperConfig == old(chopperConfig)
    {
      var replyDelay := delay;
      if replyDelay > REPLY_DELAY_MAX {
        replyDelay := REPLY_DELAY_MAX;
      }
      Write(ADDRESS_REPLYDELAY, Word(ReplyDelayBytes(replyDelay)));
    }

    /** enableCoolStep: the lower threshold clamped to 1-15 and the upper to
        0-15 go into semin and semax, the configuration is written and
        CoolStep is marked enabled. */
    method EnableCoolStep(lower: nat, upper: nat)
      requires lower < 256 && upper < 256
      modifies this
      ensures coolConfig == old(coolConfig).(semin := Constrain(lower, SEMIN_MIN, SEMIN_MAX),
                                             semax := Constrain(upper, SEMAX_MIN, SEMAX_MAX))
      ensures coolStepEnabled
      ensures wire == old(wire) + WriteFrame(serialAddress, ADDRESS_COOLCONF, Word(CoolConfigBytes(coolConfig)))
      ensures serialAddress == old(serialAddress) && driverCurrent == old(driverCurrent) && chopperConfig == old(chopperConfig)
    {
      var lo := Constrain(lower, SEMIN_MIN, SEMIN_MAX);
      coolConfig := coolConfig.(semin := lo);
      var hi := Constrain(upper, SEMAX_MIN, SEMAX_MAX);
      coolConfig := coolConfig.(semax := hi);
      Write(ADDRESS_COOLCONF, Word(CoolConfigBytes(coolConfig)));
      coolStepEnabled := true;
    }

    /** disableCoolStep: semin cleared, the configuration written, CoolStep
        marked disabled. */
    method DisableCoolStep()
      modifies this
      ensures coolConfig == old(coolConfig).(semin := SEMIN_OFF)
      ensures !coolStepEnabled
      ensures wire == old(wire) + WriteFrame(serialAddress, ADDRESS_COOLCONF, Word(CoolConfigBytes(coolConfig)))
      ensures serialAddress == old(serialAddress) && driverCurrent == old(driverCurrent) && chopperConfig == old(chopperConfig)
    {
      coolConfig := coolConfig.(semin := SEMIN_OFF);
      Write(ADDRESS_COOLCONF, Word(CoolConfigBytes(coolConfig)));
      coolStepEnabled := false;
    }
  }

  /** A 16-bit count has at most 16 bits, so the exponent fits the uint8_t
      parameter it is passed in. */
  lemma SixteenBitLength(k: nat)
    requires k < 0x1_0000
    ensures BitLength(k) <= 16
  {
    assert Pow2(8) == 256;
    Pow2Add(8, 8);
    BitLengthBelow(k, 16);
  }

  lemma {:induction false} BitLengthBelow(k: nat, m: nat)
    requires k < Pow2(m)
    ensures BitLength(k) <= m
  {
    if k > 0 {
      BitLengthBelow(k / 2, m - 1);
    }
  }

  lemma {:induction false} Pow2Add(a: nat, b: nat)
    ensures Pow2(a + b) == Pow2(a) * Pow2(b)
  {
    if b > 0 {
      Pow2Add(a, b - 1);
      assert Pow2(a + b) == 2 * Pow2(a + b - 1);
    }
  }
}
