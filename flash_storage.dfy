/** The EEPROM wrapper (FlashStorage.cpp): byte and page access to the
    256-byte EEPROM at I2C address 0x50, and the read-once caches of the MAC
    address and serial number held by the identity device at 0x58, with their
    text forms. The EEPROM and the identity memory are arrays; the I2C bus is
    the list of transfers; millis() is a clock field that each yield()
    advances by one millisecond. */
module FlashStorage {
  import opened Bytes
  import Tasks
  import SerialText

  const EEPROM_SIZE_BYTES: nat := 256
  const EEPROM_DEVICE_ADDRESS: byte := 0x50
  const MAC_DEVICE_ADDRESS: byte := 0x58
  const MAC_REGISTER_ADDRESS: byte := 0x9A
  const SN_DEVICE_ADDRESS: byte := 0x58
  const SN_REGISTER_ADDRESS: byte := 0x80
  const MAC_ARRAY_LEN: nat := 6
  const SERIAL_ARRAY_LEN: nat := 16
  const PAGE_SIZE: nat := 16
  const WRITE_CYCLE_TIME: nat := 5          // ms the EEPROM needs after a transfer
  const MAC_STR_SIZE: nat := 18             // sizeof(macStr)
  const SN_STR_SIZE: nat := 32              // sizeof(snStr)

  const COLON: byte := 0x3A
  const PAGE_TOO_LONG: string := "Attemptimg page write greater than 16 bytes"
  const PAGE_MISALIGNED: string := "Invalide Page Write Address"
  const ADDRESS_TOO_HIGH: string := "Address too high"

  /** One I2C transaction: a write of bytes after the register address, or a
      register address followed by a read of count bytes. */
  datatype Transfer =
    | WriteTransfer(device: byte, register: byte, data: seq<byte>)
    | ReadTransfer(device: byte, register: byte, count: nat)

  // --- Memory contents -----------------------------------------------------------------

  /** mem with data written from address at on. */
  function Splice(mem: seq<byte>, at: nat, data: seq<byte>): (r: seq<byte>)
    requires at + |data| <= |mem|
    ensures |r| == |mem|
  {
    mem[..at] + data + mem[at + |data|..]
  }

  /** A page write is read back by a read of the same range, and leaves every
      other address as it was. */
  lemma SpliceReadBack(mem: seq<byte>, at: nat, data: seq<byte>)
    requires at + |data| <= |mem|
    ensures Splice(mem, at, data)[at..at + |data|] == data
    ensures forall k :: 0 <= k < |mem| && !(at <= k < at + |data|) ==> Splice(mem, at, data)[k] == mem[k]
  {
    var r := Splice(mem, at, data);
    assert r[at..at + |data|] == data by {
      forall k | 0 <= k < |data| ensures r[at + k] == data[k] {
      }
    }
  }

  // --- Text forms ------------------------------------------------------------------------

  /** What snprintf(buf, size, ...) leaves in buf: the text cut to size - 1
      characters, the last one going to the terminating NUL. */
  function Snprintf(size: nat, text: seq<byte>): (r: seq<byte>)
    requires size >= 1
    ensures |r| < size && r <= text
    ensures |text| < size ==> r == text
  {
    if |text| < size then text else text[..size - 1]
  }

  /** "%02X" of one byte. */
  function Hex2(b: byte): (r: seq<byte>)
    ensures |r| == 2 && r[0] == SerialText.HexDigit(b / 16, true) && r[1] == SerialText.HexDigit(b % 16, true)
  {
    SerialText.HexEncode([b], true)
  }

  /** "%02X:%02X:%02X:%02X:%02X:%02X": the two digits of byte k at 3k and
      3k + 1, a colon at 3k + 2. */
  function MacText(m: seq<byte>): (r: seq<byte>)
    requires |m| == MAC_ARRAY_LEN
    ensures |r| == 17
  {
    seq(17, i requires 0 <= i < 17 => if i % 3 == 2 then COLON else Hex2(m[i / 3])[i % 3])
  }

  /** Reading "XX:XX:XX:XX:XX:XX" back: the digit pair at 3k is byte k. */
  function ParseMac(s: seq<byte>): (r: seq<byte>)
    requires |s| == 17
    ensures |r| == MAC_ARRAY_LEN
  {
    seq(MAC_ARRAY_LEN, k requires 0 <= k < MAC_ARRAY_LEN => SerialText.Pair(s[3 * k], s[3 * k + 1]))
  }

  /** The MAC text fits macStr whole and reads back as the address it was
      written from. */
  lemma MacTextRoundTrip(m: seq<byte>)
    requires |m| == MAC_ARRAY_LEN
    ensures Snprintf(MAC_STR_SIZE, MacText(m)) == MacText(m)
    ensures ParseMac(MacText(m)) == m
  {
    var t := MacText(m);
    forall k | 0 <= k < MAC_ARRAY_LEN
      ensures ParseMac(t)[k] == m[k]
    {
      MacPair(m, k);
    }
  }

  /** The colons of the MAC text are exactly the separators at 3k + 2. */
  lemma MacTextColons(m: seq<byte>)
    requires |m| == MAC_ARRAY_LEN
    ensures forall i :: 0 <= i < 17 ==> (MacText(m)[i] == COLON <==> i % 3 == 2)
  {
    forall i | 0 <= i < 17
      ensures MacText(m)[i] == COLON <==> i % 3 == 2
    {
      var h := Hex2(m[i / 3]);
      if i % 3 == 0 {
        assert MacText(m)[i] == h[0];
      } else if i % 3 == 1 {
        assert MacText(m)[i] == h[1];
      }
    }
  }

  lemma MacPair(m: seq<byte>, k: nat)
    requires |m| == MAC_ARRAY_LEN && k < MAC_ARRAY_LEN
    ensures SerialText.Pair(MacText(m)[3 * k], MacText(m)[3 * k + 1]) == m[k]
  {
    MacDigits(m, k);
    HexPair(m[k]);
  }

  /** The digits of field k of the MAC text. */
  lemma MacDigits(m: seq<byte>, k: nat)
    requires |m| == MAC_ARRAY_LEN && k < MAC_ARRAY_LEN
    ensures MacText(m)[3 * k] == Hex2(m[k])[0] && MacText(m)[3 * k + 1] == Hex2(m[k])[1]
  {
  }

  lemma HexPair(b: byte)
    ensures SerialText.Pair(Hex2(b)[0], Hex2(b)[1]) == b
  {
    SerialText.HexRoundTrip([b], true);
    assert SerialText.Decoded(Hex2(b), 2)[0] == SerialText.Pair(Hex2(b)[0], Hex2(b)[1]);
  }

  /** The serial-number text as GetSerialNumber writes it: 32 digits into
      snStr[32], where snprintf keeps only 31. */
  function SerialTextAsWritten(sn: seq<byte>): (r: seq<byte>)
    requires |sn| == SERIAL_ARRAY_LEN
    ensures |r| == 2 * SERIAL_ARRAY_LEN - 1 && r + [SerialText.HexDigit(sn[SERIAL_ARRAY_LEN - 1] % 16, true)] == SerialText.HexEncode(sn, true)
  {
    Snprintf(SN_STR_SIZE, SerialText.HexEncode(sn, true))
  }

  /** The last digit is lost: two serial numbers that differ only in the low
      nibble of their last byte get the same text. */
  lemma SerialTextDropsDigit()
    ensures |SerialTextAsWritten(Zeros(SERIAL_ARRAY_LEN))| == 31
    ensures SerialTextAsWritten(Zeros(SERIAL_ARRAY_LEN)) == SerialTextAsWritten(Zeros(15) + [1])
  {
    var a := Zeros(SERIAL_ARRAY_LEN);
    var b := Zeros(15) + [1];
    assert a[..15] == b[..15];
    assert SerialText.HexEncode(a, true)[..31] == SerialText.HexEncode(a[..15], true) + [SerialText.HexDigit(0, true)];
    assert SerialText.HexEncode(b, true)[..31] == SerialText.HexEncode(b[..15], true) + [SerialText.HexDigit(0, true)];
  }

  /** The serial-number text with room for all 32 digits and the NUL. */
  function SerialNumberText(sn: seq<byte>): (r: seq<byte>)
    requires |sn| == SERIAL_ARRAY_LEN
    ensures |r| == 2 * SERIAL_ARRAY_LEN && r == SerialText.HexEncode(sn, true)
  {
    Snprintf(SN_STR_SIZE + 1, SerialText.HexEncode(sn, true))
  }

  /** With the larger buffer the text is whole and reads back as the serial
      number. */
  lemma SerialNumberTextRoundTrip(sn: seq<byte>)
    requires |sn| == SERIAL_ARRAY_LEN
    ensures |SerialNumberText(sn)| == 2 * SERIAL_ARRAY_LEN
    ensures SerialText.Decoded(SerialNumberText(sn), 2 * SERIAL_ARRAY_LEN) == sn
  {
    SerialText.HexRoundTrip(sn, true);
  }

  // --- The storage ---------------------------------------------------------------------

  class Storage {
    var hasReadMacAddress: bool
    var hasReadSerialNumber: bool
    var lastWriteTime: nat
    /** millis(). */
    var clock: nat
    const mac: array<byte>
    const serialNumber: array<byte>
    var macStr: seq<byte>
    var snStr: seq<byte>
    /** The EEPROM at EEPROM_DEVICE_ADDRESS. */
    const eeprom: array<byte>
    /** The memory of the identity device at MAC_DEVICE_ADDRESS, which this
        code only reads. */
    const identity: seq<byte>
    var bus: seq<Transfer>
    /** Serial.println output. */
    var console: seq<string>

    predicate Valid()
      reads this, mac, serialNumber
    {
      && mac.Length == MAC_ARRAY_LEN && serialNumber.Length == SERIAL_ARRAY_LEN
      && eeprom.Length == EEPROM_SIZE_BYTES && |identity| == EEPROM_SIZE_BYTES
      && mac != serialNumber && eeprom != mac && eeprom != serialNumber
      && clock < U32 && lastWriteTime < U32
      && (hasReadMacAddress ==> mac[..] == identity[MAC_REGISTER_ADDRESS..MAC_REGISTER_ADDRESS + MAC_ARRAY_LEN]
                                && macStr == Snprintf(MAC_STR_SIZE, MacText(mac[..])))
      && (hasReadSerialNumber ==> serialNumber[..] == identity[SN_REGISTER_ADDRESS..SN_REGISTER_ADDRESS + SERIAL_ARRAY_LEN]
                                  && snStr == SerialNumberText(serialNumber[..]))
    }

    /** The namespace's static initialisation at boot time now, over the
        given EEPROM and identity memory contents. */
    constructor (now: nat, contents: seq<byte>, identity: seq<byte>)
      requires now < U32 && |contents| == EEPROM_SIZE_BYTES && |identity| == EEPROM_SIZE_BYTES
      ensures Valid() && fresh(mac) && fresh(serialNumber) && fresh(eeprom)
      ensures !hasReadMacAddress && !hasReadSerialNumber && lastWriteTime == 0 && clock == now
      ensures mac[..] == Zeros(MAC_ARRAY_LEN) && serialNumber[..] == Zeros(SERIAL_ARRAY_LEN)
      ensures eeprom[..] == contents && this.identity == identity && bus == [] && console == []
    {
      hasReadMacAddress, hasReadSerialNumber := false, false;
      lastWriteTime, clock := 0, now;
      mac := new byte[MAC_ARRAY_LEN](_ => 0);
      serialNumber := new byte[SERIAL_ARRAY_LEN](_ => 0);
      macStr, snStr := [], [];
      eeprom := new byte[EEPROM_SIZE_BYTES](i requires 0 <= i < EEPROM_SIZE_BYTES => contents[i]);
      this.identity := identity;
      bus, console := [], [];
      new;
      assert mac[..] == Zeros(MAC_ARRAY_LEN);
      assert serialNumber[..] == Zeros(SERIAL_ARRAY_LEN);
    }

    /** WaitWriteCycle: yields until 5 ms have passed since the last
        transfer, by uint32_t subtraction, and returns at the first
        millisecond at which they have. */
    method WaitWriteCycle()
      requires Valid()
      modifies this
      ensures Valid()
      ensures Tasks.Elapsed(clock, lastWriteTime) >= WRITE_CYCLE_TIME
      ensures clock == old(clock) || Tasks.Elapsed(clock, lastWriteTime) == WRITE_CYCLE_TIME
      ensures Tasks.Elapsed(old(clock), lastWriteTime) >= WRITE_CYCLE_TIME ==> clock == old(clock)
      ensures lastWriteTime == old(lastWriteTime) && bus == old(bus) && console == old(console)
      ensures hasReadMacAddress == old(hasReadMacAddress) && hasReadSerialNumber == old(hasReadSerialNumber)
      ensures macStr == old(macStr) && snStr == old(snStr)
    {
      while Tasks.Elapsed(clock, lastWriteTime) < WRITE_CYCLE_TIME
        invariant Valid()
        invariant clock == old(clock) || Tasks.Elapsed(clock, lastWriteTime) <= WRITE_CYCLE_TIME
        invariant lastWriteTime == old(lastWriteTime) && bus == old(bus) && console == old(console)
        invariant hasReadMacAddress == old(hasReadMacAddress) && hasReadSerialNumber == old(hasReadSerialNumber)
        invariant macStr == old(macStr) && snStr == old(snStr)
        decreases WRITE_CYCLE_TIME - Tasks.Elapsed(clock, lastWriteTime)
      {
        Tick(clock, lastWriteTime);
        clock := (clock + 1) % U32;
      }
    }

    /** writeRegister: one byte written to the EEPROM. */
    method WriteRegister(address: byte, data: byte)
      requires Valid()
      modifies this, eeprom
      ensures Valid()
      ensures eeprom[..] == old(eeprom[..])[address := data]
      ensures bus == old(bus) + [WriteTransfer(EEPROM_DEVICE_ADDRESS, address, [data])]
      ensures Tasks.Elapsed(clock, old(lastWriteTime)) >= WRITE_CYCLE_TIME && lastWriteTime == clock
      ensures console == old(console)
      ensures hasReadMacAddress == old(hasReadMacAddress) && hasReadSerialNumber == old(hasReadSerialNumber)
    {
      WaitWriteCycle();
      bus := bus + [WriteTransfer(EEPROM_DEVICE_ADDRESS, address, [data])];
      lastWriteTime := clock;
      eeprom[address] := data;
    }

    /** readRegister: one byte read from the EEPROM. */
    method ReadRegister(address: byte) returns (data: byte)
      requires Valid()
      modifies this
      ensures Valid()
      ensures data == eeprom[address]
      ensures bus == old(bus) + [ReadTransfer(EEPROM_DEVICE_ADDRESS, address, 1)]
      ensures Tasks.Elapsed(clock, old(lastWriteTime)) >= WRITE_CYCLE_TIME && lastWriteTime == clock
      ensures console == old(console)
      ensures hasReadMacAddress == old(hasReadMacAddress) && hasReadSerialNumber == old(hasReadSerialNumber)
    {
      WaitWriteCycle();
      bus := bus + [ReadTransfer(EEPROM_DEVICE_ADDRESS, address, 1)];
      lastWriteTime := clock;
      data := eeprom[address];
    }

    /** writePage: refused with a message, and nothing sent, when more than
        16 bytes are given or the address does not start a 16-byte page;
        otherwise the bytes are written from the address on. */
    method WritePage(address: byte, data: seq<byte>)
      requires Valid() && |data| < 256
      modifies this, eeprom
      ensures Valid()
      ensures |data| > PAGE_SIZE ==> console == old(console) + [PAGE_TOO_LONG]
      ensures |data| <= PAGE_SIZE && address % PAGE_SIZE != 0 ==> console == old(console) + [PAGE_MISALIGNED]
      ensures |data| > PAGE_SIZE || address % PAGE_SIZE != 0 ==>
                eeprom[..] == old(eeprom[..]) && bus == old(bus) && clock == old(clock) && lastWriteTime == old(lastWriteTime)
      ensures |data| <= PAGE_SIZE && address % PAGE_SIZE == 0 ==>
                && address + |data| <= EEPROM_SIZE_BYTES
                && eeprom[..] == Splice(old(eeprom[..]), address, data)
                && bus == old(bus) + [WriteTransfer(EEPROM_DEVICE_ADDRESS, address, data)]
                && console == old(console)
                && Tasks.Elapsed(clock, old(lastWriteTime)) >= WRITE_CYCLE_TIME && lastWriteTime == clock
      ensures hasReadMacAddress == old(hasReadMacAddress) && hasReadSerialNumber == old(hasReadSerialNumber)
    {
      if |data| > PAGE_SIZE {
        console := console + [PAGE_TOO_LONG];
        return;
      }
      if address % PAGE_SIZE != 0 {
        console := console + [PAGE_MISALIGNED];
        return;
      }
      WaitWriteCycle();
      ghost var before := eeprom[..];
      var sent: seq<byte> := [];
      var i := 0;
      while i < |data|
        invariant i <= |data| && sent == data[..i]
        invariant forall k :: 0 <= k < EEPROM_SIZE_BYTES ==>
                    eeprom[k] == if address <= k < address + i then data[k - address] else before[k]
        modifies eeprom
      {
        sent := sent + [data[i]];
        eeprom[address + i] := data[i];
        i := i + 1;
      }
      assert sent == data;
      assert eeprom[..] == Splice(before, address, data);
      bus := bus + [WriteTransfer(EEPROM_DEVICE_ADDRESS, address, sent)];
      lastWriteTime := clock;
    }

    /** readBytes: refused with a message, and nothing read, when the range
        runs past the end of the EEPROM; otherwise the first dataLen bytes of
        data receive the range. */
    method ReadBytes(address: byte, data: array<byte>, dataLen: nat)
      requires Valid() && dataLen < 256 && dataLen <= data.Length
      requires data != eeprom && data != mac && data != serialNumber
      modifies this, data
      ensures Valid()
      ensures address + dataLen > EEPROM_SIZE_BYTES ==>
                console == old(console) + [ADDRESS_TOO_HIGH] && data[..] == old(data[..])
                && bus == old(bus) && clock == old(clock) && lastWriteTime == old(lastWriteTime)
      ensures address + dataLen <= EEPROM_SIZE_BYTES ==>
                && data[..dataLen] == eeprom[address..address + dataLen]
                && data[dataLen..] == old(data[dataLen..])
                && bus == old(bus) + [ReadTransfer(EEPROM_DEVICE_ADDRESS, address, dataLen)]
                && console == old(console)
                && Tasks.Elapsed(clock, old(lastWriteTime)) >= WRITE_CYCLE_TIME && lastWriteTime == clock
      ensures hasReadMacAddress == old(hasReadMacAddress) && hasReadSerialNumber == old(hasReadSerialNumber)
    {
      if address + dataLen > EEPROM_SIZE_BYTES {
        console := console + [ADDRESS_TOO_HIGH];
        return;
      }
      WaitWriteCycle();
      bus := bus + [ReadTransfer(EEPROM_DEVICE_ADDRESS, address, dataLen)];
      lastWriteTime := clock;
      var i := 0;
      while i < dataLen
        invariant i <= dataLen
        invariant data[..i] == eeprom[address..address + i]
        invariant data[dataLen..] == old(data[dataLen..])
        modifies data
      {
        data[i] := eeprom[address + i];
        i := i + 1;
      }
    }

    /** GetMacAddress: the first call reads six bytes from register 0x9A of
        the identity device into mac and formats macStr; later calls return
        mac with no bus traffic. */
    method GetMacAddress() returns (r: array<byte>)
      requires Valid()
      modifies this, mac
      ensures Valid() && r == mac && hasReadMacAddress
      ensures mac[..] == identity[MAC_REGISTER_ADDRESS..MAC_REGISTER_ADDRESS + MAC_ARRAY_LEN]
      ensures old(hasReadMacAddress) ==> bus == old(bus) && clock == old(clock) && lastWriteTime == old(lastWriteTime)
      ensures !old(hasReadMacAddress) ==>
                && bus == old(bus) + [ReadTransfer(MAC_DEVICE_ADDRESS, MAC_REGISTER_ADDRESS, MAC_ARRAY_LEN)]
                && Tasks.Elapsed(clock, old(lastWriteTime)) >= WRITE_CYCLE_TIME && lastWriteTime == clock
      ensures console == old(console) && hasReadSerialNumber == old(hasReadSerialNumber) && snStr == old(snStr)
    {
      if hasReadMacAddress {
        return mac;
      }
      WaitWriteCycle();
      bus := bus + [ReadTransfer(MAC_DEVICE_ADDRESS, MAC_REGISTER_ADDRESS, MAC_ARRAY_LEN)];
      lastWriteTime := clock;
      var i := 0;
      while i < MAC_ARRAY_LEN
        invariant i <= MAC_ARRAY_LEN
        invariant forall k :: 0 <= k < i ==> mac[k] == identity[MAC_REGISTER_ADDRESS + k]
        modifies mac
      {
        mac[i] := identity[MAC_REGISTER_ADDRESS + i];
        i := i + 1;
      }
      assert mac[..] == identity[MAC_REGISTER_ADDRESS..MAC_REGISTER_ADDRESS + MAC_ARRAY_LEN];
      macStr := Snprintf(MAC_STR_SIZE, MacText(mac[..]));
      hasReadMacAddress := true;
      r := mac;
    }

    /** GetSerialNumber: as GetMacAddress, for the sixteen bytes at register
        0x80. The text is formatted into a 33-byte buffer, so that all 32
        digits are kept (see SerialTextAsWritten for the 32-byte original). */
    method GetSerialNumber() returns (r: array<byte>)
      requires Valid()
      modifies this, serialNumber
      ensures Valid() && r == serialNumber && hasReadSerialNumber
      ensures serialNumber[..] == identity[SN_REGISTER_ADDRESS..SN_REGISTER_ADDRESS + SERIAL_ARRAY_LEN]
      ensures old(hasReadSerialNumber) ==> bus == old(bus) && clock == old(clock) && lastWriteTime == old(lastWriteTime)
      ensures !old(hasReadSerialNumber) ==>
                && bus == old(bus) + [ReadTransfer(SN_DEVICE_ADDRESS, SN_REGISTER_ADDRESS, SERIAL_ARRAY_LEN)]
                && Tasks.Elapsed(clock, old(lastWriteTime)) >= WRITE_CYCLE_TIME && lastWriteTime == clock
      ensures console == old(console) && hasReadMacAddress == old(hasReadMacAddress) && macStr == old(macStr)
    {
      if hasReadSerialNumber {
        return serialNumber;
      }
      WaitWriteCycle();
      bus := bus + [ReadTransfer(SN_DEVICE_ADDRESS, SN_REGISTER_ADDRESS, SERIAL_ARRAY_LEN)];
      lastWriteTime := clock;
      var i := 0;
      while i < SERIAL_ARRAY_LEN
        invariant i <= SERIAL_ARRAY_LEN
        invariant forall k :: 0 <= k < i ==> serialNumber[k] == identity[SN_REGISTER_ADDRESS + k]
        modifies serialNumber
      {
        serialNumber[i] := identity[SN_REGISTER_ADDRESS + i];
        i := i + 1;
      }
      assert serialNumber[..] == identity[SN_REGISTER_ADDRESS..SN_REGISTER_ADDRESS + SERIAL_ARRAY_LEN];
      snStr := SerialNumberText(serialNumber[..]);
      hasReadSerialNumber := true;
      r := serialNumber;
    }

    /** GetMacAddressString: the MAC as "XX:XX:XX:XX:XX:XX". */
    method GetMacAddressString() returns (s: seq<byte>)
      requires Valid()
      modifies this, mac
      ensures Valid() && hasReadMacAddress
      ensures s == MacText(identity[MAC_REGISTER_ADDRESS..MAC_REGISTER_ADDRESS + MAC_ARRAY_LEN])
      ensures ParseMac(s) == identity[MAC_REGISTER_ADDRESS..MAC_REGISTER_ADDRESS + MAC_ARRAY_LEN]
      ensures console == old(console)
    {
      var _ := GetMacAddress();
      MacTextRoundTrip(mac[..]);
      s := macStr;
    }

    /** GetSerialNumberString: the serial number as 32 hexadecimal digits. */
    method GetSerialNumberString() returns (s: seq<byte>)
      requires Valid()
      modifies this, serialNumber
      ensures Valid() && hasReadSerialNumber
      ensures |s| == 2 * SERIAL_ARRAY_LEN
      ensures SerialText.Decoded(s, 2 * SERIAL_ARRAY_LEN) == identity[SN_REGISTER_ADDRESS..SN_REGISTER_ADDRESS + SERIAL_ARRAY_LEN]
      ensures console == old(console)
    {
      var _ := GetSerialNumber();
      SerialNumberTextRoundTrip(serialNumber[..]);
      s := snStr;
    }
  }

  /** One yield(): while fewer than 5 ms have passed, the next millisecond
      has one more. */
  lemma Tick(now: nat, since: nat)
    requires now < U32 && since < U32 && Tasks.Elapsed(now, since) < WRITE_CYCLE_TIME
    ensures Tasks.Elapsed((now + 1) % U32, since) == Tasks.Elapsed(now, since) + 1
  {
  }
}
