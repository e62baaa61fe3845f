# AxisDriver wire protocols and firmware core, modelled in Dafny

AxisDriver is a stepper-motor driver board. Hosts talk to it over USB serial, UDP or WebSerial. Every message is a binary frame: a little-endian `u16` message type, a `u16` body size, the body, and a `u16` checksum. The repository carries several revisions of that frame format, each in its own file:

- the current revision: the Python `AxisProtocol.py`, the browser `AxisProtocol.js` and the firmware catalog `AxisMessages.h`;
- a sync-prefixed revision, whose frames start with `0xDEADBABE`: `AxisMessages.py`, the configurator's `AxisMessages.js` and `main.js`;
- older revisions: `messages.py`, `Messages.hpp`, `Messages.h` and `DriverComms.py`.

This project gives each revision its own modules. A few lemmas deliberately compare revisions, because the source itself sits across them:

- the firmware receive path (`FrameChecks`, `Controllers`) checks `Messages.hpp` message types against frames built and checksummed by the current revision (`AxisProtocol.CreateMessage`, `AxisProtocol.VerifyChecksum`);
- `MessagesHpp.Counterpart` lines up the `Messages.hpp` ids with those of `messages.py` (`LegacyMessages`);
- `SyncStream.U32ToIpByteOrder` compares the sync configurator's IP conversion with the browser's `stringToIp` (`WebStream.StringToIp`).

It models:

- **Frame codecs and catalogs**: builders, parsers, checksums and message ids (`AxisCatalog`, `AxisProtocol`, `WebProtocol`, `SyncMessages`, `SyncBuilders`, `LegacyMessages`, `MessagesHpp`, `MessagesH`, `DriverComms`).
- **Stream reassemblers**: the browser's length-prefixed `readLoop` and `processData`, with the replies on which `handleMessage` throws and so ends the loop (`WebStream`), and the configurator's sync-hunting `processReadBuffer` (`SyncStream`). Both are classes whose byte buffer is a `seq` field.
- **Host request/response rules**: a transport whose replies come from an oracle sequence (`Transport`), the bounded-retry position test (`RetryTest`), and MAC-based motor discovery (`MotorDiscovery`, `GimbalGearing`).
- **Firmware receive path**:
  - length validation (`FrameChecks`, `Controllers`);
  - range- and byte-based message routing (`MessageRouting`);
  - the ASCII-hex serial interface (`SerialText`).
- **Firmware state machines**: the cooperative task scheduler (`Tasks`), the LED pattern sequencer (`LedControl`) and the motor error and button logic (`MotorControl`). The current time and sensor readings are parameters.
- **The TMC2209 UART driver**:
  - datagram packing, byte reversal and the CRC-8 with polynomial x^8 + x^2 + x + 1 from section 4.2 of the Trinamic TMC2209 datasheet (`TmcDatagram`);
  - register layouts, the microstep encoding and the current conversions (`TmcDriver`).
- **The EEPROM wrapper**: page and range guards, read-once caching and hex formatting (`FlashStorage`). The device is a 256-byte memory behind an I2C transfer log.
- **The code generators**: `GenerateInterfaces.py` (`GenerateInterfaces`) and `MakePythonMessages.py` (`MakePythonMessages`).

Helper modules:

- `Bytes`: bytes, little-endian codecs and sums.
- `Wrappers`: `Option`, `Result` and the Python exception kinds.
- `Text`: decimal formatting, split and join.
- `Utf8`: Python's UTF-8 `str.encode` and strict `bytes.decode`, following section 3 of RFC 3629.
- `JsNumbers`: JavaScript's `Number()` applied to a string, which the browser's `stringToIp` uses.

A Python exception is an `Err` carrying its kind. A JavaScript typed-array store wraps modulo 2^n explicitly. A C `uint32_t` counter is written modulo 2^32.

## Model

| member | source | states |
|---|---|---|
| AxisCatalog.Id | firmware/include/AxisMessages.h:17-56 | every MessageTypes member has a uint16_t value in 0x0100..0x04FF |
| AxisCatalog.FromId | firmware/include/AxisMessages.h:17-56 | decoding a uint16_t finds only a member whose value it is |
| AxisCatalog.FromIdId | firmware/include/AxisMessages.h:17-56 | every member is decoded back from its own value (round trip) |
| AxisCatalog.IdInjective | firmware/include/AxisMessages.h:17-56 | no two MessageTypes members share a value |
| AxisCatalog.IdHighByteIsGroup | firmware/include/AxisMessages.h:19-56 | the high byte of an id names its group: 0x01 device, 0x02 LED, 0x03 motor settings, 0x04 motion |
| AxisCatalog.StatusCode.Code | firmware/include/AxisMessages.h:59-63 | a StatusCodes value fits below 3 |
| AxisCatalog.StatusFromCode | firmware/include/AxisMessages.h:59-63 | a byte names a status iff it is below 3, and then the status carries that value |
| AxisCatalog.LedState.Code | firmware/include/AxisMessages.h:65-73 | every LedStates value is below MAX_VALUE (6) |
| AxisCatalog.LedStateFromCode | firmware/include/AxisMessages.h:65-73 | a value names an LED state iff it is below MAX_VALUE, and then the state carries that value |
| AxisCatalog.MotorState.Code | firmware/include/AxisMessages.h:75-82 | a MotorStates value is below 6 |
| AxisCatalog.MotorStateFromCode | firmware/include/AxisMessages.h:75-82 | a value names a motor state iff it is below 6, and then the state carries that value |
| AxisCatalog.MotorBrake.Code | firmware/include/AxisMessages.h:84-89 | a MotorBrake value is below 4 |
| AxisCatalog.MotorBrakeFromCode | firmware/include/AxisMessages.h:84-89 | a value names a brake mode iff it is below 4, and then the mode carries that value |
| AxisCatalog.HomeDirection.Code | firmware/include/AxisMessages.h:91-94 | a HomeDirection value is below 2 |
| AxisCatalog.HomeDirectionFromCode | firmware/include/AxisMessages.h:91-94 | a value names a direction iff it is below 2, and then the direction carries that value |
| AxisCatalog.PositionMode.Code | firmware/include/AxisMessages.h:96-99 | a PositionMode value is below 2 |
| AxisCatalog.BodyFields | firmware/include/AxisMessages.h:110-193 | every packed message body has at least one field |
| AxisCatalog.FrameSizes | firmware/include/AxisMessages.h:197-221 | with packed structs, sizeof is 7 for U8/S8, 10 for U32/S32, 14 for Double, 9 for Ack and LedColor, 12 for MacAddress, 13 for AddLedStep and 15 for VelocityAndSteps |
| AxisCatalog.ScalarBodySizes | firmware/include/AxisMessages.h:110-139 | the scalar message bodies are 1, 1, 4, 4 and 8 bytes |
| AxisCatalog.ByteArrayBodySizes | firmware/include/AxisMessages.h:151-164 | the MAC body is 6 bytes and the LED colour body 3 |
| AxisCatalog.MixedBodySizes | firmware/include/AxisMessages.h:141-193 | the Ack body is 3 bytes, AddLedStep 7 and VelocityAndSteps 9 |
| AxisProtocol.PyId | examples/Python/AxisProtocol.py:16-55 | every Python MessageTypes value fits a u16 |
| AxisProtocol.PyIdIsCatalogId | examples/Python/AxisProtocol.py:16-55 | the host's MessageTypes values are the firmware header's values, member by member |
| AxisProtocol.MessageLengthIsFrameSize | examples/Python/AxisProtocol.py:98-137 | each MESSAGE_LENGTHS entry is the sizeof of the packed struct the firmware declares for that message |
| AxisProtocol.CalculateChecksum | examples/Python/AxisProtocol.py:139-145 | the checksum is the byte sum masked to 16 bits |
| AxisProtocol.CreateMessage | examples/Python/AxisProtocol.py:147-167 | a frame is built iff the type and body length fit '<HH' (struct.error otherwise), and it is header, body and the u16 checksum of header and body |
| AxisProtocol.FramesUnique | examples/Python/AxisProtocol.py:147-167 | a frame is determined by its type and body |
| AxisProtocol.SingleByteCorruptionDetected | examples/Python/AxisProtocol.py:875-894 | changing any one byte of a frame that passes verify_checksum makes it fail |
| AxisProtocol.ParseMessageHeader | examples/Python/AxisProtocol.py:859-873 | ValueError exactly for data shorter than 4 bytes; otherwise two u16 values |
| AxisProtocol.ParseHeaderOfCreated | examples/Python/AxisProtocol.py:147-167 | the header of a built frame parses back to its type and body length |
| AxisProtocol.VerifyCreated | examples/Python/AxisProtocol.py:875-894 | every frame create_message builds passes verify_checksum |
| AxisProtocol.ParseFrame | examples/Python/AxisProtocol.py:504-511 | a parser accepts exactly a frame of the expected length with a valid checksum, the expected type and body size, and returns its body; the failed check is reported in order length, checksum, format |
| AxisProtocol.ParseFrameOfCreated | examples/Python/AxisProtocol.py:147-167 | parsing a frame built for the expected type returns the body it was built from |
| AxisProtocol.ParseAck | examples/Python/AxisProtocol.py:494-512 | an accepted ACK is a valid 9-byte ACK frame; the result is its acknowledged type and the status its status byte names |
| AxisProtocol.ParseU32Response | examples/Python/AxisProtocol.py:514-532 | an accepted u32 response frames the little-endian encoding of the returned value |
| AxisProtocol.ParseU8Response | examples/Python/AxisProtocol.py:534-552 | an accepted one-byte response frames the returned byte |
| AxisProtocol.ParseHomedStateResponse | examples/Python/AxisProtocol.py:697-716 | accepted iff the one-byte frame is, and true iff the byte is non-zero |
| AxisProtocol.ParseHomeDirectionResponse | examples/Python/AxisProtocol.py:637-655 | the returned direction is the framed byte; HomeDirection(byte) fails exactly on a valid frame whose byte is 2 or more |
| AxisProtocol.ParseMotorStateResponse | examples/Python/AxisProtocol.py:717-736 | the returned state is the framed byte; MotorStates(byte) fails exactly on a valid frame whose byte is 6 or more |
| AxisProtocol.ParseMotorBrakeResponse | examples/Python/AxisProtocol.py:737-756 | the returned mode is the framed byte; MotorBrake(byte) fails exactly on a valid frame whose byte is 4 or more |
| AxisProtocol.ParseMacResponse | examples/Python/AxisProtocol.py:594-615 | an accepted MAC response returns the six framed bytes in wire order |
| AxisProtocol.ParseLedColorResponse | examples/Python/AxisProtocol.py:617-635 | an accepted LED colour response returns the three framed bytes as (red, green, blue) |
| AxisProtocol.ParseDoubleResponse | examples/Python/AxisProtocol.py:797-855 | an accepted double response returns the eight framed bytes |
| AxisProtocol.RequestMessage | examples/Python/AxisProtocol.py:171-177 | every Get request is a 6-byte frame with an empty body |
| AxisProtocol.AckMessage | examples/Python/AxisProtocol.py:179-188 | built iff the acknowledged type fits a u16; body '<HB' of type and status; length MESSAGE_LENGTHS[ACK] |
| AxisProtocol.ParseAckOfAckMessage | examples/Python/AxisProtocol.py:494-512 | parse_ack_message returns the type and status AckMessage was built from |
| AxisProtocol.SetI2CAddressMessage | examples/Python/AxisProtocol.py:190-201 | ValueError exactly outside 0..127; otherwise the address as the one body byte |
| AxisProtocol.SetEthernetAddressMessage | examples/Python/AxisProtocol.py:207-215 | built iff the address fits a u32 (struct.error otherwise), as '<I' |
| AxisProtocol.SetU32Message | examples/Python/AxisProtocol.py:316-356 | the u32 setters (home threshold and speed, home, maximum speed, acceleration) build iff the value fits a u32, as '<I' |
| AxisProtocol.ParseU32OfCreated | examples/Python/AxisProtocol.py:514-532 | a u32 response parses back to the value it was built from |
| AxisProtocol.SetEthernetPortMessage | examples/Python/AxisProtocol.py:235-246 | ValueError exactly outside 0..65535; otherwise the port as '<I' |
| AxisProtocol.SaveConfigurationMessage | examples/Python/AxisProtocol.py:256-264 | the body is 1 when saving and 0 otherwise |
| AxisProtocol.AddLedStepMessage | examples/Python/AxisProtocol.py:266-281 | ValueError unless time_ms fits a u32 and each colour a byte; body '<IBBB' |
| AxisProtocol.SetLedColorMessage | examples/Python/AxisProtocol.py:283-296 | ValueError unless each colour is 0..255; body red, green, blue |
| AxisProtocol.ParseLedColorOfCreated | examples/Python/AxisProtocol.py:617-635 | an LED colour response parses back to the colour it was built from |
| AxisProtocol.ParseMacOfCreated | examples/Python/AxisProtocol.py:594-615 | a MAC response parses back to the six bytes it was built from |
| AxisProtocol.SetCodeMessage | examples/Python/AxisProtocol.py:302-310 | the enumeration setters send the member's value as the one body byte |
| AxisProtocol.SetDoubleMessage | examples/Python/AxisProtocol.py:414-460 | the double setters send the eight packed bytes as the body of a 14-byte frame |
| AxisProtocol.VelocityAndStepsBody | examples/Python/AxisProtocol.py:475 | the '<iiB' body is 9 bytes |
| AxisProtocol.SetVelocityAndStepsMessage | examples/Python/AxisProtocol.py:466-477 | built iff velocity and steps fit int32 (struct.error otherwise); body '<iiB' |
| AxisProtocol.VelocityAndStepsRoundTrip | examples/Python/AxisProtocol.py:466-477 | velocity and steps read back as signed 32-bit values are the ones the frame was built from, and byte 12 is the mode |
| AxisProtocol.StartPathMessage | examples/Python/AxisProtocol.py:479-490 | ValueError exactly outside 0..255; otherwise the path id as the body byte |
| AxisProtocol.PyInt | examples/Python/AxisProtocol.py:224 | int() of a canonical decimal numeral is its value (its partners PyIntPadded, PyIntUnderscore and PyIntRejects state whitespace, underscores and rejection) |
| AxisProtocol.PyInts | examples/Python/AxisProtocol.py:224 | the list comprehension fails iff int() rejects some part, and otherwise holds int() of every part in order |
| AxisProtocol.SetEthernetAddressFromString | examples/Python/AxisProtocol.py:217-229 | succeeds iff int() reads every dotted part and there are four of them, each in 0..255 (ValueError otherwise, and always for other than four parts); the body is the octets least significant first, so the first octet is the high byte |
| AxisProtocol.AddressOfInts | examples/Python/AxisProtocol.py:225-229 | ValueError unless there are four integers each in 0..255; otherwise the SetEthernetAddress frame of the octets with the first one most significant |
| AxisProtocol.OctetsAddressMessage | examples/Python/AxisProtocol.py:228-229 | the shifted and ORed octets a, b, c, d are sent as a SetEthernetAddress frame whose body is d, c, b, a |
| AxisProtocol.Le32OfOctets | examples/Python/AxisProtocol.py:228 | the shifted octets are disjoint, so their '<I' packing is the octets in reverse order |
| AxisProtocol.PyIntOfFormat | examples/Python/AxisProtocol.py:224 | int() reads back a formatted natural number |
| AxisProtocol.EthernetAddressFromDotted | examples/Python/AxisProtocol.py:217-229 | any dotted quad of bytes is accepted and sent with its last octet first on the wire |
| AxisProtocol.IntLiteral | examples/Python/AxisProtocol.py:224 | the stripped text of a run of digits with single underscores between them is read as those digits; an empty text is rejected |
| AxisProtocol.DropUnderscores | examples/Python/AxisProtocol.py:224 | what is left of a literal once its underscores are dropped is all digits, no longer than the literal, and a run of digits is unchanged |
| AxisProtocol.IntSpaceIsStripSpace | examples/Python/AxisProtocol.py:224 | the whitespace int() skips is the whitespace str.strip() skips except the four separator controls U+001C..U+001F |
| AxisProtocol.PyIntPadded | examples/Python/AxisProtocol.py:224 | whitespace around a literal does not change what int() reads |
| AxisProtocol.PyIntUnderscore | examples/Python/AxisProtocol.py:224 | an underscore between two runs of digits is skipped: int("1_0") is 10 |
| AxisProtocol.PyIntRejects | examples/Python/AxisProtocol.py:224 | a character that is no digit, underscore, sign or int() whitespace makes int() raise ValueError |
| AxisProtocol.PyIntsQuad | examples/Python/AxisProtocol.py:224 | four parts int() reads convert to their four values, in order |
| AxisProtocol.PyIntsOfDotted | examples/Python/AxisProtocol.py:224 | the four fields of a dotted quad of octets read back as those octets |
| AxisProtocol.AddressFromFields | examples/Python/AxisProtocol.py:217-229 | four dot-free fields int() reads as octets, joined by dots, give the frame of those octets with the first most significant |
| AxisProtocol.OctetFieldsAccepted | examples/Python/AxisProtocol.py:217-229 | four dot-free fields int() reads as a, b, c and d give the frame of the address a.b.c.d |
| AxisProtocol.LastFieldAccepted | examples/Python/AxisProtocol.py:217-229 | three decimal octets and any dot-free last field int() reads as d give the frame of a.b.c.d |
| AxisProtocol.SpacedFieldAccepted | examples/Python/AxisProtocol.py:217-229 | whitespace around the last field is accepted: "1.2.3. 4" gives the frame of 1.2.3.4 |
| AxisProtocol.UnderscoredFieldAccepted | examples/Python/AxisProtocol.py:217-229 | an underscore inside the last field is accepted: "1.2.3.1_0" gives the frame of 1.2.3.10 |
| WebProtocol.JsId | web_configurator/AxisProtocol.js:5-45 | every MESSAGE_TYPES value fits a u16 |
| WebProtocol.JsIdIsCatalogId | web_configurator/AxisProtocol.js:5-45 | the browser's MESSAGE_TYPES values equal the firmware's and the Python codec's, member by member |
| WebProtocol.CalculateChecksum | web_configurator/AxisProtocol.js:94-100 | the summing loop yields the same 16-bit checksum as the Python codec |
| WebProtocol.Frame | web_configurator/AxisProtocol.js:103-128 | a built frame is six bytes longer than its body and carries the body unchanged at offset 4 |
| WebProtocol.FrameIsCreateMessage | web_configurator/AxisProtocol.js:103-128 | for a type and body length that fit a u16, buildMessage produces byte for byte the frame create_message of the Python codec produces |
| WebProtocol.FrameVerifies | web_configurator/AxisProtocol.js:103-128 | every built frame passes the checksum check, and its header holds the type and body length truncated to 16 bits by setUint16 |
| WebProtocol.FrameFrames | web_configurator/AxisProtocol.js:103-128 | for values that fit, the built frame has the given type and body |
| WebProtocol.BuildMessage | web_configurator/AxisProtocol.js:103-128 | the header, body and footer copied into the final Uint8Array form the frame of the type and body |
| WebProtocol.BuildAck | web_configurator/AxisProtocol.js:132-138 | the body is the acknowledged type (16 bits, little-endian) and the status (8 bits), each truncated |
| WebProtocol.BuildRequest | web_configurator/AxisProtocol.js:140-142 | every get request is a 6-byte frame with an empty body |
| WebProtocol.BuildU8 | web_configurator/AxisProtocol.js:144-147 | the one-byte setters (I2C address, enumerations, start path) send the value modulo 256, unchecked |
| WebProtocol.BuildSaveConfiguration | web_configurator/AxisProtocol.js:179-182 | the body is 1 when saving and 0 otherwise |
| WebProtocol.BuildSetLedColor | web_configurator/AxisProtocol.js:184-187 | the body is the three colours each modulo 256 |
| WebProtocol.BuildU32 | web_configurator/AxisProtocol.js:153-158 | the u32 setters send the value modulo 2^32, little-endian |
| WebProtocol.BuildAddLedStep | web_configurator/AxisProtocol.js:193-201 | the body is time_ms modulo 2^32 followed by the three colours modulo 256 |
| WebProtocol.BuildDouble | web_configurator/AxisProtocol.js:285-290 | the double setters send the eight packed bytes |
| WebProtocol.BuildSetVelocityAndSteps | web_configurator/AxisProtocol.js:325-332 | setInt32 stores velocity and steps modulo 2^32, then the mode modulo 256 |
| WebProtocol.ParseAck | web_configurator/AxisProtocol.js:341-347 | accepted iff the data is 9 bytes long, whatever its type and checksum; returns the u16 at offset 4 and the byte at offset 6 |
| WebProtocol.ParseU32 | web_configurator/AxisProtocol.js:349-354 | accepted iff 10 bytes long; returns the u32 at offset 4 |
| WebProtocol.ParseU8 | web_configurator/AxisProtocol.js:356-361 | accepted iff 7 bytes long; returns the byte at offset 4 |
| WebProtocol.ParseHomedState | web_configurator/AxisProtocol.js:417-422 | accepted iff 7 bytes long; true iff the byte at offset 4 is non-zero |
| WebProtocol.ParseMac | web_configurator/AxisProtocol.js:377-385 | accepted iff 12 bytes long; returns bytes 4 to 9 |
| WebProtocol.ParseLedColor | web_configurator/AxisProtocol.js:387-394 | accepted iff 9 bytes long; returns bytes 4, 5 and 6 |
| WebProtocol.ParseDouble | web_configurator/AxisProtocol.js:452-457 | accepted iff 14 bytes long; returns bytes 4 to 11 |
| WebProtocol.ParseU32OfFrame | web_configurator/AxisProtocol.js:349-354 | a u32 frame the builder wrote reads back as the value modulo 2^32 |
| WebProtocol.ParseLedColorOfFrame | web_configurator/AxisProtocol.js:387-394 | an LED colour frame reads back as the colour it was built from |
| WebProtocol.ParseAckOfFrame | web_configurator/AxisProtocol.js:341-347 | an ACK frame reads back as its truncated type and status |
| WebProtocol.ParseU8OfFrame | web_configurator/AxisProtocol.js:356-361 | a one-byte response frame built by buildMessage reads back as its byte (value mod 256) |
| WebProtocol.ParseHomedStateOfFrame | web_configurator/AxisProtocol.js:417-422 | a homed-state frame reads back as whether its byte (value mod 256) is non-zero |
| WebProtocol.ParseMacOfFrame | web_configurator/AxisProtocol.js:377-385 | a MAC address frame reads back as the six bytes it was built from |
| WebProtocol.ParseDoubleOfFrame | web_configurator/AxisProtocol.js:452-457 | a double response frame reads back as the eight bytes it was built from |
| WebProtocol.ParsersIgnoreTypeAndChecksum | web_configurator/AxisProtocol.js:349-354 | corrupting the header or the checksum of a u32 frame does not change what the parser returns |
| WebProtocol.ParseMessageHeader | web_configurator/AxisProtocol.js:475-481 | throws exactly for data shorter than 4 bytes, and otherwise agrees with the Python parse_message_header |
| WebProtocol.VerifyChecksum | web_configurator/AxisProtocol.js:483-488 | agrees with the Python verify_checksum on every input |
| WebStream.FrameLength | web_configurator/script.js:117-119 | the total size read from a header is at least 6 and below 6 + 65536 |
| WebStream.CutSpec | web_configurator/script.js:113-125 | the loop hands on whole frames only, leaves a remainder too short to hold its own frame, and loses or adds no byte: frames followed by the remainder are the buffer |
| WebStream.CutStalled | web_configurator/script.js:115-120 | a buffer shorter than 6 bytes, or than its header's total size, is left as it is |
| WebStream.CutWholeFrame | web_configurator/script.js:113-125 | a whole frame at the front of the buffer is handed on by itself, and the rest is cut independently |
| WebStream.CorruptedFrameDispatched | web_configurator/script.js:113-125 | a frame with any byte other than the body size corrupted is still cut at the same place and handed on (the checksum is not looked at) |
| WebStream.CutOfWholeFrames | web_configurator/script.js:113-125 | a stream of whole frames is cut back into exactly those frames with nothing left over |
| WebStream.BuiltFrameIsWhole | web_configurator/script.js:113-125 | every frame buildMessage writes is cut as one whole frame |
| WebStream.CutChunks | web_configurator/script.js:113-125 | feeding the bytes in two chunks hands on the same frames and leaves the same remainder as feeding them at once |
| WebStream.Receiver.constructor | web_configurator/script.js:2 | the receive buffer starts empty |
| WebStream.Receiver.ProcessData | web_configurator/script.js:113-125 | appends the data and hands whole frames to handleMessage in order; the frames got through, whether it threw and the bytes left are those of Process, and without a throw the remainder is stalled |
| WebStream.Receiver.HandleMessage | web_configurator/script.js:127-209 | throws exactly when Throws says; a frame that does not throw is recorded, one that throws is not, and the buffer is untouched |
| WebStream.Receiver.ReadLoop | web_configurator/script.js:95-111 | each delivered chunk goes to processData until the chunks run out or it throws, which ends reading; frames, the throw and the buffer are those of Feed |
| WebStream.RejectsIffLengthDiffers | web_configurator/AxisProtocol.js:341-471 | the parser the switch calls for a type rejects exactly the lengths other than the Python MESSAGE_LENGTHS entry, and types the switch does not display are not parsed |
| WebStream.ThrowsIffLengthDiffers | web_configurator/script.js:127-209 | a message of a known type throws iff its type is displayed and its length differs from MESSAGE_LENGTHS |
| WebStream.Process | web_configurator/script.js:113-125 | every frame that gets through is whole and does not throw, and when nothing threw the bytes kept are stalled |
| WebStream.ProcessWithoutThrow | web_configurator/script.js:113-125 | when no cut frame throws, processData gets through exactly the frames of the plain cut and keeps its remainder |
| WebStream.ThrowKeepsLaterFrames | web_configurator/script.js:113-125 | a frame that throws ends the loop after it is sliced off: nothing gets through, and a whole frame after it stays buffered although it is complete |
| WebStream.Feed | web_configurator/script.js:95-111 | every frame that gets through in the read loop is whole and does not throw |
| WebStream.FeedWithoutThrow | web_configurator/script.js:95-125 | from a stalled buffer and with no throwing frame, the read loop gets through the frames of the whole stream however it is chunked, and keeps the stream's stalled tail |
| WebStream.Int32 | web_configurator/script.js:234 | the result of the bitwise OR is a signed 32-bit integer whose two's complement word is the ORed word |
| WebStream.Int32Word | web_configurator/script.js:234 | a signed 32-bit integer converts to its word and back unchanged |
| WebStream.StringToIp | web_configurator/script.js:232-235 | the address is always a signed 32-bit integer (its partners StringToIpOctets, IpRoundTrip, MissingPartIsZero and PaddedPartIgnored state its value) |
| WebStream.IpOfParts | web_configurator/script.js:233-234 | the OR of the shifted parts is a signed 32-bit integer |
| WebStream.NumberWord | web_configurator/script.js:234 | ToInt32 gives four bytes, all zero for NaN and the infinities |
| WebStream.PaddedPartIgnored | web_configurator/script.js:232-235 | white space around the first part is skipped: " 10.0.0.1" is the address of "10.0.0.1" |
| WebStream.SameWords | web_configurator/script.js:233-234 | parts Number() reads alike give the same address |
| WebStream.IpToString | web_configurator/script.js:223-230 | the text is four dotted canonical numerals below 256 whose big-endian value is the address modulo 2^32 |
| WebStream.StringToIpOctets | web_configurator/script.js:232-235 | four numerals below 256 give the word with the first octet most significant, and ipToString prints them back |
| WebStream.IpRoundTrip | web_configurator/script.js:223-235 | a dotted quad read by stringToIp and printed by ipToString is unchanged, and its word is the octets least significant first |
| WebStream.MissingPartIsZero | web_configurator/script.js:232-235 | an address with only three parts reads as if the fourth were 0 (undefined ORs as 0) |
| JsNumbers.ToNumber | web_configurator/script.js:233 | Number() of a decimal numeral is its value, of a blank string 0, and of text whose first non-space character is no digit, sign, point or the I of Infinity NaN |
| JsNumbers.Magnitude | web_configurator/script.js:234 | the integer part of digits times a power of ten: exact for a non-negative exponent, rounded toward zero otherwise |
| JsNumbers.Truncate | web_configurator/script.js:234 | ToInt32 drops the fraction toward zero, keeping the sign, and gives 0 for NaN and the infinities |
| JsNumbers.ToNumberPadded | web_configurator/script.js:233 | white space and line terminators around a literal do not change its value |
| JsNumbers.HexPrefix | web_configurator/script.js:233 | a 0x prefix reads the rest as a hexadecimal integer |
| JsNumbers.UnderscoreIsNaN | web_configurator/script.js:233 | unlike int(), Number() takes no underscore between digits: the result is NaN |
| JsNumbers.DigitStart | web_configurator/script.js:233 | text that starts with a digit and has no radix prefix is read as a decimal literal, and is NaN when it is not one |
| JsNumbers.FractionTruncated | web_configurator/script.js:233-234 | a numeral with a fraction converts to the numeral once ToInt32 drops the fraction |
| JsNumbers.ExponentScales | web_configurator/script.js:233-234 | a numeral with an exponent k converts to the numeral times 10^k |
| JsNumbers.PointLiteral | web_configurator/script.js:233 | digits, a point and digits are read as all the digits with the point placed before the fraction |
| JsNumbers.ExponentLiteral | web_configurator/script.js:233 | digits, e and digits are read as the first digits times ten to the second |
| JsNumbers.DecimalValueAppend | web_configurator/script.js:233 | the value of two runs of digits read together is the first shifted past the second plus the second |
| SyncMessages.SerializeHeader | examples/Python/AxisMessages.py:117-122 | the 8-byte header is written iff sync word, type and body size fit their 4, 2 and 2 bytes (OverflowError otherwise) |
| SyncMessages.HeaderRoundTrip | examples/Python/AxisMessages.py:117-129 | Header.deserialize reads back the header serialize wrote, whatever follows it |
| SyncMessages.SerializeFooter | examples/Python/AxisMessages.py:135-143 | the footer is written iff the checksum fits two bytes, and reads back as the checksum |
| SyncMessages.BodyChecksum | examples/Python/AxisMessages.py:233 | the footer value sum(body) % 0xFFFF is always below 0xFFFF, so it never overflows its two bytes |
| SyncMessages.AsBytes | examples/Python/AxisMessages.py:331 | a list of byte values becomes those bytes |
| SyncMessages.ByteArray | examples/Python/AxisMessages.py:329-332 | bytearray(n) is n zero bytes (ValueError when negative); bytearray(list) is the list, ValueError unless every item is a byte; anything else is a TypeError |
| SyncMessages.PackInt32 | examples/Python/AxisMessages.py:771-772 | struct.pack('<i') succeeds exactly inside the int32 range and reads back signed as the value |
| SyncMessages.SerializeBody | examples/Python/AxisMessages.py:145-227 | every fixed-width body class writes exactly its declared body size |
| SyncMessages.Serialize | examples/Python/AxisMessages.py:229-240 | a message serializes iff its body does and its id fits two bytes |
| SyncMessages.SerializeLayout | examples/Python/AxisMessages.py:229-240 | a serialized message is the header with the sync word, id and declared body size, then the body, then the body's sum modulo 0xFFFF; the header bytes are not summed |
| SyncMessages.S8RejectsNegative | examples/Python/AxisMessages.py:159-166 | an S8Message with a negative value raises OverflowError, since to_bytes is unsigned |
| SyncMessages.DecodeVelocityAndSteps | examples/Python/AxisMessages.py:776-782 | int.from_bytes reads velocity and steps unsigned, so neither is ever negative |
| SyncMessages.Deserialize | examples/Python/AxisMessages.py:242-251 | deserializing fails only for the double classes (struct.unpack of a short slice) and VelocityAndSteps (re-packing the decoded fields), with struct.error; the header is read from the first 8 bytes |
| SyncMessages.DecodeBody | examples/Python/AxisMessages.py:145-227 | body decoding fails only for the double and VelocityAndSteps classes |
| SyncMessages.DeserializeFrame | examples/Python/AxisMessages.py:242-251 | a frame of header, body of the class's size and footer decodes to that header, the decoded body and the footer's checksum |
| SyncMessages.DeserializeAccepts | examples/Python/AxisMessages.py:242-251 | the integer and byte-string classes deserialize any input, whatever its length or checksum |
| SyncMessages.IntRoundTrip | examples/Python/AxisMessages.py:145-199 | an integer that fits the class's width serializes, and deserializes back to itself with the sync header and its checksum |
| SyncMessages.IntOutOfRange | examples/Python/AxisMessages.py:145-199 | an integer outside the class's unsigned range raises OverflowError |
| SyncMessages.ByteListRoundTrip | examples/Python/AxisMessages.py:325-362 | a byte string of the class's size round-trips through serialize and deserialize |
| SyncMessages.DoubleRoundTrip | examples/Python/AxisMessages.py:201-213 | eight double bytes round-trip through serialize and deserialize |
| SyncMessages.FrameRoundTrip | examples/Python/AxisMessages.py:229-251 | any value whose body decodes back to itself round-trips through the whole frame |
| SyncMessages.VelocityAndStepsBodyLayout | examples/Python/AxisMessages.py:769-774 | the body holds velocity and steps as signed int32 and then the mode byte |
| SyncMessages.VelocityAndStepsNegativeRaises | examples/Python/AxisMessages.py:776-806 | a frame sent with a negative velocity cannot be deserialized: it raises struct.error |
| SyncMessages.DecodeVelocityAndStepsSigned | examples/Python/AxisMessages.py:771-772 | the decoder that matches '<i' always yields int32 values |
| SyncMessages.VelocityAndStepsSignedRoundTrip | examples/Python/AxisMessages.py:769-782 | with the signed decoder, every VelocityAndSteps value that packs reads back unchanged |
| SyncMessages.GetRequestShape | examples/Python/AxisMessages.py:1207-1209 | a Get request always serializes, and for the byte-string classes it has no body although its header declares the class's body size |
| SyncMessages.GetReply | examples/Python/AxisMessages.py:1210-1215 | no reply raises TypeError, a reply of 4 bytes or fewer IndexError; a reply whose byte 4 is the id is decoded, any other gives None |
| SyncMessages.Answer | examples/Python/AxisMessages.py:1211-1215 | a value is returned iff the type byte matches and decoding succeeds, and a decoding error is passed on |
| SyncMessages.GetOfIntReply | examples/Python/AxisMessages.py:1207-1215 | the reply a device would send for an integer value is decoded by the Get wrapper to that value |
| SyncMessages.TypeByte | examples/Python/AxisMessages.py:117-122 | byte 4 of a serialized message is the low byte of its id |
| SyncMessages.Axis.constructor | examples/Python/Axis.py:12-15 | a connection starts with nothing sent and its replies queued |
| SyncMessages.Axis.SendMessage | examples/Python/Axis.py:23-27 | sending appends the frame and leaves the replies alone |
| SyncMessages.Axis.WaitMessage | examples/Python/Axis.py:29-33 | returns the next reply, or None once they run out |
| SyncMessages.Get | examples/Python/AxisMessages.py:1207-1215 | sends exactly the zero-valued request under the Get id, consumes one reply and returns what GetReply makes of it |
| SyncMessages.Set | examples/Python/AxisMessages.py:1217-1219 | sends the serialized value iff it serializes, otherwise raises its error and sends nothing; no reply is consumed |
| SyncBuilders.HeaderBytes | configurator/AxisMessages.js:121-133 | the header is 8 bytes |
| SyncBuilders.SyncFrame | configurator/AxisMessages.js:171-184 | a frame is ten bytes longer than its body |
| SyncBuilders.Fit | configurator/AxisMessages.js:359 | copying fields into a zeroed body of n bytes keeps each copied byte and zero elsewhere |
| SyncBuilders.ToUint8s | configurator/AxisMessages.js:427 | storing values into a Uint8Array keeps each one modulo 256 |
| SyncBuilders.BuildHeader | configurator/AxisMessages.js:121-133 | the DataView writes produce the sync word, type and body size, each truncated to its width, little-endian |
| SyncBuilders.BuildFooter | configurator/AxisMessages.js:150-158 | the footer is the checksum modulo 2^16, little-endian |
| SyncBuilders.BuildMessage | configurator/AxisMessages.js:171-184 | writing the header, the fields and a zero footer at the running offset into a zeroed buffer yields the header, the body padded to its size, and a zero checksum |
| SyncBuilders.BuildU8Message | configurator/AxisMessages.js:171-184 | the body is the value modulo 256 and the footer is zero (no checksum is computed) |
| SyncBuilders.BuildU32Message | configurator/AxisMessages.js:243-256 | the body is the value modulo 2^32, little-endian |
| SyncBuilders.BuildDoubleMessage | configurator/AxisMessages.js:315-328 | a double is written as float32 in the first four body bytes, the other four staying zero |
| SyncBuilders.BuildBytesMessage | configurator/AxisMessages.js:351-364 | buffer.set succeeds iff the value fits before the end of the buffer; the body is the bytes modulo 256 padded with zeros to the body size |
| SyncBuilders.BuildVelocityAndStepsMessage | configurator/AxisMessages.js:611-628 | the body is velocity and steps modulo 2^32 and the mode modulo 256 |
| SyncBuilders.ParseHeader | configurator/AxisMessages.js:136-148 | reading succeeds iff the buffer holds 8 bytes |
| SyncBuilders.HeaderOfReads | configurator/AxisMessages.js:136-148 | the three fields read back from a buffer rebuild its first 8 bytes |
| SyncBuilders.ParseFooter | configurator/AxisMessages.js:161-169 | reading succeeds iff the buffer holds 2 bytes, and the checksum is their little-endian value |
| SyncBuilders.ParseFields | configurator/AxisMessages.js:187-205 | reading a body of n bytes succeeds iff the buffer holds the frame's n + 10 bytes, and returns type, size, body and footer at their fixed offsets |
| SyncBuilders.ParseU8Message | configurator/AxisMessages.js:187-205 | succeeds iff the buffer has 11 bytes; the value is byte 8 |
| SyncBuilders.ParseS8Message | configurator/AxisMessages.js:223-241 | succeeds iff the buffer has 11 bytes; the value is byte 8 read as a signed byte |
| SyncBuilders.ParseU32Message | configurator/AxisMessages.js:259-277 | succeeds iff the buffer has 14 bytes; the value is the u32 at offset 8 |
| SyncBuilders.ParseS32Message | configurator/AxisMessages.js:295-313 | succeeds iff the buffer has 14 bytes; the value is the int32 at offset 8 |
| SyncBuilders.ParseDoubleMessage | configurator/AxisMessages.js:331-349 | succeeds iff the buffer has 18 bytes; the value is the float32 in bytes 8-11 and the footer is read at offset 16 |
| SyncBuilders.ParseBytesMessage | configurator/AxisMessages.js:435-453 | succeeds iff the buffer holds the whole frame; the value is the body bytes |
| SyncBuilders.ParseVelocityAndStepsMessage | configurator/AxisMessages.js:631-653 | succeeds iff the buffer has 19 bytes; the mode is byte 16 and the footer is read at offset 17 |
| SyncBuilders.HeaderOfFrame | configurator/AxisMessages.js:121-148 | a built frame's header reads back as the sync word, the type modulo 2^16 and the body size |
| SyncBuilders.FieldsOfFrame | configurator/AxisMessages.js:171-205 | a built frame reads back as its type, size and body, with checksum 0 |
| SyncBuilders.U8RoundTrip | configurator/AxisMessages.js:171-205 | a u8 frame reads back its value modulo 256 |
| SyncBuilders.S8RoundTrip | configurator/AxisMessages.js:207-241 | an int8 frame reads back its value |
| SyncBuilders.U32RoundTrip | configurator/AxisMessages.js:243-277 | a u32 frame reads back its value modulo 2^32 |
| SyncBuilders.S32RoundTrip | configurator/AxisMessages.js:279-313 | an int32 frame reads back its value |
| SyncBuilders.DoubleRoundTrip | configurator/AxisMessages.js:315-349 | a double frame reads back the four float32 bytes it was built with |
| SyncBuilders.BytesRoundTrip | configurator/AxisMessages.js:419-453 | a byte-string frame of the body's size reads back its bytes |
| SyncBuilders.VelocityAndStepsRoundTrip | configurator/AxisMessages.js:611-653 | a VelocityAndSteps frame is 19 bytes and reads back its int32 velocity and steps and the mode modulo 256 |
| SyncBuilders.HeaderBytesAreHostHeader | configurator/AxisMessages.js:121-133 | the browser's header is byte for byte the Python library's Header.serialize |
| SyncBuilders.SyncFrameIsHostLayout | configurator/AxisMessages.js:171-184 | a browser frame is the Python header and body with a zero footer in place of the Python checksum |
| SyncBuilders.U32DecodesOnHost | configurator/AxisMessages.js:243-256 | the Python library decodes a browser u32 frame to its value, with checksum 0 |
| SyncBuilders.HostFrameLayout | configurator/AxisMessages.js:121-133 | a Python frame is the browser header, the body and the body-sum footer |
| SyncBuilders.U32AgreesWithHost | configurator/AxisMessages.js:243-256 | browser and Python u32 frames differ only in the footer |
| SyncStream.Checksum16 | configurator/main.js:49-62 | the running sum masked at each step is the sum of the first length bytes modulo 2^16 |
| SyncStream.CalculateChecksum | configurator/main.js:49-62 | throws TypeError exactly for a non-Uint8Array buffer or a non-number length; otherwise the loop returns the 16-bit sum of the first length bytes |
| SyncStream.SyncIsLittleEndian | configurator/main.js:155-158 | the four bytes compared are the sync word 0xDEADBABE in little-endian order |
| SyncStream.MessageLength | configurator/main.js:169-170 | the total length is header, body size and footer: at least 10 |
| SyncStream.Next | configurator/main.js:152-174 | the loop stops exactly when it must wait for data; it drops a byte only when the buffer does not start with the sync word; it takes a frame only at the sync word, of the length its header gives |
| SyncStream.HuntRest | configurator/main.js:151-186 | what processReadBuffer leaves is a suffix of the buffer on which it would wait |
| SyncStream.TakenFrame | configurator/main.js:176-179 | a taken frame starts with the sync word and has its declared length, and it is handled iff its footer equals the 16-bit sum of all bytes before it |
| SyncStream.HuntHandled | configurator/main.js:178-179 | every handled frame is synced and has a matching checksum |
| SyncStream.HuntRejected | configurator/main.js:180-182 | every dropped frame is synced and has a wrong checksum |
| SyncStream.HuntChunks | configurator/main.js:125-148 | processing the bytes in two chunks handles and drops the same frames and leaves the same buffer as processing them at once |
| SyncStream.HuntSyncedFrame | configurator/main.js:151-186 | a synced frame at the front is consumed by itself, handled or dropped by its checksum |
| SyncStream.NoSyncSkips | configurator/main.js:154-162 | a buffer of at least 4 bytes not starting with the sync word loses its first byte |
| SyncStream.FrameCheck | configurator/main.js:169-182 | a complete frame at the sync word is taken, and accepted iff the footer parsed at its end equals calculateChecksum over the bytes before it |
| SyncStream.ExamineFront | configurator/main.js:152-177 | the checks on the front of the buffer decide the same step as the reference definition of one step |
| SyncStream.SyncReceiver.constructor | configurator/main.js:10 | the read buffer starts empty |
| SyncStream.SyncReceiver.Receive | configurator/main.js:131-142 | pushing the value and processing the buffer handles and drops exactly the frames the hunt over the old buffer and the value finds, and keeps its rest |
| SyncStream.SyncReceiver.ProcessReadBuffer | configurator/main.js:151-186 | the loop handles and drops exactly the frames the hunt finds, in order, and leaves its rest |
| SyncStream.SyncReceiver.HandleMessage | configurator/main.js:188-190 | a handled frame is recorded and nothing else changes |
| SyncStream.ReceiveTwice | configurator/main.js:125-148 | two reads in a row leave the receiver as one read of both chunks would |
| SyncStream.LoneFrame | configurator/main.js:151-186 | a single synced frame is handled or dropped whole, leaving nothing behind |
| SyncStream.FrameLayout | configurator/main.js:169-182 | header, body and footer form a synced frame, accepted iff the footer is the sum of header and body modulo 2^16 |
| SyncStream.HeaderSum | configurator/AxisMessages.js:121-133 | the bytes of a built header sum to at least 771, the sum of the sync word's bytes |
| SyncStream.BuiltFrameRejected | configurator/AxisMessages.js:181-183 | a frame of the browser's own builders (zero footer) with a body of up to 200 bytes is always dropped by this receiver |
| SyncStream.BodySumFrameRejected | examples/Python/AxisMessages.py:233 | a frame with the Python library's footer (body sum only) and a body of up to 200 bytes is always dropped, because the receiver also sums the header |
| SyncStream.HostFrameRejected | examples/Python/AxisMessages.py:229-240 | every frame the Python library serializes with a body of up to 200 bytes is dropped by this receiver |
| SyncStream.ReceiverChecksumAccepted | configurator/main.js:177-179 | a frame whose footer is the 16-bit sum of header and body is handled |
| SyncStream.SummedFrameAccepted | configurator/main.js:177-179 | any synced header and body followed by their 16-bit sum is handled, leaving nothing |
| SyncStream.FooterRejected | configurator/main.js:180-184 | a synced frame with any other footer is dropped whole |
| SyncStream.FooterAccepted | configurator/main.js:178-179 | a synced frame with the matching footer is handled whole |
| SyncStream.NoiseSkipped | configurator/main.js:154-162 | leading bytes that cannot start the sync word are discarded without affecting the frame after them |
| SyncStream.U32ToIp | configurator/main.js:115-122 | the text is four dotted canonical numerals holding the address's bytes, least significant first |
| SyncStream.U32ToIpByteOrder | configurator/main.js:115-122 | u32ToIp and the web page's stringToIp disagree on byte order: reading back the text reverses the word's bytes |
| LegacyMessages.Value | examples/Python/messages.py:5-40 | every MessageTypes value fits a u16 |
| LegacyMessages.FromValue | examples/Python/messages.py:5-40 | MessageTypes(v) finds only a member whose value is v |
| LegacyMessages.FromValueOfValue | examples/Python/messages.py:5-40 | every member is found again from its value |
| LegacyMessages.PackHeader | examples/Python/messages.py:50-51 | '<HH' packs iff the body size fits a u16 (struct.error otherwise), into 4 bytes |
| LegacyMessages.UnpackHeader | examples/Python/messages.py:53-56 | struct.error unless exactly 4 bytes; ValueError iff the type value is no member; otherwise the type and size read little-endian |
| LegacyMessages.HeaderRoundTrip | examples/Python/messages.py:50-56 | a packed header unpacks to itself |
| LegacyMessages.PackFooter | examples/Python/messages.py:62-63 | '<H' packs iff the checksum fits a u16, into 2 bytes |
| LegacyMessages.UnpackFooter | examples/Python/messages.py:65-68 | unpacks iff exactly 2 bytes, to their little-endian value |
| LegacyMessages.FooterRoundTrip | examples/Python/messages.py:62-68 | a packed footer unpacks to itself |
| LegacyMessages.LedState.Code | examples/Python/messages.py:149-155 | an LedStates value is below 6 |
| LegacyMessages.LedStateFromCode | examples/Python/messages.py:149-155 | LedStates(v) succeeds iff v is below 6, with that value |
| LegacyMessages.Fixed32 | examples/Python/messages.py:94 | '<32s' writes exactly 32 bytes: the encoded text padded with zero bytes, or cut to its first 32 bytes |
| LegacyMessages.StripNuls | examples/Python/messages.py:99 | rstrip('\x00') removes exactly the trailing NUL characters of the decoded text and keeps the prefix before them |
| LegacyMessages.PackColors | examples/Python/messages.py:125-126 | '<BBB' packs iff each colour is a byte, into those three bytes |
| LegacyMessages.PackBody | examples/Python/messages.py:73-171 | a packed body has the fixed length of its message class; only struct.error can be raised, since encoding a string of scalar values never fails |
| LegacyMessages.UnpackBody | examples/Python/messages.py:73-171 | struct.error unless the slice has the class's body length; 32 version bytes read back iff they are UTF-8, UnicodeDecodeError otherwise; an LED state byte of 6 or more is a ValueError |
| LegacyMessages.Pack | examples/Python/messages.py:78-164 | a message packs iff its header, body and footer do; its length is header, fixed body and footer |
| LegacyMessages.Unpack | examples/Python/messages.py:81-171 | an unpacked message came from data of exactly the class's length and carries the footer read from its last two bytes |
| LegacyMessages.PackUnpack | examples/Python/messages.py:73-171 | every message that packs unpacks to the same header and footer and the recovered body, or raises UnicodeDecodeError exactly when recovering the version text does |
| LegacyMessages.BodyRoundTrip | examples/Python/messages.py:73-171 | every body that packs unpacks to what Recovered says: unchanged, except a version text cut to the characters whose bytes fit in 32 and stripped of trailing NULs, or UnicodeDecodeError when the cut splits a character |
| LegacyMessages.VersionRoundTrip | examples/Python/messages.py:93-101 | a version whose UTF-8 bytes fit in 32 and that does not end in NUL survives packing and unpacking |
| LegacyMessages.VersionBodyRoundTrip | examples/Python/messages.py:93-101 | a version body unpacks to what Recovered says of it: the text without trailing NULs if its bytes fit, else the characters before the cut, or UnicodeDecodeError when the cut splits a character |
| LegacyMessages.VersionCutRaises | examples/Python/messages.py:99 | a version whose 32-byte cut falls inside a character makes unpack raise UnicodeDecodeError |
| LegacyMessages.AccentedVersionRaises | examples/Python/messages.py:99 | 'a' followed by sixteen U+00E9 (33 bytes) packs, and unpacking it raises UnicodeDecodeError |
| LegacyMessages.StripNulPadding | examples/Python/messages.py:99 | stripping NULs from a text followed by NUL padding gives the same as stripping the text alone |
| LegacyMessages.CreatedFrames | examples/Python/messages.py:173-197 | the LED state, LED colour and get-version helpers produce their type, body size, body and a zero checksum |
| LegacyMessages.CreatedZeroChecksum | examples/Python/messages.py:183-191 | the version and IP helpers also leave the checksum at zero |
| LegacyMessages.VersionSizeMismatch | examples/Python/messages.py:183-186 | for a version that is not 32 characters long, the header's body size (len(version), in characters) differs from the 32 bytes actually sent |
| LegacyMessages.SizedVersionMessage | examples/Python/messages.py:183-186 | with body size 32 the header agrees with the frame, and a version that fits round-trips |
| LegacyMessages.IpAddressMislabelled | examples/Python/messages.py:188-191 | create_set_ip_address_message labels the frame SetI2CAddress, not SetEthernetAddress |
| LegacyMessages.EthernetAddressMessage | examples/Python/messages.py:188-191 | the corrected IP message unpacks as SetEthernetAddress with its address |
| LegacyMessages.LedStateOutOfRange | examples/Python/messages.py:166-171 | an LED state byte of 6 or more makes SetLedStateMessage.unpack raise ValueError |
| LegacyMessages.LedColorRoundTrip | examples/Python/messages.py:133-147 | an LED colour message packs and unpacks to itself |
| Utf8.EncodeChar | examples/Python/messages.py:94 | str.encode('utf-8') writes one to four bytes per character, one exactly for ASCII, and a zero first byte only for NUL |
| Utf8.Encode | examples/Python/messages.py:94 | the encoding is at least as long as the text |
| Utf8.DecodeFirst | examples/Python/messages.py:99 | bytes.decode('utf-8') reads a character from as many bytes as its leading byte announces |
| Utf8.DecodeEncode | examples/Python/messages.py:94-99 | decoding what encode wrote gives the text back |
| Utf8.DecodeEncodeAppend | examples/Python/messages.py:94-99 | decoding a text's bytes followed by more bytes reads the text, then raises or reads on as those bytes do |
| Utf8.DecodeFirstEncodeChar | examples/Python/messages.py:94-99 | the bytes of a character decode back to it, whatever follows |
| Utf8.DecodeStep | examples/Python/messages.py:94-99 | decoding a character's bytes followed by more bytes puts the character in front of what the rest decodes to |
| Utf8.CutCharacterRaises | examples/Python/messages.py:99 | a text's bytes followed by the front part of a multi-byte character raise UnicodeDecodeError |
| Utf8.DecodeCut | examples/Python/messages.py:94-99 | the first n bytes of a longer encoding decode to the longest fitting prefix when the cut falls between characters, and raise otherwise |
| Utf8.FittingPrefix | examples/Python/messages.py:94-99 | the longest prefix whose bytes fit: a prefix, within the bound, and one more character would not fit |
| Utf8.EncodeAppend | examples/Python/messages.py:94 | the encoding of a concatenation is the concatenation of the encodings |
| Utf8.EncodeSplit | examples/Python/messages.py:94 | a text's encoding is that of a prefix followed by that of the rest |
| Utf8.EncodeCons | examples/Python/messages.py:94 | the encoding of a character in front of a text is its bytes in front of the text's |
| Utf8.EncodeNuls | examples/Python/messages.py:94-99 | NUL characters encode as zero bytes and zero bytes decode as NULs, which is how the '<32s' padding reads back |
| Utf8.EncodeCharNul | examples/Python/messages.py:94-99 | NUL is the one byte 0 and no other character's bytes contain a zero |
| Utf8.EncodeRepeat | examples/Python/messages.py:94 | k copies of a character take k times its bytes |
| Utf8.ThreeByteValue | examples/Python/messages.py:94-99 | a three-byte character's bytes put back together give its value, with a second byte the decoder accepts |
| Utf8.FourByteValue | examples/Python/messages.py:94-99 | the same for a four-byte character |
| Utf8.Scalar2 | examples/Python/messages.py:99 | a two-byte sequence decodes to a value in U+0080..U+07FF |
| Utf8.Scalar3 | examples/Python/messages.py:99 | a three-byte sequence decodes to a value in U+0800..U+FFFF |
| Utf8.Scalar4 | examples/Python/messages.py:99 | a four-byte sequence decodes to a value of at least U+10000 |
| MessagesHpp.ToEncoderCommandsEnum | firmware/include/Messages.hpp:36-45 | GetPosition, SetPosition and GetUpdateRate are returned exactly for their command strings; every other string is Unknown |
| MessagesHpp.ToJsonMessageTypes | firmware/include/Messages.hpp:57-67 | Motor, Encoder and Led are returned exactly for "Motor", "Encoder" and "Led"; every other string is Unknown |
| MessagesHpp.TryParseJson | firmware/include/Messages.hpp:69-78 | succeeds iff the key is present with a value of the requested kind, and then hands that value out; otherwise the output is left untouched |
| MessagesHpp.NumberingRule | firmware/include/Messages.hpp:80-120 | each enumerator is its initializer when it has one and its predecessor plus one otherwise |
| MessagesHpp.ValuesAgree | firmware/include/Messages.hpp:80-120 | every enumerator that the Python message module also declares has the same numeric value there |
| MessagesHpp.GroupsWithinBounds | firmware/include/Messages.hpp:80-120 | every device-info, LED and motor message type lies strictly between its group's lower and upper bound markers |
| MessagesHpp.NewVersionMessage | firmware/include/Messages.hpp:142-147 | a fresh VersionMessage carries a 32-byte version field of zeros (the header and footer, left indeterminate by the C++, are written as 0 and always assigned before sending) |
| MessagesHpp.VersionBytes | firmware/include/Messages.hpp:122-147 | the packed VersionMessage is 38 bytes |
| MessagesHpp.VersionBytesFields | firmware/include/Messages.hpp:122-147 | the packed VersionMessage reads back its type, body size, version text and checksum at offsets 0, 2, 4 and 36 |
| MessagesHpp.FrameSizes | firmware/include/Messages.hpp:122-187 | the packed frames are 6 (GetVersion), 38 (Version), 10 (SetIpAddress) and 9 (SetLedColor) bytes, and header plus footer is the same 6 bytes the Python module uses |
| MessagesH.Value | firmware/include/Messages.h:17-54 | every MessageTypes enumerator fits the uint16_t underlying type |
| MessagesH.FromValue | firmware/include/Messages.h:17-54 | a number names an enumerator only when that enumerator's value is the number |
| MessagesH.SettingsMember | firmware/include/Messages.h:17-54 | the device-settings enumerators are numbered up from 0x0500 |
| MessagesH.LedMember | firmware/include/Messages.h:17-54 | the LED-control enumerators are numbered up from 0x3000 |
| MessagesH.MotorMember | firmware/include/Messages.h:17-54 | the motor-control enumerators are numbered up from 0x5000 |
| MessagesH.FromValueOfValue | firmware/include/Messages.h:17-54 | every enumerator is found again from its value |
| MessagesH.ValueInjective | firmware/include/Messages.h:17-54 | no two enumerators share a value |
| MessagesH.FrameSizes | firmware/include/Messages.h:56-187 | the packed frames are 7 (u8), 10 (u32), 14 (double), 12 (MAC) and 9 (LED colour) bytes, and the IP and port frames have the u32 frame's size |
| MessagesH.Packed | firmware/include/Messages.h:56-115 | a packed frame is the 4-byte header, the body and the 2-byte footer |
| MessagesH.Unpacked | firmware/include/Messages.h:56-115 | reading a frame of a struct's size yields a body of that struct's body size and 16-bit size and checksum fields |
| MessagesH.PackedUnpacked | firmware/include/Messages.h:56-115 | reading a packed frame through its struct gives back the type, body size, body and checksum that were written |
| MessagesH.Write | firmware/include/Messages.h:119-143 | writing one LedColors member changes that byte of the union and leaves the other two unchanged |
| MessagesH.Aliasing | firmware/include/Messages.h:119-143 | a member read after a write sees the written byte exactly when it shares the written member's slot |
| MessagesH.NamesAgree | firmware/include/Messages.h:119-143 | r, red and raw[0] (likewise g/green/raw[1] and b/blue/raw[2]) name the same byte |
| MessagesH.LedState.Code | firmware/include/Messages.h:145-153 | the LedStates codes run from 0 to 6 |
| MessagesH.LedStateFromCode | firmware/include/Messages.h:145-153 | a code names an LED state iff it is 0..6, and then the state with that code |
| MessagesH.LedStateCodeRoundTrip | firmware/include/Messages.h:145-153 | every LED state is found again from its code |
| MessagesH.MotorState.Code | firmware/include/Messages.h:191-196 | the MotorStates codes run from 0 to 3 |
| MessagesH.MotorStateFromCode | firmware/include/Messages.h:191-196 | a code names a motor state iff it is 0..3, and then the state with that code |
| MessagesH.MotorStateCodeRoundTrip | firmware/include/Messages.h:191-196 | every motor state is found again from its code |
| DriverComms.Checksum | examples/Python/DriverComms.py:13 | the checksum is the body's byte sum masked to 8 bits |
| DriverComms.Frame | examples/Python/DriverComms.py:9-15 | a frame is 6 bytes longer than its body and reads back, little-endian, its type, its body size, its body and its checksum |
| DriverComms.SetU8 | examples/Python/DriverComms.py:9-15 | succeeds iff the id fits 2 bytes and the value 1 byte (OverflowError otherwise), giving a 7-byte frame around the value |
| DriverComms.GetU8 | examples/Python/DriverComms.py:17-18 | returns byte 4 of the message; IndexError when the message is shorter than 5 bytes |
| DriverComms.SetU32 | examples/Python/DriverComms.py:21-27 | succeeds iff the id fits 2 bytes and the value 4 bytes (OverflowError otherwise), giving a 10-byte frame around the little-endian value |
| DriverComms.GetU32 | examples/Python/DriverComms.py:29-30 | reads bytes 4..8 little-endian, so the result is below 2^32 |
| DriverComms.SetDouble | examples/Python/DriverComms.py:32-38 | succeeds iff the id fits 2 bytes (OverflowError otherwise), giving a 14-byte frame around the 8 packed bytes |
| DriverComms.GetDouble | examples/Python/DriverComms.py:40-41 | hands back bytes 4..12 to be unpacked; struct.error when fewer than 12 bytes are there |
| DriverComms.SetLedColor | examples/Python/DriverComms.py:43-49 | succeeds iff the id fits 2 bytes and each colour a byte (ValueError or OverflowError otherwise), giving 8 bytes: the id, a big-endian size 3, the colours and a one-byte checksum |
| DriverComms.GetMacAddressMessage | examples/Python/DriverComms.py:51-57 | succeeds iff the id fits 2 bytes, giving 11 bytes: the id, a big-endian size 3, six zero bytes and a one-byte zero checksum |
| DriverComms.U8RoundTrip | examples/Python/DriverComms.py:9-18 | GetU8 gives back the value SetU8 framed |
| DriverComms.U32RoundTrip | examples/Python/DriverComms.py:21-30 | GetU32 gives back the value SetU32 framed |
| DriverComms.DoubleRoundTrip | examples/Python/DriverComms.py:32-41 | GetDouble gives back the 8 bytes SetDouble framed |
| DriverComms.ChecksumIgnoresHeader | examples/Python/DriverComms.py:21-27 | the checksum covers the body only, so two frames that differ only in their id end in the same two bytes |
| DriverComms.LedColorSizeMisread | examples/Python/DriverComms.py:43-49 | the size field is written big-endian, so a little-endian reader sees 0x0300 rather than 3 and the frame's size does not match its length |
| DriverComms.SetLedColorFixed | examples/Python/DriverComms.py:43-49 | with a little-endian size and a 2-byte checksum the frame is 9 bytes long, size-consistent and carries the colours and their checksum |
| DriverComms.MacRequestSizeMismatch | examples/Python/DriverComms.py:51-57 | the request declares a big-endian 3-byte body but carries six bytes, so its size field is 0x0300 and does not match its length |
| DriverComms.GetMacAddressMessageFixed | examples/Python/DriverComms.py:51-57 | with the size written as 6 little-endian and a 2-byte checksum the request is 12 bytes long and size-consistent |
| Transport.Link.constructor | examples/Python/Axis.py:92-96 | a fresh connection has sent nothing and holds the replies the board will give; a `Data` reply stands for a `wait_message` that returns bytes, which for the gimbal scripts means one that accepts their `expected_bytes` keyword |
| Transport.Link.Exchange | examples/Python/Axis.py:111-124 | one send followed by one wait appends the frame to what was sent and consumes exactly one reply: data, a timeout, or an exception raised by the wait after the frame went out (with the shipped Axis.py, the TypeError of every `wait_message(expected_bytes=…)` call) |
| RetryTest.SendCommandWithAck | examples/Python/UDPPositionControlTest.py:122-160 | true iff one of the first retries replies is a success ACK; on success it stopped at the first such reply after sending the frame once per attempt, otherwise it sent the frame retries times |
| RetryTest.SendQueryCommand | examples/Python/UDPPositionControlTest.py:162-197 | returns a reply iff one of the first retries replies is long enough with a good checksum, and then the first such reply, after one send per attempt; otherwise None after retries sends |
| RetryTest.VerifyConnection | examples/Python/UDPPositionControlTest.py:98-120 | sends one GetVersion request and succeeds iff the single reply has at least 10 bytes |
| RetryTest.Ran | examples/Python/UDPPositionControlTest.py:507-511 | the number of tests run lies between the start index and the number of tests |
| RetryTest.Passes | examples/Python/UDPPositionControlTest.py:507-511 | no more tests pass than were run |
| RetryTest.PassesAll | examples/Python/UDPPositionControlTest.py:507-527 | every test passed iff the count of passes equals the count of tests |
| RetryTest.PositionControlTest.constructor | examples/Python/UDPPositionControlTest.py:62-74 | a new test starts with no tests run and none passed |
| RetryTest.PositionControlTest.RunTest | examples/Python/UDPPositionControlTest.py:199-224 | counts one more test and one more pass exactly when the test returned true; an exception counts as a failure |
| RetryTest.PositionControlTest.RunAllTests | examples/Python/UDPPositionControlTest.py:480-527 | succeeds iff the connection check passes, every test returns true and the counters were balanced before; a failed connection runs no test, otherwise the counters grow by the tests run and the passes among them |
| RetryTest.AnySuccessAckAccepted | examples/Python/UDPPositionControlTest.py:139-145 | any success ACK the board sends, whatever type it acknowledges, is accepted |
| RetryTest.CorruptAckAccepted | examples/Python/UDPPositionControlTest.py:139-145 | a frame that passes the ACK test can still fail the protocol's checksum check, because the test does not verify it |
| RetryTest.QueryIgnoresType | examples/Python/UDPPositionControlTest.py:180-182 | a query accepts any well-formed frame of the expected length, whatever its message type |
| MotorDiscovery.FromBeInjective | examples/Python/DualMotorGimbal.py:273 | reading the MAC bytes big-endian loses nothing: equal readings come from equal bytes |
| MotorDiscovery.PitchMacBytes | examples/Python/DualMotorGimbal.py:273-278 | a 6-byte MAC reads as 0xFCC23D6DB42A exactly when it is FC:C2:3D:6D:B4:2A |
| MotorDiscovery.MacRequest | examples/Python/DualMotorGimbal.py:233-235 | the MAC request is the 6-byte GetMacAddress frame with an empty body |
| MotorDiscovery.MacOf | examples/Python/DualMotorGimbal.py:236-246 | a MAC is obtained iff the reply is non-empty and parses as a MAC response, and then it is the 6-byte body of that frame |
| MotorDiscovery.MacOfResponse | examples/Python/DualMotorGimbal.py:236-240 | a well-formed MAC response yields the MAC it carries |
| MotorDiscovery.Last | examples/Python/DualMotorGimbal.py:278-280 | the port kept for a role is the last port reporting it; no later port reports it, and none is kept when no port does |
| MotorDiscovery.Others | examples/Python/DualMotorGimbal.py:281-283 | the discovered list holds, in scan order and exactly once, each responding port whose MAC is not the pitch MAC |
| MotorDiscovery.ScannedRoles | examples/Python/DualMotorGimbal.py:258-283 | the scan's pitch port is the last pitch reporter and its discovered list is the other responders in order |
| MotorDiscovery.ScannedCloses | examples/Python/DualMotorGimbal.py:284-300 | only probed ports that opened are closed, and every probed, opened port without a MAC reply is closed |
| MotorDiscovery.ReportingPortsStayOpen | examples/Python/DualMotorGimbal.py:284-300 | a port that reported a MAC is not closed when no later probed port fails to open |
| MotorDiscovery.PitchClosedByLaterFailure | examples/Python/DualMotorGimbal.py:265-300 | the pitch port found first is closed when a later port fails to open, because the cleanup closes whichever connection the variable still names, yet it stays the pitch motor |
| MotorDiscovery.RaisingWaitsFindNoMotor | examples/Python/DualMotorGimbal.py:230-300 | when every MAC wait raises, as each `wait_message(expected_bytes=…)` call does with the shipped Axis.py, the scan finds no pitch motor and no other, so discovery fails |
| MotorDiscovery.PitchPortExists | examples/Python/DualMotorGimbal.py:258-280 | a board with the Axis USB ids that answers with the pitch MAC is reported as pitch |
| MotorDiscovery.VelocityModeFrame | examples/Python/DualMotorGimbal.py:332 | the velocity-mode request is the 7-byte frame 07 03 01 00 02 0D 00 |
| MotorDiscovery.PositionModeFrame | examples/Python/GimbalGearingTest.py:59 | the position-mode request is the 7-byte frame 07 03 01 00 01 0C 00 |
| MotorDiscovery.MaxSpeedFrame | examples/Python/DualMotorGimbal.py:339 | SetMaxSpeed(2000) is the 10-byte frame 0B 03 04 00 D0 07 00 00 E9 00 |
| MotorDiscovery.AccelerationFrame | examples/Python/DualMotorGimbal.py:346 | SetAcceleration(1000) is the 10-byte frame 0D 03 04 00 E8 03 00 00 FF 00 |
| MotorDiscovery.ZeroPositionFrame | examples/Python/GimbalGearingTest.py:70 | SetCurrentPosition(0.0) frames eight zero bytes |
| MotorDiscovery.StopFrame | examples/Python/DualMotorGimbal.py:353 | SetVelocity(0.0) frames eight zero bytes |
| MotorDiscovery.DualMotorGimbalController.constructor | examples/Python/DualMotorGimbal.py:211-228 | a new controller has neither pitch nor yaw motor and has closed nothing |
| MotorDiscovery.DualMotorGimbalController.GetMotorMacAddress | examples/Python/DualMotorGimbal.py:230-246 | sends one MAC request, consumes one reply and returns the MAC that reply carries, or None |
| MotorDiscovery.DualMotorGimbalController.DiscoverMotors | examples/Python/DualMotorGimbal.py:248-324 | true iff some port reports the pitch MAC; then pitch is the last such port and yaw the first other responder if any (yaw kept otherwise); nothing is assigned on failure; the ports closed are exactly the scan's |
| MotorDiscovery.DualMotorGimbalController.SetupMotor | examples/Python/DualMotorGimbal.py:326-359 | succeeds iff the three configuration replies all arrive, and then sends the mode, speed and acceleration frames and a zero velocity; on the first missing reply it stops after that frame |
| MotorDiscovery.DualMotorGimbalController.SetVelocity | examples/Python/DualMotorGimbal.py:361-375 | sends one SetVelocity frame and reports whether any reply arrived |
| MotorDiscovery.SetupAcceptsNack | examples/Python/DualMotorGimbal.py:332-350 | a NACK reply satisfies the setup, because only the presence of a reply is checked |
| GimbalGearing.SilentPorts | examples/Python/GimbalGearingTest.py:46-47 | the closed ports are exactly the probed, opened ports whose MAC wait came back empty without raising, in scan order |
| GimbalGearing.FindMotors | examples/Python/GimbalGearingTest.py:15-52 | pitch is the last port reporting the pitch MAC, yaw the last other responder, and the silent ports are closed |
| GimbalGearing.UnparsedReplyLeftOpen | examples/Python/GimbalGearingTest.py:36-47 | a reply that does not parse as a MAC leaves the port open here, though the other discovery closes it |
| GimbalGearing.RaisingWaitsSkipEveryPort | examples/Python/GimbalGearingTest.py:25-52 | when every MAC wait raises, find_motors finds neither pitch nor yaw and closes no port |
| GimbalGearing.SetupMotor | examples/Python/GimbalGearingTest.py:55-77 | succeeds iff none of the four exchanges raises; it sends mode, speed, acceleration and zero-position frames and stops after the first that raises |
| Tasks.Elapsed | firmware/src/Task.cpp:6 | millis() minus the last run time in uint32_t arithmetic: the plain difference, or the difference plus 2^32 once the clock has wrapped |
| Tasks.ElapsedAcrossWrap | firmware/src/Task.cpp:6 | the unsigned difference measures any span shorter than 2^32 ms correctly, even across the counter's wrap |
| Tasks.NeverPeriodNeverDue | firmware/src/Task.cpp:6 | a period of 0xFFFFFFFF is never exceeded, so such a task never runs |
| Tasks.Task.constructor | firmware/include/Task.h:9-12 | a new task is stopped, has never run and has the given period; both times are uint32_t values |
| Tasks.Task.Start | firmware/src/Task.cpp:12-17 | the task is running afterwards and OnStart is counted only when it was stopped before |
| Tasks.Task.Stop | firmware/src/Task.cpp:19-24 | the task is stopped afterwards and OnStop is counted only when it was running before |
| Tasks.Task.Run | firmware/src/Task.cpp:3-10 | a running task whose period is 0 or exceeded runs once and records now as its last run; otherwise nothing changes; both times stay uint32_t values |
| Tasks.TaskManager.constructor | firmware/include/Task.h:28-30 | a new manager holds no tasks, so every task it holds keeps uint32_t times |
| Tasks.TaskManager.AddTask | firmware/include/Task.h:34-36 | appends the task to the list, keeping every listed task's times uint32_t values |
| Tasks.TaskManager.StartTasks | firmware/include/Task.h:38-42 | every listed task is running afterwards, each started at most once |
| Tasks.TaskManager.StopTasks | firmware/include/Task.h:51-55 | every listed task is stopped afterwards, each stopped at most once |
| Tasks.TaskManager.RunTasks | firmware/include/Task.h:45-49 | each running task runs once when due, and a period-0 task runs once per occurrence in the list; stopped tasks are untouched |
| FrameChecks.MessageTypeOf | firmware/src/DeviceManager/DeviceManager.cpp:22 | the header's message type is a little-endian 16-bit value |
| FrameChecks.BodySizeOf | firmware/src/DeviceManager/DeviceManager.cpp:22-24 | the header's body size is a little-endian 16-bit value |
| FrameChecks.LengthDiags | firmware/src/DeviceManager/DeviceManager.cpp:17-28 | a frame holding its header, body and footer draws no diagnostic; any shorter frame ends with the invalid-body-size diagnostic, which stops the handler |
| FrameChecks.ShortFrameRejected | firmware/src/DeviceManager/DeviceManager.cpp:17-28 | a frame under 6 bytes draws "Size too small" and then the invalid-body-size diagnostic, since the first check does not return |
| FrameChecks.HostFrameComplete | firmware/src/DeviceManager/DeviceManager.cpp:17-30 | a frame built by the host protocol module passes both length checks and shows its type and body size in the header |
| FrameChecks.TruncatedHostFrameRejected | firmware/src/DeviceManager/DeviceManager.cpp:24-28 | a truncated host frame is rejected with the invalid-body-size diagnostic |
| Controllers.VersionField | firmware/include/Messages.hpp:145 | the version text fills the 32-byte version field |
| Controllers.VersionReply | firmware/src/DeviceManager/DeviceManager.cpp:33-38 | the version reply is the 38-byte VersionMessage struct |
| Controllers.VersionReplyContents | firmware/src/DeviceManager/DeviceManager.cpp:33-38 | the reply carries the version type, body size 32, "AxisDriver V0.0" NUL-terminated and a zero checksum, which the host's checksum check rejects |
| Controllers.DeviceManager.constructor | firmware/src/DeviceManager/DeviceManager.h:12-14 | a new manager has the given period, no processor and an empty log |
| Controllers.DeviceManager.SetProcessorInterface | firmware/src/MessageProcessor/MessageProcessor.h:31-33 | records the processor and changes nothing else |
| Controllers.DeviceManager.SendMsg | firmware/src/DeviceManager/DeviceManager.cpp:45-48 | passes the bytes to the processor, which forwards them to every external interface |
| Controllers.DeviceManager.HandleIncomingMsg | firmware/src/DeviceManager/DeviceManager.cpp:15-43 | logs the length diagnostics, and a complete GetVersion frame makes it broadcast the 38-byte version reply; every other frame sends nothing |
| Controllers.EncoderController.constructor | firmware/src/EncoderController/EncoderController.h:27 | a new encoder controller has logged nothing and received no JSON |
| Controllers.EncoderController.HandleByteMsg | firmware/src/EncoderController/EncoderController.cpp:196-216 | only the two length checks run; binary messages draw their diagnostics and nothing else |
| Controllers.EncoderController.HandleIncomingMsg | firmware/src/EncoderController/EncoderController.cpp:127-136 | an empty message is ignored, one starting with '{' goes to the JSON handler and every other to the byte handler |
| LedControl.Show | firmware/src/LedController/LedController.cpp:140-141 | showing a colour appends it to what the LED has displayed and changes nothing else |
| LedControl.Enter | firmware/src/LedController/LedController.cpp:100-136 | entering the current state changes nothing; otherwise the old state is remembered, the flash, error and boot sequences restart at step 0, OFF and SOLID stop the task's runs and OFF shows black |
| LedControl.TicksSplit | firmware/src/LedController/LedController.cpp:13-98 | running m ticks and then n ticks is the same as running m + n ticks |
| LedControl.FlashErrorReturns | firmware/src/LedController/LedController.cpp:19-43 | a flash-error shows red, black, red, black on four ticks and returns to the previous state on the fifth |
| LedControl.BootupReturns | firmware/src/LedController/LedController.cpp:59-91 | the boot sequence shows blue, black, red, black, green, black and returns to the previous state on the seventh tick |
| LedControl.Blinks | firmware/src/LedController/LedController.cpp:44-58 | the error pattern alternates red and black |
| LedControl.ErrorBlinks | firmware/src/LedController/LedController.cpp:44-58 | the error state blinks red and black forever: after 2n ticks it is still at step 0 and has shown n red-black pairs |
| LedControl.StillStatesNeverRun | firmware/src/LedController/LedController.cpp:110-114 | after entering OFF or SOLID the task's period of 0xFFFFFFFF is never exceeded, so OnRun is no longer called |
| LedControl.LedController.constructor | firmware/src/LedController/LedController.cpp:186 | a new controller is OFF, has shown nothing and has the given period |
| LedControl.LedController.OnStart | firmware/src/LedController/LedController.cpp:3-7 | resets the previous state to OFF and nothing else |
| LedControl.LedController.SetLedState | firmware/src/LedController/LedController.cpp:100-136 | moves the controller's state as Enter describes |
| LedControl.LedController.OnRun | firmware/src/LedController/LedController.cpp:13-98 | advances the controller by one tick |
| LedControl.LedController.SetLedColor | firmware/src/LedController/LedController.cpp:138-142 | shows the given colour |
| LedControl.LedController.HandleIncomingMsg | firmware/src/LedController/LedController.cpp:144-179 | after the length checks, a SetLedColor frame with a 3-byte body shows those three bytes as red, green and blue; a SetLedColor frame of another size logs "SetLed body size incorrect"; every other frame changes nothing |
| LedControl.Wrap360 | firmware/src/LedController/LedController.h:22-30 | angles from 0 to 360 are unchanged, and anything else is moved by one turn at most |
| LedControl.Wrap360Range | firmware/src/LedController/LedController.h:22-30 | the result lies in 0..360 exactly when the input lies in -360..720, since only one turn is added or removed |
| MessageRouting.Interface.constructor | firmware/src/MessageProcessor/MessageProcessor.h:14-22 | a new interface is not yet attached to a processor |
| MessageRouting.Routed | firmware/src/MessageProcessor/MessageProcessor.h:83-94 | every delivery carries the received bytes and size unchanged, at most one per registered controller |
| MessageRouting.RoutedTargets | firmware/src/MessageProcessor/MessageProcessor.h:83-94 | a controller receives the message exactly when some registration of it has the type strictly between its limits |
| MessageRouting.RoutedAppend | firmware/src/MessageProcessor/MessageProcessor.h:87-93 | deliveries follow registration order: routing over two lists of registrations is routing over the first, then the second |
| MessageRouting.BoundsExcluded | firmware/src/MessageProcessor/MessageProcessor.h:89 | a message whose type equals a controller's lower or upper limit is not delivered to it |
| MessageRouting.Broadcast | firmware/src/MessageProcessor/MessageProcessor.h:96-101 | an outgoing message goes to every external interface, once each and in registration order |
| MessageRouting.RangeProcessor.constructor | firmware/src/MessageProcessor/MessageProcessor.h:50-53 | a new processor has the given period and no interfaces |
| MessageRouting.RangeProcessor.AddExternalInterface | firmware/src/MessageProcessor/MessageProcessor.h:55-59 | appends the interface and attaches it to this processor |
| MessageRouting.RangeProcessor.AddControllerInterface | firmware/src/MessageProcessor/MessageProcessor.h:61-69 | appends the controller with its two limits and attaches it to this processor |
| MessageRouting.RangeProcessor.HandleIncomingMsg | firmware/src/MessageProcessor/MessageProcessor.h:83-94 | delivers the message to exactly the routed controllers, in order, and changes nothing else |
| MessageRouting.RangeProcessor.SendMsg | firmware/src/MessageProcessor/MessageProcessor.h:96-101 | broadcasts the message to all external interfaces |
| MessageRouting.RouteOf | firmware/src/MessageProcessor/MessageProcessor.cpp:59-133 | an empty message is dropped, one starting with '{' goes to the (empty) JSON handler, and a binary message reaches the LED only for the SetLedColor and SetLedState types |
| MessageRouting.BraceTypeNeverDispatched | firmware/src/MessageProcessor/MessageProcessor.cpp:91-98 | a binary frame whose type's low byte is 0x7B is taken for JSON and never dispatched |
| MessageRouting.ByteProcessor.constructor | firmware/src/MessageProcessor/MessageProcessor.cpp:5-8 | a new processor has the given period and no interfaces |
| MessageRouting.ByteProcessor.AddExternalInterface | firmware/src/MessageProcessor/MessageProcessor.cpp:10-14 | appends the interface and attaches it to this processor |
| MessageRouting.ByteProcessor.AddControllerInterface | firmware/src/MessageProcessor/MessageProcessor.cpp:16-25 | appends the controller with its JSON type and limits and attaches it to this processor |
| MessageRouting.ByteProcessor.HandleByteMsg | firmware/src/MessageProcessor/MessageProcessor.cpp:59-89 | SetLedColor shows the three colour bytes, SetLedState enters the state in byte 4, any other type leaves the LED alone; the checksum is not checked |
| MessageRouting.ByteProcessor.HandleIncomingMsg | firmware/src/MessageProcessor/MessageProcessor.cpp:91-133 | records the route taken and applies it to the LED as HandleByteMsg does |
| MessageRouting.ByteProcessor.SendMsg | firmware/src/MessageProcessor/MessageProcessor.cpp:135-141 | broadcasts the message to all external interfaces |
| SerialText.HexCharToByte | firmware/src/SerialTextInterface/SerialTextInterace.cpp:4-14 | decimal digits and upper- and lower-case hex letters give their digit value; any other character gives 0 |
| SerialText.HexDigit | firmware/src/SerialTextInterface/SerialTextInterace.cpp:4-14 | every digit value has a hex character that spells it |
| SerialText.DigitValue | firmware/src/SerialTextInterface/SerialTextInterace.cpp:4-14 | a hex character is read back as the digit value it spells |
| SerialText.Decoded | firmware/src/SerialTextInterface/SerialTextInterace.cpp:16-30 | len characters decode to (len + 1) / 2 bytes, an odd length reading one character past len |
| SerialText.CharArrayToByteArray | firmware/src/SerialTextInterface/SerialTextInterace.cpp:16-30 | writes the decoded bytes to the front of the output, reports their count and leaves the rest of the output untouched |
| SerialText.DecodeSpelled | firmware/src/SerialTextInterface/SerialTextInterace.cpp:16-30 | characters that spell a byte sequence two hex digits per byte decode to that sequence |
| SerialText.HexEncode | firmware/src/SerialTextInterface/SerialTextInterace.cpp:16-30 | the hex text of n bytes is 2n characters long |
| SerialText.HexEncodeSpells | firmware/src/SerialTextInterface/SerialTextInterace.cpp:16-30 | the hex text, in either case, spells the bytes it encodes |
| SerialText.HexRoundTrip | firmware/src/SerialTextInterface/SerialTextInterace.cpp:16-30 | decoding the hex text of any bytes gives those bytes back |
| SerialText.StripAsWritten | firmware/src/SerialTextInterface/SerialTextInterace.cpp:79-84 | the line-ending strip reads out of bounds exactly when the message is a lone line feed, at index 0xFFFFFFFF after the size wraps to 0 |
| SerialText.LoneLineFeedOverruns | firmware/src/SerialTextInterface/SerialTextInterace.cpp:79-84 | a one-byte message "\n" makes the second test read recv_bytes[0xFFFFFFFF] |
| SerialText.StripLineEnding | firmware/src/SerialTextInterface/SerialTextInterace.cpp:79-84 | the corrected strip removes nothing or exactly one of LF, CR, CRLF from the end, and removes something iff the message ends in CR or LF |
| SerialText.StripAgrees | firmware/src/SerialTextInterface/SerialTextInterace.cpp:79-84 | wherever the code as written stays in bounds it agrees with the corrected strip |
| SerialText.Poll | firmware/src/SerialTextInterface/SerialTextInterace.cpp:45-51 | polling the port moves arrived bytes into its pending buffer without losing or reordering any |
| SerialText.Drain | firmware/src/SerialTextInterface/SerialTextInterace.cpp:45-53 | the corrected read loop gathers at most 256 bytes |
| SerialText.DrainStream | firmware/src/SerialTextInterface/SerialTextInterace.cpp:45-53 | the corrected read loop takes a prefix of the stream: what it read and what remains make up the stream |
| SerialText.DrainStep | firmware/src/SerialTextInterface/SerialTextInterace.cpp:49-53 | one loop step takes min(available, 256 - read) bytes and leaves less of the stream to read |
| SerialText.DrainTakesStream | firmware/src/SerialTextInterface/SerialTextInterace.cpp:45-53 | the corrected OnRun hands over, in arrival order, the first bytes the port delivers, at most 256 of them |
| SerialText.DrainAsWritten | firmware/src/SerialTextInterface/SerialTextInterace.cpp:45-53 | the loop as written keeps the 256-byte buffer and a byte count of at most 256 |
| SerialText.OverwrittenCount | firmware/src/SerialTextInterface/SerialTextInterace.cpp:49-53 | with "0102" waiting and "03" arriving during the read, the loop as written hands over only "01" because bytes_read is overwritten by each read's count, while the corrected loop hands over "010203" |
| SerialText.AgreeWithoutArrivals | firmware/src/SerialTextInterface/SerialTextInterace.cpp:45-53 | when nothing arrives during the read, the loop as written and the corrected loop hand over the same text |
| SerialText.SerialPort.constructor | firmware/src/SerialTextInterface/SerialTextInterace.cpp:45 | the serial port model starts with the given pending bytes and arrivals |
| SerialText.SerialPort.Available | firmware/src/SerialTextInterface/SerialTextInterace.cpp:45-51 | polls the port and reports how many bytes are pending |
| SerialText.SerialPort.ReadBytes | firmware/src/SerialTextInterface/SerialTextInterace.cpp:50 | copies the first n pending bytes into the buffer at the offset, leaves the rest of the buffer alone and consumes those bytes |
| SerialText.SerialTextInterface.constructor | firmware/src/SerialTextInterface/SerialTextInterface.h:15-20 | a new interface has two fresh 256-byte buffers, has delivered nothing and has logged nothing |
| SerialText.SerialTextInterface.HandleIncomingMsg | firmware/src/SerialTextInterface/SerialTextInterace.cpp:70-94 | with the corrected StripLineEnding (the as-written lone-LF overrun is StripAsWritten), strips the line ending, decodes the hex text into recv_buf and passes the bytes to the processor, or logs that the processor is missing |
| SerialText.SerialTextInterface.Gather | firmware/src/SerialTextInterface/SerialTextInterace.cpp:45-53 | leaves the port as the corrected loop does, with the text read at the front of char_buf and zeros after it |
| SerialText.SerialTextInterface.OnRun | firmware/src/SerialTextInterface/SerialTextInterace.cpp:43-58 | with the corrected accumulating read loop (the as-written overwrite of bytes_read is DrainAsWritten), passes the decoded bytes of any text read to the processor, or logs the missing processor; when none was read, nothing happens |
| SerialText.BufferHolds | firmware/src/SerialTextInterface/SerialTextInterace.cpp:57 | a buffer filled with the text read and zeros after it holds exactly that text at its front |
| SerialText.StripPadded | firmware/src/SerialTextInterface/SerialTextInterace.cpp:79-84 | the zeros after the text in char_buf do not change where the line ending is stripped |
| MotorControl.ErrorWord | firmware/src/MotorController/MotorController.h:24-31 | the error word holds only the two flag bits |
| MotorControl.ErrorWordBits | firmware/src/MotorController/MotorController.h:24-31 | the word is nonzero iff some error is flagged; bit 0 is lost power and bit 1 lost driver comms |
| MotorControl.Toggled | firmware/src/MotorController/MotorController.cpp:74-81 | the mode changes iff it is MOTOR_OFF or DETECTSTEPS, the button is pressed and more than 500 ms passed since the last toggle; the change swaps the two modes |
| MotorControl.MotorController.constructor | firmware/src/MotorController/MotorController.h:42-64 | a new controller is off, has flagged no error and has its outputs disabled |
| MotorControl.MotorController.OnStart | firmware/src/MotorController/MotorController.cpp:36-65 | enables the outputs, sets MOTOR_OFF and records the start time |
| MotorControl.MotorController.OnStop | firmware/src/MotorController/MotorController.cpp:67-70 | disables the outputs and nothing else |
| MotorControl.MotorController.CheckForErrors | firmware/src/MotorController/MotorController.cpp:16-34 | flags lost comms when the driver version reads 0 and lost power when VBUS is low; outputs are re-enabled when errors clear and disabled (with one report) when they appear; any error sends the LED into flash-error; the outputs keep following the error state |
| MotorControl.MotorController.CheckButton | firmware/src/MotorController/MotorController.cpp:74-81 | applies the button toggle and restarts the timer only when the mode changed |
| MotorControl.MotorController.Drive | firmware/src/MotorController/MotorController.cpp:88-143 | MOTOR_OFF sets speed 0, TEST2 drives at 200 and falls back to MOTOR_OFF after 2000 ms; POSITION, VELOCITY and TORQUE leave the speed alone; DETECTSTEPS and TEST are not modelled |
| MotorControl.MotorController.OnRun | firmware/src/MotorController/MotorController.cpp:72-143 | one pass: button toggle, then an error check when more than 1000 ms passed since the last one, then the mode's drive step; the outputs keep following the error state |
| MotorControl.NoToggleWithinDebounce | firmware/src/MotorController/MotorController.cpp:74-81 | a press within 500 ms of the last toggle does not change the mode |
| MotorControl.ToggleTwice | firmware/src/MotorController/MotorController.cpp:74-81 | two debounced presses return the controller to its mode |
| TmcDatagram.Wire | firmware/lib/easyTMC2209/easyTMC2209.cpp:783-786 | the bytes put on the wire are the datagram word's bytes, least significant first |
| TmcDatagram.BigEndianRoundTrip | firmware/lib/easyTMC2209/easyTMC2209.cpp:738-750 | a 32-bit value and its big-endian byte order determine each other |
| TmcDatagram.ReverseBytesInvolution | firmware/lib/easyTMC2209/easyTMC2209.cpp:738-750 | reversing the byte order twice gives the value back, and the reversed word's little-endian bytes are the value's big-endian bytes |
| TmcDatagram.ReverseData | firmware/lib/easyTMC2209/easyTMC2209.cpp:738-750 | the loop reverses the four bytes of the value |
| TmcDatagram.CalculateCrc | firmware/lib/easyTMC2209/easyTMC2209.cpp:752-775 | the loop computes the CRC-8 (polynomial 0x07, bits fed least significant first) of every datagram byte but the last |
| TmcDatagram.CrcByteOfReflected | firmware/lib/easyTMC2209/easyTMC2209.cpp:752-775 | feeding the bit-reflected CRC register back in as a byte clears the register |
| TmcDatagram.CrcResidue | firmware/lib/easyTMC2209/easyTMC2209.cpp:752-775 | a property of the CRC only (datagrams carry the CRC unreflected): a byte string followed by the reflection of its CRC has CRC 0 |
| TmcDatagram.WriteFrame | firmware/lib/easyTMC2209/defines.h:178-190 | a write datagram is 8 bytes |
| TmcDatagram.ReadFrame | firmware/lib/easyTMC2209/defines.h:193-205 | a read request is 4 bytes |
| TmcDatagram.WriteFieldsValues | firmware/lib/easyTMC2209/defines.h:178-190 | the write datagram's bit fields put sync 0x05, the node address, the register with the write bit set and the data in the right bytes, with the CRC byte left 0 |
| TmcDatagram.WriteFieldsBytes | firmware/lib/easyTMC2209/defines.h:178-190 | the first seven bytes of a write datagram are sync, address, register with the write bit, and the data big-endian |
| TmcDatagram.ReadRequestValues | firmware/lib/easyTMC2209/defines.h:193-205 | the read request's bit fields put sync, address and register with the read bit in bytes 0-2 and the CRC in byte 3, and nothing above 32 bits |
| TmcDatagram.WriteDatagram | firmware/lib/easyTMC2209/easyTMC2209.cpp:836-849 | the datagram write() sends is sync, node address, register with the write bit, the data most significant byte first, then the CRC of those seven bytes |
| TmcDatagram.ReadRequestWire | firmware/lib/easyTMC2209/easyTMC2209.cpp:851-861 | a read request carrying the CRC of its first three bytes is the 4-byte read frame |
| TmcDatagram.ReadRequestDatagram | firmware/lib/easyTMC2209/easyTMC2209.cpp:851-861 | the datagram read() sends is sync, node address, register with the read bit and the CRC of those three bytes, nothing above 32 bits |
| TmcDatagram.PackWire | firmware/lib/easyTMC2209/easyTMC2209.cpp:877-884 | assembling 8 received bytes least significant first into a word and reading them back are inverse |
| TmcDatagram.ReplyData | firmware/lib/easyTMC2209/easyTMC2209.cpp:877-886 | read() returns the reply's data bytes 3..6 read big-endian |
| TmcDriver.DriverCurrentLayout | firmware/lib/easyTMC2209/defines.h:269-281 | the IHOLD_IRUN word holds ihold in bits 0-4, irun in bits 8-12 and iholddelay in bits 16-19 |
| TmcDriver.ChopperConfigLayout | firmware/lib/easyTMC2209/defines.h:300-320 | the CHOPCONF word holds toff in bits 0-3 and the microstep resolution mres in bits 24-27 |
| TmcDriver.CoolConfigLayout | firmware/lib/easyTMC2209/defines.h:283-298 | the COOLCONF word holds semin in bits 0-3, semax in bits 8-11 and seimin in bit 15 |
| TmcDriver.Constrain | firmware/lib/easyTMC2209/easyTMC2209.cpp:93-95 | Arduino's constrain clamps a value into [lo, hi] and leaves values inside unchanged |
| TmcDriver.TruncDiv | firmware/lib/easyTMC2209/easyTMC2209.cpp:889-933 | integer division as in C, truncating toward zero |
| TmcDriver.ToUint8 | firmware/lib/easyTMC2209/easyTMC2209.cpp:889-933 | storing into a uint8_t keeps the low 8 bits, leaving values 0..255 unchanged |
| TmcDriver.PercentToCurrentSetting | firmware/lib/easyTMC2209/easyTMC2209.cpp:889-900 | percentages are clamped to 0..100 and mapped onto the current settings 10..31, 0 giving 10 and 100 or more giving 31, rounding down |
| TmcDriver.CurrentSettingToPercent | firmware/lib/easyTMC2209/easyTMC2209.cpp:902-910 | settings 10..31 map back to percentages 0..100 rounding down; a setting below 10 maps to a negative number that wraps above 100 |
| TmcDriver.PercentToHoldDelaySetting | firmware/lib/easyTMC2209/easyTMC2209.cpp:912-923 | percentages are clamped to 0..100 and mapped onto hold delays 0..15, rounding down |
| TmcDriver.HoldDelaySettingToPercent | firmware/lib/easyTMC2209/easyTMC2209.cpp:925-933 | hold delays 0..15 map back to percentages 0..100, rounding down |
| TmcDriver.CurrentRoundTrips | firmware/lib/easyTMC2209/easyTMC2209.cpp:889-910 | converting a percentage to a setting and back never gives more than the percentage, and a setting to a percentage and back never gives more than the setting |
| TmcDriver.BitLengthBounds | firmware/lib/easyTMC2209/easyTMC2209.cpp:97-102 | the shifting loop's count is the bit length of its input: 2^(len-1) <= k < 2^len |
| TmcDriver.MresCode | firmware/lib/easyTMC2209/easyTMC2209.cpp:106-158 | exponents 0..8 select mres 8 - exponent, and every larger exponent falls to the 256-microstep default |
| TmcDriver.MicrostepsOf | firmware/lib/easyTMC2209/easyTMC2209.cpp:392-446 | every mres code gives a power of two between 1 and 256 microsteps |
| TmcDriver.MresRoundTrip | firmware/lib/easyTMC2209/easyTMC2209.cpp:392-446 | reading the microsteps back after setting an exponent gives 2^exponent, or 256 for exponents above 8 |
| TmcDriver.ExponentBounds | firmware/lib/easyTMC2209/easyTMC2209.cpp:91-104 | the exponent computed from n selects the largest power of two not above n, and is at most 8 exactly for n up to 256 |
| TmcDriver.RunCurrentThreshold | firmware/lib/easyTMC2209/easyTMC2209.cpp:945-957 | the run current reaches the SEIMIN threshold 20 exactly for percentages of 48 and above |
| TmcDriver.Tmc2209.constructor | firmware/lib/easyTMC2209/easyTMC2209.cpp:3-13 | a new driver talks to serial address 0 with CoolStep off, has sent nothing and holds all-zero register images |
| TmcDriver.Tmc2209.SendDatagram | firmware/lib/easyTMC2209/easyTMC2209.cpp:778-789 | appends the datagram's first size bytes, least significant first, to the wire |
| TmcDriver.Tmc2209.Write | firmware/lib/easyTMC2209/easyTMC2209.cpp:836-849 | puts exactly one 8-byte write datagram for the register and data on the wire |
| TmcDriver.Tmc2209.Read | firmware/lib/easyTMC2209/easyTMC2209.cpp:851-887 | puts one 4-byte read request on the wire and returns the reply's data read big-endian, or 0 when no reply comes in time |
| TmcDriver.Tmc2209.MicrostepsPerStep | firmware/lib/easyTMC2209/easyTMC2209.cpp:392-446 | the microsteps per step are a power of two between 1 and 256 |
| TmcDriver.Tmc2209.WriteStoredChopperConfig | firmware/lib/easyTMC2209/easyTMC2209.cpp:963-966 | writes the stored CHOPCONF image to its register |
| TmcDriver.Tmc2209.SetMicrostepsPerStepPowerOfTwo | firmware/lib/easyTMC2209/easyTMC2209.cpp:106-158 | stores the mres code for the exponent, so the driver then reports 2^exponent microsteps (256 above 8), and writes CHOPCONF |
| TmcDriver.Tmc2209.SetMicrostepsPerStep | firmware/lib/easyTMC2209/easyTMC2209.cpp:91-104 | 0 gives 1 microstep, n in 1..256 gives the largest power of two not above n, and anything above 256 gives 256; only mres changes |
| TmcDriver.Tmc2209.WriteStoredDriverCurrent | firmware/lib/easyTMC2209/easyTMC2209.cpp:945-961 | writes IHOLD_IRUN, sets seimin iff irun is at least 20, and writes COOLCONF only while CoolStep is enabled |
| TmcDriver.Tmc2209.SetRunCurrent | firmware/lib/easyTMC2209/easyTMC2209.cpp:160-165 | sets irun from the percentage and writes the current registers; seimin is set exactly for 48 percent and above |
| TmcDriver.Tmc2209.SetHoldCurrent | firmware/lib/easyTMC2209/easyTMC2209.cpp:167-173 | sets ihold from the percentage and writes the current registers |
| TmcDriver.Tmc2209.SetHoldDelay | firmware/lib/easyTMC2209/easyTMC2209.cpp:175-181 | sets iholddelay from the percentage and writes the current registers |
| TmcDriver.Tmc2209.SetAllCurrentValues | firmware/lib/easyTMC2209/easyTMC2209.cpp:183-195 | sets irun, ihold and iholddelay together from their percentages and writes the current registers once |
| TmcDriver.Tmc2209.SetReplyDelay | firmware/lib/easyTMC2209/easyTMC2209.cpp:256-266 | writes the reply delay, capped at 15, to the REPLYDELAY register and stores nothing |
| TmcDriver.Tmc2209.EnableCoolStep | firmware/lib/easyTMC2209/easyTMC2209.cpp:305-314 | clamps semin to 1..15 and semax to 0..15, writes COOLCONF and enables CoolStep |
| TmcDriver.Tmc2209.DisableCoolStep | firmware/lib/easyTMC2209/easyTMC2209.cpp:316-321 | sets semin to 0, writes COOLCONF and disables CoolStep |
| FlashStorage.SpliceReadBack | firmware/lib/FlashStorage/FlashStorage.cpp:61-69 | after a page write the written bytes read back at their address and every other byte is unchanged |
| FlashStorage.Snprintf | firmware/lib/FlashStorage/FlashStorage.cpp:142-144 | snprintf keeps at most size - 1 characters, a prefix of the text, and the whole text when it fits |
| FlashStorage.Hex2 | firmware/lib/FlashStorage/FlashStorage.cpp:115-117 | "%02X" prints a byte as its high and low nibble in upper-case hex |
| FlashStorage.MacText | firmware/lib/FlashStorage/FlashStorage.cpp:115-117 | the MAC text is 17 characters long |
| FlashStorage.ParseMac | firmware/lib/FlashStorage/FlashStorage.cpp:115-117 | reading the MAC text back yields six bytes |
| FlashStorage.MacTextRoundTrip | firmware/lib/FlashStorage/FlashStorage.cpp:115-117 | the MAC text fits macStr untruncated and parses back to the six MAC bytes |
| FlashStorage.MacTextColons | firmware/lib/FlashStorage/FlashStorage.cpp:115-117 | the MAC text has a colon at exactly every third position |
| FlashStorage.HexPair | firmware/lib/FlashStorage/FlashStorage.cpp:115-117 | the two hex digits printed for a byte decode back to that byte |
| FlashStorage.SerialTextAsWritten | firmware/lib/FlashStorage/FlashStorage.cpp:142-144 | the 32 hex digits of the serial number are cut to the 31 characters that fit snStr |
| FlashStorage.SerialTextDropsDigit | firmware/lib/FlashStorage/FlashStorage.cpp:142-144 | the stored serial-number text loses its last digit, so serial numbers differing only in their last nibble give the same text |
| FlashStorage.SerialNumberText | firmware/lib/FlashStorage/FlashStorage.cpp:142-144 | the corrected serial-number text is the 32 hex digits of the 16 bytes |
| FlashStorage.SerialNumberTextRoundTrip | firmware/lib/FlashStorage/FlashStorage.cpp:142-144 | the corrected text is 32 characters long and decodes back to the serial number |
| FlashStorage.Storage.constructor | firmware/lib/FlashStorage/FlashStorage.cpp:7-17 | the module starts with nothing read, zeroed MAC and serial-number buffers, no write recorded and an empty bus log |
| FlashStorage.Storage.WaitWriteCycle | firmware/lib/FlashStorage/FlashStorage.cpp:19-25 | returns once at least 5 ms have passed since the last transfer, waiting no longer than needed |
| FlashStorage.Storage.WriteRegister | firmware/lib/FlashStorage/FlashStorage.cpp:27-35 | after the write cycle, writes one byte to the EEPROM at the address and records the transfer time |
| FlashStorage.Storage.ReadRegister | firmware/lib/FlashStorage/FlashStorage.cpp:37-47 | after the write cycle, returns the EEPROM byte at the address |
| FlashStorage.Storage.WritePage | firmware/lib/FlashStorage/FlashStorage.cpp:49-70 | a page longer than 16 bytes or at an address not a multiple of 16 is refused with its message and nothing written; otherwise the bytes are written at the address and nowhere else |
| FlashStorage.Storage.ReadBytes | firmware/lib/FlashStorage/FlashStorage.cpp:72-93 | a read running past byte 256 is refused with "Address too high"; otherwise the buffer's first data_len bytes become the EEPROM's bytes from the address and the rest are untouched |
| FlashStorage.Storage.GetMacAddress | firmware/lib/FlashStorage/FlashStorage.cpp:95-120 | returns the six MAC bytes from register 0x9A of the identity device, using the bus only on the first call |
| FlashStorage.Storage.GetSerialNumber | firmware/lib/FlashStorage/FlashStorage.cpp:122-148 | returns the 16 serial-number bytes from register 0x80 of the identity device, using the bus only on the first call; the cached text it fills is the corrected 32-digit text (see the finding on lines 142-144), not the one that drops a digit |
| FlashStorage.Storage.GetMacAddressString | firmware/lib/FlashStorage/FlashStorage.cpp:150-154 | returns the MAC as colon-separated hex text that parses back to the MAC |
| FlashStorage.Storage.GetSerialNumberString | firmware/lib/FlashStorage/FlashStorage.cpp:156-160 | returns the corrected 32-character serial-number text, which decodes back to the serial number |
| FlashStorage.Tick | firmware/lib/FlashStorage/FlashStorage.cpp:21-24 | while waiting, each millisecond tick adds one to the elapsed time |
| GenerateInterfaces.GetBytes | firmware/scripts/GenerateInterfaces.py:46-62 | the seven known C types map to their byte widths 1, 1, 2, 2, 4, 4 and 8; any other name gives 0 |
| GenerateInterfaces.GetLen | firmware/scripts/GenerateInterfaces.py:42-44 | returns 0 when the type has a '[' and raises IndexError otherwise |
| GenerateInterfaces.SplitCount | firmware/scripts/GenerateInterfaces.py:43 | splitting on '[' gives a second part exactly when the text contains '[' |
| GenerateInterfaces.ParamParts | firmware/scripts/GenerateInterfaces.py:70-78 | the parameter list has one entry per field |
| GenerateInterfaces.ParamsSplit | firmware/scripts/GenerateInterfaces.py:70-78 | the generated parameter list splits back on commas into the field names, the second on prefixed by ", " |
| GenerateInterfaces.ParamsJoin | firmware/scripts/GenerateInterfaces.py:70-78 | the generated parameter list is the field names joined by commas with a space before each after the first |
| GenerateInterfaces.Spaced | firmware/scripts/GenerateInterfaces.py:70-78 | a spaced parameter list has one entry per field |
| GenerateInterfaces.SpacedJoin | firmware/scripts/GenerateInterfaces.py:70-78 | joining the space-prefixed field names with commas is the parameter list with one leading space |
| GenerateInterfaces.ArrayFieldsRaw | firmware/scripts/GenerateInterfaces.py:103-105 | an array field is appended as raw bytes, has width 0 in GetBytes and a length of 0 from GetLen |
| GenerateInterfaces.ScalarFieldsSized | firmware/scripts/GenerateInterfaces.py:106-107 | a scalar field is converted with to_bytes at its one-digit width, and GetLen would raise IndexError on its type |
| GenerateInterfaces.ParamsSnoc | firmware/scripts/GenerateInterfaces.py:73-77 | the loop's first flag puts ", " before every name but the first |
| GenerateInterfaces.AppendParams | firmware/scripts/GenerateInterfaces.py:71-77 | the loop appends the comma-separated parameter list to the code |
| GenerateInterfaces.AppendPackLines | firmware/scripts/GenerateInterfaces.py:82-83 | the loop appends one to_bytes line per predefined field |
| GenerateInterfaces.AppendBodyLines | firmware/scripts/GenerateInterfaces.py:103-107 | the loop appends one body line per custom field, raw for arrays and sized for scalars |
| GenerateInterfaces.AppendPredefined | firmware/scripts/GenerateInterfaces.py:68-86 | appends one complete Create function for a predefined message |
| GenerateInterfaces.AppendMessageBody | firmware/scripts/GenerateInterfaces.py:91-113 | appends the signature and body lines of a custom message, or the call to its predefined Create function |
| GenerateInterfaces.AppendMessage | firmware/scripts/GenerateInterfaces.py:89-117 | appends one message builder that frames the body with CreateHeader and CreateFooter(sum(body) & 0xFF) |
| GenerateInterfaces.AppendPredefinedDefs | firmware/scripts/GenerateInterfaces.py:68-86 | appends the Create functions of all predefined messages in order |
| GenerateInterfaces.AppendMessageDefs | firmware/scripts/GenerateInterfaces.py:88-117 | appends the builders of all messages in order |
| GenerateInterfaces.GeneratePythonCode | firmware/scripts/GenerateInterfaces.py:64-122 | produces the import line, every predefined Create function, every message builder and the trailer, in that order |
| Text.StripMiddle | firmware/scripts/MakePythonMessages.py:22 | strip removes only characters of the set, from both ends, and leaves a result that neither starts nor ends with one |
| Text.TrimStartSuffix | firmware/scripts/MakePythonMessages.py:22 | the left trim drops a run of set characters from the front and nothing else |
| Text.TrimEndPrefix | firmware/scripts/MakePythonMessages.py:22 | the right trim drops a run of set characters from the end and nothing else |
| Text.StripKeeps | firmware/scripts/MakePythonMessages.py:22 | stripping text whose ends are outside the set changes nothing |
| Text.StripPadding | firmware/scripts/MakePythonMessages.py:22 | stripping padding of set characters around such text gives the text back |
| MakePythonMessages.CloseBrace | firmware/scripts/MakePythonMessages.py:9 | the first '}' of the text, or none when it has no '}' |
| MakePythonMessages.Search | firmware/scripts/MakePythonMessages.py:9-16 | a match's captured body never contains '}' |
| MakePythonMessages.SearchFindsBody | firmware/scripts/MakePythonMessages.py:9-16 | the pattern captures the body of "enum class MessageTypes : uint16_t {" up to the first '}' |
| MakePythonMessages.Lines | firmware/scripts/MakePythonMessages.py:22 | splitlines yields at least one line and no line holds a line break |
| MakePythonMessages.LinesFirst | firmware/scripts/MakePythonMessages.py:22 | a line followed by a break is the first line, then the lines of the rest |
| MakePythonMessages.MembersOf | firmware/scripts/MakePythonMessages.py:22 | blank lines are dropped, so there are no more members than lines |
| MakePythonMessages.StepOf | firmware/scripts/MakePythonMessages.py:29-33 | comment members are skipped, a member that does not split on '=' into exactly two parts raises ValueError, and every other member is written |
| MakePythonMessages.RenderedFrom | firmware/scripts/MakePythonMessages.py:29-33 | the output is built member by member: skipped members add nothing, the first bad member stops with ValueError, and each good member adds its line |
| MakePythonMessages.WriteMembers | firmware/scripts/MakePythonMessages.py:25-33 | writes the header comment, the class line and the members' lines, and reports the error that stopped it, if any |
| MakePythonMessages.MakePythonMessages | firmware/scripts/MakePythonMessages.py:9-33 | raises ValueError when the enum is not found; otherwise writes the Python class for the enum's members and reports a member error, if any |
| MakePythonMessages.RoundTrip | firmware/scripts/MakePythonMessages.py:9-33 | for an enum body of plain NAME = VALUE entries, the pattern finds it and the script writes one "    NAME = VALUE" line per entry, in order, with no error |
| MakePythonMessages.BodyRenders | firmware/scripts/MakePythonMessages.py:21-33 | the members of a generated enum body render to exactly its Python lines |
| MakePythonMessages.EntryMember | firmware/scripts/MakePythonMessages.py:22-33 | an enum line strips to its "NAME = VALUE" member, which is written as "    NAME = VALUE" |
| MakePythonMessages.EntrySplit | firmware/scripts/MakePythonMessages.py:32 | "NAME = VALUE" splits on '=' into the name and value with their spaces |

## Left out

- Serial ports, sockets, WebSerial, threads and timeouts are not modelled. A transport is an oracle sequence of replies (data, nothing, or a raised error), one consumed per wait. The firmware's serial port is a queue of byte chunks.
- Floating-point values (velocities, positions, `SetDouble`, the LED hue arithmetic) are carried as opaque 8-byte or `int` payloads. Their meaning as numbers is not modelled.
- The Tk joystick GUI, `apply_velocity`, `set_pitch_velocity`/`set_yaw_velocity` velocity clamping, `stop_all_motors`, `cleanup` and `main` in `DualMotorGimbal.py` are not modelled. They are presentation or teardown around the discovery and setup that are modelled.
- `test_motor`, `GimbalTo` and `main` in `GimbalGearingTest.py` are not modelled. They are motion sequences built from the modelled frames with floating-point angles.
- The individual `test_*` scenarios of `UDPPositionControlTest.py` are not modelled. `_run_test` and `run_all_tests` take each test's outcome as a parameter.
- `print` and logging output of every script and firmware module is left out. Where the firmware logs instead of acting, the model records only that nothing else happened.
- `millis()` is read once per call (a `now` parameter). Firmware code that reads it twice in one call is modelled with both reads equal.
- Message ids that the firmware headers use but do not define (such as the version message id) are parameters of the members that need them.
- The FastLED colour conversion and the hardware LED write are left out. `LedControl` records the colour and brightness shown.
- `TaskManager.RunTasks` runs every task at one instant `now`, not at successive clock readings.
- Receive buffer sizes beyond the 256-byte serial buffer are not modelled. Frames arrive as whole byte sequences.
- JSON messages are routed to a handler but not parsed. `HandleJsonMsg` and ArduinoJson are not part of this model.
- The `DETECTSTEPS` and `TEST` branches of `MotorController` and the stepper library it drives are not modelled. Only the error edge detector, the button toggle and their timing are modelled.
- `setRegistersToDefaults` and the TMC2209 setters not named here (stall guard, standstill mode, PWM tuning) are not modelled. They write register images through the modelled `Write`.
- The TMC2209's echo of written bytes and its UART timing are not modelled. `Read` takes the reply datagram as a parameter.
- The reply datagram's CRC is not checked by `Read`, as in the driver itself; a reply is accepted as given.
- The Arduino core's `map` is not part of this model's sources; the current conversions use it as integer linear interpolation with C truncating division.
- MakePythonMessages: `strip` and `splitlines` use Python's full sets of whitespace characters and line boundaries, with `\r\n` as one break; characters are Unicode code points, and no encoding or normalisation of the input file is modelled.
- FlashStorage: `yield()` while waiting for a write cycle is one millisecond of clock; the I2C bus is a log of transfers and the EEPROM's contents a 256-byte sequence.
- GenerateInterfaces and MakePythonMessages: loading the JSON interface description, `KeyError` on missing keys, and file reading and writing are left out. The interface is a value and the generated file is the returned text.
- The period each firmware task is built with is a constructor parameter. The concrete periods are not part of this model.
- FrameChecks.MessageTypeOf and FrameChecks.BodySizeOf: require at least 2 and 4 bytes, because `DeviceManager`, `LedController` and `EncoderController` read the header before any length check, which is undefined behaviour for shorter frames.
- GimbalGearing.SetupMotor: a raised exception in `setup_motor` is modelled as a `false` result that stops the sequence.
- Utf8: a Python string holding a lone surrogate cannot be modelled. Dafny characters are Unicode scalar values, and `str.encode('utf-8')` refuses such a string with UnicodeEncodeError.
- JsNumbers.ToNumber: a number is kept exactly as digits times a power of ten and is not rounded to an IEEE double. Beyond 2^53 or 17 significant digits the model and JavaScript differ: `Number("9007199254740993")` is 2^53 in JavaScript and 2^53 + 1 here.
- WebStream.StringToIp: inherits the exactness of `JsNumbers.ToNumber`, so a part above 2^53 is reduced modulo 2^32 from its exact value, not from the rounded double.
- AxisProtocol.PyInt: only the ASCII digits 0-9 are digits. Python's `int()` also accepts other Unicode decimal digits, such as Arabic-Indic ones, which the model rejects with ValueError. The same holds for `AxisProtocol.PyInts` and `AxisProtocol.SetEthernetAddressFromString`.
- WebStream.HandleMessage: what a reply changes on the page (form fields, status text, console output) is left out. The model records the frames handled in order and whether a parser threw.
- SyncMessages.SerializeBody: an `int` value in a double body gives TypeError in the model, while `struct.pack('<d', n)` accepts it and writes the double nearest n. Converting an integer to IEEE 754 bits is floating point, which is not modelled.
- FlashStorage.Storage.GetSerialNumber: caches the corrected 32-digit text, so the as-written 31-character text (FlashStorage.cpp:142-144) is not part of its contract; `FlashStorage.SerialTextAsWritten` and `FlashStorage.SerialTextDropsDigit` model it.
- FlashStorage.Storage.GetSerialNumberString: returns that corrected text, not the 31-character one FlashStorage.cpp:156-160 hands out; `FlashStorage.SerialTextAsWritten` is the as-written text.
- Transport.Link.Exchange: a `send_message` that raises (a `sendto` failing on the UDP socket) is not modelled. The frame is always recorded as sent, and `Raised` stands for an exception raised by the wait after the frame went out.
- SerialText.SerialTextInterface.HandleIncomingMsg: strips the line ending with the corrected `StripLineEnding`, so the as-written out-of-bounds read on a lone "\n" (SerialTextInterace.cpp:79-84) is not part of its contract; `SerialText.StripAsWritten` and `SerialText.LoneLineFeedOverruns` model it.
- SerialText.SerialTextInterface.OnRun: gathers with the corrected accumulating read loop, so the overwritten `bytes_read` (SerialTextInterace.cpp:45-53) is not part of its contract; `SerialText.DrainAsWritten` and `SerialText.OverwrittenCount` model it.
- The header declaring `AddrLedController` is not part of this model. `LedControl.LedController.constructor` follows the constructor's definition.

## Notes on the code

A general description of the protocol and the code disagree in places. The model follows the code:

- The sync-prefixed Python revision's footer is the sum of the body bytes only, modulo 0xFFFF (`SyncMessages.BodyChecksum`). It is not a sum over header and body. The configurator's JS builders write 0, and its receiver checks a sum over sync word, header and body modulo 65536. So each of these three files rejects the other two's frames (`SyncStream.BuiltFrameRejected`, `SyncStream.HostFrameRejected`).
- The retry test does not check an acknowledgement's checksum or the type it acknowledges (`RetryTest.CorruptAckAccepted`, `RetryTest.AnySuccessAckAccepted`). Its queries do not check the message type (`RetryTest.QueryIgnoresType`).
- Discovery does not always close a port that gave no MAC:
  - `GimbalGearingTest.py` leaves open a port whose reply does not parse (`GimbalGearing.UnparsedReplyLeftOpen`).
  - `DualMotorGimbal.py` can close the pitch port it already chose (`MotorDiscovery.PitchClosedByLaterFailure`).
- `DualMotorGimbal.py` accepts a NACK as a successful setup step (`MotorDiscovery.SetupAcceptsNack`).
- Both gimbal scripts import `AxisSerial` (DualMotorGimbal.py:23) and call `wait_message(expected_bytes=…, timeout=…)`: DualMotorGimbal.py:236, 334, 341, 348, 369, 443 and 449, and GimbalGearingTest.py:34, 60, 64, 67, 71, 86, 94 and 101. No `wait_message` in `Axis.py` takes that keyword: not the base class (Axis.py:29), not `AxisSerial` (Axis.py:78), not `AxisUDP` (Axis.py:114). So with this `Axis.py` every such call raises TypeError before a reply is read, and `Raised` is the only reply these scripts can get.
  - `DualMotorGimbal.py`'s MAC lookup catches the error and returns None, so discovery always fails (`MotorDiscovery.RaisingWaitsFindNoMotor`).
  - `GimbalGearingTest.py`'s `find_motors` skips every port (`GimbalGearing.RaisingWaitsSkipEveryPort`), and its `setup_motor` raises on its first wait (`GimbalGearing.SetupMotor`).
  - The `Data` replies of the discovery and setup models stand for a `wait_message` that accepts `expected_bytes`. `GimbalGearing.UnparsedReplyLeftOpen`, `MotorDiscovery.PitchClosedByLaterFailure` and `MotorDiscovery.SetupAcceptsNack` describe the scripts run against such a `wait_message`. With the shipped one they cannot occur.
- The configurator's `u32ToIp` prints the least significant byte first (`SyncStream.U32ToIpByteOrder`).
- The firmware sends a version reply with a zero checksum, which a host using the current revision rejects (`Controllers.VersionReplyContents`).

## Findings

| source | as written | input that shows it | evidently intended | confidence | as-written member | corrected member |
|---|---|---|---|---|---|---|
| examples/Python/messages.py:183-186 | `create_version_message` declares the version text's length as the body size but packs a 32-byte body | version "1.0": header says 3, body is 32 bytes | body size 32 | not executed | LegacyMessages.VersionSizeMismatch | LegacyMessages.SizedVersionMessage |
| examples/Python/messages.py:188-191 | `create_set_ip_address_message` uses the SetI2CAddress message type | any address, e.g. 0 | the SetEthernetAddress type | not executed | LegacyMessages.IpAddressMislabelled | LegacyMessages.EthernetAddressMessage |
| examples/Python/AxisMessages.py:771-806 | VelocityAndSteps packs velocity signed but unpacks it unsigned, so re-packing raises | velocity -1 | decode with the signed format | not executed | SyncMessages.VelocityAndStepsNegativeRaises | SyncMessages.DecodeVelocityAndStepsSigned |
| examples/Python/DriverComms.py:43-49 | SetLedColor writes the size big-endian and a one-byte checksum | any colour: size reads 0x0300 | little-endian size 3 and a two-byte checksum | not executed | DriverComms.LedColorSizeMisread | DriverComms.SetLedColorFixed |
| examples/Python/DriverComms.py:51-57 | GetMacAddressMessage declares a 3-byte body, big-endian, while carrying six bytes | any message id | little-endian size 6 | not executed | DriverComms.MacRequestSizeMismatch | DriverComms.GetMacAddressMessageFixed |
| firmware/src/SerialTextInterface/SerialTextInterace.cpp:79-84 | the CR check reads `recv_bytes[recv_bytes_size - 1]` after the LF check may have made the size 0 | the one-byte message "\n" reads index 0xFFFFFFFF | check the size before the second read | not executed | SerialText.LoneLineFeedOverruns | SerialText.StripLineEnding |
| firmware/src/SerialTextInterface/SerialTextInterace.cpp:45-53 | each read's count overwrites `bytes_read` instead of adding to it | "0102" waiting and "03" arriving during the read: only "01" is handed over | accumulate the count | not executed | SerialText.OverwrittenCount | SerialText.DrainTakesStream |
| firmware/lib/FlashStorage/FlashStorage.cpp:142-144 | 32 hex digits are printed into a 32-byte buffer, so the NUL takes the last digit | serial numbers 00..00 and 00..01 give the same text | a 33-byte buffer | not executed | FlashStorage.SerialTextDropsDigit | FlashStorage.SerialNumberTextRoundTrip |
