/** The serial text interface (SerialTextInterace.cpp): the host types a
    frame as hexadecimal text, the interface collects up to 256 characters
    per OnRun, strips a trailing line ending, decodes the digit pairs and
    hands the bytes to the processor. The serial port is a queue of pending
    bytes plus the chunks that arrive between two calls of available(). */
module SerialText {
  import opened Bytes
  import opened FrameChecks

  const LF: byte := 0x0A
  const CR: byte := 0x0D
  const BUFFER_SIZE: nat := 256   // char_buf and recv_buf

  // --- hexCharToByte and charArrayToByteArray -------------------------------------------

  /** hexCharToByte: the value of a hexadecimal digit of either case; every
      other character reads as 0. */
  function HexCharToByte(c: byte): (r: byte)
    ensures r < 16
    ensures '0' as int <= c <= '9' as int ==> r == c - '0' as int
    ensures 'A' as int <= c <= 'F' as int ==> r == c - 'A' as int + 10
    ensures 'a' as int <= c <= 'f' as int ==> r == c - 'a' as int + 10
    ensures !IsHexChar(c) ==> r == 0
  {
    if '0' as int <= c <= '9' as int then c - '0' as int
    else if 'A' as int <= c <= 'F' as int then c - 'A' as int + 10
    else if 'a' as int <= c <= 'f' as int then c - 'a' as int + 10
    else 0
  }

  predicate IsHexChar(c: byte)
  {
    '0' as int <= c <= '9' as int || 'A' as int <= c <= 'F' as int || 'a' as int <= c <= 'f' as int
  }

  /** The digit for v < 16, upper or lower case. */
  function HexDigit(v: nat, upper: bool): (c: byte)
    requires v < 16
    ensures IsHexChar(c)
  {
    if v < 10 then '0' as int + v
    else if upper then 'A' as int + v - 10
    else 'a' as int + v - 10
  }

  /** c is a digit of either case for the value v. */
  predicate DigitOf(c: byte, v: nat)
    requires v < 16
  {
    c == HexDigit(v, true) || c == HexDigit(v, false)
  }

  lemma DigitValue(c: byte, v: nat)
    requires v < 16 && DigitOf(c, v)
    ensures HexCharToByte(c) == v
  {
  }

  /** The byte two characters spell: (high << 4) | low, the nibbles being
      disjoint bits. */
  function Pair(high: byte, low: byte): (r: byte)
  {
    HexCharToByte(high) * 16 + HexCharToByte(low)
  }

  /** The bytes charArrayToByteArray writes for len characters: one per pair,
      (len + 1) / 2 of them, so an odd len also reads the character at len. */
  function Decoded(chars: seq<byte>, len: nat): (r: seq<byte>)
    requires len + len % 2 <= |chars|
    ensures |r| == (len + 1) / 2
  {
    seq((len + 1) / 2, k requires 0 <= k < (len + 1) / 2 => Pair(chars[2 * k], chars[2 * k + 1]))
  }

  /** charArrayToByteArray. The characters are read from chars, the storage
      the pointer designates, which must also hold the character at len when
      len is odd. */
  method CharArrayToByteArray(chars: seq<byte>, out: array<byte>, len: nat) returns (outLen: nat)
    requires len < U16 && len + len % 2 <= |chars| && (len + 1) / 2 <= out.Length
    modifies out
    ensures outLen == (len + 1) / 2
    ensures out[..outLen] == Decoded(chars, len)
    ensures out[outLen..] == old(out[outLen..])
  {
    outLen := 0;
    var i := 0;
    while i < len
      invariant i % 2 == 0 && i <= len + len % 2
      invariant outLen == i / 2
      invariant forall k :: 0 <= k < outLen ==> out[k] == Pair(chars[2 * k], chars[2 * k + 1])
      invariant out[outLen..] == old(out[outLen..])
    {
      var highNibble := chars[i];
      var lowNibble := chars[i + 1];
      var highByte := HexCharToByte(highNibble);
      var lowByte := HexCharToByte(lowNibble);
      out[i / 2] := highByte * 16 + lowByte;
      outLen := outLen + 1;
      i := i + 2;
    }
  }

  /** chars spells bs: two digits per byte, high nibble first, each digit of
      either case. */
  predicate Spells(chars: seq<byte>, bs: seq<byte>)
  {
    |chars| == 2 * |bs|
    && forall k :: 0 <= k < |bs| ==> DigitOf(chars[2 * k], bs[k] / 16) && DigitOf(chars[2 * k + 1], bs[k] % 16)
  }

  /** An even-length run of hexadecimal digits decodes to exactly the bytes it
      spells, whatever the case of each digit. */
  lemma DecodeSpelled(chars: seq<byte>, len: nat, bs: seq<byte>)
    requires len % 2 == 0 && len <= |chars| && Spells(chars[..len], bs)
    ensures Decoded(chars, len) == bs
  {
    forall k | 0 <= k < |bs|
      ensures Decoded(chars, len)[k] == bs[k]
    {
      assert chars[..len][2 * k] == chars[2 * k];
      assert chars[..len][2 * k + 1] == chars[2 * k + 1];
      DigitValue(chars[2 * k], bs[k] / 16);
      DigitValue(chars[2 * k + 1], bs[k] % 16);
    }
  }

  /** bs written as hexadecimal text in one case. */
  function HexEncode(bs: seq<byte>, upper: bool): (r: seq<byte>)
    ensures |r| == 2 * |bs|
  {
    if |bs| == 0 then []
    else HexEncode(bs[..|bs| - 1], upper) + [HexDigit(bs[|bs| - 1] / 16, upper), HexDigit(bs[|bs| - 1] % 16, upper)]
  }

  lemma {:induction false} HexEncodeSpells(bs: seq<byte>, upper: bool)
    ensures Spells(HexEncode(bs, upper), bs)
  {
    if |bs| > 0 {
      var init := bs[..|bs| - 1];
      HexEncodeSpells(init, upper);
      var r := HexEncode(bs, upper);
      var r0 := HexEncode(init, upper);
      forall k | 0 <= k < |bs|
        ensures DigitOf(r[2 * k], bs[k] / 16) && DigitOf(r[2 * k + 1], bs[k] % 16)
      {
        if k < |init| {
          assert r[2 * k] == r0[2 * k] && r[2 * k + 1] == r0[2 * k + 1];
          assert bs[k] == init[k];
        }
      }
    }
  }

  /** Text written by HexEncode, in either case, decodes to the bytes it was
      written from. */
  lemma HexRoundTrip(bs: seq<byte>, upper: bool)
    ensures Decoded(HexEncode(bs, upper), 2 * |bs|) == bs
  {
    var t := HexEncode(bs, upper);
    HexEncodeSpells(bs, upper);
    assert t[..2 * |bs|] == t;
    DecodeSpelled(t, 2 * |bs|, bs);
  }

  // --- Stripping the line ending ----------------------------------------------------------

  /** What the two line-ending checks of HandleIncomingMsg do as written. */
  datatype Strip = Stripped(size: nat) | OutOfBounds(index: nat)

  /** The checks as written: recv_bytes[recv_bytes_size - 1] is read again
      after the first decrement, in uint32_t arithmetic, so a lone LF makes
      the second read at index 0xFFFFFFFF. */
  function StripAsWritten(buf: seq<byte>, size: nat): (r: Strip)
    requires 0 < size <= |buf| < U32
    ensures r.OutOfBounds? <==> size == 1 && buf[0] == LF
    ensures r.OutOfBounds? ==> r.index == U32 - 1
  {
    var s1 := if buf[size - 1] == LF then size - 1 else size;
    var i := (s1 - 1) % U32;
    if i >= |buf| then OutOfBounds(i)
    else Stripped(if buf[i] == CR then s1 - 1 else s1)
  }

  /** A host that sends only a line feed makes the firmware read
      recv_bytes[0xFFFFFFFF], outside its 256-byte buffer (undefined behaviour). */
  lemma LoneLineFeedOverruns()
    ensures StripAsWritten([LF] + Zeros(255), 1) == OutOfBounds(0xFFFF_FFFF)
  {
  }

  /** The stripping evidently intended: drop one trailing LF, then one
      trailing CR, never reading before the start. */
  function StripLineEnding(buf: seq<byte>, size: nat): (r: nat)
    requires size <= |buf|
    ensures r <= size
    ensures var ending := buf[r..size];
            ending == [] || ending == [LF] || ending == [CR] || ending == [CR, LF]
    ensures r == size ==> size == 0 || (buf[size - 1] != LF && buf[size - 1] != CR)
    ensures r < size ==> buf[size - 1] == LF || buf[size - 1] == CR
  {
    var s1 := if size > 0 && buf[size - 1] == LF then size - 1 else size;
    if s1 > 0 && buf[s1 - 1] == CR then s1 - 1 else s1
  }

  /** Wherever the checks as written stay in bounds they agree with the
      corrected ones. */
  lemma StripAgrees(buf: seq<byte>, size: nat)
    requires 0 < size <= |buf| < U32
    ensures StripAsWritten(buf, size).Stripped? ==> StripAsWritten(buf, size).size == StripLineEnding(buf, size)
  {
  }

  // --- The serial port and OnRun --------------------------------------------------------

  /** The port: bytes waiting to be read, and the chunks that arrive before
      each later call of available(). */
  datatype Port = Port(pending: seq<byte>, arrivals: seq<seq<byte>>)

  function Flatten(chunks: seq<seq<byte>>): seq<byte>
  {
    if |chunks| == 0 then [] else chunks[0] + Flatten(chunks[1..])
  }

  /** Everything the port has delivered or will deliver, in order. */
  function Stream(p: Port): seq<byte>
  {
    p.pending + Flatten(p.arrivals)
  }

  /** available(): the next chunk arrives, and the count of waiting bytes is
      what Serial.available() reports. */
  function Poll(p: Port): (r: Port)
    ensures Stream(r) == Stream(p)
  {
    if |p.arrivals| == 0 then p
    else
      assert Flatten(p.arrivals) == p.arrivals[0] + Flatten(p.arrivals[1..]);
      Port(p.pending + p.arrivals[0], p.arrivals[1..])
  }

  function Min(a: int, b: int): int { if a < b then a else b }

  /** The reads of OnRun with bytes_read accumulated, from a freshly polled
      port: take min(available, 256 - bytes read) bytes, poll again, until
      nothing more is taken. Returns the text read and the port after. */
  function Drain(p: Port, read: seq<byte>): (r: (seq<byte>, Port))
    requires |read| <= BUFFER_SIZE
    ensures |r.0| <= BUFFER_SIZE
    decreases |Stream(p)|
  {
    var a := Min(|p.pending|, BUFFER_SIZE - |read|);
    if a == 0 then (read, p)
    else
      assert Stream(p) == p.pending[..a] + Stream(Port(p.pending[a..], p.arrivals));
      Drain(Poll(Port(p.pending[a..], p.arrivals)), read + p.pending[..a])
  }

  /** The text Drain returns extends what was already read with exactly the
      bytes it took from the port, in order. */
  lemma {:induction false} DrainStream(p: Port, read: seq<byte>)
    requires |read| <= BUFFER_SIZE
    ensures read + Stream(p) == Drain(p, read).0 + Stream(Drain(p, read).1)
    decreases |Stream(p)|
  {
    var a := Min(|p.pending|, BUFFER_SIZE - |read|);
    if a > 0 {
      var next := Poll(Port(p.pending[a..], p.arrivals));
      assert Stream(p) == p.pending[..a] + Stream(Port(p.pending[a..], p.arrivals));
      DrainStream(next, read + p.pending[..a]);
    }
  }

  /** One pass of the read loop: take a bytes, then poll. */
  lemma DrainStep(p: Port, read: seq<byte>, a: nat)
    requires |read| <= BUFFER_SIZE && a == Min(|p.pending|, BUFFER_SIZE - |read|) && a > 0
    ensures Drain(p, read) == Drain(Poll(Port(p.pending[a..], p.arrivals)), read + p.pending[..a])
    ensures |Stream(Poll(Port(p.pending[a..], p.arrivals)))| < |Stream(p)|
  {
    assert Stream(p) == p.pending[..a] + Stream(Port(p.pending[a..], p.arrivals));
  }

  /** What OnRun passes on for the text it gathered: the characters sit in
      the zeroed char_buf, so an odd-length text decodes its last digit with
      a 0 after it. */
  function Handed(text: seq<byte>): (r: seq<byte>)
    requires |text| <= BUFFER_SIZE
  {
    Decoded(text + Zeros(BUFFER_SIZE - |text|), StripLineEnding(text, |text|))
  }

  /** The corrected OnRun hands over exactly the bytes it took from the port,
      in arrival order, and at most 256 of them. */
  lemma DrainTakesStream(p: Port)
    ensures var (text, after) := Drain(Poll(p), []);
            |text| <= BUFFER_SIZE && Stream(p) == text + Stream(after)
  {
    DrainStream(Poll(p), []);
  }

  /** The reads of OnRun as written: each readBytes writes at bytes_read, but
      bytes_read is then overwritten with that read's count. Returns the
      buffer, the final bytes_read and the port after. */
  function DrainAsWritten(p: Port, buf: seq<byte>, last: nat): (r: (seq<byte>, nat, Port))
    requires |buf| == BUFFER_SIZE && last <= BUFFER_SIZE
    ensures |r.0| == BUFFER_SIZE && r.1 <= BUFFER_SIZE
    decreases |Stream(p)|
  {
    var a := Min(|p.pending|, BUFFER_SIZE - last);
    if a == 0 then (buf, last, p)
    else
      assert Stream(p) == p.pending[..a] + Stream(Port(p.pending[a..], p.arrivals));
      DrainAsWritten(Poll(Port(p.pending[a..], p.arrivals)), buf[..last] + p.pending[..a] + buf[last + a..], a)
  }

  /** The text OnRun as written hands over: the first bytes_read bytes of
      char_buf. */
  function HandedAsWritten(p: Port, buf: seq<byte>): (r: seq<byte>)
    requires |buf| == BUFFER_SIZE
  {
    var (b, n, _) := DrainAsWritten(Poll(p), buf, 0);
    b[..n]
  }

  /** "0102" waiting and "03" arriving while it is read: the corrected loop
      hands over "010203", the loop as written only "01". */
  lemma OverwrittenCount()
    ensures var p := Port([0x30, 0x31, 0x30, 0x32], [[], [0x30, 0x33]]);
            && Drain(Poll(p), []).0 == [0x30, 0x31, 0x30, 0x32, 0x30, 0x33]
            && HandedAsWritten(p, Zeros(256)) == [0x30, 0x31]
  {
    var p := Port([0x30, 0x31, 0x30, 0x32], [[], [0x30, 0x33]]);
    var p1 := Poll(p);
    assert p1 == Port([0x30, 0x31, 0x30, 0x32], [[0x30, 0x33]]);
    var p2 := Poll(Port([], [[0x30, 0x33]]));
    assert p2 == Port([0x30, 0x33], []);
    assert p1.pending[4..] == [] && p1.pending[..4] == [0x30, 0x31, 0x30, 0x32];
    DrainStep(p1, [], 4);
    assert Port(p1.pending[4..], p1.arrivals) == Port([], [[0x30, 0x33]]);
    assert [] + p1.pending[..4] == [0x30, 0x31, 0x30, 0x32];
    assert Drain(p1, []) == Drain(p2, [0x30, 0x31, 0x30, 0x32]);
    assert p2.pending[2..] == [] && p2.pending[..2] == [0x30, 0x33];
    assert Poll(Port([], [])) == Port([], []);
    assert Drain(p2, [0x30, 0x31, 0x30, 0x32]) == Drain(Port([], []), [0x30, 0x31, 0x30, 0x32] + [0x30, 0x33]);
    var b0 := Zeros(256);
    var b1 := b0[..0] + [0x30, 0x31, 0x30, 0x32] + b0[4..];
    assert DrainAsWritten(p1, b0, 0) == DrainAsWritten(p2, b1, 4);
    var b2 := b1[..4] + [0x30, 0x33] + b1[6..];
    assert DrainAsWritten(p2, b1, 4) == DrainAsWritten(Port([], []), b2, 2);
    assert b2[..2] == [0x30, 0x31];
  }

  /** Without a chunk arriving mid-read both loops read once and agree. */
  lemma AgreeWithoutArrivals(pending: seq<byte>, buf: seq<byte>)
    requires |buf| == BUFFER_SIZE
    ensures HandedAsWritten(Port(pending, []), buf) == Drain(Poll(Port(pending, [])), []).0
  {
    var p := Port(pending, []);
    var a := Min(|pending|, BUFFER_SIZE);
    if a > 0 {
      var q := Port(pending[a..], []);
      assert Poll(q) == q;
      DrainStep(p, [], a);
      assert [] + pending[..a] == pending[..a];
      assert Drain(p, []) == Drain(q, pending[..a]);
      assert Drain(q, pending[..a]) == (pending[..a], q);
      var b1 := buf[..0] + pending[..a] + buf[a..];
      assert DrainAsWritten(p, buf, 0) == DrainAsWritten(q, b1, a);
      assert DrainAsWritten(q, b1, a) == (b1, a, q);
      assert b1[..a] == pending[..a];
    }
  }

  /** The HardwareSerial the interface reads from. */
  class SerialPort {
    var pending: seq<byte>
    var arrivals: seq<seq<byte>>

    function Value(): Port
      reads this
    {
      Port(pending, arrivals)
    }

    constructor (p: Port)
      ensures Value() == p
    {
      pending := p.pending;
      arrivals := p.arrivals;
    }

    /** Serial.available(). */
    method Available() returns (n: nat)
      modifies this
      ensures Value() == Poll(old(Value())) && n == |pending|
    {
      if |arrivals| > 0 {
        pending := pending + arrivals[0];
        arrivals := arrivals[1..];
      }
      n := |pending|;
    }

    /** Serial.readBytes(&dst[offset], n) for n bytes that are waiting. */
    method ReadBytes(dst: array<byte>, offset: nat, n: nat) returns (got: nat)
      requires n <= |pending| && offset + n <= dst.Length
      modifies this, dst
      ensures got == n
      ensures forall j :: 0 <= j < dst.Length ==>
                dst[j] == if offset <= j < offset + n then old(pending[j - offset]) else old(dst[j])
      ensures Value() == Port(old(pending[n..]), old(arrivals))
    {
      var k := 0;
      while k < n
        invariant 0 <= k <= n
        invariant pending == old(pending) && arrivals == old(arrivals)
        invariant forall j :: 0 <= j < dst.Length ==>
                    dst[j] == if offset <= j < offset + k then pending[j - offset] else old(dst[j])
      {
        dst[offset + k] := pending[k];
        k := k + 1;
      }
      pending := pending[n..];
      got := n;
    }
  }

  /** The SerialTextInterface task. processor_interface_ is present or not;
      the processor's HandleIncomingMsg calls are recorded. */
  class SerialTextInterface {
    const port: SerialPort
    const charBuf: array<byte>
    const recvBuf: array<byte>
    var hasProcessor: bool
    var delivered: seq<seq<byte>>
    var log: seq<Diag>

    /** The two 256-byte buffers. */
    predicate Buffers()
      reads this
    {
      charBuf.Length == BUFFER_SIZE && recvBuf.Length == BUFFER_SIZE && charBuf != recvBuf
    }

    /** Between two OnRun calls char_buf is all zeros. */
    predicate Valid()
      reads this, charBuf
    {
      Buffers() && forall k :: 0 <= k < BUFFER_SIZE ==> charBuf[k] == 0
    }

    constructor (port: SerialPort, hasProcessor: bool)
      ensures Valid() && fresh(charBuf) && fresh(recvBuf)
      ensures this.port == port && this.hasProcessor == hasProcessor
      ensures delivered == [] && log == []
    {
      this.port := port;
      charBuf := new byte[BUFFER_SIZE](_ => 0);
      recvBuf := new byte[BUFFER_SIZE](_ => 0);
      this.hasProcessor := hasProcessor;
      delivered, log := [], [];
    }

    /** HandleIncomingMsg, with the line ending stripped as intended: decode
        the digit pairs into recv_buf and pass them on, or report the missing
        processor. */
    method HandleIncomingMsg(bytes: seq<byte>, size: nat)
      requires Buffers() && |bytes| == BUFFER_SIZE && size <= BUFFER_SIZE
      modifies this, recvBuf
      ensures Buffers() && hasProcessor == old(hasProcessor)
      ensures var text := Decoded(bytes, StripLineEnding(bytes, size));
              && recvBuf[..|text|] == text
              && (hasProcessor ==> delivered == old(delivered) + [text] && log == old(log))
              && (!hasProcessor ==> delivered == old(delivered) && log == old(log) + [ProcessorMissing])
    {
      var len := StripLineEnding(bytes, size);
      var outLen := CharArrayToByteArray(bytes, recvBuf, len);
      if hasProcessor {
        delivered := delivered + [recvBuf[..outLen]];
      } else {
        log := log + [ProcessorMissing];
      }
    }

    /** The read loop of OnRun with bytes_read accumulated: gather what the
        port offers, at most 256 characters, into char_buf. */
    method Gather() returns (bytesRead: nat)
      requires Valid()
      modifies port, charBuf
      ensures var (text, after) := Drain(Poll(old(port.Value())), []);
              && port.Value() == after && bytesRead == |text|
              && charBuf[..] == text + Zeros(BUFFER_SIZE - |text|) && charBuf[..bytesRead] == text
    {
      ghost var spec := Drain(Poll(port.Value()), []);
      ghost var read: seq<byte> := [];
      bytesRead := 0;
      var avail := port.Available();
      avail := Min(avail, BUFFER_SIZE);
      while avail > 0
        invariant 0 <= bytesRead <= BUFFER_SIZE && avail == Min(|port.pending|, BUFFER_SIZE - bytesRead)
        invariant charBuf.Length == BUFFER_SIZE && |read| == bytesRead
        invariant forall j :: 0 <= j < BUFFER_SIZE ==> charBuf[j] == if j < bytesRead then read[j] else 0
        invariant Drain(port.Value(), read) == spec
        decreases |Stream(port.Value())|
      {
        ghost var before := port.Value();
        DrainStep(before, read, avail);
        var got := port.ReadBytes(charBuf, bytesRead, avail);
        ghost var chunk := before.pending[..avail];
        forall j | 0 <= j < BUFFER_SIZE
          ensures charBuf[j] == if j < bytesRead + got then (read + chunk)[j] else 0
        {
          if j < bytesRead {
            assert (read + chunk)[j] == read[j];
          } else if j < bytesRead + got {
            assert (read + chunk)[j] == chunk[j - bytesRead];
          }
        }
        read := read + chunk;
        bytesRead := bytesRead + got;
        avail := port.Available();
        avail := Min(avail, BUFFER_SIZE - bytesRead);
      }
      BufferHolds(charBuf[..], read);
    }

    /** OnRun with bytes_read accumulated: gather, hand the text over when
        there is any, and clear char_buf. */
    method OnRun()
      requires Valid()
      modifies this, port, charBuf, recvBuf
      ensures Valid() && hasProcessor == old(hasProcessor)
      ensures var (text, after) := Drain(Poll(old(port.Value())), []);
              && port.Value() == after
              && (text == [] ==> delivered == old(delivered) && log == old(log))
              && (text != [] && hasProcessor ==> delivered == old(delivered) + [Handed(text)] && log == old(log))
              && (text != [] && !hasProcessor ==> delivered == old(delivered) && log == old(log) + [ProcessorMissing])
    {
      var bytesRead := Gather();
      if bytesRead > 0 {
        ghost var text := charBuf[..bytesRead];
        var buf := charBuf[..];
        StripPadded(text);
        HandleIncomingMsg(buf, bytesRead);
        forall k | 0 <= k < BUFFER_SIZE {
          charBuf[k] := 0;
        }
      }
    }
  }

  /** A buffer holding read followed by zeros. */
  lemma BufferHolds(buf: seq<byte>, read: seq<byte>)
    requires |buf| == BUFFER_SIZE && |read| <= BUFFER_SIZE
    requires forall j :: 0 <= j < BUFFER_SIZE ==> buf[j] == if j < |read| then read[j] else 0
    ensures buf == read + Zeros(BUFFER_SIZE - |read|) && buf[..|read|] == read
  {
  }

  /** Zero padding after the text changes neither the stripped length nor
      (since the odd read then sees a 0) what a shorter text would decode to. */
  lemma StripPadded(text: seq<byte>)
    requires |text| <= BUFFER_SIZE
    ensures StripLineEnding(text + Zeros(BUFFER_SIZE - |text|), |text|) == StripLineEnding(text, |text|)
  {
    var padded := text + Zeros(BUFFER_SIZE - |text|);
    if |text| > 0 {
      assert padded[|text| - 1] == text[|text| - 1];
      if |text| > 1 {
        assert padded[|text| - 2] == text[|text| - 2];
      }
    }
  }
}
