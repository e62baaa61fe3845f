/** The browser configurator's receive path and address helpers
    (web_configurator/script.js): frames are cut from a byte buffer by their
    length field alone, and IPv4 addresses travel as 32-bit integers whose most
    significant byte is the first dotted octet. */
module WebStream {
  import opened Bytes
  import opened Text
  import opened JsNumbers
  import opened AxisCatalog
  import opened WebProtocol
  import AxisProtocol

  // --- Frame reassembly ---------------------------------------------------------

  /** The total length of the frame whose header starts buf: the 4-byte header,
      the little-endian body size at bytes 2-3, and the 2-byte footer. */
  function FrameLength(buf: seq<byte>): (r: nat)
    requires |buf| >= 4
    ensures 6 <= r < 6 + U16
  {
    4 + ReadLe16(buf, 2) + 2
  }

  /** A frame as processData cuts it: exactly as long as its header says. */
  predicate WholeFrame(f: seq<byte>)
  {
    |f| >= 6 && |f| == FrameLength(f)
  }

  /** A buffer processData leaves alone: fewer than 6 bytes, or an incomplete frame. */
  predicate Stalled(buf: seq<byte>)
  {
    |buf| < 6 || |buf| < FrameLength(buf)
  }

  /** The frames laid end to end. */
  function Flatten(fs: seq<seq<byte>>): seq<byte>
  {
    if |fs| == 0 then [] else fs[0] + Flatten(fs[1..])
  }

  lemma FlattenCons(f: seq<byte>, fs: seq<seq<byte>>)
    ensures Flatten([f] + fs) == f + Flatten(fs)
  {
    assert ([f] + fs)[1..] == fs;
  }

  /** The frames processData dispatches from buf, in order, and the bytes it keeps. */
  function Cut(buf: seq<byte>): (r: (seq<seq<byte>>, seq<byte>))
    decreases |buf|
  {
    if Stalled(buf) then ([], buf)
    else
      var n := FrameLength(buf);
      var rest := Cut(buf[n..]);
      ([buf[..n]] + rest.0, rest.1)
  }

  /** What Cut promises: nothing is lost or reordered, every dispatched frame is
      whole, and what is kept is stalled. */
  lemma CutSpec(buf: seq<byte>)
    ensures Flatten(Cut(buf).0) + Cut(buf).1 == buf
    ensures forall k :: 0 <= k < |Cut(buf).0| ==> WholeFrame(Cut(buf).0[k])
    ensures Stalled(Cut(buf).1)
  {
    CutKeepsBytes(buf);
    CutWhole(buf);
    CutLeavesStalled(buf);
  }

  lemma {:induction false} CutKeepsBytes(buf: seq<byte>)
    ensures Flatten(Cut(buf).0) + Cut(buf).1 == buf
    decreases |buf|
  {
    if !Stalled(buf) {
      var n := FrameLength(buf);
      var f, tail := buf[..n], buf[n..];
      var r := Cut(tail);
      CutStep(buf);
      assert Cut(buf) == ([f] + r.0, r.1);
      CutKeepsBytes(tail);
      FlattenCons(f, r.0);
      Associate(f, Flatten(r.0), r.1);
      assert f + tail == buf;
    }
  }

  /** The frame cut off the front of a buffer that is not stalled is whole. */
  lemma LeadingFrameWhole(buf: seq<byte>)
    requires !Stalled(buf)
    ensures WholeFrame(buf[..FrameLength(buf)])
  {
    var n := FrameLength(buf);
    assert buf[..n][2] == buf[2] && buf[..n][3] == buf[3];
  }

  lemma {:induction false} CutWhole(buf: seq<byte>)
    ensures forall k :: 0 <= k < |Cut(buf).0| ==> WholeFrame(Cut(buf).0[k])
    decreases |buf|
  {
    if !Stalled(buf) {
      var n := FrameLength(buf);
      CutStep(buf);
      CutWhole(buf[n..]);
      LeadingFrameWhole(buf);
    }
  }

  lemma {:induction false} CutLeavesStalled(buf: seq<byte>)
    ensures Stalled(Cut(buf).1)
    decreases |buf|
  {
    if !Stalled(buf) {
      CutStep(buf);
      CutLeavesStalled(buf[FrameLength(buf)..]);
    }
  }

  lemma CutStalled(buf: seq<byte>)
    requires Stalled(buf)
    ensures Cut(buf) == ([], buf)
  {
  }

  /** One step of processData: a buffer that is not stalled yields its leading frame
      and then the frames of what follows it. */
  lemma CutStep(buf: seq<byte>)
    requires !Stalled(buf)
    ensures Cut(buf) == ([buf[..FrameLength(buf)]] + Cut(buf[FrameLength(buf)..]).0, Cut(buf[FrameLength(buf)..]).1)
  {
  }

  /** A whole frame at the head of the buffer is dispatched first, whatever its
      other bytes hold. */
  lemma CutWholeFrame(f: seq<byte>, rest: seq<byte>)
    requires WholeFrame(f)
    ensures Cut(f + rest) == ([f] + Cut(rest).0, Cut(rest).1)
  {
    var buf := f + rest;
    assert buf[2] == f[2] && buf[3] == f[3];
    assert buf[..|f|] == f && buf[|f|..] == rest;
  }

  /** No sync search and no checksum: a frame with any byte other than its body
      size corrupted is still dispatched, and framing continues after it. */
  lemma CorruptedFrameDispatched(f: seq<byte>, i: nat, b: byte, rest: seq<byte>)
    requires WholeFrame(f) && i < |f| && i != 2 && i != 3
    ensures Cut(f[i := b] + rest).0 == [f[i := b]] + Cut(rest).0
  {
    CutWholeFrame(f[i := b], rest);
  }

  /** A stream of whole frames is dispatched frame for frame, leaving nothing. */
  lemma {:induction false} CutOfWholeFrames(fs: seq<seq<byte>>)
    requires forall k :: 0 <= k < |fs| ==> WholeFrame(fs[k])
    ensures Cut(Flatten(fs)) == (fs, [])
  {
    if |fs| > 0 {
      CutOfWholeFrames(fs[1..]);
      CutWholeFrame(fs[0], Flatten(fs[1..]));
      assert [fs[0]] + fs[1..] == fs;
    }
  }

  /** Every frame buildMessage writes with a body under 64 KiB is whole. */
  lemma BuiltFrameIsWhole(msgType: int, body: seq<byte>)
    requires |body| < U16
    ensures WholeFrame(WebProtocol.Frame(msgType, body))
  {
    WebProtocol.FrameVerifies(msgType, body);
  }

  /** How the input is split into chunks does not matter: processing x and then y
      dispatches the frames of x + y and keeps the same bytes. */
  lemma CutChunks(x: seq<byte>, y: seq<byte>)
    ensures Cut(x).0 + Cut(Cut(x).1 + y).0 == Cut(x + y).0
    ensures Cut(Cut(x).1 + y).1 == Cut(x + y).1
  {
    CutChunksFrames(x, y);
    CutChunksRest(x, y);
  }

  lemma {:induction false} CutChunksFrames(x: seq<byte>, y: seq<byte>)
    ensures Cut(x).0 + Cut(Cut(x).1 + y).0 == Cut(x + y).0
    decreases |x|
  {
    if Stalled(x) {
      CutStalled(x);
    } else {
      CutChunksFrames(x[FrameLength(x)..], y);
      CutChunksFramesStep(x, y);
    }
  }

  /** The inductive step of CutChunksFrames: the claim for what follows the
      leading frame gives it for the whole buffer. */
  lemma CutChunksFramesStep(x: seq<byte>, y: seq<byte>)
    requires !Stalled(x)
    requires var x' := x[FrameLength(x)..];
      Cut(x').0 + Cut(Cut(x').1 + y).0 == Cut(x' + y).0
    ensures Cut(x).0 + Cut(Cut(x).1 + y).0 == Cut(x + y).0
  {
    var n := FrameLength(x);
    var f, x' := x[..n], x[n..];
    var cx := Cut(x');
    var cr, cxy := Cut(cx.1 + y), Cut(x' + y);
    CutStep(x);
    CutPrefixStep(x, y);
    ConsAppend(f, cx.0, cr.0, cxy.0);
  }

  lemma ConsAppend<T>(f: T, a: seq<T>, b: seq<T>, c: seq<T>)
    requires a + b == c
    ensures ([f] + a) + b == [f] + c
  {
  }

  lemma {:induction false} CutChunksRest(x: seq<byte>, y: seq<byte>)
    ensures Cut(Cut(x).1 + y).1 == Cut(x + y).1
    decreases |x|
  {
    if Stalled(x) {
      CutStalled(x);
    } else {
      var n := FrameLength(x);
      CutStep(x);
      CutPrefixStep(x, y);
      CutChunksRest(x[n..], y);
    }
  }

  /** A buffer that is not stalled cuts its leading frame the same way whatever
      is appended to it. */
  lemma CutPrefixStep(x: seq<byte>, y: seq<byte>)
    requires !Stalled(x)
    ensures var n := FrameLength(x);
      Cut(x + y) == ([x[..n]] + Cut(x[n..] + y).0, Cut(x[n..] + y).1)
  {
    var n := FrameLength(x);
    var xy := x + y;
    assert xy[2] == x[2] && xy[3] == x[3];
    assert xy[..n] == x[..n] && xy[n..] == x[n..] + y;
    CutStep(xy);
  }

  // --- handleMessage, processData and readLoop ----------------------------------

  /** Whether handleMessage throws on msg: DataView.getUint16 reading past the end
      of a message shorter than its 4-byte header (a RangeError), or the parser
      its switch calls for the message type rejecting the length (an Error). A
      type the switch only logs as unknown never throws. */
  predicate Throws(msg: seq<byte>)
  {
    if |msg| < 4 then true
    else
      match FromId(ReadLe16(msg, 0))
      case None => false
      case Some(kind) => Rejects(kind, msg)
  }

  /** Whether the parser the switch calls for kind rejects msg; a kind the switch
      has no case for is not parsed and rejects nothing. */
  predicate Rejects(kind: MessageType, msg: seq<byte>)
  {
    match kind
    case Ack => ParseAck(msg).None?
    case GetVersion | GetEthernetAddress | GetEthernetPort | GetHomeThreshold | GetHomeSpeed
      | GetMaxSpeed | GetAcceleration => ParseU32(msg).None?
    case GetI2CAddress | GetHomeDirection | GetMotorState | GetMotorBrake => ParseU8(msg).None?
    case GetMacAddress => ParseMac(msg).None?
    case GetLedColor => ParseLedColor(msg).None?
    case GetHomedState => ParseHomedState(msg).None?
    case GetCurrentPosition | GetTargetPosition | GetVelocity => ParseDouble(msg).None?
    case _ => false
  }

  /** The types handleMessage's switch displays: Ack and the replies to the
      configurator's Get requests. */
  predicate Displayed(kind: MessageType)
  {
    kind.Ack? || kind.GetVersion? || kind.GetI2CAddress? || kind.GetEthernetAddress?
    || kind.GetEthernetPort? || kind.GetMacAddress? || kind.GetLedColor?
    || kind.GetHomeDirection? || kind.GetHomeThreshold? || kind.GetHomeSpeed?
    || kind.GetHomedState? || kind.GetMotorState? || kind.GetMotorBrake?
    || kind.GetMaxSpeed? || kind.GetAcceleration? || kind.GetCurrentPosition?
    || kind.GetTargetPosition? || kind.GetVelocity?
  }

  /** The lengths the parsers demand are the Python codec's MESSAGE_LENGTHS: the
      parser for a displayed type rejects exactly the lengths that differ from
      that entry, and any other type is not parsed. */
  lemma RejectsIffLengthDiffers(kind: MessageType, msg: seq<byte>)
    ensures Rejects(kind, msg) <==> Displayed(kind) && |msg| != AxisProtocol.MessageLength(kind)
  {
  }

  /** So a message of a known type throws exactly when the type is displayed and
      the length is not the MESSAGE_LENGTHS entry. */
  lemma ThrowsIffLengthDiffers(msg: seq<byte>, kind: MessageType)
    requires |msg| >= 4 && ReadLe16(msg, 0) == JsId(kind)
    ensures Throws(msg) <==> Displayed(kind) && |msg| != AxisProtocol.MessageLength(kind)
  {
    JsIdIsCatalogId(kind);
    FromIdId(kind);
    RejectsIffLengthDiffers(kind, msg);
  }

  /** What processData does with buf: the frames handleMessage gets through, in
      order, whether it threw, and the bytes left in the buffer. The frame that
      throws has already been sliced off; whatever follows it stays buffered. */
  function Process(buf: seq<byte>): (r: (seq<seq<byte>>, bool, seq<byte>))
    ensures forall k :: 0 <= k < |r.0| ==> WholeFrame(r.0[k]) && !Throws(r.0[k])
    ensures !r.1 ==> Stalled(r.2)
    decreases |buf|
  {
    if Stalled(buf) then ([], false, buf)
    else
      var n := FrameLength(buf);
      LeadingFrameWhole(buf);
      if Throws(buf[..n]) then ([], true, buf[n..])
      else
        var rest := Process(buf[n..]);
        ([buf[..n]] + rest.0, rest.1, rest.2)
  }

  /** One step of processData: the leading frame of a buffer that is not stalled
      either throws, leaving what follows it, or gets through ahead of the
      frames of what follows it. */
  lemma ProcessStep(buf: seq<byte>)
    requires !Stalled(buf)
    ensures var n := FrameLength(buf);
      Process(buf) == if Throws(buf[..n]) then ([], true, buf[n..])
                      else ([buf[..n]] + Process(buf[n..]).0, Process(buf[n..]).1, Process(buf[n..]).2)
  {
  }

  /** When no frame throws, processData is the plain cut: every frame gets
      through and only a stalled tail stays. */
  lemma {:induction false} ProcessWithoutThrow(buf: seq<byte>)
    requires forall k :: 0 <= k < |Cut(buf).0| ==> !Throws(Cut(buf).0[k])
    ensures Process(buf) == (Cut(buf).0, false, Cut(buf).1)
    decreases |buf|
  {
    if !Stalled(buf) {
      var n := FrameLength(buf);
      CutStep(buf);
      assert Cut(buf).0[0] == buf[..n];
      forall k | 0 <= k < |Cut(buf[n..]).0|
        ensures !Throws(Cut(buf[n..]).0[k])
      {
        assert Cut(buf[n..]).0[k] == Cut(buf).0[k + 1];
      }
      ProcessWithoutThrow(buf[n..]);
    }
  }

  /** A frame that throws ends processData: nothing after it gets through, and a
      whole frame following it stays in the buffer although it is complete. */
  lemma ThrowKeepsLaterFrames(f: seq<byte>, g: seq<byte>, tail: seq<byte>)
    requires WholeFrame(f) && Throws(f) && WholeFrame(g)
    ensures Process(f + (g + tail)) == ([], true, g + tail)
    ensures !Stalled(g + tail)
  {
    var buf := f + (g + tail);
    assert buf[2] == f[2] && buf[3] == f[3];
    assert buf[..|f|] == f && buf[|f|..] == g + tail;
    var gt := g + tail;
    assert gt[2] == g[2] && gt[3] == g[3];
  }

  /** What readLoop makes of the chunks the reader delivers, starting from buf:
      the frames that get through, whether processData threw (which ends the
      loop), and the bytes left buffered. */
  function Feed(buf: seq<byte>, chunks: seq<seq<byte>>): (r: (seq<seq<byte>>, bool, seq<byte>))
    ensures forall k :: 0 <= k < |r.0| ==> WholeFrame(r.0[k]) && !Throws(r.0[k])
    decreases |chunks|
  {
    if |chunks| == 0 then ([], false, buf)
    else
      var p := Process(buf + chunks[0]);
      if p.1 then p
      else
        var r := Feed(p.2, chunks[1..]);
        (p.0 + r.0, r.1, r.2)
  }

  /** When no frame throws, how the reader splits the stream into chunks does
      not matter: readLoop gets through the frames of the whole stream and keeps
      its stalled tail. */
  lemma {:induction false} FeedWithoutThrow(buf: seq<byte>, chunks: seq<seq<byte>>)
    requires Stalled(buf)
    requires var c := Cut(buf + Flatten(chunks));
      forall k :: 0 <= k < |c.0| ==> !Throws(c.0[k])
    ensures Feed(buf, chunks) == (Cut(buf + Flatten(chunks)).0, false, Cut(buf + Flatten(chunks)).1)
    decreases |chunks|
  {
    if |chunks| == 0 {
      assert buf + Flatten(chunks) == buf;
      CutStalled(buf);
    } else {
      var x, y := buf + chunks[0], Flatten(chunks[1..]);
      FlattenCons(chunks[0], chunks[1..]);
      assert [chunks[0]] + chunks[1..] == chunks;
      Associate(buf, chunks[0], y);
      CutChunks(x, y);
      var whole := Cut(x + y).0;
      var tail := Cut(Cut(x).1 + y).0;
      forall k | 0 <= k < |Cut(x).0|
        ensures !Throws(Cut(x).0[k])
      {
        assert Cut(x).0[k] == whole[k];
      }
      forall k | 0 <= k < |tail|
        ensures !Throws(tail[k])
      {
        assert tail[k] == whole[|Cut(x).0| + k];
      }
      ProcessWithoutThrow(x);
      CutSpec(x);
      FeedWithoutThrow(Cut(x).1, chunks[1..]);
    }
  }

  /** The module-level receive buffer of the configurator page, with the frames
      handleMessage has got through so far. */
  class Receiver {
    var buffer: seq<byte>
    var handled: seq<seq<byte>>

    constructor()
      ensures buffer == [] && handled == []
    {
      buffer := [];
      handled := [];
    }

    /** readLoop: every chunk the reader delivers goes to processData until the
        reader is done (the chunks run out) or processData throws; the catch
        then ends reading and the page shows "Connection lost". */
    method ReadLoop(chunks: seq<seq<byte>>) returns (lost: bool)
      modifies this
      ensures var r := Feed(old(buffer), chunks);
              handled == old(handled) + r.0 && lost == r.1 && buffer == r.2
    {
      ghost var start := buffer;
      ghost var before := handled;
      lost := false;
      var i := 0;
      while i < |chunks|
        invariant 0 <= i <= |chunks|
        invariant before + Feed(start, chunks).0 == handled + Feed(buffer, chunks[i..]).0
        invariant Feed(start, chunks).1 == Feed(buffer, chunks[i..]).1
        invariant Feed(start, chunks).2 == Feed(buffer, chunks[i..]).2
      {
        ghost var p := Process(buffer + chunks[i]);
        assert chunks[i..][0] == chunks[i] && chunks[i..][1..] == chunks[i + 1..];
        lost := ProcessData(chunks[i]);
        if lost {
          return;
        }
        Associate(handled, p.0, Feed(buffer, chunks[i + 1..]).0);
        i := i + 1;
      }
    }

    /** processData: append the chunk, then cut whole frames off the front and
        hand each to handleMessage while at least 6 bytes are buffered; a throw
        leaves the loop with the frame already sliced off. */
    method ProcessData(data: seq<byte>) returns (thrown: bool)
      modifies this
      ensures var p := Process(old(buffer) + data);
              handled == old(handled) + p.0 && thrown == p.1 && buffer == p.2
      ensures !thrown ==> Stalled(buffer)
    {
      buffer := buffer + data;
      ghost var start := buffer;
      ghost var before := handled;
      thrown := false;
      while |buffer| >= 6
        invariant before + Process(start).0 == handled + Process(buffer).0
        invariant Process(start).1 == Process(buffer).1 && Process(start).2 == Process(buffer).2
        decreases |buffer|
      {
        var bodySize := ReadLe16(buffer, 2);
        var totalSize := 4 + bodySize + 2;
        if |buffer| < totalSize {
          break;
        }
        var message := buffer[..totalSize];
        ProcessStep(buffer);
        ghost var tail := Process(buffer[totalSize..]);
        ghost var shown := handled;
        buffer := buffer[totalSize..];
        thrown := HandleMessage(message);
        if thrown {
          return;
        }
        Associate(shown, [message], tail.0);
      }
    }

    /** handleMessage: a frame its switch gets through is recorded (what it
        displays is not modelled); one whose parser throws is not. */
    method HandleMessage(msg: seq<byte>) returns (thrown: bool)
      modifies this
      ensures thrown == Throws(msg)
      ensures handled == old(handled) + (if thrown then [] else [msg]) && buffer == old(buffer)
    {
      thrown := Throws(msg);
      if !thrown {
        handled := handled + [msg];
      }
    }
  }

  // --- IPv4 addresses -------------------------------------------------------------

  /** The 32 bits a bitwise operator sees in an integer (ToInt32), least
      significant byte first. */
  function Word(v: int): (w: seq<byte>)
    ensures |w| == 4
  {
    Le32(v % U32)
  }

  /** ToInt32 of a Number as 32 bits: NaN and the infinities become 0, a
      fraction is dropped toward zero. */
  function NumberWord(n: JsNumber): (w: seq<byte>)
    ensures |w| == 4
    ensures !n.Finite? ==> w == [0, 0, 0, 0]
  {
    Word(Truncate(n))
  }

  /** x << (8 * k) on a 32-bit word: k zero bytes enter at the bottom and the top k
      bytes fall off. */
  function ShiftLeftBytes(w: seq<byte>, k: nat): (r: seq<byte>)
    requires |w| == 4 && k <= 4
    ensures |r| == 4
    ensures forall i :: 0 <= i < k ==> r[i] == 0
    ensures forall i :: k <= i < 4 ==> r[i] == w[i - k]
  {
    Zeros(k) + w[..4 - k]
  }

  /** x | y on 32-bit words, byte by byte. */
  function OrWord(x: seq<byte>, y: seq<byte>): (r: seq<byte>)
    requires |x| == 4 && |y| == 4
    ensures |r| == 4
    ensures forall i :: 0 <= i < 4 ==> r[i] == OrByte(x[i], y[i])
  {
    [OrByte(x[0], y[0]), OrByte(x[1], y[1]), OrByte(x[2], y[2]), OrByte(x[3], y[3])]
  }

  /** The signed 32-bit integer a bitwise operator returns for a word. */
  function Int32(w: seq<byte>): (r: int)
    requires |w| == 4
    ensures -0x8000_0000 <= r < 0x8000_0000
    ensures Word(r) == w
  {
    var u := ReadLe32(w, 0);
    Le32ReadLe32(w, 0);
    assert w[0..4] == w;
    var r := if u >= 0x8000_0000 then u - U32 else u;
    assert r % U32 == u;
    r
  }

  /** A signed 32-bit integer is recovered from its word. */
  lemma Int32Word(v: int)
    requires -0x8000_0000 <= v < 0x8000_0000
    ensures Int32(Word(v)) == v
  {
    var u := v % U32;
    var w := Le32(u);
    assert w[0..4] == w;
    ReadLe32At(u, w, 0);
    assert u == if v >= 0 then v else v + U32;
  }

  /** parts[i] of `split('.').map(Number)` as ToInt32 sees it; a missing part is
      undefined, which converts to 0. */
  function PartWord(parts: seq<string>, i: nat): (w: seq<byte>)
    ensures |w| == 4
  {
    if i < |parts| then NumberWord(ToNumber(parts[i])) else Word(0)
  }

  /** stringToIp: `(p0 << 24) | (p1 << 16) | (p2 << 8) | p3` over the dotted parts. */
  function StringToIp(s: string): (r: int)
    ensures -0x8000_0000 <= r < 0x8000_0000
  {
    IpOfParts(Split(s, '.'))
  }

  /** `(p0 << 24) | (p1 << 16) | (p2 << 8) | p3` over the parts as Number() reads
      them. */
  function IpOfParts(parts: seq<string>): (r: int)
    ensures -0x8000_0000 <= r < 0x8000_0000
  {
    Int32(OrWord(OrWord(OrWord(ShiftLeftBytes(PartWord(parts, 0), 3), ShiftLeftBytes(PartWord(parts, 1), 2)),
                        ShiftLeftBytes(PartWord(parts, 2), 1)),
                 PartWord(parts, 3)))
  }

  /** The fields of a dotted quad are canonical numerals of its octets. */
  lemma DottedValues(a: byte, b: byte, c: byte, d: byte)
    ensures var parts := Split(Dotted(a, b, c, d), '.');
      && |parts| == 4
      && (forall i :: 0 <= i < 4 ==> Canonical(parts[i]))
      && DecimalValue(parts[0]) == a && DecimalValue(parts[1]) == b
      && DecimalValue(parts[2]) == c && DecimalValue(parts[3]) == d
  {
    var parts := Split(Dotted(a, b, c, d), '.');
    DottedFields(a, b, c, d);
    FormattedPart(parts, 0, a);
    FormattedPart(parts, 1, b);
    FormattedPart(parts, 2, c);
    FormattedPart(parts, 3, d);
    AllCanonical(parts);
  }

  /** A part rendered from a byte is a canonical numeral of it. */
  lemma FormattedPart(parts: seq<string>, i: nat, a: byte)
    requires i < |parts| && parts[i] == FormatDecimal(a)
    ensures Canonical(parts[i]) && DecimalValue(parts[i]) == a
  {
    FormatDecimalCanonical(a);
    DecimalValueFormat(a);
  }

  /** The per-part facts of a dotted quad, gathered over its four indices. */
  lemma AllCanonical(parts: seq<string>)
    requires |parts| == 4
    requires Canonical(parts[0]) && Canonical(parts[1]) && Canonical(parts[2]) && Canonical(parts[3])
    ensures forall i :: 0 <= i < 4 ==> Canonical(parts[i])
  {
    forall i | 0 <= i < 4
      ensures Canonical(parts[i])
    {
      if i == 0 {} else if i == 1 {} else if i == 2 {} else {}
    }
  }

  lemma AllOctetNumerals(parts: seq<string>)
    requires |parts| == 4
    requires Canonical(parts[0]) && DecimalValue(parts[0]) < 256
    requires Canonical(parts[1]) && DecimalValue(parts[1]) < 256
    requires Canonical(parts[2]) && DecimalValue(parts[2]) < 256
    requires Canonical(parts[3]) && DecimalValue(parts[3]) < 256
    ensures forall i :: 0 <= i < 4 ==> Canonical(parts[i]) && DecimalValue(parts[i]) < 256
  {
    forall i | 0 <= i < 4
      ensures Canonical(parts[i]) && DecimalValue(parts[i]) < 256
    {
      if i == 0 {} else if i == 1 {} else if i == 2 {} else {}
    }
  }

  /** ipToString: the four bytes of the unsigned 32-bit value, most significant
      first, in decimal, joined by dots. */
  function IpToString(ip: int): (r: string)
    ensures var parts := Split(r, '.');
      && |parts| == 4
      && (forall i :: 0 <= i < 4 ==> Canonical(parts[i]) && DecimalValue(parts[i]) < 256)
      && DecimalValue(parts[0]) * 0x100_0000 + DecimalValue(parts[1]) * 0x1_0000
         + DecimalValue(parts[2]) * 0x100 + DecimalValue(parts[3]) == ip % U32
  {
    var w := Word(ip);
    var r := Dotted(w[3], w[2], w[1], w[0]);
    DottedValues(w[3], w[2], w[1], w[0]);
    AllOctetNumerals(Split(r, '.'));
    WordDigits(ip);
    r
  }

  /** The bytes of a word, most significant first, as base-256 digits of the
      value modulo 2^32. */
  lemma WordDigits(v: int)
    ensures var w := Word(v);
      w[3] as int * 0x100_0000 + w[2] as int * 0x1_0000 + w[1] as int * 0x100 + w[0] as int == v % U32
  {
    var w := Word(v);
    ReadLe32At(v % U32, w, 0);
    assert w[0..4] == w;
  }

  /** The octet a part contributes when its integer part is 0..255, or 0 when
      it is missing. */
  function Octet(parts: seq<string>, i: nat): (r: byte)
  {
    if i < |parts| && 0 <= Truncate(ToNumber(parts[i])) < 256 then Truncate(ToNumber(parts[i])) else 0
  }

  /** A part that is missing, or whose integer part is 0..255 (NaN counting
      as 0). */
  predicate OctetPart(parts: seq<string>, i: nat)
  {
    i < |parts| ==> 0 <= Truncate(ToNumber(parts[i])) < 256
  }

  lemma PartWordOctet(parts: seq<string>, i: nat)
    requires OctetPart(parts, i)
    ensures PartWord(parts, i) == [Octet(parts, i), 0, 0, 0]
  {
    OctetWord(Octet(parts, i));
  }

  /** A number 0..255 fills the low byte of its word. */
  lemma OctetWord(v: byte)
    ensures Word(v) == [v, 0, 0, 0]
  {
    assert v % U32 == v && v / 256 == 0;
  }

  /** stringToIp validates nothing: with parts that are numbers 0..255, missing, or
      not numbers at all, the address holds the numbers and 0 for every other
      part, first part most significant. */
  lemma StringToIpOctets(s: string)
    requires OctetPart(Split(s, '.'), 0) && OctetPart(Split(s, '.'), 1)
    requires OctetPart(Split(s, '.'), 2) && OctetPart(Split(s, '.'), 3)
    ensures Word(StringToIp(s)) == [Octet(Split(s, '.'), 3), Octet(Split(s, '.'), 2),
                                    Octet(Split(s, '.'), 1), Octet(Split(s, '.'), 0)]
    ensures IpToString(StringToIp(s)) == Dotted(Octet(Split(s, '.'), 0), Octet(Split(s, '.'), 1),
                                                Octet(Split(s, '.'), 2), Octet(Split(s, '.'), 3))
  {
    var parts := Split(s, '.');
    PartWordOctet(parts, 0);
    PartWordOctet(parts, 1);
    PartWordOctet(parts, 2);
    PartWordOctet(parts, 3);
  }

  /** A dotted quad of decimal octets survives stringToIp then ipToString. */
  lemma IpRoundTrip(a: byte, b: byte, c: byte, d: byte)
    ensures Word(StringToIp(Dotted(a, b, c, d))) == [d, c, b, a]
    ensures IpToString(StringToIp(Dotted(a, b, c, d))) == Dotted(a, b, c, d)
  {
    var s := Dotted(a, b, c, d);
    var parts := Split(s, '.');
    DottedFields(a, b, c, d);
    FormattedOctet(parts, 0, a);
    FormattedOctet(parts, 1, b);
    FormattedOctet(parts, 2, c);
    FormattedOctet(parts, 3, d);
    StringToIpOctets(s);
  }

  /** A part rendered from a byte is a number 0..255 giving that byte. */
  lemma FormattedOctet(parts: seq<string>, i: nat, a: byte)
    requires i < |parts| && parts[i] == FormatDecimal(a)
    ensures OctetPart(parts, i) && Octet(parts, i) == a
  {
    DecimalValueFormat(a);
  }

  /** A missing fourth part reads as 0: "a.b.c" is taken as "a.b.c.0". */
  lemma MissingPartIsZero(a: byte, b: byte, c: byte)
    ensures StringToIp(Join([FormatDecimal(a), FormatDecimal(b), FormatDecimal(c)], '.'))
            == StringToIp(Dotted(a, b, c, 0))
  {
    var s := Join([FormatDecimal(a), FormatDecimal(b), FormatDecimal(c)], '.');
    var parts := Split(s, '.');
    DottedTriple(FormatDecimal(a), FormatDecimal(b), FormatDecimal(c));
    FormattedOctet(parts, 0, a);
    FormattedOctet(parts, 1, b);
    FormattedOctet(parts, 2, c);
    assert Octet(parts, 3) == 0;
    StringToIpOctets(s);
    IpRoundTrip(a, b, c, 0);
    var x := StringToIp(s);
    var y := StringToIp(Dotted(a, b, c, 0));
    Int32Word(x);
    Int32Word(y);
  }

  /** White space around the first part is skipped: " 10.0.0.1" is the
      address of "10.0.0.1". */
  lemma PaddedPartIgnored(a: byte, b: byte, c: byte, d: byte, pre: string, post: string)
    requires forall k :: 0 <= k < |pre| ==> pre[k] in JS_WHITESPACE
    requires forall k :: 0 <= k < |post| ==> post[k] in JS_WHITESPACE
    ensures StringToIp(Join([pre + FormatDecimal(a) + post, FormatDecimal(b), FormatDecimal(c), FormatDecimal(d)], '.'))
            == StringToIp(Dotted(a, b, c, d))
  {
    var fa := FormatDecimal(a);
    var padded := [pre + fa + post, FormatDecimal(b), FormatDecimal(c), FormatDecimal(d)];
    var plain := [fa, FormatDecimal(b), FormatDecimal(c), FormatDecimal(d)];
    NoDotInDigits(fa);
    PaddingKeepsOut(pre, fa, post, JS_WHITESPACE, '.');
    PaddedSplit(pre + fa + post, b, c, d);
    DottedFields(a, b, c, d);
    PaddedNumber(a, pre, post);
    SameWords(padded, plain);
  }

  lemma PaddedSplit(x: string, b: byte, c: byte, d: byte)
    requires '.' !in x
    ensures var parts := [x, FormatDecimal(b), FormatDecimal(c), FormatDecimal(d)];
            Split(Join(parts, '.'), '.') == parts
  {
    NoDotInDigits(FormatDecimal(b));
    NoDotInDigits(FormatDecimal(c));
    NoDotInDigits(FormatDecimal(d));
    FourFields(x, FormatDecimal(b), FormatDecimal(c), FormatDecimal(d));
  }

  lemma PaddedNumber(a: byte, pre: string, post: string)
    requires forall k :: 0 <= k < |pre| ==> pre[k] in JS_WHITESPACE
    requires forall k :: 0 <= k < |post| ==> post[k] in JS_WHITESPACE
    ensures ToNumber(pre + FormatDecimal(a) + post) == ToNumber(FormatDecimal(a))
  {
    var fa := FormatDecimal(a);
    assert IsDigit(fa[0]) && IsDigit(fa[|fa| - 1]);
    ToNumberPadded(pre, fa, post);
  }

  /** Parts that Number() reads alike give the same address. */
  lemma SameWords(p: seq<string>, q: seq<string>)
    requires |p| == |q| == 4
    requires forall i :: 0 <= i < 4 ==> ToNumber(p[i]) == ToNumber(q[i])
    ensures IpOfParts(p) == IpOfParts(q)
  {
    assert PartWord(p, 0) == PartWord(q, 0);
    assert PartWord(p, 1) == PartWord(q, 1);
    assert PartWord(p, 2) == PartWord(q, 2);
    assert PartWord(p, 3) == PartWord(q, 3);
  }
}
