/** The serial configurator's receive path (configurator/main.js): bytes are
    appended to a module-level buffer, leading bytes are dropped until the sync
    word appears, and each complete frame is checked against a 16-bit sum of its
    sync word, header and body before it is handled. */
module SyncStream {
  import opened Wrappers
  import opened Bytes
  import opened Text
  import SyncMessages
  import SyncBuilders
  import WebStream

  // --- calculateChecksum -----------------------------------------------------------

  /** The first argument of calculateChecksum: a Uint8Array, or anything else. */
  datatype JsBuffer = Uint8Array(bytes: seq<byte>) | OtherObject

  /** The second argument: a number (integers only), or anything else. */
  datatype JsLength = Number(n: int) | NotANumber

  /** The value calculateChecksum computes for `length` bytes: their sum modulo
      2^16. Reading past the end yields undefined, the sum becomes NaN and the
      mask turns it into 0, so a length beyond the buffer gives 0. */
  function Checksum16(bytes: seq<byte>, length: int): (r: nat)
    ensures r < U16
    ensures 0 <= length <= |bytes| ==> r == Sum(bytes[..length]) % U16
  {
    if length <= 0 then 0
    else if length > |bytes| then 0
    else Sum(bytes[..length]) % U16
  }

  lemma ModAddStep(a: nat, b: nat)
    ensures (a % U16 + b) % U16 == (a + b) % U16
  {
    ModUnique(a + b, U16, a / U16 + (a % U16 + b) / U16, (a % U16 + b) % U16);
  }

  /** calculateChecksum: a TypeError (None) unless given a Uint8Array and a
      number; otherwise the running sum masked with 0xFFFF at every step. */
  method CalculateChecksum(buffer: JsBuffer, length: JsLength) returns (r: Option<nat>)
    ensures r.None? <==> buffer.OtherObject? || length.NotANumber?
    ensures r.Some? ==> r.value == Checksum16(buffer.bytes, length.n)
  {
    if buffer.OtherObject? || length.NotANumber? {
      return None;
    }
    var bytes := buffer.bytes;
    var sum := 0;
    var i := 0;
    while i < length.n
      invariant 0 <= i <= (if length.n < 0 then 0 else length.n)
      invariant sum == Checksum16(bytes, i)
    {
      if i < |bytes| {
        assert bytes[..i + 1] == bytes[..i] + [bytes[i]];
        SumAppend(bytes[..i], [bytes[i]]);
        ModAddStep(Sum(bytes[..i]), bytes[i]);
        sum := (sum + bytes[i]) % U16;
      } else {
        sum := 0;
      }
      i := i + 1;
    }
    r := Some(sum);
  }

  // --- Sync hunting --------------------------------------------------------------

  /** The sync word 0xDEADBABE as it appears on the wire, low byte first. */
  const SYNC_LE: seq<byte> := [0xBE, 0xBA, 0xAD, 0xDE]

  lemma SyncIsLittleEndian()
    ensures SYNC_LE == Le32(SyncMessages.SYNC_BYTES)
  {
  }

  predicate AtSync(buf: seq<byte>)
  {
    |buf| >= 4 && buf[..4] == SYNC_LE
  }

  /** HEADER_SIZE + body_size + FOOTER_SIZE for the header at the front of buf. */
  function MessageLength(buf: seq<byte>): (r: nat)
    requires |buf| >= 8
    ensures 10 <= r < 10 + U16
  {
    8 + ReadLe16(buf, 6) + 2
  }

  /** Where processReadBuffer stops: fewer than 4 bytes, or the sync word followed
      by an incomplete header or frame. */
  predicate Waiting(buf: seq<byte>)
  {
    |buf| < 4 || (AtSync(buf) && (|buf| < 8 || |buf| < MessageLength(buf)))
  }

  /** A complete frame's footer equals the checksum of everything before it. */
  predicate ChecksumMatches(frame: seq<byte>)
    requires |frame| >= 2
  {
    ReadLe16(frame, |frame| - 2) == Checksum16(frame, |frame| - 2)
  }

  /** A frame processReadBuffer takes off the buffer: the sync word and exactly the
      length its header gives. */
  predicate SyncedFrame(f: seq<byte>)
  {
    AtSync(f) && |f| >= 8 && |f| == MessageLength(f)
  }

  /** What one pass of processReadBuffer's loop does with the buffer: stop, drop
      the first byte, or take off a frame of n bytes whose checksum matches or not. */
  datatype Step = Stop | Skip | Take(n: nat, ok: bool)

  function Next(buf: seq<byte>): (r: Step)
    ensures r.Stop? <==> Waiting(buf)
    ensures r.Skip? ==> |buf| >= 4 && !AtSync(buf)
    ensures r.Take? ==> 10 <= r.n <= |buf| && AtSync(buf) && r.n == MessageLength(buf)
  {
    if Waiting(buf) then Stop
    else if !AtSync(buf) then Skip
    else Take(MessageLength(buf), ChecksumMatches(buf[..MessageLength(buf)]))
  }

  /** What processReadBuffer does with a buffer: the frames it hands to
      handleMessage, the frames it drops for a bad checksum, and what remains. */
  datatype Outcome = Outcome(handled: seq<seq<byte>>, rejected: seq<seq<byte>>, rest: seq<byte>)

  /** A frame taken off ahead of the outcome r of the rest of the buffer. */
  function Emit(f: seq<byte>, ok: bool, r: Outcome): Outcome
  {
    if ok then Outcome([f] + r.handled, r.rejected, r.rest)
    else Outcome(r.handled, [f] + r.rejected, r.rest)
  }

  function Hunt(buf: seq<byte>): Outcome
    decreases |buf|
  {
    match Next(buf)
    case Stop => Outcome([], [], buf)
    case Skip => Hunt(buf[1..])
    case Take(n, ok) => Emit(buf[..n], ok, Hunt(buf[n..]))
  }

  /** A suffix of buf. */
  predicate IsSuffix(r: seq<byte>, buf: seq<byte>)
  {
    |r| <= |buf| && buf[|buf| - |r|..] == r
  }

  lemma SuffixOfDrop(r: seq<byte>, buf: seq<byte>, k: nat)
    requires k <= |buf| && IsSuffix(r, buf[k..])
    ensures IsSuffix(r, buf)
  {
    assert buf[k..][|buf| - k - |r|..] == buf[|buf| - |r|..];
  }

  /** What remains after processReadBuffer is a suffix of the buffer on which the
      loop must stop. */
  lemma {:induction false} HuntRest(buf: seq<byte>)
    ensures Waiting(Hunt(buf).rest) && IsSuffix(Hunt(buf).rest, buf)
    decreases |buf|
  {
    match Next(buf)
    case Stop =>
    case Skip =>
      HuntRest(buf[1..]);
      SuffixOfDrop(Hunt(buf[1..]).rest, buf, 1);
    case Take(n, ok) =>
      HuntRest(buf[n..]);
      SuffixOfDrop(Hunt(buf[n..]).rest, buf, n);
  }

  /** A frame the loop takes off starts with the sync word, is as long as its
      header says, and is handed on exactly when its checksum matches. */
  lemma TakenFrame(buf: seq<byte>)
    requires Next(buf).Take?
    ensures SyncedFrame(buf[..Next(buf).n])
    ensures Next(buf).ok == ChecksumMatches(buf[..Next(buf).n])
  {
    var f := buf[..Next(buf).n];
    assert f[..4] == buf[..4] && f[6] == buf[6] && f[7] == buf[7];
  }

  /** Every frame handed to handleMessage is synced and its checksum matches. */
  lemma {:induction false} HuntHandled(buf: seq<byte>)
    ensures forall k :: 0 <= k < |Hunt(buf).handled| ==>
      SyncedFrame(Hunt(buf).handled[k]) && ChecksumMatches(Hunt(buf).handled[k])
    decreases |buf|
  {
    match Next(buf)
    case Stop =>
    case Skip =>
      HuntHandled(buf[1..]);
    case Take(n, ok) =>
      HuntHandled(buf[n..]);
      TakenFrame(buf);
  }

  /** Every frame dropped with a warning is synced and its checksum does not match. */
  lemma {:induction false} HuntRejected(buf: seq<byte>)
    ensures forall k :: 0 <= k < |Hunt(buf).rejected| ==>
      SyncedFrame(Hunt(buf).rejected[k]) && !ChecksumMatches(Hunt(buf).rejected[k])
    decreases |buf|
  {
    match Next(buf)
    case Stop =>
    case Skip =>
      HuntRejected(buf[1..]);
    case Take(n, ok) =>
      HuntRejected(buf[n..]);
      TakenFrame(buf);
  }

  /** Once the loop would not stop on x, appending bytes does not change its step. */
  lemma NextExtend(x: seq<byte>, y: seq<byte>)
    requires !Next(x).Stop?
    ensures Next(x + y) == Next(x)
  {
    var xy := x + y;
    assert xy[..4] == x[..4];
    if AtSync(x) {
      assert xy[6] == x[6] && xy[7] == x[7];
      assert xy[..MessageLength(x)] == x[..MessageLength(x)];
    }
  }

  lemma HuntWaiting(buf: seq<byte>)
    requires Waiting(buf)
    ensures Hunt(buf) == Outcome([], [], buf)
  {
  }

  /** A synced frame at the front of the buffer is dealt with first, whatever
      follows it. */
  lemma HuntSyncedFrame(f: seq<byte>, rest: seq<byte>)
    requires SyncedFrame(f)
    ensures Hunt(f + rest) == Emit(f, ChecksumMatches(f), Hunt(rest))
  {
    var buf := f + rest;
    assert buf[..4] == f[..4] && buf[6] == f[6] && buf[7] == f[7];
    assert buf[..|f|] == f && buf[|f|..] == rest;
    assert Next(buf) == Take(|f|, ChecksumMatches(f));
    HuntTake(buf);
  }

  /** How the bytes arrive in chunks does not matter: processing x and then y
      handles and rejects the frames of x + y and keeps the same bytes. */
  lemma {:induction false} HuntChunks(x: seq<byte>, y: seq<byte>)
    ensures var hx := Hunt(x);
      var hy := Hunt(hx.rest + y);
      && hx.handled + hy.handled == Hunt(x + y).handled
      && hx.rejected + hy.rejected == Hunt(x + y).rejected
      && hy.rest == Hunt(x + y).rest
    decreases |x|
  {
    match Next(x)
    case Stop =>
      HuntWaiting(x);
    case Skip =>
      NextExtend(x, y);
      assert (x + y)[1..] == x[1..] + y;
      HuntSkip(x);
      HuntSkip(x + y);
      HuntChunks(x[1..], y);
    case Take(n, ok) =>
      NextExtend(x, y);
      assert (x + y)[..n] == x[..n] && (x + y)[n..] == x[n..] + y;
      HuntTake(x);
      HuntTake(x + y);
      HuntChunks(x[n..], y);
      EmitAppend(x[..n], ok, Hunt(x[n..]), Hunt(Hunt(x[n..]).rest + y));
  }

  lemma HuntSkip(buf: seq<byte>)
    requires Next(buf).Skip?
    ensures Hunt(buf) == Hunt(buf[1..])
  {
  }

  lemma HuntTake(buf: seq<byte>)
    requires Next(buf).Take?
    ensures Hunt(buf) == Emit(buf[..Next(buf).n], Next(buf).ok, Hunt(buf[Next(buf).n..]))
  {
  }

  /** Emitting a frame ahead of r and then appending r2 is emitting it ahead of both. */
  lemma EmitAppend(f: seq<byte>, ok: bool, r: Outcome, r2: Outcome)
    ensures Emit(f, ok, r).handled + r2.handled
            == Emit(f, ok, Outcome(r.handled + r2.handled, r.rejected + r2.rejected, r2.rest)).handled
    ensures Emit(f, ok, r).rejected + r2.rejected
            == Emit(f, ok, Outcome(r.handled + r2.handled, r.rejected + r2.rejected, r2.rest)).rejected
  {
    if ok {
      assert [f] + r.handled + r2.handled == [f] + (r.handled + r2.handled);
    } else {
      assert [f] + r.rejected + r2.rejected == [f] + (r.rejected + r2.rejected);
    }
  }

  /** The loop's byte-by-byte sync test: any of the four bytes differing means the
      first byte is dropped. */
  lemma NoSyncSkips(buf: seq<byte>)
    requires |buf| >= 4
    requires buf[0] != 0xBE || buf[1] != 0xBA || buf[2] != 0xAD || buf[3] != 0xDE
    ensures Next(buf).Skip?
  {
    assert buf[..4][0] == buf[0] && buf[..4][1] == buf[1] && buf[..4][2] == buf[2] && buf[..4][3] == buf[3];
    assert !AtSync(buf);
  }

  /** parseHeader over the first eight bytes gives the body size at bytes 6-7. */
  lemma HeaderField(buf: seq<byte>)
    requires |buf| >= 8
    ensures SyncBuilders.ParseHeader(buf[..8]).value.2 == ReadLe16(buf, 6)
  {
    assert buf[..8][6] == buf[6] && buf[..8][7] == buf[7];
  }

  /** The comparison processReadBuffer makes on a complete frame, parseFooter
      against calculateChecksum, is the step's checksum verdict. */
  lemma FrameCheck(buf: seq<byte>)
    requires AtSync(buf) && |buf| >= 8 && |buf| >= MessageLength(buf)
    ensures var n := MessageLength(buf);
      && Next(buf) == Take(n, ChecksumMatches(buf[..n]))
      && (ChecksumMatches(buf[..n])
          <==> SyncBuilders.ParseFooter(buf[n - 2..n]).value == Checksum16(buf[..n - 2], n - 2))
  {
    var n := MessageLength(buf);
    var f := buf[..n];
    assert f[n - 2] == buf[n - 2] && f[n - 1] == buf[n - 1];
    assert f[..n - 2] == buf[..n - 2] && buf[..n - 2][..n - 2] == buf[..n - 2];
    assert Checksum16(f, n - 2) == Checksum16(buf[..n - 2], n - 2);
    assert SyncBuilders.ParseFooter(buf[n - 2..n]).value == ReadLe16(f, n - 2) by {
      Le16ReadLe16(buf[n - 2..n], 0);
    }
  }

  /** Recording an emitted frame keeps the running totals. */
  lemma EmitRecord(handled: seq<seq<byte>>, rejected: seq<seq<byte>>, f: seq<byte>, ok: bool, r: Outcome)
    ensures ok ==> handled + Emit(f, ok, r).handled == (handled + [f]) + r.handled
    ensures ok ==> rejected + Emit(f, ok, r).rejected == rejected + r.rejected
    ensures !ok ==> rejected + Emit(f, ok, r).rejected == (rejected + [f]) + r.rejected
    ensures !ok ==> handled + Emit(f, ok, r).handled == handled + r.handled
    ensures Emit(f, ok, r).rest == r.rest
  {
    if ok {
      assert handled + ([f] + r.handled) == (handled + [f]) + r.handled;
    } else {
      assert rejected + ([f] + r.rejected) == (rejected + [f]) + r.rejected;
    }
  }

  /** One pass of processReadBuffer's loop over a buffer of at least 4 bytes,
      up to its decision: compare the first four bytes with the sync word, then
      parse the header, and once the whole frame is there compare parseFooter with
      calculateChecksum over the sync word, header and body. */
  method ExamineFront(buf: seq<byte>) returns (step: Step)
    requires |buf| >= 4
    ensures step == Next(buf)
  {
    if buf[0] != 0xBE || buf[1] != 0xBA || buf[2] != 0xAD || buf[3] != 0xDE {
      NoSyncSkips(buf);
      return Skip;
    }
    assert AtSync(buf) by {
      assert buf[..4] == [buf[0], buf[1], buf[2], buf[3]];
    }
    if |buf| < SyncMessages.HEADER_SIZE {
      return Stop;
    }
    var header := SyncBuilders.ParseHeader(buf[..SyncMessages.HEADER_SIZE]).value;
    HeaderField(buf);
    var totalMsgLen := SyncMessages.HEADER_SIZE + header.2 + SyncMessages.FOOTER_SIZE;
    if |buf| < totalMsgLen {
      return Stop;
    }
    var footer := SyncBuilders.ParseFooter(buf[8 + header.2..totalMsgLen]).value;
    var calculated := CalculateChecksum(Uint8Array(buf[..8 + header.2]), Number(8 + header.2));
    FrameCheck(buf);
    return Take(totalMsgLen, footer == calculated.value);
  }

  // --- The receive buffer --------------------------------------------------------

  /** The page's readBuffer, with the frames passed to handleMessage and the
      frames dropped with a checksum warning. */
  class SyncReceiver {
    var readBuffer: seq<byte>
    var handled: seq<seq<byte>>
    var rejected: seq<seq<byte>>

    constructor()
      ensures readBuffer == [] && handled == [] && rejected == []
    {
      readBuffer := [];
      handled := [];
      rejected := [];
    }

    /** readLoop, for one chunk read from the port: push it, then process. */
    method Receive(value: seq<byte>)
      modifies this
      ensures handled == old(handled) + Hunt(old(readBuffer) + value).handled
      ensures rejected == old(rejected) + Hunt(old(readBuffer) + value).rejected
      ensures readBuffer == Hunt(old(readBuffer) + value).rest
    {
      readBuffer := readBuffer + value;
      ProcessReadBuffer();
    }

    /** processReadBuffer: while at least 4 bytes are buffered, look at the front
        of the buffer (ExamineFront), then drop a byte, stop, or splice off the
        frame, handing it to handleMessage when its checksum matched. */
    method ProcessReadBuffer()
      modifies this
      ensures handled == old(handled) + Hunt(old(readBuffer)).handled
      ensures rejected == old(rejected) + Hunt(old(readBuffer)).rejected
      ensures readBuffer == Hunt(old(readBuffer)).rest
    {
      ghost var goal := Hunt(readBuffer);
      ghost var handledBefore := handled;
      ghost var rejectedBefore := rejected;
      while |readBuffer| >= 4
        invariant handledBefore + goal.handled == handled + Hunt(readBuffer).handled
        invariant rejectedBefore + goal.rejected == rejected + Hunt(readBuffer).rejected
        invariant goal.rest == Hunt(readBuffer).rest
        decreases |readBuffer|
      {
        var buf := readBuffer;
        var step := ExamineFront(buf);
        match step
        case Stop =>
          HuntWaiting(buf);
          break;
        case Skip =>
          HuntSkip(buf);
          readBuffer := buf[1..];
        case Take(n, ok) =>
          var frame := buf[..n];
          HuntTake(buf);
          EmitRecord(handled, rejected, frame, ok, Hunt(buf[n..]));
          if ok {
            HandleMessage(frame);
          } else {
            rejected := rejected + [frame];
          }
          readBuffer := buf[n..];
      }
      if |readBuffer| < 4 {
        HuntWaiting(readBuffer);
      }
    }

    /** handleMessage: the frame is recorded; its display is not modelled. */
    method HandleMessage(message: seq<byte>)
      modifies this
      ensures handled == old(handled) + [message]
      ensures readBuffer == old(readBuffer) && rejected == old(rejected)
    {
      handled := handled + [message];
    }
  }

  /** Two chunks received one after the other leave the receiver as one chunk
      holding both would. */
  method ReceiveTwice(x: seq<byte>, y: seq<byte>) returns (r: SyncReceiver)
    ensures fresh(r)
    ensures r.handled == Hunt(x + y).handled && r.rejected == Hunt(x + y).rejected
    ensures r.readBuffer == Hunt(x + y).rest
  {
    r := new SyncReceiver();
    assert [] + x == x;
    r.Receive(x);
    ghost var hx := Hunt(x);
    assert r.handled == hx.handled && r.rejected == hx.rejected && r.readBuffer == hx.rest;
    r.Receive(y);
    HuntChunks(x, y);
  }

  // --- Which encoders the receiver accepts -----------------------------------------

  /** The header the builders write starts with the sync word's wire bytes. */
  lemma HeaderBytesSync(msgId: int, n: int)
    ensures SyncBuilders.HeaderBytes(SyncMessages.SYNC_BYTES, msgId, n) == SYNC_LE + Le16(msgId % U16) + Le16(n % U16)
  {
    assert Le32(SyncMessages.SYNC_BYTES % U32) == SYNC_LE;
  }

  /** A buffer holding exactly one synced frame: it is handled or rejected by its
      checksum and nothing remains. */
  lemma LoneFrame(m: seq<byte>)
    requires SyncedFrame(m)
    ensures Hunt(m) == if ChecksumMatches(m) then Outcome([m], [], []) else Outcome([], [m], [])
  {
    HuntSyncedFrame(m, []);
    assert m + [] == m;
    HuntWaiting([]);
  }

  lemma HeaderSlices(s: seq<byte>, t: seq<byte>, b: seq<byte>)
    requires |s| == 4 && |t| == 2 && |b| == 2
    ensures (s + t + b)[..4] == s && (s + t + b)[6..8] == b
  {
  }

  /** A header starting with the sync word and giving the body's length, the
      body and a two-byte footer form a synced frame, whose checksum matches
      exactly when the footer reads as the 16-bit sum of header and body. */
  lemma FrameLayout(h: seq<byte>, body: seq<byte>, footer: seq<byte>)
    requires |h| == 8 && h[..4] == SYNC_LE && ReadLe16(h, 6) == |body| && |footer| == 2
    ensures SyncedFrame(h + body + footer)
    ensures ChecksumMatches(h + body + footer) <==> ReadLe16(footer, 0) == Sum(h + body) % U16
  {
    var m := h + body + footer;
    assert m[..4] == h[..4];
    assert m[6] == h[6] && m[7] == h[7];
    assert MessageLength(m) == |m|;
    assert m[..|m| - 2] == h + body;
    assert m[|m| - 2] == footer[0] && m[|m| - 1] == footer[1];
  }

  /** The builders' header for a body starts with the sync word and gives the
      body's length. */
  lemma BuiltHeader(msgId: int, n: nat)
    requires n < U16
    ensures var h := SyncBuilders.HeaderBytes(SyncMessages.SYNC_BYTES, msgId, n);
      h[..4] == SYNC_LE && ReadLe16(h, 6) == n
  {
    var h := SyncBuilders.HeaderBytes(SyncMessages.SYNC_BYTES, msgId, n);
    HeaderBytesSync(msgId, n);
    HeaderSlices(SYNC_LE, Le16(msgId % U16), Le16(n % U16));
    assert n % U16 == n;
    ReadLe16At(n, h, 6);
  }

  /** A frame with the builders' header for its body and a given footer is
      synced, and its checksum matches exactly when the footer is the 16-bit sum of
      the sync word, header and body. */
  lemma BuiltLayout(msgId: int, body: seq<byte>, footer: seq<byte>)
    requires |body| < U16 && |footer| == 2
    ensures var h := SyncBuilders.HeaderBytes(SyncMessages.SYNC_BYTES, msgId, |body|);
      && SyncedFrame(h + body + footer)
      && (ChecksumMatches(h + body + footer) <==> ReadLe16(footer, 0) == Sum(h + body) % U16)
  {
    BuiltHeader(msgId, |body|);
    FrameLayout(SyncBuilders.HeaderBytes(SyncMessages.SYNC_BYTES, msgId, |body|), body, footer);
  }

  /** The sync word alone contributes 771 to the sum, so a header never sums to 0. */
  lemma HeaderSum(msgId: int, n: int)
    ensures 771 <= Sum(SyncBuilders.HeaderBytes(SyncMessages.SYNC_BYTES, msgId, n)) <= 771 + 4 * 255
  {
    var h := SyncBuilders.HeaderBytes(SyncMessages.SYNC_BYTES, msgId, n);
    assert h == SYNC_LE + h[4..];
    SumAppend(SYNC_LE, h[4..]);
    assert Sum(SYNC_LE) == 771 by {
      assert SYNC_LE[..3] == [0xBE, 0xBA, 0xAD];
      assert [0xBE, 0xBA, 0xAD][..2] == [0xBE, 0xBA];
      assert [0xBE, 0xBA][..1] == [0xBE];
    }
    SumBound(h[4..]);
  }

  /** The configurator's own builders write a zero footer, so every frame they
      build with a body of up to 200 bytes is dropped by this receiver. */
  lemma BuiltFrameRejected(msgId: int, body: seq<byte>)
    requires 0 <= msgId < U16 && |body| <= 200
    ensures Hunt(SyncBuilders.SyncFrame(msgId, body))
            == Outcome([], [SyncBuilders.SyncFrame(msgId, body)], [])
  {
    var h := SyncBuilders.HeaderBytes(SyncMessages.SYNC_BYTES, msgId, |body|);
    BuiltHeader(msgId, |body|);
    FrameSumBounds(msgId, body);
    FooterRejected(h, body, [0, 0]);
  }

  /** A frame whose footer is the body's sum modulo 0xFFFF, as the host library
      writes it, is dropped when the body has at most 200 bytes. */
  lemma BodySumFrameRejected(msgId: int, body: seq<byte>)
    requires |body| <= 200
    ensures var m := SyncBuilders.HeaderBytes(SyncMessages.SYNC_BYTES, msgId, |body|) + body
                     + Le16(SyncMessages.BodyChecksum(body));
      Hunt(m) == Outcome([], [m], [])
  {
    var h := SyncBuilders.HeaderBytes(SyncMessages.SYNC_BYTES, msgId, |body|);
    var c := SyncMessages.BodyChecksum(body);
    BuiltHeader(msgId, |body|);
    ReadLe16Of(c);
    FrameSumBounds(msgId, body);
    SumBound(body);
    FooterRejected(h, body, Le16(c));
  }

  /** With a body of up to 200 bytes, header and body sum to more than the body
      alone and to less than 2^16. */
  lemma FrameSumBounds(msgId: int, body: seq<byte>)
    requires |body| <= 200
    ensures var h := SyncBuilders.HeaderBytes(SyncMessages.SYNC_BYTES, msgId, |body|);
      771 + Sum(body) <= Sum(h + body) < U16 && Sum(h + body) % U16 == Sum(h + body)
  {
    var h := SyncBuilders.HeaderBytes(SyncMessages.SYNC_BYTES, msgId, |body|);
    HeaderSum(msgId, |body|);
    SumAppend(h, body);
    SumBound(body);
    SumBelow(Sum(h + body));
  }

  lemma SumBelow(s: nat)
    requires s < U16
    ensures s % U16 == s
  {
  }

  /** A synced frame whose footer is not the 16-bit sum of header and body is
      rejected. */
  lemma FooterRejected(h: seq<byte>, body: seq<byte>, footer: seq<byte>)
    requires |h| == 8 && h[..4] == SYNC_LE && ReadLe16(h, 6) == |body|
    requires |footer| == 2 && ReadLe16(footer, 0) != Sum(h + body) % U16
    ensures Hunt(h + body + footer) == Outcome([], [h + body + footer], [])
  {
    FrameLayout(h, body, footer);
    LoneFrame(h + body + footer);
  }

  /** The host library's footer sums the body alone, so every message it sends
      with a body of up to 200 bytes matching its header is dropped too. */
  lemma HostFrameRejected(c: SyncMessages.Codec, msgId: int, v: SyncMessages.Value)
    requires SyncMessages.Serialize(c, msgId, v).Ok?
    requires |SyncMessages.SerializeBody(c, v).value| == SyncMessages.BodySize(c) <= 200
    ensures var m := SyncMessages.Serialize(c, msgId, v).value;
      Hunt(m) == Outcome([], [m], [])
  {
    SyncBuilders.HostFrameLayout(c, msgId, v);
    BodySumFrameRejected(msgId, SyncMessages.SerializeBody(c, v).value);
  }

  /** A frame whose footer is the sum main.js computes is handled. */
  lemma ReceiverChecksumAccepted(msgId: int, body: seq<byte>)
    requires 0 <= msgId < U16 && |body| < U16
    ensures var pre := SyncBuilders.HeaderBytes(SyncMessages.SYNC_BYTES, msgId, |body|) + body;
      var m := pre + Le16(Sum(pre) % U16);
      Hunt(m) == Outcome([m], [], [])
  {
    BuiltHeader(msgId, |body|);
    SummedFrameAccepted(SyncBuilders.HeaderBytes(SyncMessages.SYNC_BYTES, msgId, |body|), body);
  }

  /** Any header carrying the sync word and the body's length, followed by the
      body and the 16-bit sum of both, is handled. */
  lemma SummedFrameAccepted(h: seq<byte>, body: seq<byte>)
    requires |h| == 8 && h[..4] == SYNC_LE && ReadLe16(h, 6) == |body|
    ensures var m := h + body + Le16(Sum(h + body) % U16);
      Hunt(m) == Outcome([m], [], [])
  {
    var v := Sum(h + body) % U16;
    ReadLe16Of(v);
    FooterAccepted(h, body, Le16(v));
  }

  lemma FooterAccepted(h: seq<byte>, body: seq<byte>, footer: seq<byte>)
    requires |h| == 8 && h[..4] == SYNC_LE && ReadLe16(h, 6) == |body|
    requires |footer| == 2 && ReadLe16(footer, 0) == Sum(h + body) % U16
    ensures Hunt(h + body + footer) == Outcome([h + body + footer], [], [])
  {
    FrameLayout(h, body, footer);
    LoneFrame(h + body + footer);
  }

  /** Bytes ahead of the sync word are skipped: noise that holds no 0xBE is
      dropped and the frame after it is dealt with as if it came first. */
  lemma {:induction false} NoiseSkipped(noise: seq<byte>, f: seq<byte>)
    requires SyncedFrame(f)
    requires forall i :: 0 <= i < |noise| ==> noise[i] != 0xBE
    ensures Hunt(noise + f) == Hunt(f)
    decreases |noise|
  {
    if |noise| > 0 {
      var buf := noise + f;
      assert buf[0] == noise[0];
      assert !AtSync(buf);
      assert buf[1..] == noise[1..] + f;
      assert Next(buf).Skip?;
      HuntSkip(buf);
      NoiseSkipped(noise[1..], f);
    } else {
      assert noise + f == f;
    }
  }

  // --- u32ToIp -----------------------------------------------------------------------

  /** u32ToIp: the four bytes of ip, least significant first, joined by dots. */
  function U32ToIp(ip: int): (r: string)
    ensures var w := WebStream.Word(ip);
      var parts := Split(r, '.');
      && |parts| == 4
      && (forall i :: 0 <= i < 4 ==> Canonical(parts[i]))
      && [DecimalValue(parts[0]), DecimalValue(parts[1]), DecimalValue(parts[2]), DecimalValue(parts[3])]
         == w
  {
    var w := WebStream.Word(ip);
    WebStream.DottedValues(w[0], w[1], w[2], w[3]);
    Dotted(w[0], w[1], w[2], w[3])
  }

  /** Read back with the web configurator's stringToIp, which takes the first
      octet as the most significant, the text u32ToIp renders gives the same four
      bytes in the opposite order. */
  lemma U32ToIpByteOrder(ip: int)
    ensures var w := WebStream.Word(ip);
      WebStream.Word(WebStream.StringToIp(U32ToIp(ip))) == [w[3], w[2], w[1], w[0]]
  {
    var w := WebStream.Word(ip);
    WebStream.IpRoundTrip(w[0], w[1], w[2], w[3]);
  }
}
