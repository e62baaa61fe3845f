/** The request/response rules of the UDP position-control test
    (UDPPositionControlTest.py): bounded retries that accept an ACK by its type
    and status byte, queries that accept any long-enough frame whose checksum
    verifies, the version probe that opens the connection, and the pass/fail
    bookkeeping of the test suite. The network is a script of replies. */
module RetryTest {
  import opened Wrappers
  import opened Bytes
  import opened Transport
  import AxisCatalog
  import AxisProtocol

  const MAX_RETRIES: int := 3
  const ACK_TYPE: nat := 0x0100

  // --- _send_command_with_ack --------------------------------------------------------

  /** A reply the ACK check accepts: at least 7 bytes, type 0x0100 little-endian,
      and byte 6 (the status) zero. Neither the checksum nor the acknowledged type
      in bytes 4-5 is looked at. */
  predicate IsAck(r: Reply)
  {
    r.Data? && |r.bytes| >= 7 && ReadLe16(r.bytes, 0) == ACK_TYPE && r.bytes[6] == 0
  }

  /** _send_command_with_ack: send the command up to `retries` times and return
      True at the first accepted ACK; a NACK, another type, a short reply, a
      timeout or an exception each use up one attempt. */
  method SendCommandWithAck(axis: Link, message: seq<byte>, retries: int) returns (acked: bool)
    modifies axis
    ensures acked <==> exists i :: 0 <= i < retries && IsAck(At(old(axis.replies), i))
    ensures acked ==> exists k :: 0 <= k < retries && IsAck(At(old(axis.replies), k))
                        && (forall j :: 0 <= j < k ==> !IsAck(At(old(axis.replies), j)))
                        && axis.sent == old(axis.sent) + Repeat(message, k + 1)
                        && axis.replies == Drop(old(axis.replies), k + 1)
    ensures !acked ==> axis.sent == old(axis.sent) + Repeat(message, Max0(retries))
                       && axis.replies == Drop(old(axis.replies), Max0(retries))
  {
    ghost var script := axis.replies;
    var attempt := 0;
    while attempt < retries
      invariant 0 <= attempt <= Max0(retries)
      invariant forall j :: 0 <= j < attempt ==> !IsAck(At(script, j))
      invariant axis.sent == old(axis.sent) + Repeat(message, attempt)
      invariant axis.replies == Drop(script, attempt)
    {
      var reply := axis.Exchange(message);
      assert reply == At(script, attempt);
      if IsAck(reply) {
        return true;
      }
      attempt := attempt + 1;
    }
    return false;
  }

  // --- _send_query_command -----------------------------------------------------------

  /** A reply the query accepts: non-empty, at least expectedLength bytes, and
      verify_checksum holds. The message type is not checked. */
  predicate Accepts(r: Reply, expectedLength: int)
  {
    r.Data? && |r.bytes| > 0 && |r.bytes| >= expectedLength && AxisProtocol.VerifyChecksum(r.bytes)
  }

  /** _send_query_command: the first accepted reply within `retries` attempts,
      None when there is none. */
  method SendQueryCommand(axis: Link, message: seq<byte>, expectedLength: int, retries: int)
    returns (response: Option<seq<byte>>)
    modifies axis
    ensures response.Some? <==> exists i :: 0 <= i < retries && Accepts(At(old(axis.replies), i), expectedLength)
    ensures response.Some? ==> exists k :: 0 <= k < retries && At(old(axis.replies), k) == Data(response.value)
                                 && Accepts(At(old(axis.replies), k), expectedLength)
                                 && (forall j :: 0 <= j < k ==> !Accepts(At(old(axis.replies), j), expectedLength))
                                 && axis.sent == old(axis.sent) + Repeat(message, k + 1)
    ensures response.None? ==> axis.sent == old(axis.sent) + Repeat(message, Max0(retries))
  {
    ghost var script := axis.replies;
    var attempt := 0;
    while attempt < retries
      invariant 0 <= attempt <= Max0(retries)
      invariant forall j :: 0 <= j < attempt ==> !Accepts(At(script, j), expectedLength)
      invariant axis.sent == old(axis.sent) + Repeat(message, attempt)
      invariant axis.replies == Drop(script, attempt)
    {
      var reply := axis.Exchange(message);
      assert reply == At(script, attempt);
      if Accepts(reply, expectedLength) {
        return Some(reply.bytes);
      }
      attempt := attempt + 1;
    }
    return None;
  }

  // --- _verify_connection -------------------------------------------------------------

  /** The reply the version probe accepts: any data of at least 10 bytes. */
  predicate Connects(r: Reply)
  {
    r.Data? && |r.bytes| >= 10
  }

  /** _verify_connection: send GetVersionMessage once and accept any reply of at
      least 10 bytes; its type and checksum are not checked. */
  method VerifyConnection(axis: Link) returns (ok: bool)
    modifies axis
    ensures ok <==> Connects(At(old(axis.replies), 0))
    ensures axis.sent == old(axis.sent) + [AxisProtocol.RequestMessage(AxisCatalog.GetVersion).value]
    ensures axis.replies == Drop(old(axis.replies), 1)
  {
    var versionMsg := AxisProtocol.RequestMessage(AxisCatalog.GetVersion).value;
    var response := axis.Exchange(versionMsg);
    ok := Connects(response);
  }

  // --- Test bookkeeping --------------------------------------------------------------

  /** How a test function ended: with a truthy or falsy result, or by raising. */
  datatype TestOutcome = Returned(passed: bool) | Threw

  /** Test i stops the suite: it did not pass and the operator declined to go on. */
  predicate Stops(outcomes: seq<TestOutcome>, keepGoing: seq<bool>, i: nat)
    requires i < |outcomes| && i < |keepGoing|
  {
    outcomes[i] != Returned(true) && !keepGoing[i]
  }

  /** The number of tests run from test i on: up to and including the first
      that stops the suite, otherwise all of them. */
  function Ran(outcomes: seq<TestOutcome>, keepGoing: seq<bool>, i: nat): (n: nat)
    requires |outcomes| == |keepGoing| && i <= |outcomes|
    ensures i <= n <= |outcomes|
    decreases |outcomes| - i
  {
    if i == |outcomes| then i
    else if Stops(outcomes, keepGoing, i) then i + 1
    else Ran(outcomes, keepGoing, i + 1)
  }

  /** The number of passing outcomes. */
  function Passes(outcomes: seq<TestOutcome>): (n: nat)
    ensures n <= |outcomes|
  {
    if |outcomes| == 0 then 0
    else Passes(outcomes[..|outcomes| - 1]) + (if outcomes[|outcomes| - 1] == Returned(true) then 1 else 0)
  }

  /** A suite passes only if every test passed. */
  lemma {:induction false} PassesAll(outcomes: seq<TestOutcome>)
    ensures Passes(outcomes) == |outcomes| <==> forall i :: 0 <= i < |outcomes| ==> outcomes[i] == Returned(true)
  {
    if |outcomes| > 0 {
      var init := outcomes[..|outcomes| - 1];
      PassesAll(init);
      assert forall i :: 0 <= i < |init| ==> init[i] == outcomes[i];
    }
  }

  class PositionControlTest {
    var testCount: nat
    var passedCount: nat

    /** The counters never claim more passes than tests run. */
    predicate Valid()
      reads this
    {
      passedCount <= testCount
    }

    constructor()
      ensures testCount == 0 && passedCount == 0 && Valid()
    {
      testCount := 0;
      passedCount := 0;
    }

    /** _run_test: count the test, count a pass only for a truthy result, and
      turn an exception into False. */
    method RunTest(outcome: TestOutcome) returns (result: bool)
      requires Valid()
      modifies this
      ensures Valid()
      ensures result <==> outcome == Returned(true)
      ensures testCount == old(testCount) + 1
      ensures passedCount == old(passedCount) + (if result then 1 else 0)
    {
      testCount := testCount + 1;
      match outcome
      case Threw =>
        result := false;
      case Returned(passed) =>
        if passed {
          passedCount := passedCount + 1;
        }
        result := passed;
    }

    /** run_all_tests: connect, then run the tests in order; after a failure the
      operator's answer decides whether to go on. True iff the connection was
      made, no test failed, and the counters agree. */
    method RunAllTests(axis: Link, outcomes: seq<TestOutcome>, keepGoing: seq<bool>) returns (ok: bool)
      requires Valid() && |outcomes| == |keepGoing|
      modifies this, axis
      ensures Valid()
      ensures ok <==> Connects(At(old(axis.replies), 0))
                      && (forall i :: 0 <= i < |outcomes| ==> outcomes[i] == Returned(true))
                      && old(passedCount) == old(testCount)
      ensures !Connects(At(old(axis.replies), 0)) ==>
                testCount == old(testCount) && passedCount == old(passedCount)
      ensures Connects(At(old(axis.replies), 0)) ==>
                var n := Ran(outcomes, keepGoing, 0);
                testCount == old(testCount) + n && passedCount == old(passedCount) + Passes(outcomes[..n])
    {
      var connected := VerifyConnection(axis);
      if !connected {
        return false;
      }
      var allPassed := true;
      var i := 0;
      while i < |outcomes|
        invariant 0 <= i <= |outcomes|
        invariant Valid()
        invariant forall j :: 0 <= j < i ==> !Stops(outcomes, keepGoing, j)
        invariant Ran(outcomes, keepGoing, i) == Ran(outcomes, keepGoing, 0)
        invariant testCount == old(testCount) + i
        invariant passedCount == old(passedCount) + Passes(outcomes[..i])
        invariant allPassed <==> forall j :: 0 <= j < i ==> outcomes[j] == Returned(true)
      {
        var result := RunTest(outcomes[i]);
        assert outcomes[..i + 1][..i] == outcomes[..i];
        if !result {
          allPassed := false;
          if !keepGoing[i] {
            i := i + 1;
            break;
          }
        }
        i := i + 1;
      }
      ok := allPassed && passedCount == testCount;
      PassesAll(outcomes[..i]);
      assert outcomes[..|outcomes|] == outcomes;
    }
  }

  // --- What the checks let through ---------------------------------------------------

  /** Every ACK frame with status SUCCESS is accepted, whichever command it
      acknowledges. */
  lemma AnySuccessAckAccepted(ackType: nat)
    requires ackType < U16
    ensures IsAck(Data(AxisProtocol.AckMessage(ackType, AxisCatalog.Success).value))
  {
    var m := AxisProtocol.AckMessage(ackType, AxisCatalog.Success).value;
    assert m[4..7] == Le16(ackType) + [AxisCatalog.StatusCode.Success.Code()];
    assert m[6] == (Le16(ackType) + [0])[2];
  }

  /** A 7-byte reply whose checksum does not verify is still accepted as an ACK. */
  lemma CorruptAckAccepted()
    ensures var r := [0x00, 0x01, 0x03, 0x00, 0xEE, 0xEE, 0x00];
      IsAck(Data(r)) && !AxisProtocol.VerifyChecksum(r)
  {
    var r: seq<byte> := [0x00, 0x01, 0x03, 0x00, 0xEE, 0xEE, 0x00];
    assert r[..5] == [0x00, 0x01, 0x03, 0x00, 0xEE];
    var p := r[..5];
    assert p == [0x00, 0x01, 0x03, 0x00, 0xEE];
    assert Sum(p[..1]) == 0 by { assert p[..1][..0] == []; }
    assert Sum(p[..2]) == 1 by { assert p[..2][..1] == p[..1]; }
    assert Sum(p[..3]) == 4 by { assert p[..3][..2] == p[..2]; }
    assert Sum(p[..4]) == 4 by { assert p[..4][..3] == p[..3]; }
    assert Sum(p) == 0xF2 by { assert p[..4] == p[..|p| - 1]; }
  }

  /** A query accepts a well-formed frame of any type once it is long enough. */
  lemma QueryIgnoresType(msgType: nat, body: seq<byte>, expectedLength: int)
    requires msgType < U16 && |body| < U16 && expectedLength <= |body| + 6
    ensures Accepts(Data(AxisProtocol.CreateMessage(msgType, body).value), expectedLength)
  {
  }
}
