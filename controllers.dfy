/** Two controllers behind the message processor of MessageProcessor.h: the
    DeviceManager, which answers a version request (DeviceManager.cpp), and
    the receive path of the EncoderController (EncoderController.cpp), whose
    binary dispatch is empty. Both apply the length checks of FrameChecks. */
module Controllers {
  import opened Bytes
  import opened FrameChecks
  import MessagesHpp
  import AxisProtocol
  import MessageRouting

  // --- DeviceManager --------------------------------------------------------------------

  /** The text strcpy writes into the version field. */
  const VERSION_TEXT: string := "AxisDriver V0.0"

  /** A string of 8-bit characters as bytes. */
  function Ascii(s: string): (r: seq<byte>)
    requires forall i :: 0 <= i < |s| ==> s[i] as int < 256
    ensures |r| == |s| && forall i :: 0 <= i < |s| ==> r[i] == s[i] as int
  {
    if |s| == 0 then [] else Ascii(s[..|s| - 1]) + [s[|s| - 1] as int]
  }

  /** The version field after strcpy into the zero-initialised char[32]: the
      text, its terminating NUL and zero padding. */
  function VersionField(): (r: seq<byte>)
    ensures |r| == MessagesHpp.BodySize(MessagesHpp.VersionMessage)
  {
    Ascii(VERSION_TEXT) + Zeros(32 - |VERSION_TEXT|)
  }

  /** The VersionMessage the DeviceManager sends: type versionId, body_size
      sizeof(version) = 32, the version field, checksum 0. */
  function VersionReply(versionId: nat): (r: seq<byte>)
    requires versionId < U16
    ensures |r| == MessagesHpp.FrameSize(MessagesHpp.VersionMessage)
  {
    MessagesHpp.VersionBytes(MessagesHpp.Version(versionId, 32, VersionField(), 0))
  }

  lemma {:induction false} SumAtLeast(s: seq<byte>, i: nat)
    requires i < |s|
    ensures Sum(s) >= s[i]
  {
    if i < |s| - 1 {
      SumAtLeast(s[..|s| - 1], i);
    }
  }

  /** The reply is a 38-byte frame of type versionId whose 32-byte body starts
      with the NUL-terminated text; its checksum field is 0, which is never the
      byte sum of its header and body, so the host's checksum test rejects it. */
  lemma VersionReplyContents(versionId: nat)
    requires versionId < U16
    ensures var r := VersionReply(versionId);
            && |r| == 38
            && ReadLe16(r, 0) == versionId && ReadLe16(r, 2) == 32
            && r[4..4 + |VERSION_TEXT|] == Ascii(VERSION_TEXT) && r[4 + |VERSION_TEXT|] == 0
            && ReadLe16(r, 36) == 0
            && !AxisProtocol.VerifyChecksum(r)
  {
    var r := VersionReply(versionId);
    var h := Le16(versionId) + Le16(32);
    assert r == h + VersionField() + Le16(0);
    assert r[..36] == h + VersionField();
    assert r[4] == 0x41;
    SumAtLeast(r[..36], 4);
    SumBound(r[..36]);
    assert AxisProtocol.CalculateChecksum(r[..36]) == Sum(r[..36]);
  }

  /** The DeviceManager task as an internal interface of the processor. The
      MessageTypes ids GetVersionMessageId and VersionMessageId are parameters. */
  class DeviceManager {
    var processor: MessageRouting.RangeProcessor?
    var log: seq<Diag>
    const getVersionId: nat
    const versionId: nat
    const executionPeriod: nat

    constructor (period: nat, getVersionId: nat, versionId: nat)
      requires versionId < U16
      ensures processor == null && log == []
      ensures this.getVersionId == getVersionId && this.versionId == versionId && executionPeriod == period
    {
      processor := null;
      log := [];
      this.getVersionId := getVersionId;
      this.versionId := versionId;
      executionPeriod := period;
    }

    /** SetProcessorInterface, called when the processor registers this
        controller. */
    method SetProcessorInterface(p: MessageRouting.RangeProcessor)
      modifies this
      ensures processor == p && log == old(log)
    {
      processor := p;
    }

    /** SendMsg hands the bytes unchanged to the processor, which broadcasts
        them. */
    method SendMsg(bytes: seq<byte>, size: nat)
      requires processor != null
      modifies processor
      ensures processor.sent == old(processor.sent) + MessageRouting.Broadcast(processor.externals, bytes, size)
      ensures processor.externals == old(processor.externals) && processor.controllers == old(processor.controllers)
      ensures processor.handled == old(processor.handled)
    {
      processor.SendMsg(bytes, size);
    }

    /** HandleIncomingMsg: after the length checks, a version request is
        answered with the version reply; every other type is ignored. */
    method HandleIncomingMsg(buf: seq<byte>, size: nat)
      requires 4 <= |buf| && size <= |buf|
      requires versionId < U16
      requires Complete(buf, size) && MessageTypeOf(buf) == getVersionId ==> processor != null
      modifies this, processor
      ensures log == old(log) + LengthDiags(buf, size) && processor == old(processor)
      ensures processor != null ==>
        && processor.sent == old(processor.sent)
             + (if Complete(buf, size) && MessageTypeOf(buf) == getVersionId
                then MessageRouting.Broadcast(processor.externals, VersionReply(versionId), 38)
                else [])
        && processor.externals == old(processor.externals) && processor.controllers == old(processor.controllers)
        && processor.handled == old(processor.handled)
    {
      if size < HEADER_SIZE + FOOTER_SIZE {
        log := log + [SizeTooSmall];
      }
      var bodySize := BodySizeOf(buf);
      if size < HEADER_SIZE + bodySize + FOOTER_SIZE {
        log := log + [InvalidBodySize];
        return;
      }
      var messageType := MessageTypeOf(buf);
      if messageType == getVersionId {
        var msg := MessagesHpp.NewVersionMessage();
        msg := msg.(messageType := versionId, bodySize := 32);
        msg := msg.(version := VersionField());
        msg := msg.(checksum := 0);
        SendMsg(MessagesHpp.VersionBytes(msg), 38);
      }
    }
  }

  // --- EncoderController --------------------------------------------------------------

  /** The receive path of the EncoderController task. JSON input is handed to
      HandleJsonMsg, which is not part of this model, and only recorded. */
  class EncoderController {
    var log: seq<Diag>
    var jsonInputs: seq<seq<byte>>

    constructor ()
      ensures log == [] && jsonInputs == []
    {
      log := [];
      jsonInputs := [];
    }

    /** HandleByteMsg: the length checks, and nothing after them. */
    method HandleByteMsg(buf: seq<byte>, size: nat)
      requires 4 <= |buf|
      modifies this
      ensures log == old(log) + LengthDiags(buf, size) && jsonInputs == old(jsonInputs)
    {
      if size < HEADER_SIZE + FOOTER_SIZE {
        log := log + [SizeTooSmall];
      }
      var bodySize := BodySizeOf(buf);
      if size < HEADER_SIZE + bodySize + FOOTER_SIZE {
        log := log + [InvalidBodySize];
        return;
      }
    }

    /** HandleIncomingMsg: empty input is dropped, input starting with '{'
        goes to the JSON handler, anything else to HandleByteMsg. */
    method HandleIncomingMsg(buf: seq<byte>, size: nat)
      requires 4 <= |buf| && size <= |buf|
      modifies this
      ensures size == 0 ==> log == old(log) && jsonInputs == old(jsonInputs)
      ensures size > 0 && buf[0] == MessageRouting.OPEN_BRACE ==>
                log == old(log) && jsonInputs == old(jsonInputs) + [buf[..size]]
      ensures size > 0 && buf[0] != MessageRouting.OPEN_BRACE ==>
                log == old(log) + LengthDiags(buf, size) && jsonInputs == old(jsonInputs)
    {
      if size == 0 {
        return;
      }
      if buf[0] == MessageRouting.OPEN_BRACE {
        jsonInputs := jsonInputs + [buf[..size]];
      } else {
        HandleByteMsg(buf, size);
      }
    }
  }
}
