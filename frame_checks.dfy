/** The checks the firmware's message handlers (DeviceManager.cpp,
    EncoderController.cpp, LedController.cpp) make before reading a binary
    frame: the header is read straight out of the receive buffer, a frame
    shorter than header and footer is only reported, and a frame shorter than
    header + body_size + footer is rejected. */
module FrameChecks {
  import opened Bytes
  import MessagesHpp
  import AxisProtocol

  /** The diagnostic lines the handlers print on the serial console. */
  datatype Diag =
    | SizeTooSmall             // "Size too small"
    | InvalidBodySize          // "Invalid body size: ..."
    | SetLedBodySizeIncorrect  // "SetLed body size incorrect"
    | ProcessorMissing         // "processor_interface is null"

  const HEADER_SIZE: nat := MessagesHpp.HEADER_SIZE
  const FOOTER_SIZE: nat := MessagesHpp.FOOTER_SIZE

  /** header->message_type, read from the first two bytes of the buffer. */
  function MessageTypeOf(buf: seq<byte>): (r: nat)
    requires |buf| >= 2
    ensures r < U16
  {
    ReadLe16(buf, 0)
  }

  /** header->body_size, read from bytes 2 and 3 of the buffer. */
  function BodySizeOf(buf: seq<byte>): (r: nat)
    requires |buf| >= 4
    ensures r < U16
  {
    ReadLe16(buf, 2)
  }

  /** The second check: the received size covers header, body and footer. */
  predicate Complete(buf: seq<byte>, size: nat)
    requires |buf| >= 4
  {
    size >= HEADER_SIZE + BodySizeOf(buf) + FOOTER_SIZE
  }

  /** What the two checks print, in order, for a frame of the given size. */
  function LengthDiags(buf: seq<byte>, size: nat): (r: seq<Diag>)
    requires |buf| >= 4
    ensures |r| <= 2
    ensures Complete(buf, size) ==> r == []
    ensures !Complete(buf, size) ==> |r| > 0 && r[|r| - 1] == InvalidBodySize
  {
    (if size < HEADER_SIZE + FOOTER_SIZE then [SizeTooSmall] else [])
    + (if Complete(buf, size) then [] else [InvalidBodySize])
  }

  /** The first check only prints, but a frame it flags never passes the
      second: every too-short frame is rejected, after both messages. */
  lemma ShortFrameRejected(buf: seq<byte>, size: nat)
    requires |buf| >= 4 && size < HEADER_SIZE + FOOTER_SIZE
    ensures !Complete(buf, size)
    ensures LengthDiags(buf, size) == [SizeTooSmall, InvalidBodySize]
  {
  }

  /** A frame built by the host's create_message and delivered whole passes
      the check, and the firmware reads back the type and body size the host
      wrote. */
  lemma HostFrameComplete(msgType: int, body: seq<byte>)
    requires AxisProtocol.CreateMessage(msgType, body).Ok?
    ensures var m := AxisProtocol.CreateMessage(msgType, body).value;
            && Complete(m, |m|) && LengthDiags(m, |m|) == []
            && MessageTypeOf(m) == msgType && BodySizeOf(m) == |body|
  {
  }

  /** A frame whose declared body is longer than what arrived is rejected even
      though its header is intact. */
  lemma TruncatedHostFrameRejected(msgType: int, body: seq<byte>, size: nat)
    requires AxisProtocol.CreateMessage(msgType, body).Ok?
    requires size < |AxisProtocol.CreateMessage(msgType, body).value|
    ensures var m := AxisProtocol.CreateMessage(msgType, body).value;
            !Complete(m, size) && InvalidBodySize in LengthDiags(m, size)
  {
  }
}
