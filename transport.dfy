/** The host's view of a connection to a board: frames go out, and each
    send-and-wait takes the next reply from a script, so that timeouts and
    exceptions of the socket or serial port are values of the model. */
module Transport {
  import opened Bytes

  /** What one send-and-wait yields once the frame has gone out: the bytes
      wait_message returned, its None on a timeout, or an exception raised by the
      wait (such as the TypeError of a keyword it does not take). */
  datatype Reply = Timeout | Raised | Data(bytes: seq<byte>)

  /** The i-th scripted reply; every wait past the end of the script times out. */
  function At(rs: seq<Reply>, i: nat): Reply
  {
    if i < |rs| then rs[i] else Timeout
  }

  /** The script once n exchanges have consumed their replies. */
  function Drop(rs: seq<Reply>, n: nat): (r: seq<Reply>)
    ensures forall i: nat :: At(r, i) == At(rs, n + i)
  {
    if n <= |rs| then rs[n..] else []
  }

  /** Consuming a replies and then b more consumes a + b. */
  lemma DropDrop(rs: seq<Reply>, a: nat, b: nat)
    ensures Drop(Drop(rs, a), b) == Drop(rs, a + b)
  {
    if a + b <= |rs| {
      assert rs[a..][b..] == rs[a + b..];
    }
  }

  /** n copies of the frame m, as the record of n identical sends. */
  function Repeat(m: seq<byte>, n: nat): (r: seq<seq<byte>>)
    ensures |r| == n && forall i :: 0 <= i < n ==> r[i] == m
  {
    if n == 0 then [] else Repeat(m, n - 1) + [m]
  }

  function Max0(n: int): nat { if n < 0 then 0 else n }

  /** A connection to one board (AxisUDP or AxisSerial): the frames sent so far
      and the replies still to come. */
  class Link {
    var sent: seq<seq<byte>>
    var replies: seq<Reply>

    constructor(replies: seq<Reply>)
      ensures this.sent == [] && this.replies == replies
    {
      this.sent := [];
      this.replies := replies;
    }

    /** send_message(m) followed by wait_message; the send always succeeds. */
    method Exchange(m: seq<byte>) returns (r: Reply)
      modifies this
      ensures sent == old(sent) + [m]
      ensures r == At(old(replies), 0) && replies == Drop(old(replies), 1)
    {
      sent := sent + [m];
      if replies == [] {
        r := Timeout;
      } else {
        r := replies[0];
        replies := replies[1..];
      }
    }
  }

  /** A reply Python treats as true: bytes, and not empty. */
  predicate Truthy(r: Reply)
  {
    r.Data? && |r.bytes| > 0
  }
}
