/** Heka framing: marshalFrame over a recycled buffer, the Protobuf emitter that
    drives it, and the reader that splits a stream of frames. */
module HekaFrame {
  import opened Prelude
  import opened Varint
  import opened LogRecords
  import LogReader
  import LogWriter
  import LogRoundTrip

  const MAX_MESSAGE_SIZE: nat := 65536
  const MAX_HEADER_SIZE: nat := 255
  const HEADER_DELIMITER_SIZE: nat := 2
  const HEADER_FRAMING_SIZE: nat := HEADER_DELIMITER_SIZE + 1
  const RECORD_SEPARATOR: byte := 0x1e
  const UNIT_SEPARATOR: byte := 0x1f

  // Buffers with a larger capacity are not kept for reuse.
  const MAX_POOLED_CAPACITY: nat := 1024

  /** The header of an emitted frame carries the message length and nothing else. */
  function LengthHeader(n: uint32): Header {
    EmptyHeader.(messageLength := Some(n))
  }

  /** The bytes of one frame: separator, header length, header, separator, message. */
  function Frame(body: bytes): bytes
    requires |body| <= MAX_MESSAGE_SIZE
  {
    FrameHead(|body|) + body
  }

  function FrameHead(n: nat): bytes
    requires n <= MAX_MESSAGE_SIZE
  {
    HeaderLengths(n);
    var header := HeaderBytes(LengthHeader(n));
    [RECORD_SEPARATOR, |header|] + header + [UNIT_SEPARATOR]
  }

  /** The header of every frame is two to four bytes, far below the limit that
      marshalFrame guards. */
  lemma HeaderLengths(n: nat)
    requires n <= MAX_MESSAGE_SIZE
    ensures 2 <= |HeaderBytes(LengthHeader(n))| <= 4 < MAX_HEADER_SIZE
  {
    assert HeaderBytes(LengthHeader(n)) == TagVarint(0x08, n);
    Pow2Group(0); Pow2Group(7); Pow2Group(14);
    VarintLength(n, 3);
  }

  /** The layout of a frame in literal bytes: 1e, the header's length, the header (08 and
      the message length as a varint), 1f, and the message. */
  lemma FrameLayout(body: bytes)
    requires |body| <= 65536
    ensures |body| <= MAX_MESSAGE_SIZE
    ensures var n := |VarintBytes(|body|)|;
            && 1 <= n <= 3
            && Frame(body)[0] == 0x1e
            && Frame(body)[1] == 1 + n
            && Frame(body)[2] == 0x08
            && Frame(body)[3..3 + n] == VarintBytes(|body|)
            && Frame(body)[3 + n] == 0x1f
            && Frame(body)[4 + n..] == body
  {
    hide VarintBytes;
    HeaderLengths(|body|);
    assert HeaderBytes(LengthHeader(|body|)) == TagVarint(0x08, |body|);
    var v := VarintBytes(|body|);
    assert Frame(body) == [0x1e, 1 + |v|, 0x08] + v + [0x1f] + body;
  }

  datatype FrameResult = Sent(frame: bytes) | MessageTooLarge | HeaderTooLarge

  /** A recycled encoder: a header, a message and a buffer. The slice outBytes of
      the original is the first `used` bytes of `out`, whose length is its capacity. */
  class HekaMessage {
    var header: Header
    var msg: Message
    var out: array<byte>
    var used: nat

    // The header has nothing set besides its length.
    ghost predicate LengthOnly()
      reads this
    {
      header == EmptyHeader.(messageLength := header.messageLength)
    }

    // What the pool hands out: no leftover fields, no unrecognized bytes, which nothing
    // ever sets, and a header that was never given anything but a length. Everything
    // else may be stale.
    ghost predicate Clean()
      reads this
    {
      msg.fields == [] && msg.unrecognized == [] && LengthOnly()
    }

    constructor ()
      ensures Clean() && fresh(out)
    {
      header, msg := EmptyHeader, EmptyMessage;
      out, used := new byte[0], 0;
    }

    method MarshalFrame() returns (r: FrameResult)
      requires LengthOnly() && |MessageBytes(msg)| <= MAX_INT
      modifies this, out
      ensures msg == old(msg) && LengthOnly()
      ensures out == old(out) || fresh(out)
      ensures r == if |MessageBytes(msg)| > MAX_MESSAGE_SIZE then MessageTooLarge else Sent(Frame(MessageBytes(msg)))
    {
      var msgSize := LogWriter.MessageSize(msg);
      if msgSize > MAX_MESSAGE_SIZE {
        return MessageTooLarge;
      }
      header := header.(messageLength := Some(msgSize));
      HeaderLengths(msgSize);
      var headerSize := LogWriter.HeaderSize(header);
      if headerSize > MAX_HEADER_SIZE {
        return HeaderTooLarge;
      }
      var total := headerSize + HEADER_FRAMING_SIZE + msgSize;
      if out.Length < total {
        out := new byte[total];
      }
      used := total;
      Fill(headerSize, msgSize);
      r := Sent(out[..used]);
    }

    // Both records are marshalled into buffers of their own and copied behind
    // the separators, over whatever the buffer held.
    method Fill(headerSize: nat, msgSize: nat)
      requires msgSize == |MessageBytes(msg)| <= MAX_MESSAGE_SIZE && header == LengthHeader(msgSize)
      requires headerSize == |HeaderBytes(header)| <= 4 && used == headerSize + 3 + msgSize <= out.Length
      modifies out
      ensures out[..used] == Frame(MessageBytes(msg))
    {
      hide MessageBytes, HeaderBytes;
      ghost var start := out[..];
      var prefix := LogWriter.CopyBytes(out, 0, [RECORD_SEPARATOR, headerSize]);
      var head := LogWriter.HeaderMarshal(header);
      var i := LogWriter.CopyBytes(out, HEADER_DELIMITER_SIZE, head);
      PutPut(start, 0, [RECORD_SEPARATOR, headerSize], head);
      i := LogWriter.WriteByte(out, headerSize + HEADER_DELIMITER_SIZE, UNIT_SEPARATOR);
      PutPut(start, 0, [RECORD_SEPARATOR, headerSize] + head, [UNIT_SEPARATOR]);
      var body := LogWriter.MessageMarshal(msg);
      i := LogWriter.CopyBytes(out, headerSize + HEADER_FRAMING_SIZE, body);
      PutPut(start, 0, [RECORD_SEPARATOR, headerSize] + head + [UNIT_SEPARATOR], body);
      assert out[..used] == out[..][..used];
    }

    /** free: large buffers are dropped, others go back to the pool. */
    method Free() returns (pooled: bool)
      requires LengthOnly() && msg.unrecognized == []
      modifies this
      ensures pooled <==> out.Length <= 1024
      ensures out == old(out)
      ensures pooled ==> Clean()
    {
      if out.Length > MAX_POOLED_CAPACITY {
        return false;
      }
      used := 0;
      msg := msg.(fields := []);
      return true;
    }

    /** The setters that Emit calls, one per message field. The nested fields
        arrive in the order SortFields leaves them in. */
    method Emit(m: Message) returns (r: FrameResult)
      requires Clean() && |MessageBytes(m)| <= MAX_INT && m.unrecognized == []
      modifies this, out
      ensures LengthOnly() && msg.unrecognized == [] && (out == old(out) || fresh(out))
      ensures r == if |MessageBytes(m)| > MAX_MESSAGE_SIZE then MessageTooLarge else Sent(Frame(MessageBytes(m)))
    {
      hide MessageBytes, Frame;
      msg := msg.(uuid := m.uuid, timestamp := m.timestamp, msgType := m.msgType, logger := m.logger);
      msg := msg.(severity := m.severity, payload := m.payload, envVersion := m.envVersion);
      msg := msg.(pid := m.pid, hostname := m.hostname);
      for k := 0 to |m.fields|
        invariant msg == m.(fields := m.fields[..k])
        invariant LengthOnly() && out == old(out)
      {
        msg := msg.(fields := msg.fields + [m.fields[k]]);
      }
      assert msg == m;
      r := MarshalFrame();
    }
  }

  /** The messages that fit, in order: the others are refused. */
  ghost function Accepted(ms: seq<Message>): (bodies: seq<bytes>)
    ensures forall k :: 0 <= k < |bodies| ==> |bodies[k]| <= MAX_MESSAGE_SIZE
  {
    if ms == [] then []
    else
      var rest, body := Accepted(ms[..|ms| - 1]), MessageBytes(ms[|ms| - 1]);
      if |body| <= MAX_MESSAGE_SIZE then rest + [body] else rest
  }

  // Whether a message is accepted depends on nothing but its own size.
  lemma {:induction false} AcceptedEach(a: seq<Message>, m: Message, b: seq<Message>)
    ensures Accepted(a + b) == Accepted(a) + Accepted(b)
    ensures Accepted(a + [m] + b) == Accepted(a) + (if |MessageBytes(m)| <= 65536 then [MessageBytes(m)] else []) + Accepted(b)
    decreases |b|
  {
    hide MessageBytes;
    assert (a + [m])[..|a|] == a;
    if b == [] {
      assert a + b == a && a + [m] + b == a + [m];
    } else {
      var front := b[..|b| - 1];
      assert (a + b)[..|a + b| - 1] == a + front && (a + [m] + b)[..|a + [m] + b| - 1] == a + [m] + front;
      AcceptedEach(a, m, front);
    }
  }

  ghost function Stream(bodies: seq<bytes>): bytes
    requires forall k :: 0 <= k < |bodies| ==> |bodies[k]| <= MAX_MESSAGE_SIZE
  {
    if bodies == [] then [] else Frame(bodies[0]) + Stream(bodies[1..])
  }

  lemma {:induction false} StreamAppend(bodies: seq<bytes>, body: bytes)
    requires forall k :: 0 <= k < |bodies| ==> |bodies[k]| <= MAX_MESSAGE_SIZE
    requires |body| <= MAX_MESSAGE_SIZE
    ensures Stream(bodies + [body]) == Stream(bodies) + Frame(body)
    decreases |bodies|
  {
    hide Frame;
    if bodies == [] {
      assert [] + [body] == [body];
      assert Stream([body]) == Frame(body) + Stream([]);
    } else {
      assert (bodies + [body])[1..] == bodies[1..] + [body];
      StreamAppend(bodies[1..], body);
    }
  }

  /** A logger's whole life: messages go out one after another through encoders
      taken from the pool, and what was written is the stream of the accepted
      messages' frames, whatever the reused buffers held before. */
  method EmitAll(ms: seq<Message>) returns (written: bytes)
    requires forall k :: 0 <= k < |ms| ==> |MessageBytes(ms[k])| <= MAX_INT && ms[k].unrecognized == []
    ensures written == Stream(Accepted(ms))
  {
    hide Frame, MessageBytes;
    written := [];
    var hm := new HekaMessage();
    for k := 0 to |ms|
      invariant fresh(hm) && fresh(hm.out) && hm.Clean()
      invariant written == Stream(Accepted(ms[..k]))
    {
      assert ms[..k + 1][..k] == ms[..k];
      var r := hm.Emit(ms[k]);
      if r.Sent? {
        StreamAppend(Accepted(ms[..k]), MessageBytes(ms[k]));
        written := written + r.frame;
      }
      var pooled := hm.Free();
      if !pooled {
        hm := new HekaMessage();
      }
    }
    assert ms[..|ms|] == ms;
  }

  /** How a reader takes one frame off a stream: the message bytes and the rest. */
  function SplitFrame(sk: LogReader.Skip, s: bytes): (r: Option<(bytes, bytes)>)
    ensures r.Some? ==> |r.value.1| < |s|
  {
    if |s| < HEADER_FRAMING_SIZE || s[0] != RECORD_SEPARATOR then None
    else if |s| < s[1] + HEADER_FRAMING_SIZE || s[s[1] + HEADER_DELIMITER_SIZE] != UNIT_SEPARATOR then None
    else
      var start: nat := s[1] + HEADER_FRAMING_SIZE;
      var h := LogReader.HeaderLoop(sk, s[HEADER_DELIMITER_SIZE..start - 1], 0, EmptyHeader);
      if h.status != LogReader.Done || h.rec.messageLength.None? then None
      else
        var n := h.rec.messageLength.value;
        if |s| < start + n then None else Some((s[start..start + n], s[start + n..]))
  }

  function SplitStream(sk: LogReader.Skip, s: bytes): Option<seq<bytes>>
    decreases |s|
  {
    if s == [] then Some([])
    else match SplitFrame(sk, s)
      case None => None
      case Some((body, rest)) =>
        match SplitStream(sk, rest)
        case None => None
        case Some(bodies) => Some([body] + bodies)
  }

  lemma FrameSplits(sk: LogReader.Skip, body: bytes, rest: bytes)
    requires |body| <= MAX_MESSAGE_SIZE
    ensures SplitFrame(sk, Frame(body) + rest) == Some((body, rest))
  {
    hide HeaderBytes, LogReader.HeaderLoop;
    HeaderLengths(|body|);
    var header := HeaderBytes(LengthHeader(|body|));
    var s := Frame(body) + rest;
    assert s == [RECORD_SEPARATOR, |header|] + header + [UNIT_SEPARATOR] + body + rest;
    assert s[2..2 + |header|] == header;
    assert s[2 + |header|] == UNIT_SEPARATOR;
    LogRoundTrip.HeaderRoundTrip(sk, LengthHeader(|body|));
    assert s[3 + |header|..3 + |header| + |body|] == body;
    assert s[3 + |header| + |body|..] == rest;
  }

  /** A stream of frames splits back into the bodies that were framed. */
  lemma {:induction false} StreamSplits(sk: LogReader.Skip, bodies: seq<bytes>)
    requires forall k :: 0 <= k < |bodies| ==> |bodies[k]| <= MAX_MESSAGE_SIZE
    ensures SplitStream(sk, Stream(bodies)) == Some(bodies)
    decreases |bodies|
  {
    hide SplitFrame, Frame;
    if bodies != [] {
      var rest := Stream(bodies[1..]);
      FrameNonempty(bodies[0]);
      FrameSplits(sk, bodies[0], rest);
      StreamSplits(sk, bodies[1..]);
      assert [bodies[0]] + bodies[1..] == bodies;
    }
  }

  lemma FrameNonempty(body: bytes)
    requires |body| <= MAX_MESSAGE_SIZE
    ensures |Frame(body)| > 0
  {
  }

  /** There is only one way to read a stream: two lists of messages with the same
      stream have the same bodies, and decode to the same records. */
  lemma StreamIsUnambiguous(a: seq<bytes>, b: seq<bytes>)
    requires forall k :: 0 <= k < |a| ==> |a[k]| <= MAX_MESSAGE_SIZE
    requires forall k :: 0 <= k < |b| ==> |b[k]| <= MAX_MESSAGE_SIZE
    requires Stream(a) == Stream(b)
    ensures a == b
  {
    var sk: LogReader.Skip := (_: bytes) => None;
    StreamSplits(sk, a);
    StreamSplits(sk, b);
  }

  /** End to end: what a reader splits off and decodes is, in order, the accepted
      messages themselves (an empty uuid read back as nil). */
  lemma StreamCarriesMessages(sk: LogReader.Skip, ms: seq<Message>)
    requires forall k :: 0 <= k < |ms| ==> |MessageBytes(ms[k])| <= MAX_MESSAGE_SIZE && LogRoundTrip.Collectable(sk, ms[k])
    ensures var bodies := SplitStream(sk, Stream(Accepted(ms)));
            && bodies.Some? && |bodies.value| == |ms|
            && forall k :: 0 <= k < |ms| ==>
                 LogReader.MessageLoop(sk, bodies.value[k], 0, EmptyMessage) ==
                 LogReader.Decoded(LogReader.Done, LogRoundTrip.MessageReadBack(ms[k]))
  {
    hide MessageBytes, LogReader.MessageLoop, Stream, SplitStream;
    StreamSplits(sk, Accepted(ms));
    AllAccepted(ms);
    forall k | 0 <= k < |ms|
      ensures LogReader.MessageLoop(sk, Accepted(ms)[k], 0, EmptyMessage) ==
              LogReader.Decoded(LogReader.Done, LogRoundTrip.MessageReadBack(ms[k]))
    {
      LogRoundTrip.MessageRoundTrip(sk, ms[k]);
    }
  }

  lemma {:induction false} AllAccepted(ms: seq<Message>)
    requires forall k :: 0 <= k < |ms| ==> |MessageBytes(ms[k])| <= MAX_MESSAGE_SIZE
    ensures |Accepted(ms)| == |ms|
    ensures forall k :: 0 <= k < |ms| ==> Accepted(ms)[k] == MessageBytes(ms[k])
  {
    hide MessageBytes;
    if ms != [] {
      AllAccepted(ms[..|ms| - 1]);
    }
  }
}
