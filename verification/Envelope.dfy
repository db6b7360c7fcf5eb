/**
 Connect envelope framing and the streaming response reader (connect_client.rs).

 Decoding a protobuf message and an end-of-stream trailer are library calls; the codec record
 holds them as arbitrary functions.
 */
module Envelope {
  import opened Wrappers
  import opened Records

  const MESSAGE_FLAGS: Byte := 0x00
  const END_STREAM_FLAGS: Byte := 0x02

  datatype TrailerError = TrailerError(code: string, message: string)

  datatype ClientError =
    | Transport | Protobuf | JsonTrailer | Connect(error: TrailerError)
    | PartialFrame(needed: nat) | CompressedFrame | UnknownFrameFlags(flags: Byte)

  datatype Frame = Message(body: seq<Byte>) | EndStream(error: Option<TrailerError>)

  datatype Codec<Resp> = Codec(
    message: seq<Byte> -> Option<Resp>,
    trailer: seq<Byte> -> Option<Option<TrailerError>>)

  // ---------- one frame ----------

  function BigEndian(n: nat): (bytes: seq<Byte>)
    requires n < 0x1_0000_0000
    ensures |bytes| == 4
  {
    [n / 0x100_0000, n / 0x1_0000 % 0x100, n / 0x100 % 0x100, n % 0x100]
  }

  function FromBigEndian(a: nat, b: nat, c: nat, d: nat): nat {
    ((a * 0x100 + b) * 0x100 + c) * 0x100 + d
  }

  function LengthField(b: seq<Byte>): nat
    requires |b| >= 5
  {
    FromBigEndian(b[1], b[2], b[3], b[4])
  }

  function Encoded(flags: Byte, message: seq<Byte>): seq<Byte>
    requires |message| < 0x1_0000_0000
  {
    [flags] + BigEndian(|message|) + message
  }

  method Encode(flags: Byte, message: seq<Byte>) returns (framed: seq<Byte>)
    requires |message| < 0x1_0000_0000
    ensures framed == Encoded(flags, message)
  {
    framed := [flags];
    framed := framed + BigEndian(|message|);
    framed := framed + message;
  }

  /** `decode_next`: nothing yet, a frame with the bytes it took, or an error. */
  function DecodeNext<Resp>(codec: Codec<Resp>, input: seq<Byte>): (r: Result<Option<(Frame, nat)>, ClientError>)
    ensures r.Ok? && r.value.Some? ==> 5 <= r.value.value.1 <= |input|
  {
    if |input| < 5 then Ok(None)
    else
      var frameLen := 5 + LengthField(input);
      if |input| < frameLen then Ok(None)
      else
        var body := input[5..frameLen];
        var flags := input[0];
        if flags == MESSAGE_FLAGS then Ok(Some((Message(body), frameLen)))
        else if flags == END_STREAM_FLAGS then
          if body == [] then Ok(Some((EndStream(None), frameLen)))
          else
            var parsed := codec.trailer(body);
            if parsed.None? then Err(JsonTrailer) else Ok(Some((EndStream(parsed.value), frameLen)))
        else if flags % 2 == 1 then Err(CompressedFrame)
        else Err(UnknownFrameFlags(flags))
  }

  lemma LengthOfBigEndian(n: nat)
    requires n < 0x1_0000_0000
    ensures var b := BigEndian(n); FromBigEndian(b[0], b[1], b[2], b[3]) == n
  {
    var high, middle := n / 0x1_0000, n / 0x100;
    assert high == n / 0x100_0000 * 0x100 + high % 0x100;
    assert middle == high * 0x100 + middle % 0x100;
    assert n == middle * 0x100 + n % 0x100;
  }

  /** More bytes after a complete frame change nothing about it. */
  lemma DecodeIgnoresTheRest<Resp>(codec: Codec<Resp>, input: seq<Byte>, more: seq<Byte>)
    requires DecodeNext(codec, input) != Ok(None)
    ensures DecodeNext(codec, input + more) == DecodeNext(codec, input)
  {
    assert LengthField(input + more) == LengthField(input);
    assert (input + more)[5..5 + LengthField(input)] == input[5..5 + LengthField(input)];
  }

  lemma EncodedLength(flags: Byte, message: seq<Byte>)
    requires |message| < 0x1_0000_0000
    ensures var framed := Encoded(flags, message);
      && |framed| == 5 + |message| && framed[0] == flags
      && LengthField(framed) == |message| && framed[5..] == message
  {
    LengthOfBigEndian(|message|);
  }

  /** Decoding inverts encoding for messages... */
  lemma MessageRoundTrip<Resp>(codec: Codec<Resp>, message: seq<Byte>, more: seq<Byte>)
    requires |message| < 0x1_0000_0000
    ensures DecodeNext(codec, Encoded(MESSAGE_FLAGS, message) + more) == Ok(Some((Message(message), 5 + |message|)))
  {
    var framed := Encoded(MESSAGE_FLAGS, message);
    EncodedLength(MESSAGE_FLAGS, message);
    assert framed[5..5 + |message|] == message;
    DecodeIgnoresTheRest(codec, framed, more);
  }

  /** ...and a frame that has not wholly arrived is never decoded. */
  lemma CutFrameWaits<Resp>(codec: Codec<Resp>, flags: Byte, message: seq<Byte>, c: nat)
    requires |message| < 0x1_0000_0000 && c < 5 + |message|
    ensures c <= |Encoded(flags, message)| && DecodeNext(codec, Encoded(flags, message)[..c]) == Ok(None)
  {
    EncodedLength(flags, message);
    var cut := Encoded(flags, message)[..c];
    if c >= 5 { assert LengthField(cut) == LengthField(Encoded(flags, message)); }
  }

  // ---------- what a whole body means ----------

  /** What the reader has sent, what it still holds, and whether it has returned. */
  datatype Reading<Resp> = Reading(sent: seq<Result<Resp, ClientError>>, buffer: seq<Byte>, stopped: bool)

  function Decoded<Resp>(codec: Codec<Resp>, body: seq<Byte>): Result<Resp, ClientError> {
    var parsed := codec.message(body);
    if parsed.Some? then Ok(parsed.value) else Err(Protobuf)
  }

  function Prepend<Resp>(item: Result<Resp, ClientError>, r: Reading<Resp>): Reading<Resp> {
    r.(sent := [item] + r.sent)
  }

  /** Every frame of a byte string, until the bytes run out or the stream ends. */
  function Frames<Resp>(codec: Codec<Resp>, input: seq<Byte>): Reading<Resp>
    decreases |input|
  {
    match DecodeNext(codec, input)
    case Err(e) => Reading([Err(e)], [], true)
    case Ok(None) => Reading([], input, false)
    case Ok(Some((Message(body), n))) => Prepend(Decoded(codec, body), Frames(codec, input[n..]))
    case Ok(Some((EndStream(error), n))) =>
      Reading(if error.Some? then [Err(Connect(error.value))] else [], [], true)
  }

  /** A piece of an HTTP body: data, something that is not data, or a transport failure. */
  datatype Chunk = Data(bytes: seq<Byte>) | NotData | Failure

  /** The data that arrives before the first failure, in one piece. */
  function Joined(chunks: seq<Chunk>): seq<Byte> {
    if chunks == [] || chunks[0].Failure? then []
    else (if chunks[0].Data? then chunks[0].bytes else []) + Joined(chunks[1..])
  }

  predicate Fails(chunks: seq<Chunk>) {
    chunks != [] && (chunks[0].Failure? || Fails(chunks[1..]))
  }

  /** What the receiver sees of a body with these bytes, ending cleanly or in a failure. */
  function Received<Resp>(codec: Codec<Resp>, bytes: seq<Byte>, fails: bool): seq<Result<Resp, ClientError>> {
    var all := Frames(codec, bytes);
    if all.stopped then all.sent
    else if fails then all.sent + [Err(Transport)]
    else if all.buffer != [] then all.sent + [Err(PartialFrame(1))]
    else all.sent
  }

  // ---------- the reader ----------

  lemma ReceiveMessage<Resp>(codec: Codec<Resp>, buffer: seq<Byte>, more: seq<Byte>, fails: bool, body: seq<Byte>, n: nat)
    requires DecodeNext(codec, buffer) == Ok(Some((Message(body), n)))
    ensures Received(codec, buffer + more, fails) == [Decoded(codec, body)] + Received(codec, buffer[n..] + more, fails)
  {
    DecodeIgnoresTheRest(codec, buffer, more);
    assert (buffer + more)[n..] == buffer[n..] + more;
    assert Frames(codec, buffer + more) == Prepend(Decoded(codec, body), Frames(codec, buffer[n..] + more));
  }

  lemma ReceiveStop<Resp>(codec: Codec<Resp>, buffer: seq<Byte>, more: seq<Byte>, fails: bool)
    requires var next := DecodeNext(codec, buffer); next.Err? || (next.value.Some? && next.value.value.0.EndStream?)
    ensures Received(codec, buffer + more, fails) == Frames(codec, buffer).sent && Frames(codec, buffer).stopped
  {
    DecodeIgnoresTheRest(codec, buffer, more);
  }

  lemma NextChunk(chunks: seq<Chunk>, i: nat)
    requires i < |chunks|
    ensures var rest := chunks[i + 1..];
      match chunks[i]
      case Failure => Joined(chunks[i..]) == [] && Fails(chunks[i..])
      case NotData => Joined(chunks[i..]) == Joined(rest) && Fails(chunks[i..]) == Fails(rest)
      case Data(bytes) => Joined(chunks[i..]) == bytes + Joined(rest) && Fails(chunks[i..]) == Fails(rest)
  {
    assert chunks[i..][0] == chunks[i] && chunks[i..][1..] == chunks[i + 1..];
  }

  lemma ReceiveNoMore<Resp>(codec: Codec<Resp>, buffer: seq<Byte>, fails: bool)
    requires DecodeNext(codec, buffer) == Ok(None)
    ensures Received(codec, buffer + [], fails) ==
      if fails then [Err(Transport)] else if buffer != [] then [Err(PartialFrame(1))] else []
  {
    assert buffer + [] == buffer;
  }

  /**
   `read_streaming_response`: however the body is cut into chunks, the receiver sees what its
   bytes mean as a whole.
   */
  method ReadStreamingResponse<Resp>(codec: Codec<Resp>, chunks: seq<Chunk>) returns (sent: seq<Result<Resp, ClientError>>)
    ensures sent == Received(codec, Joined(chunks), Fails(chunks))
  {
    ghost var goal := Received(codec, Joined(chunks), Fails(chunks));
    sent := [];
    var buffer: seq<Byte> := [];
    assert chunks[0..] == chunks && [] + Joined(chunks) == Joined(chunks);
    for i := 0 to |chunks|
      invariant DecodeNext(codec, buffer) == Ok(None)
      invariant goal == sent + Received(codec, buffer + Joined(chunks[i..]), Fails(chunks[i..]))
    {
      NextChunk(chunks, i);
      if chunks[i].Failure? {
        ReceiveNoMore(codec, buffer, true);
        return sent + [Err(Transport)];
      }
      if chunks[i].NotData? {
        continue;
      }
      ghost var more, fails := Joined(chunks[i + 1..]), Fails(chunks[i + 1..]);
      assert buffer + (chunks[i].bytes + more) == buffer + chunks[i].bytes + more;
      buffer := buffer + chunks[i].bytes;
      var stop;
      buffer, sent, stop := DecodeAvailable(codec, buffer, sent, more, fails);
      if stop {
        return;
      }
    }
    assert chunks[|chunks|..] == [];
    ReceiveNoMore(codec, buffer, false);
    if buffer != [] {
      sent := sent + [Err(PartialFrame(1))];
    }
  }

  /** The inner loop: send every frame the buffer holds. */
  method DecodeAvailable<Resp>(codec: Codec<Resp>, buffer: seq<Byte>, sent: seq<Result<Resp, ClientError>>,
                               ghost more: seq<Byte>, ghost fails: bool)
    returns (left: seq<Byte>, out: seq<Result<Resp, ClientError>>, stop: bool)
    ensures stop ==> out == sent + Received(codec, buffer + more, fails)
    ensures !stop ==>
      && DecodeNext(codec, left) == Ok(None)
      && sent + Received(codec, buffer + more, fails) == out + Received(codec, left + more, fails)
  {
    hide Received, Decoded;
    left, out := buffer, sent;
    while true
      invariant sent + Received(codec, buffer + more, fails) == out + Received(codec, left + more, fails)
      decreases |left|
    {
      var next := DecodeNext(codec, left);
      if next.Err? {
        ReceiveStop(codec, left, more, fails);
        return left, out + [Err(next.error)], true;
      }
      if next.value.None? {
        return left, out, false;
      }
      var (frame, consumed) := next.value.value;
      match frame
      case Message(body) =>
        ReceiveMessage(codec, left, more, fails, body, consumed);
        left := left[consumed..];
        out := out + [Decoded(codec, body)];
      case EndStream(error) =>
        ReceiveStop(codec, left, more, fails);
        if error.Some? {
          out := out + [Err(Connect(error.value))];
        }
        return left[consumed..], out, true;
    }
  }

  // ---------- what a stream of messages means ----------

  predicate Sendable(messages: seq<seq<Byte>>) {
    forall k | 0 <= k < |messages| :: |messages[k]| < 0x1_0000_0000
  }

  /** The frames of some messages, back to back. */
  function StreamOf(messages: seq<seq<Byte>>): seq<Byte>
    requires Sendable(messages)
  {
    if messages == [] then [] else Encoded(MESSAGE_FLAGS, messages[0]) + StreamOf(messages[1..])
  }

  function DecodedAll<Resp>(codec: Codec<Resp>, messages: seq<seq<Byte>>): seq<Result<Resp, ClientError>> {
    if messages == [] then [] else [Decoded(codec, messages[0])] + DecodedAll(codec, messages[1..])
  }

  lemma ReceiveEncoded<Resp>(codec: Codec<Resp>, message: seq<Byte>, more: seq<Byte>, fails: bool)
    requires |message| < 0x1_0000_0000
    ensures Received(codec, Encoded(MESSAGE_FLAGS, message) + more, fails) ==
            [Decoded(codec, message)] + Received(codec, more, fails)
  {
    var framed := Encoded(MESSAGE_FLAGS, message);
    EncodedLength(MESSAGE_FLAGS, message);
    MessageRoundTrip(codec, message, []);
    assert framed + [] == framed;
    ReceiveMessage(codec, framed, more, fails, message, 5 + |message|);
    assert framed[5 + |message|..] + more == more;
  }

  /**
   A body that ends `c` bytes into a stream of messages, with the first `k` of them complete,
   gives those messages in order, and then exactly one partial-frame error unless the cut
   falls between two frames.
   */
  lemma {:induction false} CutStream<Resp>(codec: Codec<Resp>, messages: seq<seq<Byte>>, k: nat, c: nat)
    requires Sendable(messages) && k <= |messages| && c <= |StreamOf(messages)|
    requires |StreamOf(messages[..k])| <= c
    requires k < |messages| ==> c < |StreamOf(messages[..k + 1])|
    ensures Received(codec, StreamOf(messages)[..c], false) ==
      DecodedAll(codec, messages[..k]) + if c == |StreamOf(messages[..k])| then [] else [Err(PartialFrame(1))]
    decreases k
  {
    hide Received, Encoded, Decoded;
    if k == 0 {
      if messages == [] { ReceivedNothing(codec); } else { CutFirst(codec, messages, c); }
      assert messages[..0] == [];
    } else {
      PrefixStream(messages, k);
      if k < |messages| { PrefixStream(messages, k + 1); }
      CutStream(codec, messages[1..], k - 1, c - |Encoded(MESSAGE_FLAGS, messages[0])|);
      CutNext(codec, messages, k, c);
    }
  }

  /** Uncut, the stream gives every message in order and nothing else. */
  lemma WholeStream<Resp>(codec: Codec<Resp>, messages: seq<seq<Byte>>, chunks: seq<Chunk>)
    requires Sendable(messages) && Joined(chunks) == StreamOf(messages) && !Fails(chunks)
    ensures Received(codec, Joined(chunks), Fails(chunks)) == DecodedAll(codec, messages)
  {
    var n, c := |messages|, |StreamOf(messages)|;
    assert messages[..n] == messages && StreamOf(messages)[..c] == StreamOf(messages);
    CutStream(codec, messages, n, c);
  }

  lemma ReceivedNothing<Resp>(codec: Codec<Resp>)
    ensures Received(codec, [], false) == []
  {
  }

  lemma Regroup<T>(first: T, middle: seq<T>, last: seq<T>)
    ensures [first] + middle + last == [first] + (middle + last)
  {
  }

  lemma FirstDecoded<Resp>(codec: Codec<Resp>, messages: seq<seq<Byte>>, k: nat)
    requires 0 < k <= |messages|
    ensures DecodedAll(codec, messages[..k]) == [Decoded(codec, messages[0])] + DecodedAll(codec, messages[1..][..k - 1])
  {
    assert messages[..k][1..] == messages[1..][..k - 1];
  }

  /** From a cut in the messages after the first one to the same cut in all of them. */
  lemma CutNext<Resp>(codec: Codec<Resp>, messages: seq<seq<Byte>>, k: nat, c: nat)
    requires Sendable(messages) && 0 < k <= |messages| && |StreamOf(messages[..k])| <= c <= |StreamOf(messages)|
    requires var rest, d := messages[1..], c - |Encoded(MESSAGE_FLAGS, messages[0])|;
      && 0 <= d <= |StreamOf(rest)|
      && Received(codec, StreamOf(rest)[..d], false) ==
         DecodedAll(codec, rest[..k - 1]) + if d == |StreamOf(rest[..k - 1])| then [] else [Err(PartialFrame(1))]
    ensures Received(codec, StreamOf(messages)[..c], false) ==
      DecodedAll(codec, messages[..k]) + if c == |StreamOf(messages[..k])| then [] else [Err(PartialFrame(1))]
  {
    hide Received, Encoded, Decoded, DecodedAll, StreamOf;
    PrefixStream(messages, k);
    CutLater(codec, messages, c);
    FirstDecoded(codec, messages, k);
    var tail: seq<Result<Resp, ClientError>> := if c == |StreamOf(messages[..k])| then [] else [Err(PartialFrame(1))];
    Regroup(Decoded(codec, messages[0]), DecodedAll(codec, messages[1..][..k - 1]), tail);
  }

  lemma CutLater<Resp>(codec: Codec<Resp>, messages: seq<seq<Byte>>, c: nat)
    requires Sendable(messages) && messages != []
    requires |Encoded(MESSAGE_FLAGS, messages[0])| <= c <= |StreamOf(messages)|
    ensures Received(codec, StreamOf(messages)[..c], false) ==
      [Decoded(codec, messages[0])] +
      Received(codec, StreamOf(messages[1..])[..c - |Encoded(MESSAGE_FLAGS, messages[0])|], false)
  {
    var framed := Encoded(MESSAGE_FLAGS, messages[0]);
    var cut := StreamOf(messages[1..])[..c - |framed|];
    assert StreamOf(messages)[..c] == framed + cut;
    ReceiveEncoded(codec, messages[0], cut, false);
  }

  lemma PrefixStream(messages: seq<seq<Byte>>, k: nat)
    requires Sendable(messages) && 0 < k <= |messages|
    ensures StreamOf(messages[..k]) == Encoded(MESSAGE_FLAGS, messages[0]) + StreamOf(messages[1..][..k - 1])
  {
    assert messages[..k][1..] == messages[1..][..k - 1];
  }

  lemma CutFirst<Resp>(codec: Codec<Resp>, messages: seq<seq<Byte>>, c: nat)
    requires Sendable(messages) && messages != [] && c < |StreamOf(messages[..1])|
    ensures c <= |StreamOf(messages)|
    ensures Received(codec, StreamOf(messages)[..c], false) == if c == 0 then [] else [Err(PartialFrame(1))]
  {
    var framed := Encoded(MESSAGE_FLAGS, messages[0]);
    PrefixStream(messages, 1);
    assert messages[1..][..0] == [];
    EncodedLength(MESSAGE_FLAGS, messages[0]);
    assert StreamOf(messages)[..c] == framed[..c];
    CutFrameWaits(codec, MESSAGE_FLAGS, messages[0], c);
  }

  lemma ReceiveEnd<Resp>(codec: Codec<Resp>, trailer: seq<Byte>, more: seq<Byte>, fails: bool)
    requires |trailer| < 0x1_0000_0000
    ensures Received(codec, Encoded(END_STREAM_FLAGS, trailer) + more, fails) == Ending(codec, trailer)
  {
    var ended := Encoded(END_STREAM_FLAGS, trailer);
    EncodedLength(END_STREAM_FLAGS, trailer);
    assert ended[5..5 + |trailer|] == trailer;
    ReceiveStop(codec, ended, more, fails);
  }

  /** Messages, an end-of-stream frame, and anything at all after it. */
  lemma {:induction false} EndedStream<Resp>(codec: Codec<Resp>, messages: seq<seq<Byte>>, trailer: seq<Byte>,
                                             more: seq<Byte>, fails: bool)
    requires Sendable(messages) && |trailer| < 0x1_0000_0000
    ensures Received(codec, StreamOf(messages) + Encoded(END_STREAM_FLAGS, trailer) + more, fails) ==
            DecodedAll(codec, messages) + Ending(codec, trailer)
    decreases |messages|
  {
    hide Received, Encoded, Decoded, Ending;
    var ended := Encoded(END_STREAM_FLAGS, trailer);
    if messages == [] {
      ReceiveEnd(codec, trailer, more, fails);
      assert StreamOf(messages) + ended + more == ended + more;
    } else {
      var tail := StreamOf(messages[1..]) + ended + more;
      EndedStream(codec, messages[1..], trailer, more, fails);
      assert StreamOf(messages) + ended + more == Encoded(MESSAGE_FLAGS, messages[0]) + tail;
      ReceiveEncoded(codec, messages[0], tail, fails);
      Regroup(Decoded(codec, messages[0]), DecodedAll(codec, messages[1..]), Ending(codec, trailer));
    }
  }

  function Ending<Resp>(codec: Codec<Resp>, trailer: seq<Byte>): seq<Result<Resp, ClientError>> {
    if trailer == [] then []
    else if codec.trailer(trailer).None? then [Err(JsonTrailer)]
    else if codec.trailer(trailer).value.None? then []
    else [Err(Connect(codec.trailer(trailer).value.value))]
  }

  // ---------- frames with other flags ----------

  /** The error of a frame that is neither a message nor the end of the stream. */
  function BadFlags(flags: Byte): ClientError {
    if exists half | 0 <= half < 0x80 :: flags == 2 * half + 1 then CompressedFrame else UnknownFrameFlags(flags)
  }

  lemma OddFlags(flags: Byte)
    ensures (exists half | 0 <= half < 0x80 :: flags == 2 * half + 1) <==> flags % 2 == 1
  {
    if flags % 2 == 1 { assert flags == 2 * (flags / 2) + 1; }
  }

  lemma ReceiveBadFrame<Resp>(codec: Codec<Resp>, flags: Byte, body: seq<Byte>, more: seq<Byte>, fails: bool)
    requires |body| < 0x1_0000_0000 && flags != 0 && flags != 2
    ensures Received(codec, Encoded(flags, body) + more, fails) == [Err(BadFlags(flags))]
  {
    var framed := Encoded(flags, body);
    EncodedLength(flags, body);
    OddFlags(flags);
    ReceiveStop(codec, framed, more, fails);
  }

  /**
   Messages, a complete frame whose flags are neither 0 nor 2, and anything at all after it: the
   messages arrive, then the error of that frame, and nothing after it is seen. An odd flag byte
   is a compressed frame.
   */
  lemma {:induction false} BadFrameEndsStream<Resp>(codec: Codec<Resp>, messages: seq<seq<Byte>>, flags: Byte, body: seq<Byte>,
                                                    more: seq<Byte>, fails: bool)
    requires Sendable(messages) && |body| < 0x1_0000_0000 && flags != 0 && flags != 2
    ensures Received(codec, StreamOf(messages) + Encoded(flags, body) + more, fails) ==
            DecodedAll(codec, messages) + [Err(BadFlags(flags))]
    decreases |messages|
  {
    hide Received, Encoded, Decoded, BadFlags;
    var bad := Encoded(flags, body);
    if messages == [] {
      ReceiveBadFrame(codec, flags, body, more, fails);
      assert StreamOf(messages) + bad + more == bad + more;
    } else {
      var tail := StreamOf(messages[1..]) + bad + more;
      BadFrameEndsStream(codec, messages[1..], flags, body, more, fails);
      assert StreamOf(messages) + bad + more == Encoded(MESSAGE_FLAGS, messages[0]) + tail;
      ReceiveEncoded(codec, messages[0], tail, fails);
      Regroup(Decoded(codec, messages[0]), DecodedAll(codec, messages[1..]), [Err(BadFlags(flags))]);
    }
  }

  /** A transport failure after some messages, wherever it cuts a frame, gives those messages and then itself. */
  lemma {:induction false} FailedStream<Resp>(codec: Codec<Resp>, messages: seq<seq<Byte>>, next: seq<Byte>, c: nat)
    requires Sendable(messages) && |next| < 0x1_0000_0000 && c < 5 + |next|
    ensures c <= |Encoded(MESSAGE_FLAGS, next)|
    ensures Received(codec, StreamOf(messages) + Encoded(MESSAGE_FLAGS, next)[..c], true) ==
            DecodedAll(codec, messages) + [Err(Transport)]
    decreases |messages|
  {
    hide Received, Encoded, Decoded;
    CutFrameWaits(codec, MESSAGE_FLAGS, next, c);
    var cut := Encoded(MESSAGE_FLAGS, next)[..c];
    if messages == [] {
      ReceiveNoMore(codec, cut, true);
      assert StreamOf(messages) + cut == cut + [];
    } else {
      var tail := StreamOf(messages[1..]) + cut;
      FailedStream(codec, messages[1..], next, c);
      assert StreamOf(messages) + cut == Encoded(MESSAGE_FLAGS, messages[0]) + tail;
      ReceiveEncoded(codec, messages[0], tail, true);
      Regroup(Decoded(codec, messages[0]), DecodedAll(codec, messages[1..]), [Err(Transport)]);
    }
  }
}
