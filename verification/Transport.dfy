/** MTProto transport framing in its four modes, and the receive loop that reassembles
    payloads from arbitrary network chunks. */
module Transport {
  import opened Wrappers
  import opened Bytes

  datatype Mode = Full | Abridged | Intermediate | PaddedIntermediate

  /** CRC-32 as an arbitrary function of the bytes. */
  type Crc = bytes -> u32

  datatype TransportError =
    | EmptyPayload
    | AbridgedPayloadAlignment
    | FrameLengthLimit(length: nat)
    | InvalidFrameLength(length: nat)
    | SequenceExhausted
    | CrcMismatch
    | LengthOutOfRange
    | QuickAckUnsupported
    | InvalidPaddingLength

  datatype Frame = Frame(payload: bytes, sequence: Option<u32>, quickAck: Option<u32>, consumed: nat)
  datatype Decoding = NeedMore | Decoded(frame: Frame) | Malformed(error: TransportError)
  datatype Encoding = Encoded(frame: bytes) | Rejected(error: TransportError)

  const FULL_OVERHEAD: nat := 12
  const QUICK_ACK_BIT: nat := 0x8000_0000
  const DEFAULT_MAX_FRAME_BYTES: nat := 64 * 1024 * 1024

  // --------------------------------------------------------------------- encoding

  function AbridgedHeader(words: nat, quickAck: bool): bytes
    requires words < 0x100_0000
  {
    if words < 127 then [if quickAck then words + 0x80 else words]
    else [if quickAck then 0xff else 0x7f] + LeBytes(words, 3)
  }

  /** `encode_internal` with the codec's next sequence number: the result and the new
      sequence number. */
  function EncodeOf(
    crc: Crc, mode: Mode, max: nat, sequence: u32, payload: bytes, padding: bytes, quickAck: bool): (Encoding, u32)
  {
    var total := |payload| + |padding|;
    if payload == [] then (Rejected(EmptyPayload), sequence)
    else if total > max then (Rejected(FrameLengthLimit(total)), sequence)
    else if mode != PaddedIntermediate && padding != [] then (Rejected(InvalidFrameLength(total)), sequence)
    else if mode == PaddedIntermediate && |padding| > 15 then (Rejected(InvalidPaddingLength), sequence)
    else
      match mode
      case Full =>
        if quickAck then (Rejected(QuickAckUnsupported), sequence)
        else if |payload| + FULL_OVERHEAD >= U32_END then (Rejected(LengthOutOfRange), sequence)
        else if sequence == U32_END - 1 then (Rejected(SequenceExhausted), sequence)
        else
          var head := LeBytes(|payload| + FULL_OVERHEAD, 4) + LeBytes(sequence, 4) + payload;
          (Encoded(head + LeBytes(crc(head), 4)), sequence + 1)
      case Abridged =>
        if |payload| % 4 != 0 then (Rejected(AbridgedPayloadAlignment), sequence)
        else if |payload| / 4 >= 0x100_0000 then (Rejected(LengthOutOfRange), sequence)
        else (Encoded(AbridgedHeader(|payload| / 4, quickAck) + payload), sequence)
      case _ =>
        if total >= U32_END then (Rejected(LengthOutOfRange), sequence)
        else
          var length := if quickAck && total < QUICK_ACK_BIT then total + QUICK_ACK_BIT else total;
          (Encoded(LeBytes(length, 4) + payload + padding), sequence)
  }

  // --------------------------------------------------------------------- decoding

  function LengthError(length: nat, max: nat): Option<TransportError>
  {
    if length == 0 then Some(EmptyPayload) else if length > max then Some(FrameLengthLimit(length)) else None
  }

  function DecodeFull(crc: Crc, max: nat, input: bytes): Decoding
  {
    if |input| < 4 then NeedMore
    else
      var length := LeValue(input[..4]);
      if length < FULL_OVERHEAD then Malformed(InvalidFrameLength(length))
      else
        var error := LengthError(length - FULL_OVERHEAD, max);
        if error.Some? then Malformed(error.value)
        else if |input| < length then NeedMore
        else
          var actual := LeValue(input[length - 4..length]);
          if actual != crc(input[..length - 4]) then Malformed(CrcMismatch)
          else Decoded(Frame(input[8..length - 4], Some(U32FromBytes(input[4..8])), None, length))
  }

  function DecodeAbridged(max: nat, input: bytes): Decoding
  {
    if input == [] then NeedMore
    else if input[0] >= 0x80 then
      if |input| < 4 then NeedMore
      else
        BeValueBound(input[..4]);
        RangeWidths();
        Decoded(Frame([], None, Some(BeValue(input[..4])), 4))
    else if input[0] == 0x7f && |input| < 4 then NeedMore
    else
      var words := if input[0] < 0x7f then input[0] else LeValue(input[1..4]);
      var header := if input[0] < 0x7f then 1 else 4;
      var error := LengthError(words * 4, max);
      if error.Some? then Malformed(error.value)
      else if |input| < header + words * 4 then NeedMore
      else Decoded(Frame(input[header..header + words * 4], None, None, header + words * 4))
  }

  /** A padded body that the decoder takes for a quick acknowledgement. */
  predicate LooksLikeAck(mode: Mode, body: bytes)
  {
    mode == PaddedIntermediate && 8 <= |body| <= 16 && body[..4] == [0xff, 0xff, 0xff, 0xff]
  }

  function DecodeIntermediate(mode: Mode, max: nat, input: bytes): Decoding
  {
    if |input| < 4 then NeedMore
    else
      var length := U32FromBytes(input[..4]);
      if length >= QUICK_ACK_BIT then Decoded(Frame([], None, Some(length), 4))
      else
        var error := LengthError(length, max);
        if error.Some? then Malformed(error.value)
        else if |input| < 4 + length then NeedMore
        else
          var body := input[4..4 + length];
          if LooksLikeAck(mode, body) then Decoded(Frame([], None, Some(U32FromBytes(body[4..8])), 4 + length))
          else Decoded(Frame(body, None, None, 4 + length))
  }

  function Decode(crc: Crc, mode: Mode, max: nat, input: bytes): (r: Decoding)
    ensures r.Decoded? ==> 0 < r.frame.consumed <= |input|
  {
    match mode
    case Full => DecodeFull(crc, max, input)
    case Abridged => DecodeAbridged(max, input)
    case _ => DecodeIntermediate(mode, max, input)
  }

  // ------------------------------------------------------------- single frames

  lemma FullFrameDecodes(crc: Crc, max: nat, sequence: u32, payload: bytes, rest: bytes)
    requires payload != [] && |payload| <= max && |payload| + FULL_OVERHEAD < U32_END && sequence < U32_END - 1
    ensures var frame := EncodeOf(crc, Full, max, sequence, payload, [], false).0.frame;
      DecodeFull(crc, max, frame + rest) == Decoded(Frame(payload, Some(sequence), None, |frame|))
  {
    RangeWidths();
    hide LeBytes, LeValue;
    var length := |payload| + FULL_OVERHEAD;
    var head := LeBytes(length, 4) + LeBytes(sequence, 4) + payload;
    var tail := LeBytes(crc(head), 4);
    var input := head + tail + rest;
    assert input[..4] == LeBytes(length, 4);
    assert input[4..8] == LeBytes(sequence, 4);
    assert input[8..length - 4] == payload;
    assert input[..length - 4] == head;
    assert input[length - 4..length] == tail;
    Le32RoundTrip(length);
    Le32RoundTrip(sequence);
    Le32RoundTrip(crc(head));
  }

  lemma AbridgedFrameDecodes(max: nat, payload: bytes, rest: bytes)
    requires payload != [] && |payload| <= max && |payload| % 4 == 0 && |payload| / 4 < 0x100_0000
    ensures var frame := AbridgedHeader(|payload| / 4, false) + payload;
      DecodeAbridged(max, frame + rest) == Decoded(Frame(payload, None, None, |frame|))
  {
    var words := |payload| / 4;
    var header := AbridgedHeader(words, false);
    var input := header + payload + rest;
    assert input[|header|..|header| + |payload|] == payload;
    if words >= 127 {
      RangeWidths();
      assert input[1..4] == LeBytes(words, 3);
      LeRoundTrip(words, 3);
    }
  }

  lemma IntermediateFrameDecodes(mode: Mode, max: nat, body: bytes, rest: bytes)
    requires body != [] && |body| <= max && |body| < QUICK_ACK_BIT
    ensures var frame := LeBytes(|body|, 4) + body; var r := DecodeIntermediate(mode, max, frame + rest);
      r.Decoded? && r.frame.consumed == |frame| && (r.frame.quickAck.Some? <==> LooksLikeAck(mode, body)) &&
      (!LooksLikeAck(mode, body) ==> r.frame.payload == body)
  {
    var input := LeBytes(|body|, 4) + body + rest;
    assert input[..4] == LeBytes(|body|, 4);
    assert input[4..4 + |body|] == body;
    Le32RoundTrip(|body|);
  }

  /** The bytes a successful plain or padded send puts on the wire. */
  ghost predicate SentFrame(
    crc: Crc, mode: Mode, max: nat, sequence: u32, payload: bytes, padding: bytes, frame: bytes, next: u32)
  {
    EncodeOf(crc, mode, max, sequence, payload, padding, false) == (Encoded(frame), next)
  }

  /** A complete frame at the head of the input decodes to its body, whatever follows;
      only an acknowledgement look-alike is reported as one. */
  lemma FrameDecodes(
    crc: Crc, mode: Mode, max: nat, sequence: u32, payload: bytes, padding: bytes, frame: bytes, next: u32, rest: bytes)
    requires max < QUICK_ACK_BIT && SentFrame(crc, mode, max, sequence, payload, padding, frame, next)
    ensures var r := Decode(crc, mode, max, frame + rest); var body := payload + padding;
      r.Decoded? && r.frame.consumed == |frame| && (r.frame.quickAck.Some? <==> LooksLikeAck(mode, body)) &&
      (!LooksLikeAck(mode, body) ==> r.frame.payload == body)
  {
    match mode
    case Full =>
      FullFrameDecodes(crc, max, sequence, payload, rest);
      assert payload + padding == payload;
    case Abridged =>
      AbridgedFrameDecodes(max, payload, rest);
      assert payload + padding == payload;
    case _ =>
      IntermediateFrameDecodes(mode, max, payload + padding, rest);
      assert frame == LeBytes(|payload + padding|, 4) + (payload + padding);
  }

  /** Every strict prefix of a frame asks for more. */
  lemma StrictPrefixNeedsMore(
    crc: Crc, mode: Mode, max: nat, sequence: u32, payload: bytes, padding: bytes, frame: bytes, next: u32, k: nat)
    requires max < QUICK_ACK_BIT && SentFrame(crc, mode, max, sequence, payload, padding, frame, next) && k < |frame|
    ensures Decode(crc, mode, max, frame[..k]) == NeedMore
  {
    hide LeBytes, LeValue;
    var input := frame[..k];
    match mode
    case Full =>
      if k >= 4 {
        var lead := LeBytes(|payload| + FULL_OVERHEAD, 4);
        var head := lead + LeBytes(sequence, 4) + payload;
        assert frame == head + LeBytes(crc(head), 4);
        assert frame[..4] == head[..4] == lead;
        assert input[..4] == frame[..4];
        Le32RoundTrip(|payload| + FULL_OVERHEAD);
      }
    case Abridged =>
      var words := |payload| / 4;
      if k > 0 && words >= 127 && k >= 4 {
        RangeWidths();
        var header := AbridgedHeader(words, false);
        assert frame == header + payload;
        assert header[1..4] == LeBytes(words, 3);
        assert input[1..4] == frame[1..4] == header[1..4];
        LeRoundTrip(words, 3);
      }
    case _ =>
      if k >= 4 {
        assert frame == LeBytes(|payload| + |padding|, 4) + payload + padding;
        assert input[..4] == frame[..4] == LeBytes(|payload| + |padding|, 4);
        Le32RoundTrip(|payload| + |padding|);
      }
  }

  // ------------------------------------------------------------- the receive loop

  datatype Receipt = Payload(data: bytes) | Closed | Failed(error: TransportError)

  /** `receive_payload`: decode from the buffer, skip acknowledgements, read more chunks
      as needed. An empty read means the connection is closed. */
  function ReceiveOf(crc: Crc, mode: Mode, max: nat, buffer: bytes, incoming: seq<bytes>): (Receipt, bytes, seq<bytes>)
    decreases |incoming|, |buffer|
  {
    match Decode(crc, mode, max, buffer)
    case Malformed(error) => (Failed(error), buffer, incoming)
    case Decoded(frame) =>
      if frame.quickAck.Some? then ReceiveOf(crc, mode, max, buffer[frame.consumed..], incoming)
      else (Payload(frame.payload), buffer[frame.consumed..], incoming)
    case NeedMore =>
      if incoming == [] then (Closed, buffer, [])
      else if incoming[0] == [] then (Closed, buffer, incoming[1..])
      else ReceiveOf(crc, mode, max, buffer + incoming[0], incoming[1..])
  }

  class TransportFrameCodec {
    const crc: Crc
    const mode: Mode
    const maxFrameBytes: nat
    var nextSequenceNumber: u32

    constructor (crc: Crc, mode: Mode)
      ensures this.crc == crc && this.mode == mode && maxFrameBytes == DEFAULT_MAX_FRAME_BYTES &&
        nextSequenceNumber == 0
    {
      this.crc := crc;
      this.mode := mode;
      maxFrameBytes := DEFAULT_MAX_FRAME_BYTES;
      nextSequenceNumber := 0;
    }

    /** `encode_with_padding`; `encode` is the case without padding. */
    method EncodeWithPadding(payload: bytes, padding: bytes) returns (r: Encoding)
      modifies this
      ensures (r, nextSequenceNumber) ==
        EncodeOf(crc, mode, maxFrameBytes, old(nextSequenceNumber), payload, padding, false)
    {
      if payload == [] {
        return Rejected(EmptyPayload);
      }
      var total := |payload| + |padding|;
      if total > maxFrameBytes {
        return Rejected(FrameLengthLimit(total));
      }
      if mode != PaddedIntermediate && padding != [] {
        return Rejected(InvalidFrameLength(total));
      }
      if mode == PaddedIntermediate && |padding| > 15 {
        return Rejected(InvalidPaddingLength);
      }
      if mode == Full {
        r := EncodeFull(payload);
      } else if mode == Abridged {
        if |payload| % 4 != 0 {
          return Rejected(AbridgedPayloadAlignment);
        }
        if |payload| / 4 >= 0x100_0000 {
          return Rejected(LengthOutOfRange);
        }
        var frame := AbridgedHeader(|payload| / 4, false);
        frame := frame + payload;
        return Encoded(frame);
      } else {
        if total >= U32_END {
          return Rejected(LengthOutOfRange);
        }
        var frame := LeBytes(total, 4);
        frame := frame + payload;
        frame := frame + padding;
        return Encoded(frame);
      }
    }

    method EncodeFull(payload: bytes) returns (r: Encoding)
      requires mode == Full && payload != [] && |payload| <= maxFrameBytes
      modifies this
      ensures (r, nextSequenceNumber) == EncodeOf(crc, mode, maxFrameBytes, old(nextSequenceNumber), payload, [], false)
    {
      if |payload| + FULL_OVERHEAD >= U32_END {
        return Rejected(LengthOutOfRange);
      }
      var sequenceNumber := nextSequenceNumber;
      if nextSequenceNumber == U32_END - 1 {
        return Rejected(SequenceExhausted);
      }
      nextSequenceNumber := nextSequenceNumber + 1;
      var frame := LeBytes(|payload| + FULL_OVERHEAD, 4);
      frame := frame + LeBytes(sequenceNumber, 4);
      frame := frame + payload;
      frame := frame + LeBytes(crc(frame), 4);
      return Encoded(frame);
    }
  }

  class TcpTransport {
    const codec: TransportFrameCodec
    var readBuffer: bytes
    var incoming: seq<bytes>  // what successive reads of the socket will return

    constructor (codec: TransportFrameCodec, incoming: seq<bytes>)
      ensures this.codec == codec && readBuffer == [] && this.incoming == incoming
    {
      this.codec := codec;
      readBuffer := [];
      this.incoming := incoming;
    }

    method ReceivePayload() returns (r: Receipt)
      modifies this
      ensures (r, readBuffer, incoming) ==
        ReceiveOf(codec.crc, codec.mode, codec.maxFrameBytes, old(readBuffer), old(incoming))
    {
      while true
        invariant ReceiveOf(codec.crc, codec.mode, codec.maxFrameBytes, readBuffer, incoming) ==
          ReceiveOf(codec.crc, codec.mode, codec.maxFrameBytes, old(readBuffer), old(incoming))
        decreases |incoming|, |readBuffer|
      {
        var decoded := Decode(codec.crc, codec.mode, codec.maxFrameBytes, readBuffer);
        if decoded.Malformed? {
          return Failed(decoded.error);
        }
        if decoded.Decoded? {
          readBuffer := readBuffer[decoded.frame.consumed..];
          if decoded.frame.quickAck.None? {
            return Payload(decoded.frame.payload);
          }
        } else {
          if incoming == [] {
            return Closed;
          }
          var chunk := incoming[0];
          incoming := incoming[1..];
          if chunk == [] {
            return Closed;
          }
          readBuffer := readBuffer + chunk;
        }
      }
    }
  }

  // ------------------------------------------------------- chunking independence

  function Concat(chunks: seq<bytes>): bytes
  {
    if chunks == [] then [] else chunks[0] + Concat(chunks[1..])
  }

  ghost predicate NonEmpty(chunks: seq<bytes>)
  {
    forall i :: 0 <= i < |chunks| ==> chunks[i] != []
  }

  /** One receive on a stream that starts with a frame: the loop consumes exactly that
      frame; a look-alike is skipped and the loop continues behind it. */
  lemma {:induction false} ReceiveFrame(crc: Crc, mode: Mode, max: nat, sequence: u32, payload: bytes, padding: bytes,
                                        frame: bytes, next: u32, buffer: bytes, incoming: seq<bytes>, tail: bytes)
    returns (buffer': bytes, incoming': seq<bytes>)
    requires max < QUICK_ACK_BIT && SentFrame(crc, mode, max, sequence, payload, padding, frame, next)
    requires NonEmpty(incoming) && buffer + Concat(incoming) == frame + tail
    ensures NonEmpty(incoming') && buffer' + Concat(incoming') == tail
    ensures var r := ReceiveOf(crc, mode, max, buffer, incoming);
      if LooksLikeAck(mode, payload + padding) then r == ReceiveOf(crc, mode, max, buffer', incoming')
      else r == (Payload(payload + padding), buffer', incoming')
    decreases |incoming|
  {
    if |buffer| >= |frame| {
      assert buffer == frame + buffer[|frame|..] by {
        assert buffer[..|frame|] == (buffer + Concat(incoming))[..|frame|] == (frame + tail)[..|frame|] == frame;
      }
      FrameDecodes(crc, mode, max, sequence, payload, padding, frame, next, buffer[|frame|..]);
      buffer', incoming' := buffer[|frame|..], incoming;
      assert buffer' + Concat(incoming') == (buffer + Concat(incoming))[|frame|..] == (frame + tail)[|frame|..] == tail;
    } else {
      assert buffer == frame[..|buffer|] by {
        assert buffer == (buffer + Concat(incoming))[..|buffer|] == (frame + tail)[..|buffer|] == frame[..|buffer|];
      }
      StrictPrefixNeedsMore(crc, mode, max, sequence, payload, padding, frame, next, |buffer|);
      assert incoming != [] by { assert |Concat(incoming)| > 0; }
      assert (buffer + incoming[0]) + Concat(incoming[1..]) == buffer + Concat(incoming);
      buffer', incoming' :=
        ReceiveFrame(crc, mode, max, sequence, payload, padding, frame, next, buffer + incoming[0], incoming[1..],
          tail);
    }
  }

  /** What a sender writes: payloads with their padding. */
  datatype Message = Message(payload: bytes, padding: bytes)

  /** All frames of a list of sends, if every one is accepted. */
  function EncodeAll(crc: Crc, mode: Mode, max: nat, sequence: u32, messages: seq<Message>): Option<bytes>
    decreases |messages|
  {
    if messages == [] then Some([])
    else
      var (first, next) := EncodeOf(crc, mode, max, sequence, messages[0].payload, messages[0].padding, false);
      if first.Rejected? then None
      else
        var rest := EncodeAll(crc, mode, max, next, messages[1..]);
        if rest.None? then None else Some(first.frame + rest.value)
  }

  /** The bodies the receiver hands out: all but acknowledgement look-alikes. */
  function Deliverable(mode: Mode, messages: seq<Message>): seq<bytes>
  {
    if messages == [] then []
    else
      var body := messages[0].payload + messages[0].padding;
      (if LooksLikeAck(mode, body) then [] else [body]) + Deliverable(mode, messages[1..])
  }

  /** The payloads of n successive receives; none if one of them fails. */
  function ReceiveMany(crc: Crc, mode: Mode, max: nat, buffer: bytes, incoming: seq<bytes>, n: nat): Option<seq<bytes>>
    decreases n
  {
    if n == 0 then Some([])
    else
      var (r, buffer', incoming') := ReceiveOf(crc, mode, max, buffer, incoming);
      if !r.Payload? then None
      else
        var rest := ReceiveMany(crc, mode, max, buffer', incoming', n - 1);
        if rest.None? then None else Some([r.data] + rest.value)
  }

  lemma ReceiveNone(crc: Crc, mode: Mode, max: nat, buffer: bytes, incoming: seq<bytes>)
    ensures ReceiveMany(crc, mode, max, buffer, incoming, 0) == Some([])
  {
  }

  lemma ReceiveManyDelivers(crc: Crc, mode: Mode, max: nat, buffer: bytes, incoming: seq<bytes>, data: bytes,
                            buffer': bytes, incoming': seq<bytes>, rest: seq<bytes>)
    requires ReceiveOf(crc, mode, max, buffer, incoming) == (Payload(data), buffer', incoming')
    requires ReceiveMany(crc, mode, max, buffer', incoming', |rest|) == Some(rest)
    ensures ReceiveMany(crc, mode, max, buffer, incoming, |rest| + 1) == Some([data] + rest)
  {
  }

  lemma ReceiveManySkips(crc: Crc, mode: Mode, max: nat, buffer: bytes, incoming: seq<bytes>,
                         buffer': bytes, incoming': seq<bytes>, n: nat)
    requires ReceiveOf(crc, mode, max, buffer, incoming) == ReceiveOf(crc, mode, max, buffer', incoming')
    ensures ReceiveMany(crc, mode, max, buffer, incoming, n) == ReceiveMany(crc, mode, max, buffer', incoming', n)
  {
  }

  /** Whatever the chunk boundaries, the receiver returns exactly the bodies that were
      sent, in order. The limit below 2^31 covers the default of 64 MiB. */
  lemma {:induction false} ReceiveIgnoresChunking(
    crc: Crc, mode: Mode, max: nat, sequence: u32, messages: seq<Message>, buffer: bytes, incoming: seq<bytes>)
    requires max < QUICK_ACK_BIT && EncodeAll(crc, mode, max, sequence, messages).Some?
    requires NonEmpty(incoming) && buffer + Concat(incoming) == EncodeAll(crc, mode, max, sequence, messages).value
    ensures ReceiveMany(crc, mode, max, buffer, incoming, |Deliverable(mode, messages)|) ==
      Some(Deliverable(mode, messages))
    decreases |messages|
  {
    hide ReceiveOf, EncodeOf, ReceiveMany;
    ReceiveNone(crc, mode, max, buffer, incoming);
    if messages != [] {
      var m := messages[0];
      var frame, next, tail := SplitEncoding(crc, mode, max, sequence, messages);
      var buffer', incoming' :=
        ReceiveFrame(crc, mode, max, sequence, m.payload, m.padding, frame, next, buffer, incoming, tail);
      ReceiveIgnoresChunking(crc, mode, max, next, messages[1..], buffer', incoming');
      DeliverableStep(mode, messages);
      var rest := Deliverable(mode, messages[1..]);
      if LooksLikeAck(mode, m.payload + m.padding) {
        ReceiveManySkips(crc, mode, max, buffer, incoming, buffer', incoming', |rest|);
      } else {
        ReceiveManyDelivers(crc, mode, max, buffer, incoming, m.payload + m.padding, buffer', incoming', rest);
      }
    }
  }

  lemma DeliverableStep(mode: Mode, messages: seq<Message>)
    requires messages != []
    ensures var body := messages[0].payload + messages[0].padding;
      Deliverable(mode, messages) ==
      if LooksLikeAck(mode, body) then Deliverable(mode, messages[1..]) else [body] + Deliverable(mode, messages[1..])
  {
  }

  lemma SplitEncoding(
    crc: Crc, mode: Mode, max: nat, sequence: u32, messages: seq<Message>)
    returns (frame: bytes, next: u32, tail: bytes)
    requires messages != [] && EncodeAll(crc, mode, max, sequence, messages).Some?
    ensures SentFrame(crc, mode, max, sequence, messages[0].payload, messages[0].padding, frame, next)
    ensures EncodeAll(crc, mode, max, next, messages[1..]) == Some(tail)
    ensures EncodeAll(crc, mode, max, sequence, messages) == Some(frame + tail)
  {
    var (first, n) := EncodeOf(crc, mode, max, sequence, messages[0].payload, messages[0].padding, false);
    frame, next, tail := first.frame, n, EncodeAll(crc, mode, max, n, messages[1..]).value;
  }

  /** Outside the padded mode nothing is ever taken for an acknowledgement. */
  lemma {:induction false} PlainModesDeliverAll(mode: Mode, payloads: seq<bytes>)
    requires mode != PaddedIntermediate
    ensures Deliverable(mode, seq(|payloads|, i requires 0 <= i < |payloads| => Message(payloads[i], []))) == payloads
  {
    var messages := seq(|payloads|, i requires 0 <= i < |payloads| => Message(payloads[i], []));
    if payloads != [] {
      PlainModesDeliverAll(mode, payloads[1..]);
      assert messages[1..] ==
        seq(|payloads[1..]|, i requires 0 <= i < |payloads[1..]| => Message(payloads[1..][i], []));
      assert payloads[0] + [] == payloads[0];
    }
  }
}
