/**
 The run-time side of routing on the ECU (libs/bsw/routing): adapters extract PDUs from received messages, the
 router forwards each PDU to its destinations.

 A message is its id, its payload length (both big-endian, four bytes) and its payload; an extracted PDU has the
 same form with the internal PDU id in front.

 Offsets and lengths are added up as size_t. Where a sum wraps around, an access beyond a span can follow; its
 assertion resets the ECU.
 */
module Ecu {
  import opened Results
  import opened Bytes
  import opened SizeT
  import opened TableReader

  const MESSAGE_HEADER_SIZE := 8

  /** Its length fits the length field in front of it. */
  type Payload = p: seq<byte> | |p| <= MAX_U32

  /** An extracted PDU: what the adapter has written into its buffer. */
  datatype Pdu = Pdu(id: u32, payload: Payload)
  {
    /** The bytes of the buffer: id, payload length, payload. */
    function Wire(): (s: seq<byte>) {
      Be32(id) + Be32(|payload|) + payload
    }
  }

  /** What a reader hands out: a message, or a frame of several messages. */
  datatype Span = Span(bytes: seq<byte>)

  // ----- Extraction as it is laid out, with unbounded sums -----

  /** What the adapters take for granted about their table; their indexing is unchecked. */
  ghost predicate RxShape(t: RxAdapterTable) {
    && |t.pduLengthsOffsets| == |t.messageIds| + 1 && |t.pduLengths| == |t.pduOffsets|
    && (forall k: nat :: GroupInRange(t, k))
    && (t.messageLengths == [] || |t.messageLengths| == |t.messageIds|)
    && t.firstId + |t.pduLengths| <= MAX_U32 + 1
  }

  /** Group k is a range of PDUs. */
  ghost predicate GroupInRange(t: RxAdapterTable, k: nat)
    requires |t.pduLengthsOffsets| == |t.messageIds| + 1
  {
    k < |t.messageIds| ==> t.pduLengthsOffsets[k] <= t.pduLengthsOffsets[k + 1] <= |t.pduLengths|
  }

  /** etl::find on the message ids: the first position. */
  function IndexOf(ids: seq<u32>, id: u32): (k: Option<nat>)
    ensures k.Some? ==> k.value < |ids| && ids[k.value] == id
    ensures k.None? ==> id !in ids
  {
    if ids == [] then None
    else if ids[0] == id then Some(0)
    else
      var k := IndexOf(ids[1..], id);
      if k.Some? then Some(k.value + 1) else None
  }

  /** RxAdapter::lookup(). */
  function Lookup(t: RxAdapterTable, message: seq<byte>): (k: Option<nat>)
    ensures k.Some? ==> k.value < |t.messageIds| && |message| >= MESSAGE_HEADER_SIZE
  {
    if |message| < MESSAGE_HEADER_SIZE then None
    else if FromBe32(message[4..8]) > |message| - MESSAGE_HEADER_SIZE then None
    else IndexOf(t.messageIds, FromBe32(message[..4]))
  }

  /** PduTransportRxAdapter::lookup(): a configured, non-zero length must equal the parsed one. */
  function LookupWithLength(t: RxAdapterTable, message: seq<byte>): (k: Option<nat>)
    requires t.messageLengths == [] || |t.messageLengths| == |t.messageIds|
    requires |message| >= MESSAGE_HEADER_SIZE
    ensures k.Some? ==> k.value < |t.messageIds|
  {
    var k := IndexOf(t.messageIds, FromBe32(message[..4]));
    if k.None? then None
    else
      var length := if t.messageLengths != [] then t.messageLengths[k.value] else 0;
      if length != 0 && FromBe32(message[4..8]) != length then None else k
  }

  /** RxAdapter::extract(): PDU j of the channel, if it lies within the message and fits the buffer. */
  function Extract(t: RxAdapterTable, bufferSize: nat, message: seq<byte>, j: nat): (pdu: Option<Pdu>)
    requires j < |t.pduLengths| == |t.pduOffsets| && |message| >= MESSAGE_HEADER_SIZE
    requires t.firstId + j <= MAX_U32
  {
    var payload := message[MESSAGE_HEADER_SIZE..];
    var offset, length := t.pduOffsets[j], t.pduLengths[j];
    if offset + length > |payload| || MESSAGE_HEADER_SIZE + length > bufferSize then None
    else Some(Pdu(t.firstId + j, payload[offset..offset + length]))
  }

  /** The PDUs j, ..., end - 1 that can be extracted, in order. */
  function ExtractFrom(t: RxAdapterTable, bufferSize: nat, message: seq<byte>, j: nat, end: nat): (pdus: seq<Pdu>)
    requires j <= end <= |t.pduLengths| == |t.pduOffsets| && |message| >= MESSAGE_HEADER_SIZE
    requires t.firstId + |t.pduLengths| <= MAX_U32 + 1
    decreases end - j
  {
    if j == end then []
    else
      var pdu := Extract(t, bufferSize, message, j);
      var rest := ExtractFrom(t, bufferSize, message, j + 1, end);
      if pdu.Some? then [pdu.value] + rest else rest
  }

  /** The PDUs of message group k. */
  function GroupPdus(t: RxAdapterTable, bufferSize: nat, message: seq<byte>, k: nat): (pdus: seq<Pdu>)
    requires RxShape(t) && k < |t.messageIds| && |message| >= MESSAGE_HEADER_SIZE
  {
    assert GroupInRange(t, k);
    ExtractFrom(t, bufferSize, message, t.pduLengthsOffsets[k], t.pduLengthsOffsets[k + 1])
  }

  /** All PDUs of one message for RxAdapter, if no sum wraps around. */
  function PdusOf(t: RxAdapterTable, bufferSize: nat, message: seq<byte>): (pdus: seq<Pdu>)
    requires RxShape(t)
  {
    var k := Lookup(t, message);
    if k.None? then [] else GroupPdus(t, bufferSize, message, k.value)
  }

  /** All PDUs of one message for PduTransportRxAdapter. */
  function PdusWithLength(t: RxAdapterTable, bufferSize: nat, message: seq<byte>): (pdus: seq<Pdu>)
    requires RxShape(t) && |message| >= MESSAGE_HEADER_SIZE
  {
    var k := LookupWithLength(t, message);
    if k.None? then [] else GroupPdus(t, bufferSize, message, k.value)
  }

  /** The size of the first message of a frame; a frame that does not start with a whole message is one message. */
  function MessageSize(frame: seq<byte>): (n: nat)
    ensures frame != [] ==> 0 < n <= |frame|
  {
    if |frame| < MESSAGE_HEADER_SIZE then |frame|
    else
      var size := MESSAGE_HEADER_SIZE + FromBe32(frame[4..8]);
      if size > |frame| then |frame| else size
  }

  /** Whether a whole message stands at the start of the frame. */
  predicate HasMessage(frame: seq<byte>) {
    |frame| >= MESSAGE_HEADER_SIZE && MESSAGE_HEADER_SIZE + FromBe32(frame[4..8]) <= |frame|
  }

  /** All PDUs of a frame, message after message, if no sum wraps around. */
  function FramePdus(t: RxAdapterTable, bufferSize: nat, frame: seq<byte>): (pdus: seq<Pdu>)
    requires RxShape(t)
    decreases |frame|
  {
    if frame == [] then []
    else
      var n := MessageSize(frame);
      (if HasMessage(frame) then PdusWithLength(t, bufferSize, frame[..n]) else [])
      + FramePdus(t, bufferSize, frame[n..])
  }

  function AllPdus(t: RxAdapterTable, bufferSize: nat, messages: seq<Span>): (pdus: seq<Pdu>)
    requires RxShape(t)
  {
    if messages == [] then [] else PdusOf(t, bufferSize, messages[0].bytes) + AllPdus(t, bufferSize, messages[1..])
  }

  function AllFramePdus(t: RxAdapterTable, bufferSize: nat, frames: seq<Span>): (pdus: seq<Pdu>)
    requires RxShape(t)
  {
    if frames == [] then [] else FramePdus(t, bufferSize, frames[0].bytes) + AllFramePdus(t, bufferSize, frames[1..])
  }

  // ----- Extraction as it is computed -----

  /** What extract() comes to on a target: a PDU, none, or a reset. */
  datatype Extraction = Extracted(pdu: Pdu) | Skipped | Reset

  /** extract() as it is computed: advance() stops at the end of a span, take() asserts that it holds enough. */
  function ExtractOn(target: Target, t: RxAdapterTable, bufferSize: nat, message: seq<byte>, j: nat): (e: Extraction)
    requires j < |t.pduLengths| == |t.pduOffsets| && MESSAGE_HEADER_SIZE <= |message|
    requires t.firstId + j <= MAX_U32
    ensures e.Extracted? ==> e.pdu.id == t.firstId + j
  {
    var payload := message[MESSAGE_HEADER_SIZE..];
    var offset, length := t.pduOffsets[j], t.pduLengths[j];
    if target.Sum(offset, length) > |payload| then Skipped
    else
      var rest := payload[if offset < |payload| then offset else |payload|..];
      if length > |rest| then Reset
      else if target.Sum(MESSAGE_HEADER_SIZE, length) > bufferSize then Skipped
      else Extracted(Pdu(t.firstId + j, rest[..length]))
  }

  /** The sum does not wrap around, or is larger than any payload all the same. */
  predicate SumFits(target: Target, offset: int, length: int) {
    offset + length <= target.Max() || offset + length - target.Max() - 1 > target.Max() - MESSAGE_HEADER_SIZE
  }

  /** So it is for every PDU of a table: no message makes extract() reset the ECU. */
  ghost predicate SumsFit(target: Target, t: RxAdapterTable) {
    forall j: nat :: j < |t.pduLengths| && j < |t.pduOffsets| ==> SumFits(target, t.pduOffsets[j], t.pduLengths[j])
  }

  /** Short of a reset, extract() comes to what unbounded sums give; and there is none if the sum fits. */
  lemma {:induction false} ExtractOnAgrees(target: Target, t: RxAdapterTable, bufferSize: nat, message: seq<byte>,
      j: nat)
    requires j < |t.pduLengths| == |t.pduOffsets| && MESSAGE_HEADER_SIZE <= |message| <= target.Max()
    requires t.firstId + j <= MAX_U32
    ensures SumFits(target, t.pduOffsets[j], t.pduLengths[j]) ==> !ExtractOn(target, t, bufferSize, message, j).Reset?
    ensures var e, pdu := ExtractOn(target, t, bufferSize, message, j), Extract(t, bufferSize, message, j);
      !e.Reset? ==> e == if pdu.Some? then Extracted(pdu.value) else Skipped
  {
  }

  /** Extraction never resets the ECU, if and only if the sum fits; 64 bits are always enough. */
  lemma {:induction false} ExtractResetsExactly(target: Target, t: RxAdapterTable, bufferSize: nat, j: nat)
    requires j < |t.pduLengths| == |t.pduOffsets| && t.firstId + j <= MAX_U32
    ensures (forall message: seq<byte> :: MESSAGE_HEADER_SIZE <= |message| <= target.Max() ==>
              !ExtractOn(target, t, bufferSize, message, j).Reset?)
            <==> SumFits(target, t.pduOffsets[j], t.pduLengths[j])
    ensures target.Bits64? ==> SumFits(target, t.pduOffsets[j], t.pduLengths[j])
  {
    var offset, length := t.pduOffsets[j], t.pduLengths[j];
    if SumFits(target, offset, length) {
      forall message: seq<byte> | MESSAGE_HEADER_SIZE <= |message| <= target.Max()
        ensures !ExtractOn(target, t, bufferSize, message, j).Reset?
      {
        ExtractOnAgrees(target, t, bufferSize, message, j);
      }
    } else {
      var message := Fill(MESSAGE_HEADER_SIZE + target.Sum(offset, length), 0);
      assert ExtractOn(target, t, bufferSize, message, j).Reset?;
    }
  }

  /** An offset of 0xFFFFFFFF and a length of 9: a message with eight bytes of payload resets a 32-bit ECU. */
  lemma {:induction false} LargeOffsetResets(bufferSize: nat, message: seq<byte>)
    requires |message| == 16
    ensures var t := RxAdapterTable(0, [7], [], [0, 1], [9], [0xFFFF_FFFF]);
      && ExtractOn(Bits32, t, bufferSize, message, 0).Reset?
      && ExtractOn(Bits64, t, bufferSize, message, 0).Skipped?
  {
  }

  // ----- Futures -----

  /** What an adapter will still hand out, and whether the ECU is reset afterwards. */
  datatype Future = Future(pdus: seq<Pdu>, reset: bool)

  /** One future, and then another. */
  function Then(a: Future, b: Future): (f: Future) {
    if a.reset then a else Future(a.pdus + b.pdus, b.reset)
  }

  const NOTHING := Future([], false)
  const RESET := Future([], true)

  lemma {:induction false} ThenAssociates(a: Future, b: Future, c: Future)
    ensures Then(Then(a, b), c) == Then(a, Then(b, c))
  {
    assert (a.pdus + b.pdus) + c.pdus == a.pdus + (b.pdus + c.pdus);
  }

  lemma {:induction false} ThenNothing(a: Future)
    ensures Then(NOTHING, a) == a && Then(a, NOTHING) == a
  {
    assert [] + a.pdus == a.pdus && a.pdus + [] == a.pdus;
  }

  function Handed(pdu: Option<Pdu>): (f: Future) {
    Future(if pdu.Some? then [pdu.value] else [], false)
  }

  function FutureOf(e: Extraction): (f: Future) {
    match e
    case Extracted(pdu) => Handed(Some(pdu))
    case Skipped => NOTHING
    case Reset => RESET
  }

  /** The PDUs j, ..., end - 1, as far as they are extracted. */
  function ExtractFuture(target: Target, t: RxAdapterTable, bufferSize: nat, message: seq<byte>, j: nat, end: nat)
    : (f: Future)
    requires j <= end <= |t.pduLengths| == |t.pduOffsets| && |message| >= MESSAGE_HEADER_SIZE
    requires t.firstId + |t.pduLengths| <= MAX_U32 + 1
    decreases end - j
  {
    if j == end then NOTHING
    else
      Then(FutureOf(ExtractOn(target, t, bufferSize, message, j)),
           ExtractFuture(target, t, bufferSize, message, j + 1, end))
  }

  /** The PDUs of message group k. */
  function GroupFuture(target: Target, t: RxAdapterTable, bufferSize: nat, message: seq<byte>, k: nat): (f: Future)
    requires RxShape(t) && k < |t.messageIds| && |message| >= MESSAGE_HEADER_SIZE
  {
    assert GroupInRange(t, k);
    ExtractFuture(target, t, bufferSize, message, t.pduLengthsOffsets[k], t.pduLengthsOffsets[k + 1])
  }

  // ----- Messages and frames -----

  /** What a reader hands out: messages to RxAdapter, frames of several messages to PduTransportRxAdapter. */
  datatype Kind = Messages | Frames

  /** The size of the message in front of a frame, as it is computed. */
  function MessageSizeOn(target: Target, frame: seq<byte>): (n: nat)
    ensures n <= |frame|
  {
    if |frame| < MESSAGE_HEADER_SIZE then |frame|
    else
      var size := target.Sum(MESSAGE_HEADER_SIZE, FromBe32(frame[4..8]));
      if size > |frame| then |frame| else size
  }

  /** How much of a span the message in front takes. */
  function Extent(kind: Kind, target: Target, span: seq<byte>): (n: nat)
    ensures n <= |span|
  {
    if kind.Messages? then |span| else MessageSizeOn(target, span)
  }

  /** What becomes of the message in front: group k is looked up for it, it is discarded, or the ECU is reset. */
  datatype Verdict = Found(k: nat) | Discarded | Fatal

  /** PduTransportRxAdapter::lookup(), on a span of any size. */
  function LookupOn(t: RxAdapterTable, message: seq<byte>): (v: Verdict)
    requires t.messageLengths == [] || |t.messageLengths| == |t.messageIds|
    ensures v.Found? ==> v.k < |t.messageIds| && |message| >= MESSAGE_HEADER_SIZE
    ensures v.Discarded? ==> |message| >= 4
  {
    if |message| < 4 then Fatal
    else
      var k := IndexOf(t.messageIds, FromBe32(message[..4]));
      if k.None? then Discarded
      else if |message| < MESSAGE_HEADER_SIZE then Fatal
      else
        var length := if t.messageLengths != [] then t.messageLengths[k.value] else 0;
        if length != 0 && FromBe32(message[4..8]) != length then Discarded else Found(k.value)
  }

  /** Spans that are too short for a header: the id is read first, and the length only if the id is known. */
  lemma {:induction false} LookupOnShort(t: RxAdapterTable, message: seq<byte>)
    requires |message| < 8 && (t.messageLengths == [] || |t.messageLengths| == |t.messageIds|)
    ensures |message| < 4 ==> LookupOn(t, message) == Fatal
    ensures |message| >= 4
        ==> LookupOn(t, message) == if FromBe32(message[..4]) in t.messageIds then Fatal else Discarded
  {
  }

  /** RxAdapter::lookup(), or processMessage(). */
  function Processed(kind: Kind, target: Target, t: RxAdapterTable, span: seq<byte>): (v: Verdict)
    requires t.messageLengths == [] || |t.messageLengths| == |t.messageIds|
    ensures var n := Extent(kind, target, span);
      && (v.Found? ==> v.k < |t.messageIds| && n >= MESSAGE_HEADER_SIZE)
      && (v.Discarded? && span != [] ==> n > 0)
  {
    match kind
    case Messages =>
      var k := Lookup(t, span);
      if k.Some? then Found(k.value) else Discarded
    case Frames =>
      if |span| < MESSAGE_HEADER_SIZE || target.Sum(MESSAGE_HEADER_SIZE, FromBe32(span[4..8])) > |span| then Discarded
      else LookupOn(t, span[..MessageSizeOn(target, span)])
  }

  /** What comes of the message in front. */
  function FrontFuture(kind: Kind, target: Target, t: RxAdapterTable, bufferSize: nat, span: seq<byte>): (f: Future)
    requires RxShape(t)
  {
    match Processed(kind, target, t, span)
    case Fatal => RESET
    case Discarded => NOTHING
    case Found(k) => GroupFuture(target, t, bufferSize, span[..Extent(kind, target, span)], k)
  }

  /** All that the adapter makes of a span, message after message. */
  function SpanFuture(kind: Kind, target: Target, t: RxAdapterTable, bufferSize: nat, span: seq<byte>): (f: Future)
    requires RxShape(t)
    decreases |span|
  {
    if span == [] then NOTHING
    else if Processed(kind, target, t, span).Fatal? then RESET
    else
      Then(FrontFuture(kind, target, t, bufferSize, span),
           SpanFuture(kind, target, t, bufferSize, span[Extent(kind, target, span)..]))
  }

  function AllFuture(kind: Kind, target: Target, t: RxAdapterTable, bufferSize: nat, spans: seq<Span>): (f: Future)
    requires RxShape(t)
  {
    if spans == [] then NOTHING
    else
      Then(SpanFuture(kind, target, t, bufferSize, spans[0].bytes), AllFuture(kind, target, t, bufferSize, spans[1..]))
  }

  lemma {:induction false} AllFutureAppend(kind: Kind, target: Target, t: RxAdapterTable, bufferSize: nat,
      a: seq<Span>, b: seq<Span>)
    requires RxShape(t)
    ensures AllFuture(kind, target, t, bufferSize, a + b)
         == Then(AllFuture(kind, target, t, bufferSize, a), AllFuture(kind, target, t, bufferSize, b))
  {
    hide RxShape, SpanFuture;
    if a == [] {
      assert a + b == b;
      ThenNothing(AllFuture(kind, target, t, bufferSize, b));
    } else {
      assert (a + b)[1..] == a[1..] + b;
      AllFutureAppend(kind, target, t, bufferSize, a[1..], b);
      ThenAssociates(SpanFuture(kind, target, t, bufferSize, a[0].bytes),
                     AllFuture(kind, target, t, bufferSize, a[1..]),
                     AllFuture(kind, target, t, bufferSize, b));
    }
  }

  lemma {:induction false} AllFutureCons(kind: Kind, target: Target, t: RxAdapterTable, bufferSize: nat, span: Span,
      spans: seq<Span>)
    requires RxShape(t)
    ensures AllFuture(kind, target, t, bufferSize, [span] + spans)
         == Then(SpanFuture(kind, target, t, bufferSize, span.bytes), AllFuture(kind, target, t, bufferSize, spans))
  {
    assert ([span] + spans)[1..] == spans;
  }

  lemma {:induction false} AllFutureOne(kind: Kind, target: Target, t: RxAdapterTable, bufferSize: nat, span: Span)
    requires RxShape(t)
    ensures AllFuture(kind, target, t, bufferSize, [span]) == SpanFuture(kind, target, t, bufferSize, span.bytes)
    ensures AllFuture(kind, target, t, bufferSize, []) == NOTHING
  {
    AllFutureCons(kind, target, t, bufferSize, span, []);
    ThenNothing(SpanFuture(kind, target, t, bufferSize, span.bytes));
    assert [span] + [] == [span];
  }

  // ----- When spans are read as they are laid out -----

  /** Short of a reset, the PDUs are those that unbounded sums give. */
  lemma {:induction false} ExtractFutureAgrees(target: Target, t: RxAdapterTable, bufferSize: nat, message: seq<byte>,
      j: nat, end: nat)
    requires j <= end <= |t.pduLengths| == |t.pduOffsets| && MESSAGE_HEADER_SIZE <= |message| <= target.Max()
    requires t.firstId + |t.pduLengths| <= MAX_U32 + 1
    ensures var f := ExtractFuture(target, t, bufferSize, message, j, end);
      && (!f.reset ==> f.pdus == ExtractFrom(t, bufferSize, message, j, end))
      && (f.reset <==> exists i :: j <= i < end && ExtractOn(target, t, bufferSize, message, i).Reset?)
    decreases end - j
  {
    hide Extract, ExtractOn;
    if j < end {
      ExtractOnAgrees(target, t, bufferSize, message, j);
      ExtractFutureAgrees(target, t, bufferSize, message, j + 1, end);
    }
  }

  lemma {:induction false} GroupFutureAgrees(target: Target, t: RxAdapterTable, bufferSize: nat, message: seq<byte>,
      k: nat)
    requires RxShape(t) && k < |t.messageIds| && MESSAGE_HEADER_SIZE <= |message| <= target.Max()
    ensures var f := GroupFuture(target, t, bufferSize, message, k);
      && (!f.reset ==> f.pdus == GroupPdus(t, bufferSize, message, k))
      && (SumsFit(target, t) ==> !f.reset)
  {
    assert GroupInRange(t, k);
    ExtractFutureAgrees(target, t, bufferSize, message, t.pduLengthsOffsets[k], t.pduLengthsOffsets[k + 1]);
    hide RxShape, ExtractFuture, ExtractFrom, ExtractOn, SumFits;
    if SumsFit(target, t) {
      forall i | t.pduLengthsOffsets[k] <= i < t.pduLengthsOffsets[k + 1]
        ensures !ExtractOn(target, t, bufferSize, message, i).Reset?
      {
        assert SumFits(target, t.pduOffsets[i], t.pduLengths[i]);
        ExtractOnAgrees(target, t, bufferSize, message, i);
      }
    }
  }

  /** No length that is reached in the frame makes the message size wrap around. */
  predicate NoneWraps(target: Target, frame: seq<byte>)
    decreases |frame|
  {
    |frame| < MESSAGE_HEADER_SIZE ||
    var size := MESSAGE_HEADER_SIZE + FromBe32(frame[4..8]);
    size <= target.Max() && (size > |frame| || NoneWraps(target, frame[size..]))
  }

  /** The messages of the span stand where they are looked for. */
  predicate Plain(kind: Kind, target: Target, span: seq<byte>) {
    |span| <= target.Max() && (kind.Frames? ==> NoneWraps(target, span))
  }

  ghost predicate AllPlain(kind: Kind, target: Target, spans: seq<Span>) {
    forall i :: 0 <= i < |spans| ==> Plain(kind, target, spans[i].bytes)
  }

  lemma {:induction false} NothingWrapsOn64(frame: seq<byte>)
    ensures NoneWraps(Bits64, frame)
    decreases |frame|
  {
    if HasMessage(frame) {
      NothingWrapsOn64(frame[MessageSize(frame)..]);
    }
  }

  /** All PDUs of spans as they are laid out. */
  function AllSpanPdus(kind: Kind, t: RxAdapterTable, bufferSize: nat, spans: seq<Span>): (pdus: seq<Pdu>)
    requires RxShape(t)
  {
    if kind.Messages? then AllPdus(t, bufferSize, spans) else AllFramePdus(t, bufferSize, spans)
  }

  /** A message whose size does not wrap is found where it is laid out. */
  lemma {:induction false} FrontIsPlain(target: Target, t: RxAdapterTable, frame: seq<byte>)
    requires RxShape(t)
    requires |frame| >= MESSAGE_HEADER_SIZE ==> MESSAGE_HEADER_SIZE + FromBe32(frame[4..8]) <= target.Max()
    ensures MessageSizeOn(target, frame) == MessageSize(frame)
    ensures var k := if HasMessage(frame) then LookupWithLength(t, frame[..MessageSize(frame)]) else None;
      Processed(Frames, target, t, frame) == if k.Some? then Found(k.value) else Discarded
  {
    hide RxShape;
  }

  lemma {:induction false} NoneWrapsBehind(target: Target, frame: seq<byte>)
    requires NoneWraps(target, frame)
    ensures |frame| >= MESSAGE_HEADER_SIZE ==> MESSAGE_HEADER_SIZE + FromBe32(frame[4..8]) <= target.Max()
    ensures NoneWraps(target, frame[MessageSize(frame)..])
  {
  }

  lemma {:induction false} FrontAgrees(target: Target, t: RxAdapterTable, bufferSize: nat, frame: seq<byte>)
    requires RxShape(t) && |frame| <= target.Max() && NoneWraps(target, frame)
    ensures MessageSizeOn(target, frame) == MessageSize(frame) && !Processed(Frames, target, t, frame).Fatal?
    ensures var f := FrontFuture(Frames, target, t, bufferSize, frame);
      && (!f.reset ==>
            f.pdus == if HasMessage(frame) then PdusWithLength(t, bufferSize, frame[..MessageSize(frame)]) else [])
      && (SumsFit(target, t) ==> !f.reset)
  {
    NoneWrapsBehind(target, frame);
    FrontIsPlain(target, t, frame);
    hide RxShape, GroupFuture, GroupPdus, NoneWraps, SumsFit, MessageSizeOn, LookupWithLength, Processed;
    if HasMessage(frame) {
      var message := frame[..MessageSize(frame)];
      var k := LookupWithLength(t, message);
      if k.Some? {
        GroupFutureAgrees(target, t, bufferSize, message, k.value);
      }
    }
  }

  /** Short of a reset, a plain frame is read as it is laid out; with sums that fit there is no reset. */
  lemma {:induction false} FrameAgrees(target: Target, t: RxAdapterTable, bufferSize: nat, frame: seq<byte>)
    requires RxShape(t) && |frame| <= target.Max() && NoneWraps(target, frame)
    ensures var f := SpanFuture(Frames, target, t, bufferSize, frame);
      (!f.reset ==> f.pdus == FramePdus(t, bufferSize, frame)) && (SumsFit(target, t) ==> !f.reset)
    decreases |frame|
  {
    if frame != [] {
      FrontAgrees(target, t, bufferSize, frame);
      NoneWrapsBehind(target, frame);
      hide RxShape, PdusWithLength, FrontFuture, Processed, NoneWraps, SumsFit, MessageSizeOn;
      FrameAgrees(target, t, bufferSize, frame[MessageSize(frame)..]);
    }
  }

  lemma {:induction false} MessageAgrees(target: Target, t: RxAdapterTable, bufferSize: nat, message: seq<byte>)
    requires RxShape(t) && |message| <= target.Max()
    ensures var f := SpanFuture(Messages, target, t, bufferSize, message);
      (!f.reset ==> f.pdus == PdusOf(t, bufferSize, message)) && (SumsFit(target, t) ==> !f.reset)
  {
    var k := Lookup(t, message);
    hide RxShape, GroupFuture, GroupPdus, SumsFit;
    assert message[..|message|] == message && message[|message|..] == [];
    assert SpanFuture(Messages, target, t, bufferSize, []) == NOTHING;
    ThenNothing(FrontFuture(Messages, target, t, bufferSize, message));
    if k.Some? {
      GroupFutureAgrees(target, t, bufferSize, message, k.value);
    }
  }

  /** Short of a reset, plain spans are read as they are laid out; with sums that fit there is no reset. */
  lemma {:induction false} PlainSpans(kind: Kind, target: Target, t: RxAdapterTable, bufferSize: nat, spans: seq<Span>)
    requires RxShape(t) && AllPlain(kind, target, spans)
    ensures var f := AllFuture(kind, target, t, bufferSize, spans);
      (!f.reset ==> f.pdus == AllSpanPdus(kind, t, bufferSize, spans)) && (SumsFit(target, t) ==> !f.reset)
  {
    hide RxShape, SpanFuture, FramePdus, PdusOf, NoneWraps, SumsFit;
    if spans != [] {
      assert Plain(kind, target, spans[0].bytes);
      if kind.Messages? {
        MessageAgrees(target, t, bufferSize, spans[0].bytes);
      } else {
        FrameAgrees(target, t, bufferSize, spans[0].bytes);
      }
      PlainSpans(kind, target, t, bufferSize, spans[1..]);
    }
  }

  /** A table that knows one message id, without any PDU. */
  function OneId(id: u32): (t: RxAdapterTable)
    ensures RxShape(t) && t.pduLengths == []
  {
    var t := RxAdapterTable(0, [id], [], [0, 0], [], []);
    assert forall k: nat :: GroupInRange(t, k);
    t
  }

  /** The message id in front of the first length that wraps. */
  lemma {:induction false} WrapResets(target: Target, frame: seq<byte>) returns (id: u32)
    requires !NoneWraps(target, frame)
    ensures RxShape(OneId(id)) && SumsFit(target, OneId(id))
    ensures SpanFuture(Frames, target, OneId(id), 0, frame).reset
    decreases |frame|
  {
    var size := MESSAGE_HEADER_SIZE + FromBe32(frame[4..8]);
    if size > target.Max() {
      id := FromBe32(frame[..4]);
      assert RxShape(OneId(id)) && SumsFit(target, OneId(id));
      var n := target.Sum(MESSAGE_HEADER_SIZE, FromBe32(frame[4..8]));
      assert n < MESSAGE_HEADER_SIZE && (n >= 4 ==> frame[..n][..4] == frame[..4]);
    } else {
      id := WrapResets(target, frame[size..]);
      hide SpanFuture, NoneWraps, LookupWithLength, OneId;
      FrontIsPlain(target, OneId(id), frame);
      FutureOfRest(target, OneId(id), 0, frame);
    }
  }

  lemma {:induction false} FutureOfRest(target: Target, t: RxAdapterTable, bufferSize: nat, frame: seq<byte>)
    requires RxShape(t) && frame != [] && !Processed(Frames, target, t, frame).Fatal?
    ensures SpanFuture(Frames, target, t, bufferSize, frame[MessageSizeOn(target, frame)..]).reset ==>
              SpanFuture(Frames, target, t, bufferSize, frame).reset
  {
  }

  /**
   With every table whose sums fit, a frame is read as it is laid out, and without a reset, if and only if no length
   that is reached in it makes the message size wrap around. With 64 bits none does, and all sums fit.
   */
  lemma {:induction false} FrameReadExactly(target: Target, frame: seq<byte>)
    requires |frame| <= target.Max()
    ensures (forall t: RxAdapterTable, bufferSize: nat :: RxShape(t) && SumsFit(target, t) ==>
              SpanFuture(Frames, target, t, bufferSize, frame) == Future(FramePdus(t, bufferSize, frame), false))
            <==> NoneWraps(target, frame)
    ensures target.Bits64? ==> NoneWraps(target, frame) && forall t: RxAdapterTable :: SumsFit(target, t)
  {
    hide NoneWraps, SpanFuture, FramePdus, RxShape, OneId;
    if NoneWraps(target, frame) {
      hide SumsFit;
      forall t: RxAdapterTable, bufferSize: nat | RxShape(t) && SumsFit(target, t)
        ensures SpanFuture(Frames, target, t, bufferSize, frame) == Future(FramePdus(t, bufferSize, frame), false)
      {
        FrameAgrees(target, t, bufferSize, frame);
      }
    } else {
      hide SumsFit;
      var id := WrapResets(target, frame);
      assert SpanFuture(Frames, target, OneId(id), 0, frame) != Future(FramePdus(OneId(id), 0, frame), false);
    }
    if target.Bits64? {
      NothingWrapsOn64(frame);
    }
  }

  /** A header with the length 0xFFFFFFF8: a 32-bit ECU is reset, a 64-bit one drops the frame. */
  lemma {:induction false} LargeLengthResets(t: RxAdapterTable, bufferSize: nat, id: u32)
    requires RxShape(t)
    ensures var frame := Be32(id) + Be32(0xFFFF_FFF8);
      && SpanFuture(Frames, Bits32, t, bufferSize, frame) == RESET
      && SpanFuture(Frames, Bits64, t, bufferSize, frame) == NOTHING
  {
    hide RxShape;
    var frame := Be32(id) + Be32(0xFFFF_FFF8);
    Be32RoundTrip(0xFFFF_FFF8);
    assert frame[4..8] == Be32(0xFFFF_FFF8);
    assert frame[|frame|..] == [] && SpanFuture(Frames, Bits64, t, bufferSize, []) == NOTHING;
  }

  // ----- The state of the adapters -----

  /** Readers hand out no empty spans: an empty span means that there is none. */
  ghost predicate NoneEmpty(spans: seq<Span>) {
    spans == [] || (spans[0].bytes != [] && NoneEmpty(spans[1..]))
  }

  lemma {:induction false} NoneEmptyAppend(spans: seq<Span>, span: Span)
    requires NoneEmpty(spans) && span.bytes != []
    ensures NoneEmpty(spans + [span])
  {
    if spans != [] {
      NoneEmptyAppend(spans[1..], span);
      assert (spans + [span])[1..] == spans[1..] + [span];
    } else {
      assert ([span])[1..] == [];
    }
  }

  /** The spans that are left once the first message of the first one is done with. */
  ghost function Advanced(kind: Kind, target: Target, left: seq<Span>): (left': seq<Span>)
    requires left != []
  {
    var n := Extent(kind, target, left[0].bytes);
    if n == |left[0].bytes| then left[1..] else [Span(left[0].bytes[n..])] + left[1..]
  }

  /** Message group k was found for the message in front. */
  ghost predicate InFront(kind: Kind, target: Target, t: RxAdapterTable, left: seq<Span>, k: nat)
    requires t.messageLengths == [] || |t.messageLengths| == |t.messageIds|
  {
    left != [] && Processed(kind, target, t, left[0].bytes) == Found(k)
  }

  /** A message that was entered half-way is still in front, and the group found for it is remembered. */
  ghost predicate Position(kind: Kind, target: Target, t: RxAdapterTable, left: seq<Span>, messageIndex: nat,
      pduIndex: nat)
    requires RxShape(t)
  {
    && NoneEmpty(left)
    && (pduIndex > 0 ==>
          && InFront(kind, target, t, left, messageIndex)
          && t.pduLengthsOffsets[messageIndex] + pduIndex < t.pduLengthsOffsets[messageIndex + 1] <= |t.pduLengths|)
  }

  /** What comes of the message in front, from the i-th PDU of group k on. */
  ghost function MessageRest(kind: Kind, target: Target, t: RxAdapterTable, bufferSize: nat, left: seq<Span>, k: nat,
      i: nat): (f: Future)
    requires RxShape(t) && InFront(kind, target, t, left, k)
    requires t.pduLengthsOffsets[k] + i <= t.pduLengthsOffsets[k + 1] <= |t.pduLengths|
  {
    ExtractFuture(target, t, bufferSize, left[0].bytes[..Extent(kind, target, left[0].bytes)],
                  t.pduLengthsOffsets[k] + i, t.pduLengthsOffsets[k + 1])
  }

  /** What is still to come of the spans in `left`. */
  ghost function Unextracted(kind: Kind, target: Target, t: RxAdapterTable, bufferSize: nat, left: seq<Span>,
      messageIndex: nat, pduIndex: nat): (f: Future)
    requires RxShape(t) && Position(kind, target, t, left, messageIndex, pduIndex)
  {
    if pduIndex == 0 then AllFuture(kind, target, t, bufferSize, left)
    else
      Then(MessageRest(kind, target, t, bufferSize, left, messageIndex, pduIndex),
           AllFuture(kind, target, t, bufferSize, Advanced(kind, target, left)))
  }

  /** What comes of some spans is what comes of the message in front, and of what is left behind it. */
  lemma {:induction false} AdvancedFuture(kind: Kind, target: Target, t: RxAdapterTable, bufferSize: nat,
      left: seq<Span>)
    requires RxShape(t) && left != [] && left[0].bytes != []
    ensures AllFuture(kind, target, t, bufferSize, left)
         == Then(FrontFuture(kind, target, t, bufferSize, left[0].bytes),
                 AllFuture(kind, target, t, bufferSize, Advanced(kind, target, left)))
  {
    var span, spans := left[0], left[1..];
    var front := FrontFuture(kind, target, t, bufferSize, span.bytes);
    var rest := span.bytes[Extent(kind, target, span.bytes)..];
    assert left == [span] + spans;
    AllFutureCons(kind, target, t, bufferSize, span, spans);
    if !Processed(kind, target, t, span.bytes).Fatal? {
      assert SpanFuture(kind, target, t, bufferSize, span.bytes)
          == Then(front, SpanFuture(kind, target, t, bufferSize, rest));
      hide RxShape, AllFuture, Processed, FrontFuture;
      ThenAssociates(front, SpanFuture(kind, target, t, bufferSize, rest),
                     AllFuture(kind, target, t, bufferSize, spans));
      if rest == [] {
        assert SpanFuture(kind, target, t, bufferSize, []) == NOTHING;
        ThenNothing(AllFuture(kind, target, t, bufferSize, spans));
      } else {
        AllFutureCons(kind, target, t, bufferSize, Span(rest), spans);
      }
    }
  }

  lemma {:induction false} AdvancedNoneEmpty(kind: Kind, target: Target, left: seq<Span>)
    requires NoneEmpty(left) && left != []
    ensures NoneEmpty(Advanced(kind, target, left))
  {
    if Extent(kind, target, left[0].bytes) != |left[0].bytes| {
      assert Advanced(kind, target, left)[1..] == left[1..];
    }
  }

  /** One more span at the end: what comes of it comes last. */
  lemma {:induction false} UnextractedAppend(kind: Kind, target: Target, t: RxAdapterTable, bufferSize: nat,
      left: seq<Span>, messageIndex: nat, pduIndex: nat, span: Span)
    requires RxShape(t) && Position(kind, target, t, left, messageIndex, pduIndex) && span.bytes != []
    ensures Position(kind, target, t, left + [span], messageIndex, pduIndex)
    ensures Unextracted(kind, target, t, bufferSize, left + [span], messageIndex, pduIndex)
         == Then(Unextracted(kind, target, t, bufferSize, left, messageIndex, pduIndex),
                 SpanFuture(kind, target, t, bufferSize, span.bytes))
  {
    hide RxShape, SpanFuture, Processed, ExtractFuture;
    NoneEmptyAppend(left, span);
    AllFutureOne(kind, target, t, bufferSize, span);
    if pduIndex == 0 {
      AllFutureAppend(kind, target, t, bufferSize, left, [span]);
    } else {
      assert (left + [span])[0] == left[0];
      assert Advanced(kind, target, left + [span]) == Advanced(kind, target, left) + [span];
      AllFutureAppend(kind, target, t, bufferSize, Advanced(kind, target, left), [span]);
      ThenAssociates(MessageRest(kind, target, t, bufferSize, left, messageIndex, pduIndex),
                     AllFuture(kind, target, t, bufferSize, Advanced(kind, target, left)),
                     SpanFuture(kind, target, t, bufferSize, span.bytes));
    }
  }

  lemma {:induction false} UnextractedSplit(kind: Kind, target: Target, t: RxAdapterTable, bufferSize: nat,
      left: seq<Span>, k: nat, i: nat)
    requires RxShape(t) && Position(kind, target, t, left, k, i) && InFront(kind, target, t, left, k)
    requires t.pduLengthsOffsets[k] + i <= t.pduLengthsOffsets[k + 1] <= |t.pduLengths|
    ensures Unextracted(kind, target, t, bufferSize, left, k, i)
         == Then(MessageRest(kind, target, t, bufferSize, left, k, i),
                 AllFuture(kind, target, t, bufferSize, Advanced(kind, target, left)))
  {
    hide AllFuture, ExtractFuture, Advanced, Processed;
    if i == 0 {
      AdvancedFuture(kind, target, t, bufferSize, left);
    }
  }

  /** The inner loop of peek() stopped at PDU `next` of the group, or behind its end. */
  lemma {:induction false} UnextractedAfter(kind: Kind, target: Target, t: RxAdapterTable, bufferSize: nat,
      left: seq<Span>, k: nat, i: nat, f: Future, next: nat)
    requires RxShape(t) && Position(kind, target, t, left, k, i) && InFront(kind, target, t, left, k)
    requires i <= next && t.pduLengthsOffsets[k] + next <= t.pduLengthsOffsets[k + 1] <= |t.pduLengths|
    requires MessageRest(kind, target, t, bufferSize, left, k, i)
          == Then(f, MessageRest(kind, target, t, bufferSize, left, k, next))
    ensures var done := t.pduLengthsOffsets[k] + next == t.pduLengthsOffsets[k + 1];
      var left', next' := if done then Advanced(kind, target, left) else left, if done then 0 else next;
      && Position(kind, target, t, left', k, next')
      && Unextracted(kind, target, t, bufferSize, left, k, i)
         == Then(f, Unextracted(kind, target, t, bufferSize, left', k, next'))
  {
    var behind := AllFuture(kind, target, t, bufferSize, Advanced(kind, target, left));
    AdvancedNoneEmpty(kind, target, left);
    NothingBehindTheGroup(kind, target, t, bufferSize, left, k, next);
    hide RxShape, MessageRest, AllFuture, Processed, Advanced;
    UnextractedSplit(kind, target, t, bufferSize, left, k, i);
    ThenAssociates(f, MessageRest(kind, target, t, bufferSize, left, k, next), behind);
    ThenNothing(behind);
    if t.pduLengthsOffsets[k] + next < t.pduLengthsOffsets[k + 1] {
      assert Position(kind, target, t, left, k, next);
      UnextractedSplit(kind, target, t, bufferSize, left, k, next);
    }
  }

  lemma {:induction false} NothingBehindTheGroup(kind: Kind, target: Target, t: RxAdapterTable, bufferSize: nat,
      left: seq<Span>, k: nat, i: nat)
    requires RxShape(t) && InFront(kind, target, t, left, k)
    requires t.pduLengthsOffsets[k] + i <= t.pduLengthsOffsets[k + 1] <= |t.pduLengths|
    ensures t.pduLengthsOffsets[k] + i == t.pduLengthsOffsets[k + 1] ==>
      MessageRest(kind, target, t, bufferSize, left, k, i) == NOTHING
  {
  }

  lemma {:induction false} UnextractedReset(kind: Kind, target: Target, t: RxAdapterTable, bufferSize: nat,
      left: seq<Span>, k: nat, i: nat)
    requires RxShape(t) && Position(kind, target, t, left, k, i) && InFront(kind, target, t, left, k)
    requires t.pduLengthsOffsets[k] + i <= t.pduLengthsOffsets[k + 1] <= |t.pduLengths|
    requires MessageRest(kind, target, t, bufferSize, left, k, i) == RESET
    ensures Unextracted(kind, target, t, bufferSize, left, k, i) == RESET
  {
    hide RxShape, MessageRest, AllFuture, Processed, Advanced;
    UnextractedSplit(kind, target, t, bufferSize, left, k, i);
  }

  /** A message that is discarded has no future. */
  lemma {:induction false} UnextractedDiscarded(kind: Kind, target: Target, t: RxAdapterTable, bufferSize: nat,
      left: seq<Span>)
    requires RxShape(t) && left != [] && left[0].bytes != []
    ensures Processed(kind, target, t, left[0].bytes).Discarded? ==>
      AllFuture(kind, target, t, bufferSize, left)
      == AllFuture(kind, target, t, bufferSize, Advanced(kind, target, left))
    ensures Processed(kind, target, t, left[0].bytes).Fatal? ==> AllFuture(kind, target, t, bufferSize, left) == RESET
  {
    AdvancedFuture(kind, target, t, bufferSize, left);
    hide RxShape, AllFuture, Processed, Advanced;
    ThenNothing(AllFuture(kind, target, t, bufferSize, Advanced(kind, target, left)));
  }

  /** The inner loop of peek(): tries PDU after PDU of group k from `start` on until one can be extracted. */
  method ExtractNext(target: Target, t: RxAdapterTable, bufferSize: nat, message: seq<byte>, k: nat, start: nat)
    returns (pdu: Option<Pdu>, next: nat, reset: bool)
    requires RxShape(t) && k < |t.messageIds| && MESSAGE_HEADER_SIZE <= |message|
    requires t.pduLengthsOffsets[k] + start <= t.pduLengthsOffsets[k + 1] <= |t.pduLengths|
    ensures reset ==>
      ExtractFuture(target, t, bufferSize, message, t.pduLengthsOffsets[k] + start, t.pduLengthsOffsets[k + 1]) == RESET
    ensures !reset ==>
      && start <= next && t.pduLengthsOffsets[k] + next <= t.pduLengthsOffsets[k + 1]
      && (pdu.None? ==> t.pduLengthsOffsets[k] + next == t.pduLengthsOffsets[k + 1])
      && (pdu.Some? ==> start < next && pdu.value.id < t.firstId + |t.pduLengths|)
      && var end := t.pduLengthsOffsets[k + 1];
         ExtractFuture(target, t, bufferSize, message, t.pduLengthsOffsets[k] + start, end)
         == Then(Handed(pdu), ExtractFuture(target, t, bufferSize, message, t.pduLengthsOffsets[k] + next, end))
  {
    hide ExtractOn, Then;
    var first, end := t.pduLengthsOffsets[k], t.pduLengthsOffsets[k + 1];
    pdu, next, reset := None, start, false;
    ThenNothing(ExtractFuture(target, t, bufferSize, message, first + start, end));
    while pdu.None? && first + next < end
      invariant start <= next && first + next <= end
      invariant pdu.Some? ==> start < next && pdu.value.id < t.firstId + |t.pduLengths|
      invariant ExtractFuture(target, t, bufferSize, message, first + start, end)
             == Then(Handed(pdu), ExtractFuture(target, t, bufferSize, message, first + next, end))
      decreases end - (first + next)
    {
      var e := ExtractOn(target, t, bufferSize, message, first + next);
      ghost var behind := ExtractFuture(target, t, bufferSize, message, first + next + 1, end);
      ThenNothing(Then(FutureOf(e), behind));
      if e.Reset? {
        ResetStays(behind);
        reset := true;
        return;
      }
      if e.Extracted? {
        pdu := Some(e.pdu);
      }
      ThenNothing(behind);
      next := next + 1;
    }
  }

  lemma {:induction false} ResetStays(f: Future)
    ensures Then(RESET, f) == RESET
  {
  }

  // ----- RxAdapter -----

  /**
   RxAdapter (and LegacyRxAdapter, which only adds the buffer): a reader of PDUs on top of a reader of messages.
   `input` holds the messages that the underlying reader will still hand out; its head is what peek() sees.
   */
  class RxAdapter {
    const target: Target
    const table: RxAdapterTable
    const bufferSize: nat
    var input: seq<Span>
    var currentMessageIndex: nat
    var currentPduIndex: nat
    var currentPdu: Option<Pdu>

    ghost predicate Valid()
      reads this`input, this`currentMessageIndex, this`currentPduIndex, this`currentPdu
    {
      && RxShape(table)
      && Position(Messages, target, table, input, currentMessageIndex, currentPduIndex)
      && (currentPdu.Some? ==> currentPdu.value.id < table.firstId + |table.pduLengths|)
    }

    /** What is left to extract from the messages. */
    ghost function Rest(): (f: Future)
      requires Valid()
      reads this`input, this`currentMessageIndex, this`currentPduIndex, this`currentPdu
    {
      Unextracted(Messages, target, table, bufferSize, input, currentMessageIndex, currentPduIndex)
    }

    /** What the adapter will still hand out: the whole future of the reader. */
    ghost function Pending(): (f: Future)
      requires Valid()
      reads this
    {
      Then(Handed(currentPdu), Rest())
    }

    constructor (target: Target, table: RxAdapterTable, bufferSize: nat)
      requires RxShape(table)
      ensures Valid() && Pending() == NOTHING
      ensures this.target == target && this.table == table && this.bufferSize == bufferSize
    {
      this.target := target;
      this.table := table;
      this.bufferSize := bufferSize;
      input := [];
      currentMessageIndex := 0;
      currentPduIndex := 0;
      currentPdu := None;
    }

    /** A message arrives at the underlying reader. */
    method Receive(message: Span)
      requires Valid() && message.bytes != []
      modifies this`input
      ensures Valid()
      ensures Pending() == Then(old(Pending()), SpanFuture(Messages, target, table, bufferSize, message.bytes))
    {
      hide RxShape, Position, Unextracted, SpanFuture, Then;
      UnextractedAppend(Messages, target, table, bufferSize, input, currentMessageIndex, currentPduIndex, message);
      ThenAssociates(Handed(currentPdu), Rest(), SpanFuture(Messages, target, table, bufferSize, message.bytes));
      input := input + [message];
    }

    /** One round of the loop of peek(): looks up a new message, and tries to extract one more PDU. */
    method TryFront() returns (pdu: Option<Pdu>, reset: bool)
      requires Valid() && input != [] && currentPdu.None?
      modifies this`input, this`currentMessageIndex, this`currentPduIndex
      ensures reset ==> old(Rest()) == RESET
      ensures !reset ==>
        && Valid() && old(Rest()) == Then(Handed(pdu), Rest())
        && (pdu.Some? ==> pdu.value.id < table.firstId + |table.pduLengths|)
        && (pdu.None? ==> |input| < old(|input|))
    {
      hide ExtractFuture, AllFuture, Lookup;
      pdu, reset := None, false;
      ghost var left := input;
      var message := input[0].bytes;
      assert message[..|message|] == message && Advanced(Messages, target, left) == left[1..];
      if currentPduIndex == 0 {
        var k := Lookup(table, message);
        UnextractedDiscarded(Messages, target, table, bufferSize, left);
        if k.None? {
          input := input[1..];
          ThenNothing(Rest());
          return;
        }
        currentMessageIndex := k.value;
      }
      var k := currentMessageIndex;
      assert GroupInRange(table, k);
      var next;
      pdu, next, reset := ExtractNext(target, table, bufferSize, message, k, currentPduIndex);
      if reset {
        UnextractedReset(Messages, target, table, bufferSize, left, k, currentPduIndex);
        return;
      }
      UnextractedAfter(Messages, target, table, bufferSize, left, k, currentPduIndex, Handed(pdu), next);
      currentPduIndex := next;
      var numberOfPdus := table.pduLengthsOffsets[k + 1] - table.pduLengthsOffsets[k];
      if currentPduIndex == numberOfPdus {
        input := input[1..];
        currentPduIndex := 0;
      }
    }

    /**
     peek(): returns the next pending PDU, or nothing if there is none; what is pending does not change. If there is no
     PDU before the next reset, it is the reset that happens.
     */
    method Peek() returns (pdu: Option<Pdu>, reset: bool)
      requires Valid()
      modifies this`input, this`currentMessageIndex, this`currentPduIndex, this`currentPdu
      ensures reset <==> old(Pending()) == RESET
      ensures !reset ==>
        && Valid() && Pending() == old(Pending()) && pdu == currentPdu
        && pdu == (if Pending().pdus == [] then None else Some(Pending().pdus[0]))
    {
      hide Position, AllFuture;
      pdu, reset := currentPdu, false;
      if currentPdu.Some? {
        return;
      }
      ThenNothing(Rest());
      while input != []
        invariant Valid() && currentPdu.None? && Rest() == old(Rest())
        decreases |input|
      {
        pdu, reset := TryFront();
        if reset {
          return;
        }
        if pdu.Some? {
          currentPdu := pdu;
          return;
        }
        ThenNothing(Rest());
      }
      pdu := None;
      NothingLeft(Messages, target, table, bufferSize, currentMessageIndex, currentPduIndex);
    }

    /** release(): drops the PDU that peek() returned. */
    method Release()
      requires Valid()
      modifies this`currentPdu
      ensures Valid() && currentPdu.None?
      ensures Pending() == if old(currentPdu.None?) then old(Pending())
                           else Future(old(Pending()).pdus[1..], old(Pending()).reset)
    {
      currentPdu := None;
    }
  }

  lemma {:induction false} NothingLeft(kind: Kind, target: Target, t: RxAdapterTable, bufferSize: nat,
      messageIndex: nat, pduIndex: nat)
    requires RxShape(t) && Position(kind, target, t, [], messageIndex, pduIndex)
    ensures Unextracted(kind, target, t, bufferSize, [], messageIndex, pduIndex) == NOTHING
  {
  }

  // ----- PduTransportRxAdapter: several messages in one frame -----

  /** The frames that are left when `currentFrame` is what is left of the first one. */
  ghost function Left(input: seq<Span>, currentFrame: seq<byte>): (left: seq<Span>) {
    if currentFrame == [] || input == [] then input else [Span(currentFrame)] + input[1..]
  }

  /**
   PduTransportRxAdapter. `input` holds the frames that the underlying reader will still hand out;
   `currentFrame` is what is left of the first one, or empty if the reader has to be asked again.
   */
  class PduTransportRxAdapter {
    const target: Target
    const table: RxAdapterTable
    const bufferSize: nat
    var input: seq<Span>
    var currentFrame: seq<byte>
    var currentMessageSize: nat
    var currentMessageIndex: nat
    var currentPduIndex: nat
    var currentPdu: Option<Pdu>

    ghost predicate Valid()
      reads this
    {
      && RxShape(table) && NoneEmpty(input)
      && (input == [] ==> currentFrame == [])
      && Position(Frames, target, table, Left(input, currentFrame), currentMessageIndex, currentPduIndex)
      && (currentPduIndex > 0 ==> currentFrame != [] && currentMessageSize == MessageSizeOn(target, currentFrame))
      && (currentPdu.Some? ==> currentPdu.value.id < table.firstId + |table.pduLengths|)
    }

    /** What is left to extract from the frames. */
    ghost function Rest(): (f: Future)
      requires Valid()
      reads this
    {
      Unextracted(Frames, target, table, bufferSize, Left(input, currentFrame), currentMessageIndex, currentPduIndex)
    }

    /** What the adapter will still hand out: the whole future of the reader. */
    ghost function Pending(): (f: Future)
      requires Valid()
      reads this
    {
      Then(Handed(currentPdu), Rest())
    }

    constructor (target: Target, table: RxAdapterTable, bufferSize: nat)
      requires RxShape(table)
      ensures Valid() && Pending() == NOTHING
      ensures this.target == target && this.table == table && this.bufferSize == bufferSize
    {
      this.target := target;
      this.table := table;
      this.bufferSize := bufferSize;
      input := [];
      currentFrame := [];
      currentMessageSize := 0;
      currentMessageIndex := 0;
      currentPduIndex := 0;
      currentPdu := None;
    }

    /** A frame arrives at the underlying reader. */
    method Receive(frame: Span)
      requires Valid() && frame.bytes != []
      modifies this`input
      ensures Valid()
      ensures Pending() == Then(old(Pending()), SpanFuture(Frames, target, table, bufferSize, frame.bytes))
    {
      hide RxShape, Position, Unextracted, SpanFuture, Then;
      UnextractedAppend(Frames, target, table, bufferSize, Left(input, currentFrame), currentMessageIndex,
                        currentPduIndex, frame);
      NoneEmptyAppend(input, frame);
      assert Left(input + [frame], currentFrame) == Left(input, currentFrame) + [frame];
      ThenAssociates(Handed(currentPdu), Rest(), SpanFuture(Frames, target, table, bufferSize, frame.bytes));
      input := input + [frame];
    }

    /** currentFrame.advance(), and on to the next frame if nothing is left of this one. */
    method Advance()
      requires NoneEmpty(input) && input != [] && currentFrame != []
      requires currentMessageSize == MessageSizeOn(target, currentFrame) > 0
      modifies this`input, this`currentFrame
      ensures NoneEmpty(input) && (input == [] ==> currentFrame == [])
      ensures Left(input, currentFrame) == old(Advanced(Frames, target, Left(input, currentFrame)))
      ensures currentFrame == [] ==> input == []
      ensures |input| <= old(|input|) && (|input| == old(|input|) ==> |currentFrame| < old(|currentFrame|))
    {
      currentFrame := currentFrame[currentMessageSize..];
      if currentFrame == [] {
        input := input[1..];
        currentFrame := if input == [] then [] else input[0].bytes;
      }
    }

    /** processMessage(): determines the extent of the message in front, and looks it up. */
    method ProcessMessage() returns (verdict: Verdict)
      requires Valid() && currentFrame != []
      modifies this`currentMessageSize, this`currentMessageIndex
      ensures currentMessageSize == MessageSizeOn(target, currentFrame)
      ensures verdict == Processed(Frames, target, table, currentFrame)
      ensures verdict.Found? ==> currentMessageIndex == verdict.k
    {
      if |currentFrame| < MESSAGE_HEADER_SIZE {
        currentMessageSize := |currentFrame|;
        return Discarded;
      }
      var messageSize := target.Sum(MESSAGE_HEADER_SIZE, FromBe32(currentFrame[4..8]));
      if messageSize > |currentFrame| {
        currentMessageSize := |currentFrame|;
        return Discarded;
      }
      currentMessageSize := messageSize;
      verdict := LookupOn(table, currentFrame[..currentMessageSize]);
      if verdict.Found? {
        currentMessageIndex := verdict.k;
      }
    }

    /** One round of the loop of peek(): processes a new message, and tries to extract one more PDU. */
    method TryFront() returns (pdu: Option<Pdu>, reset: bool)
      requires Valid() && currentFrame != [] && currentPdu.None?
      modifies this`input, this`currentFrame, this`currentMessageSize, this`currentMessageIndex, this`currentPduIndex
      ensures reset ==> old(Rest()) == RESET
      ensures !reset ==>
        && Valid() && old(Rest()) == Then(Handed(pdu), Rest())
        && (pdu.Some? ==> pdu.value.id < table.firstId + |table.pduLengths|)
        && (pdu.None? ==>
              && |input| <= old(|input|) && (|input| == old(|input|) ==> |currentFrame| < old(|currentFrame|))
              && (currentFrame == [] ==> input == []))
    {
      hide ExtractFuture, AllFuture, Advanced, Processed;
      pdu, reset := None, false;
      ghost var left := Left(input, currentFrame);
      if currentPduIndex == 0 {
        var verdict := ProcessMessage();
        UnextractedDiscarded(Frames, target, table, bufferSize, left);
        if verdict.Fatal? {
          reset := true;
          return;
        }
        if verdict.Discarded? {
          AdvancedNoneEmpty(Frames, target, left);
          Advance();
          ThenNothing(Rest());
          return;
        }
      }
      var k := currentMessageIndex;
      assert GroupInRange(table, k);
      var next;
      pdu, next, reset := ExtractNext(target, table, bufferSize, currentFrame[..currentMessageSize], k,
                                      currentPduIndex);
      if reset {
        UnextractedReset(Frames, target, table, bufferSize, left, k, currentPduIndex);
        return;
      }
      UnextractedAfter(Frames, target, table, bufferSize, left, k, currentPduIndex, Handed(pdu), next);
      currentPduIndex := next;
      var numberOfPdus := table.pduLengthsOffsets[k + 1] - table.pduLengthsOffsets[k];
      if currentPduIndex == numberOfPdus {
        currentPduIndex := 0;
        Advance();
      }
    }

    /** peek(): as that of RxAdapter, over frames. */
    method Peek() returns (pdu: Option<Pdu>, reset: bool)
      requires Valid()
      modifies this`input, this`currentFrame, this`currentMessageSize, this`currentMessageIndex, this`currentPduIndex,
               this`currentPdu
      ensures reset <==> old(Pending()) == RESET
      ensures !reset ==>
        && Valid() && Pending() == old(Pending()) && pdu == currentPdu
        && pdu == (if Pending().pdus == [] then None else Some(Pending().pdus[0]))
    {
      hide Position, AllFuture;
      pdu, reset := currentPdu, false;
      if currentPdu.Some? {
        return;
      }
      ThenNothing(Rest());
      if currentFrame == [] {
        currentFrame := if input == [] then [] else input[0].bytes;
        assert Left(input, currentFrame) == input;
      }
      while currentFrame != []
        invariant Valid() && currentPdu.None? && Rest() == old(Rest())
        invariant currentFrame == [] ==> input == []
        decreases |input|, |currentFrame|
      {
        pdu, reset := TryFront();
        if reset {
          return;
        }
        if pdu.Some? {
          currentPdu := pdu;
          return;
        }
        ThenNothing(Rest());
      }
      pdu := None;
      NothingLeft(Frames, target, table, bufferSize, currentMessageIndex, currentPduIndex);
    }

    /** release(): drops the PDU that peek() returned. */
    method Release()
      requires Valid()
      modifies this`currentPdu
      ensures Valid() && currentPdu.None?
      ensures Pending() == if old(currentPdu.None?) then old(Pending())
                           else Future(old(Pending()).pdus[1..], old(Pending()).reset)
    {
      currentPdu := None;
    }
  }
}
