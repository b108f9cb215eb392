/**
 What arrives on a channel, and what becomes of it: CAN and FlexRay channels read messages, PDU transport channels
 read frames of several messages and filter them by length. For both, what the compiled blob makes the ECU do.
 */
module Reception {
  import opened Results
  import opened Bytes
  import opened SizeT
  import opened BlobFormat
  import opened BlobReader
  import opened RoutingTable
  import opened Flatten
  import opened Channels
  import opened Records
  import opened TableReader
  import opened RoundTrip
  import opened Ecu
  import opened EndToEnd
  import opened Frame = Frames
  import R = Router

  // ----- Specification -----

  function KindOf(t: ChannelType): (kind: Kind) {
    if t.PduTransport? then Kind.Frames else Messages
  }

  /** The adapter that the integration chooses: by the channel type in the header of the Rx record. */
  function KindIn(blob: seq<byte>, c: byte): (kind: Option<Kind>) {
    var header := LoadHeader(FindConfigFor(blob, RX_ADAPTER, c).data);
    if header.None? then None
    else Some(if header.value.channelType == ChannelTypeValue(PduTransport) then Kind.Frames else Messages)
  }

  /** What rows make of messages, or of frames of messages. */
  function Deliveries(kind: Kind, writers: seq<R.Writer>, source: nat, bufferSize: nat, spans: seq<Span>,
      rows: seq<Row>): (ds: seq<R.Delivery>)
  {
    if kind.Messages? then AllDeliveries(writers, source, bufferSize, spans, rows)
    else AllFrameDeliveries(writers, source, bufferSize, spans, rows)
  }

  /** The largest payload of a message that rows of this id are used for, or -1 if there is none. */
  function LargestPayload(kind: Kind, target: Target, rows: seq<Row>, messageId: int): (size: int) {
    var limit := target.Max() - MESSAGE_HEADER_SIZE;
    if kind.Messages? || !AllLengthsPositive(rows) then limit
    else
      var length := FirstLength(rows, messageId);
      if length.None? || length.value > limit then -1 else length.value
  }

  /** Offset and length add up to a size_t, or to more than any such payload. */
  predicate RowFits(kind: Kind, target: Target, rows: seq<Row>, j: nat)
    requires j < |rows|
  {
    var key := rows[j].key;
    || key.pduOffset + key.pduLength <= target.Max()
    || key.pduOffset + key.pduLength - target.Max() - 1 > LargestPayload(kind, target, rows, key.messageId)
  }

  ghost predicate RowsFit(kind: Kind, target: Target, rows: seq<Row>) {
    forall j: nat :: j < |rows| ==> RowFits(kind, target, rows, j)
  }

  // ----- Deliveries -----

  /** Meaning preserved, as spans are laid out: their PDUs, routed, are what the rows ask for. */
  lemma {:induction false} LaidOutDelivered(kind: Kind, rt: PduRoutingTable, all: seq<Row>, t: RxAdapterTable,
      rows: seq<Row>, writers: seq<R.Writer>, source: nat, bufferSize: nat, spans: seq<Span>)
    requires RoutingMeans(rt, all) && R.RoutingShape(rt) && RxMeans(t, rows) && RowsAt(all, t.firstId, rows)
    requires StrictlySorted(KeysOf(rows))
    ensures R.AllRouted(rt, writers, source, AllSpanPdus(kind, t, bufferSize, spans))
         == Deliveries(kind, writers, source, bufferSize, spans, rows)
  {
    hide RoutingMeans, R.RoutingShape, R.AllRouted, RowsAt, StrictlySorted, AllDeliveries, AllFrameDeliveries,
      RxMessageIds, RxMessageLengths, RxPduLengthOffsets, IsGroupIndex;
    if kind.Messages? {
      PdusOfMessagesDeliver(rt, all, t, rows, writers, source, bufferSize, spans);
    } else {
      PdusOfFramesDeliver(rt, all, t, rows, writers, source, bufferSize, spans);
    }
  }

  /** Meaning preserved: short of a reset, what is extracted from plain spans and routed is what the rows ask for. */
  lemma {:induction false} SpansDelivered(kind: Kind, target: Target, rt: PduRoutingTable, all: seq<Row>,
      t: RxAdapterTable, rows: seq<Row>, writers: seq<R.Writer>, source: nat, bufferSize: nat, spans: seq<Span>)
    requires RoutingMeans(rt, all) && R.RoutingShape(rt) && RxMeans(t, rows) && RowsAt(all, t.firstId, rows)
    requires StrictlySorted(KeysOf(rows)) && AllPlain(kind, target, spans)
    ensures var f := AllFuture(kind, target, t, bufferSize, spans);
      !f.reset ==>
        R.AllRouted(rt, writers, source, f.pdus) == Deliveries(kind, writers, source, bufferSize, spans, rows)
  {
    MeansHasShape(t, rows);
    LaidOutDelivered(kind, rt, all, t, rows, writers, source, bufferSize, spans);
    hide *;
    PlainSpans(kind, target, t, bufferSize, spans);
  }

  // ----- Resets -----

  /** extract() resets the ECU exactly if the sum wraps around to a value within the payload. */
  lemma {:induction false} ExtractResets(target: Target, t: RxAdapterTable, bufferSize: nat, message: seq<byte>, j: nat)
    requires j < |t.pduLengths| == |t.pduOffsets| && MESSAGE_HEADER_SIZE <= |message| <= target.Max()
    requires t.firstId + j <= MAX_U32
    ensures ExtractOn(target, t, bufferSize, message, j).Reset? <==>
      && t.pduOffsets[j] + t.pduLengths[j] > target.Max()
      && t.pduOffsets[j] + t.pduLengths[j] - target.Max() - 1 <= |message| - MESSAGE_HEADER_SIZE
  {
  }

  lemma {:induction false} ColumnsOfRow(t: RxAdapterTable, rows: seq<Row>, j: nat)
    requires RxMeans(t, rows) && j < |rows|
    ensures |t.pduLengths| == |t.pduOffsets| == |rows| && t.firstId + |rows| <= MAX_U32
    ensures t.pduOffsets[j] == rows[j].key.pduOffset && t.pduLengths[j] == rows[j].key.pduLength
  {
    hide RxMessageIds, RxMessageLengths, RxPduLengthOffsets, IsGroupIndex, RxShape;
  }

  /** The rows of group k have its message id, and no others. */
  lemma {:induction false} GroupIsOfId(t: RxAdapterTable, rows: seq<Row>, k: nat)
    requires RxMeans(t, rows) && k < |t.messageIds|
    ensures RxShape(t) && t.pduLengthsOffsets[k] <= t.pduLengthsOffsets[k + 1] <= |rows| == |t.pduLengths|
    ensures forall j :: 0 <= j < |rows| ==>
      (t.pduLengthsOffsets[k] <= j < t.pduLengthsOffsets[k + 1] <==> rows[j].key.messageId == t.messageIds[k])
  {
    hide RxMessageIds, RxMessageLengths, RxPduLengthOffsets, RxShape, R.AllRouted;
    GroupHoldsAllRows([], 0, 0, [], RxMessageIds(rows), RxPduLengthOffsets(rows), rows, k);
    OutsideTheGroup(RxMessageIds(rows), RxPduLengthOffsets(rows), rows, k);
    assert |t.pduLengths| == |rows|;
  }

  /** A group resets the ECU exactly if the sum of one of its rows wraps around to a value within the payload. */
  lemma {:induction false} GroupResets(target: Target, t: RxAdapterTable, rows: seq<Row>, bufferSize: nat,
      message: seq<byte>, k: nat)
    requires RxMeans(t, rows) && RxShape(t) && k < |t.messageIds| && MESSAGE_HEADER_SIZE <= |message| <= target.Max()
    ensures GroupFuture(target, t, bufferSize, message, k).reset <==> exists j: nat ::
      j < |rows| && rows[j].key.messageId == t.messageIds[k] && RowResets(target, rows[j].key, |message|)
  {
    assert GroupInRange(t, k);
    var lo, hi := t.pduLengthsOffsets[k], t.pduLengthsOffsets[k + 1];
    ExtractFutureAgrees(target, t, bufferSize, message, lo, hi);
    GroupIsOfId(t, rows, k);
    hide RxMeans, RxShape, ExtractFuture, ExtractOn;
    forall j: nat | j < |rows|
      ensures ExtractOn(target, t, bufferSize, message, j).Reset? <==> RowResets(target, rows[j].key, |message|)
    {
      ColumnsOfRow(t, rows, j);
      ExtractResets(target, t, bufferSize, message, j);
    }
  }

  predicate RowResets(target: Target, key: Key, messageSize: nat) {
    && key.pduOffset + key.pduLength > target.Max()
    && key.pduOffset + key.pduLength - target.Max() - 1 <= messageSize - MESSAGE_HEADER_SIZE
  }

  /** A message that is looked up has no larger payload than the rows of its id are used for. */
  lemma {:induction false} FoundIsAdmissible(kind: Kind, target: Target, t: RxAdapterTable, rows: seq<Row>,
      span: seq<byte>)
    requires RxMeans(t, rows) && RxShape(t) && StrictlySorted(KeysOf(rows)) && Plain(kind, target, span)
    requires Processed(kind, target, t, span).Found?
    ensures var k, n := Processed(kind, target, t, span).k, Extent(kind, target, span);
      MESSAGE_HEADER_SIZE <= n <= target.Max()
      && n - MESSAGE_HEADER_SIZE <= LargestPayload(kind, target, rows, t.messageIds[k])
  {
    var k := Processed(kind, target, t, span).k;
    if kind.Frames? {
      NoneWrapsBehind(target, span);
      FrontIsPlain(target, t, span);
      LengthOfGroup(rows, k);
      hide RxMessageIds, RxMessageLengths, RxPduLengthOffsets, IsGroupIndex, RxShape, StrictlySorted, NoneWraps;
      var message := span[..MessageSize(span)];
      assert message[4..8] == span[4..8];
    }
  }

  lemma {:induction false} FrontSurvives(kind: Kind, target: Target, t: RxAdapterTable, rows: seq<Row>, bufferSize: nat,
      span: seq<byte>)
    requires RxMeans(t, rows) && RxShape(t) && StrictlySorted(KeysOf(rows)) && Plain(kind, target, span)
    requires RowsFit(kind, target, rows)
    ensures !Processed(kind, target, t, span).Fatal? && !FrontFuture(kind, target, t, bufferSize, span).reset
  {
    if kind.Frames? {
      NoneWrapsBehind(target, span);
      FrontIsPlain(target, t, span);
    }
    var v := Processed(kind, target, t, span);
    if v.Found? {
      FoundIsAdmissible(kind, target, t, rows, span);
      var message := span[..Extent(kind, target, span)];
      GroupResets(target, t, rows, bufferSize, message, v.k);
      hide RxMeans, RxShape, StrictlySorted, GroupFuture, Processed, LargestPayload, NoneWraps;
      forall j: nat | j < |rows| && rows[j].key.messageId == t.messageIds[v.k]
        ensures !RowResets(target, rows[j].key, |message|)
      {
        assert RowFits(kind, target, rows, j);
      }
    }
  }

  lemma {:induction false} PlainBehind(kind: Kind, target: Target, t: RxAdapterTable, span: seq<byte>)
    requires RxShape(t) && Plain(kind, target, span)
    ensures Plain(kind, target, span[Extent(kind, target, span)..])
  {
    if kind.Frames? {
      NoneWrapsBehind(target, span);
      FrontIsPlain(target, t, span);
    } else {
      assert span[|span|..] == [];
    }
  }

  lemma {:induction false} SpanSurvives(kind: Kind, target: Target, t: RxAdapterTable, rows: seq<Row>, bufferSize: nat,
      span: seq<byte>)
    requires RxMeans(t, rows) && RxShape(t) && StrictlySorted(KeysOf(rows)) && Plain(kind, target, span)
    requires RowsFit(kind, target, rows)
    ensures !SpanFuture(kind, target, t, bufferSize, span).reset
    decreases |span|
  {
    hide RxMeans, RxShape, StrictlySorted, FrontFuture, Processed, RowsFit, Plain;
    if span != [] {
      FrontSurvives(kind, target, t, rows, bufferSize, span);
      PlainBehind(kind, target, t, span);
      ExtentAdvances(kind, target, t, span);
      SpanSurvives(kind, target, t, rows, bufferSize, span[Extent(kind, target, span)..]);
    }
  }

  lemma {:induction false} ExtentAdvances(kind: Kind, target: Target, t: RxAdapterTable, span: seq<byte>)
    requires RxShape(t) && span != [] && !Processed(kind, target, t, span).Fatal?
    ensures Extent(kind, target, span) > 0
  {
  }

  /** A span of one message, of a length that the rows of its id are used for. */
  function Probe(id: u32, size: u32): (message: seq<byte>) {
    Be32(id) + Be32(size) + Fill(size, 0)
  }

  lemma {:induction false} ProbeParts(id: u32, size: u32)
    ensures var m := Probe(id, size);
      && FromBe32(m[..4]) == id && FromBe32(m[4..8]) == size && |m| == MESSAGE_HEADER_SIZE + size
  {
    var m := Probe(id, size);
    Be32RoundTrip(id);
    Be32RoundTrip(size);
    assert m[..4] == Be32(id) && m[4..8] == Be32(size);
  }

  /** The size of a payload that shows that a row does not fit. */
  lemma {:induction false} ProbeSize(kind: Kind, target: Target, rows: seq<Row>, j: nat) returns (size: u32)
    requires j < |rows| && !RowFits(kind, target, rows, j)
    requires 0 <= rows[j].key.pduOffset <= MAX_U32 && 0 <= rows[j].key.pduLength <= MAX_U32
    requires kind.Frames? && AllLengthsPositive(rows) ==>
      var length := FirstLength(rows, rows[j].key.messageId); length.Some? && 0 <= length.value <= MAX_U32
    ensures size + MESSAGE_HEADER_SIZE <= target.Max()
    ensures RowResets(target, rows[j].key, size + MESSAGE_HEADER_SIZE)
    ensures kind.Frames? && AllLengthsPositive(rows) ==> FirstLength(rows, rows[j].key.messageId) == Some(size)
  {
    var key := rows[j].key;
    if kind.Frames? && AllLengthsPositive(rows) {
      size := FirstLength(rows, key.messageId).value;
    } else {
      size := key.pduOffset + key.pduLength - target.Max() - 1;
    }
  }

  /** The group of a row. */
  lemma {:induction false} GroupOfRowFound(t: RxAdapterTable, rows: seq<Row>, j: nat) returns (k: nat)
    requires RxMeans(t, rows) && j < |rows|
    ensures 0 <= rows[j].key.messageId <= MAX_U32
    ensures IndexOf(t.messageIds, rows[j].key.messageId) == Some(k) && k < |t.messageIds|
    ensures t.messageIds[k] == rows[j].key.messageId
  {
    hide RxMessageIds, RxMessageLengths, RxPduLengthOffsets, IsGroupIndex, RxShape;
    var i := GroupOfRow(RxMessageIds(rows), RxPduLengthOffsets(rows), rows, j);
    assert t.messageIds[i] == rows[j].key.messageId;
    k := IndexOf(t.messageIds, rows[j].key.messageId).value;
  }

  lemma {:induction false} LengthOfRow(t: RxAdapterTable, rows: seq<Row>, k: nat)
    requires RxMeans(t, rows) && StrictlySorted(KeysOf(rows)) && k < |t.messageIds|
    ensures AllLengthsPositive(rows) ==>
      && |t.messageLengths| == |t.messageIds| && t.messageLengths[k] > 0
      && FirstLength(rows, t.messageIds[k]) == Some(t.messageLengths[k])
    ensures !AllLengthsPositive(rows) ==> t.messageLengths == []
  {
    LengthOfGroup(rows, k);
    hide RxMessageIds, RxMessageLengths, RxPduLengthOffsets, IsGroupIndex, RxShape, AllLengthsPositive, FirstLength;
  }

  lemma {:induction false} ProbeIsFound(kind: Kind, target: Target, t: RxAdapterTable, rows: seq<Row>, k: nat,
      size: u32)
    requires RxMeans(t, rows) && RxShape(t) && StrictlySorted(KeysOf(rows)) && k < |t.messageIds|
    requires IndexOf(t.messageIds, t.messageIds[k]) == Some(k) && size + MESSAGE_HEADER_SIZE <= target.Max()
    requires kind.Frames? && AllLengthsPositive(rows) ==> FirstLength(rows, t.messageIds[k]) == Some(size)
    ensures var m := Probe(t.messageIds[k], size);
      Plain(kind, target, m) && Extent(kind, target, m) == |m| && Processed(kind, target, t, m) == Found(k)
  {
    var m := Probe(t.messageIds[k], size);
    ProbeParts(t.messageIds[k], size);
    hide Probe;
    if kind.Frames? {
      LengthOfRow(t, rows, k);
      hide RxMeans, StrictlySorted, AllLengthsPositive, FirstLength, RxShape;
      assert m[..|m|] == m && m[|m|..] == [];
      assert NoneWraps(target, []);
    }
  }

  lemma {:induction false} FrontResetsSpan(kind: Kind, target: Target, t: RxAdapterTable, bufferSize: nat,
      span: seq<byte>)
    requires RxShape(t) && span != [] && FrontFuture(kind, target, t, bufferSize, span).reset
    ensures SpanFuture(kind, target, t, bufferSize, span).reset
  {
  }

  /** A row that does not fit resets the ECU by some plain span. */
  lemma {:induction false} MisfitResets(kind: Kind, target: Target, t: RxAdapterTable, rows: seq<Row>, bufferSize: nat,
      j: nat) returns (span: seq<byte>)
    requires RxMeans(t, rows) && RxShape(t) && StrictlySorted(KeysOf(rows))
    requires j < |rows| && !RowFits(kind, target, rows, j)
    ensures Plain(kind, target, span) && SpanFuture(kind, target, t, bufferSize, span).reset
  {
    ColumnsOfRow(t, rows, j);
    var k := GroupOfRowFound(t, rows, j);
    LengthOfRow(t, rows, k);
    hide RxMeans, RxShape, StrictlySorted, RowFits, AllLengthsPositive, FirstLength, Plain, GroupFuture, Probe;
    var size := ProbeSize(kind, target, rows, j);
    span := Probe(t.messageIds[k], size);
    ProbeParts(t.messageIds[k], size);
    ProbeIsFound(kind, target, t, rows, k, size);
    assert span[..|span|] == span;
    GroupResets(target, t, rows, bufferSize, span, k);
    hide Processed, Extent;
    FrontResetsSpan(kind, target, t, bufferSize, span);
  }

  /** No plain span resets the ECU. */
  ghost predicate NeverResets(kind: Kind, target: Target, t: RxAdapterTable, bufferSize: nat)
    requires RxShape(t)
  {
    forall span: seq<byte> :: Plain(kind, target, span) ==> !SpanFuture(kind, target, t, bufferSize, span).reset
  }

  /**
   The Rx table of a channel suits the adapter of a target, whatever plain spans arrive, if and only if its rows fit.
   With 64 bits all do.
   */
  lemma {:induction false} TableSuitsExactly(kind: Kind, target: Target, t: RxAdapterTable, rows: seq<Row>,
      bufferSize: nat)
    requires RxMeans(t, rows) && RxShape(t) && StrictlySorted(KeysOf(rows))
    ensures NeverResets(kind, target, t, bufferSize) <==> RowsFit(kind, target, rows)
    ensures target.Bits64? ==> RowsFit(kind, target, rows)
    ensures R.IdsFit(target, t)
  {
    hide StrictlySorted, RowFits, Plain, SpanFuture;
    if RowsFit(kind, target, rows) {
      forall span: seq<byte> | Plain(kind, target, span)
        ensures !SpanFuture(kind, target, t, bufferSize, span).reset
      {
        SpanSurvives(kind, target, t, rows, bufferSize, span);
      }
    } else {
      var j: nat :| j < |rows| && !RowFits(kind, target, rows, j);
      var span := MisfitResets(kind, target, t, rows, bufferSize, j);
    }
    if target.Bits64? {
      forall j: nat | j < |rows| ensures RowFits(kind, target, rows, j) {
        ColumnsOfRow(t, rows, j);
        SmallRowFits(kind, rows, j);
      }
    }
    IdsOfMeans(target, t, rows);
  }

  lemma {:induction false} SmallRowFits(kind: Kind, rows: seq<Row>, j: nat)
    requires j < |rows| && rows[j].key.pduOffset <= MAX_U32 && rows[j].key.pduLength <= MAX_U32
    ensures RowFits(kind, Bits64, rows, j)
  {
  }

  lemma {:induction false} IdsOfMeans(target: Target, t: RxAdapterTable, rows: seq<Row>)
    requires RxMeans(t, rows)
    ensures R.IdsFit(target, t)
  {
    hide RxMessageIds, RxMessageLengths, RxPduLengthOffsets, IsGroupIndex, RxShape;
  }

  lemma {:induction false} AllSurvive(kind: Kind, target: Target, t: RxAdapterTable, bufferSize: nat, spans: seq<Span>)
    requires RxShape(t) && NeverResets(kind, target, t, bufferSize) && AllPlain(kind, target, spans)
    ensures !AllFuture(kind, target, t, bufferSize, spans).reset
  {
    hide RxShape, Plain, SpanFuture;
    if spans != [] {
      assert Plain(kind, target, spans[0].bytes);
      AllSurvive(kind, target, t, bufferSize, spans[1..]);
    }
  }

  // ----- The compiled blob -----

  /**
   Loading the blob, extracting with channel c's adapter and table, and routing. The right adapter is chosen; plain
   spans never reset the ECU if and only if the rows fit; short of a reset, their PDUs are extracted as they are laid
   out; and these lead to the deliveries that the rows ask for, and no more.
   */
  ghost predicate Delivers(kind: Kind, target: Target, blob: seq<byte>, c: byte, writers: seq<R.Writer>,
      bufferSize: nat, spans: seq<Span>, rows: seq<Row>)
  {
    var rt, t := LoadRouting(FindConfig(blob, ROUTING).data), LoadRx(FindConfigFor(blob, RX_ADAPTER, c).data);
    && rt.Some? && t.Some? && R.RoutingShape(rt.value) && RxShape(t.value) && R.IdsFit(target, t.value)
    && KindIn(blob, c) == Some(kind)
    && (NeverResets(kind, target, t.value, bufferSize) <==> RowsFit(kind, target, rows))
    && (AllPlain(kind, target, spans) ==> Follows(kind, target, t.value, bufferSize, spans, rows))
    && R.AllRouted(rt.value, writers, c, AllSpanPdus(kind, t.value, bufferSize, spans))
       == Deliveries(kind, writers, c, bufferSize, spans, rows)
  }

  /** What is extracted is what is laid out, unless the ECU is reset; and that only if a row does not fit. */
  ghost predicate Follows(kind: Kind, target: Target, t: RxAdapterTable, bufferSize: nat, spans: seq<Span>,
      rows: seq<Row>)
    requires RxShape(t)
  {
    var f := AllFuture(kind, target, t, bufferSize, spans);
    && (!f.reset ==> f.pdus == AllSpanPdus(kind, t, bufferSize, spans))
    && (RowsFit(kind, target, rows) ==> !f.reset)
  }

  lemma {:induction false} TableFollows(kind: Kind, target: Target, t: RxAdapterTable, bufferSize: nat,
      spans: seq<Span>, rows: seq<Row>)
    requires RxShape(t) && AllPlain(kind, target, spans)
    requires NeverResets(kind, target, t, bufferSize) <==> RowsFit(kind, target, rows)
    ensures Follows(kind, target, t, bufferSize, spans, rows)
  {
    PlainSpans(kind, target, t, bufferSize, spans);
    hide RxShape, NeverResets, RowsFit, AllPlain, AllFuture, AllSpanPdus, SumsFit;
    if RowsFit(kind, target, rows) {
      AllSurvive(kind, target, t, bufferSize, spans);
    }
  }

  lemma {:induction false} KindRead(crc: seq<byte> -> u32, routings: seq<Routing>, channels: seq<Channel>,
      k: Compilation, i: nat, c: byte)
    requires Compiled(crc, routings, channels, k)
    requires i < |channels| && FirstWithByte(RxIds(RxVectorList(k.table, IdMap(k.entries), channels)), i, c)
    ensures KindIn(k.blob, c) == Some(KindOf(channels[i].channelType))
  {
    hide FindConfigFor, LoadHeader, BlobBytes, FirstWithByte, IsTableOf, TxPairs, RoutingRecord, RxPair, FirstId,
      RowsFor, RxMessageIds, RxMessageLengths, RxPduLengthOffsets, RxPduLengths, RxPduOffsets;
    AllLaidOut(k.records);
    RxHeaderReadBack(crc, RxVectorList(k.table, IdMap(k.entries), channels), k.records.All(), k.records, k.blob, i, c);
  }

  /**
   The main result for one channel. Let the compiler accept a routing list and a channel list, and let the ECU load the
   blob. For a channel that is the first one with its id modulo 256, and anything received on it, extraction and
   routing deliver, in order and with nothing else, what the last routing of every key of that channel asks for.
   */
  lemma {:induction false} BlobDelivers(target: Target, crc: seq<byte> -> u32, routings: seq<Routing>,
      channels: seq<Channel>, k: Compilation, i: nat, c: byte, rows: seq<Row>, writers: seq<R.Writer>, bufferSize: nat,
      spans: seq<Span>)
    requires Compiled(crc, routings, channels, k)
    requires i < |channels| && FirstWithByte(RxIds(RxVectorList(k.table, IdMap(k.entries), channels)), i, c)
    requires RowsHoldLast(rows, k.rs, IdMap(k.entries)[channels[i].name])
    ensures Delivers(KindOf(channels[i].channelType), target, k.blob, c, writers, bufferSize, spans, rows)
  {
    KindRead(crc, routings, channels, k, i, c);
    RowsAreSorted(rows, k.rs, IdMap(k.entries)[channels[i].name]);
    hide *;
    var rt, t := ChannelTables(crc, routings, channels, k, i, c, rows);
    TablesDeliver(KindOf(channels[i].channelType), target, k.blob, c, rt, AllRows(k.table), t, rows, writers,
                  bufferSize, spans);
  }

  lemma {:induction false} TablesDeliver(kind: Kind, target: Target, blob: seq<byte>, c: byte, rt: PduRoutingTable,
      all: seq<Row>, t: RxAdapterTable, rows: seq<Row>, writers: seq<R.Writer>, bufferSize: nat, spans: seq<Span>)
    requires RoutingMeans(rt, all) && R.RoutingShape(rt) && RxMeans(t, rows) && RowsAt(all, t.firstId, rows)
    requires StrictlySorted(KeysOf(rows)) && KindIn(blob, c) == Some(kind)
    requires LoadRouting(FindConfig(blob, ROUTING).data) == Some(rt)
    requires LoadRx(FindConfigFor(blob, RX_ADAPTER, c).data) == Some(t)
    ensures Delivers(kind, target, blob, c, writers, bufferSize, spans, rows)
  {
    hide FindConfig, FindConfigFor, LoadRouting, LoadRx, RoutingMeans, R.RoutingShape, RowsAt, Deliveries, R.AllRouted,
      Follows, RowsFit, NeverResets, AllPlain, KindIn, StrictlySorted, RxMeans, RxShape, AllSpanPdus, R.IdsFit;
    MeansHasShape(t, rows);
    TableSuitsExactly(kind, target, t, rows, bufferSize);
    LaidOutDelivered(kind, rt, all, t, rows, writers, c, bufferSize, spans);
    if AllPlain(kind, target, spans) {
      TableFollows(kind, target, t, bufferSize, spans, rows);
    }
  }

  lemma {:induction false} RowsAreSorted(rows: seq<Row>, rs: seq<Resolved>, c: nat)
    requires RowsHoldLast(rows, rs, c)
    ensures StrictlySorted(KeysOf(rows))
  {
  }

  lemma {:induction false} MeansHasShape(t: RxAdapterTable, rows: seq<Row>)
    requires RxMeans(t, rows)
    ensures RxShape(t)
  {
  }

  /**
   The same from the compiler's point of view: if a routing list and a list of at most 256 channels with distinct
   names compile, then the blob is accepted, with or without bytes behind it, each channel is found in it under
   its own id and with its own type, and what arrives there is delivered as its routings ask for.
   */
  lemma {:induction false} CompiledBlobWorks(target: Target, crc: seq<byte> -> u32, routings: seq<Routing>,
      channels: seq<Channel>, meta: Option<seq<string>>, trailing: seq<byte>, i: nat, rows: seq<Row>,
      writers: seq<R.Writer>, bufferSize: nat, spans: seq<Span>)
    returns (k: Compilation, id: byte)
    requires DistinctNames(channels) && |channels| <= 0x100 && i < |channels|
    requires Compile(crc, routings, channels, meta).Ok?
    ensures Compiled(crc, routings, channels, k) && Compile(crc, routings, channels, meta) == Ok(k.blob)
    ensures NumberedOrAbove(k.entries) && AllNamed(IdMap(k.entries), channels)
    ensures id == IdMap(k.entries)[channels[i].name] < |channels|
    ensures FirstWithByte(RxIds(RxVectorList(k.table, IdMap(k.entries), channels)), i, id)
    ensures |k.blob + trailing| <= target.Max() ==> Loaded(target, crc, k.blob + trailing) == k.blob
    ensures RowsHoldLast(rows, k.rs, id) ==>
      Delivers(KindOf(channels[i].channelType), target, k.blob, id, writers, bufferSize, spans, rows)
  {
    hide *;
    k := CompileSteps(crc, routings, channels, meta);
    CompiledIsNumbered(crc, routings, channels, k);
    RxIdsDistinct(k.table, k.entries, channels);
    var ids := RxIds(RxVectorList(k.table, IdMap(k.entries), channels));
    AllAddressableExactly(ids);
    RxIdIsChannelId(k.table, IdMap(k.entries), channels, i);
    id := ids[i];
    if RowsHoldLast(rows, k.rs, id) {
      BlobDelivers(target, crc, routings, channels, k, i, id, rows, writers, bufferSize, spans);
    }
    if |k.blob + trailing| <= target.Max() {
      CompiledRecords(crc, routings, channels, k);
      CompiledIsLoaded(target, crc, k.records, k.blob, trailing);
    }
  }
}
