/**
 What a routing list means on the ECU: the PDUs that are delivered when the compiled blob drives the adapters and
 the router are those that the last routing of every key asks for.
 */
module EndToEnd {
  import opened Results
  import opened Bytes
  import opened BlobFormat
  import opened BlobReader
  import opened RoutingTable
  import opened Flatten
  import opened Channels
  import opened Records
  import opened TableReader
  import opened RoundTrip
  import opened Ecu
  import R = Router

  // ----- Specification: deliveries as the routings describe them -----

  /** The channel has a writer, of either kind, with room for an id, a length and a payload. */
  predicate HasRoomFor(writers: seq<R.Writer>, channel: nat, payload: seq<byte>) {
    channel < |writers| &&
    match writers[channel]
    case NoWriter => false
    case QueueWriter(maxSize) => 8 + |payload| <= maxSize
    case LegacyWriter(maxSize, _, _) => 8 + |payload| <= maxSize
  }

  /** A copy of the payload for every output that has a writer with room for it, in order. */
  function ToOutputs(writers: seq<R.Writer>, source: nat, payload: seq<byte>, outputs: seq<Output>)
    : (ds: seq<R.Delivery>)
  {
    if outputs == [] then []
    else
      var o := outputs[0];
      (if HasRoomFor(writers, o.channel, payload)
       then [R.Delivery(source, o.channel, o.messageId, payload)] else [])
      + ToOutputs(writers, source, payload, outputs[1..])
  }

  /** The PDU that a key describes lies within the payload and fits the adapter's buffer. */
  predicate PduInside(key: Key, bufferSize: nat, payload: seq<byte>) {
    && 0 <= key.pduOffset && 0 <= key.pduLength && key.pduOffset + key.pduLength <= |payload|
    && MESSAGE_HEADER_SIZE + key.pduLength <= bufferSize
  }

  /** What one row makes of a message. */
  function RowDeliveries(writers: seq<R.Writer>, source: nat, bufferSize: nat, messageId: int, payload: seq<byte>,
      row: Row)
    : (ds: seq<R.Delivery>)
  {
    if row.key.messageId != messageId || !PduInside(row.key, bufferSize, payload) then []
    else ToOutputs(writers, source, payload[row.key.pduOffset..row.key.pduOffset + row.key.pduLength], row.outputs)
  }

  /** What all rows make of it, in the order of their keys. */
  function RowsDeliveries(writers: seq<R.Writer>, source: nat, bufferSize: nat, messageId: int, payload: seq<byte>,
                          rows: seq<Row>): (ds: seq<R.Delivery>)
  {
    if rows == [] then []
    else
      RowDeliveries(writers, source, bufferSize, messageId, payload, rows[0])
      + RowsDeliveries(writers, source, bufferSize, messageId, payload, rows[1..])
  }

  /** A message whose header does not fit its size is dropped. */
  function MessageDeliveries(writers: seq<R.Writer>, source: nat, bufferSize: nat, message: seq<byte>, rows: seq<Row>)
    : (ds: seq<R.Delivery>)
  {
    if |message| < MESSAGE_HEADER_SIZE || FromBe32(message[4..8]) > |message| - MESSAGE_HEADER_SIZE then []
    else RowsDeliveries(writers, source, bufferSize, FromBe32(message[..4]), message[MESSAGE_HEADER_SIZE..], rows)
  }

  // ----- The flat routing table delivers the outputs of a row -----

  /** Entry g of the table stands for the outputs of row g. */
  ghost predicate StandsFor(t: PduRoutingTable, all: seq<Row>, g: nat)
    requires |t.destinationOffsets| == |all| + 1 && |t.destinations| == |t.outputMessageIds|
  {
    g < |all| ==>
      && t.destinationOffsets[g] <= t.destinationOffsets[g + 1] <= |t.destinations|
      && t.destinations[t.destinationOffsets[g]..t.destinationOffsets[g + 1]] == Destinations(all[g].outputs)
      && t.outputMessageIds[t.destinationOffsets[g]..t.destinationOffsets[g + 1]] == MessageIdsOf(all[g].outputs)
  }

  ghost predicate RoutingMeans(t: PduRoutingTable, all: seq<Row>) {
    && |t.destinationOffsets| == |all| + 1 && |t.destinations| == |t.outputMessageIds|
    && forall g: nat :: StandsFor(t, all, g)
  }

  lemma {:induction false} CompiledRoutingMeans(table: Table, t: PduRoutingTable)
    requires t.destinationOffsets == DestinationOffsets(AllRows(table))
    requires t.destinations == Destinations(OutputsOf(AllRows(table)))
    requires t.outputMessageIds == MessageIdsOf(OutputsOf(AllRows(table)))
    ensures RoutingMeans(t, AllRows(table)) && R.RoutingShape(t)
  {
    var rows := AllRows(table);
    forall g: nat ensures StandsFor(t, rows, g) && R.DestinationsInRange(t, g) {
      if g < |rows| {
        OffsetsSliceOutputs(rows, g);
        ProjectionsOfSlice(OutputsOf(rows), |OutputsOf(rows[..g])|, |OutputsOf(rows[..g + 1])|);
      }
    }
  }

  /** A range of the flat vectors that stands for some outputs delivers to those outputs. */
  lemma {:induction false} RangeDeliversOutputs(t: PduRoutingTable, writers: seq<R.Writer>, source: nat,
      payload: seq<byte>, i: nat, end: nat, outputs: seq<Output>)
    requires i <= end <= |t.destinations| == |t.outputMessageIds|
    requires t.destinations[i..end] == Destinations(outputs) && t.outputMessageIds[i..end] == MessageIdsOf(outputs)
    ensures R.Outputs(t, writers, source, payload, i, end) == ToOutputs(writers, source, payload, outputs)
    decreases end - i
  {
    assert |outputs| == end - i;
    if i < end {
      assert t.destinations[i] == t.destinations[i..end][0] == outputs[0].channel;
      assert t.outputMessageIds[i] == t.outputMessageIds[i..end][0] == outputs[0].messageId;
      assert t.destinations[i + 1..end] == t.destinations[i..end][1..] == Destinations(outputs[1..]);
      assert t.outputMessageIds[i + 1..end] == t.outputMessageIds[i..end][1..] == MessageIdsOf(outputs[1..]);
      RangeDeliversOutputs(t, writers, source, payload, i + 1, end, outputs[1..]);
    }
  }

  lemma {:induction false} PduDeliversRow(t: PduRoutingTable, all: seq<Row>, writers: seq<R.Writer>, source: nat,
      pdu: Pdu)
    requires RoutingMeans(t, all) && R.RoutingShape(t) && pdu.id < |all|
    ensures R.Routed(t, writers, source, pdu) == ToOutputs(writers, source, pdu.payload, all[pdu.id].outputs)
  {
    assert StandsFor(t, all, pdu.id);
    RangeDeliversOutputs(t, writers, source, pdu.payload, t.destinationOffsets[pdu.id],
                         t.destinationOffsets[pdu.id + 1], all[pdu.id].outputs);
  }

  // ----- The Rx table extracts the PDUs of the rows of a message -----

  /** The Rx table was made from these rows, whose global ids start at `firstId`. */
  ghost predicate RxMeans(t: RxAdapterTable, rows: seq<Row>) {
    && t.messageIds == RxMessageIds(rows) && t.messageLengths == RxMessageLengths(rows)
    && t.pduLengthsOffsets == RxPduLengthOffsets(rows)
    && t.pduLengths == RxPduLengths(rows) && t.pduOffsets == RxPduOffsets(rows)
    && IsGroupIndex(RxMessageIds(rows), RxPduLengthOffsets(rows), rows)
    && RxShape(t) && t.firstId + |rows| <= MAX_U32
  }

  /** The rows stand in `all` from index `first` on. */
  ghost predicate RowsAt(all: seq<Row>, first: nat, rows: seq<Row>) {
    first + |rows| <= |all| && all[first..first + |rows|] == rows
  }

  /** What becomes of PDU j: it is not extracted, or it is delivered to the outputs of its row. */
  lemma {:induction false} ExtractDeliversRow(rt: PduRoutingTable, all: seq<Row>, t: RxAdapterTable, rows: seq<Row>,
      writers: seq<R.Writer>, source: nat, bufferSize: nat, message: seq<byte>, j: nat)
    requires RoutingMeans(rt, all) && R.RoutingShape(rt) && RxMeans(t, rows) && RowsAt(all, t.firstId, rows)
    requires j < |rows| && |message| >= MESSAGE_HEADER_SIZE
    ensures var pdu, payload := Extract(t, bufferSize, message, j), message[MESSAGE_HEADER_SIZE..];
      RowDeliveries(writers, source, bufferSize, rows[j].key.messageId, payload, rows[j])
      == if pdu.Some? then R.Routed(rt, writers, source, pdu.value) else []
  {
    hide R.RoutingShape, R.Routed, ToOutputs, RxMessageIds, RxMessageLengths, IsGroupIndex;
    assert all[t.firstId..t.firstId + |rows|][j] == all[t.firstId + j];
    var pdu := Extract(t, bufferSize, message, j);
    if pdu.Some? {
      PduDeliversRow(rt, all, writers, source, pdu.value);
    }
  }

  lemma {:induction false} AllRoutedCons(rt: PduRoutingTable, writers: seq<R.Writer>, source: nat, pdu: Option<Pdu>,
                                         rest: seq<Pdu>)
    requires R.RoutingShape(rt)
    ensures R.AllRouted(rt, writers, source, if pdu.Some? then [pdu.value] + rest else rest)
         == (if pdu.Some? then R.Routed(rt, writers, source, pdu.value) else [])
             + R.AllRouted(rt, writers, source, rest)
  {
  }

  /** The PDUs of rows of one message id, extracted and routed, give the deliveries of those rows. */
  lemma {:induction false} ExtractFromDeliversRows(rt: PduRoutingTable, all: seq<Row>, t: RxAdapterTable,
      rows: seq<Row>, writers: seq<R.Writer>, source: nat, bufferSize: nat, message: seq<byte>, messageId: int, j: nat,
      end: nat)
    requires RoutingMeans(rt, all) && R.RoutingShape(rt) && RxMeans(t, rows) && RowsAt(all, t.firstId, rows)
    requires j <= end <= |rows| && |message| >= MESSAGE_HEADER_SIZE
    requires forall i :: j <= i < end ==> rows[i].key.messageId == messageId
    ensures R.AllRouted(rt, writers, source, ExtractFrom(t, bufferSize, message, j, end))
         == RowsDeliveries(writers, source, bufferSize, messageId, message[MESSAGE_HEADER_SIZE..], rows[j..end])
    decreases end - j
  {
    hide RoutingMeans, R.RoutingShape, R.Routed, Extract, RowDeliveries, R.AllRouted;
    if j == end {
      assert rows[j..end] == [];
      NothingExtracted(rt, writers, source);
    } else {
      var pdu, rest := Extract(t, bufferSize, message, j), ExtractFrom(t, bufferSize, message, j + 1, end);
      AllRoutedCons(rt, writers, source, pdu, rest);
      ExtractDeliversRow(rt, all, t, rows, writers, source, bufferSize, message, j);
      ExtractFromDeliversRows(rt, all, t, rows, writers, source, bufferSize, message, messageId, j + 1, end);
      assert rows[j..end][0] == rows[j] && rows[j..end][1..] == rows[j + 1..end];
    }
  }

  lemma {:induction false} NothingExtracted(rt: PduRoutingTable, writers: seq<R.Writer>, source: nat)
    requires R.RoutingShape(rt)
    ensures R.AllRouted(rt, writers, source, []) == []
  {
  }

  lemma {:induction false} RowsDeliveriesAppend(writers: seq<R.Writer>, source: nat, bufferSize: nat, messageId: int,
                                                payload: seq<byte>, a: seq<Row>, b: seq<Row>)
    ensures RowsDeliveries(writers, source, bufferSize, messageId, payload, a + b)
         == RowsDeliveries(writers, source, bufferSize, messageId, payload, a)
            + RowsDeliveries(writers, source, bufferSize, messageId, payload, b)
  {
    hide RowDeliveries;
    if a == [] {
      assert a + b == b;
    } else {
      assert (a + b)[1..] == a[1..] + b;
      RowsDeliveriesAppend(writers, source, bufferSize, messageId, payload, a[1..], b);
    }
  }

  lemma {:induction false} OtherRowsDeliverNothing(writers: seq<R.Writer>, source: nat, bufferSize: nat, messageId: int,
                                                   payload: seq<byte>, rows: seq<Row>)
    requires forall i :: 0 <= i < |rows| ==> rows[i].key.messageId != messageId
    ensures RowsDeliveries(writers, source, bufferSize, messageId, payload, rows) == []
  {
    if rows != [] {
      OtherRowsDeliverNothing(writers, source, bufferSize, messageId, payload, rows[1..]);
    }
  }

  /** The deliveries of a message come from the rows of its group alone. */
  lemma {:induction false} GroupHoldsAllRows(writers: seq<R.Writer>, source: nat, bufferSize: nat, payload: seq<byte>,
                                             ids: seq<int>, offsets: seq<nat>, rows: seq<Row>, k: nat)
    requires IsGroupIndex(ids, offsets, rows) && k < |ids|
    ensures offsets[k] <= offsets[k + 1] <= |rows|
    ensures forall i :: offsets[k] <= i < offsets[k + 1] ==> rows[i].key.messageId == ids[k]
    ensures RowsDeliveries(writers, source, bufferSize, ids[k], payload, rows)
         == RowsDeliveries(writers, source, bufferSize, ids[k], payload, rows[offsets[k]..offsets[k + 1]])
  {
    hide RowsDeliveries;
    var lo, hi := offsets[k], offsets[k + 1];
    assert lo < hi <= offsets[|ids|];
    forall i | lo <= i < hi ensures rows[i].key.messageId == ids[k] {
      assert InGroup(offsets, k, i);
    }
    OutsideTheGroup(ids, offsets, rows, k);
    assert rows == rows[..lo] + (rows[lo..hi] + rows[hi..]);
    RowsDeliveriesAppend(writers, source, bufferSize, ids[k], payload, rows[..lo], rows[lo..hi] + rows[hi..]);
    RowsDeliveriesAppend(writers, source, bufferSize, ids[k], payload, rows[lo..hi], rows[hi..]);
    OtherRowsDeliverNothing(writers, source, bufferSize, ids[k], payload, rows[..lo]);
    OtherRowsDeliverNothing(writers, source, bufferSize, ids[k], payload, rows[hi..]);
  }

  lemma {:induction false} OutsideTheGroup(ids: seq<int>, offsets: seq<nat>, rows: seq<Row>, k: nat)
    requires IsGroupIndex(ids, offsets, rows) && k < |ids|
    ensures forall i :: 0 <= i < |rows| && !(offsets[k] <= i < offsets[k + 1]) ==> rows[i].key.messageId != ids[k]
  {
    forall i | 0 <= i < |rows| && !(offsets[k] <= i < offsets[k + 1]) ensures rows[i].key.messageId != ids[k] {
      var l := GroupOfRow(ids, offsets, rows, i);
      assert l != k;
    }
  }

  // ----- Messages -----

  lemma {:induction false} GroupDelivers(rt: PduRoutingTable, all: seq<Row>, t: RxAdapterTable, rows: seq<Row>,
      writers: seq<R.Writer>, source: nat, bufferSize: nat, message: seq<byte>, k: nat)
    requires RoutingMeans(rt, all) && R.RoutingShape(rt) && RxMeans(t, rows) && RowsAt(all, t.firstId, rows)
    requires |message| >= MESSAGE_HEADER_SIZE && k < |t.messageIds|
    ensures R.AllRouted(rt, writers, source, GroupPdus(t, bufferSize, message, k))
         == RowsDeliveries(writers, source, bufferSize, t.messageIds[k], message[MESSAGE_HEADER_SIZE..], rows)
  {
    hide RoutingMeans, R.RoutingShape, R.AllRouted, RowsDeliveries, RowsAt, ExtractFrom, RxMessageIds, RxMessageLengths,
      RxPduLengthOffsets, IsGroupIndex;
    GroupHoldsAllRows(writers, source, bufferSize, message[MESSAGE_HEADER_SIZE..], RxMessageIds(rows),
                      RxPduLengthOffsets(rows), rows, k);
    ExtractFromDeliversRows(rt, all, t, rows, writers, source, bufferSize, message, t.messageIds[k],
                            t.pduLengthsOffsets[k], t.pduLengthsOffsets[k + 1]);
  }

  lemma {:induction false} UnknownIdHasNoRow(ids: seq<int>, offsets: seq<nat>, rows: seq<Row>, messageId: int)
    requires IsGroupIndex(ids, offsets, rows) && messageId !in ids
    ensures forall i :: 0 <= i < |rows| ==> rows[i].key.messageId != messageId
  {
    forall i | 0 <= i < |rows| ensures rows[i].key.messageId != messageId {
      var k := GroupOfRow(ids, offsets, rows, i);
    }
  }

  /** Meaning preserved, message by message: routing the PDUs of a message gives what the rows ask for. */
  lemma {:induction false} PdusOfMessageDeliver(rt: PduRoutingTable, all: seq<Row>, t: RxAdapterTable, rows: seq<Row>,
      writers: seq<R.Writer>, source: nat, bufferSize: nat, message: seq<byte>)
    requires RoutingMeans(rt, all) && R.RoutingShape(rt) && RxMeans(t, rows) && RowsAt(all, t.firstId, rows)
    ensures R.AllRouted(rt, writers, source, PdusOf(t, bufferSize, message))
         == MessageDeliveries(writers, source, bufferSize, message, rows)
  {
    hide RoutingMeans, R.RoutingShape, R.AllRouted, RowsDeliveries, RowsAt, GroupPdus, RxMessageIds, RxMessageLengths,
      RxPduLengthOffsets, IsGroupIndex;
    var k := Lookup(t, message);
    if k.Some? {
      GroupDelivers(rt, all, t, rows, writers, source, bufferSize, message, k.value);
    } else {
      NothingExtracted(rt, writers, source);
      if |message| >= MESSAGE_HEADER_SIZE && FromBe32(message[4..8]) <= |message| - MESSAGE_HEADER_SIZE {
        UnknownIdHasNoRow(RxMessageIds(rows), RxPduLengthOffsets(rows), rows, FromBe32(message[..4]));
        OtherRowsDeliverNothing(writers, source, bufferSize, FromBe32(message[..4]), message[MESSAGE_HEADER_SIZE..],
                                rows);
      }
    }
  }

  function AllDeliveries(writers: seq<R.Writer>, source: nat, bufferSize: nat, messages: seq<Span>, rows: seq<Row>)
    : (ds: seq<R.Delivery>)
  {
    if messages == [] then []
    else
      MessageDeliveries(writers, source, bufferSize, messages[0].bytes, rows)
      + AllDeliveries(writers, source, bufferSize, messages[1..], rows)
  }

  /** The same for any sequence of messages. */
  lemma {:induction false} PdusOfMessagesDeliver(rt: PduRoutingTable, all: seq<Row>, t: RxAdapterTable, rows: seq<Row>,
      writers: seq<R.Writer>, source: nat, bufferSize: nat, messages: seq<Span>)
    requires RoutingMeans(rt, all) && R.RoutingShape(rt) && RxMeans(t, rows) && RowsAt(all, t.firstId, rows)
    ensures R.AllRouted(rt, writers, source, AllPdus(t, bufferSize, messages))
         == AllDeliveries(writers, source, bufferSize, messages, rows)
  {
    hide RoutingMeans, R.RoutingShape, R.AllRouted, MessageDeliveries, RowsAt, PdusOf, RxMessageIds, RxMessageLengths,
      RxPduLengthOffsets, IsGroupIndex;
    if messages == [] {
      NothingExtracted(rt, writers, source);
    } else {
      PdusOfMessageDeliver(rt, all, t, rows, writers, source, bufferSize, messages[0].bytes);
      PdusOfMessagesDeliver(rt, all, t, rows, writers, source, bufferSize, messages[1..]);
      R.AllRoutedAppend(rt, writers, source, PdusOf(t, bufferSize, messages[0].bytes),
                        AllPdus(t, bufferSize, messages[1..]));
    }
  }

  // ----- The compiled blob -----

  lemma {:induction false} RowsForAt(table: Table, n: nat)
    requires n < |table| && Increasing(ChannelsOf(table))
    ensures RowsFor(table, table[n].channel) == table[n].rows
  {
    if n != 0 {
      assert ChannelsOf(table)[0] < ChannelsOf(table)[n];
      forall i, j | 0 <= i < j < |table[1..]| ensures ChannelsOf(table[1..])[i] < ChannelsOf(table[1..])[j] {
        assert ChannelsOf(table)[i + 1] < ChannelsOf(table)[j + 1];
      }
      RowsForAt(table[1..], n - 1);
    }
  }

  /** The rows of a channel, as the compiler sees them. */
  lemma {:induction false} ChannelRowsPlaced(table: Table, rs: seq<Resolved>, channels: set<nat>, channel: nat)
    requires IsTableOf(table, rs, channels) && channel in channels
    ensures RowsHoldLast(RowsFor(table, channel), rs, channel)
    ensures RowsAt(AllRows(table), FirstId(table, channel), RowsFor(table, channel))
  {
    assert channel in ChannelsOf(table);
    var n :| 0 <= n < |table| && ChannelsOf(table)[n] == channel;
    RowsForAt(table, n);
    FirstIdCountsRowsBefore(table, n);
    AllRowsOne(table, n);
    assert table == table[..n + 1] + table[n + 1..];
    AllRowsAppend(table[..n + 1], table[n + 1..]);
  }

  lemma {:induction false} CompiledRxMeans(v: RxVectors, rows: seq<Row>, n: nat)
    requires RxInRange(v) && StrictlySorted(KeysOf(rows)) && v.firstId + |rows| <= n <= MAX_U32
    requires v.messageIds == RxMessageIds(rows) && v.messageLengths == RxMessageLengths(rows)
    requires v.pduLengthOffsets == RxPduLengthOffsets(rows)
    requires v.pduLengths == RxPduLengths(rows) && v.pduOffsets == RxPduOffsets(rows)
    ensures RxMeans(RxTableOf(v), rows)
  {
    hide RxMessageIds, RxMessageLengths, RxPduLengthOffsets;
    GroupIndexCorrect(rows);
    MessageLengthsCorrect(rows);
    var t := RxTableOf(v);
    forall k: nat ensures |t.pduLengthsOffsets| == |t.messageIds| + 1 && GroupInRange(t, k) {
      if k < |t.messageIds| {
        var offsets := RxPduLengthOffsets(rows);
        assert offsets[k] < offsets[k + 1] <= offsets[|t.messageIds|];
      }
    }
  }

  /** The routing table and the Rx table of a channel, loaded from the compiled blob, stand for the table's rows. */
  lemma {:induction false} LoadedTablesMean(crc: seq<byte> -> u32, table: Table, vs: seq<RxVectors>, s: RecordSet,
      blob: seq<byte>, i: nat, c: byte, rows: seq<Row>) returns (rt: PduRoutingTable, t: RxAdapterTable)
    requires s.WellTyped() && BlobBytes(crc, s.All()) == Ok(blob)
    requires RoutingRecord(RoutingVectorsOf(table)) == Ok(s.routing) && RxPairs(vs, s.rx)
    requires i < |vs| && FirstWithByte(RxIds(vs), i, c)
    requires vs[i].channelId >= 0 && vs[i] == RxVectorsOf(table, vs[i].channelId, vs[i].channelType)
    requires rows == RowsFor(table, vs[i].channelId) && StrictlySorted(KeysOf(rows))
    requires RowsAt(AllRows(table), FirstId(table, vs[i].channelId), rows)
    ensures LoadRouting(FindConfig(blob, ROUTING).data) == Some(rt)
    ensures LoadRx(FindConfigFor(blob, RX_ADAPTER, c).data) == Some(t)
    ensures RoutingMeans(rt, AllRows(table)) && R.RoutingShape(rt)
    ensures RxMeans(t, rows) && RowsAt(AllRows(table), t.firstId, rows)
  {
    hide FindConfig, FindConfigFor, LoadRouting, LoadRx, RoutingMeans, R.RoutingShape, RowsAt, RxMeans, BlobBytes;
    var v := RoutingVectorsOf(table);
    AllLaidOut(s);
    RoutingTableReadBack(crc, v, s.All(), s, blob);
    RxTableReadBack(crc, vs, s.All(), s, blob, i, c);
    rt := PduRoutingTable(v.destinationOffsets, v.outputMessageIds, v.destinations);
    t := RxTableOf(vs[i]);
    CompiledRoutingMeans(table, rt);
    RoutingRecordBytes(v);
    RowsAtBound(AllRows(table), t.firstId, rows);
    FitsFirst([v.destinationOffsets, v.outputMessageIds]);
    CompiledRxMeans(vs[i], rows, |AllRows(table)|);
  }

  lemma {:induction false} RowsAtBound(all: seq<Row>, first: nat, rows: seq<Row>)
    requires RowsAt(all, first, rows)
    ensures first + |rows| <= |all|
  {
  }

  lemma {:induction false} FitsFirst(vss: seq<seq<int>>)
    requires FitColumns32(vss) && vss != []
    ensures 4 * |vss[0]| <= MAX_U32
  {
    assert FitsColumn32(vss[0]);
  }

  /** The tables that the ECU loads for a channel, and what they stand for. */
  lemma {:induction false} ChannelTables(crc: seq<byte> -> u32, routings: seq<Routing>, channels: seq<Channel>,
      k: Compilation, i: nat, c: byte, rows: seq<Row>) returns (rt: PduRoutingTable, t: RxAdapterTable)
    requires Compiled(crc, routings, channels, k)
    requires i < |channels| && FirstWithByte(RxIds(RxVectorList(k.table, IdMap(k.entries), channels)), i, c)
    requires RowsHoldLast(rows, k.rs, IdMap(k.entries)[channels[i].name])
    ensures LoadRouting(FindConfig(k.blob, ROUTING).data) == Some(rt)
    ensures LoadRx(FindConfigFor(k.blob, RX_ADAPTER, c).data) == Some(t)
    ensures RoutingMeans(rt, AllRows(k.table)) && R.RoutingShape(rt)
    ensures RxMeans(t, rows) && RowsAt(AllRows(k.table), t.firstId, rows)
  {
    var vs, channel := RxVectorList(k.table, IdMap(k.entries), channels), IdMap(k.entries)[channels[i].name];
    ChannelRowsPlaced(k.table, k.rs, IdMap(k.entries).Values, channel);
    RowsAgree(rows, RowsFor(k.table, channel), k.rs, k.rs, channel);
    rt, t := LoadedTablesMean(crc, k.table, vs, k.records, k.blob, i, c, rows);
  }

  // ----- Which channels can be addressed -----

  /** Distinct numbers below m are at most m many. */
  lemma {:induction false} DistinctBelow(s: seq<int>, m: nat)
    requires forall i :: 0 <= i < |s| ==> 0 <= s[i] < m
    requires forall i, j :: 0 <= i < j < |s| ==> s[i] != s[j]
    ensures |s| <= m
  {
    if s != [] {
      assert 0 <= s[0] < m;
      if m - 1 in s {
        var p :| 0 <= p < |s| && s[p] == m - 1;
        DistinctBelow(s[..p] + s[p + 1..], m - 1);
      } else {
        DistinctBelow(s, m - 1);
      }
    }
  }

  /** The ids of the compiled channels are distinct numbers below their count. */
  lemma {:induction false} RxIdsDistinct(table: Table, entries: seq<Entry>, channels: seq<Channel>)
    requires DistinctNames(channels) && IsNumbering(entries, channels) && AllNamed(IdMap(entries), channels)
    ensures var ids := RxIds(RxVectorList(table, IdMap(entries), channels));
      && |ids| == |channels|
      && (forall i :: 0 <= i < |ids| ==> 0 <= ids[i] < |channels|)
      && (forall i, j :: 0 <= i < j < |ids| ==> ids[i] != ids[j])
  {
    IdMapHolds(entries);
    hide IdMap, DestinationOffsets, RxMessageIds, RxMessageLengths, FirstId, RowsFor, RxPduLengthOffsets;
    var m, ids := IdMap(entries), RxIds(RxVectorList(table, IdMap(entries), channels));
    forall i | 0 <= i < |ids| ensures ids[i] == m[channels[i].name] && Entry(channels[i].name, ids[i]) in entries {
      assert channels[i].name in m;
    }
  }

  /** Every channel is found under its id modulo 256, exactly if there are at most 256 channels. */
  lemma {:induction false} AllAddressableExactly(ids: seq<int>)
    requires forall i :: 0 <= i < |ids| ==> 0 <= ids[i] < |ids|
    requires forall i, j :: 0 <= i < j < |ids| ==> ids[i] != ids[j]
    ensures (forall i: nat :: i < |ids| ==> FirstWithByte(ids, i, ids[i] % 0x100)) <==> |ids| <= 0x100
  {
    if forall i: nat :: i < |ids| ==> FirstWithByte(ids, i, ids[i] % 0x100) {
      var residues := seq(|ids|, i requires 0 <= i < |ids| => ids[i] % 0x100);
      forall i, j | 0 <= i < j < |residues| ensures residues[i] != residues[j] {
        assert FirstWithByte(ids, j, ids[j] % 0x100);
      }
      DistinctBelow(residues, 0x100);
    }
  }

  /** With 257 channels or more in id order, a lookup for channel 256 finds channel 0. */
  lemma {:induction false} Channel256IsTakenForChannel0(ids: seq<int>)
    requires |ids| > 256 && forall i :: 0 <= i < |ids| ==> ids[i] == i
    ensures forall i: nat :: FirstWithByte(ids, i, ids[256] % 0x100) <==> i == 0
  {
    assert ids[256] % 0x100 == 0 == ids[0];
  }

  lemma {:induction false} RxIdIsChannelId(table: Table, ids: map<string, nat>, channels: seq<Channel>, i: nat)
    requires AllNamed(ids, channels) && i < |channels|
    ensures var rxIds := RxIds(RxVectorList(table, ids, channels));
      |rxIds| == |channels| && rxIds[i] == ids[channels[i].name]
  {
  }

  lemma {:induction false} CompiledRecords(crc: seq<byte> -> u32, routings: seq<Routing>, channels: seq<Channel>,
      k: Compilation)
    requires Compiled(crc, routings, channels, k)
    ensures k.records.WellTyped() && BlobBytes(crc, k.records.All()) == Ok(k.blob)
  {
  }

  lemma {:induction false} CompiledIsNumbered(crc: seq<byte> -> u32, routings: seq<Routing>, channels: seq<Channel>,
      k: Compilation)
    requires Compiled(crc, routings, channels, k)
    ensures IsNumbering(k.entries, channels) && NumberedOrAbove(k.entries) && AllNamed(IdMap(k.entries), channels)
  {
  }
}
