/**
 From bus to bus: what a legacy channel, driven by the Tx table in the compiled blob, puts on its bus for the PDUs that
 the router delivers to it.
 */
module Bus {
  import opened Results
  import opened Bytes
  import opened SizeT
  import opened BlobFormat
  import opened BlobReader
  import opened RoutingTable
  import opened Channels
  import opened Records
  import opened TableReader
  import opened RoundTrip
  import opened Ecu
  import opened EndToEnd
  import opened Outgoing
  import opened LegacyTx
  import opened Flatten
  import opened Frame = Frames
  import opened Reception
  import opened Gateway
  import R = Router

  // ----- One delivery -----

  /** A delivery goes to an output of the last routing of some key, with its message id. */
  ghost predicate FromOutput(rs: seq<Resolved>, d: R.Delivery) {
    exists o :: RoutedTo(rs, d.channel, o) && o.messageId == d.messageId
  }

  ghost predicate AllFromOutputs(rs: seq<Resolved>, ds: seq<R.Delivery>) {
    forall d :: d in ds ==> FromOutput(rs, d)
  }

  lemma {:induction false} ToOutputsAreRouted(rs: seq<Resolved>, writers: seq<R.Writer>, source: nat,
      payload: seq<byte>, outputs: seq<Output>)
    requires forall o :: o in outputs ==> Routed(rs, o)
    ensures AllFromOutputs(rs, ToOutputs(writers, source, payload, outputs))
  {
    hide Routed;
    if outputs != [] {
      ToOutputsAreRouted(rs, writers, source, payload, outputs[1..]);
      var o := outputs[0];
      assert RoutedTo(rs, o.channel, o);
      assert FromOutput(rs, R.Delivery(source, o.channel, o.messageId, payload));
    }
  }

  lemma {:induction false} RowsAreRouted(rs: seq<Resolved>, writers: seq<R.Writer>, source: nat, bufferSize: nat,
      messageId: int, payload: seq<byte>, rows: seq<Row>)
    requires forall row, o :: row in rows && o in row.outputs ==> Routed(rs, o)
    ensures AllFromOutputs(rs, RowsDeliveries(writers, source, bufferSize, messageId, payload, rows))
  {
    hide Routed, FromOutput;
    if rows != [] {
      var row := rows[0];
      RowsAreRouted(rs, writers, source, bufferSize, messageId, payload, rows[1..]);
      if row.key.messageId == messageId && PduInside(row.key, bufferSize, payload) {
        ToOutputsAreRouted(rs, writers, source,
                          payload[row.key.pduOffset..row.key.pduOffset + row.key.pduLength], row.outputs);
      }
    }
  }

  lemma {:induction false} FrameIsRouted(rs: seq<Resolved>, writers: seq<R.Writer>, source: nat, bufferSize: nat,
      frame: seq<byte>, rows: seq<Row>)
    requires forall row, o :: row in rows && o in row.outputs ==> Routed(rs, o)
    ensures AllFromOutputs(rs, FrameDeliveries(writers, source, bufferSize, frame, rows))
    decreases |frame|
  {
    hide Routed, FromOutput, RowsDeliveries;
    if HasMessage(frame) {
      var n := MESSAGE_HEADER_SIZE + FromBe32(frame[4..8]);
      var m := frame[..n];
      RowsAreRouted(rs, writers, source, bufferSize, FromBe32(m[..4]), m[MESSAGE_HEADER_SIZE..], rows);
      FrameIsRouted(rs, writers, source, bufferSize, frame[n..], rows);
    }
  }

  lemma {:induction false} SpansAreRouted(kind: Kind, rs: seq<Resolved>, writers: seq<R.Writer>, source: nat,
      bufferSize: nat, spans: seq<Span>, rows: seq<Row>)
    requires forall row, o :: row in rows && o in row.outputs ==> Routed(rs, o)
    ensures AllFromOutputs(rs, Deliveries(kind, writers, source, bufferSize, spans, rows))
  {
    hide Routed, FromOutput, RowsDeliveries, FrameDeliveries;
    if spans != [] {
      var m := spans[0].bytes;
      SpansAreRouted(kind, rs, writers, source, bufferSize, spans[1..], rows);
      if kind.Frames? {
        FrameIsRouted(rs, writers, source, bufferSize, m, rows);
      } else if |m| >= MESSAGE_HEADER_SIZE {
        RowsAreRouted(rs, writers, source, bufferSize, FromBe32(m[..4]), m[MESSAGE_HEADER_SIZE..], rows);
      }
    }
  }

  lemma {:induction false} OutputsOfLast(rows: seq<Row>, rs: seq<Resolved>, c: nat)
    requires RowsHoldLast(rows, rs, c)
    ensures forall row, o :: row in rows && o in row.outputs ==> Routed(rs, o)
  {
    forall row, o | row in rows && o in row.outputs ensures Routed(rs, o) {
      var j :| 0 <= j < |rows| && rows[j] == row;
      assert LastOutputs(rs, c, rows[j].key) == Some(rows[j].outputs);
    }
  }

  /** What a legacy channel with this table puts on its bus for a delivery is the message that its output describes. */
  ghost predicate SentFor(target: Target, t: TxAdapterTable, rs: seq<Resolved>, d: R.Delivery, maxSize: nat)
    requires Shape(t) && HasRoom(target, maxSize, d.payload)
  {
    exists o :: RoutedTo(rs, d.channel, o) && FitsTable(o) && o.messageId == d.messageId
      && CommittedOn(target, t, maxSize, Pdu(o.messageId, d.payload).Wire())
         == OutcomeOf(Described(o, maxSize, d.payload))
  }

  /**
   From bus to bus: everything that a gateway delivers to a legacy channel, whose Tx table comes from the same blob, is
   put on the bus as some output of a last routing describes it, if the outputs to this channel are sendable.
   */
  lemma {:induction false} DeliveredIsSent(crc: seq<byte> -> u32, routings: seq<Routing>, channels: seq<Channel>,
      k: Compilation, target: Target, kind: Kind, writers: seq<R.Writer>, source: nat, bufferSize: nat, rows: seq<Row>,
      spans: seq<Span>, i: nat, c: byte, d: R.Delivery, maxSize: nat) returns (t: TxAdapterTable)
    requires Compiled(crc, routings, channels, k) && RowsHoldLast(rows, k.rs, source)
    requires i < |channels| && FirstWithByte(TxIds(TxVectorList(k.table, IdMap(k.entries), channels)), i, c)
    requires d in Deliveries(kind, writers, source, bufferSize, spans, rows)
    requires d.channel == IdMap(k.entries)[channels[i].name] && HasRoom(target, maxSize, d.payload)
    requires Sendable(target, OutputsTo(OutputsOf(AllRows(k.table)), d.channel))
    ensures LoadTx(FindConfigFor(k.blob, TX_ADAPTER, c).data) == Some(t) && Shape(t)
    ensures SentFor(target, t, k.rs, d, maxSize)
  {
    OutputsOfLast(rows, k.rs, source);
    SpansAreRouted(kind, k.rs, writers, source, bufferSize, spans, rows);
    hide RowsHoldLast, Deliveries, OutputsTo, OutputsOf, AllRows, RoutedTo, Sendable, FindConfigFor, LoadTx,
      CommittedOn, Described;
    assert FromOutput(k.rs, d);
    t := BlobSendsExactly(target, crc, routings, channels, k, i, c);
    var o :| RoutedTo(k.rs, d.channel, o) && o.messageId == d.messageId;
    assert SentAsDescribed(target, t, o);
  }

  // ----- The bus as a whole -----

  /** The deliveries to one channel. */
  function To(log: seq<R.Delivery>, channel: nat): (ds: seq<R.Delivery>)
    ensures forall d :: d in ds <==> d in log && d.channel == channel
  {
    if log == [] then []
    else
      var init, last := To(log[..|log| - 1], channel), log[|log| - 1];
      assert log == log[..|log| - 1] + [last];
      if last.channel == channel then init + [last] else init
  }

  predicate IsPdu(d: R.Delivery) {
    0 <= d.messageId <= MAX_U32 && |d.payload| <= MAX_U32
  }

  /** What has been committed to the bus after these deliveries, each by outputPdu(). */
  function BusOf(target: Target, t: TxAdapterTable, maxSize: nat, ds: seq<R.Delivery>): (spans: seq<Span>)
    requires Shape(t) && maxSize <= target.Max() && forall d :: d in ds ==> IsPdu(d)
  {
    if ds == [] then []
    else
      var n := |ds| - 1;
      assert ds[n] in ds && IsPdu(ds[n]);
      BusOf(target, t, maxSize, ds[..n]) + PutOut(target, t, maxSize, Pdu(ds[n].messageId, ds[n].payload))
  }

  /** Output j describes delivery j to this channel. */
  ghost predicate Describe(rs: seq<Resolved>, channel: nat, outputs: seq<Output>, ds: seq<R.Delivery>) {
    && |outputs| == |ds|
    && forall j :: 0 <= j < |ds| ==>
         RoutedTo(rs, channel, outputs[j]) && FitsTable(outputs[j]) && outputs[j].messageId == ds[j].messageId
  }

  /** The messages that the outputs describe, one after the other. */
  function DescribedBus(maxSize: nat, outputs: seq<Output>, ds: seq<R.Delivery>): (spans: seq<Span>)
    requires |outputs| == |ds| && forall o :: o in outputs ==> FitsTable(o)
  {
    if ds == [] then []
    else
      var n := |ds| - 1;
      var message := Described(outputs[n], maxSize, ds[n].payload);
      DescribedBus(maxSize, outputs[..n], ds[..n]) + if message.Some? then [Span(message.value)] else []
  }

  /** The bus of this channel holds what some outputs describe for these deliveries, and nothing else. */
  ghost predicate HoldsDescribed(target: Target, t: TxAdapterTable, maxSize: nat, rs: seq<Resolved>, channel: nat,
      outputs: seq<Output>, ds: seq<R.Delivery>)
  {
    && Shape(t) && maxSize <= target.Max() && (forall d :: d in ds ==> IsPdu(d))
    && Describe(rs, channel, outputs, ds)
    && BusOf(target, t, maxSize, ds) == DescribedBus(maxSize, outputs, ds)
  }

  lemma {:induction false} BusIsDescribed(target: Target, t: TxAdapterTable, maxSize: nat, rs: seq<Resolved>,
      channel: nat, ds: seq<R.Delivery>) returns (outputs: seq<Output>)
    requires Shape(t) && maxSize <= target.Max()
    requires forall o :: RoutedTo(rs, channel, o) ==> FitsTable(o) && SentAsDescribed(target, t, o)
    requires forall d :: d in ds ==>
      d.channel == channel && FromOutput(rs, d) && IsPdu(d) && HasRoom(target, maxSize, d.payload)
    ensures HoldsDescribed(target, t, maxSize, rs, channel, outputs, ds)
  {
    hide RoutedTo, CommittedOn, Described, FitsTable, Shape;
    outputs := [];
    if ds != [] {
      var n := |ds| - 1;
      var before := BusIsDescribed(target, t, maxSize, rs, channel, ds[..n]);
      var d := ds[n];
      assert d in ds;
      var o :| RoutedTo(rs, channel, o) && o.messageId == d.messageId;
      assert SentAsDescribed(target, t, o);
      outputs := before + [o];
      assert outputs[..n] == before;
    }
  }

  /** Whatever is delivered goes to an output of a last routing, and there is room for it. */
  lemma {:induction false} MadeIsRouted(table: Table, rs: seq<Resolved>, channels: set<nat>, t: PduRoutingTable,
      writers: seq<R.Writer>, d: R.Delivery)
    requires IsTableOf(table, rs, channels) && AllInChannels(rs, channels)
    requires t.destinations == Destinations(OutputsOf(AllRows(table)))
    requires t.outputMessageIds == MessageIdsOf(OutputsOf(AllRows(table)))
    requires Made(t, writers, d)
    ensures FromOutput(rs, d) && IsPdu(d) && R.Accepts(writers, d.channel, MESSAGE_HEADER_SIZE + |d.payload|)
  {
    hide IsTableOf, AllInChannels, Routed;
    var i: nat :| i < |t.destinations| && R.Output(t, writers, d.source, d.payload, i) == [d];
    var o := OutputsOf(AllRows(table))[i];
    assert R.Output(t, writers, d.source, d.payload, i)[0] == d;
    OutputsAreRouted(table, rs, channels, o);
    assert RoutedTo(rs, d.channel, o);
  }

  /** The routing table in the blob lists the outputs of the table. */
  lemma {:induction false} LoadedRoutingLists(crc: seq<byte> -> u32, routings: seq<Routing>, channels: seq<Channel>,
      k: Compilation) returns (t: PduRoutingTable)
    requires Compiled(crc, routings, channels, k)
    ensures LoadRouting(FindConfig(k.blob, ROUTING).data) == Some(t)
    ensures t.destinations == Destinations(OutputsOf(AllRows(k.table)))
    ensures t.outputMessageIds == MessageIdsOf(OutputsOf(AllRows(k.table)))
  {
    hide FindConfig, LoadRouting, BlobBytes, IsTableOf, AllNamed, RxPairs, TxPairs;
    var v := RoutingVectorsOf(k.table);
    AllLaidOut(k.records);
    RoutingTableReadBack(crc, v, k.records.All(), k.records, k.blob);
    t := PduRoutingTable(v.destinationOffsets, v.outputMessageIds, v.destinations);
  }

  /** Channel `id` of the gateway is a legacy channel that runs on the table found under byte c. */
  ghost predicate LegacyConnected(blob: seq<byte>, g: Setup, id: nat, c: byte, maxSize: nat, t: TxAdapterTable) {
    && LoadRouting(FindConfig(blob, ROUTING).data) == Some(g.table)
    && LoadTx(FindConfigFor(blob, TX_ADAPTER, c).data) == Some(t)
    && id < |g.writers| && g.writers[id] == R.LegacyWriter(maxSize, g.target, t)
  }

  /**
   The whole bus of a legacy channel: whatever arrives at the gateway and in whatever order the router runs, what the
   channel puts on its bus for all that is delivered to it is, in order, what outputs of last routings describe for it,
   if the outputs to this channel are sendable. Nothing else is on the bus, and no message is missing.
   */
  lemma {:induction false} BusHoldsDescribed(crc: seq<byte> -> u32, routings: seq<Routing>, channels: seq<Channel>,
      k: Compilation, g: Setup, i: nat, c: byte, maxSize: nat, t: TxAdapterTable, events: seq<Event>)
    returns (outputs: seq<Output>)
    requires Compiled(crc, routings, channels, k) && g.Valid()
    requires i < |channels| && FirstWithByte(TxIds(TxVectorList(k.table, IdMap(k.entries), channels)), i, c)
    requires LegacyConnected(k.blob, g, IdMap(k.entries)[channels[i].name], c, maxSize, t)
    requires Sendable(g.target, OutputsTo(OutputsOf(AllRows(k.table)), IdMap(k.entries)[channels[i].name]))
    ensures var id := IdMap(k.entries)[channels[i].name];
      HoldsDescribed(g.target, t, maxSize, k.rs, id, outputs, To(AfterEvents(g, Idle(|g.adapters|), events).log, id))
  {
    hide R.RoutingShape, Shaped, AfterEvents, OutputsTo, OutputsOf, AllRows, RoutedTo, Sendable, FindConfigFor,
      FindConfig, LoadTx, LoadRouting, IsTableOf, InPlace, SentAsDescribed, FromOutput, FitsTable, FirstWithByte;
    var id := IdMap(k.entries)[channels[i].name];
    var log := AfterEvents(g, Idle(|g.adapters|), events).log;
    NothingInPlace(g);
    EventsInPlace(g, Idle(|g.adapters|), events);
    var t' := BlobSendsExactly(g.target, crc, routings, channels, k, i, c);
    AllDeliveredRouted(crc, routings, channels, k, g, id, maxSize, t, log);
    outputs := BusIsDescribed(g.target, t, maxSize, k.rs, id, To(log, id));
  }

  lemma {:induction false} NothingInPlace(g: Setup)
    requires R.RoutingShape(g.table)
    ensures InPlace(g, [])
  {
  }

  lemma {:induction false} AllDeliveredRouted(crc: seq<byte> -> u32, routings: seq<Routing>, channels: seq<Channel>,
      k: Compilation, g: Setup, id: nat, maxSize: nat, t: TxAdapterTable, log: seq<R.Delivery>)
    requires Compiled(crc, routings, channels, k) && g.Valid() && InPlace(g, log)
    requires LoadRouting(FindConfig(k.blob, ROUTING).data) == Some(g.table)
    requires id < |g.writers| && g.writers[id] == R.LegacyWriter(maxSize, g.target, t)
    ensures maxSize <= g.target.Max()
    ensures forall d :: d in To(log, id) ==>
      d.channel == id && FromOutput(k.rs, d) && IsPdu(d) && HasRoom(g.target, maxSize, d.payload)
  {
    hide R.RoutingShape, Shaped, OutputsOf, AllRows, FindConfig, LoadRouting, IsTableOf, Made, FromOutput;
    assert g.writers[id].Valid(g.target);
    var rt := LoadedRoutingLists(crc, routings, channels, k);
    forall d | d in To(log, id) ensures FromOutput(k.rs, d) && IsPdu(d) && HasRoom(g.target, maxSize, d.payload) {
      MadeIsRouted(k.table, k.rs, IdMap(k.entries).Values, g.table, g.writers, d);
    }
  }
}
