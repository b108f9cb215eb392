/** The smallest gateway: one CAN channel with one routing to itself compiles, so the main results are not empty. */
module Example {
  import opened Results
  import opened Bytes
  import opened SizeT
  import opened BlobFormat
  import opened RoutingTable
  import opened Flatten
  import opened Channels
  import opened Records
  import opened TableReader
  import opened RoundTrip
  import opened Ecu
  import opened EndToEnd
  import opened Outgoing
  import opened LegacyTx
  import opened Reception
  import opened Gateway
  import opened Bus
  import R = Router

  function Channels1(): (channels: seq<Channel>) {
    [Channel("CAN0", 0, Can, [])]
  }

  function Routings1(): (routings: seq<Routing>) {
    [Routing(RoutingInput("CAN0", 0x100, None, 0, 8), [RoutingOutput("CAN0", 0x200, None, None)])]
  }

  function Key1(): (k: Key) {
    Key(0x100, 0, 0, 8)
  }

  function Rows1(): (rows: seq<Row>) {
    [Row(Key1(), [Output(0, 0x200, 0, 8)])]
  }

  lemma {:induction false} NumberingOfOne(entries: seq<Entry>)
    requires IsNumbering(entries, Channels1())
    ensures entries == [Entry("CAN0", 0)]
    ensures NumberedOrAbove(entries) && IdMap(entries) == map["CAN0" := 0]
  {
    var channels := Channels1();
    assert channels[0] in channels;
    var e :| e in entries && e.name == channels[0].name;
    assert e == entries[0] && entries[0].id == 0;
    IdMapHolds(entries);
    assert forall n :: n in IdMap(entries) ==> Entry(n, IdMap(entries)[n]) == entries[0];
  }

  lemma {:induction false} Numbered() returns (entries: seq<Entry>)
    ensures DistinctNames(Channels1()) && ChannelIds(Channels1()) == Ok(entries) && IsNumbering(entries, Channels1())
  {
    var channels := Channels1();
    assert Select([], false) == [];
    assert channels[..0] == [];
    assert Select(channels, false) == channels;
    ChannelIdsAcceptsExactly(channels);
    ChannelIdsNumber(channels);
    entries := ChannelIds(channels).value;
  }

  lemma {:induction false} ResolvedOutputs(ids: map<string, nat>)
    requires "CAN0" in ids && ids["CAN0"] == 0
    ensures ResolveOutputs([RoutingOutput("CAN0", 0x200, None, None)], ids, 8) == Ok([Output(0, 0x200, 0, 8)])
  {
    var outputs := [RoutingOutput("CAN0", 0x200, None, None)];
    assert outputs[1..] == [] && ResolveOutputs([], ids, 8) == Ok([]);
    assert [Output(0, 0x200, 0, 8)] + [] == [Output(0, 0x200, 0, 8)];
  }

  lemma {:induction false} ResolvedRouting(ids: map<string, nat>)
    requires "CAN0" in ids && ids["CAN0"] == 0
    ensures ResolveAll(Routings1(), ids) == Ok([Resolved(0, Key1(), [Output(0, 0x200, 0, 8)])])
  {
    ResolvedOutputs(ids);
    hide ResolveOutputs;
    var routings, resolved := Routings1(), Resolved(0, Key1(), [Output(0, 0x200, 0, 8)]);
    assert Resolve(routings[0], ids) == Ok(resolved);
    assert routings[..0] == [] && ResolveAll([], ids) == Ok([]);
    assert [] + [resolved] == [resolved];
  }

  lemma {:induction false} LastOutputsOfOne(r: Resolved, c: nat, k: Key)
    ensures LastOutputs([r], c, k) == if r.channel == c && r.key == k then Some(r.outputs) else None
  {
    assert [r][..0] == [];
  }

  /** What the routing asks for. */
  lemma {:induction false} RowsOfOne(rs: seq<Resolved>)
    requires rs == [Resolved(0, Key1(), [Output(0, 0x200, 0, 8)])]
    ensures RowsHoldLast(Rows1(), rs, 0)
  {
    forall k ensures LastOutputs(rs, 0, k) == if k == Key1() then Some(rs[0].outputs) else None {
      LastOutputsOfOne(rs[0], 0, k);
    }
    assert KeysOf(Rows1()) == [Key1()];
  }

  lemma {:induction false} TableOfOne(ids: map<string, nat>) returns (table: Table)
    requires ids == map["CAN0" := 0]
    ensures InputTableOf(Routings1(), ids) == Ok(table) && table == [ChannelRows(0, Rows1())]
  {
    hide RowsHoldLast, LastOutputs, Rows1, Key1, ResolveAll, Routings1, AllInChannels, FillTables, SortTable, IsTableOf;
    ResolvedRouting(ids);
    table := InputTableOf(Routings1(), ids).value;
    InputTableMeaning(Routings1(), ids);
    assert ids["CAN0"] in ids.Values;
    OneIsTable(ids.Values);
    var rs := [Resolved(0, Key1(), [Output(0, 0x200, 0, 8)])];
    TableIsCanonical(table, [ChannelRows(0, Rows1())], rs, rs, ids.Values);
  }

  lemma {:induction false} OneIsTable(channels: set<nat>)
    requires channels == {0}
    ensures IsTableOf([ChannelRows(0, Rows1())], [Resolved(0, Key1(), [Output(0, 0x200, 0, 8)])], channels)
  {
    hide RowsHoldLast, Rows1;
    var one: Table := [ChannelRows(0, Rows1())];
    RowsOfOne([Resolved(0, Key1(), [Output(0, 0x200, 0, 8)])]);
    assert ChannelsOf(one) == [0];
  }

  // ----- Its records -----

  predicate Short(vss: seq<seq<int>>) {
    forall i :: 0 <= i < |vss| ==> |vss[i]| <= 2 && InRange32(vss[i])
  }

  lemma {:induction false} ShortColumns(vss: seq<seq<int>>)
    requires Short(vss)
    ensures FitColumns32(vss) && |ColumnsBytes32(vss)| <= 12 * |vss|
  {
    forall i | 0 <= i < |vss| ensures FitsColumn32(vss[i]) {
    }
    if vss != [] {
      ShortColumns(vss[1..]);
    }
  }

  predicate Small(r: Record) {
    |r.reserved| == RESERVED_SIZE && |r.payload| <= 100
  }

  lemma {:induction false} SmallBody(crc: seq<byte> -> u32, records: seq<Record>)
    requires forall i :: 0 <= i < |records| ==> Small(records[i])
    ensures AllFramable(records) && |Body(crc, records)| <= 200 * |records|
  {
    forall i | 0 <= i < |records| ensures Framable(records[i]) {
    }
    if records != [] {
      SmallBody(crc, records[1..]);
    }
  }

  lemma {:induction false} RoutingIsSmall(v: RoutingVectors)
    requires |v.destinations| <= 2 && InRange8(v.destinations) && Short([v.destinationOffsets, v.outputMessageIds])
    ensures RoutingRecord(v).Ok? && Small(RoutingRecord(v).value)
  {
    ShortColumns([v.destinationOffsets, v.outputMessageIds]);
    Columns32Bytes([v.destinationOffsets, v.outputMessageIds]);
    Column8Bytes(v.destinations);
    RoutingRecordBytes(v);
  }

  lemma {:induction false} RxIsSmall(v: RxVectors)
    requires 0 <= v.firstId <= MAX_U32 && 0 <= v.channelId <= MAX_U16 && Short(RxColumns(v))
    ensures RxRecord(v).Ok? && Small(RxRecord(v).value)
  {
    ShortColumns(RxColumns(v));
    Columns32Bytes(RxColumns(v));
    RxRecordBytes(v);
  }

  lemma {:induction false} TxIsSmall(v: TxVectors)
    requires 0 <= v.channelId <= MAX_U16 && Short([v.messageIds, v.messageLengths, v.pduOffsets])
    ensures TxRecord(v).Ok? && Small(TxRecord(v).value)
  {
    ShortColumns([v.messageIds, v.messageLengths, v.pduOffsets]);
    Columns32Bytes([v.messageIds, v.messageLengths, v.pduOffsets]);
    TxRecordBytes(v);
  }

  lemma {:induction false} OneNameCounted(w: string)
    ensures CharCount([w]) == |w| && NameOffsets([w]) == [0, |w|]
  {
    assert [w][..0] == [] && [w][..1] == [w];
    assert CharCount([w]) == CharCount([]) + |w|;
  }

  lemma {:induction false} OneNameIsSmall(w: string)
    requires |w| <= 10 && IsAscii(w)
    ensures StringRecord(CHANNEL_NAMES, [w]).Ok? && Small(StringRecord(CHANNEL_NAMES, [w]).value)
  {
    OneNameCounted(w);
    EncodeAllLength([w]);
    hide EncodeAll, CharCount, NameOffsets, IsAscii;
    StringTableBytes([w]);
  }

  lemma {:induction false} NamesAreSmall(entries: seq<Entry>)
    requires entries == [Entry("CAN0", 0)]
    ensures StringRecord(CHANNEL_NAMES, NamesWithGaps(entries)).Ok?
    ensures Small(StringRecord(CHANNEL_NAMES, NamesWithGaps(entries)).value)
  {
    hide StringRecord, Small, NamesWithGaps;
    var w := "CAN0" + [0 as char];
    NoGaps(entries);
    assert NamesWithGaps(entries) == [w];
    assert IsAscii(w);
    OneNameIsSmall(w);
  }

  lemma {:induction false} VectorsOfOne(table: Table)
    requires table == [ChannelRows(0, Rows1())]
    ensures AllRows(table) == Rows1() && RowsFor(table, 0) == Rows1()
    ensures OutputsOf(Rows1()) == [Output(0, 0x200, 0, 8)] == OutputsTo(OutputsOf(Rows1()), 0)
    ensures DestinationOffsets(Rows1()) == [0, 1] && Starts(Rows1()) == [0]
  {
    var rows := Rows1();
    assert table[1..] == [] && rows[1..] == [] && rows[..0] == [] && rows[..1] == rows;
    assert AllRows(table) == rows + AllRows([]);
    assert OutputsOf(rows) == rows[0].outputs + OutputsOf([]);
    var outputs := OutputsOf(rows);
    assert outputs[..0] == [] && OutputsTo([], 0) == [];
    assert OutputsOf(rows[..0]) == [] && OutputsOf(rows[..1]) == outputs;
    assert Starts(rows[..0]) == [];
  }

  lemma {:induction false} RoutingVectorsOfOne(table: Table)
    requires table == [ChannelRows(0, Rows1())]
    ensures RoutingVectorsOf(table) == RoutingVectors([0, 1], [0x200], [0])
  {
    VectorsOfOne(table);
    hide AllRows, OutputsOf, DestinationOffsets;
  }

  lemma {:induction false} RoutingOfOne(table: Table)
    requires table == [ChannelRows(0, Rows1())]
    ensures RoutingRecord(RoutingVectorsOf(table)).Ok? && Small(RoutingRecord(RoutingVectorsOf(table)).value)
  {
    RoutingVectorsOfOne(table);
    hide RoutingVectorsOf, RoutingRecord, Small;
    RoutingIsSmall(RoutingVectorsOf(table));
  }

  lemma {:induction false} RxVectorsOfOne(rows: seq<Row>)
    requires rows == Rows1() && Starts(rows) == [0]
    ensures RxMessageIds(rows) == [0x100] && RxMessageLengths(rows) == [] && RxPduLengthOffsets(rows) == [0, 1]
    ensures RxPduLengths(rows) == [8] && RxPduOffsets(rows) == [0]
  {
    hide Starts;
    assert rows[0].key == Key1();
    assert !AllLengthsPositive(rows);
    assert RxMessageIds(rows)[0] == 0x100;
  }

  lemma {:induction false} RxOfOne(table: Table)
    requires table == [ChannelRows(0, Rows1())]
    ensures RxRecord(RxVectorsOf(table, 0, Can)).Ok? && Small(RxRecord(RxVectorsOf(table, 0, Can)).value)
  {
    VectorsOfOne(table);
    RxVectorsOfOne(RowsFor(table, 0));
    hide AllRows, OutputsOf, Starts, RowsFor, RxRecord, Small, RxMessageIds, RxMessageLengths, RxPduLengthOffsets,
      RxPduLengths, RxPduOffsets, Rows1;
    RxIsSmall(RxVectorsOf(table, 0, Can));
  }

  lemma {:induction false} TxOfOne(table: Table)
    requires table == [ChannelRows(0, Rows1())]
    ensures TxRecord(TxVectorsOf(table, 0, Can)).Ok? && Small(TxRecord(TxVectorsOf(table, 0, Can)).value)
  {
    VectorsOfOne(table);
    hide AllRows, OutputsOf, OutputsTo, TxRecord, Small;
    TxIsSmall(TxVectorsOf(table, 0, Can));
  }

  lemma {:induction false} ListsOfOne(table: Table, ids: map<string, nat>)
    requires ids == map["CAN0" := 0]
    requires RxRecord(RxVectorsOf(table, 0, Can)).Ok? && TxRecord(TxVectorsOf(table, 0, Can)).Ok?
    ensures AllNamed(ids, Channels1())
    ensures RxRecords(RxVectorList(table, ids, Channels1())) == Ok([RxRecord(RxVectorsOf(table, 0, Can)).value])
    ensures TxRecords(TxVectorList(table, ids, Channels1())) == Ok([TxRecord(TxVectorsOf(table, 0, Can)).value])
    ensures ChannelRecords(ids, Channels1(), PduTransport) == Ok([]) == ChannelRecords(ids, Channels1(), FlexRay)
  {
    hide RxVectorsOf, TxVectorsOf, RxRecord, TxRecord;
    var channels := Channels1();
    var rx, tx := RxVectorList(table, ids, channels), TxVectorList(table, ids, channels);
    assert channels[1..] == [] && rx == [RxVectorsOf(table, 0, Can)] && tx == [TxVectorsOf(table, 0, Can)];
    assert rx[1..] == [] && tx[1..] == [] && RxRecords([]) == Ok([]) && TxRecords([]) == Ok([]);
    var rxOne, txOne := [RxRecord(rx[0]).value], [TxRecord(tx[0]).value];
    assert rxOne + [] == rxOne && txOne + [] == txOne;
    assert RxRecords(rx) == Ok(rxOne + []) && TxRecords(tx) == Ok(txOne + []);
    assert ChannelRecords(ids, [], PduTransport) == Ok([]) == ChannelRecords(ids, [], FlexRay);
  }

  /** The parts of a record set determine it. */
  lemma {:induction false} RecordSetFromParts(table: Table, entries: seq<Entry>, channels: seq<Channel>,
      routing: Record, rx: seq<Record>, tx: seq<Record>, names: Record) returns (s: RecordSet)
    requires NumberedOrAbove(entries) && AllNamed(IdMap(entries), channels)
    requires RoutingRecord(RoutingVectorsOf(table)) == Ok(routing)
    requires RxRecords(RxVectorList(table, IdMap(entries), channels)) == Ok(rx)
    requires TxRecords(TxVectorList(table, IdMap(entries), channels)) == Ok(tx)
    requires ChannelRecords(IdMap(entries), channels, PduTransport) == Ok([])
    requires ChannelRecords(IdMap(entries), channels, FlexRay) == Ok([])
    requires StringRecord(CHANNEL_NAMES, NamesWithGaps(entries)) == Ok(names)
    ensures RecordSetOf(table, entries, channels, None) == Ok(s)
    ensures s.All() == [routing] + rx + tx + [names]
  {
    hide RoutingVectorsOf, RoutingRecord, StringRecord, NamesWithGaps, IdMap, AllNamed, RxRecords, TxRecords,
      RxVectorList, TxVectorList, ChannelRecords;
    s := RecordSet([], routing, rx, tx, [], names);
    assert [] + [] == s.channel;
    assert s.All() == [routing] + rx + tx + [names];
  }

  lemma {:induction false} RecordsOfOne(table: Table, entries: seq<Entry>) returns (s: RecordSet)
    requires table == [ChannelRows(0, Rows1())] && entries == [Entry("CAN0", 0)] && NumberedOrAbove(entries)
    requires IdMap(entries) == map["CAN0" := 0]
    ensures RecordSetOf(table, entries, Channels1(), None) == Ok(s)
    ensures |s.All()| == 4 && forall i :: 0 <= i < |s.All()| ==> Small(s.All()[i])
  {
    hide *;
    RoutingOfOne(table);
    RxOfOne(table);
    TxOfOne(table);
    NamesAreSmall(entries);
    ListsOfOne(table, IdMap(entries));
    var rx, tx := RxRecord(RxVectorsOf(table, 0, Can)).value, TxRecord(TxVectorsOf(table, 0, Can)).value;
    var routing := RoutingRecord(RoutingVectorsOf(table)).value;
    var names := StringRecord(CHANNEL_NAMES, NamesWithGaps(entries)).value;
    s := RecordSetFromParts(table, entries, Channels1(), routing, [rx], [tx], names);
    assert s.All() == [routing, rx, tx, names];
  }

  lemma {:induction false} OneRoutingCompiles(crc: seq<byte> -> u32)
    ensures DistinctNames(Channels1()) && Compile(crc, Routings1(), Channels1(), None).Ok?
  {
    hide ChannelIds, InputTableOf, RecordSetOf, Channels1, Routings1, Body, AllFramable, IdMap, DistinctNames, Rows1,
        Small;
    var entries := Numbered();
    NumberingOfOne(entries);
    var table := TableOfOne(IdMap(entries));
    var s := RecordsOfOne(table, entries);
    SmallBody(crc, s.All());
  }

  /** It compiles, and for every checksum the main result for one channel applies to it. */
  lemma {:induction false} OneRoutingWorks(target: Target, crc: seq<byte> -> u32, writers: seq<R.Writer>,
      bufferSize: nat, messages: seq<Span>)
    ensures DistinctNames(Channels1()) && Compile(crc, Routings1(), Channels1(), None).Ok?
    ensures Delivers(Messages, target, Compile(crc, Routings1(), Channels1(), None).value, 0, writers, bufferSize,
                     messages, Rows1())
  {
    assert KindOf(Channels1()[0].channelType) == Messages;
    hide Compile, RowsHoldLast, Delivers, Rows1, Routings1, ResolveAll, IsNumbering, DistinctNames, LastOutputs;
    OneRoutingCompiles(crc);
    var k, id := CompiledBlobWorks(target, crc, Routings1(), Channels1(), None, [], 0, Rows1(), writers, bufferSize,
                                   messages);
    CompiledIsNumbered(crc, Routings1(), Channels1(), k);
    NumberingOfOne(k.entries);
    ResolvedRouting(IdMap(k.entries));
    RowsOfOne(k.rs);
  }

  lemma {:induction false} RowFitsAnywhere(target: Target)
    ensures RowsFit(Messages, target, Rows1())
  {
    forall j: nat | j < |Rows1()| ensures RowFits(Messages, target, Rows1(), j) {
    }
  }

  /** The gateway that runs on the tables of a blob, with one channel. */
  lemma {:induction false} GatewayOfOne(target: Target, blob: seq<byte>, writer: R.Writer, bufferSize: nat,
      events: seq<Event>, n: nat, rows: seq<Row>) returns (g: Setup)
    requires Delivers(Messages, target, blob, 0, [writer], bufferSize, Arrived(events, 0), rows)
    requires RowsFit(Messages, target, rows) && writer.Valid(target) && NeverResetsOnCommit(writer)
    ensures g.Valid() && g.target == target && g.writers == [writer] && |g.adapters| == 1
    ensures Connected(blob, g, 0, bufferSize) && Handles(g, Messages, 0, bufferSize, rows, events, n)
    ensures EnoughRuns(g, events, n) && AllPlain(Messages, target, Arrived(events, 0)) ==>
      && !Finally(g, events, n).reset
      && R.From(Finally(g, events, n).log, 0) == AllDeliveries([writer], 0, bufferSize, Arrived(events, 0), rows)
  {
    hide AllPlain, NeverResets, RowsFit, R.RoutingShape, RxShape, FindConfig, FindConfigFor, LoadRouting, LoadRx,
      EnoughRuns, Finally, AllDeliveries, Follows, R.AllRouted, R.From, KindIn;
    g := Setup(target, LoadRouting(FindConfig(blob, ROUTING).data).value, [writer],
               [Adapter(Messages, LoadRx(FindConfigFor(blob, RX_ADAPTER, 0).data).value, bufferSize)]);
    HandlesIfDelivers(blob, g, Messages, 0, bufferSize, rows, events, n);
    if EnoughRuns(g, events, n) && AllPlain(Messages, target, Arrived(events, 0)) {
      GatewaySurvives(g, events, n);
    }
  }

  /** A gateway is connected to its blob, and is never reset by messages: it delivers all of them. */
  lemma {:induction false} OneRoutingGateway(target: Target, crc: seq<byte> -> u32, writer: R.Writer, bufferSize: nat,
      events: seq<Event>, n: nat) returns (g: Setup)
    requires writer.Valid(target) && NeverResetsOnCommit(writer)
    ensures g.Valid() && g.target == target && g.writers == [writer] && |g.adapters| == 1
    ensures DistinctNames(Channels1()) && Compile(crc, Routings1(), Channels1(), None).Ok?
    ensures Connected(Compile(crc, Routings1(), Channels1(), None).value, g, 0, bufferSize)
    ensures EnoughRuns(g, events, n) && AllPlain(Messages, target, Arrived(events, 0)) ==>
      && !Finally(g, events, n).reset
      && R.From(Finally(g, events, n).log, 0) == AllDeliveries([writer], 0, bufferSize, Arrived(events, 0), Rows1())
  {
    hide *;
    OneRoutingWorks(target, crc, [writer], bufferSize, Arrived(events, 0));
    RowFitsAnywhere(target);
    g := GatewayOfOne(target, Compile(crc, Routings1(), Channels1(), None).value, writer, bufferSize, events, n,
                      Rows1());
  }

  lemma {:induction false} RoutedIsTheOutput(rs: seq<Resolved>, o: Output)
    requires rs == [Resolved(0, Key1(), [Output(0, 0x200, 0, 8)])] && RoutedTo(rs, 0, o)
    ensures o == Output(0, 0x200, 0, 8)
  {
    var source: nat, key: Key :| LastOutputs(rs, source, key).Some? && o in LastOutputs(rs, source, key).value;
    LastOutputsOfOne(rs[0], source, key);
  }

  lemma {:induction false} OneOutputSendable(target: Target, mine: seq<Output>)
    requires forall o :: o in mine ==> o == Output(0, 0x200, 0, 8)
    ensures Sendable(target, mine)
  {
    forall r: nat | IsFirst(mine, r) ensures OutputFits(target, mine[r]) {
      assert mine[r] in mine;
    }
  }

  lemma {:induction false} OneRoutingIds(crc: seq<byte> -> u32, k: Compilation)
    requires Compiled(crc, Routings1(), Channels1(), k)
    ensures |Channels1()| == 1 && AllNamed(IdMap(k.entries), Channels1()) && IdMap(k.entries)[Channels1()[0].name] == 0
    ensures FirstWithByte(TxIds(TxVectorList(k.table, IdMap(k.entries), Channels1())), 0, 0)
    ensures k.rs == [Resolved(0, Key1(), [Output(0, 0x200, 0, 8)])]
  {
    hide *;
    CompiledIsNumbered(crc, Routings1(), Channels1(), k);
    CompiledIsResolved(crc, Routings1(), Channels1(), k);
    NumberingOfOne(k.entries);
    ResolvedRouting(IdMap(k.entries));
    TxIdsOfOne(k.table, IdMap(k.entries));
  }

  lemma {:induction false} CompiledIsResolved(crc: seq<byte> -> u32, routings: seq<Routing>, channels: seq<Channel>,
      k: Compilation)
    requires Compiled(crc, routings, channels, k)
    ensures ResolveAll(routings, IdMap(k.entries)) == Ok(k.rs)
  {
    hide ResolveAll, IdMap;
  }

  lemma {:induction false} TxIdsOfOne(table: Table, ids: map<string, nat>)
    requires ids == map["CAN0" := 0]
    ensures |Channels1()| == 1 && AllNamed(ids, Channels1()) && ids[Channels1()[0].name] == 0
    ensures FirstWithByte(TxIds(TxVectorList(table, ids, Channels1())), 0, 0)
  {
    assert TxVectorList(table, ids, Channels1())[0] == TxVectorsOf(table, 0, Can);
  }

  /** Its Tx table: the one output is sendable, so that a legacy writer never resets the ECU. */
  lemma {:induction false} OneRoutingTx(target: Target, crc: seq<byte> -> u32, k: Compilation, maxSize: nat)
    returns (t: TxAdapterTable)
    requires Compiled(crc, Routings1(), Channels1(), k) && maxSize <= target.Max()
    ensures LoadTx(FindConfigFor(k.blob, TX_ADAPTER, 0).data) == Some(t)
    ensures Sendable(target, OutputsTo(OutputsOf(AllRows(k.table)), 0))
    ensures var w := R.LegacyWriter(maxSize, target, t); w.Valid(target) && NeverResetsOnCommit(w)
  {
    hide *;
    OneRoutingIds(crc, k);
    t := BlobSendsExactly(target, crc, Routings1(), Channels1(), k, 0, 0);
    var mine := OutputsTo(OutputsOf(AllRows(k.table)), 0);
    forall o | o in mine ensures o == Output(0, 0x200, 0, 8) {
      RoutedIsTheOutput(k.rs, o);
    }
    OneOutputSendable(target, mine);
    var t' := WriterSurvivesExactly(target, crc, Routings1(), Channels1(), k, 0, 0, maxSize);
  }

  /** With its own legacy writer, too: it delivers all its messages, and its bus holds what the output describes. */
  lemma {:induction false} OneRoutingBus(target: Target, crc: seq<byte> -> u32, maxSize: nat, bufferSize: nat,
      events: seq<Event>, n: nat)
    returns (k: Compilation, g: Setup, t: TxAdapterTable, outputs: seq<Output>)
    requires maxSize <= target.Max()
    ensures Compiled(crc, Routings1(), Channels1(), k) && g.Valid() && LegacyConnected(k.blob, g, 0, 0, maxSize, t)
    ensures Connected(k.blob, g, 0, bufferSize)
    ensures EnoughRuns(g, events, n) && AllPlain(Messages, target, Arrived(events, 0)) ==>
      && !Finally(g, events, n).reset
      && R.From(Finally(g, events, n).log, 0) == AllDeliveries(g.writers, 0, bufferSize, Arrived(events, 0), Rows1())
    ensures HoldsDescribed(target, t, maxSize, k.rs, 0, outputs,
                           To(AfterEvents(g, Idle(|g.adapters|), events).log, 0))
  {
    hide *;
    OneRoutingCompiles(crc);
    k := CompileSteps(crc, Routings1(), Channels1(), None);
    OneRoutingIds(crc, k);
    t := OneRoutingTx(target, crc, k, maxSize);
    g := OneRoutingGateway(target, crc, R.LegacyWriter(maxSize, target, t), bufferSize, events, n);
    ConnectedLegacy(k.blob, g, bufferSize, maxSize, t);
    outputs := BusHoldsDescribed(crc, Routings1(), Channels1(), k, g, 0, 0, maxSize, t, events);
  }

  lemma {:induction false} ConnectedLegacy(blob: seq<byte>, g: Setup, bufferSize: nat, maxSize: nat, t: TxAdapterTable)
    requires Connected(blob, g, 0, bufferSize) && LoadTx(FindConfigFor(blob, TX_ADAPTER, 0).data) == Some(t)
    requires g.writers == [R.LegacyWriter(maxSize, g.target, t)]
    ensures LegacyConnected(blob, g, 0, 0, maxSize, t)
  {
    hide FindConfigFor, FindConfig, LoadTx, LoadRouting, LoadRx, KindIn;
  }
}
