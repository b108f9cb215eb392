/**
 Which vectors go into which record, and the whole compiler from channels and routings to a blob
 (tools/blob/routing/table.py, tools/blob/__main__.py).
 */
module Records {
  import opened Results
  import opened Bytes
  import opened BlobFormat
  import opened RoutingTable
  import opened Flatten
  import opened Channels

  // ----- Size-prefixed columns -----

  /** prepend_size(iter_to_blob_element_list(vs, ..., ">I")). */
  function Column32(vs: seq<int>): (r: Result<Element>) {
    var v :- Vector32(vs);
    var sized :- PrependSize(v.items, 0);
    Ok(Node(sized))
  }

  /** The same with format ">B". */
  function Column8(vs: seq<int>): (r: Result<Element>) {
    var v :- Vector8(vs);
    var sized :- PrependSize(v.items, 0);
    Ok(Node(sized))
  }

  function Columns32(vss: seq<seq<int>>): (r: Result<seq<Element>>) {
    if vss == [] then Ok([])
    else
      var first :- Column32(vss[0]);
      var rest :- Columns32(vss[1..]);
      Ok([first] + rest)
  }

  predicate FitsColumn32(vs: seq<int>) {
    InRange32(vs) && 4 * |vs| <= MAX_U32
  }

  predicate FitColumns32(vss: seq<seq<int>>) {
    forall i :: 0 <= i < |vss| ==> FitsColumn32(vss[i])
  }

  function ColumnBytes32(vs: seq<int>): (s: seq<byte>)
    requires FitsColumn32(vs)
  {
    Be32(4 * |vs|) + Be32s(vs)
  }

  function ColumnsBytes32(vss: seq<seq<int>>): (s: seq<byte>)
    requires FitColumns32(vss)
  {
    if vss == [] then [] else ColumnBytes32(vss[0]) + ColumnsBytes32(vss[1..])
  }

  lemma {:induction false} Column32Bytes(vs: seq<int>)
    ensures Column32(vs).Ok? <==> FitsColumn32(vs)
    ensures Column32(vs).Ok? ==> Flat(Column32(vs).value) == ColumnBytes32(vs)
    ensures Column32(vs).Err? ==> Column32(vs).error == ValueOutOfRange
  {
    if InRange32(vs) {
      var items := Leaves32(vs);
      assert Vector32(vs) == Ok(Node(items)) && FlatAll(items) == Be32s(vs);
      if |FlatAll(items)| <= MAX_U32 {
        PrependSizeBytes(items, 0);
      }
    }
  }

  lemma {:induction false} Column8Bytes(vs: seq<int>)
    ensures Column8(vs).Ok? <==> InRange8(vs) && |vs| <= MAX_U32
    ensures Column8(vs).Ok? ==> Flat(Column8(vs).value) == Be32(|vs|) + vs
    ensures Column8(vs).Err? ==> Column8(vs).error == ValueOutOfRange
  {
    if InRange8(vs) {
      var items := Leaves8(vs);
      assert Vector8(vs) == Ok(Node(items)) && FlatAll(items) == vs;
      if |FlatAll(items)| <= MAX_U32 {
        PrependSizeBytes(items, 0);
      }
    }
  }

  lemma {:induction false} Columns32Bytes(vss: seq<seq<int>>)
    ensures Columns32(vss).Ok? <==> FitColumns32(vss)
    ensures Columns32(vss).Ok? ==> FlatAll(Columns32(vss).value) == ColumnsBytes32(vss)
    ensures Columns32(vss).Err? ==> Columns32(vss).error == ValueOutOfRange
  {
    if vss != [] {
      Column32Bytes(vss[0]);
      Columns32Bytes(vss[1..]);
      assert FitColumns32(vss) <==> FitsColumn32(vss[0]) && FitColumns32(vss[1..]);
    }
  }

  // ----- RoutingTable, RxAdapter, TxAdapter -----

  datatype RoutingVectors = RoutingVectors(
    destinationOffsets: seq<int>, outputMessageIds: seq<int>, destinations: seq<int>)

  datatype RxVectors = RxVectors(
    channelId: int, channelType: ChannelType, firstId: int, messageIds: seq<int>, messageLengths: seq<int>,
    pduLengthOffsets: seq<int>, pduLengths: seq<int>, pduOffsets: seq<int>)

  datatype TxVectors = TxVectors(
    channelId: int, channelType: ChannelType, messageIds: seq<int>, messageLengths: seq<int>, pduOffsets: seq<int>)

  /** table[channel_id]. */
  function RowsFor(table: Table, channel: nat): (rows: seq<Row>) {
    if table == [] then [] else if table[0].channel == channel then table[0].rows else RowsFor(table[1..], channel)
  }

  /** RoutingTable.new. */
  function RoutingVectorsOf(table: Table): (v: RoutingVectors) {
    var outputs := OutputsOf(AllRows(table));
    RoutingVectors(DestinationOffsets(AllRows(table)), MessageIdsOf(outputs), Destinations(outputs))
  }

  /** RxAdapter.new. */
  function RxVectorsOf(table: Table, channel: nat, channelType: ChannelType): (v: RxVectors) {
    var rows := RowsFor(table, channel);
    RxVectors(channel, channelType, FirstId(table, channel), RxMessageIds(rows), RxMessageLengths(rows),
              RxPduLengthOffsets(rows), RxPduLengths(rows), RxPduOffsets(rows))
  }

  /** TxAdapter.new. */
  function TxVectorsOf(table: Table, channel: nat, channelType: ChannelType): (v: TxVectors) {
    var mine := OutputsTo(OutputsOf(AllRows(table)), channel);
    TxVectors(channel, channelType, MessageIdsOf(mine), PduLengthsOf(mine), PduOffsetsOf(mine))
  }

  function Zeros(n: nat): (s: seq<byte>)
    ensures |s| == n
  {
    Fill(n, 0)
  }

  /** The reserved bytes of a channel-specific record: channel type, channel id, four zeros. */
  function ChannelReserved(channelType: ChannelType, channelId: u16): (s: seq<byte>)
    ensures |s| == RESERVED_SIZE
  {
    Be16(ChannelTypeValue(channelType)) + Be16(channelId) + Zeros(4)
  }

  /** The reserved elements as the channel-specific records hand them to config(). */
  function ChannelItems(channelType: ChannelType, channelId: u16): (items: seq<Element>) {
    [Leaf(Be16(ChannelTypeValue(channelType))), Leaf(Be16(channelId)), Leaf(Zeros(4))]
  }

  /** They always have the full size, so that config() uses them; without any, it uses zeros. */
  lemma {:induction false} ReservedBytes(channelType: ChannelType, channelId: u16)
    ensures FlatAll(ReservedItems(Some(ChannelItems(channelType, channelId))))
        == ChannelReserved(channelType, channelId)
    ensures FlatAll(ReservedItems(None)) == Zeros(RESERVED_SIZE)
  {
    FlatAllThree(Leaf(Be16(ChannelTypeValue(channelType))), Leaf(Be16(channelId)), Leaf(Zeros(4)));
    FlatAllOne(Leaf(Fill(RESERVED_SIZE, 0)));
  }

  function RoutingRecord(v: RoutingVectors): (r: Result<Record>)
    ensures r.Ok? ==> r.value.configType == ROUTING
  {
    var columns :- Columns32([v.destinationOffsets, v.outputMessageIds]);
    var destinations :- Column8(v.destinations);
    Ok(RequestedRecord(ROUTING, columns + [destinations], None))
  }

  function RxRecord(v: RxVectors): (r: Result<Record>)
    ensures r.Ok? ==> r.value.configType == RX_ADAPTER
  {
    if !(0 <= v.firstId <= MAX_U32) then Err(ValueOutOfRange)
    else
      var columns :- Columns32(RxColumns(v));
      if !(0 <= v.channelId <= MAX_U16) then Err(ValueOutOfRange)
      else Ok(RequestedRecord(RX_ADAPTER, [Leaf(Be32(v.firstId))] + columns,
                              Some(ChannelItems(v.channelType, v.channelId))))
  }

  function RxColumns(v: RxVectors): (vss: seq<seq<int>>) {
    [v.messageIds, v.messageLengths, v.pduLengthOffsets, v.pduLengths, v.pduOffsets]
  }

  function TxRecord(v: TxVectors): (r: Result<Record>)
    ensures r.Ok? ==> r.value.configType == TX_ADAPTER
  {
    var columns :- Columns32([v.messageIds, v.messageLengths, v.pduOffsets]);
    if !(0 <= v.channelId <= MAX_U16) then Err(ValueOutOfRange)
    else Ok(RequestedRecord(TX_ADAPTER, columns, Some(ChannelItems(v.channelType, v.channelId))))
  }

  /** PduTransportChannelConfig and FlexrayChannelConfig, with the given bytes as data. */
  function ChannelRecord(c: Channel, id: nat): (r: Result<Record>) {
    if id > MAX_U16 then Err(ValueOutOfRange)
    else Ok(RequestedRecord(CHANNEL, [Leaf(c.configuration)], Some(ChannelItems(c.channelType, id))))
  }

  function StringRecord(configType: u32, names: seq<string>): (r: Result<Record>)
    ensures r.Ok? ==> r.value.configType == configType
  {
    var items :- StringTable(names);
    Ok(RequestedRecord(configType, items, None))
  }

  lemma {:induction false} RoutingRecordBytes(v: RoutingVectors)
    requires RoutingRecord(v).Ok?
    ensures FitColumns32([v.destinationOffsets, v.outputMessageIds]) && InRange8(v.destinations)
        && |v.destinations| <= MAX_U32
    ensures RoutingRecord(v).value == Record(ROUTING, Zeros(RESERVED_SIZE),
              ColumnsBytes32([v.destinationOffsets, v.outputMessageIds]) + (Be32(|v.destinations|) + v.destinations))
  {
    Columns32Bytes([v.destinationOffsets, v.outputMessageIds]);
    Column8Bytes(v.destinations);
    var columns := Columns32([v.destinationOffsets, v.outputMessageIds]).value;
    var destinations := Column8(v.destinations).value;
    FlatAllAppend(columns, [destinations]);
    FlatAllOne(destinations);
    ReservedBytes(Can, 0);
  }

  lemma {:induction false} RxRecordBytes(v: RxVectors)
    requires RxRecord(v).Ok?
    ensures 0 <= v.firstId <= MAX_U32 && 0 <= v.channelId <= MAX_U16 && FitColumns32(RxColumns(v))
    ensures RxRecord(v).value == Record(RX_ADAPTER, ChannelReserved(v.channelType, v.channelId),
              Be32(v.firstId) + ColumnsBytes32(RxColumns(v)))
  {
    Columns32Bytes(RxColumns(v));
    var first, columns := Leaf(Be32(v.firstId)), Columns32(RxColumns(v)).value;
    FlatAllAppend([first], columns);
    FlatAllOne(first);
    ReservedBytes(v.channelType, v.channelId);
  }

  lemma {:induction false} TxRecordBytes(v: TxVectors)
    requires TxRecord(v).Ok?
    ensures 0 <= v.channelId <= MAX_U16 && FitColumns32([v.messageIds, v.messageLengths, v.pduOffsets])
    ensures TxRecord(v).value == Record(TX_ADAPTER, ChannelReserved(v.channelType, v.channelId),
              ColumnsBytes32([v.messageIds, v.messageLengths, v.pduOffsets]))
  {
    Columns32Bytes([v.messageIds, v.messageLengths, v.pduOffsets]);
    ReservedBytes(v.channelType, v.channelId);
  }

  // ----- Config.new and MetaConfig.new -----

  /** The vectors of the listed channels. */
  function RxVectorList(table: Table, ids: map<string, nat>, channels: seq<Channel>): (vs: seq<RxVectors>)
    requires AllNamed(ids, channels)
  {
    seq(|channels|, i requires 0 <= i < |channels| =>
      RxVectorsOf(table, ids[channels[i].name], channels[i].channelType))
  }

  function TxVectorList(table: Table, ids: map<string, nat>, channels: seq<Channel>): (vs: seq<TxVectors>)
    requires AllNamed(ids, channels)
  {
    seq(|channels|, i requires 0 <= i < |channels| =>
      TxVectorsOf(table, ids[channels[i].name], channels[i].channelType))
  }

  predicate AllNamed(ids: map<string, nat>, channels: seq<Channel>) {
    forall i :: 0 <= i < |channels| ==> channels[i].name in ids
  }

  function RxRecords(vs: seq<RxVectors>): (r: Result<seq<Record>>)
    ensures r.Ok? ==> |r.value| == |vs|
    ensures r.Ok? ==> forall i :: 0 <= i < |vs| ==> r.value[i].configType == RX_ADAPTER
  {
    if vs == [] then Ok([])
    else
      var first :- RxRecord(vs[0]);
      var rest :- RxRecords(vs[1..]);
      Ok([first] + rest)
  }

  function TxRecords(vs: seq<TxVectors>): (r: Result<seq<Record>>)
    ensures r.Ok? ==> |r.value| == |vs|
    ensures r.Ok? ==> forall i :: 0 <= i < |vs| ==> r.value[i].configType == TX_ADAPTER
  {
    if vs == [] then Ok([])
    else
      var first :- TxRecord(vs[0]);
      var rest :- TxRecords(vs[1..]);
      Ok([first] + rest)
  }

  /** Record j is that of vectors j. */
  ghost predicate RxPair(vs: seq<RxVectors>, rs: seq<Record>, j: nat) {
    j < |vs| && j < |rs| ==> RxRecord(vs[j]) == Ok(rs[j])
  }

  ghost predicate RxPairs(vs: seq<RxVectors>, rs: seq<Record>) {
    |vs| == |rs| && forall j: nat :: RxPair(vs, rs, j)
  }

  lemma {:induction false} RxRecordsPair(vs: seq<RxVectors>)
    requires RxRecords(vs).Ok?
    ensures RxPairs(vs, RxRecords(vs).value)
  {
    if vs != [] {
      var rs, tail := RxRecords(vs).value, RxRecords(vs[1..]).value;
      RxRecordsPair(vs[1..]);
      forall j: nat ensures RxPair(vs, rs, j) {
        if 0 < j < |vs| {
          assert RxPair(vs[1..], tail, j - 1);
        }
      }
    }
  }

  /** Record j is that of vectors j. */
  ghost predicate TxPair(vs: seq<TxVectors>, rs: seq<Record>, j: nat) {
    j < |vs| && j < |rs| ==> TxRecord(vs[j]) == Ok(rs[j])
  }

  ghost predicate TxPairs(vs: seq<TxVectors>, rs: seq<Record>) {
    |vs| == |rs| && forall j: nat :: TxPair(vs, rs, j)
  }

  lemma {:induction false} TxRecordsPair(vs: seq<TxVectors>)
    requires TxRecords(vs).Ok?
    ensures TxPairs(vs, TxRecords(vs).value)
  {
    if vs != [] {
      var rs, tail := TxRecords(vs).value, TxRecords(vs[1..]).value;
      TxRecordsPair(vs[1..]);
      forall j: nat ensures TxPair(vs, rs, j) {
        if 0 < j < |vs| {
          assert TxPair(vs[1..], tail, j - 1);
        }
      }
    }
  }

  /** The records of the channels of one type. */
  function ChannelRecords(ids: map<string, nat>, channels: seq<Channel>, t: ChannelType): (r: Result<seq<Record>>)
    ensures r.Ok? ==> forall i :: 0 <= i < |r.value| ==> r.value[i].configType == CHANNEL
  {
    if channels == [] then Ok([])
    else if channels[0].channelType != t then ChannelRecords(ids, channels[1..], t)
    else if channels[0].name !in ids then Err(KeyMissing)
    else
      var first :- ChannelRecord(channels[0], ids[channels[0].name]);
      var rest :- ChannelRecords(ids, channels[1..], t);
      Ok([first] + rest)
  }

  /** MetaConfig.new: a record if there is any metadata; every value is NUL-terminated. */
  function MetaRecords(meta: Option<seq<string>>): (r: Result<seq<Record>>)
    ensures r.Ok? ==> forall i :: 0 <= i < |r.value| ==> r.value[i].configType == META
  {
    if meta.None? then Ok([])
    else
      var record :- StringRecord(META, Terminated(meta.value));
      Ok([record])
  }

  function Terminated(values: seq<string>): (s: seq<string>)
    ensures |s| == |values| && forall i :: 0 <= i < |s| ==> s[i] == values[i] + [0 as char]
  {
    seq(|values|, i requires 0 <= i < |values| => values[i] + [0 as char])
  }

  /** The records of one blob, by kind and in file order. */
  datatype RecordSet = RecordSet(
    meta: seq<Record>, routing: Record, rx: seq<Record>, tx: seq<Record>, channel: seq<Record>, names: Record)
  {
    function All(): (rs: seq<Record>) {
      meta + [routing] + rx + tx + channel + [names]
    }

    ghost predicate WellTyped() {
      && (forall i :: 0 <= i < |meta| ==> meta[i].configType == META)
      && routing.configType == ROUTING && names.configType == CHANNEL_NAMES
      && (forall i :: 0 <= i < |rx| ==> rx[i].configType == RX_ADAPTER)
      && (forall i :: 0 <= i < |tx| ==> tx[i].configType == TX_ADAPTER)
      && (forall i :: 0 <= i < |channel| ==> channel[i].configType == CHANNEL)
    }
  }

  function RecordSetOf(table: Table, entries: seq<Entry>, channels: seq<Channel>, meta: Option<seq<string>>)
    : (r: Result<RecordSet>)
    requires NumberedOrAbove(entries)
  {
    var ids := IdMap(entries);
    if !AllNamed(ids, channels) then Err(KeyMissing)
    else
      var metaRecords :- MetaRecords(meta);
      var routing :- RoutingRecord(RoutingVectorsOf(table));
      var rx :- RxRecords(RxVectorList(table, ids, channels));
      var tx :- TxRecords(TxVectorList(table, ids, channels));
      var pdu :- ChannelRecords(ids, channels, PduTransport);
      var flexray :- ChannelRecords(ids, channels, FlexRay);
      var names :- StringRecord(CHANNEL_NAMES, NamesWithGaps(entries));
      Ok(RecordSet(metaRecords, routing, rx, tx, pdu + flexray, names))
  }

  /** The records of a successful compilation, each kind from its vectors. */
  lemma {:induction false} RecordSetParts(table: Table, entries: seq<Entry>, channels: seq<Channel>,
      meta: Option<seq<string>>)
    requires NumberedOrAbove(entries) && RecordSetOf(table, entries, channels, meta).Ok?
    ensures AllNamed(IdMap(entries), channels)
    ensures var s := RecordSetOf(table, entries, channels, meta).value;
      && s.WellTyped()
      && RoutingRecord(RoutingVectorsOf(table)) == Ok(s.routing)
      && RxRecords(RxVectorList(table, IdMap(entries), channels)) == Ok(s.rx)
      && TxRecords(TxVectorList(table, IdMap(entries), channels)) == Ok(s.tx)
      && StringRecord(CHANNEL_NAMES, NamesWithGaps(entries)) == Ok(s.names)
  {
    hide MetaRecords, RoutingRecord, RoutingVectorsOf, RxRecords, RxVectorList, TxRecords, TxVectorList, ChannelRecords,
      StringRecord, NamesWithGaps, IdMap, AllNamed;
  }

  predicate NumberedOrAbove(entries: seq<Entry>) {
    forall i :: 0 <= i < |entries| ==> entries[i].id >= 0
  }

  /** The compiler: channel ids, table, records, blob; any error of a step ends it. */
  function Compile(crc: seq<byte> -> u32, routings: seq<Routing>, channels: seq<Channel>, meta: Option<seq<string>>)
    : (r: Result<seq<byte>>)
    requires DistinctNames(channels)
  {
    var entries :- ChannelIds(channels);
    ChannelIdsNumber(channels);
    var table :- InputTableOf(routings, IdMap(entries));
    var records :- RecordSetOf(table, entries, channels, meta);
    BlobBytes(crc, records.All())
  }

  lemma {:induction false} InputTableIsCanonical(a: seq<Routing>, b: seq<Routing>, ids: map<string, nat>,
                              rs1: seq<Resolved>, rs2: seq<Resolved>)
    requires ResolveAll(a, ids) == Ok(rs1) && ResolveAll(b, ids) == Ok(rs2)
    requires forall c, k :: c in ids.Values ==> LastOutputs(rs1, c, k) == LastOutputs(rs2, c, k)
    ensures InputTableOf(a, ids) == InputTableOf(b, ids)
  {
    InputTableMeaning(a, ids);
    InputTableMeaning(b, ids);
    TableIsCanonical(InputTableOf(a, ids).value, InputTableOf(b, ids).value, rs1, rs2, ids.Values);
  }

  /** The bytes depend on nothing but the channels, the metadata and the last outputs of every key. */
  lemma {:induction false} CompileIsCanonical(crc: seq<byte> -> u32, a: seq<Routing>, b: seq<Routing>,
      channels: seq<Channel>, meta: Option<seq<string>>, entries: seq<Entry>, rs1: seq<Resolved>, rs2: seq<Resolved>)
    requires DistinctNames(channels) && ChannelIds(channels) == Ok(entries) && NumberedOrAbove(entries)
    requires ResolveAll(a, IdMap(entries)) == Ok(rs1) && ResolveAll(b, IdMap(entries)) == Ok(rs2)
    requires forall c, k :: c in IdMap(entries).Values ==> LastOutputs(rs1, c, k) == LastOutputs(rs2, c, k)
    ensures Compile(crc, a, channels, meta) == Compile(crc, b, channels, meta)
  {
    InputTableIsCanonical(a, b, IdMap(entries), rs1, rs2);
  }
}
