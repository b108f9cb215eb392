/**
 The bytes of a compiled blob, written out: what stands where, with every code as a literal. The records of one channel
 each are compared with the blob that the repository generates for its own tests.
 */
module Layout {
  import opened Results
  import opened Bytes
  import opened BlobFormat
  import opened RoutingTable
  import opened Flatten
  import opened Channels
  import opened Records

  // ----- Frames -----

  /** config(): type, reserved bytes, size, payload, up to three 0xFF, and the checksum of all that. */
  lemma {:induction false} RecordStandsAs(crc: seq<byte> -> u32, r: Record) returns (padding: seq<byte>)
    requires Framable(r)
    ensures |padding| < 4 && (|r.payload| + |padding|) % 4 == 0 && forall b :: b in padding ==> b == 0xFF
    ensures |r.reserved| == 8 && |r.payload| + |padding| + 4 <= 0xFFFF_FFFF
    ensures var sealed := Be32(r.configType) + r.reserved + Be32(|r.payload| + |padding| + 4) + (r.payload + padding);
      RecordBytes(crc, r) == sealed + Be32(crc(sealed))
  {
    padding := MakePadding(|r.payload|);
  }

  /** The blob: version 1, the magic number, the size of what follows, and the records. */
  lemma {:induction false} BlobStandsAs(crc: seq<byte> -> u32, records: seq<Record>)
    ensures BlobBytes(crc, records).Ok? <==> AllFramable(records) && |Body(crc, records)| <= 0xFFFF_FFFF
    ensures BlobBytes(crc, records).Ok? ==>
      BlobBytes(crc, records).value
      == [0, 0, 0, 1] + [0xDE, 0xAD, 0xBE, 0xEF] + Be32(|Body(crc, records)|) + Body(crc, records)
  {
  }

  // ----- Payloads -----

  /** The code of a channel type. */
  function TypeCode(t: ChannelType): (code: seq<byte>) {
    match t
    case PduTransport => [0, 0]
    case Can => [0, 1]
    case FlexRay => [0, 2]
  }

  /** The reserved bytes of a record that belongs to a channel. */
  function ReservedFor(t: ChannelType, id: u16): (s: seq<byte>) {
    TypeCode(t) + Be16(id) + [0, 0, 0, 0]
  }

  lemma {:induction false} ReservedStandsAs(t: ChannelType, id: u16)
    ensures ChannelReserved(t, id) == ReservedFor(t, id) && |ReservedFor(t, id)| == 8
    ensures Zeros(8) == [0, 0, 0, 0, 0, 0, 0, 0]
  {
    FillOf(4);
    FillOf(8);
  }

  lemma {:induction false} FillOf(n: nat)
    ensures |Fill(n, 0)| == n && forall i :: 0 <= i < n ==> Fill(n, 0)[i] == 0
  {
  }

  /** What numbers fit a vector of four, two and one bytes each, and a size in front of it. */
  lemma {:induction false} RangesExactly(vs: seq<int>)
    ensures InRange32(vs) <==> forall v :: v in vs ==> 0 <= v < 0x1_0000_0000
    ensures InRange16(vs) <==> forall v :: v in vs ==> 0 <= v < 0x1_0000
    ensures InRange8(vs) <==> forall v :: v in vs ==> 0 <= v < 0x100
    ensures FitsColumn32(vs) <==> InRange32(vs) && 4 * |vs| < 0x1_0000_0000
  {
    assert forall i :: 0 <= i < |vs| ==> vs[i] in vs;
  }

  /** Type 0: destination offsets, output message ids and destinations. */
  lemma {:induction false} RoutingStandsAs(v: RoutingVectors)
    ensures RoutingRecord(v).Ok? <==>
      && FitColumns32([v.destinationOffsets, v.outputMessageIds])
      && InRange8(v.destinations) && |v.destinations| <= 0xFFFF_FFFF
    ensures RoutingRecord(v).Ok? ==> RoutingRecord(v).value == Record(0x00, [0, 0, 0, 0, 0, 0, 0, 0],
      ColumnsBytes32([v.destinationOffsets, v.outputMessageIds]) + (Be32(|v.destinations|) + v.destinations))
  {
    hide Zeros, ColumnsBytes32;
    Columns32Bytes([v.destinationOffsets, v.outputMessageIds]);
    Column8Bytes(v.destinations);
    if RoutingRecord(v).Ok? {
      RoutingRecordBytes(v);
      ReservedStandsAs(Can, 0);
    }
  }

  /** Type 1: the first id, then message ids, message lengths, group starts, PDU lengths and PDU offsets. */
  lemma {:induction false} RxStandsAs(v: RxVectors)
    ensures RxRecord(v).Ok? <==>
      && 0 <= v.firstId <= 0xFFFF_FFFF && 0 <= v.channelId <= 0xFFFF
      && FitColumns32([v.messageIds, v.messageLengths, v.pduLengthOffsets, v.pduLengths, v.pduOffsets])
    ensures RxRecord(v).Ok? ==> RxRecord(v).value == Record(0x01, ReservedFor(v.channelType, v.channelId),
      Be32(v.firstId)
      + ColumnsBytes32([v.messageIds, v.messageLengths, v.pduLengthOffsets, v.pduLengths, v.pduOffsets]))
  {
    hide ReservedFor, ChannelReserved, ColumnsBytes32, ChannelItems;
    Columns32Bytes(RxColumns(v));
    if RxRecord(v).Ok? {
      RxRecordBytes(v);
      ReservedStandsAs(v.channelType, v.channelId);
    }
  }

  /** Type 2: message ids, message lengths and PDU offsets. */
  lemma {:induction false} TxStandsAs(v: TxVectors)
    ensures TxRecord(v).Ok? <==>
      0 <= v.channelId <= 0xFFFF && FitColumns32([v.messageIds, v.messageLengths, v.pduOffsets])
    ensures TxRecord(v).Ok? ==> TxRecord(v).value == Record(0x02, ReservedFor(v.channelType, v.channelId),
      ColumnsBytes32([v.messageIds, v.messageLengths, v.pduOffsets]))
  {
    hide ReservedFor, ChannelReserved, ColumnsBytes32, ChannelItems;
    Columns32Bytes([v.messageIds, v.messageLengths, v.pduOffsets]);
    if TxRecord(v).Ok? {
      TxRecordBytes(v);
      ReservedStandsAs(v.channelType, v.channelId);
    }
  }

  /** The channels of one type, in order. */
  function OfChannelType(channels: seq<Channel>, t: ChannelType): (cs: seq<Channel>)
    ensures forall c :: c in cs <==> c in channels && c.channelType == t
  {
    if channels == [] then []
    else
      assert channels == [channels[0]] + channels[1..];
      (if channels[0].channelType == t then [channels[0]] else []) + OfChannelType(channels[1..], t)
  }

  lemma {:induction false} FirstOfChannelType(channels: seq<Channel>, t: ChannelType)
    requires channels != []
    ensures OfChannelType(channels, t)
         == (if channels[0].channelType == t then [channels[0]] else []) + OfChannelType(channels[1..], t)
  {
  }

  /** Type 0xCC: the channel's own configuration. */
  predicate IsChannelRecord(ids: map<string, nat>, c: Channel, r: Record) {
    c.name in ids && ids[c.name] <= 0xFFFF
        && r == Record(0xCC, ReservedFor(c.channelType, ids[c.name]), c.configuration)
  }

  lemma {:induction false} ChannelStandsAs(ids: map<string, nat>, c: Channel)
    requires c.name in ids
    ensures var r := ChannelRecord(c, ids[c.name]);
      if ids[c.name] <= 0xFFFF then r.Ok? && IsChannelRecord(ids, c, r.value) else r == Err(ValueOutOfRange)
  {
    hide ReservedFor, ChannelReserved, ChannelItems;
    if ids[c.name] <= 0xFFFF {
      ReservedBytes(c.channelType, ids[c.name]);
      ReservedStandsAs(c.channelType, ids[c.name]);
      FlatAllOne(Leaf(c.configuration));
    }
  }

  /** One for each channel of the type, in order. */
  lemma {:induction false} ChannelsStandAs(ids: map<string, nat>, channels: seq<Channel>, t: ChannelType)
    requires ChannelRecords(ids, channels, t).Ok?
    ensures var rs, cs := ChannelRecords(ids, channels, t).value, OfChannelType(channels, t);
      |rs| == |cs| && forall i :: 0 <= i < |cs| ==> IsChannelRecord(ids, cs[i], rs[i])
  {
    hide ChannelRecord, IsChannelRecord;
    if channels != [] {
      var c := channels[0];
      FirstOfChannelType(channels, t);
      hide OfChannelType;
      ChannelsStandAs(ids, channels[1..], t);
      if c.channelType == t {
        ChannelStandsAs(ids, c);
      }
    }
  }

  /** The data of a list of strings: their number, where they start, and their bytes. */
  predicate IsStringData(names: seq<string>, payload: seq<byte>) {
    if names == [] then payload == []
    else
      && |names| <= 0xFFFF && InRange16(NameOffsets(names))
      && payload == Be16(|names|) + Be16s(NameOffsets(names)) + EncodeAll(names)
  }

  predicate IsStringRecord(configType: u32, names: seq<string>, r: Record) {
    r.configType == configType && r.reserved == [0, 0, 0, 0, 0, 0, 0, 0] && IsStringData(names, r.payload)
  }

  lemma {:induction false} StringsStandAs(configType: u32, names: seq<string>)
    ensures var r := StringRecord(configType, names);
      && (r.Ok? <==> names == [] || (|names| <= 0xFFFF && InRange16(NameOffsets(names))))
      && (r.Ok? ==> IsStringRecord(configType, names, r.value))
  {
    hide EncodeAll, NameOffsets, Zeros;
    ReservedBytes(Can, 0);
    ReservedStandsAs(Can, 0);
    if names != [] && StringTable(names).Ok? {
      StringTableBytes(names);
    }
  }

  /** Metadata is one record, or none; every value in it ends with a 0. */
  lemma {:induction false} MetaStandsAs(meta: Option<seq<string>>) returns (values: seq<string>)
    requires MetaRecords(meta).Ok?
    ensures meta.None? ==> MetaRecords(meta).value == []
    ensures meta.Some? ==> |values| == |meta.value|
    ensures meta.Some? ==> forall i :: 0 <= i < |values| ==> values[i] == meta.value[i] + "\0"
    ensures meta.Some? ==> |MetaRecords(meta).value| == 1 && IsStringRecord(0xFE, values, MetaRecords(meta).value[0])
  {
    hide StringRecord, IsStringRecord;
    values := if meta.Some? then Terminated(meta.value) else [];
    if meta.Some? {
      StringsStandAs(META, values);
    }
  }

  // ----- The whole -----

  /**
   The records in file order: metadata, the routing table, the Rx and Tx tables of all channels, the configurations of
   the PDU transport and then of the FlexRay channels, and the names.
   */
  lemma {:induction false} RecordsStandAs(table: Table, entries: seq<Entry>, channels: seq<Channel>,
      meta: Option<seq<string>>) returns (s: RecordSet, pdu: seq<Record>, flexray: seq<Record>)
    requires NumberedOrAbove(entries) && RecordSetOf(table, entries, channels, meta).Ok?
    ensures AllNamed(IdMap(entries), channels) && RecordSetOf(table, entries, channels, meta) == Ok(s)
    ensures s.All() == s.meta + [s.routing] + s.rx + s.tx + (pdu + flexray) + [s.names]
    ensures MetaRecords(meta) == Ok(s.meta) && RoutingRecord(RoutingVectorsOf(table)) == Ok(s.routing)
    ensures RxRecords(RxVectorList(table, IdMap(entries), channels)) == Ok(s.rx)
    ensures TxRecords(TxVectorList(table, IdMap(entries), channels)) == Ok(s.tx)
    ensures ChannelRecords(IdMap(entries), channels, PduTransport) == Ok(pdu)
    ensures ChannelRecords(IdMap(entries), channels, FlexRay) == Ok(flexray)
    ensures StringRecord(0xDD, NamesWithGaps(entries)) == Ok(s.names)
  {
    hide MetaRecords, RoutingRecord, RoutingVectorsOf, RxRecords, RxVectorList, TxRecords, TxVectorList, ChannelRecords,
      StringRecord, NamesWithGaps, IdMap, AllNamed;
    s := RecordSetOf(table, entries, channels, meta).value;
    pdu := ChannelRecords(IdMap(entries), channels, PduTransport).value;
    flexray := ChannelRecords(IdMap(entries), channels, FlexRay).value;
  }

  // ----- As in the generated blob of the tests -----

  lemma {:induction false} ShortColumn()
    ensures FitsColumn32([]) && ColumnBytes32([]) == [0, 0, 0, 0]
    ensures FitsColumn32([0]) && ColumnBytes32([0]) == [0, 0, 0, 4, 0, 0, 0, 0]
  {
    assert [0][1..] == [] && Be32s([]) == [];
    assert Be32s([0]) == Be32(0) + Be32s([]);
  }

  lemma {:induction false} FirstColumn(vss: seq<seq<int>>)
    requires vss != [] && FitsColumn32(vss[0]) && FitColumns32(vss[1..])
    ensures FitColumns32(vss) && ColumnsBytes32(vss) == ColumnBytes32(vss[0]) + ColumnsBytes32(vss[1..])
  {
    assert forall i :: 0 < i < |vss| ==> vss[i] == vss[1..][i - 1];
  }

  lemma {:induction false} EmptyRxColumns()
    ensures FitColumns32([[], [], [0], [], []])
    ensures ColumnsBytes32([[], [], [0], [], []]) == [0x00, 0x00, 0x00, 0x00, 0x00, 0x00, 0x00, 0x00,
                                                      0x00, 0x00, 0x00, 0x04, 0x00, 0x00, 0x00, 0x00,
                                                      0x00, 0x00, 0x00, 0x00, 0x00, 0x00, 0x00, 0x00]
  {
    ShortColumn();
    var a: seq<seq<int>>, b: seq<seq<int>>, c: seq<seq<int>> := [[], [], [0], [], []], [[], [0], [], []], [[0], [], []];
    var d: seq<seq<int>>, e: seq<seq<int>> := [[], []], [[]];
    assert a[1..] == b && b[1..] == c && c[1..] == d && d[1..] == e && e[1..] == [] && ColumnsBytes32([]) == [];
    hide ColumnsBytes32, ColumnBytes32, FitsColumn32;
    FirstColumn(e);
    FirstColumn(d);
    FirstColumn(c);
    FirstColumn(b);
    FirstColumn(a);
  }

  lemma {:induction false} EmptyRxRecord()
    ensures RxRecord(RxVectors(2, Can, 10, [], [], [0], [], [])) == Ok(Record(0x01, [0, 1, 0, 2, 0, 0, 0, 0],
      [0x00, 0x00, 0x00, 0x0A, 0x00, 0x00, 0x00, 0x00, 0x00, 0x00, 0x00, 0x00, 0x00, 0x00, 0x00, 0x04,
       0x00, 0x00, 0x00, 0x00, 0x00, 0x00, 0x00, 0x00, 0x00, 0x00, 0x00, 0x00]))
  {
    var v := RxVectors(2, Can, 10, [], [], [0], [], []);
    assert [v.messageIds, v.messageLengths, v.pduLengthOffsets, v.pduLengths, v.pduOffsets] == [[], [], [0], [], []];
    hide *;
    EmptyRxColumns();
    EmptyRxPayload();
    EmptyRxReserved();
    RxStandsAs(v);
  }

  lemma {:induction false} EmptyRxPayload()
    requires FitColumns32([[], [], [0], [], []])
    ensures Be32(10) + ColumnsBytes32([[], [], [0], [], []])
         == [0x00, 0x00, 0x00, 0x0A, 0x00, 0x00, 0x00, 0x00, 0x00, 0x00, 0x00, 0x00, 0x00, 0x00, 0x00, 0x04,
             0x00, 0x00, 0x00, 0x00, 0x00, 0x00, 0x00, 0x00, 0x00, 0x00, 0x00, 0x00]
  {
    EmptyRxColumns();
    hide ColumnsBytes32;
    assert Be32(10) == [0, 0, 0, 0x0A];
  }

  lemma {:induction false} EmptyRxReserved()
    ensures ReservedFor(Can, 2) == [0, 1, 0, 2, 0, 0, 0, 0]
  {
    assert Be16(2) == [0, 2];
  }

  /** The Rx table of a CAN channel with id 2 and without rows, behind ten rows of other channels. */
  lemma {:induction false} EmptyRxAsGenerated(crc: seq<byte> -> u32)
    ensures var r := RxRecord(RxVectors(2, Can, 10, [], [], [0], [], []));
      var head := [0x00, 0x00, 0x00, 0x01, 0x00, 0x01, 0x00, 0x02, 0x00, 0x00, 0x00, 0x00, 0x00, 0x00, 0x00, 0x20];
      var data := [0x00, 0x00, 0x00, 0x0A, 0x00, 0x00, 0x00, 0x00, 0x00, 0x00, 0x00, 0x00, 0x00, 0x00, 0x00, 0x04,
                   0x00, 0x00, 0x00, 0x00, 0x00, 0x00, 0x00, 0x00, 0x00, 0x00, 0x00, 0x00];
      r.Ok? && Framable(r.value) && RecordBytes(crc, r.value) == head + data + Be32(crc(head + data))
  {
    EmptyRxRecord();
    EmptyRxHead();
    var r := RxRecord(RxVectors(2, Can, 10, [], [], [0], [], [])).value;
    hide RxRecord, RecordBytes, Be32;
    var padding := RecordStandsAs(crc, r);
    assert padding == [] && r.payload + [] == r.payload;
  }

  lemma {:induction false} EmptyRxHead()
    ensures Be32(0x01) + [0, 1, 0, 2, 0, 0, 0, 0] + Be32(0x20)
         == [0x00, 0x00, 0x00, 0x01, 0x00, 0x01, 0x00, 0x02, 0x00, 0x00, 0x00, 0x00, 0x00, 0x00, 0x00, 0x20]
    ensures |MakePadding(28)| == 0
  {
    assert Be32(0x01) == [0, 0, 0, 1] && Be32(0x20) == [0, 0, 0, 0x20];
  }
}
