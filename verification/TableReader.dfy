/**
 How the ECU finds and loads its tables in a blob (libs/bsw/routing): the header of a configuration, lookup by
 type and channel, and the routing, Rx, Tx and name tables.
 */
module TableReader {
  import opened Results
  import opened Bytes
  import opened BlobFormat
  import opened BlobReader
  import opened Channels
  import opened Records

  const INVALID_CHANNEL_ID: byte := 0xFF

  datatype Header = Header(configType: u32, channelType: u16, channelId: byte)

  /** load(mem, header): the channel fields are only read from channel-specific configurations. */
  function LoadHeader(mem: seq<byte>): (h: Option<Header>) {
    if |mem| < RECORD_HEADER_SIZE then None
    else
      var configType := FromBe32(mem[..4]);
      if configType !in {ROUTING, RX_ADAPTER, TX_ADAPTER, CHANNEL, CHANNEL_NAMES, META} then None
      else if configType in {CHANNEL, RX_ADAPTER, TX_ADAPTER} then
        var channelType := FromBe16(mem[4..6]);
        if channelType > 2 then None else Some(Header(configType, channelType, mem[7]))
      else Some(Header(configType, 3, INVALID_CHANNEL_ID))
  }

  predicate IsConfigFor(c: Config, configType: u32, channelId: byte) {
    c.configType == configType && LoadHeader(c.data).Some? && LoadHeader(c.data).value.channelId == channelId
  }

  function OfType(configType: u32): (p: Config -> bool) {
    (c: Config) => c.configType == configType
  }

  function ForChannel(configType: u32, channelId: byte): (p: Config -> bool) {
    (c: Config) => IsConfigFor(c, configType, channelId)
  }

  /** blob::config(blob, type). */
  function FindConfig(blob: seq<byte>, configType: u32): (c: Config) {
    FirstMatch(Configs(Region(blob)), OfType(configType))
  }

  /** routing::config(blob, type, channelId). */
  function FindConfigFor(blob: seq<byte>, configType: u32, channelId: byte): (c: Config) {
    FirstMatch(Configs(Region(blob)), ForChannel(configType, channelId))
  }

  /** Index k is the first one that matches. */
  ghost predicate IsFirstMatch(cs: seq<Config>, p: Config -> bool, k: nat) {
    k < |cs| && p(cs[k]) && forall j :: 0 <= j < k ==> !p(cs[j])
  }

  /** A search finds the first match, and nothing if and only if there is none. */
  lemma {:induction false} FirstMatchExactly(cs: seq<Config>, p: Config -> bool) returns (k: nat)
    ensures k <= |cs| && (k == |cs| <==> forall j :: 0 <= j < |cs| ==> !p(cs[j]))
    ensures k < |cs| ==> IsFirstMatch(cs, p, k)
    ensures FirstMatch(cs, p) == if k < |cs| then cs[k] else NO_CONFIG
  {
    if cs == [] {
      k := 0;
    } else if p(cs[0]) {
      k := 0;
    } else {
      var k' := FirstMatchExactly(cs[1..], p);
      k := k' + 1;
      assert k == |cs| ==> forall j :: 0 < j < |cs| ==> cs[j] == cs[1..][j - 1];
    }
  }

  /** blob::config(blob, type): the first configuration of this type that the blob visits, or none. */
  method LookUp(blob: seq<byte>, configType: u32) returns (c: Config)
    ensures c == FindConfig(blob, configType)
    ensures var cs, p := Configs(Region(blob)), OfType(configType);
      || (exists k: nat :: IsFirstMatch(cs, p, k) && c == cs[k])
      || (c == NO_CONFIG && forall j :: 0 <= j < |cs| ==> !p(cs[j]))
  {
    c := Find(blob, OfType(configType));
    var k := FirstMatchExactly(Configs(Region(blob)), OfType(configType));
  }

  /** routing::config(blob, type, channelId): the same for a type and a channel. */
  method LookUpFor(blob: seq<byte>, configType: u32, channelId: byte) returns (c: Config)
    ensures c == FindConfigFor(blob, configType, channelId)
    ensures var cs, p := Configs(Region(blob)), ForChannel(configType, channelId);
      || (exists k: nat :: IsFirstMatch(cs, p, k) && c == cs[k])
      || (c == NO_CONFIG && forall j :: 0 <= j < |cs| ==> !p(cs[j]))
  {
    c := Find(blob, ForChannel(configType, channelId));
    var k := FirstMatchExactly(Configs(Region(blob)), ForChannel(configType, channelId));
  }

  // ----- Tables -----

  datatype PduRoutingTable = PduRoutingTable(
    destinationOffsets: seq<u32>, outputMessageIds: seq<u32>, destinations: seq<byte>)

  datatype RxAdapterTable = RxAdapterTable(
    firstId: u32, messageIds: seq<u32>, messageLengths: seq<u32>, pduLengthsOffsets: seq<u32>,
    pduLengths: seq<u32>, pduOffsets: seq<u32>)

  datatype TxAdapterTable = TxAdapterTable(
    messageIds: seq<u32>, messageLengths: seq<u32>, pduOffsets: seq<u32>)

  datatype ChannelNames = ChannelNames(offsets: seq<u16>, names: seq<byte>)

  /** `n` calls of loadColumn in a row. */
  function LoadColumns32(mem: seq<byte>, n: nat): (r: (seq<seq<u32>>, seq<byte>))
    ensures |r.0| == n
    decreases n
  {
    if n == 0 then ([], mem)
    else
      var (first, mem') := LoadColumn32(mem);
      var (rest, mem'') := LoadColumns32(mem', n - 1);
      ([first] + rest, mem'')
  }

  function LoadRouting(mem: seq<byte>): (t: Option<PduRoutingTable>) {
    if LoadConfigHeader(mem).configType != ROUTING then None
    else
      var rest := if |mem| < RECORD_HEADER_SIZE then mem else mem[RECORD_HEADER_SIZE..];
      var (columns, rest') := LoadColumns32(rest, 2);
      Some(PduRoutingTable(columns[0], columns[1], LoadColumn8(rest').0))
  }

  function LoadRx(mem: seq<byte>): (t: Option<RxAdapterTable>) {
    var header := LoadHeader(mem);
    if header.None? || header.value.configType != RX_ADAPTER then None
    else if |mem| < RECORD_HEADER_SIZE + 4 then None
    else
      var rest := mem[RECORD_HEADER_SIZE..];
      var c := LoadColumns32(rest[4..], 5).0;
      Some(RxAdapterTable(FromBe32(rest[..4]), c[0], c[1], c[2], c[3], c[4]))
  }

  function LoadTx(mem: seq<byte>): (t: Option<TxAdapterTable>) {
    var header := LoadHeader(mem);
    if header.None? || header.value.configType != TX_ADAPTER then None
    else
      var c := LoadColumns32(mem[RECORD_HEADER_SIZE..], 3).0;
      Some(TxAdapterTable(c[0], c[1], c[2]))
  }

  function LoadNames(mem: seq<byte>): (t: Option<ChannelNames>) {
    var header := LoadHeader(mem);
    if header.None? || header.value.configType != CHANNEL_NAMES then None
    else
      var rest := mem[RECORD_HEADER_SIZE..];
      if |rest| < 2 then None
      else
        var count := FromBe16(rest[..2]);
        if |rest| - 2 < (count + 1) * 2 then None
        else
          var split := 2 + (count + 1) * 2;
          var offsets := FromBe16s(rest[2..split]);
          if |rest| - split < offsets[count] then None
          else Some(ChannelNames(offsets, rest[split..split + offsets[count]]))
  }

  /** name(config, channelId): the bytes between two offsets, or nothing if they are unusable. */
  function Name(t: ChannelNames, channelId: byte): (s: seq<byte>) {
    if t.offsets == [] || channelId >= |t.offsets| - 1 then []
    else
      var lo, hi := t.offsets[channelId], t.offsets[channelId + 1];
      if hi <= lo || |t.names| < hi then [] else t.names[lo..hi]
  }

  // ----- Loading undoes writing, record by record -----

  /** What follows the payload in a record: padding and checksum. */
  function Trailer(crc: seq<byte> -> u32, r: Record): (s: seq<byte>)
    requires Framable(r)
  {
    MakePadding(|r.payload|) + Be32(crc(Covered(r)))
  }

  lemma {:induction false} RecordParts(crc: seq<byte> -> u32, r: Record)
    requires Framable(r)
    ensures var s := RecordBytes(crc, r);
      s[..4] == Be32(r.configType) && s[4..12] == r.reserved && s[16..] == r.payload + Trailer(crc, r)
  {
  }

  lemma {:induction false} HeaderOfRecord(crc: seq<byte> -> u32, r: Record)
    requires Framable(r)
    ensures LoadConfigHeader(RecordBytes(crc, r)).configType == r.configType
    ensures r.configType in {ROUTING, CHANNEL_NAMES, META} ==>
              LoadHeader(RecordBytes(crc, r)) == Some(Header(r.configType, 3, INVALID_CHANNEL_ID))
    ensures r.configType in {RX_ADAPTER, TX_ADAPTER, CHANNEL} && FromBe16(r.reserved[..2]) <= 2 ==>
              LoadHeader(RecordBytes(crc, r)) == Some(Header(r.configType, FromBe16(r.reserved[..2]), r.reserved[3]))
  {
    var s := RecordBytes(crc, r);
    RecordParts(crc, r);
    Be32RoundTrip(r.configType);
    assert s[4..6] == s[4..12][..2] == r.reserved[..2];
    assert s[7] == s[4..12][3];
  }

  /** Of the two bytes of a channel id, the reader takes the second: the id modulo 256. */
  lemma {:induction false} ReservedRead(channelType: ChannelType, channelId: u16)
    ensures var s := ChannelReserved(channelType, channelId);
      FromBe16(s[..2]) == ChannelTypeValue(channelType) <= 2 && s[3] == channelId % 0x100
  {
    var s := ChannelReserved(channelType, channelId);
    Be16RoundTrip(ChannelTypeValue(channelType));
    assert s[..2] == Be16(ChannelTypeValue(channelType));
    assert s[3] == Be16(channelId)[1];
  }

  lemma {:induction false} LoadColumnsOfBytes(vss: seq<seq<int>>, rest: seq<byte>)
    requires FitColumns32(vss)
    ensures LoadColumns32(ColumnsBytes32(vss) + rest, |vss|) == (vss, rest)
  {
    hide LoadColumn32, Be32, Be32s;
    if vss == [] {
      assert [] + rest == rest;
    } else {
      var tail := ColumnsBytes32(vss[1..]) + rest;
      assert ColumnsBytes32(vss) + rest == ColumnBytes32(vss[0]) + tail;
      LoadColumn32OfBytes(vss[0], tail);
      LoadColumnsOfBytes(vss[1..], rest);
      assert vss == [vss[0]] + vss[1..];
    }
  }

  lemma {:induction false} LoadRoutingOfRecord(crc: seq<byte> -> u32, v: RoutingVectors)
    requires RoutingRecord(v).Ok? && Framable(RoutingRecord(v).value)
    ensures InRange32(v.destinationOffsets) && InRange32(v.outputMessageIds) && InRange8(v.destinations)
    ensures LoadRouting(RecordBytes(crc, RoutingRecord(v).value))
         == Some(PduRoutingTable(v.destinationOffsets, v.outputMessageIds, v.destinations))
  {
    hide LoadColumn8, FromBe32, Be32;
    RoutingRecordBytes(v);
    var r := RoutingRecord(v).value;
    var vss := [v.destinationOffsets, v.outputMessageIds];
    assert FitsColumn32(vss[0]) && FitsColumn32(vss[1]);
    HeaderOfRecord(crc, r);
    RecordParts(crc, r);
    var tail := Be32(|v.destinations|) + v.destinations + Trailer(crc, r);
    assert r.payload + Trailer(crc, r) == ColumnsBytes32(vss) + tail;
    LoadColumnsOfBytes(vss, tail);
    LoadColumn8OfBytes(v.destinations, Trailer(crc, r));
  }

  predicate RxInRange(v: RxVectors) {
    && 0 <= v.firstId <= MAX_U32 && 0 <= v.channelId <= MAX_U16
    && InRange32(v.messageIds) && InRange32(v.messageLengths) && InRange32(v.pduLengthOffsets)
    && InRange32(v.pduLengths) && InRange32(v.pduOffsets)
  }

  /** The vectors as the ECU holds them. */
  function RxTableOf(v: RxVectors): (t: RxAdapterTable)
    requires RxInRange(v)
  {
    RxAdapterTable(v.firstId, v.messageIds, v.messageLengths, v.pduLengthOffsets, v.pduLengths, v.pduOffsets)
  }

  lemma {:induction false} LoadRxOfRecord(crc: seq<byte> -> u32, v: RxVectors)
    requires RxRecord(v).Ok? && Framable(RxRecord(v).value)
    ensures RxInRange(v)
    ensures LoadHeader(RecordBytes(crc, RxRecord(v).value))
         == Some(Header(RX_ADAPTER, ChannelTypeValue(v.channelType), v.channelId % 0x100))
    ensures LoadRx(RecordBytes(crc, RxRecord(v).value)) == Some(RxTableOf(v))
  {
    hide LoadColumns32, FromBe32, Be32, ColumnsBytes32;
    RxRecordBytes(v);
    var r, c := RxRecord(v).value, RxColumns(v);
    assert FitsColumn32(c[0]) && FitsColumn32(c[1]) && FitsColumn32(c[2]) && FitsColumn32(c[3]) && FitsColumn32(c[4]);
    HeaderOfRecord(crc, r);
    ReservedRead(v.channelType, v.channelId);
    RecordParts(crc, r);
    var rest := r.payload + Trailer(crc, r);
    assert rest[..4] == Be32(v.firstId);
    assert rest[4..] == ColumnsBytes32(c) + Trailer(crc, r);
    Be32RoundTrip(v.firstId);
    LoadColumnsOfBytes(c, Trailer(crc, r));
  }

  lemma {:induction false} LoadTxOfRecord(crc: seq<byte> -> u32, v: TxVectors)
    requires TxRecord(v).Ok? && Framable(TxRecord(v).value)
    ensures 0 <= v.channelId <= MAX_U16
    ensures InRange32(v.messageIds) && InRange32(v.messageLengths) && InRange32(v.pduOffsets)
    ensures LoadHeader(RecordBytes(crc, TxRecord(v).value))
         == Some(Header(TX_ADAPTER, ChannelTypeValue(v.channelType), v.channelId % 0x100))
    ensures LoadTx(RecordBytes(crc, TxRecord(v).value))
         == Some(TxAdapterTable(v.messageIds, v.messageLengths, v.pduOffsets))
  {
    TxRecordBytes(v);
    var r := TxRecord(v).value;
    var vss := [v.messageIds, v.messageLengths, v.pduOffsets];
    assert FitsColumn32(vss[0]) && FitsColumn32(vss[1]) && FitsColumn32(vss[2]);
    HeaderOfRecord(crc, r);
    ReservedRead(v.channelType, v.channelId);
    RecordParts(crc, r);
    LoadColumnsOfBytes(vss, Trailer(crc, r));
  }
}
