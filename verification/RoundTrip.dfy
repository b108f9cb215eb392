/**
 From the bytes of a compiled blob back to every vector the compiler put in: the tables that the ECU finds and
 loads, for every routing list and channel list that compiles.
 */
module RoundTrip {
  import opened Results
  import opened Bytes
  import opened SizeT
  import opened BlobFormat
  import opened BlobReader
  import opened RoutingTable
  import opened Flatten
  import opened Channels
  import opened Records
  import opened TableReader

  // ----- The name table -----

  lemma {:induction false} EncodeAllLength(names: seq<string>)
    ensures |EncodeAll(names)| >= CharCount(names)
    ensures (forall i :: 0 <= i < |names| ==> IsAscii(names[i])) ==> |EncodeAll(names)| == CharCount(names)
  {
    if names != [] {
      var n := |names| - 1;
      EncodeAllLength(names[..n]);
      EncodeAllAppend(names[..n], [names[n]]);
      assert names == names[..n] + [names[n]];
      assert EncodeAll([names[n]]) == Encode(names[n]) + EncodeAll([]);
      EncodedLength(names[n]);
      assert forall i :: 0 <= i < n ==> names[..n][i] == names[i];
    }
  }

  lemma {:induction false} LoadNamesSplit(mem: seq<byte>, count: seq<byte>, offsets: seq<byte>, encoded: seq<byte>,
                                          trailer: seq<byte>)
    requires |mem| >= RECORD_HEADER_SIZE && LoadHeader(mem) == Some(Header(CHANNEL_NAMES, 3, INVALID_CHANNEL_ID))
    requires mem[RECORD_HEADER_SIZE..] == count + offsets + encoded + trailer
    requires |count| == 2 && |offsets| == (FromBe16(count) + 1) * 2
    requires FromBe16s(offsets)[FromBe16(count)] <= |encoded|
    ensures LoadNames(mem) == Some(ChannelNames(FromBe16s(offsets), encoded[..FromBe16s(offsets)[FromBe16(count)]]))
  {
    hide LoadHeader, FromBe16s, FromBe16;
    var rest := mem[RECORD_HEADER_SIZE..];
    var n, split := FromBe16s(offsets)[FromBe16(count)], 2 + |offsets|;
    assert rest[..2] == count && rest[2..split] == offsets;
    assert rest[split..split + n] == encoded[..n];
  }

  lemma {:induction false} LoadNamesOfRecord(crc: seq<byte> -> u32, names: seq<string>, r: Record)
    requires names != [] && StringTable(names).Ok?
    requires r == Record(CHANNEL_NAMES, Zeros(RESERVED_SIZE), FlatAll(StringTable(names).value)) && Framable(r)
    ensures InRange16(NameOffsets(names)) && CharCount(names) <= |EncodeAll(names)|
    ensures LoadNames(RecordBytes(crc, r))
         == Some(ChannelNames(NameOffsets(names), EncodeAll(names)[..CharCount(names)]))
  {
    var count, offsets := |names|, NameOffsets(names);
    StringTableBytes(names);
    HeaderOfRecord(crc, r);
    RecordParts(crc, r);
    EncodeAllLength(names);
    Be16RoundTrip(count);
    Be16sRoundTrip(offsets);
    assert names[..count] == names;
    assert offsets[count] == CharCount(names);
    LoadNamesSplit(RecordBytes(crc, r), Be16(count), Be16s(offsets), EncodeAll(names), Trailer(crc, r));
  }

  lemma {:induction false} CharCountStep(names: seq<string>, i: nat)
    requires i < |names|
    ensures CharCount(names[..i + 1]) == CharCount(names[..i]) + |names[i]|
  {
    assert names[..i + 1][..i] == names[..i];
  }

  lemma {:induction false} CharCountMonotone(names: seq<string>, i: nat)
    requires i <= |names|
    ensures CharCount(names[..i]) <= CharCount(names)
    decreases |names| - i
  {
    if i == |names| {
      assert names[..i] == names;
    } else {
      CharCountStep(names, i);
      CharCountMonotone(names, i + 1);
    }
  }

  lemma {:induction false} NameLength(names: seq<string>, offsets: seq<u16>, i: byte)
    requires i < |names| && |names[i]| > 0 && offsets == NameOffsets(names)
    ensures CharCount(names[..i]) + |names[i]| <= CharCount(names) <= |EncodeAll(names)|
    ensures var t := ChannelNames(offsets, EncodeAll(names)[..CharCount(names)]);
      Name(t, i) == EncodeAll(names)[CharCount(names[..i])..CharCount(names[..i]) + |names[i]|]
  {
    EncodeAllLength(names);
    CharCountStep(names, i);
    CharCountMonotone(names, i + 1);
    var lo, hi := CharCount(names[..i]), CharCount(names[..i + 1]);
    assert offsets[i] == lo && offsets[i + 1] == hi;
    assert EncodeAll(names)[..CharCount(names)][lo..hi] == EncodeAll(names)[lo..hi];
  }

  lemma {:induction false} NameOfAscii(names: seq<string>, offsets: seq<u16>, i: byte)
    requires i < |names| && |names[i]| > 0 && offsets == NameOffsets(names)
    requires forall k :: 0 <= k <= i ==> IsAscii(names[k])
    ensures CharCount(names) <= |EncodeAll(names)|
    ensures Name(ChannelNames(offsets, EncodeAll(names)[..CharCount(names)]), i) == Encode(names[i])
  {
    NameLength(names, offsets, i);
    EncodeAllLength(names[..i]);
    EncodedLength(names[i]);
    EncodeAllAt(names, i);
    assert forall k :: 0 <= k < i ==> names[..i][k] == names[k];
    assert |EncodeAll(names[..i])| == CharCount(names[..i]);
  }

  lemma {:induction false} EncodeAllAt(names: seq<string>, i: nat)
    requires i < |names|
    ensures var lo := |EncodeAll(names[..i])|;
      lo + |Encode(names[i])| <= |EncodeAll(names)| &&
      EncodeAll(names)[lo..lo + |Encode(names[i])|] == Encode(names[i])
  {
    var before, after := names[..i], names[i + 1..];
    assert names == before + ([names[i]] + after);
    EncodeAllAppend(before, [names[i]] + after);
    assert ([names[i]] + after)[1..] == after;
    assert EncodeAll(names) == EncodeAll(before) + (Encode(names[i]) + EncodeAll(after));
  }

  /**
   Offsets count characters, the bytes are UTF-8: the ECU reads back every addressable name if and only if
   every addressable name is ASCII.
   */
  lemma {:induction false} NamesReadBackExactly(names: seq<string>, offsets: seq<u16>)
    requires offsets == NameOffsets(names) && forall i :: 0 <= i < |names| ==> |names[i]| > 0
    ensures CharCount(names) <= |EncodeAll(names)|
    ensures var t := ChannelNames(offsets, EncodeAll(names)[..CharCount(names)]);
      (forall i: byte :: i < |names| ==> Name(t, i) == Encode(names[i]))
      <==> (forall i: byte :: i < |names| ==> IsAscii(names[i]))
  {
    hide Name, IsAscii, EncodeAll, CharCount, Encode;
    EncodeAllLength(names);
    var t := ChannelNames(offsets, EncodeAll(names)[..CharCount(names)]);
    if forall i: byte :: i < |names| ==> IsAscii(names[i]) {
      forall i: byte | i < |names| ensures Name(t, i) == Encode(names[i]) {
        NameOfAscii(names, offsets, i);
      }
    }
    if forall i: byte :: i < |names| ==> Name(t, i) == Encode(names[i]) {
      forall i: byte | i < |names| ensures IsAscii(names[i]) {
        NameLength(names, offsets, i);
        EncodedLength(names[i]);
      }
    }
  }

  /** A name with a letter beyond ASCII is cut off before its terminator. */
  lemma {:induction false} UmlautIsCutOff()
    ensures var names := [[0xE4 as char, 0 as char]];
      CharCount(names) == 2 && Name(ChannelNames([0, 2], EncodeAll(names)[..2]), 0) == [0xC3, 0xA4] != Encode(names[0])
  {
  }

  // ----- Finding records -----

  /** `all` holds the records of `s` in file order. */
  ghost predicate LaidOut(all: seq<Record>, s: RecordSet) {
    var a, b, c := |s.meta| + 1, |s.meta| + 1 + |s.rx|, |s.meta| + 1 + |s.rx| + |s.tx|;
    && |all| == c + |s.channel| + 1
    && all[..a - 1] == s.meta && all[a - 1] == s.routing
    && all[a..b] == s.rx && all[b..c] == s.tx && all[c..|all| - 1] == s.channel && all[|all| - 1] == s.names
  }

  lemma {:induction false} AllLaidOut(s: RecordSet)
    ensures LaidOut(s.All(), s)
  {
    var a, b, c := |s.meta| + 1, |s.meta| + 1 + |s.rx|, |s.meta| + 1 + |s.rx| + |s.tx|;
    var all := s.All();
    assert all[..a - 1] == s.meta;
    assert all[a..b] == s.rx;
    assert all[b..c] == s.tx;
    assert all[c..|all| - 1] == s.channel;
  }

  /** The configurations in front of the first record of a type have another type. */
  lemma {:induction false} TypesInFront(all: seq<Record>, s: RecordSet)
    requires s.WellTyped() && LaidOut(all, s)
    ensures AllKnown(all)
    ensures forall i :: 0 <= i < |s.meta| ==> all[i].configType != ROUTING
    ensures forall i :: 0 <= i < |s.meta| + 1 ==> all[i].configType != RX_ADAPTER
    ensures forall i :: 0 <= i < |s.meta| + 1 + |s.rx| ==> all[i].configType != TX_ADAPTER
    ensures forall i :: 0 <= i < |all| - 1 ==> all[i].configType != CHANNEL_NAMES
    ensures forall i :: |s.meta| + 1 + |s.rx| <= i < |all| ==> all[i].configType != RX_ADAPTER
  {
    var a, b, c := |s.meta| + 1, |s.meta| + 1 + |s.rx|, |s.meta| + 1 + |s.rx| + |s.tx|;
    forall i | 0 <= i < |all|
      ensures all[i].configType == (
        if i < a - 1 then META else if i == a - 1 then ROUTING else if i < b then RX_ADAPTER
        else if i < c then TX_ADAPTER else if i < |all| - 1 then CHANNEL else CHANNEL_NAMES)
    {
      if i < a - 1 {
        assert all[i] == all[..a - 1][i];
      } else if a <= i < b {
        assert all[i] == all[a..b][i - a];
      } else if b <= i < c {
        assert all[i] == all[b..c][i - b];
      } else if c <= i < |all| - 1 {
        assert all[i] == all[c..|all| - 1][i - c];
      }
    }
  }

  lemma {:induction false} FindRouting(crc: seq<byte> -> u32, all: seq<Record>, s: RecordSet)
    requires s.WellTyped() && LaidOut(all, s) && AllFramable(all)
    ensures Framable(s.routing)
    ensures FirstMatch(ConfigsOfRecords(crc, all), OfType(ROUTING))
         == Config(ROUTING, RecordBytes(crc, s.routing))
  {
    TypesInFront(all, s);
    FirstMatchAt(ConfigsOfRecords(crc, all), OfType(ROUTING), |s.meta|);
    ConfigAt(crc, all, |s.meta|);
  }

  /** A configuration of the given type that was written for the channel `id`. */
  ghost predicate WrittenFor(x: Config, configType: u32, id: int) {
    x.configType == configType && LoadHeader(x.data).Some? && LoadHeader(x.data).value.channelId == id % 0x100
  }

  ghost predicate AllWrittenFor(cs: seq<Config>, configType: u32, ids: seq<int>) {
    |cs| == |ids| && forall j :: 0 <= j < |ids| ==> WrittenFor(cs[j], configType, ids[j])
  }

  lemma {:induction false} FirstMatchBehind(cs: seq<Config>, a: nat, p: Config -> bool)
    requires a <= |cs| && forall m :: 0 <= m < a ==> !p(cs[m])
    ensures FirstMatch(cs, p) == FirstMatch(cs[a..], p)
  {
    if a != 0 {
      FirstMatchBehind(cs[1..], a - 1, p);
      assert cs[1..][a - 1..] == cs[a..];
    }
  }

  /** The first configuration that matches a channel byte is that of the first id congruent to it. */
  lemma {:induction false} FindChannelConfig(cs: seq<Config>, configType: u32, a: nat, ids: seq<int>, i: nat, c: byte)
    requires a + |ids| <= |cs| && (forall m :: 0 <= m < a ==> cs[m].configType != configType)
    requires AllWrittenFor(cs[a..a + |ids|], configType, ids)
    requires FirstWithByte(ids, i, c)
    ensures FirstMatch(cs, ForChannel(configType, c)) == cs[a + i]
  {
    var p := ForChannel(configType, c);
    FirstMatchBehind(cs, a, p);
    var written := cs[a..a + |ids|];
    forall j | 0 <= j <= i ensures p(cs[a..][j]) <==> j == i {
      assert cs[a..][j] == written[j];
      assert WrittenFor(written[j], configType, ids[j]);
    }
    FirstMatchAt(cs[a..], p, i);
  }

  function RxIds(vs: seq<RxVectors>): (ids: seq<int>)
    ensures |ids| == |vs| && forall j :: 0 <= j < |vs| ==> ids[j] == vs[j].channelId
  {
    seq(|vs|, j requires 0 <= j < |vs| => vs[j].channelId)
  }

  function TxIds(vs: seq<TxVectors>): (ids: seq<int>)
    ensures |ids| == |vs| && forall j :: 0 <= j < |vs| ==> ids[j] == vs[j].channelId
  {
    seq(|vs|, j requires 0 <= j < |vs| => vs[j].channelId)
  }

  /** Index i is the first one whose id is c modulo 256. */
  ghost predicate FirstWithByte(ids: seq<int>, i: nat, c: byte) {
    i < |ids| && ids[i] % 0x100 == c && forall j :: 0 <= j < i ==> ids[j] % 0x100 != c
  }

  lemma {:induction false} RxWritten(crc: seq<byte> -> u32, v: RxVectors, r: Record)
    requires RxRecord(v) == Ok(r) && Framable(r)
    ensures WrittenFor(Config(RX_ADAPTER, RecordBytes(crc, r)), RX_ADAPTER, v.channelId)
  {
    LoadRxOfRecord(crc, v);
  }

  lemma {:induction false} TxWritten(crc: seq<byte> -> u32, v: TxVectors, r: Record)
    requires TxRecord(v) == Ok(r) && Framable(r)
    ensures WrittenFor(Config(TX_ADAPTER, RecordBytes(crc, r)), TX_ADAPTER, v.channelId)
  {
    LoadTxOfRecord(crc, v);
  }

  /** The Rx configurations that start at record `a`, and whom they were written for. */
  lemma {:induction false} RxConfigsWritten(crc: seq<byte> -> u32, all: seq<Record>, a: nat, vs: seq<RxVectors>)
    requires AllFramable(all) && a + |vs| <= |all| && RxPairs(vs, all[a..a + |vs|])
    ensures AllWrittenFor(ConfigsOfRecords(crc, all)[a..a + |vs|], RX_ADAPTER, RxIds(vs))
  {
    hide ConfigsOfRecords, RxPairs, WrittenFor;
    var cs, ids := ConfigsOfRecords(crc, all)[a..a + |vs|], RxIds(vs);
    forall j: nat | j < |vs| ensures WrittenFor(cs[j], RX_ADAPTER, ids[j]) {
      RxConfigWritten(crc, all, a, vs, j);
    }
  }

  lemma {:induction false} RxConfigWritten(crc: seq<byte> -> u32, all: seq<Record>, a: nat, vs: seq<RxVectors>, j: nat)
    requires AllFramable(all) && j < |vs| && a + |vs| <= |all| && RxPairs(vs, all[a..a + |vs|])
    ensures WrittenFor(ConfigsOfRecords(crc, all)[a + j], RX_ADAPTER, vs[j].channelId)
  {
    hide ConfigsOfRecords, RxRecord, RecordBytes, LoadHeader, Framable, WrittenFor;
    assert RxPair(vs, all[a..a + |vs|], j);
    assert Framable(all[a + j]);
    RxWritten(crc, vs[j], all[a + j]);
    ConfigAt(crc, all, a + j);
  }

  /** The Tx configurations that start at record `a`, and whom they were written for. */
  lemma {:induction false} TxConfigsWritten(crc: seq<byte> -> u32, all: seq<Record>, a: nat, vs: seq<TxVectors>)
    requires AllFramable(all) && a + |vs| <= |all| && TxPairs(vs, all[a..a + |vs|])
    ensures AllWrittenFor(ConfigsOfRecords(crc, all)[a..a + |vs|], TX_ADAPTER, TxIds(vs))
  {
    hide ConfigsOfRecords, TxPairs, WrittenFor;
    var cs, ids := ConfigsOfRecords(crc, all)[a..a + |vs|], TxIds(vs);
    forall j: nat | j < |vs| ensures WrittenFor(cs[j], TX_ADAPTER, ids[j]) {
      TxConfigWritten(crc, all, a, vs, j);
    }
  }

  lemma {:induction false} TxConfigWritten(crc: seq<byte> -> u32, all: seq<Record>, a: nat, vs: seq<TxVectors>, j: nat)
    requires AllFramable(all) && j < |vs| && a + |vs| <= |all| && TxPairs(vs, all[a..a + |vs|])
    ensures WrittenFor(ConfigsOfRecords(crc, all)[a + j], TX_ADAPTER, vs[j].channelId)
  {
    hide ConfigsOfRecords, TxRecord, RecordBytes, LoadHeader, Framable, WrittenFor;
    assert TxPair(vs, all[a..a + |vs|], j);
    assert Framable(all[a + j]);
    TxWritten(crc, vs[j], all[a + j]);
    ConfigAt(crc, all, a + j);
  }

  lemma {:induction false} FindNames(crc: seq<byte> -> u32, all: seq<Record>, n: nat)
    requires AllFramable(all) && n < |all| && all[n].configType == CHANNEL_NAMES
    requires forall m :: 0 <= m < n ==> all[m].configType != CHANNEL_NAMES
    ensures FirstMatch(ConfigsOfRecords(crc, all), ForChannel(CHANNEL_NAMES, INVALID_CHANNEL_ID))
         == Config(CHANNEL_NAMES, RecordBytes(crc, all[n]))
  {
    var cs := ConfigsOfRecords(crc, all);
    HeaderOfRecord(crc, all[n]);
    ConfigAt(crc, all, n);
    assert IsConfigFor(cs[n], CHANNEL_NAMES, INVALID_CHANNEL_ID);
    FirstMatchAt(cs, ForChannel(CHANNEL_NAMES, INVALID_CHANNEL_ID), n);
  }

  // ----- The compiled blob -----

  /** The intermediate results of a successful compilation. */
  datatype Compilation = Compilation(
    entries: seq<Entry>, rs: seq<Resolved>, table: Table, records: RecordSet, blob: seq<byte>)

  /** What a successful compilation establishes about them. */
  ghost predicate Compiled(crc: seq<byte> -> u32, routings: seq<Routing>, channels: seq<Channel>, k: Compilation) {
    && IsNumbering(k.entries, channels)
    && AllNamed(IdMap(k.entries), channels)
    && ResolveAll(routings, IdMap(k.entries)) == Ok(k.rs)
    && AllAsk(routings, IdMap(k.entries), k.rs)
    && IsTableOf(k.table, k.rs, IdMap(k.entries).Values)
    && k.records.WellTyped()
    && RoutingRecord(RoutingVectorsOf(k.table)) == Ok(k.records.routing)
    && RxPairs(RxVectorList(k.table, IdMap(k.entries), channels), k.records.rx)
    && TxPairs(TxVectorList(k.table, IdMap(k.entries), channels), k.records.tx)
    && StringRecord(CHANNEL_NAMES, NamesWithGaps(k.entries)) == Ok(k.records.names)
    && BlobBytes(crc, k.records.All()) == Ok(k.blob)
  }

  lemma {:induction false} CompileSteps(crc: seq<byte> -> u32, routings: seq<Routing>, channels: seq<Channel>,
      meta: Option<seq<string>>)
    returns (k: Compilation)
    requires DistinctNames(channels) && Compile(crc, routings, channels, meta).Ok?
    ensures Compiled(crc, routings, channels, k)
    ensures Compile(crc, routings, channels, meta) == Ok(k.blob)
  {
    var entries := ChannelIds(channels).value;
    ChannelIdsNumber(channels);
    InputTableMeaning(routings, IdMap(entries));
    var rs := ResolveAll(routings, IdMap(entries)).value;
    var table := InputTableOf(routings, IdMap(entries)).value;
    var records := RecordSetOf(table, entries, channels, meta).value;
    RecordSetParts(table, entries, channels, meta);
    RxRecordsPair(RxVectorList(table, IdMap(entries), channels));
    TxRecordsPair(TxVectorList(table, IdMap(entries), channels));
    k := Compilation(entries, rs, table, records, BlobBytes(crc, records.All()).value);
  }

  /** The walk over a written blob visits its records. */
  lemma {:induction false} VisitRecords(crc: seq<byte> -> u32, all: seq<Record>, s: RecordSet, blob: seq<byte>)
    requires s.WellTyped() && LaidOut(all, s) && BlobBytes(crc, all) == Ok(blob)
    ensures AllFramable(all) && Configs(Region(blob)) == ConfigsOfRecords(crc, all)
  {
    TypesInFront(all, s);
    RegionOfBlobBytes(crc, all, []);
    ConfigsOfBody(crc, all);
  }

  /** A compiled blob always holds records, so that it is accepted wherever there is room for it. */
  lemma {:induction false} CompiledIsLoaded(target: Target, crc: seq<byte> -> u32, s: RecordSet, blob: seq<byte>,
                                            trailing: seq<byte>)
    requires s.WellTyped() && BlobBytes(crc, s.All()) == Ok(blob) && |blob + trailing| <= target.Max()
    ensures Loaded(target, crc, blob + trailing) == blob
  {
    AllLaidOut(s);
    TypesInFront(s.All(), s);
    LoadOfBlobBytes(target, crc, s.All(), trailing);
  }

  /** The ECU loads exactly the compiled routing vectors from the compiled blob. */
  lemma {:induction false} RoutingTableReadBack(crc: seq<byte> -> u32, v: RoutingVectors, all: seq<Record>,
                                                s: RecordSet, blob: seq<byte>)
    requires s.WellTyped() && LaidOut(all, s) && BlobBytes(crc, all) == Ok(blob) && RoutingRecord(v) == Ok(s.routing)
    ensures InRange32(v.destinationOffsets) && InRange32(v.outputMessageIds) && InRange8(v.destinations)
    ensures LoadRouting(FindConfig(blob, ROUTING).data)
         == Some(PduRoutingTable(v.destinationOffsets, v.outputMessageIds, v.destinations))
  {
    VisitRecords(crc, all, s, blob);
    FindRouting(crc, all, s);
    LoadRoutingOfRecord(crc, v);
  }

  lemma {:induction false} RxFoundAmong(crc: seq<byte> -> u32, vs: seq<RxVectors>, all: seq<Record>, a: nat,
                                        i: nat, c: byte)
    requires AllFramable(all) && a + |vs| <= |all| && RxPairs(vs, all[a..a + |vs|])
    requires forall m :: 0 <= m < a ==> all[m].configType != RX_ADAPTER
    requires i < |vs| && FirstWithByte(RxIds(vs), i, c)
    ensures FirstMatch(ConfigsOfRecords(crc, all), ForChannel(RX_ADAPTER, c))
         == Config(RX_ADAPTER, RecordBytes(crc, all[a + i]))
  {
    hide ConfigsOfRecords, RecordBytes, FirstMatch, FirstWithByte, IsConfigFor, ForChannel, AllWrittenFor;
    RxConfigsWritten(crc, all, a, vs);
    FindChannelConfig(ConfigsOfRecords(crc, all), RX_ADAPTER, a, RxIds(vs), i, c);
    ConfigAt(crc, all, a + i);
    assert RxPair(vs, all[a..a + |vs|], i);
    assert all[a + i] == all[a..a + |vs|][i];
  }

  lemma {:induction false} RxBlock(all: seq<Record>, s: RecordSet, vs: seq<RxVectors>, i: nat) returns (a: nat)
    requires s.WellTyped() && LaidOut(all, s) && RxPairs(vs, s.rx) && i < |vs|
    ensures a + |vs| <= |all| && RxPairs(vs, all[a..a + |vs|]) && all[a + i] == s.rx[i]
    ensures forall m :: 0 <= m < a ==> all[m].configType != RX_ADAPTER
  {
    TypesInFront(all, s);
    a := |s.meta| + 1;
    assert all[a..a + |vs|] == s.rx;
    assert all[a + i] == all[a..a + |vs|][i];
  }

  lemma {:induction false} RxFound(crc: seq<byte> -> u32, vs: seq<RxVectors>, all: seq<Record>, s: RecordSet,
                                   blob: seq<byte>, i: nat, c: byte)
    requires s.WellTyped() && LaidOut(all, s) && BlobBytes(crc, all) == Ok(blob) && RxPairs(vs, s.rx)
    requires i < |vs| && FirstWithByte(RxIds(vs), i, c)
    ensures Framable(s.rx[i])
    ensures FindConfigFor(blob, RX_ADAPTER, c) == Config(RX_ADAPTER, RecordBytes(crc, s.rx[i]))
  {
    VisitRecords(crc, all, s, blob);
    var a := RxBlock(all, s, vs, i);
    RxFoundAmong(crc, vs, all, a, i, c);
  }

  /**
   Lookup by type and channel id, exactly: for any byte c, the Rx record found is that of the first listed
   channel whose id is c modulo 256, and it loads to that channel's vectors.
   */
  lemma {:induction false} RxTableReadBack(crc: seq<byte> -> u32, vs: seq<RxVectors>, all: seq<Record>, s: RecordSet,
                                           blob: seq<byte>, i: nat, c: byte)
    requires s.WellTyped() && LaidOut(all, s) && BlobBytes(crc, all) == Ok(blob) && RxPairs(vs, s.rx)
    requires i < |vs| && FirstWithByte(RxIds(vs), i, c)
    ensures RxInRange(vs[i])
    ensures FindConfigFor(blob, RX_ADAPTER, c).configType == RX_ADAPTER
    ensures LoadRx(FindConfigFor(blob, RX_ADAPTER, c).data) == Some(RxTableOf(vs[i]))
  {
    RxFound(crc, vs, all, s, blob, i, c);
    assert RxPair(vs, s.rx, i);
    LoadRxOfRecord(crc, vs[i]);
  }

  /** The Rx record that is found tells the type of its channel, and the lower byte of its id. */
  lemma {:induction false} RxHeaderReadBack(crc: seq<byte> -> u32, vs: seq<RxVectors>, all: seq<Record>, s: RecordSet,
      blob: seq<byte>, i: nat, c: byte)
    requires s.WellTyped() && LaidOut(all, s) && BlobBytes(crc, all) == Ok(blob) && RxPairs(vs, s.rx)
    requires i < |vs| && FirstWithByte(RxIds(vs), i, c)
    ensures LoadHeader(FindConfigFor(blob, RX_ADAPTER, c).data)
         == Some(Header(RX_ADAPTER, ChannelTypeValue(vs[i].channelType), c))
  {
    RxFound(crc, vs, all, s, blob, i, c);
    assert RxPair(vs, s.rx, i);
    RxHeader(crc, vs[i], s.rx[i]);
  }

  lemma {:induction false} RxHeader(crc: seq<byte> -> u32, v: RxVectors, r: Record)
    requires RxRecord(v) == Ok(r) && Framable(r)
    ensures LoadHeader(RecordBytes(crc, r))
         == Some(Header(RX_ADAPTER, ChannelTypeValue(v.channelType), v.channelId % 0x100))
  {
    hide LoadHeader, RxRecord, RecordBytes, ChannelReserved;
    RxRecordBytes(v);
    ReservedRead(v.channelType, v.channelId);
    HeaderOfRecord(crc, r);
  }

  /** There is no match among configurations of other types, before and after those of the given ids. */
  lemma {:induction false} NoChannelConfig(cs: seq<Config>, configType: u32, a: nat, ids: seq<int>, c: byte)
    requires a + |ids| <= |cs| && AllWrittenFor(cs[a..a + |ids|], configType, ids)
    requires forall m :: 0 <= m < |cs| && !(a <= m < a + |ids|) ==> cs[m].configType != configType
    requires forall j :: 0 <= j < |ids| ==> ids[j] % 0x100 != c
    ensures FirstMatch(cs, ForChannel(configType, c)) == NO_CONFIG
  {
    forall m | 0 <= m < |cs| ensures !ForChannel(configType, c)(cs[m]) {
      if a <= m < a + |ids| {
        assert cs[m] == cs[a..a + |ids|][m - a];
        assert WrittenFor(cs[a..a + |ids|][m - a], configType, ids[m - a]);
      }
    }
  }

  /** The ECU finds no Rx record for a byte, if and only if no listed channel has an id congruent to it. */
  lemma {:induction false} RxMissingExactly(crc: seq<byte> -> u32, vs: seq<RxVectors>, s: RecordSet, blob: seq<byte>,
                                            c: byte)
    requires s.WellTyped() && BlobBytes(crc, s.All()) == Ok(blob) && RxPairs(vs, s.rx)
    ensures FindConfigFor(blob, RX_ADAPTER, c) == NO_CONFIG <==> forall i :: 0 <= i < |vs| ==> RxIds(vs)[i] % 0x100 != c
  {
    AllLaidOut(s);
    hide BlobBytes, ConfigsOfRecords, RecordBytes, FirstMatch, ForChannel, AllWrittenFor, LaidOut, RxPair,
      FindConfigFor, Configs, Region;
    if i :| 0 <= i < |vs| && RxIds(vs)[i] % 0x100 == c {
      var first := FirstCongruent(RxIds(vs), i, c);
      RxFound(crc, vs, s.All(), s, blob, first, c);
    } else {
      VisitRecords(crc, s.All(), s, blob);
      RxElsewhere(s);
      RxConfigsWritten(crc, s.All(), |s.meta| + 1, vs);
      ConfigTypes(crc, s.All());
      NoChannelConfig(ConfigsOfRecords(crc, s.All()), RX_ADAPTER, |s.meta| + 1, RxIds(vs), c);
      FindConfigForIs(blob, RX_ADAPTER, c);
    }
  }

  lemma {:induction false} ConfigTypes(crc: seq<byte> -> u32, all: seq<Record>)
    requires AllFramable(all)
    ensures |ConfigsOfRecords(crc, all)| == |all|
    ensures forall m :: 0 <= m < |all| ==> ConfigsOfRecords(crc, all)[m].configType == all[m].configType
  {
  }

  lemma {:induction false} RxElsewhere(s: RecordSet)
    requires s.WellTyped()
    ensures var all, a := s.All(), |s.meta| + 1;
      && a + |s.rx| <= |all| && all[a..a + |s.rx|] == s.rx
      && forall m :: 0 <= m < |all| && !(a <= m < a + |s.rx|) ==> all[m].configType != RX_ADAPTER
  {
    AllLaidOut(s);
    TypesInFront(s.All(), s);
  }

  lemma {:induction false} FirstCongruent(ids: seq<int>, i: nat, c: byte) returns (first: nat)
    requires i < |ids| && ids[i] % 0x100 == c
    ensures FirstWithByte(ids, first, c)
  {
    first := 0;
    while ids[first] % 0x100 != c
      invariant first <= i && forall j :: 0 <= j < first ==> ids[j] % 0x100 != c
      decreases i - first
    {
      first := first + 1;
    }
  }

  lemma {:induction false} TxFoundAmong(crc: seq<byte> -> u32, vs: seq<TxVectors>, all: seq<Record>, a: nat,
                                        i: nat, c: byte)
    requires AllFramable(all) && a + |vs| <= |all| && TxPairs(vs, all[a..a + |vs|])
    requires forall m :: 0 <= m < a ==> all[m].configType != TX_ADAPTER
    requires i < |vs| && FirstWithByte(TxIds(vs), i, c)
    ensures FirstMatch(ConfigsOfRecords(crc, all), ForChannel(TX_ADAPTER, c))
         == Config(TX_ADAPTER, RecordBytes(crc, all[a + i]))
  {
    hide ConfigsOfRecords, RecordBytes, FirstMatch, FirstWithByte, IsConfigFor, ForChannel, AllWrittenFor;
    TxConfigsWritten(crc, all, a, vs);
    FindChannelConfig(ConfigsOfRecords(crc, all), TX_ADAPTER, a, TxIds(vs), i, c);
    ConfigAt(crc, all, a + i);
    assert TxPair(vs, all[a..a + |vs|], i);
    assert all[a + i] == all[a..a + |vs|][i];
  }

  lemma {:induction false} TxBlock(all: seq<Record>, s: RecordSet, vs: seq<TxVectors>, i: nat) returns (a: nat)
    requires s.WellTyped() && LaidOut(all, s) && TxPairs(vs, s.tx) && i < |vs|
    ensures a + |vs| <= |all| && TxPairs(vs, all[a..a + |vs|]) && all[a + i] == s.tx[i]
    ensures forall m :: 0 <= m < a ==> all[m].configType != TX_ADAPTER
  {
    TypesInFront(all, s);
    a := |s.meta| + 1 + |s.rx|;
    assert all[a..a + |vs|] == s.tx;
    assert all[a + i] == all[a..a + |vs|][i];
  }

  lemma {:induction false} TxFound(crc: seq<byte> -> u32, vs: seq<TxVectors>, all: seq<Record>, s: RecordSet,
                                   blob: seq<byte>, i: nat, c: byte)
    requires s.WellTyped() && LaidOut(all, s) && BlobBytes(crc, all) == Ok(blob) && TxPairs(vs, s.tx)
    requires i < |vs| && FirstWithByte(TxIds(vs), i, c)
    ensures Framable(s.tx[i])
    ensures FindConfigFor(blob, TX_ADAPTER, c) == Config(TX_ADAPTER, RecordBytes(crc, s.tx[i]))
  {
    VisitRecords(crc, all, s, blob);
    var a := TxBlock(all, s, vs, i);
    TxFoundAmong(crc, vs, all, a, i, c);
  }

  /** The same for the Tx record. */
  lemma {:induction false} TxTableReadBack(crc: seq<byte> -> u32, vs: seq<TxVectors>, all: seq<Record>, s: RecordSet,
                                           blob: seq<byte>, i: nat, c: byte)
    requires s.WellTyped() && LaidOut(all, s) && BlobBytes(crc, all) == Ok(blob) && TxPairs(vs, s.tx)
    requires i < |vs| && FirstWithByte(TxIds(vs), i, c)
    ensures InRange32(vs[i].messageIds) && InRange32(vs[i].messageLengths) && InRange32(vs[i].pduOffsets)
    ensures FindConfigFor(blob, TX_ADAPTER, c).configType == TX_ADAPTER
    ensures LoadTx(FindConfigFor(blob, TX_ADAPTER, c).data)
         == Some(TxAdapterTable(vs[i].messageIds, vs[i].messageLengths, vs[i].pduOffsets))
  {
    TxFound(crc, vs, all, s, blob, i, c);
    assert TxPair(vs, s.tx, i);
    LoadTxOfRecord(crc, vs[i]);
  }

  /** The ECU loads the name record of the compiled blob. */
  lemma {:induction false} NamesLoaded(crc: seq<byte> -> u32, names: seq<string>, all: seq<Record>, s: RecordSet,
                                       blob: seq<byte>)
    requires names != [] && StringRecord(CHANNEL_NAMES, names) == Ok(s.names)
    requires s.WellTyped() && LaidOut(all, s) && BlobBytes(crc, all) == Ok(blob)
    ensures InRange16(NameOffsets(names)) && CharCount(names) <= |EncodeAll(names)|
    ensures LoadNames(FindConfigFor(blob, CHANNEL_NAMES, INVALID_CHANNEL_ID).data)
         == Some(ChannelNames(NameOffsets(names), EncodeAll(names)[..CharCount(names)]))
  {
    hide *;
    StringRecordParts(CHANNEL_NAMES, names, s.names);
    LastIsNames(all, s);
    VisitRecords(crc, all, s, blob);
    FramableAt(all, |all| - 1);
    FindNames(crc, all, |all| - 1);
    FindConfigForIs(blob, CHANNEL_NAMES, INVALID_CHANNEL_ID);
    LoadNamesOfRecord(crc, names, s.names);
  }

  lemma {:induction false} FramableAt(all: seq<Record>, n: nat)
    requires AllFramable(all) && n < |all|
    ensures Framable(all[n])
  {
  }

  lemma {:induction false} FindConfigForIs(blob: seq<byte>, configType: u32, c: byte)
    ensures FindConfigFor(blob, configType, c) == FirstMatch(Configs(Region(blob)), ForChannel(configType, c))
  {
  }

  lemma {:induction false} StringRecordParts(configType: u32, names: seq<string>, r: Record)
    requires StringRecord(configType, names) == Ok(r)
    ensures StringTable(names).Ok?
    ensures r == Record(configType, Zeros(RESERVED_SIZE), FlatAll(StringTable(names).value))
  {
    ReservedBytes(Can, 0);
  }

  lemma {:induction false} LastIsNames(all: seq<Record>, s: RecordSet)
    requires s.WellTyped() && LaidOut(all, s)
    ensures all != [] && all[|all| - 1] == s.names && s.names.configType == CHANNEL_NAMES
    ensures forall m :: 0 <= m < |all| - 1 ==> all[m].configType != CHANNEL_NAMES
  {
    TypesInFront(all, s);
  }

  /** The name list of numbered entries, read back from its offsets and bytes. */
  lemma {:induction false} EntryNamesReadBack(entries: seq<Entry>, offsets: seq<u16>)
    requires NumberedFromZero(entries) && offsets == NameOffsets(NamesWithGaps(entries))
    ensures CharCount(NamesWithGaps(entries)) <= |EncodeAll(NamesWithGaps(entries))|
    ensures var names := NamesWithGaps(entries);
      var t := ChannelNames(offsets, EncodeAll(names)[..CharCount(names)]);
      (forall i: byte :: i < |entries| ==> Name(t, i) == Encode(entries[i].name + [0 as char]))
      <==> (forall i: byte :: i < |entries| ==> IsAscii(entries[i].name))
  {
    var names := NamesWithGaps(entries);
    NoGaps(entries);
    NamesReadBackExactly(names, offsets);
    forall i | 0 <= i < |entries| ensures IsAscii(names[i]) <==> IsAscii(entries[i].name) {
      TerminatorIsAscii(entries[i].name);
    }
  }

  /**
   The ECU reads back the NUL-terminated name of every addressable channel, under the id that channel_ids gave
   it, if and only if the names of all addressable channels are ASCII.
   */
  lemma {:induction false} NamesReadBack(crc: seq<byte> -> u32, entries: seq<Entry>, all: seq<Record>, s: RecordSet,
                                         blob: seq<byte>)
    requires NumberedFromZero(entries) && entries != []
    requires s.WellTyped() && LaidOut(all, s) && BlobBytes(crc, all) == Ok(blob)
    requires StringRecord(CHANNEL_NAMES, NamesWithGaps(entries)) == Ok(s.names)
    ensures var t := LoadNames(FindConfigFor(blob, CHANNEL_NAMES, INVALID_CHANNEL_ID).data);
      && t.Some?
      && ((forall i: byte :: i < |entries| ==> Name(t.value, i) == Encode(entries[i].name + [0 as char]))
          <==> (forall i: byte :: i < |entries| ==> IsAscii(entries[i].name)))
  {
    hide LaidOut, BlobBytes, LoadNames, FindConfigFor, StringRecord, EncodeAll, CharCount, NamesWithGaps, Name, IsAscii;
    NoGaps(entries);
    NamesLoaded(crc, NamesWithGaps(entries), all, s, blob);
    EntryNamesReadBack(entries, NameOffsets(NamesWithGaps(entries)));
  }

  lemma {:induction false} TerminatorIsAscii(name: string)
    ensures IsAscii(name + [0 as char]) <==> IsAscii(name)
  {
    var s := name + [0 as char];
    assert forall i :: 0 <= i < |name| ==> s[i] == name[i];
  }
}
