/**
 The way out: what a legacy Tx channel, driven by the table that was compiled for it, makes of the PDUs that the
 router delivers to it.
 */
module Outgoing {
  import opened Results
  import opened Bytes
  import opened SizeT
  import opened BlobFormat
  import opened BlobReader
  import opened RoutingTable
  import opened Flatten
  import opened Channels
  import opened Records
  import opened TableReader
  import opened RoundTrip
  import opened Ecu
  import opened LegacyTx

  // ----- Specification -----

  predicate FitsTable(o: Output) {
    0 <= o.messageId <= MAX_U32 && 0 <= o.pduLength <= MAX_U32 && 0 <= o.pduOffset <= MAX_U32
  }

  /** The message that an output describes, if its payload starts inside it and a writer has room for it. */
  function Described(o: Output, maxSize: nat, payload: seq<byte>): (message: Option<seq<byte>>)
    requires FitsTable(o)
  {
    if MESSAGE_HEADER_SIZE + o.pduLength > maxSize || o.pduOffset >= o.pduLength then None
    else Some(Message(o.messageId, o.pduLength, o.pduOffset, payload))
  }

  /** A PDU with this payload could be allocated. */
  predicate HasRoom(target: Target, maxSize: nat, payload: seq<byte>) {
    MESSAGE_HEADER_SIZE + |payload| <= maxSize <= target.Max() && |payload| <= MAX_U32
  }

  /** Whatever is routed to this output leaves as the output describes it. */
  ghost predicate SentAsDescribed(target: Target, t: TxAdapterTable, o: Output)
    requires Shape(t) && FitsTable(o)
  {
    forall maxSize: nat, payload: seq<byte> :: HasRoom(target, maxSize, payload) ==>
      CommittedOn(target, t, maxSize, Pdu(o.messageId, payload).Wire()) == OutcomeOf(Described(o, maxSize, payload))
  }

  /** The message of this output has a size, or is not sent anyway. */
  predicate OutputFits(target: Target, o: Output) {
    EntryFits(target, o.pduLength, o.pduOffset)
  }

  /** The last routing of some key has this output. */
  ghost predicate Routed(rs: seq<Resolved>, o: Output) {
    exists source: nat, key: Key :: LastOutputs(rs, source, key).Some? && o in LastOutputs(rs, source, key).value
  }

  ghost predicate RoutedTo(rs: seq<Resolved>, channel: nat, o: Output) {
    o.channel == channel && Routed(rs, o)
  }

  /** The payload has a place in a message that can be sent. */
  predicate HasPlace(target: Target, o: Output) {
    o.pduOffset < o.pduLength && MESSAGE_HEADER_SIZE + o.pduLength <= target.Max()
  }

  /** Neither output has a place for its payload, or both have the same one. */
  predicate SamePlace(target: Target, a: Output, b: Output) {
    || (a.pduLength == b.pduLength && a.pduOffset == b.pduOffset)
    || (!HasPlace(target, a) && !HasPlace(target, b))
  }

  /** On this channel the message id alone determines where the payload goes. */
  ghost predicate IdDeterminesPlace(target: Target, rs: seq<Resolved>, channel: nat) {
    forall a, b :: RoutedTo(rs, channel, a) && RoutedTo(rs, channel, b) && a.messageId == b.messageId ==>
      SamePlace(target, a, b)
  }

  // ----- The Tx table lists the routed outputs -----

  lemma {:induction false} OutputOfSomeRow(rows: seq<Row>, o: Output)
    ensures o in OutputsOf(rows) <==> exists row :: row in rows && o in row.outputs
  {
    if rows != [] {
      OutputOfSomeRow(rows[1..], o);
      assert forall row :: row in rows <==> row == rows[0] || row in rows[1..];
    }
  }

  lemma {:induction false} RowOfSomeChannel(table: Table, row: Row)
    ensures row in AllRows(table) <==> exists n: nat :: n < |table| && row in table[n].rows
  {
    if table != [] {
      RowOfSomeChannel(table[1..], row);
      if n: nat :| n < |table| && row in table[n].rows {
        if n > 0 {
          assert table[1..][n - 1] == table[n];
        }
      }
      if n: nat :| n < |table| - 1 && row in table[1..][n].rows {
        assert row in table[n + 1].rows;
      }
    }
  }

  lemma {:induction false} LastOutputsInChannels(rs: seq<Resolved>, channels: set<nat>, channel: nat, key: Key)
    requires AllInChannels(rs, channels) && LastOutputs(rs, channel, key).Some?
    ensures channel in channels
  {
    var n := |rs| - 1;
    if !(rs[n].channel == channel && rs[n].key == key) {
      LastOutputsInChannels(rs[..n], channels, channel, key);
    }
  }

  /** The flat list of outputs holds those of the last routings, and no others. */
  lemma {:induction false} OutputsAreRouted(table: Table, rs: seq<Resolved>, channels: set<nat>, o: Output)
    requires IsTableOf(table, rs, channels) && AllInChannels(rs, channels)
    ensures o in OutputsOf(AllRows(table)) <==> Routed(rs, o)
  {
    OutputOfSomeRow(AllRows(table), o);
    if o in OutputsOf(AllRows(table)) {
      var row :| row in AllRows(table) && o in row.outputs;
      RowOfSomeChannel(table, row);
      var n: nat :| n < |table| && row in table[n].rows;
      assert RowsHoldLast(table[n].rows, rs, table[n].channel);
      assert LastOutputs(rs, table[n].channel, row.key) == Some(row.outputs);
    }
    if Routed(rs, o) {
      var source: nat, key: Key :| LastOutputs(rs, source, key).Some? && o in LastOutputs(rs, source, key).value;
      LastOutputsInChannels(rs, channels, source, key);
      var n := RowOfLastRouting(table, rs, channels, source, key);
      RowOfSomeChannel(table, Row(key, LastOutputs(rs, source, key).value));
    }
  }

  lemma {:induction false} RowOfLastRouting(table: Table, rs: seq<Resolved>, channels: set<nat>, source: nat, key: Key)
    returns (n: nat)
    requires IsTableOf(table, rs, channels) && source in channels && LastOutputs(rs, source, key).Some?
    ensures n < |table| && Row(key, LastOutputs(rs, source, key).value) in table[n].rows
  {
    assert source in ChannelsOf(table);
    n :| n < |table| && ChannelsOf(table)[n] == source;
    var rows := table[n].rows;
    assert RowsHoldLast(rows, rs, source);
    assert key in KeysOf(rows);
    var j :| 0 <= j < |rows| && KeysOf(rows)[j] == key;
    assert rows[j] == Row(key, LastOutputs(rs, source, key).value);
  }

  lemma {:induction false} OutputsToMembers(outputs: seq<Output>, channel: nat, o: Output)
    ensures o in OutputsTo(outputs, channel) <==> o in outputs && o.channel == channel
  {
    if outputs != [] {
      var n := |outputs| - 1;
      OutputsToMembers(outputs[..n], channel, o);
      assert outputs == outputs[..n] + [outputs[n]];
    }
  }

  /** The Tx table was made from these outputs. */
  ghost predicate TxMeans(t: TxAdapterTable, mine: seq<Output>) {
    && t.messageIds == MessageIdsOf(mine) && t.messageLengths == PduLengthsOf(mine)
    && t.pduOffsets == PduOffsetsOf(mine) && Shape(t)
  }

  lemma {:induction false} TxEntriesFit(t: TxAdapterTable, mine: seq<Output>, r: nat)
    requires TxMeans(t, mine) && r < |mine|
    ensures FitsTable(mine[r])
  {
    assert t.messageIds[r] == mine[r].messageId && t.messageLengths[r] == mine[r].pduLength;
    assert t.pduOffsets[r] == mine[r].pduOffset;
  }

  // ----- Which description is followed -----

  /** Descriptions for one message id agree on all payloads exactly if they give the payload the same place. */
  lemma {:induction false} DescribedAlike(target: Target, a: Output, b: Output)
    requires FitsTable(a) && FitsTable(b) && a.messageId == b.messageId
    ensures (forall maxSize: nat, payload: seq<byte> :: HasRoom(target, maxSize, payload) ==>
              Described(a, maxSize, payload) == Described(b, maxSize, payload))
            <==> SamePlace(target, a, b)
  {
    hide Message;
    if forall maxSize: nat, payload: seq<byte> :: HasRoom(target, maxSize, payload) ==>
        Described(a, maxSize, payload) == Described(b, maxSize, payload)
    {
      if HasPlace(target, a) || HasPlace(target, b) {
        var longer := if !HasPlace(target, b) || (HasPlace(target, a) && b.pduLength < a.pduLength)
                      then a.pduLength else b.pduLength;
        var room := MESSAGE_HEADER_SIZE + longer;
        assert HasRoom(target, room, [0]);
        assert Described(a, room, [0]) == Described(b, room, [0]);
        if HasPlace(target, a) && HasPlace(target, b) {
          MessageTellsPlace(a.messageId, a.pduLength, a.pduOffset, b.pduLength, b.pduOffset);
        }
      }
    }
  }

  /** A single byte other than the filler shows where it was put. */
  lemma {:induction false} MessageTellsPlace(id: u32, length1: u32, offset1: nat, length2: u32, offset2: nat)
    requires offset1 < length1 && offset2 < length2
    requires Message(id, length1, offset1, [0]) == Message(id, length2, offset2, [0])
    ensures length1 == length2 && offset1 == offset2
  {
    FirstZero(id, length1, offset1);
    FirstZero(id, length2, offset2);
  }

  lemma {:induction false} FirstZero(id: u32, length: u32, offset: nat)
    requires offset < length
    ensures var body := Message(id, length, offset, [0])[MESSAGE_HEADER_SIZE..];
      |body| == length && body[offset] == 0 && forall i :: 0 <= i < length && i != offset ==> body[i] == FILL_BYTE
  {
    MessageParts(id, length, offset, [0]);
    assert [0][..1] == [0];
  }

  /** commit() follows the description in the first entry for the message id, or resets the ECU if that does not fit. */
  lemma {:induction false} FirstEntryDecides(target: Target, t: TxAdapterTable, mine: seq<Output>, r: nat)
    returns (f: nat)
    requires TxMeans(t, mine) && r < |mine|
    ensures f <= r && mine[f].messageId == mine[r].messageId && FitsTable(mine[f])
    ensures IndexOf(t.messageIds, t.messageIds[r]) == Some(f) && t.messageIds[r] == mine[r].messageId
    ensures forall maxSize: nat, payload: seq<byte> :: HasRoom(target, maxSize, payload) ==>
      CommittedOn(target, t, maxSize, Pdu(t.messageIds[r], payload).Wire())
      == if OutputFits(target, mine[f]) then OutcomeOf(Described(mine[f], maxSize, payload)) else Outcome.Reset
  {
    hide Message;
    IndexOfIsFirst(t.messageIds, r);
    f := IndexOf(t.messageIds, t.messageIds[r]).value;
    TxEntriesFit(t, mine, f);
    forall maxSize: nat, payload: seq<byte> | HasRoom(target, maxSize, payload)
      ensures CommittedOn(target, t, maxSize, Pdu(t.messageIds[r], payload).Wire())
           == if OutputFits(target, mine[f]) then OutcomeOf(Described(mine[f], maxSize, payload)) else Outcome.Reset
    {
      var wire := Pdu(t.messageIds[r], payload).Wire();
      Be32RoundTrip(t.messageIds[r]);
      assert wire[..4] == Be32(t.messageIds[r]) && wire[MESSAGE_HEADER_SIZE..] == payload;
    }
  }

  ghost predicate SamePlaces(target: Target, mine: seq<Output>) {
    forall a, b :: a in mine && b in mine && a.messageId == b.messageId ==> SamePlace(target, a, b)
  }

  /** No output in front of output r has its message id. */
  ghost predicate IsFirst(mine: seq<Output>, r: nat) {
    r < |mine| && forall q :: 0 <= q < r ==> mine[q].messageId != mine[r].messageId
  }

  /** The first output for each id fits the target. */
  ghost predicate FirstOutputsFit(target: Target, mine: seq<Output>) {
    forall r: nat :: IsFirst(mine, r) ==> OutputFits(target, mine[r])
  }

  /** The message id determines the place, and the first output for each id fits the target. */
  ghost predicate Sendable(target: Target, mine: seq<Output>) {
    SamePlaces(target, mine) && FirstOutputsFit(target, mine)
  }

  /** No PDU for any message id resets the ECU in commit(), if and only if the first output for each id fits. */
  lemma {:induction false} NoCommitResetsExactly(target: Target, t: TxAdapterTable, mine: seq<Output>)
    requires TxMeans(t, mine)
    ensures (forall id: u32 :: !ResetsFor(target, t, id)) <==> FirstOutputsFit(target, mine)
  {
    hide EntryFits;
    assert forall q :: 0 <= q < |mine| ==> t.messageIds[q] == mine[q].messageId;
    assert forall q :: 0 <= q < |mine| ==> t.messageLengths[q] == mine[q].pduLength;
    assert forall q :: 0 <= q < |mine| ==> t.pduOffsets[q] == mine[q].pduOffset;
    if forall id: u32 :: !ResetsFor(target, t, id) {
      forall r: nat | IsFirst(mine, r) ensures OutputFits(target, mine[r]) {
        assert !ResetsFor(target, t, t.messageIds[r]);
        IndexOfIsFirst(t.messageIds, r);
      }
    }
    if FirstOutputsFit(target, mine) {
      forall id: u32 ensures !ResetsFor(target, t, id) {
        var k := IndexOf(t.messageIds, id);
        if k.Some? {
          forall q | 0 <= q < k.value ensures mine[q].messageId != mine[k.value].messageId {
            IndexOfIsFirst(t.messageIds, q);
          }
          assert IsFirst(mine, k.value);
        }
      }
    }
  }

  /** The entry that decides for output r is the first one with its message id. */
  lemma {:induction false} DecidingIsFirst(target: Target, t: TxAdapterTable, mine: seq<Output>, r: nat)
    returns (f: nat)
    requires TxMeans(t, mine) && r < |mine|
    ensures f <= r && mine[f].messageId == mine[r].messageId && FitsTable(mine[f])
    ensures IsFirst(mine, f) && (IsFirst(mine, r) ==> f == r)
    ensures forall maxSize: nat, payload: seq<byte> :: HasRoom(target, maxSize, payload) ==>
      CommittedOn(target, t, maxSize, Pdu(t.messageIds[r], payload).Wire())
      == if OutputFits(target, mine[f]) then OutcomeOf(Described(mine[f], maxSize, payload)) else Outcome.Reset
  {
    f := FirstEntryDecides(target, t, mine, r);
    hide CommittedOn, Described, OutputFits;
    forall q | 0 <= q < f ensures mine[q].messageId != mine[f].messageId {
      IndexOfIsFirst(t.messageIds, q);
      assert t.messageIds[q] == mine[q].messageId && t.messageIds[f] == mine[f].messageId;
    }
  }

  lemma {:induction false} SendableIfSent(target: Target, t: TxAdapterTable, mine: seq<Output>)
    requires TxMeans(t, mine) && forall o :: o in mine ==> FitsTable(o) && SentAsDescribed(target, t, o)
    ensures Sendable(target, mine)
  {
    hide CommittedOn, Described, SamePlace, OutputFits;
    forall a, b | a in mine && b in mine && a.messageId == b.messageId ensures SamePlace(target, a, b) {
      forall maxSize: nat, payload: seq<byte> | HasRoom(target, maxSize, payload)
        ensures Described(a, maxSize, payload) == Described(b, maxSize, payload)
      {
        assert SentAsDescribed(target, t, a) && SentAsDescribed(target, t, b);
        assert OutcomeOf(Described(a, maxSize, payload)) == OutcomeOf(Described(b, maxSize, payload));
      }
      DescribedAlike(target, a, b);
    }
    forall r: nat | IsFirst(mine, r) ensures OutputFits(target, mine[r]) {
      var f := DecidingIsFirst(target, t, mine, r);
      assert mine[r] in mine && HasRoom(target, MESSAGE_HEADER_SIZE, []);
      assert t.messageIds[r] == mine[r].messageId;
    }
  }

  /**
   Every output is followed, if and only if the message id determines the place, and the first output for each id
   fits the target; an output whose message cannot be sent counts as one without a place.
   */
  lemma {:induction false} SentExactly(target: Target, t: TxAdapterTable, mine: seq<Output>)
    requires TxMeans(t, mine)
    ensures forall o :: o in mine ==> FitsTable(o)
    ensures (forall o :: o in mine ==> SentAsDescribed(target, t, o)) <==> Sendable(target, mine)
  {
    hide CommittedOn, Described, SamePlace, OutputFits;
    forall o | o in mine ensures FitsTable(o) {
      var r :| 0 <= r < |mine| && mine[r] == o;
      TxEntriesFit(t, mine, r);
    }
    if Sendable(target, mine) {
      forall o | o in mine ensures SentAsDescribed(target, t, o) {
        var r :| 0 <= r < |mine| && mine[r] == o;
        var f := DecidingIsFirst(target, t, mine, r);
        assert t.messageIds[r] == o.messageId && mine[f] in mine;
        DescribedAlike(target, mine[f], o);
      }
    }
    if forall o :: o in mine ==> SentAsDescribed(target, t, o) {
      SendableIfSent(target, t, mine);
    }
  }

  /**
   With 32 bits: two outputs without a place and with one message id, of which only the second does not fit, are both
   sent as described, that is, not at all; in the other order the first one resets the ECU.
   */
  lemma {:induction false} OrderMatters()
    ensures var a, b := Output(1, 7, 0, 0), Output(1, 7, 0, 0xFFFF_FFF8);
      && SamePlace(Bits32, a, b) && OutputFits(Bits32, a) && !OutputFits(Bits32, b)
      && Sendable(Bits32, [a, b]) && !Sendable(Bits32, [b, a])
  {
    var a, b := Output(1, 7, 0, 0), Output(1, 7, 0, 0xFFFF_FFF8);
    assert forall r: nat :: IsFirst([a, b], r) ==> r == 0 by {
      assert [a, b][0].messageId == [a, b][1].messageId;
    }
    assert IsFirst([b, a], 0);
  }

  /** Two outputs with one message id and different offsets: the payload of the second is put where the first says. */
  lemma {:induction false} SecondPlaceIsIgnored(target: Target)
    ensures var t, o := TxAdapterTable([7, 7], [8, 8], [0, 4]), Output(1, 7, 4, 8);
      && TxMeans(t, [Output(1, 7, 0, 8), o])
      && CommittedOn(target, t, 16, Pdu(7, [0]).Wire()) == Sent(Message(7, 8, 0, [0]))
      && Described(o, 16, [0]) == Some(Message(7, 8, 4, [0])) != Some(Message(7, 8, 0, [0]))
  {
    hide Message;
    var mine := [Output(1, 7, 0, 8), Output(1, 7, 4, 8)];
    var t := TxAdapterTable([7, 7], [8, 8], [0, 4]);
    var f := FirstEntryDecides(target, t, mine, 0);
    assert HasRoom(target, 16, [0]);
    assert CommittedOn(target, t, 16, Pdu(7, [0]).Wire()) == OutcomeOf(Described(mine[0], 16, [0]));
    FirstZero(7, 8, 0);
    FirstZero(7, 8, 4);
  }

  // ----- The compiled blob -----

  /** The Tx table that the ECU loads from the compiled blob was made from the outputs to its channel. */
  lemma {:induction false} LoadedTxMeans(crc: seq<byte> -> u32, table: Table, vs: seq<TxVectors>, s: RecordSet,
      blob: seq<byte>, i: nat, c: byte) returns (t: TxAdapterTable)
    requires s.WellTyped() && BlobBytes(crc, s.All()) == Ok(blob) && TxPairs(vs, s.tx)
    requires i < |vs| && FirstWithByte(TxIds(vs), i, c)
    requires vs[i].channelId >= 0 && vs[i] == TxVectorsOf(table, vs[i].channelId, vs[i].channelType)
    ensures LoadTx(FindConfigFor(blob, TX_ADAPTER, c).data) == Some(t)
    ensures TxMeans(t, OutputsTo(OutputsOf(AllRows(table)), vs[i].channelId))
  {
    hide FindConfigFor, LoadTx, BlobBytes, FirstWithByte, OutputsTo, OutputsOf, AllRows;
    AllLaidOut(s);
    TxTableReadBack(crc, vs, s.All(), s, blob, i, c);
    t := TxAdapterTable(vs[i].messageIds, vs[i].messageLengths, vs[i].pduOffsets);
  }

  lemma {:induction false} ChannelTxTable(crc: seq<byte> -> u32, routings: seq<Routing>, channels: seq<Channel>,
      k: Compilation, i: nat, c: byte) returns (t: TxAdapterTable)
    requires Compiled(crc, routings, channels, k)
    requires i < |channels| && FirstWithByte(TxIds(TxVectorList(k.table, IdMap(k.entries), channels)), i, c)
    ensures LoadTx(FindConfigFor(k.blob, TX_ADAPTER, c).data) == Some(t)
    ensures TxMeans(t, OutputsTo(OutputsOf(AllRows(k.table)), IdMap(k.entries)[channels[i].name]))
  {
    hide FindConfigFor, LoadTx, BlobBytes, FirstWithByte, OutputsTo, OutputsOf, AllRows, TxMeans, TxPairs, IsTableOf,
      RxPairs, RoutingRecord;
    var vs := TxVectorList(k.table, IdMap(k.entries), channels);
    t := LoadedTxMeans(crc, k.table, vs, k.records, k.blob, i, c);
  }

  /** For the compiled blob: a legacy channel never resets the ECU, if and only if the first outputs to it fit. */
  lemma {:induction false} BlobCommitsExactly(target: Target, crc: seq<byte> -> u32, routings: seq<Routing>,
      channels: seq<Channel>, k: Compilation, i: nat, c: byte) returns (t: TxAdapterTable)
    requires Compiled(crc, routings, channels, k)
    requires i < |channels| && FirstWithByte(TxIds(TxVectorList(k.table, IdMap(k.entries), channels)), i, c)
    ensures LoadTx(FindConfigFor(k.blob, TX_ADAPTER, c).data) == Some(t) && Shape(t)
    ensures var mine := OutputsTo(OutputsOf(AllRows(k.table)), IdMap(k.entries)[channels[i].name]);
      && ((forall id: u32 :: !ResetsFor(target, t, id)) <==> FirstOutputsFit(target, mine))
      && (Sendable(target, mine) ==> FirstOutputsFit(target, mine))
  {
    hide FindConfigFor, LoadTx, FirstWithByte, OutputsTo, OutputsOf, AllRows, ResetsFor, FirstOutputsFit, IsTableOf;
    t := ChannelTxTable(crc, routings, channels, k, i, c);
    NoCommitResetsExactly(target, t, OutputsTo(OutputsOf(AllRows(k.table)), IdMap(k.entries)[channels[i].name]));
  }

  lemma {:induction false} TableListsRouted(table: Table, rs: seq<Resolved>, channels: set<nat>, channel: nat)
    requires IsTableOf(table, rs, channels) && AllInChannels(rs, channels)
    ensures forall o :: o in OutputsTo(OutputsOf(AllRows(table)), channel) <==> RoutedTo(rs, channel, o)
  {
    hide *;
    forall o ensures o in OutputsTo(OutputsOf(AllRows(table)), channel) <==> RoutedTo(rs, channel, o) {
      OutputsToMembers(OutputsOf(AllRows(table)), channel, o);
      OutputsAreRouted(table, rs, channels, o);
      RoutedToParts(rs, channel, o);
    }
  }

  lemma {:induction false} RoutedToParts(rs: seq<Resolved>, channel: nat, o: Output)
    ensures RoutedTo(rs, channel, o) <==> o.channel == channel && Routed(rs, o)
  {
  }

  /** With 64 bits every output fits, so that it is enough that the message id determines the place. */
  lemma {:induction false} SendableOn64(mine: seq<Output>)
    requires forall o :: o in mine ==> FitsTable(o)
    ensures Sendable(Bits64, mine) <==> SamePlaces(Bits64, mine)
  {
    forall r: nat | IsFirst(mine, r) ensures OutputFits(Bits64, mine[r]) {
      assert mine[r] in mine;
    }
  }

  /**
   The main result for the way out. A legacy Tx channel, driven by the table in the compiled blob, sends every PDU
   that is routed to it as the PDU's own output describes it, if and only if among the outputs to this channel, in the
   order of the table, the message id determines the place of the payload, and the first output for each id fits the
   target. With 64 bits the second condition always holds.
   */
  lemma {:induction false} BlobSendsExactly(target: Target, crc: seq<byte> -> u32, routings: seq<Routing>,
      channels: seq<Channel>, k: Compilation, i: nat, c: byte) returns (t: TxAdapterTable)
    requires Compiled(crc, routings, channels, k)
    requires i < |channels| && FirstWithByte(TxIds(TxVectorList(k.table, IdMap(k.entries), channels)), i, c)
    ensures LoadTx(FindConfigFor(k.blob, TX_ADAPTER, c).data) == Some(t) && Shape(t)
    ensures var id := IdMap(k.entries)[channels[i].name];
      var mine := OutputsTo(OutputsOf(AllRows(k.table)), id);
      && (forall o :: o in mine <==> RoutedTo(k.rs, id, o)) && (forall o :: RoutedTo(k.rs, id, o) ==> FitsTable(o))
      && ((forall o :: RoutedTo(k.rs, id, o) ==> SentAsDescribed(target, t, o)) <==> Sendable(target, mine))
      && (Sendable(target, mine) ==> IdDeterminesPlace(target, k.rs, id))
      && (target.Bits64? ==> (Sendable(target, mine) <==> IdDeterminesPlace(target, k.rs, id)))
  {
    hide FindConfigFor, LoadTx, FirstWithByte, OutputsTo, RoutedTo, SentAsDescribed, SamePlace, IsTableOf, OutputFits;
    t := ChannelTxTable(crc, routings, channels, k, i, c);
    var id := IdMap(k.entries)[channels[i].name];
    var mine := OutputsTo(OutputsOf(AllRows(k.table)), id);
    TableListsRouted(k.table, k.rs, IdMap(k.entries).Values, id);
    SentExactly(target, t, mine);
    if target.Bits64? {
      SendableOn64(mine);
    }
  }
}
