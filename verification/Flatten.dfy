/**
 The back end of the routing compiler (tools/blob/routing/utils.py): the sorted table is flattened into the
 parallel vectors and offset vectors that the ECU indexes.
 */
module Flatten {
  import opened Results
  import opened RoutingTable

  // ----- Reference: the table read row by row -----

  function AllRows(table: Table): (rows: seq<Row>) {
    if table == [] then [] else table[0].rows + AllRows(table[1..])
  }

  function OutputsOf(rows: seq<Row>): (outputs: seq<Output>) {
    if rows == [] then [] else rows[0].outputs + OutputsOf(rows[1..])
  }

  lemma {:induction false} AllRowsAppend(a: Table, b: Table)
    ensures AllRows(a + b) == AllRows(a) + AllRows(b)
  {
    if a == [] {
      assert a + b == b;
    } else {
      assert (a + b)[1..] == a[1..] + b;
      AllRowsAppend(a[1..], b);
    }
  }

  lemma {:induction false} OutputsOfAppend(a: seq<Row>, b: seq<Row>)
    ensures OutputsOf(a + b) == OutputsOf(a) + OutputsOf(b)
  {
    if a == [] {
      assert a + b == b;
    } else {
      assert (a + b)[1..] == a[1..] + b;
      OutputsOfAppend(a[1..], b);
    }
  }

  lemma {:induction false} AllRowsOne(table: Table, i: nat)
    requires i < |table|
    ensures AllRows(table[..i + 1]) == AllRows(table[..i]) + table[i].rows
  {
    assert table[..i + 1] == table[..i] + [table[i]];
    AllRowsAppend(table[..i], [table[i]]);
    assert AllRows([table[i]]) == table[i].rows + AllRows([]);
  }

  lemma {:induction false} OutputsOfOne(rows: seq<Row>, i: nat)
    requires i < |rows|
    ensures OutputsOf(rows[..i + 1]) == OutputsOf(rows[..i]) + rows[i].outputs
  {
    assert rows[..i + 1] == rows[..i] + [rows[i]];
    OutputsOfAppend(rows[..i], [rows[i]]);
    assert OutputsOf([rows[i]]) == rows[i].outputs + OutputsOf([]);
  }

  // ----- Destinations, output message ids, destination offsets -----

  /** output_channel_id_generator. */
  function Destinations(outputs: seq<Output>): (s: seq<nat>)
    ensures |s| == |outputs| && forall i :: 0 <= i < |s| ==> s[i] == outputs[i].channel
  {
    seq(|outputs|, i requires 0 <= i < |outputs| => outputs[i].channel)
  }

  /** output_message_id_generator without a channel, and output_pdu_length/offset on a filtered list. */
  function MessageIdsOf(outputs: seq<Output>): (s: seq<int>)
    ensures |s| == |outputs| && forall i :: 0 <= i < |s| ==> s[i] == outputs[i].messageId
  {
    seq(|outputs|, i requires 0 <= i < |outputs| => outputs[i].messageId)
  }

  function PduLengthsOf(outputs: seq<Output>): (s: seq<int>)
    ensures |s| == |outputs| && forall i :: 0 <= i < |s| ==> s[i] == outputs[i].pduLength
  {
    seq(|outputs|, i requires 0 <= i < |outputs| => outputs[i].pduLength)
  }

  function PduOffsetsOf(outputs: seq<Output>): (s: seq<int>)
    ensures |s| == |outputs| && forall i :: 0 <= i < |s| ==> s[i] == outputs[i].pduOffset
  {
    seq(|outputs|, i requires 0 <= i < |outputs| => outputs[i].pduOffset)
  }

  /** Entry g counts the outputs of the rows before row g. */
  function DestinationOffsets(rows: seq<Row>): (s: seq<nat>)
    ensures |s| == |rows| + 1
    ensures forall g :: 0 <= g <= |rows| ==> s[g] == |OutputsOf(rows[..g])|
  {
    seq(|rows| + 1, g requires 0 <= g <= |rows| => |OutputsOf(rows[..g])|)
  }

  /** destination_offset_generator. */
  method DestinationOffsetGenerator(table: Table) returns (offsets: seq<nat>)
    ensures offsets == DestinationOffsets(AllRows(table))
  {
    var offset := 0;
    offsets := [offset];
    ghost var seen: seq<Row> := [];
    for i := 0 to |table|
      invariant seen == AllRows(table[..i])
      invariant offset == |OutputsOf(seen)| && offsets == DestinationOffsets(seen)
    {
      var rows := table[i].rows;
      ghost var before := seen;
      for j := 0 to |rows|
        invariant seen == before + rows[..j]
        invariant offset == |OutputsOf(seen)| && offsets == DestinationOffsets(seen)
      {
        offset := offset + |rows[j].outputs|;
        offsets := offsets + [offset];
        OffsetsOfNextRow(seen, rows[j]);
        seen := seen + [rows[j]];
      }
      AllRowsOne(table, i);
      assert rows[..|rows|] == rows;
    }
    assert table[..|table|] == table;
  }

  lemma {:induction false} OffsetsOfNextRow(rows: seq<Row>, row: Row)
    ensures |OutputsOf(rows + [row])| == |OutputsOf(rows)| + |row.outputs|
    ensures DestinationOffsets(rows + [row]) == DestinationOffsets(rows) + [|OutputsOf(rows)| + |row.outputs|]
  {
    var all := rows + [row];
    OutputsOfOne(all, |rows|);
    assert all[..|rows| + 1] == all && all[..|rows|] == rows;
    forall g | 0 <= g <= |rows| ensures all[..g] == rows[..g] {
    }
  }

  /** get_first_id: the number of rows of the channels in front. */
  function FirstId(table: Table, channel: nat): (id: nat) {
    if table == [] || table[0].channel == channel then 0
    else |table[0].rows| + FirstId(table[1..], channel)
  }

  method GetFirstId(table: Table, channel: nat) returns (id: nat)
    ensures id == FirstId(table, channel)
  {
    id := 0;
    for i := 0 to |table|
      invariant FirstId(table, channel) == id + FirstId(table[i..], channel)
    {
      if table[i].channel == channel {
        return;
      }
      assert table[i..][1..] == table[i + 1..];
      id := id + |table[i].rows|;
    }
  }

  lemma {:induction false} FirstIdCountsRowsBefore(table: Table, n: nat)
    requires n < |table| && Increasing(ChannelsOf(table))
    ensures FirstId(table, table[n].channel) == |AllRows(table[..n])|
  {
    if n != 0 {
      assert ChannelsOf(table)[0] < ChannelsOf(table)[n];
      forall i, j | 0 <= i < j < |table[1..]| ensures ChannelsOf(table[1..])[i] < ChannelsOf(table[1..])[j] {
        assert ChannelsOf(table)[i + 1] < ChannelsOf(table)[j + 1];
      }
      FirstIdCountsRowsBefore(table[1..], n - 1);
      assert table[..n] == [table[0]] + table[1..][..n - 1];
    }
  }

  /** Row i of channel n is the row with global id first id + i. */
  lemma {:induction false} GlobalIdOfRow(table: Table, n: nat, i: nat)
    requires n < |table| && i < |table[n].rows| && Increasing(ChannelsOf(table))
    ensures var g := FirstId(table, table[n].channel) + i;
            g < |AllRows(table)| && AllRows(table)[g] == table[n].rows[i]
  {
    FirstIdCountsRowsBefore(table, n);
    AllRowsOne(table, n);
    assert table == table[..n + 1] + table[n + 1..];
    AllRowsAppend(table[..n + 1], table[n + 1..]);
  }

  lemma {:induction false} OffsetsSliceOutputs(rows: seq<Row>, g: nat)
    requires g < |rows|
    ensures |OutputsOf(rows[..g])| <= |OutputsOf(rows[..g + 1])| <= |OutputsOf(rows)|
    ensures OutputsOf(rows)[|OutputsOf(rows[..g])|..|OutputsOf(rows[..g + 1])|] == rows[g].outputs
  {
    OutputsOfOne(rows, g);
    assert rows == rows[..g + 1] + rows[g + 1..];
    OutputsOfAppend(rows[..g + 1], rows[g + 1..]);
  }

  /**
   Flattening preserves meaning: for every row of every channel, the range of the flat vectors between the
   row's two destination offsets holds, in order, the outputs of the last routing with the row's key.
   */
  lemma {:induction false} FlatteningPreservesMeaning(table: Table, rs: seq<Resolved>, channels: set<nat>, n: nat,
      i: nat)
    requires IsTableOf(table, rs, channels) && n < |table| && i < |table[n].rows|
    ensures var c, key := table[n].channel, table[n].rows[i].key;
      var g := FirstId(table, c) + i;
      var offsets, outputs := DestinationOffsets(AllRows(table)), OutputsOf(AllRows(table));
      && g + 1 < |offsets|
      && offsets[g] <= offsets[g + 1] <= |outputs|
      && LastOutputs(rs, c, key).Some?
      && Destinations(outputs)[offsets[g]..offsets[g + 1]] == Destinations(LastOutputs(rs, c, key).value)
      && MessageIdsOf(outputs)[offsets[g]..offsets[g + 1]] == MessageIdsOf(LastOutputs(rs, c, key).value)
  {
    var rows := AllRows(table);
    var g := FirstId(table, table[n].channel) + i;
    GlobalIdOfRow(table, n, i);
    OffsetsSliceOutputs(rows, g);
    assert RowsHoldLast(table[n].rows, rs, table[n].channel);
    ProjectionsOfSlice(OutputsOf(rows), |OutputsOf(rows[..g])|, |OutputsOf(rows[..g + 1])|);
  }

  lemma {:induction false} ProjectionsOfSlice(outputs: seq<Output>, lo: nat, hi: nat)
    requires lo <= hi <= |outputs|
    ensures Destinations(outputs)[lo..hi] == Destinations(outputs[lo..hi])
    ensures MessageIdsOf(outputs)[lo..hi] == MessageIdsOf(outputs[lo..hi])
  {
  }

  // ----- Tx vectors: the outputs of one channel -----

  /** The `if o_ch_id == channel_id` of the output generators. */
  function OutputsTo(outputs: seq<Output>, channel: nat): (s: seq<Output>)
    ensures |s| <= |outputs|
    ensures forall i :: 0 <= i < |s| ==> s[i].channel == channel
  {
    if outputs == [] then []
    else
      var init := OutputsTo(outputs[..|outputs| - 1], channel);
      var last := outputs[|outputs| - 1];
      if last.channel == channel then init + [last] else init
  }

  lemma {:induction false} OutputsToAppend(a: seq<Output>, b: seq<Output>, channel: nat)
    ensures OutputsTo(a + b, channel) == OutputsTo(a, channel) + OutputsTo(b, channel)
    decreases |b|
  {
    if b == [] {
      assert a + b == a;
    } else {
      var n := |b| - 1;
      assert (a + b)[..|a + b| - 1] == a + b[..n];
      OutputsToAppend(a, b[..n], channel);
    }
  }

  /** The nested loops that the output generators of one channel share; each projects one field of the result. */
  method OutputGenerator(table: Table, channel: nat) returns (mine: seq<Output>)
    ensures mine == OutputsTo(OutputsOf(AllRows(table)), channel)
  {
    mine := [];
    ghost var seen: seq<Row> := [];
    for i := 0 to |table|
      invariant seen == AllRows(table[..i]) && mine == OutputsTo(OutputsOf(seen), channel)
    {
      var rows := table[i].rows;
      ghost var before := seen;
      for j := 0 to |rows|
        invariant seen == before + rows[..j] && mine == OutputsTo(OutputsOf(seen), channel)
      {
        OutputsOfAppend(seen, [rows[j]]);
        OutputsToAppend(OutputsOf(seen), OutputsOf([rows[j]]), channel);
        assert OutputsOf([rows[j]]) == rows[j].outputs;
        mine := mine + OutputsTo(rows[j].outputs, channel);
        seen := seen + [rows[j]];
      }
      AllRowsOne(table, i);
      assert rows[..|rows|] == rows;
    }
    assert table[..|table|] == table;
  }

  /** The Tx vectors are a stable partition: output j is the entry of its channel with j's rank in that channel. */
  lemma {:induction false} TxVectorsAreStablePartition(outputs: seq<Output>, j: nat)
    requires j < |outputs|
    ensures var c := outputs[j].channel;
      var rank := |OutputsTo(outputs[..j], c)|;
      rank < |OutputsTo(outputs, c)| && OutputsTo(outputs, c)[rank] == outputs[j]
  {
    assert outputs[..j + 1][..j] == outputs[..j];
    OutputsToAppend(outputs[..j + 1], outputs[j + 1..], outputs[j].channel);
    assert outputs[..j + 1] + outputs[j + 1..] == outputs;
  }

  /** Conversely, every Tx entry comes from exactly one output: the one whose rank it is. */
  lemma {:induction false} TxEntryHasOutput(outputs: seq<Output>, channel: nat, rank: nat) returns (j: nat)
    requires rank < |OutputsTo(outputs, channel)|
    ensures j < |outputs| && outputs[j].channel == channel
    ensures |OutputsTo(outputs[..j], channel)| == rank && OutputsTo(outputs, channel)[rank] == outputs[j]
  {
    var n := |outputs| - 1;
    if rank < |OutputsTo(outputs[..n], channel)| {
      j := TxEntryHasOutput(outputs[..n], channel, rank);
      assert outputs[..n][..j] == outputs[..j];
    } else {
      j := n;
    }
  }

  function TotalTx(outputs: seq<Output>, channels: seq<nat>): (n: nat) {
    if channels == [] then 0 else |OutputsTo(outputs, channels[0])| + TotalTx(outputs, channels[1..])
  }

  /** Nothing is lost or duplicated: over the distinct channels, the Tx lengths sum to the number of outputs. */
  lemma {:induction false} TxLengthsSumUp(outputs: seq<Output>, channels: seq<nat>)
    requires forall i, j :: 0 <= i < j < |channels| ==> channels[i] != channels[j]
    requires forall i :: 0 <= i < |outputs| ==> outputs[i].channel in channels
    ensures TotalTx(outputs, channels) == |outputs|
    decreases |outputs|
  {
    if outputs == [] {
      NoOutputsNoTx(channels);
    } else {
      var n := |outputs| - 1;
      assert forall i :: 0 <= i < n ==> outputs[..n][i] == outputs[i];
      TxLengthsSumUp(outputs[..n], channels);
      var k :| 0 <= k < |channels| && channels[k] == outputs[n].channel;
      OneMoreOutput(outputs, channels, k);
    }
  }

  lemma {:induction false} NoOutputsNoTx(channels: seq<nat>)
    ensures TotalTx([], channels) == 0
  {
    if channels != [] {
      NoOutputsNoTx(channels[1..]);
    }
  }

  lemma {:induction false} OneMoreOutput(outputs: seq<Output>, channels: seq<nat>, k: nat)
    requires outputs != [] && k < |channels| && channels[k] == outputs[|outputs| - 1].channel
    requires forall i :: 0 <= i < |channels| && i != k ==> channels[i] != channels[k]
    ensures TotalTx(outputs, channels) == TotalTx(outputs[..|outputs| - 1], channels) + 1
  {
    if k == 0 {
      OtherChannelsUnchanged(outputs, channels[1..]);
    } else {
      OneMoreOutput(outputs, channels[1..], k - 1);
    }
  }

  lemma {:induction false} OtherChannelsUnchanged(outputs: seq<Output>, channels: seq<nat>)
    requires outputs != [] && outputs[|outputs| - 1].channel !in channels
    ensures TotalTx(outputs, channels) == TotalTx(outputs[..|outputs| - 1], channels)
  {
    if channels != [] {
      OtherChannelsUnchanged(outputs, channels[1..]);
    }
  }

  // ----- Rx groups: the rows of one message id -----

  /** The positions where a new message id begins. */
  function Starts(rows: seq<Row>): (s: seq<nat>)
    ensures forall k :: 0 <= k < |s| ==> s[k] < |rows|
  {
    if rows == [] then []
    else
      var n := |rows| - 1;
      if n == 0 || rows[n].key.messageId != rows[n - 1].key.messageId then Starts(rows[..n]) + [n]
      else Starts(rows[..n])
  }

  function IdsAt(rows: seq<Row>, at: seq<nat>): (s: seq<int>)
    requires forall k :: 0 <= k < |at| ==> at[k] < |rows|
    ensures |s| == |at| && forall k :: 0 <= k < |s| ==> s[k] == rows[at[k]].key.messageId
  {
    seq(|at|, k requires 0 <= k < |at| => rows[at[k]].key.messageId)
  }

  function LengthsAt(rows: seq<Row>, at: seq<nat>): (s: seq<int>)
    requires forall k :: 0 <= k < |at| ==> at[k] < |rows|
    ensures |s| == |at| && forall k :: 0 <= k < |s| ==> s[k] == rows[at[k]].key.messageLength
  {
    seq(|at|, k requires 0 <= k < |at| => rows[at[k]].key.messageLength)
  }

  predicate AllLengthsPositive(rows: seq<Row>) {
    forall i :: 0 <= i < |rows| ==> rows[i].key.messageLength > 0
  }

  function RxMessageIds(rows: seq<Row>): (s: seq<int>) {
    IdsAt(rows, Starts(rows))
  }

  function RxMessageLengths(rows: seq<Row>): (s: seq<int>) {
    if AllLengthsPositive(rows) then LengthsAt(rows, Starts(rows)) else []
  }

  function RxPduLengthOffsets(rows: seq<Row>): (s: seq<nat>)
    ensures |s| == |RxMessageIds(rows)| + 1
  {
    Starts(rows) + [|rows|]
  }

  function RxPduLengths(rows: seq<Row>): (s: seq<int>)
    ensures |s| == |rows| && forall i :: 0 <= i < |s| ==> s[i] == rows[i].key.pduLength
  {
    seq(|rows|, i requires 0 <= i < |rows| => rows[i].key.pduLength)
  }

  function RxPduOffsets(rows: seq<Row>): (s: seq<int>)
    ensures |s| == |rows| && forall i :: 0 <= i < |s| ==> s[i] == rows[i].key.pduOffset
  {
    seq(|rows|, i requires 0 <= i < |rows| => rows[i].key.pduOffset)
  }

  /** What the variable `prev` of the Rx generators holds before row i. */
  ghost predicate PrevIs(prev: Option<int>, rows: seq<Row>, i: nat)
    requires i <= |rows|
  {
    prev == if i == 0 then None else Some(rows[i - 1].key.messageId)
  }

  /** message_id_generator. */
  method MessageIdGenerator(rows: seq<Row>) returns (ids: seq<int>)
    ensures ids == RxMessageIds(rows)
  {
    ids := [];
    var prev: Option<int> := None;
    for i := 0 to |rows|
      invariant PrevIs(prev, rows, i) && ids == IdsAt(rows, Starts(rows[..i]))
    {
      assert rows[..i + 1][..i] == rows[..i];
      var r := rows[i].key.messageId;
      if Some(r) != prev {
        prev := Some(r);
        ids := ids + [r];
      }
    }
    assert rows[..|rows|] == rows;
  }

  /** pdu_length_offset_generator. */
  method PduLengthOffsetGenerator(rows: seq<Row>) returns (offsets: seq<nat>)
    ensures offsets == RxPduLengthOffsets(rows)
  {
    offsets := [];
    var offset := 0;
    var prev: Option<int> := None;
    for i := 0 to |rows|
      invariant PrevIs(prev, rows, i) && offset == i && offsets == Starts(rows[..i])
    {
      assert rows[..i + 1][..i] == rows[..i];
      if Some(rows[i].key.messageId) != prev {
        prev := Some(rows[i].key.messageId);
        offsets := offsets + [offset];
      }
      offset := offset + 1;
    }
    assert rows[..|rows|] == rows;
    offsets := offsets + [offset];
  }

  /** The positive message lengths of the rows, in order. */
  function PositiveLengths(rows: seq<Row>): (s: seq<int>)
    ensures |s| <= |rows|
    ensures |s| == |rows| <==> AllLengthsPositive(rows)
    ensures AllLengthsPositive(rows) ==> forall i :: 0 <= i < |rows| ==> s[i] == rows[i].key.messageLength
  {
    if rows == [] then []
    else
      var n := |rows| - 1;
      assert rows == rows[..n] + [rows[n]];
      var init := PositiveLengths(rows[..n]);
      if rows[n].key.messageLength > 0 then init + [rows[n].key.messageLength] else init
  }

  /** message_length_generator: yields only if every row has a positive message length. */
  method MessageLengthGenerator(rows: seq<Row>) returns (lengths: seq<int>)
    ensures lengths == RxMessageLengths(rows)
  {
    lengths := [];
    var positive := PositiveLengths(rows);
    if |rows| != |positive| {
      return;
    }
    var prev: Option<int> := None;
    for i := 0 to |rows|
      invariant PrevIs(prev, rows, i) && lengths == LengthsAt(rows, Starts(rows[..i]))
    {
      assert rows[..i + 1][..i] == rows[..i];
      var r := rows[i].key.messageId;
      if Some(r) != prev {
        prev := Some(r);
        lengths := lengths + [positive[i]];
      }
    }
    assert rows[..|rows|] == rows;
  }

  // ----- The group index is correct -----

  /** Row i belongs to group k. */
  predicate InGroup(offsets: seq<nat>, k: int, i: int) {
    0 <= k && k + 1 < |offsets| && offsets[k] <= i < offsets[k + 1]
  }

  /** The group index: strictly increasing offsets from 0 to the row count, one range of rows per message id. */
  ghost predicate IsGroupIndex(ids: seq<int>, offsets: seq<nat>, rows: seq<Row>) {
    && |offsets| == |ids| + 1
    && offsets[0] == 0 && offsets[|ids|] == |rows|
    && (forall k, l :: 0 <= k < l < |offsets| ==> offsets[k] < offsets[l])
    && (forall k, i :: InGroup(offsets, k, i) ==> i < |rows| && rows[i].key.messageId == ids[k])
    && (forall k, l :: 0 <= k < l < |ids| ==> ids[k] < ids[l])
  }

  lemma {:induction false} NewGroup(ids: seq<int>, offsets: seq<nat>, rows: seq<Row>, row: Row)
    requires IsGroupIndex(ids, offsets, rows)
    requires ids != [] ==> ids[|ids| - 1] < row.key.messageId
    ensures IsGroupIndex(ids + [row.key.messageId], offsets + [|rows| + 1], rows + [row])
  {
    var ids', offsets' := ids + [row.key.messageId], offsets + [|rows| + 1];
    forall k, i | InGroup(offsets', k, i) ensures i < |rows| + 1 && (rows + [row])[i].key.messageId == ids'[k] {
      if k < |ids| {
        assert InGroup(offsets, k, i);
      }
    }
  }

  lemma {:induction false} SameGroup(ids: seq<int>, offsets: seq<nat>, rows: seq<Row>, row: Row)
    requires IsGroupIndex(ids, offsets, rows)
    requires ids != [] && ids[|ids| - 1] == row.key.messageId
    ensures IsGroupIndex(ids, offsets[..|ids|] + [|rows| + 1], rows + [row])
  {
    var offsets' := offsets[..|ids|] + [|rows| + 1];
    forall k, i | InGroup(offsets', k, i) ensures i < |rows| + 1 && (rows + [row])[i].key.messageId == ids[k] {
      if i < |rows| {
        assert InGroup(offsets, k, i);
      }
    }
  }

  /** What one more row adds to the group index. */
  lemma {:induction false} OneMoreRow(init: seq<Row>, row: Row)
    ensures var rows, ids, offsets := init + [row], RxMessageIds(init), RxPduLengthOffsets(init);
      if init == [] || row.key.messageId != init[|init| - 1].key.messageId
      then RxMessageIds(rows) == ids + [row.key.messageId] && RxPduLengthOffsets(rows) == offsets + [|rows|]
      else RxMessageIds(rows) == ids && RxPduLengthOffsets(rows) == offsets[..|ids|] + [|rows|]
  {
    var rows := init + [row];
    assert rows[..|init|] == init;
  }

  lemma {:induction false} NoRows()
    ensures IsGroupIndex(RxMessageIds([]), RxPduLengthOffsets([]), [])
  {
  }

  /** The group index stays one when a row with a later or the same message id is added. */
  lemma {:induction false} IndexGrows(init: seq<Row>, row: Row)
    requires IsGroupIndex(RxMessageIds(init), RxPduLengthOffsets(init), init)
    requires init != [] ==> init[|init| - 1].key.messageId <= row.key.messageId
    ensures IsGroupIndex(RxMessageIds(init + [row]), RxPduLengthOffsets(init + [row]), init + [row])
  {
    hide IsGroupIndex, RxMessageIds, RxPduLengthOffsets;
    var ids, offsets := RxMessageIds(init), RxPduLengthOffsets(init);
    OneMoreRow(init, row);
    if init == [] {
      NoGroups();
      NewGroup(ids, offsets, init, row);
    } else {
      LastGroup(init);
      if row.key.messageId != init[|init| - 1].key.messageId {
        NewGroup(ids, offsets, init, row);
      } else {
        SameGroup(ids, offsets, init, row);
      }
    }
  }

  lemma {:induction false} GroupIndexCorrect(rows: seq<Row>)
    requires StrictlySorted(KeysOf(rows))
    ensures IsGroupIndex(RxMessageIds(rows), RxPduLengthOffsets(rows), rows)
  {
    hide IsGroupIndex, RxMessageIds, RxPduLengthOffsets;
    if rows == [] {
      NoRows();
    } else {
      var n := |rows| - 1;
      PrefixSorted(rows, n);
      GroupIndexCorrect(rows[..n]);
      assert n > 0 ==> Less(KeysOf(rows)[n - 1], KeysOf(rows)[n]);
      IndexGrows(rows[..n], rows[n]);
      assert rows == rows[..n] + [rows[n]];
    }
  }

  lemma {:induction false} NoGroups()
    ensures RxMessageIds([]) == []
  {
  }

  lemma {:induction false} PrefixSorted(rows: seq<Row>, n: nat)
    requires n <= |rows| && StrictlySorted(KeysOf(rows))
    ensures StrictlySorted(KeysOf(rows[..n]))
  {
    forall i, j | 0 <= i < j < n ensures Less(KeysOf(rows[..n])[i], KeysOf(rows[..n])[j]) {
      assert Less(KeysOf(rows)[i], KeysOf(rows)[j]);
    }
  }

  lemma {:induction false} LastGroup(rows: seq<Row>)
    requires rows != [] && IsGroupIndex(RxMessageIds(rows), RxPduLengthOffsets(rows), rows)
    ensures |RxMessageIds(rows)| > 0
    ensures RxMessageIds(rows)[|RxMessageIds(rows)| - 1] == rows[|rows| - 1].key.messageId
  {
    var ids, offsets := RxMessageIds(rows), RxPduLengthOffsets(rows);
    assert |ids| != 0;
    assert InGroup(offsets, |ids| - 1, |rows| - 1);
  }

  /** Every row lies in the group of its own message id: the index is complete. */
  lemma {:induction false} GroupOfRow(ids: seq<int>, offsets: seq<nat>, rows: seq<Row>, i: nat) returns (k: nat)
    requires IsGroupIndex(ids, offsets, rows) && i < |rows|
    ensures k < |ids| && InGroup(offsets, k, i) && ids[k] == rows[i].key.messageId
  {
    k := 0;
    while offsets[k + 1] <= i
      invariant k < |ids| && offsets[k] <= i
      decreases |offsets| - k
    {
      k := k + 1;
    }
  }

  /** A message length is the smallest one of its group, and there is one per id or none at all. */
  lemma {:induction false} MessageLengthsCorrect(rows: seq<Row>)
    requires StrictlySorted(KeysOf(rows))
    ensures var ids, lengths, offsets := RxMessageIds(rows), RxMessageLengths(rows), RxPduLengthOffsets(rows);
      && (lengths == [] || |lengths| == |ids|)
      && (lengths != [] ==> forall k, i :: InGroup(offsets, k, i) ==>
            i < |rows| && 0 < lengths[k] <= rows[i].key.messageLength
            && lengths[k] == rows[offsets[k]].key.messageLength)
  {
    GroupIndexCorrect(rows);
    var ids, lengths, offsets := RxMessageIds(rows), RxMessageLengths(rows), RxPduLengthOffsets(rows);
    if lengths != [] {
      forall k, i | InGroup(offsets, k, i)
        ensures i < |rows| && 0 < lengths[k] <= rows[i].key.messageLength
          && lengths[k] == rows[offsets[k]].key.messageLength
      {
        assert InGroup(offsets, k, offsets[k]);
        assert rows[i].key.messageId == ids[k] == rows[offsets[k]].key.messageId;
        if offsets[k] < i {
          assert Less(KeysOf(rows)[offsets[k]], KeysOf(rows)[i]);
        }
      }
    }
  }
}
