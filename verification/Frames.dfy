/**
 PDU transport channels: a message is taken only if its length is the configured one. What this means for the
 routings, whose keys have a message length each.
 */
module Frames {
  import opened Results
  import opened Bytes
  import opened BlobFormat
  import opened RoutingTable
  import opened Flatten
  import opened Channels
  import opened Records
  import opened TableReader
  import opened RoundTrip
  import opened Ecu
  import opened EndToEnd
  import R = Router

  /** The message length of the first row of a message id; rows are sorted, so it is the smallest one. */
  function FirstLength(rows: seq<Row>, messageId: int): (length: Option<int>) {
    if rows == [] then None
    else if rows[0].key.messageId == messageId then Some(rows[0].key.messageLength)
    else FirstLength(rows[1..], messageId)
  }

  /** A message passes if some row of its channel has no length, or its length is the first one of its id. */
  predicate Passes(rows: seq<Row>, messageId: int, length: int) {
    AllLengthsPositive(rows) ==> FirstLength(rows, messageId) == Some(length)
  }

  /** What all rows make of one message of a frame. */
  function FrameMessageDeliveries(writers: seq<R.Writer>, source: nat, bufferSize: nat, message: seq<byte>,
      rows: seq<Row>)
    : (ds: seq<R.Delivery>)
    requires |message| >= MESSAGE_HEADER_SIZE
  {
    if !Passes(rows, FromBe32(message[..4]), FromBe32(message[4..8])) then []
    else RowsDeliveries(writers, source, bufferSize, FromBe32(message[..4]), message[MESSAGE_HEADER_SIZE..], rows)
  }

  lemma {:induction false} FirstLengthAt(rows: seq<Row>, messageId: int, i: nat)
    requires i < |rows| && rows[i].key.messageId == messageId
    requires forall j :: 0 <= j < i ==> rows[j].key.messageId != messageId
    ensures FirstLength(rows, messageId) == Some(rows[i].key.messageLength)
  {
    if i != 0 {
      FirstLengthAt(rows[1..], messageId, i - 1);
    }
  }

  /** Entry k of the message lengths is the first length of message id k. */
  lemma {:induction false} LengthOfGroup(rows: seq<Row>, k: nat)
    requires StrictlySorted(KeysOf(rows)) && k < |RxMessageIds(rows)|
    ensures |RxMessageLengths(rows)| == if AllLengthsPositive(rows) then |RxMessageIds(rows)| else 0
    ensures AllLengthsPositive(rows) ==>
              && RxMessageLengths(rows)[k] > 0
              && FirstLength(rows, RxMessageIds(rows)[k]) == Some(RxMessageLengths(rows)[k])
  {
    GroupIndexCorrect(rows);
    var ids, offsets := RxMessageIds(rows), RxPduLengthOffsets(rows);
    assert InGroup(offsets, k, offsets[k]);
    OutsideTheGroup(ids, offsets, rows, k);
    FirstLengthAt(rows, ids[k], offsets[k]);
  }

  /** One message of a frame, on the ECU: exactly the deliveries of its rows, if it passes. */
  lemma {:induction false} FrameMessageDelivered(rt: PduRoutingTable, all: seq<Row>, t: RxAdapterTable, rows: seq<Row>,
      writers: seq<R.Writer>, source: nat, bufferSize: nat, message: seq<byte>)
    requires RoutingMeans(rt, all) && R.RoutingShape(rt) && RxMeans(t, rows) && RowsAt(all, t.firstId, rows)
    requires StrictlySorted(KeysOf(rows)) && |message| >= MESSAGE_HEADER_SIZE
    ensures R.AllRouted(rt, writers, source, PdusWithLength(t, bufferSize, message))
         == FrameMessageDeliveries(writers, source, bufferSize, message, rows)
  {
    hide RoutingMeans, R.RoutingShape, R.AllRouted, RowsDeliveries, RowsAt, GroupPdus, RxMessageIds, RxMessageLengths,
      RxPduLengthOffsets, IsGroupIndex, StrictlySorted, FirstLength, AllLengthsPositive;
    NothingExtracted(rt, writers, source);
    var id := FromBe32(message[..4]);
    var k := IndexOf(t.messageIds, id);
    if k.Some? {
      LengthOfGroup(rows, k.value);
      GroupDelivers(rt, all, t, rows, writers, source, bufferSize, message, k.value);
    } else {
      UnknownIdHasNoRow(RxMessageIds(rows), RxPduLengthOffsets(rows), rows, id);
      OtherRowsDeliverNothing(writers, source, bufferSize, id, message[MESSAGE_HEADER_SIZE..], rows);
    }
  }

  /** What all rows make of a frame: message by message, up to the first byte that no whole message covers. */
  function FrameDeliveries(writers: seq<R.Writer>, source: nat, bufferSize: nat, frame: seq<byte>, rows: seq<Row>)
    : (ds: seq<R.Delivery>)
    decreases |frame|
  {
    if !HasMessage(frame) then []
    else
      var n := MESSAGE_HEADER_SIZE + FromBe32(frame[4..8]);
      FrameMessageDeliveries(writers, source, bufferSize, frame[..n], rows)
      + FrameDeliveries(writers, source, bufferSize, frame[n..], rows)
  }

  lemma {:induction false} PdusOfFrameDeliver(rt: PduRoutingTable, all: seq<Row>, t: RxAdapterTable, rows: seq<Row>,
      writers: seq<R.Writer>, source: nat, bufferSize: nat, frame: seq<byte>)
    requires RoutingMeans(rt, all) && R.RoutingShape(rt) && RxMeans(t, rows) && RowsAt(all, t.firstId, rows)
    requires StrictlySorted(KeysOf(rows))
    ensures R.AllRouted(rt, writers, source, FramePdus(t, bufferSize, frame))
         == FrameDeliveries(writers, source, bufferSize, frame, rows)
    decreases |frame|
  {
    hide RoutingMeans, R.RoutingShape, R.AllRouted, RowsAt, RxMessageIds, RxMessageLengths, RxPduLengthOffsets,
      IsGroupIndex, StrictlySorted, PdusWithLength, FrameMessageDeliveries;
    NothingExtracted(rt, writers, source);
    if HasMessage(frame) {
      var n := MessageSize(frame);
      FrameMessageDelivered(rt, all, t, rows, writers, source, bufferSize, frame[..n]);
      PdusOfFrameDeliver(rt, all, t, rows, writers, source, bufferSize, frame[n..]);
      R.AllRoutedAppend(rt, writers, source, PdusWithLength(t, bufferSize, frame[..n]),
                        FramePdus(t, bufferSize, frame[n..]));
    } else if frame != [] {
      assert MessageSize(frame) == |frame| && frame[|frame|..] == [];
      assert FramePdus(t, bufferSize, frame) == FramePdus(t, bufferSize, []) == [];
    }
  }

  function AllFrameDeliveries(writers: seq<R.Writer>, source: nat, bufferSize: nat, frames: seq<Span>, rows: seq<Row>)
    : (ds: seq<R.Delivery>)
  {
    if frames == [] then []
    else
      FrameDeliveries(writers, source, bufferSize, frames[0].bytes, rows)
      + AllFrameDeliveries(writers, source, bufferSize, frames[1..], rows)
  }

  lemma {:induction false} PdusOfFramesDeliver(rt: PduRoutingTable, all: seq<Row>, t: RxAdapterTable, rows: seq<Row>,
      writers: seq<R.Writer>, source: nat, bufferSize: nat, frames: seq<Span>)
    requires RoutingMeans(rt, all) && R.RoutingShape(rt) && RxMeans(t, rows) && RowsAt(all, t.firstId, rows)
    requires StrictlySorted(KeysOf(rows))
    ensures R.AllRouted(rt, writers, source, AllFramePdus(t, bufferSize, frames))
         == AllFrameDeliveries(writers, source, bufferSize, frames, rows)
  {
    hide RoutingMeans, R.RoutingShape, R.AllRouted, RowsAt, RxMessageIds, RxMessageLengths, RxPduLengthOffsets,
      IsGroupIndex, StrictlySorted, FramePdus, FrameDeliveries;
    if frames == [] {
      NothingExtracted(rt, writers, source);
    } else {
      PdusOfFrameDeliver(rt, all, t, rows, writers, source, bufferSize, frames[0].bytes);
      PdusOfFramesDeliver(rt, all, t, rows, writers, source, bufferSize, frames[1..]);
      R.AllRoutedAppend(rt, writers, source, FramePdus(t, bufferSize, frames[0].bytes),
                        AllFramePdus(t, bufferSize, frames[1..]));
    }
  }

  // ----- Per-row message lengths -----

  /** Row i is used for messages with this id and length: by its own key. */
  predicate WantedBy(rows: seq<Row>, i: nat, messageId: int, length: int)
    requires i < |rows|
  {
    rows[i].key.messageId == messageId && (rows[i].key.messageLength == 0 || rows[i].key.messageLength == length)
  }

  /** Row i is used for messages with this id and length: on the ECU. */
  predicate UsedBy(rows: seq<Row>, i: nat, messageId: int, length: int)
    requires i < |rows|
  {
    rows[i].key.messageId == messageId && Passes(rows, messageId, length)
  }

  ghost predicate LengthDependsOnId(rows: seq<Row>) {
    forall i, j :: 0 <= i < j < |rows| ==>
      rows[i].key.messageId == rows[j].key.messageId ==> rows[i].key.messageLength == rows[j].key.messageLength
  }

  ghost predicate LengthsUniform(rows: seq<Row>) {
    || (forall i :: 0 <= i < |rows| ==> rows[i].key.messageLength == 0)
    || (AllLengthsPositive(rows) && LengthDependsOnId(rows))
  }

  lemma {:induction false} FirstRowOf(rows: seq<Row>, i: nat) returns (f: nat)
    requires i < |rows|
    ensures f <= i && rows[f].key.messageId == rows[i].key.messageId
    ensures FirstLength(rows, rows[i].key.messageId) == Some(rows[f].key.messageLength)
  {
    f := 0;
    while rows[f].key.messageId != rows[i].key.messageId
      invariant f <= i && forall j :: 0 <= j < f ==> rows[j].key.messageId != rows[i].key.messageId
      decreases i - f
    {
      f := f + 1;
    }
    FirstLengthAt(rows, rows[i].key.messageId, f);
  }

  /**
   The ECU uses every row for just the message lengths that the row's key names, if and only if no row of the
   channel has a length, or all have one and it depends on the message id alone.
   */
  lemma {:induction false} LengthsRespectedExactly(rows: seq<Row>)
    requires forall i :: 0 <= i < |rows| ==> rows[i].key.messageLength >= 0
    ensures (forall i: nat, id: int, length: int :: i < |rows| && length >= 0 ==>
               (UsedBy(rows, i, id, length) <==> WantedBy(rows, i, id, length)))
            <==> LengthsUniform(rows)
  {
    if LengthsUniform(rows) {
      forall i: nat, id: int, length: int | i < |rows| && length >= 0
        ensures UsedBy(rows, i, id, length) <==> WantedBy(rows, i, id, length)
      {
        var f := FirstRowOf(rows, i);
      }
    }
    if forall i: nat, id: int, length: int :: i < |rows| && length >= 0 ==>
         (UsedBy(rows, i, id, length) <==> WantedBy(rows, i, id, length)) {
      UniformIfRespected(rows);
    }
  }

  /** A row with a length behind one without: the ECU uses it for messages of any length. */
  lemma {:induction false} LengthIsIgnored(id: int, outputs: seq<Output>)
    ensures var rows := [Row(Key(id, 0, 0, 1), outputs), Row(Key(id, 8, 0, 1), outputs)];
      UsedBy(rows, 1, id, 5) && !WantedBy(rows, 1, id, 5)
  {
  }

  lemma {:induction false} UniformIfRespected(rows: seq<Row>)
    requires forall i :: 0 <= i < |rows| ==> rows[i].key.messageLength >= 0
    requires forall i: nat, id: int, length: int :: i < |rows| && length >= 0 ==>
               (UsedBy(rows, i, id, length) <==> WantedBy(rows, i, id, length))
    ensures LengthsUniform(rows)
  {
    if AllLengthsPositive(rows) {
      forall i, j | 0 <= i < j < |rows| && rows[i].key.messageId == rows[j].key.messageId
        ensures rows[i].key.messageLength == rows[j].key.messageLength
      {
        var id := rows[i].key.messageId;
        assert UsedBy(rows, i, id, rows[i].key.messageLength) <==> WantedBy(rows, i, id, rows[i].key.messageLength);
        assert UsedBy(rows, j, id, rows[j].key.messageLength) <==> WantedBy(rows, j, id, rows[j].key.messageLength);
      }
    } else {
      forall i | 0 <= i < |rows| ensures rows[i].key.messageLength == 0 {
        var id, length := rows[i].key.messageId, rows[i].key.messageLength + 1;
        assert UsedBy(rows, i, id, length) <==> WantedBy(rows, i, id, length);
      }
    }
  }
}
