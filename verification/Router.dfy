/**
 Forwarding extracted PDUs to their destinations (libs/bsw/routing/src/routing/pduRouting.cpp) and the router
 that serves its readers in turn (libs/bsw/routing/include/routing/Router.h).
 */
module Router {
  import opened Results
  import opened Bytes
  import opened SizeT
  import opened TableReader
  import opened Ecu
  import LegacyTx

  /**
   A writer takes every PDU up to its maximum size, and its commit() may reset the ECU if it is a legacy Tx adapter; the
   pointer to it may be null.
   */
  datatype Writer =
    | NoWriter
    | QueueWriter(maxSize: nat)
    | LegacyWriter(maxSize: nat, target: Target, table: TxAdapterTable)
  {
    /** What commit() takes for granted; its indexing is unchecked. */
    predicate Valid(target: Target) {
      LegacyWriter? ==> LegacyTx.Shape(table) && this.target == target && maxSize <= target.Max()
    }

    /** commit() of a PDU with this message id resets the ECU. */
    predicate Resets(messageId: u32) {
      LegacyWriter? && LegacyTx.Shape(table) && LegacyTx.ResetsFor(target, table, messageId)
    }
  }

  ghost predicate WritersValid(target: Target, writers: seq<Writer>) {
    forall c :: 0 <= c < |writers| ==> writers[c].Valid(target)
  }

  /** A PDU that was written: where it came from, the channel it went to, its output message id, and its payload. */
  datatype Delivery = Delivery(source: nat, channel: nat, messageId: int, payload: seq<byte>)

  /** What route() takes for granted about the table; its indexing is unchecked. */
  ghost predicate RoutingShape(t: PduRoutingTable) {
    |t.destinations| == |t.outputMessageIds| && forall g: nat :: DestinationsInRange(t, g)
  }

  /** The destinations of PDU g are a range of the flat vectors. */
  ghost predicate DestinationsInRange(t: PduRoutingTable, g: nat) {
    g + 1 < |t.destinationOffsets| ==> t.destinationOffsets[g] <= t.destinationOffsets[g + 1] <= |t.destinations|
  }

  predicate Accepts(writers: seq<Writer>, channel: nat, size: nat) {
    channel < |writers| && !writers[channel].NoWriter? && size <= writers[channel].maxSize
  }

  /** What outputPdu() is to deliver to destination i: something if there is a writer that has room for it. */
  function Output(t: PduRoutingTable, writers: seq<Writer>, source: nat, payload: seq<byte>, i: nat)
    : (ds: seq<Delivery>)
    requires i < |t.destinations| == |t.outputMessageIds|
  {
    if Accepts(writers, t.destinations[i], MESSAGE_HEADER_SIZE + |payload|)
    then [Delivery(source, t.destinations[i], t.outputMessageIds[i], payload)] else []
  }

  /** The deliveries to the destinations i, ..., end - 1, in order. */
  function Outputs(t: PduRoutingTable, writers: seq<Writer>, source: nat, payload: seq<byte>, i: nat, end: nat)
    : (ds: seq<Delivery>)
    requires i <= end <= |t.destinations| == |t.outputMessageIds|
    decreases end - i
  {
    if i == end then [] else Output(t, writers, source, payload, i) + Outputs(t, writers, source, payload, i + 1, end)
  }

  /** The ids of a table have a successor, which route() computes as a size_t. */
  predicate IdsFit(target: Target, t: RxAdapterTable) {
    t.firstId + |t.pduLengths| <= target.Max()
  }

  predicate Known(t: PduRoutingTable, pdu: Pdu) {
    pdu.id + 1 < |t.destinationOffsets|
  }

  /** All deliveries of one PDU that no writer cuts off by a reset; an unknown PDU is dropped. */
  function Routed(t: PduRoutingTable, writers: seq<Writer>, source: nat, pdu: Pdu): (ds: seq<Delivery>)
    requires RoutingShape(t)
  {
    if !Known(t, pdu) then []
    else
      assert DestinationsInRange(t, pdu.id);
      Outputs(t, writers, source, pdu.payload, t.destinationOffsets[pdu.id], t.destinationOffsets[pdu.id + 1])
  }

  function AllRouted(t: PduRoutingTable, writers: seq<Writer>, source: nat, pdus: seq<Pdu>): (ds: seq<Delivery>)
    requires RoutingShape(t)
  {
    if pdus == [] then [] else Routed(t, writers, source, pdus[0]) + AllRouted(t, writers, source, pdus[1..])
  }

  lemma {:induction false} AllRoutedAppend(t: PduRoutingTable, writers: seq<Writer>, source: nat, a: seq<Pdu>,
      b: seq<Pdu>)
    requires RoutingShape(t)
    ensures AllRouted(t, writers, source, a + b) == AllRouted(t, writers, source, a) + AllRouted(t, writers, source, b)
  {
    hide RoutingShape, Routed;
    if a == [] {
      assert a + b == b;
    } else {
      assert (a + b)[1..] == a[1..] + b;
      AllRoutedAppend(t, writers, source, a[1..], b);
    }
  }

  // ----- Deliveries and resets -----

  /** Deliveries, and whether the ECU is reset afterwards. */
  datatype Prospect = Prospect(deliveries: seq<Delivery>, reset: bool)

  const NO_DELIVERY := Prospect([], false)
  const NO_MORE := Prospect([], true)

  function Plus(a: Prospect, b: Prospect): (p: Prospect) {
    if a.reset then a else Prospect(a.deliveries + b.deliveries, b.reset)
  }

  lemma {:induction false} PlusLaws(a: Prospect, b: Prospect, c: Prospect)
    ensures Plus(Plus(a, b), c) == Plus(a, Plus(b, c))
    ensures Plus(a, NO_DELIVERY) == a && Plus(NO_DELIVERY, a) == a
  {
    assert (a.deliveries + b.deliveries) + c.deliveries == a.deliveries + (b.deliveries + c.deliveries);
    assert a.deliveries + [] == a.deliveries && [] + a.deliveries == a.deliveries;
  }

  /** Destination i has a writer with room for the PDU, and writing resets the ECU. */
  predicate WriteResets(t: PduRoutingTable, writers: seq<Writer>, payload: seq<byte>, i: nat)
    requires i < |t.destinations| == |t.outputMessageIds|
  {
    && Accepts(writers, t.destinations[i], MESSAGE_HEADER_SIZE + |payload|)
    && writers[t.destinations[i]].Resets(t.outputMessageIds[i])
  }

  /** outputPdu() to destination i. */
  function Write(t: PduRoutingTable, writers: seq<Writer>, source: nat, payload: seq<byte>, i: nat): (p: Prospect)
    requires i < |t.destinations| == |t.outputMessageIds|
  {
    if WriteResets(t, writers, payload, i) then NO_MORE else Prospect(Output(t, writers, source, payload, i), false)
  }

  /** The loop of route() over the destinations i, ..., end - 1. */
  function Writes(t: PduRoutingTable, writers: seq<Writer>, source: nat, payload: seq<byte>, i: nat, end: nat)
    : (p: Prospect)
    requires i <= end <= |t.destinations| == |t.outputMessageIds|
    decreases end - i
  {
    if i == end then NO_DELIVERY
    else Plus(Write(t, writers, source, payload, i), Writes(t, writers, source, payload, i + 1, end))
  }

  /** What becomes of one PDU. */
  function Written(t: PduRoutingTable, writers: seq<Writer>, source: nat, pdu: Pdu): (p: Prospect)
    requires RoutingShape(t)
  {
    if !Known(t, pdu) then NO_DELIVERY
    else
      assert DestinationsInRange(t, pdu.id);
      Writes(t, writers, source, pdu.payload, t.destinationOffsets[pdu.id], t.destinationOffsets[pdu.id + 1])
  }

  function AllWritten(t: PduRoutingTable, writers: seq<Writer>, source: nat, pdus: seq<Pdu>): (p: Prospect)
    requires RoutingShape(t)
  {
    if pdus == [] then NO_DELIVERY
    else Plus(Written(t, writers, source, pdus[0]), AllWritten(t, writers, source, pdus[1..]))
  }

  lemma {:induction false} WritesSplit(t: PduRoutingTable, writers: seq<Writer>, source: nat, payload: seq<byte>,
      i: nat, k: nat, end: nat)
    requires i <= k <= end <= |t.destinations| == |t.outputMessageIds|
    ensures Writes(t, writers, source, payload, i, end)
         == Plus(Writes(t, writers, source, payload, i, k), Writes(t, writers, source, payload, k, end))
    decreases k - i
  {
    hide Write, Plus;
    var last := Writes(t, writers, source, payload, k, end);
    PlusLaws(last, last, last);
    if i < k {
      WritesSplit(t, writers, source, payload, i + 1, k, end);
      PlusLaws(Write(t, writers, source, payload, i), Writes(t, writers, source, payload, i + 1, k), last);
    }
  }

  lemma {:induction false} AllWrittenAppend(t: PduRoutingTable, writers: seq<Writer>, source: nat, a: seq<Pdu>,
      b: seq<Pdu>)
    requires RoutingShape(t)
    ensures AllWritten(t, writers, source, a + b)
         == Plus(AllWritten(t, writers, source, a), AllWritten(t, writers, source, b))
  {
    hide RoutingShape, Written, Plus;
    var last := AllWritten(t, writers, source, b);
    PlusLaws(last, last, last);
    if a == [] {
      assert a + b == b;
    } else {
      assert (a + b)[1..] == a[1..] + b;
      AllWrittenAppend(t, writers, source, a[1..], b);
      PlusLaws(Written(t, writers, source, a[0]), AllWritten(t, writers, source, a[1..]), last);
    }
  }

  /** Short of a reset, everything is delivered; and there is one exactly if some destination resets. */
  lemma {:induction false} WritesAgree(t: PduRoutingTable, writers: seq<Writer>, source: nat, payload: seq<byte>,
      i: nat, end: nat)
    requires i <= end <= |t.destinations| == |t.outputMessageIds|
    ensures var p := Writes(t, writers, source, payload, i, end);
      && (!p.reset ==> p.deliveries == Outputs(t, writers, source, payload, i, end))
      && (p.reset <==> exists j :: i <= j < end && WriteResets(t, writers, payload, j))
    decreases end - i
  {
    hide Output, WriteResets;
    if i < end {
      WritesAgree(t, writers, source, payload, i + 1, end);
    }
  }

  /** The PDU has a destination that resets the ECU. */
  ghost predicate PduResets(t: PduRoutingTable, writers: seq<Writer>, pdu: Pdu)
    requires RoutingShape(t)
  {
    && Known(t, pdu)
    && DestinationsInRange(t, pdu.id)
    && exists i :: t.destinationOffsets[pdu.id] <= i < t.destinationOffsets[pdu.id + 1]
         && WriteResets(t, writers, pdu.payload, i)
  }

  lemma {:induction false} WrittenAgrees(t: PduRoutingTable, writers: seq<Writer>, source: nat, pdu: Pdu)
    requires RoutingShape(t)
    ensures var p := Written(t, writers, source, pdu);
      && (!p.reset ==> p.deliveries == Routed(t, writers, source, pdu))
      && (p.reset <==> PduResets(t, writers, pdu))
  {
    hide Writes, Outputs, WriteResets;
    assert DestinationsInRange(t, pdu.id);
    if Known(t, pdu) {
      WritesAgree(t, writers, source, pdu.payload, t.destinationOffsets[pdu.id], t.destinationOffsets[pdu.id + 1]);
    }
  }

  lemma {:induction false} AllWrittenAgrees(t: PduRoutingTable, writers: seq<Writer>, source: nat, pdus: seq<Pdu>)
    requires RoutingShape(t)
    ensures var p := AllWritten(t, writers, source, pdus);
      && (!p.reset ==> p.deliveries == AllRouted(t, writers, source, pdus))
      && (p.reset <==> exists pdu :: pdu in pdus && PduResets(t, writers, pdu))
  {
    hide RoutingShape, Written, Routed, PduResets;
    if pdus != [] {
      WrittenAgrees(t, writers, source, pdus[0]);
      AllWrittenAgrees(t, writers, source, pdus[1..]);
      assert pdus == [pdus[0]] + pdus[1..];
    }
  }

  // ----- Who gets a PDU -----

  /** The destination has a writer, of either kind, that takes an id, a length and the payload. */
  ghost predicate Takes(t: PduRoutingTable, writers: seq<Writer>, payload: seq<byte>, i: nat)
    requires i < |t.destinations|
  {
    t.destinations[i] < |writers| &&
    match writers[t.destinations[i]]
    case NoWriter => false
    case QueueWriter(maxSize) => 8 + |payload| <= maxSize
    case LegacyWriter(maxSize, _, _) => 8 + |payload| <= maxSize
  }

  /** Entry k, the first one for this id, has a place for the payload in a message whose size exceeds a size_t. */
  ghost predicate HasNoSize(target: Target, t: TxAdapterTable, id: u32, k: nat) {
    && LegacyTx.Shape(t) && k < |t.messageIds| && t.messageIds[k] == id
    && (forall q :: 0 <= q < k ==> t.messageIds[q] != id)
    && 8 + t.messageLengths[k] > target.Max() && t.pduOffsets[k] < t.messageLengths[k]
  }

  /** The destination is a legacy channel that takes the PDU and resets the ECU over it. */
  ghost predicate Breaks(t: PduRoutingTable, writers: seq<Writer>, payload: seq<byte>, i: nat)
    requires i < |t.destinations| == |t.outputMessageIds|
  {
    Takes(t, writers, payload, i) &&
    match writers[t.destinations[i]]
    case NoWriter => false
    case QueueWriter(_) => false
    case LegacyWriter(_, target, table) => exists k: nat :: HasNoSize(target, table, t.outputMessageIds[i], k)
  }

  /** A destination gets the PDU, under its own message id, if and only if it takes it and does not break. */
  lemma {:induction false} WriteExactly(t: PduRoutingTable, writers: seq<Writer>, source: nat, payload: seq<byte>,
      i: nat)
    requires i < |t.destinations| == |t.outputMessageIds|
    ensures var p := Write(t, writers, source, payload, i);
      && (p.reset <==> Breaks(t, writers, payload, i))
      && p.deliveries
         == if Takes(t, writers, payload, i) && !Breaks(t, writers, payload, i)
            then [Delivery(source, t.destinations[i], t.outputMessageIds[i], payload)] else []
  {
    if Takes(t, writers, payload, i) && writers[t.destinations[i]].LegacyWriter? {
      var w := writers[t.destinations[i]];
      if LegacyTx.Shape(w.table) {
        FirstDecides(w.target, w.table, t.outputMessageIds[i]);
      }
    }
  }

  lemma {:induction false} FirstDecides(target: Target, t: TxAdapterTable, id: u32)
    requires LegacyTx.Shape(t)
    ensures LegacyTx.ResetsFor(target, t, id) <==> exists k: nat :: HasNoSize(target, t, id, k)
  {
    var f := IndexOf(t.messageIds, id);
    if f.Some? {
      forall q | 0 <= q < f.value ensures t.messageIds[q] != id {
        if t.messageIds[q] == id {
          LegacyTx.IndexOfIsFirst(t.messageIds, q);
        }
      }
      assert LegacyTx.ResetsFor(target, t, id) ==> HasNoSize(target, t, id, f.value);
    }
    forall k: nat | HasNoSize(target, t, id, k) ensures f == Some(k) {
      LegacyTx.IndexOfIsFirst(t.messageIds, k);
    }
  }

  /** How many of the destinations i, ..., end - 1 take the PDU. */
  ghost function Takers(t: PduRoutingTable, writers: seq<Writer>, payload: seq<byte>, i: nat, end: nat): (n: nat)
    requires i <= end <= |t.destinations|
    decreases end - i
  {
    if i == end then 0
    else (if Takes(t, writers, payload, i) then 1 else 0) + Takers(t, writers, payload, i + 1, end)
  }

  /** These deliveries are one for each of the destinations i, ..., end - 1 that takes the PDU, in order. */
  ghost predicate OneEach(t: PduRoutingTable, writers: seq<Writer>, source: nat, payload: seq<byte>, i: nat, end: nat,
      ds: seq<Delivery>)
    requires i <= end <= |t.destinations| == |t.outputMessageIds|
  {
    && |ds| == Takers(t, writers, payload, i, end)
    && forall j :: i <= j < end && Takes(t, writers, payload, j) ==>
         var rank := Takers(t, writers, payload, i, j);
         rank < |ds| && ds[rank] == Delivery(source, t.destinations[j], t.outputMessageIds[j], payload)
  }

  /**
   The loop over the destinations: up to the first one that breaks, every destination that takes the PDU gets it exactly
   once, under its own message id, and no other destination gets anything.
   */
  lemma {:induction false} WritesExactly(t: PduRoutingTable, writers: seq<Writer>, source: nat, payload: seq<byte>,
      i: nat, end: nat) returns (stop: nat)
    requires i <= end <= |t.destinations| == |t.outputMessageIds|
    ensures i <= stop <= end && (forall j :: i <= j < stop ==> !Breaks(t, writers, payload, j))
    ensures stop < end ==> Breaks(t, writers, payload, stop)
    ensures Writes(t, writers, source, payload, i, end).reset <==> stop < end
    ensures OneEach(t, writers, source, payload, i, stop, Writes(t, writers, source, payload, i, end).deliveries)
    decreases end - i
  {
    hide Takes, Breaks, Write;
    stop := i;
    if i < end {
      WriteExactly(t, writers, source, payload, i);
      if !Breaks(t, writers, payload, i) {
        stop := WritesExactly(t, writers, source, payload, i + 1, end);
      }
    }
  }

  /** What becomes of a PDU: an unknown one is dropped, a known one goes to the destinations of its range. */
  lemma {:induction false} PduServedExactly(t: PduRoutingTable, writers: seq<Writer>, source: nat, pdu: Pdu)
    returns (stop: nat)
    requires RoutingShape(t)
    ensures pdu.id + 1 >= |t.destinationOffsets| ==> Written(t, writers, source, pdu) == Prospect([], false)
    ensures pdu.id + 1 < |t.destinationOffsets| ==>
      var start, end := t.destinationOffsets[pdu.id], t.destinationOffsets[pdu.id + 1];
      && start <= stop <= end <= |t.destinations|
      && (forall j :: start <= j < stop ==> !Breaks(t, writers, pdu.payload, j))
      && (stop < end ==> Breaks(t, writers, pdu.payload, stop))
      && (Written(t, writers, source, pdu).reset <==> stop < end)
      && OneEach(t, writers, source, pdu.payload, start, stop, Written(t, writers, source, pdu).deliveries)
  {
    hide Writes, OneEach, Breaks;
    stop := 0;
    if Known(t, pdu) {
      assert DestinationsInRange(t, pdu.id);
      stop := WritesExactly(t, writers, source, pdu.payload, t.destinationOffsets[pdu.id],
                            t.destinationOffsets[pdu.id + 1]);
    }
  }

  /** A PDU that goes to a queue: with room for it, it arrives there. */
  lemma {:induction false} QueueGetsPdu(payload: Payload)
    requires |payload| == 8
    ensures var t, writers := PduRoutingTable([0, 1], [256], [1]), [NoWriter, QueueWriter(64)];
      RoutingShape(t) && Written(t, writers, 0, Pdu(0, payload)) == Prospect([Delivery(0, 1, 256, payload)], false)
  {
    var t, writers := PduRoutingTable([0, 1], [256], [1]), [NoWriter, QueueWriter(64)];
    WriteExactly(t, writers, 0, payload, 0);
    assert DestinationsInRange(t, 0);
    hide Write;
    WritesStep(t, writers, 0, payload, 0, 1);
    WritesStep(t, writers, 0, payload, 1, 1);
  }

  // ----- What is to come -----

  /** What a future of channel k leads to. */
  function Led(t: PduRoutingTable, writers: seq<Writer>, k: nat, f: Future): (p: Prospect)
    requires RoutingShape(t)
  {
    Plus(AllWritten(t, writers, k, f.pdus), Prospect([], f.reset))
  }

  lemma {:induction false} LedThen(t: PduRoutingTable, writers: seq<Writer>, k: nat, a: Future, b: Future)
    requires RoutingShape(t)
    ensures Led(t, writers, k, Then(a, b)) == Plus(Led(t, writers, k, a), Led(t, writers, k, b))
    ensures Led(t, writers, k, NOTHING) == NO_DELIVERY && Led(t, writers, k, RESET) == NO_MORE
  {
    hide AllWritten, RoutingShape;
    NothingWritten(t, writers, k);
    AllWrittenAppend(t, writers, k, a.pdus, b.pdus);
    var p, q := AllWritten(t, writers, k, a.pdus), AllWritten(t, writers, k, b.pdus);
    ThenPlus(p, a.reset, q, b.reset);
  }

  lemma {:induction false} NothingWritten(t: PduRoutingTable, writers: seq<Writer>, k: nat)
    requires RoutingShape(t)
    ensures AllWritten(t, writers, k, []) == NO_DELIVERY
  {
  }

  lemma {:induction false} ThenPlus(p: Prospect, pReset: bool, q: Prospect, qReset: bool)
    ensures Plus(Plus(p, Prospect([], pReset)), Plus(q, Prospect([], qReset)))
         == if pReset then Plus(p, Prospect([], true)) else Plus(Plus(p, q), Prospect([], qReset))
  {
    PlusLaws(p, q, Prospect([], qReset));
  }

  /** A future leads to a reset if and only if it ends with one, or some PDU resets the ECU when it is written. */
  lemma {:induction false} LedToReset(t: PduRoutingTable, writers: seq<Writer>, k: nat, f: Future)
    requires RoutingShape(t)
    ensures var p := Led(t, writers, k, f);
      && (p.reset <==> f.reset || exists pdu :: pdu in f.pdus && PduResets(t, writers, pdu))
      && (!p.reset ==> p.deliveries == AllRouted(t, writers, k, f.pdus))
  {
    hide RoutingShape, AllWritten, AllRouted, PduResets;
    AllWrittenAgrees(t, writers, k, f.pdus);
    assert AllWritten(t, writers, k, f.pdus).deliveries + [] == AllWritten(t, writers, k, f.pdus).deliveries;
  }

  // ----- One PDU -----

  /** The PDU in front has a route. */
  predicate Ready(t: PduRoutingTable, f: Future) {
    f.pdus != [] && Known(t, f.pdus[0])
  }

  /** What becomes of the PDU in front. */
  function Served(t: PduRoutingTable, writers: seq<Writer>, source: nat, f: Future): (p: Prospect)
    requires RoutingShape(t)
  {
    if f.pdus == [] then NO_DELIVERY else Written(t, writers, source, f.pdus[0])
  }

  /** What is left behind the PDU in front. */
  function Behind(f: Future): (f': Future) {
    Future(if f.pdus == [] then [] else f.pdus[1..], f.reset)
  }

  /** The deliveries that came from one channel. */
  function From(log: seq<Delivery>, source: nat): (ds: seq<Delivery>) {
    if log == [] then []
    else
      var init, last := From(log[..|log| - 1], source), log[|log| - 1];
      if last.source == source then init + [last] else init
  }

  lemma {:induction false} FromAppend(a: seq<Delivery>, b: seq<Delivery>, source: nat)
    ensures From(a + b, source) == From(a, source) + From(b, source)
    decreases |b|
  {
    if b == [] {
      assert a + b == a;
    } else {
      var n := |b| - 1;
      assert (a + b)[..|a + b| - 1] == a + b[..n];
      FromAppend(a, b[..n], source);
    }
  }

  /** Deliveries that all come from `channel`, or all do not. */
  ghost predicate AllFrom(ds: seq<Delivery>, channel: nat, mine: bool) {
    From(ds, channel) == if mine then ds else []
  }

  lemma {:induction false} AllFromAppend(a: seq<Delivery>, b: seq<Delivery>, channel: nat, mine: bool)
    requires AllFrom(a, channel, mine) && AllFrom(b, channel, mine)
    ensures AllFrom(a + b, channel, mine)
  {
    hide From;
    FromAppend(a, b, channel);
  }

  lemma {:induction false} FromWrite(t: PduRoutingTable, writers: seq<Writer>, source: nat, payload: seq<byte>,
      i: nat, channel: nat)
    requires i < |t.destinations| == |t.outputMessageIds|
    ensures AllFrom(Write(t, writers, source, payload, i).deliveries, channel, channel == source)
  {
    hide Accepts, WriteResets;
    assert From([], channel) == [];
  }

  lemma {:induction false} WritesStep(t: PduRoutingTable, writers: seq<Writer>, source: nat, payload: seq<byte>,
      i: nat, end: nat)
    requires i <= end <= |t.destinations| == |t.outputMessageIds|
    ensures Writes(t, writers, source, payload, i, end)
         == if i == end then NO_DELIVERY
            else Plus(Write(t, writers, source, payload, i), Writes(t, writers, source, payload, i + 1, end))
  {
  }

  lemma {:induction false} NothingIsFrom(channel: nat, mine: bool)
    ensures AllFrom(NO_DELIVERY.deliveries, channel, mine)
  {
  }

  lemma {:induction false} AllFromPlus(a: Prospect, b: Prospect, channel: nat, mine: bool)
    requires AllFrom(a.deliveries, channel, mine) && AllFrom(b.deliveries, channel, mine)
    ensures AllFrom(Plus(a, b).deliveries, channel, mine)
  {
    hide AllFrom;
    AllFromAppend(a.deliveries, b.deliveries, channel, mine);
  }

  lemma {:induction false} FromWrites(t: PduRoutingTable, writers: seq<Writer>, source: nat, payload: seq<byte>,
      i: nat, end: nat, channel: nat)
    requires i <= end <= |t.destinations| == |t.outputMessageIds|
    ensures AllFrom(Writes(t, writers, source, payload, i, end).deliveries, channel, channel == source)
    decreases end - i
  {
    hide *;
    WritesStep(t, writers, source, payload, i, end);
    if i == end {
      NothingIsFrom(channel, channel == source);
    } else {
      FromWrite(t, writers, source, payload, i, channel);
      FromWrites(t, writers, source, payload, i + 1, end, channel);
      AllFromPlus(Write(t, writers, source, payload, i), Writes(t, writers, source, payload, i + 1, end), channel,
                  channel == source);
    }
  }

  lemma {:induction false} FromServed(t: PduRoutingTable, writers: seq<Writer>, source: nat, f: Future,
      log: seq<Delivery>, channel: nat)
    requires RoutingShape(t)
    ensures From(log + Served(t, writers, source, f).deliveries, channel)
         == From(log, channel) + if channel == source then Served(t, writers, source, f).deliveries else []
  {
    FromAppend(log, Served(t, writers, source, f).deliveries, channel);
    if f.pdus != [] && Known(t, f.pdus[0]) {
      var g := f.pdus[0].id;
      assert DestinationsInRange(t, g);
      FromWrites(t, writers, source, f.pdus[0].payload, t.destinationOffsets[g], t.destinationOffsets[g + 1], channel);
    }
  }

  /** What a future leads to is what becomes of the PDU in front, and of the rest. */
  lemma {:induction false} LedFront(t: PduRoutingTable, writers: seq<Writer>, k: nat, f: Future)
    requires RoutingShape(t)
    ensures Led(t, writers, k, f) == Plus(Served(t, writers, k, f), Led(t, writers, k, Behind(f)))
    ensures !Ready(t, f) ==> Served(t, writers, k, f) == NO_DELIVERY
  {
    var last := Prospect([], f.reset);
    if f.pdus == [] {
      PlusLaws(Led(t, writers, k, f), last, last);
    } else {
      PlusLaws(Written(t, writers, k, f.pdus[0]), AllWritten(t, writers, k, f.pdus[1..]), last);
    }
  }

  /** What is left of a future once the PDU in front has been served: nothing after a reset. */
  function AfterService(p: Prospect, f: Future): (f': Future) {
    if p.reset then RESET else Behind(f)
  }

  /** Past and future of a channel: its deliveries in the log, and what its queue leads to. */
  function View(t: PduRoutingTable, writers: seq<Writer>, log: seq<Delivery>, k: nat, f: Future): (p: Prospect)
    requires RoutingShape(t)
  {
    Plus(Prospect(From(log, k), false), Led(t, writers, k, f))
  }

  /** Serving a channel moves deliveries from its future to its past; no other channel is touched. */
  lemma {:induction false} ServingConserves(t: PduRoutingTable, writers: seq<Writer>, source: nat, f: Future,
      log: seq<Delivery>, k: nat, pending: Future)
    requires RoutingShape(t) && (k == source ==> pending == f)
    ensures var p := Served(t, writers, source, f);
      View(t, writers, log + p.deliveries, k, if k == source then AfterService(p, f) else pending)
      == View(t, writers, log, k, pending)
  {
    var p := Served(t, writers, source, f);
    FromServed(t, writers, source, f, log, k);
    hide From, RoutingShape, Served;
    if k == source {
      LedFront(t, writers, k, f);
      LedThen(t, writers, k, RESET, RESET);
      hide Led;
      MovedToPast(From(log, k), p, Led(t, writers, k, Behind(f)));
    }
  }

  lemma {:induction false} MovedToPast(past: seq<Delivery>, p: Prospect, rest: Prospect)
    ensures Plus(Prospect(past, false), Plus(p, rest))
         == Plus(Prospect(past + p.deliveries, false), if p.reset then NO_MORE else rest)
  {
    assert past + (p.deliveries + rest.deliveries) == (past + p.deliveries) + rest.deliveries;
  }

  // ----- Taking turns -----

  /** The channel that is served j turns after channel `start`, of n channels. */
  function Turn(start: nat, j: nat, n: nat): (c: nat)
    requires start < n && j <= n
    ensures c < n
  {
    if start + j < n then start + j else start + j - n
  }

  /** How many turns after channel `start` channel k is served. */
  function Distance(start: nat, k: nat, n: nat): (j: nat)
    requires start < n && k < n
    ensures j < n && Turn(start, j, n) == k
  {
    if k < start then k + n - start else k - start
  }

  /** A channel at which a round does more than drop a PDU: it is served, or the ECU is reset. */
  predicate Stops(t: PduRoutingTable, f: Future) {
    Ready(t, f) || f == RESET
  }

  /** The first turn from i on that stops, or the number of channels. */
  function FirstStop(t: PduRoutingTable, qs: seq<Future>, start: nat, i: nat): (j: nat)
    requires start < |qs| && i <= |qs|
    ensures i <= j <= |qs|
    decreases |qs| - i
  {
    if i == |qs| || Stops(t, qs[Turn(start, i, |qs|)]) then i else FirstStop(t, qs, start, i + 1)
  }

  /** The queues after `i` turns: each channel that was asked has lost the PDU in front. */
  function AfterTurns(qs: seq<Future>, start: nat, i: nat): (qs': seq<Future>)
    requires start < |qs| && i <= |qs|
    ensures |qs'| == |qs|
  {
    seq(|qs|, k requires 0 <= k < |qs| => if Distance(start, k, |qs|) < i then Behind(qs[k]) else qs[k])
  }

  lemma {:induction false} FirstStopIsFirst(t: PduRoutingTable, qs: seq<Future>, start: nat, i: nat, k: nat)
    requires start < |qs| && k < |qs| && i <= Distance(start, k, |qs|)
    ensures Distance(start, k, |qs|) < FirstStop(t, qs, start, i) ==> !Stops(t, qs[k])
    ensures Distance(start, k, |qs|) == FirstStop(t, qs, start, i) ==> Stops(t, qs[k])
    decreases |qs| - i
  {
    if i < Distance(start, k, |qs|) && FirstStop(t, qs, start, i) != i {
      FirstStopIsFirst(t, qs, start, i + 1, k);
    }
  }

  lemma {:induction false} OneMoreTurn(qs: seq<Future>, start: nat, i: nat)
    requires start < |qs| && i < |qs|
    ensures var c := Turn(start, i, |qs|);
      && AfterTurns(qs, start, 0) == qs && AfterTurns(qs, start, i)[c] == qs[c]
      && AfterTurns(qs, start, i + 1) == AfterTurns(qs, start, i)[c := Behind(qs[c])]
  {
  }

  /** What is known of a channel: all deliveries from it, past and to come, and whether a reset follows. */
  function Outlook(t: PduRoutingTable, writers: seq<Writer>, s: Snapshot, k: nat): (p: Prospect)
    requires RoutingShape(t) && k < |s.queues|
  {
    View(t, writers, s.log, k, s.queues[k])
  }

  /** What there is to know about a router: its log, what its readers will hand out, whose turn it is, and its end. */
  datatype Snapshot = Snapshot(log: seq<Delivery>, queues: seq<Future>, current: nat, reset: bool)
  {
    predicate Valid() {
      queues == [] || current < |queues|
    }
  }

  /** A reset while channel c is served: it is the end of that channel, too. */
  function CutOff(log: seq<Delivery>, queues: seq<Future>, c: nat): (s': Snapshot)
    requires c < |queues|
  {
    Snapshot(log, queues[c := RESET], c, true)
  }

  /** One round of the loop of run(): the current channel loses its PDU in front, which is delivered if it can be. */
  function AfterAttempt(t: PduRoutingTable, writers: seq<Writer>, s: Snapshot): (s': Snapshot)
    requires RoutingShape(t) && s.current < |s.queues|
  {
    var f := s.queues[s.current];
    var p := Served(t, writers, s.current, f);
    if f == RESET then s.(reset := true)
    else if p.reset then CutOff(s.log + p.deliveries, s.queues, s.current)
    else
      Snapshot(s.log + p.deliveries, s.queues[s.current := Behind(f)], Turn(s.current, 1, |s.queues|), s.reset)
  }

  /** After i rounds in which no channel stopped. */
  function AfterIdle(s: Snapshot, i: nat): (s': Snapshot)
    requires s.current < |s.queues| && i <= |s.queues|
  {
    Snapshot(s.log, AfterTurns(s.queues, s.current, i), Turn(s.current, i, |s.queues|), s.reset)
  }

  /** After one call of run(): the first channel that is ready is served, unless a reset comes first. */
  function AfterRun(t: PduRoutingTable, writers: seq<Writer>, s: Snapshot): (s': Snapshot)
    requires RoutingShape(t) && s.Valid()
  {
    if s.queues == [] || s.reset then s
    else
      var n, j := |s.queues|, FirstStop(t, s.queues, s.current, 0);
      if j == n then AfterIdle(s, n)
      else
        var c := Turn(s.current, j, n);
        var p := Served(t, writers, c, s.queues[c]);
        if s.queues[c] == RESET then AfterIdle(s, j).(reset := true)
        else if p.reset then CutOff(s.log + p.deliveries, AfterTurns(s.queues, s.current, j), c)
        else
          Snapshot(s.log + p.deliveries, AfterTurns(s.queues, s.current, j + 1), Turn(s.current, j + 1, n), s.reset)
  }

  lemma {:induction false} NotReadyNotServed(t: PduRoutingTable, writers: seq<Writer>, c: nat, f: Future)
    requires RoutingShape(t)
    ensures !Ready(t, f) ==> Served(t, writers, c, f) == NO_DELIVERY
    ensures f.pdus != [] ==> Served(t, writers, c, f) == Written(t, writers, c, f.pdus[0])
  {
  }

  lemma {:induction false} AttemptAfterIdle(t: PduRoutingTable, writers: seq<Writer>, s: Snapshot, i: nat)
    requires RoutingShape(t) && s.current < |s.queues| && i < |s.queues| && !s.reset
    ensures AfterIdle(s, 0) == s && AfterIdle(s, i).current < |AfterIdle(s, i).queues| == |s.queues|
    ensures var s', c := AfterIdle(s, i), Turn(s.current, i, |s.queues|);
      && s'.current == c && s'.queues[c] == s.queues[c] && !s'.reset
      && FirstStop(t, s.queues, s.current, i)
         == (if Stops(t, s.queues[c]) then i else FirstStop(t, s.queues, s.current, i + 1))
      && (Stops(t, s.queues[c]) <==> Ready(t, s.queues[c]) || AfterAttempt(t, writers, s').reset)
      && (!Stops(t, s.queues[c]) ==> AfterAttempt(t, writers, s') == AfterIdle(s, i + 1))
      && (Stops(t, s.queues[c]) && FirstStop(t, s.queues, s.current, 0) == i ==>
            AfterAttempt(t, writers, s') == AfterRun(t, writers, s))
  {
    var c := Turn(s.current, i, |s.queues|);
    NotReadyNotServed(t, writers, c, s.queues[c]);
    hide RoutingShape, Served, Ready;
    OneMoreTurn(s.queues, s.current, i);
    assert s.log + [] == s.log;
  }

  lemma {:induction false} NobodyServed(t: PduRoutingTable, writers: seq<Writer>, s: Snapshot)
    requires RoutingShape(t) && s.current < |s.queues| && !s.reset
    requires FirstStop(t, s.queues, s.current, 0) == FirstStop(t, s.queues, s.current, |s.queues|)
    ensures AfterRun(t, writers, s) == AfterIdle(s, |s.queues|) && !AfterRun(t, writers, s).reset
    ensures FirstStop(t, s.queues, s.current, 0) == |s.queues|
  {
  }

  lemma {:induction false} NotReadyNothingLed(t: PduRoutingTable, writers: seq<Writer>, k: nat, f: Future)
    requires RoutingShape(t) && !Ready(t, f)
    ensures Led(t, writers, k, Behind(f)) == Led(t, writers, k, f)
  {
    LedFront(t, writers, k, f);
    hide Led, Served, RoutingShape;
    PlusLaws(Led(t, writers, k, Behind(f)), NO_DELIVERY, NO_DELIVERY);
  }

  /** Conservation: a run moves deliveries from the future of a channel to its past, and loses none. */
  lemma {:induction false} RunConserves(t: PduRoutingTable, writers: seq<Writer>, s: Snapshot, k: nat)
    requires RoutingShape(t) && s.Valid() && k < |s.queues|
    ensures AfterRun(t, writers, s).Valid() && |AfterRun(t, writers, s).queues| == |s.queues|
    ensures Outlook(t, writers, AfterRun(t, writers, s), k) == Outlook(t, writers, s, k)
  {
    hide From, Led, Plus, Served, Ready, RoutingShape;
    if !s.reset {
      var qs, j := s.queues, FirstStop(t, s.queues, s.current, 0);
      FirstStopIsFirst(t, qs, s.current, 0, k);
      if j < |qs| {
        var c := Turn(s.current, j, |qs|);
        ServingConserves(t, writers, c, qs[c], s.log, k, qs[k]);
      }
      if Distance(s.current, k, |qs|) < j {
        NotReadyNothingLed(t, writers, k, qs[k]);
      }
    }
  }

  /**
   Bounded waiting, step by step: a run serves a channel that is ready, or brings its turn closer and leaves its queue
   alone, or resets the ECU.
   */
  lemma {:induction false} ReadyChannelIsServedSoon(t: PduRoutingTable, writers: seq<Writer>, s: Snapshot, k: nat)
    requires RoutingShape(t) && s.Valid() && !s.reset && k < |s.queues| && Ready(t, s.queues[k])
    ensures var s' := AfterRun(t, writers, s);
      && s'.Valid() && |s'.queues| == |s.queues|
      && (|| s'.reset
          || (s'.log == s.log + Served(t, writers, k, s.queues[k]).deliveries && s'.queues[k] == Behind(s.queues[k]))
          || (Distance(s'.current, k, |s.queues|) < Distance(s.current, k, |s.queues|) && s'.queues[k] == s.queues[k]))
  {
    hide Served;
    FirstStopIsFirst(t, s.queues, s.current, 0, k);
  }

  function AfterRuns(t: PduRoutingTable, writers: seq<Writer>, s: Snapshot, m: nat): (s': Snapshot)
    requires RoutingShape(t) && s.Valid()
    ensures s'.Valid() && |s'.queues| == |s.queues|
  {
    if m == 0 then s
    else
      var before := AfterRuns(t, writers, s, m - 1);
      AfterRun(t, writers, before)
  }

  lemma {:induction false} RunsAfterRun(t: PduRoutingTable, writers: seq<Writer>, s: Snapshot, m: nat)
    requires RoutingShape(t) && s.Valid()
    ensures AfterRun(t, writers, s).Valid()
    ensures AfterRuns(t, writers, AfterRun(t, writers, s), m) == AfterRuns(t, writers, s, m + 1)
  {
    hide AfterRun, RoutingShape;
    assert AfterRuns(t, writers, s, 1) == AfterRun(t, writers, AfterRuns(t, writers, s, 0));
    if m > 0 {
      RunsAfterRun(t, writers, s, m - 1);
    }
  }

  /** The run after the m-th one serves channel k with what `f` has in front, or resets the ECU. */
  ghost predicate ServedAfter(t: PduRoutingTable, writers: seq<Writer>, s: Snapshot, m: nat, k: nat, f: Future)
    requires RoutingShape(t) && s.Valid() && k < |s.queues|
  {
    var before, after := AfterRuns(t, writers, s, m), AfterRuns(t, writers, s, m + 1);
    after.reset || (after.log == before.log + Served(t, writers, k, f).deliveries && after.queues[k] == Behind(f))
  }

  lemma {:induction false} ServedAtOnce(t: PduRoutingTable, writers: seq<Writer>, s: Snapshot, k: nat, f: Future)
    requires RoutingShape(t) && s.Valid() && k < |s.queues|
    ensures var s' := AfterRun(t, writers, s);
      && s'.Valid() && |s'.queues| == |s.queues|
      && (ServedAfter(t, writers, s, 0, k, f)
          <==> s'.reset || (s'.log == s.log + Served(t, writers, k, f).deliveries && s'.queues[k] == Behind(f)))
  {
    hide AfterRun, RoutingShape, Served;
    assert AfterRuns(t, writers, s, 0) == s;
    assert AfterRuns(t, writers, s, 1) == AfterRun(t, writers, AfterRuns(t, writers, s, 0));
  }

  lemma {:induction false} ServedOneLater(t: PduRoutingTable, writers: seq<Writer>, s: Snapshot, m: nat, k: nat,
      f: Future)
    requires RoutingShape(t) && s.Valid() && k < |s.queues|
    ensures AfterRun(t, writers, s).Valid() && |AfterRun(t, writers, s).queues| == |s.queues|
    ensures ServedAfter(t, writers, AfterRun(t, writers, s), m, k, f) <==> ServedAfter(t, writers, s, m + 1, k, f)
  {
    ServedAtOnce(t, writers, s, k, f);
    hide AfterRun, AfterRuns, RoutingShape, Served;
    RunsAfterRun(t, writers, s, m);
    RunsAfterRun(t, writers, s, m + 1);
  }

  /** Bounded waiting: of n channels, one that is ready is served within n runs, unless the ECU is reset before. */
  lemma {:induction false} ReadyChannelIsServed(t: PduRoutingTable, writers: seq<Writer>, s: Snapshot, k: nat)
    returns (m: nat)
    requires RoutingShape(t) && s.Valid() && !s.reset && k < |s.queues| && Ready(t, s.queues[k])
    ensures m <= Distance(s.current, k, |s.queues|) < |s.queues|
    ensures ServedAfter(t, writers, s, m, k, s.queues[k])
    decreases Distance(s.current, k, |s.queues|)
  {
    hide AfterRun, AfterRuns, RoutingShape, Served, Ready, ServedAfter, Distance;
    ReadyChannelIsServedSoon(t, writers, s, k);
    ServedAtOnce(t, writers, s, k, s.queues[k]);
    m := 0;
    if !ServedAfter(t, writers, s, 0, k, s.queues[k]) {
      var m' := ReadyChannelIsServed(t, writers, AfterRun(t, writers, s), k);
      ServedOneLater(t, writers, s, m', k, s.queues[k]);
      m := m' + 1;
    }
  }

  // ----- Readers -----

  /** io::IReader, as the router uses it: what stands behind the pointer. */
  datatype Reader = NoReader | MessageReader(messages: RxAdapter) | FrameReader(frames: PduTransportRxAdapter)
  {
    ghost function Footprint(): (objects: set<object>) {
      match this
      case NoReader => {}
      case MessageReader(a) => {a}
      case FrameReader(a) => {a}
    }

    /** The ids of its table suit the router of a target. */
    ghost predicate Valid(target: Target)
      reads Footprint()
    {
      match this
      case NoReader => true
      case MessageReader(a) => a.Valid() && IdsFit(target, a.table)
      case FrameReader(a) => a.Valid() && IdsFit(target, a.table)
    }

    ghost function Pending(target: Target): (f: Future)
      requires Valid(target)
      reads Footprint()
    {
      match this
      case NoReader => NOTHING
      case MessageReader(a) => a.Pending()
      case FrameReader(a) => a.Pending()
    }

    /** What an arriving message or frame adds. */
    ghost function Incoming(target: Target, span: seq<byte>): (f: Future)
      requires Valid(target)
      reads Footprint()
    {
      match this
      case NoReader => NOTHING
      case MessageReader(a) => SpanFuture(Messages, a.target, a.table, a.bufferSize, span)
      case FrameReader(a) => SpanFuture(Frames, a.target, a.table, a.bufferSize, span)
    }

    /** A message or frame arrives. */
    method Receive(target: Target, span: Span)
      requires Valid(target) && span.bytes != []
      modifies Footprint()
      ensures Valid(target) && Pending(target) == Then(old(Pending(target)), old(Incoming(target, span.bytes)))
    {
      hide RxAdapter.Pending, PduTransportRxAdapter.Pending, SpanFuture;
      match this {
        case NoReader =>
        case MessageReader(a) => a.Receive(span);
        case FrameReader(a) => a.Receive(span);
      }
    }

    /** peek(). */
    method Peek(target: Target) returns (pdu: Option<Pdu>, reset: bool)
      requires Valid(target)
      modifies Footprint()
      ensures reset <==> old(Pending(target)) == RESET
      ensures !reset ==>
        && Valid(target) && Pending(target) == old(Pending(target))
        && pdu == (if Pending(target).pdus == [] then None else Some(Pending(target).pdus[0]))
        && (pdu.Some? ==> pdu.value.id < target.Max())
        && (pdu.Some? ==> Releasable())
    {
      hide RxAdapter.Pending, PduTransportRxAdapter.Pending;
      pdu, reset := None, false;
      match this {
        case NoReader =>
        case MessageReader(a) => pdu, reset := a.Peek();
        case FrameReader(a) => pdu, reset := a.Peek();
      }
    }

    /** A PDU has been handed out and not released yet. */
    ghost predicate Releasable()
      reads Footprint()
    {
      match this
      case NoReader => false
      case MessageReader(a) => a.currentPdu.Some?
      case FrameReader(a) => a.currentPdu.Some?
    }

    /** release(). */
    method Release(target: Target)
      requires Valid(target) && Releasable()
      modifies Footprint()
      ensures Valid(target) && Pending(target) == old(Behind(Pending(target)))
    {
      match this {
        case NoReader =>
        case MessageReader(a) => a.Release();
        case FrameReader(a) => a.Release();
      }
    }
  }

  ghost function Footprints(readers: seq<Reader>): (objects: set<object>) {
    set i, o | 0 <= i < |readers| && o in readers[i].Footprint() :: o
  }

  /** Destination i takes the loop one step further, or ends it. */
  lemma {:induction false} WriteNext(t: PduRoutingTable, writers: seq<Writer>, source: nat, payload: seq<byte>,
      start: nat, i: nat, end: nat)
    requires start <= i < end <= |t.destinations| == |t.outputMessageIds|
    requires !Writes(t, writers, source, payload, start, i).reset
    ensures var ds := Writes(t, writers, source, payload, start, i).deliveries;
      if WriteResets(t, writers, payload, i) then Writes(t, writers, source, payload, start, end) == Prospect(ds, true)
      else
        Writes(t, writers, source, payload, start, i + 1)
        == Prospect(ds + Output(t, writers, source, payload, i), false)
  {
    hide Writes, Output, WriteResets;
    WritesSplit(t, writers, source, payload, start, i, end);
    WritesStep(t, writers, source, payload, i, end);
    WritesSplit(t, writers, source, payload, start, i, i + 1);
    WritesStep(t, writers, source, payload, i, i + 1);
    WritesStep(t, writers, source, payload, i + 1, i + 1);
    var ds := Writes(t, writers, source, payload, start, i).deliveries;
    assert ds + [] == ds;
    assert Output(t, writers, source, payload, i) + [] == Output(t, writers, source, payload, i);
  }

  /** init() refuses an empty or uneven table. */
  predicate Initialized(t: PduRoutingTable) {
    t.destinations != [] && t.destinationOffsets != [] && t.outputMessageIds != []
    && |t.destinations| == |t.outputMessageIds|
  }

  /** After a call of run() on a router that may not be initialized. */
  function AfterCall(t: PduRoutingTable, writers: seq<Writer>, s: Snapshot): (s': Snapshot)
    requires RoutingShape(t) && s.Valid()
  {
    if Initialized(t) then AfterRun(t, writers, s) else s
  }

  class Router {
    const target: Target
    const table: PduRoutingTable
    const readers: seq<Reader>
    const writers: seq<Writer>
    const initialized: bool
    var currentChannelId: nat
    var log: seq<Delivery>

    ghost predicate Valid()
      reads this`currentChannelId, Footprints(readers)
    {
      && RoutingShape(table) && WritersValid(target, writers) && (initialized <==> Initialized(table))
      && (forall i, j :: 0 <= i < j < |readers| ==> readers[i].Footprint() !! readers[j].Footprint())
      && (forall i :: 0 <= i < |readers| ==> readers[i].Valid(target))
      && (readers != [] ==> currentChannelId < |readers|)
    }

    ghost function Queues(): (qs: seq<Future>)
      requires Valid()
      reads this`currentChannelId, Footprints(readers)
      ensures |qs| == |readers|
    {
      seq(|readers|, c requires 0 <= c < |readers| && readers[c].Valid(target) reads Footprints(readers) =>
        readers[c].Pending(target))
    }

    /** init(): as many channels as there are readers and writers for; their number fits a byte. */
    constructor (target: Target, maxChannels: byte, table: PduRoutingTable, readers: seq<Reader>, writers: seq<Writer>)
      requires RoutingShape(table)
      requires forall i, j :: 0 <= i < j < |readers| ==> readers[i].Footprint() !! readers[j].Footprint()
      requires forall i :: 0 <= i < |readers| ==> readers[i].Valid(target)
      requires WritersValid(target, writers)
      ensures Valid() && this.target == target && this.table == table && log == [] && currentChannelId == 0
      ensures this.readers <= readers && this.writers <= writers
      ensures |this.readers| == |this.writers| == Min(maxChannels, Min(|readers|, |writers|)) <= 0xFF
      ensures initialized
          <==> table.destinations != [] && table.destinationOffsets != [] && table.outputMessageIds != []
                               && |table.destinations| == |table.outputMessageIds|
    {
      var n := Min(maxChannels, Min(|readers|, |writers|));
      this.target := target;
      this.table := table;
      this.readers := readers[..n];
      this.writers := writers[..n];
      initialized := table.destinations != [] && table.destinationOffsets != [] && table.outputMessageIds != []
        && |table.destinations| == |table.outputMessageIds|;
      currentChannelId := 0;
      log := [];
    }

    /** The loop of route() over the destinations of a known PDU. */
    method Deliver(c: nat, pdu: Pdu) returns (ok: bool, reset: bool)
      requires RoutingShape(table) && pdu.id < target.Max()
      modifies this`log
      ensures log == old(log) + Written(table, writers, c, pdu).deliveries
      ensures reset <==> Written(table, writers, c, pdu).reset
      ensures ok <==> Known(table, pdu)
    {
      reset := false;
      ok := target.Sum(pdu.id, 1) < |table.destinationOffsets|;
      if !ok {
        return;
      }
      assert DestinationsInRange(table, pdu.id);
      var start, end := table.destinationOffsets[pdu.id], table.destinationOffsets[pdu.id + 1];
      for i := start to end
        invariant !reset && !Writes(table, writers, c, pdu.payload, start, i).reset
        invariant log == old(log) + Writes(table, writers, c, pdu.payload, start, i).deliveries
      {
        hide RoutingShape, Writes, Write, WritersValid, Writer.Valid, Written;
        WriteNext(table, writers, c, pdu.payload, start, i, end);
        if Accepts(writers, table.destinations[i], MESSAGE_HEADER_SIZE + |pdu.payload|) {
          if writers[table.destinations[i]].Resets(table.outputMessageIds[i]) {
            return ok, true;
          }
          log := log + [Delivery(c, table.destinations[i], table.outputMessageIds[i], pdu.payload)];
        }
      }
    }

    /** route(): takes one PDU of reader c, if there is one, and delivers it; an unknown one is only released. */
    method Route(c: nat) returns (ok: bool, reset: bool)
      requires Valid() && c < |readers|
      modifies this`log, readers[c].Footprint()
      ensures log == old(log) + Served(table, writers, c, old(Queues()[c])).deliveries
      ensures reset <==> old(Queues()[c]) == RESET || Served(table, writers, c, old(Queues()[c])).reset
      ensures !reset ==>
        && Valid() && Queues() == old(Queues())[c := Behind(old(Queues()[c]))]
        && (ok <==> Ready(table, old(Queues()[c])))
    {
      hide Written, Served, RoutingShape, Reader.Releasable, Reader.Valid, Reader.Pending, Known, WritersValid;
      NotReadyNotServed(table, writers, c, Queues()[c]);
      ok := false;
      var pdu;
      pdu, reset := readers[c].Peek(target);
      if pdu.Some? && !reset {
        ok, reset := Deliver(c, pdu.value);
        if !reset {
          readers[c].Release(target);
        }
      }
    }

    ghost function Now(): (s: Snapshot)
      requires Valid()
      reads this, Footprints(readers)
      ensures s.Valid() && |s.queues| == |readers| && !s.reset
    {
      Snapshot(log, Queues(), currentChannelId, false)
    }

    /** One round of the loop of run(): asks the current channel and moves on to the next. */
    method Attempt() returns (ok: bool, reset: bool)
      requires Valid() && readers != []
      modifies this`log, this`currentChannelId, Footprints(readers)
      ensures reset <==> AfterAttempt(table, writers, old(Now())).reset
      ensures log == AfterAttempt(table, writers, old(Now())).log
      ensures !reset ==>
        && Valid() && Now() == AfterAttempt(table, writers, old(Now()))
        && (ok <==> Ready(table, old(Queues()[currentChannelId])))
    {
      hide Reader.Valid, Reader.Pending, RoutingShape, Served, WritersValid;
      NotReadyNotServed(table, writers, currentChannelId, Queues()[currentChannelId]);
      var c := currentChannelId;
      ok, reset := Route(c);
      currentChannelId := if c + 1 < |readers| then c + 1 else 0;
    }

    /** run(): asks the readers in turn, from the current channel on, until one PDU is routed or all were asked. */
    method Run() returns (ok: bool, reset: bool)
      requires Valid()
      modifies this`log, this`currentChannelId, Footprints(readers)
      ensures reset <==> AfterCall(table, writers, old(Now())).reset
      ensures log == AfterCall(table, writers, old(Now())).log
      ensures !reset ==>
        && Valid() && Now() == AfterCall(table, writers, old(Now()))
        && (ok <==> initialized && readers != []
                    && FirstStop(table, old(Now()).queues, old(Now()).current, 0) < |readers|)
    {
      hide Reader.Valid, Reader.Pending, Reader.Footprint, RoutingShape, Served, Footprints, Known, Behind;
      ok, reset := false, false;
      if !initialized || readers == [] {
        return;
      }
      ghost var s := Now();
      AttemptAfterIdle(table, writers, s, 0);
      assert AfterCall(table, writers, s) == AfterRun(table, writers, s);
      hide Valid, AfterCall, Now, Queues, Initialized, Ready, AfterIdle, AfterAttempt, AfterRun, FirstStop, Stops, Turn;
      for i := 0 to |readers|
        invariant !ok && !reset && Valid() && Now() == AfterIdle(s, i)
        invariant FirstStop(table, s.queues, s.current, 0) == FirstStop(table, s.queues, s.current, i)
      {
        AttemptAfterIdle(table, writers, s, i);
        ok, reset := Attempt();
        if ok || reset {
          return;
        }
      }
      NobodyServed(table, writers, s);
    }
  }

  function Min(a: nat, b: nat): (min: nat) {
    if a < b then a else b
  }
}
