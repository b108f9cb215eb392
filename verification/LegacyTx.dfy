/**
 LegacyTxAdapter (libs/bsw/routing/src/routing/LegacyTxAdapter.cpp): a PDU is turned into a message of the length
 and at the offset that the Tx table holds for it, within the memory that the underlying writer has allocated.
 */
module LegacyTx {
  import opened Results
  import opened Bytes
  import opened SizeT
  import opened TableReader
  import opened Ecu

  const FILL_BYTE: byte := 0xFF

  predicate Shape(t: TxAdapterTable) {
    |t.messageIds| == |t.messageLengths| == |t.pduOffsets|
  }

  /** The message for a PDU: header, filler, the payload as far as it fits, filler. */
  function Message(id: u32, length: u32, offset: nat, payload: seq<byte>): (message: seq<byte>)
    requires offset < length
    ensures |message| == MESSAGE_HEADER_SIZE + length
  {
    var n := if length - offset < |payload| then length - offset else |payload|;
    Be32(id) + Be32(length) + Fill(offset, FILL_BYTE) + payload[..n] + Fill(length - offset - n, FILL_BYTE)
  }

  /** Byte for byte: id, length, and a body in which the payload stands at the offset, with 0xFF around it. */
  lemma {:induction false} MessageByteForByte(id: u32, length: u32, offset: nat, payload: seq<byte>, i: nat)
    requires offset < length && i < 8 + length
    ensures |Message(id, length, offset, payload)| == 8 + length
    ensures var b := Message(id, length, offset, payload)[i];
      if i < 4 then b == Be32(id)[i]
      else if i < 8 then b == Be32(length)[i - 4]
      else if 0 <= i - 8 - offset < |payload| then b == payload[i - 8 - offset]
      else b == 0xFF
  {
  }

  /** What commit() makes of the buffer: the message, or nothing. The first entry for the message id counts. */
  function Committed(t: TxAdapterTable, maxSize: nat, buffer: seq<byte>): (message: Option<seq<byte>>)
    requires Shape(t)
  {
    if |buffer| < MESSAGE_HEADER_SIZE then None
    else
      var k := IndexOf(t.messageIds, FromBe32(buffer[..4]));
      if k.None? then None
      else
        var length, offset := t.messageLengths[k.value], t.pduOffsets[k.value];
        if MESSAGE_HEADER_SIZE + length > maxSize || offset >= length then None
        else Some(Message(FromBe32(buffer[..4]), length, offset, buffer[MESSAGE_HEADER_SIZE..]))
  }

  /** What commit() comes to on a target: a message, none, or a reset of the ECU. */
  datatype Outcome = Sent(message: seq<byte>) | Dropped | Reset

  function OutcomeOf(message: Option<seq<byte>>): (o: Outcome) {
    if message.Some? then Sent(message.value) else Dropped
  }

  /** commit() as it is computed: take() asserts that the allocated buffer has room for the header. */
  function CommittedOn(target: Target, t: TxAdapterTable, maxSize: nat, buffer: seq<byte>): (outcome: Outcome)
    requires Shape(t) && maxSize <= target.Max()
  {
    if |buffer| < MESSAGE_HEADER_SIZE then Dropped
    else
      var k := IndexOf(t.messageIds, FromBe32(buffer[..4]));
      if k.None? then Dropped
      else
        var length, offset := t.messageLengths[k.value], t.pduOffsets[k.value];
        var size := target.Sum(length, MESSAGE_HEADER_SIZE);
        if size > maxSize || offset >= length then Dropped
        else if size < MESSAGE_HEADER_SIZE then Outcome.Reset
        else Sent(Message(FromBe32(buffer[..4]), length, offset, buffer[MESSAGE_HEADER_SIZE..]))
  }

  /** The message has a size, or is not sent anyway. */
  predicate EntryFits(target: Target, length: int, offset: int) {
    MESSAGE_HEADER_SIZE + length <= target.Max() || offset >= length
  }

  /** A PDU with a known message id resets the ECU, if and only if the entry for it does not fit. */
  lemma {:induction false} CommitResetsExactly(target: Target, t: TxAdapterTable, maxSize: nat, buffer: seq<byte>,
      k: nat)
    requires Shape(t) && MESSAGE_HEADER_SIZE <= |buffer| <= maxSize <= target.Max()
    requires IndexOf(t.messageIds, FromBe32(buffer[..4])) == Some(k)
    ensures CommittedOn(target, t, maxSize, buffer).Reset? <==> !EntryFits(target, t.messageLengths[k], t.pduOffsets[k])
    ensures target.Bits64? ==> EntryFits(target, t.messageLengths[k], t.pduOffsets[k])
  {
    hide Message;
  }

  /** The first entry for a message id does not fit the target. */
  predicate ResetsFor(target: Target, t: TxAdapterTable, id: u32)
    requires Shape(t)
  {
    var k := IndexOf(t.messageIds, id);
    k.Some? && !EntryFits(target, t.messageLengths[k.value], t.pduOffsets[k.value])
  }

  /** So a PDU resets the ECU in commit(), whatever its payload, if and only if the entry for its id does not fit. */
  lemma {:induction false} PduResetsExactly(target: Target, t: TxAdapterTable, maxSize: nat, pdu: Pdu)
    requires Shape(t) && MESSAGE_HEADER_SIZE + |pdu.payload| <= maxSize <= target.Max()
    ensures CommittedOn(target, t, maxSize, pdu.Wire()).Reset? <==> ResetsFor(target, t, pdu.id)
  {
    Be32RoundTrip(pdu.id);
    assert pdu.Wire()[..4] == Be32(pdu.id);
    var k := IndexOf(t.messageIds, pdu.id);
    if k.Some? {
      CommitResetsExactly(target, t, maxSize, pdu.Wire(), k.value);
    }
  }

  /** Else it is sent as it would be with unbounded sizes. */
  lemma {:induction false} CommittedOnAgrees(target: Target, t: TxAdapterTable, maxSize: nat, buffer: seq<byte>)
    requires Shape(t) && maxSize <= target.Max()
    ensures CommittedOn(target, t, maxSize, buffer).Reset?
         || CommittedOn(target, t, maxSize, buffer) == OutcomeOf(Committed(t, maxSize, buffer))
  {
    hide Message;
  }

  /** A length of 0xFFFFFFF8: any PDU for the message id resets a 32-bit ECU. */
  lemma {:induction false} LargeLengthResets(maxSize: nat, payload: seq<byte>)
    requires MESSAGE_HEADER_SIZE + |payload| <= maxSize <= Bits32.Max()
    ensures var t := TxAdapterTable([7], [0xFFFF_FFF8], [0]);
      && CommittedOn(Bits32, t, maxSize, Pdu(7, payload).Wire()).Reset?
      && CommittedOn(Bits64, t, maxSize, Pdu(7, payload).Wire()).Dropped?
  {
    Be32RoundTrip(7);
    assert Pdu(7, payload).Wire()[..4] == Be32(7);
  }

  /** `s` with the bytes `x` written at `position`. */
  function Overwritten(s: seq<byte>, position: nat, x: seq<byte>): (r: seq<byte>)
    requires position + |x| <= |s|
    ensures |r| == |s|
  {
    s[..position] + x + s[position + |x|..]
  }

  /** mem_move() within one array; source and position may overlap. */
  method MemMove(a: array<byte>, source: nat, position: nat, n: nat)
    requires source + n <= a.Length && position + n <= a.Length
    modifies a
    ensures a[..] == Overwritten(old(a[..]), position, old(a[source..source + n]))
  {
    forall i | 0 <= i < n {
      a[position + i] := a[source + i];
    }
  }

  method MemSet(a: array<byte>, position: nat, n: nat, b: byte)
    requires position + n <= a.Length
    modifies a
    ensures a[..] == Overwritten(old(a[..]), position, Fill(n, b))
  {
    forall i | 0 <= i < n {
      a[position + i] := b;
    }
  }

  method Store32(a: array<byte>, position: nat, v: u32)
    requires position + 4 <= a.Length
    modifies a
    ensures a[..] == Overwritten(old(a[..]), position, Be32(v))
  {
    var s := Be32(v);
    forall i | 0 <= i < 4 {
      a[position + i] := s[i];
    }
  }

  /** Writing behind a prefix extends it, and does not reach what lies further on. */
  lemma {:induction false} OverwriteNext(s: seq<byte>, position: nat, x: seq<byte>, from: nat, to: nat)
    requires position + |x| <= |s| && position + |x| <= from <= to <= |s|
    ensures Overwritten(s, position, x)[..position + |x|] == s[..position] + x
    ensures Overwritten(s, position, x)[from..to] == s[from..to]
  {
  }

  lemma {:induction false} OverwriteInside(s: seq<byte>, position: nat, x: seq<byte>, end: nat)
    requires position + |x| <= end <= |s|
    ensures Overwritten(s, position, x)[..end] == s[..position] + x + s[position + |x|..end]
  {
  }

  /**
   `memory` is what the underlying writer hands out for its maximum size, `output` what has been committed there;
   the buffer given to the caller is the first `bufferSize` bytes of it.
   */
  class LegacyTxAdapter {
    const target: Target
    const table: TxAdapterTable
    const memory: array<byte>
    var bufferSize: nat
    var output: seq<Span>

    ghost predicate Valid()
      reads this
    {
      Shape(table) && bufferSize <= memory.Length <= target.Max()
    }

    constructor (target: Target, table: TxAdapterTable, memory: array<byte>)
      requires Shape(table) && memory.Length <= target.Max()
      ensures Valid() && this.target == target && this.table == table && this.memory == memory && bufferSize == 0
          && output == []
    {
      this.target := target;
      this.table := table;
      this.memory := memory;
      bufferSize := 0;
      output := [];
    }

    /** allocate(): fails for more than the maximum size, and then leaves no buffer behind. */
    method Allocate(size: nat) returns (ok: bool)
      requires Valid()
      modifies this`bufferSize
      ensures Valid()
      ensures ok <==> size <= memory.Length
      ensures bufferSize == if ok then size else 0
    {
      bufferSize := 0;
      ok := size <= memory.Length;
      if ok {
        bufferSize := size;
      }
    }

    /** commit(): builds the message in place, around the payload, and hands it to the underlying writer. */
    method Commit() returns (reset: bool)
      requires Valid()
      modifies this`bufferSize, this`output, memory
      ensures Valid() && bufferSize == 0
      ensures var outcome := CommittedOn(target, table, memory.Length, old(memory[..bufferSize]));
        && (reset <==> outcome.Reset?)
        && output == old(output) + (if outcome.Sent? then [Span(outcome.message)] else [])
        && (outcome.Sent? ==> |outcome.message| <= memory.Length && memory[..|outcome.message|] == outcome.message)
        && (outcome.Dropped? ==> memory[..] == old(memory[..]))
    {
      var size := bufferSize;
      bufferSize := 0;
      reset := false;
      if size < MESSAGE_HEADER_SIZE {
        return;
      }
      var id := FromBe32(memory[..4]);
      assert old(memory[..bufferSize])[..4] == memory[..4];
      var k := IndexOf(table.messageIds, id);
      if k.None? {
        return;
      }
      var length, offset := table.messageLengths[k.value], table.pduOffsets[k.value];
      var messageBufferSize := target.Sum(length, MESSAGE_HEADER_SIZE);
      if messageBufferSize > memory.Length || offset >= length {
        return;
      }
      if messageBufferSize < MESSAGE_HEADER_SIZE {
        return true;
      }
      ghost var payload := memory[MESSAGE_HEADER_SIZE..size];
      assert old(memory[..bufferSize])[MESSAGE_HEADER_SIZE..] == payload;
      BuildMessage(memory, size, id, length, offset);
      output := output + [Span(memory[..messageBufferSize])];
    }
  }

  /** The writes of commit(), in their order. */
  method BuildMessage(memory: array<byte>, size: nat, id: u32, length: u32, offset: nat)
    requires MESSAGE_HEADER_SIZE <= size <= memory.Length && offset < length
    requires MESSAGE_HEADER_SIZE + length <= memory.Length
    modifies memory
    ensures memory[..MESSAGE_HEADER_SIZE + length]
        == Message(id, length, offset, old(memory[MESSAGE_HEADER_SIZE..size]))
  {
    hide Overwritten, Be32, Fill;
    ghost var payload := memory[MESSAGE_HEADER_SIZE..size];
    var n := if length - offset < size - MESSAGE_HEADER_SIZE then length - offset else size - MESSAGE_HEADER_SIZE;
    var start := MESSAGE_HEADER_SIZE + offset;
    OverwriteNext(memory[..], 0, Be32(id), MESSAGE_HEADER_SIZE, size);
    Store32(memory, 0, id);
    OverwriteNext(memory[..], 4, Be32(length), MESSAGE_HEADER_SIZE, size);
    Store32(memory, 4, length);
    ghost var header := Be32(id) + Be32(length);
    assert memory[..MESSAGE_HEADER_SIZE] == header && memory[MESSAGE_HEADER_SIZE..size] == payload;
    assert memory[MESSAGE_HEADER_SIZE..MESSAGE_HEADER_SIZE + n] == payload[..n];
    PlacePayload(memory, offset, n);
    assert memory[..start + n] == header + Fill(offset, FILL_BYTE) + payload[..n];
    OverwriteNext(memory[..], start + n, Fill(length - offset - n, FILL_BYTE), memory.Length, memory.Length);
    MemSet(memory, start + n, length - offset - n, FILL_BYTE);
  }

  /** Moves the payload to its offset and fills the gap in front of it. */
  method PlacePayload(memory: array<byte>, offset: nat, n: nat)
    requires MESSAGE_HEADER_SIZE + offset + n <= memory.Length
    modifies memory
    ensures memory[..MESSAGE_HEADER_SIZE + offset + n]
         == old(memory[..MESSAGE_HEADER_SIZE]) + Fill(offset, FILL_BYTE)
            + old(memory[MESSAGE_HEADER_SIZE..MESSAGE_HEADER_SIZE + n])
  {
    hide Overwritten, Fill;
    var start := MESSAGE_HEADER_SIZE + offset;
    ghost var before := memory[..];
    assert before[..MESSAGE_HEADER_SIZE] == memory[..MESSAGE_HEADER_SIZE];
    assert before[MESSAGE_HEADER_SIZE..MESSAGE_HEADER_SIZE + n] == memory[MESSAGE_HEADER_SIZE..MESSAGE_HEADER_SIZE + n];
    MovedAndFilled(before, offset, n);
    if offset != 0 {
      MemMove(memory, MESSAGE_HEADER_SIZE, start, n);
      MemSet(memory, MESSAGE_HEADER_SIZE, offset, FILL_BYTE);
    }
    assert memory[..start + n] == memory[..][..start + n];
  }

  lemma {:induction false} MovedAndFilled(s: seq<byte>, offset: nat, n: nat)
    requires MESSAGE_HEADER_SIZE + offset + n <= |s|
    ensures var start, moved := MESSAGE_HEADER_SIZE + offset, s[MESSAGE_HEADER_SIZE..MESSAGE_HEADER_SIZE + n];
      var filled := if offset == 0 then s
                    else Overwritten(Overwritten(s, start, moved), MESSAGE_HEADER_SIZE, Fill(offset, FILL_BYTE));
      filled[..start + n] == s[..MESSAGE_HEADER_SIZE] + Fill(offset, FILL_BYTE) + moved
  {
    hide Overwritten, Fill;
    var start, moved := MESSAGE_HEADER_SIZE + offset, s[MESSAGE_HEADER_SIZE..MESSAGE_HEADER_SIZE + n];
    if offset == 0 {
      NoFiller(FILL_BYTE);
      assert s[..start + n] == s[..MESSAGE_HEADER_SIZE] + [] + moved;
    } else {
      var t := Overwritten(s, start, moved);
      OverwriteNext(s, start, moved, |s|, |s|);
      CutPrefix(s, t, start, moved);
      OverwriteInside(t, MESSAGE_HEADER_SIZE, Fill(offset, FILL_BYTE), start + n);
    }
  }

  lemma {:induction false} NoFiller(b: byte)
    ensures Fill(0, b) == []
  {
  }

  lemma {:induction false} CutPrefix(s: seq<byte>, t: seq<byte>, start: nat, moved: seq<byte>)
    requires MESSAGE_HEADER_SIZE <= start && start + |moved| <= |s| == |t|
    requires t[..start + |moved|] == s[..start] + moved
    ensures t[..MESSAGE_HEADER_SIZE] == s[..MESSAGE_HEADER_SIZE] && t[start..start + |moved|] == moved
  {
    assert t[..MESSAGE_HEADER_SIZE] == t[..start + |moved|][..MESSAGE_HEADER_SIZE];
    assert t[start..start + |moved|] == t[..start + |moved|][start..];
  }

  method Copy(a: array<byte>, s: seq<byte>)
    requires |s| <= a.Length
    modifies a
    ensures a[..] == Overwritten(old(a[..]), 0, s)
  {
    forall i | 0 <= i < |s| {
      a[i] := s[i];
    }
  }

  /** What one PDU puts on the bus of an adapter for messages up to `maxSize`. */
  function PutOut(target: Target, t: TxAdapterTable, maxSize: nat, pdu: Pdu): (spans: seq<Span>)
    requires Shape(t) && maxSize <= target.Max()
  {
    if MESSAGE_HEADER_SIZE + |pdu.payload| > maxSize then []
    else
      var outcome := CommittedOn(target, t, maxSize, pdu.Wire());
      if outcome.Sent? then [Span(outcome.message)] else []
  }

  /** outputPdu() to a legacy adapter: allocates, copies the PDU there and commits, if there is room for it. */
  method OutputPdu(adapter: LegacyTxAdapter, pdu: Pdu) returns (reset: bool)
    requires adapter.Valid()
    modifies adapter`bufferSize, adapter`output, adapter.memory
    ensures adapter.Valid()
    ensures adapter.output
         == old(adapter.output) + PutOut(adapter.target, adapter.table, adapter.memory.Length, pdu)
    ensures reset <==> MESSAGE_HEADER_SIZE + |pdu.payload| <= adapter.memory.Length
                       && ResetsFor(adapter.target, adapter.table, pdu.id)
  {
    hide CommittedOn, ResetsFor, EntryFits;
    reset := false;
    var hasRoom := adapter.Allocate(|pdu.Wire()|);
    if hasRoom {
      Copy(adapter.memory, pdu.Wire());
      assert adapter.memory[..adapter.bufferSize] == pdu.Wire();
      PduResetsExactly(adapter.target, adapter.table, adapter.memory.Length, pdu);
      reset := adapter.Commit();
    }
  }

  // ----- What arrives -----

  lemma {:induction false} MessageParts(id: u32, length: u32, offset: nat, payload: seq<byte>)
    requires offset < length
    ensures var m := Message(id, length, offset, payload);
      var n := if length - offset < |payload| then length - offset else |payload|;
      && FromBe32(m[..4]) == id && FromBe32(m[4..8]) == length == |m| - MESSAGE_HEADER_SIZE
      && m[MESSAGE_HEADER_SIZE..] == Fill(offset, FILL_BYTE) + payload[..n] + Fill(length - offset - n, FILL_BYTE)
  {
    var m := Message(id, length, offset, payload);
    Be32RoundTrip(id);
    Be32RoundTrip(length);
    assert m[..4] == Be32(id) && m[4..8] == Be32(length);
  }

  lemma {:induction false} Middle(a: seq<byte>, b: seq<byte>, c: seq<byte>)
    ensures (a + b + c)[|a|..|a| + |b|] == b
  {
  }

  /**
   Round trip over the bus: a receiver whose table has the PDU at the sender's offset, with the PDU's length,
   extracts the payload that was sent, if and only if the whole payload fits the message.
   */
  lemma {:induction false} SentIsReceived(id: u32, length: u32, offset: nat, payload: seq<byte>, rx: RxAdapterTable,
                                          bufferSize: nat, j: nat)
    requires offset < length && j < |rx.pduLengths| == |rx.pduOffsets| && rx.firstId + j <= MAX_U32
    requires rx.pduOffsets[j] == offset && rx.pduLengths[j] == |payload|
    requires MESSAGE_HEADER_SIZE + |payload| <= bufferSize
    ensures Extract(rx, bufferSize, Message(id, length, offset, payload), j) == Some(Pdu(rx.firstId + j, payload))
            <==> offset + |payload| <= length
  {
    MessageParts(id, length, offset, payload);
    hide Message;
    if offset + |payload| <= length {
      assert payload[..|payload|] == payload;
      var before, after := Fill(offset, FILL_BYTE), Fill(length - offset - |payload|, FILL_BYTE);
      Middle(before, payload, after);
      assert Message(id, length, offset, payload)[MESSAGE_HEADER_SIZE..] == before + payload + after;
      assert (before + payload + after)[offset..offset + |payload|] == payload;
    }
  }

  /** Without an offset and with its own length as message length, a PDU is passed on as it is. */
  lemma {:induction false} PassedOnUnchanged(t: TxAdapterTable, maxSize: nat, pdu: Pdu, k: nat)
    requires Shape(t) && IndexOf(t.messageIds, pdu.id) == Some(k)
    requires t.pduOffsets[k] == 0 && t.messageLengths[k] == |pdu.payload|
    ensures Committed(t, maxSize, pdu.Wire())
         == if 0 < |pdu.payload| && |pdu.Wire()| <= maxSize then Some(pdu.Wire()) else None
  {
    var wire, payload := pdu.Wire(), pdu.payload;
    assert wire[..4] == Be32(pdu.id) && wire[MESSAGE_HEADER_SIZE..] == payload;
    Be32RoundTrip(pdu.id);
    assert payload[..|payload|] == payload && Fill(0, FILL_BYTE) == [];
    if payload != [] {
      assert Message(pdu.id, |payload|, 0, payload) == wire;
    }
  }

  // ----- Whose entry is used -----

  lemma {:induction false} IndexOfIsFirst(ids: seq<u32>, r: nat)
    requires r < |ids|
    ensures IndexOf(ids, ids[r]).Some? && IndexOf(ids, ids[r]).value <= r
  {
    if ids[0] != ids[r] {
      IndexOfIsFirst(ids[1..], r - 1);
    }
  }
}
