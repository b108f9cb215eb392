/**
 The lock-free queue between one writer and one reader (libs/bsw/io/include/io/MemoryQueue.h), as a state machine
 whose steps are the single memory accesses of the two sides, in any interleaving.
 */
module MemoryQueue {
  import opened Bytes

  /** The template parameters; `headerSize` is sizeof(SIZE_TYPE). */
  datatype Parameters = Parameters(capacity: nat, maxElementSize: nat, headerSize: nat)
  {
    /** The static_assert of the class, and sizeof(SIZE_TYPE) > 0. */
    predicate Valid() {
      capacity >= Slot() && headerSize > 0
    }

    /** The space that is kept free for one element. */
    function Slot(): (n: nat) {
      maxElementSize + headerSize
    }
  }

  // ----- The size field -----

  function Power256(h: nat): (n: nat)
    ensures n > 0
  {
    if h == 0 then 1 else 256 * Power256(h - 1)
  }

  /** The value stored in a big-endian field of h bytes: static_cast<SIZE_TYPE> keeps the low bytes. */
  function SizeField(h: nat, n: nat): (s: seq<byte>)
    ensures |s| == h
  {
    if h == 0 then [] else SizeField(h - 1, n / 256) + [n % 256]
  }

  /** The field ends with the least significant byte; what does not fit is cut off in front. */
  lemma {:induction false} SizeFieldExactly(h: nat, n: nat, i: nat)
    requires i < h
    ensures SizeField(h, n)[h - 1 - i] == n / Power256(i) % 256
  {
    if i > 0 {
      SizeFieldExactly(h - 1, n / 256, i - 1);
      QuotientOfQuotient(n, i);
    } else {
      assert n / 1 == n;
    }
  }

  lemma {:induction false} QuotientOfQuotient(n: nat, i: nat)
    requires i > 0
    ensures n / 256 / Power256(i - 1) == n / Power256(i)
  {
    var d := Power256(i - 1);
    var k, r := n / 256 / d, n / 256 % d;
    assert n / 256 == k * d + r;
    assert n == k * (256 * d) + (256 * r + n % 256);
    DivMod(k, 256 * r + n % 256, 256 * d);
  }

  function FieldValue(s: seq<byte>): (n: nat) {
    if s == [] then 0 else FieldValue(s[..|s| - 1]) * 256 + s[|s| - 1] as int
  }

  lemma {:induction false} SizeFieldHolds(h: nat, n: nat)
    requires n < Power256(h)
    ensures FieldValue(SizeField(h, n)) == n
  {
    if h > 0 {
      SizeFieldHolds(h - 1, n / 256);
    }
  }

  // ----- Index arithmetic -----

  /** advanceIndex(). */
  function AdvanceIndex(c: Parameters, index: nat, size: nat): (i: nat)
    requires c.Valid()
  {
    var i := (index + size + c.headerSize) % (2 * c.capacity);
    var space := (2 * c.capacity - i) % c.capacity;
    if space < c.Slot() then (i + space) % (2 * c.capacity) else i
  }

  /** The place in the array that an index stands for: indices run over the array twice. */
  function Place(c: Parameters, index: nat): (p: nat)
    requires c.Valid()
    ensures index < 2 * c.capacity ==> p == if index < c.capacity then index else index - c.capacity
  {
    ModBelow(index, c.capacity);
    index % c.capacity
  }

  /** An index that leaves room for an element up to the end of the array. */
  predicate IsPosition(c: Parameters, index: nat)
    requires c.Valid()
  {
    index < 2 * c.capacity && Place(c, index) + c.Slot() <= c.capacity
  }

  /** The index behind an element, without division. */
  function Next(c: Parameters, index: nat, size: nat): (i: nat)
    requires c.Valid()
  {
    var end := index + size + c.headerSize;
    if Place(c, index) + size + c.headerSize + c.Slot() <= c.capacity then end
    else if index < c.capacity then c.capacity else 0
  }

  lemma {:induction false} ModBelow(x: nat, n: nat)
    requires 0 < n
    ensures x < n ==> x % n == x
    ensures n <= x < 2 * n ==> x % n == x - n
    ensures x == 2 * n ==> x % n == 0
  {
    if n <= x < 2 * n {
      assert x == n + (x - n);
      assert x / n == 1;
    }
  }

  /** advanceIndex() keeps to positions: it never leaves less than a slot before the end of the array. */
  lemma {:induction false} AdvanceIndexIsNext(c: Parameters, index: nat, size: nat)
    requires c.Valid() && IsPosition(c, index) && size <= c.maxElementSize
    ensures AdvanceIndex(c, index, size) == Next(c, index, size) && IsPosition(c, Next(c, index, size))
  {
    var n, end := c.capacity, index + size + c.headerSize;
    ModBelow(end, 2 * n);
    var i := end % (2 * n);
    ModBelow(2 * n - i, n);
    var space := (2 * n - i) % n;
    ModBelow(i + space, 2 * n);
  }

  /** The number of bytes from one index to another: usedBytes of available(). */
  function Distance(c: Parameters, a: nat, b: nat): (d: nat)
    requires c.Valid() && IsPosition(c, a) && IsPosition(c, b)
  {
    if b < a then b + 2 * c.capacity - a else b - a
  }

  /** As long as a slot is free in front of p, an element at s does not reach p, even if the array's end is skipped. */
  lemma {:induction false} NextDistance(c: Parameters, p: nat, s: nat, size: nat)
    requires c.Valid() && IsPosition(c, p) && IsPosition(c, s) && size <= c.maxElementSize
    requires Distance(c, p, s) + c.Slot() <= c.capacity
    ensures IsPosition(c, Next(c, s, size))
    ensures Distance(c, p, s) + c.headerSize + size <= Distance(c, p, Next(c, s, size)) <= c.capacity
  {
    AdvanceIndexIsNext(c, s, size);
  }

  /** The slot at s does not overlap what lies between p and s. */
  lemma {:induction false} SlotIsFree(c: Parameters, p: nat, s: nat, n: nat)
    requires c.Valid() && IsPosition(c, p) && IsPosition(c, s) && n <= Distance(c, p, s)
    requires Distance(c, p, s) + c.Slot() <= c.capacity
    ensures Place(c, p) + n <= Place(c, s) || Place(c, s) + c.Slot() <= Place(c, p)
  {
  }

  // ----- The elements in the array -----

  datatype Element = Element(bytes: seq<byte>)

  /** At index p, the array holds the size and the bytes of x. */
  ghost predicate Holds(c: Parameters, data: seq<byte>, p: nat, x: Element)
    requires c.Valid()
  {
    var at := Place(c, p);
    && at + c.headerSize + |x.bytes| <= |data|
    && data[at..at + c.headerSize] == SizeField(c.headerSize, |x.bytes|)
    && data[at + c.headerSize..at + c.headerSize + |x.bytes|] == x.bytes
  }

  /** From index p to index s, the array holds the elements q. */
  ghost predicate Chain(c: Parameters, data: seq<byte>, p: nat, q: seq<Element>, s: nat)
    requires c.Valid()
    decreases |q|
  {
    IsPosition(c, p) && IsPosition(c, s) &&
    if q == [] then p == s
    else
      var n := |q[0].bytes|;
      && 0 < n <= c.maxElementSize && Holds(c, data, p, q[0])
      && c.headerSize + n <= Distance(c, p, s)
      && IsPosition(c, Next(c, p, n)) && Distance(c, Next(c, p, n), s) <= Distance(c, p, s)
      && Chain(c, data, Next(c, p, n), q[1..], s)
  }

  /** The two arrays differ at most in the slot at index s. */
  ghost predicate SameOutsideSlot(c: Parameters, data: seq<byte>, data': seq<byte>, s: nat)
    requires c.Valid()
  {
    && |data| == |data'|
    && forall i :: 0 <= i < |data| && !(Place(c, s) <= i < Place(c, s) + c.Slot()) ==> data'[i] == data[i]
  }

  lemma {:induction false} HoldsFrame(c: Parameters, data: seq<byte>, data': seq<byte>, p: nat, x: Element, s: nat)
    requires c.Valid() && IsPosition(c, p) && IsPosition(c, s) && SameOutsideSlot(c, data, data', s)
    requires Holds(c, data, p, x) && c.headerSize + |x.bytes| <= Distance(c, p, s)
    requires Distance(c, p, s) + c.Slot() <= c.capacity
    ensures Holds(c, data', p, x)
  {
    SlotIsFree(c, p, s, c.headerSize + |x.bytes|);
    var at := Place(c, p);
    assert data'[at..at + c.headerSize] == data[at..at + c.headerSize];
    assert data'[at + c.headerSize..at + c.headerSize + |x.bytes|]
        == data[at + c.headerSize..at + c.headerSize + |x.bytes|];
  }

  /** What the writer does in its slot leaves the elements alone. */
  lemma {:induction false} ChainFrame(c: Parameters, data: seq<byte>, data': seq<byte>, p: nat, q: seq<Element>, s: nat)
    requires c.Valid() && Chain(c, data, p, q, s) && SameOutsideSlot(c, data, data', s)
    requires Distance(c, p, s) + c.Slot() <= c.capacity
    ensures Chain(c, data', p, q, s)
    decreases |q|
  {
    if q != [] {
      hide Holds, SameOutsideSlot;
      HoldsFrame(c, data, data', p, q[0], s);
      ChainFrame(c, data, data', Next(c, p, |q[0].bytes|), q[1..], s);
    }
  }

  /** Publishing the slot adds its element at the end. */
  lemma {:induction false} ChainAppend(c: Parameters, data: seq<byte>, p: nat, q: seq<Element>, s: nat, x: Element)
    requires c.Valid() && Chain(c, data, p, q, s) && Distance(c, p, s) + c.Slot() <= c.capacity
    requires Holds(c, data, s, x) && 0 < |x.bytes| <= c.maxElementSize
    ensures IsPosition(c, Next(c, s, |x.bytes|)) && Chain(c, data, p, q + [x], Next(c, s, |x.bytes|))
    decreases |q|
  {
    hide Holds;
    var s' := Next(c, s, |x.bytes|);
    NextDistance(c, p, s, |x.bytes|);
    if q == [] {
      assert (q + [x])[1..] == [];
      assert Chain(c, data, s', [], s');
    } else {
      var p' := Next(c, p, |q[0].bytes|);
      NextDistance(c, p', s, |x.bytes|);
      ChainAppend(c, data, p', q[1..], s, x);
      assert (q + [x])[1..] == q[1..] + [x];
      NextDistances(c, p, p', s, |x.bytes|);
    }
  }

  lemma {:induction false} NextDistances(c: Parameters, p: nat, p': nat, s: nat, size: nat)
    requires c.Valid() && IsPosition(c, p) && IsPosition(c, p') && IsPosition(c, s) && size <= c.maxElementSize
    requires Distance(c, p', s) <= Distance(c, p, s) && Distance(c, p, s) + c.Slot() <= c.capacity
    ensures IsPosition(c, Next(c, s, size))
    ensures Distance(c, p', Next(c, s, size)) <= Distance(c, p, Next(c, s, size))
  {
    AdvanceIndexIsNext(c, s, size);
  }

  // ----- The state machine -----

  /** Where the writer is: it has a slice of `granted` bytes (none if 0), or is within commit(). */
  datatype WriterAt = Ready(granted: nat) | Committing(size: nat, stored: nat)

  /** Where the reader is: it knows nothing, that the queue is not empty, or the size of the first element. */
  datatype ReaderAt = Idle | NonEmpty | Sized(size: nat)

  datatype State = State(data: seq<byte>, sent: nat, received: nat, writer: WriterAt, reader: ReaderAt)

  datatype Step =
    | Allocate(size: nat)       // allocate(): one load of `received`
    | Write(i: nat, b: byte)    // the owner of the writer fills its slice
    | StartCommit               // commit(): the size is narrowed to SIZE_TYPE
    | StoreSizeByte             // commit(): one byte of the size field
    | Publish                   // commit(): `sent` is stored
    | Check                     // empty(): one load of `sent`
    | LoadSize                  // peek() and release(): the size field is read
    | Leave                     // the end of peek()
    | Release                   // release(): `received` is stored

  /** available(). */
  function Available(c: Parameters, sent: nat, received: nat): (n: nat)
    requires c.Valid() && IsPosition(c, sent) && IsPosition(c, received)
  {
    var used := Distance(c, received, sent);
    if c.capacity < used || c.capacity - used < c.Slot() then 0 else c.capacity - used
  }

  ghost predicate WellFormed(c: Parameters, s: State) {
    && c.Valid() && |s.data| == c.capacity && IsPosition(c, s.sent) && IsPosition(c, s.received)
    && (s.writer.Ready? ==> s.writer.granted <= c.maxElementSize)
    && (s.writer.Committing? ==> s.writer.stored <= c.headerSize && s.writer.size <= c.maxElementSize)
    && (s.reader.Sized? ==> s.reader.size <= c.maxElementSize)
  }

  function SizeAt(c: Parameters, s: State, index: nat): (n: nat)
    requires WellFormed(c, s) && IsPosition(c, index)
  {
    FieldValue(s.data[Place(c, index)..Place(c, index) + c.headerSize])
  }

  /** `n` bytes behind the size field at an index. */
  function SliceAt(c: Parameters, s: State, index: nat, n: nat): (bytes: seq<byte>)
    requires WellFormed(c, s) && IsPosition(c, index) && n <= c.maxElementSize
    ensures |bytes| == n
  {
    s.data[Place(c, index) + c.headerSize..Place(c, index) + c.headerSize + n]
  }

  /** Whether a step is possible: the program order of each side. */
  ghost predicate Enabled(c: Parameters, s: State, step: Step)
    requires WellFormed(c, s)
  {
    match step
    case Allocate(_) => s.writer.Ready?
    case Write(i, _) => s.writer.Ready? && i < s.writer.granted
    case StartCommit => s.writer.Ready? && s.writer.granted > 0
    case StoreSizeByte => s.writer.Committing? && s.writer.stored < c.headerSize
    case Publish => s.writer.Committing? && s.writer.stored == c.headerSize
    case Check => s.reader.Idle?
    case LoadSize => s.reader.NonEmpty?
    case Leave => s.reader.Sized?
    case Release => s.reader.Sized?
  }

  function SetByte(data: seq<byte>, i: nat, b: byte): (r: seq<byte>)
    requires i < |data|
    ensures |r| == |data|
  {
    data[i := b]
  }

  ghost function After(c: Parameters, s: State, step: Step): (s': State)
    requires WellFormed(c, s) && Enabled(c, s, step)
  {
    var h := c.headerSize;
    match step
    case Allocate(size) =>
      var ok := 0 < size <= c.maxElementSize && Available(c, s.sent, s.received) != 0;
      s.(writer := Ready(if ok then size else 0))
    case Write(i, b) => s.(data := SetByte(s.data, Place(c, s.sent) + h + i, b))
    case StartCommit => s.(writer := Committing(FieldValue(SizeField(h, s.writer.granted)), 0))
    case StoreSizeByte =>
      var k := s.writer.stored;
      s.(data := SetByte(s.data, Place(c, s.sent) + k, SizeField(h, s.writer.size)[k]),
         writer := Committing(s.writer.size, k + 1))
    case Publish => s.(sent := AdvanceIndex(c, s.sent, s.writer.size), writer := Ready(0))
    case Check => s.(reader := if s.sent == s.received then Idle else NonEmpty)
    case LoadSize => s.(reader := Sized(SizeAt(c, s, s.received)))
    case Leave => s.(reader := Idle)
    case Release => s.(received := AdvanceIndex(c, s.received, s.reader.size), reader := Idle)
  }

  function Start(c: Parameters, data: seq<byte>): (s: State) {
    State(data, 0, 0, Ready(0), Idle)
  }

  // ----- Runs -----

  /** A state, and what was published and released on the way to it. */
  datatype Trace = Trace(state: State, published: seq<Element>, released: seq<Element>)

  /** A step that is not possible does nothing. An element is recorded as the memory shows it at that moment. */
  ghost function Record(c: Parameters, t: Trace, step: Step): (t': Trace) {
    var s := t.state;
    if !WellFormed(c, s) || !Enabled(c, s, step) then t
    else
      Trace(After(c, s, step),
            if step.Publish? then t.published + [Element(SliceAt(c, s, s.sent, s.writer.size))] else t.published,
            if step.Release? then t.released + [Element(SliceAt(c, s, s.received, s.reader.size))] else t.released)
  }

  ghost function Run(c: Parameters, t: Trace, steps: seq<Step>): (t': Trace)
    decreases |steps|
  {
    if steps == [] then t else Run(c, Record(c, t, steps[0]), steps[1..])
  }

  // ----- The invariant -----

  /** What the writer has still in hand lies in a free slot. */
  ghost predicate WriterFits(c: Parameters, s: State)
    requires WellFormed(c, s)
  {
    match s.writer
    case Ready(n) => n > 0 ==> Distance(c, s.received, s.sent) + c.Slot() <= c.capacity
    case Committing(n, k) =>
      && 0 < n && Distance(c, s.received, s.sent) + c.Slot() <= c.capacity
      && s.data[Place(c, s.sent)..Place(c, s.sent) + k] == SizeField(c.headerSize, n)[..k]
  }

  /** What the reader knows is still true. */
  ghost predicate ReaderKnows(s: State, q: seq<Element>) {
    match s.reader
    case Idle => true
    case NonEmpty => q != []
    case Sized(n) => q != [] && n == |q[0].bytes|
  }

  /** `q` is what has been published and not yet released. */
  ghost predicate Contains(c: Parameters, s: State, q: seq<Element>) {
    && WellFormed(c, s) && c.maxElementSize < Power256(c.headerSize)
    && Chain(c, s.data, s.received, q, s.sent) && Distance(c, s.received, s.sent) <= c.capacity
    && WriterFits(c, s) && ReaderKnows(s, q)
  }

  lemma {:induction false} StartsEmpty(c: Parameters, data: seq<byte>)
    requires c.Valid() && |data| == c.capacity && c.maxElementSize < Power256(c.headerSize)
    ensures Contains(c, Start(c, data), [])
  {
  }

  /** A byte written into the slot. */
  lemma {:induction false} SlotWrite(c: Parameters, s: State, q: seq<Element>, i: nat, b: byte)
    requires Contains(c, s, q) && i < c.Slot() && Distance(c, s.received, s.sent) + c.Slot() <= c.capacity
    ensures Chain(c, SetByte(s.data, Place(c, s.sent) + i, b), s.received, q, s.sent)
  {
    ChainFrame(c, s.data, SetByte(s.data, Place(c, s.sent) + i, b), s.received, q, s.sent);
  }

  lemma {:induction false} WriteKeeps(c: Parameters, s: State, q: seq<Element>, i: nat, b: byte)
    requires Contains(c, s, q) && Enabled(c, s, Write(i, b))
    ensures Contains(c, After(c, s, Write(i, b)), q)
  {
    hide Chain;
    SlotWrite(c, s, q, c.headerSize + i, b);
  }

  lemma {:induction false} StartCommitKeeps(c: Parameters, s: State, q: seq<Element>)
    requires Contains(c, s, q) && Enabled(c, s, StartCommit)
    ensures Contains(c, After(c, s, StartCommit), q)
    ensures After(c, s, StartCommit).writer.size == s.writer.granted
  {
    hide Chain;
    PowerMonotone(c, s.writer.granted);
    SizeFieldHolds(c.headerSize, s.writer.granted);
  }

  lemma {:induction false} PowerMonotone(c: Parameters, n: nat)
    requires n <= c.maxElementSize < Power256(c.headerSize)
    ensures n < Power256(c.headerSize)
  {
  }

  lemma {:induction false} StoreSizeByteKeeps(c: Parameters, s: State, q: seq<Element>)
    requires Contains(c, s, q) && Enabled(c, s, StoreSizeByte)
    ensures Contains(c, After(c, s, StoreSizeByte), q)
  {
    hide Chain, SizeField, SetByte, Power256;
    var at, k, field := Place(c, s.sent), s.writer.stored, SizeField(c.headerSize, s.writer.size);
    SlotWrite(c, s, q, k, field[k]);
    SetByteExtends(s.data, at, k, field);
  }

  lemma {:induction false} SetByteExtends(data: seq<byte>, at: nat, k: nat, field: seq<byte>)
    requires at + k < |data| && k < |field| && data[at..at + k] == field[..k]
    ensures SetByte(data, at + k, field[k])[at..at + k + 1] == field[..k + 1]
  {
    var data' := SetByte(data, at + k, field[k]);
    assert data'[at..at + k + 1] == data[at..at + k] + [field[k]];
  }

  lemma {:induction false} PublishKeeps(c: Parameters, s: State, q: seq<Element>)
    requires Contains(c, s, q) && Enabled(c, s, Publish)
    ensures Contains(c, After(c, s, Publish), q + [Element(SliceAt(c, s, s.sent, s.writer.size))])
  {
    hide Chain, SizeField;
    var n, at := s.writer.size, Place(c, s.sent);
    var field := SizeField(c.headerSize, n);
    assert field[..c.headerSize] == field;
    ChainAppend(c, s.data, s.received, q, s.sent, Element(SliceAt(c, s, s.sent, n)));
    AdvanceIndexIsNext(c, s.sent, n);
    NextDistance(c, s.received, s.sent, n);
  }

  lemma {:induction false} ChainHead(c: Parameters, s: State, q: seq<Element>)
    requires Contains(c, s, q) && q != []
    ensures SizeAt(c, s, s.received) == |q[0].bytes| <= c.maxElementSize
    ensures SliceAt(c, s, s.received, |q[0].bytes|) == q[0].bytes
  {
    SizeFieldHolds(c.headerSize, |q[0].bytes|);
  }

  lemma {:induction false} ReleaseKeeps(c: Parameters, s: State, q: seq<Element>)
    requires Contains(c, s, q) && Enabled(c, s, Release)
    ensures Contains(c, After(c, s, Release), q[1..])
  {
    hide Holds;
    AdvanceIndexIsNext(c, s.received, |q[0].bytes|);
  }

  lemma {:induction false} LookKeeps(c: Parameters, s: State, q: seq<Element>, step: Step)
    requires Contains(c, s, q) && Enabled(c, s, step) && (step.Check? || step.LoadSize? || step.Leave?)
    ensures Contains(c, After(c, s, step), q)
  {
    hide Place, SizeField, FieldValue, Power256;
    if step.LoadSize? {
      ChainHead(c, s, q);
    }
  }

  lemma {:induction false} AllocateKeeps(c: Parameters, s: State, q: seq<Element>, step: Step)
    requires Contains(c, s, q) && Enabled(c, s, step) && step.Allocate?
    ensures Contains(c, After(c, s, step), q)
  {
    hide Chain, Place, SizeField, FieldValue, Power256;
  }

  /** Every step keeps the invariant: publishing appends the slice, releasing takes the first element, others none. */
  lemma {:induction false} StepKeeps(c: Parameters, s: State, q: seq<Element>, step: Step)
    requires Contains(c, s, q) && Enabled(c, s, step)
    ensures Contains(c, After(c, s, step),
              if step.Publish? then q + [Element(SliceAt(c, s, s.sent, s.writer.size))]
              else if step.Release? then q[1..] else q)
  {
    hide Contains, After, WellFormed, Enabled;
    match step
    case Write(i, b) => WriteKeeps(c, s, q, i, b);
    case StartCommit => StartCommitKeeps(c, s, q);
    case StoreSizeByte => StoreSizeByteKeeps(c, s, q);
    case Publish => PublishKeeps(c, s, q);
    case Release => ReleaseKeeps(c, s, q);
    case LoadSize => LookKeeps(c, s, q, step);
    case Check => LookKeeps(c, s, q, step);
    case Leave => LookKeeps(c, s, q, step);
    case Allocate(_) => AllocateKeeps(c, s, q, step);
  }

  /** After any run, what was published is what was released followed by what the queue contains. */
  lemma {:induction false} RunKeeps(c: Parameters, t: Trace, steps: seq<Step>, q: seq<Element>)
    returns (q': seq<Element>)
    requires Contains(c, t.state, q) && t.published == t.released + q
    ensures var t' := Run(c, t, steps); Contains(c, t'.state, q') && t'.published == t'.released + q'
    decreases |steps|
  {
    hide Contains, WellFormed, Enabled, After;
    if steps == [] {
      q' := q;
    } else {
      var r := RecordKeeps(c, t, steps[0], q);
      q' := RunKeeps(c, Record(c, t, steps[0]), steps[1..], r);
    }
  }

  lemma {:induction false} RecordKeeps(c: Parameters, t: Trace, step: Step, q: seq<Element>) returns (q': seq<Element>)
    requires Contains(c, t.state, q) && t.published == t.released + q
    ensures var t' := Record(c, t, step); Contains(c, t'.state, q') && t'.published == t'.released + q'
  {
    hide Chain, After, WriterFits, SizeField, FieldValue, Power256;
    q' := q;
    if Enabled(c, t.state, step) {
      StepKeeps(c, t.state, q, step);
      if step.Publish? {
        q' := q + [Element(SliceAt(c, t.state, t.state.sent, t.state.writer.size))];
      } else if step.Release? {
        ChainHead(c, t.state, q);
        q' := q[1..];
        assert q == [q[0]] + q[1..];
      }
    }
  }

  /** First in, first out, in every interleaving: released elements are the published ones, in order, unharmed. */
  lemma {:induction false} ReleasedAsPublished(c: Parameters, data: seq<byte>, steps: seq<Step>)
    returns (q: seq<Element>)
    requires c.maxElementSize + c.headerSize <= c.capacity == |data| && 0 < c.headerSize
    requires c.maxElementSize < Power256(c.headerSize)
    ensures var t := Run(c, Trace(Start(c, data), [], []), steps);
      && t.published == t.released + q && t.released <= t.published && Contains(c, t.state, q)
      && (t.state.sent == t.state.received <==> q == [])
      && (t.state.reader.Sized? ==>
            q != [] && SliceAt(c, t.state, t.state.received, t.state.reader.size) == q[0].bytes)
  {
    StartsEmpty(c, data);
    var t0 := Trace(Start(c, data), [], []);
    q := RunKeeps(c, t0, steps, []);
    var t := Run(c, t0, steps);
    if q != [] {
      ChainHead(c, t.state, q);
    }
  }

  /** No step but a release takes the first element away. */
  lemma {:induction false} FirstStays(c: Parameters, t: Trace, step: Step, q: seq<Element>) returns (q': seq<Element>)
    requires Contains(c, t.state, q) && q != [] && !step.Release?
    ensures var t' := Record(c, t, step);
      && Contains(c, t'.state, q') && q <= q' && t'.state.received == t.state.received && t'.released == t.released
  {
    hide Chain, WriterFits, SizeField, FieldValue, Power256;
    q' := q;
    if Enabled(c, t.state, step) {
      StepKeeps(c, t.state, q, step);
      if step.Publish? {
        q' := q + [Element(SliceAt(c, t.state, t.state.sent, t.state.writer.size))];
      }
    }
  }

  /**
   The slice that peek() has returned stays the first element, byte for byte, until the reader releases it: whatever
   the writer does in the meantime, and however often the reader looks again.
   */
  lemma {:induction false} PeekedStays(c: Parameters, t: Trace, steps: seq<Step>, q: seq<Element>)
    returns (q': seq<Element>)
    requires Contains(c, t.state, q) && q != [] && Release !in steps
    ensures var t' := Run(c, t, steps);
      && Contains(c, t'.state, q') && q <= q' && t'.released == t.released
      && t'.state.received == t.state.received
      && |q[0].bytes| <= c.maxElementSize
      && SliceAt(c, t.state, t.state.received, |q[0].bytes|) == q[0].bytes
      && SliceAt(c, t'.state, t'.state.received, |q[0].bytes|) == q[0].bytes
    decreases |steps|
  {
    hide Chain, WriterFits, ReaderKnows, Record;
    ChainHead(c, t.state, q);
    if steps == [] {
      q' := q;
    } else {
      var first := FirstStays(c, t, steps[0], q);
      q' := PeekedStays(c, Record(c, t, steps[0]), steps[1..], first);
    }
  }

  /** While its owner has a slice, only his own writes change it. */
  lemma {:induction false} SliceIsPrivate(c: Parameters, s: State, q: seq<Element>, step: Step)
    requires Contains(c, s, q) && Enabled(c, s, step) && s.writer.Ready? && s.writer.granted > 0
    requires !step.Allocate? && !step.StartCommit?
    ensures After(c, s, step).writer == s.writer && WellFormed(c, After(c, s, step))
    ensures var n := s.writer.granted;
      SliceAt(c, After(c, s, step), After(c, s, step).sent, n)
      == if step.Write? then SetByte(SliceAt(c, s, s.sent, n), step.i, step.b) else SliceAt(c, s, s.sent, n)
  {
    hide Chain;
    StepKeeps(c, s, q, step);
  }

  /** Committing publishes the slice as it is: writing the size field does not touch it. */
  lemma {:induction false} CommitKeepsSlice(c: Parameters, s: State, q: seq<Element>, step: Step)
    requires Contains(c, s, q) && Enabled(c, s, step) && (s.writer.Committing? || step.StartCommit?) && !step.Publish?
    ensures var s' := After(c, s, step);
      var n := if step.StartCommit? then s.writer.granted else s.writer.size;
      && WellFormed(c, s') && s'.writer.Committing? && s'.writer.size == n
      && SliceAt(c, s', s'.sent, n) == SliceAt(c, s, s.sent, n)
  {
    hide Chain, SizeField;
    StepKeeps(c, s, q, step);
    if step.StartCommit? {
      StartCommitKeeps(c, s, q);
    }
  }

  // ----- Progress -----

  /** allocate() grants a slice if and only if the size is allowed and a slot is free behind what is in use. */
  lemma {:induction false} AllocateGrantsExactly(c: Parameters, s: State, q: seq<Element>, size: nat)
    requires Contains(c, s, q) && s.writer.Ready?
    ensures var used := if s.sent < s.received then s.sent + 2 * c.capacity - s.received else s.sent - s.received;
      && After(c, s, Allocate(size)) == s.(writer := Ready(
        if 0 < size <= c.maxElementSize && used + c.maxElementSize + c.headerSize <= c.capacity then size else 0))
      && Available(c, s.sent, s.received)
         == if used + c.maxElementSize + c.headerSize <= c.capacity then c.capacity - used else 0
  {
    hide Chain;
  }

  /** The bytes that elements take up with their size fields. */
  function Used(c: Parameters, q: seq<Element>): (n: nat) {
    if q == [] then 0 else |q[0].bytes| + c.headerSize + Used(c, q[1..])
  }

  /** The end of the array is skipped at most once between the first element and the end, and costs less than a slot. */
  lemma {:induction false} ChainLength(c: Parameters, data: seq<byte>, p: nat, q: seq<Element>, s: nat)
    requires c.Valid() && Chain(c, data, p, q, s) && Distance(c, p, s) <= c.capacity
    ensures Used(c, q) <= Distance(c, p, s)
    ensures p <= s && (p < c.capacity <==> s < c.capacity) ==> Distance(c, p, s) == Used(c, q)
    ensures Distance(c, p, s) < Used(c, q) + c.Slot()
    decreases |q|
  {
    hide Holds;
    if q != [] {
      ChainLength(c, data, Next(c, p, |q[0].bytes|), q[1..], s);
    }
  }

  /**
   What a queue holds guarantees room: with every element and its size field counted, a slot for the next element, and
   less than another one that may be skipped at the end of the array. And it is never granted beyond the capacity.
   */
  lemma {:induction false} RoomByContents(c: Parameters, s: State, q: seq<Element>, size: nat)
    requires Contains(c, s, q) && s.writer.Ready? && 0 < size <= c.maxElementSize
    ensures Used(c, q) + 2 * (c.maxElementSize + c.headerSize) <= c.capacity + 1 ==>
              After(c, s, Allocate(size)).writer == Ready(size)
    ensures After(c, s, Allocate(size)).writer == Ready(size) ==>
              Used(c, q) + c.maxElementSize + c.headerSize <= c.capacity
  {
    hide Chain;
    AllocateGrantsExactly(c, s, q, size);
    ChainLength(c, s.data, s.received, q, s.sent);
  }

  /** No space is lost for good: an empty queue takes an element of any size up to the maximum. */
  lemma {:induction false} EmptyQueueAccepts(c: Parameters, s: State, size: nat)
    requires Contains(c, s, []) && s.writer.Ready? && 0 < size <= c.maxElementSize
    ensures Available(c, s.sent, s.received) == c.capacity
    ensures After(c, s, Allocate(size)).writer == Ready(size)
  {
  }

  /** The reader gets the first element: it sees that there is one, loads its size, and releases it. */
  lemma {:induction false} FirstIsReleased(c: Parameters, t: Trace, q: seq<Element>)
    requires Contains(c, t.state, q) && t.state.reader.Idle? && q != []
    ensures var t' := Run(c, t, [Check, LoadSize, Release]);
      && t'.released == t.released + [q[0]] && t'.published == t.published
      && t'.state.reader.Idle? && t'.state.writer == t.state.writer && Contains(c, t'.state, q[1..])
  {
    hide Chain, WriterFits, SizeField, FieldValue, Power256, Run, SizeAt;
    RunThree(c, t, Check, LoadSize, Release);
    NotEmptyApart(c, t.state, q);
    ChainHead(c, t.state, q);
    StepKeeps(c, t.state, q, Check);
    var s1 := After(c, t.state, Check);
    assert s1.reader == NonEmpty;
    StepKeeps(c, s1, q, LoadSize);
    var s2 := After(c, s1, LoadSize);
    ChainHead(c, s2, q);
    StepKeeps(c, s2, q, Release);
  }

  lemma {:induction false} RunThree(c: Parameters, t: Trace, a: Step, b: Step, d: Step)
    ensures Run(c, t, [a, b, d]) == Record(c, Record(c, Record(c, t, a), b), d)
  {
    hide Record;
    RunOne(c, t, a, [b, d]);
    RunOne(c, Record(c, t, a), b, [d]);
    RunOne(c, Record(c, Record(c, t, a), b), d, []);
  }

  lemma {:induction false} RunOne(c: Parameters, t: Trace, step: Step, steps: seq<Step>)
    ensures Run(c, t, [step] + steps) == Run(c, Record(c, t, step), steps)
    ensures Run(c, t, []) == t
  {
    assert ([step] + steps)[1..] == steps;
  }

  /** The indexes are equal if and only if the queue is empty. */
  lemma {:induction false} NotEmptyApart(c: Parameters, s: State, q: seq<Element>)
    requires Contains(c, s, q)
    ensures s.sent == s.received <==> q == []
  {
    hide Holds;
  }

  lemma {:induction false} RunAppend(c: Parameters, t: Trace, a: seq<Step>, b: seq<Step>)
    ensures Run(c, t, a + b) == Run(c, Run(c, t, a), b)
    decreases |a|
  {
    hide Record;
    if a == [] {
      assert a + b == b;
    } else {
      assert (a + b)[1..] == a[1..] + b;
      RunAppend(c, Record(c, t, a[0]), a[1..], b);
    }
  }

  /** The owner fills the slice, from byte i on. */
  function WriteSteps(x: seq<byte>, i: nat): (steps: seq<Step>)
    requires i <= |x|
    decreases |x| - i
  {
    if i == |x| then [] else [Write(i, x[i])] + WriteSteps(x, i + 1)
  }

  function StoreSteps(n: nat): (steps: seq<Step>) {
    if n == 0 then [] else [StoreSizeByte] + StoreSteps(n - 1)
  }

  /** What stays while the writer is at work: everything but its own state and the array. */
  ghost predicate OnlyWriterWorks(t: Trace, t': Trace) {
    && t'.published == t.published && t'.released == t.released && t'.state.sent == t.state.sent
    && t'.state.received == t.state.received && t'.state.reader == t.state.reader
  }

  lemma {:induction false} SliceIsFilled(c: Parameters, t: Trace, q: seq<Element>, x: seq<byte>, i: nat)
    requires Contains(c, t.state, q) && t.state.writer == Ready(|x|) && 0 < |x| && i <= |x|
    requires SliceAt(c, t.state, t.state.sent, |x|)[..i] == x[..i]
    ensures var t' := Run(c, t, WriteSteps(x, i));
      && OnlyWriterWorks(t, t') && Contains(c, t'.state, q) && t'.state.writer == Ready(|x|)
      && SliceAt(c, t'.state, t'.state.sent, |x|) == x
    decreases |x| - i
  {
    hide Chain, WriterFits, ReaderKnows, SliceAt, Run, SetByte;
    if i == |x| {
      RunOne(c, t, Check, []);
      assert x[..i] == x && SliceAt(c, t.state, t.state.sent, |x|)[..i] == SliceAt(c, t.state, t.state.sent, |x|);
    } else {
      var step := Write(i, x[i]);
      RunOne(c, t, step, WriteSteps(x, i + 1));
      StepKeeps(c, t.state, q, step);
      SliceIsPrivate(c, t.state, q, step);
      OneMoreByte(SliceAt(c, t.state, t.state.sent, |x|), x, i);
      SliceIsFilled(c, Record(c, t, step), q, x, i + 1);
    }
  }

  lemma {:induction false} OneMoreByte(slice: seq<byte>, x: seq<byte>, i: nat)
    requires |slice| == |x| && i < |x| && slice[..i] == x[..i]
    ensures SetByte(slice, i, x[i])[..i + 1] == x[..i + 1]
  {
    assert SetByte(slice, i, x[i])[..i + 1] == slice[..i] + [x[i]];
  }

  lemma {:induction false} SizeIsStored(c: Parameters, t: Trace, q: seq<Element>, n: nat)
    requires Contains(c, t.state, q) && t.state.writer.Committing? && t.state.writer.stored + n == c.headerSize
    ensures var t' := Run(c, t, StoreSteps(n));
      && OnlyWriterWorks(t, t') && Contains(c, t'.state, q)
      && t'.state.writer == Committing(t.state.writer.size, c.headerSize)
      && SliceAt(c, t'.state, t'.state.sent, t.state.writer.size)
         == SliceAt(c, t.state, t.state.sent, t.state.writer.size)
    decreases n
  {
    hide Chain, WriterFits, ReaderKnows, SliceAt, Run, SetByte, SizeField;
    if n == 0 {
      RunOne(c, t, Check, []);
    } else {
      RunOne(c, t, StoreSizeByte, StoreSteps(n - 1));
      StepKeeps(c, t.state, q, StoreSizeByte);
      CommitKeepsSlice(c, t.state, q, StoreSizeByte);
      SizeIsStored(c, Record(c, t, StoreSizeByte), q, n - 1);
    }
  }

  /** The steps of a writer that allocates, fills and commits an element. */
  function SendSteps(c: Parameters, x: seq<byte>): (steps: seq<Step>) {
    [Allocate(|x|)] + (WriteSteps(x, 0) + ([StartCommit] + (StoreSteps(c.headerSize) + [Publish])))
  }

  /** The writer makes progress: with a free slot, its steps publish just what was written, behind the others. */
  lemma {:induction false} AnyIsPublished(c: Parameters, t: Trace, q: seq<Element>, x: seq<byte>)
    requires Contains(c, t.state, q) && t.state.writer.Ready? && 0 < |x| <= c.maxElementSize
    requires Distance(c, t.state.received, t.state.sent) + c.maxElementSize + c.headerSize <= c.capacity
    ensures var t' := Run(c, t, SendSteps(c, x));
      && t'.published == t.published + [Element(x)] && t'.released == t.released
      && t'.state.reader == t.state.reader && t'.state.writer == Ready(0)
      && Contains(c, t'.state, q + [Element(x)])
  {
    hide Chain, WriterFits, ReaderKnows, SliceAt, Run, SetByte, SizeField, WriteSteps, StoreSteps, Distance;
    AllocateGrantsExactly(c, t.state, q, |x|);
    StepKeeps(c, t.state, q, Allocate(|x|));
    var t1 := Record(c, t, Allocate(|x|));
    assert t1.state.writer == Ready(|x|) by {
      DistanceIs(c, t.state.received, t.state.sent);
    }
    SliceIsFilled(c, t1, q, x, 0);
    var t2 := Run(c, t1, WriteSteps(x, 0));
    StartCommitKeeps(c, t2.state, q);
    CommitKeepsSlice(c, t2.state, q, StartCommit);
    var t3 := Record(c, t2, StartCommit);
    SizeIsStored(c, t3, q, c.headerSize);
    var t4 := Run(c, t3, StoreSteps(c.headerSize));
    StepKeeps(c, t4.state, q, Publish);
    SendInParts(c, t, x);
  }

  lemma {:induction false} DistanceIs(c: Parameters, a: nat, b: nat)
    requires c.Valid() && IsPosition(c, a) && IsPosition(c, b)
    ensures Distance(c, a, b) == if b < a then b + 2 * c.capacity - a else b - a
  {
  }

  lemma {:induction false} SendInParts(c: Parameters, t: Trace, x: seq<byte>)
    ensures var t3 := Record(c, Run(c, Record(c, t, Allocate(|x|)), WriteSteps(x, 0)), StartCommit);
      Run(c, t, SendSteps(c, x)) == Record(c, Run(c, t3, StoreSteps(c.headerSize)), Publish)
  {
    hide Run, Record, WriteSteps, StoreSteps;
    var stores, fills := StoreSteps(c.headerSize), WriteSteps(x, 0);
    var t1 := Record(c, t, Allocate(|x|));
    RunOne(c, t, Allocate(|x|), fills + ([StartCommit] + (stores + [Publish])));
    RunAppend(c, t1, fills, [StartCommit] + (stores + [Publish]));
    var t2 := Run(c, t1, fills);
    RunOne(c, t2, StartCommit, stores + [Publish]);
    var t3 := Record(c, t2, StartCommit);
    RunAppend(c, t3, stores, [Publish]);
    var t4 := Run(c, t3, stores);
    assert [Publish] + [] == [Publish];
    RunOne(c, t4, Publish, []);
    RunOne(c, Record(c, t4, Publish), Publish, []);
  }

  // ----- A size type that is too narrow -----

  lemma {:induction false} PowerNarrows(h: nat)
    ensures FieldValue(SizeField(h, Power256(h))) == 0
  {
    if h > 0 {
      assert 256 * Power256(h - 1) / 256 == Power256(h - 1);
      PowerNarrows(h - 1);
    }
  }

  /** commit() keeps the size of every slice that allocate() grants, if and only if the maximum fits SIZE_TYPE. */
  lemma {:induction false} SizesKeptExactly(c: Parameters)
    ensures (forall n: nat :: 0 < n <= c.maxElementSize ==> FieldValue(SizeField(c.headerSize, n)) == n)
            <==> c.maxElementSize < Power256(c.headerSize)
  {
    if c.maxElementSize < Power256(c.headerSize) {
      forall n: nat | 0 < n <= c.maxElementSize ensures FieldValue(SizeField(c.headerSize, n)) == n {
        SizeFieldHolds(c.headerSize, n);
      }
    } else {
      PowerNarrows(c.headerSize);
    }
  }

  /** If it does not fit, a slice of 256^headerSize bytes is granted, and committed as an empty one. */
  lemma {:induction false} SliceIsLost(c: Parameters, data: seq<byte>)
    requires c.Valid() && |data| == c.capacity && c.maxElementSize >= Power256(c.headerSize)
    ensures var n := Power256(c.headerSize);
      var t := Run(c, Trace(Start(c, data), [], []), [Allocate(n)]);
      var t' := Run(c, t, [StartCommit]);
      t.state.writer == Ready(n) && t'.state.writer == Committing(0, 0)
  {
    PowerNarrows(c.headerSize);
    hide FieldValue, SizeField, Power256, AdvanceIndex;
    var t := Trace(Start(c, data), [], []);
    var first := Record(c, t, Allocate(Power256(c.headerSize)));
    assert Run(c, t, [Allocate(Power256(c.headerSize))]) == Run(c, first, []) == first;
    assert Run(c, first, [StartCommit]) == Run(c, Record(c, first, StartCommit), []);
  }
}
