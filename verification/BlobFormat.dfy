/**
 The writer of the blob format (tools/blob/__init__.py, tools/blob/utils.py, tools/blob/__main__.py):
 a tree of byte elements is padded, prefixed with its size, framed into a configuration record that ends
 with a checksum, and the records are put behind one outer header.

 The checksum comes from a library outside the repository, so every member takes it as a parameter `crc`;
 all results hold for every checksum function.
 */
module BlobFormat {
  import opened Results
  import opened Bytes

  const VERSION: u32 := 1
  const MAGIC: u32 := 0xDEADBEEF
  const HEADER_SIZE := 12
  const RECORD_HEADER_SIZE := 16
  const RESERVED_SIZE := 8
  const CRC_SIZE := 4
  const LINE_LENGTH := 4

  // ConfigType
  const ROUTING: u32 := 0x00
  const RX_ADAPTER: u32 := 0x01
  const TX_ADAPTER: u32 := 0x02
  const CHANNEL: u32 := 0xCC
  const CHANNEL_NAMES: u32 := 0xDD
  const META: u32 := 0xFE
  const UNKNOWN: u32 := 0xFFFFFFFF

  // ----- Element trees and their bytes -----

  /** BlobElement is a Leaf and BlobElementList a Node; their descriptions only serve pretty-printing. */
  datatype Element = Leaf(data: seq<byte>) | Node(items: seq<Element>)

  function Flat(e: Element): (s: seq<byte>) {
    match e
    case Leaf(data) => data
    case Node(items) => FlatAll(items)
  }

  function FlatAll(items: seq<Element>): (s: seq<byte>) {
    if items == [] then [] else Flat(items[0]) + FlatAll(items[1..])
  }

  lemma {:induction false} FlatAllAppend(a: seq<Element>, b: seq<Element>)
    ensures FlatAll(a + b) == FlatAll(a) + FlatAll(b)
  {
    if a == [] {
      assert a + b == b;
    } else {
      assert (a + b)[1..] == a[1..] + b;
      FlatAllAppend(a[1..], b);
    }
  }

  lemma {:induction false} FlatAllOne(e: Element)
    ensures FlatAll([e]) == Flat(e)
  {
  }

  predicate InRange32(vs: seq<int>) {
    forall i :: 0 <= i < |vs| ==> 0 <= vs[i] <= MAX_U32
  }

  predicate InRange16(vs: seq<int>) {
    forall i :: 0 <= i < |vs| ==> 0 <= vs[i] <= MAX_U16
  }

  predicate InRange8(vs: seq<int>) {
    forall i :: 0 <= i < |vs| ==> 0 <= vs[i] <= 0xFF
  }

  /** iter_to_blob_element_list with format ">I": one leaf per value; struct.pack raises on a value out of range. */
  function Vector32(vs: seq<int>): (r: Result<Element>)
    ensures r.Ok? ==> r.value.Node?
  {
    if InRange32(vs) then Ok(Node(Leaves32(vs))) else Err(ValueOutOfRange)
  }

  function Leaves32(vs: seq<u32>): (items: seq<Element>)
    ensures FlatAll(items) == Be32s(vs)
  {
    if vs == [] then [] else [Leaf(Be32(vs[0]))] + Leaves32(vs[1..])
  }

  /** The same with format ">H". */
  function Vector16(vs: seq<int>): (r: Result<Element>)
    ensures r.Ok? ==> r.value.Node?
  {
    if InRange16(vs) then Ok(Node(Leaves16(vs))) else Err(ValueOutOfRange)
  }

  function Leaves16(vs: seq<u16>): (items: seq<Element>)
    ensures FlatAll(items) == Be16s(vs)
  {
    if vs == [] then [] else [Leaf(Be16(vs[0]))] + Leaves16(vs[1..])
  }

  /** The same with format ">B". */
  function Vector8(vs: seq<int>): (r: Result<Element>)
    ensures r.Ok? ==> r.value.Node?
  {
    if InRange8(vs) then Ok(Node(Leaves8(vs))) else Err(ValueOutOfRange)
  }

  function Leaves8(vs: seq<byte>): (items: seq<Element>)
    ensures FlatAll(items) == vs
  {
    if vs == [] then [] else [Leaf([vs[0]])] + Leaves8(vs[1..])
  }

  /** make_padding with its default fill byte and line length. */
  function MakePadding(length: nat): (s: seq<byte>)
    ensures |s| < LINE_LENGTH
    ensures (length + |s|) % LINE_LENGTH == 0
    ensures forall i :: 0 <= i < |s| ==> s[i] == 0xFF
  {
    if length % LINE_LENGTH == 0 then [] else Fill(LINE_LENGTH - length % LINE_LENGTH, 0xFF)
  }

  /** prepend_size: a size element in front of the items. */
  function PrependSize(items: seq<Element>, extra: nat): (r: Result<seq<Element>>) {
    var size := |FlatAll(items)| + extra;
    if size <= MAX_U32 then Ok([Leaf(Be32(size))] + items) else Err(ValueOutOfRange)
  }

  lemma {:induction false} PrependSizeBytes(items: seq<Element>, extra: nat)
    requires |FlatAll(items)| + extra <= MAX_U32
    ensures FlatAll(PrependSize(items, extra).value) == Be32(|FlatAll(items)| + extra) + FlatAll(items)
  {
    var size := Leaf(Be32(|FlatAll(items)| + extra));
    assert ([size] + items)[1..] == items;
  }

  /** append_padding: the items, and a padding element when one is needed. */
  function AppendPadding(items: seq<Element>): (r: seq<Element>) {
    var padding := MakePadding(|FlatAll(items)|);
    if |padding| > 0 then items + [Leaf(padding)] else items
  }

  // ----- Records: what config() writes, as a layout on bytes -----

  datatype Record = Record(configType: u32, reserved: seq<byte>, payload: seq<byte>)

  function Padded(payload: seq<byte>): (s: seq<byte>)
    ensures |s| % 4 == 0 && |payload| <= |s| < |payload| + 4
  {
    payload + MakePadding(|payload|)
  }

  /** The size field, padded payload plus checksum, fits: the largest payload is the largest multiple of 4 that does. */
  predicate Framable(r: Record) {
    |r.reserved| == RESERVED_SIZE && |Padded(r.payload)| + CRC_SIZE <= MAX_U32
  }

  /** Everything the checksum covers. */
  function Covered(r: Record): (s: seq<byte>)
    requires Framable(r)
    ensures |s| == RECORD_HEADER_SIZE + |Padded(r.payload)|
  {
    Be32(r.configType) + r.reserved + Be32(|Padded(r.payload)| + CRC_SIZE) + Padded(r.payload)
  }

  function RecordBytes(crc: seq<byte> -> u32, r: Record): (s: seq<byte>)
    requires Framable(r)
    ensures |s| == RECORD_HEADER_SIZE + |Padded(r.payload)| + CRC_SIZE
  {
    Covered(r) + Be32(crc(Covered(r)))
  }

  // ----- config() -----

  /** The eight bytes between type and size: the given elements if they have exactly that size, else zeros. */
  function ReservedItems(reserved: Option<seq<Element>>): (items: seq<Element>)
    ensures |FlatAll(items)| == RESERVED_SIZE
  {
    if reserved.None? || |FlatAll(reserved.value)| != RESERVED_SIZE then
      FlatAllOne(Leaf(Fill(RESERVED_SIZE, 0)));
      [Leaf(Fill(RESERVED_SIZE, 0))]
    else
      reserved.value
  }

  /** A Python list of elements, an object that can be appended to and aliased. */
  class ElementList {
    var items: seq<Element>

    constructor (items: seq<Element>)
      ensures this.items == items
    {
      this.items := items;
    }
  }

  /** append_padding on list objects: the very list that was given, unless padding has to be added. */
  method AppendPaddingToList(list: ElementList) returns (r: ElementList)
    ensures r.items == AppendPadding(list.items)
    ensures |MakePadding(|FlatAll(list.items)|)| == 0 ==> r == list
    ensures r == list || fresh(r)
  {
    var padding := MakePadding(|FlatAll(list.items)|);
    if |padding| > 0 {
      r := new ElementList(list.items + [Leaf(padding)]);
    } else {
      r := list;
    }
  }

  /** prepend_size on list objects: always a new list. */
  method PrependSizeToList(list: ElementList, extra: nat) returns (r: Result<ElementList>)
    ensures r.Ok? == PrependSize(list.items, extra).Ok?
    ensures r.Ok? ==> fresh(r.value) && r.value.items == PrependSize(list.items, extra).value
    ensures r.Err? ==> r.error == ValueOutOfRange
  {
    var size := |FlatAll(list.items)| + extra;
    if size > MAX_U32 {
      return Err(ValueOutOfRange);
    }
    var l := new ElementList([Leaf(Be32(size))] + list.items);
    return Ok(l);
  }

  /** validate_blob_element_list: appends the checksum of the whole record to its last list, in place. */
  method Validate(crc: seq<byte> -> u32, head: seq<Element>, data: ElementList)
    modifies data
    ensures data.items == old(data.items) + [Leaf(Be32(crc(FlatAll(head) + FlatAll(old(data.items)))))]
  {
    data.items := data.items + [Leaf(Be32(crc(FlatAll(head) + FlatAll(data.items))))];
  }

  /** The record that config() is asked for. */
  function RequestedRecord(configType: u32, data: seq<Element>, reserved: Option<seq<Element>>): (r: Record) {
    Record(configType, FlatAll(ReservedItems(reserved)), FlatAll(data))
  }

  /**
   config(): builds one record. It may modify no existing object, so the checksum is never appended to the
   list that the caller passed in, although append_padding can hand that very list on.
   */
  method MakeConfig(crc: seq<byte> -> u32, configType: u32, data: ElementList?, reserved: Option<seq<Element>>)
    returns (r: Result<Element>)
    ensures var record := RequestedRecord(configType, if data == null then [] else data.items, reserved);
      if Framable(record) then r.Ok? && Flat(r.value) == RecordBytes(crc, record) else r == Err(ValueOutOfRange)
  {
    var list := data;
    if list == null {
      list := new ElementList([]);
    }
    ghost var record := RequestedRecord(configType, list.items, reserved);
    AppendPaddingBytes(list.items);
    var padded := AppendPaddingToList(list);
    var sized :- PrependSizeToList(padded, CRC_SIZE);
    var head := [Leaf(Be32(configType))] + ReservedItems(reserved);
    CoveredBytes(configType, reserved, sized.items, record);
    ghost var unsealed := sized.items;
    Validate(crc, head, sized);
    SealedBytes(head, unsealed, Leaf(Be32(crc(Covered(record)))));
    r := Ok(Node(head + [Node(sized.items)]));
  }

  lemma {:induction false} AppendPaddingBytes(items: seq<Element>)
    ensures FlatAll(AppendPadding(items)) == Padded(FlatAll(items))
  {
    var padding := MakePadding(|FlatAll(items)|);
    FlatAllAppend(items, [Leaf(padding)]);
    FlatAllOne(Leaf(padding));
    if |padding| == 0 {
      assert FlatAll(items) + padding == FlatAll(items);
    }
  }

  lemma {:induction false} CoveredBytes(configType: u32, reserved: Option<seq<Element>>, sized: seq<Element>,
      record: Record)
    requires Framable(record)
    requires record.configType == configType && record.reserved == FlatAll(ReservedItems(reserved))
    requires FlatAll(sized) == Be32(|Padded(record.payload)| + CRC_SIZE) + Padded(record.payload)
    ensures FlatAll([Leaf(Be32(configType))] + ReservedItems(reserved)) + FlatAll(sized) == Covered(record)
  {
    FlatAllAppend([Leaf(Be32(configType))], ReservedItems(reserved));
    FlatAllOne(Leaf(Be32(configType)));
  }

  lemma {:induction false} SealedBytes(head: seq<Element>, unsealed: seq<Element>, seal: Element)
    ensures FlatAll(head + [Node(unsealed + [seal])]) == FlatAll(head) + FlatAll(unsealed) + Flat(seal)
  {
    FlatAllAppend(unsealed, [seal]);
    FlatAllOne(seal);
    FlatAllAppend(head, [Node(unsealed + [seal])]);
    FlatAllOne(Node(unsealed + [seal]));
  }

  /** Record framing, for every payload: lengths, alignment and the value of the size field. */
  lemma {:induction false} RecordFraming(crc: seq<byte> -> u32, r: Record)
    requires Framable(r)
    ensures var s := RecordBytes(crc, r);
      && |s| % 4 == 0
      && |s| == RECORD_HEADER_SIZE + FromBe32(s[12..16])
      && FromBe32(s[12..16]) == |Padded(r.payload)| + CRC_SIZE
      && FromBe32(s[..4]) == r.configType
      && s[4..12] == r.reserved
      && s[16..16 + |r.payload|] == r.payload
      && (forall i :: 16 + |r.payload| <= i < |s| - 4 ==> s[i] == 0xFF)
      && FromBe32(s[|s| - 4..]) == crc(s[..|s| - 4])
  {
    hide Be32, FromBe32;
    var s := RecordBytes(crc, r);
    var size := |Padded(r.payload)| + CRC_SIZE;
    Be32RoundTrip(r.configType);
    Be32RoundTrip(size);
    Be32RoundTrip(crc(Covered(r)));
    assert s[..4] == Be32(r.configType);
    assert s[12..16] == Be32(size);
    assert s[..|s| - 4] == Covered(r);
    assert s[|s| - 4..] == Be32(crc(Covered(r)));
  }

  // ----- The blob -----

  predicate AllFramable(records: seq<Record>) {
    forall i :: 0 <= i < |records| ==> Framable(records[i])
  }

  /** The concatenated records. */
  function Body(crc: seq<byte> -> u32, records: seq<Record>): (s: seq<byte>)
    requires AllFramable(records)
  {
    if records == [] then [] else RecordBytes(crc, records[0]) + Body(crc, records[1..])
  }

  lemma {:induction false} RecordLengthAligned(crc: seq<byte> -> u32, r: Record)
    requires Framable(r)
    ensures |RecordBytes(crc, r)| % 4 == 0
  {
  }

  lemma {:induction false} BodyStep(crc: seq<byte> -> u32, records: seq<Record>)
    requires AllFramable(records) && records != []
    ensures Framable(records[0]) && AllFramable(records[1..])
    ensures Body(crc, records) == RecordBytes(crc, records[0]) + Body(crc, records[1..])
  {
    hide RecordBytes, Framable;
    assert Framable(records[0]);
  }

  lemma {:induction false} BodyOfNone(crc: seq<byte> -> u32)
    ensures Body(crc, []) == []
  {
  }

  lemma {:induction false} AlignedSum(a: seq<byte>, b: seq<byte>)
    requires |a| % 4 == 0 && |b| % 4 == 0
    ensures |a + b| % 4 == 0
  {
  }

  lemma {:induction false} BodyAligned(crc: seq<byte> -> u32, records: seq<Record>)
    requires AllFramable(records)
    ensures |Body(crc, records)| % 4 == 0
  {
    if records != [] {
      hide *;
      BodyStep(crc, records);
      RecordLengthAligned(crc, records[0]);
      BodyAligned(crc, records[1..]);
      AlignedSum(RecordBytes(crc, records[0]), Body(crc, records[1..]));
    }
  }

  lemma {:induction false} BodyAppend(crc: seq<byte> -> u32, a: seq<Record>, b: seq<Record>)
    requires AllFramable(a) && AllFramable(b) && AllFramable(a + b)
    ensures Body(crc, a + b) == Body(crc, a) + Body(crc, b)
  {
    hide *;
    if a == [] {
      assert a + b == b;
      BodyOfNone(crc);
    } else {
      assert (a + b)[0] == a[0] && (a + b)[1..] == a[1..] + b;
      BodyStep(crc, a);
      BodyStep(crc, a + b);
      BodyAppend(crc, a[1..], b);
    }
  }

  /** Every record of a blob starts on a 4-byte boundary, behind the records in front of it. */
  lemma {:induction false} RecordsAligned(crc: seq<byte> -> u32, records: seq<Record>, n: nat)
    requires AllFramable(records) && n < |records|
    ensures var start := |Body(crc, records[..n])|;
      && start % 4 == 0
      && start + |RecordBytes(crc, records[n])| <= |Body(crc, records)|
      && Body(crc, records)[start..start + |RecordBytes(crc, records[n])|] == RecordBytes(crc, records[n])
  {
    var front, back := records[..n], records[n..];
    assert records == front + back;
    BodyAligned(crc, front);
    BodyAppend(crc, front, back);
    assert Body(crc, back) == RecordBytes(crc, records[n]) + Body(crc, back[1..]);
  }

  /** Blob.create_blob_element_list: version, magic, size, records. */
  function BlobBytes(crc: seq<byte> -> u32, records: seq<Record>): (r: Result<seq<byte>>) {
    if AllFramable(records) && |Body(crc, records)| <= MAX_U32 then
      Ok(Be32(VERSION) + Be32(MAGIC) + Be32(|Body(crc, records)|) + Body(crc, records))
    else
      Err(ValueOutOfRange)
  }
}
