/**
 The image extractor behind the checksum of the application (tools/safety/crcCheck.py): which bytes of an Intel HEX
 file lie in an address range, and the word-wise byte swap.
 */
module IntelHex {
  import opened Results
  import opened Bytes

  // ----- Hexadecimal text -----

  function DigitValue(c: char): (d: Option<nat>)
    ensures d.Some? ==> d.value < 16
  {
    if '0' <= c <= '9' then Some(c as int - '0' as int)
    else if 'A' <= c <= 'F' then Some(c as int - 'A' as int + 10)
    else if 'a' <= c <= 'f' then Some(c as int - 'a' as int + 10)
    else None
  }

  /** int(text, 16), on digits only. */
  function HexValue(text: string): (r: Result<nat>) {
    if text == [] then Err(MalformedText) else Digits(text)
  }

  function Digits(text: string): (r: Result<nat>) {
    if text == [] then Ok(0)
    else
      var high :- Digits(text[..|text| - 1]);
      var d := DigitValue(text[|text| - 1]);
      if d.None? then Err(MalformedText) else Ok(high * 16 + d.value)
  }

  /** text[lo:hi], which is shorter at the end of the text. */
  function Slice(text: string, lo: nat, hi: nat): (s: string)
    requires lo <= hi
  {
    if hi <= |text| then text[lo..hi] else if lo <= |text| then text[lo..] else []
  }

  // ----- The extractor -----

  datatype Cell = Cell(address: nat, value: byte)

  /** The bytes of a data record, from its i-th on, with their addresses. */
  function DataCells(text: string, address: nat, count: nat, i: nat): (r: Result<seq<Cell>>)
    requires i <= count
    decreases count - i
  {
    if i == count then Ok([])
    else
      var value :- HexValue(Slice(text, 2 * i, 2 * i + 2));
      var rest :- DataCells(text, address, count, i + 1);
      Ok([Cell(address + i, value % 0x100)] + rest)
  }

  /** One line: what it says and how many bytes its record has. */
  datatype Line = DataLine(cells: seq<Cell>, end: nat) | OffsetLine(offset: nat) | OtherLine

  /** The reading of one line, at an address offset. */
  function ParseLine(line: string, offset: nat): (r: Result<Line>) {
    var recordType := Slice(line, 7, 9);
    var count :- HexValue(Slice(line, 1, 3));
    var address :- HexValue(Slice(line, 3, 7));
    var text := Slice(line, 9, 9 + 2 * count);
    if recordType == "02" then
      var segment :- HexValue(text);
      Ok(OffsetLine(segment * 16))
    else if recordType == "04" then
      var upper :- HexValue(text);
      Ok(OffsetLine(upper * 0x1_0000))
    else if recordType == "00" then
      var cells :- DataCells(text, offset + address, count, 0);
      Ok(DataLine(cells, offset + address + count))
    else Ok(OtherLine)
  }

  /** The values of the cells in [lo, hi), in order. */
  function InRange(cells: seq<Cell>, lo: nat, hi: nat): (data: seq<byte>) {
    if cells == [] then []
    else
      var init, last := InRange(cells[..|cells| - 1], lo, hi), cells[|cells| - 1];
      if lo <= last.address < hi then init + [last.value] else init
  }

  /** The rest of a file: reading stops behind the first data record that ends at or behind `hi`. */
  function Extracted(lines: seq<string>, offset: nat, lo: nat, hi: nat): (r: Result<seq<byte>>) {
    if lines == [] then Ok([])
    else
      var line :- ParseLine(lines[0], offset);
      match line
      case OtherLine => Extracted(lines[1..], offset, lo, hi)
      case OffsetLine(offset') => Extracted(lines[1..], offset', lo, hi)
      case DataLine(cells, end) =>
        if end >= hi then Ok(InRange(cells, lo, hi))
        else
          var rest :- Extracted(lines[1..], offset, lo, hi);
          Ok(InRange(cells, lo, hi) + rest)
  }

  function After<T>(read: seq<T>, r: Result<seq<T>>): (r': Result<seq<T>>) {
    if r.Err? then r else Ok(read + r.value)
  }

  lemma {:induction false} AfterMore<T>(read: seq<T>, next: seq<T>, r: Result<seq<T>>)
    ensures After([], r) == r && After(read, After(next, r)) == After(read + next, r)
    ensures After(read, Ok(next)) == Ok(read + next) && After(read, Ok([])) == Ok(read)
    ensures r.Err? ==> After(read, r) == r
  {
    assert r.Ok? ==> [] + r.value == r.value && read + (next + r.value) == read + next + r.value;
    assert read + [] == read;
  }

  function Restricted(r: Result<seq<Cell>>, lo: nat, hi: nat): (r': Result<seq<byte>>) {
    if r.Err? then Err(r.error) else Ok(InRange(r.value, lo, hi))
  }

  /** The loop over the bytes of one data record. */
  method CollectBytes(text: string, address: nat, count: nat, lo: nat, hi: nat) returns (r: Result<seq<byte>>)
    ensures r == Restricted(DataCells(text, address, count, 0), lo, hi)
  {
    hide After;
    var data: seq<byte> := [];
    ghost var seen: seq<Cell> := [];
    AfterMore(seen, [], DataCells(text, address, count, 0));
    for i := 0 to count
      invariant data == InRange(seen, lo, hi)
      invariant DataCells(text, address, count, 0) == After(seen, DataCells(text, address, count, i))
    {
      var value := HexValue(Slice(text, 2 * i, 2 * i + 2));
      if value.Err? {
        AfterMore(seen, [], Err(value.error));
        return Err(value.error);
      }
      var byteValue: byte := value.value % 0x100;
      if lo <= address + i < hi {
        data := data + [byteValue];
      }
      var cell := Cell(address + i, byteValue);
      DataCellsStep(text, address, count, i);
      AfterMore(seen, [cell], DataCells(text, address, count, i + 1));
      assert (seen + [cell])[..|seen|] == seen;
      seen := seen + [cell];
    }
    AfterMore(seen, [], Ok([]));
    r := Ok(data);
  }

  lemma {:induction false} DataCellsStep(text: string, address: nat, count: nat, i: nat)
    requires i < count && HexValue(Slice(text, 2 * i, 2 * i + 2)).Ok?
    ensures DataCells(text, address, count, i)
         == After([Cell(address + i, HexValue(Slice(text, 2 * i, 2 * i + 2)).value % 0x100)],
                  DataCells(text, address, count, i + 1))
  {
  }

  /** parse_hex_file(): the loop over the lines. */
  method ParseHexFile(lines: seq<string>, lo: nat, hi: nat) returns (r: Result<seq<byte>>)
    ensures r == Extracted(lines, 0, lo, hi)
  {
    hide ParseLine, InRange, After;
    var data: seq<byte> := [];
    var offset := 0;
    AfterMore(data, [], Extracted(lines, 0, lo, hi));
    assert lines[0..] == lines;
    for i := 0 to |lines|
      invariant Extracted(lines, 0, lo, hi) == After(data, Extracted(lines[i..], offset, lo, hi))
    {
      var rest := lines[i..];
      assert rest[0] == lines[i] && rest[1..] == lines[i + 1..];
      var line := ParseLine(lines[i], offset);
      if line.Err? {
        AfterMore(data, [], Err(line.error));
        return Err(line.error);
      }
      match line.value {
        case OtherLine =>
        case OffsetLine(o) => offset := o;
        case DataLine(cells, end) =>
          var bytes := InRange(cells, lo, hi);
          ExtractedStep(rest, offset, lo, hi);
          AfterMore(data, bytes, Extracted(lines[i + 1..], offset, lo, hi));
          data := data + bytes;
          if end >= hi {
            return Ok(data);
          }
      }
    }
    AfterMore(data, [], Ok([]));
    r := Ok(data);
  }

  /** What one data record contributes. */
  lemma {:induction false} ExtractedStep(lines: seq<string>, offset: nat, lo: nat, hi: nat)
    requires lines != [] && ParseLine(lines[0], offset).Ok? && ParseLine(lines[0], offset).value.DataLine?
    ensures var d := ParseLine(lines[0], offset).value;
      Extracted(lines, offset, lo, hi)
      == if d.end >= hi then Ok(InRange(d.cells, lo, hi))
         else After(InRange(d.cells, lo, hi), Extracted(lines[1..], offset, lo, hi))
  {
  }

  /** A readable line of any other type contributes nothing, leaves the offset alone, and does not end the reading. */
  lemma {:induction false} OtherTypesIgnored(line: string, rest: seq<string>, offset: nat, lo: nat, hi: nat)
    requires HexValue(Slice(line, 1, 3)).Ok? && HexValue(Slice(line, 3, 7)).Ok?
    requires |line| >= 9 ==> line[7..9] != "00" && line[7..9] != "02" && line[7..9] != "04"
    ensures Extracted([line] + rest, offset, lo, hi) == Extracted(rest, offset, lo, hi)
    ensures Image([line] + rest, offset) == Image(rest, offset)
  {
    hide HexValue, InRange;
    assert ([line] + rest)[1..] == rest;
    assert ParseLine(line, offset) == Ok(OtherLine);
  }

  /** The sixteen digits, in either case, and no other characters. */
  lemma {:induction false} DigitsExactly(c: char, d: nat)
    requires d < 16
    ensures DigitValue(c) == Some(d) <==> c == "0123456789ABCDEF"[d] || c == "0123456789abcdef"[d]
  {
  }

  // ----- The image of a file -----

  /** All data bytes of a file with their addresses, in file order, and where they belong. */
  function Image(lines: seq<string>, offset: nat): (r: Result<seq<Cell>>) {
    if lines == [] then Ok([])
    else
      var line :- ParseLine(lines[0], offset);
      match line
      case OtherLine => Image(lines[1..], offset)
      case OffsetLine(offset') => Image(lines[1..], offset')
      case DataLine(cells, _) =>
        var rest :- Image(lines[1..], offset);
        Ok(cells + rest)
  }

  /** What lies behind the data record at which reading stops for the end address `hi`. */
  function Unread(lines: seq<string>, offset: nat, hi: nat): (r: Result<seq<Cell>>) {
    if lines == [] then Ok([])
    else
      var line :- ParseLine(lines[0], offset);
      match line
      case OtherLine => Unread(lines[1..], offset, hi)
      case OffsetLine(offset') => Unread(lines[1..], offset', hi)
      case DataLine(_, end) => if end >= hi then Image(lines[1..], offset) else Unread(lines[1..], offset, hi)
  }

  lemma {:induction false} InRangeAppend(a: seq<Cell>, b: seq<Cell>, lo: nat, hi: nat)
    ensures InRange(a + b, lo, hi) == InRange(a, lo, hi) + InRange(b, lo, hi)
    decreases |b|
  {
    if b == [] {
      assert a + b == a;
    } else {
      assert (a + b)[..|a + b| - 1] == a + b[..|b| - 1];
      InRangeAppend(a, b[..|b| - 1], lo, hi);
    }
  }

  /** For a readable file: extracted and unread bytes together are all bytes of the image in the range. */
  lemma {:induction false} ExtractedAndUnread(lines: seq<string>, offset: nat, lo: nat, hi: nat)
    requires Image(lines, offset).Ok?
    ensures Extracted(lines, offset, lo, hi).Ok? && Unread(lines, offset, hi).Ok?
    ensures InRange(Image(lines, offset).value, lo, hi)
         == Extracted(lines, offset, lo, hi).value + InRange(Unread(lines, offset, hi).value, lo, hi)
    decreases |lines|
  {
    hide ParseLine, InRange;
    if lines == [] {
      assert InRange([], lo, hi) == [] by { NothingInRange(lo, hi); }
    } else {
      var line := ParseLine(lines[0], offset).value;
      match line {
        case OtherLine => ExtractedAndUnread(lines[1..], offset, lo, hi);
        case OffsetLine(o) => ExtractedAndUnread(lines[1..], o, lo, hi);
        case DataLine(cells, end) =>
          InRangeAppend(cells, Image(lines[1..], offset).value, lo, hi);
          if end < hi {
            ExtractedAndUnread(lines[1..], offset, lo, hi);
          }
      }
    }
  }

  lemma {:induction false} NothingInRange(lo: nat, hi: nat)
    ensures InRange([], lo, hi) == []
  {
  }

  /** Stopping early loses nothing, if and only if no byte behind the stop lies in the range. */
  lemma {:induction false} EarlyStopExactly(lines: seq<string>, lo: nat, hi: nat)
    requires Image(lines, 0).Ok?
    ensures Extracted(lines, 0, lo, hi).Ok? && Unread(lines, 0, hi).Ok?
    ensures Extracted(lines, 0, lo, hi).value == InRange(Image(lines, 0).value, lo, hi)
            <==> InRange(Unread(lines, 0, hi).value, lo, hi) == []
  {
    hide Image, Extracted, Unread, InRange;
    ExtractedAndUnread(lines, 0, lo, hi);
    var data, rest := Extracted(lines, 0, lo, hi).value, InRange(Unread(lines, 0, hi).value, lo, hi);
    assert |data + rest| == |data| + |rest|;
    assert rest == [] ==> data + rest == data;
  }

  // ----- Files in ascending order -----

  ghost predicate Ascending(cells: seq<Cell>) {
    forall i, j :: 0 <= i < j < |cells| ==> cells[i].address < cells[j].address
  }

  /** Every cell lies at or behind an address. */
  predicate From(cells: seq<Cell>, address: nat) {
    forall i :: 0 <= i < |cells| ==> cells[i].address >= address
  }

  lemma {:induction false} NoneInRange(cells: seq<Cell>, lo: nat, hi: nat)
    requires From(cells, hi)
    ensures InRange(cells, lo, hi) == []
  {
    if cells != [] {
      NoneInRange(cells[..|cells| - 1], lo, hi);
    }
  }

  /** A data record covers the addresses up to its end, without a gap. */
  lemma {:induction false} DataCellsAt(text: string, address: nat, count: nat, i: nat)
    requires i <= count && DataCells(text, address, count, i).Ok?
    ensures var cells := DataCells(text, address, count, i).value;
      |cells| == count - i && forall k :: 0 <= k < |cells| ==> cells[k].address == address + i + k
    decreases count - i
  {
    if i < count {
      DataCellsAt(text, address, count, i + 1);
      var cells := DataCells(text, address, count, i).value;
      forall k | 0 <= k < |cells| ensures cells[k].address == address + i + k {
        if k > 0 {
          assert cells[k] == cells[1..][k - 1];
        }
      }
    }
  }

  lemma {:induction false} LineCellsAt(line: string, offset: nat)
    requires ParseLine(line, offset).Ok? && ParseLine(line, offset).value.DataLine?
    ensures var d := ParseLine(line, offset).value;
      d.end >= |d.cells| && forall k :: 0 <= k < |d.cells| ==> d.cells[k].address == d.end - |d.cells| + k
  {
    var count, address := HexValue(Slice(line, 1, 3)).value, HexValue(Slice(line, 3, 7)).value;
    DataCellsAt(Slice(line, 9, 9 + 2 * count), offset + address, count, 0);
  }

  /** Every data record starts at or behind the end of the one before, and the first one at or behind `from`. */
  ghost predicate RecordsAscend(lines: seq<string>, offset: nat, from: nat) {
    lines != [] && ParseLine(lines[0], offset).Ok? ==>
      match ParseLine(lines[0], offset).value
      case OtherLine => RecordsAscend(lines[1..], offset, from)
      case OffsetLine(offset') => RecordsAscend(lines[1..], offset', from)
      case DataLine(cells, end) => end >= from + |cells| && RecordsAscend(lines[1..], offset, end)
  }

  /** Then the bytes of the image ascend as well. */
  lemma {:induction false} ImageAscends(lines: seq<string>, offset: nat, from: nat)
    requires Image(lines, offset).Ok? && RecordsAscend(lines, offset, from)
    ensures Ascending(Image(lines, offset).value) && From(Image(lines, offset).value, from)
    decreases |lines|
  {
    hide ParseLine;
    if lines != [] {
      var line := ParseLine(lines[0], offset).value;
      match line {
        case OtherLine => ImageAscends(lines[1..], offset, from);
        case OffsetLine(o) => ImageAscends(lines[1..], o, from);
        case DataLine(cells, end) =>
          LineCellsAt(lines[0], offset);
          ImageAscends(lines[1..], offset, end);
      }
    }
  }

  /** ... and everything behind the stop lies at or behind the end of the range. */
  lemma {:induction false} UnreadIsBehind(lines: seq<string>, offset: nat, from: nat, hi: nat)
    requires Image(lines, offset).Ok? && RecordsAscend(lines, offset, from)
    ensures Unread(lines, offset, hi).Ok? && From(Unread(lines, offset, hi).value, hi)
    decreases |lines|
  {
    hide ParseLine, Ascending;
    if lines != [] {
      var line := ParseLine(lines[0], offset).value;
      match line {
        case OtherLine => UnreadIsBehind(lines[1..], offset, from, hi);
        case OffsetLine(o) => UnreadIsBehind(lines[1..], o, from, hi);
        case DataLine(cells, end) =>
          if end < hi {
            UnreadIsBehind(lines[1..], offset, end, hi);
          } else {
            ImageAscends(lines[1..], offset, end);
          }
      }
    }
  }

  /** For files in ascending order the extractor returns exactly the image bytes in the range, in address order. */
  lemma {:induction false} AscendingIsExtracted(lines: seq<string>, lo: nat, hi: nat)
    requires Image(lines, 0).Ok? && RecordsAscend(lines, 0, 0)
    ensures Extracted(lines, 0, lo, hi) == Ok(InRange(Image(lines, 0).value, lo, hi))
    ensures Ascending(Image(lines, 0).value)
  {
    ImageAscends(lines, 0, 0);
    UnreadIsBehind(lines, 0, 0, hi);
    NoneInRange(Unread(lines, 0, hi).value, lo, hi);
    EarlyStopExactly(lines, lo, hi);
  }

  lemma {:induction false} InRangeSplit(cells: seq<Cell>, a: nat, b: nat, c: nat)
    requires a <= b <= c && Ascending(cells)
    ensures InRange(cells, a, b) + InRange(cells, b, c) == InRange(cells, a, c)
  {
    if cells != [] {
      var n := |cells| - 1;
      InRangeSplit(cells[..n], a, b, c);
      if a <= cells[n].address < b {
        assert forall i :: 0 <= i < n ==> cells[..n][i].address < cells[n].address;
        NoneAbove(cells[..n], b, c);
      }
    }
  }

  lemma {:induction false} NoneAbove(cells: seq<Cell>, b: nat, c: nat)
    requires forall i :: 0 <= i < |cells| ==> cells[i].address < b
    ensures InRange(cells, b, c) == []
  {
    if cells != [] {
      NoneAbove(cells[..|cells| - 1], b, c);
    }
  }

  /** Two adjacent ranges extracted one after the other give the joint range. */
  lemma {:induction false} AdjacentRanges(lines: seq<string>, a: nat, b: nat, c: nat)
    requires Image(lines, 0).Ok? && RecordsAscend(lines, 0, 0) && a <= b <= c
    ensures Extracted(lines, 0, a, b).Ok? && Extracted(lines, 0, b, c).Ok?
    ensures Extracted(lines, 0, a, c) == Ok(Extracted(lines, 0, a, b).value + Extracted(lines, 0, b, c).value)
  {
    AscendingIsExtracted(lines, a, b);
    AscendingIsExtracted(lines, b, c);
    AscendingIsExtracted(lines, a, c);
    InRangeSplit(Image(lines, 0).value, a, b, c);
  }

  // ----- Written files -----

  /** Records as the format defines them; a start address says where a program begins, and puts nothing in memory. */
  datatype HexRecord =
    | Data(address: u16, bytes: seq<byte>)
    | EndOfFile
    | Segment(base: u16)
    | StartSegment(segment: u16, pointer: u16)
    | Linear(base: u16)
    | StartLinear(start: u32)
  {
    /** The byte count field has two digits. */
    predicate Valid() {
      Data? ==> |bytes| < 0x100
    }
  }

  function Digit(d: nat): (c: char)
    requires d < 16
    ensures DigitValue(c) == Some(d)
  {
    if d < 10 then '0' + d as char else 'A' + (d - 10) as char
  }

  function Power16(width: nat): (n: nat) {
    if width == 0 then 1 else 16 * Power16(width - 1)
  }

  /** `width` digits. */
  function HexText(n: nat, width: nat): (s: string)
    ensures |s| == width
  {
    if width == 0 then [] else HexText(n / 16, width - 1) + [Digit(n % 16)]
  }

  function HexBytes(bytes: seq<byte>): (s: string)
    ensures |s| == 2 * |bytes|
  {
    if bytes == [] then [] else HexText(bytes[0], 2) + HexBytes(bytes[1..])
  }

  lemma {:induction false} HexTextValue(n: nat, width: nat)
    requires n < Power16(width)
    ensures Digits(HexText(n, width)) == Ok(n)
    ensures width > 0 ==> HexValue(HexText(n, width)) == Ok(n)
  {
    if width > 0 {
      HexTextValue(n / 16, width - 1);
    }
  }

  /** One line of the file; the reader does not look at the checksum. */
  function LineText(recordType: string, address: u16, bytes: seq<byte>, checksum: byte): (line: string) {
    ":" + HexText(|bytes|, 2) + HexText(address, 4) + recordType + HexBytes(bytes) + HexText(checksum, 2) + "\n"
  }

  function RecordText(r: HexRecord, checksum: byte): (line: string) {
    match r
    case Data(address, bytes) => LineText("00", address, bytes, checksum)
    case EndOfFile => LineText("01", 0, [], checksum)
    case Segment(base) => LineText("02", 0, Be16(base), checksum)
    case StartSegment(segment, pointer) => LineText("03", 0, Be16(segment) + Be16(pointer), checksum)
    case Linear(base) => LineText("04", 0, Be16(base), checksum)
    case StartLinear(start) => LineText("05", 0, Be32(start), checksum)
  }

  function CellsAt(address: nat, bytes: seq<byte>): (cells: seq<Cell>)
    ensures |cells| == |bytes| && forall i :: 0 <= i < |bytes| ==> cells[i] == Cell(address + i, bytes[i])
  {
    seq(|bytes|, i requires 0 <= i < |bytes| => Cell(address + i, bytes[i]))
  }

  /** What addresses are counted from: a segment, in which they wrap around at 64 KiB, or a place in 4 GiB. */
  datatype Base = SegmentBase(base: u16) | LinearBase(upper: u16)
  {
    function Offset(): (offset: nat) {
      match this
      case SegmentBase(base) => base * 16
      case LinearBase(upper) => upper * 0x1_0000
    }

    /** Where the format puts byte i of a data record. */
    function AddressOf(address: u16, i: nat): (a: nat) {
      match this
      case SegmentBase(base) => base * 16 + (address + i) % 0x1_0000
      case LinearBase(upper) => (upper * 0x1_0000 + address + i) % 0x1_0000_0000
    }

    /** A data record that does not wrap around. */
    predicate Holds(address: u16, count: nat) {
      match this
      case SegmentBase(_) => address + count <= 0x1_0000
      case LinearBase(upper) => upper * 0x1_0000 + address + count <= 0x1_0000_0000
    }
  }

  function CellsFrom(base: Base, address: u16, bytes: seq<byte>): (cells: seq<Cell>)
    ensures |cells| == |bytes|
    ensures forall i :: 0 <= i < |bytes| ==> cells[i] == Cell(base.AddressOf(address, i), bytes[i])
  {
    seq(|bytes|, i requires 0 <= i < |bytes| => Cell(base.AddressOf(address, i), bytes[i]))
  }

  /** What the records put where, as the format defines it: up to the end-of-file record. */
  function Memory(rs: seq<HexRecord>, base: Base): (cells: seq<Cell>) {
    if rs == [] then []
    else
      match rs[0]
      case Data(address, bytes) => CellsFrom(base, address, bytes) + Memory(rs[1..], base)
      case Segment(b) => Memory(rs[1..], SegmentBase(b))
      case Linear(upper) => Memory(rs[1..], LinearBase(upper))
      case StartSegment(_, _) => Memory(rs[1..], base)
      case StartLinear(_) => Memory(rs[1..], base)
      case EndOfFile => []
  }

  /** What the reader makes of them. */
  function ReadMemory(rs: seq<HexRecord>, offset: nat): (cells: seq<Cell>) {
    if rs == [] then []
    else
      match rs[0]
      case Data(address, bytes) => CellsAt(offset + address, bytes) + ReadMemory(rs[1..], offset)
      case Segment(base) => ReadMemory(rs[1..], base * 16)
      case Linear(upper) => ReadMemory(rs[1..], upper * 0x1_0000)
      case StartSegment(_, _) => ReadMemory(rs[1..], offset)
      case StartLinear(_) => ReadMemory(rs[1..], offset)
      case EndOfFile => ReadMemory(rs[1..], offset)
  }

  predicate NoBytes(rs: seq<HexRecord>) {
    forall i :: 0 <= i < |rs| && rs[i].Data? ==> rs[i].bytes == []
  }

  /** No data record wraps around, and none behind the end-of-file record has bytes. */
  predicate Plain(rs: seq<HexRecord>, base: Base) {
    rs == [] ||
    match rs[0]
    case Data(address, bytes) => base.Holds(address, |bytes|) && Plain(rs[1..], base)
    case Segment(b) => Plain(rs[1..], SegmentBase(b))
    case Linear(upper) => Plain(rs[1..], LinearBase(upper))
    case StartSegment(_, _) => Plain(rs[1..], base)
    case StartLinear(_) => Plain(rs[1..], base)
    case EndOfFile => NoBytes(rs[1..])
  }

  lemma {:induction false} CellsAgreeExactly(base: Base, address: u16, bytes: seq<byte>)
    ensures CellsFrom(base, address, bytes) == CellsAt(base.Offset() + address, bytes) <==> base.Holds(address, |bytes|)
  {
    var a, b := CellsFrom(base, address, bytes), CellsAt(base.Offset() + address, bytes);
    if base.Holds(address, |bytes|) {
      forall i | 0 <= i < |bytes| ensures a[i] == b[i] {
      }
    } else {
      assert a[|bytes| - 1] != b[|bytes| - 1];
    }
  }

  lemma {:induction false} NothingRead(rs: seq<HexRecord>, offset: nat)
    ensures ReadMemory(rs, offset) == [] <==> NoBytes(rs)
    decreases |rs|
  {
    if rs != [] {
      assert NoBytes(rs) <==> (rs[0].Data? ==> rs[0].bytes == []) && NoBytes(rs[1..]);
      match rs[0]
      case Data(_, _) => NothingRead(rs[1..], offset);
      case Segment(base) => NothingRead(rs[1..], base * 16);
      case Linear(upper) => NothingRead(rs[1..], upper * 0x1_0000);
      case StartSegment(_, _) => NothingRead(rs[1..], offset);
      case StartLinear(_) => NothingRead(rs[1..], offset);
      case EndOfFile => NothingRead(rs[1..], offset);
    }
  }

  lemma {:induction false} SameParts(a: seq<Cell>, b: seq<Cell>, a': seq<Cell>, b': seq<Cell>)
    requires |a| == |a'|
    ensures a + b == a' + b' <==> a == a' && b == b'
  {
    if a + b == a' + b' {
      assert (a + b)[..|a|] == a && (a' + b')[..|a|] == a';
      assert (a + b)[|a|..] == b && (a' + b')[|a|..] == b';
    }
  }

  /** The reader agrees with the format, if and only if no record wraps around or stands behind the end. */
  lemma {:induction false} ReadsFormatExactly(rs: seq<HexRecord>, base: Base)
    ensures ReadMemory(rs, base.Offset()) == Memory(rs, base) <==> Plain(rs, base)
    decreases |rs|
  {
    hide NoBytes, CellsFrom, CellsAt;
    if rs != [] {
      match rs[0]
      case Data(address, bytes) =>
        ReadsFormatExactly(rs[1..], base);
        CellsAgreeExactly(base, address, bytes);
        SameParts(CellsAt(base.Offset() + address, bytes), ReadMemory(rs[1..], base.Offset()),
                  CellsFrom(base, address, bytes), Memory(rs[1..], base));
      case Segment(b) => ReadsFormatExactly(rs[1..], SegmentBase(b));
      case Linear(upper) => ReadsFormatExactly(rs[1..], LinearBase(upper));
      case StartSegment(_, _) => ReadsFormatExactly(rs[1..], base);
      case StartLinear(_) => ReadsFormatExactly(rs[1..], base);
      case EndOfFile => NothingRead(rs[1..], base.Offset());
    }
  }

  /** Two bytes at the end of a segment: the format puts the second one at its start, the reader behind its end. */
  lemma {:induction false} SegmentIsOverrun()
    ensures var rs := [Data(0xFFFF, [1, 2])];
      && Memory(rs, SegmentBase(0)) == [Cell(0xFFFF, 1), Cell(0, 2)]
      && ReadMemory(rs, 0) == [Cell(0xFFFF, 1), Cell(0x1_0000, 2)]
  {
    var rs := [Data(0xFFFF, [1, 2])];
    assert rs[1..] == [] && Memory([], SegmentBase(0)) == [] && ReadMemory([], 0) == [];
    assert CellsFrom(SegmentBase(0), 0xFFFF, [1, 2]) == [Cell(0xFFFF, 1), Cell(0, 2)];
    assert CellsAt(0xFFFF, [1, 2]) == [Cell(0xFFFF, 1), Cell(0x1_0000, 2)];
  }

  lemma {:induction false} LineTextParts(recordType: string, address: u16, bytes: seq<byte>, checksum: byte)
    requires |recordType| == 2
    ensures var line := LineText(recordType, address, bytes, checksum);
      && Slice(line, 1, 3) == HexText(|bytes|, 2) && Slice(line, 3, 7) == HexText(address, 4)
      && Slice(line, 7, 9) == recordType && Slice(line, 9, 9 + 2 * |bytes|) == HexBytes(bytes)
  {
  }

  lemma {:induction false} HexBytesAt(bytes: seq<byte>, i: nat)
    requires i < |bytes|
    ensures HexValue(Slice(HexBytes(bytes), 2 * i, 2 * i + 2)) == Ok(bytes[i])
  {
    if i == 0 {
      HexTextValue(bytes[0], 2);
      assert HexBytes(bytes)[..2] == HexText(bytes[0], 2);
    } else {
      HexBytesAt(bytes[1..], i - 1);
      assert HexBytes(bytes)[2 * i..2 * i + 2] == HexBytes(bytes[1..])[2 * (i - 1)..2 * (i - 1) + 2];
    }
  }

  lemma {:induction false} DataCellsOfBytes(bytes: seq<byte>, address: nat, i: nat)
    requires i <= |bytes|
    ensures DataCells(HexBytes(bytes), address, |bytes|, i) == Ok(CellsAt(address, bytes)[i..])
    decreases |bytes| - i
  {
    hide HexBytes, HexValue, Slice, CellsAt;
    if i < |bytes| {
      HexBytesAt(bytes, i);
      DataCellsOfBytes(bytes, address, i + 1);
      assert CellsAt(address, bytes)[i..] == [CellsAt(address, bytes)[i]] + CellsAt(address, bytes)[i + 1..];
    } else {
      assert CellsAt(address, bytes)[i..] == [];
    }
  }

  /** Reading a written line. */
  lemma {:induction false} ParseOfRecord(r: HexRecord, checksum: byte, offset: nat)
    requires r.Valid()
    ensures ParseLine(RecordText(r, checksum), offset) == Ok(
              match r
              case Data(address, bytes) =>
                DataLine(CellsAt(offset + address, bytes), offset + address + |bytes|)
              case Segment(base) => OffsetLine(base * 16)
              case Linear(base) => OffsetLine(base * 0x1_0000)
              case StartSegment(_, _) => OtherLine
              case StartLinear(_) => OtherLine
              case EndOfFile => OtherLine)
  {
    hide LineText, Slice, HexText, DataCells;
    match r
    case Data(address, bytes) =>
      LineTextParts("00", address, bytes, checksum);
      FieldValues(|bytes|, address);
      DataCellsOfBytes(bytes, offset + address, 0);
    case Segment(base) =>
      LineTextParts("02", 0, Be16(base), checksum);
      FieldValues(2, 0);
      BaseValue(base);
    case Linear(base) =>
      LineTextParts("04", 0, Be16(base), checksum);
      FieldValues(2, 0);
      BaseValue(base);
    case StartSegment(segment, pointer) =>
      LineTextParts("03", 0, Be16(segment) + Be16(pointer), checksum);
      FieldValues(4, 0);
    case StartLinear(start) =>
      LineTextParts("05", 0, Be32(start), checksum);
      FieldValues(4, 0);
    case EndOfFile =>
      LineTextParts("01", 0, [], checksum);
      FieldValues(0, 0);
  }

  lemma {:induction false} FieldValues(count: byte, address: u16)
    ensures HexValue(HexText(count, 2)) == Ok(count) && HexValue(HexText(address, 4)) == Ok(address)
  {
    assert Power16(2) == 16 * Power16(1) == 0x100;
    assert Power16(4) == 16 * Power16(3) == 256 * Power16(2);
    HexTextValue(count, 2);
    HexTextValue(address, 4);
  }

  /** Two bytes in hexadecimal are the four digits of their value. */
  lemma {:induction false} BaseValue(base: u16)
    ensures HexValue(HexBytes(Be16(base))) == Ok(base)
  {
    hide Digits;
    var high, low := base / 0x100, base % 0x100;
    var text, upper := HexBytes([high, low]), HexText(high, 2);
    assert [high, low][1..] == [low] && [low][1..] == [];
    assert HexBytes([low]) == HexText(low, 2) + HexBytes([]);
    assert text == upper + HexText(low, 2);
    assert HexText(low, 2) == HexText(low / 16, 1) + [Digit(low % 16)] == [Digit(low / 16)] + [Digit(low % 16)];
    assert text == upper + [Digit(low / 16)] + [Digit(low % 16)];
    assert Power16(2) == 16 * Power16(1) == 0x100;
    HexTextValue(high, 2);
    OneMoreDigit(upper, high, low / 16);
    OneMoreDigit(upper + [Digit(low / 16)], high * 16 + low / 16, low % 16);
  }

  lemma {:induction false} OneMoreDigit(text: string, n: nat, d: nat)
    requires Digits(text) == Ok(n) && d < 16
    ensures Digits(text + [Digit(d)]) == Ok(n * 16 + d)
  {
    assert (text + [Digit(d)])[..|text|] == text;
  }

  /** A file of written records. */
  function FileText(rs: seq<HexRecord>, checksums: seq<byte>): (lines: seq<string>)
    requires |checksums| == |rs|
  {
    if rs == [] then [] else [RecordText(rs[0], checksums[0])] + FileText(rs[1..], checksums[1..])
  }

  predicate AllValid(rs: seq<HexRecord>) {
    forall i :: 0 <= i < |rs| ==> rs[i].Valid()
  }

  lemma {:induction false} ImageOfRecords(rs: seq<HexRecord>, checksums: seq<byte>, offset: nat)
    requires |checksums| == |rs| && AllValid(rs)
    ensures Image(FileText(rs, checksums), offset) == Ok(ReadMemory(rs, offset))
    decreases |rs|
  {
    hide ParseLine, RecordText;
    if rs != [] {
      ParseOfRecord(rs[0], checksums[0], offset);
      match rs[0]
      case Data(_, _) => ImageOfRecords(rs[1..], checksums[1..], offset);
      case Segment(base) => ImageOfRecords(rs[1..], checksums[1..], base * 16);
      case Linear(upper) => ImageOfRecords(rs[1..], checksums[1..], upper * 0x1_0000);
      case StartSegment(_, _) => ImageOfRecords(rs[1..], checksums[1..], offset);
      case StartLinear(_) => ImageOfRecords(rs[1..], checksums[1..], offset);
      case EndOfFile => ImageOfRecords(rs[1..], checksums[1..], offset);
    }
  }

  /**
   Round trip: the image that is read from a written file is the memory that the format defines for its records, if
   and only if no record wraps around or stands behind the end. Without a base record, addresses count from 0.
   */
  lemma {:induction false} ImageIsMemoryExactly(rs: seq<HexRecord>, checksums: seq<byte>, base: Base)
    requires |checksums| == |rs| && AllValid(rs) && base.Offset() == 0
    ensures Image(FileText(rs, checksums), 0) == Ok(Memory(rs, base)) <==> Plain(rs, base)
  {
    ImageOfRecords(rs, checksums, 0);
    ReadsFormatExactly(rs, base);
  }

  /** Every data record starts at or behind the end of the one before. */
  predicate InOrder(rs: seq<HexRecord>, offset: nat, from: nat) {
    rs == [] ||
    match rs[0]
    case Data(address, bytes) => offset + address >= from && InOrder(rs[1..], offset, offset + address + |bytes|)
    case Segment(base) => InOrder(rs[1..], base * 16, from)
    case Linear(upper) => InOrder(rs[1..], upper * 0x1_0000, from)
    case StartSegment(_, _) => InOrder(rs[1..], offset, from)
    case StartLinear(_) => InOrder(rs[1..], offset, from)
    case EndOfFile => InOrder(rs[1..], offset, from)
  }

  lemma {:induction false} WrittenAscends(rs: seq<HexRecord>, checksums: seq<byte>, offset: nat, from: nat)
    requires |checksums| == |rs| && AllValid(rs)
    ensures RecordsAscend(FileText(rs, checksums), offset, from) <==> InOrder(rs, offset, from)
    decreases |rs|
  {
    hide ParseLine, RecordText;
    if rs != [] {
      ParseOfRecord(rs[0], checksums[0], offset);
      match rs[0]
      case Data(address, bytes) => WrittenAscends(rs[1..], checksums[1..], offset, offset + address + |bytes|);
      case Segment(base) => WrittenAscends(rs[1..], checksums[1..], base * 16, from);
      case Linear(upper) => WrittenAscends(rs[1..], checksums[1..], upper * 0x1_0000, from);
      case StartSegment(_, _) => WrittenAscends(rs[1..], checksums[1..], offset, from);
      case StartLinear(_) => WrittenAscends(rs[1..], checksums[1..], offset, from);
      case EndOfFile => WrittenAscends(rs[1..], checksums[1..], offset, from);
    }
  }

  /** For every plain file of records in ascending order, the extractor returns the memory in the range. */
  lemma {:induction false} MemoryIsExtracted(rs: seq<HexRecord>, checksums: seq<byte>, base: Base, lo: nat, hi: nat)
    requires |checksums| == |rs| && AllValid(rs) && base.Offset() == 0 && Plain(rs, base) && InOrder(rs, 0, 0)
    ensures Extracted(FileText(rs, checksums), 0, lo, hi) == Ok(InRange(Memory(rs, base), lo, hi))
    ensures Ascending(Memory(rs, base))
  {
    ImageIsMemoryExactly(rs, checksums, base);
    WrittenAscends(rs, checksums, 0, 0);
    AscendingIsExtracted(FileText(rs, checksums), lo, hi);
  }

  lemma {:induction false} NothingBehindStart(start: u32, base: Base, offset: nat, from: nat)
    ensures var rs := [StartLinear(start), EndOfFile];
      Memory(rs, base) == [] && Plain(rs, base) && InOrder(rs, offset, from)
  {
    var rs := [StartLinear(start), EndOfFile];
    assert rs[1..] == [EndOfFile] && rs[1..][1..] == [];
    assert NoBytes([]) && InOrder([], offset, from);
    assert Plain(rs[1..], base) && InOrder(rs[1..], offset, from);
  }

  /** A file as objcopy writes it, with the entry point behind the data: the entry point is not extracted. */
  lemma {:induction false} EntryPointIsNoData(upper: u16, address: u16, bytes: seq<byte>, start: u32,
      checksums: seq<byte>, lo: nat, hi: nat)
    requires |bytes| < 0x100 && address + |bytes| <= 0x1_0000 && |checksums| == 4
    ensures var rs := [Linear(upper), Data(address, bytes), StartLinear(start), EndOfFile];
      Extracted(FileText(rs, checksums), 0, lo, hi) == Ok(InRange(CellsAt(upper * 0x1_0000 + address, bytes), lo, hi))
  {
    hide FileText, InRange, Extracted, Ascending;
    var rs := [Linear(upper), Data(address, bytes), StartLinear(start), EndOfFile];
    var base := SegmentBase(0);
    var data, last, at := rs[1..], [StartLinear(start), EndOfFile], upper * 0x1_0000 + address;
    assert data[0] == Data(address, bytes) && data[1..] == last;
    NothingBehindStart(start, LinearBase(upper), upper * 0x1_0000, at + |bytes|);
    assert Memory(rs, base) == Memory(data, LinearBase(upper)) == CellsFrom(LinearBase(upper), address, bytes) + [];
    assert CellsFrom(LinearBase(upper), address, bytes) + [] == CellsAt(at, bytes);
    assert Plain(rs, base) && InOrder(data, upper * 0x1_0000, 0) && InOrder(rs, 0, 0);
    MemoryIsExtracted(rs, checksums, base, lo, hi);
  }

  /** Out of order, bytes are missed: the record at 0 stands behind the one at which reading stops. */
  lemma {:induction false} UnorderedIsMissed(checksums: seq<byte>)
    requires |checksums| == 2
    ensures var rs := [Data(1, [7]), Data(0, [8])];
      && InRange(Memory(rs, SegmentBase(0)), 0, 1) == [8]
      && Extracted(FileText(rs, checksums), 0, 0, 1) == Ok([])
  {
    hide FileText, Extracted, Memory, InRange, CellsAt, CellsFrom;
    var rs := [Data(1, [7]), Data(0, [8])];
    StopsBehindFirst(rs, checksums, 0, 1);
    OneCell(1, 7);
    MemoryOfTwo(SegmentBase(0));
    InRangeAppend([Cell(1, 7)], [Cell(0, 8)], 0, 1);
    InRangeOne(Cell(1, 7), 0, 1);
    InRangeOne(Cell(0, 8), 0, 1);
  }

  /** A first data record that ends at or behind the range is all that is read. */
  lemma {:induction false} StopsBehindFirst(rs: seq<HexRecord>, checksums: seq<byte>, lo: nat, hi: nat)
    requires |checksums| == |rs| > 0 && rs[0].Valid() && rs[0].Data? && rs[0].address + |rs[0].bytes| >= hi
    ensures Extracted(FileText(rs, checksums), 0, lo, hi) == Ok(InRange(CellsAt(rs[0].address, rs[0].bytes), lo, hi))
  {
    hide ParseLine, RecordText, CellsAt, InRange;
    ParseOfRecord(rs[0], checksums[0], 0);
    ExtractedStep(FileText(rs, checksums), 0, lo, hi);
  }

  lemma {:induction false} OneCell(address: nat, value: byte)
    ensures CellsAt(address, [value]) == [Cell(address, value)]
  {
  }

  lemma {:induction false} MemoryOfTwo(base: Base)
    requires base == SegmentBase(0)
    ensures Memory([Data(1, [7]), Data(0, [8])], base) == [Cell(1, 7)] + [Cell(0, 8)]
  {
    var rs := [Data(1, [7]), Data(0, [8])];
    assert rs[1..][1..] == [] && Memory([], base) == [];
    assert CellsFrom(base, 1, [7]) == [Cell(1, 7)] && CellsFrom(base, 0, [8]) == [Cell(0, 8)];
    assert Memory(rs[1..], base) == [Cell(0, 8)] + Memory([], base);
  }

  lemma {:induction false} InRangeOne(cell: Cell, lo: nat, hi: nat)
    ensures InRange([cell], lo, hi) == if lo <= cell.address < hi then [cell.value] else []
  {
  }

  // ----- Byte order -----

  function Reversed(s: seq<byte>): (r: seq<byte>)
    ensures |r| == |s| && forall i :: 0 <= i < |s| ==> r[i] == s[|s| - 1 - i]
  {
    seq(|s|, i requires 0 <= i < |s| => s[|s| - 1 - i])
  }

  /** Each word of four bytes reversed, the last one possibly shorter. */
  function Swapped(data: seq<byte>): (r: seq<byte>)
    ensures |r| == |data|
  {
    if |data| <= 4 then Reversed(data) else Reversed(data[..4]) + Swapped(data[4..])
  }

  /** data[i : i + 4], and data[i:], which are shorter at the end of the data. */
  function WordAt(data: seq<byte>, i: nat): (word: seq<byte>) {
    if i + 4 <= |data| then data[i..i + 4] else if i <= |data| then data[i..] else []
  }

  function Behind(data: seq<byte>, i: nat): (rest: seq<byte>) {
    if i <= |data| then data[i..] else []
  }

  /** convert_to_little_endian(). */
  method ConvertToLittleEndian(data: seq<byte>) returns (r: seq<byte>)
    ensures r == Swapped(data)
  {
    hide Swapped, Reversed, WordAt, Behind;
    r := [];
    var i := 0;
    SwappedFrom(data, 0, r);
    while i < |data|
      invariant Swapped(data) == r + Swapped(Behind(data, i))
    {
      SwappedFrom(data, i, r);
      r := r + Reversed(WordAt(data, i));
      i := i + 4;
    }
    SwappedFrom(data, i, r);
  }

  lemma {:induction false} SwappedFrom(data: seq<byte>, i: nat, before: seq<byte>)
    ensures i == 0 ==> [] + Swapped(Behind(data, i)) == Swapped(data)
    ensures i >= |data| ==> before + Swapped(Behind(data, i)) == before
    ensures before + Swapped(Behind(data, i)) == before + Reversed(WordAt(data, i)) + Swapped(Behind(data, i + 4))
  {
    var rest, word := Behind(data, i), WordAt(data, i);
    if |rest| <= 4 {
      assert rest == word && Behind(data, i + 4) == [] && Swapped([]) == [];
    } else {
      assert rest[..4] == word && rest[4..] == Behind(data, i + 4);
    }
  }

  /** Swapping twice restores the data, whatever its length. */
  lemma {:induction false} SwappedTwice(data: seq<byte>)
    ensures Swapped(Swapped(data)) == data
  {
    if |data| > 4 {
      var first, rest := Reversed(data[..4]), Swapped(data[4..]);
      SwappedTwice(data[4..]);
      assert (first + rest)[..4] == first && (first + rest)[4..] == rest;
      assert Reversed(first) == data[..4];
      assert data[..4] + data[4..] == data;
    } else {
      assert Reversed(Reversed(data)) == data;
    }
  }
}
