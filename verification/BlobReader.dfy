/**
 The reader of the blob format that runs on the ECU (libs/bsw/blob): header check, iteration from one
 configuration to the next by the size field, checksum validation and lookup. A span is a sequence of bytes.
 */
module BlobReader {
  import opened Results
  import opened Bytes
  import opened BlobFormat
  import opened SizeT

  datatype Config = Config(configType: u32, data: seq<byte>)

  const NO_CONFIG := Config(UNKNOWN, [])

  /** checkHeader(): the data size that the header declares. */
  function CheckHeader(mem: seq<byte>): (size: Option<u32>) {
    if |mem| < HEADER_SIZE then None
    else if FromBe32(mem[..4]) != VERSION then None
    else if FromBe32(mem[4..8]) != MAGIC then None
    else Some(FromBe32(mem[8..12]))
  }

  datatype ConfigHeader = ConfigHeader(configType: u32, size: u32)

  /** loadConfigHeader(). */
  function LoadConfigHeader(mem: seq<byte>): (h: ConfigHeader) {
    if |mem| < RECORD_HEADER_SIZE then ConfigHeader(UNKNOWN, 0)
    else ConfigHeader(FromBe32(mem[..4]), FromBe32(mem[12..16]))
  }

  /** Config::from_bytes(): the first configuration of the span, bounded to its extent. */
  function FromBytes(mem: seq<byte>): (c: Config)
    ensures |c.data| <= |mem|
  {
    var header := LoadConfigHeader(mem);
    if header.configType == UNKNOWN then NO_CONFIG
    else if header.size > MAX_U32 - RECORD_HEADER_SIZE then NO_CONFIG
    else if |mem| < RECORD_HEADER_SIZE + header.size then NO_CONFIG
    else Config(header.configType, mem[..RECORD_HEADER_SIZE + header.size])
  }

  /**
   Blob::Iterator::operator++. An iterator stands at a span, which may be empty, or is at the end, which is a null
   pointer. An unreadable configuration ends the walk.
   */
  function Next(mem: seq<byte>): (at: Option<seq<byte>>)
    ensures at.Some? ==> 0 < |at.value| < |mem|
  {
    var c := FromBytes(mem);
    if c.data == [] || |c.data| == |mem| then None else Some(mem[|c.data|..])
  }

  /** A bound for the number of configurations that are still to be visited. */
  function ToVisit(at: Option<seq<byte>>): (n: nat) {
    if at.None? then 0 else |at.value| + 1
  }

  /** All that the iterator visits from `at` on. */
  function Configs(at: Option<seq<byte>>): (cs: seq<Config>)
    decreases ToVisit(at)
  {
    if at.None? then [] else [FromBytes(at.value)] + Configs(Next(at.value))
  }

  /** The constructor of Blob: the bytes behind the header, or nothing at all. */
  function Region(blob: seq<byte>): (at: Option<seq<byte>>) {
    var size := CheckHeader(blob);
    if size.Some? && |blob| - HEADER_SIZE == size.value then Some(blob[HEADER_SIZE..]) else None
  }

  /** checkCrc(). */
  predicate CheckCrc(crc: seq<byte> -> u32, config: seq<byte>) {
    |config| >= CRC_SIZE && FromBe32(config[|config| - CRC_SIZE..]) == crc(config[..|config| - CRC_SIZE])
  }

  /** The last four bytes, big-endian, are the checksum of those in front of them; fewer than four never pass. */
  lemma {:induction false} CheckCrcExactly(crc: seq<byte> -> u32, front: seq<byte>, sum: u32)
    ensures CheckCrc(crc, front + Be32(sum)) <==> sum == crc(front)
    ensures |front| < 4 ==> !CheckCrc(crc, front)
  {
    var s := front + Be32(sum);
    Be32RoundTrip(sum);
    assert s[|s| - 4..] == Be32(sum) && s[..|s| - 4] == front;
  }

  /** Every configuration that the iterator visits from `at` on passes the checksum test. */
  ghost predicate AllCrcs(crc: seq<byte> -> u32, at: Option<seq<byte>>)
    decreases ToVisit(at)
  {
    at.None? || (CheckCrc(crc, FromBytes(at.value).data) && AllCrcs(crc, Next(at.value)))
  }

  /** What load() returns: the blob without trailing bytes if everything is valid, else an empty span. */
  ghost function Loaded(target: Target, crc: seq<byte> -> u32, mem: seq<byte>): (blob: seq<byte>) {
    var size := CheckHeader(mem);
    if size.None? || |mem| < target.Sum(HEADER_SIZE, size.value) then []
    else
      var blob := mem[..target.Sum(HEADER_SIZE, size.value)];
      if AllCrcs(crc, Region(blob)) then blob else []
  }

  /** load(): visits every configuration, also after a failed check. */
  method Load(target: Target, crc: seq<byte> -> u32, mem: seq<byte>) returns (blob: seq<byte>)
    ensures blob == Loaded(target, crc, mem)
  {
    var size := CheckHeader(mem);
    if size.None? {
      return [];
    }
    var blobSize := target.Sum(HEADER_SIZE, size.value);
    if |mem| < blobSize {
      return [];
    }
    blob := mem[..blobSize];
    var hasValidData := true;
    var it := Region(blob);
    while it.Some?
      invariant AllCrcs(crc, Region(blob)) <==> hasValidData && AllCrcs(crc, it)
      decreases ToVisit(it)
    {
      if !CheckCrc(crc, FromBytes(it.value).data) {
        hasValidData := false;
      }
      it := Next(it.value);
    }
    if !hasValidData {
      return [];
    }
  }

  /** The first configuration that satisfies `p`, or none. */
  function FirstMatch(cs: seq<Config>, p: Config -> bool): (c: Config)
    ensures (forall i :: 0 <= i < |cs| ==> !p(cs[i])) ==> c == NO_CONFIG
  {
    if cs == [] then NO_CONFIG else if p(cs[0]) then cs[0] else FirstMatch(cs[1..], p)
  }

  /** The loop shared by blob::config() and routing::config(): walk, skip what does not match. */
  method Find(blob: seq<byte>, p: Config -> bool) returns (c: Config)
    ensures c == FirstMatch(Configs(Region(blob)), p)
  {
    var it := Region(blob);
    while it.Some?
      invariant FirstMatch(Configs(Region(blob)), p) == FirstMatch(Configs(it), p)
      decreases ToVisit(it)
    {
      c := FromBytes(it.value);
      assert Configs(it)[1..] == Configs(Next(it.value));
      if p(c) {
        return;
      }
      it := Next(it.value);
    }
    c := NO_CONFIG;
  }

  lemma {:induction false} FirstMatchAt(cs: seq<Config>, p: Config -> bool, k: nat)
    requires k < |cs| && p(cs[k]) && forall i :: 0 <= i < k ==> !p(cs[i])
    ensures FirstMatch(cs, p) == cs[k]
  {
    if k != 0 {
      FirstMatchAt(cs[1..], p, k - 1);
    }
  }

  // ----- The reader undoes the writer -----

  lemma {:induction false} FromBytesOfRecord(crc: seq<byte> -> u32, r: Record, rest: seq<byte>)
    requires Framable(r) && r.configType != UNKNOWN && |RecordBytes(crc, r)| <= MAX_U32
    ensures FromBytes(RecordBytes(crc, r) + rest) == Config(r.configType, RecordBytes(crc, r))
    ensures Next(RecordBytes(crc, r) + rest) == if rest == [] then None else Some(rest)
    ensures CheckCrc(crc, RecordBytes(crc, r))
  {
    var s := RecordBytes(crc, r);
    RecordFraming(crc, r);
    var mem := s + rest;
    assert mem[..4] == s[..4] && mem[12..16] == s[12..16] && mem[..|s|] == s;
  }

  ghost predicate AllKnown(records: seq<Record>) {
    forall i :: 0 <= i < |records| ==> records[i].configType != UNKNOWN
  }

  function ConfigsOfRecords(crc: seq<byte> -> u32, records: seq<Record>): (cs: seq<Config>)
    requires AllFramable(records)
    ensures |cs| == |records|
    ensures forall i :: 0 <= i < |cs| ==> cs[i].configType == records[i].configType
  {
    if records == [] then []
    else [Config(records[0].configType, RecordBytes(crc, records[0]))] + ConfigsOfRecords(crc, records[1..])
  }

  lemma {:induction false} ConfigAt(crc: seq<byte> -> u32, records: seq<Record>, i: nat)
    requires AllFramable(records) && i < |records|
    ensures ConfigsOfRecords(crc, records)[i] == Config(records[i].configType, RecordBytes(crc, records[i]))
  {
    if i != 0 {
      ConfigAt(crc, records[1..], i - 1);
    }
  }

  /** Walking a written body visits exactly the written records, and ends at its end. */
  lemma {:induction false} ConfigsOfBody(crc: seq<byte> -> u32, records: seq<Record>)
    requires records != [] && AllFramable(records) && AllKnown(records) && |Body(crc, records)| <= MAX_U32
    ensures Configs(Some(Body(crc, records))) == ConfigsOfRecords(crc, records)
    ensures AllCrcs(crc, Some(Body(crc, records)))
  {
    var first, rest := RecordBytes(crc, records[0]), Body(crc, records[1..]);
    FromBytesOfRecord(crc, records[0], rest);
    if records[1..] != [] {
      ConfigsOfBody(crc, records[1..]);
      assert |rest| > 0;
    }
  }

  /** An empty body does not end the walk at once: one unreadable configuration is visited. */
  lemma {:induction false} ConfigsOfNothing(crc: seq<byte> -> u32)
    ensures Configs(Some([])) == [NO_CONFIG] && !AllCrcs(crc, Some([]))
  {
  }

  lemma {:induction false} RegionOfBlobBytes(crc: seq<byte> -> u32, records: seq<Record>, trailing: seq<byte>)
    requires BlobBytes(crc, records).Ok?
    ensures var blob, body := BlobBytes(crc, records).value, Body(crc, records);
      && Region(blob) == Some(body) && |blob| == HEADER_SIZE + |body|
      && CheckHeader(blob + trailing) == Some(|body|) && (blob + trailing)[..|blob|] == blob
      && blob[HEADER_SIZE..] == body && AllFramable(records) && |body| <= MAX_U32
  {
    var blob, body := BlobBytes(crc, records).value, Body(crc, records);
    CheckHeaderOfWritten(|body|, body + trailing);
    CheckHeaderOfWritten(|body|, body);
    assert blob + trailing == Be32(VERSION) + Be32(MAGIC) + Be32(|body|) + (body + trailing);
    assert blob[HEADER_SIZE..] == body;
  }

  /**
   Whole-blob round trip: the ECU accepts a blob that the tool writes, and drops nothing but bytes behind its end, if
   and only if the blob holds at least one record; it finds exactly the written records.
   */
  lemma {:induction false} LoadOfBlobBytes(target: Target, crc: seq<byte> -> u32, records: seq<Record>,
      trailing: seq<byte>)
    requires AllKnown(records) && BlobBytes(crc, records).Ok?
    requires |BlobBytes(crc, records).value + trailing| <= target.Max()
    ensures Loaded(target, crc, BlobBytes(crc, records).value + trailing)
         == if records == [] then [] else BlobBytes(crc, records).value
    ensures Configs(Region(BlobBytes(crc, records).value))
         == if records == [] then [NO_CONFIG] else ConfigsOfRecords(crc, records)
  {
    var mem, body := BlobBytes(crc, records).value + trailing, Body(crc, records);
    RegionOfBlobBytes(crc, records, trailing);
    hide *;
    assert mem[HEADER_SIZE..HEADER_SIZE + |body|] == mem[..HEADER_SIZE + |body|][HEADER_SIZE..] == body;
    LoadedBySize(target, crc, mem, |body|);
    BodyOfNone(crc);
    if records == [] {
      ConfigsOfNothing(crc);
    } else {
      ConfigsOfBody(crc, records);
    }
  }

  /** The twelve bytes that the tool writes if there is nothing to write. */
  lemma {:induction false} EmptyBlobIsRejected(target: Target, crc: seq<byte> -> u32)
    ensures BlobBytes(crc, []) == Ok(Be32(VERSION) + Be32(MAGIC) + Be32(0))
    ensures Loaded(target, crc, Be32(VERSION) + Be32(MAGIC) + Be32(0)) == []
  {
    var blob := Be32(VERSION) + Be32(MAGIC) + Be32(0);
    assert blob + [] == blob;
    LoadOfBlobBytes(target, crc, [], []);
  }

  lemma {:induction false} CheckHeaderOfWritten(size: u32, rest: seq<byte>)
    ensures CheckHeader(Be32(VERSION) + Be32(MAGIC) + Be32(size) + rest) == Some(size)
  {
    var mem := Be32(VERSION) + Be32(MAGIC) + Be32(size) + rest;
    Be32RoundTrip(VERSION);
    Be32RoundTrip(MAGIC);
    Be32RoundTrip(size);
    assert mem[..4] == Be32(VERSION) && mem[4..8] == Be32(MAGIC) && mem[8..12] == Be32(size);
  }

  // ----- Exactly what the reader accepts -----

  /** One configuration that load() lets pass. */
  ghost predicate Sealed(crc: seq<byte> -> u32, part: seq<byte>) {
    && RECORD_HEADER_SIZE <= |part| <= MAX_U32
    && FromBe32(part[..4]) != UNKNOWN
    && FromBe32(part[12..16]) == |part| - RECORD_HEADER_SIZE
    && CheckCrc(crc, part)
  }

  ghost predicate AllSealed(crc: seq<byte> -> u32, parts: seq<seq<byte>>) {
    forall i :: 0 <= i < |parts| ==> Sealed(crc, parts[i])
  }

  /** The byte ranges that the iterator cuts the data into. */
  function Parts(at: Option<seq<byte>>): (parts: seq<seq<byte>>)
    decreases ToVisit(at)
  {
    if at.None? then [] else [FromBytes(at.value).data] + Parts(Next(at.value))
  }

  lemma {:induction false} FromBytesOfSealed(crc: seq<byte> -> u32, part: seq<byte>, rest: seq<byte>)
    requires Sealed(crc, part)
    ensures FromBytes(part + rest).data == part && Next(part + rest) == if rest == [] then None else Some(rest)
  {
    var mem := part + rest;
    assert mem[..4] == part[..4] && mem[12..16] == part[12..16] && mem[..|part|] == part;
    assert mem[|part|..] == rest;
  }

  lemma {:induction false} SealedHasCrc(crc: seq<byte> -> u32, part: seq<byte>)
    requires Sealed(crc, part)
    ensures CheckCrc(crc, part)
  {
  }

  lemma {:induction false} SealedNotEmpty(crc: seq<byte> -> u32, parts: seq<seq<byte>>)
    requires parts != [] && AllSealed(crc, parts)
    ensures Concat(parts) != []
  {
    assert Sealed(crc, parts[0]);
  }

  /** There is one way to cut a region into sealed configurations, and the iterator finds it. */
  lemma {:induction false} SealedPartsAreVisited(crc: seq<byte> -> u32, parts: seq<seq<byte>>)
    requires parts != [] && AllSealed(crc, parts)
    ensures Parts(Some(Concat(parts))) == parts
    ensures AllCrcs(crc, Some(Concat(parts)))
  {
    var first, tail := parts[0], parts[1..];
    assert Sealed(crc, first) && parts == [first] + tail;
    hide Sealed, CheckCrc, FromBytes, Next;
    FromBytesOfSealed(crc, first, Concat(tail));
    SealedHasCrc(crc, first);
    if tail != [] {
      SealedPartsAreVisited(crc, tail);
      SealedNotEmpty(crc, tail);
    }
  }

  lemma {:induction false} FromBytesIsSealed(crc: seq<byte> -> u32, mem: seq<byte>)
    requires CheckCrc(crc, FromBytes(mem).data)
    ensures Sealed(crc, FromBytes(mem).data)
    ensures mem == FromBytes(mem).data + if Next(mem).None? then [] else Next(mem).value
  {
    var first := FromBytes(mem).data;
    assert first[..4] == mem[..4] && first[12..16] == mem[12..16];
  }

  lemma {:induction false} SealedCons(crc: seq<byte> -> u32, first: seq<byte>, rest: seq<seq<byte>>)
    requires Sealed(crc, first) && AllSealed(crc, rest)
    ensures AllSealed(crc, [first] + rest) && Concat([first] + rest) == first + Concat(rest)
  {
    assert ([first] + rest)[1..] == rest;
  }

  /** Conversely, a region whose visited configurations have valid checksums is cut into sealed parts. */
  lemma {:induction false} VisitedPartsAreSealed(crc: seq<byte> -> u32, mem: seq<byte>)
    requires AllCrcs(crc, Some(mem))
    ensures Parts(Some(mem)) != [] && AllSealed(crc, Parts(Some(mem)))
    ensures Concat(Parts(Some(mem))) == mem
    decreases |mem|
  {
    var first, next := FromBytes(mem).data, Next(mem);
    FromBytesIsSealed(crc, mem);
    if next.Some? {
      VisitedPartsAreSealed(crc, next.value);
    }
    SealedCons(crc, first, Parts(next));
  }

  lemma {:induction false} RegionOfPrefix(mem: seq<byte>, size: u32)
    requires CheckHeader(mem) == Some(size) && HEADER_SIZE + size <= |mem|
    ensures Region(mem[..HEADER_SIZE + size]) == Some(mem[HEADER_SIZE..HEADER_SIZE + size])
  {
    var blob := mem[..HEADER_SIZE + size];
    assert blob[..4] == mem[..4] && blob[4..8] == mem[4..8] && blob[8..12] == mem[8..12];
  }

  /** A blob: the header, which has one encoding, and sealed configurations in a row. */
  function Assembled(parts: seq<seq<byte>>): (blob: seq<byte>)
    requires |Concat(parts)| <= MAX_U32
  {
    Be32(VERSION) + Be32(MAGIC) + Be32(|Concat(parts)|) + Concat(parts)
  }

  lemma {:induction false} HeaderExactly(mem: seq<byte>, size: u32)
    ensures CheckHeader(mem) == Some(size)
       <==> |mem| >= HEADER_SIZE && mem[..HEADER_SIZE] == Be32(VERSION) + Be32(MAGIC) + Be32(size)
  {
    if CheckHeader(mem) == Some(size) {
      Be32Unique(mem[..4]);
      Be32Unique(mem[4..8]);
      Be32Unique(mem[8..12]);
      assert mem[..HEADER_SIZE] == mem[..4] + mem[4..8] + mem[8..12];
    }
    if |mem| >= HEADER_SIZE && mem[..HEADER_SIZE] == Be32(VERSION) + Be32(MAGIC) + Be32(size) {
      CheckHeaderOfWritten(size, mem[HEADER_SIZE..]);
      assert mem == mem[..HEADER_SIZE] + mem[HEADER_SIZE..];
    }
  }

  ghost predicate Acceptable(crc: seq<byte> -> u32, mem: seq<byte>, parts: seq<seq<byte>>) {
    parts != [] && AllSealed(crc, parts) && |Concat(parts)| <= MAX_U32 && Assembled(parts) <= mem
  }

  /** The header declares so many bytes that its own twelve do not fit a size_t any more. */
  predicate SizeWraps(target: Target, mem: seq<byte>) {
    CheckHeader(mem).Some? && HEADER_SIZE + CheckHeader(mem).value > target.Max() + 1
  }

  /** What load() makes of a header whose size does not wrap. */
  lemma {:induction false} LoadedBySize(target: Target, crc: seq<byte> -> u32, mem: seq<byte>, size: u32)
    requires CheckHeader(mem) == Some(size) && HEADER_SIZE + size <= target.Max()
    ensures Loaded(target, crc, mem)
         == if HEADER_SIZE + size <= |mem| && AllCrcs(crc, Some(mem[HEADER_SIZE..HEADER_SIZE + size]))
            then mem[..HEADER_SIZE + size] else []
  {
    hide CheckHeader, AllCrcs;
    if HEADER_SIZE + size <= |mem| {
      RegionOfPrefix(mem, size);
    }
  }

  lemma {:induction false} AssembledIsLoaded(target: Target, crc: seq<byte> -> u32, mem: seq<byte>,
      parts: seq<seq<byte>>)
    requires |mem| <= target.Max() && Acceptable(crc, mem, parts)
    ensures |Concat(parts)| <= MAX_U32 && Loaded(target, crc, mem) == Assembled(parts) != []
  {
    hide CheckHeader, AllCrcs, Loaded, AllSealed, Be32;
    var size, blob := |Concat(parts)|, Assembled(parts);
    assert |blob| == HEADER_SIZE + size && blob[HEADER_SIZE..] == Concat(parts);
    assert blob[..HEADER_SIZE] == Be32(VERSION) + Be32(MAGIC) + Be32(size);
    assert mem[..HEADER_SIZE] == blob[..HEADER_SIZE] && mem[..HEADER_SIZE + size] == blob;
    assert mem[HEADER_SIZE..HEADER_SIZE + size] == Concat(parts);
    HeaderExactly(mem, size);
    LoadedBySize(target, crc, mem, size);
    SealedPartsAreVisited(crc, parts);
  }

  /** What becomes of a size that wraps: less than a header is returned, in which no configuration is found. */
  lemma {:induction false} WrappedIsLoaded(target: Target, crc: seq<byte> -> u32, mem: seq<byte>)
    requires SizeWraps(target, mem)
    ensures 0 < |Loaded(target, crc, mem)| < HEADER_SIZE && Loaded(target, crc, mem) <= mem
    ensures Configs(Region(Loaded(target, crc, mem))) == []
  {
  }

  lemma {:induction false} LoadedIsAcceptable(target: Target, crc: seq<byte> -> u32, mem: seq<byte>)
    requires |mem| <= target.Max() && Loaded(target, crc, mem) != [] && !SizeWraps(target, mem)
    ensures exists parts: seq<seq<byte>> :: Acceptable(crc, mem, parts)
  {
    LoadedHasSize(target, crc, mem);
    hide *;
    var size := CheckHeader(mem).value;
    LoadedBySize(target, crc, mem, size);
    HeaderExactly(mem, size);
    VisitedPartsAreSealed(crc, mem[HEADER_SIZE..HEADER_SIZE + size]);
    PartsAreAcceptable(crc, mem, size, Parts(Some(mem[HEADER_SIZE..HEADER_SIZE + size])));
  }

  lemma {:induction false} PartsAreAcceptable(crc: seq<byte> -> u32, mem: seq<byte>, size: u32, parts: seq<seq<byte>>)
    requires HEADER_SIZE + size <= |mem| && mem[..HEADER_SIZE] == Be32(VERSION) + Be32(MAGIC) + Be32(size)
    requires parts != [] && AllSealed(crc, parts) && Concat(parts) == mem[HEADER_SIZE..HEADER_SIZE + size]
    ensures Acceptable(crc, mem, parts)
  {
    hide Be32, AllSealed;
    assert mem[..HEADER_SIZE + size] == mem[..HEADER_SIZE] + Concat(parts) == Assembled(parts);
  }

  lemma {:induction false} LoadedHasSize(target: Target, crc: seq<byte> -> u32, mem: seq<byte>)
    requires |mem| <= target.Max() && Loaded(target, crc, mem) != [] && !SizeWraps(target, mem)
    ensures CheckHeader(mem).Some? && HEADER_SIZE + CheckHeader(mem).value <= target.Max()
  {
    hide CheckHeader, AllCrcs;
  }

  /**
   load() accepts a memory region if and only if it starts with a blob that is assembled from sealed configurations, at
   least one, or if the declared size wraps around, which 32 bits allow. In the first case this blob is what it
   returns, and no byte of it escapes validation.
   */
  lemma {:induction false} LoadAcceptsExactly(target: Target, crc: seq<byte> -> u32, mem: seq<byte>)
    requires |mem| <= target.Max()
    ensures Loaded(target, crc, mem) != []
       <==> (exists parts: seq<seq<byte>> :: Acceptable(crc, mem, parts)) || SizeWraps(target, mem)
    ensures forall parts: seq<seq<byte>> :: Acceptable(crc, mem, parts) ==> Loaded(target, crc, mem) == Assembled(parts)
    ensures SizeWraps(target, mem) ==> target.Bits32?
  {
    hide AllSealed, Loaded, Assembled;
    forall parts: seq<seq<byte>> | Acceptable(crc, mem, parts)
      ensures |Concat(parts)| <= MAX_U32 && Loaded(target, crc, mem) == Assembled(parts) != []
    {
      AssembledIsLoaded(target, crc, mem, parts);
    }
    if SizeWraps(target, mem) {
      WrappedIsLoaded(target, crc, mem);
    } else if Loaded(target, crc, mem) != [] {
      LoadedIsAcceptable(target, crc, mem);
    }
  }

  /** A header on its own whose size wraps to 11: on 32 bits, eleven bytes of it are taken for a blob. */
  lemma {:induction false} WrappedSizeIsAccepted(crc: seq<byte> -> u32)
    ensures var mem := Be32(VERSION) + Be32(MAGIC) + Be32(MAX_U32);
      && Loaded(Bits32, crc, mem) == mem[..11] && Loaded(Bits64, crc, mem) == []
  {
    var mem := Be32(VERSION) + Be32(MAGIC) + Be32(MAX_U32);
    CheckHeaderOfWritten(MAX_U32, []);
    assert mem + [] == mem;
    WrappedIsLoaded(Bits32, crc, mem);
  }

  // ----- Columns -----

  /** loadColumn<be_uint32_t>(): the column and what follows it; both empty if the size field is not usable. */
  function LoadColumn32(mem: seq<byte>): (r: (seq<u32>, seq<byte>)) {
    if |mem| < 4 then ([], [])
    else
      var size := FromBe32(mem[..4]);
      if |mem| - 4 < size || size % 4 != 0 then ([], [])
      else (FromBe32s(mem[4..4 + size]), mem[4 + size..])
  }

  /** loadColumn<uint8_t>(). */
  function LoadColumn8(mem: seq<byte>): (r: (seq<byte>, seq<byte>)) {
    if |mem| < 4 then ([], [])
    else
      var size := FromBe32(mem[..4]);
      if |mem| - 4 < size then ([], []) else (mem[4..4 + size], mem[4 + size..])
  }

  lemma {:induction false} LoadColumn32Split(head: seq<byte>, column: seq<byte>, rest: seq<byte>)
    requires |head| == 4 && FromBe32(head) == |column| && |column| % 4 == 0
    ensures LoadColumn32(head + column + rest) == (FromBe32s(column), rest)
  {
    var mem := head + column + rest;
    assert mem[..4] == head;
    assert mem[4..4 + |column|] == column;
    assert mem[4 + |column|..] == rest;
  }

  lemma {:induction false} LoadColumn32Framed(column: seq<byte>, rest: seq<byte>)
    requires |column| % 4 == 0 && |column| <= MAX_U32
    ensures LoadColumn32(Be32(|column|) + column + rest) == (FromBe32s(column), rest)
  {
    Be32RoundTrip(|column|);
    LoadColumn32Split(Be32(|column|), column, rest);
  }

  lemma {:induction false} LoadColumn32OfBytes(vs: seq<u32>, rest: seq<byte>)
    requires 4 * |vs| <= MAX_U32
    ensures LoadColumn32(Be32(4 * |vs|) + Be32s(vs) + rest) == (vs, rest)
  {
    var column := Be32s(vs);
    LoadColumn32Framed(column, rest);
    Be32sRoundTrip(vs);
  }

  lemma {:induction false} LoadColumn8Split(head: seq<byte>, column: seq<byte>, rest: seq<byte>)
    requires |head| == 4 && FromBe32(head) == |column|
    ensures LoadColumn8(head + column + rest) == (column, rest)
  {
    var mem := head + column + rest;
    assert mem[..4] == head;
    assert mem[4..4 + |column|] == column;
    assert mem[4 + |column|..] == rest;
  }

  lemma {:induction false} LoadColumn8OfBytes(vs: seq<byte>, rest: seq<byte>)
    requires |vs| <= MAX_U32
    ensures LoadColumn8(Be32(|vs|) + vs + rest) == (vs, rest)
  {
    Be32RoundTrip(|vs|);
    LoadColumn8Split(Be32(|vs|), vs, rest);
  }
}
