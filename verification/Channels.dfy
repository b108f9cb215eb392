/**
 Channel ids and the channel name table (tools/blob/routing/channel.py), and the string tables that the name
 record and the metadata record (tools/blob/__main__.py) have in common.
 */
module Channels {
  import opened Results
  import opened Bytes
  import opened BlobFormat

  datatype ChannelType = Can | PduTransport | FlexRay

  /** `configuration` stands for the payload of the channel's own record; `id` is not read for PDU transport. */
  datatype Channel = Channel(name: string, id: int, channelType: ChannelType, configuration: seq<byte>)

  /** ChannelType.__bytes__. */
  function ChannelTypeValue(t: ChannelType): (v: u16) {
    match t
    case PduTransport => 0x0000
    case Can => 0x0001
    case FlexRay => 0x0002
  }

  // ----- Dictionaries in insertion order -----

  datatype Entry = Entry(name: string, id: int)

  /** d[e.name] = e.id: an existing key keeps its place. */
  function Put(d: seq<Entry>, e: Entry): (r: seq<Entry>) {
    if d == [] then [e]
    else if d[0].name == e.name then [e] + d[1..]
    else [d[0]] + Put(d[1..], e)
  }

  function FromPairs(es: seq<Entry>): (d: seq<Entry>) {
    if es == [] then [] else Put(FromPairs(es[..|es| - 1]), es[|es| - 1])
  }

  ghost predicate DistinctEntries(es: seq<Entry>) {
    forall i, j :: 0 <= i < j < |es| ==> es[i].name != es[j].name
  }

  lemma {:induction false} PutFresh(d: seq<Entry>, e: Entry)
    requires forall i :: 0 <= i < |d| ==> d[i].name != e.name
    ensures Put(d, e) == d + [e]
  {
    if d != [] {
      PutFresh(d[1..], e);
    }
  }

  lemma {:induction false} FromDistinctPairs(es: seq<Entry>)
    requires DistinctEntries(es)
    ensures FromPairs(es) == es
  {
    if es != [] {
      var n := |es| - 1;
      FromDistinctPairs(es[..n]);
      PutFresh(es[..n], es[n]);
      assert es == es[..n] + [es[n]];
    }
  }

  /** sorted(..., key=id) is stable: an entry goes behind all entries with the same or a smaller id. */
  function InsertById(e: Entry, es: seq<Entry>): (r: seq<Entry>) {
    if es == [] then [e]
    else if es[0].id <= e.id then [es[0]] + InsertById(e, es[1..])
    else [e] + es
  }

  function SortById(es: seq<Entry>): (r: seq<Entry>) {
    if es == [] then [] else InsertById(es[|es| - 1], SortById(es[..|es| - 1]))
  }

  ghost predicate SortedById(es: seq<Entry>) {
    forall i, j :: 0 <= i < j < |es| ==> es[i].id <= es[j].id
  }

  lemma {:induction false} InsertByIdKeeps(e: Entry, es: seq<Entry>)
    ensures multiset(InsertById(e, es)) == multiset(es) + multiset{e}
  {
    if es != [] {
      assert es == [es[0]] + es[1..];
      if es[0].id <= e.id {
        InsertByIdKeeps(e, es[1..]);
      }
    }
  }

  /** No entry of a result is in front of both the inserted one and the list. */
  lemma {:induction false} InsertByIdAbove(e: Entry, es: seq<Entry>, least: int)
    requires least <= e.id && forall j :: 0 <= j < |es| ==> least <= es[j].id
    ensures forall j :: 0 <= j < |InsertById(e, es)| ==> least <= InsertById(e, es)[j].id
  {
    if es != [] && es[0].id <= e.id {
      InsertByIdAbove(e, es[1..], least);
    }
  }

  lemma {:induction false} InsertByIdSorts(e: Entry, es: seq<Entry>)
    requires SortedById(es)
    ensures SortedById(InsertById(e, es))
  {
    if es != [] && es[0].id <= e.id {
      InsertByIdSorts(e, es[1..]);
      InsertByIdAbove(e, es[1..], es[0].id);
    }
  }

  lemma {:induction false} SortByIdSorts(es: seq<Entry>)
    ensures SortedById(SortById(es))
    ensures multiset(SortById(es)) == multiset(es)
  {
    if es != [] {
      var n := |es| - 1;
      SortByIdSorts(es[..n]);
      InsertByIdSorts(es[n], SortById(es[..n]));
      InsertByIdKeeps(es[n], SortById(es[..n]));
      assert es == es[..n] + [es[n]];
    }
  }

  // ----- channel_ids -----

  /** The channels that are (or are not) PDU transport channels, in order. */
  function Select(channels: seq<Channel>, pdu: bool): (s: seq<Channel>) {
    if channels == [] then []
    else
      var init, last := Select(channels[..|channels| - 1], pdu), channels[|channels| - 1];
      if (last.channelType == PduTransport) == pdu then init + [last] else init
  }

  function StaticEntries(channels: seq<Channel>): (es: seq<Entry>) {
    var s := Select(channels, false);
    seq(|s|, i requires 0 <= i < |s| => Entry(s[i].name, s[i].id))
  }

  /** The PDU transport channels are numbered in order of appearance, from `first` on. */
  function PduEntries(channels: seq<Channel>, first: int): (es: seq<Entry>)
    ensures forall i :: 0 <= i < |es| ==> es[i].id == first + i
  {
    var s := Select(channels, true);
    seq(|s|, i requires 0 <= i < |s| => Entry(s[i].name, first + i))
  }

  predicate NumberedFromZero(es: seq<Entry>) {
    forall i :: 0 <= i < |es| ==> es[i].id == i
  }

  function ChannelIds(channels: seq<Channel>): (r: Result<seq<Entry>>) {
    var staticIds := FromPairs(SortById(StaticEntries(channels)));
    if !NumberedFromZero(staticIds) then Err(InvalidChannelIds)
    else
      var pduIds := FromPairs(PduEntries(channels, |staticIds|));
      Ok(FromPairs(staticIds + pduIds))
  }

  ghost predicate DistinctNames(channels: seq<Channel>) {
    forall i, j :: 0 <= i < j < |channels| ==> channels[i].name != channels[j].name
  }

  lemma {:induction false} Selected(channels: seq<Channel>, pdu: bool)
    ensures forall c :: c in Select(channels, pdu) <==> c in channels && (c.channelType == PduTransport) == pdu
    ensures DistinctNames(channels) ==> DistinctNames(Select(channels, pdu))
  {
    if channels != [] {
      var n := |channels| - 1;
      var init := channels[..n];
      Selected(init, pdu);
      assert channels == init + [channels[n]];
    }
  }

  lemma {:induction false} SelectedPartition(channels: seq<Channel>)
    ensures |Select(channels, false)| + |Select(channels, true)| == |channels|
  {
    if channels != [] {
      SelectedPartition(channels[..|channels| - 1]);
    }
  }

  lemma {:induction false} SortKeepsDistinct(es: seq<Entry>)
    requires DistinctEntries(es)
    ensures DistinctEntries(SortById(es)) && |SortById(es)| == |es|
    ensures forall e :: e in SortById(es) <==> e in es
  {
    SortByIdSorts(es);
    var s := SortById(es);
    assert |s| == |multiset(s)| == |multiset(es)| == |es|;
    forall e ensures e in s <==> e in es {
      assert e in s <==> e in multiset(s);
      assert e in es <==> e in multiset(es);
    }
    forall i, j | 0 <= i < j < |s| ensures s[i].name != s[j].name {
      if s[i].name == s[j].name {
        assert s[i] in es && s[j] in es;
        assert s[i] == s[j];
        TwoPlaces(s, i, j);
        OnePlace(es, s[i]);
        assert false;
      }
    }
  }

  lemma {:induction false} OnePlace(es: seq<Entry>, e: Entry)
    requires DistinctEntries(es) && e in es
    ensures multiset(es)[e] == 1
  {
    var i :| 0 <= i < |es| && es[i] == e;
    var before, after := es[..i], es[i + 1..];
    assert es == before + [e] + after;
    assert e !in before;
    assert e !in after;
    assert multiset(es) == multiset(before) + multiset{e} + multiset(after);
  }

  lemma {:induction false} TwoPlaces(s: seq<Entry>, i: nat, j: nat)
    requires i < j < |s| && s[i] == s[j]
    ensures multiset(s)[s[i]] >= 2
  {
    assert s == s[..j] + [s[j]] + s[j + 1..];
    assert s[..j][i] in multiset(s[..j]);
  }

  /** The result of channel_ids for distinct names: numbered 0..n-1 in dictionary order, one entry per channel. */
  ghost predicate IsNumbering(ids: seq<Entry>, channels: seq<Channel>) {
    && |ids| == |channels| && NumberedFromZero(ids) && DistinctEntries(ids)
    && (forall c :: c in channels ==> exists e :: e in ids && e.name == c.name)
    && (forall c :: c in channels && c.channelType != PduTransport ==> Entry(c.name, c.id) in ids)
  }

  lemma {:induction false} StaticFacts(channels: seq<Channel>)
    requires DistinctNames(channels)
    ensures var es := StaticEntries(channels);
      && DistinctEntries(es) && FromPairs(SortById(es)) == SortById(es)
      && DistinctEntries(SortById(es)) && |SortById(es)| == |es| == |Select(channels, false)|
      && forall e :: e in SortById(es) <==> e in es
  {
    Selected(channels, false);
    SortKeepsDistinct(StaticEntries(channels));
    FromDistinctPairs(SortById(StaticEntries(channels)));
  }

  lemma {:induction false} PduFacts(channels: seq<Channel>, first: int)
    requires DistinctNames(channels)
    ensures var es := PduEntries(channels, first);
      DistinctEntries(es) && FromPairs(es) == es && |es| == |Select(channels, true)|
  {
    Selected(channels, true);
    FromDistinctPairs(PduEntries(channels, first));
  }

  lemma {:induction false} StaticAndPduDiffer(channels: seq<Channel>, first: int)
    requires DistinctNames(channels)
    ensures forall a, b :: a in StaticEntries(channels) && b in PduEntries(channels, first) ==> a.name != b.name
  {
    Selected(channels, false);
    Selected(channels, true);
    var s, p := Select(channels, false), Select(channels, true);
    forall a, b | a in StaticEntries(channels) && b in PduEntries(channels, first) ensures a.name != b.name {
      var i :| 0 <= i < |s| && a == Entry(s[i].name, s[i].id);
      var j :| 0 <= j < |p| && b == Entry(p[j].name, first + j);
      assert s[i] in s && p[j] in p;
      assert s[i] in channels && p[j] in channels && s[i] != p[j];
    }
  }

  lemma {:induction false} ChannelIdsJoined(channels: seq<Channel>)
    requires DistinctNames(channels) && ChannelIds(channels).Ok?
    ensures var staticIds := SortById(StaticEntries(channels));
      ChannelIds(channels).value == staticIds + PduEntries(channels, |staticIds|)
    ensures DistinctEntries(ChannelIds(channels).value)
  {
    hide SortById, Select;
    StaticFacts(channels);
    var staticIds := SortById(StaticEntries(channels));
    var pduIds := PduEntries(channels, |staticIds|);
    PduFacts(channels, |staticIds|);
    StaticAndPduDiffer(channels, |staticIds|);
    var ids := staticIds + pduIds;
    forall i, j | 0 <= i < j < |ids| ensures ids[i].name != ids[j].name {
      if i < |staticIds| <= j {
        assert ids[i] in staticIds && ids[j] in pduIds;
      }
    }
    FromDistinctPairs(ids);
  }

  lemma {:induction false} ChannelIdsNumber(channels: seq<Channel>)
    requires DistinctNames(channels) && ChannelIds(channels).Ok?
    ensures IsNumbering(ChannelIds(channels).value, channels)
  {
    StaticFacts(channels);
    var staticIds := SortById(StaticEntries(channels));
    var pduIds := PduEntries(channels, |staticIds|);
    PduFacts(channels, |staticIds|);
    ChannelIdsJoined(channels);
    SelectedPartition(channels);
    var ids: seq<Entry> := staticIds + pduIds;
    forall c | c in channels
      ensures exists e :: e in ids && e.name == c.name
      ensures c.channelType != PduTransport ==> Entry(c.name, c.id) in ids
    {
      EntryOfChannel(channels, |staticIds|, c);
    }
  }

  lemma {:induction false} EntryOfChannel(channels: seq<Channel>, first: int, c: Channel)
    requires c in channels
    ensures c.channelType != PduTransport ==> Entry(c.name, c.id) in StaticEntries(channels)
    ensures c.channelType == PduTransport ==> exists e :: e in PduEntries(channels, first) && e.name == c.name
  {
    var pdu := c.channelType == PduTransport;
    Selected(channels, pdu);
    var s := Select(channels, pdu);
    var i :| 0 <= i < |s| && s[i] == c;
    if pdu {
      assert PduEntries(channels, first)[i].name == c.name;
    } else {
      assert StaticEntries(channels)[i] == Entry(c.name, c.id);
    }
  }

  /** How many of the first n channels are, or are not, PDU transport channels. */
  function Counted(channels: seq<Channel>, pdu: bool, n: nat): (k: nat)
    requires n <= |channels|
  {
    if n == 0 then 0
    else Counted(channels, pdu, n - 1) + if (channels[n - 1].channelType == PduTransport) == pdu then 1 else 0
  }

  lemma {:induction false} SelectAt(channels: seq<Channel>, pdu: bool, i: nat)
    requires i < |channels| && (channels[i].channelType == PduTransport) == pdu
    ensures Counted(channels, pdu, i) < |Select(channels, pdu)|
    ensures Select(channels, pdu)[Counted(channels, pdu, i)] == channels[i]
  {
    var init := channels[..|channels| - 1];
    CountedSelect(init, pdu, i);
    CountedInit(channels, pdu, i);
    if i < |init| {
      SelectAt(init, pdu, i);
    } else {
      assert init[..i] == init;
    }
  }

  lemma {:induction false} CountedSelect(channels: seq<Channel>, pdu: bool, n: nat)
    requires n <= |channels|
    ensures Counted(channels, pdu, n) == |Select(channels[..n], pdu)|
  {
    if n > 0 {
      CountedSelect(channels, pdu, n - 1);
      assert channels[..n][..n - 1] == channels[..n - 1];
    }
  }

  lemma {:induction false} CountedInit(channels: seq<Channel>, pdu: bool, n: nat)
    requires n < |channels|
    ensures Counted(channels, pdu, n) == Counted(channels[..|channels| - 1], pdu, n)
  {
    if n > 0 {
      CountedInit(channels, pdu, n - 1);
    }
  }

  /**
   Which id each channel of an accepted list gets: the static channels keep theirs, and the PDU transport channels are
   numbered behind them, in the order of the list.
   */
  lemma {:induction false} ChannelIdsExactly(channels: seq<Channel>, i: nat)
    requires DistinctNames(channels) && ChannelIds(channels).Ok? && i < |channels|
    ensures var id := if channels[i].channelType != PduTransport then channels[i].id
                      else Counted(channels, false, |channels|) + Counted(channels, true, i);
      Entry(channels[i].name, id) in ChannelIds(channels).value
  {
    hide IsNumbering, SortById, FromPairs;
    StaticFacts(channels);
    var staticIds := SortById(StaticEntries(channels));
    var pduIds := PduEntries(channels, |staticIds|);
    PduFacts(channels, |staticIds|);
    ChannelIdsJoined(channels);
    CountedSelect(channels, false, |channels|);
    assert channels[..|channels|] == channels;
    if channels[i].channelType == PduTransport {
      SelectAt(channels, true, i);
      assert pduIds[Counted(channels, true, i)] in staticIds + pduIds;
    } else {
      EntryOfChannel(channels, |staticIds|, channels[i]);
    }
  }

  /** Exactly which channel lists channel_ids accepts: the static ids are distinct and below their number. */
  lemma {:induction false} ChannelIdsAcceptsExactly(channels: seq<Channel>)
    requires DistinctNames(channels)
    ensures var es := StaticEntries(channels);
      ChannelIds(channels).Ok? <==>
        && (forall i :: 0 <= i < |es| ==> 0 <= es[i].id < |es|)
        && (forall i, j :: 0 <= i < j < |es| ==> es[i].id != es[j].id)
  {
    var es := StaticEntries(channels);
    StaticFacts(channels);
    var s := SortById(es);
    if NumberedFromZero(s) {
      NumberedIdsDistinct(es, s);
    }
    if (forall i :: 0 <= i < |es| ==> 0 <= es[i].id < |es|)
        && (forall i, j :: 0 <= i < j < |es| ==> es[i].id != es[j].id) {
      DistinctIdsNumbered(es);
    }
  }

  lemma {:induction false} NumberedIdsDistinct(es: seq<Entry>, s: seq<Entry>)
    requires NumberedFromZero(s) && |s| == |es| && DistinctEntries(es) && forall e :: e in s <==> e in es
    ensures forall i :: 0 <= i < |es| ==> 0 <= es[i].id < |es|
    ensures forall i, j :: 0 <= i < j < |es| ==> es[i].id != es[j].id
  {
    forall i | 0 <= i < |es| ensures 0 <= es[i].id < |es| {
      assert es[i] in s;
    }
    forall i, j | 0 <= i < j < |es| ensures es[i].id != es[j].id {
      assert es[i] in s && es[j] in s;
    }
  }

  lemma {:induction false} DistinctIdsNumbered(es: seq<Entry>)
    requires DistinctEntries(es)
    requires forall i :: 0 <= i < |es| ==> 0 <= es[i].id < |es|
    requires forall i, j :: 0 <= i < j < |es| ==> es[i].id != es[j].id
    ensures NumberedFromZero(SortById(es))
  {
    SortByIdSorts(es);
    SortKeepsDistinct(es);
    var s := SortById(es);
    forall i | 0 <= i < |s| ensures 0 <= s[i].id < |s| {
      assert s[i] in s;
    }
    forall i, j | 0 <= i < j < |s| ensures s[i].id < s[j].id {
      assert s[i] in s && s[j] in s;
    }
    forall i | 0 <= i < |s| ensures s[i].id == i {
      IncreasingInRange(s, i);
    }
  }

  lemma {:induction false} IncreasingInRange(s: seq<Entry>, i: nat)
    requires i < |s|
    requires forall k :: 0 <= k < |s| ==> 0 <= s[k].id < |s|
    requires forall k, l :: 0 <= k < l < |s| ==> s[k].id < s[l].id
    ensures s[i].id == i
  {
    AtLeastIndex(s, i);
    AtMostIndex(s, i);
  }

  lemma {:induction false} AtLeastIndex(s: seq<Entry>, i: nat)
    requires i < |s|
    requires forall k :: 0 <= k < |s| ==> 0 <= s[k].id < |s|
    requires forall k, l :: 0 <= k < l < |s| ==> s[k].id < s[l].id
    ensures s[i].id >= i
  {
    if i > 0 {
      AtLeastIndex(s, i - 1);
    }
  }

  lemma {:induction false} AtMostIndex(s: seq<Entry>, i: nat)
    requires i < |s|
    requires forall k :: 0 <= k < |s| ==> 0 <= s[k].id < |s|
    requires forall k, l :: 0 <= k < l < |s| ==> s[k].id < s[l].id
    ensures s[i].id <= i
    decreases |s| - i
  {
    if i + 1 < |s| {
      AtMostIndex(s, i + 1);
    }
  }

  function IdMap(ids: seq<Entry>): (m: map<string, nat>)
    requires forall i :: 0 <= i < |ids| ==> ids[i].id >= 0
  {
    if ids == [] then map[] else IdMap(ids[..|ids| - 1])[ids[|ids| - 1].name := ids[|ids| - 1].id]
  }

  lemma {:induction false} IdMapHolds(ids: seq<Entry>)
    requires NumberedFromZero(ids) && DistinctEntries(ids)
    ensures forall e :: e in ids ==> e.name in IdMap(ids) && IdMap(ids)[e.name] == e.id
    ensures forall n :: n in IdMap(ids) ==> Entry(n, IdMap(ids)[n]) in ids
  {
    if ids != [] {
      var n := |ids| - 1;
      IdMapHolds(ids[..n]);
      assert ids == ids[..n] + [ids[n]];
    }
  }

  // ----- String tables -----

  /** The UTF-8 encoding of one character (str.encode()). */
  function Utf8(c: char): (s: seq<byte>)
    ensures 1 <= |s| <= 4
    ensures |s| == 1 <==> c as int < 0x80
  {
    var v := c as int;
    if v < 0x80 then [v]
    else if v < 0x800 then [0xC0 + v / 0x40, 0x80 + v % 0x40]
    else if v < 0x1_0000 then [0xE0 + v / 0x1000, 0x80 + v / 0x40 % 0x40, 0x80 + v % 0x40]
    else [0xF0 + v / 0x4_0000, 0x80 + v / 0x1000 % 0x40, 0x80 + v / 0x40 % 0x40, 0x80 + v % 0x40]
  }

  /** A number with the six bits of a continuation byte at its end. */
  function Continued(high: int, b: int): (v: int) {
    high * 64 + (b - 0x80)
  }

  predicate IsContinuation(b: byte) {
    0x80 <= b < 0xC0
  }

  /** A leading byte that tells the length, and continuation bytes, with six bits of the character each. */
  lemma {:induction false} Utf8Exactly(c: char)
    ensures var v, s := c as int, Utf8(c);
      && (forall i :: 1 <= i < |s| ==> IsContinuation(s[i]))
      && (v < 0x80 ==> s == [v])
      && (0x80 <= v < 0x800 ==> |s| == 2 && 0xC0 <= s[0] < 0xE0 && v == Continued(s[0] - 0xC0, s[1]))
      && (0x800 <= v < 0x1_0000 ==>
            |s| == 3 && 0xE0 <= s[0] < 0xF0 && v == Continued(Continued(s[0] - 0xE0, s[1]), s[2]))
      && (0x1_0000 <= v ==>
            |s| == 4 && 0xF0 <= s[0] < 0xF8
            && v == Continued(Continued(Continued(s[0] - 0xF0, s[1]), s[2]), s[3]))
  {
    var v := c as int;
    assert v / 0x1000 * 0x40 + v / 0x40 % 0x40 == v / 0x40;
    assert v / 0x4_0000 * 0x40 + v / 0x1000 % 0x40 == v / 0x1000;
  }

  function Encode(s: string): (b: seq<byte>)
    ensures |b| >= |s|
  {
    if s == [] then [] else Utf8(s[0]) + Encode(s[1..])
  }

  predicate IsAscii(s: string) {
    forall i :: 0 <= i < |s| ==> s[i] as int < 0x80
  }

  lemma {:induction false} EncodedLength(s: string)
    ensures |Encode(s)| == |s| <==> IsAscii(s)
  {
    if s != [] {
      EncodedLength(s[1..]);
      assert s == [s[0]] + s[1..];
    }
  }

  function EncodeAll(names: seq<string>): (b: seq<byte>) {
    if names == [] then [] else Encode(names[0]) + EncodeAll(names[1..])
  }

  lemma {:induction false} EncodeAllAppend(a: seq<string>, b: seq<string>)
    ensures EncodeAll(a + b) == EncodeAll(a) + EncodeAll(b)
  {
    if a == [] {
      assert a + b == b;
    } else {
      assert (a + b)[1..] == a[1..] + b;
      EncodeAllAppend(a[1..], b);
    }
  }

  /** The number of characters of the names: what accumulate(map(len, names)) adds up. */
  function CharCount(names: seq<string>): (n: nat) {
    if names == [] then 0 else CharCount(names[..|names| - 1]) + |names[|names| - 1]|
  }

  /** [0, *accumulate(map(len, names))]. */
  function NameOffsets(names: seq<string>): (s: seq<nat>)
    ensures |s| == |names| + 1
    ensures forall i :: 0 <= i <= |names| ==> s[i] == CharCount(names[..i])
  {
    seq(|names| + 1, i requires 0 <= i <= |names| => CharCount(names[..i]))
  }

  method AccumulateLengths(names: seq<string>) returns (offsets: seq<nat>)
    ensures offsets == NameOffsets(names)
  {
    offsets := [0];
    var total := 0;
    for i := 0 to |names|
      invariant total == CharCount(names[..i]) && offsets == NameOffsets(names[..i])
    {
      assert names[..i + 1][..i] == names[..i];
      total := total + |names[i]|;
      offsets := offsets + [total];
      assert forall k :: 0 <= k <= i ==> names[..i + 1][..k] == names[..i][..k];
      assert names[..i + 1][..i + 1] == names[..i + 1];
    }
    assert names[..|names|] == names;
  }

  function NameLeaves(names: seq<string>): (items: seq<Element>)
    ensures FlatAll(items) == EncodeAll(names)
  {
    if names == [] then []
    else if |names[0]| > 0 then [Leaf(Encode(names[0]))] + NameLeaves(names[1..])
    else NameLeaves(names[1..])
  }

  /** The data of a name or metadata record: count, offsets, strings; nothing at all for an empty list. */
  function StringTable(names: seq<string>): (r: Result<seq<Element>>) {
    if names == [] then Ok([])
    else if |names| > MAX_U16 then Err(ValueOutOfRange)
    else
      var offsets :- Vector16(NameOffsets(names));
      Ok([Leaf(Be16(|names|)), offsets, Node(NameLeaves(names))])
  }

  lemma {:induction false} StringTableBytes(names: seq<string>)
    requires names != [] && StringTable(names).Ok?
    ensures |names| <= MAX_U16 && InRange16(NameOffsets(names))
    ensures FlatAll(StringTable(names).value) == Be16(|names|) + Be16s(NameOffsets(names)) + EncodeAll(names)
  {
    var offsets := Vector16(NameOffsets(names)).value;
    FlatAllThree(Leaf(Be16(|names|)), offsets, Node(NameLeaves(names)));
  }

  lemma {:induction false} FlatAllThree(a: Element, b: Element, c: Element)
    ensures FlatAll([a, b, c]) == Flat(a) + Flat(b) + Flat(c)
  {
    FlatAllOne(c);
    assert [a, b, c][1..] == [b, c];
    assert [b, c][1..] == [c];
  }

  /** The loop of ChannelNames.create_blob_element_list, with empty names for unused ids. */
  function NamesWithGaps(ids: seq<Entry>): (names: seq<string>) {
    if ids == [] then []
    else
      var n := |ids| - 1;
      var previous := if n == 0 then 0 else ids[n - 1].id;
      NamesWithGaps(ids[..n]) + Gap(ids[n].id - (previous + 1)) + [ids[n].name + [0 as char]]
  }

  function Gap(n: int): (names: seq<string>) {
    seq(if n > 0 then n else 0, i => "")
  }

  method ChannelNameList(ids: seq<Entry>) returns (names: seq<string>)
    ensures names == NamesWithGaps(ids)
  {
    names := [];
    var previous := 0;
    for i := 0 to |ids|
      invariant names == NamesWithGaps(ids[..i]) && previous == if i == 0 then 0 else ids[i - 1].id
    {
      assert ids[..i + 1][..i] == ids[..i];
      names := names + Gap(ids[i].id - (previous + 1));
      previous := ids[i].id;
      names := names + [ids[i].name + [0 as char]];
    }
    assert ids[..|ids|] == ids;
  }

  ghost predicate IncreasingFromZero(ids: seq<Entry>) {
    ids != [] && ids[0].id == 0 && forall i, j :: 0 <= i < j < |ids| ==> ids[i].id < ids[j].id
  }

  /** With increasing ids from 0 on, the name of an id stands at that index, and empty names stand at all others. */
  lemma {:induction false} NamesAtIds(ids: seq<Entry>)
    requires IncreasingFromZero(ids)
    ensures var names := NamesWithGaps(ids);
      && |names| == ids[|ids| - 1].id + 1
      && (forall i :: 0 <= i < |ids| ==> 0 <= ids[i].id < |names| && names[ids[i].id] == ids[i].name + "\0")
      && (forall k :: 0 <= k < |names| ==> names[k] == "" || exists i :: 0 <= i < |ids| && ids[i].id == k)
  {
    hide NamesWithGaps, Gap;
    var n := |ids| - 1;
    NamesStep(ids);
    if n > 0 {
      NamesAtIds(ids[..n]);
      assert forall i :: 0 <= i < n ==> ids[..n][i] == ids[i];
    }
  }

  lemma {:induction false} NamesStep(ids: seq<Entry>)
    requires ids != []
    ensures var n := |ids| - 1;
      var gap := Gap(ids[n].id - ((if n == 0 then 0 else ids[n - 1].id) + 1));
      && NamesWithGaps(ids) == NamesWithGaps(ids[..n]) + gap + [ids[n].name + "\0"]
      && |gap| == (if ids[n].id - (if n == 0 then 0 else ids[n - 1].id) > 1
                   then ids[n].id - (if n == 0 then 0 else ids[n - 1].id) - 1 else 0)
      && (forall k :: 0 <= k < |gap| ==> gap[k] == "")
      && (n == 0 ==> NamesWithGaps(ids[..n]) == [])
  {
  }

  /** With ids 0..n-1 the gap filling never fires: entry i of the list is the NUL-terminated name of channel i. */
  lemma {:induction false} NoGaps(ids: seq<Entry>)
    requires NumberedFromZero(ids)
    ensures |NamesWithGaps(ids)| == |ids|
    ensures forall i :: 0 <= i < |ids| ==> NamesWithGaps(ids)[i] == ids[i].name + [0 as char]
  {
    if ids != [] {
      var n := |ids| - 1;
      NoGaps(ids[..n]);
      assert Gap(ids[n].id - ((if n == 0 then 0 else ids[n - 1].id) + 1)) == [];
    }
  }
}
