/**
 The front end of the routing compiler (tools/blob/routing/utils.py): a list of routings is resolved against
 the channel ids and normalised into one table, sorted by channel and by key, in which the last routing given
 for a key decides its outputs.
 */
module RoutingTable {
  import opened Results

  // ----- Source: routings as they are read from the input -----

  datatype RoutingInput = RoutingInput(
    channelName: string, messageId: int, messageLength: Option<int>, pduOffset: int, pduLength: int)

  datatype RoutingOutput = RoutingOutput(
    channelName: string, messageId: int, pduOffset: Option<int>, pduLength: Option<int>)

  datatype Routing = Routing(input: RoutingInput, outputs: seq<RoutingOutput>)

  // ----- Target: the sorted table -----

  datatype Key = Key(messageId: int, messageLength: int, pduOffset: int, pduLength: int)

  datatype Output = Output(channel: nat, messageId: int, pduOffset: int, pduLength: int)

  datatype Row = Row(key: Key, outputs: seq<Output>)

  datatype ChannelRows = ChannelRows(channel: nat, rows: seq<Row>)

  type Table = seq<ChannelRows>

  /** A routing with channel names replaced by ids and defaults filled in. */
  datatype Resolved = Resolved(channel: nat, key: Key, outputs: seq<Output>)

  function GetOr<T>(o: Option<T>, default: T): T {
    if o.Some? then o.value else default
  }

  function ResolveOutputs(outputs: seq<RoutingOutput>, ids: map<string, nat>, pduLength: int)
    : (r: Result<seq<Output>>)
    ensures r.Ok? ==> forall o :: o in r.value ==> o.channel in ids.Values
  {
    if outputs == [] then Ok([])
    else
      var o := outputs[0];
      if o.channelName !in ids then Err(KeyMissing)
      else
        var rest :- ResolveOutputs(outputs[1..], ids, pduLength);
        Ok([Output(ids[o.channelName], o.messageId, GetOr(o.pduOffset, 0), GetOr(o.pduLength, pduLength))] + rest)
  }

  function Resolve(r: Routing, ids: map<string, nat>): (resolved: Result<Resolved>)
    ensures resolved.Ok? ==> InChannels(resolved.value, ids.Values)
  {
    if r.input.channelName !in ids then Err(KeyMissing)
    else
      var i := r.input;
      var outputs :- ResolveOutputs(r.outputs, ids, i.pduLength);
      Ok(Resolved(ids[i.channelName], Key(i.messageId, GetOr(i.messageLength, 0), i.pduOffset, i.pduLength), outputs))
  }

  predicate InChannels(r: Resolved, channels: set<nat>) {
    r.channel in channels && forall o :: o in r.outputs ==> o.channel in channels
  }

  predicate AllInChannels(rs: seq<Resolved>, channels: set<nat>) {
    forall i :: 0 <= i < |rs| ==> InChannels(rs[i], channels)
  }

  function ResolveAll(rs: seq<Routing>, ids: map<string, nat>): (r: Result<seq<Resolved>>)
    ensures r.Ok? ==> |r.value| == |rs| && AllInChannels(r.value, ids.Values)
  {
    if rs == [] then Ok([])
    else
      var init :- ResolveAll(rs[..|rs| - 1], ids);
      var last :- Resolve(rs[|rs| - 1], ids);
      Ok(init + [last])
  }

  // ----- What resolving means -----

  /** What an output description asks for; what it leaves out is the offset 0 and the length of the input. */
  ghost predicate OutputAsks(o: RoutingOutput, ids: map<string, nat>, inputLength: int, out: Output) {
    && o.channelName in ids && out.channel == ids[o.channelName] && out.messageId == o.messageId
    && (match o.pduOffset case Some(offset) => out.pduOffset == offset case None => out.pduOffset == 0)
    && (match o.pduLength case Some(length) => out.pduLength == length case None => out.pduLength == inputLength)
  }

  /** What a routing asks for: without a message length, it is for messages of any length, which is written as 0. */
  ghost predicate RoutingAsks(r: Routing, ids: map<string, nat>, resolved: Resolved) {
    var i, key := r.input, resolved.key;
    && i.channelName in ids && resolved.channel == ids[i.channelName]
    && key.messageId == i.messageId && key.pduOffset == i.pduOffset && key.pduLength == i.pduLength
    && (match i.messageLength case Some(n) => key.messageLength == n case None => key.messageLength == 0)
    && |resolved.outputs| == |r.outputs|
    && forall j :: 0 <= j < |r.outputs| ==> OutputAsks(r.outputs[j], ids, i.pduLength, resolved.outputs[j])
  }

  ghost predicate AllAsk(routings: seq<Routing>, ids: map<string, nat>, rs: seq<Resolved>) {
    |rs| == |routings| && forall i :: 0 <= i < |routings| ==> RoutingAsks(routings[i], ids, rs[i])
  }

  /** All channel names of a routing are known. */
  predicate NamesKnown(r: Routing, ids: map<string, nat>) {
    r.input.channelName in ids && forall j :: 0 <= j < |r.outputs| ==> r.outputs[j].channelName in ids
  }

  lemma {:induction false} ResolveOutputsMeaning(outputs: seq<RoutingOutput>, ids: map<string, nat>, pduLength: int)
    ensures var r := ResolveOutputs(outputs, ids, pduLength);
      if forall j :: 0 <= j < |outputs| ==> outputs[j].channelName in ids then
        && r.Ok? && |r.value| == |outputs|
        && forall j :: 0 <= j < |outputs| ==> OutputAsks(outputs[j], ids, pduLength, r.value[j])
      else r == Err(KeyMissing)
  {
    if outputs != [] {
      ResolveOutputsMeaning(outputs[1..], ids, pduLength);
      assert forall j :: 0 < j < |outputs| ==> outputs[j] == outputs[1..][j - 1];
    }
  }

  lemma {:induction false} ResolveMeaning(r: Routing, ids: map<string, nat>)
    ensures if NamesKnown(r, ids) then Resolve(r, ids).Ok? && RoutingAsks(r, ids, Resolve(r, ids).value)
            else Resolve(r, ids) == Err(KeyMissing)
  {
    hide OutputAsks, ResolveOutputs;
    ResolveOutputsMeaning(r.outputs, ids, r.input.pduLength);
  }

  /** Resolving gives every routing its meaning, or fails if and only if some channel name is unknown. */
  lemma {:induction false} ResolveAllMeaning(rs: seq<Routing>, ids: map<string, nat>)
    ensures var r := ResolveAll(rs, ids);
      if forall i :: 0 <= i < |rs| ==> NamesKnown(rs[i], ids) then r.Ok? && AllAsk(rs, ids, r.value)
      else r == Err(KeyMissing)
  {
    hide NamesKnown, RoutingAsks, Resolve;
    if rs != [] {
      var n := |rs| - 1;
      ResolveAllMeaning(rs[..n], ids);
      ResolveMeaning(rs[n], ids);
      assert forall i :: 0 <= i < n ==> rs[..n][i] == rs[i];
    }
  }

  /** A routing with an offset in its output: the output keeps both, and they are not those of the input. */
  lemma {:induction false} OffsetAndLengthKept(ids: map<string, nat>)
    requires "CAN0" in ids && "PDU_TRANSPORT0" in ids
    ensures ResolveAll([Routing(RoutingInput("CAN0", 2, None, 4, 4),
                                [RoutingOutput("PDU_TRANSPORT0", 259, Some(4), Some(8))])], ids)
         == Ok([Resolved(ids["CAN0"], Key(2, 0, 4, 4), [Output(ids["PDU_TRANSPORT0"], 259, 4, 8)])])
  {
    var r := Routing(RoutingInput("CAN0", 2, None, 4, 4), [RoutingOutput("PDU_TRANSPORT0", 259, Some(4), Some(8))]);
    hide ResolveAll;
    ResolveAllMeaning([r], ids);
    var resolved := ResolveAll([r], ids).value;
    assert RoutingAsks([r][0], ids, resolved[0]);
    assert OutputAsks(r.outputs[0], ids, 4, resolved[0].outputs[0]);
    assert resolved == [resolved[0]] && resolved[0].outputs == [resolved[0].outputs[0]];
  }

  /** Reference meaning of a routing list: the outputs of the last routing with this channel and key. */
  function LastOutputs(rs: seq<Resolved>, channel: nat, key: Key): (o: Option<seq<Output>>) {
    if rs == [] then None
    else
      var last := rs[|rs| - 1];
      if last.channel == channel && last.key == key then Some(last.outputs)
      else LastOutputs(rs[..|rs| - 1], channel, key)
  }

  /** The outputs are those of the routing with this channel and key behind which there is none. */
  lemma {:induction false} LastOutputsIsLast(rs: seq<Resolved>, channel: nat, key: Key) returns (i: nat)
    ensures i <= |rs| && forall j :: i <= j < |rs| ==> !(rs[j].channel == channel && rs[j].key == key)
    ensures LastOutputs(rs, channel, key) == if i == 0 then None else Some(rs[i - 1].outputs)
    ensures i > 0 ==> rs[i - 1].channel == channel && rs[i - 1].key == key
  {
    if rs == [] {
      i := 0;
    } else {
      var n := |rs| - 1;
      if rs[n].channel == channel && rs[n].key == key {
        i := |rs|;
      } else {
        i := LastOutputsIsLast(rs[..n], channel, key);
      }
    }
  }

  // ----- Sorting -----

  /** The sort key (id, message length, PDU offset, -PDU length), compared lexicographically. */
  predicate Less(a: Key, b: Key) {
    || a.messageId < b.messageId
    || (a.messageId == b.messageId &&
        (|| a.messageLength < b.messageLength
         || (a.messageLength == b.messageLength &&
             (|| a.pduOffset < b.pduOffset
              || (a.pduOffset == b.pduOffset && a.pduLength > b.pduLength)))))
  }

  predicate IsLeast(k: Key, keys: set<Key>) {
    k in keys && forall k' :: k' in keys ==> k' == k || Less(k, k')
  }

  lemma {:induction false} LeastExists(keys: set<Key>)
    requires keys != {}
    ensures exists k :: IsLeast(k, keys)
  {
    var a :| a in keys;
    var rest := keys - {a};
    if rest == {} {
      assert keys == {a};
      assert IsLeast(a, keys);
    } else {
      LeastExists(rest);
      var b :| IsLeast(b, rest);
      var k := if Less(a, b) then a else b;
      assert forall k' :: k' in keys ==> k' == a || k' in rest;
      assert IsLeast(k, keys);
    }
  }

  /** sorted() on the distinct keys of one channel. */
  function SortKeys(keys: set<Key>): (ks: seq<Key>)
    ensures |ks| == |keys|
  {
    if keys == {} then []
    else
      LeastExists(keys);
      var k :| IsLeast(k, keys);
      [k] + SortKeys(keys - {k})
  }

  ghost predicate StrictlySorted(ks: seq<Key>) {
    forall i, j :: 0 <= i < j < |ks| ==> Less(ks[i], ks[j])
  }

  lemma {:induction false} SortKeysSorts(keys: set<Key>)
    ensures StrictlySorted(SortKeys(keys))
    ensures forall k :: k in SortKeys(keys) <==> k in keys
  {
    if keys != {} {
      var least := SortKeys(keys)[0];
      var rest := keys - {least};
      assert IsLeast(least, keys);
      assert SortKeys(keys) == [least] + SortKeys(rest);
      SortKeysSorts(rest);
      SortedCons(least, SortKeys(rest), rest);
    }
  }

  lemma {:induction false} SortedCons(least: Key, tail: seq<Key>, rest: set<Key>)
    requires StrictlySorted(tail) && (forall k :: k in tail <==> k in rest)
    requires least !in rest && IsLeast(least, rest + {least})
    ensures StrictlySorted([least] + tail)
    ensures forall k :: k in [least] + tail <==> k in rest + {least}
  {
    var ks := [least] + tail;
    forall j | 0 < j < |ks| ensures Less(ks[0], ks[j]) {
      assert ks[j] == tail[j - 1];
      assert tail[j - 1] in rest;
    }
    forall i, j | 0 < i < j < |ks| ensures Less(ks[i], ks[j]) {
      assert ks[i] == tail[i - 1] && ks[j] == tail[j - 1];
    }
  }

  /** A sorted sequence is determined by the set of its keys. */
  lemma {:induction false} SortedKeysUnique(ks: seq<Key>, keys: set<Key>)
    requires StrictlySorted(ks) && forall k :: k in ks <==> k in keys
    ensures ks == SortKeys(keys)
  {
    if ks == [] {
      assert forall k :: k !in keys;
      assert keys == {};
    } else {
      assert ks[0] in keys;
      var sorted := SortKeys(keys);
      assert IsLeast(sorted[0], keys);
      assert sorted[0] in ks;
      assert ks[0] == sorted[0];
      var rest := keys - {ks[0]};
      forall k ensures k in ks[1..] <==> k in rest {
        TailWithoutHead(ks, k);
      }
      SortedKeysUnique(ks[1..], rest);
      assert ks == [ks[0]] + ks[1..];
    }
  }

  lemma {:induction false} TailWithoutHead(ks: seq<Key>, k: Key)
    requires StrictlySorted(ks) && ks != []
    ensures k in ks[1..] <==> k in ks && k != ks[0]
  {
    if k in ks[1..] {
      var j :| 0 <= j < |ks| - 1 && ks[1..][j] == k;
      assert ks[j + 1] == k && Less(ks[0], ks[j + 1]);
    }
    if k in ks && k != ks[0] {
      var j :| 0 <= j < |ks| && ks[j] == k;
      assert ks[1..][j - 1] == k;
    }
  }

  type Dict = map<Key, seq<Output>>

  /** sorted(d.items(), key=...): the items of one channel in key order. */
  function SortRows(d: Dict): (rows: seq<Row>)
    ensures |rows| == |d|
  {
    SortKeysSorts(d.Keys);
    var ks := SortKeys(d.Keys);
    assert forall i :: 0 <= i < |ks| ==> ks[i] in d;
    seq(|ks|, i requires 0 <= i < |ks| => Row(ks[i], d[ks[i]]))
  }

  function KeysOf(rows: seq<Row>): (ks: seq<Key>)
    ensures |ks| == |rows|
    ensures forall i :: 0 <= i < |rows| ==> ks[i] == rows[i].key
  {
    seq(|rows|, i requires 0 <= i < |rows| => rows[i].key)
  }

  predicate IsLeastInt(x: nat, xs: set<nat>) {
    x in xs && forall y :: y in xs ==> x <= y
  }

  lemma {:induction false} LeastIntExists(xs: set<nat>)
    requires xs != {}
    ensures exists x :: IsLeastInt(x, xs)
  {
    var a :| a in xs;
    var rest := xs - {a};
    if rest == {} {
      assert xs == {a};
      assert IsLeastInt(a, xs);
    } else {
      LeastIntExists(rest);
      var b :| IsLeastInt(b, rest);
      var x := if a < b then a else b;
      assert forall y :: y in xs ==> y == a || y in rest;
      assert IsLeastInt(x, xs);
    }
  }

  /** sorted() on the distinct channel ids. */
  function SortIds(ids: set<nat>): (s: seq<nat>)
    ensures |s| == |ids|
  {
    if ids == {} then []
    else
      LeastIntExists(ids);
      var c :| IsLeastInt(c, ids);
      [c] + SortIds(ids - {c})
  }

  ghost predicate Increasing(s: seq<nat>) {
    forall i, j :: 0 <= i < j < |s| ==> s[i] < s[j]
  }

  lemma {:induction false} SortIdsSorts(ids: set<nat>)
    ensures Increasing(SortIds(ids))
    ensures forall c :: c in SortIds(ids) <==> c in ids
  {
    if ids != {} {
      var least := SortIds(ids)[0];
      var rest := ids - {least};
      assert IsLeastInt(least, ids);
      assert SortIds(ids) == [least] + SortIds(rest);
      SortIdsSorts(rest);
      IncreasingCons(least, SortIds(rest), rest);
    }
  }

  lemma {:induction false} IncreasingCons(least: nat, tail: seq<nat>, rest: set<nat>)
    requires Increasing(tail) && (forall c :: c in tail <==> c in rest)
    requires least !in rest && IsLeastInt(least, rest + {least})
    ensures Increasing([least] + tail)
    ensures forall c :: c in [least] + tail <==> c in rest + {least}
  {
    var s := [least] + tail;
    forall j | 0 < j < |s| ensures s[0] < s[j] {
      assert s[j] == tail[j - 1];
      assert tail[j - 1] in rest;
    }
    forall i, j | 0 < i < j < |s| ensures s[i] < s[j] {
      assert s[i] == tail[i - 1] && s[j] == tail[j - 1];
    }
  }

  lemma {:induction false} IncreasingUnique(s: seq<nat>, ids: set<nat>)
    requires Increasing(s) && forall c :: c in s <==> c in ids
    ensures s == SortIds(ids)
  {
    if s == [] {
      assert forall c :: c !in ids;
      assert ids == {};
    } else {
      assert s[0] in ids;
      var sorted := SortIds(ids);
      assert IsLeastInt(sorted[0], ids);
      assert sorted[0] in s;
      assert s[0] == sorted[0];
      var rest := ids - {s[0]};
      forall c ensures c in s[1..] <==> c in rest {
        IncreasingTail(s, c);
      }
      IncreasingUnique(s[1..], rest);
      assert s == [s[0]] + s[1..];
    }
  }

  lemma {:induction false} IncreasingTail(s: seq<nat>, c: nat)
    requires Increasing(s) && s != []
    ensures c in s[1..] <==> c in s && c != s[0]
  {
    if c in s[1..] {
      var j :| 0 <= j < |s| - 1 && s[1..][j] == c;
      assert s[j + 1] == c && s[0] < s[j + 1];
    }
    if c in s && c != s[0] {
      var j :| 0 <= j < |s| && s[j] == c;
      assert s[1..][j - 1] == c;
    }
  }

  /** sorted(table.items()): the channel ids are distinct, so they alone decide the order. */
  function SortTable(d: map<nat, Dict>): (table: Table)
    ensures |table| == |d|
  {
    SortIdsSorts(d.Keys);
    var cs := SortIds(d.Keys);
    assert forall i :: 0 <= i < |cs| ==> cs[i] in d;
    seq(|cs|, i requires 0 <= i < |cs| => ChannelRows(cs[i], SortRows(d[cs[i]])))
  }

  function ChannelsOf(table: Table): (cs: seq<nat>)
    ensures |cs| == |table|
    ensures forall i :: 0 <= i < |table| ==> cs[i] == table[i].channel
  {
    seq(|table|, i requires 0 <= i < |table| => table[i].channel)
  }

  // ----- input_table -----

  /** The dictionary of dictionaries after entering the routings one by one; later ones overwrite. */
  function FillTables(rs: seq<Resolved>, channels: set<nat>): (d: map<nat, Dict>)
    requires AllInChannels(rs, channels)
    ensures d.Keys == channels
  {
    if rs == [] then map c | c in channels :: map[]
    else
      var last := rs[|rs| - 1];
      var d := FillTables(rs[..|rs| - 1], channels);
      d[last.channel := d[last.channel][last.key := last.outputs]]
  }

  lemma {:induction false} FillTablesHoldLast(rs: seq<Resolved>, channels: set<nat>, c: nat, k: Key)
    requires AllInChannels(rs, channels) && c in channels
    ensures LastOutputs(rs, c, k) ==
            (var d := FillTables(rs, channels)[c]; if k in d then Some(d[k]) else None)
  {
    if rs != [] {
      FillTablesHoldLast(rs[..|rs| - 1], channels, c, k);
    }
  }

  function InputTableOf(routings: seq<Routing>, ids: map<string, nat>): (r: Result<Table>) {
    var rs :- ResolveAll(routings, ids);
    Ok(SortTable(FillTables(rs, ids.Values)))
  }

  lemma {:induction false} ResolveNext(rs: seq<Routing>, ids: map<string, nat>, i: nat)
    requires i < |rs| && ResolveAll(rs[..i], ids).Ok?
    ensures ResolveAll(rs[..i + 1], ids) ==
      var next := Resolve(rs[i], ids);
      if next.Err? then Err(next.error) else Ok(ResolveAll(rs[..i], ids).value + [next.value])
  {
    hide Resolve;
    assert rs[..i + 1][..i] == rs[..i];
  }

  lemma {:induction false} FillNext(rs: seq<Resolved>, channels: set<nat>, i: nat)
    requires i < |rs| && AllInChannels(rs, channels)
    ensures AllInChannels(rs[..i], channels) && AllInChannels(rs[..i + 1], channels) && rs[i].channel in channels
    ensures var d := FillTables(rs[..i], channels);
      FillTables(rs[..i + 1], channels) == d[rs[i].channel := d[rs[i].channel][rs[i].key := rs[i].outputs]]
  {
    assert rs[..i + 1][..i] == rs[..i];
  }

  lemma {:induction false} NothingToFill(ids: map<string, nat>)
    ensures ResolveAll([], ids) == Ok([])
    ensures FillTables([], ids.Values) == map c | c in ids.Values :: map[]
  {
  }

  /** input_table(): resolve all routings, fill the dictionaries, sort. */
  method InputTable(routings: seq<Routing>, ids: map<string, nat>) returns (r: Result<Table>)
    ensures r == InputTableOf(routings, ids)
  {
    hide Resolve, ResolveAll, FillTables, SortTable, AllInChannels;
    NothingToFill(ids);
    var resolved: seq<Resolved> := [];
    for i := 0 to |routings|
      invariant ResolveAll(routings[..i], ids) == Ok(resolved)
    {
      ResolveNext(routings, ids, i);
      var next := Resolve(routings[i], ids);
      if next.Err? {
        ResolveAllFails(routings, ids, i + 1);
        return Err(next.error);
      }
      resolved := resolved + [next.value];
    }
    assert routings[..|routings|] == routings;
    var dict: map<nat, Dict> := map c | c in ids.Values :: map[];
    for i := 0 to |resolved|
      invariant AllInChannels(resolved, ids.Values) && AllInChannels(resolved[..i], ids.Values)
      invariant dict == FillTables(resolved[..i], ids.Values)
    {
      FillNext(resolved, ids.Values, i);
      var e := resolved[i];
      dict := dict[e.channel := dict[e.channel][e.key := e.outputs]];
    }
    assert resolved[..|resolved|] == resolved;
    r := Ok(SortTable(dict));
  }

  lemma {:induction false} ResolveAllFails(rs: seq<Routing>, ids: map<string, nat>, n: nat)
    requires n <= |rs| && ResolveAll(rs[..n], ids).Err?
    ensures ResolveAll(rs, ids) == Err(ResolveAll(rs[..n], ids).error)
    decreases |rs|
  {
    if n == |rs| {
      assert rs[..n] == rs;
    } else {
      assert rs[..|rs| - 1][..n] == rs[..n];
      ResolveAllFails(rs[..|rs| - 1], ids, n);
    }
  }

  // ----- What the table is -----

  /** Independent specification: sorted, one row per key that occurs, holding that key's last outputs. */
  ghost predicate IsTableOf(table: Table, rs: seq<Resolved>, channels: set<nat>) {
    && Increasing(ChannelsOf(table))
    && (forall c :: c in ChannelsOf(table) <==> c in channels)
    && (forall i :: 0 <= i < |table| ==> RowsHoldLast(table[i].rows, rs, table[i].channel))
  }

  ghost predicate RowsHoldLast(rows: seq<Row>, rs: seq<Resolved>, c: nat) {
    && StrictlySorted(KeysOf(rows))
    && (forall k :: k in KeysOf(rows) <==> LastOutputs(rs, c, k).Some?)
    && (forall j :: 0 <= j < |rows| ==> LastOutputs(rs, c, rows[j].key) == Some(rows[j].outputs))
  }

  lemma {:induction false} SortRowsMeaning(rs: seq<Resolved>, channels: set<nat>, c: nat)
    requires AllInChannels(rs, channels) && c in channels
    ensures RowsHoldLast(SortRows(FillTables(rs, channels)[c]), rs, c)
  {
    var d := FillTables(rs, channels)[c];
    SortKeysSorts(d.Keys);
    assert KeysOf(SortRows(d)) == SortKeys(d.Keys);
    forall k ensures LastOutputs(rs, c, k) == if k in d then Some(d[k]) else None {
      FillTablesHoldLast(rs, channels, c, k);
    }
  }

  /** The table exists if and only if every channel name is known. */
  lemma {:induction false} InputTableExistsExactly(routings: seq<Routing>, ids: map<string, nat>)
    ensures InputTableOf(routings, ids).Ok? <==> forall i :: 0 <= i < |routings| ==> NamesKnown(routings[i], ids)
    ensures InputTableOf(routings, ids).Err? ==> InputTableOf(routings, ids) == Err(KeyMissing)
  {
    hide NamesKnown, AllAsk;
    ResolveAllMeaning(routings, ids);
  }

  /** input_table meets its specification whenever every channel name is known. */
  lemma {:induction false} InputTableMeaning(routings: seq<Routing>, ids: map<string, nat>)
    requires InputTableOf(routings, ids).Ok?
    ensures ResolveAll(routings, ids).Ok? && AllAsk(routings, ids, ResolveAll(routings, ids).value)
    ensures IsTableOf(InputTableOf(routings, ids).value, ResolveAll(routings, ids).value, ids.Values)
  {
    hide AllAsk, ResolveAll, FillTables, RowsHoldLast, NamesKnown, SortIds;
    ResolveAllMeaning(routings, ids);
    var rs := ResolveAll(routings, ids).value;
    var d := FillTables(rs, ids.Values);
    var table := SortTable(d);
    SortIdsSorts(d.Keys);
    assert ChannelsOf(table) == SortIds(d.Keys);
    forall i | 0 <= i < |table| ensures RowsHoldLast(table[i].rows, rs, table[i].channel) {
      assert SortIds(d.Keys)[i] in d.Keys;
      SortRowsMeaning(rs, ids.Values, table[i].channel);
    }
  }

  // ----- Canonicity -----

  lemma {:induction false} RowsAgree(a: seq<Row>, b: seq<Row>, rs1: seq<Resolved>, rs2: seq<Resolved>, c: nat)
    requires RowsHoldLast(a, rs1, c) && RowsHoldLast(b, rs2, c)
    requires forall k :: LastOutputs(rs1, c, k) == LastOutputs(rs2, c, k)
    ensures a == b
  {
    var keys := set k | k in KeysOf(a);
    SortedKeysUnique(KeysOf(a), keys);
    SortedKeysUnique(KeysOf(b), keys);
    assert KeysOf(a) == KeysOf(b);
    forall j | 0 <= j < |a| ensures a[j] == b[j] {
      assert a[j].key == KeysOf(a)[j] == KeysOf(b)[j] == b[j].key;
    }
  }

  /** The table depends on nothing but the last outputs of every key: order and overwritten routings are lost. */
  lemma {:induction false} TableIsCanonical(a: Table, b: Table, rs1: seq<Resolved>, rs2: seq<Resolved>,
      channels: set<nat>)
    requires IsTableOf(a, rs1, channels) && IsTableOf(b, rs2, channels)
    requires forall c, k :: c in channels ==> LastOutputs(rs1, c, k) == LastOutputs(rs2, c, k)
    ensures a == b
  {
    IncreasingUnique(ChannelsOf(a), channels);
    IncreasingUnique(ChannelsOf(b), channels);
    assert ChannelsOf(a) == ChannelsOf(b);
    forall i | 0 <= i < |a| ensures a[i] == b[i] {
      assert a[i].channel == ChannelsOf(a)[i] == ChannelsOf(b)[i] == b[i].channel;
      assert a[i].channel in ChannelsOf(a);
      RowsAgree(a[i].rows, b[i].rows, rs1, rs2, a[i].channel);
    }
  }
}
