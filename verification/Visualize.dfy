/**
 The reachability search of `visualize` (tools/blob/routing/__main__.py): a worklist over (channel, message id)
 pairs that follows the outputs of the routings with one PDU offset and length, and warns about cycles.
 */
module Visualize {
  import opened Results
  import opened Graphs
  import opened RoutingTable
  import opened Flatten
  import opened Records

  datatype Node = Node(channel: nat, id: int)

  /** The outputs to follow from each node: absent if there is no routing for it. */
  type Graph = map<Node, seq<Node>>

  // ----- The graph of a table -----

  function Targets(outputs: seq<Output>): (ns: seq<Node>)
    ensures |ns| == |outputs| && forall i :: 0 <= i < |ns| ==> ns[i] == Node(outputs[i].channel, outputs[i].messageId)
  {
    seq(|outputs|, i requires 0 <= i < |outputs| => Node(outputs[i].channel, outputs[i].messageId))
  }

  predicate Matches(key: Key, id: int, offset: int, length: int) {
    key.messageId == id && key.pduOffset == offset && key.pduLength == length
  }

  /** The outputs of the last row for this id, offset and length: the one with the greatest message length. */
  function LastRow(rows: seq<Row>, id: int, offset: int, length: int): (r: Option<seq<Output>>) {
    if rows == [] then None
    else if Matches(rows[|rows| - 1].key, id, offset, length) then Some(rows[|rows| - 1].outputs)
    else LastRow(rows[..|rows| - 1], id, offset, length)
  }

  /** The dictionary keys of visualize: they have no message length. */
  datatype ViewKey = ViewKey(channel: nat, id: int, offset: int, length: int)

  type View = map<ViewKey, seq<Output>>

  function KeyInView(channel: nat, key: Key): (k: ViewKey) {
    ViewKey(channel, key.messageId, key.pduOffset, key.pduLength)
  }

  /** Enters the rows of a channel one by one; later ones overwrite. */
  function EnterRows(view: View, channel: nat, rows: seq<Row>): (view': View) {
    if rows == [] then view
    else
      var last := rows[|rows| - 1];
      EnterRows(view, channel, rows[..|rows| - 1])[KeyInView(channel, last.key) := last.outputs]
  }

  function ViewOf(table: Table): (view: View) {
    if table == [] then map[]
    else
      var last := table[|table| - 1];
      EnterRows(ViewOf(table[..|table| - 1]), last.channel, last.rows)
  }

  /** The loops that drop the message lengths from the table. */
  method DropLengths(table: Table) returns (view: View)
    ensures view == ViewOf(table)
  {
    view := map[];
    for i := 0 to |table|
      invariant view == ViewOf(table[..i])
    {
      assert table[..i + 1][..i] == table[..i];
      var channel, rows := table[i].channel, table[i].rows;
      for j := 0 to |rows|
        invariant view == EnterRows(ViewOf(table[..i]), channel, rows[..j])
      {
        assert rows[..j + 1][..j] == rows[..j];
        view := view[KeyInView(channel, rows[j].key) := rows[j].outputs];
      }
      assert rows[..|rows|] == rows;
    }
    assert table[..|table|] == table;
  }

  function LookIn(view: View, k: ViewKey): (r: Option<seq<Output>>) {
    if k in view then Some(view[k]) else None
  }

  lemma {:induction false} EnteredRows(view: View, channel: nat, rows: seq<Row>, k: ViewKey)
    ensures var r := LastRow(rows, k.id, k.offset, k.length);
      LookIn(EnterRows(view, channel, rows), k) == if k.channel == channel && r.Some? then r else LookIn(view, k)
  {
    if rows != [] {
      EnteredRows(view, channel, rows[..|rows| - 1], k);
    }
  }

  /** The view of a table with distinct channels holds the last row of every key. */
  lemma {:induction false} ViewHoldsLastRow(table: Table, k: ViewKey)
    requires Increasing(ChannelsOf(table))
    ensures LookIn(ViewOf(table), k)
         == if exists n :: 0 <= n < |table| && table[n].channel == k.channel
            then LastRow(RowsFor(table, k.channel), k.id, k.offset, k.length) else None
  {
    if table != [] {
      var n := |table| - 1;
      forall i, j | 0 <= i < j < n ensures ChannelsOf(table[..n])[i] < ChannelsOf(table[..n])[j] {
        assert ChannelsOf(table)[i] < ChannelsOf(table)[j];
      }
      ViewHoldsLastRow(table[..n], k);
      EnteredRows(ViewOf(table[..n]), table[n].channel, table[n].rows, k);
      if m :| 0 <= m < |table| && table[m].channel == k.channel {
        forall l | 0 <= l < m ensures table[l].channel != k.channel {
          assert ChannelsOf(table)[l] < ChannelsOf(table)[m];
        }
        RowsForFirst(table, m);
        if m < n {
          assert table[..n][m].channel == k.channel;
          assert ChannelsOf(table)[m] < ChannelsOf(table)[n];
          RowsForFirst(table[..n], m);
        } else {
          assert forall l :: 0 <= l < n ==> table[..n][l].channel != k.channel;
        }
      }
    }
  }

  lemma {:induction false} RowsForFirst(table: Table, m: nat)
    requires m < |table| && forall l :: 0 <= l < m ==> table[l].channel != table[m].channel
    ensures RowsFor(table, table[m].channel) == table[m].rows
  {
    if m != 0 {
      RowsForFirst(table[1..], m - 1);
    }
  }

  /** The last row for an id, offset and length is that of the greatest message length, with its last outputs. */
  lemma {:induction false} LastRowIsLongest(rows: seq<Row>, rs: seq<Resolved>, c: nat, id: int, offset: int,
      length: int)
    requires RowsHoldLast(rows, rs, c)
    ensures var r := LastRow(rows, id, offset, length);
      && (r.None? ==> forall l :: LastOutputs(rs, c, Key(id, l, offset, length)).None?)
      && (r.Some? ==> exists l :: && LastOutputs(rs, c, Key(id, l, offset, length)) == r
                                  && forall l' :: LastOutputs(rs, c, Key(id, l', offset, length)).Some? ==> l' <= l)
  {
    var m := LastMatch(rows, id, offset, length);
    if m >= 0 {
      var l := rows[m].key.messageLength;
      assert rows[m].key == Key(id, l, offset, length);
      forall l' | LastOutputs(rs, c, Key(id, l', offset, length)).Some? ensures l' <= l {
        var k := Key(id, l', offset, length);
        assert k in KeysOf(rows);
        var j :| 0 <= j < |rows| && KeysOf(rows)[j] == k;
        if j < m {
          assert Less(KeysOf(rows)[j], KeysOf(rows)[m]);
        }
      }
    } else {
      forall l ensures LastOutputs(rs, c, Key(id, l, offset, length)).None? {
        var k := Key(id, l, offset, length);
        if k in KeysOf(rows) {
          var j :| 0 <= j < |rows| && KeysOf(rows)[j] == k;
          assert Matches(rows[j].key, id, offset, length);
          assert false;
        }
      }
    }
  }

  lemma {:induction false} LastMatch(rows: seq<Row>, id: int, offset: int, length: int) returns (m: int)
    ensures -1 <= m < |rows|
    ensures forall j :: m < j < |rows| ==> !Matches(rows[j].key, id, offset, length)
    ensures m >= 0 ==>
      Matches(rows[m].key, id, offset, length) && LastRow(rows, id, offset, length) == Some(rows[m].outputs)
    ensures m < 0 ==> LastRow(rows, id, offset, length) == None
  {
    var n := |rows| - 1;
    if rows == [] {
      m := -1;
    } else if Matches(rows[n].key, id, offset, length) {
      m := n;
    } else {
      m := LastMatch(rows[..n], id, offset, length);
    }
  }

  /** The nodes that have a routing with this offset and length, and where it leads. */
  function GraphOf(view: View, offset: int, length: int): (g: Graph)
    ensures forall n :: n in g <==> ViewKey(n.channel, n.id, offset, length) in view
    ensures forall n :: n in g ==> g[n] == Targets(view[ViewKey(n.channel, n.id, offset, length)])
  {
    map k | k in view && k.offset == offset && k.length == length :: Node(k.channel, k.id) := Targets(view[k])
  }

  // ----- The worklist -----

  /** Everything that the expansions of `order` have put into the worklist. */
  function Produced(g: Graph, order: seq<Node>): (m: multiset<Node>)
    requires forall i :: 0 <= i < |order| ==> order[i] in g
  {
    if order == [] then multiset{}
    else Produced(g, order[..|order| - 1]) + multiset(g[order[|order| - 1]])
  }

  ghost predicate Distinct(s: seq<Node>) {
    forall i, j :: 0 <= i < j < |s| ==> s[i] != s[j]
  }

  /** What an expanded node has put into the worklist comes later than the node. */
  ghost predicate ChildrenLater(g: Graph, trace: seq<Node>, i: nat)
    requires i < |trace|
  {
    trace[i] in g && trace[i] !in trace[..i] ==> forall m :: m in g[trace[i]] ==> m in trace[i + 1..]
  }

  /** The state of the search: `trace` is what has been popped, followed by the worklist. */
  ghost predicate Searching(g: Graph, start: Node, trace: seq<Node>, k: nat, order: seq<Node>)
    requires k <= |trace|
  {
    && trace != [] && trace[0] == start
    && (forall n :: n in trace ==> Reachable(g, start, n))
    && Distinct(order) && (forall n :: n in order <==> n in g && n in trace[..k])
    && (forall i :: 0 <= i < k ==> ChildrenLater(g, trace, i))
  }

  ghost predicate Conserved(g: Graph, start: Node, trace: seq<Node>, order: seq<Node>) {
    (forall i :: 0 <= i < |order| ==> order[i] in g) && multiset(trace) == multiset{start} + Produced(g, order)
  }

  /** Some node with a routing occurs twice. */
  ghost predicate Repeats(g: Graph, popped: seq<Node>) {
    exists n :: n in g && multiset(popped)[n] >= 2
  }

  lemma {:induction false} SearchStarts(g: Graph, start: Node)
    ensures Searching(g, start, [start], 0, []) && Conserved(g, start, [start], []) && !Repeats(g, [])
  {
    ReachableStart(g, start);
  }

  lemma {:induction false} OrderIsExpanded(g: Graph, start: Node, trace: seq<Node>, k: nat, order: seq<Node>, n: Node)
    requires k <= |trace| && Searching(g, start, trace, k, order)
    ensures n in order <==> n in g && n in trace[..k]
  {
  }

  lemma {:induction false} PopKeeps(g: Graph, start: Node, trace: seq<Node>, k: nat, order: seq<Node>)
    requires k < |trace| && Searching(g, start, trace, k, order) && (trace[k] !in g || trace[k] in order)
    ensures Searching(g, start, trace, k + 1, order)
  {
    assert trace[..k + 1] == trace[..k] + [trace[k]];
  }

  lemma {:induction false} ExpandKeeps(g: Graph, start: Node, trace: seq<Node>, k: nat, order: seq<Node>)
    requires k < |trace| && Searching(g, start, trace, k, order) && trace[k] in g && trace[k] !in order
    ensures Searching(g, start, trace + g[trace[k]], k + 1, order + [trace[k]])
  {
    var n := trace[k];
    var trace' := trace + g[n];
    assert trace'[..k + 1] == trace[..k] + [n];
    forall m | m in trace' ensures Reachable(g, start, m) {
      if m in g[n] {
        assert n in trace && Edge(g, n, m);
        ReachableStep(g, start, n, m);
      }
    }
    forall i | 0 <= i < k + 1 ensures ChildrenLater(g, trace', i) {
      ChildrenStayLater(g, trace, g[n], i, k);
    }
  }

  lemma {:induction false} ChildrenStayLater(g: Graph, trace: seq<Node>, added: seq<Node>, i: nat, k: nat)
    requires i <= k < |trace| && (i < k ==> ChildrenLater(g, trace, i))
    requires i == k ==> trace[k] in g && added == g[trace[k]]
    ensures ChildrenLater(g, trace + added, i)
  {
    var trace' := trace + added;
    assert trace'[..i] == trace[..i] && trace'[i + 1..] == trace[i + 1..] + added;
  }

  lemma {:induction false} ExpandConserves(g: Graph, start: Node, trace: seq<Node>, order: seq<Node>, n: Node)
    requires Conserved(g, start, trace, order) && n in g
    ensures Conserved(g, start, trace + g[n], order + [n])
  {
    assert (order + [n])[..|order|] == order;
  }

  lemma {:induction false} RepeatsAfterPop(g: Graph, popped: seq<Node>, n: Node)
    ensures Repeats(g, popped + [n]) <==> Repeats(g, popped) || (n in g && n in popped)
  {
    assert multiset(popped + [n]) == multiset(popped) + multiset{n};
    assert n in popped <==> multiset(popped)[n] >= 1;
    forall m ensures multiset(popped + [n])[m] == multiset(popped)[m] + if m == n then 1 else 0 {
    }
  }

  lemma {:induction false} SearchComplete(g: Graph, start: Node, trace: seq<Node>, order: seq<Node>)
    requires Searching(g, start, trace, |trace|, order)
    ensures forall n :: n in trace <==> Reachable(g, start, n)
  {
    forall a, b | a in trace && Edge(g, a, b) ensures b in trace {
      FirstOccurrence(g, trace, a, b);
    }
    forall n | Reachable(g, start, n) ensures n in trace {
      var p: seq<Node> :| IsPath(g, p) && p[0] == start && p[|p| - 1] == n;
      ClosedHoldsReachable(g, (set m | m in trace), p);
    }
  }

  lemma {:induction false} FirstOccurrence(g: Graph, trace: seq<Node>, a: Node, b: Node)
    requires a in trace && Edge(g, a, b) && forall i :: 0 <= i < |trace| ==> ChildrenLater(g, trace, i)
    ensures exists i, j :: 0 <= i < j < |trace| && trace[i] == a && trace[j] == b
  {
    var i := 0;
    while trace[i] != a
      invariant 0 <= i < |trace| && a !in trace[..i] && a in trace[i..]
      decreases |trace| - i
    {
      i := i + 1;
    }
    assert ChildrenLater(g, trace, i);
    var j :| 0 <= j < |trace| - (i + 1) && trace[i + 1..][j] == b;
    assert trace[i + 1 + j] == b;
  }

  datatype DrawnEdge = DrawnEdge(tail: Option<nat>, head: Node)

  /** The edges as they are drawn: the tail of each is the channel that was popped before. */
  function Drawn(popped: seq<Node>): (drawn: seq<DrawnEdge>)
    ensures |drawn| == |popped|
  {
    seq(|popped|, i requires 0 <= i < |popped| =>
      DrawnEdge(if i == 0 then None else Some(popped[i - 1].channel), popped[i]))
  }

  /** Every node is drawn once for each time it is popped, with an edge from the channel popped before, if any. */
  lemma {:induction false} DrawnExactly(popped: seq<Node>, i: nat)
    requires i < |popped|
    ensures |Drawn(popped)| == |popped| && Drawn(popped)[i].head == popped[i]
    ensures Drawn(popped)[i].tail == if i == 0 then None else Some(popped[i - 1].channel)
  {
  }

  /** The loop of visualize. */
  method Explore(g: Graph, start: Node)
    returns (popped: seq<Node>, drawn: seq<DrawnEdge>, warned: bool, ghost order: seq<Node>)
    ensures forall n :: n in popped <==> Reachable(g, start, n)
    ensures Searching(g, start, popped, |popped|, order) && Conserved(g, start, popped, order)
    ensures warned <==> Repeats(g, popped)
    ensures drawn == Drawn(popped)
  {
    hide Searching, Conserved, Repeats;
    popped, drawn, warned, order := [], [], false, [];
    var previous: Option<nat> := None;
    var items := [start];
    var expanded: set<Node> := {};
    ghost var trace := items;
    SearchStarts(g, start);
    while items != []
      invariant |popped| <= |trace| && popped == trace[..|popped|] && items == trace[|popped|..]
      invariant Searching(g, start, trace, |popped|, order) && Conserved(g, start, trace, order)
      invariant forall n :: n in order <==> n in expanded
      invariant warned <==> Repeats(g, popped)
      invariant drawn == Drawn(popped)
      invariant previous == if popped == [] then None else Some(popped[|popped| - 1].channel)
      decreases g.Keys - expanded, |items|
    {
      var n := items[0];
      items := items[1..];
      RepeatsAfterPop(g, popped, n);
      OrderIsExpanded(g, start, trace, |popped|, order, n);
      if n in g && n !in expanded {
        ExpandKeeps(g, start, trace, |popped|, order);
        ExpandConserves(g, start, trace, order, n);
      } else {
        PopKeeps(g, start, trace, |popped|, order);
      }
      drawn := drawn + [DrawnEdge(previous, n)];
      previous := Some(n.channel);
      popped := popped + [n];
      if n in g {
        if n in expanded {
          warned := true;
        } else {
          items := items + g[n];
          expanded := expanded + {n};
          order := order + [n];
          trace := trace + g[n];
        }
      }
    }
    assert popped == trace;
    SearchComplete(g, start, popped, order);
  }

  /** The nodes that edges are drawn to. */
  function Heads(drawn: seq<DrawnEdge>): (ns: seq<Node>)
    ensures |ns| == |drawn|
  {
    seq(|drawn|, i requires 0 <= i < |drawn| => drawn[i].head)
  }

  lemma {:induction false} HeadsOfDrawn(popped: seq<Node>)
    ensures Heads(Drawn(popped)) == popped
  {
  }

  /** visualize, from the table to the drawn edges; nothing is drawn if the input has no routing. */
  method Visualize(table: Table, start: Node, offset: int, length: int)
    returns (drawn: Option<seq<DrawnEdge>>, warned: bool, ghost order: seq<Node>)
    ensures drawn.None? <==> start !in GraphOf(ViewOf(table), offset, length)
    ensures drawn.Some? ==>
      var g, popped := GraphOf(ViewOf(table), offset, length), Heads(drawn.value);
      && drawn.value == Drawn(popped) && (forall n :: n in popped <==> Reachable(g, start, n))
      && (warned <==> Repeats(g, popped))
    ensures drawn.Some? ==>
      var g, popped := GraphOf(ViewOf(table), offset, length), Heads(drawn.value);
      Searching(g, start, popped, |popped|, order) && Conserved(g, start, popped, order)
  {
    var view := DropLengths(table);
    var g := GraphOf(view, offset, length);
    drawn, warned, order := None, false, [];
    if start in g {
      var popped, edges;
      popped, edges, warned, order := Explore(g, start);
      HeadsOfDrawn(popped);
      drawn := Some(edges);
    }
  }

  // ----- What the search guarantees -----

  function TotalOutputs(g: Graph, order: seq<Node>): (n: nat)
    requires forall i :: 0 <= i < |order| ==> order[i] in g
  {
    if order == [] then 0 else TotalOutputs(g, order[..|order| - 1]) + |g[order[|order| - 1]]|
  }

  lemma {:induction false} ProducedSize(g: Graph, order: seq<Node>)
    requires forall i :: 0 <= i < |order| ==> order[i] in g
    ensures |Produced(g, order)| == TotalOutputs(g, order)
  {
    if order != [] {
      ProducedSize(g, order[..|order| - 1]);
    }
  }

  /** Each reachable node with a routing is expanded once; the pops are the start and every output of these. */
  lemma {:induction false} PopsAreOutputs(g: Graph, start: Node, popped: seq<Node>, order: seq<Node>)
    requires Searching(g, start, popped, |popped|, order) && Conserved(g, start, popped, order)
    ensures Distinct(order) && forall n :: n in order <==> n in g && Reachable(g, start, n)
    ensures |popped| == 1 + TotalOutputs(g, order)
  {
    SearchComplete(g, start, popped, order);
    assert popped[..|popped|] == popped;
    ProducedSize(g, order);
    assert |popped| == |multiset(popped)| == |multiset{start}| + |Produced(g, order)|;
  }

  /** How often an output of a node in `order` leads to n. */
  function EdgesInto(g: Graph, order: seq<Node>, n: Node): (count: nat)
    requires forall i :: 0 <= i < |order| ==> order[i] in g
  {
    if order == [] then 0 else EdgesInto(g, order[..|order| - 1], n) + multiset(g[order[|order| - 1]])[n]
  }

  lemma {:induction false} ProducedCounts(g: Graph, order: seq<Node>, n: Node)
    requires forall i :: 0 <= i < |order| ==> order[i] in g
    ensures Produced(g, order)[n] == EdgesInto(g, order, n)
  {
    if order != [] {
      ProducedCounts(g, order[..|order| - 1], n);
    }
  }

  /** Output i of node m leads to node n. */
  predicate LeadsTo(g: Graph, m: Node, i: nat, n: Node) {
    m in g && i < |g[m]| && g[m][i] == n
  }

  ghost predicate OneWay(g: Graph, ms: set<Node>, n: Node) {
    exists m, i: nat :: m in ms && LeadsTo(g, m, i, n)
  }

  /** Two different outputs of nodes in `ms` lead to n. */
  ghost predicate TwoWays(g: Graph, ms: set<Node>, n: Node) {
    exists m, i: nat, m', i': nat ::
      m in ms && m' in ms && (m != m' || i != i') && LeadsTo(g, m, i, n) && LeadsTo(g, m', i', n)
  }

  lemma {:induction false} CountOfOutputs(outputs: seq<Node>, n: Node)
    ensures multiset(outputs)[n] >= 1 <==> n in outputs
    ensures multiset(outputs)[n] >= 2 <==> exists i, j :: 0 <= i < j < |outputs| && outputs[i] == outputs[j] == n
  {
    if outputs != [] {
      var k := |outputs| - 1;
      var init := outputs[..k];
      CountOfOutputs(init, n);
      assert outputs == init + [outputs[k]];
      if outputs[k] == n && n in init {
        var i :| 0 <= i < k && init[i] == n;
        assert outputs[i] == outputs[k];
      }
      if i, j :| 0 <= i < j < k && init[i] == init[j] == n {
        assert outputs[i] == outputs[j] == n;
      }
      if i, j :| 0 <= i < j < |outputs| && outputs[i] == outputs[j] == n {
        assert init[i] == n && (j < k ==> init[j] == n);
      }
    }
  }

  lemma {:induction false} WaysOfOne(g: Graph, m: Node, n: Node)
    requires m in g
    ensures multiset(g[m])[n] >= 1 <==> OneWay(g, {m}, n)
    ensures multiset(g[m])[n] >= 2 <==> TwoWays(g, {m}, n)
  {
    CountOfOutputs(g[m], n);
    if n in g[m] {
      var i :| 0 <= i < |g[m]| && g[m][i] == n;
      assert LeadsTo(g, m, i, n);
    }
    if i, j :| 0 <= i < j < |g[m]| && g[m][i] == g[m][j] == n {
      assert LeadsTo(g, m, i, n) && LeadsTo(g, m, j, n);
    }
    if TwoWays(g, {m}, n) {
      var m1, i: nat, m2, j: nat :|
        m1 in {m} && m2 in {m} && (m1 != m2 || i != j) && LeadsTo(g, m1, i, n) && LeadsTo(g, m2, j, n);
      assert g[m][if i < j then i else j] == g[m][if i < j then j else i] == n;
    }
  }

  lemma {:induction false} WaysOfUnion(g: Graph, ms: set<Node>, m: Node, n: Node)
    requires m !in ms
    ensures OneWay(g, ms + {m}, n) <==> OneWay(g, ms, n) || OneWay(g, {m}, n)
    ensures TwoWays(g, ms + {m}, n)
       <==> TwoWays(g, ms, n) || TwoWays(g, {m}, n) || (OneWay(g, ms, n) && OneWay(g, {m}, n))
  {
    if OneWay(g, ms, n) && OneWay(g, {m}, n) {
      var m1, i: nat :| m1 in ms && LeadsTo(g, m1, i, n);
      var m2, j: nat :| m2 in {m} && LeadsTo(g, m2, j, n);
      assert m1 != m2;
    }
    if TwoWays(g, ms + {m}, n) {
      var m1, i: nat, m2, j: nat :|
        m1 in ms + {m} && m2 in ms + {m} && (m1 != m2 || i != j) && LeadsTo(g, m1, i, n) && LeadsTo(g, m2, j, n);
      assert m1 in ms || m1 in {m};
      assert m2 in ms || m2 in {m};
    }
  }

  function Members(s: seq<Node>): (ns: set<Node>) {
    set n | n in s
  }

  /** Counted along a sequence without repetition, the ways to a node are those from the set of its members. */
  lemma {:induction false} EdgesAreWays(g: Graph, order: seq<Node>, n: Node)
    requires Distinct(order) && forall i :: 0 <= i < |order| ==> order[i] in g
    ensures EdgesInto(g, order, n) >= 1 <==> OneWay(g, Members(order), n)
    ensures EdgesInto(g, order, n) >= 2 <==> TwoWays(g, Members(order), n)
  {
    hide OneWay, TwoWays;
    if order == [] {
      NoWays(g, n);
      assert Members(order) == {};
    } else {
      var k := |order| - 1;
      var init, x := order[..k], order[k];
      EdgesAreWays(g, init, n);
      WaysOfOne(g, x, n);
      WaysOfUnion(g, Members(init), x, n);
      assert order == init + [x];
      assert Members(order) == Members(init) + {x};
    }
  }

  lemma {:induction false} NoWays(g: Graph, n: Node)
    ensures !OneWay(g, {}, n) && !TwoWays(g, {}, n)
  {
  }

  /** Outputs of reachable nodes lead to n twice, or to the start once more. */
  ghost predicate LedToTwice(g: Graph, start: Node, n: Node) {
    || (n == start && exists m, i: nat :: Reachable(g, start, m) && LeadsTo(g, m, i, n))
    || exists m, i: nat, m', i': nat ::
         Reachable(g, start, m) && Reachable(g, start, m') && (m != m' || i != i')
         && LeadsTo(g, m, i, n) && LeadsTo(g, m', i', n)
  }

  lemma {:induction false} LedToTwiceInOrder(g: Graph, start: Node, n: Node, ms: set<Node>)
    requires forall m :: m in ms <==> m in g && Reachable(g, start, m)
    ensures LedToTwice(g, start, n) <==> (n == start && OneWay(g, ms, n)) || TwoWays(g, ms, n)
  {
    hide Reachable;
  }

  /**
   Exactly when the warning is given: two outputs of reachable nodes lead to the same node with a routing, or one
   leads back to the start. A cycle is not required.
   */
  lemma {:induction false} WarningExactly(g: Graph, start: Node, popped: seq<Node>, order: seq<Node>)
    requires Searching(g, start, popped, |popped|, order) && Conserved(g, start, popped, order)
    ensures Repeats(g, popped) <==> exists n :: n in g && LedToTwice(g, start, n)
  {
    PopsAreOutputs(g, start, popped, order);
    var ms := Members(order);
    forall n ensures multiset(popped)[n] >= 2 <==> LedToTwice(g, start, n) {
      ProducedCounts(g, order, n);
      EdgesAreWays(g, order, n);
      LedToTwiceInOrder(g, start, n, ms);
    }
  }

  /** Without a repetition, an edge between nodes with a routing leads to a node that is popped later. */
  lemma {:induction false} EdgeLeadsLater(g: Graph, start: Node, popped: seq<Node>, order: seq<Node>, i: nat, j: nat)
    requires Searching(g, start, popped, |popped|, order) && !Repeats(g, popped)
    requires i < |popped| && j < |popped| && Edge(g, popped[i], popped[j]) && popped[j] in g
    ensures i < j
  {
    FirstOccurrence(g, popped, popped[i], popped[j]);
    var i', j' :| 0 <= i' < j' < |popped| && popped[i'] == popped[i] && popped[j'] == popped[j];
    OnlyOccurrence(g, popped, i, i');
    OnlyOccurrence(g, popped, j, j');
  }

  lemma {:induction false} OnlyOccurrence(g: Graph, popped: seq<Node>, i: nat, j: nat)
    requires i < |popped| && j < |popped| && popped[i] == popped[j] && popped[i] in g
    ensures i == j || Repeats(g, popped)
  {
    if i != j {
      var lo, hi := if i < j then i else j, if i < j then j else i;
      assert popped == popped[..hi] + [popped[hi]] + popped[hi + 1..];
      assert popped[..hi][lo] == popped[hi];
      assert multiset(popped)[popped[hi]] >= 2;
    }
  }

  /** Without a repetition, the nodes of a path within the routed nodes are popped in the order of the path. */
  lemma {:induction false} PathLeadsLater(g: Graph, start: Node, popped: seq<Node>, order: seq<Node>, p: seq<Node>,
      i: nat)
    returns (j: nat)
    requires Searching(g, start, popped, |popped|, order) && !Repeats(g, popped)
    requires IsPath(g, p) && |p| > 1 && p[|p| - 1] in g && i < |popped| && popped[i] == p[0]
    ensures i < j < |popped| && popped[j] == p[|p| - 1]
    decreases |p|
  {
    assert Edge(g, p[0], p[1]);
    FirstOccurrence(g, popped, p[0], p[1]);
    var k :| 0 <= k < |popped| && popped[k] == p[1];
    if |p| == 2 {
      j := k;
      EdgeLeadsLater(g, start, popped, order, i, k);
    } else {
      assert Edge(g, p[1], p[2]);
      EdgeLeadsLater(g, start, popped, order, i, k);
      var q := p[1..];
      forall a: nat, b: nat | b == a + 1 && b < |q| ensures Edge(g, q[a], q[b]) {
        assert Edge(g, p[a + 1], p[b + 1]);
      }
      j := PathLeadsLater(g, start, popped, order, q, k);
    }
  }

  /** A cycle in the part of the graph that is reachable from the input is always warned about. */
  lemma {:induction false} CycleIsWarnedAbout(g: Graph, start: Node, popped: seq<Node>, order: seq<Node>,
      cycle: seq<Node>)
    requires Searching(g, start, popped, |popped|, order)
    requires IsPath(g, cycle) && |cycle| > 1 && cycle[0] == cycle[|cycle| - 1] && Reachable(g, start, cycle[0])
    ensures Repeats(g, popped)
  {
    if !Repeats(g, popped) {
      SearchComplete(g, start, popped, order);
      var i :| 0 <= i < |popped| && popped[i] == cycle[0];
      assert Edge(g, cycle[0], cycle[1]);
      var j := PathLeadsLater(g, start, popped, order, cycle, i);
      OnlyOccurrence(g, popped, i, j);
      assert false;
    }
  }

  /** The warning does not imply a cycle: two outputs that lead to the same routed node are enough. */
  lemma {:induction false} DiamondIsWarnedAbout(g: Graph, a: Node, b: Node)
    requires a in g && g[a] == [b, b] && b in g && g[b] == [] && a != b
    ensures Searching(g, a, [a, b, b], 3, [a, b]) && Conserved(g, a, [a, b, b], [a, b]) && Repeats(g, [a, b, b])
    ensures forall p: seq<Node> :: |p| > 1 && p[0] in {a, b} && IsPath(g, p) ==> p[0] != p[|p| - 1]
  {
    hide Searching, Conserved, IsPath;
    DiamondSearched(g, a, b);
    assert multiset([a, b, b])[b] == 2;
    forall p: seq<Node> | |p| > 1 && p[0] in {a, b} && IsPath(g, p) ensures p[0] != p[|p| - 1] {
      PathTail(g, p);
      if |p| > 2 {
        PathTail(g, p[1..]);
      }
    }
  }

  lemma {:induction false} DiamondSearched(g: Graph, a: Node, b: Node)
    requires a in g && g[a] == [b, b] && b in g && g[b] == [] && a != b
    ensures Searching(g, a, [a, b, b], 3, [a, b]) && Conserved(g, a, [a, b, b], [a, b])
  {
    hide Searching, Conserved;
    SearchStarts(g, a);
    ExpandKeeps(g, a, [a], 0, []);
    ExpandConserves(g, a, [a], [], a);
    var trace := [a, b, b];
    assert [a] + g[a] == trace && [] + [a] == [a];
    ExpandKeeps(g, a, trace, 1, [a]);
    ExpandConserves(g, a, trace, [a], b);
    assert trace + g[b] == trace && [a] + [b] == [a, b];
    PopKeeps(g, a, trace, 2, [a, b]);
  }
}
