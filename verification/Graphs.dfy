/** Reachability in finite graphs, given by the successors of each node; the searches of this model share it. */
module Graphs {

  predicate Edge<T(==)>(g: map<T, seq<T>>, a: T, b: T) {
    a in g && b in g[a]
  }

  ghost predicate IsPath<T>(g: map<T, seq<T>>, p: seq<T>) {
    p != [] && forall i: nat, j: nat :: j == i + 1 && j < |p| ==> Edge(g, p[i], p[j])
  }

  ghost predicate Reachable<T(!new)>(g: map<T, seq<T>>, start: T, n: T) {
    exists p: seq<T> :: IsPath(g, p) && p[0] == start && p[|p| - 1] == n
  }

  lemma {:induction false} ReachableStart<T(!new)>(g: map<T, seq<T>>, start: T)
    ensures Reachable(g, start, start)
  {
    assert IsPath(g, [start]);
  }

  lemma {:induction false} ReachableStep<T(!new)>(g: map<T, seq<T>>, start: T, a: T, b: T)
    requires Reachable(g, start, a) && Edge(g, a, b)
    ensures Reachable(g, start, b)
  {
    var p: seq<T> :| IsPath(g, p) && p[0] == start && p[|p| - 1] == a;
    assert IsPath(g, p + [b]);
  }

  lemma {:induction false} PathTail<T>(g: map<T, seq<T>>, p: seq<T>)
    requires IsPath(g, p) && |p| > 1
    ensures Edge(g, p[0], p[1]) && IsPath(g, p[1..])
  {
    var q := p[1..];
    forall i: nat, j: nat | j == i + 1 && j < |q| ensures Edge(g, q[i], q[j]) {
      assert Edge(g, p[i + 1], p[j + 1]);
    }
  }

  /** A set that holds the start, and that no edge leaves, holds everything reachable. */
  lemma {:induction false} ClosedHoldsReachable<T>(g: map<T, seq<T>>, s: set<T>, p: seq<T>)
    requires IsPath(g, p) && p[0] in s
    requires forall a, b :: a in s && a in g && b in g[a] ==> b in s
    ensures p[|p| - 1] in s
    decreases |p|
  {
    if |p| > 1 {
      PathTail(g, p);
      ClosedHoldsReachable(g, s, p[1..]);
    }
  }
}
