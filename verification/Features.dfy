/**
 The feature closure of document-features (libs/3rdparty/cargo-vendor/document-features/lib.rs): which features
 are enabled by default.
 */
module Features {
  import opened Graphs

  type Dependencies = map<string, seq<string>>

  /** A mutable set of feature names. */
  class Collection {
    var features: set<string>

    constructor ()
      ensures features == {}
    {
      features := {};
    }
  }

  /** Everything that a search from `feature` can meet. */
  ghost predicate Universe(deps: Dependencies, u: set<string>) {
    forall a, b :: a in deps && b in deps[a] ==> b in u
  }

  /** What has been added: reachable from `feature`, with nothing missing behind it except from `open`. */
  ghost predicate Added(deps: Dependencies, feature: string, before: set<string>, after: set<string>, open: set<string>)
  {
    && before <= after
    && (forall n :: n in after - before ==> Reachable(deps, feature, n))
    && (forall a, b :: a in after - before - open && a in deps && b in deps[a] ==> b in after)
  }

  /** dependents(): recursion over mutable state; cycles end at what is already collected. */
  method Dependents(deps: Dependencies, feature: string, collected: Collection, ghost u: set<string>)
    requires Universe(deps, u) && feature in u
    modifies collected
    ensures feature in collected.features
    ensures Added(deps, feature, old(collected.features), collected.features, {})
    decreases u - collected.features
  {
    ReachableStart(deps, feature);
    if feature in collected.features {
      return;
    }
    ghost var before := collected.features;
    collected.features := collected.features + {feature};
    if feature in deps {
      var dependencies := deps[feature];
      for i := 0 to |dependencies|
        invariant feature in collected.features
        invariant Added(deps, feature, before, collected.features, {feature})
        invariant forall j :: 0 <= j < i ==> dependencies[j] in collected.features
      {
        ghost var middle := collected.features;
        assert u - middle < u - before by {
          assert feature in u - before && feature !in u - middle;
        }
        Dependents(deps, dependencies[i], collected, u);
        AddedBehind(deps, feature, dependencies[i], before, middle, collected.features);
      }
    }
  }

  lemma {:induction false} ReachableBehind(deps: Dependencies, feature: string, next: string, n: string)
    requires Edge(deps, feature, next) && Reachable(deps, next, n)
    ensures Reachable(deps, feature, n)
  {
    var p: seq<string> :| IsPath(deps, p) && p[0] == next && p[|p| - 1] == n;
    var q := [feature] + p;
    forall i: nat, j: nat | j == i + 1 && j < |q| ensures Edge(deps, q[i], q[j]) {
      if i > 0 {
        assert Edge(deps, p[i - 1], p[j - 1]);
      }
    }
    assert IsPath(deps, q);
  }

  lemma {:induction false} AddedBehind(deps: Dependencies, feature: string, next: string, before: set<string>,
                                       middle: set<string>, after: set<string>)
    requires Edge(deps, feature, next)
    requires Added(deps, feature, before, middle, {feature}) && Added(deps, next, middle, after, {})
    ensures Added(deps, feature, before, after, {feature})
  {
    forall n | n in after - before ensures Reachable(deps, feature, n) {
      if n !in middle {
        ReachableBehind(deps, feature, next, n);
      }
    }
  }

  /** Started with an empty set, the search collects exactly what is reachable. */
  lemma {:induction false} AddedToEmptyIsReachable(deps: Dependencies, feature: string, after: set<string>)
    requires feature in after && Added(deps, feature, {}, after, {})
    ensures forall n :: n in after <==> Reachable(deps, feature, n)
  {
    forall n | Reachable(deps, feature, n) ensures n in after {
      var p: seq<string> :| IsPath(deps, p) && p[0] == feature && p[|p| - 1] == n;
      ClosedHoldsReachable(deps, after, p);
    }
  }

  /** The features that a search can meet. */
  ghost function Names(deps: Dependencies, defaults: seq<string>): (u: set<string>)
    ensures Universe(deps, u) && forall f :: f in defaults ==> f in u
  {
    (set f | f in defaults) + (set a, b | a in deps && b in deps[a] :: b)
  }

  /** Some default feature leads to f. */
  ghost predicate Needed(deps: Dependencies, defaults: seq<string>, f: string) {
    exists d :: d in defaults && Reachable(deps, d, f)
  }

  /**
   The end of process_toml(): each default feature is resolved on its own, and what it needs is added. A feature
   is enabled by default if and only if it is reachable from the default list.
   */
  method EnabledByDefault(deps: Dependencies, defaults: seq<string>) returns (enabled: set<string>)
    ensures forall f :: f in enabled <==> Needed(deps, defaults, f)
  {
    hide Reachable;
    ghost var u := Names(deps, defaults);
    enabled := set f | f in defaults;
    forall f | f in defaults ensures Needed(deps, defaults, f) {
      ReachableStart(deps, f);
    }
    for i := 0 to |defaults|
      invariant forall f :: f in enabled ==> Needed(deps, defaults, f)
      invariant forall j, f :: 0 <= j < i && Reachable(deps, defaults[j], f) ==> f in enabled
    {
      var resolved := new Collection();
      Dependents(deps, defaults[i], resolved, u);
      AddedToEmptyIsReachable(deps, defaults[i], resolved.features);
      enabled := enabled + resolved.features;
    }
  }
}
