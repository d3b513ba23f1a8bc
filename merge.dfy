/**
 * `mergeRouterAndImplementation`: walk the contract router by its own keys and
 * attach to every endpoint the implementation found at the same key.
 */
module Merge {
  import opened Wrappers
  import opened Records
  import opened Contract

  /**
   * The merged router, or the TypeError thrown when a nested contract router that
   * has at least one key meets an undefined implementation. The fold runs over the
   * contract's keys in order, like the `reduce` over `Object.keys(router)`.
   */
  function MergeSpec<H>(router: seq<(string, Tree<Route>)>, impl: Impl<H>): Result<seq<(string, Tree<Endpoint<H>>)>, Thrown>
    decreases router
  {
    if |router| == 0 then Success([])
    else
      match MergeSpec(router[..|router| - 1], impl)
      case Failure(e) => Failure(e)
      case Success(acc) =>
        match MergeEntry(router[|router| - 1], impl)
        case Failure(e) => Failure(e)
        case Success(node) => Success(acc + [(router[|router| - 1].0, node)])
  }

  /** The merged value of one contract entry: `{...existing, implementation}` or the merged sub-router. */
  function MergeEntry<H>(entry: (string, Tree<Route>), impl: Impl<H>): Result<Tree<Endpoint<H>>, Thrown>
    decreases entry
  {
    match Property(impl, entry.0)
    case Failure(e) => Failure(e)
    case Success(existingImpl) =>
      match entry.1
      case Leaf(existing) => Success(Leaf(Endpoint(existing, existingImpl)))
      case Branch(children) =>
        match MergeSpec(children, existingImpl)
        case Failure(e) => Failure(e)
        case Success(merged) => Success(Branch(merged))
  }

  /** The imperative merge: a loop over the contract's keys filling a fresh accumulator. */
  method MergeRouterAndImplementation<H>(router: seq<(string, Tree<Route>)>, implementation: Impl<H>)
    returns (r: Result<seq<(string, Tree<Endpoint<H>>)>, Thrown>)
    ensures r == MergeSpec(router, implementation)
    decreases Branch(router)
  {
    var acc: seq<(string, Tree<Endpoint<H>>)> := [];
    var i := 0;
    while i < |router|
      invariant 0 <= i <= |router|
      invariant MergeSpec(router[..i], implementation) == Success(acc)
    {
      var (key, existing) := router[i];
      assert router[..i + 1][..i] == router[..i];
      assert router[i] in router;
      var existingImpl := Property(implementation, key);
      if existingImpl.Failure? {
        MergeFailureStays(router, implementation, i + 1);
        return Failure(existingImpl.error);
      }
      match existing {
        case Leaf(route) =>
          acc := acc + [(key, Leaf(Endpoint(route, existingImpl.value)))];
        case Branch(children) =>
          var sub := MergeRouterAndImplementation(children, existingImpl.value);
          if sub.Failure? {
            MergeFailureStays(router, implementation, i + 1);
            return Failure(sub.error);
          }
          acc := acc + [(key, Branch(sub.value))];
      }
      i := i + 1;
    }
    assert router[..i] == router;
    r := Success(acc);
  }

  /** Once the fold has failed on a prefix, the whole merge fails with the same error. */
  lemma {:induction false} MergeFailureStays<H>(router: seq<(string, Tree<Route>)>, impl: Impl<H>, n: nat)
    requires n <= |router|
    requires MergeSpec(router[..n], impl).Failure?
    ensures MergeSpec(router, impl) == MergeSpec(router[..n], impl)
    decreases |router| - n
  {
    if n < |router| {
      assert router[..n + 1][..n] == router[..n];
      MergeFailureStays(router, impl, n + 1);
    } else {
      assert router[..n] == router;
    }
  }

  // ---------------------------------------------------------------------------
  // properties of the merge

  /** Forget the implementations: the contract router the merged router was built from. */
  function Strip<H>(merged: seq<(string, Tree<Endpoint<H>>)>): (router: seq<(string, Tree<Route>)>)
    ensures |router| == |merged|
    decreases merged
  {
    if |merged| == 0 then []
    else Strip(merged[..|merged| - 1]) + [StripEntry(merged[|merged| - 1])]
  }

  function StripEntry<H>(entry: (string, Tree<Endpoint<H>>)): (string, Tree<Route>)
    decreases entry
  {
    match entry.1
    case Leaf(endpoint) => (entry.0, Leaf(endpoint.route))
    case Branch(children) => (entry.0, Branch(Strip(children)))
  }

  /**
   * A successful merge returns the contract itself once implementations are dropped:
   * the same keys in the same order, the same leaf/branch shape at every level, and
   * every contract field of every endpoint unchanged.
   */
  lemma {:induction false} MergeKeepsContract<H>(router: seq<(string, Tree<Route>)>, impl: Impl<H>)
    requires MergeSpec(router, impl).Success?
    ensures Strip(MergeSpec(router, impl).value) == router
    decreases router
  {
    if |router| > 0 {
      var n := |router| - 1;
      MergeKeepsContract(router[..n], impl);
      MergeEntryKeepsContract(router[n], impl);
      assert router == router[..n] + [router[n]];
      var m := MergeSpec(router, impl).value;
      assert m[..|m| - 1] == MergeSpec(router[..n], impl).value;
    }
  }

  lemma {:induction false} MergeEntryKeepsContract<H>(entry: (string, Tree<Route>), impl: Impl<H>)
    requires MergeEntry(entry, impl).Success?
    ensures StripEntry((entry.0, MergeEntry(entry, impl).value)) == entry
    decreases entry
  {
    if entry.1.Branch? {
      MergeKeepsContract(entry.1.children, Property(impl, entry.0).value);
    }
  }

  /** Every endpoint of a merged router has its contract route in the stripped router. */
  lemma {:induction false} StripKeepsLeaves<H>(merged: seq<(string, Tree<Endpoint<H>>)>, endpoint: Endpoint<H>)
    requires LeafIn(endpoint, merged)
    ensures LeafIn(endpoint.route, Strip(merged))
    decreases merged
  {
    var n := |merged| - 1;
    var j :| 0 <= j < |merged| &&
      (merged[j].1 == Leaf(endpoint) || (merged[j].1.Branch? && LeafIn(endpoint, merged[j].1.children)));
    var stripped := Strip(merged);
    if j < n {
      assert merged[..n][j] == merged[j];
      StripKeepsLeaves(merged[..n], endpoint);
      var init := Strip(merged[..n]);
      var k :| 0 <= k < |init| &&
        (init[k].1 == Leaf(endpoint.route) || (init[k].1.Branch? && LeafIn(endpoint.route, init[k].1.children)));
      assert stripped[k] == init[k];
    } else {
      StripEntryKeepsLeaves(merged[n], endpoint);
      assert stripped[n] == StripEntry(merged[n]);
    }
  }

  lemma {:induction false} StripEntryKeepsLeaves<H>(entry: (string, Tree<Endpoint<H>>), endpoint: Endpoint<H>)
    requires entry.1 == Leaf(endpoint) || (entry.1.Branch? && LeafIn(endpoint, entry.1.children))
    ensures StripEntry(entry).1 == Leaf(endpoint.route) ||
      (StripEntry(entry).1.Branch? && LeafIn(endpoint.route, StripEntry(entry).1.children))
    decreases entry
  {
    if entry.1.Branch? {
      StripKeepsLeaves(entry.1.children, endpoint);
    }
  }

  /** The merged router has one entry per contract key, each merged from that key alone. */
  lemma {:induction false} MergePointwise<H>(router: seq<(string, Tree<Route>)>, impl: Impl<H>)
    requires MergeSpec(router, impl).Success?
    ensures |MergeSpec(router, impl).value| == |router|
    ensures forall j :: 0 <= j < |router| ==>
      MergeSpec(router, impl).value[j].0 == router[j].0 &&
      MergeEntry(router[j], impl) == Success(MergeSpec(router, impl).value[j].1)
    decreases |router|
  {
    if |router| > 0 {
      var n := |router| - 1;
      MergePointwise(router[..n], impl);
      var merged := MergeSpec(router, impl).value;
      var prefix := MergeSpec(router[..n], impl).value;
      assert merged == prefix + [(router[n].0, MergeEntry(router[n], impl).value)];
      forall j | 0 <= j < |router|
        ensures merged[j].0 == router[j].0 && MergeEntry(router[j], impl) == Success(merged[j].1)
      {
        if j < n {
          assert merged[j] == prefix[j] && router[..n][j] == router[j];
        }
      }
    }
  }

  /**
   * Each endpoint keeps its contract and carries `implementation[key]`, which is
   * `undefined` when the implementation object lacks the key.
   */
  lemma MergedEndpoint<H>(router: seq<(string, Tree<Route>)>, impl: Impl<H>, j: nat)
    requires MergeSpec(router, impl).Success?
    requires j < |router| && router[j].1.Leaf?
    ensures impl.ImplObject? || impl.Handler?
    ensures |MergeSpec(router, impl).value| == |router|
    ensures MergeSpec(router, impl).value[j] ==
      (router[j].0, Leaf(Endpoint(router[j].1.value, Property(impl, router[j].0).value)))
    ensures impl.ImplObject? ==>
      Property(impl, router[j].0).value == Lookup(impl.entries, router[j].0).GetOr(Undefined)
  {
    MergePointwise(router, impl);
  }

  /** Every entry can be read: the implementation is defined wherever the contract has at least one key. */
  ghost predicate Covers<H>(router: seq<(string, Tree<Route>)>, impl: Impl<H>)
    decreases router
  {
    forall entry <- router :: EntryCovered(entry, impl)
  }

  ghost predicate EntryCovered<H>(entry: (string, Tree<Route>), impl: Impl<H>)
    decreases entry
  {
    && !impl.Undefined?
    && (entry.1.Branch? ==> Covers(entry.1.children, Property(impl, entry.0).value))
  }

  /** The merge throws exactly when some non-empty contract router meets an undefined implementation. */
  lemma {:induction false} MergeSucceedsIffCovered<H>(router: seq<(string, Tree<Route>)>, impl: Impl<H>)
    ensures MergeSpec(router, impl).Success? <==> Covers(router, impl)
    decreases router
  {
    if |router| > 0 {
      var n := |router| - 1;
      MergeSucceedsIffCovered(router[..n], impl);
      EntrySucceedsIffCovered(router[n], impl);
      assert router == router[..n] + [router[n]];
      assert forall e <- router :: e in router[..n] || e == router[n];
    }
  }

  lemma {:induction false} EntrySucceedsIffCovered<H>(entry: (string, Tree<Route>), impl: Impl<H>)
    ensures MergeEntry(entry, impl).Success? <==> EntryCovered(entry, impl)
    decreases entry
  {
    if !impl.Undefined? && entry.1.Branch? {
      MergeSucceedsIffCovered(entry.1.children, Property(impl, entry.0).value);
    }
  }

  /**
   * Two implementations agree on a contract router when they read the same at every
   * endpoint key and, at every nested router's key, are both undefined or agree on
   * that nested router, at any depth.
   */
  ghost predicate Agree<H>(router: seq<(string, Tree<Route>)>, impl1: Impl<H>, impl2: Impl<H>)
    decreases router
  {
    forall entry <- router :: EntryAgree(entry, impl1, impl2)
  }

  ghost predicate EntryAgree<H>(entry: (string, Tree<Route>), impl1: Impl<H>, impl2: Impl<H>)
    decreases entry
  {
    match entry.1
    case Leaf(_) => Property(impl1, entry.0) == Property(impl2, entry.0)
    case Branch(children) =>
      && (impl1.Undefined? <==> impl2.Undefined?)
      && (!impl1.Undefined? ==> Agree(children, Property(impl1, entry.0).value, Property(impl2, entry.0).value))
  }

  /** Implementations that agree on the contract router merge alike. */
  lemma {:induction false} MergeReadsOnlyContractKeys<H>(router: seq<(string, Tree<Route>)>, impl1: Impl<H>, impl2: Impl<H>)
    requires Agree(router, impl1, impl2)
    ensures MergeSpec(router, impl1) == MergeSpec(router, impl2)
    decreases router
  {
    if |router| > 0 {
      var n := |router| - 1;
      assert forall e <- router[..n] :: e in router;
      assert router[n] in router;
      MergeReadsOnlyContractKeys(router[..n], impl1, impl2);
      MergeEntryReadsOnlyContractKeys(router[n], impl1, impl2);
    }
  }

  lemma {:induction false} MergeEntryReadsOnlyContractKeys<H>(entry: (string, Tree<Route>), impl1: Impl<H>, impl2: Impl<H>)
    requires EntryAgree(entry, impl1, impl2)
    ensures MergeEntry(entry, impl1) == MergeEntry(entry, impl2)
    decreases entry
  {
    if entry.1.Branch? && !impl1.Undefined? {
      MergeReadsOnlyContractKeys(entry.1.children, Property(impl1, entry.0).value, Property(impl2, entry.0).value);
    }
  }

  /** Every implementation agrees with itself. */
  lemma {:induction false} AgreeReflexive<H>(router: seq<(string, Tree<Route>)>, impl: Impl<H>)
    ensures Agree(router, impl, impl)
    decreases router
  {
    forall entry <- router ensures EntryAgree(entry, impl, impl) {
      EntryAgreeReflexive(entry, impl);
    }
  }

  lemma {:induction false} EntryAgreeReflexive<H>(entry: (string, Tree<Route>), impl: Impl<H>)
    ensures EntryAgree(entry, impl, impl)
    decreases entry
  {
    if entry.1.Branch? && !impl.Undefined? {
      AgreeReflexive(entry.1.children, Property(impl, entry.0).value);
    }
  }

  /**
   * The implementation cut down to the contract's key tree: only the contract's keys,
   * at every depth, each holding what the implementation holds there.
   */
  function Restrict<H>(router: seq<(string, Tree<Route>)>, impl: Impl<H>): (r: Impl<H>)
    ensures r.Undefined? <==> impl.Undefined?
    decreases router, 1
  {
    if impl.Undefined? then Undefined else ImplObject(RestrictEntries(router, impl))
  }

  function RestrictEntries<H>(router: seq<(string, Tree<Route>)>, impl: Impl<H>): (entries: seq<(string, Impl<H>)>)
    requires !impl.Undefined?
    ensures |entries| == |router|
    ensures forall j :: 0 <= j < |router| ==> entries[j] == RestrictEntry(router[j], impl)
    decreases router, 0
  {
    if |router| == 0 then [] else [RestrictEntry(router[0], impl)] + RestrictEntries(router[1..], impl)
  }

  function RestrictEntry<H>(entry: (string, Tree<Route>), impl: Impl<H>): (restricted: (string, Impl<H>))
    requires !impl.Undefined?
    ensures restricted.0 == entry.0
    decreases entry
  {
    match entry.1
    case Leaf(_) => (entry.0, Property(impl, entry.0).value)
    case Branch(children) => (entry.0, Restrict(children, Property(impl, entry.0).value))
  }

  /** An implementation agrees with its restriction to the contract's key tree. */
  lemma {:induction false} RestrictAgrees<H>(router: seq<(string, Tree<Route>)>, impl: Impl<H>)
    requires DeepDistinct(router)
    ensures Agree(router, impl, Restrict(router, impl))
    decreases router
  {
    forall entry <- router ensures EntryAgree(entry, impl, Restrict(router, impl)) {
      var j :| 0 <= j < |router| && router[j] == entry;
      RestrictEntryAgrees(router, impl, j);
    }
  }

  lemma {:induction false} RestrictEntryAgrees<H>(router: seq<(string, Tree<Route>)>, impl: Impl<H>, j: nat)
    requires DeepDistinct(router) && j < |router|
    ensures EntryAgree(router[j], impl, Restrict(router, impl))
    decreases router[j]
  {
    var key := router[j].0;
    if !impl.Undefined? {
      var entries := RestrictEntries(router, impl);
      assert DistinctKeys(entries) by {
        forall a, b | 0 <= a < b < |entries| ensures entries[a].0 != entries[b].0 {
          assert entries[a].0 == router[a].0 && entries[b].0 == router[b].0;
        }
      }
      LookupDistinct(entries, j);
      assert Property(Restrict(router, impl), key) == Success(entries[j].1);
      if router[j].1.Branch? {
        RestrictAgrees(router[j].1.children, Property(impl, key).value);
      }
    }
  }

  /**
   * The merge reads nothing of the implementation outside the contract's key tree:
   * implementations with the same restriction merge alike, at any depth.
   */
  lemma MergeDependsOnlyOnContractTree<H>(router: seq<(string, Tree<Route>)>, impl1: Impl<H>, impl2: Impl<H>)
    requires DeepDistinct(router)
    requires Restrict(router, impl1) == Restrict(router, impl2)
    ensures MergeSpec(router, impl1) == MergeSpec(router, impl2)
  {
    RestrictAgrees(router, impl1);
    RestrictAgrees(router, impl2);
    MergeReadsOnlyContractKeys(router, impl1, Restrict(router, impl1));
    MergeReadsOnlyContractKeys(router, impl2, Restrict(router, impl2));
  }

  /** An implementation key with no contract counterpart inside a nested router is ignored. */
  lemma NestedExtraKeyIgnored<H>(route: Route, h: H, other: H)
    ensures MergeSpec([("posts", Branch([("get", Leaf(route))]))],
                      ImplObject([("posts", ImplObject([("get", Handler(h)), ("extra", Handler(other))]))])) ==
            MergeSpec([("posts", Branch([("get", Leaf(route))]))],
                      ImplObject([("posts", ImplObject([("get", Handler(h))]))]))
  {
    var inner := [("get", Leaf(route))];
    var router := [("posts", Branch(inner))];
    var sub1 := ImplObject([("get", Handler(h)), ("extra", Handler(other))]);
    var sub2 := Impl<H>.ImplObject([("get", Handler(h))]);
    var impl1 := ImplObject([("posts", sub1)]);
    var impl2 := ImplObject([("posts", sub2)]);
    assert DeepDistinct(inner);
    assert DeepDistinct(router) by {
      assert router[0].1.children == inner;
    }
    assert Property(sub1, "get") == Property(sub2, "get") == Success(Handler(h));
    assert Restrict(inner, sub1) == Restrict(inner, sub2);
    assert Property(impl1, "posts") == Success(sub1) && Property(impl2, "posts") == Success(sub2);
    assert Restrict(router, impl1) == Restrict(router, impl2);
    MergeDependsOnlyOnContractTree(router, impl1, impl2);
  }

  /** Implementation keys appended after the others with no contract counterpart are ignored. */
  lemma ExtraImplementationKeysIgnored<H>(router: seq<(string, Tree<Route>)>, entries: seq<(string, Impl<H>)>, extra: seq<(string, Impl<H>)>)
    requires forall entry <- router :: entry.0 !in Keys(extra)
    ensures MergeSpec(router, ImplObject(entries + extra)) == MergeSpec(router, ImplObject(entries))
  {
    forall entry <- router
      ensures EntryAgree(entry, ImplObject(entries + extra), ImplObject(entries))
    {
      LookupConcat(entries, extra, entry.0);
      if entry.1.Branch? {
        AgreeReflexive(entry.1.children, Property(ImplObject(entries), entry.0).value);
      }
    }
    MergeReadsOnlyContractKeys(router, ImplObject(entries + extra), ImplObject(entries));
  }

  /** A contract endpoint with no implementation is merged with an undefined handler. */
  lemma MissingHandlerIsUndefined<H>(route: Route)
    ensures MergeSpec([("get", Leaf(route))], Impl<H>.ImplObject([])) ==
      Success([("get", Leaf(Endpoint(route, Undefined)))])
  {
    var router := [("get", Leaf(route))];
    var impl := Impl<H>.ImplObject([]);
    assert router[..0] == [];
    assert Property(impl, "get") == Success(Undefined);
    assert MergeEntry(router[0], impl) == Success(Leaf(Endpoint(route, Undefined)));
    assert MergeSpec(router[..0], impl) == Success([]);
    var expected := [("get", Leaf(Endpoint(route, Impl<H>.Undefined)))];
    assert [] + expected == expected;
  }

  /** A nested contract router with no implementation object makes the merge throw. */
  lemma MissingSubRouterThrows<H>(route: Route)
    ensures MergeSpec([("posts", Branch([("get", Leaf(route))]))], Impl<H>.ImplObject([])) == Failure(TypeError)
  {
    var inner := [("get", Leaf(route))];
    var router := [("posts", Branch(inner))];
    var impl := Impl<H>.ImplObject([]);
    assert router[..0] == [] && inner[..0] == [];
    assert Property(impl, "posts") == Success(Undefined);
    assert MergeSpec(inner, Impl<H>.Undefined) == Failure(TypeError);
    assert MergeEntry(router[0], impl) == Failure(TypeError);
  }
}
