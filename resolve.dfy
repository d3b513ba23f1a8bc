/**
 * `findRoute`: search the merged router for the endpoint of a request.
 *
 * The walk visits the entries of a router in key order. An endpoint is returned
 * as soon as its method and path template match. The first nested router met ends
 * the search of the current router: its result, found or not, is the result, and
 * the entries after it are never looked at.
 */
module Resolve {
  import opened Wrappers
  import opened Paths
  import opened Contract

  /** The endpoint answers a request with this method and path. */
  predicate Accepts<H>(endpoint: Endpoint<H>, pathname: string, httpMethod: string)
  {
    endpoint.route.httpMethod == httpMethod && MatchPath(endpoint.route.path, pathname)
  }

  /** The result of `findMatchingRoute(routes)` when its loop starts at entry i. */
  function FindFrom<H>(routes: seq<(string, Tree<Endpoint<H>>)>, i: nat, pathname: string, httpMethod: string): Option<Endpoint<H>>
    requires i <= |routes|
    decreases Branch(routes), |routes| - i
  {
    if i == |routes| then None
    else
      match routes[i].1
      case Branch(children) => FindFrom(children, 0, pathname, httpMethod)
      case Leaf(endpoint) =>
        if endpoint.route.httpMethod != httpMethod then FindFrom(routes, i + 1, pathname, httpMethod)
        else if MatchPath(endpoint.route.path, pathname) then Some(endpoint)
        else FindFrom(routes, i + 1, pathname, httpMethod)
  }

  /** `findMatchingRoute`: the loop over `Object.values(routes)` with its early returns. */
  method FindMatchingRoute<H>(routes: seq<(string, Tree<Endpoint<H>>)>, pathname: string, httpMethod: string)
    returns (r: Option<Endpoint<H>>)
    ensures r == FindFrom(routes, 0, pathname, httpMethod)
    decreases Branch(routes)
  {
    for i := 0 to |routes|
      invariant FindFrom(routes, 0, pathname, httpMethod) == FindFrom(routes, i, pathname, httpMethod)
    {
      var route := routes[i].1;
      if route.Branch? {
        r := FindMatchingRoute(route.children, pathname, httpMethod);
        return;
      }
      if route.value.route.httpMethod != httpMethod {
        continue;
      }
      if MatchPath(route.value.route.path, pathname) {
        return Some(route.value);
      }
    }
    return None;
  }

  /** `findRoute(appRouter, pathname, method)` */
  method FindRoute<H>(appRouter: seq<(string, Tree<Endpoint<H>>)>, pathname: string, httpMethod: string)
    returns (r: Option<Endpoint<H>>)
    ensures r == FindFrom(appRouter, 0, pathname, httpMethod)
    ensures r.Some? ==> Accepts(r.value, pathname, httpMethod) && LeafIn(r.value, appRouter)
  {
    r := FindMatchingRoute(appRouter, pathname, httpMethod);
    if r.Some? {
      FindIsSound(appRouter, 0, pathname, httpMethod);
    }
  }

  // ---------------------------------------------------------------------------

  /** Whatever is found is a leaf of the router whose method and path template match the request. */
  lemma {:induction false} FindIsSound<H>(routes: seq<(string, Tree<Endpoint<H>>)>, i: nat, pathname: string, httpMethod: string)
    requires i <= |routes|
    requires FindFrom(routes, i, pathname, httpMethod).Some?
    ensures Accepts(FindFrom(routes, i, pathname, httpMethod).value, pathname, httpMethod)
    ensures LeafIn(FindFrom(routes, i, pathname, httpMethod).value, routes)
    decreases Branch(routes), |routes| - i
  {
    var found := FindFrom(routes, i, pathname, httpMethod).value;
    match routes[i].1
    case Branch(children) =>
      FindIsSound(children, 0, pathname, httpMethod);
      assert routes[i].1.Branch? && LeafIn(found, routes[i].1.children);
    case Leaf(endpoint) =>
      if endpoint.route.httpMethod == httpMethod && MatchPath(endpoint.route.path, pathname) {
        assert routes[i].1 == Leaf(found);
      } else {
        FindIsSound(routes, i + 1, pathname, httpMethod);
      }
  }

  /** Every entry is an endpoint: no nested routers. */
  predicate AllLeaves<H>(routes: seq<(string, Tree<Endpoint<H>>)>)
  {
    forall j :: 0 <= j < |routes| ==> routes[j].1.Leaf?
  }

  /** On a router of endpoints only, nothing is found exactly when no endpoint accepts the request. */
  lemma {:induction false} FlatNotFoundIff<H>(routes: seq<(string, Tree<Endpoint<H>>)>, i: nat, pathname: string, httpMethod: string)
    requires i <= |routes| && AllLeaves(routes)
    ensures FindFrom(routes, i, pathname, httpMethod).None? <==>
      forall j :: i <= j < |routes| ==> !Accepts(routes[j].1.value, pathname, httpMethod)
    decreases |routes| - i
  {
    if i < |routes| {
      FlatNotFoundIff(routes, i + 1, pathname, httpMethod);
    }
  }

  /**
   * The first accepting endpoint is found when every entry before it is an endpoint
   * that does not accept the request; nested routers may follow it.
   */
  lemma {:induction false} FindsFirstAcceptingLeaf<H>(routes: seq<(string, Tree<Endpoint<H>>)>, i: nat, k: nat, pathname: string, httpMethod: string)
    requires i <= k < |routes| && routes[k].1.Leaf?
    requires Accepts(routes[k].1.value, pathname, httpMethod)
    requires forall j :: i <= j < k ==> routes[j].1.Leaf? && !Accepts(routes[j].1.value, pathname, httpMethod)
    ensures FindFrom(routes, i, pathname, httpMethod) == Some(routes[k].1.value)
    decreases k - i
  {
    if i < k {
      FindsFirstAcceptingLeaf(routes, i + 1, k, pathname, httpMethod);
    }
  }

  /** On a router of endpoints only, the first accepting endpoint in key order is the one found. */
  lemma {:induction false} FlatFindsFirstMatch<H>(routes: seq<(string, Tree<Endpoint<H>>)>, i: nat, k: nat, pathname: string, httpMethod: string)
    requires i <= k < |routes| && AllLeaves(routes)
    requires Accepts(routes[k].1.value, pathname, httpMethod)
    requires forall j :: i <= j < k ==> !Accepts(routes[j].1.value, pathname, httpMethod)
    ensures FindFrom(routes, i, pathname, httpMethod) == Some(routes[k].1.value)
  {
    FindsFirstAcceptingLeaf(routes, i, k, pathname, httpMethod);
  }

  /** An endpoint placed before a nested router is found when it accepts the request. */
  lemma EndpointBeforeSubRouterFound<H>(endpoint: Endpoint<H>, sub: seq<(string, Tree<Endpoint<H>>)>, pathname: string, httpMethod: string)
    requires Accepts(endpoint, pathname, httpMethod)
    ensures FindFrom([("health", Leaf(endpoint)), ("posts", Branch(sub))], 0, pathname, httpMethod) == Some(endpoint)
  {
    FindsFirstAcceptingLeaf([("health", Leaf(endpoint)), ("posts", Branch(sub))], 0, 0, pathname, httpMethod);
  }

  /**
   * The first nested router decides: once the entries before it are endpoints that
   * do not accept the request, the result is that router's result, found or not.
   */
  lemma {:induction false} FirstSubRouterDecides<H>(routes: seq<(string, Tree<Endpoint<H>>)>, i: nat, k: nat, pathname: string, httpMethod: string)
    requires i <= k < |routes| && routes[k].1.Branch?
    requires forall j :: i <= j < k ==> routes[j].1.Leaf? && !Accepts(routes[j].1.value, pathname, httpMethod)
    ensures FindFrom(routes, i, pathname, httpMethod) == FindFrom(routes[k].1.children, 0, pathname, httpMethod)
    decreases k - i
  {
    if i < k {
      FirstSubRouterDecides(routes, i + 1, k, pathname, httpMethod);
    }
  }

  /**
   * An endpoint placed after an empty nested router is never found, even though it
   * accepts the request.
   */
  lemma SiblingAfterSubRouterUnreached<H>(endpoint: Endpoint<H>, pathname: string, httpMethod: string)
    requires Accepts(endpoint, pathname, httpMethod)
    ensures LeafIn(endpoint, [("posts", Branch([])), ("health", Leaf(endpoint))])
    ensures FindFrom([("posts", Branch([])), ("health", Leaf(endpoint))], 0, pathname, httpMethod) == None
  {
    var routes := [("posts", Branch([])), ("health", Leaf(endpoint))];
    assert routes[1].1 == Leaf(endpoint);
    FirstSubRouterDecides(routes, 0, 0, pathname, httpMethod);
  }
}
