/**
 * The values the dispatcher works on: route contracts, the nested router of
 * contracts, the parallel tree of implementations, and the merged routes.
 *
 * Schemas, JSON values and handlers are opaque here: the dispatcher only passes
 * them to collaborators it does not implement.
 */
module Contract {
  import opened Wrappers
  import opened Records

  /** A parsed JSON value. */
  datatype Json =
    | JNull
    | JBool(b: bool)
    | JNumber(n: int)
    | JString(s: string)
    | JArray(items: seq<Json>)
    | JObject(members: seq<(string, Json)>)

  /** A schema given to the validation library: one written in the contract, or `z.object({})`. */
  datatype Schema = EmptyObjectSchema | Declared(name: string)

  /** One endpoint of the contract (an `AppRoute`: `httpMethod` is its `method`); an absent schema is None. */
  datatype Route = Route(
    httpMethod: string,
    path: string,
    pathParams: Option<Schema>,
    query: Option<Schema>,
    headers: Option<Schema>,
    body: Option<Schema>,
    responses: map<int, Schema>)

  /**
   * A router: named entries that are either an endpoint or a nested router.
   * The order of `children` is the order `Object.keys` and `Object.values` report.
   */
  datatype Tree<L> = Leaf(value: L) | Branch(children: seq<(string, Tree<L>)>)

  /** The leaf is in the router, at any depth. */
  ghost predicate LeafIn<L>(leaf: L, routes: seq<(string, Tree<L>)>)
    decreases Branch(routes)
  {
    exists j :: 0 <= j < |routes| &&
      (routes[j].1 == Leaf(leaf) || (routes[j].1.Branch? && LeafIn(leaf, routes[j].1.children)))
  }

  /** No router of the tree, at any depth, repeats a key, as for any JavaScript object. */
  ghost predicate DeepDistinct<L>(routes: seq<(string, Tree<L>)>)
    decreases Branch(routes)
  {
    && DistinctKeys(routes)
    && forall j :: 0 <= j < |routes| && routes[j].1.Branch? ==> DeepDistinct(routes[j].1.children)
  }

  /** What an implementation tree holds at a key: nothing, a handler function, or a nested object. */
  datatype Impl<H> = Undefined | Handler(handler: H) | ImplObject(entries: seq<(string, Impl<H>)>)

  /** A value thrown by the dispatcher or by a collaborator. */
  datatype Thrown = TypeError | Raised(value: Json)

  /**
   * `implementation[key]`: reading a property of `undefined` throws a TypeError, a
   * handler function has no properties of its own, an object yields its entry.
   */
  function Property<H>(impl: Impl<H>, key: string): (r: Result<Impl<H>, Thrown>)
    ensures r.Failure? <==> impl.Undefined?
    ensures impl.ImplObject? ==> r == Success(Lookup(impl.entries, key).GetOr(Undefined))
    ensures impl.ImplObject? && key !in Keys(impl.entries) ==> r == Success(Undefined)
    ensures impl.Handler? ==> r == Success(Undefined)
  {
    match impl
    case Undefined => Failure(TypeError)
    case Handler(_) => Success(Undefined)
    case ImplObject(entries) => Success(Lookup(entries, key).GetOr(Undefined))
  }

  /** A contract endpoint together with whatever the implementation tree held at its key. */
  datatype Endpoint<H> = Endpoint(route: Route, implementation: Impl<H>)
}
