# Edge request dispatch of ts-rest, in Dafny

The ts-rest edge adapter answers a fetch-style `Request` from two trees. One is a
contract router of route declarations (method, path template, schemas). The other is a
router of handler implementations with the same keys. This project models the dispatch
core of `libs/ts-rest/edge/src/lib/ts-rest-edge.ts`:

- `mergeRouterAndImplementation` (module `Merge`): attaches `implementation[key]` to every contract endpoint.
- `createQueryObject` and the header copy (module `Records`): fold key/value pairs into a plain object.
- `findRoute`, with its closures `matchPath` (module `Paths`) and `findMatchingRoute` (module `Resolve`).
- The control flow of `createEdgeRequestHandler` (module `EdgeHandler`). It merges the two trees and cuts the base endpoint off the pathname. It answers 404 when no route is found. It computes the four validation results and answers 400 for the first failure, in the order path params, query, body, headers. Then it calls the handler, maps a thrown value to 500 or rethrows it, and optionally reshapes the response through response validation.

Plain JavaScript objects are sequences of `(key, value)` pairs in insertion order. That is
the order `Object.keys`/`Object.values` report. Assigning a key replaces its value in place
or appends it (`Records.Put`).

A contract or merged router is a `Tree` of `Leaf`/`Branch` entries. An implementation is
an `Impl`: `Undefined`, a `Handler`, or an object. Reading a property of `Undefined`
throws a `TypeError` (`Contract.Property`).

Loops of the source are methods with loops, each proved equal to a specification
function:
- `Records.CreateQueryObject` is specified by `FromPairs`;
- `Merge.MergeRouterAndImplementation` by `MergeSpec`;
- `Resolve.FindMatchingRoute` by `FindFrom`.

`EdgeHandler.HandleRequest` is the chain of early returns. The collaborators whose code is
not part of this model are total functions in an `Env`:
- `checkZodSchema`;
- `parseJsonQueryObject`;
- `getPathParamsFromArray`;
- JSON parsing of a body (`parseJsonBody`);
- the call of a handler;
- `validateResponse`.

Some behaviours of the code are easy to miss; the model keeps them as written:

- **Sub-routers.** The route search returns the result of the *first* nested router it meets (line 147), found or not, so the entries after it are never examined. `Resolve.FirstSubRouterDecides` states this and `Resolve.SiblingAfterSubRouterUnreached` gives a concrete router where it hides a matching endpoint.
- **Validation order.** All four validation results are computed first (lines 238–267), and only then is the first failure reported (lines 269–291). The collaborators are modelled as pure functions that never throw, so computing the later checks changes nothing in the model.
- **Base endpoint.** The JSDoc describes the base endpoint as stripped from the request URL before matching (line 193). The code cuts `endpoint.length` characters off the pathname without comparing them (line 224). `EdgeHandler.BaseCutByLength` shows `/v2/test` under base `/api` dispatched as `test`.
- **Missing implementations.** An endpoint key missing from the implementation yields an undefined implementation, and the request then fails inside the `try` when the handler is called. Only a non-empty nested router meeting `undefined` makes the merge throw, and that happens on every request, before any route is looked up. `Merge.MissingHandlerIsUndefined`, `Merge.MissingSubRouterThrows` and `Merge.MergeSucceedsIffCovered` state this.

## Model

| member | source | states |
|---|---|---|
| Paths.MatchPath | libs/ts-rest/edge/src/lib/ts-rest-edge.ts:132-140 | `matchPath`: equal segment counts and `every` segment matching; characterised by `Paths.MatchPathIff` |
| Paths.Segments | libs/ts-rest/edge/src/lib/ts-rest-edge.ts:133-134 | `split('/')` then the non-empty filter; characterised by the split and segment lemmas below |
| Paths.IsPlaceholder | libs/ts-rest/edge/src/lib/ts-rest-edge.ts:138 | `segment.startsWith(':')` |
| Paths.SegmentMatches | libs/ts-rest/edge/src/lib/ts-rest-edge.ts:138 | the `every` callback: a placeholder, or the same text |
| Paths.EveryFrom | libs/ts-rest/edge/src/lib/ts-rest-edge.ts:137-139 | `every` over the template segments, from index i; characterised by `Paths.EveryFromIff` |
| Paths.Split | libs/ts-rest/edge/src/lib/ts-rest-edge.ts:133-134 | `split('/')` always yields at least one piece |
| Paths.NonEmpty | libs/ts-rest/edge/src/lib/ts-rest-edge.ts:133-134 | the filter keeps only non-empty pieces, each taken from the input |
| Paths.SplitPiecesHaveNoSeparator | libs/ts-rest/edge/src/lib/ts-rest-edge.ts:133 | no piece of a split contains `/` |
| Paths.JoinSplit | libs/ts-rest/edge/src/lib/ts-rest-edge.ts:133 | joining the pieces with `/` gives back the original string |
| Paths.SplitPlain | libs/ts-rest/edge/src/lib/ts-rest-edge.ts:133 | a string without `/` splits into itself alone |
| Paths.SplitAround | libs/ts-rest/edge/src/lib/ts-rest-edge.ts:133 | splitting `a + "/" + b` gives the pieces of `a` followed by those of `b` |
| Paths.SplitJoin | libs/ts-rest/edge/src/lib/ts-rest-edge.ts:133 | splitting undoes joining for pieces free of `/` |
| Paths.NonEmptyConcat | libs/ts-rest/edge/src/lib/ts-rest-edge.ts:133-134 | the filter distributes over concatenation |
| Paths.SegmentsAround | libs/ts-rest/edge/src/lib/ts-rest-edge.ts:133-134 | the segments of `a + "/" + b` are those of `a` then those of `b` |
| Paths.SegmentsAreWords | libs/ts-rest/edge/src/lib/ts-rest-edge.ts:133-134 | every segment is non-empty and free of `/` |
| Paths.LeadingSlashIgnored | libs/ts-rest/edge/src/lib/ts-rest-edge.ts:133-134 | a leading slash does not change the segments |
| Paths.TrailingSlashIgnored | libs/ts-rest/edge/src/lib/ts-rest-edge.ts:133-134 | a trailing slash does not change the segments |
| Paths.DoubledSlashIgnored | libs/ts-rest/edge/src/lib/ts-rest-edge.ts:133-134 | a doubled slash counts as one |
| Paths.SegmentsOfJoin | libs/ts-rest/edge/src/lib/ts-rest-edge.ts:133-134 | words joined by `/` have exactly those words as segments |
| Paths.NonEmptyKeepsWords | libs/ts-rest/edge/src/lib/ts-rest-edge.ts:133-134 | the filter keeps a list of non-empty words unchanged |
| Paths.EveryFromIff | libs/ts-rest/edge/src/lib/ts-rest-edge.ts:137-139 | `every` from index i holds iff each later template segment is a placeholder or equals the request segment |
| Paths.MatchPathIff | libs/ts-rest/edge/src/lib/ts-rest-edge.ts:132-140 | `matchPath` holds exactly when the segment counts are equal and every template segment starts with `:` or equals the request segment at its index; so different counts never match |
| Paths.MatchPathReflexive | libs/ts-rest/edge/src/lib/ts-rest-edge.ts:132-140 | every path matches itself as a template |
| Paths.MatchPathIgnoresSlashes | libs/ts-rest/edge/src/lib/ts-rest-edge.ts:133-135 | leading, trailing and doubled slashes, in the template or in the request path, never change the result |
| Paths.TemplateMatchesStrippedPath | libs/ts-rest/edge/src/lib/ts-rest-edge.ts:132-140 | template `/test` matches `test`, the pathname left once base `/` is cut off |
| Paths.PlaceholderAcceptsOneSegment | libs/ts-rest/edge/src/lib/ts-rest-edge.ts:135-138 | `/:name` matches `/value` iff value is a non-empty segment |
| Paths.LiteralIsCaseSensitive | libs/ts-rest/edge/src/lib/ts-rest-edge.ts:138 | `/Test` does not match `/test` |
| Records.Keys | libs/ts-rest/edge/src/lib/ts-rest-edge.ts:82 | `Object.keys` lists each property's key, in order |
| Records.Lookup | libs/ts-rest/edge/src/lib/ts-rest-edge.ts:86 | reading a key yields undefined exactly when the key is absent, and otherwise the value of the first property with that key |
| Records.PutLookup | libs/ts-rest/edge/src/lib/ts-rest-edge.ts:113 | after `obj[key] = value` the key reads value and every other key is unchanged |
| Records.PutKeys | libs/ts-rest/edge/src/lib/ts-rest-edge.ts:113 | assignment keeps a present key's position and appends a new key |
| Records.PutDistinct | libs/ts-rest/edge/src/lib/ts-rest-edge.ts:113 | assignment never repeats a key |
| Records.Put | libs/ts-rest/edge/src/lib/ts-rest-edge.ts:113 | `obj[key] = value`; characterised by `Records.PutLookup` and `Records.PutKeys` |
| Records.FromPairs | libs/ts-rest/edge/src/lib/ts-rest-edge.ts:110-116 | successive assignments of the pairs to an empty object; characterised by `Records.FromPairsLastWins` |
| Records.LookupDistinct | libs/ts-rest/edge/src/lib/ts-rest-edge.ts:86 | in an object with distinct keys, each property is read back by its own key |
| Records.LookupConcat | libs/ts-rest/edge/src/lib/ts-rest-edge.ts:86 | a key is found in the first of two concatenated objects before the second |
| Records.CreateQueryObject | libs/ts-rest/edge/src/lib/ts-rest-edge.ts:110-116 | the `forEach` loop builds exactly the object of successive assignments of the pairs |
| Records.FirstOccurrencesMembers | libs/ts-rest/edge/src/lib/ts-rest-edge.ts:110-116 | the first-occurrence list has the same members as the key list |
| Records.FromPairsLastWins | libs/ts-rest/edge/src/lib/ts-rest-edge.ts:110-116 | the query object has distinct keys in first-occurrence order, each holding the value of its last occurrence |
| Records.LastValueIsLastOccurrence | libs/ts-rest/edge/src/lib/ts-rest-edge.ts:110-116 | the reference value is that of the last pair with the key, none when no pair has it |
| Records.QueryObjectKeySet | libs/ts-rest/edge/src/lib/ts-rest-edge.ts:110-116 | the query object's keys are exactly the keys occurring among the pairs |
| Records.TestQueryString | libs/ts-rest/edge/src/lib/ts-rest-next.spec.ts:41-45 | `test=test-query-string&foo=123` gives the object with those two keys in that order |
| Records.RepeatedKeyLastWins | libs/ts-rest/edge/src/lib/ts-rest-edge.ts:112-114 | `a=1&b=2&a=3` gives `{a: '3', b: '2'}` |
| Contract.Property | libs/ts-rest/edge/src/lib/ts-rest-edge.ts:86 | `implementation[key]` throws exactly when the implementation is undefined; on an object it is the object's value at the key, undefined when missing; a handler has no own properties |
| Contract.DeepDistinct | libs/ts-rest/edge/src/lib/ts-rest-edge.ts:82 | no router of a contract repeats a key, at any depth, as for the object the contract is |
| Merge.MergeSpec | libs/ts-rest/edge/src/lib/ts-rest-edge.ts:84-102 | the `reduce` over the contract keys as a left fold; characterised by the merge lemmas below |
| Merge.MergeEntry | libs/ts-rest/edge/src/lib/ts-rest-edge.ts:85-100 | one step of the fold: read `implementation[key]`, then spread an endpoint or recurse into a nested router |
| Merge.MergeRouterAndImplementation | libs/ts-rest/edge/src/lib/ts-rest-edge.ts:78-103 | the `reduce` over the contract keys returns the merged router or the TypeError of the fold |
| Merge.MergeFailureStays | libs/ts-rest/edge/src/lib/ts-rest-edge.ts:84-102 | once the fold throws on a prefix of the keys, the whole merge throws the same error |
| Merge.Strip | libs/ts-rest/edge/src/lib/ts-rest-edge.ts:89-94 | helper for `Merge.MergeKeepsContract`: dropping implementations keeps the number of entries (the contract content is stated there) |
| Merge.MergeKeepsContract | libs/ts-rest/edge/src/lib/ts-rest-edge.ts:82-102 | a merged router with implementations dropped is the contract router: same keys, order, shape and endpoint fields |
| Merge.MergeEntryKeepsContract | libs/ts-rest/edge/src/lib/ts-rest-edge.ts:85-100 | the same for one contract entry |
| Merge.StripKeepsLeaves | libs/ts-rest/edge/src/lib/ts-rest-edge.ts:89-94 | every endpoint of a merged router has its route in the stripped router |
| Merge.StripEntryKeepsLeaves | libs/ts-rest/edge/src/lib/ts-rest-edge.ts:89-99 | the same for one entry, at any depth |
| Merge.MergePointwise | libs/ts-rest/edge/src/lib/ts-rest-edge.ts:84-102 | the merged router has one entry per contract key, each merged from that key alone |
| Merge.MergedEndpoint | libs/ts-rest/edge/src/lib/ts-rest-edge.ts:88-94 | each endpoint keeps its contract route and carries `implementation[key]`, undefined when the key is missing |
| Merge.MergeSucceedsIffCovered | libs/ts-rest/edge/src/lib/ts-rest-edge.ts:86 | the merge throws exactly when a non-empty contract router meets an undefined implementation |
| Merge.EntrySucceedsIffCovered | libs/ts-rest/edge/src/lib/ts-rest-edge.ts:85-100 | the same for one contract entry |
| Merge.MergeReadsOnlyContractKeys | libs/ts-rest/edge/src/lib/ts-rest-edge.ts:82-102 | two implementations that agree on the contract router, at every depth, merge alike |
| Merge.MergeEntryReadsOnlyContractKeys | libs/ts-rest/edge/src/lib/ts-rest-edge.ts:85-100 | the same for one contract entry |
| Merge.AgreeReflexive | libs/ts-rest/edge/src/lib/ts-rest-edge.ts:82-102 | an implementation agrees with itself on any contract router |
| Merge.EntryAgreeReflexive | libs/ts-rest/edge/src/lib/ts-rest-edge.ts:85-100 | the same for one contract entry |
| Merge.Restrict | libs/ts-rest/edge/src/lib/ts-rest-edge.ts:82-99 | the implementation cut down to the contract's keys at every depth; undefined exactly when the implementation is |
| Merge.RestrictEntries | libs/ts-rest/edge/src/lib/ts-rest-edge.ts:82-99 | one restricted entry per contract key, in contract order |
| Merge.RestrictEntry | libs/ts-rest/edge/src/lib/ts-rest-edge.ts:85-99 | a restricted entry keeps the contract key |
| Merge.RestrictAgrees | libs/ts-rest/edge/src/lib/ts-rest-edge.ts:82-102 | an implementation agrees with its restriction to the contract's key tree |
| Merge.RestrictEntryAgrees | libs/ts-rest/edge/src/lib/ts-rest-edge.ts:85-100 | the same for one contract entry |
| Merge.MergeDependsOnlyOnContractTree | libs/ts-rest/edge/src/lib/ts-rest-edge.ts:82-102 | implementations with the same restriction to the contract's key tree merge alike, so implementation keys outside the contract are ignored at every depth |
| Merge.NestedExtraKeyIgnored | libs/ts-rest/edge/src/lib/ts-rest-edge.ts:86-99 | an extra implementation key inside a nested router does not change the merge |
| Merge.ExtraImplementationKeysIgnored | libs/ts-rest/edge/src/lib/ts-rest-edge.ts:82-86 | top-level implementation keys appended after the others, with no contract counterpart, are ignored |
| Merge.MissingHandlerIsUndefined | libs/ts-rest/edge/src/lib/ts-rest-edge.ts:86-94 | an endpoint with no implementation is merged with an undefined handler, without error |
| Merge.MissingSubRouterThrows | libs/ts-rest/edge/src/lib/ts-rest-edge.ts:86-99 | a nested router with no implementation object makes the merge throw a TypeError |
| Resolve.FindFrom | libs/ts-rest/edge/src/lib/ts-rest-edge.ts:142-155 | the search from entry i of a router: return on a nested router, skip another method, return a matching endpoint; characterised by the search lemmas below |
| Resolve.Accepts | libs/ts-rest/edge/src/lib/ts-rest-edge.ts:149-151 | same method and a matching path template |
| Resolve.FindMatchingRoute | libs/ts-rest/edge/src/lib/ts-rest-edge.ts:142-155 | the `for` loop with `continue` and early returns computes exactly the recursive search |
| Resolve.FindRoute | libs/ts-rest/edge/src/lib/ts-rest-edge.ts:127-158 | the result is the search result; a found endpoint has the request's method, a matching template, and is a leaf of the router |
| Resolve.FindIsSound | libs/ts-rest/edge/src/lib/ts-rest-edge.ts:145-152 | whatever is found is a leaf of the router accepting the method and path |
| Resolve.FlatNotFoundIff | libs/ts-rest/edge/src/lib/ts-rest-edge.ts:145-154 | on a router of endpoints only, nothing is found iff no endpoint accepts the request |
| Resolve.FindsFirstAcceptingLeaf | libs/ts-rest/edge/src/lib/ts-rest-edge.ts:145-154 | when every entry before an accepting endpoint is an endpoint that does not accept the request, that endpoint is found, whatever follows it |
| Resolve.EndpointBeforeSubRouterFound | libs/ts-rest/edge/src/lib/ts-rest-edge.ts:145-152 | an accepting endpoint placed before a nested router is found |
| Resolve.FlatFindsFirstMatch | libs/ts-rest/edge/src/lib/ts-rest-edge.ts:145-154 | on a router of endpoints only, the first accepting endpoint in key order is found |
| Resolve.FirstSubRouterDecides | libs/ts-rest/edge/src/lib/ts-rest-edge.ts:147 | at the first nested router, its result, found or not, is the result |
| Resolve.SiblingAfterSubRouterUnreached | libs/ts-rest/edge/src/lib/ts-rest-edge.ts:145-147 | an accepting endpoint after an empty nested router is in the router but never found |
| EdgeHandler.StripBase | libs/ts-rest/edge/src/lib/ts-rest-edge.ts:224 | `slice(endpoint.length)` leaves the last `length - endpoint.length` characters (none when the base is longer), and the rest after the base when it is a prefix |
| EdgeHandler.BaseCutByLength | libs/ts-rest/edge/src/lib/ts-rest-edge.ts:224 | the base is not compared: `/v2/test` under `/api` becomes `test` and matches `/test` |
| EdgeHandler.RecordJson | libs/ts-rest/edge/src/lib/ts-rest-edge.ts:254-258 | a plain object of strings is handed to the schema check with the same keys, order and values |
| EdgeHandler.BodyResult | libs/ts-rest/edge/src/lib/ts-rest-edge.ts:245-252 | a body that is not JSON passes with the raw body; a JSON body passes iff the body schema accepts it, with its data or error |
| EdgeHandler.QueryValue | libs/ts-rest/edge/src/lib/ts-rest-edge.ts:239-242 | the query object, or its JSON-decoded form under `jsonQuery` |
| EdgeHandler.Validate | libs/ts-rest/edge/src/lib/ts-rest-edge.ts:238-267 | the four validation results; path params default to `z.object({})`, and path params and headers pass extra keys through |
| EdgeHandler.Failures | libs/ts-rest/edge/src/lib/ts-rest-edge.ts:269-291 | the four checks' errors in the order they are reported |
| EdgeHandler.FirstError | libs/ts-rest/edge/src/lib/ts-rest-edge.ts:269-291 | the first error of a list: none iff all pass, otherwise an error with no failure before it |
| EdgeHandler.Rejection | libs/ts-rest/edge/src/lib/ts-rest-edge.ts:269-291 | 400 is reported iff a check fails, with the error of the first failing check in the order path params, query, body, headers |
| EdgeHandler.HandlerArgs | libs/ts-rest/edge/src/lib/ts-rest-edge.ts:294-300 | the handler's argument from the validated body, query, params and headers, and the request |
| EdgeHandler.ResponseSchema | libs/ts-rest/edge/src/lib/ts-rest-edge.ts:306 | `route.responses[status]`, None when the status is not declared |
| EdgeHandler.Located | libs/ts-rest/edge/src/lib/ts-rest-edge.ts:220-232 | the endpoint found for the stripped pathname and method in the merged router, None when the merge throws |
| EdgeHandler.Attempt | libs/ts-rest/edge/src/lib/ts-rest-edge.ts:293-321 | a missing handler throws a TypeError, a handler's throw is its result; without response validation, or with a non-JSON response, status, headers and body pass through; otherwise the validated status and body are sent with the handler's headers, or the validation error is thrown |
| EdgeHandler.Respond | libs/ts-rest/edge/src/lib/ts-rest-edge.ts:293-330 | the handler is called iff there is one; a thrown value gives 500 and is reported when an error handler is set, and is rethrown otherwise |
| EdgeHandler.HandleRequest | libs/ts-rest/edge/src/lib/ts-rest-edge.ts:200-331 | a merge error is thrown first; no route gives 404 `Not Found` without a handler call; a failing check gives 400 with the first failure's error without a handler call; otherwise the outcome is that of calling the handler with the validated data |
| EdgeHandler.LocatedRouteIsDeclared | libs/ts-rest/edge/src/lib/ts-rest-edge.ts:220-232 | the endpoint a request reaches is a route of the contract with the request's method and a template matching the stripped pathname |
| EdgeHandler.Field | libs/ts-rest/edge/src/lib/ts-rest-next.spec.ts:23 | the destructured `query.test` is the object's value at `test`, undefined when the key is missing |
| EdgeHandler.MessageBody | libs/ts-rest/edge/src/lib/ts-rest-next.spec.ts:24 | `JSON.stringify({message: test})` holds the member `message` exactly when `test` is defined |
| EdgeHandler.ShouldSendBack200 | libs/ts-rest/edge/src/lib/ts-rest-next.spec.ts:32-56 | the test request for `/test` with base `/` is answered with 200 and `{message: 'test-query-string'}` |

## Left out

- URL parsing (`new URL(req.url, 'https://example.com')`, line 222): the request carries its pathname and search pairs already parsed.
- `Headers` objects and their lower-casing of names: the request carries its header pairs as they are enumerated.
- `await` and the `async` functions: every step is sequential, and collaborators return their results directly.
- Body streams: `parseJsonBody` reads and consumes the body of the request and of the handler's response (lines 160–172). The model passes the body on as a value, so it does not capture that a consumed stream is later handed to a new `Response` (lines 250, 318).
- `parseJsonBody` itself: JSON parsing is the `Env.parseJson` function, and a parse failure is None.
- `checkZodSchema`, `parseJsonQueryObject`, `getPathParamsFromArray`, `validateResponse`, `z.object({})` and `isAppRoute`: their code is not part of this model, and nothing is assumed of their results.
  - `checkZodSchema`, `parseJsonQueryObject` and `getPathParamsFromArray` are functions of `Env`, assumed total and never to throw.
  - `validateResponse` is a function of `Env` that may throw: its `Failure` result is the thrown value, which `EdgeHandler.Attempt` hands to the `catch`.
  - `z.object({})` is the constant schema `Contract.EmptyObjectSchema`.
  - `isAppRoute` is the `Leaf`/`Branch` distinction of `Tree`: a contract endpoint is a `Leaf`, a nested router a `Branch`.
- `EdgeHandler.HandleRequest`: a throw from `checkZodSchema`, `parseJsonQueryObject` or `getPathParamsFromArray` happens at lines 238–267, outside the `try` at line 293. Such a throw would reach the caller even when an error handler is set. The model cannot express it, since those collaborators never throw here.
- `EdgeHandler.StripBase`: `endpoint.length` and `slice` count UTF-16 code units, while the model counts characters. They agree when the base endpoint and the pathname have no characters outside the Basic Multilingual Plane.
- `Contract.Property`: only own properties are read. In JavaScript, `implementation[key]` also finds inherited `Object.prototype` members. A missing endpoint named `toString` would get `Object.prototype.toString` as its handler, whose string result the code passes on as a 200. A missing nested router named `constructor` would be merged against `Object` without throwing. The model gives `Undefined` in both cases: a TypeError when the handler is called, or a TypeError thrown by the merge.
- `Records.Put`: the key `__proto__` is stored like any other key. In JavaScript, `queryObject['__proto__'] = value` (line 113) and `plainHeaders['__proto__'] = value` (line 256) go to the prototype setter, which ignores a string. So the source's query and header objects never contain that key, while `Records.FromPairs` and `Records.QueryObjectKeySet` keep it.
- `EdgeHandler.HandleRequest`: the error handler returns normally. An error handler that itself throws is not modelled, and neither is the request object passed to it.
- Validation results are modelled as success or failure only. The `error: null` field of the non-JSON fallback (line 251) is not.
- The TypeScript type-level machinery (lines 18–69): it has no run-time behaviour.
- `createEdgeRoute` (lines 181–184): an identity function.
- `isAppRouteWithImplementation` (lines 119–125): not used by the dispatch.
- `Object.keys` order: the model uses plain insertion order. JavaScript enumerates integer-like keys first, in ascending order; that is not modelled.
- Function objects: a handler has no properties of its own in the model. In JavaScript, `name` and `length` would be readable.
- The spread `{...existing, implementation}` (lines 89–94) becomes a pair of the contract route and the implementation. A contract field named `implementation` would be overwritten; that case is not represented.
- The NestJS interceptor `libs/ts-rest/nest/src/lib/ts-rest.interceptor.ts` and the example Next.js page are not part of this model.
- JSON numbers are integers here, since the dispatcher never computes with them.
