/**
 * `createEdgeRequestHandler`: merge the contract with its implementation, find the
 * endpoint of the request, validate path parameters, query, body and headers,
 * call the handler, and shape its response.
 *
 * What the handler does not implement itself is a field of `Env`: the schema
 * check, JSON decoding of query values, path parameter extraction, JSON parsing of
 * a body, calling a handler, and response validation.
 */
module EdgeHandler {
  import opened Wrappers
  import opened Records
  import opened Paths
  import opened Contract
  import opened Merge
  import opened Resolve

  /** A message body: none, a string, `JSON.stringify(json)`, or raw bytes. */
  datatype Body = NoBody | Text(text: string) | Serialized(json: Json) | Stream(bytes: seq<bv8>)

  datatype Response = Response(status: int, headers: seq<(string, string)>, body: Body)

  /**
   * The incoming request: its method, the pathname of its URL, the pairs of the URL's
   * search parameters and of its header collection, in enumeration order, and its body.
   */
  datatype Request = Request(
    httpMethod: string,
    pathname: string,
    searchParams: seq<(string, string)>,
    headers: seq<(string, string)>,
    body: Body)

  /** What `checkZodSchema` returns: `{success: true, data}` or `{success: false, error}`. */
  datatype Validation<T> = Valid(data: T) | Invalid(error: Json)

  /** The body handed to the handler: the validated JSON, or the raw body when it is not JSON. */
  datatype BodyData = ParsedBody(json: Json) | RawBody(raw: Body)

  /** The single argument of a handler call. */
  datatype Args = Args(body: BodyData, query: Json, params: Json, headers: Json, req: Request)

  /** What awaiting a handler gives: a response, or a thrown value. */
  datatype HandlerResult = Returned(response: Response) | Threw(error: Thrown)

  /** `jsonQuery`, `responseValidation`, and whether an `errorHandler` is given; all off by default. */
  datatype Options = Options(jsonQuery: bool, responseValidation: bool, errorHandler: bool)

  /** The collaborators, as total functions. */
  datatype Env<!H> = Env(
    checkZodSchema: (Json, Option<Schema>, bool) -> Validation<Json>,
    parseJsonQueryObject: Record<string> -> Json,
    getPathParamsFromArray: (seq<string>, Route) -> Json,
    parseJson: Body -> Option<Json>,
    call: (H, Args) -> HandlerResult,
    validateResponse: (Option<Schema>, int, Json) -> Result<(int, Json), Thrown>)

  /** How the request ends: with a response, or with a value thrown to the caller. */
  datatype Outcome = Responded(response: Response) | Rethrown(error: Thrown)

  /**
   * One run of the request handler: its outcome, the handler call it made (if any),
   * and the value it passed to the error handler (if any).
   */
  datatype Run<H> = Run(outcome: Outcome, called: Option<(H, Args)>, reported: Option<Thrown>)

  /** The four validation results. */
  datatype Checks = Checks(
    pathParams: Validation<Json>,
    query: Validation<Json>,
    body: Validation<BodyData>,
    headers: Validation<Json>)

  // ---------------------------------------------------------------------------
  // the steps

  /** `url.pathname.slice(endpoint.length)`: the base endpoint is cut off by its length alone. */
  function StripBase(pathname: string, baseEndpoint: string): (rest: string)
    ensures |rest| == if |baseEndpoint| <= |pathname| then |pathname| - |baseEndpoint| else 0
    ensures rest == pathname[|pathname| - |rest|..]
    ensures baseEndpoint <= pathname ==> baseEndpoint + rest == pathname
  {
    if |baseEndpoint| >= |pathname| then "" else pathname[|baseEndpoint|..]
  }

  /** A plain object of strings as the JSON value given to the schema check. */
  function RecordJson(rec: Record<string>): (json: Json)
    ensures json.JObject? && |json.members| == |rec|
    ensures forall i :: 0 <= i < |rec| ==> json.members[i] == (rec[i].0, JString(rec[i].1))
  {
    JObject(seq(|rec|, i requires 0 <= i < |rec| => (rec[i].0, JString(rec[i].1))))
  }

  /**
   * The body check. A body that does not parse as JSON passes unchecked and is handed
   * on as it came; a JSON body is checked against the body schema of the route.
   */
  function BodyResult<H>(env: Env<H>, route: Route, request: Request): (r: Validation<BodyData>)
    ensures env.parseJson(request.body).None? ==> r == Valid(RawBody(request.body))
    ensures env.parseJson(request.body).Some? ==>
      (r.Valid? <==> env.checkZodSchema(env.parseJson(request.body).value, route.body, false).Valid?)
    ensures r.Valid? && env.parseJson(request.body).Some? ==>
      r.data == ParsedBody(env.checkZodSchema(env.parseJson(request.body).value, route.body, false).data)
    ensures r.Invalid? ==> r.error == env.checkZodSchema(env.parseJson(request.body).value, route.body, false).error
  {
    match env.parseJson(request.body)
    case None => Valid(RawBody(request.body))
    case Some(json) =>
      match env.checkZodSchema(json, route.body, false)
      case Valid(data) => Valid(ParsedBody(data))
      case Invalid(error) => Invalid(error)
  }

  /** The query value: the query object, or its JSON-decoded form under `jsonQuery`. */
  function QueryValue<H>(env: Env<H>, options: Options, queryObject: Record<string>): Json
  {
    if options.jsonQuery then env.parseJsonQueryObject(queryObject) else RecordJson(queryObject)
  }

  /** The four checks of the endpoint's route: path parameters and headers let extra keys through. */
  function Validate<H>(env: Env<H>, options: Options, route: Route, request: Request, pathname: string): Checks
  {
    Checks(
      env.checkZodSchema(env.getPathParamsFromArray(Split(pathname), route),
                         Some(route.pathParams.GetOr(EmptyObjectSchema)), true),
      env.checkZodSchema(QueryValue(env, options, FromPairs(request.searchParams)), route.query, false),
      BodyResult(env, route, request),
      env.checkZodSchema(RecordJson(FromPairs(request.headers)), route.headers, true))
  }

  /** The error of each check, in the order they are reported. */
  function Failures(checks: Checks): (errors: seq<Option<Json>>)
    ensures |errors| == 4
  {
    [ if checks.pathParams.Invalid? then Some(checks.pathParams.error) else None,
      if checks.query.Invalid? then Some(checks.query.error) else None,
      if checks.body.Invalid? then Some(checks.body.error) else None,
      if checks.headers.Invalid? then Some(checks.headers.error) else None ]
  }

  /** The first error of a list, in list order. */
  function FirstError(errors: seq<Option<Json>>): (r: Option<Json>)
    ensures r.None? <==> forall k :: 0 <= k < |errors| ==> errors[k].None?
    ensures r.Some? ==>
      exists k :: 0 <= k < |errors| && errors[k] == r && (forall j :: 0 <= j < k ==> errors[j].None?)
  {
    if |errors| == 0 then None
    else if errors[0].Some? then errors[0]
    else FirstError(errors[1..])
  }

  /**
   * The error reported with status 400: that of the first failing check, so a
   * failing query hides a failing body.
   */
  function Rejection(checks: Checks): (r: Option<Json>)
    ensures r.None? <==> checks.pathParams.Valid? && checks.query.Valid? && checks.body.Valid? && checks.headers.Valid?
    ensures checks.pathParams.Invalid? ==> r == Some(checks.pathParams.error)
    ensures checks.pathParams.Valid? && checks.query.Invalid? ==> r == Some(checks.query.error)
    ensures checks.pathParams.Valid? && checks.query.Valid? && checks.body.Invalid? ==> r == Some(checks.body.error)
    ensures checks.pathParams.Valid? && checks.query.Valid? && checks.body.Valid? && checks.headers.Invalid? ==>
      r == Some(checks.headers.error)
  {
    var errors := Failures(checks);
    assert errors[0].None? <==> checks.pathParams.Valid?;
    assert errors[1].None? <==> checks.query.Valid?;
    assert errors[2].None? <==> checks.body.Valid?;
    assert errors[3].None? <==> checks.headers.Valid?;
    FirstError(errors)
  }

  /** The handler's argument, built from the validated data. */
  function HandlerArgs(checks: Checks, request: Request): Args
    requires Rejection(checks).None?
  {
    Args(checks.body.data, checks.query.data, checks.pathParams.data, checks.headers.data, request)
  }

  /** `route.responses[status]` */
  function ResponseSchema(route: Route, status: int): Option<Schema>
  {
    if status in route.responses then Some(route.responses[status]) else None
  }

  /**
   * The `try` block: call the implementation and shape what it returns. Status and
   * headers pass through unchanged unless response validation applies to a JSON body.
   */
  function Attempt<H>(env: Env<H>, options: Options, endpoint: Endpoint<H>, args: Args): (r: Result<Response, Thrown>)
    ensures !endpoint.implementation.Handler? ==> r == Failure(TypeError)
    ensures endpoint.implementation.Handler? ==>
      match env.call(endpoint.implementation.handler, args)
      case Threw(e) => r == Failure(e)
      case Returned(res) =>
        && (!options.responseValidation || env.parseJson(res.body).None? ==>
              r == Success(Response(res.status, res.headers, res.body)))
        && (options.responseValidation && env.parseJson(res.body).Some? ==>
              var checked := env.validateResponse(ResponseSchema(endpoint.route, res.status), res.status,
                                                  env.parseJson(res.body).value);
              r == if checked.Success?
                   then Success(Response(checked.value.0, res.headers, Serialized(checked.value.1)))
                   else Failure(checked.error))
  {
    match endpoint.implementation
    case Handler(h) =>
      (match env.call(h, args)
       case Threw(e) => Failure(e)
       case Returned(res) =>
         var parsedResponse := env.parseJson(res.body);
         if options.responseValidation && parsedResponse.Some? then
           match env.validateResponse(ResponseSchema(endpoint.route, res.status), res.status, parsedResponse.value)
           case Success(response) => Success(Response(response.0, res.headers, Serialized(response.1)))
           case Failure(e) => Failure(e)
         else
           Success(Response(res.status, res.headers, res.body)))
    case _ => Failure(TypeError)
  }

  /**
   * The `catch`: a thrown value becomes a 500 when an error handler is given (which
   * is told of it), and is thrown on to the caller otherwise.
   */
  function Respond<H>(env: Env<H>, options: Options, endpoint: Endpoint<H>, args: Args): (run: Run<H>)
    ensures run.called == if endpoint.implementation.Handler? then Some((endpoint.implementation.handler, args)) else None
    ensures Attempt(env, options, endpoint, args).Success? ==>
      run.outcome == Responded(Attempt(env, options, endpoint, args).value) && run.reported.None?
    ensures Attempt(env, options, endpoint, args).Failure? && options.errorHandler ==>
      run.outcome == Responded(Response(500, [], Text("Internal Server Error"))) &&
      run.reported == Some(Attempt(env, options, endpoint, args).error)
    ensures Attempt(env, options, endpoint, args).Failure? && !options.errorHandler ==>
      run.outcome == Rethrown(Attempt(env, options, endpoint, args).error) && run.reported.None?
  {
    var called := if endpoint.implementation.Handler? then Some((endpoint.implementation.handler, args)) else None;
    match Attempt(env, options, endpoint, args)
    case Success(response) => Run(Responded(response), called, None)
    case Failure(e) =>
      if options.errorHandler then Run(Responded(Response(500, [], Text("Internal Server Error"))), called, Some(e))
      else Run(Rethrown(e), called, None)
  }

  /** The endpoint the request resolves to, when the merge succeeds. */
  function Located<H>(appContract: seq<(string, Tree<Route>)>, appRouter: Impl<H>, request: Request, baseEndpoint: string): Option<Endpoint<H>>
  {
    match MergeSpec(appContract, appRouter)
    case Failure(_) => None
    case Success(combined) => FindFrom(combined, 0, StripBase(request.pathname, baseEndpoint), request.httpMethod)
  }

  // ---------------------------------------------------------------------------
  // the request handler

  /** `createEdgeRequestHandler` */
  method HandleRequest<H>(appContract: seq<(string, Tree<Route>)>, appRouter: Impl<H>, request: Request,
                          baseEndpoint: string, options: Options, env: Env<H>)
    returns (run: Run<H>)
    // the merge runs first; the TypeError it may throw reaches the caller
    ensures MergeSpec(appContract, appRouter).Failure? ==>
      run == Run(Rethrown(MergeSpec(appContract, appRouter).error), None, None)
    // no endpoint: 404, nothing validated, no handler called
    ensures MergeSpec(appContract, appRouter).Success? && Located(appContract, appRouter, request, baseEndpoint).None? ==>
      run == Run(Responded(Response(404, [], Text("Not Found"))), None, None)
    // a failing check: 400 with the error of the first failure, no handler called
    ensures Located(appContract, appRouter, request, baseEndpoint).Some? ==>
      var endpoint := Located(appContract, appRouter, request, baseEndpoint).value;
      var checks := Validate(env, options, endpoint.route, request, StripBase(request.pathname, baseEndpoint));
      Rejection(checks).Some? ==>
        run == Run(Responded(Response(400, [], Serialized(Rejection(checks).value))), None, None)
    // all checks pass: the handler is called with the validated data
    ensures Located(appContract, appRouter, request, baseEndpoint).Some? ==>
      var endpoint := Located(appContract, appRouter, request, baseEndpoint).value;
      var checks := Validate(env, options, endpoint.route, request, StripBase(request.pathname, baseEndpoint));
      Rejection(checks).None? ==>
        run == Respond(env, options, endpoint, HandlerArgs(checks, request))
  {
    var merged := MergeRouterAndImplementation(appContract, appRouter);
    if merged.Failure? {
      return Run(Rethrown(merged.error), None, None);
    }
    var combinedRouter := merged.value;
    var pathname := StripBase(request.pathname, baseEndpoint);
    var route := FindRoute(combinedRouter, pathname, request.httpMethod);
    if route.None? {
      return Run(Responded(Response(404, [], Text("Not Found"))), None, None);
    }
    var endpoint := route.value;

    var pathParams := env.getPathParamsFromArray(Split(pathname), endpoint.route);
    var queryObject := CreateQueryObject(request.searchParams);
    var query := RecordJson(queryObject);
    if options.jsonQuery {
      query := env.parseJsonQueryObject(queryObject);
    }
    var queryResult := env.checkZodSchema(query, endpoint.route.query, false);
    var bodyResult := BodyResult(env, endpoint.route, request);
    var plainHeaders := CreateQueryObject(request.headers);
    var headersResult := env.checkZodSchema(RecordJson(plainHeaders), endpoint.route.headers, true);
    var pathParamsResult := env.checkZodSchema(pathParams, Some(endpoint.route.pathParams.GetOr(EmptyObjectSchema)), true);
    ghost var checks := Checks(pathParamsResult, queryResult, bodyResult, headersResult);
    assert checks == Validate(env, options, endpoint.route, request, pathname);

    if pathParamsResult.Invalid? {
      return Run(Responded(Response(400, [], Serialized(pathParamsResult.error))), None, None);
    }
    if queryResult.Invalid? {
      return Run(Responded(Response(400, [], Serialized(queryResult.error))), None, None);
    }
    if bodyResult.Invalid? {
      return Run(Responded(Response(400, [], Serialized(bodyResult.error))), None, None);
    }
    if headersResult.Invalid? {
      return Run(Responded(Response(400, [], Serialized(headersResult.error))), None, None);
    }

    var args := Args(bodyResult.data, queryResult.data, pathParamsResult.data, headersResult.data, request);
    run := Respond(env, options, endpoint, args);
  }

  // ---------------------------------------------------------------------------
  // properties of the request handler

  /**
   * A handler is only ever called for an endpoint the contract declares, whose method
   * is the request's and whose path template matches what is left of the pathname.
   */
  lemma LocatedRouteIsDeclared<H>(appContract: seq<(string, Tree<Route>)>, appRouter: Impl<H>, request: Request, baseEndpoint: string)
    requires Located(appContract, appRouter, request, baseEndpoint).Some?
    ensures Accepts(Located(appContract, appRouter, request, baseEndpoint).value,
                    StripBase(request.pathname, baseEndpoint), request.httpMethod)
    ensures LeafIn(Located(appContract, appRouter, request, baseEndpoint).value.route, appContract)
  {
    var merged := MergeSpec(appContract, appRouter).value;
    var pathname := StripBase(request.pathname, baseEndpoint);
    FindIsSound(merged, 0, pathname, request.httpMethod);
    StripKeepsLeaves(merged, FindFrom(merged, 0, pathname, request.httpMethod).value);
    MergeKeepsContract(appContract, appRouter);
  }

  /**
   * The base endpoint is cut off by its length, whatever characters the pathname
   * starts with: under base `/api`, `/v2/test` is dispatched as `test`.
   */
  lemma BaseCutByLength()
    ensures StripBase("/v2/test", "/api") == "test"
    ensures !("/api" <= "/v2/test") && MatchPath("/test", StripBase("/v2/test", "/api"))
    ensures StripBase("/api", "/api/") == ""
  {
    assert "/v2/test"[4..] == "test";
    assert "/v2/test"[1] != "/api"[1];
    TemplateMatchesStrippedPath();
  }

  // ---------------------------------------------------------------------------
  // the scenario of the package's test

  /** The one handler of the test: it answers `{message: query.test}`. */
  datatype EchoHandler = EchoQueryTest

  /** `obj[key]` on a JSON value, with None for `undefined`. */
  function Field(json: Json, key: string): (r: Option<Json>)
    ensures r.Some? <==> json.JObject? && key in Keys(json.members)
    ensures r.Some? ==> r == Lookup(json.members, key)
  {
    match json
    case JObject(members) => Lookup(members, key)
    case _ => None
  }

  /** `JSON.stringify({message: test})`: a member whose value is `undefined` is left out. */
  function MessageBody(test: Option<Json>): (body: Body)
    ensures body.Serialized? && body.json.JObject?
    ensures |body.json.members| == if test.Some? then 1 else 0
    ensures test.Some? ==> body.json.members[0] == ("message", test.value)
  {
    Serialized(JObject(if test.Some? then [("message", test.value)] else []))
  }

  const TestRoute := Route("GET", "/test", None, Some(Declared("{ test: string }")), None, None,
                           map[200 := Declared("{ message: string }")])

  const TestContract: seq<(string, Tree<Route>)> := [("get", Leaf(TestRoute))]

  const TestRouter: Impl<EchoHandler> := ImplObject([("get", Handler(EchoQueryTest))])

  /** `GET http://localhost:3000/test?test=test-query-string&foo=123`, with no headers and no body. */
  const TestRequest := Request("GET", "/test", [("test", "test-query-string"), ("foo", "123")], [], NoBody)

  /**
   * Collaborators for the scenario: schemas that accept what they are given, no path
   * parameters, and a body that is JSON only when it was serialized from JSON.
   */
  const TestEnv: Env<EchoHandler> := Env(
    (value: Json, schema: Option<Schema>, passThrough: bool) => Valid(value),
    (queryObject: Record<string>) => RecordJson(queryObject),
    (segments: seq<string>, route: Route) => JObject([]),
    (body: Body) => if body.Serialized? then Some(body.json) else None,
    (h: EchoHandler, args: Args) =>
      Returned(Response(200, [], MessageBody(Field(args.query, "test")))),
    (schema: Option<Schema>, status: int, json: Json) => Success((status, json)))

  /** With base endpoint `/`, the test request is answered with 200 and `{message: 'test-query-string'}`. */
  method ShouldSendBack200() returns (run: Run<EchoHandler>)
    ensures run.outcome == Responded(Response(200, [], Serialized(JObject([("message", JString("test-query-string"))]))))
    ensures run.reported.None?
  {
    var impl := TestRouter;
    assert TestContract[..0] == [];
    assert Property(impl, "get") == Success(Handler(EchoQueryTest));
    var endpoint := Endpoint(TestRoute, Handler(EchoQueryTest));
    assert MergeEntry(TestContract[0], impl) == Success(Leaf(endpoint));
    assert MergeSpec(TestContract[..0], impl) == Success([]);
    assert [] + [("get", Leaf(endpoint))] == [("get", Leaf(endpoint))];
    assert MergeSpec(TestContract, impl) == Success([("get", Leaf(endpoint))]);
    assert StripBase("/test", "/") == "test";
    TemplateMatchesStrippedPath();
    assert Located(TestContract, impl, TestRequest, "/") == Some(endpoint);
    TestQueryString();
    var checks := Validate(TestEnv, Options(false, false, false), TestRoute, TestRequest, "test");
    assert Rejection(checks).None?;
    var query := RecordJson([("test", "test-query-string"), ("foo", "123")]);
    assert HandlerArgs(checks, TestRequest).query == query;
    assert Field(query, "test") == Some(JString("test-query-string"));
    run := HandleRequest(TestContract, impl, TestRequest, "/", Options(false, false, false), TestEnv);
  }
}
