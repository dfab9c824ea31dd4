/** Route.php: one registered route. Its methods are stored upper-cased, its
    template's placeholder names are recorded when it is built, and middlewares
    are appended to it in place after registration (the router hands the Route
    object back so that the caller can chain `addMiddleware`). */
module Routes {
  import opened Wrappers
  import opened Strings
  import opened Template
  import opened Handlers

  /** The fields of a Route that dispatch reads, as a value. */
  datatype RouteValue = RouteValue(
    methods: seq<string>,
    uri: string,
    handler: Handler,
    middlewares: seq<string>)

  /** `matches($requestUri, $requestMethod)`: true exactly when the upper-cased
      request method is one of the route's methods and the whole path is the
      template with every placeholder replaced by a non-empty value without `/`
      (PCRE's `$` also lets one final newline follow). */
  predicate Accepts(rv: RouteValue, requestUri: string, requestMethod: string) {
    Upper(requestMethod) in rv.methods && Matches(Tokenize(rv.uri), requestUri)
  }

  /** What `matches` means: the method is accepted, and the path splits into the
      template's literal text and placeholder values. */
  lemma AcceptsIff(rv: RouteValue, requestUri: string, requestMethod: string)
    ensures Accepts(rv, requestUri, requestMethod) ==> Upper(requestMethod) in rv.methods
    ensures Accepts(rv, requestUri, requestMethod) ==> exists vals :: Splits(Tokenize(rv.uri), requestUri, vals)
    ensures Upper(requestMethod) in rv.methods && (exists vals :: Splits(Tokenize(rv.uri), requestUri, vals)) ==>
      Accepts(rv, requestUri, requestMethod)
  {
    MatchesIff(Tokenize(rv.uri), requestUri);
  }

  /** `getUriParameters($requestUri)`: the names bound to the captures, or an
      empty map when the path does not match. The method is not looked at. */
  function Parameters(rv: RouteValue, requestUri: string): (ps: map<string, string>)
    ensures forall n :: n in ps ==> n in Names(Tokenize(rv.uri))
    ensures Matches(Tokenize(rv.uri), requestUri) ==> forall n :: n in Names(Tokenize(rv.uri)) ==> n in ps
  {
    match Captures(Tokenize(rv.uri), requestUri)
    case Some(cs) =>
      BindLastWins(Names(Tokenize(rv.uri)), cs);
      Bind(Names(Tokenize(rv.uri)), cs)
    case None => map[]
  }

  /** The method comparison ignores case once methods are stored upper-cased:
      any spelling of the request method gives the same answer as its upper-cased form. */
  lemma MethodCaseInsensitive(rv: RouteValue, requestUri: string, requestMethod: string)
    ensures Accepts(rv, requestUri, requestMethod) == Accepts(rv, requestUri, Upper(requestMethod))
  {
    UpperIdempotent(requestMethod);
  }

  /** Real case-insensitivity: two spellings of a method that differ only in the
      case of ASCII letters get the same answer. */
  lemma MethodSpellings(rv: RouteValue, requestUri: string, m1: string, m2: string)
    requires SameUpToCase(m1, m2)
    ensures Accepts(rv, requestUri, m1) == Accepts(rv, requestUri, m2)
  {
    UpperEqIff(m1, m2);
  }

  /** A path that does not match yields no parameters. */
  lemma ParametersOfMismatch(rv: RouteValue, requestUri: string)
    requires !Matches(Tokenize(rv.uri), requestUri)
    ensures Parameters(rv, requestUri) == map[]
  {
  }

  /** Round trip: fill a template whose placeholders are each followed by `/` or
      by the end with non-empty, slash-free values; the parameters read back are
      exactly the names, each bound to its value (to the later one when a name repeats). */
  lemma ParametersRoundTrip(rv: RouteValue, vals: seq<string>)
    requires Separated(Tokenize(rv.uri)) && Fits(Tokenize(rv.uri), vals)
    ensures var names := Names(Tokenize(rv.uri));
      var ps := Parameters(rv, Fill(Tokenize(rv.uri), vals));
      (forall n :: n in ps <==> n in names) &&
      (forall i :: 0 <= i < |names| && (forall j :: i < j < |names| ==> names[j] != names[i]) ==>
        ps[names[i]] == vals[i])
  {
    CapturesFill(Tokenize(rv.uri), vals);
    BindLastWins(Names(Tokenize(rv.uri)), vals);
  }

  /** The message of the `InvalidArgumentException` thrown by `addMiddleware`. */
  function InvalidMiddleware(name: string): (message: string) {
    "Middleware '" + name + "' inválido. Deve implementar RouterX\\Middleware\\MiddlewareInterface"
  }

  class Route {
    const methods: seq<string>
    const uri: string
    const handler: Handler
    var middlewares: seq<string>
    const uriParams: seq<string>

    /** Methods are upper case, and the recorded names are those of the template. */
    predicate Valid() {
      && (forall i :: 0 <= i < |methods| ==> Upper(methods[i]) == methods[i])
      && uriParams == Names(Tokenize(uri))
    }

    function Value(): (v: RouteValue)
      reads this
    {
      RouteValue(methods, uri, handler, middlewares)
    }

    /** The placeholder names of `uri` are recorded, in order, when the route is built. */
    constructor (methods: seq<string>, uri: string, handler: Handler)
      ensures Valid()
      ensures Value() == RouteValue(UpperAll(methods), uri, handler, [])
    {
      this.methods := UpperAll(methods);
      this.handler := handler;
      this.middlewares := [];
      this.uri := uri;
      this.uriParams := Names(Tokenize(uri));
      UpperAllIsUpper(methods);
    }

    /** Appends `name` when it is a middleware class; otherwise fails with the
        `InvalidArgumentException` message and leaves the list unchanged. */
    method AddMiddleware(name: string, env: Env) returns (failure: Option<string>)
      modifies this`middlewares
      ensures failure.None? <==> name in env.middlewares
      ensures failure.Some? ==> failure.value == InvalidMiddleware(name)
      ensures middlewares == if failure.None? then old(middlewares) + [name] else old(middlewares)
    {
      if name !in env.middlewares {
        return Some(InvalidMiddleware(name));
      }
      middlewares := middlewares + [name];
      failure := None;
    }

    method GetMiddlewares() returns (mws: seq<string>)
      ensures mws == middlewares
    {
      mws := middlewares;
    }

    method GetHandler() returns (h: Handler)
      ensures h == handler
    {
      h := handler;
    }

    /** `matches($requestUri, $requestMethod)` on this route. */
    predicate Matches(requestUri: string, requestMethod: string): (b: bool)
      reads this
      ensures b <==> Upper(requestMethod) in methods && exists vals :: Splits(Tokenize(uri), requestUri, vals)
    {
      AcceptsIff(Value(), requestUri, requestMethod);
      Accepts(Value(), requestUri, requestMethod)
    }

    /** The loop pairing names with captures, by position. */
    method GetUriParameters(requestUri: string) returns (params: map<string, string>)
      requires Valid()
      ensures params == Parameters(Value(), requestUri)
    {
      params := map[];
      var captures := Captures(Tokenize(uri), requestUri);
      if captures.Some? {
        var matches := captures.value;
        var i := 0;
        while i < |uriParams|
          invariant 0 <= i <= |uriParams|
          invariant params == Bind(uriParams[..i], matches)
        {
          assert uriParams[..i + 1][..i] == uriParams[..i];
          if i < |matches| {
            params := params[uriParams[i] := matches[i]];
          }
          i := i + 1;
        }
        assert uriParams[..i] == uriParams;
      }
    }
  }

  /** The values of a list of routes, position by position. */
  function Values(rs: seq<Route>): (vs: seq<RouteValue>)
    reads rs
    ensures |vs| == |rs|
  {
    if rs == [] then [] else Values(rs[..|rs| - 1]) + [rs[|rs| - 1].Value()]
  }

  /** Appending a route appends its value. */
  lemma ValuesSnoc(rs: seq<Route>, r: Route)
    ensures Values(rs + [r]) == Values(rs) + [r.Value()]
  {
    assert (rs + [r])[..|rs|] == rs;
  }

  /** Position `i` of the values is the value of route `i`. */
  lemma {:induction false} ValuesAt(rs: seq<Route>, i: nat)
    requires i < |rs|
    ensures Values(rs)[i] == rs[i].Value()
    decreases |rs|
  {
    if i < |rs| - 1 {
      ValuesAt(rs[..|rs| - 1], i);
    }
  }
}
