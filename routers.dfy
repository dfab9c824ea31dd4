/** Router.php: an ordered list of routes registered under a base URI, groups
    that extend the base URI for the registrations they run, and `dispatch`,
    which serves a request with the first route that matches it.

    Registration is given as a script of commands (`Cmd`), standing for the
    user code that calls `get`, `post`, ..., `addMiddleware` and `group`; the
    function `Register` is its meaning, and `Router.RunScript` / `Router.Group`
    are proved to do what it says. `Serve` is the meaning of `dispatch`, and
    `Router.Dispatch` is proved to do what it says. */
module Routers {
  import opened Wrappers
  import opened Strings
  import opened Template
  import opened Responses
  import opened Handlers
  import opened Routes
  import opened Pipeline

  /** The request as dispatch sees it: method, path, and the parameters bound
      by the matched route (none until then). */
  datatype Request = Request(requestMethod: string, uri: string, uriParameters: map<string, string>)

  /** One registration made by user code:
      - `Add(methods, uri, handler, middlewares)`: `match($methods, $uri, $handler)`
        (or `get`, `post`, `put`, `delete`), then `addMiddleware` for each
        middleware in order, on the route just returned;
      - `Scoped(prefix, body)`: `group($prefix, $callback)` whose callback runs `body`. */
  datatype Cmd =
    | Add(methods: seq<string>, uri: string, handler: Handler, middlewares: seq<string>)
    | Scoped(prefix: string, body: seq<Cmd>)

  /** The router's registration state: its routes as values, its base URI, and
      the message of the exception that stopped registration, if any. */
  datatype Registry = Registry(table: seq<RouteValue>, base: string, failure: Option<string>)

  // ---------------------------------------------------------------------------
  // Registration.

  /** How many of `mws` `addMiddleware` accepts before the first one it rejects. */
  function ValidCount(env: Env, mws: seq<string>): (k: nat)
    ensures k <= |mws|
    ensures forall i :: 0 <= i < k ==> mws[i] in env.middlewares
    ensures k < |mws| ==> mws[k] !in env.middlewares
  {
    if mws == [] || mws[0] !in env.middlewares then 0 else 1 + ValidCount(env, mws[1..])
  }

  /** The meaning of a registration script. A route is appended under the base
      URI in force, with the middlewares accepted before the first rejected
      one; a rejected middleware throws, which ends the script. A group runs its
      body under `base . rtrim(prefix, '/')` and restores the base afterwards,
      but not when the body threw, as nothing in `group` catches. */
  function Register(env: Env, reg: Registry, cmds: seq<Cmd>): (r: Registry)
    ensures reg.table <= r.table
    ensures reg.failure.Some? ==> r == reg
    decreases cmds
  {
    if cmds == [] then reg
    else
      var before := Register(env, reg, cmds[..|cmds| - 1]);
      if before.failure.Some? then before
      else match cmds[|cmds| - 1]
        case Add(ms, uri, h, mws) =>
          var k := ValidCount(env, mws);
          before.(
            table := before.table + [RouteValue(UpperAll(ms), before.base + uri, h, mws[..k])],
            failure := if k < |mws| then Some(InvalidMiddleware(mws[k])) else None)
        case Scoped(p, body) =>
          var inner := Register(env, before.(base := before.base + RTrimSlash(p)), body);
          if inner.failure.Some? then inner else inner.(base := before.base)
  }

  /** A script is run command by command, and stops at the first that throws. */
  lemma RegisterSnoc(env: Env, reg: Registry, cmds: seq<Cmd>, c: Cmd)
    ensures Register(env, reg, cmds + [c]) ==
      if Register(env, reg, cmds).failure.Some? then Register(env, reg, cmds)
      else Register(env, Register(env, reg, cmds), [c])
  {
    assert (cmds + [c])[..|cmds|] == cmds;
    assert [c][..0] == [];
  }

  /** One registration: the route goes at the end, under the base URI, with the
      middlewares accepted before the first rejected one. */
  lemma RegisterAdd(env: Env, reg: Registry, ms: seq<string>, uri: string, h: Handler, mws: seq<string>)
    requires reg.failure.None?
    ensures Register(env, reg, [Add(ms, uri, h, mws)]) == reg.(
      table := reg.table + [RouteValue(UpperAll(ms), reg.base + uri, h, mws[..ValidCount(env, mws)])],
      failure := if ValidCount(env, mws) < |mws| then Some(InvalidMiddleware(mws[ValidCount(env, mws)])) else None)
  {
    assert [Add(ms, uri, h, mws)][..0] == [];
  }

  /** One group: its body runs under the extended base URI, which is restored
      unless the body threw. */
  lemma RegisterScoped(env: Env, reg: Registry, p: string, body: seq<Cmd>)
    requires reg.failure.None?
    ensures Register(env, reg, [Scoped(p, body)]) ==
      var inner := Register(env, reg.(base := reg.base + RTrimSlash(p)), body);
      if inner.failure.Some? then inner else inner.(base := reg.base)
  {
    assert [Scoped(p, body)][..0] == [];
  }

  lemma ConcatNoTrailingSlash(a: string, b: string)
    requires !EndsWithSlash(a) && !EndsWithSlash(b)
    ensures !EndsWithSlash(a + b)
  {
    if b != [] {
      assert (a + b)[|a + b| - 1] == b[|b| - 1];
    }
  }

  /** Registration only appends routes; every route it appends lies under the
      base URI it started from; the base URI never gains a trailing `/`; and a
      script that does not throw leaves the base URI as it found it. */
  lemma {:induction false} RegisterUnderBase(env: Env, reg: Registry, cmds: seq<Cmd>)
    requires reg.failure.None? && !EndsWithSlash(reg.base)
    ensures reg.table <= Register(env, reg, cmds).table
    ensures reg.base <= Register(env, reg, cmds).base
    ensures !EndsWithSlash(Register(env, reg, cmds).base)
    ensures forall i :: |reg.table| <= i < |Register(env, reg, cmds).table| ==>
      reg.base <= Register(env, reg, cmds).table[i].uri
    ensures Register(env, reg, cmds).failure.None? ==> Register(env, reg, cmds).base == reg.base
    decreases cmds, 0
  {
    if cmds != [] {
      var init, c := cmds[..|cmds| - 1], cmds[|cmds| - 1];
      var before := Register(env, reg, init);
      RegisterUnderBase(env, reg, init);
      assert cmds == init + [c];
      RegisterSnoc(env, reg, init, c);
      if before.failure.None? {
        match c
        case Add(ms, uri, h, mws) =>
          RegisterAdd(env, before, ms, uri, h, mws);
          AddUnderBase(env, reg, before, ms, uri, h, mws);
        case Scoped(p, body) =>
          RegisterScoped(env, before, p, body);
          ScopedUnderBase(env, reg, before, p, body);
      }
    }
  }

  /** The route step of `RegisterUnderBase`: a route added after `before` keeps
      the routes so far and lies under the base `reg` started from. */
  lemma AddUnderBase(env: Env, reg: Registry, before: Registry,
                     ms: seq<string>, uri: string, h: Handler, mws: seq<string>)
    requires before.failure.None? && before.base == reg.base
    requires reg.table <= before.table
    requires forall i :: |reg.table| <= i < |before.table| ==> reg.base <= before.table[i].uri
    ensures var after := before.table + [RouteValue(UpperAll(ms), before.base + uri, h, mws[..ValidCount(env, mws)])];
      && reg.table <= after
      && (forall i :: |reg.table| <= i < |after| ==> reg.base <= after[i].uri)
  {
    var after := before.table + [RouteValue(UpperAll(ms), before.base + uri, h, mws[..ValidCount(env, mws)])];
    forall i | |reg.table| <= i < |after|
      ensures reg.base <= after[i].uri
    {
      if i < |before.table| {
        assert after[i] == before.table[i];
      }
    }
  }

  /** The group step of `RegisterUnderBase`: a group run after `before` keeps
      the routes so far and adds routes under the base `reg` started from. */
  lemma ScopedUnderBase(env: Env, reg: Registry, before: Registry, p: string, body: seq<Cmd>)
    requires before.failure.None? && before.base == reg.base && !EndsWithSlash(reg.base)
    requires reg.table <= before.table
    requires forall i :: |reg.table| <= i < |before.table| ==> reg.base <= before.table[i].uri
    ensures var inner := Register(env, before.(base := before.base + RTrimSlash(p)), body);
      && reg.table <= inner.table
      && reg.base <= inner.base
      && !EndsWithSlash(inner.base)
      && (forall i :: |reg.table| <= i < |inner.table| ==> reg.base <= inner.table[i].uri)
    decreases body, 1
  {
    var reg' := before.(base := before.base + RTrimSlash(p));
    ConcatNoTrailingSlash(before.base, RTrimSlash(p));
    RegisterUnderBase(env, reg', body);
    var inner := Register(env, reg', body);
    forall i | |reg.table| <= i < |inner.table|
      ensures reg.base <= inner.table[i].uri
    {
      if i < |before.table| {
        assert inner.table[i] == before.table[i];
      } else {
        assert reg'.base <= inner.table[i].uri;
      }
    }
  }

  /** A group registers every route of its body under `base . rtrim(prefix, '/')`,
      and afterwards, unless its body threw, the base URI is what it was before. */
  lemma GroupUnderPrefix(env: Env, reg: Registry, prefix: string, body: seq<Cmd>)
    requires reg.failure.None? && !EndsWithSlash(reg.base)
    ensures reg.table <= Register(env, reg, [Scoped(prefix, body)]).table
    ensures forall i :: |reg.table| <= i < |Register(env, reg, [Scoped(prefix, body)]).table| ==>
      reg.base + RTrimSlash(prefix) <= Register(env, reg, [Scoped(prefix, body)]).table[i].uri
    ensures Register(env, reg, [Scoped(prefix, body)]).failure.None? ==>
      Register(env, reg, [Scoped(prefix, body)]).base == reg.base
  {
    RegisterScoped(env, reg, prefix, body);
    var reg' := reg.(base := reg.base + RTrimSlash(prefix));
    ConcatNoTrailingSlash(reg.base, RTrimSlash(prefix));
    RegisterUnderBase(env, reg', body);
  }

  /** Every middleware of every route can be instantiated. */
  predicate AllInstantiable(env: Env, table: seq<RouteValue>) {
    forall i :: 0 <= i < |table| ==> Instantiable(env, table[i].middlewares)
  }

  /** The middlewares `addMiddleware` accepted can be instantiated. */
  lemma AcceptedInstantiable(env: Env, mws: seq<string>)
    ensures Instantiable(env, mws[..ValidCount(env, mws)])
  {
    var k := ValidCount(env, mws);
    forall i | 0 <= i < k ensures mws[..k][i] in env.middlewares {
      assert mws[..k][i] == mws[i];
    }
  }

  lemma AllInstantiableSnoc(env: Env, table: seq<RouteValue>, rv: RouteValue)
    requires AllInstantiable(env, table) && Instantiable(env, rv.middlewares)
    ensures AllInstantiable(env, table + [rv])
  {
    assert forall i :: 0 <= i < |table| ==> (table + [rv])[i] == table[i];
  }

  /** Registration keeps only middlewares `addMiddleware` accepted, so every
      middleware of a registered route can be instantiated when dispatch builds
      its chain. */
  lemma {:induction false} RegisterInstantiable(env: Env, reg: Registry, cmds: seq<Cmd>)
    requires AllInstantiable(env, reg.table)
    ensures AllInstantiable(env, Register(env, reg, cmds).table)
    decreases cmds
  {
    if cmds != [] {
      var before := Register(env, reg, cmds[..|cmds| - 1]);
      var c := cmds[|cmds| - 1];
      RegisterInstantiable(env, reg, cmds[..|cmds| - 1]);
      assert cmds == cmds[..|cmds| - 1] + [c];
      RegisterSnoc(env, reg, cmds[..|cmds| - 1], c);
      if before.failure.None? {
        match c
        case Add(ms, uri, h, mws) =>
          RegisterAdd(env, before, ms, uri, h, mws);
          AcceptedInstantiable(env, mws);
          var rv := RouteValue(UpperAll(ms), before.base + uri, h, mws[..ValidCount(env, mws)]);
          AllInstantiableSnoc(env, before.table, rv);
        case Scoped(p, body) =>
          RegisterScoped(env, before, p, body);
          RegisterInstantiable(env, before.(base := before.base + RTrimSlash(p)), body);
      }
    }
  }

  /** Groups nest: a route registered as `/c` inside `group('/b')`, itself
      inside `group('/a/')`, gets the template `base/a/b/c`, and the base is
      restored. */
  lemma NestedGroups(env: Env, reg: Registry, ms: seq<string>, h: Handler)
    requires reg.failure.None?
    ensures Register(env, reg, [Scoped("/a/", [Scoped("/b", [Add(ms, "/c", h, [])])])]) ==
      reg.(table := reg.table + [RouteValue(UpperAll(ms), reg.base + "/a/b/c", h, [])])
  {
    assert RTrimSlash("/a") == "/a";
    assert RTrimSlash("/a/") == "/a";
    assert RTrimSlash("/b") == "/b";
    var inner := [Add(ms, "/c", h, [])];
    var middle := [Scoped("/b", inner)];
    var ra := reg.(base := reg.base + "/a");
    var rb := ra.(base := ra.base + "/b");
    var none: seq<string> := [];
    assert none[..0] == [];
    var rc := rb.(table := rb.table + [RouteValue(UpperAll(ms), rb.base + "/c", h, [])]);
    RegisterAdd(env, rb, ms, "/c", h, []);
    assert Register(env, rb, inner) == rc;
    RegisterScoped(env, ra, "/b", inner);
    assert Register(env, ra, middle) == rc.(base := ra.base);
    RegisterScoped(env, reg, "/a/", middle);
    assert reg.base + "/a" + "/b" + "/c" == reg.base + "/a/b/c";
  }

  // ---------------------------------------------------------------------------
  // Dispatch.

  /** The position of the first route that accepts the request, in registration order. */
  function FirstMatch(table: seq<RouteValue>, uri: string, requestMethod: string): (k: Option<nat>)
    ensures k.Some? ==> k.value < |table| && Accepts(table[k.value], uri, requestMethod)
    ensures k.Some? ==> forall j :: 0 <= j < k.value ==> !Accepts(table[j], uri, requestMethod)
    ensures k.None? ==> forall j :: 0 <= j < |table| ==> !Accepts(table[j], uri, requestMethod)
  {
    if table == [] then None
    else if Accepts(table[0], uri, requestMethod) then Some(0)
    else match FirstMatch(table[1..], uri, requestMethod)
      case Some(k) => Some(k + 1)
      case None => None
  }

  /** The search result at position `k`: the route there accepts and none
      before it does, or, at the end of the table, none accepts at all. */
  lemma FirstMatchAt(table: seq<RouteValue>, uri: string, requestMethod: string, k: nat)
    requires k <= |table| && forall j :: 0 <= j < k ==> !Accepts(table[j], uri, requestMethod)
    requires k < |table| ==> Accepts(table[k], uri, requestMethod)
    ensures FirstMatch(table, uri, requestMethod) == if k < |table| then Some(k) else None
  {
  }

  /** How a dispatch ends:
      - `Sent`: the response was sent and dispatch returned;
      - `Recovered(m)`: an `\Exception` with message `m` was caught and a 500 sent;
      - `Uncaught(m)`: the not-found handler threw, out of dispatch, before any send;
      - `Fatal`: a PHP `\Error`, which `catch (\Exception $e)` does not catch;
      - `Halted`: `redirect` sent the response and ended the process. */
  datatype Ending = Sent | Recovered(message: string) | Uncaught(message: string) | Fatal | Halted

  /** The result of a dispatch: the matched route's position, the request with
      its bound parameters, the callables entered, the last state of the
      response, the output and the ending. */
  datatype Served = Served(
    matched: Option<nat>,
    request: Request,
    trace: seq<string>,
    state: ResponseState,
    log: seq<Emission>,
    ending: Ending)

  const NotFoundBody := "404 - Not Found"

  function InternalError(message: string): (body: string) {
    "Erro interno: " + message
  }

  /** How the part of dispatch after the route search ends: the callables
      entered, the last state of the response, the output and the ending. */
  datatype Finish = Finish(trace: seq<string>, state: ResponseState, log: seq<Emission>, ending: Ending)

  /** The end of the `try` block, or of its `catch`: the response is sent once
      exactly when the block returned or an exception was caught, and a caught
      exception leaves status 500 with its message. */
  function Conclude(r: Run): (f: Finish)
    ensures f.trace == r.trace
    ensures (r.outcome.Returned? || r.outcome.Raised?) ==> f.log == r.log + [Snapshot(f.state)]
    ensures (r.outcome.Crashed? || r.outcome.Exited?) ==> f.log == r.log
    ensures f.ending.Recovered? ==> f.state.status == 500 && f.state.content == InternalError(f.ending.message)
  {
    match r.outcome
    case Returned => Finish(r.trace, r.state, r.log + [Snapshot(r.state)], Sent)
    case Raised(m) =>
      var st := WithContent(WithStatus(r.state, 500), InternalError(m));
      Finish(r.trace, st, r.log + [Snapshot(st)], Recovered(m))
    case Crashed => Finish(r.trace, r.state, r.log, Fatal)
    case Exited => Finish(r.trace, r.state, r.log, Halted)
  }

  /** The `try` block for a matched route and its `catch`: build the chain and
      run it on a fresh Response. */
  function RouteFinish(env: Env, rv: RouteValue, log0: seq<Emission>): (f: Finish)
    ensures log0 <= f.log
    ensures f.ending.Recovered? ==> f.state.status == 500 && f.state.content == InternalError(f.ending.message)
    ensures !f.ending.Uncaught?
  {
    if Instantiable(env, rv.middlewares) then
      Conclude(Start(env, Fold(env, rv.middlewares, rv.handler), Run(Initial, log0, [], Returned)))
    else Finish([], Initial, log0, Fatal)
  }

  /** What follows the `foreach` when no route matched. Nothing catches there. */
  function MissingFinish(notFound: Option<seq<Action>>, log0: seq<Emission>): (f: Finish)
    ensures log0 <= f.log
    ensures !f.ending.Recovered?
  {
    match notFound
    case Some(body) =>
      var r := PerformAll(body, Run(Initial, log0, [], Returned));
      (match r.outcome
       case Returned => Finish(r.trace, r.state, r.log + [Snapshot(r.state)], Sent)
       case Raised(m) => Finish(r.trace, r.state, r.log, Uncaught(m))
       case Crashed => Finish(r.trace, r.state, r.log, Fatal)
       case Exited => Finish(r.trace, r.state, r.log, Halted))
    case None =>
      var st := WithContent(WithStatus(Initial, 404), NotFoundBody);
      Finish([], st, log0 + [Snapshot(st)], Sent)
  }

  function Complete(matched: Option<nat>, request: Request, f: Finish): (s: Served) {
    Served(matched, request, f.trace, f.state, f.log, f.ending)
  }

  /** The meaning of `dispatch` for a request with the given method and path,
      on a fresh Response, after `log0` has been sent. */
  function Serve(env: Env, table: seq<RouteValue>, notFound: Option<seq<Action>>,
                 requestMethod: string, uri: string, log0: seq<Emission>): (s: Served)
    ensures s.matched == FirstMatch(table, uri, requestMethod)
    ensures s.request.requestMethod == requestMethod && s.request.uri == uri
    ensures log0 <= s.log && |s.log| <= |log0| + 1
  {
    match FirstMatch(table, uri, requestMethod)
    case Some(k) =>
      RouteFinishSends(env, table[k], log0);
      Complete(Some(k), Request(requestMethod, uri, Parameters(table[k], uri)), RouteFinish(env, table[k], log0))
    case None =>
      MissingFinishSends(notFound, log0);
      Complete(None, Request(requestMethod, uri, map[]), MissingFinish(notFound, log0))
  }

  /** The `try` block and its `catch` add at most one emission to the output. */
  lemma RouteFinishSends(env: Env, rv: RouteValue, log0: seq<Emission>)
    ensures log0 <= RouteFinish(env, rv, log0).log && |RouteFinish(env, rv, log0).log| <= |log0| + 1
  {
    if Instantiable(env, rv.middlewares) {
      StartSends(env, Fold(env, rv.middlewares, rv.handler), Run(Initial, log0, [], Returned));
    }
  }

  /** The not-found branch adds at most one emission to the output. */
  lemma MissingFinishSends(notFound: Option<seq<Action>>, log0: seq<Emission>)
    ensures log0 <= MissingFinish(notFound, log0).log && |MissingFinish(notFound, log0).log| <= |log0| + 1
  {
    if notFound.Some? {
      PerformAllSends(notFound.value, Run(Initial, log0, [], Returned));
    }
  }

  /** The matched case of `Serve`, by position. */
  lemma ServeFound(env: Env, table: seq<RouteValue>, notFound: Option<seq<Action>>,
                   requestMethod: string, uri: string, log0: seq<Emission>, k: nat)
    requires FirstMatch(table, uri, requestMethod) == Some(k)
    ensures k < |table|
    ensures Serve(env, table, notFound, requestMethod, uri, log0) ==
      Complete(Some(k), Request(requestMethod, uri, Parameters(table[k], uri)), RouteFinish(env, table[k], log0))
  {
  }

  /** Dispatch sends at most once: exactly once, the last state of the response,
      unless a PHP `\Error` or an exception out of the not-found handler ends it,
      in which case nothing is sent. */
  lemma ServeSendsOnce(env: Env, table: seq<RouteValue>, notFound: Option<seq<Action>>,
                       requestMethod: string, uri: string, log0: seq<Emission>)
    ensures var s := Serve(env, table, notFound, requestMethod, uri, log0);
      (s.ending.Fatal? || s.ending.Uncaught?) ==> s.log == log0
    ensures var s := Serve(env, table, notFound, requestMethod, uri, log0);
      !(s.ending.Fatal? || s.ending.Uncaught?) ==> s.log == log0 + [Snapshot(s.state)]
  {
    var r0 := Run(Initial, log0, [], Returned);
    match FirstMatch(table, uri, requestMethod)
    case Some(k) =>
      var rv := table[k];
      if Instantiable(env, rv.middlewares) {
        StartSends(env, Fold(env, rv.middlewares, rv.handler), r0);
      }
    case None =>
      if notFound.Some? {
        PerformAllSends(notFound.value, r0);
      }
  }

  lemma {:induction false} FirstMatchExtend(table: seq<RouteValue>, more: seq<RouteValue>, uri: string, requestMethod: string)
    requires FirstMatch(table, uri, requestMethod).Some?
    ensures FirstMatch(table + more, uri, requestMethod) == FirstMatch(table, uri, requestMethod)
  {
    assert (table + more)[0] == table[0];
    if !Accepts(table[0], uri, requestMethod) {
      assert (table + more)[1..] == table[1..] + more;
      FirstMatchExtend(table[1..], more, uri, requestMethod);
    }
  }

  /** The first route that accepts the request serves it: routes registered after
      it make no difference. */
  lemma ServeIgnoresLaterRoutes(env: Env, table: seq<RouteValue>, more: seq<RouteValue>,
                                notFound: Option<seq<Action>>, requestMethod: string, uri: string,
                                log0: seq<Emission>)
    requires FirstMatch(table, uri, requestMethod).Some?
    ensures Serve(env, table + more, notFound, requestMethod, uri, log0) ==
      Serve(env, table, notFound, requestMethod, uri, log0)
  {
    var k := FirstMatch(table, uri, requestMethod).value;
    FirstMatchExtend(table, more, uri, requestMethod);
    assert (table + more)[k] == table[k];
  }

  /** The request's parameters are those of the matched route, and stay empty
      when no route matches; the matched route is the first that accepts. */
  lemma ServeBindsParameters(env: Env, table: seq<RouteValue>, notFound: Option<seq<Action>>,
                             requestMethod: string, uri: string, log0: seq<Emission>)
    ensures var s := Serve(env, table, notFound, requestMethod, uri, log0);
      s.matched.None? ==> s.request == Request(requestMethod, uri, map[])
    ensures var s := Serve(env, table, notFound, requestMethod, uri, log0);
      s.matched.Some? ==>
        && s.matched.value < |table|
        && Accepts(table[s.matched.value], uri, requestMethod)
        && (forall j :: 0 <= j < s.matched.value ==> !Accepts(table[j], uri, requestMethod))
        && s.request == Request(requestMethod, uri, Parameters(table[s.matched.value], uri))
  {
  }

  /** A route whose template has each placeholder followed by `/` or the end,
      requested with a method it accepts (in any case) on the template filled
      with non-empty, slash-free values, is matched, and binds each name to its
      value (the later value for a repeated name). */
  lemma ServeFilledTemplate(env: Env, rv: RouteValue, notFound: Option<seq<Action>>,
                            requestMethod: string, vals: seq<string>, log0: seq<Emission>)
    requires Separated(Tokenize(rv.uri)) && Fits(Tokenize(rv.uri), vals)
    requires Upper(requestMethod) in rv.methods
    ensures var uri := Fill(Tokenize(rv.uri), vals);
      var s := Serve(env, [rv], notFound, requestMethod, uri, log0);
      var names := Names(Tokenize(rv.uri));
      && s.matched == Some(0)
      && (forall n :: n in s.request.uriParameters <==> n in names)
      && (forall i :: 0 <= i < |names| && (forall j :: i < j < |names| ==> names[j] != names[i]) ==>
            s.request.uriParameters[names[i]] == vals[i])
  {
    var uri := Fill(Tokenize(rv.uri), vals);
    CapturesFill(Tokenize(rv.uri), vals);
    assert FirstMatch([rv], uri, requestMethod) == Some(0);
    ServeBindsParameters(env, [rv], notFound, requestMethod, uri, log0);
    ParametersRoundTrip(rv, vals);
  }

  /** With no route matching and no not-found handler, a 404 with the body
      `404 - Not Found` and no headers is sent. */
  lemma ServeNotFound(env: Env, table: seq<RouteValue>, requestMethod: string, uri: string, log0: seq<Emission>)
    requires forall j :: 0 <= j < |table| ==> !Accepts(table[j], uri, requestMethod)
    ensures Serve(env, table, None, requestMethod, uri, log0).log == log0 + [Emission(404, [], "404 - Not Found")]
    ensures Serve(env, table, None, requestMethod, uri, log0).ending == Sent
  {
    assert HeaderLines([]) == [];
  }

  /** The not-found handler's return value is ignored: the response it was given
      is sent as it left it. */
  lemma ServeNotFoundHandler(env: Env, table: seq<RouteValue>, body: seq<Action>,
                             requestMethod: string, uri: string, log0: seq<Emission>)
    requires forall j :: 0 <= j < |table| ==> !Accepts(table[j], uri, requestMethod)
    requires forall i :: 0 <= i < |body| ==> !body[i].Redirect? && !body[i].Throw?
    ensures Serve(env, table, Some(body), requestMethod, uri, log0).ending == Sent
    ensures Serve(env, table, Some(body), requestMethod, uri, log0).log ==
      log0 + [Snapshot(PerformAll(body, Run(Initial, log0, [], Returned)).state)]
  {
    PerformAllReturns(body, Run(Initial, log0, [], Returned));
  }

  lemma {:induction false} PerformAllReturns(acts: seq<Action>, r: Run)
    requires forall i :: 0 <= i < |acts| ==> !acts[i].Redirect? && !acts[i].Throw?
    requires r.outcome.Returned?
    ensures PerformAll(acts, r).outcome.Returned?
    ensures PerformAll(acts, r).log == r.log
    decreases |acts|
  {
    if acts != [] {
      PerformAllReturns(acts[1..], Perform(acts[0], r));
    }
  }

  /** Any `\Exception` out of the chain of the matched route, thrown by a
      middleware or by the handler, is caught: the response the chain left gets
      status 500 and the body `Erro interno: ` plus the message, keeps its
      headers, and is sent once. */
  lemma ServeRecovers(env: Env, table: seq<RouteValue>, notFound: Option<seq<Action>>,
                      requestMethod: string, uri: string, log0: seq<Emission>, k: nat, message: string)
    requires FirstMatch(table, uri, requestMethod) == Some(k)
    requires Instantiable(env, table[k].middlewares)
    requires Start(env, Fold(env, table[k].middlewares, table[k].handler), Run(Initial, log0, [], Returned)).outcome
      == Raised(message)
    ensures var r := Start(env, Fold(env, table[k].middlewares, table[k].handler), Run(Initial, log0, [], Returned));
      var s := Serve(env, table, notFound, requestMethod, uri, log0);
      && s.ending == Recovered(message)
      && s.state.status == 500
      && s.state.content == InternalError(message)
      && s.state.headers == r.state.headers
      && s.log == log0 + [Snapshot(s.state)]
      && s.trace == r.trace
  {
    ServeFound(env, table, notFound, requestMethod, uri, log0, k);
    StartSends(env, Fold(env, table[k].middlewares, table[k].handler), Run(Initial, log0, [], Returned));
  }

  /** An exception thrown by a handler after it set a header yields a 500 whose
      body carries the message, and the header set before the exception is still sent. */
  lemma HeadersSurviveError(env: Env, rv: RouteValue, requestMethod: string, uri: string,
                            name: string, headerName: string, headerValue: string, message: string,
                            notFound: Option<seq<Action>>, log0: seq<Emission>)
    requires Accepts(rv, uri, requestMethod)
    requires rv.middlewares == []
    requires rv.handler == Closure(name, [SetHeader(headerName, headerValue), Throw(message)])
    ensures var s := Serve(env, [rv], notFound, requestMethod, uri, log0);
      && s.ending == Recovered(message)
      && s.state.status == 500
      && s.state.content == "Erro interno: " + message
      && Lookup(s.state.headers, headerName) == Some(headerValue)
      && s.log == log0 + [Snapshot(s.state)]
      && s.trace == [name]
  {
    var r0 := Run(Initial, log0, [], Returned);
    assert FirstMatch([rv], uri, requestMethod) == Some(0);
    var acts := [SetHeader(headerName, headerValue), Throw(message)];
    var r1 := Enter(r0, name);
    var r2 := Perform(acts[0], r1);
    var r3 := Perform(acts[1], r2);
    assert acts[1..][1..] == [];
    assert PerformAll(acts[1..], r2) == r3;
    assert Start(env, Fold(env, [], rv.handler), r0) == r3;
    PutLookup([], headerName, headerValue, headerName);
  }

  /** A handler that is neither a Closure nor a `[Class, 'method']` array of an
      existing class, nor `[$object, 'method']`, throws `Handler de rota
      inválido.` when no middleware wraps it, even when it is callable; the
      `catch` turns that into a 500 carrying the message. */
  lemma ServeInvalidHandler(env: Env, rv: RouteValue, notFound: Option<seq<Action>>,
                            requestMethod: string, uri: string, log0: seq<Emission>)
    requires Accepts(rv, uri, requestMethod) && rv.middlewares == []
    requires rv.handler.Other? || rv.handler.Callable? || (rv.handler.Controller? && rv.handler.cls !in env.classes)
    ensures var s := Serve(env, [rv], notFound, requestMethod, uri, log0);
      && s.ending == Recovered(InvalidHandler)
      && s.state == ResponseState(500, [], InternalError(InvalidHandler))
      && s.log == log0 + [Emission(500, [], InternalError(InvalidHandler))]
      && s.trace == []
  {
    var r0 := Run(Initial, log0, [], Returned);
    assert FirstMatch([rv], uri, requestMethod) == Some(0);
    ServeFound(env, [rv], notFound, requestMethod, uri, log0, 0);
    var r1 := r0.(outcome := Raised(InvalidHandler));
    assert Start(env, Fold(env, [], rv.handler), r0) == r1;
    var st := WithContent(WithStatus(Initial, 500), InternalError(InvalidHandler));
    assert RouteFinish(env, rv, log0) == Finish([], st, log0 + [Snapshot(st)], Recovered(InvalidHandler));
    assert HeaderLines([]) == [];
  }

  /** Middleware order at dispatch: when the route's middleware at position `i`
      does not call `$next` and every middleware added after it does only that,
      the callables entered are the middlewares from the last down to `i`, and
      neither the earlier middlewares nor the handler run. */
  lemma ServeShortCircuit(env: Env, rv: RouteValue, notFound: Option<seq<Action>>,
                          requestMethod: string, uri: string, i: nat, log0: seq<Emission>)
    requires Accepts(rv, uri, requestMethod)
    requires Instantiable(env, rv.middlewares) && i < |rv.middlewares|
    requires forall k :: 0 <= k < |env.middlewares[rv.middlewares[i]]| ==> env.middlewares[rv.middlewares[i]][k].Do?
    requires AllPassThrough(env, rv.middlewares[i + 1..])
    ensures Serve(env, [rv], notFound, requestMethod, uri, log0).trace == Reversed(rv.middlewares[i..])
  {
    var r0 := Run(Initial, log0, [], Returned);
    assert FirstMatch([rv], uri, requestMethod) == Some(0);
    ServeFound(env, [rv], notFound, requestMethod, uri, log0, 0);
    ShortCircuitInChain(env, rv.middlewares, rv.handler, i, r0);
  }

  // ---------------------------------------------------------------------------
  // The router object.

  /** The user's `->addMiddleware(a)->addMiddleware(b)...` on a route just
      registered: stops at the first rejected name. */
  method AddMiddlewares(route: Route, env: Env, mws: seq<string>) returns (failure: Option<string>)
    modifies route`middlewares
    ensures route.middlewares == old(route.middlewares) + mws[..ValidCount(env, mws)]
    ensures failure == if ValidCount(env, mws) < |mws| then Some(InvalidMiddleware(mws[ValidCount(env, mws)])) else None
  {
    failure := None;
    var i := 0;
    while i < |mws|
      invariant 0 <= i <= |mws|
      invariant forall j :: 0 <= j < i ==> mws[j] in env.middlewares
      invariant route.middlewares == old(route.middlewares) + mws[..i]
      invariant failure.None?
    {
      failure := route.AddMiddleware(mws[i], env);
      if failure.Some? {
        assert ValidCount(env, mws) == i;
        return;
      }
      assert mws[..i + 1] == mws[..i] + [mws[i]];
      i := i + 1;
    }
    assert mws[..i] == mws;
  }

  class Router {
    var routes: seq<Route>
    var baseUri: string
    var notFoundHandler: Option<seq<Action>>

    /** Each route is a well-formed Route, and the base URI never ends with `/`. */
    ghost predicate Valid()
      reads this
    {
      && (forall i :: 0 <= i < |routes| ==> routes[i].Valid())
      && !EndsWithSlash(baseUri)
    }

    /** The routes as values, in registration order. */
    function Table(): (t: seq<RouteValue>)
      reads this`routes, routes
    {
      Values(routes)
    }

    constructor (baseUri: string := "")
      ensures Valid()
      ensures routes == [] && this.baseUri == RTrimSlash(baseUri) && notFoundHandler == None
    {
      routes := [];
      this.baseUri := RTrimSlash(baseUri);
      notFoundHandler := None;
    }

    /** `match($methods, $uri, $handler)`. */
    method Match(methods: seq<string>, uri: string, handler: Handler) returns (route: Route)
      requires Valid()
      modifies this
      ensures Valid() && fresh(route)
      ensures routes == old(routes) + [route]
      ensures route.Value() == RouteValue(UpperAll(methods), old(baseUri) + uri, handler, [])
      ensures Table() == old(Table()) + [route.Value()]
      ensures baseUri == old(baseUri) && notFoundHandler == old(notFoundHandler)
    {
      ghost var t0 := Table();
      route := new Route(methods, baseUri + uri, handler);
      assert Values(routes) == t0;
      ValuesSnoc(routes, route);
      routes := routes + [route];
    }

    /** `addRoute($method, $uri, $handler)`: a route for the one method. */
    method AddRoute(m: string, uri: string, handler: Handler) returns (route: Route)
      requires Valid()
      modifies this
      ensures Valid() && fresh(route)
      ensures routes == old(routes) + [route]
      ensures Table() == old(Table()) + [RouteValue([Upper(m)], old(baseUri) + uri, handler, [])]
      ensures baseUri == old(baseUri) && notFoundHandler == old(notFoundHandler)
    {
      route := Match([m], uri, handler);
      assert UpperAll([m]) == [Upper(m)];
    }

    method Get(uri: string, handler: Handler) returns (route: Route)
      requires Valid()
      modifies this
      ensures Valid() && fresh(route)
      ensures routes == old(routes) + [route]
      ensures Table() == old(Table()) + [RouteValue(["GET"], old(baseUri) + uri, handler, [])]
      ensures baseUri == old(baseUri) && notFoundHandler == old(notFoundHandler)
    {
      UpperFixes("GET");
      route := AddRoute("GET", uri, handler);
    }

    method Post(uri: string, handler: Handler) returns (route: Route)
      requires Valid()
      modifies this
      ensures Valid() && fresh(route)
      ensures routes == old(routes) + [route]
      ensures Table() == old(Table()) + [RouteValue(["POST"], old(baseUri) + uri, handler, [])]
      ensures baseUri == old(baseUri) && notFoundHandler == old(notFoundHandler)
    {
      UpperFixes("POST");
      route := AddRoute("POST", uri, handler);
    }

    method Put(uri: string, handler: Handler) returns (route: Route)
      requires Valid()
      modifies this
      ensures Valid() && fresh(route)
      ensures routes == old(routes) + [route]
      ensures Table() == old(Table()) + [RouteValue(["PUT"], old(baseUri) + uri, handler, [])]
      ensures baseUri == old(baseUri) && notFoundHandler == old(notFoundHandler)
    {
      UpperFixes("PUT");
      route := AddRoute("PUT", uri, handler);
    }

    method Delete(uri: string, handler: Handler) returns (route: Route)
      requires Valid()
      modifies this
      ensures Valid() && fresh(route)
      ensures routes == old(routes) + [route]
      ensures Table() == old(Table()) + [RouteValue(["DELETE"], old(baseUri) + uri, handler, [])]
      ensures baseUri == old(baseUri) && notFoundHandler == old(notFoundHandler)
    {
      UpperFixes("DELETE");
      route := AddRoute("DELETE", uri, handler);
    }

    /** Runs a registration script on this router, as the user code it stands for would. */
    method RunScript(env: Env, cmds: seq<Cmd>) returns (failure: Option<string>)
      requires Valid()
      modifies this
      ensures Valid()
      ensures Registry(Table(), baseUri, failure) == Register(env, Registry(old(Table()), old(baseUri), None), cmds)
      ensures notFoundHandler == old(notFoundHandler)
      decreases cmds, 2
    {
      failure := None;
      var i := 0;
      ghost var reg0 := Registry(Table(), baseUri, None);
      while i < |cmds| && failure.None?
        invariant 0 <= i <= |cmds|
        invariant Valid()
        invariant Registry(Table(), baseUri, failure) == Register(env, reg0, cmds[..i])
        invariant notFoundHandler == old(notFoundHandler)
      {
        assert cmds[..i + 1] == cmds[..i] + [cmds[i]];
        RegisterSnoc(env, reg0, cmds[..i], cmds[i]);
        failure := RunCommand(env, cmds, i);
        i := i + 1;
      }
      if i < |cmds| {
        RegisterStops(env, reg0, cmds, i);
      } else {
        assert cmds[..i] == cmds;
      }
    }

    /** One command of a script: a route registration or a group. */
    method RunCommand(env: Env, cmds: seq<Cmd>, i: nat) returns (failure: Option<string>)
      requires Valid() && i < |cmds|
      modifies this
      ensures Valid()
      ensures Registry(Table(), baseUri, failure) == Register(env, Registry(old(Table()), old(baseUri), None), [cmds[i]])
      ensures notFoundHandler == old(notFoundHandler)
      decreases cmds, 1
    {
      match cmds[i] {
        case Add(ms, uri, h, mws) =>
          RegisterAdd(env, Registry(Table(), baseUri, None), ms, uri, h, mws);
          failure := AddCommand(env, ms, uri, h, mws);
        case Scoped(p, body) =>
          failure := Group(env, p, body);
      }
    }

    /** `match($methods, $uri, $handler)->addMiddleware(...)...`, as one command of a script. */
    method AddCommand(env: Env, ms: seq<string>, uri: string, h: Handler, mws: seq<string>)
      returns (failure: Option<string>)
      requires Valid()
      modifies this
      ensures Valid()
      ensures Table() == old(Table()) + [RouteValue(UpperAll(ms), old(baseUri) + uri, h, mws[..ValidCount(env, mws)])]
      ensures failure == if ValidCount(env, mws) < |mws| then Some(InvalidMiddleware(mws[ValidCount(env, mws)])) else None
      ensures baseUri == old(baseUri) && notFoundHandler == old(notFoundHandler)
    {
      ghost var rs0, t0 := routes, Table();
      var route := Match(ms, uri, h);
      ghost var v0 := route.Value();
      failure := AddMiddlewares(route, env, mws);
      assert route.Value() == v0.(middlewares := mws[..ValidCount(env, mws)]);
      ValuesSnoc(rs0, route);
      assert Values(rs0) == t0;
    }

    /** `group($prefix, $callback)` with a callback that runs `body`. */
    method Group(env: Env, prefix: string, body: seq<Cmd>) returns (failure: Option<string>)
      requires Valid()
      modifies this
      ensures Valid()
      ensures Registry(Table(), baseUri, failure) ==
        Register(env, Registry(old(Table()), old(baseUri), None), [Scoped(prefix, body)])
      ensures notFoundHandler == old(notFoundHandler)
      decreases body, 3
    {
      ghost var t0 := Table();
      RegisterScoped(env, Registry(t0, baseUri, None), prefix, body);
      var previous := baseUri;
      ConcatNoTrailingSlash(baseUri, RTrimSlash(prefix));
      baseUri := baseUri + RTrimSlash(prefix);
      assert Table() == t0;
      failure := RunScript(env, body);
      ghost var inner := Registry(Table(), baseUri, failure);
      assert inner == Register(env, Registry(t0, previous + RTrimSlash(prefix), None), body);
      if failure.None? {
        baseUri := previous;
        assert Registry(Table(), baseUri, failure) == inner.(base := previous);
      }
    }

    method SetNotFoundHandler(handler: seq<Action>)
      modifies this`notFoundHandler
      ensures notFoundHandler == Some(handler)
    {
      notFoundHandler := Some(handler);
    }

    /** The `foreach` of dispatch: the position of the first route whose
        `matches` holds, in registration order. */
    method FindRoute(requestMethod: string, uri: string) returns (k: Option<nat>)
      ensures k == FirstMatch(Table(), uri, requestMethod)
    {
      ghost var table := Table();
      var i := 0;
      while i < |routes|
        invariant 0 <= i <= |routes| == |table|
        invariant forall j :: 0 <= j < i ==> !Accepts(table[j], uri, requestMethod)
      {
        ValuesAt(routes, i);
        if routes[i].Matches(uri, requestMethod) {
          FirstMatchAt(table, uri, requestMethod, i);
          return Some(i);
        }
        i := i + 1;
      }
      FirstMatchAt(table, uri, requestMethod, i);
      return None;
    }

    /** `dispatch()` for a request with the given method and path. */
    method Dispatch(env: Env, requestMethod: string, uri: string, out: Output) returns (served: Served)
      requires Valid() && !out.exited
      modifies out
      ensures served == Serve(env, old(Table()), notFoundHandler, requestMethod, uri, old(out.log))
      ensures out.log == served.log
      ensures out.exited <==> served.ending.Halted?
    {
      ghost var table, log0 := Table(), out.log;
      var response := new Response();
      var k := FindRoute(requestMethod, uri);
      match k {
        case Some(i) =>
          var route := routes[i];
          ValuesAt(routes, i);
          var params := route.GetUriParameters(uri);
          var f := RunRoute(env, route, response, out);
          served := Complete(Some(i), Request(requestMethod, uri, params), f);
          ServeFound(env, table, notFoundHandler, requestMethod, uri, log0, i);
        case None =>
          var f := RunMissing(notFoundHandler, response, out);
          served := Complete(None, Request(requestMethod, uri, map[]), f);
      }
    }
  }

  /** The `try` block of dispatch for a matched route, and its `catch`. */
  method RunRoute(env: Env, route: Route, response: Response, out: Output) returns (f: Finish)
    requires response.Valid() && response.Value() == Initial && !out.exited
    modifies response, out
    ensures f == RouteFinish(env, route.Value(), old(out.log))
    ensures out.log == f.log
    ensures out.exited <==> f.ending.Halted?
  {
    var handler := route.GetHandler();
    var mws := route.GetMiddlewares();
    var chain := BuildChain(env, mws, handler);
    if chain.None? {
      return Finish([], response.Value(), out.log, Fatal);
    }
    var trace, o := Execute(env, chain.value, response, out);
    match o {
      case Returned =>
        response.Send(out);
        f := Finish(trace, response.Value(), out.log, Sent);
      case Raised(m) =>
        var self := response.SetStatusCode(500);
        self := self.SetContent(InternalError(m));
        response.Send(out);
        f := Finish(trace, response.Value(), out.log, Recovered(m));
      case Crashed =>
        f := Finish(trace, response.Value(), out.log, Fatal);
      case Exited =>
        f := Finish(trace, response.Value(), out.log, Halted);
    }
  }

  /** What dispatch does after no route matched. */
  method RunMissing(notFound: Option<seq<Action>>, response: Response, out: Output) returns (f: Finish)
    requires response.Valid() && response.Value() == Initial && !out.exited
    modifies response, out
    ensures f == MissingFinish(notFound, old(out.log))
    ensures out.log == f.log
    ensures out.exited <==> f.ending.Halted?
  {
    match notFound {
      case Some(body) =>
        var o := ExecuteActions(body, response, out, []);
        match o {
          case Returned =>
            response.Send(out);
            f := Finish([], response.Value(), out.log, Sent);
          case Raised(m) =>
            f := Finish([], response.Value(), out.log, Uncaught(m));
          case Crashed =>
            f := Finish([], response.Value(), out.log, Fatal);
          case Exited =>
            f := Finish([], response.Value(), out.log, Halted);
        }
      case None =>
        var self := response.SetStatusCode(404);
        self := self.SetContent(NotFoundBody);
        response.Send(out);
        f := Finish([], response.Value(), out.log, Sent);
    }
  }

  /** Once a script has thrown, the commands after it do nothing. */
  lemma {:induction false} RegisterStops(env: Env, reg: Registry, cmds: seq<Cmd>, i: nat)
    requires i <= |cmds| && Register(env, reg, cmds[..i]).failure.Some?
    ensures Register(env, reg, cmds) == Register(env, reg, cmds[..i])
    decreases |cmds| - i
  {
    if i < |cmds| {
      assert cmds[..i + 1][..i] == cmds[..i];
      RegisterStops(env, reg, cmds, i + 1);
    } else {
      assert cmds[..i] == cmds;
    }
  }
}
