/** The call chain that `dispatch` (Router.php) builds and runs for a matched route.

    The loop over the route's middlewares instantiates each one and wraps the
    handler so far in a closure that calls
    `$middlewareInstance->process($request, $response, $handler)`, so the LAST
    middleware added ends up outermost and runs first, and the first one runs
    just before the handler. Then the handler's shape is resolved: a
    `[Class, 'method']` array whose class exists is instantiated and its method
    called; a Closure is called; anything else is rejected with an exception,
    except `[$object, 'method']`, on which `class_exists` fails with a PHP `\Error`.

    Everything runs on one Response object. `Outcome` tells how the chain ended:
    normally, by an `\Exception` (which dispatch catches), by a PHP `\Error`
    raised by the runtime (which `catch (\Exception $e)` does not catch), or
    by `exit()` inside `Response::redirect`.

    The pure functions (`Start`, `Call`, `Process`, ...) are the meaning of the
    chain; the methods (`Execute`, `ExecuteCall`, ...) run it on a Response
    object and are proved to do what the functions say. */
module Pipeline {
  import opened Wrappers
  import opened Responses
  import opened Handlers

  /** A built chain: the handler, wrapped by instantiated middlewares. */
  datatype Chain = Base(handler: Handler) | Wrap(middleware: string, steps: seq<Step>, inner: Chain)

  datatype Outcome = Returned | Raised(message: string) | Crashed | Exited

  /** Where a run stands: the response's fields, everything sent so far, the
      names of the middlewares and handlers entered so far, and how it ended. */
  datatype Run = Run(state: ResponseState, log: seq<Emission>, trace: seq<string>, outcome: Outcome)

  /** The message of the exception thrown for a handler of unknown shape. */
  const InvalidHandler := "Handler de rota inválido."

  /** Every middleware named can be instantiated (`new $middleware()`). */
  predicate Instantiable(env: Env, mws: seq<string>) {
    forall i :: 0 <= i < |mws| ==> mws[i] in env.middlewares
  }

  /** The middlewares of a chain, from the outermost in. */
  function Layers(c: Chain): (ns: seq<string>) {
    match c
    case Base(_) => []
    case Wrap(n, _, inner) => [n] + Layers(inner)
  }

  /** The handler at the centre of a chain. */
  function Core(c: Chain): (h: Handler) {
    match c
    case Base(h) => h
    case Wrap(_, _, inner) => Core(inner)
  }

  /** The chain the fold builds: `mws[0]` wraps the handler, and each later
      middleware wraps the chain built so far, so the last one added is
      outermost and the first innermost. */
  function Fold(env: Env, mws: seq<string>, h: Handler): (c: Chain)
    requires Instantiable(env, mws)
    ensures Layers(c) == Reversed(mws)
    ensures Core(c) == h
    decreases |mws|
  {
    if mws == [] then Base(h)
    else
      var n := mws[|mws| - 1];
      Wrap(n, env.middlewares[n], Fold(env, mws[..|mws| - 1], h))
  }

  /** The loop that rebinds `$handler` once per middleware. It fails (a PHP
      `\Error`) exactly when some middleware class cannot be instantiated. */
  method BuildChain(env: Env, mws: seq<string>, h: Handler) returns (chain: Option<Chain>)
    ensures chain.Some? <==> Instantiable(env, mws)
    ensures chain.Some? ==> chain.value == Fold(env, mws, h)
  {
    var c := Base(h);
    var i := 0;
    while i < |mws|
      invariant 0 <= i <= |mws|
      invariant Instantiable(env, mws[..i])
      invariant c == Fold(env, mws[..i], h)
    {
      if mws[i] !in env.middlewares {
        return None;
      }
      assert mws[..i + 1][..i] == mws[..i];
      c := Wrap(mws[i], env.middlewares[mws[i]], c);
      i := i + 1;
    }
    assert mws[..i] == mws;
    chain := Some(c);
  }

  // ---------------------------------------------------------------------------
  // Meaning of a chain.

  function Enter(r: Run, name: string): (r1: Run) {
    r.(trace := r.trace + [name])
  }

  /** One call of user code on the response. Only `redirect` sends: it sends
      the state it leaves and ends the run. No callable is entered. */
  function Perform(a: Action, r: Run): (r1: Run)
    ensures r1.trace == r.trace
    ensures r1.log == r.log || (a.Redirect? && r1.outcome == Exited && r1.log == r.log + [Snapshot(r1.state)])
  {
    match a
    case SetStatus(code) => r.(state := WithStatus(r.state, code))
    case SetHeader(name, value) => r.(state := WithHeader(r.state, name, value))
    case SetContent(body) => r.(state := WithContent(r.state, body))
    case Redirect(url, code) =>
      var st := Redirected(r.state, url, code);
      r.(state := st, log := r.log + [Snapshot(st)], outcome := Exited)
    case Throw(message) => r.(outcome := Raised(message))
  }

  /** A body of actions, stopping at the first that does not return. */
  function PerformAll(acts: seq<Action>, r: Run): (r1: Run)
    ensures r1.trace == r.trace && r.log <= r1.log
    decreases |acts|
  {
    if acts == [] || !r.outcome.Returned? then r else PerformAll(acts[1..], Perform(acts[0], r))
  }

  /** A handler called as a PHP callable, `$next($request, $response)`. An array
      `[Class, 'method']` is then a static call: it runs only when the method is
      static, and is a PHP `\Error` otherwise. Calling a value that is not
      callable is a PHP `\Error` too. */
  function CallValue(env: Env, h: Handler, r: Run): (r1: Run)
    ensures r.log <= r1.log
    ensures r.trace <= r1.trace && |r1.trace| <= |r.trace| + 1
  {
    match h
    case Closure(name, body) => PerformAll(body, Enter(r, name))
    case Callable(name, body) => PerformAll(body, Enter(r, name))
    case BoundMethod(name, body) => PerformAll(body, Enter(r, name))
    case Controller(cls, m) =>
      if (cls, m) in env.methods && env.methods[(cls, m)].isStatic then
        PerformAll(env.methods[(cls, m)].body, Enter(r, ControllerLabel(cls, m)))
      else r.(outcome := Crashed)
    case Other => r.(outcome := Crashed)
  }

  /** The handler-shape test of dispatch, reached only when no middleware wraps
      the handler: a controller is instantiated and its method called, a Closure
      is called, any other value throws, even a callable one. For
      `[$object, 'method']` the test itself fails: `class_exists` given an
      object is a `TypeError`, a PHP `\Error`. */
  function Resolve(env: Env, h: Handler, r: Run): (r1: Run)
    ensures r.log <= r1.log
    ensures r.trace <= r1.trace && |r1.trace| <= |r.trace| + 1
  {
    match h
    case Controller(cls, m) =>
      if cls !in env.classes then r.(outcome := Raised(InvalidHandler))
      else if (cls, m) in env.methods then
        PerformAll(env.methods[(cls, m)].body, Enter(r, ControllerLabel(cls, m)))
      else r.(outcome := Crashed)
    case Closure(_, _) => CallValue(env, h, r)
    case Callable(_, _) => r.(outcome := Raised(InvalidHandler))
    case BoundMethod(_, _) => r.(outcome := Crashed)
    case Other => r.(outcome := Raised(InvalidHandler))
  }

  /** A chain called as a callable: a middleware's closure, or the bare handler.
      It only adds to what was sent and to the callables entered. */
  function Call(env: Env, c: Chain, r: Run): (r1: Run)
    ensures r.log <= r1.log && r.trace <= r1.trace
    decreases c, 0
  {
    match c
    case Base(h) => CallValue(env, h, r)
    case Wrap(n, steps, inner) => Process(env, steps, inner, Enter(r, n))
  }

  /** A middleware's `process`, whose `$next` is `inner`. */
  function Process(env: Env, steps: seq<Step>, inner: Chain, r: Run): (r1: Run)
    ensures r.log <= r1.log && r.trace <= r1.trace
    decreases inner, |steps|
  {
    if steps == [] || !r.outcome.Returned? then r
    else match steps[0]
      case Do(a) => Process(env, steps[1..], inner, Perform(a, r))
      case Next => Process(env, steps[1..], inner, Call(env, inner, r))
  }

  /** What dispatch does with the chain it built. */
  function Start(env: Env, c: Chain, r: Run): (r1: Run)
    ensures r.log <= r1.log && r.trace <= r1.trace
  {
    match c
    case Base(h) => Resolve(env, h, r)
    case Wrap(_, _, _) => Call(env, c, r)
  }

  // ---------------------------------------------------------------------------
  // Running a chain on a Response object.

  method ExecuteAction(a: Action, response: Response, out: Output, trace: seq<string>) returns (o: Outcome)
    requires response.Valid() && !out.exited
    modifies response, out
    ensures response.Valid()
    ensures Run(response.Value(), out.log, trace, o) ==
      Perform(a, Run(old(response.Value()), old(out.log), trace, Returned))
    ensures out.exited <==> o.Exited?
  {
    o := Returned;
    match a
    case SetStatus(code) =>
      var _ := response.SetStatusCode(code);
    case SetHeader(name, value) =>
      var _ := response.SetHeader(name, value);
    case SetContent(body) =>
      var _ := response.SetContent(body);
    case Redirect(url, code) =>
      response.Redirect(url, out, code);
      o := Exited;
    case Throw(message) =>
      o := Raised(message);
  }

  method ExecuteActions(acts: seq<Action>, response: Response, out: Output, trace: seq<string>)
    returns (o: Outcome)
    requires response.Valid() && !out.exited
    modifies response, out
    ensures response.Valid()
    ensures Run(response.Value(), out.log, trace, o) ==
      PerformAll(acts, Run(old(response.Value()), old(out.log), trace, Returned))
    ensures out.exited <==> o.Exited?
  {
    o := Returned;
    var i := 0;
    while i < |acts| && o.Returned?
      invariant 0 <= i <= |acts|
      invariant response.Valid()
      invariant out.exited <==> o.Exited?
      invariant PerformAll(acts, Run(old(response.Value()), old(out.log), trace, Returned)) ==
        PerformAll(acts[i..], Run(response.Value(), out.log, trace, o))
    {
      assert acts[i..][1..] == acts[i + 1..];
      o := ExecuteAction(acts[i], response, out, trace);
      i := i + 1;
    }
  }

  method ExecuteCallValue(env: Env, h: Handler, response: Response, out: Output, trace: seq<string>)
    returns (trace': seq<string>, o: Outcome)
    requires response.Valid() && !out.exited
    modifies response, out
    ensures response.Valid()
    ensures Run(response.Value(), out.log, trace', o) ==
      CallValue(env, h, Run(old(response.Value()), old(out.log), trace, Returned))
    ensures out.exited <==> o.Exited?
  {
    match h
    case Closure(name, body) =>
      trace' := trace + [name];
      o := ExecuteActions(body, response, out, trace');
    case Callable(name, body) =>
      trace' := trace + [name];
      o := ExecuteActions(body, response, out, trace');
    case BoundMethod(name, body) =>
      trace' := trace + [name];
      o := ExecuteActions(body, response, out, trace');
    case Controller(cls, m) =>
      if (cls, m) in env.methods && env.methods[(cls, m)].isStatic {
        trace' := trace + [ControllerLabel(cls, m)];
        o := ExecuteActions(env.methods[(cls, m)].body, response, out, trace');
      } else {
        trace', o := trace, Crashed;
      }
    case Other =>
      trace', o := trace, Crashed;
  }

  method ExecuteResolve(env: Env, h: Handler, response: Response, out: Output, trace: seq<string>)
    returns (trace': seq<string>, o: Outcome)
    requires response.Valid() && !out.exited
    modifies response, out
    ensures response.Valid()
    ensures Run(response.Value(), out.log, trace', o) ==
      Resolve(env, h, Run(old(response.Value()), old(out.log), trace, Returned))
    ensures out.exited <==> o.Exited?
  {
    match h
    case Controller(cls, m) =>
      if cls !in env.classes {
        trace', o := trace, Raised(InvalidHandler);
      } else if (cls, m) in env.methods {
        trace' := trace + [ControllerLabel(cls, m)];
        o := ExecuteActions(env.methods[(cls, m)].body, response, out, trace');
      } else {
        trace', o := trace, Crashed;
      }
    case Closure(_, _) =>
      trace', o := ExecuteCallValue(env, h, response, out, trace);
    case Callable(_, _) =>
      trace', o := trace, Raised(InvalidHandler);
    case BoundMethod(_, _) =>
      trace', o := trace, Crashed;
    case Other =>
      trace', o := trace, Raised(InvalidHandler);
  }

  method ExecuteCall(env: Env, c: Chain, response: Response, out: Output, trace: seq<string>)
    returns (trace': seq<string>, o: Outcome)
    requires response.Valid() && !out.exited
    modifies response, out
    ensures response.Valid()
    ensures Run(response.Value(), out.log, trace', o) ==
      Call(env, c, Run(old(response.Value()), old(out.log), trace, Returned))
    ensures out.exited <==> o.Exited?
    decreases c, 0
  {
    match c
    case Base(h) =>
      trace', o := ExecuteCallValue(env, h, response, out, trace);
    case Wrap(n, steps, inner) =>
      trace', o := ExecuteProcess(env, steps, inner, response, out, trace + [n]);
  }

  method ExecuteProcess(env: Env, steps: seq<Step>, inner: Chain, response: Response, out: Output, trace: seq<string>)
    returns (trace': seq<string>, o: Outcome)
    requires response.Valid() && !out.exited
    modifies response, out
    ensures response.Valid()
    ensures Run(response.Value(), out.log, trace', o) ==
      Process(env, steps, inner, Run(old(response.Value()), old(out.log), trace, Returned))
    ensures out.exited <==> o.Exited?
    decreases inner, |steps|
  {
    trace', o := trace, Returned;
    var i := 0;
    while i < |steps| && o.Returned?
      invariant 0 <= i <= |steps|
      decreases |steps| - i
      invariant response.Valid()
      invariant out.exited <==> o.Exited?
      invariant Process(env, steps, inner, Run(old(response.Value()), old(out.log), trace, Returned)) ==
        Process(env, steps[i..], inner, Run(response.Value(), out.log, trace', o))
    {
      assert steps[i..][1..] == steps[i + 1..];
      match steps[i] {
        case Do(a) =>
          o := ExecuteAction(a, response, out, trace');
        case Next =>
          trace', o := ExecuteCall(env, inner, response, out, trace');
      }
      i := i + 1;
    }
  }

  method Execute(env: Env, c: Chain, response: Response, out: Output)
    returns (trace: seq<string>, o: Outcome)
    requires response.Valid() && !out.exited
    modifies response, out
    ensures response.Valid()
    ensures Run(response.Value(), out.log, trace, o) ==
      Start(env, c, Run(old(response.Value()), old(out.log), [], Returned))
    ensures out.exited <==> o.Exited?
  {
    match c
    case Base(h) =>
      trace, o := ExecuteResolve(env, h, response, out, []);
    case Wrap(_, _, _) =>
      trace, o := ExecuteCall(env, c, response, out, []);
  }

  // ---------------------------------------------------------------------------
  // Properties of the chain.

  /** The names in reverse order. */
  function Reversed(s: seq<string>): (rs: seq<string>) {
    if s == [] then [] else [s[|s| - 1]] + Reversed(s[..|s| - 1])
  }

  /** Nothing is sent while a chain runs, except by `redirect`, which sends the
      state it leaves once and ends the run. */
  predicate SendsOnlyOnExit(r: Run, r': Run) {
    && (r'.outcome.Exited? ==> r'.log == r.log + [Snapshot(r'.state)])
    && (!r'.outcome.Exited? ==> r'.log == r.log)
  }

  lemma {:induction false} PerformAllSends(acts: seq<Action>, r: Run)
    requires r.outcome.Returned?
    ensures SendsOnlyOnExit(r, PerformAll(acts, r))
    ensures PerformAll(acts, r).trace == r.trace
    decreases |acts|
  {
    if acts != [] {
      var r1 := Perform(acts[0], r);
      if r1.outcome.Returned? {
        PerformAllSends(acts[1..], r1);
      }
    }
  }

  lemma CallValueSends(env: Env, h: Handler, r: Run)
    requires r.outcome.Returned?
    ensures SendsOnlyOnExit(r, CallValue(env, h, r))
  {
    match h
    case Closure(name, body) => PerformAllSends(body, Enter(r, name));
    case Callable(name, body) => PerformAllSends(body, Enter(r, name));
    case BoundMethod(name, body) => PerformAllSends(body, Enter(r, name));
    case Controller(cls, m) =>
      if (cls, m) in env.methods && env.methods[(cls, m)].isStatic {
        PerformAllSends(env.methods[(cls, m)].body, Enter(r, ControllerLabel(cls, m)));
      }
    case Other =>
  }

  lemma {:induction false} CallSends(env: Env, c: Chain, r: Run)
    requires r.outcome.Returned?
    ensures SendsOnlyOnExit(r, Call(env, c, r))
    decreases c, 0
  {
    match c
    case Base(h) => CallValueSends(env, h, r);
    case Wrap(n, steps, inner) => ProcessSends(env, steps, inner, Enter(r, n));
  }

  lemma {:induction false} ProcessSends(env: Env, steps: seq<Step>, inner: Chain, r: Run)
    requires r.outcome.Returned?
    ensures SendsOnlyOnExit(r, Process(env, steps, inner, r))
    decreases inner, |steps|
  {
    if steps != [] {
      var r1 := match steps[0] case Do(a) => Perform(a, r) case Next => Call(env, inner, r);
      match steps[0] {
        case Do(a) =>
        case Next => CallSends(env, inner, r);
      }
      if r1.outcome.Returned? {
        ProcessSends(env, steps[1..], inner, r1);
      }
    }
  }

  /** Running a built chain sends at most once, and only through `redirect`. */
  lemma StartSends(env: Env, c: Chain, r: Run)
    requires r.outcome.Returned?
    ensures SendsOnlyOnExit(r, Start(env, c, r))
  {
    match c
    case Base(h) =>
      match h {
        case Controller(cls, m) =>
          if cls in env.classes && (cls, m) in env.methods {
            PerformAllSends(env.methods[(cls, m)].body, Enter(r, ControllerLabel(cls, m)));
          }
        case Closure(_, _) => CallValueSends(env, h, r);
        case Callable(_, _) =>
        case BoundMethod(_, _) =>
        case Other =>
      }
    case Wrap(_, _, _) => CallSends(env, c, r);
  }

  /** Middlewares whose `process` only returns `$next($request, $response)`. */
  predicate AllPassThrough(env: Env, mws: seq<string>) {
    forall i :: 0 <= i < |mws| ==> mws[i] in env.middlewares && env.middlewares[mws[i]] == [Next]
  }

  /** A middleware whose `process` only calls `$next` hands the run on. */
  lemma PassOn(env: Env, n: string, inner: Chain, r: Run)
    requires r.outcome.Returned?
    ensures Call(env, Wrap(n, [Next], inner), r) == Call(env, inner, Enter(r, n))
  {
    var r1 := Enter(r, n);
    assert [Next][1..] == [];
    assert Process(env, [Next], inner, r1) == Process(env, [], inner, Call(env, inner, r1));
  }

  lemma {:induction false} CallPassThrough(env: Env, mws: seq<string>, h: Handler, r: Run)
    requires AllPassThrough(env, mws) && r.outcome.Returned?
    ensures Call(env, Fold(env, mws, h), r) == CallValue(env, h, r.(trace := r.trace + Reversed(mws)))
    decreases |mws|
  {
    if mws == [] {
      assert r.trace + Reversed(mws) == r.trace;
    } else {
      var k := |mws| - 1;
      var prefix := mws[..k];
      assert AllPassThrough(env, prefix);
      assert Fold(env, mws, h) == Wrap(mws[k], [Next], Fold(env, prefix, h));
      var r1 := Enter(r, mws[k]);
      PassOn(env, mws[k], Fold(env, prefix, h), r);
      CallPassThrough(env, prefix, h, r1);
      assert Reversed(mws) == [mws[k]] + Reversed(prefix);
      EnterThen(r, mws[k], Reversed(prefix));
    }
  }

  /** Entering `n` and then the names `rest` enters `[n] + rest`. */
  lemma EnterThen(r: Run, n: string, rest: seq<string>)
    ensures Enter(r, n).(trace := Enter(r, n).trace + rest) == r.(trace := r.trace + ([n] + rest))
  {
    assert (r.trace + [n]) + rest == r.trace + ([n] + rest);
  }

  /** Middleware order: with pass-through middlewares around a handler, the
      middlewares are entered from the last added to the first, and then the
      handler is called as a callable by the innermost `$next`. */
  lemma PassThroughOrder(env: Env, mws: seq<string>, h: Handler, r: Run)
    requires mws != [] && AllPassThrough(env, mws) && r.outcome.Returned?
    ensures Start(env, Fold(env, mws, h), r) == CallValue(env, h, r.(trace := r.trace + Reversed(mws)))
  {
    CallPassThrough(env, mws, h, r);
  }

  /** The first middleware is innermost and the last outermost: for `[A, B]`
      around a Closure `H`, the trace is `B`, `A`, `H`. */
  lemma TwoMiddlewaresOrder(env: Env, a: string, b: string, name: string, body: seq<Action>, r: Run)
    requires AllPassThrough(env, [a, b]) && r.outcome.Returned?
    ensures Start(env, Fold(env, [a, b], Closure(name, body)), r).trace == r.trace + [b, a, name]
  {
    PassThroughOrder(env, [a, b], Closure(name, body), r);
    assert Reversed([a]) == [a] by {
      assert [a][..0] == [];
    }
    assert Reversed([a, b]) == [b, a] by {
      assert [a, b][..1] == [a];
    }
    var inside := Enter(r.(trace := r.trace + [b, a]), name);
    assert inside.trace == r.trace + [b, a, name];
    PerformAllSends(body, inside);
  }

  /** The actions of a middleware that never calls `$next`. */
  function ActionsOf(steps: seq<Step>): (acts: seq<Action>)
    requires forall i :: 0 <= i < |steps| ==> steps[i].Do?
  {
    if steps == [] then [] else [steps[0].action] + ActionsOf(steps[1..])
  }

  lemma {:induction false} ProcessWithoutNext(env: Env, steps: seq<Step>, inner: Chain, r: Run)
    requires forall i :: 0 <= i < |steps| ==> steps[i].Do?
    ensures Process(env, steps, inner, r) == PerformAll(ActionsOf(steps), r)
    decreases |steps|
  {
    if steps != [] && r.outcome.Returned? {
      ProcessWithoutNext(env, steps[1..], inner, Perform(steps[0].action, r));
    }
  }

  /** A middleware that never calls `$next` decides the result alone: the chain
      inside it is never entered. */
  lemma ShortCircuit(env: Env, n: string, steps: seq<Step>, inner: Chain, r: Run)
    requires forall i :: 0 <= i < |steps| ==> steps[i].Do?
    requires r.outcome.Returned?
    ensures Call(env, Wrap(n, steps, inner), r) == PerformAll(ActionsOf(steps), Enter(r, n))
    ensures Call(env, Wrap(n, steps, inner), r).trace == r.trace + [n]
  {
    ProcessWithoutNext(env, steps, inner, Enter(r, n));
    PerformAllSends(ActionsOf(steps), Enter(r, n));
  }

  lemma {:induction false} CallShortCircuit(env: Env, mws: seq<string>, h: Handler, i: nat, r: Run)
    requires Instantiable(env, mws) && i < |mws| && r.outcome.Returned?
    requires forall k :: 0 <= k < |env.middlewares[mws[i]]| ==> env.middlewares[mws[i]][k].Do?
    requires AllPassThrough(env, mws[i + 1..])
    ensures Call(env, Fold(env, mws, h), r).trace == r.trace + Reversed(mws[i..])
    decreases |mws|
  {
    var k := |mws| - 1;
    if i == k {
      ShortCircuit(env, mws[k], env.middlewares[mws[k]], Fold(env, mws[..k], h), r);
      assert mws[i..] == [mws[k]];
      assert Reversed(mws[i..]) == [mws[k]] by {
        assert mws[i..][..0] == [];
      }
    } else {
      PassThroughLast(env, mws, h, i);
      CallShortCircuit(env, mws[..k], h, i, Enter(r, mws[k]));
      ShortCircuitBehind(env, mws[k], Fold(env, mws[..k], h), Reversed(mws[..k][i..]), r);
      ReversedFrom(mws, i);
    }
  }

  /** The step of `CallShortCircuit`: a pass-through middleware enters itself,
      then whatever the chain inside it enters. */
  lemma ShortCircuitBehind(env: Env, n: string, inner: Chain, rest: seq<string>, r: Run)
    requires r.outcome.Returned?
    requires Call(env, inner, Enter(r, n)).trace == Enter(r, n).trace + rest
    ensures Call(env, Wrap(n, [Next], inner), r).trace == r.trace + ([n] + rest)
  {
    PassOn(env, n, inner, r);
    assert (r.trace + [n]) + rest == r.trace + ([n] + rest);
  }

  /** The last middleware, then the ones from `i` up to the one before it,
      outermost first, are the ones from `i` on, outermost first. */
  lemma ReversedFrom(mws: seq<string>, i: nat)
    requires i < |mws|
    ensures [mws[|mws| - 1]] + Reversed(mws[..|mws| - 1][i..]) == Reversed(mws[i..])
  {
    var k := |mws| - 1;
    var prefix := mws[..k];
    assert mws[i..] == prefix[i..] + [mws[k]];
    ReversedSnoc(prefix[i..], mws[k]);
  }

  /** When every middleware after position `i` passes through and `i` is not
      the last, the last one is the outermost pass-through layer, and the rest
      keeps the premises of `CallShortCircuit`. */
  lemma PassThroughLast(env: Env, mws: seq<string>, h: Handler, i: nat)
    requires Instantiable(env, mws) && i < |mws| - 1
    requires AllPassThrough(env, mws[i + 1..])
    ensures Instantiable(env, mws[..|mws| - 1])
    ensures env.middlewares[mws[|mws| - 1]] == [Next]
    ensures AllPassThrough(env, mws[..|mws| - 1][i + 1..])
    ensures mws[..|mws| - 1][i] == mws[i]
    ensures Fold(env, mws, h) == Wrap(mws[|mws| - 1], [Next], Fold(env, mws[..|mws| - 1], h))
  {
    var k := |mws| - 1;
    var prefix := mws[..k];
    assert mws[i + 1..][k - i - 1] == mws[k];
    assert prefix[i + 1..] == mws[i + 1..][..k - i - 1];
  }

  /** The middleware added last comes first. */
  lemma ReversedSnoc(p: seq<string>, n: string)
    ensures Reversed(p + [n]) == [n] + Reversed(p)
  {
    assert (p + [n])[..|p|] == p;
  }

  /** Short-circuit in a chain: when the middleware at position `i` does not call
      `$next` and every middleware added after it passes through, the trace holds
      exactly the middlewares from the last down to `i`; the ones before `i` and
      the handler never run. */
  lemma ShortCircuitInChain(env: Env, mws: seq<string>, h: Handler, i: nat, r: Run)
    requires Instantiable(env, mws) && i < |mws| && r.outcome.Returned?
    requires forall k :: 0 <= k < |env.middlewares[mws[i]]| ==> env.middlewares[mws[i]][k].Do?
    requires AllPassThrough(env, mws[i + 1..])
    ensures Start(env, Fold(env, mws, h), r).trace == r.trace + Reversed(mws[i..])
  {
    CallShortCircuit(env, mws, h, i, r);
  }

  /** A `[Class, 'method']` handler is instantiated only when no middleware wraps
      it. Without middleware its method runs whether static or not; behind
      pass-through middlewares it is called statically, which a non-static method
      does not survive. */
  lemma ControllerHandler(env: Env, mws: seq<string>, cls: string, m: string, r: Run)
    requires AllPassThrough(env, mws) && r.outcome.Returned?
    requires cls in env.classes && (cls, m) in env.methods
    ensures mws == [] ==>
      (Start(env, Fold(env, mws, Controller(cls, m)), r) ==
       PerformAll(env.methods[(cls, m)].body, Enter(r, ControllerLabel(cls, m))))
    ensures mws != [] && !env.methods[(cls, m)].isStatic ==>
      (Start(env, Fold(env, mws, Controller(cls, m)), r).outcome == Crashed)
  {
    if mws != [] {
      PassThroughOrder(env, mws, Controller(cls, m), r);
    }
  }

  /** A callable that is not a Closure (a function name, a `'Class::method'`
      string, an invokable object, `[$object, 'method']`) runs only behind
      middleware, where `$next` calls it. Without middleware the shape test
      rejects it: with the caught exception, or, for `[$object, 'method']`, with
      a PHP `\Error`. */
  lemma CallableHandler(env: Env, mws: seq<string>, h: Handler, r: Run)
    requires AllPassThrough(env, mws) && r.outcome.Returned?
    requires h.Callable? || h.BoundMethod?
    ensures mws == [] && h.Callable? ==> Start(env, Fold(env, mws, h), r) == r.(outcome := Raised(InvalidHandler))
    ensures mws == [] && h.BoundMethod? ==> Start(env, Fold(env, mws, h), r) == r.(outcome := Crashed)
    ensures mws != [] ==>
      Start(env, Fold(env, mws, h), r) == PerformAll(h.body, Enter(r.(trace := r.trace + Reversed(mws)), h.name))
  {
    if mws != [] {
      PassThroughOrder(env, mws, h, r);
    }
  }

  /** In a well-formed class table a static controller method runs the same way
      whether dispatch calls it through the shape test or `$next` calls it. */
  lemma StaticControllerAgrees(env: Env, cls: string, m: string, r: Run)
    requires WellFormed(env) && (cls, m) in env.methods && env.methods[(cls, m)].isStatic
    ensures Resolve(env, Controller(cls, m), r) == CallValue(env, Controller(cls, m), r)
  {
    assert (cls, m).0 in env.classes;
  }
}
