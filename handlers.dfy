/** What the router calls but does not define: route handlers, middlewares and
    controller classes. Their bodies are user code; here each is a small script
    of calls on the Response it is given, so that a dispatch leaves an
    observable result. The PHP class table (`class_exists`, `class_implements`,
    `new $class`, method lookup) is the value `Env`. */
module Handlers {

  /** One thing user code does with the response. `Redirect` calls
      `Response::redirect`, which ends the process; `Throw` raises an
      `\Exception` with the given message. */
  datatype Action =
    | SetStatus(code: int)
    | SetHeader(name: string, value: string)
    | SetContent(body: string)
    | Redirect(url: string, code: int)
    | Throw(message: string)

  /** One step of a middleware's `process($request, $response, $next)`:
      an action, or a call of `$next($request, $response)`. */
  datatype Step = Do(action: Action) | Next

  /** A controller method: whether it is declared static, and what it does. */
  datatype Method = Method(isStatic: bool, body: seq<Action>)

  /** The handler given at registration:
      - `Closure`: a PHP Closure, named `name` in traces;
      - `Controller`: the two-element array `[ClassName, 'method']`;
      - `Callable`: a callable that is neither an array nor a Closure (a
        function name, a `'Class::method'` string, an invokable object), named
        `name` in traces, whose call does `body`;
      - `BoundMethod`: the two-element array `[$object, 'method']`, named `name`
        in traces, whose call does `body`;
      - `Other`: a value that is not callable (a string naming no function, an
        array of another size, ...). */
  datatype Handler =
    | Closure(name: string, body: seq<Action>)
    | Controller(cls: string, methodName: string)
    | Callable(name: string, body: seq<Action>)
    | BoundMethod(name: string, body: seq<Action>)
    | Other

  /** The PHP class table.
      - `classes`: the names for which `class_exists` holds;
      - `middlewares`: the classes that implement MiddlewareInterface, with what
        their `process` does;
      - `methods`: the methods of controller classes.
      Nothing ties the keys of `middlewares` and `methods` to `classes`;
      `WellFormed` states that they agree, as they do in PHP. */
  datatype Env = Env(
    classes: set<string>,
    middlewares: map<string, seq<Step>>,
    methods: map<(string, string), Method>)

  /** Every middleware class and every class with a method exists. */
  predicate WellFormed(env: Env) {
    && (forall n :: n in env.middlewares ==> n in env.classes)
    && (forall k :: k in env.methods ==> k.0 in env.classes)
  }

  /** What a trace records when `Controller(cls, method)` is invoked. */
  function ControllerLabel(cls: string, methodName: string): (s: string) {
    cls + "::" + methodName
  }
}
