# RouterX in Dafny

RouterX is a small PHP request router. User code registers routes: a list of
HTTP methods, a URI template such as `/users/{id}`, and a handler. It can
attach middleware classes to a route, and it can group registrations under a
common URI prefix. `dispatch` then serves the request with the first route
that matches it:
- it binds the template's placeholders to the path's segments;
- it wraps the handler in the route's middlewares (the last one added is
  outermost);
- it resolves the handler's shape;
- it turns an exception into a 500 response;
- it falls back to a not-found handler or a plain 404 when no route matches.

Responses are built with fluent setters and written out by `send`.

This project models that core and proves its behaviour. It has these modules:

- `Strings`: `strtoupper` and `rtrim($s, '/')`.
- `Template`: a template as tokens.
  - `Tokenize` is the scan that both the placeholder regex replacement and
    `preg_match_all` make.
  - `Captures` is the anchored, greedy, backtracking match of the generated
    pattern, including PCRE's acceptance of one final newline before `$`.
  - `Bind` pairs captures with names by position.
- `Responses`: the Response object, as a `class` with the source's three
  fields. The pure state transitions (`WithStatus`, `WithHeader`, ...) are
  shared with the handlers. An `Output` object records each `send` as an
  `Emission` and records whether `exit()` ran.
- `Handlers`: the user code the router calls. Closures, `[Class, 'method']`
  arrays, other callables (function names, `'Class::method'` strings,
  invokable objects, `[$object, 'method']`) and values that are not callable
  are `Handler`. Middleware `process` bodies are
  scripts of `Step`s. The PHP class table is the value `Env`.
- `Routes`: the Route object (`class Route`) and its value `RouteValue`.
  Only its middleware list changes after construction, so the methods, the
  template, the handler and the recorded names are `const` fields; the
  constructor records the names that `parseUri` finds.
  - `Accepts` is `matches`.
  - `Parameters` is `getUriParameters`, and the method `GetUriParameters` is
    its `foreach` loop.
- `Pipeline`: the middleware fold and the call chain.
  - `Start`, `Call`, `Process` and `CallValue` are the meaning of a chain.
  - `Execute` and the other `Execute...` methods run a chain on a `Response`
    object and are proved to agree with that meaning.
- `Routers`: the Router object (`class Router`).
  - `Register` is the meaning of a registration script: `Add` stands for
    `get`/`post`/`match` followed by `addMiddleware` calls, and `Scoped` for
    `group` with its callback.
  - `Serve` is the meaning of `dispatch`.
  - `Router.RunScript`, `Router.Group` and `Router.Dispatch` are proved to do
    what those functions say.

Two behaviours of the source are modelled as written:
- `group` restores the base URI without a `finally` clause. When its callback
  throws (an invalid middleware, say), the extended base URI stays in place.
- `dispatch` catches `\Exception` but not PHP's `\Error`. A runtime error ends
  the process without a response. One example is a non-static controller method
  behind middleware, which is called statically.

## Model

| member | source | states |
|---|---|---|
| Strings.UpperAllIsUpper | src/RouterX/Route.php:17 | after `array_map('strtoupper')` every stored method is its own upper-case form |
| Strings.UpperIdempotent | src/RouterX/Route.php:43 | upper-casing twice is upper-casing once, which is why the method test ignores case |
| Strings.Upper | src/RouterX/Route.php:43 | `strtoupper` upper-cases each character in place (ASCII letters only), so no lower-case ASCII letter is left |
| Strings.UpperEqIff | src/RouterX/Route.php:43 | two strings upper-case to the same string exactly when they differ at most in the case of ASCII letters |
| Strings.UpperAll | src/RouterX/Route.php:17 | `array_map('strtoupper', $methods)` gives, at each position, the upper case of the method there, so none holds a lower-case ASCII letter |
| Strings.RTrimSlash | src/RouterX/Router.php:20 | `rtrim($s, '/')` is a prefix of `s`, does not end with `/`, and only `/` was removed |
| Template.Tokenize | src/RouterX/Route.php:70-74 | the scan loses nothing (the tokens render back to the template) and every placeholder name matches `[a-zA-Z0-9_]+` |
| Template.TokenizeScans | src/RouterX/Route.php:70-74 | the tokens are the regex's scan: a token is a placeholder exactly where `\{([a-zA-Z0-9_]+)\}` matches the rest of the template, and then holds that name; everything else is literal |
| Template.Captures | src/RouterX/Route.php:56-60 | the anchored `preg_match` followed by `array_shift`: a match yields one capture per recorded name; `Template.CapturesSound` and `Template.CapturesComplete` state what the captures are and that a match is found whenever one exists |
| Template.Matches | src/RouterX/Route.php:47-50 | `preg_match` returns 1 on the anchored pattern; `Template.MatchesIff` states exactly when, in both directions |
| Template.MatchesIff | src/RouterX/Route.php:47-50 | the anchored pattern matches exactly when the path is the template with each placeholder replaced by a non-empty value without `/`, optionally followed by PCRE's final newline |
| Template.CapturesSound | src/RouterX/Route.php:56-60 | every capture list the matcher returns has one non-empty, slash-free value per recorded name, and fills the template to the path |
| Template.CapturesComplete | src/RouterX/Route.php:47-50 | every way of filling the template with such values is matched |
| Template.StaticTemplate | src/RouterX/Route.php:47-50 | a template without placeholders accepts its own text and nothing with extra text before or after it (but for the final newline) |
| Template.CapturesFill | src/RouterX/Route.php:56-60 | on a template whose placeholders are each followed by `/` or the end, matching the filled template captures exactly the values filled in |
| Template.Bind | src/RouterX/Route.php:61-65 | the loop binds only recorded names |
| Template.BindLastWins | src/RouterX/Route.php:61-65 | with a capture per name, the keys are exactly the names, and each name is bound to the capture of its last occurrence |
| Template.BindDistinct | src/RouterX/Route.php:61-65 | with distinct names, the i-th name is bound to the i-th capture |
| Routes.Accepts | src/RouterX/Route.php:41-51 | `matches` on a route's value; its meaning is stated by `Routes.AcceptsIff` and `Routes.Route.Matches` |
| Routes.Parameters | src/RouterX/Route.php:53-68 | `getUriParameters` as a function: its keys are among the template's placeholder names, and on a matching path they are exactly those names |
| Routes.AcceptsIff | src/RouterX/Route.php:41-51 | `matches` holds exactly when the upper-cased method is accepted and the path fills the template; a method not accepted fails whatever the path |
| Routes.MethodCaseInsensitive | src/RouterX/Route.php:43 | any spelling of the request method gives the same answer as its upper-case form |
| Routes.MethodSpellings | src/RouterX/Route.php:43 | two spellings of a request method that differ only in the case of ASCII letters get the same answer |
| Routes.ParametersOfMismatch | src/RouterX/Route.php:53-68 | a path that does not match yields the empty map, whatever the method |
| Routes.ParametersRoundTrip | src/RouterX/Route.php:53-68 | filling a slash-separated template with segments and reading the parameters back gives exactly name to value, the later value for a repeated name |
| Routes.Route.constructor | src/RouterX/Route.php:15-20 | methods stored upper-cased, template and handler kept, no middleware, and the recorded names are the template's placeholders in order (what `parseUri` records) |
| Routes.Route.Matches | src/RouterX/Route.php:41-51 | a route matches exactly when the upper-cased request method is one of its methods and the path fills its template with segment values |
| Routes.Route.AddMiddleware | src/RouterX/Route.php:22-29 | appends a middleware class at the end; any other name fails with the `InvalidArgumentException` message and leaves the list unchanged |
| Routes.Route.GetMiddlewares | src/RouterX/Route.php:31-34 | returns the middleware list in the order added |
| Routes.Route.GetHandler | src/RouterX/Route.php:36-39 | returns the handler given at registration |
| Routes.Route.GetUriParameters | src/RouterX/Route.php:53-68 | the `foreach` pairing names with captures computes `Parameters` |
| Responses.Response.constructor | src/RouterX/Response.php:7-9 | a fresh response has status 200, no headers and empty content |
| Responses.Response.SetStatusCode | src/RouterX/Response.php:11-15 | changes only the status and returns the same object |
| Responses.Response.GetStatusCode | src/RouterX/Response.php:17-20 | returns the status |
| Responses.Response.SetHeader | src/RouterX/Response.php:22-26 | writes the header entry, keeps names unique, changes nothing else, returns the same object |
| Responses.Response.GetHeader | src/RouterX/Response.php:28-31 | returns the value stored under the name, or the default for a name never set |
| Responses.Response.SetContent | src/RouterX/Response.php:33-37 | changes only the content and returns the same object |
| Responses.Response.GetContent | src/RouterX/Response.php:39-42 | returns the content |
| Responses.Response.Send | src/RouterX/Response.php:44-51 | emits the status, one `name: value` line per header in table order, and the content; leaves the response unchanged |
| Responses.Response.Json | src/RouterX/Response.php:53-59 | sets the status, `Content-Type: application/json` and the encoded data |
| Responses.Response.Redirect | src/RouterX/Response.php:61-67 | sets the status and `Location`, emits once and ends the process |
| Responses.Lookup | src/RouterX/Response.php:30 | a value found is one stored under that name; `Responses.LookupAt` and `Responses.LookupMissing` state which value, and when there is none |
| Responses.Put | src/RouterX/Response.php:24 | after the assignment the entry is in the table, every entry for another name is kept, and nothing else is added; `Responses.PutInPlace` and `Responses.PutAppends` give the whole table |
| Responses.HeaderLines | src/RouterX/Response.php:47-49 | `send` writes one line per header; `Responses.HeaderLinesAt` gives each line |
| Responses.PutLookup | src/RouterX/Response.php:22-31 | after `setHeader`, `getHeader` of that name is the new value and every other name reads as before |
| Responses.PutUnique | src/RouterX/Response.php:24 | the header table never holds a name twice |
| Responses.PutAppends | src/RouterX/Response.php:24 | a new header name goes at the end of the table |
| Responses.PutInPlace | src/RouterX/Response.php:24 | an existing header keeps its place and only its value changes |
| Responses.LookupAt | src/RouterX/Response.php:30 | the entry stored for a name is what the lookup finds |
| Responses.LookupMissing | src/RouterX/Response.php:30 | a name not in the table reads as absent |
| Responses.JsonState | src/RouterX/Response.php:53-59 | `json` sets the status, the content and the JSON content type, and leaves every other header unchanged |
| Responses.RedirectState | src/RouterX/Response.php:61-65 | `redirect` sets the status and `Location`, and keeps the content and every other header |
| Responses.HeaderLinesAt | src/RouterX/Response.php:47-49 | `send` writes every header once, in table order |
| Pipeline.Fold | src/RouterX/Router.php:91-96 | the chain the fold builds has the middlewares in reverse order of addition, from the outermost in, around the handler |
| Pipeline.Perform | src/RouterX/Response.php:11-67 | one Response call from user code enters no callable and sends nothing, except `redirect`, which sends the state it leaves and ends the run |
| Pipeline.PerformAll | src/RouterX/Response.php:11-67 | a script of such calls enters no callable and only adds to what was sent; `Pipeline.PerformAllSends` bounds what it sends |
| Pipeline.CallValue | src/RouterX/Router.php:93-94 | calling `$next` on a handler enters at most one callable and only adds to what was sent; `Pipeline.ControllerHandler` and `Pipeline.CallableHandler` state which shapes run |
| Pipeline.Resolve | src/RouterX/Router.php:98-107 | the shape test enters at most one callable and only adds to what was sent; `Pipeline.ControllerHandler` and `Pipeline.CallableHandler` state its cases |
| Pipeline.Call | src/RouterX/Router.php:93-95 | calling a chain only adds to what was sent and to the callables entered; `Pipeline.CallSends`, `Pipeline.CallPassThrough` and `Pipeline.ShortCircuit` state the rest |
| Pipeline.Process | src/RouterX/Router.php:94 | a middleware's `process` only adds to what was sent and to the callables entered |
| Pipeline.Start | src/RouterX/Router.php:91-107 | running the chain as dispatch does only adds to what was sent and to the callables entered; `Pipeline.StartSends`, `Pipeline.PassThroughOrder` and `Pipeline.ShortCircuitInChain` state the rest |
| Pipeline.BuildChain | src/RouterX/Router.php:91-96 | the fold succeeds exactly when every middleware can be instantiated, and then builds the chain with the last middleware outermost |
| Pipeline.ExecuteAction | src/RouterX/Response.php:11-67 | one user call on the response object does what `Perform` says; only `redirect` sets the exit flag |
| Pipeline.ExecuteActions | src/RouterX/Response.php:11-67 | running user actions on the response object does what `PerformAll` says, stopping at the first throw or exit |
| Pipeline.ExecuteCallValue | src/RouterX/Router.php:93-94 | calling `$next` on the handler does what `CallValue` says: a Closure or any other callable runs, a `[Class, 'method']` array runs only as a static call, and a value that is not callable is a PHP `\Error` |
| Pipeline.ExecuteResolve | src/RouterX/Router.php:98-107 | the handler-shape test does what `Resolve` says: a controller is instantiated and called, a Closure is called, `[$object, 'method']` fails in `class_exists` with a PHP `\Error`, anything else throws |
| Pipeline.ExecuteCall | src/RouterX/Router.php:93-95 | calling a chain does what `Call` says |
| Pipeline.ExecuteProcess | src/RouterX/Router.php:94 | a middleware's `process` does what `Process` says |
| Pipeline.Execute | src/RouterX/Router.php:98-107 | running a built chain on the response does what `Start` says |
| Pipeline.PerformAllSends | src/RouterX/Response.php:61-67 | user actions send nothing except through `redirect`, which sends once and ends the run |
| Pipeline.StartSends | src/RouterX/Router.php:89-107 | running a chain sends at most once, and only through `redirect` |
| Pipeline.CallSends | src/RouterX/Router.php:93-95 | the same, for a chain called by `$next` |
| Pipeline.PassOn | src/RouterX/Router.php:93-95 | a middleware that only calls `$next` hands the run on after entering itself |
| Pipeline.CallPassThrough | src/RouterX/Router.php:91-96 | with pass-through middlewares the middlewares are entered from the last added to the first, then the handler |
| Pipeline.PassThroughOrder | src/RouterX/Router.php:91-96 | the same, for the chain as dispatch starts it |
| Pipeline.TwoMiddlewaresOrder | src/RouterX/Router.php:91-96 | for `[A, B]` around Closure `H` the trace is `B`, `A`, `H` |
| Pipeline.ShortCircuit | src/RouterX/Router.php:93-95 | a middleware that never calls `$next` decides the result alone, and the chain inside it is never entered |
| Pipeline.ShortCircuitInChain | src/RouterX/Router.php:91-96 | when middleware `i` does not call `$next`, only the middlewares from the last down to `i` run; neither the earlier ones nor the handler do |
| Pipeline.ControllerHandler | src/RouterX/Router.php:98-104 | a `[Class, 'method']` handler is instantiated only without middleware; behind middleware it is a static call, which a non-static method does not survive |
| Pipeline.CallableHandler | src/RouterX/Router.php:91-107 | a callable that is not a Closure runs behind pass-through middleware, after them; without middleware it is rejected with the caught exception, or a PHP `\Error` for `[$object, 'method']` |
| Pipeline.StaticControllerAgrees | src/RouterX/Router.php:93-102 | in a well-formed class table a static controller method does the same through `$next` as through the shape test |
| Routers.Register | src/RouterX/Router.php:43-64 | registration only appends routes, and once a registration has thrown nothing further happens |
| Routers.RegisterAdd | src/RouterX/Router.php:43-55 | a registration appends exactly one route, with template `base . uri`, at the end; a rejected middleware throws |
| Routers.RegisterScoped | src/RouterX/Router.php:57-64 | a group runs its body under `base . rtrim(prefix, '/')` and restores the base unless the body threw |
| Routers.RegisterUnderBase | src/RouterX/Router.php:43-64 | registration only appends; new routes lie under the starting base; the base never ends with `/`; a script that does not throw leaves the base as it was |
| Routers.GroupUnderPrefix | src/RouterX/Router.php:57-64 | every route of a group's body is registered under `base . rtrim(prefix, '/')`, and afterwards the base is restored unless the body threw |
| Routers.NestedGroups | src/RouterX/Router.php:57-64 | `/c` inside `group('/b')` inside `group('/a/')` is registered as `base/a/b/c`, and the base is restored |
| Routers.RegisterInstantiable | src/RouterX/Route.php:22-29 | every middleware a registered route holds can be instantiated when dispatch builds its chain |
| Routers.FirstMatch | src/RouterX/Router.php:84-85 | the position found accepts the request and no earlier route does; none is found only when no route accepts |
| Routers.Serve | src/RouterX/Router.php:76-127 | dispatch serves the first route that accepts the request, keeps the request's method and path, and adds at most one emission to the output |
| Routers.Conclude | src/RouterX/Router.php:109-114 | the response is sent once exactly when the `try` block returned or an `\Exception` was caught, nothing is sent after a PHP `\Error` or `exit()`, and a caught exception leaves status 500 and `Erro interno: ` plus its message |
| Routers.RouteFinish | src/RouterX/Router.php:89-115 | the matched-route branch only adds to the output, a caught exception leaves status 500 with its message, and no exception escapes it |
| Routers.MissingFinish | src/RouterX/Router.php:119-126 | the not-found branch only adds to the output and catches nothing |
| Routers.RouteFinishSends | src/RouterX/Router.php:89-115 | the `try` block and its `catch` send at most once |
| Routers.MissingFinishSends | src/RouterX/Router.php:119-126 | the not-found branch sends at most once |
| Routers.ServeIgnoresLaterRoutes | src/RouterX/Router.php:84-85 | routes registered after the first accepting route make no difference to dispatch |
| Routers.ServeBindsParameters | src/RouterX/Router.php:86-87 | the request's parameters are the matched route's `getUriParameters`, and stay empty when no route matches |
| Routers.ServeFilledTemplate | src/RouterX/Router.php:84-87 | a request on a filled template with an accepted method, in any case, is matched and binds each name to its value |
| Routers.ServeSendsOnce | src/RouterX/Router.php:109-126 | dispatch sends exactly once, the last state of the response, unless a PHP `\Error` or an exception from the not-found handler ends it, in which case nothing is sent |
| Routers.ServeRecovers | src/RouterX/Router.php:112-114 | any exception out of the matched route's middlewares or handler yields status 500 and `Erro interno: ` plus its message, keeps the headers set before it, and is sent once |
| Routers.HeadersSurviveError | src/RouterX/Router.php:112-114 | example: a Closure that sets a header and then throws yields status 500, content `Erro interno: ` plus the message, and the header is still sent |
| Routers.ServeInvalidHandler | src/RouterX/Router.php:105-107 | without middleware, a handler that is neither a Closure nor an array naming an existing class (a non-Closure callable included) yields the caught 500 with `Handler de rota inválido.` |
| Routers.ServeShortCircuit | src/RouterX/Router.php:91-96 | at dispatch, a middleware that does not call `$next` stops the earlier middlewares and the handler |
| Routers.ServeNotFound | src/RouterX/Router.php:123-126 | with no match and no not-found handler, status 404 with `404 - Not Found` is sent |
| Routers.ServeNotFoundHandler | src/RouterX/Router.php:119-122 | the response the not-found handler was given is sent as the handler left it |
| Routers.AddMiddlewares | src/RouterX/Route.php:22-29 | chained `addMiddleware` calls append the accepted names and stop at the first rejected one with its message |
| Routers.RunRoute | src/RouterX/Router.php:89-115 | the `try` block and its `catch` do what `RouteFinish` says |
| Routers.RunMissing | src/RouterX/Router.php:119-126 | the not-found branch does what `MissingFinish` says |
| Routers.Router.constructor | src/RouterX/Router.php:18-21 | no routes, no not-found handler, base URI is `rtrim(baseUri, '/')` |
| Routers.Router.Match | src/RouterX/Router.php:43-48 | appends one fresh route with the upper-cased methods and `base . uri`, leaving earlier routes and the base untouched |
| Routers.Router.AddRoute | src/RouterX/Router.php:50-55 | the same, for a single method |
| Routers.Router.Get | src/RouterX/Router.php:23-26 | appends a `GET` route under the base |
| Routers.Router.Post | src/RouterX/Router.php:28-31 | appends a `POST` route under the base |
| Routers.Router.Put | src/RouterX/Router.php:33-36 | appends a `PUT` route under the base |
| Routers.Router.Delete | src/RouterX/Router.php:38-41 | appends a `DELETE` route under the base |
| Routers.Router.RunScript | src/RouterX/Router.php:61 | running a registration script on the router does what `Register` says |
| Routers.Router.RunCommand | src/RouterX/Router.php:43-64 | one command of a script, a registration or a group, does what `Register` says of it |
| Routers.Router.AddCommand | src/RouterX/Router.php:43-48 | one registration with its `addMiddleware` chain does what `Register` says |
| Routers.Router.Group | src/RouterX/Router.php:57-64 | `group` does what `Register` says: the body runs under the extended base, which is restored unless the body threw |
| Routers.Router.SetNotFoundHandler | src/RouterX/Router.php:66-69 | stores the not-found handler |
| Routers.Router.FindRoute | src/RouterX/Router.php:84-85 | the loop over the routes finds `FirstMatch` |
| Routers.Router.Dispatch | src/RouterX/Router.php:76-127 | dispatch does what `Serve` says: the route found, the bound parameters, the callables entered, the final response, what was sent, and how it ended; the process has exited exactly when `redirect` ran |

## Left out

- Request construction: `Request::createFromGlobals` reads `$_SERVER`, `$_GET`, `$_POST`, the headers and `php://input`. That is I/O, so `dispatch` takes the method and path as parameters, and the bound request is the record `Request`.
- The rest of Request.php: its getters are map lookups with defaults and are not modelled. `setParameters` (src/RouterX/Request.php:79-82) is the `request` field of the dispatch result, and the empty initial parameters (src/RouterX/Request.php:13) are its value when no route matches.
- Output and exit: `http_response_code`, `header`, `echo` and `exit()` are process side effects. They are modelled as an append to `Output.log` and the flag `Output.exited`.
- `json_encode` is a library call. `Response.Json` takes the encoder as a parameter.
- PHP reflection (`class_exists`, `class_implements`, `new $class`, `call_user_func_array`) is modelled by the class table `Env`.
- The bodies of user closures, controllers and middlewares are modelled as scripts of response actions (`setStatusCode`, `setHeader`, `setContent`, `redirect`), `$next` calls and thrown `\Exception`s. A body that calls `send`, `json` or a getter, or throws a Throwable that is not an `\Exception`, is not modelled.
- Routers.ServeSendsOnce: counts the sends of dispatch and of `redirect` only. A handler or middleware that calls `$response->send()` itself sends once more in the source before dispatch sends; bodies have no such action, so the lemma does not cover it.
- Routers.Serve: its bound of at most one emission has the same scope as `Routers.ServeSendsOnce`, and excludes a body that calls `send` itself.
- Pipeline.Resolve: `Env.classes` records only that a class exists. A controller class that exists but cannot be instantiated (an abstract class or an interface, on which `new` raises a PHP `\Error`; or a constructor that throws) is not modelled, so the model runs the method where the source stops.
- Handlers are assumed to return the Response they were given. Code that returns another object, or something that is not a Response, is not modelled.
- The template engine (`setTemplateEngine` and the argument passed to controller constructors) is not modelled, because it is only forwarded to user code.
- Template literals are compared character by character. The source does not escape literal template text in the pattern, so a template whose literal text holds regex metacharacters (or `#`) behaves differently there; such templates are outside the model.
- `in_array` is PHP's loose comparison, under which two numeric strings compare as numbers (`"10" == "1E1"`). The model compares method strings exactly, so it agrees with the source except for numeric-string methods.
- A handler is one of the shapes of `Handler`. An object with `__toString` in `[$object, 'method']` is converted to a string by `class_exists` instead of failing; such handlers are not modelled.
- The class table `Env` is not required to be consistent: a method or middleware entry for a class missing from `classes` is allowed. `WellFormed` states consistency, and only `Pipeline.StaticControllerAgrees` assumes it.
- PHP `\Error`s are modelled without their messages. They arise from a missing middleware class, a non-static method called statically through `$next`, a missing controller method, a call of a value that is not callable, or `class_exists` given the object of `[$object, 'method']`. `catch (\Exception $e)` does not catch them; the model ends the dispatch as `Fatal`, with nothing sent.
- Route registration outside a script is not modelled. The user code around the router is restricted to `Cmd` scripts (`Add` and `Scoped`), and `group` is not modelled with an arbitrary callback.
- Strings.Upper: models `strtoupper` as PHP 8.2 and later define it, ASCII letters only. Before PHP 8.2 the result depended on the locale (`setlocale`), and that behaviour is not modelled.
- Concurrency: there is none.
