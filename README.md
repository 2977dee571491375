# SignalJs routing and dispatch, modelled in Dafny

SignalJs is a small HTTP server framework. This project models its core and
proves properties of the model:

- **the trie router** (`routing.dfy`, module `Routing`): `createRoute`,
  `registerRoute` with its GET/POST/PUT/DELETE/PATCH shorthands,
  `mountRouter`/`mergeNodes` and the resolver `getPathMiddlewareAndHandlers`.
  The trie is an arena: a `seq<Node>` held by the class `Router`, with the root
  at index 0 and children named by index. Each node keeps its static children
  and its route table as insertion-ordered maps.
- **the application object** (`signal.dfy`, module `Dispatch`): `use`,
  `onError`, `getExecutionStack`, the continuation chain `executeStack`,
  `handle` and the default `handleError`. These are pure specification
  functions (`Exec`, `RunScript`, `ExecutionStack`, `Respond`, `Handled`). The
  class `Signal` has methods proved to act as those functions.
- **the response object** (`response.dfy`, module `Responses`): `status`,
  `header`, `json`, `text`, `error`, `cookie` and `clearCookie`. These are
  state transitions on `ResState` (status code, header list, `sent`, committed
  response). The class `SignalResponse` updates its fields through them. The
  module also holds the `Set-Cookie` serialiser of section 4.1 of RFC 6265.
- **middlewares and handlers** (`steps.dfy`, module `Steps`): a function value
  is tagged `Chaining` (it declares `next`) or `Terminal`. Its body is a script
  of actions on the response, which stands in for the arity test `fn.length >= 2`.
- **the request parser** (`parser.dfy`, module `Parser`) and **the request
  object** (`request.dfy`, module `Requests`): `splitHeaders`, `parseHeader`,
  `getHeader`, `queryParams`, `json` and `text`.
- **the response head builder of the test harness** (`response_head.dfy`,
  module `ResponseHead`): `buildResponse` and `STATUS_TEXT`. It writes a status
  line and header fields as in sections 4 and 5 of RFC 9112.
- **shared support**:
  - `text.dfy` holds the JavaScript string operations the code relies on: `split` with a string separator, `join`, `filter(Boolean)`, `trim`, ASCII case mapping, number formatting and UTF-8 length.
  - `errors.dfy` holds the exceptions and their messages.
  - `wrappers.dfy` holds `Option` and `Result`.

Behaviour of the code worth knowing:

- `json` and `text` do not check `sent`, so a second commit replaces the
  first. Only `error` refuses a response that was already sent.
- The parsed `path` keeps its query string. The router therefore sees
  `?a=b` as part of the last segment.
- `use(path, ...)` only appends middlewares to the node for `path`. It never
  mounts a router.
- The parser lower-cases query values as well as query keys.
- `use(fn, ...more)` with a function first makes `fn` a global middleware and
  drops every middleware in `more`.
- Two patterns with different names at the same `:name` position share one
  param child, which keeps the first name. A request then binds its segment
  under the first name only, whichever route it reaches.

## Model

| member | source | states |
|---|---|---|
| Routing.Keys | src/Routing.ts:187 | the keys of an insertion-ordered map, in insertion order |
| Routing.Lookup | src/Routing.ts:170 | a key is found exactly when it is among the keys, and then with a value stored under it |
| Routing.Store | src/Routing.ts:91 | after `set`, the key maps to the new value and every other key is unchanged |
| Routing.StoreAppends | src/Routing.ts:91 | `set` of a new key adds it last, after the existing ones |
| Routing.Segments | src/Routing.ts:45 | the segments of a path contain no empty string |
| Routing.SegmentsAround | src/Routing.ts:45 | a slash separates segments, so leading, trailing and doubled slashes do not change the segments ("/a//b", "a/b" and "/a/b/" reach the same node) |
| Routing.SegmentsOfJoin | src/Routing.ts:45 | joining non-empty, slash-free segments with "/" gives back exactly those segments |
| Routing.SlashIsRoot | src/Routing.ts:45-67 | "/" has no segments, so `createRoute("/")` returns the root and creates nothing |
| Routing.AddParamChild | src/Routing.ts:51-55 | a missing param child is created as a new node whose paramName is the segment without its colon; the arena stays well formed |
| Routing.AddStaticChild | src/Routing.ts:61-63 | a missing static child is created as a new empty node and recorded under its segment |
| Routing.Descend | src/Routing.ts:50-64 | a ":" segment follows (creating if needed) the single param child, any other segment follows the static child; an existing child is reused unchanged, otherwise exactly one node is added |
| Routing.Grow | src/Routing.ts:43-68 | walking/creating along the segments keeps the arena well formed, only appends nodes and keeps every earlier edge |
| Routing.GrowIdempotent | src/Routing.ts:51-64 | a second `createRoute` of the same path creates nothing and returns the same node |
| Routing.ParamChildReused | src/Routing.ts:50-56 | a later `:other` at the same position reuses the existing param child and keeps the first paramName |
| Routing.Router.constructor | src/Routing.ts:39-41 | a new router holds only an empty root node |
| Routing.Router.CreateRoute | src/Routing.ts:43-68 | the loop over the segments updates the arena exactly as `Grow` and returns its node |
| Routing.Router.Follow | src/Routing.ts:48-64 | one step of that loop acts as `Descend` |
| Routing.BindRoute | src/Routing.ts:91-94 | an unbound method gets the entry; every other method and node is unchanged |
| Routing.RegisterAt | src/Routing.ts:80-94 | the last argument not a function throws "Handler must be a function"; an already-bound method throws "Route already exists"; both leave the arena unchanged; otherwise the method is bound to {all but last, last} and nothing else changes |
| Routing.Register | src/Routing.ts:70-95 | no arguments throws "Handler is required"; otherwise nodes are created before the checks, so a failing call can still grow the trie |
| Routing.Router.RegisterRoute | src/Routing.ts:70-95 | the method updates the arena and throws exactly as `Register` |
| Routing.Router.Get | src/Routing.ts:97-99 | `Register` with GET |
| Routing.Router.Post | src/Routing.ts:101-103 | `Register` with POST |
| Routing.Router.Put | src/Routing.ts:105-107 | `Register` with PUT |
| Routing.Router.Delete | src/Routing.ts:109-111 | `Register` with DELETE |
| Routing.Router.Patch | src/Routing.ts:113-115 | `Register` with PATCH |
| Routing.FirstConflict | src/Routing.ts:130-133 | the index of the first source method already bound in the target; no earlier one is bound |
| Routing.MergeRoutes | src/Routing.ts:130-135 | the target table gains the source entries in order up to the first conflict, which throws "Route conflict"; the merge is not atomic |
| Routing.AppendCopy | src/Routing.ts:138-155 | a shifted copy of the mounted arena is appended, keeping the arena well formed and every earlier node in place |
| Routing.LinkChild | src/Routing.ts:140 | a static child absent from the target is attached under its segment; every other node and child is unchanged |
| Routing.AttachChild | src/Routing.ts:139-140 | attaching a source-only static child links the target to the copy of that subtree |
| Routing.AttachParam | src/Routing.ts:149-150 | a param child is attached to a target without one by linking to the copy of the source's param subtree |
| Routing.MergeInto | src/Routing.ts:125-156 | target middlewares are followed by the source's; routes become `MergeRoutes`; a route conflict is thrown; paramName, existing children and the existing param child are kept; on success every source child and the param child exist in the target |
| Routing.MergeChildren | src/Routing.ts:138-145 | the loop over the source's static children only changes the target's children, keeps existing ones, and on success every remaining child segment is present |
| Routing.MergeChild | src/Routing.ts:139-144 | a child present on one side is attached, one present on both is merged recursively; on success the segment is present |
| Routing.MergeParam | src/Routing.ts:148-155 | a param child is attached when the target has none, merged recursively otherwise; the target's param child is kept |
| Routing.Mount | src/Routing.ts:117-123 | mounting keeps the arena well formed |
| Routing.MergeIntoCovers | src/Routing.ts:125-156 | merging keeps every edge, param child and bound method of the target arena; on success the target node covers the source node: it binds every method the source binds, and every static child of the source has a static child of the target under the same segment covering it |
| Routing.CoveredWalk | src/Routing.ts:169-171 | a path of static children of the mounted router, walked from a covering node, reaches a node covering the path's end |
| Routing.MountResolves | src/Routing.ts:117-123 | after a successful `mountRouter(base, router)`, a request for the base path followed by a path of static children of `router` leading to a node that binds a method is FOUND for that method |
| Routing.MountAtBase | src/Routing.ts:117-135 | the mounted root's middlewares follow the base node's; the first method bound on both sides throws RouteConflict; on success the base node's routes are its own followed by the mounted root's |
| Routing.Router.MountRouter | src/Routing.ts:117-123 | the method updates the arena and throws exactly as `Mount` |
| Routing.Router.MergeNodes | src/Routing.ts:125-156 | the recursive method updates the arena as `MergeInto` |
| Routing.Router.MergeRouteTable | src/Routing.ts:130-135 | the loop over the source's routes changes only the target's table, as `MergeRoutes` |
| Routing.Router.MergeChildNodes | src/Routing.ts:138-145 | the loop over the source's children acts as `MergeChildren` |
| Routing.Router.MergeChildNode | src/Routing.ts:139-144 | one iteration acts as `MergeChild` |
| Routing.Router.MergeParamNode | src/Routing.ts:148-155 | the param-child branch acts as `MergeParam` |
| Routing.AddMiddlewares | src/Signal.ts:108 | the node's middlewares gain the new ones at the end; every other node is unchanged |
| Routing.Walk | src/Routing.ts:164-180 | the walk ends on a node of the arena and only pushes onto the stack |
| Routing.StaticWins | src/Routing.ts:170-174 | where a node has both a static child for the segment and a param child, the static child is entered and no parameter is bound |
| Routing.WalkFollows | src/Routing.ts:169-180 | a request fitting a pattern (same length, equal at every static position) whose `:name` positions name no static child is walked along the pattern's edges to their end; the stack gains the middlewares of each node entered, in order, and each `:name` position binds its node's paramName to the request's segment |
| Routing.WalkAppend | src/Routing.ts:169-180 | walking `p` then `q` is walking `q` from where `p` ended, with the stack and params collected so far |
| Routing.Resolve | src/Routing.ts:158-207 | the root middlewares head the stack; METHOD_NOT_ALLOWED carries a non-empty allow list without the method; FOUND has a non-empty stack |
| Routing.WalkGrown | src/Routing.ts:43-68 | after `createRoute(path)`, a request fitting the path and not shadowed by a static child is walked to the node it returned, however the trie grew later without losing edges |
| Routing.ResolveBound | src/Routing.ts:183-207 | at a node where the method is bound, resolution is FOUND with the path middlewares, then the route middlewares, then the handler; any other method gives FOUND or METHOD_NOT_ALLOWED listing the bound method |
| Routing.RegisteredReached | src/Routing.ts:78-94 | after a successful registration, a request fitting the path and not shadowed by a static child is walked to the registered node, where the method is bound to {all arguments but the last, the last} |
| Routing.RegisteredMatches | src/Routing.ts:158-207 | after a successful registration, such a request is FOUND with the root's middlewares, those of the nodes on the way and the registration's arguments as its stack, and each `:name` position's segment bound to its node's paramName |
| Routing.RegisteredResolves | src/Routing.ts:158-207 | a registered parameter-free route resolves to FOUND, binds no parameter, its stack ends with the registration's arguments, and another method gets FOUND or 405 naming the registered one |
| Routing.BindingsAt | src/Routing.ts:172-173 | a `:name` position that no later position reuses is bound to the request's segment at that position |
| Routing.NewRouterParams | src/Routing.ts:70-95 | on a new router, registering a route with a handler succeeds, and a request fitting the path is FOUND with exactly the registration's arguments and each `:name` bound to the request's segment at its position (`/users/:id` gives id = "42" for `/users/42`) |
| Routing.Router.GetPathMiddlewareAndHandlers | src/Routing.ts:158-209 | the loop over the segments, with its pushes onto the stack, returns `Resolve` of the upper-cased method |
| Steps.PerformRaises | src/SignalResponse.ts:14-107 | only `error`, `cookie` and application throws raise; a throw leaves the state alone, and so does a refused cookie |
| Steps.PerformKeepsSent | src/SignalResponse.ts:120-139 | no response operation un-commits; only json, text and error commit or replace the response |
| Steps.PerformOn | src/SignalResponse.ts:14-139 | a step's call of a response method changes the object's state as `Perform` |
| Steps.UpdateOn | src/SignalResponse.ts:41-139 | status, header, json and text act on the object as `Perform` |
| Steps.RaiseOn | src/SignalResponse.ts:14-107 | error, cookie and throws act on the object as `Perform` |
| Dispatch.Exec | src/Signal.ts:134-153 | nothing runs once the response is sent or past the end of the stack |
| Dispatch.RunScript | src/Signal.ts:140-152 | a committed response stays committed through a step |
| Dispatch.ScriptStaysPut | src/Signal.ts:150-151 | a step that does not call next sees nothing after its own index |
| Dispatch.ChainEndsAt | src/Signal.ts:150-151 | the chain never advances past a terminal step or a step that never calls next |
| Dispatch.PassThrough | src/Signal.ts:142-149 | a step that only calls next runs the rest of the chain |
| Dispatch.NextTwice | src/Signal.ts:140-152 | a chaining step whose script calls next twice, with any actions around the calls, never finishes without an exception; when nothing before the second call can raise and the rest of the chain raises nothing, the exception is "next() called multiple times" |
| Dispatch.HeaderThenText | src/Signal.ts:134-153 | for any unsent response, a header-then-next middleware followed by a text handler commits the text with the response's status and its headers plus the new one, and the third entry never runs |
| Dispatch.ExecutionStack | src/Signal.ts:111-132 | global middlewares head every stack; FOUND appends the resolver's stack and passes the params; otherwise the stack is exactly the globals and allow is carried |
| Dispatch.Respond | src/Signal.ts:64-86 | a committed response wins even after a throw; otherwise a throw goes to the error handler, METHOD_NOT_ALLOWED gives 405 with Allow joined by ", ", anything else 404 |
| Dispatch.Params | src/Signal.ts:59 | the params of FOUND, else the empty record |
| Dispatch.WrongMethodIs405 | src/Signal.ts:70-77 | with no global middlewares, a registered parameter-free path asked with a method that finds no route is answered 405, with an Allow header listing the registered method |
| Dispatch.Signal.constructor | src/Signal.ts:16-24 | no global middlewares, an empty router, the default 500 handler |
| Dispatch.Signal.OnError | src/Signal.ts:26-28 | replaces the error handler only |
| Dispatch.Signal.Use | src/Signal.ts:94-99 | with a function first, appends that one function to the global middlewares, drops the further middlewares, and changes nothing else |
| Dispatch.Signal.UsePath | src/Signal.ts:102-108 | creates the path's node and appends the middlewares to it in order; the global list is unchanged |
| Dispatch.Signal.GetExecutionStack | src/Signal.ts:111-132 | returns `ExecutionStack` of the globals and the resolution |
| Dispatch.Signal.ExecuteStack | src/Signal.ts:134-153 | the recursive method leaves the response and the escaping exception as `Exec` |
| Dispatch.Signal.RunStep | src/Signal.ts:140-152 | a step's script, with the one-shot `called` flag of its continuation, acts as `RunScript` |
| Dispatch.Signal.Handle | src/Signal.ts:48-88 | the response and params are those of `Handled` and `Params` |
| Responses.ValuesConcat | src/SignalResponse.ts:105 | the values of a header in two lists are those of each in order |
| Responses.SetNamed | src/SignalResponse.ts:19 | after `set` of a lower-case name, that name has exactly the new value and every other name keeps its values |
| Responses.HeaderSet | src/SignalResponse.ts:49 | after `set`, the lower-cased name has exactly the new value and every other header is unchanged |
| Responses.AppendNamed | src/SignalResponse.ts:105 | after `append`, the header has its old values followed by the new one; others are unchanged |
| Responses.WithStatus | src/SignalResponse.ts:41-44 | only the status changes; nothing is committed |
| Responses.WithHeader | src/SignalResponse.ts:48-51 | the header is overwritten and nothing else changes |
| Responses.Commit | src/SignalResponse.ts:122-126 | the response carries the current status and headers and `sent` is true |
| Responses.SendJson | src/SignalResponse.ts:120-128 | sets content-type to application/json, leaves every other header as it was, and commits the JSON body with the current status and that header list |
| Responses.SendText | src/SignalResponse.ts:132-139 | commits the text with the current status and headers |
| Responses.SecondCommitReplaces | src/SignalResponse.ts:132-139 | a second commit replaces the first response |
| Responses.RaiseError | src/SignalResponse.ts:14-36 | on a sent response, throws "Response already sent" with the state unchanged; otherwise sets content-type to application/json, keeps every other header, commits `{error: message}` with the given status and that header list, and rethrows the error |
| Responses.AddCookie | src/SignalResponse.ts:65-107 | SameSite=None without Secure throws before any change; otherwise one Set-Cookie value is appended after the earlier ones and nothing else changes |
| Responses.EncodeURIComponent | src/SignalResponse.ts:71 | the encoded value holds only cookie-octets; an unreserved value is unchanged |
| Responses.PercentBytes | src/SignalResponse.ts:71 | each byte becomes three characters |
| Responses.PercentBytesOctets | src/SignalResponse.ts:71 | percent escapes are cookie-octets |
| Responses.DecodeEncodeAscii | src/SignalResponse.ts:71 | decoding an encoded US-ASCII value gives the value back |
| Responses.ClearCookieString | src/SignalResponse.ts:110-116 | clearing writes `name=; Expires=<epoch>; Path=/` |
| Responses.SignalResponse.constructor | src/SignalResponse.ts:7-10 | status 200, no headers, not sent, no response |
| Responses.SignalResponse.Status | src/SignalResponse.ts:41-44 | acts as `WithStatus` and returns the same object |
| Responses.SignalResponse.Header | src/SignalResponse.ts:48-51 | acts as `WithHeader` and returns the same object |
| Responses.SignalResponse.Json | src/SignalResponse.ts:120-128 | acts as `SendJson` and returns the committed response |
| Responses.SignalResponse.Text | src/SignalResponse.ts:132-139 | acts as `SendText` and returns the committed response |
| Responses.SignalResponse.Error | src/SignalResponse.ts:14-36 | acts as `RaiseError`, with status 500 and "Internal Server Error" by default |
| Responses.SignalResponse.Cookie | src/SignalResponse.ts:53-107 | acts as `AddCookie`, leaving the state alone when it throws |
| Responses.SignalResponse.ClearCookie | src/SignalResponse.ts:110-116 | a cookie with an empty value, Expires at the epoch and Path defaulting to "/" |
| Responses.SerializeCookie | src/SignalResponse.ts:71-103 | the `+=` steps build `CookieString`: name=encoded value, then Max-Age, Expires, Path, Domain, Secure, HttpOnly, SameSite, each only when given |
| Requests.GetHeader | src/SignalRequest.ts:32-34 | looks the lower-cased name up in the header table |
| Requests.QueryParam | src/SignalRequest.ts:36-38 | looks the lower-cased name up in the query table |
| Requests.LookupIgnoresCase | src/SignalRequest.ts:32-38 | lookups give the same result for any spelling of a name, and find a lower-case key under all of them |
| Requests.Json | src/SignalRequest.ts:40-49 | an absent or empty body throws "No body found"; a body without content-type exactly application/json throws; otherwise the body goes to the JSON parser |
| Requests.BodyText | src/SignalRequest.ts:53-55 | the body as stored |
| Parser.SplitHeaders | src/parser.ts:17-20 | the head is the text before the first blank line; the body is the text up to the next blank line, or "" |
| Parser.SplitHeadersOf | src/parser.ts:18 | a head and a body without blank lines are cut apart again |
| Parser.BodyStopsAtBlankLine | src/parser.ts:18 | a body containing a blank line keeps only what precedes it |
| Parser.RequestLine | src/parser.ts:31 | method, target and version are the first three space-separated words (the text before the first space, between the first and second, between the second and third), "" when missing |
| Parser.RequestLineWords | src/parser.ts:31 | three words without spaces are read back from `m p v` |
| Parser.HeaderLine | src/parser.ts:37-39 | a line with nothing before its first colon is skipped; otherwise the name before it, trimmed and lower-cased, and the rest of the line, colons included, trimmed |
| Parser.HeaderLineOf | src/parser.ts:37-39 | `name:value` with a colon-free name gives the trimmed lower-cased name and the trimmed value |
| Parser.QueryString | src/parser.ts:43 | the text between the first and second "?", or "" |
| Parser.QueryPair | src/parser.ts:49-52 | a pair is kept only when the text before the first "=" and the text up to the next "=" are both non-empty; both are lower-cased and trimmed |
| Parser.QueryPairOf | src/parser.ts:49-52 | `key=value` gives the lower-cased, trimmed key and value |
| Parser.QueryTable | src/parser.ts:43-54 | no query string gives an empty table; otherwise each key holds the value of the last pair giving it, and no other key is present |
| Parser.TableLastWins | src/parser.ts:36-54 | a table filled from nothing holds, for each key, the value of the last item giving it, and nothing else |
| Parser.StoreLastWins | src/parser.ts:36-40 | in the filled table, the last item giving a key wins and a key no item gives keeps its earlier value |
| Parser.HeaderKeysLower | src/parser.ts:39 | every stored header name is lower case |
| Parser.QueryKeysLower | src/parser.ts:51 | every stored query key is lower case |
| Parser.ParsedKeysLower | src/parser.ts:36-54 | every key of a parsed request's header and query tables is lower case |
| Parser.ParsedHeaderAnyCase | src/parser.ts:39 | a parsed header is found by `getHeader` under any spelling of its name |
| Parser.ParseRequest | src/parser.ts:22-64 | an empty head throws "Invalid HTTP Request: No headers found"; the body is absent exactly when empty; method, path and version come from the first line; each header name holds the value of the last header line giving it, and no other name is present; the query table is that of the path |
| Parser.ParseRequestLine | src/parser.ts:22-64 | `m p v`, a blank line and a body parse to that method, path, version and body, with no headers |
| Parser.ParseHeader | src/parser.ts:22-64 | the loops over header lines and query pairs produce `ParseRequest` |
| ResponseHead.StatusText | tests/responseTests.ts:1-6 | 400, 404 and 500 have the reasons "Bad Request", "Not Found" and "Internal Server Error"; any other code has "OK" |
| ResponseHead.Normalize | tests/responseTests.ts:10-12 | bytes pass unchanged; a string becomes as many bytes as its UTF-8 length |
| ResponseHead.Assign | tests/responseTests.ts:15-19 | assigning a record key keeps the place of an existing key, appends a new one, and changes no other key |
| ResponseHead.FinalFields | tests/responseTests.ts:15-19 | Content-Length is the length and Connection is "close", overriding the caller's; the caller's other fields and their order are kept |
| ResponseHead.AsciiContentLength | tests/responseTests.ts:17 | for ASCII text, Content-Length is its length |
| ResponseHead.FieldLinesAt | tests/responseTests.ts:25-27 | every field is written as `k: v` on its own line, in record order |
| ResponseHead.HeadEndsWithBlankLine | tests/responseTests.ts:30 | the head always ends with an empty line |
| ResponseHead.WriteHead | tests/responseTests.ts:22-30 | the `+=` loop writes the status line, one line per field and the blank line |
| ResponseHead.BuildResponse | tests/responseTests.ts:8-34 | the body is the data as bytes; the head is the status line, the final fields' lines and a blank line |

## Left out

- `listen`, `validate`, `cors` and `logRequests` in src/Signal.ts are left out: socket plumbing, schema validation, CORS policy and logging.
- src/Context.ts, src/Routes.ts and src/index.ts are not part of this model. The context is the response object plus the request fields.
- Requests.Json: returns the body text that `JSON.parse` would receive, since JSON parsing is not modelled.
- `JSON.stringify` and `JSON.parse` are not interpreted. A JSON body is an abstract `JsonValue` (`{error: message}` or an application value).
- The `Headers` and `Response` classes are modelled only as far as the code uses them: header `set`/`append` by lower-cased name, and a status/headers/body triple. Headers that the Fetch `Response` adds itself (such as a default Content-Type) are not modelled.
- `Date.toUTCString` is left out. `expires` holds the text it would produce, and `clearCookie` uses the epoch string.
- async/await is left out. The chain runs sequentially, and a step's body is a script of actions on the response. Steps do not read the request, and application code cannot catch exceptions inside a step.
- `fn.length` is replaced by the `Chaining`/`Terminal` tag.
- Routing.Mount: a mounted subtree is attached as a copy, not by reference. Later changes to the mounted router are not seen by the parent, and two parents never share a node.
- Routing.MergeInto: a route conflict below the target node is modelled (the recursive merge returns it), but no lemma states the converse of MergeIntoCovers, that a method bound on both sides at the same place always throws.
- Routing.Mount: that a mounted route is found under the base path (MountResolves) is proved only for routes reached through static children of the mounted router. Routes below a `:name` child of the mounted router are merged by the model but their resolution is not proved.
- Routing.Router.MountRouter: requires the mounted router to be a different object. Mounting a router into itself is not modelled.
- Dispatch.Signal.OnError: a custom error handler is a pure function of the exception and the response state. It cannot run further middleware or throw.
- Requests.GetHeader: `toLocaleLowerCase` is modelled as ASCII lower-casing. Locale-specific and non-ASCII case mappings are not modelled. The same holds for `toUpperCase` of the method and `toLowerCase` in the parser.
- Parser.ParseRequest: keys that a plain JavaScript object treats specially (`__proto__`) are stored like any other key.
- ResponseHead.BuildResponse: requires the caller's headers to have distinct keys, as any record does. Integer-like keys, which JavaScript orders first, keep insertion order. Data that is neither a string nor bytes is not modelled.
- Strings are sequences of Unicode scalar values, not UTF-16 code units, so a lone surrogate cannot be written. `Buffer.from` would encode one as U+FFFD and `encodeURIComponent` would throw URIError on it; neither case is modelled.
- Responses.AddCookie: `maxAge` is an integer, written with all its digits. A JavaScript number can also be fractional ("1.5"), `NaN` or `Infinity`, and from 10^21 on it is written in exponent form ("1e+21"); none of these is modelled.
- Requests.GetHeader: a name missing from the table gives no value. On a plain JavaScript object, a name such as `constructor` or `toString` finds an inherited member instead; the same holds for Requests.QueryParam.
