/**
 * The application object: global middlewares, the router, the error
 * handler, and the dispatch of a request — resolve the route, run the
 * middleware chain against a fresh response, and turn the outcome into the
 * response that is sent back.
 */
module Dispatch {
  import opened Wrappers
  import opened Text
  import opened Errors
  import opened Responses
  import opened Steps
  import opened Routing

  // ---------------------------------------------------------------------
  // executeStack

  /** How a run of the chain ends: the response state and the exception
      that escaped, if any. */
  datatype Outcome = Outcome(st: ResState, thrown: Option<Exception>)

  /** `executeStack(stack, c, i)`: nothing runs once the response is
      committed or past the end of the stack, nor for a falsy entry; a
      truthy entry that is not a function raises the TypeError of calling
      it; a function runs its script, with a continuation to `i + 1` when it
      declares one. */
  function Exec(stack: seq<Callable>, i: nat, st: ResState): (r: Outcome)
    ensures st.sent || i >= |stack| ==> r == Outcome(st, None)
    decreases |stack| - i, 1, 0
  {
    if st.sent || i >= |stack| then Outcome(st, None)
    else
      match stack[i]
      case NonFunction(truthy) => if truthy then Outcome(st, Some(NotCallable)) else Outcome(st, None)
      case Fn(Terminal(script)) => RunScript(stack, i, script, st, false, false)
      case Fn(Chaining(script)) => RunScript(stack, i, script, st, false, true)
  }

  /** The rest of the script of the function at `stack[i]`. `called` is the
      continuation's guard; `chaining` says whether the function was given
      a continuation at all (otherwise `next` is undefined and calling it is
      a TypeError). An exception, whether raised by an action or coming out
      of the continuation, abandons the rest of the script. */
  function RunScript(stack: seq<Callable>, i: nat, script: seq<Action>, st: ResState, called: bool, chaining: bool): (r: Outcome)
    requires i < |stack|
    ensures st.sent ==> r.st.sent
    decreases |stack| - i, 0, |script|
  {
    if |script| == 0 then Outcome(st, None)
    else if script[0].CallNext? then
      if !chaining then Outcome(st, Some(NotCallable))
      else if called then Outcome(st, Some(NextCalledTwice))
      else
        var o := Exec(stack, i + 1, st);
        if o.thrown.Some? then o
        else RunScript(stack, i, script[1..], o.st, true, chaining)
    else
      PerformKeepsSent(script[0], st);
      var p := Perform(script[0], st);
      if p.1.Some? then Outcome(p.0, p.1)
      else RunScript(stack, i, script[1..], p.0, called, chaining)
  }

  /** The steps of a script without a continuation call never reach past
      `stack[i]`: two stacks that agree up to `i` give the same run. */
  lemma {:induction false} ScriptStaysPut(stack: seq<Callable>, other: seq<Callable>, i: nat, script: seq<Action>,
                                          st: ResState, called: bool, chaining: bool)
    requires i < |stack| && i < |other| && stack[..i + 1] == other[..i + 1]
    requires chaining ==> forall k :: 0 <= k < |script| ==> !script[k].CallNext?
    ensures RunScript(stack, i, script, st, called, chaining) == RunScript(other, i, script, st, called, chaining)
    decreases |script|
  {
    if |script| > 0 && !script[0].CallNext? {
      var p := Perform(script[0], st);
      if p.1.None? {
        ScriptStaysPut(stack, other, i, script[1..], p.0, called, chaining);
      }
    }
  }

  /** A step that never calls its continuation ends the chain: a terminal
      step, or a chaining step whose script has no `next()`, makes what
      follows it in the stack irrelevant. */
  lemma ChainEndsAt(stack: seq<Callable>, i: nat, st: ResState, rest: seq<Callable>)
    requires i < |stack| && stack[i].Fn?
    requires stack[i].step.Chaining? ==> forall k :: 0 <= k < |stack[i].step.script| ==> !stack[i].step.script[k].CallNext?
    ensures Exec(stack, i, st) == Exec(stack[..i + 1] + rest, i, st)
  {
    var other := stack[..i + 1] + rest;
    assert other[..i + 1] == stack[..i + 1];
    assert other[i] == stack[i];
    if !st.sent {
      ScriptStaysPut(stack, other, i, stack[i].step.script, st, false, stack[i].step.Chaining?);
    }
  }

  /** A middleware that only calls `next()` is transparent. */
  lemma PassThrough(stack: seq<Callable>, i: nat, st: ResState)
    requires i < |stack| && stack[i] == Fn(Chaining([CallNext]))
    ensures Exec(stack, i, st) == Exec(stack, i + 1, st)
  {
    if !st.sent {
      var o := Exec(stack, i + 1, st);
      assert [CallNext][1..] == [];
      assert RunScript(stack, i, [CallNext], st, false, true)
             == (if o.thrown.Some? then o else RunScript(stack, i, [], o.st, true, true));
    }
  }

  /** An action that updates or commits the response and never raises. */
  predicate Quiet(a: Action) {
    a.SetStatus? || a.SetHeader? || a.Json? || a.Text?
  }

  /** The chain from `stack[from]` on raises nothing, whatever the state of
      the response. */
  ghost predicate Harmless(stack: seq<Callable>, from: nat) {
    forall st :: Exec(stack, from, st).thrown.None?
  }

  /** Calling `next()` a second time: a chaining function whose script calls
      `next()` twice never finishes without an exception, whatever it does
      around the calls. When nothing before the second call can raise and
      the rest of the chain raises nothing, the exception is "next() called
      multiple times". */
  lemma NextTwice(stack: seq<Callable>, i: nat, script: seq<Action>, st: ResState, j: nat, k: nat)
    requires i < |stack| && stack[i] == Fn(Chaining(script)) && !st.sent
    requires j < k < |script| && script[j].CallNext? && script[k].CallNext?
    ensures Exec(stack, i, st).thrown.Some?
    ensures (forall m :: 0 <= m < k ==> script[m].CallNext? || Quiet(script[m]))
            && Harmless(stack, i + 1)
            ==> Exec(stack, i, st).thrown == Some(NextCalledTwice)
  {
    SecondCall(stack, i, script, st, false, j, k);
  }

  /** The rest of a script that still holds a `next()` call, run after
      `next()` was called once (or with an earlier call still ahead). */
  lemma {:induction false} SecondCall(stack: seq<Callable>, i: nat, script: seq<Action>, st: ResState, called: bool, j: nat, k: nat)
    requires i < |stack| && k < |script| && script[k].CallNext?
    requires called || (j < k && script[j].CallNext?)
    ensures RunScript(stack, i, script, st, called, true).thrown.Some?
    ensures (forall m :: 0 <= m < k ==> script[m].CallNext? || Quiet(script[m]))
            && Harmless(stack, i + 1)
            ==> RunScript(stack, i, script, st, called, true).thrown == Some(NextCalledTwice)
    decreases |script|
  {
    var rest := script[1..];
    if script[0].CallNext? {
      if !called && k > 0 {
        var o := Exec(stack, i + 1, st);
        if o.thrown.None? {
          SecondCall(stack, i, rest, o.st, true, 0, k - 1);
        }
      }
    } else {
      var p := Perform(script[0], st);
      if p.1.None? {
        SecondCall(stack, i, rest, p.0, called, if j > 0 then j - 1 else 0, k - 1);
      }
    }
  }

  /** A middleware sets a header and calls `next()`, and the handler after
      it answers with text without calling `next()`: whatever comes third
      never runs, and the committed response carries the status the
      response had, its headers with the middleware's header set, and the
      handler's text. */
  lemma HeaderThenText(key: string, value: string, body: string, third: Callable, st: ResState)
    requires !st.sent
    ensures var stack := [Fn(Chaining([SetHeader(key, value), CallNext])), Fn(Terminal([Text(body)])), third];
            Exec(stack, 0, st).thrown.None?
            && Exec(stack, 0, st).st.response
               == Some(HttpResponse(st.statusCode, HeaderSet(st.headers, key, value), TextBody(body)))
  {
    var stack := [Fn(Chaining([SetHeader(key, value), CallNext])), Fn(Terminal([Text(body)])), third];
    var st1 := WithHeader(st, key, value);
    var st2 := SendText(st1, body);
    assert [Text(body)][1..] == [];
    assert RunScript(stack, 1, [Text(body)], st1, false, false) == Outcome(st2, None);
    assert Exec(stack, 1, st1) == Outcome(st2, None);
    assert [CallNext][1..] == [];
    assert RunScript(stack, 0, [CallNext], st1, false, true) == Outcome(st2, None) by {
      assert st2.sent;
    }
    assert [SetHeader(key, value), CallNext][1..] == [CallNext];
  }

  // ---------------------------------------------------------------------
  // getExecutionStack and the outcome of handle

  /** `getExecutionStack`: the global middlewares always run first; a found
      route adds the resolver's stack after them and passes its parameters
      on; otherwise only the global middlewares run, and the allowed methods
      are carried along. */
  function ExecutionStack(globals: seq<Callable>, res: Resolution): (r: Resolution)
    ensures globals <= r.stack
    ensures r.Found? == res.Found? && r.NotFound? == res.NotFound?
    ensures r.Found? ==> r.stack[|globals|..] == res.stack && r.params == res.params
    ensures !r.Found? ==> r.stack == globals
    ensures r.MethodNotAllowed? ==> r.allow == res.allow
  {
    match res
    case Found(stack, params) => Found(globals + stack, params)
    case NotFound(_) => NotFound(globals)
    case MethodNotAllowed(_, allow) => MethodNotAllowed(globals, allow)
  }

  /** What `handleError` is: the built-in one, or the function given to
      `onError`, which sees the exception and the response state. */
  datatype ErrorHandler =
    | DefaultHandler
    | CustomHandler(fn: (Exception, ResState) -> HttpResponse)

  /** The built-in `handleError`: a plain 500. */
  const InternalServerError := HttpResponse(500, [], TextBody("Internal Server Error"))

  function HandleError(h: ErrorHandler, e: Exception, st: ResState): HttpResponse {
    match h
    case DefaultHandler => InternalServerError
    case CustomHandler(fn) => fn(e, st)
  }

  /** The response `handle` returns once the chain has run: a committed
      response always wins, whatever the routing outcome and whether or not
      something was thrown; otherwise an exception goes to the error
      handler, a refused method gets 405 with the allowed methods joined by
      ", " in Allow, and anything else gets 404. */
  function Respond(result: Resolution, run: Outcome, h: ErrorHandler): (r: HttpResponse)
    ensures run.st.response.Some? ==> r == run.st.response.value
    ensures run.st.response.None? && run.thrown.Some? ==> r == HandleError(h, run.thrown.value, run.st)
    ensures run.st.response.None? && run.thrown.None? && result.MethodNotAllowed? ==>
              r.status == 405 && r.body == TextBody("Method Not Allowed")
              && Values(r.headers, "allow") == [Join(result.allow, ", ")]
    ensures run.st.response.None? && run.thrown.None? && !result.MethodNotAllowed? ==>
              r == HttpResponse(404, [], TextBody("Not Found"))
  {
    if run.st.response.Some? then run.st.response.value
    else if run.thrown.Some? then HandleError(h, run.thrown.value, run.st)
    else if result.MethodNotAllowed? then
      HttpResponse(405, HeaderSet([], "Allow", Join(result.allow, ", ")), TextBody("Method Not Allowed"))
    else HttpResponse(404, [], TextBody("Not Found"))
  }

  /** The parameters `handle` stores on the request: those of a found
      route, `{}` otherwise. */
  function Params(result: Resolution): (r: map<string, string>)
    ensures result.Found? ==> r == result.params
    ensures !result.Found? ==> r == map[]
  {
    if result.Found? then result.params else map[]
  }

  /** The state of a response object that was just created. */
  const FreshState := ResState(200, [], false, None)

  /** `handle(req)` for a request with this method and path, in terms of the
      application's state. */
  function Handled(globals: seq<Callable>, nodes: seq<Node>, h: ErrorHandler, verbText: string, path: string): HttpResponse
    requires WellFormed(nodes)
  {
    var result := ExecutionStack(globals, Resolve(nodes, Segments(path), Upper(verbText)));
    Respond(result, Exec(result.stack, 0, FreshState), h)
  }

  /** With no global middlewares, a request for a path without parameters
      that has a route registered, made with a method that path does not
      bind, is answered 405 with the registered method among those listed in
      Allow. */
  lemma WrongMethodIs405(nodes: seq<Node>, path: string, verb: Verb, args: seq<Callable>, h: ErrorHandler, verbText: string)
    requires WellFormed(nodes) && Register(nodes, path, verb, args).1.None?
    requires forall i :: 0 <= i < |Segments(path)| ==> !IsParam(Segments(path)[i])
    requires !Resolve(Register(nodes, path, verb, args).0, Segments(path), Upper(verbText)).Found?
    ensures var final := Register(nodes, path, verb, args).0;
            var res := Resolve(final, Segments(path), Upper(verbText));
            res.MethodNotAllowed? && VerbName(verb) in res.allow
            && Handled([], final, h, verbText, path)
               == HttpResponse(405, HeaderSet([], "Allow", Join(res.allow, ", ")), TextBody("Method Not Allowed"))
  {
    RegisteredResolves(nodes, path, verb, args, Upper(verbText));
  }

  // ---------------------------------------------------------------------
  // The application object

  class Signal {
    var globalMiddlewares: seq<Callable>
    var routing: Router
    var handleError: ErrorHandler

    ghost predicate Valid()
      reads this, routing
    {
      routing.Valid()
    }

    /** A new application: no global middleware, an empty router, the
        built-in error handler. */
    constructor ()
      ensures Valid() && fresh(routing)
      ensures globalMiddlewares == [] && routing.nodes == [EmptyNode] && handleError.DefaultHandler?
    {
      globalMiddlewares := [];
      routing := new Router();
      handleError := DefaultHandler;
    }

    /** `onError(fn)`. */
    method OnError(fn: (Exception, ResState) -> HttpResponse)
      modifies this
      ensures handleError == CustomHandler(fn)
      ensures globalMiddlewares == old(globalMiddlewares) && routing == old(routing)
    {
      handleError := CustomHandler(fn);
    }

    /** `use(fn, ...more)`: `fn` becomes a global middleware, run before
        every request's stack; the middlewares in `more` are dropped. */
    method Use(fn: Step, more: seq<Callable>)
      modifies this
      ensures globalMiddlewares == old(globalMiddlewares) + [Fn(fn)]
      ensures routing == old(routing) && handleError == old(handleError)
    {
      globalMiddlewares := globalMiddlewares + [Fn(fn)];
    }

    /** `use(path, ...middlewares)`: the middlewares are appended to the
        path's node, which is created if needed; the global list is left
        alone. */
    method UsePath(path: string, middlewares: seq<Callable>)
      requires Valid()
      modifies routing
      ensures Valid()
      ensures var g := Grow(old(routing.nodes), 0, Segments(path));
              routing.nodes == AddMiddlewares(g.0, g.1, middlewares)
      ensures globalMiddlewares == old(globalMiddlewares)
    {
      var node := routing.CreateRoute(path);
      routing.nodes := AddMiddlewares(routing.nodes, node, middlewares);
    }

    /** `getExecutionStack(req)`. */
    method GetExecutionStack(path: string, verbText: string) returns (r: Resolution)
      requires Valid()
      ensures r == ExecutionStack(globalMiddlewares, Resolve(routing.nodes, Segments(path), Upper(verbText)))
    {
      var executionStack := globalMiddlewares;
      var result := routing.GetPathMiddlewareAndHandlers(path, verbText);
      if result.Found? {
        executionStack := executionStack + result.stack;
        return Found(executionStack, result.params);
      }
      if result.NotFound? {
        return NotFound(executionStack);
      }
      return MethodNotAllowed(executionStack, result.allow);
    }

    /** `executeStack(stack, c, i)` on the response object of the context. */
    method ExecuteStack(stack: seq<Callable>, res: SignalResponse, i: nat) returns (thrown: Option<Exception>)
      modifies res
      ensures Outcome(res.State(), thrown) == Exec(stack, i, old(res.State()))
      decreases |stack| - i, 1
    {
      if res.sent || i >= |stack| {
        return None;
      }
      var fn := stack[i];
      if fn.NonFunction? {
        return if fn.truthy then Some(NotCallable) else None;
      }
      thrown := RunStep(stack, i, fn.step.script, res, fn.step.Chaining?);
    }

    /** The function at `stack[i]` run against the response; `chaining`
        says whether it was handed the continuation, whose one-shot guard
        is `called`. */
    method RunStep(stack: seq<Callable>, i: nat, script: seq<Action>, res: SignalResponse, chaining: bool)
      returns (thrown: Option<Exception>)
      requires i < |stack|
      modifies res
      ensures Outcome(res.State(), thrown) == RunScript(stack, i, script, old(res.State()), false, chaining)
      decreases |stack| - i, 0
    {
      var called := false;
      var k := 0;
      while k < |script|
        invariant k <= |script|
        invariant RunScript(stack, i, script, old(res.State()), false, chaining)
                  == RunScript(stack, i, script[k..], res.State(), called, chaining)
      {
        assert script[k..][0] == script[k] && script[k..][1..] == script[k + 1..];
        if script[k].CallNext? {
          if !chaining {
            return Some(NotCallable);
          }
          if called {
            return Some(NextCalledTwice);
          }
          called := true;
          thrown := ExecuteStack(stack, res, i + 1);
          if thrown.Some? {
            return;
          }
        } else {
          thrown := PerformOn(script[k], res);
          if thrown.Some? {
            return;
          }
        }
        k := k + 1;
      }
      thrown := None;
    }

    /** `handle(req)` for a request with this method and path: the response
        returned and the parameters stored on the request. */
    method Handle(verbText: string, path: string) returns (response: HttpResponse, params: map<string, string>)
      requires Valid()
      ensures response == Handled(globalMiddlewares, routing.nodes, handleError, verbText, path)
      ensures params == Params(ExecutionStack(globalMiddlewares, Resolve(routing.nodes, Segments(path), Upper(verbText))))
    {
      var result := GetExecutionStack(path, verbText);
      params := if result.Found? then result.params else map[];
      var res := new SignalResponse();
      var thrown := ExecuteStack(result.stack, res, 0);
      if res.response.Some? {
        return res.response.value, params;
      }
      if thrown.Some? {
        return HandleError(handleError, thrown.value, res.State()), params;
      }
      if result.MethodNotAllowed? {
        return HttpResponse(405, HeaderSet([], "Allow", Join(result.allow, ", ")), TextBody("Method Not Allowed")), params;
      }
      response := HttpResponse(404, [], TextBody("Not Found"));
    }
  }
}
