/**
 * Middlewares and handlers. JavaScript tells a middleware from a handler by
 * the arity of the function (`fn.length >= 2` receives `next`); here each
 * function carries that distinction as a tag, and its body is a script of
 * actions on the response, run in order until one of them throws.
 */
module Steps {
  import opened Wrappers
  import opened Errors
  import opened Responses

  /** One thing a middleware or handler does with its context. */
  datatype Action =
    /** `await next()`. */
    | CallNext
    /** `c.res.status(code)`. */
    | SetStatus(code: int)
    /** `c.res.header(key, value)`. */
    | SetHeader(key: string, value: string)
    /** `c.res.json(data)`. */
    | Json(data: JsonValue)
    /** `c.res.text(body)`. */
    | Text(body: string)
    /** `c.res.error(err, status, message)`. */
    | Fail(err: Exception, status: int, message: string)
    /** `c.res.cookie(name, value, options)`. */
    | SetCookie(name: string, value: string, options: CookieOptions)
    /** `throw` from application code. */
    | Throw(tag: nat)

  /** A function value, tagged by whether it declares the `next` parameter. */
  datatype Step =
    /** Arity two or more: it is handed a continuation. */
    | Chaining(script: seq<Action>)
    /** Arity below two: it is called with the context only. */
    | Terminal(script: seq<Action>)

  /** What can sit in a middleware list: a function, or some other value
      (routes only check the handler, so other values can be stored).
      `truthy` says whether the value is truthy. */
  datatype Callable = Fn(step: Step) | NonFunction(truthy: bool)

  /** The effect of an action other than `CallNext` on the response: the new
      state and the exception raised, if any. */
  function Perform(a: Action, st: ResState): (r: (ResState, Option<Exception>))
    requires !a.CallNext?
  {
    match a
    case SetStatus(code) => (WithStatus(st, code), None)
    case SetHeader(k, v) => (WithHeader(st, k, v), None)
    case Json(data) => (SendJson(st, data), None)
    case Text(body) => (SendText(st, body), None)
    case Fail(err, status, message) =>
      var (st', e) := RaiseError(st, err, status, message);
      (st', Some(e))
    case SetCookie(name, value, o) =>
      (match AddCookie(st, name, value, o)
       case Ok(st') => (st', None)
       case Err(e) => (st, Some(e)))
    case Throw(tag) => (st, Some(Raised(tag)))
  }

  /** Only `error`, `cookie` and application throws raise; a throw leaves
      the response as it was. */
  lemma PerformRaises(a: Action, st: ResState)
    requires !a.CallNext?
    ensures Perform(a, st).1.Some? ==> a.Fail? || a.SetCookie? || a.Throw?
    ensures a.Throw? ==> Perform(a, st) == (st, Some(Raised(a.tag)))
    ensures a.SetCookie? && Perform(a, st).1.Some? ==> Perform(a, st).0 == st
  {
  }

  /** No action un-commits a response; only `json`, `text` and `error`
      commit or replace the committed response. */
  lemma PerformKeepsSent(a: Action, st: ResState)
    requires !a.CallNext?
    ensures st.sent ==> Perform(a, st).0.sent
    ensures !a.Json? && !a.Text? && !a.Fail? ==>
              Perform(a, st).0.sent == st.sent && Perform(a, st).0.response == st.response
  {
  }

  /** An action other than `CallNext` done on the response object through
      its methods; `thrown` is the exception raised, if any. */
  method PerformOn(a: Action, res: SignalResponse) returns (thrown: Option<Exception>)
    requires !a.CallNext?
    modifies res
    ensures (res.State(), thrown) == Perform(a, old(res.State()))
  {
    if a.Fail? || a.SetCookie? || a.Throw? {
      thrown := RaiseOn(a, res);
    } else {
      UpdateOn(a, res);
      thrown := None;
    }
  }

  /** The actions that only update or commit the response. */
  method UpdateOn(a: Action, res: SignalResponse)
    requires a.SetStatus? || a.SetHeader? || a.Json? || a.Text?
    modifies res
    ensures res.State() == Perform(a, old(res.State())).0
  {
    match a
    case SetStatus(code) =>
      var _ := res.Status(code);
    case SetHeader(k, v) =>
      var _ := res.Header(k, v);
    case Json(data) =>
      var _ := res.Json(data);
    case Text(body) =>
      var _ := res.Text(body);
  }

  /** The actions that can raise. */
  method RaiseOn(a: Action, res: SignalResponse) returns (thrown: Option<Exception>)
    requires a.Fail? || a.SetCookie? || a.Throw?
    modifies res
    ensures (res.State(), thrown) == Perform(a, old(res.State()))
  {
    match a
    case Fail(err, status, message) =>
      var e := res.Error(err, status, message);
      thrown := Some(e);
    case SetCookie(name, value, o) =>
      thrown := res.Cookie(name, value, o);
    case Throw(tag) =>
      thrown := Some(Raised(tag));
  }
}
