/**
 * The parsed request handed to middlewares and handlers. Its header and
 * query tables are plain records whose keys the parser stores lower-cased;
 * lookups lower-case the name they are given, so any spelling of a stored
 * name finds it.
 */
module Requests {
  import opened Wrappers
  import opened Text
  import opened Errors

  /** A request as the constructor stores it; `body` is absent when the
      raw request had nothing after its blank line. */
  datatype Request = Request(
    verb: string,
    path: string,
    version: string,
    headers: map<string, string>,
    query: map<string, string>,
    body: Option<string>)

  /** Indexing a record: `undefined` for a missing key. */
  function Get(table: map<string, string>, key: string): (r: Option<string>)
    ensures r.Some? <==> key in table
    ensures r.Some? ==> r.value == table[key]
  {
    if key in table then Some(table[key]) else None
  }

  /** `getHeader(name)`: the header stored under the lower-cased name. */
  function GetHeader(req: Request, name: string): (r: Option<string>)
    ensures r == Get(req.headers, Lower(name))
  {
    Get(req.headers, Lower(name))
  }

  /** `queryParams(name)`: the query value stored under the lower-cased name. */
  function QueryParam(req: Request, name: string): (r: Option<string>)
    ensures r == Get(req.query, Lower(name))
  {
    Get(req.query, Lower(name))
  }

  /** A header or query lookup does not depend on the case of the name
      asked for, and a name stored lower-cased is found under any of its
      spellings. */
  lemma LookupIgnoresCase(req: Request, name: string, other: string)
    requires EqualIgnoringCase(name, other)
    ensures GetHeader(req, name) == GetHeader(req, other)
    ensures QueryParam(req, name) == QueryParam(req, other)
    ensures IsLower(name) && name in req.headers ==> GetHeader(req, other) == Some(req.headers[name])
    ensures IsLower(name) && name in req.query ==> QueryParam(req, other) == Some(req.query[name])
  {
    if IsLower(name) {
      LowerFixes(name);
    }
  }

  /** `json()`: a request without a (non-empty) body raises "No body found";
      one whose `content-type` header is not exactly `application/json`
      raises the content-type error; otherwise the body text goes to the
      JSON parser. */
  function Json(req: Request): (r: Result<string, Exception>)
    ensures req.body.None? || req.body == Some("") ==> r == Err(NoBody)
    ensures (req.body.Some? && req.body.value != "" && Get(req.headers, "content-type") != Some("application/json"))
              ==> r == Err(NotJson)
    ensures r.Ok? <==> req.body.Some? && req.body.value != "" && Get(req.headers, "content-type") == Some("application/json")
    ensures r.Ok? ==> req.body == Some(r.value)
  {
    match req.body
    case Some(text) =>
      if text == "" then Err(NoBody)
      else if "content-type" !in req.headers || req.headers["content-type"] != "application/json" then Err(NotJson)
      else Ok(text)
    case None => Err(NoBody)
  }

  /** `text()`: the body as received. */
  function BodyText(req: Request): (r: Option<string>)
    ensures r == req.body
  {
    req.body
  }
}
