/**
 * The response side of a request: the status, the header list, whether a
 * response has been committed and the committed response itself, together
 * with the `Set-Cookie` serialiser (section 4.1 of RFC 6265).
 *
 * The pure functions on `ResState` say what each operation does to the
 * state; the class `SignalResponse` updates its fields in place and each of
 * its methods is proved to act as the matching function.
 */
module Responses {
  import opened Wrappers
  import opened Text
  import opened Errors

  /** One entry of a header list: the lower-cased name and the value. */
  type Header = (string, string)

  /** The values stored under `name` (lower-case), in list order. */
  function Values(h: seq<Header>, name: string): seq<string> {
    if |h| == 0 then []
    else (if h[0].0 == name then [h[0].1] else []) + Values(h[1..], name)
  }

  lemma {:induction false} ValuesConcat(a: seq<Header>, b: seq<Header>, name: string)
    ensures Values(a + b, name) == Values(a, name) + Values(b, name)
  {
    if |a| == 0 {
      assert a + b == b;
    } else {
      assert (a + b)[0] == a[0];
      assert (a + b)[1..] == a[1..] + b;
      ValuesConcat(a[1..], b, name);
      var head := if a[0].0 == name then [a[0].1] else [];
      assert head + (Values(a[1..], name) + Values(b, name)) == (head + Values(a[1..], name)) + Values(b, name);
    }
  }

  /** Keeps the first entry named `n` with its value replaced by `v` and
      drops every later entry named `n` (once `done`, drops them all). */
  function Collapse(h: seq<Header>, n: string, v: string, done: bool): (r: seq<Header>)
    ensures Values(r, n) == if done || Values(h, n) == [] then [] else [v]
    ensures forall m :: m != n ==> Values(r, m) == Values(h, m)
  {
    if |h| == 0 then []
    else if h[0].0 == n then
      if done then Collapse(h[1..], n, v, true)
      else [(n, v)] + Collapse(h[1..], n, v, true)
    else [h[0]] + Collapse(h[1..], n, v, done)
  }

  /** Setting the entry named `n` (already lower-case): the first entry of
      that name takes the new value and the others go, or the entry is
      appended when there was none. */
  function SetNamed(h: seq<Header>, n: string, value: string): (r: seq<Header>)
    ensures Values(r, n) == [value]
    ensures forall m :: m != n ==> Values(r, m) == Values(h, m)
  {
    if Values(h, n) == [] then
      ValuesConcat(h, [(n, value)], n);
      forall m | m != n ensures Values(h + [(n, value)], m) == Values(h, m) {
        ValuesConcat(h, [(n, value)], m);
      }
      h + [(n, value)]
    else Collapse(h, n, value, false)
  }

  /** `Headers.append` of the Fetch Standard for a name `n` already
      lower-case: one more entry at the end; the entries already there are
      kept. */
  function AppendNamed(h: seq<Header>, n: string, value: string): (r: seq<Header>)
    ensures Values(r, n) == Values(h, n) + [value]
    ensures forall m :: m != n ==> Values(r, m) == Values(h, m)
  {
    ValuesConcat(h, [(n, value)], n);
    forall m | m != n ensures Values(h + [(n, value)], m) == Values(h, m) {
      ValuesConcat(h, [(n, value)], m);
    }
    h + [(n, value)]
  }

  /** `Headers.set` of the Fetch Standard: names compare without regard to
      case, so the name is lower-cased and then set. */
  function HeaderSet(h: seq<Header>, key: string, value: string): (r: seq<Header>)
    ensures Values(r, Lower(key)) == [value]
    ensures forall m :: m != Lower(key) ==> Values(r, m) == Values(h, m)
  {
    SetNamed(h, Lower(key), value)
  }

  /** What `JSON.stringify` is given: the `{error: message}` object that
      `error` builds, or a value supplied by application code. */
  datatype JsonValue = ErrorObject(message: string) | AppValue(tag: nat)

  datatype Body = JsonBody(value: JsonValue) | TextBody(text: string)

  /** A committed response: status, a snapshot of the header list, body. */
  datatype HttpResponse = HttpResponse(status: int, headers: seq<Header>, body: Body)

  /** The fields of a response under construction. */
  datatype ResState = ResState(statusCode: int, headers: seq<Header>, sent: bool, response: Option<HttpResponse>)

  /** `status(code)`. */
  function WithStatus(st: ResState, code: int): (r: ResState)
    ensures r.statusCode == code && r.headers == st.headers
    ensures r.sent == st.sent && r.response == st.response
  {
    st.(statusCode := code)
  }

  /** `header(key, value)`: overwrites any value stored under that name. */
  function WithHeader(st: ResState, key: string, value: string): (r: ResState)
    ensures Values(r.headers, Lower(key)) == [value]
    ensures forall m :: m != Lower(key) ==> Values(r.headers, m) == Values(st.headers, m)
    ensures r.statusCode == st.statusCode && r.sent == st.sent && r.response == st.response
  {
    st.(headers := HeaderSet(st.headers, key, value))
  }

  /** Commits `body` with the current status and header list. */
  function Commit(st: ResState, body: Body): (r: ResState)
    ensures r.sent && r.response == Some(HttpResponse(st.statusCode, st.headers, body))
    ensures r.statusCode == st.statusCode && r.headers == st.headers
  {
    st.(sent := true, response := Some(HttpResponse(st.statusCode, st.headers, body)))
  }

  /** `json(data)`: sets Content-Type to application/json and commits. The
      name is written as `Headers` stores it, lower-cased. It does not look
      at `sent`, so a second commit replaces the first. */
  function SendJson(st: ResState, data: JsonValue): (r: ResState)
    ensures r.sent && r.statusCode == st.statusCode
    ensures r.response == Some(HttpResponse(st.statusCode, r.headers, JsonBody(data)))
    ensures Values(r.headers, "content-type") == ["application/json"]
    ensures forall m :: m != "content-type" ==> Values(r.headers, m) == Values(st.headers, m)
  {
    Commit(st.(headers := SetNamed(st.headers, "content-type", "application/json")), JsonBody(data))
  }

  /** `text(body)`: commits the text with the current status and headers. */
  function SendText(st: ResState, body: string): (r: ResState)
    ensures r.sent && r.response == Some(HttpResponse(st.statusCode, st.headers, TextBody(body)))
  {
    Commit(st, TextBody(body))
  }

  /** `error(err, status, message)`: the new state and the exception it
      throws. On a committed response it throws "Response already sent" and
      changes nothing; otherwise it commits `{error: message}` as JSON with
      `status` and then throws `err` itself. */
  function RaiseError(st: ResState, err: Exception, status: int, message: string): (r: (ResState, Exception))
    ensures st.sent ==> r == (st, ResponseAlreadySent)
    ensures !st.sent ==> r.1 == err && r.0.sent && r.0.statusCode == status
    ensures !st.sent ==> r.0.response == Some(HttpResponse(status, r.0.headers, JsonBody(ErrorObject(message))))
    ensures !st.sent ==> Values(r.0.headers, "content-type") == ["application/json"]
    ensures !st.sent ==> forall m :: m != "content-type" ==> Values(r.0.headers, m) == Values(st.headers, m)
  {
    if st.sent then (st, ResponseAlreadySent)
    else (SendJson(WithStatus(st, status), ErrorObject(message)), err)
  }

  datatype SameSite = Strict | Lax | SameSiteNone

  function SameSiteText(s: SameSite): string {
    match s
    case Strict => "Strict"
    case Lax => "Lax"
    case SameSiteNone => "None"
  }

  /** The options of `cookie`; an absent field is `undefined`. `expires`
      holds the `toUTCString()` rendering of the date. */
  datatype CookieOptions = CookieOptions(
    maxAge: Option<int>,
    expires: Option<string>,
    path: Option<string>,
    domain: Option<string>,
    secure: Option<bool>,
    httpOnly: Option<bool>,
    sameSite: Option<SameSite>)

  const NoOptions := CookieOptions(None, None, None, None, None, None, None)

  /** `new Date(0).toUTCString()`. */
  const Epoch := "Thu, 01 Jan 1970 00:00:00 GMT"

  /** The options `clearCookie(name, path)` passes on to `cookie`. */
  function ClearOptions(path: string): CookieOptions {
    NoOptions.(path := Some(path), expires := Some(Epoch))
  }

  /** A string option counts only when it is a non-empty string (truthy). */
  predicate Truthy(o: Option<string>) {
    o.Some? && o.value != ""
  }

  /** The cookie is refused: SameSite=None without Secure. */
  predicate InsecureSameSiteNone(o: CookieOptions) {
    o.sameSite == Some(SameSiteNone) && o.secure != Some(true)
  }

  /** `text` when the attribute is given, nothing otherwise. */
  function Optional(given: bool, text: string): string {
    if given then text else ""
  }

  /** The Set-Cookie value (section 4.1.1 of RFC 6265): the cookie-pair
      `name=encoded value`, then each attribute only when it is given, always
      in the order Max-Age, Expires, Path, Domain, Secure, HttpOnly,
      SameSite. */
  function CookieString(name: string, value: string, o: CookieOptions): string {
    name + "=" + EncodeURIComponent(value)
    + Optional(o.maxAge.Some?, "; Max-Age=" + IntToString(o.maxAge.GetOr(0)))
    + Optional(o.expires.Some?, "; Expires=" + o.expires.GetOr(""))
    + Optional(Truthy(o.path), "; Path=" + o.path.GetOr(""))
    + Optional(Truthy(o.domain), "; Domain=" + o.domain.GetOr(""))
    + Optional(o.secure == Some(true), "; Secure")
    + Optional(o.httpOnly == Some(true), "; HttpOnly")
    + Optional(o.sameSite.Some?, "; SameSite=" + SameSiteText(o.sameSite.GetOr(Lax)))
  }

  /** `cookie(name, value, options)`: refused before the header list is
      touched, or one more Set-Cookie entry (stored lower-cased) appended. */
  function AddCookie(st: ResState, name: string, value: string, o: CookieOptions): (r: Result<ResState, Exception>)
    ensures r.Err? <==> InsecureSameSiteNone(o)
    ensures r.Err? ==> r.error == SameSiteNoneWithoutSecure
    ensures r.Ok? ==> Values(r.value.headers, "set-cookie") == Values(st.headers, "set-cookie") + [CookieString(name, value, o)]
    ensures r.Ok? ==> forall m :: m != "set-cookie" ==> Values(r.value.headers, m) == Values(st.headers, m)
    ensures r.Ok? ==> r.value.(headers := st.headers) == st
  {
    if InsecureSameSiteNone(o) then Err(SameSiteNoneWithoutSecure)
    else Ok(st.(headers := AppendNamed(st.headers, "set-cookie", CookieString(name, value, o))))
  }

  // ---------------------------------------------------------------------
  // encodeURIComponent (section 18.2.6.5 of ECMA-262)

  /** The characters `encodeURIComponent` leaves as they are. */
  predicate Unreserved(c: char) {
    ('A' <= c <= 'Z') || ('a' <= c <= 'z') || ('0' <= c <= '9')
    || c == '-' || c == '_' || c == '.' || c == '!' || c == '~'
    || c == '*' || c == '\'' || c == '(' || c == ')'
  }

  function HexDigit(d: nat): char
    requires d < 16
  {
    "0123456789ABCDEF"[d]
  }

  /** `%XX` for each byte, upper-case hexadecimal. */
  function PercentBytes(bs: seq<byte>): (r: string)
    ensures |r| == 3 * |bs|
  {
    if |bs| == 0 then ""
    else ['%', HexDigit(bs[0] as nat / 16), HexDigit(bs[0] as nat % 16)] + PercentBytes(bs[1..])
  }

  /** A cookie-octet of section 4.1.1 of RFC 6265: US-ASCII except controls,
      white space, double quote, comma, semicolon and backslash. */
  predicate CookieOctet(c: char) {
    c == '!' || ('#' <= c <= '+') || ('-' <= c <= ':') || ('<' <= c <= '[') || (']' <= c <= '~')
  }

  /** `encodeURIComponent(s)`: unreserved characters stay, every other
      character becomes the percent-encoding of its UTF-8 bytes. The result
      is made of cookie-octets only, so an encoded value can never end the
      cookie-pair early or inject an attribute. */
  function EncodeURIComponent(s: string): (r: string)
    ensures forall i :: 0 <= i < |r| ==> CookieOctet(r[i])
    ensures (forall i :: 0 <= i < |s| ==> Unreserved(s[i])) ==> r == s
  {
    if |s| == 0 then ""
    else
      var head := if Unreserved(s[0]) then [s[0]] else PercentBytes(Utf8Char(s[0]));
      assert forall i :: 0 <= i < |head| ==> CookieOctet(head[i]) by {
        if !Unreserved(s[0]) { PercentBytesOctets(Utf8Char(s[0])); }
      }
      head + EncodeURIComponent(s[1..])
  }

  lemma {:induction false} PercentBytesOctets(bs: seq<byte>)
    ensures forall i :: 0 <= i < |PercentBytes(bs)| ==> CookieOctet(PercentBytes(bs)[i])
  {
    if |bs| > 0 { PercentBytesOctets(bs[1..]); }
  }

  /** The value of one hexadecimal digit (either case), if it is one. */
  function HexValue(c: char): Option<nat> {
    if '0' <= c <= '9' then Some(c as nat - '0' as nat)
    else if 'A' <= c <= 'F' then Some(c as nat - 'A' as nat + 10)
    else if 'a' <= c <= 'f' then Some(c as nat - 'a' as nat + 10)
    else None
  }

  /** `decodeURIComponent` restricted to text whose escapes are single
      US-ASCII bytes; anything else is refused. */
  function DecodeAscii(s: string): Option<string> {
    if |s| == 0 then Some("")
    else if s[0] != '%' then
      match DecodeAscii(s[1..])
      case None => None
      case Some(t) => Some([s[0]] + t)
    else if |s| < 3 then None
    else match (HexValue(s[1]), HexValue(s[2]))
      case (Some(h), Some(l)) =>
        if h * 16 + l < 0x80 then
          match DecodeAscii(s[3..])
          case None => None
          case Some(t) => Some([(h * 16 + l) as char] + t)
        else None
      case _ => None
  }

  /** For a US-ASCII value, decoding the encoded cookie value gives the
      value back. */
  lemma {:induction false} DecodeEncodeAscii(s: string)
    requires forall i :: 0 <= i < |s| ==> s[i] as int < 0x80
    ensures DecodeAscii(EncodeURIComponent(s)) == Some(s)
  {
    if |s| > 0 {
      DecodeEncodeAscii(s[1..]);
      var c := s[0];
      var tail := EncodeURIComponent(s[1..]);
      assert s == [c] + s[1..];
      if Unreserved(c) {
        DecodeLiteral(c, tail);
      } else {
        DecodePercent(c, tail);
      }
    }
  }

  lemma DecodeLiteral(c: char, tail: string)
    requires c != '%'
    ensures DecodeAscii([c] + tail) == (match DecodeAscii(tail) case None => None case Some(t) => Some([c] + t))
  {
    assert ([c] + tail)[0] == c;
    assert ([c] + tail)[1..] == tail;
  }

  lemma DecodePercent(c: char, tail: string)
    requires c as int < 0x80
    ensures DecodeAscii(PercentBytes(Utf8Char(c)) + tail)
            == (match DecodeAscii(tail) case None => None case Some(t) => Some([c] + t))
  {
    var b := c as int;
    assert Utf8Char(c) == [b as byte];
    var hi, lo := HexDigit(b / 16), HexDigit(b % 16);
    var e := PercentBytes([b as byte]);
    assert e == ['%', hi, lo];
    var w := e + tail;
    assert w[0] == '%' && w[1] == hi && w[2] == lo && w[3..] == tail;
    assert HexValue(hi) == Some(b / 16);
    assert HexValue(lo) == Some(b % 16);
    assert (b / 16) * 16 + b % 16 == b;
  }

  /** A cookie whose value is cleared: the empty value, an Expires at the
      epoch and, when the path is the default, `Path=/`. */
  lemma ClearCookieString(name: string)
    ensures CookieString(name, "", ClearOptions("/"))
            == name + "=" + ("; Expires=" + Epoch) + "; Path=/"
  {
    var o := ClearOptions("/");
    assert EncodeURIComponent("") == "";
    assert name + "=" + "" == name + "=";
    assert Optional(o.maxAge.Some?, "; Max-Age=" + IntToString(o.maxAge.GetOr(0))) == "";
  }

  /** Committing again replaces the earlier response. */
  lemma {:induction false} SecondCommitReplaces(st: ResState, first: string, second: string)
    ensures SendText(SendText(st, first), second).response.value.body == TextBody(second)
    ensures SendText(SendText(st, first), second).response.value.status == st.statusCode
  {
  }

  // ---------------------------------------------------------------------
  // The response object

  class SignalResponse {
    var statusCode: int
    var headers: seq<Header>
    var sent: bool
    var response: Option<HttpResponse>

    /** The object's fields as a value. */
    function State(): ResState
      reads this
    {
      ResState(statusCode, headers, sent, response)
    }

    /** A fresh response: status 200, no headers, nothing committed. */
    constructor ()
      ensures State() == ResState(200, [], false, None)
    {
      statusCode := 200;
      headers := [];
      sent := false;
      response := None;
    }

    method Status(code: int) returns (self: SignalResponse)
      modifies this
      ensures self == this
      ensures State() == WithStatus(old(State()), code)
    {
      statusCode := code;
      self := this;
    }

    method Header(key: string, value: string) returns (self: SignalResponse)
      modifies this
      ensures self == this
      ensures State() == WithHeader(old(State()), key, value)
    {
      headers := HeaderSet(headers, key, value);
      self := this;
    }

    method Json(data: JsonValue) returns (r: HttpResponse)
      modifies this
      ensures State() == SendJson(old(State()), data)
      ensures response == Some(r)
    {
      headers := SetNamed(headers, "content-type", "application/json");
      r := HttpResponse(statusCode, headers, JsonBody(data));
      response := Some(r);
      sent := true;
    }

    method Text(body: string) returns (r: HttpResponse)
      modifies this
      ensures State() == SendText(old(State()), body)
      ensures response == Some(r)
    {
      r := HttpResponse(statusCode, headers, TextBody(body));
      response := Some(r);
      sent := true;
    }

    /** `error(err, status = 500, message = "Internal Server Error")`: it
        always throws; `thrown` is the exception. */
    method Error(err: Exception, status: int := 500, message: string := "Internal Server Error")
      returns (thrown: Exception)
      modifies this
      ensures (State(), thrown) == RaiseError(old(State()), err, status, message)
    {
      if sent {
        return ResponseAlreadySent;
      }
      statusCode := status;
      headers := SetNamed(headers, "content-type", "application/json");
      response := Some(HttpResponse(status, headers, JsonBody(ErrorObject(message))));
      sent := true;
      thrown := err;
    }

    /** `cookie(name, value, options)`: `thrown` is the exception raised,
        if any. The string is built attribute by attribute. */
    method Cookie(name: string, value: string, o: CookieOptions) returns (thrown: Option<Exception>)
      modifies this
      ensures thrown.None? ==> AddCookie(old(State()), name, value, o) == Ok(State())
      ensures thrown.Some? ==> AddCookie(old(State()), name, value, o) == Err(thrown.value)
                               && State() == old(State())
    {
      if o.sameSite == Some(SameSiteNone) && o.secure != Some(true) {
        return Some(SameSiteNoneWithoutSecure);
      }
      var cookie := SerializeCookie(name, value, o);
      headers := AppendNamed(headers, "set-cookie", cookie);
      thrown := None;
    }

    /** `clearCookie(name, path = "/")`. */
    method ClearCookie(name: string, path: string := "/") returns (self: SignalResponse)
      modifies this
      ensures self == this
      ensures AddCookie(old(State()), name, "", ClearOptions(path)) == Ok(State())
    {
      var _ := Cookie(name, "", ClearOptions(path));
      self := this;
    }
  }

  /** The Set-Cookie value `cookie` builds, by successive appends; each
      attribute is rendered on its own and then appended. */
  method SerializeCookie(name: string, value: string, o: CookieOptions) returns (cookie: string)
    ensures cookie == CookieString(name, value, o)
  {
    cookie := name + "=" + EncodeURIComponent(value);
    ghost var before0 := cookie;
    if o.maxAge.Some? {
      cookie := cookie + ("; Max-Age=" + IntToString(o.maxAge.value));
    }
    assert cookie == before0 + Optional(o.maxAge.Some?, "; Max-Age=" + IntToString(o.maxAge.GetOr(0))) by { assert before0 + "" == before0; }
    ghost var before1 := cookie;
    if o.expires.Some? {
      cookie := cookie + ("; Expires=" + o.expires.value);
    }
    assert cookie == before1 + Optional(o.expires.Some?, "; Expires=" + o.expires.GetOr("")) by { assert before1 + "" == before1; }
    ghost var before2 := cookie;
    if o.path.Some? && o.path.value != "" {
      cookie := cookie + ("; Path=" + o.path.value);
    }
    assert cookie == before2 + Optional(Truthy(o.path), "; Path=" + o.path.GetOr("")) by { assert before2 + "" == before2; }
    ghost var before3 := cookie;
    if o.domain.Some? && o.domain.value != "" {
      cookie := cookie + ("; Domain=" + o.domain.value);
    }
    assert cookie == before3 + Optional(Truthy(o.domain), "; Domain=" + o.domain.GetOr("")) by { assert before3 + "" == before3; }
    ghost var before4 := cookie;
    if o.secure == Some(true) {
      cookie := cookie + ("; Secure");
    }
    assert cookie == before4 + Optional(o.secure == Some(true), "; Secure") by { assert before4 + "" == before4; }
    ghost var before5 := cookie;
    if o.httpOnly == Some(true) {
      cookie := cookie + ("; HttpOnly");
    }
    assert cookie == before5 + Optional(o.httpOnly == Some(true), "; HttpOnly") by { assert before5 + "" == before5; }
    ghost var before6 := cookie;
    if o.sameSite.Some? {
      cookie := cookie + ("; SameSite=" + SameSiteText(o.sameSite.value));
    }
    assert cookie == before6 + Optional(o.sameSite.Some?, "; SameSite=" + SameSiteText(o.sameSite.GetOr(Lax))) by { assert before6 + "" == before6; }
  }
}
