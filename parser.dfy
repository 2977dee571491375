/**
 * The HTTP/1.1 request parser. The raw request is cut at its first blank
 * line; the head is split into lines, the first of which is split on single
 * spaces into method, target and version; each further line `name: value`
 * is stored in a header table under its trimmed, lower-cased name; and the
 * query string of the target is split on `&` and `=` into a query table.
 * Later entries overwrite earlier ones under the same key.
 */
module Parser {
  import opened Wrappers
  import opened Text
  import opened Errors
  import opened Requests

  /** The blank line that ends the head. */
  const BlankLine: string := "\r\n\r\n"

  /** The line break between the lines of the head. */
  const LineBreak: string := "\r\n"

  /** `s` holds no occurrence of the character `c`. */
  predicate Lacks(s: string, c: char) {
    forall i :: 0 <= i < |s| ==> s[i] != c
  }

  /** `splitHeaders(req)`: the head is the text before the first blank line;
      the body is the text between it and the next blank line, empty when
      the request has no blank line. */
  function SplitHeaders(raw: string): (r: (string, string))
    ensures r.0 == Before(raw, BlankLine)
    ensures IndexOf(raw, BlankLine).None? ==> r.1 == ""
    ensures IndexOf(raw, BlankLine).Some? ==> r.1 == Before(After(raw, BlankLine), BlankLine)
  {
    var parts := Split(raw, BlankLine);
    SplitHead(raw, BlankLine);
    (parts[0], if |parts| > 1 then parts[1] else "")
  }

  /** The `k`-th word, or "" when there are fewer words (`word || ""`). */
  function Word(words: seq<string>, k: nat): string {
    if k < |words| then words[k] else ""
  }

  /** The request line split on single spaces: method, target and version,
      each empty when missing; words after the third are dropped. */
  function RequestLine(line: string): (r: (string, string, string))
    ensures r.0 == Before(line, " ")
    ensures IndexOf(line, " ").None? ==> r.1 == "" && r.2 == ""
    ensures IndexOf(line, " ").Some? ==> r.1 == Before(After(line, " "), " ")
    ensures IndexOf(line, " ").Some? && IndexOf(After(line, " "), " ").None? ==> r.2 == ""
    ensures IndexOf(line, " ").Some? && IndexOf(After(line, " "), " ").Some?
            ==> r.2 == Before(After(After(line, " "), " "), " ")
  {
    var words := Split(line, " ");
    SplitHead(line, " ");
    SplitPieces(line, " ");
    SplitHead(After(line, " "), " ");
    (Word(words, 0), Word(words, 1), Word(words, 2))
  }

  /** One header line: skipped (None) when nothing precedes its first colon;
      otherwise the trimmed, lower-cased name before the first colon and the
      trimmed text after it, later colons included. */
  function HeaderLine(line: string): (r: Option<(string, string)>)
    ensures r.None? <==> Before(line, ":") == ""
    ensures r.Some? ==> r.value == (Lower(Trim(Before(line, ":"))), Trim(After(line, ":")))
  {
    var parts := Split(line, ":");
    SplitPieces(line, ":");
    JoinTail(line, ":");
    if parts[0] == "" then None
    else Some((Lower(Trim(parts[0])), Trim(Join(parts[1..], ":"))))
  }

  /** `(path || "").split("?")[1]`: the text between the first and the
      second question mark of the target, empty when it has none. */
  function QueryString(path: string): (r: string)
    ensures IndexOf(path, "?").None? ==> r == ""
    ensures IndexOf(path, "?").Some? ==> r == Before(After(path, "?"), "?")
  {
    var parts := Split(path, "?");
    SplitHead(path, "?");
    if |parts| > 1 then parts[1] else ""
  }

  /** One `key=value` pair of the query string: kept only when both the
      text before the first `=` and the text between it and the next `=`
      are non-empty, and then both are lower-cased and trimmed. */
  function QueryPair(pair: string): (r: Option<(string, string)>)
    ensures r.Some? <==> Before(pair, "=") != "" && Before(After(pair, "="), "=") != ""
    ensures r.Some? ==> r.value == (Trim(Lower(Before(pair, "="))), Trim(Lower(Before(After(pair, "="), "="))))
  {
    var parts := Split(pair, "=");
    SplitHead(pair, "=");
    var key := parts[0];
    var value := if |parts| > 1 then parts[1] else "";
    if key != "" && value != "" then Some((Trim(Lower(key)), Trim(Lower(value)))) else None
  }

  /** Storing one item in a table: the key and value `entry` reads from it,
      if any, overwrite what the table held. */
  function StoreOne(table: map<string, string>, item: string, entry: string -> Option<(string, string)>): map<string, string> {
    match entry(item)
    case None => table
    case Some(kv) => table[kv.0 := kv.1]
  }

  /** The loops of the parser: the items stored left to right. */
  function Store(table: map<string, string>, items: seq<string>, entry: string -> Option<(string, string)>): map<string, string>
    decreases |items|
  {
    if |items| == 0 then table
    else Store(StoreOne(table, items[0], entry), items[1..], entry)
  }

  /** Reference definition: the value of the last item that gives `key`. */
  function LastEntry(items: seq<string>, entry: string -> Option<(string, string)>, key: string): (r: Option<string>)
    decreases |items|
  {
    if |items| == 0 then None
    else
      var last := items[|items| - 1];
      if entry(last).Some? && entry(last).value.0 == key then Some(entry(last).value.1)
      else LastEntry(items[..|items| - 1], entry, key)
  }

  /** The value found for a key comes from an item that gives that key. */
  lemma {:induction false} LastEntryFrom(items: seq<string>, entry: string -> Option<(string, string)>, key: string)
    requires LastEntry(items, entry, key).Some?
    ensures exists i :: 0 <= i < |items| && entry(items[i]) == Some((key, LastEntry(items, entry, key).value))
    decreases |items|
  {
    var n := |items|;
    var v := LastEntry(items, entry, key).value;
    if entry(items[n - 1]).Some? && entry(items[n - 1]).value.0 == key {
      assert entry(items[n - 1]) == Some((key, v));
    } else {
      var init := items[..n - 1];
      LastEntryFrom(init, entry, key);
      var i :| 0 <= i < n - 1 && entry(init[i]) == Some((key, v));
      assert init[i] == items[i];
    }
  }

  /** Every key of a table filled from nothing comes from some item. */
  lemma StoredKeyFrom(items: seq<string>, entry: string -> Option<(string, string)>, key: string)
    requires key in Store(map[], items, entry)
    ensures exists i :: 0 <= i < |items| && entry(items[i]).Some? && entry(items[i]).value.0 == key
  {
    StoreLastWins(map[], items, entry, key);
    LastEntryFrom(items, entry, key);
  }

  /** A table filled from nothing holds, for each key, the value of the
      last item that gives that key, and nothing else. */
  lemma TableLastWins(items: seq<string>, entry: string -> Option<(string, string)>)
    ensures forall key :: Get(Store(map[], items, entry), key) == LastEntry(items, entry, key)
  {
    forall key ensures Get(Store(map[], items, entry), key) == LastEntry(items, entry, key) {
      StoreLastWins(map[], items, entry, key);
    }
  }

  /** The table of the query string of a target; empty when it has none,
      and otherwise holding for each key the value of the last pair that
      gives it. */
  function QueryTable(path: string): (r: map<string, string>)
    ensures QueryString(path) == "" ==> r == map[]
    ensures QueryString(path) != "" ==>
              forall key :: Get(r, key) == LastEntry(Split(QueryString(path), "&"), QueryPair, key)
  {
    var query := QueryString(path);
    if query != "" then
      TableLastWins(Split(query, "&"), QueryPair);
      Store(map[], Split(query, "&"), QueryPair)
    else map[]
  }

  /** The lines of the head after the request line. */
  function HeaderLines(raw: string): seq<string> {
    Split(Before(raw, BlankLine), LineBreak)[1..]
  }

  /** `parseHeader(req)`: a request whose head is empty is rejected;
      otherwise the request line, the header table, the query table and the
      body (absent when empty) are read from it. */
  function ParseRequest(raw: string): (r: Result<Request, Exception>)
    ensures r.Err? <==> Before(raw, BlankLine) == ""
    ensures r.Err? ==> r.error == NoHeaders
    ensures r.Ok? ==> (r.value.body.None? <==> SplitHeaders(raw).1 == "")
    ensures r.Ok? && r.value.body.Some? ==> r.value.body.value == SplitHeaders(raw).1
    ensures r.Ok? ==> (r.value.verb, r.value.path, r.value.version) == RequestLine(Before(Before(raw, BlankLine), LineBreak))
    ensures r.Ok? ==> forall key :: Get(r.value.headers, key) == LastEntry(HeaderLines(raw), HeaderLine, key)
    ensures r.Ok? ==> r.value.query == QueryTable(r.value.path)
  {
    var split := SplitHeaders(raw);
    var head := split.0;
    var body := split.1;
    if head == "" then Err(NoHeaders)
    else
      var lines := Split(head, LineBreak);
      SplitPieces(head, LineBreak);
      var words := RequestLine(lines[0]);
      TableLastWins(lines[1..], HeaderLine);
      Ok(Request(words.0, words.1, words.2,
                 Store(map[], lines[1..], HeaderLine),
                 QueryTable(words.1),
                 if body == "" then None else Some(body)))
  }

  /** `parseHeader(req)` as the source runs it: a loop over the header lines
      and a loop over the query pairs, each filling its table. */
  method ParseHeader(raw: string) returns (r: Result<Request, Exception>)
    ensures r == ParseRequest(raw)
  {
    var split := SplitHeaders(raw);
    var head := split.0;
    var body := split.1;
    if head == "" {
      return Err(NoHeaders);
    }
    var lines := Split(head, LineBreak);
    var words := RequestLine(lines[0]);
    var path := words.1;

    var headers: map<string, string> := map[];
    var i := 1;
    while i < |lines|
      invariant 1 <= i <= |lines|
      invariant Store(headers, lines[i..], HeaderLine) == Store(map[], lines[1..], HeaderLine)
    {
      assert lines[i..][0] == lines[i] && lines[i..][1..] == lines[i + 1..];
      var line := lines[i];
      var kv := HeaderLine(line);
      if kv.Some? {
        headers := headers[kv.value.0 := kv.value.1];
      }
      i := i + 1;
    }

    var query: map<string, string> := map[];
    var queryString := QueryString(path);
    if queryString != "" {
      var pairs := Split(queryString, "&");
      var k := 0;
      while k < |pairs|
        invariant 0 <= k <= |pairs|
        invariant Store(query, pairs[k..], QueryPair) == Store(map[], pairs, QueryPair)
      {
        assert pairs[k..][0] == pairs[k] && pairs[k..][1..] == pairs[k + 1..];
        var kv := QueryPair(pairs[k]);
        if kv.Some? {
          query := query[kv.value.0 := kv.value.1];
        }
        k := k + 1;
      }
    }

    r := Ok(Request(words.0, path, words.2, headers, query, if body == "" then None else Some(body)));
  }

  /** Storing one more item is one more step after the others. */
  lemma {:induction false} StoreSnoc(table: map<string, string>, items: seq<string>, item: string, entry: string -> Option<(string, string)>)
    ensures Store(table, items + [item], entry) == StoreOne(Store(table, items, entry), item, entry)
    decreases |items|
  {
    if |items| == 0 {
      assert (items + [item])[1..] == [];
    } else {
      assert (items + [item])[1..] == items[1..] + [item];
      StoreSnoc(StoreOne(table, items[0], entry), items[1..], item, entry);
    }
  }

  /** The last item giving a key wins; a key no item gives keeps the value
      the table held, and no other key appears. */
  lemma {:induction false} StoreLastWins(table: map<string, string>, items: seq<string>, entry: string -> Option<(string, string)>, key: string)
    ensures LastEntry(items, entry, key).Some? ==> Get(Store(table, items, entry), key) == LastEntry(items, entry, key)
    ensures LastEntry(items, entry, key).None? ==> Get(Store(table, items, entry), key) == Get(table, key)
    decreases |items|
  {
    if |items| > 0 {
      var init := items[..|items| - 1];
      var last := items[|items| - 1];
      assert items == init + [last];
      StoreSnoc(table, init, last, entry);
      StoreLastWins(table, init, entry, key);
    }
  }

  /** Where the first blank line of `a + BlankLine + rest` is, when `a` has
      none and does not end in the middle of one. */
  lemma FirstBlankLine(a: string, rest: string)
    requires !Contains(a, BlankLine)
    requires a == "" || (a[|a| - 1] != '\r' && a[|a| - 1] != '\n')
    ensures IndexOf(a + BlankLine + rest, BlankLine) == Some(|a|)
    ensures Before(a + BlankLine + rest, BlankLine) == a
    ensures After(a + BlankLine + rest, BlankLine) == rest
  {
    var s := a + BlankLine + rest;
    assert s == a + (BlankLine + rest);
    assert s[|a|..|a| + 4] == BlankLine;
    forall j | 0 <= j < |a| ensures !OccursAt(s, BlankLine, j) {
      if j + 4 <= |a| {
        OccursInPrefix(a, BlankLine + rest, BlankLine, j);
      } else {
        assert s[|a| - 1] == a[|a| - 1];
        assert s[j..j + 4][|a| - 1 - j] == s[|a| - 1];
      }
    }
    IndexOfIs(s, BlankLine, |a|);
  }

  /** A head and a body with no blank line in them are cut apart again. */
  lemma SplitHeadersOf(head: string, body: string)
    requires !Contains(head, BlankLine) && !Contains(body, BlankLine)
    requires head == "" || (head[|head| - 1] != '\r' && head[|head| - 1] != '\n')
    ensures SplitHeaders(head + BlankLine + body) == (head, body)
  {
    FirstBlankLine(head, body);
  }

  /** A body that itself holds a blank line keeps only what precedes it. */
  lemma BodyStopsAtBlankLine(head: string, body: string, more: string)
    requires !Contains(head, BlankLine) && !Contains(body, BlankLine)
    requires head == "" || (head[|head| - 1] != '\r' && head[|head| - 1] != '\n')
    requires body == "" || (body[|body| - 1] != '\r' && body[|body| - 1] != '\n')
    ensures SplitHeaders(head + BlankLine + body + BlankLine + more) == (head, body)
  {
    assert head + BlankLine + body + BlankLine + more == head + BlankLine + (body + BlankLine + more);
    FirstBlankLine(head, body + BlankLine + more);
    FirstBlankLine(body, more);
  }

  /** A text without the first character of `sep` holds no `sep`. */
  lemma LacksSeparator(s: string, sep: string)
    requires |sep| > 0 && Lacks(s, sep[0])
    ensures IndexOf(s, sep).None?
  {
    forall j | 0 <= j && j + |sep| <= |s| ensures !OccursAt(s, sep, j) {
      assert s[j..j + |sep|][0] == s[j];
    }
  }

  /** Three words without spaces make the request line they are read from. */
  lemma RequestLineWords(m: string, p: string, v: string)
    requires Lacks(m, ' ') && Lacks(p, ' ') && Lacks(v, ' ')
    ensures RequestLine(m + " " + p + " " + v) == (m, p, v)
  {
    LacksSeparator(m, " ");
    LacksSeparator(p, " ");
    LacksSeparator(v, " ");
    SplitAround(m + " " + p, v, " ");
    SplitAround(m, p, " ");
  }

  /** A line `name:value` whose name has no colon is stored under the
      trimmed, lower-cased name with the trimmed value. */
  lemma HeaderLineOf(name: string, value: string)
    requires name != "" && Lacks(name, ':')
    ensures HeaderLine(name + ":" + value) == Some((Lower(Trim(name)), Trim(value)))
  {
    CutAt(name, ":", value);
  }

  /** A pair `key=value` with no further `=` is stored lower-cased and
      trimmed. */
  lemma QueryPairOf(key: string, value: string)
    requires key != "" && value != "" && Lacks(key, '=') && Lacks(value, '=')
    ensures QueryPair(key + "=" + value) == Some((Trim(Lower(key)), Trim(Lower(value))))
  {
    CutAt(key, "=", value);
    LacksSeparator(value, "=");
  }

  /** Text whose first part lacks a one-character separator is cut at the
      separator that follows that part. */
  lemma CutAt(name: string, sep: string, rest: string)
    requires |sep| == 1 && Lacks(name, sep[0])
    ensures Before(name + sep + rest, sep) == name
    ensures After(name + sep + rest, sep) == rest
  {
    var s := name + sep + rest;
    forall j | 0 <= j < |name| ensures !OccursAt(s, sep, j) {
      assert s[j] == name[j];
      assert s[j..j + 1][0] == s[j];
    }
    assert s[|name|..|name| + 1] == sep;
    IndexOfIs(s, sep, |name|);
    assert s[..|name|] == name;
    assert s[|name| + 1..] == rest;
  }

  /** Header names are stored lower case. */
  lemma HeaderKeysLower(lines: seq<string>)
    ensures forall k :: k in Store(map[], lines, HeaderLine) ==> IsLower(k)
  {
    forall k | k in Store(map[], lines, HeaderLine) ensures IsLower(k) {
      StoredKeyFrom(lines, HeaderLine, k);
      var i :| 0 <= i < |lines| && HeaderLine(lines[i]).Some? && HeaderLine(lines[i]).value.0 == k;
      LowerTrim(Trim(Before(lines[i], ":")));
    }
  }

  /** Query keys are stored lower case. */
  lemma QueryKeysLower(pairs: seq<string>)
    ensures forall k :: k in Store(map[], pairs, QueryPair) ==> IsLower(k)
  {
    forall k | k in Store(map[], pairs, QueryPair) ensures IsLower(k) {
      StoredKeyFrom(pairs, QueryPair, k);
      var i :| 0 <= i < |pairs| && QueryPair(pairs[i]).Some? && QueryPair(pairs[i]).value.0 == k;
      LowerTrim(Before(pairs[i], "="));
    }
  }

  /** Every key of a parsed header table or query table is lower case, so
      `getHeader` and `queryParams` find it under any spelling. */
  lemma ParsedKeysLower(raw: string)
    requires ParseRequest(raw).Ok?
    ensures forall k :: k in ParseRequest(raw).value.headers ==> IsLower(k)
    ensures forall k :: k in ParseRequest(raw).value.query ==> IsLower(k)
  {
    var req := ParseRequest(raw).value;
    var lines := Split(Before(raw, BlankLine), LineBreak);
    assert req.headers == Store(map[], lines[1..], HeaderLine);
    HeaderKeysLower(lines[1..]);
    var query := QueryString(req.path);
    if query != "" {
      QueryKeysLower(Split(query, "&"));
    }
  }

  /** A header of a parsed request is found by `getHeader` under any
      spelling of its name. */
  lemma ParsedHeaderAnyCase(raw: string, name: string, other: string)
    requires ParseRequest(raw).Ok? && name in ParseRequest(raw).value.headers
    requires EqualIgnoringCase(name, other)
    ensures GetHeader(ParseRequest(raw).value, other) == Some(ParseRequest(raw).value.headers[name])
  {
    ParsedKeysLower(raw);
    LookupIgnoresCase(ParseRequest(raw).value, name, other);
  }

  /** A request line, a blank line and a body without blank lines parse to
      exactly that method, target, version and body, with no headers. */
  lemma ParseRequestLine(m: string, p: string, v: string, body: string)
    requires Lacks(m, ' ') && Lacks(p, ' ') && Lacks(v, ' ')
    requires Lacks(m, '\r') && Lacks(p, '\r') && Lacks(v, '\r')
    requires Lacks(v, '\n')
    requires !Contains(body, BlankLine)
    ensures ParseRequest(m + " " + p + " " + v + BlankLine + body)
              == Ok(Request(m, p, v, map[], QueryTable(p), if body == "" then None else Some(body)))
  {
    var head := m + " " + p + " " + v;
    assert Lacks(head, '\r');
    LacksSeparator(head, BlankLine);
    SplitHeadersOf(head, body);
    LacksSeparator(head, LineBreak);
    RequestLineWords(m, p, v);
    ParseOneLine(head + BlankLine + body, head, body);
  }

  /** A head of a single line parses to its request line, with no headers. */
  lemma ParseOneLine(raw: string, head: string, body: string)
    requires SplitHeaders(raw) == (head, body) && head != "" && IndexOf(head, LineBreak).None?
    ensures var w := RequestLine(head);
            ParseRequest(raw) == Ok(Request(w.0, w.1, w.2, map[], QueryTable(w.1), if body == "" then None else Some(body)))
  {
    SplitPieces(head, LineBreak);
    var lines := Split(head, LineBreak);
    assert lines[0] == head && lines[1..] == [];
  }
}
