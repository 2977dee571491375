/**
 * The response head builder of the test harness: a status line, the
 * caller's header fields followed by `Content-Length` and `Connection`, and
 * the blank line that ends the head (section 4 and 6 of RFC 9112). Header
 * fields are a record, kept here as the list of its entries in insertion
 * order with no key twice.
 */
module ResponseHead {
  import opened Wrappers
  import opened Text

  /** The entries of a record in insertion order. */
  type Fields = seq<(string, string)>

  /** The data handed to the builder: a string, or bytes already. */
  datatype Payload = TextData(text: string) | Bytes(bytes: seq<byte>)

  /** No key occurs twice, as in any record. */
  predicate UniqueKeys(fields: Fields) {
    forall i, j :: 0 <= i < j < |fields| ==> fields[i].0 != fields[j].0
  }

  /** The value stored under `key`, if any. */
  function Field(fields: Fields, key: string): Option<string> {
    if |fields| == 0 then None
    else if fields[0].0 == key then Some(fields[0].1)
    else Field(fields[1..], key)
  }

  /** The reason phrase of `STATUS_TEXT`, "OK" for any code it lacks. */
  function StatusText(code: int): (r: string)
    ensures code == 400 ==> r == "Bad Request"
    ensures code == 404 ==> r == "Not Found"
    ensures code == 500 ==> r == "Internal Server Error"
    ensures code !in {400, 404, 500} ==> r == "OK"
  {
    match code
    case 200 => "OK"
    case 400 => "Bad Request"
    case 404 => "Not Found"
    case 500 => "Internal Server Error"
    case _ => "OK"
  }

  /** The status line, with its line break. */
  function StatusLine(code: int): string {
    "HTTP/1.1 " + IntToString(code) + " " + StatusText(code) + "\r\n"
  }

  /** The data as bytes: a string is encoded in UTF-8 (`Buffer.from`). */
  function Normalize(data: Payload): (r: seq<byte>)
    ensures data.Bytes? ==> r == data.bytes
    ensures data.TextData? ==> |r| == Utf8Length(data.text)
  {
    match data
    case TextData(s) => Utf8(s)
    case Bytes(b) => b
  }

  /** Assigning a key of a record: a key already present keeps its place
      and takes the new value; a new key goes last. */
  function Assign(fields: Fields, key: string, value: string): (r: Fields)
    requires UniqueKeys(fields)
    ensures UniqueKeys(r)
    ensures Field(r, key) == Some(value)
    ensures forall k :: k != key ==> Field(r, k) == Field(fields, k)
    ensures Field(fields, key).Some? ==> |r| == |fields|
    ensures Field(fields, key).None? ==> r == fields + [(key, value)]
    ensures forall i :: 0 <= i < |fields| ==> r[i].0 == fields[i].0
    decreases |fields|
  {
    if |fields| == 0 then [(key, value)]
    else if fields[0].0 == key then
      var r := [(key, value)] + fields[1..];
      assert forall k :: k != key ==> Field(r, k) == Field(r[1..], k);
      assert forall i :: 1 <= i < |fields| ==> fields[i].0 != key;
      FieldAbsent(fields[1..], key);
      r
    else
      var rest := Assign(fields[1..], key, value);
      forall i | 0 <= i < |rest| ensures rest[i].0 != fields[0].0 {
        if i < |fields| - 1 {
          assert rest[i].0 == fields[1..][i].0 == fields[i + 1].0;
        } else {
          assert rest[i] == (key, value);
        }
      }
      var r := [fields[0]] + rest;
      assert r[1..] == rest;
      r
  }

  /** A key no entry carries is not found. */
  lemma {:induction false} FieldAbsent(fields: Fields, key: string)
    requires forall i :: 0 <= i < |fields| ==> fields[i].0 != key
    ensures Field(fields, key).None?
    decreases |fields|
  {
    if |fields| > 0 {
      FieldAbsent(fields[1..], key);
    }
  }

  /** `{ ...headers, "Content-Length": length, "Connection": "close" }`. */
  function FinalFields(headers: Fields, length: nat): (r: Fields)
    requires UniqueKeys(headers)
    ensures UniqueKeys(r)
    ensures Field(r, "Content-Length") == Some(IntToString(length))
    ensures Field(r, "Connection") == Some("close")
    ensures forall k :: k != "Content-Length" && k != "Connection" ==> Field(r, k) == Field(headers, k)
    ensures |headers| <= |r| <= |headers| + 2
    ensures forall i :: 0 <= i < |headers| ==> r[i].0 == headers[i].0
  {
    Assign(Assign(headers, "Content-Length", IntToString(length)), "Connection", "close")
  }

  /** One header line `key: value`. */
  function FieldLine(f: (string, string)): string {
    f.0 + ": " + f.1 + "\r\n"
  }

  /** The header lines of the fields, in order. */
  function FieldLines(fields: Fields): string
    decreases |fields|
  {
    if |fields| == 0 then "" else FieldLines(fields[..|fields| - 1]) + FieldLine(fields[|fields| - 1])
  }

  lemma FieldLinesStep(fields: Fields, i: nat)
    requires i < |fields|
    ensures FieldLines(fields[..i + 1]) == FieldLines(fields[..i]) + FieldLine(fields[i])
  {
    assert fields[..i + 1][..i] == fields[..i];
  }

  /** The lines of two runs of fields are the lines of each. */
  lemma {:induction false} FieldLinesAppend(a: Fields, b: Fields)
    ensures FieldLines(a + b) == FieldLines(a) + FieldLines(b)
    decreases |b|
  {
    if |b| == 0 {
      assert a + b == a;
    } else {
      var init := b[..|b| - 1];
      assert (a + b)[..|a + b| - 1] == a + init;
      assert (a + b)[|a + b| - 1] == b[|b| - 1];
      FieldLinesAppend(a, init);
      assert FieldLines(b) == FieldLines(init) + FieldLine(b[|b| - 1]);
    }
  }

  /** Every field is written on its own line, in record order. */
  lemma FieldLinesAt(fields: Fields, i: nat)
    requires i < |fields|
    ensures FieldLines(fields) == FieldLines(fields[..i]) + FieldLine(fields[i]) + FieldLines(fields[i + 1..])
  {
    assert fields == fields[..i + 1] + fields[i + 1..];
    FieldLinesAppend(fields[..i + 1], fields[i + 1..]);
    FieldLinesStep(fields, i);
  }

  /** The head always ends with an empty line, since `Connection` is
      always written. */
  lemma HeadEndsWithBlankLine(statusCode: int, headers: Fields, length: nat)
    requires UniqueKeys(headers)
    ensures var head := StatusLine(statusCode) + FieldLines(FinalFields(headers, length)) + "\r\n";
            |head| >= 4 && head[|head| - 4..] == "\r\n\r\n"
  {
    HeadEnds(StatusLine(statusCode), FinalFields(headers, length));
  }

  lemma HeadEnds(statusLine: string, fields: Fields)
    requires |fields| > 0
    ensures var head := statusLine + FieldLines(fields) + "\r\n";
            |head| >= 4 && head[|head| - 4..] == "\r\n\r\n"
  {
    var n := |fields| - 1;
    var before := statusLine + FieldLines(fields[..n]) + fields[n].0 + ": " + fields[n].1;
    assert statusLine + FieldLines(fields) + "\r\n" == before + "\r\n\r\n";
  }

  /** For a text of ASCII characters, `Content-Length` is its length. */
  lemma AsciiContentLength(headers: Fields, text: string)
    requires UniqueKeys(headers)
    requires forall i :: 0 <= i < |text| ==> text[i] as int < 0x80
    ensures Field(FinalFields(headers, |Normalize(TextData(text))|), "Content-Length") == Some(IntToString(|text|))
  {
    Utf8Ascii(text);
  }

  /** `buildResponse(statusCode, headers, data)`: the body is the data as
      bytes, and the head is the status line, one line per field of the
      caller's headers with `Content-Length` and `Connection` assigned, and
      a blank line. */
  method BuildResponse(statusCode: int, headers: Fields, data: Payload) returns (head: string, body: seq<byte>)
    requires UniqueKeys(headers)
    ensures body == Normalize(data)
    ensures head == StatusLine(statusCode) + FieldLines(FinalFields(headers, |body|)) + "\r\n"
  {
    body := Normalize(data);
    var fields := FinalFields(headers, |body|);
    head := WriteHead(StatusLine(statusCode), fields);
  }

  /** The loop that appends `key: value` lines to the status line, and the
      blank line after them. */
  method WriteHead(statusLine: string, fields: Fields) returns (head: string)
    ensures head == statusLine + FieldLines(fields) + "\r\n"
  {
    head := statusLine;
    var i := 0;
    while i < |fields|
      invariant 0 <= i <= |fields|
      invariant head == statusLine + FieldLines(fields[..i])
    {
      var line := fields[i].0 + ": " + fields[i].1 + "\r\n";
      FieldLinesStep(fields, i);
      head := head + line;
      i := i + 1;
    }
    assert fields[..|fields|] == fields;
    head := head + "\r\n";
  }
}
