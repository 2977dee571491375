/**
 * The JavaScript string operations the server relies on, written out over
 * `seq<char>`: `indexOf`, `split` and `join` with a string separator,
 * `filter(Boolean)`, `trim`, ASCII case mapping, decimal formatting of
 * integers and the UTF-8 encoding used by `Buffer.from` and
 * `encodeURIComponent`.
 */
module Text {
  import opened Wrappers

  /** `sep` occurs in `s` starting at index `j`. */
  predicate OccursAt(s: string, sep: string, j: int) {
    0 <= j && j + |sep| <= |s| && s[j..j + |sep|] == sep
  }

  /** `sep` occurs somewhere in `s`. */
  ghost predicate Contains(s: string, sep: string) {
    exists j :: OccursAt(s, sep, j)
  }

  /** `s.indexOf(sep)`: the first position where `sep` occurs, if any. */
  function IndexOf(s: string, sep: string): (r: Option<nat>)
    requires |sep| > 0
    ensures r.Some? ==> OccursAt(s, sep, r.value)
    ensures r.Some? ==> forall j :: 0 <= j < r.value ==> !OccursAt(s, sep, j)
    ensures r.None? <==> !Contains(s, sep)
    decreases |s|
  {
    if |s| < |sep| then None
    else if s[..|sep|] == sep then
      assert OccursAt(s, sep, 0);
      Some(0)
    else
      var rest := IndexOf(s[1..], sep);
      assert forall j :: 1 <= j ==> (OccursAt(s, sep, j) <==> OccursAt(s[1..], sep, j - 1));
      match rest
      case None => None
      case Some(i) => Some(i + 1)
  }

  /** `s.split(sep)` for a non-empty separator: the pieces between the
      left-to-right, non-overlapping occurrences of `sep`. */
  function Split(s: string, sep: string): (parts: seq<string>)
    requires |sep| > 0
    ensures |parts| >= 1
    ensures forall i :: 0 <= i < |parts| ==> !Contains(parts[i], sep)
    ensures !Contains(s, sep) ==> parts == [s]
    decreases |s|
  {
    match IndexOf(s, sep)
    case None => [s]
    case Some(i) =>
      var head := s[..i];
      assert !Contains(head, sep) by {
        forall j | OccursAt(head, sep, j) ensures false {
          assert OccursAt(s, sep, j);
        }
      }
      [head] + Split(s[i + |sep|..], sep)
  }

  /** `parts.join(sep)`. */
  function Join(parts: seq<string>, sep: string): string {
    if |parts| == 0 then ""
    else if |parts| == 1 then parts[0]
    else parts[0] + sep + Join(parts[1..], sep)
  }

  /** Splitting and joining again with the same separator gives back the text. */
  lemma {:induction false} JoinSplit(s: string, sep: string)
    requires |sep| > 0
    ensures Join(Split(s, sep), sep) == s
    decreases |s|
  {
    match IndexOf(s, sep)
    case None =>
      SplitAt(s, sep);
    case Some(i) =>
      var rest := s[i + |sep|..];
      SplitAt(s, sep);
      JoinSplit(rest, sep);
      JoinCons(s[..i], Split(rest, sep), sep);
      SliceAround(s, i, |sep|);
  }

  /** One unfolding of `Split`: the piece before the first separator, then
      the pieces of what follows it. */
  lemma SplitAt(s: string, sep: string)
    requires |sep| > 0
    ensures IndexOf(s, sep).None? ==> Split(s, sep) == [s]
    ensures IndexOf(s, sep).Some? ==>
      var i := IndexOf(s, sep).value;
      s[i..i + |sep|] == sep && Split(s, sep) == [s[..i]] + Split(s[i + |sep|..], sep)
  {
  }

  lemma JoinCons(head: string, tail: seq<string>, sep: string)
    requires |tail| >= 1
    ensures Join([head] + tail, sep) == head + sep + Join(tail, sep)
  {
    assert ([head] + tail)[1..] == tail;
  }

  lemma SliceAround(s: string, i: nat, n: nat)
    requires i + n <= |s|
    ensures s == s[..i] + s[i..i + n] + s[i + n..]
  {
  }

  /** Everything after the first separator: `s.split(sep).slice(1).join(sep)`
      is the text that follows the first occurrence of `sep`. */
  lemma {:induction false} JoinTail(s: string, sep: string)
    requires |sep| > 0
    ensures IndexOf(s, sep).None? ==> Join(Split(s, sep)[1..], sep) == ""
    ensures IndexOf(s, sep).Some? ==>
      Join(Split(s, sep)[1..], sep) == s[IndexOf(s, sep).value + |sep|..]
  {
    SplitAt(s, sep);
    if IndexOf(s, sep).Some? {
      var rest := s[IndexOf(s, sep).value + |sep|..];
      DropHead(Split(s, sep), Split(rest, sep), sep);
      JoinSplit(rest, sep);
    }
  }

  lemma DropHead(parts: seq<string>, tail: seq<string>, sep: string)
    requires |parts| > 0 && parts == [parts[0]] + tail
    ensures Join(parts[1..], sep) == Join(tail, sep)
  {
    assert parts[1..] == tail;
  }

  /** The text before the first occurrence of `sep`, all of `s` when there
      is none. */
  function Before(s: string, sep: string): (r: string)
    requires |sep| > 0
    ensures r <= s
    ensures !Contains(r, sep)
  {
    match IndexOf(s, sep)
    case None => s
    case Some(i) =>
      assert !Contains(s[..i], sep) by {
        forall j | OccursAt(s[..i], sep, j) ensures false {
          assert OccursAt(s, sep, j);
        }
      }
      s[..i]
  }

  /** The text after the first occurrence of `sep`, empty when there is none. */
  function After(s: string, sep: string): (r: string)
    requires |sep| > 0
    ensures IndexOf(s, sep).Some? ==> s == Before(s, sep) + sep + r
    ensures IndexOf(s, sep).None? ==> r == ""
  {
    match IndexOf(s, sep)
    case None => ""
    case Some(i) =>
      SliceAround(s, i, |sep|);
      s[i + |sep|..]
  }

  /** The first piece of `s.split(sep)` is the text before the first
      separator, and the remaining pieces split what follows it. */
  lemma SplitPieces(s: string, sep: string)
    requires |sep| > 0
    ensures Split(s, sep)[0] == Before(s, sep)
    ensures |Split(s, sep)| > 1 <==> IndexOf(s, sep).Some?
    ensures IndexOf(s, sep).Some? ==> Split(s, sep)[1..] == Split(After(s, sep), sep)
  {
  }

  /** The first two pieces of `s.split(sep)`. */
  lemma SplitHead(s: string, sep: string)
    requires |sep| > 0
    ensures Split(s, sep)[0] == Before(s, sep)
    ensures |Split(s, sep)| > 1 <==> IndexOf(s, sep).Some?
    ensures |Split(s, sep)| > 1 ==> Split(s, sep)[1] == Before(After(s, sep), sep)
  {
    SplitPieces(s, sep);
    if IndexOf(s, sep).Some? {
      SplitPieces(After(s, sep), sep);
      assert Split(s, sep)[1] == Split(After(s, sep), sep)[0];
    }
  }

  /** The first occurrence is the one with no occurrence before it. */
  lemma IndexOfIs(s: string, sep: string, i: nat)
    requires |sep| > 0 && OccursAt(s, sep, i)
    requires forall j :: 0 <= j < i ==> !OccursAt(s, sep, j)
    ensures IndexOf(s, sep) == Some(i)
  {
  }

  /** Slices inside `a` are the same in `a + t`. */
  lemma SliceOfPrefix(a: string, t: string, j: nat, k: nat)
    requires j <= k <= |a|
    ensures (a + t)[j..k] == a[j..k]
  {
  }

  /** An occurrence inside `a` is an occurrence in `a + t`, and the other way. */
  lemma OccursInPrefix(a: string, t: string, sep: string, j: nat)
    requires j + |sep| <= |a|
    ensures OccursAt(a + t, sep, j) <==> OccursAt(a, sep, j)
  {
    SliceOfPrefix(a, t, j, j + |sep|);
  }

  /** With a one-character separator, the pieces of `a + sep + b` are the
      pieces of `a` followed by the pieces of `b`. */
  lemma {:induction false} SplitAround(a: string, b: string, sep: string)
    requires |sep| == 1
    ensures Split(a + sep + b, sep) == Split(a, sep) + Split(b, sep)
    decreases |a|
  {
    match IndexOf(a, sep)
    case None =>
      SplitAtEnd(a, b, sep);
    case Some(i) =>
      SplitAtFirst(a, b, sep, i);
      SplitAround(a[i + 1..], b, sep);
      ConsAssoc(a[..i], Split(a[i + 1..], sep), Split(b, sep));
  }

  lemma ConsAssoc(x: string, ys: seq<string>, zs: seq<string>)
    ensures [x] + (ys + zs) == ([x] + ys) + zs
  {
  }

  /** When `a` holds no separator, the first one of `a + sep + b` follows it. */
  lemma SplitAtEnd(a: string, b: string, sep: string)
    requires |sep| == 1 && IndexOf(a, sep).None?
    ensures Split(a + sep + b, sep) == [a] + Split(b, sep)
  {
    var s := a + (sep + b);
    assert s == a + sep + b;
    assert s[|a|..|a| + 1] == sep;
    forall j | 0 <= j < |a|
      ensures !OccursAt(s, sep, j)
    {
      OccursInPrefix(a, sep + b, sep, j);
    }
    IndexOfIs(s, sep, |a|);
    assert s[..|a|] == a && s[|a| + 1..] == b;
  }

  /** When `a` holds a separator, the first one of `a + sep + b` is `a`'s. */
  lemma SplitAtFirst(a: string, b: string, sep: string, i: nat)
    requires |sep| == 1 && IndexOf(a, sep) == Some(i)
    ensures i < |a|
    ensures Split(a + sep + b, sep) == [a[..i]] + Split(a[i + 1..] + sep + b, sep)
    ensures Split(a, sep) == [a[..i]] + Split(a[i + 1..], sep)
  {
    var s := a + (sep + b);
    assert s == a + sep + b;
    OccursInPrefix(a, sep + b, sep, i);
    forall j | 0 <= j < i
      ensures !OccursAt(s, sep, j)
    {
      OccursInPrefix(a, sep + b, sep, j);
    }
    IndexOfIs(s, sep, i);
    SplitRest(a, sep + b, i);
    assert a[i + 1..] + (sep + b) == a[i + 1..] + sep + b;
  }

  lemma SplitRest(a: string, t: string, i: nat)
    requires i < |a|
    ensures (a + t)[..i] == a[..i] && (a + t)[i + 1..] == a[i + 1..] + t
  {
  }

  /** `parts.filter(Boolean)`: drops the empty strings, keeping the order. */
  function NonEmpty(parts: seq<string>): (r: seq<string>)
    ensures forall i :: 0 <= i < |r| ==> r[i] != ""
    ensures forall x :: x in r <==> x in parts && x != ""
  {
    if |parts| == 0 then []
    else if parts[0] == "" then NonEmpty(parts[1..])
    else [parts[0]] + NonEmpty(parts[1..])
  }

  lemma {:induction false} NonEmptyAppend(x: seq<string>, y: seq<string>)
    ensures NonEmpty(x + y) == NonEmpty(x) + NonEmpty(y)
  {
    if |x| > 0 {
      assert (x + y)[1..] == x[1..] + y;
      NonEmptyAppend(x[1..], y);
    } else {
      assert x + y == y;
    }
  }

  /** `s.startsWith(p)`. */
  predicate StartsWith(s: string, p: string) {
    |p| <= |s| && s[..|p|] == p
  }

  /** The characters `String.prototype.trim` removes: the white space and
      line terminators of ECMAScript (section 12.2 and 12.3 of ECMA-262). */
  predicate IsSpace(c: char) {
    c == '\t' || c == '\n' || c == '\U{000B}' || c == '\U{000C}' || c == '\r' || c == ' '
    || c == '\U{00A0}' || c == '\U{1680}' || ('\U{2000}' <= c <= '\U{200A}')
    || c == '\U{2028}' || c == '\U{2029}' || c == '\U{202F}' || c == '\U{205F}'
    || c == '\U{3000}' || c == '\U{FEFF}'
  }

  /** The number of white-space characters `s.trimStart()` removes. */
  function LeadingSpace(s: string): (n: nat)
    ensures n <= |s|
    ensures forall k :: 0 <= k < n ==> IsSpace(s[k])
    ensures n == |s| || !IsSpace(s[n])
  {
    if |s| > 0 && IsSpace(s[0]) then
      var n := 1 + LeadingSpace(s[1..]);
      assert forall k :: 1 <= k < n ==> s[k] == s[1..][k - 1];
      n
    else 0
  }

  /** The number of white-space characters `s.trimEnd()` removes. */
  function TrailingSpace(s: string): (n: nat)
    ensures n <= |s|
    ensures forall k :: |s| - n <= k < |s| ==> IsSpace(s[k])
    ensures n == |s| || !IsSpace(s[|s| - n - 1])
  {
    if |s| > 0 && IsSpace(s[|s| - 1]) then
      var init := s[..|s| - 1];
      var n := 1 + TrailingSpace(init);
      assert forall k :: |s| - n <= k < |s| - 1 ==> s[k] == init[k];
      n
    else 0
  }

  /** `s.trim()`: the slice of `s` left after removing the white space at
      both ends, which neither starts nor ends with white space. */
  function Trim(s: string): (r: string)
    ensures r == [] || (!IsSpace(r[0]) && !IsSpace(r[|r| - 1]))
    ensures LeadingSpace(s) + |r| <= |s|
    ensures r == s[LeadingSpace(s)..LeadingSpace(s) + |r|]
    ensures forall k :: 0 <= k < LeadingSpace(s) ==> IsSpace(s[k])
    ensures forall k :: LeadingSpace(s) + |r| <= k < |s| ==> IsSpace(s[k])
  {
    var a := LeadingSpace(s);
    var t := s[a..];
    var r := t[..|t| - TrailingSpace(t)];
    assert forall k :: a + |r| <= k < |s| ==> s[k] == t[k - a];
    r
  }

  /** Trimming twice is trimming once. */
  lemma TrimIdempotent(s: string)
    ensures Trim(Trim(s)) == Trim(s)
  {
    var r := Trim(s);
    assert LeadingSpace(r) == 0;
    assert TrailingSpace(r) == 0;
    assert r[0..] == r && r[..|r|] == r;
  }

  /** Case mapping of one character, restricted to ASCII letters. */
  function LowerChar(c: char): char {
    if 'A' <= c <= 'Z' then (c as int + 32) as char else c
  }

  function UpperChar(c: char): char {
    if 'a' <= c <= 'z' then (c as int - 32) as char else c
  }

  /** `s.toLowerCase()` on ASCII letters. */
  function Lower(s: string): (r: string)
    ensures |r| == |s|
    ensures forall i :: 0 <= i < |s| ==> r[i] == LowerChar(s[i])
  {
    if |s| == 0 then "" else [LowerChar(s[0])] + Lower(s[1..])
  }

  /** `s.toUpperCase()` on ASCII letters. */
  function Upper(s: string): (r: string)
    ensures |r| == |s|
    ensures forall i :: 0 <= i < |s| ==> r[i] == UpperChar(s[i])
  {
    if |s| == 0 then "" else [UpperChar(s[0])] + Upper(s[1..])
  }

  /** Two names are equal up to ASCII case. */
  predicate EqualIgnoringCase(a: string, b: string) {
    Lower(a) == Lower(b)
  }

  /** Lower-casing a lower-cased name changes nothing, so a key stored
      lower-cased is found by a lower-cased lookup of any spelling. */
  lemma LowerIdempotent(s: string)
    ensures Lower(Lower(s)) == Lower(s)
  {
    assert forall i :: 0 <= i < |s| ==> LowerChar(LowerChar(s[i])) == LowerChar(s[i]);
  }

  /** No ASCII capital letter occurs in `s`. */
  predicate IsLower(s: string) {
    forall i :: 0 <= i < |s| ==> LowerChar(s[i]) == s[i]
  }

  /** A lower-cased text is lower case and stays so when trimmed. */
  lemma LowerTrim(s: string)
    ensures IsLower(Lower(s))
    ensures IsLower(Trim(Lower(s)))
    ensures Lower(Trim(Lower(s))) == Trim(Lower(s))
  {
    var l := Lower(s);
    forall i | 0 <= i < |l| ensures LowerChar(l[i]) == l[i] {
      assert l[i] == LowerChar(s[i]);
    }
    TrimKeepsLower(l);
    LowerFixes(Trim(l));
  }

  lemma TrimKeepsLower(s: string)
    requires IsLower(s)
    ensures IsLower(Trim(s))
  {
    var t := Trim(s);
    var a := LeadingSpace(s);
    forall i | 0 <= i < |t| ensures LowerChar(t[i]) == t[i] {
      assert t[i] == s[a + i];
    }
  }

  lemma LowerFixes(s: string)
    requires IsLower(s)
    ensures Lower(s) == s
  {
  }

  function DigitChar(d: nat): char
    requires d < 10
  {
    "0123456789"[d]
  }

  /** The decimal numeral `String(n)` for a non-negative integer. */
  function NatToString(n: nat): (r: string)
    ensures |r| >= 1
    ensures forall i :: 0 <= i < |r| ==> '0' <= r[i] <= '9'
    ensures |r| > 1 ==> r[0] != '0'
  {
    if n < 10 then [DigitChar(n)] else NatToString(n / 10) + [DigitChar(n % 10)]
  }

  /** The value of a string of decimal digits. */
  function ParseDigits(s: string): nat
    requires forall i :: 0 <= i < |s| ==> '0' <= s[i] <= '9'
  {
    if |s| == 0 then 0
    else 10 * ParseDigits(s[..|s| - 1]) + (s[|s| - 1] as int - '0' as int)
  }

  /** Reading back the numeral gives the number. */
  lemma {:induction false} ParseNatToString(n: nat)
    ensures ParseDigits(NatToString(n)) == n
  {
    if n >= 10 {
      ParseNatToString(n / 10);
      var r := NatToString(n);
      assert r == NatToString(n / 10) + [DigitChar(n % 10)];
      assert r[..|r| - 1] == NatToString(n / 10);
      DigitValue(n % 10);
    } else {
      DigitValue(n);
    }
  }

  lemma DigitValue(d: nat)
    requires d < 10
    ensures DigitChar(d) as int - '0' as int == d
  {
  }

  /** `String(i)` for an integer. */
  function IntToString(i: int): (r: string)
    ensures |r| >= 1
    ensures (r[0] == '-') <==> i < 0
  {
    if i < 0 then "-" + NatToString(-i) else NatToString(i)
  }

  newtype byte = x: int | 0 <= x < 256

  /** The number of bytes UTF-8 spends on one Unicode scalar value
      (section 3 of RFC 3629). */
  function Utf8Width(c: char): nat {
    if c as int < 0x80 then 1
    else if c as int < 0x800 then 2
    else if c as int < 0x10000 then 3
    else 4
  }

  /** The UTF-8 encoding of one scalar value (section 3 of RFC 3629). */
  function Utf8Char(c: char): (r: seq<byte>)
    ensures |r| == Utf8Width(c)
    ensures |r| == 1 <==> (r[0] as int) < 0x80
    ensures forall k :: 1 <= k < |r| ==> 0x80 <= r[k] as int < 0xC0
  {
    var cp := c as int;
    if cp < 0x80 then [cp as byte]
    else if cp < 0x800 then [(0xC0 + cp / 0x40) as byte, (0x80 + cp % 0x40) as byte]
    else if cp < 0x10000 then
      [(0xE0 + cp / 0x1000) as byte, (0x80 + (cp / 0x40) % 0x40) as byte, (0x80 + cp % 0x40) as byte]
    else
      [(0xF0 + cp / 0x40000) as byte, (0x80 + (cp / 0x1000) % 0x40) as byte,
       (0x80 + (cp / 0x40) % 0x40) as byte, (0x80 + cp % 0x40) as byte]
  }

  /** The total number of UTF-8 bytes of a string. */
  function Utf8Length(s: string): nat {
    if |s| == 0 then 0 else Utf8Width(s[0]) + Utf8Length(s[1..])
  }

  /** `Buffer.from(s)`: the UTF-8 bytes of a string. */
  function Utf8(s: string): (r: seq<byte>)
    ensures |r| == Utf8Length(s)
  {
    if |s| == 0 then [] else Utf8Char(s[0]) + Utf8(s[1..])
  }

  /** An ASCII-only string is encoded one byte per character. */
  lemma {:induction false} Utf8Ascii(s: string)
    requires forall i :: 0 <= i < |s| ==> s[i] as int < 0x80
    ensures Utf8Length(s) == |s|
  {
    if |s| > 0 { Utf8Ascii(s[1..]); }
  }
}
