/** The JSON text that Go's encoding/json writes for the values the SDK hashes,
    and a parser that reads it back (RFC 8259, sections 4, 5 and 7).
 */
module Json {
  import opened Sequences
  import opened Wrappers

  /** What the encoder is given: lists keep their order, and an object is a
      sequence of fields already in the order to be printed. A number is the
      token it prints as, and a string a sequence of Unicode scalar values. */
  datatype Doc =
    | Null
    | Bool(b: bool)
    | Num(token: string)
    | Str(s: string)
    | Arr(items: seq<Doc>)
    | Ord(fields: seq<Field>)

  datatype Field = Field(key: string, val: Doc)

  // ---- Printing --------------------------------------------------------------

  function HexDigit(n: int): (c: char)
    requires 0 <= n < 16
  {
    if n < 10 then '0' + n as char else 'a' + (n - 10) as char
  }

  function Hex4(n: int): (s: string)
    requires 0 <= n < 0x10000
    ensures |s| == 4
  {
    [HexDigit(n / 16 / 16 / 16), HexDigit(n / 16 / 16 % 16), HexDigit(n / 16 % 16), HexDigit(n % 16)]
  }

  /** How one character of a string is written. Besides what JSON demands, the
      encoder escapes the HTML characters and the two Unicode line separators. */
  function Escape(c: char): string {
    var n := c as int;
    if c == '"' then "\\\""
    else if c == '\\' then "\\\\"
    else if n == 8 then "\\b"
    else if n == 12 then "\\f"
    else if c == '\n' then "\\n"
    else if c == '\r' then "\\r"
    else if c == '\t' then "\\t"
    else if n < 0x20 || c == '<' || c == '>' || c == '&' || n == 0x2028 || n == 0x2029 then "\\u" + Hex4(n)
    else [c]
  }

  /** How the characters that need it are written, one by one. */
  lemma EscapesSpelledOut()
    ensures Escape('"') == "\\\"" && Escape('\\') == "\\\\"
    ensures Escape(8 as char) == "\\b" && Escape('\t') == "\\t" && Escape('\n') == "\\n"
    ensures Escape(12 as char) == "\\f" && Escape('\r') == "\\r"
    ensures Escape('<') == "\\u003c" && Escape('>') == "\\u003e" && Escape('&') == "\\u0026"
    ensures Escape(0x2028 as char) == "\\u2028" && Escape(0x2029 as char) == "\\u2029"
    ensures Escape(0 as char) == "\\u0000" && Escape(0x1F as char) == "\\u001f"
  {}

  /** No other character is escaped. */
  lemma OthersAreThemselves(c: char)
    ensures Escape(c) == [c] <==>
              c as int >= 0x20 && c !in "\"\\<>&" && c as int != 0x2028 && c as int != 0x2029
  {
    var n := c as int;
    assert n < 0x20 || c == '<' || c == '>' || c == '&' || n == 0x2028 || n == 0x2029 ==> |Escape(c)| > 1;
  }

  function EscapeAll(s: string): string {
    if s == "" then "" else Escape(s[0]) + EscapeAll(s[1..])
  }

  /** Characters are escaped one by one, in order. */
  lemma {:induction false} EscapesInOrder(s: string, t: string)
    ensures EscapeAll(s + t) == EscapeAll(s) + EscapeAll(t)
  {
    if s == "" {
      assert s + t == t;
    } else {
      assert (s + t)[1..] == s[1..] + t;
      EscapesInOrder(s[1..], t);
    }
  }

  function Quote(s: string): string {
    "\"" + EscapeAll(s) + "\""
  }

  function Print(d: Doc): string {
    match d
    case Null => "null"
    case Bool(b) => if b then "true" else "false"
    case Num(token) => token
    case Str(s) => Quote(s)
    case Arr(items) => if items == [] then "[]" else "[" + PrintItems(items)
    case Ord(fields) => if fields == [] then "{}" else "{" + PrintFields(fields)
  }

  function PrintItems(items: seq<Doc>): string
    requires items != []
  {
    Print(items[0]) + if |items| == 1 then "]" else "," + PrintItems(items[1..])
  }

  function PrintField(f: Field): string {
    Quote(f.key) + ":" + Print(f.val)
  }

  function PrintFields(fields: seq<Field>): string
    requires fields != []
  {
    PrintField(fields[0]) + if |fields| == 1 then "}" else "," + PrintFields(fields[1..])
  }

  /** The punctuation of lists and objects of two. */
  lemma PrintTwo(x: Doc, y: Doc)
    ensures Print(Arr([x, y])) == "[" + (Print(x) + ("," + (Print(y) + "]")))
    ensures Print(Arr([x])) == "[" + (Print(x) + "]")
  {
    assert [x, y][1..] == [y];
    assert PrintItems([y]) == Print(y) + "]";
  }

  lemma PrintTwoFields(f: Field, g: Field)
    ensures Print(Ord([f, g])) == "{" + (PrintField(f) + ("," + (PrintField(g) + "}")))
    ensures PrintField(f) == Quote(f.key) + ":" + Print(f.val)
  {
    assert [f, g][1..] == [g];
    assert PrintFields([g]) == PrintField(g) + "}";
  }

  /** The texts that need no other text. */
  lemma AtomsSpelledOut(s: string)
    ensures Print(Null) == "null" && Print(Bool(true)) == "true" && Print(Bool(false)) == "false"
    ensures Print(Num(s)) == s && Print(Arr([])) == "[]" && Print(Ord([])) == "{}"
    ensures Print(Str(s)) == "\"" + EscapeAll(s) + "\""
  {}

  lemma LetterQuotes(c: char)
    requires 'a' <= c <= 'z'
    ensures Quote([c]) == "\"" + [c] + "\""
  {
    assert EscapeAll([c][1..]) == "";
    assert EscapeAll([c]) == [c];
  }

  // ---- Number tokens -----------------------------------------------------------

  predicate NumberChar(c: char) {
    '0' <= c <= '9' || c == '-' || c == '+' || c == '.' || c == 'e' || c == 'E'
  }

  /** Every token of the JSON number grammar has this form. */
  ghost predicate NumberToken(t: string) {
    && t != "" && (t[0] == '-' || '0' <= t[0] <= '9')
    && forall i :: 0 <= i < |t| ==> NumberChar(t[i])
  }

  ghost predicate WellFormed(d: Doc) {
    match d
    case Num(token) => NumberToken(token)
    case Arr(items) => forall x :: x in items ==> WellFormed(x)
    case Ord(fields) => forall f :: f in fields ==> WellFormed(f.val)
    case _ => true
  }

  // ---- Parsing ------------------------------------------------------------------

  function HexValue(c: char): Option<int> {
    if '0' <= c <= '9' then Some(c as int - '0' as int)
    else if 'a' <= c <= 'f' then Some(c as int - 'a' as int + 10)
    else if 'A' <= c <= 'F' then Some(c as int - 'A' as int + 10)
    else None
  }

  function ParseHex4(s: string): (r: Option<char>)
    requires |s| == 4
  {
    var (a, b, c, d) := (HexValue(s[0]), HexValue(s[1]), HexValue(s[2]), HexValue(s[3]));
    if a.None? || b.None? || c.None? || d.None? then None
    else
      var n := ((a.value * 16 + b.value) * 16 + c.value) * 16 + d.value;
      if 0 <= n < 0xD800 || 0xE000 <= n < 0x10000 then Some(n as char) else None
  }

  function Unescape(c: char): Option<char> {
    if c == '"' || c == '\\' || c == '/' then Some(c)
    else if c == 'b' then Some(8 as char)
    else if c == 'f' then Some(12 as char)
    else if c == 'n' then Some('\n')
    else if c == 'r' then Some('\r')
    else if c == 't' then Some('\t')
    else None
  }

  /** One character of a string body: the character and how much text it took. */
  function ParseChar(s: string): (r: Option<(char, nat)>)
    requires s != ""
    ensures r.Some? ==> 1 <= r.value.1 <= |s|
  {
    if s[0] != '\\' then (if s[0] == '"' || s[0] as int < 0x20 then None else Some((s[0], 1)))
    else if |s| >= 6 && s[1] == 'u' then
      var c := ParseHex4(s[2..6]);
      if c.None? then None else Some((c.value, 6))
    else if |s| >= 2 && Unescape(s[1]).Some? then Some((Unescape(s[1]).value, 2))
    else None
  }

  /** The string whose opening quote has been read, and the text behind it. */
  function ParseString(s: string): (r: Option<(string, string)>)
    ensures r.Some? ==> |r.value.1| < |s|
    decreases |s|
  {
    if s == "" then None
    else if s[0] == '"' then Some(("", s[1..]))
    else
      var c := ParseChar(s);
      if c.None? then None
      else
        var r := ParseString(s[c.value.1..]);
        if r.None? then None else Some(([c.value.0] + r.value.0, r.value.1))
  }

  /** The length of the longest number-like prefix. */
  function NumberRun(s: string): (n: nat)
    ensures n <= |s|
  {
    if s == "" || !NumberChar(s[0]) then 0 else 1 + NumberRun(s[1..])
  }

  predicate StartsWith(s: string, prefix: string) {
    |prefix| <= |s| && s[..|prefix|] == prefix
  }

  /** The values that are spelled in one way only. */
  function ParseLiteral(s: string): (r: Option<(Doc, string)>)
    ensures r.Some? ==> |r.value.1| < |s|
    ensures s != "" && s[0] !in "ntf[{" ==> r.None?
    ensures |s| > 1 && s[0] == '[' && s[1] != ']' ==> r.None?
    ensures |s| > 1 && s[0] == '{' && s[1] != '}' ==> r.None?
  {
    if StartsWith(s, "null") then Some((Null, s[4..]))
    else if StartsWith(s, "true") then Some((Bool(true), s[4..]))
    else if StartsWith(s, "false") then Some((Bool(false), s[5..]))
    else if StartsWith(s, "[]") then Some((Arr([]), s[2..]))
    else if StartsWith(s, "{}") then Some((Ord([]), s[2..]))
    else None
  }

  /** The value at the front of the text, and the text behind it. */
  function ParseValue(s: string): (r: Option<(Doc, string)>)
    ensures r.Some? ==> |r.value.1| < |s|
    decreases |s|, 0
  {
    if s == "" then None
    else if ParseLiteral(s).Some? then ParseLiteral(s)
    else if s[0] == '"' then
      var r := ParseString(s[1..]);
      if r.None? then None else Some((Str(r.value.0), r.value.1))
    else if s[0] == '[' then
      var r := ParseItems(s[1..]);
      if r.None? then None else Some((Arr(r.value.0), r.value.1))
    else if s[0] == '{' then
      var r := ParseFields(s[1..]);
      if r.None? then None else Some((Ord(r.value.0), r.value.1))
    else if s[0] == '-' || '0' <= s[0] <= '9' then
      var n := NumberRun(s);
      Some((Num(s[..n]), s[n..]))
    else None
  }

  function ParseItems(s: string): (r: Option<(seq<Doc>, string)>)
    ensures r.Some? ==> |r.value.1| < |s|
    decreases |s|, 1
  {
    var v := ParseValue(s);
    if v.None? || v.value.1 == "" then None
    else
      var (d, t) := v.value;
      if t[0] == ']' then Some(([d], t[1..]))
      else if t[0] != ',' then None
      else
        var r := ParseItems(t[1..]);
        if r.None? then None else Some(([d] + r.value.0, r.value.1))
  }

  function ParseField(s: string): (r: Option<(Field, string)>)
    ensures r.Some? ==> |r.value.1| < |s|
    decreases |s|, 1
  {
    if s == "" || s[0] != '"' then None
    else
      var k := ParseString(s[1..]);
      if k.None? || k.value.1 == "" || k.value.1[0] != ':' then None
      else
        var v := ParseValue(k.value.1[1..]);
        if v.None? then None else Some((Field(k.value.0, v.value.0), v.value.1))
  }

  function ParseFields(s: string): (r: Option<(seq<Field>, string)>)
    ensures r.Some? ==> |r.value.1| < |s|
    decreases |s|, 2
  {
    var f := ParseField(s);
    if f.None? || f.value.1 == "" then None
    else
      var t := f.value.1;
      if t[0] == '}' then Some(([f.value.0], t[1..]))
      else if t[0] != ',' then None
      else
        var r := ParseFields(t[1..]);
        if r.None? then None else Some(([f.value.0] + r.value.0, r.value.1))
  }

  // ---- Reading back what was printed ----------------------------------------------

  lemma HexRoundTrip(n: int)
    requires 0 <= n < 0xD800 || 0xE000 <= n < 0x10000
    ensures ParseHex4(Hex4(n)) == Some(n as char)
  {
    var (a, b, c) := (n / 16 / 16 / 16, n / 16 / 16, n / 16);
    assert n == c * 16 + n % 16 && c == b * 16 + c % 16 && b == a * 16 + b % 16;
    HexDigitRoundTrip(a);
    HexDigitRoundTrip(b % 16);
    HexDigitRoundTrip(c % 16);
    HexDigitRoundTrip(n % 16);
  }

  lemma HexDigitRoundTrip(n: int)
    requires 0 <= n < 16
    ensures HexValue(HexDigit(n)) == Some(n)
  {}

  lemma CharRoundTrip(c: char, rest: string)
    ensures Escape(c) != "" && Escape(c)[0] != '"'
    ensures ParseChar(Escape(c) + rest) == Some((c, |Escape(c)|))
  {
    var e := Escape(c) + rest;
    if |Escape(c)| == 6 {
      assert e[2..6] == Hex4(c as int);
      HexRoundTrip(c as int);
    }
  }

  lemma {:induction false} StringRoundTrip(s: string, rest: string)
    ensures ParseString(EscapeAll(s) + "\"" + rest) == Some((s, rest))
  {
    var e := EscapeAll(s) + "\"" + rest;
    if s == "" {
      assert e == "\"" + rest;
    } else {
      var tail := EscapeAll(s[1..]) + "\"" + rest;
      assert e == Escape(s[0]) + tail;
      CharRoundTrip(s[0], tail);
      assert e[|Escape(s[0])|..] == tail;
      StringRoundTrip(s[1..], rest);
      assert [s[0]] + s[1..] == s;
    }
  }

  lemma {:induction false} NumberRunStops(t: string, rest: string)
    requires forall i :: 0 <= i < |t| ==> NumberChar(t[i])
    requires rest == "" || !NumberChar(rest[0])
    ensures NumberRun(t + rest) == |t|
  {
    if t == "" {
      assert t + rest == rest;
    } else {
      assert (t + rest)[1..] == t[1..] + rest;
      NumberRunStops(t[1..], rest);
    }
  }

  /** What may follow a value so that a number token ends where it should. */
  predicate Delimited(rest: string) {
    rest == "" || !NumberChar(rest[0])
  }

  /** No printed value starts with a closing bracket. */
  lemma PrintStart(d: Doc)
    requires WellFormed(d)
    ensures Print(d) != "" && Print(d)[0] != ']' && Print(d)[0] != '}'
  {}

  lemma ParsePrintLiteral(d: Doc, rest: string)
    requires d.Null? || d.Bool? || d == Arr([]) || d == Ord([])
    ensures ParseValue(Print(d) + rest) == Some((d, rest))
  {
    var (p, text) := (Print(d), Print(d) + rest);
    assert text[..|p|] == p && text[|p|..] == rest;
  }

  lemma ParsePrintNumber(token: string, rest: string)
    requires NumberToken(token) && Delimited(rest)
    ensures ParseValue(token + rest) == Some((Num(token), rest))
  {
    var text := token + rest;
    NumberRunStops(token, rest);
    assert text[..|token|] == token && text[|token|..] == rest;
    NumberStep(text, |token|);
  }

  lemma ParsePrintString(s: string, rest: string)
    ensures ParseValue(Quote(s) + rest) == Some((Str(s), rest))
  {
    StringRoundTrip(s, rest);
    QuoteText(EscapeAll(s), rest);
    StringStep(Quote(s) + rest, s, rest);
  }

  lemma QuoteText(body: string, rest: string)
    ensures var text := "\"" + body + "\"" + rest;
            text[0] == '"' && text[1..] == body + "\"" + rest
  {}

  lemma BehindFirst(c: char, s: string)
    ensures ([c] + s)[1..] == s && ([c] + s)[0] == c
  {}

  // One step of the parser each, on text that is not taken apart.

  lemma NumberStep(text: string, n: nat)
    requires text != "" && (text[0] == '-' || '0' <= text[0] <= '9') && NumberRun(text) == n
    ensures ParseValue(text) == Some((Num(text[..n]), text[n..]))
  {}

  lemma StringStep(text: string, s: string, rest: string)
    requires text != "" && text[0] == '"' && ParseString(text[1..]) == Some((s, rest))
    ensures ParseValue(text) == Some((Str(s), rest))
  {}

  lemma LastItemStep(text: string, d: Doc, after: string)
    requires ParseValue(text) == Some((d, after)) && after != "" && after[0] == ']'
    ensures ParseItems(text) == Some(([d], after[1..]))
  {}

  lemma NextItemStep(text: string, d: Doc, after: string, ds: seq<Doc>, rest: string)
    requires ParseValue(text) == Some((d, after)) && after != "" && after[0] == ','
    requires ParseItems(after[1..]) == Some((ds, rest))
    ensures ParseItems(text) == Some(([d] + ds, rest))
  {}

  lemma FieldStep(text: string, key: string, mid: string, val: Doc, after: string)
    requires text != "" && text[0] == '"' && ParseString(text[1..]) == Some((key, mid))
    requires mid != "" && mid[0] == ':' && ParseValue(mid[1..]) == Some((val, after))
    ensures ParseField(text) == Some((Field(key, val), after))
  {}

  lemma LastFieldStep(text: string, f: Field, after: string)
    requires ParseField(text) == Some((f, after)) && after != "" && after[0] == '}'
    ensures ParseFields(text) == Some(([f], after[1..]))
  {}

  lemma NextFieldStep(text: string, f: Field, after: string, fs: seq<Field>, rest: string)
    requires ParseField(text) == Some((f, after)) && after != "" && after[0] == ','
    requires ParseFields(after[1..]) == Some((fs, rest))
    ensures ParseFields(text) == Some(([f] + fs, rest))
  {}

  /** The parser gives back exactly the value that was printed. */
  lemma {:induction false} ParsePrint(d: Doc, rest: string)
    requires WellFormed(d) && Delimited(rest)
    ensures ParseValue(Print(d) + rest) == Some((d, rest))
    decreases d
  {
    match d
    case Null => ParsePrintLiteral(d, rest);
    case Bool(b) => ParsePrintLiteral(d, rest);
    case Num(token) => ParsePrintNumber(token, rest);
    case Str(s) => ParsePrintString(s, rest);
    case Arr(items) =>
      if items == [] {
        ParsePrintLiteral(d, rest);
      } else {
        ParsePrintItems(items, rest);
        PrintStart(items[0]);
        OpenBracket(PrintItems(items), rest);
      }
    case Ord(fields) =>
      if fields == [] {
        ParsePrintLiteral(d, rest);
      } else {
        ParsePrintFields(fields, rest);
        OpenBrace(PrintFields(fields), rest);
      }
  }

  lemma OpenBracket(body: string, rest: string)
    requires body != "" && body[0] != ']' && ParseItems(body + rest).Some?
    ensures var r := ParseItems(body + rest).value;
            ParseValue("[" + body + rest) == Some((Arr(r.0), r.1))
  {
    var text := "[" + body + rest;
    assert text[0] == '[' && text[1] == body[0] && text[1..] == body + rest;
  }

  lemma OpenBrace(body: string, rest: string)
    requires body != "" && body[0] != '}' && ParseFields(body + rest).Some?
    ensures var r := ParseFields(body + rest).value;
            ParseValue("{" + body + rest) == Some((Ord(r.0), r.1))
  {
    var text := "{" + body + rest;
    assert text[0] == '{' && text[1] == body[0] && text[1..] == body + rest;
  }

  lemma ParsePrintItems(items: seq<Doc>, rest: string)
    requires items != [] && forall x :: x in items ==> WellFormed(x)
    ensures ParseItems(PrintItems(items) + rest) == Some((items, rest))
    decreases items
  {
    var (d, tail) := (items[0], items[1..]);
    assert items == [d] + tail;
    if tail == [] {
      ParsePrint(d, "]" + rest);
      BehindFirst(']', rest);
      Regroup(Print(d), "]", rest);
      assert items == [d];
      LastItemStep(PrintItems(items) + rest, d, "]" + rest);
    } else {
      var more := PrintItems(tail) + rest;
      ParsePrintItems(tail, rest);
      ParsePrint(d, "," + more);
      BehindFirst(',', more);
      Regroup(",", PrintItems(tail), rest);
      Regroup(Print(d), "," + PrintItems(tail), rest);
      NextItemStep(PrintItems(items) + rest, d, "," + more, tail, rest);
    }
  }

  lemma ParsePrintFields(fields: seq<Field>, rest: string)
    requires fields != [] && forall f :: f in fields ==> WellFormed(f.val)
    ensures ParseFields(PrintFields(fields) + rest) == Some((fields, rest))
    decreases fields
  {
    var (f, tail) := (fields[0], fields[1..]);
    assert fields == [f] + tail;
    if tail == [] {
      ParsePrintField(f, "}" + rest);
      BehindFirst('}', rest);
      Regroup(PrintField(f), "}", rest);
      assert fields == [f];
      LastFieldStep(PrintFields(fields) + rest, f, "}" + rest);
    } else {
      var more := PrintFields(tail) + rest;
      ParsePrintFields(tail, rest);
      ParsePrintField(f, "," + more);
      BehindFirst(',', more);
      Regroup(",", PrintFields(tail), rest);
      Regroup(PrintField(f), "," + PrintFields(tail), rest);
      NextFieldStep(PrintFields(fields) + rest, f, "," + more, tail, rest);
    }
  }

  lemma {:induction false} ParsePrintField(f: Field, after: string)
    requires WellFormed(f.val) && Delimited(after)
    ensures ParseField(PrintField(f) + after) == Some((f, after))
    decreases f
  {
    var (key, value) := (EscapeAll(f.key) + "\"", Print(f.val) + after);
    var mid := ":" + value;
    ParsePrint(f.val, after);
    StringRoundTrip(f.key, mid);
    BehindFirst(':', value);
    FieldText(EscapeAll(f.key), Print(f.val), after);
    FieldStep(PrintField(f) + after, f.key, mid, f.val, after);
  }

  lemma FieldText(key: string, val: string, after: string)
    ensures var text := ("\"" + key + "\"") + ":" + val + after;
            text[0] == '"' && text[1..] == key + "\"" + (":" + (val + after))
  {}

  lemma PrintInjective(d: Doc, e: Doc)
    requires WellFormed(d) && WellFormed(e) && Print(d) == Print(e)
    ensures d == e
  {
    assert Print(d) + "" == Print(d) && Print(e) + "" == Print(e);
    ParsePrint(d, "");
    ParsePrint(e, "");
  }
}
