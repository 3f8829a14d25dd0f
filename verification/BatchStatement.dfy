/** The text and parameters of the batched upsert (worker/asset_writer.go:169-253)
    and how PostgreSQL reads them back.
 */
module BatchStatement {
  import opened Sequences
  import opened Wrappers
  import opened Values
  import opened AttrsEncoding
  import opened AssetTable

  // ---- Decimal numbers -----------------------------------------------------------

  function Digit(n: nat): (c: char)
    requires n < 10
    ensures IsDigit(c) && DigitValue(c) == n
  {
    '0' + n as char
  }

  /** The digits are the ten decimal ones. */
  lemma DigitSpelledOut(n: nat)
    requires n < 10
    ensures Digits(n) == ["0123456789"[n]]
  {}

  predicate IsDigit(c: char) {
    '0' <= c <= '9'
  }

  function Digits(n: nat): (s: string)
    ensures s != "" && forall i :: 0 <= i < |s| ==> IsDigit(s[i])
  {
    if n < 10 then [Digit(n)] else Digits(n / 10) + [Digit(n % 10)]
  }

  function DigitValue(c: char): nat
    requires IsDigit(c)
  {
    c as int - '0' as int
  }

  /** The number a digit string denotes. */
  function NumberOf(s: string): nat
    requires forall i :: 0 <= i < |s| ==> IsDigit(s[i])
  {
    if s == "" then 0 else NumberOf(s[..|s| - 1]) * 10 + DigitValue(s[|s| - 1])
  }

  lemma {:induction false} NumberRoundTrip(n: nat)
    ensures NumberOf(Digits(n)) == n
  {
    if n >= 10 {
      assert Digits(n)[..|Digits(n)| - 1] == Digits(n / 10);
      NumberRoundTrip(n / 10);
    } else {
      assert [Digit(n)][..0] == "";
    }
  }

  function Pow10(k: nat): (p: nat)
    ensures p >= 1
  {
    if k == 0 then 1 else 10 * Pow10(k - 1)
  }

  const BUFFER := 12

  /** A number has at most k digits exactly when it is below 10^k. */
  lemma {:induction false} DigitCount(n: nat, k: nat)
    requires k >= 1
    ensures |Digits(n)| <= k <==> n < Pow10(k)
  {
    if n >= 10 && k > 1 {
      DigitCount(n / 10, k - 1);
    } else if k > 1 {
      assert Pow10(k) == 10 * Pow10(k - 1) >= 10;
    } else {
      assert Pow10(1) == 10 * Pow10(0) == 10;
    }
  }

  /** One round of the loop: the last digit goes in front of the tail. */
  lemma DigitsStep(m: nat, i: nat, tail: string)
    requires 0 < m < Pow10(i)
    ensures i > 0 && m / 10 < Pow10(i - 1)
    ensures var longer := [Digit(m % 10)] + tail;
            Digits(m) + tail == if m / 10 == 0 then longer else Digits(m / 10) + longer
  {
    if m >= 10 {
      Regroup(Digits(m / 10), [Digit(m % 10)], tail);
    }
  }

  lemma SliceFront(a: array<char>, i: nat)
    requires i < a.Length
    ensures a[i..] == [a[i]] + a[i + 1..]
  {}

  /** The digits are written back to front into a fixed array; the caller's number
      must fit it. */
  method AppendInt(buf: string, n: nat) returns (r: string)
    requires n < Pow10(BUFFER)
    ensures r == buf + Digits(n)
  {
    if n < 10 {
      assert Digits(n) == [Digit(n)];
      return buf + [Digit(n)];
    }
    var tmp := new char[BUFFER](_ => '0');
    var i: nat, m: nat := BUFFER, n;
    while m > 0
      invariant 0 <= i <= BUFFER && m < Pow10(i)
      invariant m == n ==> i == BUFFER
      invariant Digits(n) == if m == 0 then tmp[i..] else Digits(m) + tmp[i..]
    {
      ghost var tail := tmp[i..];
      DigitsStep(m, i, tail);
      i := i - 1;
      tmp[i] := Digit(m % 10);
      assert tmp[i + 1..] == tail;
      SliceFront(tmp, i);
      m := m / 10;
    }
    return buf + tmp[i..];
  }

  // ---- Tokens ----------------------------------------------------------------------

  datatype Token = LParen | RParen | Comma | Param(n: nat) | Cast(name: string) | Literal(s: string)

  function Show(t: Token): string {
    match t
    case LParen => "("
    case RParen => ")"
    case Comma => ","
    case Param(n) => "$" + Digits(n)
    case Cast(name) => "::" + name
    case Literal(s) => "'" + s + "'"
  }

  function ShowAll(ts: seq<Token>): string {
    if ts == [] then "" else Show(ts[0]) + ShowAll(ts[1..])
  }

  lemma {:induction false} ShowConcat(a: seq<Token>, b: seq<Token>)
    ensures ShowAll(a + b) == ShowAll(a) + ShowAll(b)
  {
    if a == [] {
      assert a + b == b;
    } else {
      assert (a + b)[1..] == a[1..] + b;
      ShowConcat(a[1..], b);
    }
  }

  /** Joins the chunk's text so far with one more token. */
  lemma ShowSnoc(a: seq<Token>, t: Token)
    ensures ShowAll(a + [t]) == ShowAll(a) + Show(t)
  {
    ShowConcat(a, [t]);
    assert ShowAll([t]) == Show(t) + "";
  }

  predicate IsLetter(c: char) {
    'a' <= c <= 'z'
  }

  /** The length of the longest prefix of digits, of letters, of anything but a quote. */
  function DigitRun(s: string): (n: nat)
    ensures n <= |s| && forall i :: 0 <= i < n ==> IsDigit(s[i])
  {
    if s == "" || !IsDigit(s[0]) then 0 else 1 + DigitRun(s[1..])
  }

  function LetterRun(s: string): (n: nat)
    ensures n <= |s|
  {
    if s == "" || !IsLetter(s[0]) then 0 else 1 + LetterRun(s[1..])
  }

  function UnquotedRun(s: string): (n: nat)
    ensures n <= |s|
  {
    if s == "" || s[0] == '\'' then 0 else 1 + UnquotedRun(s[1..])
  }

  /** The token at the front of the text and how much text it took. */
  function NextToken(s: string): (r: Option<(Token, nat)>)
    requires s != ""
    ensures r.Some? ==> 1 <= r.value.1 <= |s|
  {
    if s[0] == '(' then Some((LParen, 1))
    else if s[0] == ')' then Some((RParen, 1))
    else if s[0] == ',' then Some((Comma, 1))
    else if s[0] == '$' then
      var n := DigitRun(s[1..]);
      if n == 0 then None else Some((Param(NumberOf(s[1..][..n])), 1 + n))
    else if |s| >= 2 && s[0] == ':' && s[1] == ':' then
      var n := LetterRun(s[2..]);
      if n == 0 then None else Some((Cast(s[2..][..n]), 2 + n))
    else if s[0] == '\'' then
      var n := UnquotedRun(s[1..]);
      if 1 + n == |s| then None else Some((Literal(s[1..][..n]), n + 2))
    else None
  }

  function Lex(s: string): Option<seq<Token>>
    decreases |s|
  {
    if s == "" then Some([])
    else
      var t := NextToken(s);
      if t.None? then None
      else
        var r := Lex(s[t.value.1..]);
        if r.None? then None else Some([t.value.0] + r.value)
  }

  ghost predicate Lexable(t: Token) {
    match t
    case Cast(name) => name != "" && forall i :: 0 <= i < |name| ==> IsLetter(name[i])
    case Literal(s) => forall i :: 0 <= i < |s| ==> s[i] != '\''
    case _ => true
  }

  lemma {:induction false} DigitRunStops(t: string, rest: string)
    requires forall i :: 0 <= i < |t| ==> IsDigit(t[i])
    requires rest == "" || !IsDigit(rest[0])
    ensures DigitRun(t + rest) == |t|
  {
    if t == "" {
      assert t + rest == rest;
    } else {
      assert (t + rest)[1..] == t[1..] + rest;
      DigitRunStops(t[1..], rest);
    }
  }

  lemma {:induction false} LetterRunStops(t: string, rest: string)
    requires forall i :: 0 <= i < |t| ==> IsLetter(t[i])
    requires rest == "" || !IsLetter(rest[0])
    ensures LetterRun(t + rest) == |t|
  {
    if t == "" {
      assert t + rest == rest;
    } else {
      assert (t + rest)[1..] == t[1..] + rest;
      LetterRunStops(t[1..], rest);
    }
  }

  lemma {:induction false} UnquotedRunStops(t: string, rest: string)
    requires forall i :: 0 <= i < |t| ==> t[i] != '\''
    requires rest != "" && rest[0] == '\''
    ensures UnquotedRun(t + rest) == |t|
  {
    if t == "" {
      assert t + rest == rest;
    } else {
      assert (t + rest)[1..] == t[1..] + rest;
      UnquotedRunStops(t[1..], rest);
    }
  }

  /** A shown token is read back whatever token follows it. */
  lemma NextTokenShow(t: Token, rest: string)
    requires Lexable(t)
    requires rest == "" || !(IsDigit(rest[0]) || IsLetter(rest[0]))
    ensures NextToken(Show(t) + rest) == Some((t, |Show(t)|))
  {
    match t
    case Param(n) => NextParam(n, rest);
    case Cast(name) => NextCast(name, rest);
    case Literal(l) => NextLiteral(l, rest);
    case _ =>
  }

  lemma NextParam(n: nat, rest: string)
    requires rest == "" || !IsDigit(rest[0])
    ensures NextToken(Show(Param(n)) + rest) == Some((Param(n), |Show(Param(n))|))
  {
    NumberRoundTrip(n);
    DigitRunStops(Digits(n), rest);
    ParamStep(Show(Param(n)) + rest, Digits(n), rest, n);
  }

  lemma ParamStep(s: string, d: string, rest: string, n: nat)
    requires s == "$" + d + rest && d != "" && DigitRun(d + rest) == |d|
    requires (forall i :: 0 <= i < |d| ==> IsDigit(d[i])) && NumberOf(d) == n
    ensures NextToken(s) == Some((Param(n), 1 + |d|))
  {
    assert s[1..] == d + rest && s[1..][..|d|] == d;
  }

  lemma NextCast(name: string, rest: string)
    requires Lexable(Cast(name)) && (rest == "" || !IsLetter(rest[0]))
    ensures NextToken(Show(Cast(name)) + rest) == Some((Cast(name), |Show(Cast(name))|))
  {
    var s := Show(Cast(name)) + rest;
    assert s[2..] == name + rest && (name + rest)[..|name|] == name;
    LetterRunStops(name, rest);
  }

  lemma NextLiteral(l: string, rest: string)
    requires Lexable(Literal(l))
    ensures NextToken(Show(Literal(l)) + rest) == Some((Literal(l), |Show(Literal(l))|))
  {
    var (s, t) := (Show(Literal(l)) + rest, "'" + rest);
    assert s[1..] == l + t && (l + t)[..|l|] == l;
    UnquotedRunStops(l, t);
  }

  lemma LexStep(s: string, t: Token, n: nat, ts: seq<Token>)
    requires s != "" && NextToken(s) == Some((t, n)) && Lex(s[n..]) == Some(ts)
    ensures Lex(s) == Some([t] + ts)
  {}

  /** No token starts with a digit or a letter. */
  lemma ShowStart(ts: seq<Token>)
    ensures ShowAll(ts) == "" || !(IsDigit(ShowAll(ts)[0]) || IsLetter(ShowAll(ts)[0]))
  {
    if ts != [] {
      assert ShowAll(ts)[0] == Show(ts[0])[0];
    }
  }

  /** Lexing undoes showing. */
  lemma {:induction false} LexShow(ts: seq<Token>)
    requires forall t :: t in ts ==> Lexable(t)
    ensures Lex(ShowAll(ts)) == Some(ts)
  {
    if ts != [] {
      var (s, rest) := (ShowAll(ts), ShowAll(ts[1..]));
      LexShow(ts[1..]);
      ShowStart(ts[1..]);
      NextTokenShow(ts[0], rest);
      assert s == Show(ts[0]) + rest && s[|Show(ts[0])|..] == rest;
      LexStep(s, ts[0], |Show(ts[0])|, ts[1..]);
      assert [ts[0]] + ts[1..] == ts;
    }
  }

  // ---- The VALUES text ---------------------------------------------------------------

  const PARAMS_PER_ROW := 6

  /** The i-th entry of the tuple whose first placeholder is `base`. */
  function Entry(base: nat, i: nat): seq<Token> {
    (if i > 0 then [Comma] else []) + [Param(base + i)] + (if i == 4 then [Cast("jsonb")] else [])
  }

  function Entries(base: nat, k: nat): seq<Token> {
    if k == 0 then [] else Entries(base, k - 1) + Entry(base, k - 1)
  }

  function TupleTokens(base: nat): seq<Token> {
    [LParen] + Entries(base, PARAMS_PER_ROW) + [Comma, Literal("discovered"), RParen]
  }

  /** The tuples of the first n rows with commas between them. */
  function ValuesTokens(n: nat): seq<Token> {
    if n == 0 then []
    else ValuesTokens(n - 1) + (if n > 1 then [Comma] else []) + TupleTokens((n - 1) * PARAMS_PER_ROW + 1)
  }

  method AppendValuesTuple(buf: string, base: nat) returns (r: string)
    requires base + PARAMS_PER_ROW <= Pow10(BUFFER)
    ensures r == buf + ShowAll(TupleTokens(base))
  {
    ghost var ts := [LParen];
    AppendShow(buf, [], LParen);
    r := buf + "(";
    for i := 0 to PARAMS_PER_ROW
      invariant ts == [LParen] + Entries(base, i)
      invariant r == buf + ShowAll(ts)
    {
      EntryText(buf, ts, base, i);
      if i > 0 {
        r := r + ",";
      }
      r := r + "$";
      r := AppendInt(r, base + i);
      if i == 4 {
        r := r + "::jsonb";
      }
      Regroup([LParen], Entries(base, i), Entry(base, i));
      ts := ts + Entry(base, i);
    }
    TupleEnd(buf, ts);
    r := r + ",'discovered')";
  }

  /** What one round of the loop appends. */
  lemma EntryText(buf: string, ts: seq<Token>, base: nat, i: nat)
    ensures var t0 := buf + ShowAll(ts);
            var t1 := if i > 0 then t0 + "," else t0;
            var t2 := t1 + "$" + Digits(base + i);
            (if i == 4 then t2 + "::jsonb" else t2) == buf + ShowAll(ts + Entry(base, i))
  {
    var ts1 := if i > 0 then ts + [Comma] else ts;
    var ts2 := ts1 + [Param(base + i)];
    AppendShow(buf, ts, Comma);
    ParamText(buf, ts1, base + i);
    AppendShow(buf, ts2, Cast("jsonb"));
    assert ts + Entry(base, i) == if i == 4 then ts2 + [Cast("jsonb")] else ts2;
  }

  lemma ParamText(buf: string, ts: seq<Token>, n: nat)
    ensures buf + ShowAll(ts) + "$" + Digits(n) == buf + ShowAll(ts + [Param(n)])
  {
    AppendShow(buf, ts, Param(n));
    Regroup(buf + ShowAll(ts), "$", Digits(n));
  }

  lemma TupleEnd(buf: string, ts: seq<Token>)
    ensures buf + ShowAll(ts) + ",'discovered')" == buf + ShowAll(ts + [Comma, Literal("discovered"), RParen])
  {
    var end := [Comma, Literal("discovered"), RParen];
    ShowConcat(ts, end);
    ShowEnd();
    Regroup(buf, ShowAll(ts), ShowAll(end));
  }

  lemma ShowEnd()
    ensures ShowAll([Comma, Literal("discovered"), RParen]) == ",'discovered')"
  {
    ShowThree(Comma, Literal("discovered"), RParen);
    assert "'" + "discovered" + "'" == "'discovered'";
    assert "," + ("'discovered'" + ")") == ",'discovered')";
  }

  lemma ShowThree(a: Token, b: Token, c: Token)
    ensures ShowAll([a, b, c]) == Show(a) + (Show(b) + Show(c))
  {
    assert [a, b, c][1..] == [b, c] && [b, c][1..] == [c] && [c][1..] == [];
    assert ShowAll([c]) == Show(c);
    assert ShowAll([b, c]) == Show(b) + Show(c);
  }

  lemma AppendShow(buf: string, ts: seq<Token>, t: Token)
    ensures buf + ShowAll(ts) + Show(t) == buf + ShowAll(ts + [t])
    ensures ts == [] ==> buf + Show(t) == buf + ShowAll([t])
  {
    ShowSnoc(ts, t);
    if ts == [] {
      assert ts + [t] == [t];
    }
  }

  /** The placeholders of a token sequence, in order. */
  function Placeholders(ts: seq<Token>): seq<nat> {
    if ts == [] then []
    else (if ts[0].Param? then [ts[0].n] else []) + Placeholders(ts[1..])
  }

  lemma {:induction false} PlaceholdersConcat(a: seq<Token>, b: seq<Token>)
    ensures Placeholders(a + b) == Placeholders(a) + Placeholders(b)
  {
    if a == [] {
      assert a + b == b;
    } else {
      assert (a + b)[1..] == a[1..] + b && (a + b)[0] == a[0];
      PlaceholdersConcat(a[1..], b);
      Regroup(if a[0].Param? then [a[0].n] else [], Placeholders(a[1..]), Placeholders(b));
    }
  }

  /** k numbers from `base` up. */
  function UpFrom(base: nat, k: nat): (s: seq<nat>)
    ensures |s| == k && forall i :: 0 <= i < k ==> s[i] == base + i
  {
    seq(k, i requires 0 <= i < k => base + i)
  }

  lemma EntryPlaceholder(base: nat, i: nat)
    ensures Placeholders(Entry(base, i)) == [base + i]
  {
    var (a, c) := (if i > 0 then [Comma] else [], if i == 4 then [Cast("jsonb")] else []);
    PlaceholdersConcat(a + [Param(base + i)], c);
    PlaceholdersConcat(a, [Param(base + i)]);
    assert [Param(base + i)][1..] == [];
    assert Placeholders(a) == [] && Placeholders(c) == [];
  }

  lemma {:induction false} EntriesPlaceholders(base: nat, k: nat)
    ensures Placeholders(Entries(base, k)) == UpFrom(base, k)
  {
    if k > 0 {
      EntriesPlaceholders(base, k - 1);
      PlaceholdersConcat(Entries(base, k - 1), Entry(base, k - 1));
      EntryPlaceholder(base, k - 1);
      assert UpFrom(base, k) == UpFrom(base, k - 1) + [base + (k - 1)];
    }
  }

  lemma TuplePlaceholders(base: nat)
    ensures Placeholders(TupleTokens(base)) == UpFrom(base, PARAMS_PER_ROW)
  {
    var (m, z) := (Entries(base, PARAMS_PER_ROW), [Comma, Literal("discovered"), RParen]);
    EntriesPlaceholders(base, PARAMS_PER_ROW);
    PlaceholdersConcat([LParen] + m, z);
    PlaceholdersConcat([LParen], m);
    assert z[1..] == [Literal("discovered"), RParen] && z[1..][1..] == [RParen] && z[1..][1..][1..] == [];
    assert Placeholders(z) == [] && Placeholders([LParen]) == [];
  }

  lemma {:induction false} ValuesPlaceholders(n: nat)
    ensures Placeholders(ValuesTokens(n)) == UpFrom(1, n * PARAMS_PER_ROW)
    ensures forall t :: t in ValuesTokens(n) ==> Lexable(t)
  {
    if n > 0 {
      var (p, c, base) := (ValuesTokens(n - 1), if n > 1 then [Comma] else [], (n - 1) * PARAMS_PER_ROW + 1);
      ValuesPlaceholders(n - 1);
      TuplePlaceholders(base);
      PlaceholdersConcat(p + c, TupleTokens(base));
      PlaceholdersConcat(p, c);
      assert Placeholders(c) == [];
      TupleLexable(base);
    }
  }

  lemma TupleLexable(base: nat)
    ensures forall t :: t in TupleTokens(base) ==> Lexable(t)
  {
    EntriesLexable(base, PARAMS_PER_ROW);
  }

  lemma {:induction false} EntriesLexable(base: nat, k: nat)
    ensures forall t :: t in Entries(base, k) ==> Lexable(t)
  {
    if k > 0 {
      EntriesLexable(base, k - 1);
    }
  }

  /** Lexing the text of an n-row chunk yields placeholders 1 to 6n, each exactly
      once and in increasing order. */
  lemma ValuesTextLexes(n: nat)
    ensures Lex(ShowAll(ValuesTokens(n))) == Some(ValuesTokens(n))
    ensures Placeholders(ValuesTokens(n)) == UpFrom(1, n * PARAMS_PER_ROW)
  {
    ValuesPlaceholders(n);
    LexShow(ValuesTokens(n));
  }

  // ---- Binding the parameters ----------------------------------------------------------

  datatype Arg =
    | IdArg(id: Uuid)
    | TextArg(s: string)
    | ParentArg(parent: Option<Uuid>)
    | JsonArg(attrs: Attrs)
    | BytesArg(digest: Digest)

  /** The parameters of a row, in the order of the column list. */
  function RowArg(u: Tuple, j: nat): Arg
    requires j < PARAMS_PER_ROW
  {
    match j
    case 0 => IdArg(u.key.scope)
    case 1 => TextArg(u.key.kind)
    case 2 => TextArg(u.key.value)
    case 3 => ParentArg(u.parent)
    case 4 => JsonArg(u.attrs)
    case 5 => BytesArg(u.fingerprint)
  }

  function RowArgs(u: Tuple): (r: seq<Arg>)
    ensures |r| == PARAMS_PER_ROW && forall j :: 0 <= j < PARAMS_PER_ROW ==> r[j] == RowArg(u, j)
  {
    seq(PARAMS_PER_ROW, j requires 0 <= j < PARAMS_PER_ROW => RowArg(u, j))
  }

  function Args(us: seq<Tuple>): (r: seq<Arg>)
    ensures |r| == |us| * PARAMS_PER_ROW
  {
    if us == [] then [] else Args(us[..|us| - 1]) + RowArgs(us[|us| - 1])
  }

  lemma {:induction false} ArgsAt(us: seq<Tuple>, i: nat, j: nat)
    requires i < |us| && j < PARAMS_PER_ROW
    ensures Args(us)[i * PARAMS_PER_ROW + j] == RowArg(us[i], j)
  {
    if i < |us| - 1 {
      ArgsAt(us[..|us| - 1], i, j);
    }
  }

  const TOKENS_PER_ROW := 16

  predicate TupleShape(ts: seq<Token>) {
    && |ts| == TOKENS_PER_ROW
    && ts[0] == LParen && ts[15] == RParen
    && ts[1].Param? && ts[3].Param? && ts[5].Param? && ts[7].Param? && ts[9].Param? && ts[12].Param?
    && ts[2] == ts[4] == ts[6] == ts[8] == ts[11] == ts[13] == Comma
    && ts[10] == Cast("jsonb") && ts[14] == Literal("discovered")
  }

  function ArgOf(t: Token, args: seq<Arg>): Option<Arg> {
    if t.Param? && 1 <= t.n <= |args| then Some(args[t.n - 1]) else None
  }

  /** The row a tuple of the VALUES list stands for. */
  function BindTuple(ts: seq<Token>, args: seq<Arg>): Option<Tuple> {
    if !TupleShape(ts) then None
    else
      match (ArgOf(ts[1], args), ArgOf(ts[3], args), ArgOf(ts[5], args),
             ArgOf(ts[7], args), ArgOf(ts[9], args), ArgOf(ts[12], args))
      case (Some(IdArg(scope)), Some(TextArg(kind)), Some(TextArg(value)),
            Some(ParentArg(parent)), Some(JsonArg(attrs)), Some(BytesArg(digest))) =>
        Some(Tuple(Key(scope, kind, value), parent, attrs, digest))
      case _ => None
  }

  /** The rows of a VALUES list: tuples separated by commas, at least one. */
  function BindRows(ts: seq<Token>, args: seq<Arg>): Option<seq<Tuple>>
    decreases |ts|
  {
    if |ts| <= TOKENS_PER_ROW then
      var u := BindTuple(ts, args);
      if u.None? then None else Some([u.value])
    else
      var m := |ts| - TOKENS_PER_ROW - 1;
      var us := BindRows(ts[..m], args);
      var u := BindTuple(ts[m + 1..], args);
      if us.None? || u.None? || ts[m] != Comma then None else Some(us.value + [u.value])
  }

  /** How PostgreSQL understands a batch: it lexes the text and binds the parameters. */
  function ReadStatement(text: string, args: seq<Arg>): Option<seq<Tuple>> {
    var ts := Lex(text);
    if ts.None? then None else BindRows(ts.value, args)
  }

  lemma TupleSpelledOut(b: nat)
    ensures TupleTokens(b) ==
              [LParen, Param(b), Comma, Param(b + 1), Comma, Param(b + 2), Comma, Param(b + 3), Comma,
               Param(b + 4), Cast("jsonb"), Comma, Param(b + 5), Comma, Literal("discovered"), RParen]
  {
    EntriesSpelledOut(b);
  }

  lemma EntriesSpelledOut(b: nat)
    ensures Entries(b, 6) ==
              [Param(b), Comma, Param(b + 1), Comma, Param(b + 2), Comma, Param(b + 3), Comma,
               Param(b + 4), Cast("jsonb"), Comma, Param(b + 5)]
  {
    HalfSpelledOut(b);
    var (e3, e4, e5, e6) := (Entries(b, 3), Entries(b, 4), Entries(b, 5), Entries(b, 6));
    assert e4 == e3 + [Comma, Param(b + 3)];
    assert e5 == e4 + [Comma, Param(b + 4), Cast("jsonb")];
    assert e6 == e5 + [Comma, Param(b + 5)];
  }

  lemma HalfSpelledOut(b: nat)
    ensures Entries(b, 3) == [Param(b), Comma, Param(b + 1), Comma, Param(b + 2)]
  {
    assert Entries(b, 1) == [Param(b)];
    assert Entries(b, 2) == Entries(b, 1) + Entry(b, 1);
  }

  /** The text of the tuple whose first placeholder is `b`. */
  lemma RowText(b: nat)
    ensures ShowAll(TupleTokens(b)) ==
              "(" + "$" + Digits(b) + "," + "$" + Digits(b + 1) + "," + "$" + Digits(b + 2)
              + "," + "$" + Digits(b + 3) + "," + "$" + Digits(b + 4) + "::jsonb"
              + "," + "$" + Digits(b + 5) + ",'discovered')"
  {
    HalfText(b);
    EntriesText(b, 3);
    EntriesText(b, 4);
    EntriesText(b, 5);
    ClosingText(b);
  }

  lemma HalfText(b: nat)
    ensures Opened(b, 3) == "(" + "$" + Digits(b) + "," + "$" + Digits(b + 1) + "," + "$" + Digits(b + 2)
  {
    OpeningText(b);
    EntriesText(b, 0);
    EntriesText(b, 1);
    EntriesText(b, 2);
  }

  /** The text of the tuple up to its i-th entry. */
  function Opened(b: nat, i: nat): string {
    ShowAll([LParen] + Entries(b, i))
  }

  lemma OpeningText(b: nat)
    ensures Opened(b, 0) == "("
  {
    ShowOne(LParen);
    assert [LParen] + Entries(b, 0) == [LParen];
  }

  lemma ClosingText(b: nat)
    ensures ShowAll(TupleTokens(b)) == Opened(b, 6) + ",'discovered')"
  {
    var ts := [LParen] + Entries(b, 6);
    TupleEnd("", ts);
    EmptyPrefix(ShowAll(ts));
    EmptyPrefix(ShowAll(TupleTokens(b)));
  }

  lemma EmptyPrefix(s: string)
    ensures "" + s == s
  {}

  /** One more entry of the tuple. */
  lemma EntriesText(b: nat, i: nat)
    ensures var longer := if i > 0 then Opened(b, i) + "," + "$" + Digits(b + i)
                          else Opened(b, i) + "$" + Digits(b + i);
            Opened(b, i + 1) == if i == 4 then longer + "::jsonb" else longer
  {
    var ts := [LParen] + Entries(b, i);
    EntryText("", ts, b, i);
    EmptyPrefix(ShowAll(ts));
    EmptyPrefix(ShowAll(ts + Entry(b, i)));
    Regroup([LParen], Entries(b, i), Entry(b, i));
  }

  lemma ShowOne(t: Token)
    ensures ShowAll([t]) == Show(t)
  {
    assert [t][1..] == [];
  }

  lemma BindSpelledOut(b: nat, args: seq<Arg>, u: Tuple)
    requires forall j {:trigger RowArg(u, j)} :: 0 <= j < PARAMS_PER_ROW ==>
               ArgOf(Param(b + j), args) == Some(RowArg(u, j))
    ensures BindTuple(TupleTokens(b), args) == Some(u)
  {
    TupleSpelledOut(b);
    assert ArgOf(Param(b), args) == Some(RowArg(u, 0)) && ArgOf(Param(b + 1), args) == Some(RowArg(u, 1));
    assert ArgOf(Param(b + 2), args) == Some(RowArg(u, 2)) && ArgOf(Param(b + 3), args) == Some(RowArg(u, 3));
    assert ArgOf(Param(b + 4), args) == Some(RowArg(u, 4)) && ArgOf(Param(b + 5), args) == Some(RowArg(u, 5));
  }

  lemma ArgOfRow(us: seq<Tuple>, i: nat, j: nat)
    requires i < |us| && j < PARAMS_PER_ROW
    ensures ArgOf(Param(i * PARAMS_PER_ROW + 1 + j), Args(us)) == Some(RowArg(us[i], j))
  {
    ArgsAt(us, i, j);
  }

  lemma BindOne(us: seq<Tuple>, i: nat, args: seq<Arg>, b: nat)
    requires i < |us| && args == Args(us) && b == i * PARAMS_PER_ROW + 1
    ensures BindTuple(TupleTokens(b), args) == Some(us[i])
  {
    forall j | 0 <= j < PARAMS_PER_ROW ensures ArgOf(Param(b + j), args) == Some(RowArg(us[i], j)) {
      ArgOfRow(us, i, j);
    }
    BindSpelledOut(b, args, us[i]);
  }

  lemma BindSingle(ts: seq<Token>, args: seq<Arg>, u: Tuple)
    requires |ts| == TOKENS_PER_ROW && BindTuple(ts, args) == Some(u)
    ensures BindRows(ts, args) == Some([u])
  {}

  lemma BindStep(ts: seq<Token>, args: seq<Arg>, front: seq<Token>, last: seq<Token>, us: seq<Tuple>, u: Tuple)
    requires ts == front + [Comma] + last && |last| == TOKENS_PER_ROW
    requires BindRows(front, args) == Some(us) && BindTuple(last, args) == Some(u)
    ensures BindRows(ts, args) == Some(us + [u])
  {
    var m := |ts| - TOKENS_PER_ROW - 1;
    assert ts[..m] == front && ts[m + 1..] == last;
  }

  lemma TupleLength(b: nat)
    ensures |TupleTokens(b)| == TOKENS_PER_ROW
  {
    TupleSpelledOut(b);
  }

  lemma ValuesGrow(n: nat)
    requires n >= 1
    ensures var last := TupleTokens((n - 1) * PARAMS_PER_ROW + 1);
            ValuesTokens(n) == if n == 1 then last else ValuesTokens(n - 1) + [Comma] + last
  {
    if n == 1 {
      assert ValuesTokens(0) + [] == [];
    }
  }

  lemma {:induction false} BindMany(us: seq<Tuple>, n: nat, args: seq<Arg>, ts: seq<Token>)
    requires 1 <= n <= |us| && args == Args(us) && ts == ValuesTokens(n)
    ensures BindRows(ts, args) == Some(us[..n])
  {
    var b := (n - 1) * PARAMS_PER_ROW + 1;
    var (last, u) := (TupleTokens(b), us[n - 1]);
    BindOne(us, n - 1, args, b);
    TupleLength(b);
    ValuesGrow(n);
    if n == 1 {
      BindSingle(ts, args, u);
    } else {
      BindMany(us, n - 1, args, ValuesTokens(n - 1));
      BindStep(ts, args, ValuesTokens(n - 1), last, us[..n - 1], u);
    }
    PrefixSnoc(us, n);
  }

  lemma PrefixSnoc<T>(s: seq<T>, n: nat)
    requires 1 <= n <= |s|
    ensures s[..n] == s[..n - 1] + [s[n - 1]] && (n == 1 ==> s[..n] == [s[0]]) && s[..|s|] == s
  {}

  lemma ReadSteps(text: string, args: seq<Arg>, ts: seq<Token>, us: seq<Tuple>)
    requires Lex(text) == Some(ts) && BindRows(ts, args) == Some(us)
    ensures ReadStatement(text, args) == Some(us)
  {}

  /** The statement built for a chunk is read back as exactly the rows meant:
      each placeholder binds the right field of the right asset. */
  lemma StatementReadBack(us: seq<Tuple>)
    requires us != []
    ensures ReadStatement(ShowAll(ValuesTokens(|us|)), Args(us)) == Some(us)
  {
    ValuesTextLexes(|us|);
    BindMany(us, |us|, Args(us), ValuesTokens(|us|));
    PrefixSnoc(us, |us|);
    ReadSteps(ShowAll(ValuesTokens(|us|)), Args(us), ValuesTokens(|us|), us);
  }
}
