/** Dotted secret paths (sdk/secretbox/fields.go:51-69). */
module SecretPaths {

  /** unicode.IsSpace. */
  predicate IsSpace(c: char) {
    var n := c as int;
    9 <= n <= 13 || n == 0x20 || n == 0x85 || n == 0xA0 || n == 0x1680 || 0x2000 <= n <= 0x200A
    || n == 0x2028 || n == 0x2029 || n == 0x202F || n == 0x205F || n == 0x3000
  }

  function TrimLeft(s: string): string {
    if s != "" && IsSpace(s[0]) then TrimLeft(s[1..]) else s
  }

  function TrimRight(s: string): string {
    if s != "" && IsSpace(s[|s| - 1]) then TrimRight(s[..|s| - 1]) else s
  }

  function TrimSpace(s: string): string {
    TrimRight(TrimLeft(s))
  }

  /** The part of the text before the first dot, or all of it. */
  function BeforeDot(s: string): string {
    if s == "" || s[0] == '.' then "" else [s[0]] + BeforeDot(s[1..])
  }

  /** strings.Split(s, "."): at least one part. */
  function Split(s: string): (parts: seq<string>)
    ensures parts != []
    decreases |s|
  {
    var part := BeforeDot(s);
    BeforeDotIsPrefix(s);
    if |part| == |s| then [part] else [part] + Split(s[|part| + 1..])
  }

  lemma BeforeDotIsPrefix(s: string)
    ensures |BeforeDot(s)| <= |s| && s[..|BeforeDot(s)|] == BeforeDot(s)
    ensures |BeforeDot(s)| < |s| ==> s[|BeforeDot(s)|] == '.'
    ensures forall i :: 0 <= i < |BeforeDot(s)| ==> BeforeDot(s)[i] != '.'
  {}

  /** The parts that are kept: trimmed, empty ones dropped. */
  function Kept(parts: seq<string>): seq<string> {
    if parts == [] then []
    else
      var p := TrimSpace(parts[|parts| - 1]);
      Kept(parts[..|parts| - 1]) + if p == "" then [] else [p]
  }

  function Segments(path: string): seq<string> {
    if TrimSpace(path) == "" then [] else Kept(Split(TrimSpace(path)))
  }

  method SplitPath(path: string) returns (segments: seq<string>)
    ensures segments == Segments(path)
  {
    var p := TrimSpace(path);
    if p == "" {
      return [];
    }
    var parts := Split(p);
    segments := [];
    for i := 0 to |parts|
      invariant segments == Kept(parts[..i])
    {
      var part := TrimSpace(parts[i]);
      assert parts[..i + 1][..i] == parts[..i];
      if part == "" {
        continue;
      }
      segments := segments + [part];
    }
    assert parts[..|parts|] == parts;
  }

  /** A segment as an operator means it: not empty, no dot, no space around it. */
  predicate Clean(s: string) {
    s != "" && !IsSpace(s[0]) && !IsSpace(s[|s| - 1]) && forall i :: 0 <= i < |s| ==> s[i] != '.'
  }

  predicate AllClean(segments: seq<string>) {
    forall i :: 0 <= i < |segments| ==> Clean(segments[i])
  }

  function Dotted(segments: seq<string>): string {
    if segments == [] then ""
    else if |segments| == 1 then segments[0]
    else segments[0] + "." + Dotted(segments[1..])
  }

  lemma TrimLeftClean(s: string)
    ensures TrimLeft(s) == "" || !IsSpace(TrimLeft(s)[0])
    ensures forall c :: c in TrimLeft(s) ==> c in s
  {}

  lemma {:induction false} TrimRightClean(s: string)
    ensures TrimRight(s) == "" || (!IsSpace(TrimRight(s)[|TrimRight(s)| - 1]) && TrimRight(s)[0] == s[0])
    ensures forall c :: c in TrimRight(s) ==> c in s
  {
    if s != "" && IsSpace(s[|s| - 1]) {
      TrimRightClean(s[..|s| - 1]);
    }
  }

  lemma TrimmedPartIsClean(s: string)
    requires forall i :: 0 <= i < |s| ==> s[i] != '.'
    ensures TrimSpace(s) == "" || Clean(TrimSpace(s))
  {
    TrimLeftClean(s);
    TrimRightClean(TrimLeft(s));
    var t := TrimSpace(s);
    assert forall i :: 0 <= i < |t| ==> t[i] in t && t[i] in s;
  }

  lemma {:induction false} SplitHasNoDots(s: string)
    ensures forall part :: part in Split(s) ==> forall i :: 0 <= i < |part| ==> part[i] != '.'
    decreases |s|
  {
    BeforeDotIsPrefix(s);
    var n := |BeforeDot(s)|;
    if n < |s| {
      SplitHasNoDots(s[n + 1..]);
    }
  }

  lemma {:induction false} KeptAreClean(parts: seq<string>)
    requires forall part :: part in parts ==> forall i :: 0 <= i < |part| ==> part[i] != '.'
    ensures AllClean(Kept(parts))
  {
    if parts != [] {
      KeptAreClean(parts[..|parts| - 1]);
      TrimmedPartIsClean(parts[|parts| - 1]);
    }
  }

  /** Whatever the operator typed, every segment is clean. */
  lemma SegmentsAreClean(path: string)
    ensures AllClean(Segments(path))
  {
    SplitHasNoDots(TrimSpace(path));
    KeptAreClean(Split(TrimSpace(path)));
  }

  lemma {:induction false} SplitJoined(s: string, rest: string)
    requires forall i :: 0 <= i < |s| ==> s[i] != '.'
    ensures BeforeDot(s) == s && BeforeDot(s + "." + rest) == s
  {
    if s == "" {
      assert s + "." + rest == "." + rest;
    } else {
      assert (s + "." + rest)[1..] == s[1..] + "." + rest;
      SplitJoined(s[1..], rest);
      assert [s[0]] + s[1..] == s;
    }
  }

  lemma CleanIsTrimmed(s: string)
    requires s != "" && !IsSpace(s[0]) && !IsSpace(s[|s| - 1])
    ensures TrimSpace(s) == s
  {}

  lemma KeptSnoc(front: seq<string>, last: string)
    requires last != "" && TrimSpace(last) == last
    ensures Kept(front + [last]) == Kept(front) + [last]
  {
    var parts := front + [last];
    assert parts[..|parts| - 1] == front;
  }

  lemma FrontAndLast(parts: seq<string>)
    requires parts != []
    ensures parts[..|parts| - 1] + [parts[|parts| - 1]] == parts
  {}

  lemma {:induction false} KeptClean(parts: seq<string>)
    requires AllClean(parts)
    ensures Kept(parts) == parts
  {
    if parts != [] {
      var (front, last) := (parts[..|parts| - 1], parts[|parts| - 1]);
      KeptClean(front);
      CleanIsTrimmed(last);
      KeptSnoc(front, last);
      FrontAndLast(parts);
    }
  }

  lemma {:induction false} DottedEnds(segments: seq<string>)
    requires segments != [] && AllClean(segments)
    ensures var s := Dotted(segments); s != "" && !IsSpace(s[0]) && !IsSpace(s[|s| - 1])
  {
    if |segments| > 1 {
      DottedEnds(segments[1..]);
      var s := Dotted(segments);
      assert Clean(segments[0]) && s[0] == segments[0][0];
      assert s[|s| - 1] == Dotted(segments[1..])[|Dotted(segments[1..])| - 1];
    }
  }

  /** Clean segments survive being written with dots and read back. */
  lemma SegmentsRoundTrip(segments: seq<string>)
    requires AllClean(segments)
    ensures Segments(Dotted(segments)) == segments
  {
    if segments != [] {
      DottedEnds(segments);
      CleanIsTrimmed(Dotted(segments));
      SplitParts(segments);
      KeptClean(segments);
    }
  }

  // ---- Blank parts -------------------------------------------------------------------

  /** Parts are kept or dropped one by one, and those that are kept keep their order. */
  lemma {:induction false} KeptConcat(a: seq<string>, b: seq<string>)
    ensures Kept(a + b) == Kept(a) + Kept(b)
    ensures |b| == 1 ==> Kept(b) == if TrimSpace(b[0]) == "" then [] else [TrimSpace(b[0])]
  {
    if b == [] {
      assert a + b == a;
    } else {
      var (front, last) := (b[..|b| - 1], b[|b| - 1]);
      KeptConcat(a, front);
      assert (a + b)[..|a + b| - 1] == a + front && (a + b)[|a + b| - 1] == last;
      var end := if TrimSpace(last) == "" then [] else [TrimSpace(last)];
      assert Kept(a) + Kept(front) + end == Kept(a) + (Kept(front) + end);
    }
  }

  /** Splitting at the dots undoes joining with dots, for parts of any kind. */
  lemma {:induction false} SplitParts(parts: seq<string>)
    requires parts != [] && forall part :: part in parts ==> forall i :: 0 <= i < |part| ==> part[i] != '.'
    ensures Split(Dotted(parts)) == parts
  {
    var s := Dotted(parts);
    if |parts| == 1 {
      SplitJoined(s, "");
    } else {
      var rest := Dotted(parts[1..]);
      SplitJoined(parts[0], rest);
      SplitParts(parts[1..]);
      assert s[|parts[0]| + 1..] == rest;
      assert [parts[0]] + parts[1..] == parts;
    }
  }

  lemma {:induction false} TrimLeftSnoc(x: string, c: char)
    requires IsSpace(c)
    ensures TrimLeft(x + [c]) == if TrimLeft(x) == "" then "" else TrimLeft(x) + [c]
  {
    if x == "" {
      assert x + [c] == [c] && [c][1..] == "";
    } else if IsSpace(x[0]) {
      assert (x + [c])[1..] == x[1..] + [c];
      TrimLeftSnoc(x[1..], c);
    }
  }

  /** Space at either end of a text or a part makes no difference. */
  lemma TrimSnoc(x: string, c: char)
    requires IsSpace(c)
    ensures TrimSpace(x + [c]) == TrimSpace(x)
  {
    TrimLeftSnoc(x, c);
    var y := TrimLeft(x);
    assert (y + [c])[..|y + [c]| - 1] == y;
  }

  lemma TrimCons(c: char, x: string)
    requires IsSpace(c)
    ensures TrimSpace([c] + x) == TrimSpace(x)
  {
    assert ([c] + x)[1..] == x;
  }

  /** One more character in front goes to the first part. */
  lemma SplitCons(c: char, s: string)
    requires c != '.'
    ensures Split([c] + s) == [[c] + Split(s)[0]] + Split(s)[1..]
  {
    var (t, n) := ([c] + s, |BeforeDot(s)|);
    assert t[1..] == s;
    BeforeDotIsPrefix(s);
    if n < |s| {
      assert t[n + 2..] == s[n + 1..];
    }
  }

  /** One more character behind goes to the last part. */
  lemma {:induction false} SplitSnoc(s: string, c: char)
    requires c != '.'
    ensures Split(s + [c]) == WithLast(Split(s), c)
    decreases |s|
  {
    if s == "" {
      SplitOne(c);
      assert s + [c] == [c];
    } else {
      SplitSnoc(s[1..], c);
      assert [s[0]] + s[1..] == s && [s[0]] + (s[1..] + [c]) == s + [c];
      if s[0] == '.' {
        SplitDot(s[1..]);
        SplitDot(s[1..] + [c]);
        assert [""] + WithLast(Split(s[1..]), c) == WithLast([""] + Split(s[1..]), c);
      } else {
        SplitCons(s[0], s[1..]);
        SplitCons(s[0], s[1..] + [c]);
        FirstAndLast(Split(s[1..]), s[0], c);
      }
    }
  }

  /** The parts with one more character at the end of the last. */
  function WithLast(parts: seq<string>, c: char): seq<string>
    requires parts != []
  {
    parts[..|parts| - 1] + [parts[|parts| - 1] + [c]]
  }

  lemma SplitOne(c: char)
    requires c != '.'
    ensures Split("") == [""] && Split([c]) == WithLast([""], c)
  {
    assert [c][1..] == "" && BeforeDot([c]) == [c];
    assert "" + [c] == [c];
  }

  lemma SplitDot(s: string)
    ensures Split(['.'] + s) == [""] + Split(s)
  {
    assert BeforeDot(['.'] + s) == "" && (['.'] + s)[1..] == s;
  }

  lemma FirstAndLast(q: seq<string>, b: char, c: char)
    requires q != []
    ensures var longer := WithLast(q, c);
            [[b] + longer[0]] + longer[1..] == WithLast([[b] + q[0]] + q[1..], c)
  {
    assert [b] + (q[0] + [c]) == [b] + q[0] + [c];
  }

  lemma {:induction false} KeptOfTrimLeft(s: string)
    ensures Kept(Split(TrimLeft(s))) == Kept(Split(s))
  {
    if s != "" && IsSpace(s[0]) {
      KeptOfTrimLeft(s[1..]);
      var parts := Split(s[1..]);
      SplitCons(s[0], s[1..]);
      assert [s[0]] + s[1..] == s && [parts[0]] + parts[1..] == parts;
      KeptConcat([[s[0]] + parts[0]], parts[1..]);
      KeptConcat([], [[s[0]] + parts[0]]);
      KeptConcat([parts[0]], parts[1..]);
      KeptConcat([], [parts[0]]);
      TrimCons(s[0], parts[0]);
    }
  }

  lemma {:induction false} KeptOfTrimRight(s: string)
    ensures Kept(Split(TrimRight(s))) == Kept(Split(s))
  {
    if s != "" && IsSpace(s[|s| - 1]) {
      var (t, c) := (s[..|s| - 1], s[|s| - 1]);
      KeptOfTrimRight(t);
      SplitSnoc(t, c);
      assert t + [c] == s;
      SpaceInLast(Split(t), c);
    }
  }

  lemma SpaceInLast(parts: seq<string>, c: char)
    requires parts != [] && IsSpace(c)
    ensures Kept(WithLast(parts, c)) == Kept(parts)
  {
    var (front, last) := (parts[..|parts| - 1], parts[|parts| - 1]);
    assert WithLast(parts, c)[..|parts| - 1] == front;
    TrimSnoc(last, c);
  }

  /** Whatever an operator puts between the dots, the segments are the parts that are
      not blank, trimmed and in their order. */
  lemma SegmentsOfParts(parts: seq<string>)
    requires parts != [] && forall part :: part in parts ==> forall i :: 0 <= i < |part| ==> part[i] != '.'
    ensures Segments(Dotted(parts)) == Kept(parts)
  {
    var s := Dotted(parts);
    SplitParts(parts);
    KeptOfTrimLeft(s);
    KeptOfTrimRight(TrimLeft(s));
    BlankHasNoParts();
  }

  lemma BlankHasNoParts()
    ensures Kept(Split("")) == []
  {
    assert Split("") == [""] && TrimSpace("") == "";
    KeptConcat([], [""]);
    assert [] + [""] == [""];
  }

  /** A blank part anywhere makes no difference. */
  lemma BlankDropped(a: seq<string>, blank: string, b: seq<string>)
    requires TrimSpace(blank) == ""
    ensures Kept(a + [blank] + b) == Kept(a + b)
  {
    KeptConcat(a + [blank], b);
    KeptConcat(a, [blank]);
    KeptConcat(a, b);
    assert Kept(a) + [] == Kept(a);
  }

  /** Stray dots, as an operator may type them. */
  lemma StrayDots(a: string, b: string)
    requires Clean(a) && Clean(b)
    ensures Segments("." + a + ".." + b + ".") == [a, b]
  {
    var (p5, p4, p3, p2) := (["", a, "", b, ""], [a, "", b, ""], ["", b, ""], [b, ""]);
    assert p5[1..] == p4 && p4[1..] == p3 && p3[1..] == p2 && p2[1..] == [""];
    assert Dotted(p2) == b + ".";
    assert Dotted(p3) == "." + (b + ".");
    assert Dotted(p4) == a + "." + ("." + (b + "."));
    assert Dotted(p5) == "." + (a + "." + ("." + (b + ".")));
    assert Dotted(p5) == "." + a + ".." + b + ".";
    SegmentsOfParts(p5);
    KeptOfFive(a, b);
  }

  lemma KeptOfFive(a: string, b: string)
    requires Clean(a) && Clean(b)
    ensures Kept(["", a, "", b, ""]) == [a, b]
  {
    BlankThen([], a);
    BlankThen(["", a], b);
    assert [] + ["", a] == ["", a] && ["", a] + ["", b] == ["", a, "", b];
    assert Kept(["", a, "", b]) == [a, b];
    KeptConcat(["", a, "", b], [""]);
    assert ["", a, "", b] + [""] == ["", a, "", b, ""];
  }

  lemma BlankThen(front: seq<string>, a: string)
    requires Clean(a)
    ensures Kept(front + ["", a]) == Kept(front) + [a]
  {
    CleanIsTrimmed(a);
    KeptConcat(front, [""]);
    KeptConcat(front + [""], [a]);
    assert front + [""] + [a] == front + ["", a];
  }

  /** The characters that count as space, written out. */
  lemma SpacesSpelledOut(c: char)
    ensures IsSpace(c) <==>
              c as int in {0x09, 0x0A, 0x0B, 0x0C, 0x0D, 0x20, 0x85, 0xA0, 0x1680,
                           0x2000, 0x2001, 0x2002, 0x2003, 0x2004, 0x2005, 0x2006, 0x2007, 0x2008, 0x2009, 0x200A,
                           0x2028, 0x2029, 0x202F, 0x205F, 0x3000}
  {}
}
