/** The bytes behind finding hashes (worker/dedup.go). Findings keep maps apart
    from lists, so their encoding is exact.
 */
module FindingHash {
  import opened Sequences
  import opened Wrappers
  import opened Json
  import opened Values
  import AttrsEncoding
  import Utf8

  type Bytes = seq<Utf8.Byte>

  /** A Go string field is any byte sequence. A finding without data (`None`)
      differs from one whose data is an empty map. */
  datatype Finding = Finding(kind: Bytes, severity: Bytes, title: string, data: Option<Attrs>)

  // ---- Canonical JSON -----------------------------------------------------------

  /** canonicalize: maps become objects with sorted keys. */
  function Canonicalize(v: Value): (d: Doc)
    decreases v, 1
  {
    match v
    case Nil => Null
    case Flag(b) => Bool(b)
    case Number(token) => Num(token)
    case Text(s) => Str(s)
    case List(items) => Arr(seq(|items|, i requires 0 <= i < |items| => Canonicalize(items[i])))
    case Map(m) => Ord(SortedFields(v))
  }

  function SortedFields(v: Value): (fs: seq<Field>)
    requires v.Map?
    ensures |fs| == |Utf8.SortedKeys(v.m.Keys)|
    ensures forall i :: 0 <= i < |fs| ==>
              var k := Utf8.SortedKeys(v.m.Keys)[i];
              k in v.m && fs[i] == Field(k, Canonicalize(v.m[k]))
    decreases v, 0
  {
    var ks := Utf8.SortedKeys(v.m.Keys);
    seq(|ks|, i requires 0 <= i < |ks| => Field(ks[i], Canonicalize(v.m[ks[i]])))
  }

  /** orderedMap.MarshalJSON: the buffer grows field by field. */
  method MarshalOrdered(fields: seq<Field>) returns (buf: string)
    ensures buf == Print(Ord(fields))
  {
    buf := "{";
    for i := 0 to |fields|
      invariant buf == "{" + Joined(fields[..i])
    {
      ghost var sep := if i > 0 then "," else "";
      GrowBuffer(fields[..i], sep, fields[i]);
      assert fields[..i + 1] == fields[..i] + [fields[i]];
      if i > 0 {
        buf := buf + ",";
      } else {
        assert buf + "" == buf;
      }
      buf := buf + Quote(fields[i].key);
      buf := buf + ":";
      buf := buf + Print(fields[i].val);
    }
    assert fields[..|fields|] == fields;
    buf := buf + "}";
    JoinedPrints(fields);
  }

  lemma GrowBuffer(done: seq<Field>, sep: string, f: Field)
    requires sep == if done == [] then "" else ","
    ensures "{" + Joined(done) + sep + Quote(f.key) + ":" + Print(f.val) == "{" + Joined(done + [f])
  {
    JoinedSnoc(done, f);
  }

  /** The fields with commas between them. */
  function Joined(fields: seq<Field>): string {
    if fields == [] then ""
    else if |fields| == 1 then PrintField(fields[0])
    else PrintField(fields[0]) + "," + Joined(fields[1..])
  }

  lemma {:induction false} JoinedSnoc(fields: seq<Field>, f: Field)
    ensures Joined(fields + [f]) == Joined(fields) + (if fields == [] then "" else ",") + PrintField(f)
  {
    var all := fields + [f];
    if fields != [] {
      assert all[1..] == fields[1..] + [f];
      JoinedSnoc(fields[1..], f);
    }
  }

  lemma JoinedPrints(fields: seq<Field>)
    ensures "{" + Joined(fields) + "}" == Print(Ord(fields))
  {
    if fields != [] {
      JoinedFields(fields);
      Regroup("{", Joined(fields), "}");
    }
  }

  lemma {:induction false} JoinedFields(fields: seq<Field>)
    requires fields != []
    ensures Joined(fields) + "}" == PrintFields(fields)
  {
    if |fields| > 1 {
      JoinedFields(fields[1..]);
      Regroup(PrintField(fields[0]) + ",", Joined(fields[1..]), "}");
      Regroup(PrintField(fields[0]), ",", PrintFields(fields[1..]));
    }
  }

  lemma {:induction false} CanonicalizePrintable(v: Value)
    requires Printable(v)
    ensures WellFormed(Canonicalize(v))
    decreases v
  {
    match v
    case List(items) =>
      forall x | x in items ensures WellFormed(Canonicalize(x)) {
        CanonicalizePrintable(x);
      }
    case Map(m) =>
      var (ks, fs) := (Utf8.SortedKeys(m.Keys), SortedFields(v));
      forall i | 0 <= i < |fs| ensures WellFormed(fs[i].val) {
        CanonicalizePrintable(m[ks[i]]);
      }
    case _ =>
  }

  /** Canonicalization loses nothing: the value can be recovered. */
  lemma {:induction false} CanonicalizeInjective(v: Value, w: Value)
    requires Canonicalize(v) == Canonicalize(w)
    ensures v == w
    decreases v
  {
    match v
    case List(items) =>
      forall i | 0 <= i < |items| ensures |w.items| == |items| && items[i] == w.items[i] {
        assert Canonicalize(v).items[i] == Canonicalize(items[i]);
        assert Canonicalize(w).items[i] == Canonicalize(w.items[i]);
        CanonicalizeInjective(items[i], w.items[i]);
      }
      assert |Canonicalize(w).items| == |w.items|;
      assert items == w.items;
    case Map(m) =>
      SameKeys(v, w);
      forall k | k in m ensures k in w.m && m[k] == w.m[k] {
        var ks := Utf8.SortedKeys(m.Keys);
        var i :| 0 <= i < |ks| && ks[i] == k;
        assert SortedFields(v)[i] == Field(k, Canonicalize(m[k]));
        assert SortedFields(w)[i] == Field(k, Canonicalize(w.m[k]));
        CanonicalizeInjective(m[k], w.m[k]);
      }
    case _ =>
  }

  lemma SameKeys(v: Value, w: Value)
    requires v.Map? && w.Map? && SortedFields(v) == SortedFields(w)
    ensures v.m.Keys == w.m.Keys && Utf8.SortedKeys(v.m.Keys) == Utf8.SortedKeys(w.m.Keys)
  {
    var (ks, js) := (Utf8.SortedKeys(v.m.Keys), Utf8.SortedKeys(w.m.Keys));
    forall i | 0 <= i < |ks| ensures ks[i] == js[i] {
      assert SortedFields(v)[i].key == SortedFields(w)[i].key;
    }
    assert ks == js;
  }

  /** canonicalJSON: the bytes of this document. */
  function CanonicalJSON(data: Option<Attrs>): Bytes {
    Utf8.Encode(Print(CanonicalDoc(data)))
  }

  function CanonicalDoc(data: Option<Attrs>): Doc {
    if data.None? then Null else Canonicalize(Map(data.value))
  }

  // ---- Length framing -------------------------------------------------------------

  const TWO_8 := 0x100
  const TWO_16 := 0x1_0000
  const TWO_24 := 0x100_0000
  const TWO_32 := 0x1_0000_0000

  /** binary.BigEndian.PutUint32. */
  function PutUint32(n: int): (b: Bytes)
    requires 0 <= n < TWO_32
    ensures |b| == 4
  {
    [n / TWO_24, n / TWO_16 % TWO_8, n / TWO_8 % TWO_8, n % TWO_8]
  }

  function Uint32(b: Bytes): (n: int)
    requires |b| == 4
    ensures n >= 0
  {
    b[0] * TWO_24 + b[1] * TWO_16 + b[2] * TWO_8 + b[3]
  }

  /** The length is cut to 32 bits. */
  function Framed(b: Bytes): Bytes {
    PutUint32(|b| % TWO_32) + b
  }

  class Hasher {
    /** Everything written since the last reset. */
    var written: Bytes

    constructor ()
      ensures written == []
    {
      written := [];
    }

    method Write(b: Bytes)
      modifies this
      ensures written == old(written) + b
    {
      written := written + b;
    }
  }

  method WriteLP(w: Hasher, b: Bytes)
    modifies w
    ensures w.written == old(w.written) + Framed(b)
  {
    var hdr := PutUint32(|b| % TWO_32);
    w.Write(hdr);
    w.Write(b);
  }

  /** Reads one framed field off the front. */
  function Unframe(b: Bytes): Option<(Bytes, Bytes)> {
    if |b| < 4 || |b| < 4 + Uint32(b[..4]) then None
    else Some((b[4..4 + Uint32(b[..4])], b[4 + Uint32(b[..4])..]))
  }

  lemma Uint32RoundTrip(n: int)
    requires 0 <= n < TWO_32
    ensures Uint32(PutUint32(n)) == n
  {
    var (a, b, c) := (n / TWO_24, n / TWO_16, n / TWO_8);
    assert b / TWO_8 == a && c / TWO_8 == b;
  }

  lemma UnframeFramed(b: Bytes, rest: Bytes)
    requires |b| < TWO_32
    ensures Unframe(Framed(b) + rest) == Some((b, rest))
  {
    var t := Framed(b) + rest;
    assert t[..4] == PutUint32(|b|);
    Uint32RoundTrip(|b|);
  }

  // ---- The preimage -----------------------------------------------------------------

  function Preimage(f: Finding): Bytes {
    Framed(f.kind) + Framed(f.severity) + Framed(CanonicalJSON(f.data))
  }

  /** DedupHash up to the final sum: what the hasher has been fed. */
  method DedupHash(f: Finding) returns (h: Hasher)
    ensures fresh(h) && h.written == Preimage(f)
  {
    h := new Hasher();
    WriteLP(h, f.kind);
    WriteLP(h, f.severity);
    WriteLP(h, CanonicalJSON(f.data));
  }

  /** Undoes the framing and the JSON. */
  function Parse(b: Bytes): Option<(Bytes, Bytes, Doc)> {
    var k := Unframe(b);
    if k.None? then None
    else
      var s := Unframe(k.value.1);
      if s.None? then None
      else
        var j := Unframe(s.value.1);
        if j.None? then None
        else
          var t := Utf8.Decode(j.value.0);
          if t.None? || ParseValue(t.value).None? then None
          else Some((k.value.0, s.value.0, ParseValue(t.value).value.0))
  }

  ghost predicate Hashable(f: Finding) {
    && |f.kind| < TWO_32 && |f.severity| < TWO_32
    && |CanonicalJSON(f.data)| < TWO_32
    && (f.data.Some? ==> Printable(Map(f.data.value)))
  }

  lemma UnframeThree(a: Bytes, b: Bytes, c: Bytes)
    requires |a| < TWO_32 && |b| < TWO_32 && |c| < TWO_32
    ensures Unframe(Framed(a) + Framed(b) + Framed(c)) == Some((a, Framed(b) + Framed(c)))
    ensures Unframe(Framed(b) + Framed(c)) == Some((b, Framed(c)))
    ensures Unframe(Framed(c)) == Some((c, []))
  {
    assert Framed(a) + Framed(b) + Framed(c) == Framed(a) + (Framed(b) + Framed(c));
    UnframeFramed(a, Framed(b) + Framed(c));
    UnframeFramed(b, Framed(c));
    assert Framed(c) + [] == Framed(c);
    UnframeFramed(c, []);
  }

  lemma ParseText(d: Doc)
    requires WellFormed(d)
    ensures Utf8.Decode(Utf8.Encode(Print(d))) == Some(Print(d))
    ensures ParseValue(Print(d)) == Some((d, ""))
  {
    Utf8.DecodeEncode(Print(d));
    ParsePrint(d, "");
    assert Print(d) + "" == Print(d);
  }

  lemma ParsePreimage(f: Finding)
    requires Hashable(f)
    ensures Parse(Preimage(f)) == Some((f.kind, f.severity, CanonicalDoc(f.data)))
  {
    var (d, canon) := (CanonicalDoc(f.data), CanonicalJSON(f.data));
    if f.data.Some? {
      CanonicalizePrintable(Map(f.data.value));
    }
    ParseText(d);
    UnframeThree(f.kind, f.severity, canon);
    ParseSteps(Preimage(f), f.kind, Framed(f.severity) + Framed(canon), f.severity, Framed(canon), canon, Print(d), d);
  }

  lemma ParseSteps(b: Bytes, kind: Bytes, b1: Bytes, severity: Bytes, b2: Bytes, canon: Bytes, text: string, d: Doc)
    requires Unframe(b) == Some((kind, b1)) && Unframe(b1) == Some((severity, b2))
    requires Unframe(b2) == Some((canon, [])) && Utf8.Decode(canon) == Some(text)
    requires ParseValue(text) == Some((d, ""))
    ensures Parse(b) == Some((kind, severity, d))
  {}

  /** Two findings feed the hasher the same bytes exactly when kind, severity and
      data are equal; the title and the order of map keys play no part. */
  lemma PreimageExact(f: Finding, g: Finding)
    requires Hashable(f) && Hashable(g)
    ensures Preimage(f) == Preimage(g) <==>
              f.kind == g.kind && f.severity == g.severity && f.data == g.data
  {
    ParsePreimage(f);
    ParsePreimage(g);
    if Preimage(f) == Preimage(g) {
      assert CanonicalDoc(f.data) == CanonicalDoc(g.data);
      if f.data.Some? && g.data.Some? {
        CanonicalizeInjective(Map(f.data.value), Map(g.data.value));
      }
    }
  }

  /** The two canonical forms are not the same comparator: equal finding data have
      equal fingerprints as attributes, but not the other way round. */
  lemma FingerprintIsCoarser(a: Attrs, b: Attrs, key: string)
    requires Printable(Map(a)) && Printable(Map(b))
    ensures CanonicalJSON(Some(a)) == CanonicalJSON(Some(b)) ==>
              AttrsEncoding.Fingerprint(a) == AttrsEncoding.Fingerprint(b)
    ensures var (c, d) := (map[key := List([])], map[key := Map(map[])]);
            AttrsEncoding.Fingerprint(c) == AttrsEncoding.Fingerprint(d)
            && CanonicalJSON(Some(c)) != CanonicalJSON(Some(d))
  {
    SameJSONSameData(a, b);
    OnlyFingerprintsCollide(key);
  }

  lemma OnlyFingerprintsCollide(key: string)
    ensures var (c, d) := (map[key := List([])], map[key := Map(map[])]);
            AttrsEncoding.Fingerprint(c) == AttrsEncoding.Fingerprint(d)
            && CanonicalJSON(Some(c)) != CanonicalJSON(Some(d))
  {
    AttrsEncoding.EmptyListCollides(key);
    SameJSONSameData(map[key := List([])], map[key := Map(map[])]);
  }

  lemma SameJSONSameData(a: Attrs, b: Attrs)
    requires Printable(Map(a)) && Printable(Map(b))
    ensures CanonicalJSON(Some(a)) == CanonicalJSON(Some(b)) <==> a == b
  {
    var (d, e) := (Canonicalize(Map(a)), Canonicalize(Map(b)));
    if CanonicalJSON(Some(a)) == CanonicalJSON(Some(b)) {
      CanonicalizePrintable(Map(a));
      CanonicalizePrintable(Map(b));
      Utf8.EncodeInjective(Print(d), Print(e));
      PrintInjective(d, e);
      CanonicalizeInjective(Map(a), Map(b));
    }
  }

  /** In the canonical object the fields stand in ascending order of their keys' bytes. */
  lemma FieldsAscend(m: Attrs, p: nat, q: nat)
    requires p < q < |m|
    ensures var fs := SortedFields(Map(m));
            |fs| == |m| && Utf8.Ascending(Utf8.Encode(fs[p].key), Utf8.Encode(fs[q].key))
  {
    var (ks, fs) := (Utf8.SortedKeys(m.Keys), SortedFields(Map(m)));
    assert |m| == |m.Keys|;
    Utf8.SortedKeysAscend(m.Keys, p, q);
    assert fs[p].key == ks[p] && fs[q].key == ks[q];
  }

  /** The length header is big-endian. */
  lemma HeaderIsBigEndian(n: int)
    requires 0 <= n < 4294967296
    ensures var b := PutUint32(n);
            n == (b[0] as int) * 16777216 + (b[1] as int) * 65536 + (b[2] as int) * 256 + b[3] as int
  {
    Uint32RoundTrip(n);
  }

  /** What the hasher is fed for a finding without data, byte by byte. */
  lemma PreimageExample(title: string)
    ensures Preimage(Finding([0x6B], [0x73], title, None))
            == [0, 0, 0, 1, 0x6B, 0, 0, 0, 1, 0x73, 0, 0, 0, 4, 0x6E, 0x75, 0x6C, 0x6C]
  {
    FramedBelow256([0x6B]);
    FramedBelow256([0x73]);
    NullBytes();
    FramedBelow256(CanonicalJSON(None));
    SpellThree(Framed([0x6B]), Framed([0x73]), Framed(CanonicalJSON(None)));
  }

  lemma SpellThree(x: Bytes, y: Bytes, z: Bytes)
    requires x == [0, 0, 0, 1] + [0x6B] && y == [0, 0, 0, 1] + [0x73]
    requires z == [0, 0, 0, 4] + [0x6E, 0x75, 0x6C, 0x6C]
    ensures x + y + z == [0, 0, 0, 1, 0x6B, 0, 0, 0, 1, 0x73, 0, 0, 0, 4, 0x6E, 0x75, 0x6C, 0x6C]
  {}

  lemma FramedBelow256(b: Bytes)
    requires |b| < 256
    ensures Framed(b) == [0, 0, 0, |b|] + b
  {}

  lemma NullBytes()
    ensures CanonicalJSON(None) == [0x6E, 0x75, 0x6C, 0x6C]
  {
    Utf8.AsciiBytes("null");
    assert Print(Null) == "null";
  }

  /** The text of data with two entries, and its bytes. */
  lemma DataExample()
    ensures var data: Attrs := map["b" := Number("2"), "a" := Number("1")];
            CanonicalJSON(Some(data)) == Utf8.Encode("{\"a\":1,\"b\":2}")
  {
    ExampleFields();
    var (fa, fb) := (Field("a", Num("1")), Field("b", Num("2")));
    PrintTwoFields(fa, fb);
    LetterField('a', "1");
    LetterField('b', "2");
    SpellTwo(PrintField(fa), PrintField(fb));
  }

  /** The texts of the other values. */
  lemma ValuesSpelledOut(s: string)
    ensures Print(Canonicalize(Nil)) == "null"
    ensures Print(Canonicalize(Flag(true))) == "true" && Print(Canonicalize(Flag(false))) == "false"
    ensures Print(Canonicalize(Number(s))) == s && Print(Canonicalize(Text(s))) == "\"" + EscapeAll(s) + "\""
    ensures Print(Canonicalize(List([]))) == "[]" && Print(Canonicalize(Map(map[]))) == "{}"
  {
    assert Utf8.SortedKeys({}) == [];
    assert SortedFields(Map(map[])) == [];
  }

  /** A list keeps its order. */
  lemma ListsSpelledOut(x: Value, y: Value)
    ensures Print(Canonicalize(List([x]))) == "[" + (Print(Canonicalize(x)) + "]")
    ensures Print(Canonicalize(List([x, y])))
            == "[" + (Print(Canonicalize(x)) + ("," + (Print(Canonicalize(y)) + "]")))
  {
    assert Canonicalize(List([x])) == Arr([Canonicalize(x)]);
    assert Canonicalize(List([x, y])) == Arr([Canonicalize(x), Canonicalize(y)]);
    PrintTwo(Canonicalize(x), Canonicalize(y));
  }

  lemma ExampleFields()
    ensures var data: Attrs := map["b" := Number("2"), "a" := Number("1")];
            Canonicalize(Map(data)) == Ord([Field("a", Num("1")), Field("b", Num("2"))])
  {
    var data: Attrs := map["b" := Number("2"), "a" := Number("1")];
    Utf8.LettersAscend('a', 'b');
    Utf8.SortedPair("a", "b");
    assert data.Keys == {"a", "b"};
    assert SortedFields(Map(data)) == [Field("a", Num("1")), Field("b", Num("2"))];
  }

  lemma LetterField(c: char, token: string)
    requires 'a' <= c <= 'z'
    ensures PrintField(Field([c], Num(token))) == "\"" + [c] + "\":" + token
  {
    LetterQuotes(c);
  }

  lemma SpellTwo(x: string, y: string)
    requires x == "\"" + "a" + "\":" + "1" && y == "\"" + "b" + "\":" + "2"
    ensures "{" + (x + ("," + (y + "}"))) == "{\"a\":1,\"b\":2}"
  {}

  function Zeros(n: nat): (b: Bytes)
    ensures |b| == n && forall i :: 0 <= i < n ==> b[i] == 0
  {
    seq(n, _ => 0)
  }

  /** The length limit matters: a field of 2^32 bytes is framed as if it were empty. */
  lemma LongFieldsCollide(title: string, data: Option<Attrs>)
    ensures var f := Finding(Zeros(TWO_32), [], title, data);
            var g := Finding([], Zeros(TWO_32), title, data);
            f != g && Preimage(f) == Preimage(g)
  {
    var (z, h) := (Zeros(TWO_32), PutUint32(0));
    assert h == [0, 0, 0, 0];
    assert Framed(z) + Framed([]) == Framed([]) + Framed(z);
    assert |z| != 0;
  }
}
