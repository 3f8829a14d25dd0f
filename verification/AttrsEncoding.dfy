/** The canonical form behind asset fingerprints (worker/asset_writer.go:297-372).
    Maps become key-sorted lists of [key, value] pairs, so a map and the list of
    its pairs are encoded alike; everything else is kept apart.
 */
module AttrsEncoding {
  import opened Wrappers
  import opened Json
  import opened Values
  import Utf8

  /** canonicalizeForHash. */
  function Canon(v: Value): (d: Doc)
    decreases v, 1
  {
    match v
    case Nil => Null
    case Flag(b) => Bool(b)
    case Number(token) => Num(token)
    case Text(s) => Str(s)
    case List(items) => Arr(CanonItems(items))
    case Map(m) => Arr(CanonPairs(v))
  }

  function CanonItems(items: seq<Value>): (ds: seq<Doc>)
    ensures |ds| == |items|
    ensures forall i :: 0 <= i < |items| ==> ds[i] == Canon(items[i])
    decreases items, 0
  {
    seq(|items|, i requires 0 <= i < |items| => Canon(items[i]))
  }

  function CanonPairs(v: Value): (ds: seq<Doc>)
    requires v.Map?
    ensures |ds| == |Utf8.SortedKeys(v.m.Keys)|
    ensures forall i :: 0 <= i < |ds| ==>
              var k := Utf8.SortedKeys(v.m.Keys)[i];
              k in v.m && ds[i] == Arr([Str(k), Canon(v.m[k])])
    decreases v, 0
  {
    var ks := Utf8.SortedKeys(v.m.Keys);
    seq(|ks|, i requires 0 <= i < |ks| => Arr([Str(ks[i]), Canon(v.m[ks[i]])]))
  }

  /** A pair list: every element is a two-element list headed by a string. */
  ghost predicate PairDocs(items: seq<Doc>) {
    forall i :: 0 <= i < |items| ==> items[i].Arr? && |items[i].items| == 2 && items[i].items[0].Str?
  }

  ghost function Heads(items: seq<Doc>): (ks: seq<string>)
    requires PairDocs(items)
    ensures |ks| == |items| && forall i :: 0 <= i < |items| ==> ks[i] == items[i].items[0].s
  {
    seq(|items|, i requires 0 <= i < |items| => items[i].items[0].s)
  }

  /** The lists that a map could have been turned into. */
  ghost predicate ReadsAsMap(items: seq<Doc>) {
    PairDocs(items) && Utf8.Sorted(Heads(items))
  }

  /** The same shape among values that have not been encoded yet. */
  ghost predicate PairValues(items: seq<Value>) {
    forall i :: 0 <= i < |items| ==> items[i].List? && |items[i].items| == 2 && items[i].items[0].Text?
  }

  ghost function Keys(items: seq<Value>): (ks: seq<string>)
    requires PairValues(items)
    ensures |ks| == |items| && forall i :: 0 <= i < |items| ==> ks[i] == items[i].items[0].s
  {
    seq(|items|, i requires 0 <= i < |items| => items[i].items[0].s)
  }

  ghost predicate LooksLikeMap(items: seq<Value>) {
    PairValues(items) && Utf8.Sorted(Keys(items))
  }

  /** No list in the value, not even an empty one, looks like an encoded map. */
  ghost predicate Unambiguous(v: Value)
    decreases v
  {
    match v
    case List(items) => !LooksLikeMap(items) && forall x :: x in items ==> Unambiguous(x)
    case Map(m) => forall k :: k in m ==> Unambiguous(m[k])
    case _ => true
  }

  /** The value an encoding stands for when every list that can be read as a map is. */
  ghost function Read(d: Doc): (v: Value)
    decreases d, 1
  {
    match d
    case Null => Nil
    case Bool(b) => Flag(b)
    case Num(token) => Number(token)
    case Str(s) => Text(s)
    case Arr(items) =>
      if ReadsAsMap(items) then
        Map(map k | k in Heads(items) :: ReadPart(items, Position(items, k)))
      else
        List(seq(|items|, i requires 0 <= i < |items| => Read(items[i])))
    case Ord(_) => Nil  // no attribute encoding holds an object
  }

  /** The value half of a pair. */
  ghost function ReadPart(items: seq<Doc>, i: nat): Value
    requires PairDocs(items) && i < |items|
    decreases items, 0
  {
    assert items[i] in items;
    Read(items[i].items[1])
  }

  /** Encodings of attributes hold lists only. */
  ghost predicate NoObjects(d: Doc) {
    match d
    case Arr(items) => forall x :: x in items ==> NoObjects(x)
    case Ord(_) => false
    case _ => true
  }

  ghost function Position(items: seq<Doc>, k: string): (i: nat)
    requires PairDocs(items) && k in Heads(items)
    ensures i < |items| && items[i].items[0].s == k
  {
    var i :| 0 <= i < |items| && Heads(items)[i] == k;
    i
  }

  lemma PositionUnique(items: seq<Doc>, i: nat)
    requires ReadsAsMap(items) && i < |items|
    ensures Position(items, Heads(items)[i]) == i
  {
    var (ks, j) := (Heads(items), Position(items, Heads(items)[i]));
    Utf8.LessTotal(ks[i], ks[j]);
  }

  /** What a list that reads as a map is read as. */
  lemma ReadMap(items: seq<Doc>) returns (m: map<string, Value>)
    requires ReadsAsMap(items)
    ensures Read(Arr(items)) == Map(m)
    ensures forall k :: k in m <==> k in Heads(items)
    ensures forall i :: 0 <= i < |items| ==>
              Heads(items)[i] in m && m[Heads(items)[i]] == ReadPart(items, i)
  {
    m := Read(Arr(items)).m;
    forall i | 0 <= i < |items| ensures Heads(items)[i] in m && m[Heads(items)[i]] == ReadPart(items, i) {
      PositionUnique(items, i);
    }
  }

  lemma {:induction false} CanonShape(v: Value)
    requires Printable(v)
    ensures NoObjects(Canon(v)) && WellFormed(Canon(v))
    decreases v
  {
    match v
    case List(items) =>
      forall x | x in items ensures NoObjects(Canon(x)) && WellFormed(Canon(x)) {
        CanonShape(x);
      }
    case Map(m) =>
      var (ks, ds) := (Utf8.SortedKeys(m.Keys), CanonPairs(v));
      forall i | 0 <= i < |ds| ensures NoObjects(ds[i]) && WellFormed(ds[i]) {
        CanonShape(m[ks[i]]);
        PairShape(ks[i], Canon(m[ks[i]]));
      }
    case _ =>
  }

  lemma PairShape(k: string, d: Doc)
    requires NoObjects(d) && WellFormed(d)
    ensures NoObjects(Arr([Str(k), d])) && WellFormed(Arr([Str(k), d]))
  {}

  /** Encoding preserves and reflects the shape of encoded maps. */
  lemma PairsCorrespond(items: seq<Value>)
    ensures ReadsAsMap(CanonItems(items)) <==> LooksLikeMap(items)
  {
    var ds := CanonItems(items);
    forall i | 0 <= i < |items|
      ensures (ds[i].Arr? && |ds[i].items| == 2 && ds[i].items[0].Str?)
              <==> (items[i].List? && |items[i].items| == 2 && items[i].items[0].Text?)
      ensures items[i].List? && |items[i].items| == 2 && items[i].items[0].Text? ==>
                ds[i].items[0].s == items[i].items[0].s
    {
      PairCorresponds(items[i]);
    }
    if PairDocs(ds) {
      assert Heads(ds) == Keys(items);
    }
  }

  lemma PairCorresponds(v: Value)
    ensures var d := Canon(v);
            && ((d.Arr? && |d.items| == 2 && d.items[0].Str?)
                <==> (v.List? && |v.items| == 2 && v.items[0].Text?))
            && (v.List? && |v.items| == 2 && v.items[0].Text? ==> d.items[0].s == v.items[0].s)
  {
    match v
    case List(items) => assert |items| == 2 ==> Canon(v).items[0] == Canon(items[0]);
    case Map(m) =>
    case _ =>
  }

  /** Reading undoes encoding on unambiguous values. */
  lemma {:induction false} ReadCanon(v: Value)
    requires Unambiguous(v)
    ensures Read(Canon(v)) == v
    decreases v
  {
    match v
    case List(items) =>
      forall i | 0 <= i < |items| ensures Read(Canon(items[i])) == items[i] {
        ReadCanon(items[i]);
      }
      PairsCorrespond(items);
      assert Read(Canon(v)).items == items;
    case Map(m) =>
      forall k | k in m ensures Read(Canon(m[k])) == m[k] {
        ReadCanon(m[k]);
      }
      ReadCanonMap(v);
    case _ =>
  }

  lemma PairsOfMap(v: Value)
    requires v.Map?
    ensures ReadsAsMap(CanonPairs(v)) && Heads(CanonPairs(v)) == Utf8.SortedKeys(v.m.Keys)
  {
    var (ks, ds) := (Utf8.SortedKeys(v.m.Keys), CanonPairs(v));
    assert forall i :: 0 <= i < |ds| ==> ds[i] == Arr([Str(ks[i]), Canon(v.m[ks[i]])]);
    assert PairDocs(ds);
    assert Heads(ds) == ks;
  }

  lemma ReadCanonMap(v: Value)
    requires v.Map?
    requires forall k :: k in v.m ==> Read(Canon(v.m[k])) == v.m[k]
    ensures Read(Canon(v)) == v
  {
    PairsOfMap(v);
    var read := ReadMap(CanonPairs(v));
    forall k | k in v.m ensures k in read && read[k] == v.m[k] {
      ReadCanonKey(v, read, k);
    }
    SameMap(read, v.m);
    assert Canon(v) == Arr(CanonPairs(v)) && v == Map(v.m);
  }

  lemma SameMap(a: Attrs, b: Attrs)
    requires a.Keys <= b.Keys && forall k :: k in b ==> k in a && a[k] == b[k]
    ensures a == b
  {}

  lemma ReadCanonKey(v: Value, read: map<string, Value>, k: string)
    requires v.Map? && k in v.m && Read(Canon(v.m[k])) == v.m[k]
    requires ReadsAsMap(CanonPairs(v)) && Heads(CanonPairs(v)) == Utf8.SortedKeys(v.m.Keys)
    requires forall i :: 0 <= i < |CanonPairs(v)| ==>
               Heads(CanonPairs(v))[i] in read && read[Heads(CanonPairs(v))[i]] == ReadPart(CanonPairs(v), i)
    ensures k in read && read[k] == v.m[k]
  {
    var (ks, ds) := (Utf8.SortedKeys(v.m.Keys), CanonPairs(v));
    var i :| 0 <= i < |ks| && ks[i] == k;
    assert Heads(ds)[i] == k && ds[i] == Arr([Str(k), Canon(v.m[k])]);
  }

  /** Encoding undoes reading: every encoding has an unambiguous reading. */
  lemma {:induction false} CanonRead(d: Doc)
    requires NoObjects(d)
    ensures Canon(Read(d)) == d && Unambiguous(Read(d))
    decreases d
  {
    match d
    case Arr(items) =>
      forall i | 0 <= i < |items| ensures Canon(Read(items[i])) == items[i] && Unambiguous(Read(items[i])) {
        CanonRead(items[i]);
      }
      if ReadsAsMap(items) {
        CanonReadMap(items);
      } else {
        CanonReadList(items);
      }
    case _ =>
  }

  lemma CanonReadList(items: seq<Doc>)
    requires !ReadsAsMap(items)
    requires forall i :: 0 <= i < |items| ==> Canon(Read(items[i])) == items[i] && Unambiguous(Read(items[i]))
    ensures Canon(Read(Arr(items))) == Arr(items) && Unambiguous(Read(Arr(items)))
  {
    var vs := Read(Arr(items)).items;
    assert CanonItems(vs) == items;
    PairsCorrespond(vs);
  }

  lemma CanonReadMap(items: seq<Doc>)
    requires ReadsAsMap(items)
    requires forall i :: 0 <= i < |items| ==> Canon(Read(items[i])) == items[i] && Unambiguous(Read(items[i]))
    ensures Canon(Read(Arr(items))) == Arr(items) && Unambiguous(Read(Arr(items)))
  {
    var ks := Heads(items);
    var m := ReadMap(items);
    Utf8.SortedUnique(Utf8.SortedKeys(m.Keys), ks);
    forall i | 0 <= i < |items| ensures CanonPairs(Map(m))[i] == items[i] && Unambiguous(m[ks[i]]) {
      PairReads(items[i]);
      CanonReadPair(items, m, i);
    }
    assert CanonPairs(Map(m)) == items;
    forall k | k in m ensures Unambiguous(m[k]) {
      var i :| 0 <= i < |ks| && ks[i] == k;
    }
  }

  lemma CanonReadPair(items: seq<Doc>, m: map<string, Value>, i: nat)
    requires ReadsAsMap(items) && Utf8.SortedKeys(m.Keys) == Heads(items) && i < |items|
    requires m[Heads(items)[i]] == ReadPart(items, i)
    requires Canon(Read(items[i].items[1])) == items[i].items[1]
    ensures CanonPairs(Map(m))[i] == items[i]
  {
    assert items[i].items == [Str(Heads(items)[i]), items[i].items[1]];
  }

  /** A pair headed by a string is itself read as a list, its second part on its own. */
  lemma PairReads(d: Doc)
    requires d.Arr? && |d.items| == 2 && d.items[0].Str?
    requires Canon(Read(d)) == d && Unambiguous(Read(d))
    ensures Canon(Read(d.items[1])) == d.items[1] && Unambiguous(Read(d.items[1]))
  {
    assert !ReadsAsMap(d.items);
    var vs := Read(d).items;
    assert vs[1] == Read(d.items[1]) && vs[1] in vs;
    assert Canon(Read(d)).items[1] == Canon(vs[1]);
  }

  // ---- Fingerprints -----------------------------------------------------------

  /** SHA-256, taken as collision free: a digest is as good as what was hashed. */
  datatype Digest = Sha256(preimage: seq<Utf8.Byte>)

  /** The encoder ends its output with a newline. */
  function FingerprintText(attrs: Attrs): string {
    Print(Canon(Map(attrs))) + "\n"
  }

  /** fingerprintAttrs. */
  function Fingerprint(attrs: Attrs): Digest {
    Sha256(Utf8.Encode(FingerprintText(attrs)))
  }

  /** The hashed text is one JSON value and a newline, and nothing more. */
  lemma TextIsOneLine(attrs: Attrs)
    requires Printable(Map(attrs))
    ensures ParseValue(FingerprintText(attrs)) == Some((Canon(Map(attrs)), "\n"))
  {
    CanonShape(Map(attrs));
    ParsePrint(Canon(Map(attrs)), "\n");
  }

  /** The pairs of the canonical form stand in ascending order of their keys' bytes. */
  lemma PairsAscend(m: Attrs, p: nat, q: nat)
    requires p < q < |m|
    ensures var ds := CanonPairs(Map(m));
            && |ds| == |m| && ds[p].Arr? && |ds[p].items| == 2 && ds[p].items[0].Str?
            && ds[q].Arr? && |ds[q].items| == 2 && ds[q].items[0].Str?
            && Utf8.Ascending(Utf8.Encode(ds[p].items[0].s), Utf8.Encode(ds[q].items[0].s))
  {
    var (ks, ds) := (Utf8.SortedKeys(m.Keys), CanonPairs(Map(m)));
    assert |m| == |m.Keys|;
    Utf8.SortedKeysAscend(m.Keys, p, q);
    assert ds[p] == Arr([Str(ks[p]), Canon(m[ks[p]])]) && ds[q] == Arr([Str(ks[q]), Canon(m[ks[q]])]);
  }

  /** The text that is hashed for two attributes. */
  lemma TextExample()
    ensures var attrs: Attrs := map["b" := List([]), "a" := Number("1")];
            FingerprintText(attrs) == "[[\"a\",1],[\"b\",[]]]\n"
  {
    var attrs: Attrs := map["b" := List([]), "a" := Number("1")];
    Utf8.LettersAscend('a', 'b');
    Utf8.SortedPair("a", "b");
    assert attrs.Keys == {"a", "b"};
    var (da, db) := (Arr([Str("a"), Num("1")]), Arr([Str("b"), Arr([])]));
    assert CanonPairs(Map(attrs)) == [da, db];
    PrintTwo(da, db);
    LetterPair('a', Num("1"));
    LetterPair('b', Arr([]));
    SpellPairs(Print(da), Print(db));
  }

  /** The texts of the other values. */
  lemma ValuesSpelledOut(s: string)
    ensures Print(Canon(Nil)) == "null" && Print(Canon(Flag(true))) == "true" && Print(Canon(Flag(false))) == "false"
    ensures Print(Canon(Number(s))) == s && Print(Canon(Text(s))) == "\"" + EscapeAll(s) + "\""
    ensures Print(Canon(List([]))) == "[]" && Print(Canon(Map(map[]))) == "[]"
  {
    assert Utf8.SortedKeys({}) == [];
    assert Canon(Map(map[])) == Arr([]);
  }

  /** A list keeps its order. */
  lemma ListsSpelledOut(x: Value, y: Value)
    ensures Print(Canon(List([x]))) == "[" + (Print(Canon(x)) + "]")
    ensures Print(Canon(List([x, y]))) == "[" + (Print(Canon(x)) + ("," + (Print(Canon(y)) + "]")))
  {
    assert Canon(List([x])) == Arr([Canon(x)]) && Canon(List([x, y])) == Arr([Canon(x), Canon(y)]);
    PrintTwo(Canon(x), Canon(y));
  }

  lemma LetterPair(c: char, d: Doc)
    requires 'a' <= c <= 'z'
    ensures Print(Arr([Str([c]), d])) == "[" + (("\"" + [c] + "\"") + ("," + (Print(d) + "]")))
  {
    LetterQuotes(c);
    PrintTwo(Str([c]), d);
  }

  lemma SpellPairs(x: string, y: string)
    requires x == "[" + (("\"" + "a" + "\"") + ("," + ("1" + "]")))
    requires y == "[" + (("\"" + "b" + "\"") + ("," + ("[]" + "]")))
    ensures "[" + (x + ("," + (y + "]"))) + "\n" == "[[\"a\",1],[\"b\",[]]]\n"
  {}

  /** Exact kernel: two attribute sets share a fingerprint exactly when they are
      equal after reading each map as its key-sorted list of pairs, which is to
      say when their readings agree. */
  lemma FingerprintKernel(a: Attrs, b: Attrs)
    requires Printable(Map(a)) && Printable(Map(b))
    ensures Fingerprint(a) == Fingerprint(b) <==> Canon(Map(a)) == Canon(Map(b))
    ensures Fingerprint(a) == Fingerprint(b) <==> Read(Canon(Map(a))) == Read(Canon(Map(b)))
  {
    CanonShape(Map(a));
    CanonShape(Map(b));
    CanonRead(Canon(Map(a)));
    CanonRead(Canon(Map(b)));
    if Fingerprint(a) == Fingerprint(b) {
      Utf8.EncodeInjective(FingerprintText(a), FingerprintText(b));
      var (p, q) := (Print(Canon(Map(a))), Print(Canon(Map(b))));
      assert p == (p + "\n")[..|p + "\n"| - 1] && q == (q + "\n")[..|q + "\n"| - 1];
      PrintInjective(Canon(Map(a)), Canon(Map(b)));
    }
  }

  ghost predicate Faithful(attrs: Attrs) {
    Printable(Map(attrs)) && Unambiguous(Map(attrs))
  }

  /** What the upsert guard relies on: no two of the attribute sets in use share a
      fingerprint. */
  ghost predicate Injective(A: iset<Attrs>) {
    forall a, b {:trigger Fingerprint(a), Fingerprint(b)} ::
      a in A && b in A && Fingerprint(a) == Fingerprint(b) ==> a == b
  }

  ghost predicate AllPrintable(A: iset<Attrs>) {
    forall a :: a in A ==> Printable(Map(a))
  }

  /** All unambiguous attribute sets together. */
  ghost function FaithfulSets(): iset<Attrs> {
    iset a: Attrs | Faithful(a)
  }

  lemma FaithfulIsInjective()
    ensures Injective(FaithfulSets())
  {
    forall a, b | a in FaithfulSets() && b in FaithfulSets() && Fingerprint(a) == Fingerprint(b) ensures a == b {
      FingerprintInjective(a, b);
    }
  }

  lemma FingerprintInjective(a: Attrs, b: Attrs)
    requires Faithful(a) && Faithful(b)
    ensures Fingerprint(a) == Fingerprint(b) <==> a == b
  {
    FingerprintKernel(a, b);
    ReadCanon(Map(a));
    ReadCanon(Map(b));
  }

  /** The restriction is exact: each set of attributes shares its fingerprint with
      precisely one unambiguous set, which is the set itself just when it is
      unambiguous. */
  lemma AmbiguousCollides(a: Attrs) returns (b: Attrs)
    requires Printable(Map(a))
    ensures Fingerprint(b) == Fingerprint(a) && Unambiguous(Map(b))
    ensures b == a <==> Unambiguous(Map(a))
  {
    CanonShape(Map(a));
    CanonRead(Canon(Map(a)));
    PairsOfMap(Map(a));
    b := ReadMap(CanonPairs(Map(a)));
    assert Canon(Map(a)) == Arr(CanonPairs(Map(a)));
    if Unambiguous(Map(a)) {
      ReadCanon(Map(a));
    }
  }

  /** Without that restriction it fails: an empty list and an empty map collide. */
  lemma EmptyListCollides(key: string)
    ensures map[key := List([])] != map[key := Map(map[])]
    ensures Fingerprint(map[key := List([])]) == Fingerprint(map[key := Map(map[])])
  {
    var a: Attrs := map[key := List([])];
    var b: Attrs := map[key := Map(map[])];
    assert a[key] != b[key];
    assert Canon(a[key]) == Arr([]) == Canon(b[key]);
    assert a.Keys == b.Keys == {key};
    assert CanonPairs(Map(a)) == CanonPairs(Map(b));
  }

  /** The text of a client fingerprint starts like a list. */
  lemma ClientTextIsList(attrs: Attrs)
    ensures Fingerprint(attrs).preimage != [] && Fingerprint(attrs).preimage[0] == '[' as int
  {
    var t := FingerprintText(attrs);
    assert t[0] == '[';
    assert Utf8.Encode(t)[0] == Utf8.EncodeChar('[')[0];
  }
}
