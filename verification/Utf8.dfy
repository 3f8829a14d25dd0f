/** UTF-8 (RFC 3629) on Dafny characters, which are exactly the Unicode scalar
    values, and the byte order that Go's string comparison uses.
 */
module Utf8 {
  import opened Wrappers

  type Byte = b: int | 0 <= b < 256

  function EncodeChar(c: char): (bytes: seq<Byte>)
    ensures 1 <= |bytes| <= 4
  {
    var n := c as int;
    if n < 0x80 then [n]
    else if n < 0x800 then [0xC0 + n / 64, 0x80 + n % 64]
    else if n < 0x10000 then [0xE0 + n / 64 / 64, 0x80 + n / 64 % 64, 0x80 + n % 64]
    else [0xF0 + n / 64 / 64 / 64, 0x80 + n / 64 / 64 % 64, 0x80 + n / 64 % 64, 0x80 + n % 64]
  }

  function Encode(s: string): seq<Byte> {
    if s == "" then [] else EncodeChar(s[0]) + Encode(s[1..])
  }

  /** ASCII characters are their own bytes. */
  lemma {:induction false} AsciiBytes(t: string)
    requires Ascii(t)
    ensures |Encode(t)| == |t| && forall i :: 0 <= i < |t| ==> Encode(t)[i] == t[i] as int
  {
    if t != "" {
      AsciiBytes(t[1..]);
      assert Encode(t) == [t[0] as int] + Encode(t[1..]);
    }
  }

  ghost predicate Ascii(t: string) {
    forall i :: 0 <= i < |t| ==> t[i] as int < 0x80
  }

  /** Only an ASCII character starts with its own byte. */
  lemma AsciiHead(s: string, c: char)
    requires c as int < 0x80
    ensures Encode(s) != [] && Encode(s)[0] == c as int <==> s != "" && s[0] == c
    ensures s != "" && s[0] == c ==> Encode(s)[1..] == Encode(s[1..])
  {
    if s != "" && s[0] == c {
      assert Encode(s) == [c as int] + Encode(s[1..]);
    }
  }

  /** An ASCII prefix of the characters is one of the bytes, and conversely. */
  lemma {:induction false} AsciiPrefix(s: string, t: string)
    requires Ascii(t)
    ensures |Encode(t)| == |t|
    ensures t <= s <==> Encode(t) <= Encode(s)
    ensures t <= s ==> Encode(s)[|t|..] == Encode(s[|t|..])
    decreases |t|
  {
    if t == "" {
      assert s[0..] == s && Encode(s)[0..] == Encode(s);
    } else {
      var rest := if s == "" then "" else s[1..];
      AsciiPrefix(rest, t[1..]);
      AsciiHead(t, t[0]);
      AsciiHead(s, t[0]);
      if s != "" && s[0] == t[0] {
        SamePrefix(s, t);
        SamePrefix(Encode(s), Encode(t));
        assert t <= s ==> s[|t|..] == rest[|t| - 1..] && Encode(s)[|t|..] == Encode(s)[1..][|t| - 1..];
      }
    }
  }

  lemma SamePrefix<T>(s: seq<T>, t: seq<T>)
    requires s != [] && t != [] && s[0] == t[0]
    ensures t <= s <==> t[1..] <= s[1..]
  {
    if t[1..] <= s[1..] {
      assert forall i :: 1 <= i < |t| ==> t[i] == t[1..][i - 1] == s[1..][i - 1] == s[i];
    }
  }

  /** An ASCII byte in second place is the second character, behind a single byte. */
  lemma SecondByte(s: string, c: char)
    requires c as int < 0x80
    ensures |Encode(s)| >= 2 && Encode(s)[1] == c as int <==> |s| >= 2 && s[0] as int < 0x80 && s[1] == c
  {
    if s != "" {
      var e := EncodeChar(s[0]);
      assert Encode(s) == e + Encode(s[1..]);
      AsciiHead(s[1..], c);
    }
  }

  predicate IsScalar(n: int) {
    0 <= n < 0xD800 || 0xE000 <= n < 0x110000
  }

  /** The length of the sequence that a lead byte announces. */
  function LeadLength(b: Byte): nat {
    if b < 0x80 then 1 else if b < 0xE0 then 2 else if b < 0xF0 then 3 else 4
  }

  /** Appends six more bits. */
  function Shift(high: int, low: Byte): int {
    high * 64 + (low as int - 0x80)
  }

  /** The code point of a sequence of the announced length. */
  function CodePoint(bytes: seq<Byte>): int
    requires 1 <= |bytes| <= 4
  {
    var b0 := bytes[0] as int;
    if |bytes| == 1 then b0
    else if |bytes| == 2 then Shift(b0 - 0xC0, bytes[1])
    else if |bytes| == 3 then Shift(Shift(b0 - 0xE0, bytes[1]), bytes[2])
    else Shift(Shift(Shift(b0 - 0xF0, bytes[1]), bytes[2]), bytes[3])
  }

  function Decode(bytes: seq<Byte>): Option<string> {
    if bytes == [] then Some("")
    else
      var n := LeadLength(bytes[0]);
      if |bytes| < n || !IsScalar(CodePoint(bytes[..n])) then None
      else
        var rest := Decode(bytes[n..]);
        if rest.None? then None else Some([CodePoint(bytes[..n]) as char] + rest.value)
  }

  lemma DecodeChar(c: char)
    ensures LeadLength(EncodeChar(c)[0]) == |EncodeChar(c)|
    ensures CodePoint(EncodeChar(c)) == c as int
  {}

  /** Decoding undoes encoding. */
  lemma {:induction false} DecodeEncode(s: string)
    ensures Decode(Encode(s)) == Some(s)
  {
    if s != "" {
      var (b, t) := (EncodeChar(s[0]), Encode(s[1..]));
      DecodeChar(s[0]);
      DecodeEncode(s[1..]);
      assert Encode(s) == b + t && Encode(s)[..|b|] == b && Encode(s)[|b|..] == t;
      assert [s[0]] + s[1..] == s;
    }
  }

  lemma EncodeInjective(s: string, t: string)
    requires Encode(s) == Encode(t)
    ensures s == t
  {
    DecodeEncode(s);
    DecodeEncode(t);
  }

  // ---- Byte order ----------------------------------------------------------

  /** Lexicographic order on bytes. */
  predicate BytesLess(a: seq<Byte>, b: seq<Byte>) {
    b != [] && (a == [] || a[0] < b[0] || (a[0] == b[0] && BytesLess(a[1..], b[1..])))
  }

  lemma {:induction false} BytesTotal(a: seq<Byte>, b: seq<Byte>)
    ensures !(BytesLess(a, b) && BytesLess(b, a))
    ensures BytesLess(a, b) || BytesLess(b, a) || a == b
    ensures BytesLess(a, b) ==> a != b
  {
    if a != [] && b != [] && a[0] == b[0] {
      BytesTotal(a[1..], b[1..]);
      assert a == [a[0]] + a[1..] && b == [b[0]] + b[1..];
    }
  }

  lemma {:induction false} BytesTransitive(a: seq<Byte>, b: seq<Byte>, c: seq<Byte>)
    requires BytesLess(a, b) && BytesLess(b, c)
    ensures BytesLess(a, c)
  {
    if a != [] && a[0] == b[0] == c[0] {
      BytesTransitive(a[1..], b[1..], c[1..]);
    }
  }

  /** How Go orders strings. */
  predicate Less(s: string, t: string) {
    BytesLess(Encode(s), Encode(t))
  }

  lemma LessTotal(s: string, t: string)
    ensures !(Less(s, t) && Less(t, s))
    ensures Less(s, t) || Less(t, s) || s == t
    ensures !Less(s, s)
  {
    BytesTotal(Encode(s), Encode(t));
    BytesTotal(Encode(s), Encode(s));
    if Encode(s) == Encode(t) {
      EncodeInjective(s, t);
    }
  }

  lemma LessTransitive(s: string, t: string, u: string)
    requires Less(s, t) && Less(t, u)
    ensures Less(s, u)
  {
    BytesTransitive(Encode(s), Encode(t), Encode(u));
  }

  // ---- Sorted key sequences ------------------------------------------------

  /** Strictly increasing. */
  ghost predicate Sorted(ks: seq<string>) {
    forall i, j {:trigger Less(ks[i], ks[j])} :: 0 <= i < j < |ks| ==> Less(ks[i], ks[j])
  }

  predicate IsLeast(k: string, keys: set<string>) {
    k in keys && forall x :: x in keys && x != k ==> Less(k, x)
  }

  lemma {:induction false} LeastExists(keys: set<string>)
    requires keys != {}
    ensures exists k :: IsLeast(k, keys)
  {
    var x :| x in keys;
    if keys == {x} {
      assert IsLeast(x, keys);
    } else {
      LeastExists(keys - {x});
      var m :| IsLeast(m, keys - {x});
      LessTotal(x, m);
      if Less(x, m) {
        forall y | y in keys && y != x ensures Less(x, y) {
          if y != m {
            LessTransitive(x, m, y);
          }
        }
        assert IsLeast(x, keys);
      } else {
        assert IsLeast(m, keys);
      }
    }
  }

  lemma LeastUnique(k: string, j: string, keys: set<string>)
    requires IsLeast(k, keys) && IsLeast(j, keys)
    ensures k == j
  {
    LessTotal(k, j);
  }

  function Least(keys: set<string>): (k: string)
    requires keys != {}
    ensures IsLeast(k, keys)
  {
    LeastExists(keys);
    assert forall k, j | IsLeast(k, keys) && IsLeast(j, keys) :: k == j by {
      forall k, j | IsLeast(k, keys) && IsLeast(j, keys) ensures k == j {
        LeastUnique(k, j, keys);
      }
    }
    var k :| k in keys && IsLeast(k, keys);
    k
  }

  /** The keys in increasing order, as sort.Strings leaves them. */
  function SortedKeys(keys: set<string>): (ks: seq<string>)
    ensures Sorted(ks)
    ensures forall k :: k in ks <==> k in keys
    ensures |ks| == |keys|
  {
    if keys == {} then []
    else var k := Least(keys); [k] + SortedKeys(keys - {k})
  }

  lemma HeadIsLeast(ks: seq<string>)
    requires ks != [] && Sorted(ks)
    ensures Sorted(ks[1..]) && ks[0] !in ks[1..]
    ensures forall k :: k in ks <==> k == ks[0] || k in ks[1..]
  {
    assert ks == [ks[0]] + ks[1..];
    if ks[0] in ks[1..] {
      var i :| 1 <= i < |ks| && ks[i] == ks[0];
      LessTotal(ks[0], ks[i]);
      assert false;
    }
  }

  /** Position `i` puts `a` before `b` in ascending order: they agree up to it, and
      there `a` ends or has the smaller byte. */
  ghost predicate DiffersAt(a: seq<Byte>, b: seq<Byte>, i: nat) {
    i <= |a| && i < |b| && a[..i] == b[..i] && (i == |a| || a[i] < b[i])
  }

  ghost predicate Ascending(a: seq<Byte>, b: seq<Byte>) {
    exists i: nat :: DiffersAt(a, b, i)
  }

  lemma {:induction false} BytesLessIff(a: seq<Byte>, b: seq<Byte>)
    ensures BytesLess(a, b) <==> Ascending(a, b)
  {
    if a == [] || b == [] || a[0] != b[0] {
      assert b != [] && (a == [] || a[0] < b[0]) ==> DiffersAt(a, b, 0);
    } else {
      BytesLessIff(a[1..], b[1..]);
      if i: nat :| DiffersAt(a, b, i) {
        assert i != 0;
        DiffersOneOn(a, b, i - 1);
      }
      if i: nat :| DiffersAt(a[1..], b[1..], i) {
        DiffersOneOn(a, b, i);
      }
    }
  }

  lemma DiffersOneOn(a: seq<Byte>, b: seq<Byte>, i: nat)
    requires a != [] && b != [] && a[0] == b[0]
    ensures DiffersAt(a[1..], b[1..], i) <==> DiffersAt(a, b, i + 1)
  {
    if i + 1 <= |a| && i + 1 <= |b| {
      assert a[..i + 1] == [a[0]] + a[1..][..i] && b[..i + 1] == [b[0]] + b[1..][..i];
      assert a[..i + 1][1..] == a[1..][..i] && b[..i + 1][1..] == b[1..][..i];
    }
  }

  /** The order of keys is the ascending order of their bytes. */
  lemma LessIsAscending(s: string, t: string)
    ensures Less(s, t) <==> Ascending(Encode(s), Encode(t))
  {
    BytesLessIff(Encode(s), Encode(t));
  }

  lemma SortedKeysAscend(keys: set<string>, p: nat, q: nat)
    requires p < q < |keys|
    ensures Ascending(Encode(SortedKeys(keys)[p]), Encode(SortedKeys(keys)[q]))
  {
    var ks := SortedKeys(keys);
    assert Less(ks[p], ks[q]);
    LessIsAscending(ks[p], ks[q]);
  }

  /** Two keys in their order. */
  lemma SortedPair(k: string, j: string)
    requires Less(k, j)
    ensures SortedKeys({k, j}) == [k, j]
  {
    SortedUnique(SortedKeys({k, j}), [k, j]);
  }

  /** Letters stand in the order of the alphabet. */
  lemma LettersAscend(c: char, d: char)
    requires c < d && d as int < 0x80
    ensures Less([c], [d])
  {
    OneChar(c);
    OneChar(d);
    LessIsAscending([c], [d]);
    assert DiffersAt([c as int], [d as int], 0);
    assert Ascending([c as int], [d as int]);
  }

  /** One character of each length (RFC 3629, section 7, has the first three). */
  lemma EncodingExamples()
    ensures Encode("A") == [0x41]
    ensures Encode([0x391 as char]) == [0xCE, 0x91]
    ensures Encode([0x2262 as char]) == [0xE2, 0x89, 0xA2]
    ensures Encode([0x233B4 as char]) == [0xF0, 0xA3, 0x8E, 0xB4]
  {
    OneChar('A');
    OneChar(0x391 as char);
    OneChar(0x2262 as char);
    OneChar(0x233B4 as char);
  }

  lemma OneChar(c: char)
    ensures Encode([c]) == EncodeChar(c)
  {
    assert [c][1..] == "";
  }

  /** A sorted sequence is determined by its elements. */
  lemma {:induction false} SortedUnique(a: seq<string>, b: seq<string>)
    requires Sorted(a) && Sorted(b)
    requires forall k :: k in a <==> k in b
    ensures a == b
  {
    assert a != [] ==> a[0] in b;
    assert b != [] ==> b[0] in a;
    if a != [] && b != [] {
      LessTotal(a[0], b[0]);
      HeadIsLeast(a);
      HeadIsLeast(b);
      SortedUnique(a[1..], b[1..]);
      assert a == [a[0]] + a[1..] && b == [b[0]] + b[1..];
    }
  }
}
