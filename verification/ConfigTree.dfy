/** Worker configuration as plain trees: the deep merge of worker/runtime.go and
    the secret decryption of sdk/secretbox/fields.go, with the laws they obey.
 */
module ConfigTree {
  import opened Wrappers
  import Utf8
  import Values

  /** A config value that is not a map. Lists are never looked into. */
  datatype Scalar = Str(s: string) | Other(v: Values.Value)

  datatype Tree = Leaf(v: Scalar) | Map(m: Config)

  type Config = map<string, Tree>

  type Path = seq<string>

  // ---- Looking up -----------------------------------------------------------------

  datatype Look = Absent | IsMap | Has(v: Scalar)

  /** What the walk along a path ends at. */
  function LookAt(t: Config, p: Path): Look
    decreases |p|
  {
    if p == [] then IsMap
    else if p[0] !in t then Absent
    else
      match t[p[0]]
      case Leaf(v) => if |p| == 1 then Has(v) else Absent
      case Map(m) => LookAt(m, p[1..])
  }

  lemma LookOne(t: Config, k: string)
    ensures LookAt(t, [k]) == if k !in t then Absent else match t[k] case Leaf(v) => Has(v) case Map(_) => IsMap
  {
    assert [k][1..] == [];
  }

  lemma LookBelow(t: Config, k: string, p: Path)
    requires k in t && t[k].Map?
    ensures LookAt(t, [k] + p) == LookAt(t[k].m, p)
  {
    assert ([k] + p)[1..] == p;
  }

  /** Two configs that look alike everywhere are equal. */
  lemma {:induction false} LooksDetermine(t: Config, u: Config)
    requires forall p :: LookAt(t, p) == LookAt(u, p)
    ensures t == u
    decreases Map(t)
  {
    forall k ensures k in t <==> k in u {
      LookOne(t, k);
      LookOne(u, k);
    }
    forall k | k in t ensures t[k] == u[k] {
      LookOne(t, k);
      LookOne(u, k);
      if t[k].Map? {
        forall p ensures LookAt(t[k].m, p) == LookAt(u[k].m, p) {
          LookBelow(t, k, p);
          LookBelow(u, k, p);
        }
        LooksDetermine(t[k].m, u[k].m);
      }
    }
  }

  // ---- Deep merge -------------------------------------------------------------------

  predicate BothMaps(a: Config, b: Config, k: string) {
    k in a && k in b && a[k].Map? && b[k].Map?
  }

  /** mergeConfigInto: b over a; maps on both sides recurse. */
  function Merge(a: Config, b: Config): Config
    decreases Map(b)
  {
    map k | k in a.Keys + b.Keys ::
      if BothMaps(a, b, k) then Map(Merge(a[k].m, b[k].m))
      else if k in b then b[k]
      else a[k]
  }

  datatype Side = Both | Left | Right

  /** Which side supplies what the merge has at a path. */
  function Supplier(a: Config, b: Config, p: Path): Side
    decreases |p|
  {
    if p == [] then Both
    else if p[0] !in b then Left
    else if BothMaps(a, b, p[0]) then Supplier(a[p[0]].m, b[p[0]].m, p[1..])
    else Right
  }

  /** The per-path law of the merge. */
  lemma {:induction false} MergeAtPath(a: Config, b: Config, p: Path)
    ensures LookAt(Merge(a, b), p) ==
              match Supplier(a, b, p)
              case Both => IsMap
              case Left => LookAt(a, p)
              case Right => LookAt(b, p)
    decreases |p|
  {
    if p != [] && BothMaps(a, b, p[0]) {
      MergeAtPath(a[p[0]].m, b[p[0]].m, p[1..]);
    }
  }

  /** Something that is not a map stands in the way of a path. */
  ghost predicate Blocked(t: Config, p: Path) {
    exists n :: 0 < n < |p| && LookAt(t, p[..n]).Has?
  }

  lemma BlockedBelow(t: Config, k: string, p: Path)
    requires k in t && t[k].Map? && p != [] && p[0] == k
    ensures Blocked(t, p) <==> Blocked(t[k].m, p[1..])
  {
    var m := t[k].m;
    LookOne(t, k);
    forall n | 1 < n < |p| ensures LookAt(t, p[..n]) == LookAt(m, p[1..][..n - 1]) {
      assert p[..n] == [k] + p[1..][..n - 1];
      LookBelow(t, k, p[1..][..n - 1]);
    }
    if Blocked(t, p) {
      var n :| 0 < n < |p| && LookAt(t, p[..n]).Has?;
      assert p[..1] == [k];
      assert LookAt(m, p[1..][..n - 1]).Has?;
    }
    if Blocked(m, p[1..]) {
      var n :| 0 < n < |p[1..]| && LookAt(m, p[1..][..n]).Has?;
      assert LookAt(t, p[..n + 1]).Has?;
    }
  }

  /** What a merge shows, said of the two configs alone: what the override shows, if
      anything; nothing, where the override has a non-map in the way; and otherwise
      what the first config shows. */
  lemma {:induction false} MergeLook(a: Config, b: Config, p: Path)
    ensures LookAt(Merge(a, b), p) ==
              if !LookAt(b, p).Absent? then LookAt(b, p)
              else if Blocked(b, p) then Absent
              else LookAt(a, p)
    decreases |p|
  {
    if p != [] && p[0] in b {
      var k := p[0];
      if b[k].Map? {
        BlockedBelow(b, k, p);
        if BothMaps(a, b, k) {
          MergeLook(a[k].m, b[k].m, p[1..]);
        } else if |p| > 1 {
          NotBothMaps(a, b, p);
        }
      } else if |p| > 1 {
        assert p[..1] == [k];
        LookOne(b, k);
        assert LookAt(b, p[..1]).Has?;
      }
    } else if p != [] {
      AbsentBlocksNothing(b, p);
    }
  }

  /** A path whose first key is absent is not blocked. */
  lemma AbsentBlocksNothing(b: Config, p: Path)
    requires p != [] && p[0] !in b
    ensures !Blocked(b, p)
  {
    forall n | 0 < n < |p| ensures LookAt(b, p[..n]).Absent? {
      assert p[..n][0] == p[0];
    }
  }

  lemma NotBothMaps(a: Config, b: Config, p: Path)
    requires |p| > 1 && p[0] in b && b[p[0]].Map? && !BothMaps(a, b, p[0])
    ensures LookAt(Merge(a, b), p) == LookAt(b, p) && LookAt(a, p).Absent?
  {}

  /** Merging the same override twice equals merging it once. */
  lemma {:induction false} MergeTwice(a: Config, b: Config)
    ensures Merge(Merge(a, b), b) == Merge(a, b)
    decreases Map(b)
  {
    var (m, r) := (Merge(a, b), Merge(Merge(a, b), b));
    forall k | k in m ensures r[k] == m[k] {
      if BothMaps(m, b, k) {
        if BothMaps(a, b, k) {
          MergeTwice(a[k].m, b[k].m);
        } else {
          MergeSelf(b[k].m);
        }
      }
    }
  }

  lemma {:induction false} MergeSelf(b: Config)
    ensures Merge(b, b) == b
    decreases Map(b)
  {
    forall k | k in b ensures Merge(b, b)[k] == b[k] {
      if b[k].Map? {
        MergeSelf(b[k].m);
      }
    }
  }

  /** The one obstacle to associativity: maps in the first and last config with
      something else between them, unless the last one overrides all of the first. */
  predicate Unobstructed(a: Config, b: Config, c: Config)
    decreases Map(b), 1
  {
    forall k :: k in a.Keys + b.Keys + c.Keys ==> UnobstructedAt(a, b, c, k)
  }

  predicate UnobstructedAt(a: Config, b: Config, c: Config, k: string)
    decreases Map(b), 0
  {
    k in a && k in b && k in c && a[k].Map? && c[k].Map? ==>
      if b[k].Map? then Unobstructed(a[k].m, b[k].m, c[k].m) else Merge(a[k].m, c[k].m) == c[k].m
  }

  lemma AssociativeAt(a: Config, b: Config, c: Config, k: string)
    requires k in a || k in b || k in c
    requires BothMaps(a, b, k) && k in c && c[k].Map? ==>
               (Merge(Merge(a[k].m, b[k].m), c[k].m) == Merge(a[k].m, Merge(b[k].m, c[k].m))
                <==> Unobstructed(a[k].m, b[k].m, c[k].m))
    ensures Merge(Merge(a, b), c)[k] == Merge(a, Merge(b, c))[k] <==> UnobstructedAt(a, b, c, k)
  {
    var (ab, bc) := (Merge(a, b), Merge(b, c));
    if k !in c {
      assert k in b ==> bc[k] == b[k];
    } else if k !in b {
      assert k in a ==> ab[k] == a[k];
    }
  }

  /** Merging is associative exactly when nothing obstructs it. */
  lemma {:induction false} MergeAssociativeIff(a: Config, b: Config, c: Config)
    ensures Merge(Merge(a, b), c) == Merge(a, Merge(b, c)) <==> Unobstructed(a, b, c)
    decreases Map(b)
  {
    var (l, r) := (Merge(Merge(a, b), c), Merge(a, Merge(b, c)));
    assert l.Keys == r.Keys;
    forall k | k in l ensures l[k] == r[k] <==> UnobstructedAt(a, b, c, k) {
      if BothMaps(a, b, k) && k in c && c[k].Map? {
        MergeAssociativeIff(a[k].m, b[k].m, c[k].m);
      }
      AssociativeAt(a, b, c, k);
    }
    SameMaps(l, r);
  }

  lemma SameMaps(l: Config, r: Config)
    requires l.Keys == r.Keys
    ensures l == r <==> forall k :: k in l ==> l[k] == r[k]
  {}

  /** No path is a map in one config and something else in the other. */
  predicate KindsAgree(a: Config, b: Config)
    decreases Map(a)
  {
    forall k :: k in a && k in b ==>
      && (a[k].Map? <==> b[k].Map?)
      && (a[k].Map? && b[k].Map? ==> KindsAgree(a[k].m, b[k].m))
  }

  lemma MergeAssociative(a: Config, b: Config, c: Config)
    requires KindsAgree(a, b) && KindsAgree(b, c)
    ensures Merge(Merge(a, b), c) == Merge(a, Merge(b, c))
  {
    AgreeingIsUnobstructed(a, b, c);
    MergeAssociativeIff(a, b, c);
  }

  lemma {:induction false} AgreeingIsUnobstructed(a: Config, b: Config, c: Config)
    requires KindsAgree(a, b) && KindsAgree(b, c)
    ensures Unobstructed(a, b, c)
    decreases Map(b)
  {
    forall k | k in a.Keys + b.Keys + c.Keys ensures UnobstructedAt(a, b, c, k) {
      if k in a && k in b && k in c && a[k].Map? && b[k].Map? {
        AgreeingIsUnobstructed(a[k].m, b[k].m, c[k].m);
      }
    }
  }

  // ---- Decrypting declared fields ------------------------------------------------------

  /** A key is as good as what it decrypts: a partial function on envelopes. */
  type Key = string -> Option<string>

  /** secretbox.IsEncrypted: "enc:v", any one byte, a colon. */
  predicate IsEncrypted(s: string) {
    |s| >= 7 && s[..5] == "enc:v" && s[5] as int < 0x80 && s[6] == ':'
  }

  /** The code counts bytes, which is why the one between must be a single byte. */
  lemma EncryptedByBytes(s: string)
    ensures var b := Utf8.Encode(s);
            IsEncrypted(s) <==> |b| >= 7 && Utf8.Encode("enc:v") <= b && b[6] == ':' as int
  {
    Utf8.AsciiPrefix(s, "enc:v");
    if "enc:v" <= s {
      Utf8.SecondByte(s[5..], ':');
      assert Utf8.Encode(s)[5..] == Utf8.Encode(s[5..]);
    }
  }

  /** What one pass makes of a string: a failed decryption keeps the ciphertext. */
  function Opened(key: Key, s: string): string {
    if s != "" && IsEncrypted(s) && key(s).Some? then key(s).value else s
  }

  function OpenedTimes(key: Key, s: string, n: nat): string
    decreases n
  {
    if n == 0 then s else OpenedTimes(key, Opened(key, s), n - 1)
  }

  /** setValue: no path is created. */
  function SetAt(t: Config, p: Path, v: Scalar): Config
    decreases |p|
  {
    if p == [] || p[0] !in t then t
    else if |p| == 1 then t[p[0] := Leaf(v)]
    else if t[p[0]].Map? then t[p[0] := Map(SetAt(t[p[0]].m, p[1..], v))]
    else t
  }

  /** What DecryptFields does about one path, and what it reports. */
  datatype Verdict = Skipped | Failed | Decrypted(plaintext: string)

  function Judge(key: Key, look: Look): Verdict {
    if !look.Has? || !look.v.Str? || look.v.s == "" || !IsEncrypted(look.v.s) then Skipped
    else if key(look.v.s).None? then Failed
    else Decrypted(key(look.v.s).value)
  }

  function DecryptPath(key: Key, t: Config, p: Path): Config {
    var j := Judge(key, LookAt(t, p));
    if j.Decrypted? then SetAt(t, p, Str(j.plaintext)) else t
  }

  /** What counts as what: only a non-empty string that is an envelope is touched, and
      the key decides between failure and plaintext. */
  lemma VerdictSpelledOut(key: Key, look: Look)
    ensures var envelope := look.Has? && look.v.Str? && IsEncrypted(look.v.s);
            && (Judge(key, look).Skipped? <==> !envelope)
            && (Judge(key, look).Failed? <==> envelope && key(look.v.s).None?)
            && (envelope && key(look.v.s).Some? ==> Judge(key, look) == Decrypted(key(look.v.s).value))
  {}

  /** All declared paths, one after the other. */
  function DecryptAll(key: Key, t: Config, ps: seq<Path>): Config
    decreases |ps|
  {
    if ps == [] then t else DecryptAll(key, DecryptPath(key, t, ps[0]), ps[1..])
  }

  /** How often a path is declared. */
  function Count(ps: seq<Path>, p: Path): nat {
    if ps == [] then 0 else (if ps[0] == p then 1 else 0) + Count(ps[1..], p)
  }

  function OpenedLook(key: Key, look: Look, n: nat): Look {
    if look.Has? && look.v.Str? then Has(Str(OpenedTimes(key, look.v.s, n))) else look
  }

  /** Replacing a leaf changes the look of its own path only. */
  lemma {:induction false} SetAtLook(t: Config, p: Path, v: Scalar, q: Path)
    requires LookAt(t, p).Has?
    ensures LookAt(SetAt(t, p, v), q) == if q == p then Has(v) else LookAt(t, q)
    decreases |p|
  {
    if |p| == 1 {
      if q != [] && q[0] == p[0] && |q| == 1 {
        assert q == p;
      }
    } else if q != [] && q[0] == p[0] {
      SetAtLook(t[p[0]].m, p[1..], v, q[1..]);
      assert p == [p[0]] + p[1..] && q == [q[0]] + q[1..];
    }
  }

  lemma DecryptPathLook(key: Key, t: Config, p: Path, q: Path)
    ensures LookAt(DecryptPath(key, t, p), q) == OpenedLook(key, LookAt(t, q), if q == p then 1 else 0)
  {
    var j := Judge(key, LookAt(t, p));
    if j.Decrypted? {
      SetAtLook(t, p, Str(j.plaintext), q);
    }
    if LookAt(t, q).Has? && LookAt(t, q).v.Str? {
      var s := LookAt(t, q).v.s;
      assert OpenedTimes(key, s, 1) == OpenedTimes(key, Opened(key, s), 0);
    }
  }

  /** The exact effect of DecryptFields: a string is opened once for every time its
      path is declared, and nothing else changes: no other leaf, no key, no map. */
  lemma {:induction false} DecryptAllLook(key: Key, t: Config, ps: seq<Path>, q: Path)
    ensures LookAt(DecryptAll(key, t, ps), q) == OpenedLook(key, LookAt(t, q), Count(ps, q))
    decreases |ps|
  {
    if ps != [] {
      DecryptPathLook(key, t, ps[0], q);
      DecryptAllLook(key, DecryptPath(key, t, ps[0]), ps[1..], q);
      if LookAt(t, q).Has? && LookAt(t, q).v.Str? {
        OpenedSum(key, LookAt(t, q).v.s, if q == ps[0] then 1 else 0, Count(ps[1..], q));
      }
    }
  }

  /** For a string declared once: an envelope that the key opens becomes its plaintext,
      and any other string stays, as does everything that is not declared. */
  lemma DeclaredOnce(key: Key, t: Config, ps: seq<Path>, p: Path, s: string)
    requires LookAt(t, p) == Has(Str(s))
    ensures p !in ps ==> LookAt(DecryptAll(key, t, ps), p) == Has(Str(s))
    ensures multiset(ps)[p] == 1 ==>
              LookAt(DecryptAll(key, t, ps), p)
              == Has(Str(if IsEncrypted(s) && key(s).Some? then key(s).value else s))
  {
    DecryptAllLook(key, t, ps, p);
    CountIsMultiplicity(ps, p);
    assert p !in ps ==> multiset(ps)[p] == 0;
    assert OpenedTimes(key, s, 1) == OpenedTimes(key, Opened(key, s), 0);
  }

  /** Which fields are reported: those of which some declaration met an envelope that
      the key does not open. Declarations of one path before it count, since they may
      have opened an envelope around it. */
  lemma {:induction false} FailuresAre(key: Key, t: Config, ps: seq<Path>, fields: seq<string>, n: nat, f: string)
    requires n <= |ps| == |fields|
    ensures f in Failures(key, t, ps, fields, n) <==>
              exists i :: 0 <= i < n && fields[i] == f && FailsAt(key, t, ps, i)
  {
    if n > 0 {
      FailuresAre(key, t, ps, fields, n - 1, f);
      VerdictAtFails(key, t, ps, n - 1);
    }
  }

  ghost predicate FailsAt(key: Key, t: Config, ps: seq<Path>, i: nat)
    requires i < |ps|
  {
    var look := LookAt(t, ps[i]);
    look.Has? && look.v.Str? &&
    var s := OpenedTimes(key, look.v.s, multiset(ps[..i])[ps[i]]);
    IsEncrypted(s) && key(s).None?
  }

  ghost predicate OpensAt(key: Key, t: Config, ps: seq<Path>, i: nat)
    requires i < |ps|
  {
    var look := LookAt(t, ps[i]);
    look.Has? && look.v.Str? &&
    var s := OpenedTimes(key, look.v.s, multiset(ps[..i])[ps[i]]);
    IsEncrypted(s) && key(s).Some?
  }

  ghost function Opening(key: Key, t: Config, ps: seq<Path>, n: nat): set<nat>
    requires n <= |ps|
  {
    set i: nat | i < n && OpensAt(key, t, ps, i)
  }

  /** How many are reported as decrypted: the declarations that met an envelope which
      the key opens. */
  lemma {:induction false} SuccessesAre(key: Key, t: Config, ps: seq<Path>, n: nat)
    requires n <= |ps|
    ensures Successes(key, t, ps, n) == |Opening(key, t, ps, n)|
  {
    if n > 0 {
      SuccessesAre(key, t, ps, n - 1);
      VerdictAtFails(key, t, ps, n - 1);
      var (before, now) := (Opening(key, t, ps, n - 1), Opening(key, t, ps, n));
      assert now == if OpensAt(key, t, ps, n - 1) then before + {n - 1} else before;
    }
  }

  lemma VerdictAtFails(key: Key, t: Config, ps: seq<Path>, i: nat)
    requires i < |ps|
    ensures VerdictAt(key, t, ps, i).Failed? <==> FailsAt(key, t, ps, i)
    ensures VerdictAt(key, t, ps, i).Decrypted? <==> OpensAt(key, t, ps, i)
  {
    CountIsMultiplicity(ps[..i], ps[i]);
    VerdictSpelledOut(key, OpenedLook(key, LookAt(t, ps[i]), Count(ps[..i], ps[i])));
  }

  lemma {:induction false} OpenedSum(key: Key, s: string, m: nat, n: nat)
    ensures OpenedTimes(key, OpenedTimes(key, s, m), n) == OpenedTimes(key, s, m + n)
    decreases m
  {
    if m > 0 {
      OpenedSum(key, Opened(key, s), m - 1, n);
    }
  }

  lemma {:induction false} CountIsMultiplicity(ps: seq<Path>, p: Path)
    ensures Count(ps, p) == multiset(ps)[p]
  {
    if ps != [] {
      CountIsMultiplicity(ps[1..], p);
      assert ps == [ps[0]] + ps[1..];
    }
  }

  /** The order in which paths are declared plays no part. */
  lemma DecryptOrderIrrelevant(key: Key, t: Config, ps: seq<Path>, qs: seq<Path>)
    requires multiset(ps) == multiset(qs)
    ensures DecryptAll(key, t, ps) == DecryptAll(key, t, qs)
  {
    forall p ensures LookAt(DecryptAll(key, t, ps), p) == LookAt(DecryptAll(key, t, qs), p) {
      DecryptAllLook(key, t, ps, p);
      DecryptAllLook(key, t, qs, p);
      CountIsMultiplicity(ps, p);
      CountIsMultiplicity(qs, p);
    }
    LooksDetermine(DecryptAll(key, t, ps), DecryptAll(key, t, qs));
  }

  lemma {:induction false} DecryptAllSnoc(key: Key, t: Config, ps: seq<Path>, p: Path)
    ensures DecryptAll(key, t, ps + [p]) == DecryptPath(key, DecryptAll(key, t, ps), p)
    decreases |ps|
  {
    if ps == [] {
      assert [] + [p] == [p];
    } else {
      assert (ps + [p])[1..] == ps[1..] + [p];
      DecryptAllSnoc(key, DecryptPath(key, t, ps[0]), ps[1..], p);
    }
  }

  // What DecryptFields reports, said of the config it is given.

  /** The verdict on the i-th declaration: earlier ones of the same path count. */
  function VerdictAt(key: Key, t: Config, ps: seq<Path>, i: nat): Verdict
    requires i < |ps|
  {
    Judge(key, OpenedLook(key, LookAt(t, ps[i]), Count(ps[..i], ps[i])))
  }

  /** How many of the first `n` declarations were decrypted. */
  function Successes(key: Key, t: Config, ps: seq<Path>, n: nat): nat
    requires n <= |ps|
  {
    if n == 0 then 0
    else Successes(key, t, ps, n - 1) + if VerdictAt(key, t, ps, n - 1).Decrypted? then 1 else 0
  }

  /** Which of the first `n` declared fields failed, in order. */
  function Failures(key: Key, t: Config, ps: seq<Path>, fields: seq<string>, n: nat): seq<string>
    requires n <= |ps| == |fields|
  {
    if n == 0 then []
    else
      Failures(key, t, ps, fields, n - 1)
      + if VerdictAt(key, t, ps, n - 1).Failed? then [fields[n - 1]] else []
  }

  /** A string whose plaintext is not an envelope again is opened at most once. */
  lemma {:induction false} OpenedOnce(key: Key, s: string, n: nat)
    requires n > 0 && Opened(key, Opened(key, s)) == Opened(key, s)
    ensures OpenedTimes(key, s, n) == Opened(key, s)
    decreases n
  {
    if n > 1 {
      OpenedOnce(key, Opened(key, s), n - 1);
    }
  }

  // ---- Reloading -------------------------------------------------------------------------

  /** The paths whose leaf sits in a nested map that the merged config shares with
      the manifest: decrypting them writes into the manifest too. */
  predicate Shared(m: Config, o: Config, p: Path) {
    |p| >= 2 && Supplier(m, o, p[..|p| - 1]).Left?
  }

  function SharedOnly(m: Config, o: Config, ps: seq<Path>): seq<Path> {
    if ps == [] then []
    else (if Shared(m, o, ps[0]) then [ps[0]] else []) + SharedOnly(m, o, ps[1..])
  }

  /** Which maps are shared, said of the looks alone: both configs have maps down to
      some point of the path, where the override has nothing. */
  ghost predicate LeavesAt(a: Config, b: Config, p: Path, n: nat) {
    && n < |p| && LookAt(b, p[..n + 1]).Absent?
    && forall i :: 0 <= i <= n ==> LookAt(a, p[..i]).IsMap? && LookAt(b, p[..i]).IsMap?
  }

  lemma {:induction false} SupplierLeftIff(a: Config, b: Config, p: Path)
    ensures Supplier(a, b, p).Left? <==> exists n: nat :: LeavesAt(a, b, p, n)
    decreases |p|
  {
    if p != [] {
      var k := p[0];
      assert p[..1] == [k] && p[..0] == [];
      LookOne(a, k);
      LookOne(b, k);
      if k !in b {
        assert LeavesAt(a, b, p, 0);
      } else if BothMaps(a, b, k) {
        SupplierLeftIff(a[k].m, b[k].m, p[1..]);
        if n: nat :| LeavesAt(a[k].m, b[k].m, p[1..], n) {
          LeavesOneOn(a, b, p, n);
        }
        if n: nat :| LeavesAt(a, b, p, n) {
          assert n != 0;
          LeavesOneOn(a, b, p, n - 1);
        }
      } else {
        forall n: nat ensures !LeavesAt(a, b, p, n) {
          OverriddenIsNotLeft(a, b, p, n);
        }
      }
    }
  }

  lemma OverriddenIsNotLeft(a: Config, b: Config, p: Path, n: nat)
    requires p != [] && p[0] in b && !BothMaps(a, b, p[0])
    ensures !LeavesAt(a, b, p, n)
  {
    assert p[..1] == [p[0]];
    LookOne(a, p[0]);
    LookOne(b, p[0]);
    assert !(LookAt(a, p[..1]).IsMap? && LookAt(b, p[..1]).IsMap?) && !LookAt(b, p[..1]).Absent?;
  }

  lemma LeavesOneOn(a: Config, b: Config, p: Path, n: nat)
    requires p != [] && BothMaps(a, b, p[0])
    ensures LeavesAt(a, b, p, n + 1) <==> LeavesAt(a[p[0]].m, b[p[0]].m, p[1..], n)
  {
    var (k, ma, mb) := (p[0], a[p[0]].m, b[p[0]].m);
    forall i | 1 <= i <= |p|
      ensures LookAt(a, p[..i]) == LookAt(ma, p[1..][..i - 1]) && LookAt(b, p[..i]) == LookAt(mb, p[1..][..i - 1])
    {
      assert p[..i] == [k] + p[1..][..i - 1];
      LookBelow(a, k, p[1..][..i - 1]);
      LookBelow(b, k, p[1..][..i - 1]);
    }
    if LeavesAt(ma, mb, p[1..], n) {
      forall i | 0 <= i <= n + 1 ensures LookAt(a, p[..i]).IsMap? && LookAt(b, p[..i]).IsMap? {
        if i > 0 {
          assert LookAt(ma, p[1..][..i - 1]).IsMap? && LookAt(mb, p[1..][..i - 1]).IsMap?;
        }
      }
    }
    if LeavesAt(a, b, p, n + 1) {
      forall i | 0 <= i <= n ensures LookAt(ma, p[1..][..i]).IsMap? && LookAt(mb, p[1..][..i]).IsMap? {
        assert LookAt(a, p[..i + 1]).IsMap? && LookAt(b, p[..i + 1]).IsMap?;
      }
    }
  }

  /** What a reload hands over, and what it leaves of the manifest. */
  function Reloaded(key: Key, m: Config, o: Config, ps: seq<Path>): Config {
    DecryptAll(key, Merge(m, o), ps)
  }

  function ManifestAfter(key: Key, m: Config, o: Config, ps: seq<Path>): Config {
    DecryptAll(key, m, SharedOnly(m, o, ps))
  }

  lemma {:induction false} SharedCount(m: Config, o: Config, ps: seq<Path>, p: Path)
    ensures Count(SharedOnly(m, o, ps), p) == if Shared(m, o, p) then Count(ps, p) else 0
  {
    if ps != [] {
      SharedCount(m, o, ps[1..], p);
      var rest := SharedOnly(m, o, ps[1..]);
      assert ([ps[0]] + rest)[1..] == rest && [] + rest == rest;
    }
  }

  lemma {:induction false} SharedOnlySnoc(m: Config, o: Config, ps: seq<Path>, p: Path)
    ensures SharedOnly(m, o, ps + [p]) == SharedOnly(m, o, ps) + if Shared(m, o, p) then [p] else []
  {
    if ps == [] {
      assert [] + [p] == [p] && [p][1..] == [];
    } else {
      assert (ps + [p])[1..] == ps[1..] + [p];
      SharedOnlySnoc(m, o, ps[1..], p);
    }
  }

  /** Decryption changes strings only, so the override still supplies the same paths. */
  lemma {:induction false} SupplierStable(a: Config, a': Config, b: Config, p: Path)
    requires forall q :: LookAt(a, q).IsMap? <==> LookAt(a', q).IsMap?
    ensures Supplier(a, b, p) == Supplier(a', b, p)
    decreases |p|
  {
    if p != [] {
      var k := p[0];
      LookOne(a, k);
      LookOne(a', k);
      assert LookAt(a, [k]).IsMap? <==> LookAt(a', [k]).IsMap?;
      if BothMaps(a, b, k) {
        forall q ensures LookAt(a[k].m, q).IsMap? <==> LookAt(a'[k].m, q).IsMap? {
          LookBelow(a, k, q);
          LookBelow(a', k, q);
        }
        SupplierStable(a[k].m, a'[k].m, b[k].m, p[1..]);
      }
    }
  }

  /** What a reload with `o` shows at a path after one with `o1`, in terms of the
      manifest before both. */
  lemma SecondReloadLook(key: Key, m: Config, o1: Config, o: Config, ps: seq<Path>, p: Path)
    ensures var m' := ManifestAfter(key, m, o1, ps);
            LookAt(Reloaded(key, m', o, ps), p) ==
              if Supplier(m, o, p).Left? then
                OpenedLook(key, LookAt(m, p), Count(ps, p) + (if Shared(m, o1, p) then Count(ps, p) else 0))
              else LookAt(Reloaded(key, m, o, ps), p)
  {
    var m' := ManifestAfter(key, m, o1, ps);
    forall q ensures LookAt(m, q).IsMap? <==> LookAt(m', q).IsMap? {
      DecryptAllLook(key, m, SharedOnly(m, o1, ps), q);
    }
    SupplierStable(m, m', o, p);
    MergeAtPath(m, o, p);
    MergeAtPath(m', o, p);
    DecryptAllLook(key, Merge(m, o), ps, p);
    DecryptAllLook(key, Merge(m', o), ps, p);
    DecryptAllLook(key, m, SharedOnly(m, o1, ps), p);
    SharedCount(m, o1, ps, p);
    if LookAt(m, p).Has? && LookAt(m, p).v.Str? {
      OpenedSum(key, LookAt(m, p).v.s, if Shared(m, o1, p) then Count(ps, p) else 0, Count(ps, p));
    }
  }

  /** A declared manifest string that opening again as often would leave as it is. */
  predicate Settles(key: Key, m: Config, ps: seq<Path>, p: Path) {
    LookAt(m, p).Has? && LookAt(m, p).v.Str? ==>
      var (s, n) := (LookAt(m, p).v.s, Count(ps, p));
      OpenedTimes(key, s, 2 * n) == OpenedTimes(key, s, n)
  }

  /** A reload with `o1` leaves no trace in a later one with `o` exactly when every
      declared string that was shared then and is still the manifest's now settles. */
  lemma ReloadStableIff(key: Key, m: Config, o1: Config, o: Config, ps: seq<Path>)
    ensures var m' := ManifestAfter(key, m, o1, ps);
            Reloaded(key, m', o, ps) == Reloaded(key, m, o, ps) <==>
              forall p :: p in ps && Shared(m, o1, p) && Supplier(m, o, p).Left? ==> Settles(key, m, ps, p)
  {
    var (r, r') := (Reloaded(key, m, o, ps), Reloaded(key, ManifestAfter(key, m, o1, ps), o, ps));
    forall p
      ensures LookAt(r', p) == LookAt(r, p) <==>
                (p in ps && Shared(m, o1, p) && Supplier(m, o, p).Left? ==> Settles(key, m, ps, p))
    {
      SecondReloadLook(key, m, o1, o, ps, p);
      MergeAtPath(m, o, p);
      DecryptAllLook(key, Merge(m, o), ps, p);
      CountPositive(ps, p);
    }
    if forall p :: LookAt(r', p) == LookAt(r, p) {
      LooksDetermine(r', r);
    }
  }

  lemma {:induction false} CountPositive(ps: seq<Path>, p: Path)
    ensures Count(ps, p) > 0 <==> p in ps
  {
    if ps != [] {
      CountPositive(ps[1..], p);
      assert p in ps <==> p == ps[0] || p in ps[1..];
    }
  }

  /** Every declared string that some override would leave in a shared map settles. */
  ghost predicate AllSettle(key: Key, m: Config, ps: seq<Path>) {
    forall p :: p in ps && |p| >= 2 ==> Settles(key, m, ps, p)
  }

  /** A string that opening as often again leaves alone stays so when opened. */
  lemma OpenedSettles(key: Key, s: string, n: nat, c: nat)
    requires OpenedTimes(key, s, 2 * n) == OpenedTimes(key, s, n) && (c == 0 || c == n)
    ensures var s' := OpenedTimes(key, s, c); OpenedTimes(key, s', 2 * n) == OpenedTimes(key, s', n)
  {
    OpenedSum(key, s, c, 2 * n);
    OpenedSum(key, s, c, n);
    OpenedSum(key, s, 2 * n, n);
    OpenedSum(key, s, n, n);
  }

  lemma SettledStays(key: Key, m: Config, o: Config, ps: seq<Path>)
    requires AllSettle(key, m, ps)
    ensures AllSettle(key, ManifestAfter(key, m, o, ps), ps)
  {
    var m' := ManifestAfter(key, m, o, ps);
    forall p | p in ps && |p| >= 2 ensures Settles(key, m', ps, p) {
      DecryptAllLook(key, m, SharedOnly(m, o, ps), p);
      SharedCount(m, o, ps, p);
      if LookAt(m, p).Has? && LookAt(m, p).v.Str? {
        assert Settles(key, m, ps, p);
        OpenedSettles(key, LookAt(m, p).v.s, Count(ps, p), Count(SharedOnly(m, o, ps), p));
      }
    }
  }

  /** What a run of reloads leaves of the manifest. */
  function ManifestRun(key: Key, m: Config, os: seq<Config>, ps: seq<Path>): Config
    decreases |os|
  {
    if os == [] then m else ManifestRun(key, ManifestAfter(key, m, os[0], ps), os[1..], ps)
  }

  lemma {:induction false} ManifestRunSnoc(key: Key, m: Config, os: seq<Config>, o: Config, ps: seq<Path>)
    ensures ManifestRun(key, m, os + [o], ps) == ManifestAfter(key, ManifestRun(key, m, os, ps), o, ps)
    decreases |os|
  {
    if os == [] {
      assert [] + [o] == [o];
    } else {
      assert (os + [o])[1..] == os[1..] + [o];
      ManifestRunSnoc(key, ManifestAfter(key, m, os[0], ps), os[1..], o, ps);
    }
  }

  /** The history of overrides plays no part: after any run of reloads, a reload hands
      over what it would have handed over first thing. */
  lemma {:induction false} HistoryIrrelevant(key: Key, m: Config, os: seq<Config>, o: Config, ps: seq<Path>)
    requires AllSettle(key, m, ps)
    ensures Reloaded(key, ManifestRun(key, m, os, ps), o, ps) == Reloaded(key, m, o, ps)
    decreases |os|
  {
    if os != [] {
      SettledStays(key, m, os[0], ps);
      HistoryIrrelevant(key, ManifestAfter(key, m, os[0], ps), os[1..], o, ps);
      ReloadStableIff(key, m, os[0], o, ps);
    }
  }

  /** And the condition is exact: no history of overrides ever shows, whatever the
      override at hand, if and only if every declared string of the manifest that sits
      in a nested map is left alone by opening it as often again. */
  lemma HistoryIrrelevantIff(key: Key, m: Config, ps: seq<Path>)
    ensures AllSettle(key, m, ps) <==>
              forall os: seq<Config>, o: Config ::
                Reloaded(key, ManifestRun(key, m, os, ps), o, ps) == Reloaded(key, m, o, ps)
  {
    if AllSettle(key, m, ps) {
      forall os: seq<Config>, o: Config
        ensures Reloaded(key, ManifestRun(key, m, os, ps), o, ps) == Reloaded(key, m, o, ps)
      {
        HistoryIrrelevant(key, m, os, o, ps);
      }
    } else {
      var none: Config := map[];
      UnsettledShows(key, m, ps);
      OneReloadRun(key, m, none, ps);
      assert Reloaded(key, ManifestRun(key, m, [none], ps), none, ps) != Reloaded(key, m, none, ps);
    }
  }

  lemma OneReloadRun(key: Key, m: Config, o: Config, ps: seq<Path>)
    ensures ManifestRun(key, m, [o], ps) == ManifestAfter(key, m, o, ps)
  {
    assert [o][1..] == [];
  }

  /** Two reloads without an override already show a string that does not settle. */
  lemma UnsettledShows(key: Key, m: Config, ps: seq<Path>)
    requires !AllSettle(key, m, ps)
    ensures Reloaded(key, ManifestAfter(key, m, map[], ps), map[], ps) != Reloaded(key, m, map[], ps)
  {
    var p :| p in ps && |p| >= 2 && !Settles(key, m, ps, p);
    assert Supplier(m, map[], p).Left? && Supplier(m, map[], p[..|p| - 1]).Left?;
    ReloadStableIff(key, m, map[], map[], ps);
  }

  /** It is met when no declared string has a plaintext that looks like an envelope. */
  lemma PlainSettles(key: Key, m: Config, ps: seq<Path>)
    requires forall p :: p in ps ==> var j := Judge(key, LookAt(m, p)); j.Decrypted? ==> !IsEncrypted(j.plaintext)
    ensures AllSettle(key, m, ps)
  {
    forall p | p in ps && |p| >= 2 ensures Settles(key, m, ps, p) {
      if LookAt(m, p).Has? && LookAt(m, p).v.Str? {
        CountPositive(ps, p);
        OpenedOnce(key, LookAt(m, p).v.s, Count(ps, p));
        OpenedOnce(key, LookAt(m, p).v.s, 2 * Count(ps, p));
      }
    }
  }

  /** It is not always met: a plaintext that is an envelope is opened further by every
      reload. */
  lemma EnvelopeInEnvelope()
    ensures exists key: Key, m: Config, ps: seq<Path> ::
              Reloaded(key, ManifestAfter(key, m, map[], ps), map[], ps) != Reloaded(key, m, map[], ps)
  {
    var key, s := TwoEnvelopes();
    OpenedTwice(key, s);
    NestedUnsettled(key, "db", "password", s);
  }

  /** A key that finds an envelope in an envelope. */
  lemma TwoEnvelopes() returns (key: Key, s: string)
    ensures Opened(key, Opened(key, s)) != Opened(key, s)
  {
    s := "enc:v1:2";
    key := e => if e == "enc:v1:2" then Some("enc:v1:1") else if e == "enc:v1:1" then Some("plain") else None;
    assert Opened(key, s) == "enc:v1:1";
  }

  lemma NestedUnsettled(key: Key, k: string, j: string, s: string)
    requires OpenedTimes(key, s, 2) != OpenedTimes(key, s, 1)
    ensures var (m, ps) := (map[k := Map(map[j := Leaf(Str(s))])], [[k, j]]);
            Reloaded(key, ManifestAfter(key, m, map[], ps), map[], ps) != Reloaded(key, m, map[], ps)
  {
    var m: Config := map[k := Map(map[j := Leaf(Str(s))])];
    var p := [k, j];
    NestedLook(k, j, Str(s));
    assert Count([p], p) == 1 by { assert [p][1..] == []; }
    assert !Settles(key, m, [p], p);
    UnsettledShows(key, m, [p]);
  }

  lemma NestedLook(k: string, j: string, v: Scalar)
    ensures LookAt(map[k := Map(map[j := Leaf(v)])], [k, j]) == Has(v)
  {
    assert [k, j] == [k] + [j];
    LookBelow(map[k := Map(map[j := Leaf(v)])], k, [j]);
    LookOne(map[j := Leaf(v)], j);
  }

  lemma OpenedTwice(key: Key, s: string)
    ensures OpenedTimes(key, s, 1) == Opened(key, s)
    ensures OpenedTimes(key, s, 2) == Opened(key, Opened(key, s))
  {
    assert OpenedTimes(key, Opened(key, s), 1) == OpenedTimes(key, Opened(key, Opened(key, s)), 0);
  }
}
