/** Config maps as the heap objects they are: the merged config shares nested maps
    with the manifest and the override, and decryption writes through the sharing
    (worker/runtime.go:316-334, sdk/secretbox/fields.go:20-111).
 */
module ConfigHeap {
  import opened Wrappers
  import opened ConfigTree
  import SecretPaths

  /** An entry of a config map. */
  datatype Val = Plain(v: Scalar) | Sub(node: Node)

  /** One Go map. Decoded documents are trees, so a map has one place in them;
      `path` is that place and `below` the map together with all maps under it. */
  class Node {
    var entries: map<string, Val>
    ghost const path: Path
    ghost var below: set<Node>

    constructor (entries: map<string, Val>, ghost path: Path, ghost under: set<Node>)
      ensures this.entries == entries && this.path == path && this.below == under + {this}
    {
      this.entries := entries;
      this.path := path;
      this.below := under + {this};
    }

    ghost predicate Valid()
      reads this, below
      decreases below
    {
      && this in below
      && forall k :: k in entries && entries[k].Sub? ==> ValidChild(k)
    }

    ghost predicate ValidChild(k: string)
      requires this in below
      reads this, below
      decreases below, 0
    {
      k in entries && entries[k].Sub? ==>
        var c := entries[k].node;
        c in below && c.below < below && this !in c.below && c.path == path + [k] && c.Valid()
    }
  }

  /** The config a map holds, with everything under it. */
  ghost function Abs(n: Node): Config
    requires n.Valid()
    reads n, n.below
    decreases n.below
  {
    map k | k in n.entries ::
      match n.entries[k]
      case Plain(v) => Leaf(v)
      case Sub(c) => assert n.ValidChild(k); Map(Abs(c))
  }

  /** The map at a path, if the walk stays within maps. */
  ghost function NodeAt(n: Node, p: Path): Option<Node>
    requires n.Valid()
    reads n, n.below
    decreases |p|
  {
    if p == [] then Some(n)
    else if p[0] in n.entries && n.entries[p[0]].Sub? then
      assert n.ValidChild(p[0]);
      NodeAt(n.entries[p[0]].node, p[1..])
    else None
  }

  lemma {:induction false} NodeAtFacts(n: Node, p: Path)
    requires n.Valid() && NodeAt(n, p).Some?
    ensures var d := NodeAt(n, p).value; d in n.below && d.Valid() && d.below <= n.below && d.path == n.path + p
    decreases |p|
  {
    if p != [] {
      assert n.ValidChild(p[0]);
      NodeAtFacts(n.entries[p[0]].node, p[1..]);
      assert p == [p[0]] + p[1..];
    }
  }

  function Shown(e: Val): Look {
    match e case Plain(v) => Has(v) case Sub(_) => IsMap
  }

  ghost function EntryLook(d: Node, k: string): Look
    reads d
  {
    if k in d.entries then Shown(d.entries[k]) else Absent
  }

  /** What a path shows is what the map at its parent holds. */
  lemma {:induction false} LookIsEntry(n: Node, q: Path, k: string)
    requires n.Valid()
    ensures LookAt(Abs(n), q + [k]) ==
              if NodeAt(n, q).Some? then EntryLook(NodeAt(n, q).value, k) else Absent
    decreases |q|
  {
    var p := q + [k];
    if q == [] {
      assert p == [k];
      LookOne(Abs(n), k);
    } else {
      assert p[0] == q[0] && p[1..] == q[1..] + [k];
      if q[0] in n.entries && n.entries[q[0]].Sub? {
        assert n.ValidChild(q[0]);
        LookIsEntry(n.entries[q[0]].node, q[1..], k);
      }
    }
  }

  // ---- The effect of one write ---------------------------------------------------------

  /** A write of `v` to entry `k` of map `d`, seen from the maps of `all`. */
  datatype Write = Write(all: set<Node>, d: Node, k: string, v: Scalar)

  /** Only that entry has changed. */
  twostate predicate Happened(w: Write)
    reads w.all
  {
    && w.d in w.all
    && w.k in old(w.d.entries)
    && w.d.entries == old(w.d.entries)[w.k := Plain(w.v)]
    && (forall x :: x in w.all && x != w.d ==> x.entries == old(x.entries))
    && (forall x :: x in w.all ==> x.below == old(x.below))
  }

  /** The config holds the map at its place; places are counted from the root. */
  ghost predicate Holds(n: Node, d: Node)
    requires n.Valid()
    reads n, n.below
  {
    n.path <= d.path && NodeAt(n, d.path[|n.path|..]) == Some(d)
  }

  /** What the write means for a config: it sets the path of `d` there, if the config
      holds `d` at its place. */
  twostate predicate Written(n: Node, w: Write)
    requires old(n.Valid())
    reads n, n.below
  {
    && n.Valid()
    && (old(Holds(n, w.d)) ==> Abs(n) == SetAt(old(Abs(n)), w.d.path[|n.path|..] + [w.k], w.v))
    && (!old(Holds(n, w.d)) ==> Abs(n) == old(Abs(n)))
  }

  /** Whether the path of `d` leads through entry `j` of `n`. */
  ghost predicate Leads(n: Node, d: Node, j: string) {
    n.path + [j] <= d.path
  }

  lemma HoldsBelow(n: Node, d: Node, j: string)
    requires n.Valid() && j in n.entries && n.entries[j].Sub?
    ensures n.ValidChild(j)
    ensures Holds(n.entries[j].node, d) <==> Holds(n, d) && Leads(n, d, j)
  {
    assert n.ValidChild(j);
    var c := n.entries[j].node;
    if n.path + [j] <= d.path {
      assert d.path[|n.path|] == (n.path + [j])[|n.path|];
      assert n.path <= d.path && d.path[|n.path|..][1..] == d.path[|c.path|..];
    }
  }

  twostate lemma {:induction false} WriteEffect(w: Write, new n: Node)
    requires Happened(w) && n.below <= w.all && n in w.all && old(n.Valid())
    ensures Written(n, w)
    decreases n.below
  {
    forall j | j in old(n.entries) && old(n.entries)[j].Sub? && !(n == w.d && j == w.k)
      ensures old(n.ValidChild(j)) && n.entries[j] == old(n.entries)[j] && Written(n.entries[j].node, w)
    {
      assert old(n.ValidChild(j));
      WriteEffect(w, old(n.entries)[j].node);
    }
    ValidAfter(w, n);
    if n == w.d {
      WriteHere(w, n);
    } else {
      WriteBelow(w, n);
    }
  }

  twostate predicate ChildrenWritten(n: Node, w: Write)
    requires old(n.Valid())
    reads n, n.below
  {
    forall j :: j in old(n.entries) && old(n.entries)[j].Sub? && !(n == w.d && j == w.k) ==>
      && old(n.ValidChild(j)) && j in n.entries && n.entries[j] == old(n.entries)[j]
      && n.entries[j].node in n.below && n.entries[j].node.below <= n.below && Written(n.entries[j].node, w)
  }

  twostate lemma ValidAfter(w: Write, new n: Node)
    requires Happened(w) && n.below <= w.all && n in w.all && old(n.Valid()) && ChildrenWritten(n, w)
    ensures n.Valid()
  {
    forall j | j in n.entries && n.entries[j].Sub? ensures n.ValidChild(j) {
      assert old(n.ValidChild(j));
    }
  }

  twostate lemma WriteHere(w: Write, new n: Node)
    requires Happened(w) && n == w.d && n.below <= w.all && n in w.all
    requires old(n.Valid()) && n.Valid() && ChildrenWritten(n, w)
    ensures Written(n, w)
  {
    assert n.path[|n.path|..] == [];
    var (t, t') := (old(Abs(n)), Abs(n));
    forall j | j in t' ensures t'[j] == t[w.k := Leaf(w.v)][j] {
      if n.entries[j].Sub? {
        assert old((HoldsBelow(n, w.d, j); !Holds(n.entries[j].node, w.d)));
      }
    }
    assert t' == t[w.k := Leaf(w.v)];
    assert [] + [w.k] == [w.k];
  }

  twostate lemma WriteBelow(w: Write, new n: Node)
    requires Happened(w) && n != w.d && n.below <= w.all && n in w.all
    requires old(n.Valid()) && n.Valid() && ChildrenWritten(n, w)
    ensures Written(n, w)
  {
    var (t, t') := (old(Abs(n)), Abs(n));
    forall j | j in t' && !(old(Holds(n, w.d)) && Leads(n, w.d, j)) ensures t'[j] == t[j] {
      if n.entries[j].Sub? {
        assert old((HoldsBelow(n, w.d, j); Holds(n.entries[j].node, w.d) <==> Holds(n, w.d) && Leads(n, w.d, j)));
      }
    }
    if old(Holds(n, w.d)) {
      var q := w.d.path[|n.path|..];
      assert q != [] && q[0] in n.entries && n.entries[q[0]].Sub?;
      var c := n.entries[q[0]].node;
      assert old((HoldsBelow(n, w.d, q[0]); Holds(c, w.d) && c.path == n.path + [q[0]]));
      assert w.d.path[|c.path|..] == q[1..];
      SetBelow(t, t', q, w.k, w.v);
    } else {
      assert t' == t;
    }
  }

  lemma SetBelow(t: Config, t': Config, q: Path, k: string, v: Scalar)
    requires t.Keys == t'.Keys && q != [] && q[0] in t && t[q[0]].Map?
    requires t'[q[0]] == Map(SetAt(t[q[0]].m, q[1..] + [k], v))
    requires forall j :: j in t && j != q[0] ==> t'[j] == t[j]
    ensures t' == SetAt(t, q + [k], v)
  {
    assert (q + [k])[1..] == q[1..] + [k];
  }

  /** Replacing a plain value moves no map. */
  twostate lemma {:induction false} PlacesStay(w: Write, new n: Node, new q: Path)
    requires Happened(w) && old(w.d.entries)[w.k].Plain? && n.below <= w.all && n in w.all
    requires old(n.Valid()) && n.Valid()
    ensures NodeAt(n, q) == old(NodeAt(n, q))
    decreases |q|
  {
    if q != [] && q[0] in n.entries && n.entries[q[0]].Sub? {
      assert n.ValidChild(q[0]) && old(n.ValidChild(q[0]));
      PlacesStay(w, n.entries[q[0]].node, q[1..]);
    }
  }

  // ---- Walking and setting -----------------------------------------------------------------

  /** What the rest of a walk ends at. */
  ghost function Ahead(e: Val, rest: Path): Look
    requires e.Sub? ==> e.node.Valid()
    reads if e.Sub? then {e.node} + e.node.below else {}
  {
    match e
    case Sub(c) => LookAt(Abs(c), rest)
    case Plain(v) => if rest == [] then Has(v) else Absent
  }

  method WalkValue(m: Node, segments: seq<string>) returns (v: Option<Val>)
    requires m.Valid()
    ensures LookAt(Abs(m), segments) == if v.Some? then Shown(v.value) else Absent
    ensures NodeAt(m, segments) == if v.Some? && v.value.Sub? then Some(v.value.node) else None
  {
    var cur := Sub(m);
    for i := 0 to |segments|
      invariant cur.Sub? ==> cur.node.Valid()
      invariant Ahead(cur, segments[i..]) == LookAt(Abs(m), segments)
      invariant NodeAt(m, segments) == if cur.Sub? then NodeAt(cur.node, segments[i..]) else None
    {
      assert segments[i..][0] == segments[i] && segments[i..][1..] == segments[i + 1..];
      if cur.Plain? {
        return None;
      }
      if segments[i] !in cur.node.entries {
        return None;
      }
      assert cur.node.ValidChild(segments[i]);
      cur := cur.node.entries[segments[i]];
    }
    return Some(cur);
  }

  /** setValue: replaces what is there, creates nothing. */
  method SetValue(m: Node, segments: seq<string>, v: Scalar)
    requires m.Valid() && m.path == []
    modifies m.below`entries
    ensures m.Valid() && Abs(m) == SetAt(old(Abs(m)), segments, v)
    ensures var d := if segments == [] then None else old(NodeAt(m, segments[..|segments| - 1]));
            if d.Some? && segments[|segments| - 1] in old(d.value.entries) then
              && d.value.entries == old(d.value.entries)[segments[|segments| - 1] := Plain(v)]
              && forall x :: x in m.below && x != d.value ==> x.entries == old(x.entries)
            else
              forall x :: x in m.below ==> x.entries == old(x.entries)
  {
    if |segments| == 0 {
      return;
    }
    var cur := m;
    ghost var front := segments[..|segments| - 1];
    var last := segments[|segments| - 1];
    assert segments == front + [last];
    LookIsEntry(m, front, last);
    for i := 0 to |segments| - 1
      modifies {}
      invariant cur.Valid() && cur in m.below && cur.below <= m.below
      invariant NodeAt(m, front) == NodeAt(cur, front[i..])
    {
      assert front[i..][0] == segments[i] && front[i..][1..] == front[i + 1..];
      if segments[i] !in cur.entries || cur.entries[segments[i]].Plain? {
        SetAbsent(Abs(m), segments, v);
        return;
      }
      assert cur.ValidChild(segments[i]);
      cur := cur.entries[segments[i]].node;
    }
    NodeAtFacts(m, front);
    if last !in cur.entries {
      SetAbsent(Abs(m), segments, v);
      return;
    }
    ghost var w := Write(m.below, cur, last, v);
    label Before:
    cur.entries := cur.entries[last := Plain(v)];
    WriteEffect@Before(w, m);
    assert cur.path == front;
  }

  lemma {:induction false} SetAbsent(t: Config, p: Path, v: Scalar)
    requires LookAt(t, p).Absent?
    ensures SetAt(t, p, v) == t
    decreases |p|
  {
    if p != [] && p[0] in t && t[p[0]].Map? {
      SetAbsent(t[p[0]].m, p[1..], v);
    }
  }

  // ---- DecryptFields -------------------------------------------------------------------------

  function Paths(fields: seq<string>): (ps: seq<Path>)
    ensures |ps| == |fields|
  {
    seq(|fields|, i requires 0 <= i < |fields| => SecretPaths.Segments(fields[i]))
  }

  /** `cfg` has the map of `other` itself wherever the merge of `m` and `o` takes it
      from the left, and nowhere else. */
  ghost predicate Follows(cfg: Node, other: Node, m: Config, o: Config)
    requires cfg.Valid() && other.Valid()
    reads cfg, cfg.below, other, other.below
  {
    forall q :: if Supplier(m, o, q).Left? then NodeAt(cfg, q) == NodeAt(other, q)
                else NodeAt(cfg, q).None? || NodeAt(cfg, q) != NodeAt(other, q)
  }

  ghost predicate Linked(cfg: Node, other: Node, m: Config, o: Config)
    reads cfg, cfg.below, other, other.below
  {
    cfg.Valid() && other.Valid() && cfg.path == other.path == [] && Follows(cfg, other, m, o)
  }

  /** What one declared path does to the config that shares maps. */
  function DecryptShared(key: Key, u: Config, m: Config, o: Config, p: Path): Config {
    if Shared(m, o, p) then DecryptPath(key, u, p) else u
  }

  lemma SharedLook(cfg: Node, other: Node, m: Config, o: Config, p: Path)
    requires cfg.Valid() && other.Valid() && Follows(cfg, other, m, o) && Shared(m, o, p)
    ensures LookAt(Abs(cfg), p) == LookAt(Abs(other), p)
  {
    var (front, last) := (p[..|p| - 1], p[|p| - 1]);
    assert p == front + [last];
    LookIsEntry(cfg, front, last);
    LookIsEntry(other, front, last);
  }

  /** Replaces a leaf of `cfg`, and of `other` where the map around it is shared. */
  method SetLeaf(cfg: Node, segments: seq<string>, v: Scalar, ghost other: Node, ghost m: Config, ghost o: Config)
    requires Linked(cfg, other, m, o)
    requires LookAt(Abs(cfg), segments).Has?
    modifies cfg.below`entries
    ensures Linked(cfg, other, m, o)
    ensures Abs(cfg) == SetAt(old(Abs(cfg)), segments, v)
    ensures Abs(other) == if Shared(m, o, segments) then SetAt(old(Abs(other)), segments, v) else old(Abs(other))
  {
    ghost var (front, last) := (segments[..|segments| - 1], segments[|segments| - 1]);
    assert segments == front + [last];
    LookIsEntry(cfg, front, last);
    NodeAtFacts(cfg, front);
    ghost var d := NodeAt(cfg, front).value;
    ghost var w := Write(cfg.below + other.below, d, last, v);
    SetValue(cfg, segments, v);
    WriteEffect(w, other);
    forall q ensures NodeAt(cfg, q) == old(NodeAt(cfg, q)) && NodeAt(other, q) == old(NodeAt(other, q)) {
      PlacesStay(w, cfg, q);
      PlacesStay(w, other, q);
    }
    assert d.path == front && front[0..] == front;
    if front == [] {
      assert Supplier(m, o, front).Both?;
    }
  }

  /** The checks of the loop of DecryptFields: where a declared path leads, and what is
      to be done there. */
  method JudgeField(cfg: Node, path: string, key: Key) returns (segments: Path, verdict: Verdict)
    requires cfg.Valid()
    ensures segments == SecretPaths.Segments(path)
    ensures verdict == Judge(key, LookAt(Abs(cfg), segments))
  {
    segments := SecretPaths.SplitPath(path);
    verdict := JudgeAt(cfg, segments, key);
  }

  method JudgeAt(cfg: Node, segments: Path, key: Key) returns (verdict: Verdict)
    requires cfg.Valid()
    ensures verdict == Judge(key, LookAt(Abs(cfg), segments))
  {
    if |segments| == 0 {
      return Skipped;
    }
    var got := WalkValue(cfg, segments);
    if got.None? || got.value.Sub? || got.value.v.Other? {
      return Skipped;
    }
    var s := got.value.v.s;
    if s == "" || !IsEncrypted(s) {
      return Skipped;
    }
    var pt := key(s);
    return if pt.None? then Failed else Decrypted(pt.value);
  }

  /** The body of the loop of DecryptFields: only a decrypted leaf is written. */
  method DecryptField(cfg: Node, path: string, key: Key, ghost p: Path,
                      ghost other: Node, ghost m: Config, ghost o: Config)
    returns (verdict: Verdict)
    requires Linked(cfg, other, m, o) && p == SecretPaths.Segments(path)
    modifies cfg.below`entries
    ensures Linked(cfg, other, m, o)
    ensures verdict == Judge(key, LookAt(old(Abs(cfg)), p))
    ensures Abs(cfg) == DecryptPath(key, old(Abs(cfg)), p)
    ensures Abs(other) == DecryptShared(key, old(Abs(other)), m, o, p)
  {
    ghost var (t, u) := (Abs(cfg), Abs(other));
    if Shared(m, o, p) {
      SharedLook(cfg, other, m, o, p);
    }
    FieldEffect(key, t, u, m, o, p);
    var segments;
    segments, verdict := JudgeField(cfg, path, key);
    if verdict.Decrypted? {
      SetLeaf(cfg, segments, Str(verdict.plaintext), other, m, o);
    }
  }

  lemma FieldEffect(key: Key, t: Config, u: Config, m: Config, o: Config, p: Path)
    requires Shared(m, o, p) ==> LookAt(u, p) == LookAt(t, p)
    ensures var j := Judge(key, LookAt(t, p));
            if j.Decrypted? then
              && LookAt(t, p).Has?
              && DecryptPath(key, t, p) == SetAt(t, p, Str(j.plaintext))
              && DecryptShared(key, u, m, o, p) == if Shared(m, o, p) then SetAt(u, p, Str(j.plaintext)) else u
            else
              DecryptPath(key, t, p) == t && DecryptShared(key, u, m, o, p) == u
  {}

  lemma DecryptSteps(key: Key, t0: Config, ps: seq<Path>, i: nat)
    requires i < |ps|
    ensures DecryptAll(key, t0, ps[..i + 1]) == DecryptPath(key, DecryptAll(key, t0, ps[..i]), ps[i])
    ensures VerdictAt(key, t0, ps, i) == Judge(key, LookAt(DecryptAll(key, t0, ps[..i]), ps[i]))
  {
    DecryptAllLook(key, t0, ps[..i], ps[i]);
    DecryptAllSnoc(key, t0, ps[..i], ps[i]);
    assert ps[..i + 1] == ps[..i] + [ps[i]];
  }

  lemma SharedSteps(key: Key, u0: Config, m: Config, o: Config, ps: seq<Path>, i: nat)
    requires i < |ps|
    ensures DecryptAll(key, u0, SharedOnly(m, o, ps[..i + 1]))
            == DecryptShared(key, DecryptAll(key, u0, SharedOnly(m, o, ps[..i])), m, o, ps[i])
  {
    var before := SharedOnly(m, o, ps[..i]);
    SharedOnlySnoc(m, o, ps[..i], ps[i]);
    DecryptAllSnoc(key, u0, before, ps[i]);
    assert ps[..i + 1] == ps[..i] + [ps[i]];
    assert before + [] == before;
  }

  lemma ReportSteps(key: Key, t0: Config, ps: seq<Path>, fields: seq<string>, i: nat, j: Verdict)
    requires i < |ps| == |fields| && j == VerdictAt(key, t0, ps, i)
    ensures Successes(key, t0, ps, i + 1) == Successes(key, t0, ps, i) + if j.Decrypted? then 1 else 0
    ensures var before := Failures(key, t0, ps, fields, i);
            Failures(key, t0, ps, fields, i + 1) == if j.Failed? then before + [fields[i]] else before
  {
    var before := Failures(key, t0, ps, fields, i);
    assert before + [] == before;
  }

  /** What the loop of DecryptFields has reached after `i` declarations. */
  datatype Reached = Reached(t: Config, u: Config, decrypted: nat, failed: seq<string>)

  function ReachedAfter(key: Key, t0: Config, u0: Config, m: Config, o: Config,
                        ps: seq<Path>, fields: seq<string>, i: nat)
    : Reached
    requires i <= |ps| == |fields|
  {
    Reached(DecryptAll(key, t0, ps[..i]), DecryptAll(key, u0, SharedOnly(m, o, ps[..i])),
            Successes(key, t0, ps, i), Failures(key, t0, ps, fields, i))
  }

  lemma ReachedStep(key: Key, t0: Config, u0: Config, m: Config, o: Config, ps: seq<Path>, fields: seq<string>, i: nat)
    requires i < |ps| == |fields|
    ensures var r := ReachedAfter(key, t0, u0, m, o, ps, fields, i);
            var j := Judge(key, LookAt(r.t, ps[i]));
            ReachedAfter(key, t0, u0, m, o, ps, fields, i + 1)
            == Reached(DecryptPath(key, r.t, ps[i]), DecryptShared(key, r.u, m, o, ps[i]),
                       if j.Decrypted? then r.decrypted + 1 else r.decrypted,
                       if j.Failed? then r.failed + [fields[i]] else r.failed)
  {
    DecryptSteps(key, t0, ps, i);
    SharedSteps(key, u0, m, o, ps, i);
    ReportSteps(key, t0, ps, fields, i, VerdictAt(key, t0, ps, i));
  }

  lemma ReachedStart(key: Key, t0: Config, u0: Config, m: Config, o: Config, ps: seq<Path>, fields: seq<string>)
    requires |ps| == |fields|
    ensures ReachedAfter(key, t0, u0, m, o, ps, fields, 0) == Reached(t0, u0, 0, [])
  {}

  lemma ReachedEnd(key: Key, t0: Config, u0: Config, m: Config, o: Config, ps: seq<Path>, fields: seq<string>)
    requires |ps| == |fields|
    ensures ReachedAfter(key, t0, u0, m, o, ps, fields, |ps|)
            == Reached(DecryptAll(key, t0, ps), DecryptAll(key, u0, SharedOnly(m, o, ps)),
                       Successes(key, t0, ps, |ps|), Failures(key, t0, ps, fields, |ps|))
  {
    assert ps[..|ps|] == ps;
  }

  method DecryptFields(cfg: Node, secretFields: seq<string>, key: Key,
                       ghost other: Node, ghost m: Config, ghost o: Config)
    returns (decrypted: nat, failed: seq<string>)
    requires Linked(cfg, other, m, o)
    modifies cfg.below`entries
    ensures Linked(cfg, other, m, o)
    ensures Abs(cfg) == DecryptAll(key, old(Abs(cfg)), Paths(secretFields))
    ensures Abs(other) == DecryptAll(key, old(Abs(other)), SharedOnly(m, o, Paths(secretFields)))
    ensures decrypted == Successes(key, old(Abs(cfg)), Paths(secretFields), |secretFields|)
    ensures failed == Failures(key, old(Abs(cfg)), Paths(secretFields), secretFields, |secretFields|)
  {
    ghost var (t0, u0, ps) := (Abs(cfg), Abs(other), Paths(secretFields));
    decrypted, failed := 0, [];
    ReachedStart(key, t0, u0, m, o, ps, secretFields);
    ReachedEnd(key, t0, u0, m, o, ps, secretFields);
    for i := 0 to |secretFields|
      invariant Linked(cfg, other, m, o)
      invariant Reached(Abs(cfg), Abs(other), decrypted, failed)
                == ReachedAfter(key, t0, u0, m, o, ps, secretFields, i)
    {
      ReachedStep(key, t0, u0, m, o, ps, secretFields, i);
      var verdict := DecryptField(cfg, secretFields[i], key, ps[i], other, m, o);
      if verdict.Failed? {
        failed := failed + [secretFields[i]];
      } else if verdict.Decrypted? {
        decrypted := decrypted + 1;
      }
    }
  }
}
