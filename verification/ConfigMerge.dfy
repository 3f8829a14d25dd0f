/** The deep merge on heap maps (worker/runtime.go:316-334): a new map at every place
    where both inputs have one, and everywhere else the very maps of the inputs.
 */
module ConfigMerge {
  import opened Wrappers
  import opened ConfigTree
  import opened ConfigHeap

  /** Where the map at a path of the merge comes from: from `a`, from `b`, or it is
      none of the maps that were there before. */
  ghost predicate SharesAt(out: Node, a: Node, b: Node, before: set<Node>, q: Path)
    requires out.Valid() && a.Valid() && b.Valid()
    reads out, out.below, a, a.below, b, b.below
  {
    match Supplier(Abs(a), Abs(b), q)
    case Left => NodeAt(out, q) == NodeAt(a, q)
    case Right => NodeAt(out, q) == NodeAt(b, q)
    case Both => NodeAt(out, q).Some? && NodeAt(out, q).value !in before
  }

  ghost predicate Shares(out: Node, a: Node, b: Node, before: set<Node>)
    requires out.Valid() && a.Valid() && b.Valid()
    reads out, out.below, a, a.below, b, b.below
  {
    forall q :: SharesAt(out, a, b, before, q)
  }

  ghost predicate SubIn(n: Node, k: string)
    reads n
  {
    k in n.entries && n.entries[k].Sub?
  }

  ghost predicate BothSub(a: Node, b: Node, k: string)
    reads a, b
  {
    SubIn(a, k) && SubIn(b, k)
  }

  /** What the merge has at a key, once the key is done; `made` are the new maps. */
  ghost predicate MergedEntry(e: Val, a: Node, b: Node, k: string, before: set<Node>, made: set<Node>)
    requires a.Valid() && b.Valid()
    reads a, a.below, b, b.below, made
  {
    if BothSub(a, b, k) then
      e.Sub? && e.node in made && e.node.below <= made && MergedChild(e.node, a, b, k, before)
    else if k in b.entries then e == b.entries[k]
    else k in a.entries && e == a.entries[k]
  }

  ghost predicate MergedChild(c: Node, a: Node, b: Node, k: string, before: set<Node>)
    requires a.Valid() && b.Valid() && BothSub(a, b, k)
    reads a, a.below, b, b.below, c, c.below
  {
    assert a.ValidChild(k) && b.ValidChild(k);
    var (ca, cb) := (a.entries[k].node, b.entries[k].node);
    && c in c.below && c.Valid() && c.path == a.path + [k]
    && Abs(c) == Merge(Abs(ca), Abs(cb))
    && Shares(c, ca, cb, before)
  }

  /** The merge with the keys of `todo` still to come. */
  ghost predicate Part(m: map<string, Val>, a: Node, b: Node, todo: set<string>, before: set<Node>, made: set<Node>)
    requires a.Valid() && b.Valid()
    reads a, a.below, b, b.below, made
  {
    && todo <= b.entries.Keys && m.Keys == a.entries.Keys + (b.entries.Keys - todo)
    && (forall k :: k in todo && k in m ==> k in a.entries && m[k] == a.entries[k])
    && (forall k :: k in m && k !in todo ==> MergedEntry(m[k], a, b, k, before, made))
  }

  lemma PartStep(m: map<string, Val>, a: Node, b: Node, todo: set<string>, before: set<Node>, made: set<Node>,
                 k: string, e: Val, more: set<Node>)
    requires a.Valid() && b.Valid() && Part(m, a, b, todo, before, made)
    requires k in todo && MergedEntry(e, a, b, k, before, more)
    ensures Part(m[k := e], a, b, todo - {k}, before, made + more)
  {
    forall j | j in m[k := e] && j !in todo - {k}
      ensures MergedEntry(m[k := e][j], a, b, j, before, made + more)
    {
      assert j != k ==> MergedEntry(m[j], a, b, j, before, made);
    }
  }

  /** A new map whose entries are all done. */
  ghost predicate Done(out: Node, a: Node, b: Node, before: set<Node>, made: set<Node>)
    reads out, a, a.below, b, b.below, made
  {
    && a.Valid() && b.Valid() && out !in before && out !in made && out.path == a.path == b.path
    && a.below + b.below <= before && out.below == a.below + b.below + made + {out}
    && Part(out.entries, a, b, {}, before, made)
  }

  lemma DoneIsValid(out: Node, a: Node, b: Node, before: set<Node>, made: set<Node>)
    requires Done(out, a, b, before, made)
    ensures out.Valid()
  {
    forall k | k in out.entries && out.entries[k].Sub? ensures out.ValidChild(k) {
      assert MergedEntry(out.entries[k], a, b, k, before, made);
      assert k in a.entries ==> a.ValidChild(k);
      assert k in b.entries ==> b.ValidChild(k);
    }
  }

  /** What a merge has at a key, in terms of the two configs. */
  function MergeEntry(a: Config, b: Config, k: string): Tree
    requires k in a || k in b
  {
    if BothMaps(a, b, k) then Map(Merge(a[k].m, b[k].m)) else if k in b then b[k] else a[k]
  }

  lemma EntriesMakeMerge(t: Config, a: Config, b: Config)
    requires t.Keys == a.Keys + b.Keys && forall k :: k in t ==> t[k] == MergeEntry(a, b, k)
    ensures t == Merge(a, b)
  {}

  lemma EntryIsMerged(out: Node, a: Node, b: Node, before: set<Node>, made: set<Node>, k: string)
    requires Done(out, a, b, before, made) && out.Valid() && k in out.entries
    ensures Abs(out)[k] == MergeEntry(Abs(a), Abs(b), k)
  {
    assert MergedEntry(out.entries[k], a, b, k, before, made);
  }

  lemma DoneIsMerge(out: Node, a: Node, b: Node, before: set<Node>, made: set<Node>)
    requires Done(out, a, b, before, made) && out.Valid()
    ensures Abs(out) == Merge(Abs(a), Abs(b))
  {
    forall k | k in Abs(out) ensures Abs(out)[k] == MergeEntry(Abs(a), Abs(b), k) {
      EntryIsMerged(out, a, b, before, made, k);
    }
    EntriesMakeMerge(Abs(out), Abs(a), Abs(b));
  }

  lemma DoneShares(out: Node, a: Node, b: Node, before: set<Node>, made: set<Node>)
    requires Done(out, a, b, before, made) && out.Valid()
    ensures Shares(out, a, b, before)
  {
    forall q ensures SharesAt(out, a, b, before, q) {
      if q != [] && q[0] in out.entries {
        var k := q[0];
        assert MergedEntry(out.entries[k], a, b, k, before, made);
        if BothSub(a, b, k) {
          assert a.ValidChild(k) && b.ValidChild(k);
          assert SharesAt(out.entries[k].node, a.entries[k].node, b.entries[k].node, before, q[1..]);
        }
      }
    }
  }

  method MergeConfigInto(a: Node, b: Node, ghost before: set<Node>) returns (out: Node)
    requires a.Valid() && b.Valid() && a.path == b.path && a.below + b.below <= before
    ensures fresh(out) && fresh(out.below - before) && out.Valid() && out.path == a.path
    ensures Abs(out) == Merge(Abs(a), Abs(b))
    ensures Shares(out, a, b, before)
    decreases b.below
  {
    var m := a.entries;
    ghost var made: set<Node> := {};
    var todo := b.entries.Keys;
    while todo != {}
      invariant fresh(made - before)
      invariant Part(m, a, b, todo, before, made)
    {
      var k :| k in todo;
      var v := b.entries[k];
      ghost var more: set<Node> := {};
      if v.Sub? && k in m && m[k].Sub? {
        assert a.ValidChild(k) && b.ValidChild(k);
        var merged := MergeConfigInto(m[k].node, v.node, before);
        assert MergedChild(merged, a, b, k, before);
        more := merged.below;
        v := Sub(merged);
      }
      PartStep(m, a, b, todo, before, made, k, v, more);
      m, todo, made := m[k := v], todo - {k}, made + more;
    }
    out := new Node(m, a.path, a.below + b.below + made);
    DoneIsValid(out, a, b, before, made);
    DoneIsMerge(out, a, b, before, made);
    DoneShares(out, a, b, before, made);
  }
}
