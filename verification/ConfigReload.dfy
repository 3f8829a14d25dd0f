/** Reloading a worker's configuration (worker/runtime.go:187-230, 268-314): the stored
    override is merged over the manifest's config, declared secrets are decrypted in
    place, external lists are put in, and the result is handed to the tool.
 */
module ConfigReload {
  import opened Wrappers
  import opened ConfigTree
  import opened ConfigHeap
  import opened ConfigMerge

  /** A row of external_lists as it was fetched. */
  datatype ListRow = ListRow(content: string, hash: string, status: string)

  function RowEntries(row: ListRow): map<string, Val> {
    map["content" := Plain(Str(row.content)), "content_hash" := Plain(Str(row.hash)),
        "status" := Plain(Str(row.status))]
  }

  function RowConfig(row: ListRow): Config {
    map["content" := Leaf(Str(row.content)), "content_hash" := Leaf(Str(row.hash)), "status" := Leaf(Str(row.status))]
  }

  /** The lists that could be fetched; of two rows for one name the later one stays. */
  function ListsConfig(names: seq<string>, rows: seq<Option<ListRow>>, n: nat): Config
    requires n <= |names| == |rows|
  {
    if n == 0 then map[]
    else
      var before := ListsConfig(names, rows, n - 1);
      if rows[n - 1].Some? then before[names[n - 1] := Map(RowConfig(rows[n - 1].value))] else before
  }

  function WithLists(t: Config, names: seq<string>, rows: seq<Option<ListRow>>): Config
    requires |names| == |rows|
  {
    var lists := ListsConfig(names, rows, |names|);
    if lists == map[] then t else t["lists" := Map(lists)]
  }

  // ---- What the lists step shows -------------------------------------------------------

  /** Row `i` is the last one that could be fetched for the name. */
  ghost predicate LastFetched(names: seq<string>, rows: seq<Option<ListRow>>, n: nat, name: string, i: nat)
    requires n <= |names| == |rows|
  {
    i < n && names[i] == name && rows[i].Some? && forall j :: i < j < n && names[j] == name ==> rows[j].None?
  }

  ghost predicate NoneFetched(names: seq<string>, rows: seq<Option<ListRow>>, n: nat, name: string)
    requires n <= |names| == |rows|
  {
    forall j :: 0 <= j < n && names[j] == name ==> rows[j].None?
  }

  lemma {:induction false} ListEntry(names: seq<string>, rows: seq<Option<ListRow>>, n: nat, name: string)
    requires n <= |names| == |rows|
    ensures name in ListsConfig(names, rows, n) <==> !NoneFetched(names, rows, n, name)
    ensures forall i: nat :: LastFetched(names, rows, n, name, i) ==>
              name in ListsConfig(names, rows, n) && ListsConfig(names, rows, n)[name] == Map(RowConfig(rows[i].value))
  {
    if n > 0 {
      ListEntry(names, rows, n - 1, name);
      if names[n - 1] != name || rows[n - 1].None? {
        assert forall i: nat :: LastFetched(names, rows, n, name, i) ==> LastFetched(names, rows, n - 1, name, i);
        assert NoneFetched(names, rows, n, name) <==> NoneFetched(names, rows, n - 1, name);
      }
    }
  }

  /** When no list could be fetched the config is left alone. */
  lemma NothingFetched(t: Config, names: seq<string>, rows: seq<Option<ListRow>>)
    requires |names| == |rows| && forall i :: 0 <= i < |rows| ==> rows[i].None?
    ensures WithLists(t, names, rows) == t
  {
    var lists := ListsConfig(names, rows, |names|);
    forall name ensures name !in lists {
      ListEntry(names, rows, |names|, name);
    }
  }

  /** A list that could be fetched shows the fields of the last row fetched for it. */
  lemma FetchedList(t: Config, names: seq<string>, rows: seq<Option<ListRow>>, name: string, i: nat)
    requires |names| == |rows| && LastFetched(names, rows, |names|, name, i)
    ensures var (r, row) := (WithLists(t, names, rows), rows[i].value);
            && LookAt(r, ["lists", name, "content"]) == Has(Str(row.content))
            && LookAt(r, ["lists", name, "content_hash"]) == Has(Str(row.hash))
            && LookAt(r, ["lists", name, "status"]) == Has(Str(row.status))
            && forall f :: f !in ["content", "content_hash", "status"] ==> LookAt(r, ["lists", name, f]) == Absent
  {
    var lists := ListsConfig(names, rows, |names|);
    ListEntry(names, rows, |names|, name);
    forall f ensures LookAt(WithLists(t, names, rows), ["lists", name, f]) == LookAt(RowConfig(rows[i].value), [f]) {
      assert ["lists", name, f] == ["lists"] + [name, f] && [name, f] == [name] + [f];
      LookBelow(WithLists(t, names, rows), "lists", [name, f]);
      LookBelow(lists, name, [f]);
    }
    forall f ensures LookAt(RowConfig(rows[i].value), [f])
                     == if f in RowConfig(rows[i].value) then Has(RowConfig(rows[i].value)[f].v) else Absent {
      LookOne(RowConfig(rows[i].value), f);
    }
  }

  /** When some list could be fetched, the others are absent. */
  lemma UnfetchedList(t: Config, names: seq<string>, rows: seq<Option<ListRow>>, name: string, i: nat)
    requires |names| == |rows| && i < |rows| && rows[i].Some? && NoneFetched(names, rows, |names|, name)
    ensures LookAt(WithLists(t, names, rows), ["lists"]) == IsMap
    ensures LookAt(WithLists(t, names, rows), ["lists", name]) == Absent
  {
    var r := WithLists(t, names, rows);
    ListEntry(names, rows, |names|, names[i]);
    ListEntry(names, rows, |names|, name);
    LookOne(r, "lists");
    assert ["lists", name] == ["lists"] + [name];
    LookBelow(r, "lists", [name]);
    LookOne(ListsConfig(names, rows, |names|), name);
  }

  /** Nothing else changes. */
  lemma OtherPathsStay(t: Config, names: seq<string>, rows: seq<Option<ListRow>>, p: Path)
    requires |names| == |rows| && (p == [] || p[0] != "lists")
    ensures LookAt(WithLists(t, names, rows), p) == LookAt(t, p)
  {}

  /** The key a reload decrypts with: the cached one, or else the environment's. */
  function KeyInUse(cached: Option<Key>, env: Option<Key>): Option<Key> {
    if cached.Some? then cached else env
  }

  function DecryptWith(key: Option<Key>, t: Config, ps: seq<Path>): Config {
    if key.Some? then DecryptAll(key.value, t, ps) else t
  }

  /** What the tool is handed for manifest `m` and override `o`. */
  function HandedOver(key: Option<Key>, m: Config, o: Config, ps: seq<Path>): Config {
    DecryptWith(key, Merge(m, o), ps)
  }

  function ManifestLeft(key: Option<Key>, m: Config, o: Config, ps: seq<Path>): Config {
    if key.Some? then ManifestAfter(key.value, m, o, ps) else m
  }

  /** The override that is merged: none is as good as an empty one. */
  function Override(stored: Option<Config>): Config {
    if stored.Some? then stored.value else map[]
  }

  // ---- Decoding a stored document -------------------------------------------------------

  ghost predicate DecodedEntry(e: Val, t: Tree, place: Path, made: set<Node>)
    reads made
  {
    match t
    case Leaf(v) => e == Plain(v)
    case Map(m) =>
      e.Sub? && e.node in made && e.node.below <= made && e.node.Valid() && e.node.path == place && Abs(e.node) == m
  }

  ghost predicate DecodedPart(m: map<string, Val>, t: Config, todo: set<string>, path: Path, made: set<Node>)
    reads made
  {
    todo <= t.Keys && m.Keys == t.Keys - todo && forall k :: k in m ==> DecodedEntry(m[k], t[k], path + [k], made)
  }

  lemma DecodedStep(m: map<string, Val>, t: Config, todo: set<string>, path: Path, made: set<Node>,
                    k: string, e: Val, more: set<Node>)
    requires DecodedPart(m, t, todo, path, made) && k in todo && DecodedEntry(e, t[k], path + [k], more)
    ensures DecodedPart(m[k := e], t, todo - {k}, path, made + more)
  {
    forall j | j in m[k := e] ensures DecodedEntry(m[k := e][j], t[j], path + [j], made + more) {
      assert j != k ==> DecodedEntry(m[j], t[j], path + [j], made);
    }
  }

  lemma DecodedShown(n: Node, t: Config, made: set<Node>)
    requires n !in made && n.below == made + {n} && DecodedPart(n.entries, t, {}, n.path, made)
    ensures n.Valid() && Abs(n) == t
  {
    forall k | k in n.entries ensures n.ValidChild(k) {
      assert DecodedEntry(n.entries[k], t[k], n.path + [k], made);
    }
    assert n.Valid();
    forall k | k in n.entries ensures Abs(n)[k] == t[k] {
      assert DecodedEntry(n.entries[k], t[k], n.path + [k], made);
    }
  }

  /** json.Unmarshal into a map: all maps are new, and no two places share one. */
  method Decode(t: Config, ghost path: Path) returns (n: Node)
    ensures fresh(n) && fresh(n.below) && n.Valid() && n.path == path && Abs(n) == t
    decreases Map(t)
  {
    var m: map<string, Val> := map[];
    ghost var made: set<Node> := {};
    var todo := t.Keys;
    while todo != {}
      invariant fresh(made) && DecodedPart(m, t, todo, path, made)
    {
      var k :| k in todo;
      var e: Val;
      ghost var more: set<Node> := {};
      match t[k] {
        case Leaf(v) =>
          e := Plain(v);
        case Map(below) =>
          var c := Decode(below, path + [k]);
          e, more := Sub(c), c.below;
      }
      DecodedStep(m, t, todo, path, made, k, e, more);
      m, todo, made := m[k := e], todo - {k}, made + more;
    }
    n := new Node(m, path, made);
    DecodedShown(n, t, made);
  }

  lemma NoOverride(m: Config, q: Path)
    ensures Merge(m, map[]) == m
    ensures Supplier(m, map[], q) == if q == [] then Both else Left
  {}

  /** The map of one list's row. */
  ghost predicate IsRow(d: Node, name: string, t: Tree)
    reads d
  {
    && d.below == {d} && d.path == ["lists", name]
    && (forall k :: k in d.entries ==> d.entries[k].Plain?)
    && t == Map(map k | k in d.entries :: Leaf(d.entries[k].v))
  }

  /** The new maps of the lists fetched so far. */
  ghost predicate ListPart(m: map<string, Val>, made: set<Node>, t: Config)
    reads made
  {
    m.Keys == t.Keys && forall k :: k in m ==> m[k].Sub? && m[k].node in made && IsRow(m[k].node, k, t[k])
  }

  lemma ListStep(m: map<string, Val>, made: set<Node>, t: Config, name: string, d: Node, row: Tree)
    requires ListPart(m, made, t) && IsRow(d, name, row)
    ensures ListPart(m[name := Sub(d)], made + {d}, t[name := row])
  {}

  lemma RowOfFields(d: Node, name: string, row: ListRow)
    requires d.below == {d} && d.path == ["lists", name] && d.entries == RowEntries(row)
    ensures IsRow(d, name, Map(RowConfig(row)))
  {
    var t := map k | k in d.entries :: Leaf(d.entries[k].v);
    assert t == RowConfig(row);
  }

  lemma RowShown(d: Node, name: string, t: Tree)
    requires IsRow(d, name, t)
    ensures d.Valid() && Map(Abs(d)) == t
  {}

  lemma ListsShown(d: Node, t: Config, made: set<Node>)
    requires ListPart(d.entries, made, t) && d !in made && d.below == made + {d} && d.path == ["lists"]
    ensures d.Valid() && Abs(d) == t
  {
    forall k | k in d.entries ensures d.ValidChild(k) {
      RowShown(d.entries[k].node, k, t[k]);
    }
    assert d.Valid();
    forall k | k in d.entries ensures Abs(d)[k] == t[k] {
      RowShown(d.entries[k].node, k, t[k]);
    }
  }

  /** What a run of reloads leaves of the manifest. */
  function RunLeft(key: Option<Key>, m: Config, os: seq<Config>, ps: seq<Path>): Config {
    if key.Some? then ManifestRun(key.value, m, os, ps) else m
  }

  lemma RunStep(key: Option<Key>, m: Config, os: seq<Config>, o: Config, ps: seq<Path>)
    requires key.Some? ==> AllSettle(key.value, m, ps)
    ensures HandedOver(key, RunLeft(key, m, os, ps), o, ps) == HandedOver(key, m, o, ps)
    ensures RunLeft(key, m, os + [o], ps) == ManifestLeft(key, RunLeft(key, m, os, ps), o, ps)
  {
    if key.Some? {
      HistoryIrrelevant(key.value, m, os, o, ps);
      ManifestRunSnoc(key.value, m, os, o, ps);
    }
  }

  /** Each config handed over is what its edit gives at boot, with its lists. */
  ghost predicate AsAtBoot(handed: seq<Config>, key: Option<Key>, m: Config, ps: seq<Path>, names: seq<string>,
                           edits: seq<Option<Config>>, rows: seq<seq<Option<ListRow>>>)
    requires |handed| <= |edits| == |rows| && forall i :: 0 <= i < |rows| ==> |rows[i]| == |names|
  {
    forall j :: 0 <= j < |handed| ==>
      handed[j] == WithLists(HandedOver(key, m, Override(edits[j]), ps), names, rows[j])
  }

  class Runtime {
    const manifest: Node
    const secrets: seq<string>
    const lists: seq<string>
    var secretsKey: Option<Key>

    constructor (manifest: Node, secrets: seq<string>, lists: seq<string>)
      ensures this.manifest == manifest && this.secrets == secrets && this.lists == lists && secretsKey == None
    {
      this.manifest, this.secrets, this.lists, secretsKey := manifest, secrets, lists, None;
    }

    ghost predicate Valid()
      reads manifest, manifest.below
    {
      manifest.Valid() && manifest.path == []
    }

    /** The manifest's config with the stored override merged over it; the top-level
        map is always new. */
    method FetchMergedConfig(stored: Option<Config>) returns (out: Node)
      requires Valid()
      ensures fresh(out) && fresh(out.below - manifest.below)
      ensures Linked(out, manifest, Abs(manifest), Override(stored))
      ensures Abs(out) == Merge(Abs(manifest), Override(stored))
      ensures stored.None? ==> Abs(out) == Abs(manifest)
      ensures stored.Some? ==> Abs(out) == Merge(Abs(manifest), stored.value)
    {
      out := new Node(manifest.entries, [], manifest.below);
      assert forall k :: k in out.entries && out.entries[k].Sub? ==> manifest.ValidChild(k);
      assert out.Valid();
      ghost var copy := out;
      assert Abs(copy) == Abs(manifest);
      if stored.None? {
        CopyFollows(out, manifest);
        return;
      }
      var override := Decode(stored.value, []);
      out := MergeConfigInto(out, override, copy.below + override.below);
      MergeFollows(out, copy, manifest, override);
    }

    /** Decrypts the declared secrets of the merged config, and with them what the
        manifest shares; the key is read once. */
    method DecryptSecrets(merged: Node, env: Option<Key>, ghost o: Config)
      requires Valid() && Linked(merged, manifest, Abs(manifest), o)
      modifies this`secretsKey, merged.below`entries
      ensures merged.Valid() && manifest.Valid() && merged.path == []
      ensures Abs(merged) == DecryptWith(KeyInUse(old(secretsKey), env), old(Abs(merged)), Paths(secrets))
      ensures Abs(manifest) == ManifestLeft(KeyInUse(old(secretsKey), env), old(Abs(manifest)), o, Paths(secrets))
      ensures secretsKey == if secrets == [] || old(secretsKey).Some? then old(secretsKey) else env
      ensures secrets == [] || secretsKey.None? ==>
                Abs(merged) == old(Abs(merged)) && Abs(manifest) == old(Abs(manifest))
      ensures secrets != [] && secretsKey.Some? ==>
                Abs(merged) == DecryptAll(secretsKey.value, old(Abs(merged)), Paths(secrets))
    {
      if |secrets| == 0 {
        return;
      }
      if secretsKey.None? {
        if env.None? {
          return;
        }
        secretsKey := env;
      }
      DecryptDeclared(merged, secretsKey.value, o);
    }

    /** The decryption proper; its count and its failures are only logged. */
    method DecryptDeclared(merged: Node, key: Key, ghost o: Config)
      requires Valid() && Linked(merged, manifest, Abs(manifest), o)
      modifies merged.below`entries
      ensures merged.Valid() && Valid() && merged.path == []
      ensures Abs(merged) == DecryptAll(key, old(Abs(merged)), Paths(secrets))
      ensures Abs(manifest) == ManifestAfter(key, old(Abs(manifest)), o, Paths(secrets))
    {
      var dec, failed := DecryptFields(merged, secrets, key, manifest, Abs(manifest), o);
    }

    /** merged["lists"] = lists. */
    method PutLists(merged: Node, node: Node)
      requires merged.Valid() && merged.path == [] && node.Valid() && node.path == ["lists"]
      requires merged !in node.below
      modifies merged
      ensures merged.Valid() && Abs(merged) == old(Abs(merged))["lists" := Map(old(Abs(node)))]
    {
      merged.entries := merged.entries["lists" := Sub(node)];
      merged.below := merged.below + node.below;
      assert merged.path + ["lists"] == ["lists"];
      forall k | k in merged.entries && merged.entries[k].Sub? ensures merged.ValidChild(k) {
        if k != "lists" {
          assert old(merged.ValidChild(k));
        }
      }
    }

    /** A new map with one new map for every list that could be fetched. */
    method CollectLists(rows: seq<Option<ListRow>>) returns (node: Node)
      requires |rows| == |lists|
      ensures fresh(node) && fresh(node.below) && node.Valid() && node.path == ["lists"]
      ensures Abs(node) == ListsConfig(lists, rows, |lists|)
      ensures |node.entries| > 0 <==> Abs(node) != map[]
    {
      var m: map<string, Val> := map[];
      ghost var made: set<Node> := {};
      for i := 0 to |lists|
        invariant fresh(made) && ListPart(m, made, ListsConfig(lists, rows, i))
      {
        if rows[i].None? {
          continue;
        }
        var row := new Node(RowEntries(rows[i].value), ["lists", lists[i]], {});
        RowOfFields(row, lists[i], rows[i].value);
        ListStep(m, made, ListsConfig(lists, rows, i), lists[i], row, Map(RowConfig(rows[i].value)));
        made := made + {row};
        m := m[lists[i] := Sub(row)];
      }
      node := new Node(m, ["lists"], made);
      ListsShown(node, ListsConfig(lists, rows, |lists|), made);
      assert |m| == |m.Keys| && m.Keys == Abs(node).Keys;
    }

    /** Puts the fetched lists under "lists" of the top-level map, unless there are
        none. */
    method InjectExternalLists(merged: Node, rows: seq<Option<ListRow>>)
      requires merged.Valid() && merged.path == [] && |rows| == |lists|
      modifies merged
      ensures merged.Valid() && Abs(merged) == WithLists(old(Abs(merged)), lists, rows)
    {
      var node := CollectLists(rows);
      if |node.entries| > 0 {
        PutLists(merged, node);
      }
    }

    /** What one reload hands to the tool, and what it leaves behind: it writes to the
        manifest, although only through the merged config. */
    method ApplyConfig(stored: Option<Config>, env: Option<Key>, rows: seq<Option<ListRow>>) returns (merged: Node)
      requires Valid() && |rows| == |lists|
      modifies this`secretsKey, manifest.below`entries
      ensures fresh(merged) && merged.Valid() && Valid()
      ensures var key := KeyInUse(old(secretsKey), env);
              && Abs(merged) == WithLists(HandedOver(key, old(Abs(manifest)), Override(stored), Paths(secrets)),
                                          lists, rows)
              && Abs(manifest) == ManifestLeft(key, old(Abs(manifest)), Override(stored), Paths(secrets))
              && secretsKey == if secrets == [] then old(secretsKey) else key
    {
      merged := FetchMergedConfig(stored);
      DecryptSecrets(merged, env, Override(stored));
      InjectExternalLists(merged, rows);
    }

    /** A boot and any number of edits of the override, each with the lists as they are
        then: every reload hands over what it would have handed over at boot, although
        the manifest has been written to in between, if all its declared strings
        settle. */
    method ConfigLoop(edits: seq<Option<Config>>, env: Option<Key>, rows: seq<seq<Option<ListRow>>>)
      returns (ghost handed: seq<Config>)
      requires Valid() && |rows| == |edits| && forall i :: 0 <= i < |rows| ==> |rows[i]| == |lists|
      requires var key := KeyInUse(secretsKey, env);
               key.Some? ==> AllSettle(key.value, Abs(manifest), Paths(secrets))
      modifies this`secretsKey, manifest.below`entries
      ensures Valid() && |handed| == |edits|
      ensures var key := KeyInUse(old(secretsKey), env);
              forall i :: 0 <= i < |edits| ==>
                handed[i] == WithLists(HandedOver(key, old(Abs(manifest)), Override(edits[i]), Paths(secrets)),
                                       lists, rows[i])
    {
      handed := [];
      ghost var (key, m0, ps) := (KeyInUse(secretsKey, env), Abs(manifest), Paths(secrets));
      ghost var os: seq<Config> := [];
      for i := 0 to |edits|
        invariant Valid() && |handed| == i
        invariant KeyInUse(secretsKey, env) == key
        invariant Abs(manifest) == RunLeft(key, m0, os, ps)
        invariant AsAtBoot(handed, key, m0, ps, lists, edits, rows)
      {
        RunStep(key, m0, os, Override(edits[i]), ps);
        var merged := ApplyConfig(edits[i], env, rows[i]);
        handed := handed + [Abs(merged)];
        os := os + [Override(edits[i])];
      }
    }
  }

  lemma CopyFollows(copy: Node, manifest: Node)
    requires copy.Valid() && manifest.Valid() && copy.path == manifest.path == []
    requires copy.entries == manifest.entries && Abs(copy) == Abs(manifest) && copy !in manifest.below
    ensures Linked(copy, manifest, Abs(manifest), map[])
    ensures Abs(copy) == Merge(Abs(manifest), map[])
  {
    NoOverride(Abs(manifest), []);
    forall q ensures Supplier(Abs(manifest), map[], q) == if q == [] then Both else Left {
      NoOverride(Abs(manifest), q);
    }
  }

  /** A merge over a copy of the manifest's top level shares with the manifest what
      the override leaves alone. */
  lemma MergeFollows(out: Node, copy: Node, manifest: Node, override: Node)
    requires out.Valid() && copy.Valid() && manifest.Valid() && override.Valid()
    requires out.path == manifest.path == [] && copy.entries == manifest.entries && Abs(copy) == Abs(manifest)
    requires override.below !! manifest.below && manifest.below <= copy.below
    requires Shares(out, copy, override, copy.below + override.below)
    ensures Linked(out, manifest, Abs(manifest), Abs(override))
  {
    forall q
      ensures if Supplier(Abs(manifest), Abs(override), q).Left? then NodeAt(out, q) == NodeAt(manifest, q)
              else NodeAt(out, q).None? || NodeAt(out, q) != NodeAt(manifest, q)
    {
      assert SharesAt(out, copy, override, copy.below + override.below, q);
      assert q != [] ==> NodeAt(copy, q) == NodeAt(manifest, q);
      if NodeAt(manifest, q).Some? {
        NodeAtFacts(manifest, q);
      }
      if NodeAt(override, q).Some? {
        NodeAtFacts(override, q);
      }
    }
  }
}
