/** The objects that write results back: the asset writer of
    worker/asset_writer.go and the persist step of worker/river_adapter.go.
    Each method is proved to run exactly the plan that RetryModel reasons about.
 */
module Persist {
  import opened Wrappers
  import opened Values
  import opened AttrsEncoding
  import opened AssetTable
  import opened BatchStatement
  import opened RetryModel

  const CHUNK := 500

  /** The ParentID string of an asset, by what uuid.Parse makes of it. */
  datatype ParentRef = Unset | Malformed | Parsed(id: Uuid)

  datatype Asset = Asset(kind: string, value: string, parentID: ParentRef, attrs: Option<Attrs>)

  function AttrsOf(a: Asset): Attrs {
    if a.attrs.None? then map[] else a.attrs.value
  }

  predicate Usable(a: Asset) {
    a.kind != "" && a.value != ""
  }

  /** The row a batched asset asks for: its own parent if it names a good one. */
  function TupleOf(scope: Uuid, parent: Option<Uuid>, a: Asset): Tuple {
    Tuple(Key(scope, a.kind, a.value), if a.parentID.Parsed? then Some(a.parentID.id) else parent,
          AttrsOf(a), Fingerprint(AttrsOf(a)))
  }

  function TuplesOf(scope: Uuid, parent: Option<Uuid>, assets: seq<Asset>): (us: seq<Tuple>)
    ensures |us| == |assets| && forall i :: 0 <= i < |us| ==> us[i] == TupleOf(scope, parent, assets[i])
  {
    seq(|assets|, i requires 0 <= i < |assets| => TupleOf(scope, parent, assets[i]))
  }

  function PlanChunk(scope: Uuid, parent: Option<Uuid>, assets: seq<Asset>): Planned {
    if forall a :: a in assets ==> Usable(a) then Send(Upsert(TuplesOf(scope, parent, assets))) else Reject
  }

  function ChunkEnd(n: nat): nat {
    if n < CHUNK then n else CHUNK
  }

  function PlanBatch(scope: Uuid, parent: Option<Uuid>, assets: seq<Asset>): seq<Planned> {
    if assets == [] then []
    else
      var n := ChunkEnd(|assets|);
      [PlanChunk(scope, parent, assets[..n])] + PlanBatch(scope, parent, assets[n..])
  }

  /** A finished tool run to be written back. */
  datatype Job = Job(scope: Uuid, assetID: Uuid, update: Attrs, newAssets: seq<Asset>)

  function Plan(job: Job): seq<Planned> {
    (if |job.update| > 0 then [Send(Merge(job.assetID, job.update))] else [])
    + PlanBatch(job.scope, Some(job.assetID), job.newAssets)
  }

  // ---- The objects -------------------------------------------------------------------

  /** The database as one worker meets it: a table, and what is to become of the
      statements it sends. */
  class Pool {
    const pg: Postgres
    var table: Table
    var fates: seq<Fate>

    ghost predicate Is(o: Outcome)
      reads this
    {
      table == o.table && fates == o.fates
    }

    method Exec(st: Statement) returns (ok: bool)
      modifies this
      ensures var o := Send1(pg, old(table), st, old(fates)); Is(o) && ok == o.ok
    {
      var o := Send1(pg, table, st, fates);
      table, fates, ok := o.table, o.fates, o.ok;
    }

    /** A multi-row insert arrives as text and parameters; text that PostgreSQL
        cannot read changes nothing. */
    method ExecInsert(values: string, args: seq<Arg>) returns (ok: bool)
      modifies this
      ensures var us := ReadStatement(values, args);
              us.Some? ==> var o := Send1(pg, old(table), Upsert(us.value), old(fates)); Is(o) && ok == o.ok
    {
      var us := ReadStatement(values, args);
      if us.None? {
        return false;
      }
      ok := Exec(Upsert(us.value));
    }
  }

  class AssetWriter {
    const pool: Pool

    constructor (pool: Pool)
      ensures this.pool == pool
    {
      this.pool := pool;
    }

    /** Writes one asset; unlike the batch, it never looks at the asset's own parent. */
    method UpsertAsset(scope: Uuid, parent: Option<Uuid>, a: Asset) returns (ok: bool)
      modifies pool
      ensures a.kind == "" || a.value == "" ==> !ok && pool.table == old(pool.table) && pool.fates == old(pool.fates)
      ensures a.kind != "" && a.value != "" ==>
                var u := Tuple(Key(scope, a.kind, a.value), parent, AttrsOf(a), Fingerprint(AttrsOf(a)));
                var o := Send1(pool.pg, old(pool.table), Upsert([u]), old(pool.fates));
                pool.Is(o) && ok == o.ok
    {
      if a.kind == "" || a.value == "" {
        return false;
      }
      var attrs := if a.attrs.None? then map[] else a.attrs.value;
      var fp := Fingerprint(attrs);
      ok := pool.Exec(Upsert([Tuple(Key(scope, a.kind, a.value), parent, attrs, fp)]));
    }

    method MergeUpdate(assetID: Uuid, delta: Attrs) returns (ok: bool)
      modifies pool
      ensures |delta| == 0 ==> ok && pool.table == old(pool.table) && pool.fates == old(pool.fates)
      ensures |delta| > 0 ==>
                var o := Send1(pool.pg, old(pool.table), Merge(assetID, delta), old(pool.fates));
                pool.Is(o) && ok == o.ok
    {
      if |delta| == 0 {
        return true;
      }
      ok := pool.Exec(Merge(assetID, delta));
    }

    /** One row's fields: an asset's own parent wins over the one passed in. */
    method BuildRow(scope: Uuid, parent: Option<Uuid>, a: Asset) returns (row: Tuple)
      ensures row == TupleOf(scope, parent, a)
    {
      var attrs := if a.attrs.None? then map[] else a.attrs.value;
      var fp := Fingerprint(attrs);
      var parentArg: Option<Uuid> := None;
      if a.parentID.Parsed? {
        parentArg := Some(a.parentID.id);
      }
      if parentArg.None? && parent.Some? {
        parentArg := parent;
      }
      row := Tuple(Key(scope, a.kind, a.value), parentArg, attrs, fp);
    }

    /** The text of the i-th row. */
    method AppendRow(values: string, i: nat) returns (r: string)
      requires i < CHUNK && values == ShowAll(ValuesTokens(i))
      ensures r == ShowAll(ValuesTokens(i + 1))
    {
      GrowText(i);
      LargeBuffer();
      var base := i * PARAMS_PER_ROW;
      r := values;
      if i > 0 {
        r := r + ",";
      } else {
        assert values + "" == values;
      }
      r := AppendValuesTuple(r, base + 1);
    }

    /** The loop of upsertChunk: text and parameters, or nothing when some asset
        lacks its kind or value. */
    method BuildStatement(scope: Uuid, parent: Option<Uuid>, assets: seq<Asset>)
      returns (r: Option<(string, seq<Arg>)>)
      requires |assets| <= CHUNK
      ensures r.None? <==> exists a :: a in assets && (a.kind == "" || a.value == "")
      ensures r.Some? ==> r.value == (ShowAll(ValuesTokens(|assets|)), Args(TuplesOf(scope, parent, assets)))
    {
      ghost var us := TuplesOf(scope, parent, assets);
      var args: seq<Arg> := [];
      var values := "";
      for i := 0 to |assets|
        invariant UsableUpTo(assets, i)
        invariant values == ShowAll(ValuesTokens(i)) && args == Args(us[..i])
      {
        var a := assets[i];
        if a.kind == "" || a.value == "" {
          assert a in assets && !Usable(a);
          return None;
        }
        var row := BuildRow(scope, parent, a);
        values := AppendRow(values, i);
        GrowArgs(us, i, row);
        args := args + RowArgs(row);
      }
      assert us[..|assets|] == us;
      AllUsable(assets, |assets|);
      return Some((values, args));
    }

    method UpsertChunk(scope: Uuid, parent: Option<Uuid>, assets: seq<Asset>) returns (ok: bool)
      requires 1 <= |assets| <= CHUNK
      modifies pool
      ensures var o := SendPlanned(pool.pg, old(pool.table), PlanChunk(scope, parent, assets), old(pool.fates));
              pool.Is(o) && ok == o.ok
    {
      var built := BuildStatement(scope, parent, assets);
      if built.None? {
        return false;
      }
      StatementReadBack(TuplesOf(scope, parent, assets));
      ok := pool.ExecInsert(built.value.0, built.value.1);
    }

    method UpsertAssetsBatch(scope: Uuid, parent: Option<Uuid>, assets: seq<Asset>) returns (ok: bool)
      modifies pool
      ensures var o := Attempt(pool.pg, old(pool.table), PlanBatch(scope, parent, assets), old(pool.fates));
              pool.Is(o) && ok == o.ok
    {
      if |assets| == 0 {
        return true;
      }
      var start := 0;
      ghost var o := Attempt(pool.pg, pool.table, PlanBatch(scope, parent, assets), pool.fates);
      assert assets[0..] == assets;
      while start < |assets|
        invariant 0 <= start <= |assets|
        invariant o == Attempt(pool.pg, pool.table, PlanBatch(scope, parent, assets[start..]), pool.fates)
      {
        var end := start + CHUNK;
        if end > |assets| {
          end := |assets|;
        }
        BatchStep(pool.pg, pool.table, scope, parent, assets[start..], assets[start..end], assets[end..], pool.fates);
        var sent := UpsertChunk(scope, parent, assets[start..end]);
        if !sent {
          return false;
        }
        start := end;
      }
      return true;
    }
  }

  /** The first planned write of an attempt. */
  function SendPlanned(pg: Postgres, t: Table, p: Planned, fates: seq<Fate>): Outcome {
    if p.Reject? then Outcome(t, false, fates) else Send1(pg, t, p.st, fates)
  }

  lemma AttemptStep(pg: Postgres, t: Table, p: Planned, plan: seq<Planned>, fates: seq<Fate>)
    ensures var o := SendPlanned(pg, t, p, fates);
            Attempt(pg, t, [p] + plan, fates) == if !o.ok then o else Attempt(pg, o.table, plan, o.fates)
  {
    assert ([p] + plan)[1..] == plan;
  }

  lemma BatchStep(pg: Postgres, t: Table, scope: Uuid, parent: Option<Uuid>,
                  assets: seq<Asset>, first: seq<Asset>, rest: seq<Asset>, fates: seq<Fate>)
    requires assets == first + rest && 1 <= |first| == ChunkEnd(|assets|)
    ensures var o := SendPlanned(pg, t, PlanChunk(scope, parent, first), fates);
            Attempt(pg, t, PlanBatch(scope, parent, assets), fates)
            == if !o.ok then o else Attempt(pg, o.table, PlanBatch(scope, parent, rest), o.fates)
  {
    assert assets[..|first|] == first && assets[|first|..] == rest;
    AttemptStep(pg, t, PlanChunk(scope, parent, first), PlanBatch(scope, parent, rest), fates);
  }

  lemma PlanStep(pg: Postgres, t: Table, job: Job, fates: seq<Fate>)
    ensures var batch := PlanBatch(job.scope, Some(job.assetID), job.newAssets);
            var o := Send1(pg, t, Merge(job.assetID, job.update), fates);
            Attempt(pg, t, Plan(job), fates)
            == if |job.update| == 0 then Attempt(pg, t, batch, fates)
               else if !o.ok then o
               else Attempt(pg, o.table, batch, o.fates)
  {
    var batch := PlanBatch(job.scope, Some(job.assetID), job.newAssets);
    assert [] + batch == batch;
    AttemptStep(pg, t, Send(Merge(job.assetID, job.update)), batch, fates);
  }

  predicate UsableUpTo(assets: seq<Asset>, n: nat)
    requires n <= |assets|
  {
    n == 0 || (UsableUpTo(assets, n - 1) && Usable(assets[n - 1]))
  }

  lemma {:induction false} AllUsable(assets: seq<Asset>, n: nat)
    requires n <= |assets| && UsableUpTo(assets, n)
    ensures forall a :: a in assets[..n] ==> Usable(a)
    ensures n == |assets| ==> forall a :: a in assets ==> Usable(a)
  {
    if n > 0 {
      AllUsable(assets, n - 1);
      assert assets[..n] == assets[..n - 1] + [assets[n - 1]];
    }
    assert assets[..|assets|] == assets;
  }

  lemma GrowText(i: nat)
    ensures ShowAll(ValuesTokens(i + 1))
            == ShowAll(ValuesTokens(i)) + (if i > 0 then "," else "") + ShowAll(TupleTokens(i * PARAMS_PER_ROW + 1))
  {
    CommaAndTuple(ValuesTokens(i), if i > 0 then [Comma] else [], TupleTokens(i * PARAMS_PER_ROW + 1));
  }

  lemma CommaAndTuple(v: seq<Token>, c: seq<Token>, t: seq<Token>)
    requires c == [] || c == [Comma]
    ensures ShowAll(v + c + t) == ShowAll(v) + (if c == [] then "" else ",") + ShowAll(t)
  {
    ShowConcat(v + c, t);
    ShowConcat(v, c);
    ShowOne(Comma);
  }

  lemma GrowArgs(us: seq<Tuple>, i: nat, u: Tuple)
    requires i < |us| && us[i] == u
    ensures Args(us[..i + 1]) == Args(us[..i]) + RowArgs(u)
  {
    assert us[..i + 1][..i] == us[..i];
  }

  /** A chunk's placeholders stay far below what the digit buffer holds. */
  lemma LargeBuffer()
    ensures Pow10(BUFFER) >= CHUNK * PARAMS_PER_ROW + PARAMS_PER_ROW + 1
  {
    assert Pow10(4) == 10000 by { assert Pow10(2) == 100; }
    PowGrows(4, BUFFER);
  }

  lemma {:induction false} PowGrows(a: nat, b: nat)
    requires a <= b
    ensures Pow10(a) <= Pow10(b)
  {
    if a < b {
      PowGrows(a, b - 1);
    }
  }

  // ---- What holds of a job's plan ------------------------------------------------------

  /** The chunks that a batch is cut into. */
  function Chunks(assets: seq<Asset>): seq<seq<Asset>> {
    if assets == [] then []
    else [assets[..ChunkEnd(|assets|)]] + Chunks(assets[ChunkEnd(|assets|)..])
  }

  function Flatten(chunks: seq<seq<Asset>>): seq<Asset> {
    if chunks == [] then [] else chunks[0] + Flatten(chunks[1..])
  }

  /** A chunk of a batch: its planned write, its size and its parameters. */
  ghost predicate ChunkOf(scope: Uuid, parent: Option<Uuid>, c: seq<Asset>, st: Planned, last: bool) {
    && 1 <= |c| <= 500 && (!last ==> |c| == 500)
    && st == PlanChunk(scope, parent, c)
    && |Args(TuplesOf(scope, parent, c))| <= 3000
  }

  lemma FirstChunk(scope: Uuid, parent: Option<Uuid>, assets: seq<Asset>)
    requires assets != []
    ensures var (n, c) := (ChunkEnd(|assets|), assets[..ChunkEnd(|assets|)]);
            ChunkOf(scope, parent, c, PlanChunk(scope, parent, c), n == |assets|)
  {
    var c := assets[..ChunkEnd(|assets|)];
    assert |Args(TuplesOf(scope, parent, c))| == |c| * PARAMS_PER_ROW;
  }

  /** Chunks partition the assets in order, one planned write each, and no
      statement takes more than 3000 parameters. */
  lemma {:induction false} ChunksPartition(scope: Uuid, parent: Option<Uuid>, assets: seq<Asset>)
    ensures Flatten(Chunks(assets)) == assets
    ensures |PlanBatch(scope, parent, assets)| == |Chunks(assets)|
    ensures forall i :: 0 <= i < |Chunks(assets)| ==>
              ChunkOf(scope, parent, Chunks(assets)[i], PlanBatch(scope, parent, assets)[i], i == |Chunks(assets)| - 1)
  {
    if assets != [] {
      var n := ChunkEnd(|assets|);
      ChunksPartition(scope, parent, assets[n..]);
      assert assets[..n] + assets[n..] == assets;
      FirstChunk(scope, parent, assets);
      var (cs, ps) := (Chunks(assets), PlanBatch(scope, parent, assets));
      forall i | 0 <= i < |cs| ensures ChunkOf(scope, parent, cs[i], ps[i], i == |cs| - 1) {
        if i > 0 {
          assert cs[i] == Chunks(assets[n..])[i - 1] && ps[i] == PlanBatch(scope, parent, assets[n..])[i - 1];
        }
      }
    }
  }

  ghost predicate AssetsOver(assets: seq<Asset>, A: iset<Attrs>) {
    forall a :: a in assets ==> AttrsOf(a) in A
  }

  lemma {:induction false} BatchIsGood(A: iset<Attrs>, scope: Uuid, parent: Option<Uuid>, assets: seq<Asset>, id: Uuid)
    requires AssetsOver(assets, A)
    ensures GoodPlan(PlanBatch(scope, parent, assets), id, A)
  {
    if assets != [] {
      var n := ChunkEnd(|assets|);
      BatchIsGood(A, scope, parent, assets[n..], id);
    }
  }

  lemma PlanIsGood(A: iset<Attrs>, job: Job)
    requires AssetsOver(job.newAssets, A)
    ensures GoodPlan(Plan(job), job.assetID, A)
  {
    BatchIsGood(A, job.scope, Some(job.assetID), job.newAssets, job.assetID);
  }

  /** Retrying a job converges: however its attempts are cut off, once one of them
      completes, every row has the attributes, fingerprint and parent that a single
      undisturbed run would have given it, provided that no two of the attribute sets
      that are upserted into the table share a fingerprint. */
  lemma JobRetryConverges(A: iset<Attrs>, job: Job, c: Occasion)
    requires Injective(A) && JobOver(c, job, A)
    ensures Converges(c)
  {
    PlanIsGood(A, job);
    RetryConverges(A, c);
  }

  /** The occasion is one of persisting this job, whose new assets have attributes of
      `A`. Its attempts all write the same result. */
  ghost predicate JobOver(c: Occasion, job: Job, A: iset<Attrs>) {
    Fair(c, A) && c.plan == Plan(job) && c.id == job.assetID && AssetsOver(job.newAssets, A)
  }

  /** And that provision is exact: all jobs over `A` converge, from all tables reached
      over `A`, if and only if no two attribute sets of `A` share a fingerprint. */
  lemma JobsConvergeIff(A: iset<Attrs>)
    requires AllPrintable(A)
    ensures Injective(A) <==> forall job: Job, c: Occasion :: JobOver(c, job, A) ==> Converges(c)
  {
    if Injective(A) {
      forall job: Job, c: Occasion | JobOver(c, job, A) ensures Converges(c) {
        JobRetryConverges(A, job, c);
      }
    } else {
      var a, b :| a in A && b in A && Fingerprint(a) == Fingerprint(b) && a != b;
      var job, c := JobCollision(A, a, b);
    }
  }

  lemma JobCollision(A: iset<Attrs>, a: Attrs, b: Attrs) returns (job: Job, c: Occasion)
    requires AllPrintable(A) && a in A && b in A && Fingerprint(a) == Fingerprint(b) && a != b
    ensures JobOver(c, job, A) && !Converges(c)
  {
    job := Job(0, 0, map[], [Asset("kind", "value", Unset, Some(b))]);
    c := CollisionDiverges(A, Key(0, "kind", "value"), Some(0), a, b);
    OneAssetPlan(job);
  }

  lemma OneAssetPlan(job: Job)
    requires |job.update| == 0 && |job.newAssets| == 1 && Usable(job.newAssets[0])
    ensures Plan(job) == [Send(Upsert([TupleOf(job.scope, Some(job.assetID), job.newAssets[0])]))]
  {
    var assets := job.newAssets;
    assert assets[..1] == assets && assets[1..] == [];
    assert PlanBatch(job.scope, Some(job.assetID), assets) == [PlanChunk(job.scope, Some(job.assetID), assets)];
    assert TuplesOf(job.scope, Some(job.assetID), assets) == [TupleOf(job.scope, Some(job.assetID), assets[0])];
  }

  /** In particular jobs and histories with unambiguous attributes converge. */
  lemma UnambiguousJobsConverge(job: Job, c: Occasion)
    requires JobOver(c, job, FaithfulSets())
    ensures Converges(c)
  {
    FaithfulIsInjective();
    JobRetryConverges(FaithfulSets(), job, c);
  }

  /** An undisturbed attempt completes on every table when the assets are usable
      and no chunk names a key twice. */
  lemma {:induction false} UndisturbedCompletes(pg: Postgres, t: Table, plan: seq<Planned>, fates: seq<Fate>)
    requires forall i :: 0 <= i < |plan| ==>
               plan[i].Send? && (plan[i].st.Upsert? ==> DistinctKeys(plan[i].st.tuples))
    requires |fates| >= |plan| && forall i :: 0 <= i < |fates| ==> fates[i].Ran?
    ensures Attempt(pg, t, plan, fates).ok
    decreases |plan|
  {
    if plan != [] {
      var o := Send1(pg, t, plan[0].st, fates);
      if plan[0].st.Upsert? {
        DistinctAccepted(t, plan[0].st.tuples, fates[0].now, fates[0].ids, {});
      }
      UndisturbedCompletes(pg, o.table, plan[1..], o.fates);
    }
  }

  // ---- What a completed attempt has stored ---------------------------------------------

  /** No two assets of the batch name the same row. */
  ghost predicate DistinctAssets(assets: seq<Asset>) {
    forall i, j :: 0 <= i < j < |assets| ==> assets[i].kind != assets[j].kind || assets[i].value != assets[j].value
  }

  /** Whatever becomes of an attempt, a row that was there keeps its id and parent. */
  lemma {:induction false} RowsStay(pg: Postgres, t: Table, plan: seq<Planned>, fates: seq<Fate>, k: Key)
    requires k in t
    ensures var r := Attempt(pg, t, plan, fates).table; k in r && r[k].id == t[k].id && r[k].parent == t[k].parent
    decreases |plan|
  {
    if plan != [] && plan[0].Send? {
      var o := Send1(pg, t, plan[0].st, fates);
      SendKeepsRow(pg, t, plan[0].st, fates, k);
      RowsStay(pg, o.table, plan[1..], o.fates, k);
    }
  }

  lemma SendKeepsRow(pg: Postgres, t: Table, st: Statement, fates: seq<Fate>, k: Key)
    requires k in t
    ensures var r := Send1(pg, t, st, fates).table; k in r && r[k].id == t[k].id && r[k].parent == t[k].parent
  {
    if fates != [] && !fates[0].Lost? && Exec(pg, t, st, fates[0].now, fates[0].ids).Some? {
      ExecKeepsRows(pg, t, st, fates[0].now, fates[0].ids, k);
    }
  }

  lemma SendLeavesOthers(pg: Postgres, t: Table, us: seq<Tuple>, fates: seq<Fate>, k: Key)
    requires forall u :: u in us ==> u.key != k
    ensures var r := Send1(pg, t, Upsert(us), fates).table; (k in r <==> k in t) && (k in t ==> r[k] == t[k])
  {
    if fates != [] && !fates[0].Lost? && UpsertAll(t, us, fates[0].now, fates[0].ids, {}).Some? {
      UpsertAllKeeps(t, us, fates[0].now, fates[0].ids, {}, k);
    }
  }

  /** The planned write does not touch the row of a key. */
  ghost predicate Spares(p: Planned, k: Key) {
    p.Send? ==> p.st.Upsert? && forall u :: u in p.st.tuples ==> u.key != k
  }

  lemma {:induction false} PlanSpares(pg: Postgres, t: Table, plan: seq<Planned>, fates: seq<Fate>, k: Key)
    requires forall p :: p in plan ==> Spares(p, k)
    ensures var r := Attempt(pg, t, plan, fates).table; (k in r <==> k in t) && (k in t ==> r[k] == t[k])
    decreases |plan|
  {
    if plan != [] && plan[0].Send? {
      assert Spares(plan[0], k);
      SendLeavesOthers(pg, t, plan[0].st.tuples, fates, k);
      var o := Send1(pg, t, plan[0].st, fates);
      PlanSpares(pg, o.table, plan[1..], o.fates, k);
    }
  }

  /** The c-th planned write is an upsert (if it is sent at all) whose i-th tuple is `u`,
      and neither another of its tuples nor another write of the plan has the tuple's key. */
  ghost predicate OnlyAt(plan: seq<Planned>, c: nat, i: nat, u: Tuple)
    requires c < |plan|
  {
    && (forall d :: 0 <= d < |plan| && d != c ==> Spares(plan[d], u.key))
    && (plan[c].Send? ==>
          && plan[c].st.Upsert? && i < |plan[c].st.tuples| && plan[c].st.tuples[i] == u
          && forall j :: 0 <= j < |plan[c].st.tuples| && j != i ==> plan[c].st.tuples[j].key != u.key)
  }

  /** What a completed plan writes at a key that was not in the table. */
  lemma {:induction false} PlanStores(pg: Postgres, t: Table, plan: seq<Planned>, fates: seq<Fate>,
                                      c: nat, i: nat, u: Tuple)
    requires c < |plan| && OnlyAt(plan, c, i, u) && u.key !in t
    requires Attempt(pg, t, plan, fates).ok
    ensures var r := Attempt(pg, t, plan, fates).table;
            && u.key in r && r[u.key].parent == u.parent
            && r[u.key].attrs == u.attrs && r[u.key].fingerprint == u.fingerprint
    decreases |plan|
  {
    var (st, rest) := (plan[0].st, plan[1..]);
    var o := Send1(pg, t, st, fates);
    assert forall d :: 0 <= d < |rest| ==> rest[d] == plan[d + 1];
    if c == 0 {
      UpsertAllWrites(t, st.tuples, fates[0].now, fates[0].ids, {}, i);
      PlanSpares(pg, o.table, rest, o.fates, u.key);
    } else {
      assert Spares(plan[0], u.key);
      SendLeavesOthers(pg, t, st.tuples, fates, u.key);
      PlanStores(pg, o.table, rest, o.fates, c - 1, i, u);
    }
  }

  /** No other asset of the sequence has the kind and value of the i-th. */
  ghost predicate NamedOnce(assets: seq<Asset>, i: nat)
    requires i < |assets|
  {
    forall j :: 0 <= j < |assets| && j != i ==> assets[j].kind != assets[i].kind || assets[j].value != assets[i].value
  }

  /** Where a batch writes an asset that is named once. */
  lemma {:induction false} BatchPlace(scope: Uuid, parent: Option<Uuid>, assets: seq<Asset>, i: nat)
    returns (c: nat, j: nat)
    requires i < |assets| && NamedOnce(assets, i)
    ensures var plan := PlanBatch(scope, parent, assets);
            c < |plan| && OnlyAt(plan, c, j, TupleOf(scope, parent, assets[i]))
    decreases |assets|
  {
    var (n, u) := (ChunkEnd(|assets|), TupleOf(scope, parent, assets[i]));
    var (first, rest) := (assets[..n], assets[n..]);
    if i < n {
      c, j := 0, i;
      NamedOnceInFirst(scope, assets, n, i);
      BatchSpares(scope, parent, rest, u.key);
      PlaceInFirst(scope, parent, first, PlanBatch(scope, parent, rest), i);
    } else {
      NamedOnceInRest(scope, assets, n, i);
      c, j := BatchPlace(scope, parent, rest, i - n);
      PlaceInRest(scope, parent, first, PlanBatch(scope, parent, rest), c, j, u);
      c := c + 1;
    }
  }

  lemma NamedOnceInFirst(scope: Uuid, assets: seq<Asset>, n: nat, i: nat)
    requires i < n <= |assets| && NamedOnce(assets, i)
    ensures NamedOnce(assets[..n], i) && assets[..n][i] == assets[i]
    ensures forall a :: a in assets[n..] ==> Key(scope, a.kind, a.value) != Key(scope, assets[i].kind, assets[i].value)
  {}

  lemma NamedOnceInRest(scope: Uuid, assets: seq<Asset>, n: nat, i: nat)
    requires n <= i < |assets| && NamedOnce(assets, i)
    ensures NamedOnce(assets[n..], i - n) && assets[n..][i - n] == assets[i]
    ensures forall a :: a in assets[..n] ==> Key(scope, a.kind, a.value) != Key(scope, assets[i].kind, assets[i].value)
  {}

  lemma PlaceInFirst(scope: Uuid, parent: Option<Uuid>, first: seq<Asset>, plan: seq<Planned>, i: nat)
    requires i < |first| && NamedOnce(first, i)
    requires forall p :: p in plan ==> Spares(p, Key(scope, first[i].kind, first[i].value))
    ensures OnlyAt([PlanChunk(scope, parent, first)] + plan, 0, i, TupleOf(scope, parent, first[i]))
  {}

  lemma PlaceInRest(scope: Uuid, parent: Option<Uuid>, first: seq<Asset>, plan: seq<Planned>,
                    c: nat, j: nat, u: Tuple)
    requires c < |plan| && OnlyAt(plan, c, j, u)
    requires forall a :: a in first ==> Key(scope, a.kind, a.value) != u.key
    ensures OnlyAt([PlanChunk(scope, parent, first)] + plan, c + 1, j, u)
  {
    assert Spares(PlanChunk(scope, parent, first), u.key);
  }

  lemma {:induction false} BatchSpares(scope: Uuid, parent: Option<Uuid>, assets: seq<Asset>, k: Key)
    requires forall a :: a in assets ==> Key(scope, a.kind, a.value) != k
    ensures forall p :: p in PlanBatch(scope, parent, assets) ==> Spares(p, k)
    decreases |assets|
  {
    if assets != [] {
      var n := ChunkEnd(|assets|);
      BatchSpares(scope, parent, assets[n..], k);
      assert Spares(PlanChunk(scope, parent, assets[..n]), k);
    }
  }

  /** After a completed attempt of a job, each new asset that the job names once and that
      was not in the table has its row, under the parent and with the attributes it
      asked for. */
  lemma NewAssetsAreStored(pg: Postgres, t: Table, job: Job, fates: seq<Fate>, i: nat)
    requires i < |job.newAssets| && NamedOnce(job.newAssets, i)
    requires Attempt(pg, t, Plan(job), fates).ok
    requires Key(job.scope, job.newAssets[i].kind, job.newAssets[i].value) !in t
    ensures var (r, a) := (Attempt(pg, t, Plan(job), fates).table, job.newAssets[i]);
            var k := Key(job.scope, a.kind, a.value);
            && k in r
            && r[k].parent == Some(if a.parentID.Parsed? then a.parentID.id else job.assetID)
            && r[k].attrs == (if a.attrs.Some? then a.attrs.value else map[])
            && r[k].fingerprint == Fingerprint(r[k].attrs)
  {
    PlanStep(pg, t, job, fates);
    var (parent, o) := (Some(job.assetID), Send1(pg, t, Merge(job.assetID, job.update), fates));
    var c, j := BatchPlace(job.scope, parent, job.newAssets, i);
    var (plan, u) := (PlanBatch(job.scope, parent, job.newAssets), TupleOf(job.scope, parent, job.newAssets[i]));
    if |job.update| == 0 {
      PlanStores(pg, t, plan, fates, c, j, u);
    } else {
      PlanStores(pg, o.table, plan, o.fates, c, j, u);
    }
  }

  /** The merge goes first: a crash right behind it leaves the consumed asset enriched
      and nothing else done. */
  lemma MergeGoesFirst(pg: Postgres, t: Table, job: Job, now: Time, ids: NewIds, k: Key)
    requires |job.update| > 0 && k in t
    ensures var r := Attempt(pg, t, Plan(job), [Fate.Ran(now, ids)]).table;
            && r.Keys == t.Keys
            && (t[k].id == job.assetID ==> r[k].attrs == t[k].attrs + job.update && r[k].lastSeen == now)
            && (t[k].id != job.assetID ==> r[k] == t[k])
  {
    PlanStep(pg, t, job, [Fate.Ran(now, ids)]);
    var batch := PlanBatch(job.scope, Some(job.assetID), job.newAssets);
    var o := Send1(pg, t, Merge(job.assetID, job.update), [Fate.Ran(now, ids)]);
    assert o.fates == [];
    OutOfFates(pg, o.table, batch);
  }

  lemma OutOfFates(pg: Postgres, t: Table, plan: seq<Planned>)
    ensures Attempt(pg, t, plan, []).table == t
  {}

  /** An undisturbed attempt completes exactly when every new asset has a kind and a
      value. */
  lemma JobCompletesIff(pg: Postgres, t: Table, job: Job, fates: seq<Fate>)
    requires DistinctAssets(job.newAssets) && |fates| >= |Plan(job)|
    requires forall i :: 0 <= i < |fates| ==> fates[i].Ran?
    ensures Attempt(pg, t, Plan(job), fates).ok <==> forall a :: a in job.newAssets ==> a.kind != "" && a.value != ""
  {
    PlanStep(pg, t, job, fates);
    var (scope, parent) := (job.scope, Some(job.assetID));
    if |job.update| == 0 {
      assert Plan(job) == PlanBatch(scope, parent, job.newAssets);
      BatchCompletesIff(pg, t, scope, parent, job.newAssets, fates);
    } else {
      assert Plan(job)[1..] == PlanBatch(scope, parent, job.newAssets);
      var o := Send1(pg, t, Merge(job.assetID, job.update), fates);
      BatchCompletesIff(pg, o.table, scope, parent, job.newAssets, o.fates);
    }
  }

  lemma {:induction false} BatchCompletesIff(pg: Postgres, t: Table, scope: Uuid, parent: Option<Uuid>,
                                             assets: seq<Asset>, fates: seq<Fate>)
    requires DistinctAssets(assets) && |fates| >= |PlanBatch(scope, parent, assets)|
    requires forall i :: 0 <= i < |fates| ==> fates[i].Ran?
    ensures Attempt(pg, t, PlanBatch(scope, parent, assets), fates).ok <==>
              forall a :: a in assets ==> a.kind != "" && a.value != ""
    decreases |assets|
  {
    if assets != [] {
      var n := ChunkEnd(|assets|);
      var (first, rest) := (assets[..n], assets[n..]);
      assert assets == first + rest;
      assert forall j :: 0 <= j < |rest| ==> rest[j] == assets[n + j];
      BatchStep(pg, t, scope, parent, assets, first, rest, fates);
      ChunkCompletesIff(pg, t, scope, parent, first, fates);
      var o := SendPlanned(pg, t, PlanChunk(scope, parent, first), fates);
      if o.ok {
        BatchCompletesIff(pg, o.table, scope, parent, rest, o.fates);
      }
    }
  }

  lemma ChunkCompletesIff(pg: Postgres, t: Table, scope: Uuid, parent: Option<Uuid>,
                          assets: seq<Asset>, fates: seq<Fate>)
    requires DistinctAssets(assets) && fates != [] && fates[0].Ran?
    ensures var o := SendPlanned(pg, t, PlanChunk(scope, parent, assets), fates);
            && (o.ok <==> forall a :: a in assets ==> a.kind != "" && a.value != "")
            && (o.ok ==> o.fates == fates[1..])
  {
    var us := TuplesOf(scope, parent, assets);
    assert AssetTable.DistinctKeys(us);
    DistinctAccepted(t, us, fates[0].now, fates[0].ids, {});
  }

  /** The parameters of a batch, in order: placeholder 6 i + 1 binds the scope of asset
      i, the next ones its kind, value, parent, attributes and fingerprint. */
  lemma ParametersSpelledOut(scope: Uuid, parent: Option<Uuid>, assets: seq<Asset>, i: nat)
    requires i < |assets|
    ensures var (args, a) := (Args(TuplesOf(scope, parent, assets)), assets[i]);
            var attrs := if a.attrs.Some? then a.attrs.value else map[];
            && |args| == 6 * |assets|
            && args[6 * i] == IdArg(scope) && args[6 * i + 1] == TextArg(a.kind) && args[6 * i + 2] == TextArg(a.value)
            && args[6 * i + 3] == ParentArg(if a.parentID.Parsed? then Some(a.parentID.id) else parent)
            && args[6 * i + 4] == JsonArg(attrs) && args[6 * i + 5] == BytesArg(Fingerprint(attrs))
  {
    var us := TuplesOf(scope, parent, assets);
    assert us[i] == TupleOf(scope, parent, assets[i]);
    SixParameters(us, i);
  }

  lemma SixParameters(us: seq<Tuple>, i: nat)
    requires i < |us|
    ensures var (args, u) := (Args(us), us[i]);
            && |args| == 6 * |us|
            && args[6 * i] == IdArg(u.key.scope) && args[6 * i + 1] == TextArg(u.key.kind)
            && args[6 * i + 2] == TextArg(u.key.value) && args[6 * i + 3] == ParentArg(u.parent)
            && args[6 * i + 4] == JsonArg(u.attrs) && args[6 * i + 5] == BytesArg(u.fingerprint)
  {
    ArgsAt(us, i, 0);
    ArgsAt(us, i, 1);
    ArgsAt(us, i, 2);
    ArgsAt(us, i, 3);
    ArgsAt(us, i, 4);
    ArgsAt(us, i, 5);
  }

  // ---- The worker ------------------------------------------------------------------------

  datatype Fetched = FetchError | Gone | Found

  datatype RunResult = Finished(job: Job) | Failed(fatal: bool)

  /** What River does next: nothing, another attempt, or none ever. */
  datatype WorkOutcome = Done | RetryLater | Cancelled

  class CascadeWorker {
    const writer: AssetWriter
    const phase: string

    constructor (writer: AssetWriter, phase: string)
      ensures this.writer == writer && this.phase == phase
    {
      this.writer := writer;
      this.phase := phase;
    }

    /** Runs the plan of the job from its start, up to the first error. */
    method Persist(job: Job) returns (ok: bool)
      modifies writer.pool
      ensures var o := Attempt(writer.pool.pg, old(writer.pool.table), Plan(job), old(writer.pool.fates));
              writer.pool.Is(o) && ok == o.ok
    {
      PlanStep(writer.pool.pg, writer.pool.table, job, writer.pool.fates);
      if |job.update| > 0 {
        var merged := writer.MergeUpdate(job.assetID, job.update);
        if !merged {
          return false;
        }
      }
      if |job.newAssets| > 0 {
        ok := writer.UpsertAssetsBatch(job.scope, Some(job.assetID), job.newAssets);
        return;
      }
      return true;
    }

    /** The error paths of a job. `fetched` and `run` are what the database and the
        tool answered. Only a fatal tool error ends the job without its result. */
    method Work(jobPhase: string, fetched: Fetched, run: RunResult) returns (w: WorkOutcome)
      modifies writer.pool
      ensures var runs := (phase == "" || jobPhase == phase) && fetched.Found?;
              if runs && run.Finished? then
                var o := Attempt(writer.pool.pg, old(writer.pool.table), Plan(run.job), old(writer.pool.fates));
                writer.pool.Is(o) && w == if o.ok then Done else RetryLater
              else
                && writer.pool.table == old(writer.pool.table) && writer.pool.fates == old(writer.pool.fates)
                && (w == Done <==> (phase == "" || jobPhase == phase) && fetched.Gone?)
                && (w == Cancelled <==> runs && run.fatal)
    {
      if phase != "" && jobPhase != phase {
        return RetryLater;
      }
      if fetched.FetchError? {
        return RetryLater;
      }
      if fetched.Gone? {
        return Done;
      }
      if run.Failed? {
        if run.fatal {
          return Cancelled;
        }
        return RetryLater;
      }
      var ok := Persist(run.job);
      if !ok {
        return RetryLater;
      }
      return Done;
    }
  }
}
