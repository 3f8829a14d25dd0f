/** What retrying `persist` (worker/river_adapter.go:166-191) does to the table.
    An attempt runs the planned statements in order and may be cut off at any of
    them; attempts are repeated from the start until one completes.
 */
module RetryModel {
  import opened Sequences
  import opened Wrappers
  import opened Values
  import opened AttrsEncoding
  import opened AssetTable

  /** What becomes of a statement that is sent: it runs and the worker hears of
      it, it never runs, or it runs but the worker sees an error. */
  datatype Fate =
    | Ran(now: Time, ids: NewIds)
    | Lost
    | Unacknowledged(now: Time, ids: NewIds)

  /** A planned write. A chunk with an unusable asset fails before it is sent. */
  datatype Planned = Send(st: Statement) | Reject

  datatype Outcome = Outcome(table: Table, ok: bool, fates: seq<Fate>)

  /** One attempt. A worker that crashes hears nothing more: when the fates run
      out, so does the attempt. */
  function Attempt(pg: Postgres, t: Table, plan: seq<Planned>, fates: seq<Fate>): Outcome
    decreases |plan|
  {
    if plan == [] then Outcome(t, true, fates)
    else if plan[0].Reject? then Outcome(t, false, fates)
    else
      var r := Send1(pg, t, plan[0].st, fates);
      if !r.ok then r else Attempt(pg, r.table, plan[1..], r.fates)
  }

  /** Sending one statement. */
  function Send1(pg: Postgres, t: Table, st: Statement, fates: seq<Fate>): Outcome {
    if fates == [] then Outcome(t, false, [])
    else if fates[0].Lost? then Outcome(t, false, fates[1..])
    else
      var r := Exec(pg, t, st, fates[0].now, fates[0].ids);
      if r.None? then Outcome(t, false, fates[1..])
      else Outcome(r.value, fates[0].Ran?, fates[1..])
  }

  function Attempts(pg: Postgres, t: Table, plan: seq<Planned>, runs: seq<seq<Fate>>): Table
    decreases |runs|
  {
    if runs == [] then t
    else Attempts(pg, Attempt(pg, t, plan, runs[0]).table, plan, runs[1..])
  }

  // ---- The part of a row that must converge ----------------------------------------

  /** A row without its id and time; `target` tells whether it is the row of the
      consumed asset. */
  datatype Core = Core(attrs: Attrs, fingerprint: Digest, parent: Option<Uuid>, target: bool)

  function CoreOf(t: Table, id: Uuid, k: Key): Option<Core> {
    if k in t then Some(Core(t[k].attrs, t[k].fingerprint, t[k].parent, t[k].id == id)) else None
  }

  /** What one planned write means for one key, free of guards and clocks. */
  datatype Act = MergeAct(delta: Attrs) | UpsertAct(attrs: Attrs, fingerprint: Digest, parent: Option<Uuid>)

  function Apply(pg: Postgres, c: Option<Core>, act: Act): Option<Core> {
    match act
    case MergeAct(delta) =>
      if c.None? || !c.value.target then c
      else Some(c.value.(attrs := c.value.attrs + delta, fingerprint := ServerDigest(pg, c.value.attrs + delta)))
    case UpsertAct(attrs, fp, parent) =>
      if c.None? then Some(Core(attrs, fp, parent, false))
      else Some(c.value.(attrs := c.value.attrs + attrs, fingerprint := fp))
  }

  function ApplyAll(pg: Postgres, c: Option<Core>, acts: seq<Act>): Option<Core>
    decreases |acts|
  {
    if acts == [] then c else ApplyAll(pg, Apply(pg, c, acts[0]), acts[1..])
  }

  /** The acts of a tuple list on one key. */
  function TupleActs(us: seq<Tuple>, k: Key): seq<Act> {
    if us == [] then []
    else (if us[0].key == k then [UpsertAct(us[0].attrs, us[0].fingerprint, us[0].parent)] else [])
         + TupleActs(us[1..], k)
  }

  function StatementActs(st: Statement, k: Key): seq<Act> {
    match st
    case Merge(_, delta) => [MergeAct(delta)]
    case Upsert(us) => TupleActs(us, k)
  }

  function PlanActs(plan: seq<Planned>, k: Key): seq<Act> {
    if plan == [] then []
    else (if plan[0].Send? then StatementActs(plan[0].st, k) else []) + PlanActs(plan[1..], k)
  }

  lemma {:induction false} ApplyConcat(pg: Postgres, c: Option<Core>, p: seq<Act>, q: seq<Act>)
    ensures ApplyAll(pg, c, p + q) == ApplyAll(pg, ApplyAll(pg, c, p), q)
    decreases |p|
  {
    if p == [] {
      assert p + q == q;
    } else {
      assert (p + q)[1..] == p[1..] + q;
      ApplyConcat(pg, Apply(pg, c, p[0]), p[1..], q);
    }
  }

  // ---- Doing the same writes twice changes nothing -----------------------------------

  function Effective(act: Act, target: bool): bool {
    act.UpsertAct? || target
  }

  /** All that the acts write, right-most value first. */
  function Sum(acts: seq<Act>, target: bool): Attrs {
    if acts == [] then map[]
    else (if !Effective(acts[0], target) then map[]
          else if acts[0].MergeAct? then acts[0].delta else acts[0].attrs) + Sum(acts[1..], target)
  }

  function LastEffective(acts: seq<Act>, target: bool): Option<Act> {
    if acts == [] then None
    else
      var r := LastEffective(acts[1..], target);
      if r.Some? then r else if Effective(acts[0], target) then Some(acts[0]) else None
  }

  /** The closed form of applying acts to an existing row. */
  lemma {:induction false} ClosedForm(pg: Postgres, c: Core, acts: seq<Act>)
    ensures var r := ApplyAll(pg, Some(c), acts);
            var last := LastEffective(acts, c.target);
            && r.Some? && r.value.target == c.target && r.value.parent == c.parent
            && r.value.attrs == c.attrs + Sum(acts, c.target)
            && (last.None? ==> r.value == c)
            && (last.Some? && last.value.UpsertAct? ==> r.value.fingerprint == last.value.fingerprint)
            && (last.Some? && last.value.MergeAct? ==> r.value.fingerprint == ServerDigest(pg, r.value.attrs))
    decreases |acts|
  {
    if acts != [] {
      var c' := Apply(pg, Some(c), acts[0]).value;
      ClosedForm(pg, c', acts[1..]);
      var (a, rest) := (acts[0], Sum(acts[1..], c.target));
      var d := if !Effective(a, c.target) then map[] else if a.MergeAct? then a.delta else a.attrs;
      MergeRegroup(c.attrs, d, rest);
      assert c'.attrs == c.attrs + d;
    }
  }

  lemma MergeRegroup(x: Attrs, d: Attrs, s: Attrs)
    ensures (x + d) + s == x + (d + s) && x + map[] == x
  {}

  lemma RepeatOnRow(pg: Postgres, c: Core, acts: seq<Act>)
    ensures var r := ApplyAll(pg, Some(c), acts);
            ApplyAll(pg, r, acts) == r
  {
    ClosedForm(pg, c, acts);
    var r := ApplyAll(pg, Some(c), acts).value;
    ClosedForm(pg, r, acts);
    MergeAbsorbs(c.attrs, Sum(acts, c.target));
  }

  /** A row that the acts insert ends up as if an empty row had been there. */
  lemma {:induction false} InsertAsEmpty(pg: Postgres, acts: seq<Act>)
    ensures var r := ApplyAll(pg, None, acts);
            r.None? || exists c: Core :: r == ApplyAll(pg, Some(c), acts)
  {
    if acts != [] {
      if acts[0].MergeAct? {
        InsertAsEmpty(pg, acts[1..]);
        if ApplyAll(pg, None, acts).Some? {
          var c :| ApplyAll(pg, None, acts[1..]) == ApplyAll(pg, Some(c), acts[1..]);
          NonTarget(pg, None, acts);
          ClosedForm(pg, c, acts[1..]);
          assert Apply(pg, Some(c), acts[0]) == Some(c);
          assert ApplyAll(pg, None, acts) == ApplyAll(pg, Some(c), acts);
        }
      } else {
        var u := acts[0];
        var c := Core(map[], u.fingerprint, u.parent, false);
        assert c.attrs + u.attrs == u.attrs;
        assert Apply(pg, Some(c), u) == Apply(pg, None, u);
        assert ApplyAll(pg, None, acts) == ApplyAll(pg, Some(c), acts);
      }
    }
  }

  /** Inserted rows are not the consumed asset's. */
  lemma {:induction false} NonTarget(pg: Postgres, c: Option<Core>, acts: seq<Act>)
    requires c.Some? ==> !c.value.target
    ensures var r := ApplyAll(pg, c, acts); r.Some? ==> !r.value.target
    decreases |acts|
  {
    if acts != [] {
      NonTarget(pg, Apply(pg, c, acts[0]), acts[1..]);
    }
  }

  lemma RepeatChangesNothing(pg: Postgres, c: Option<Core>, acts: seq<Act>)
    ensures var r := ApplyAll(pg, c, acts);
            ApplyAll(pg, r, acts) == r
  {
    if c.Some? {
      RepeatOnRow(pg, c.value, acts);
    } else {
      InsertAsEmpty(pg, acts);
      if ApplyAll(pg, None, acts).Some? {
        var e :| ApplyAll(pg, None, acts) == ApplyAll(pg, Some(e), acts);
        RepeatOnRow(pg, e, acts);
      }
    }
  }

  /** A cut-off run in front of a full one leaves no trace. */
  lemma PrefixLeavesNoTrace(pg: Postgres, c: Option<Core>, p: seq<Act>, q: seq<Act>)
    ensures ApplyAll(pg, ApplyAll(pg, c, p), p + q) == ApplyAll(pg, c, p + q)
  {
    ApplyConcat(pg, ApplyAll(pg, c, p), p, q);
    ApplyConcat(pg, c, p, q);
    RepeatChangesNothing(pg, c, p);
  }

  // ---- Guarded statements act like unguarded ones --------------------------------------

  /** The worker's plan: what it upserts has attributes of `A` and their fingerprint,
      and what it merges goes to the consumed asset. */
  ghost predicate GoodPlan(plan: seq<Planned>, id: Uuid, A: iset<Attrs>) {
    forall i :: 0 <= i < |plan| && plan[i].Send? ==>
      StatementOver(plan[i].st, A) && (plan[i].st.Merge? ==> plan[i].st.id == id)
  }

  /** Rows that are inserted get ids of their own. */
  ghost predicate FreshIds(fates: seq<Fate>, id: Uuid) {
    forall i, k :: 0 <= i < |fates| && !fates[i].Lost? ==> fates[i].ids(k) != id
  }

  lemma UpsertTupleActs(A: iset<Attrs>, pg: Postgres, t: Table, u: Tuple, now: Time, newId: Uuid, id: Uuid, k: Key)
    requires GuardSafe(t, A) && TupleOver(u, A) && newId != id
    ensures CoreOf(UpsertTuple(t, u, now, newId), id, k)
            == if u.key == k then Apply(pg, CoreOf(t, id, k), UpsertAct(u.attrs, u.fingerprint, u.parent))
               else CoreOf(t, id, k)
  {}

  lemma {:induction false} UpsertAllActs(A: iset<Attrs>, pg: Postgres, t: Table, us: seq<Tuple>, now: Time, ids: NewIds,
                                         affected: set<Key>, id: Uuid, k: Key)
    requires Injective(A) && GuardSafe(t, A) && (forall u :: u in us ==> TupleOver(u, A)) && forall j :: ids(j) != id
    ensures var r := UpsertAll(t, us, now, ids, affected);
            r.Some? ==> CoreOf(r.value, id, k) == ApplyAll(pg, CoreOf(t, id, k), TupleActs(us, k))
    decreases |us|
  {
    if us != [] && us[0].key !in affected {
      var (u, newId) := (us[0], ids(us[0].key));
      var t' := UpsertTuple(t, u, now, newId);
      UpsertKeepsGuardSafe(A, t, u, now, newId);
      UpsertTupleActs(A, pg, t, u, now, newId, id, k);
      UpsertAllActs(A, pg, t', us[1..], now, ids, if Affects(t, u, now) then affected + {u.key} else affected, id, k);
      var first := if u.key == k then [UpsertAct(u.attrs, u.fingerprint, u.parent)] else [];
      OneOrNone(pg, CoreOf(t, id, k), first);
      ApplyConcat(pg, CoreOf(t, id, k), first, TupleActs(us[1..], k));
    }
  }

  lemma OneOrNone(pg: Postgres, c: Option<Core>, acts: seq<Act>)
    requires |acts| <= 1
    ensures ApplyAll(pg, c, acts) == if acts == [] then c else Apply(pg, c, acts[0])
  {}

  lemma ExecActs(A: iset<Attrs>, pg: Postgres, t: Table, st: Statement, now: Time, ids: NewIds, id: Uuid, k: Key)
    requires Injective(A) && GuardSafe(t, A) && StatementOver(st, A)
    requires (st.Merge? ==> st.id == id) && forall j :: ids(j) != id
    ensures var r := Exec(pg, t, st, now, ids);
            r.Some? ==> CoreOf(r.value, id, k) == ApplyAll(pg, CoreOf(t, id, k), StatementActs(st, k))
  {
    match st
    case Merge(_, delta) => OneOrNone(pg, CoreOf(t, id, k), [MergeAct(delta)]);
    case Upsert(us) => UpsertAllActs(A, pg, t, us, now, ids, {}, id, k);
  }

  // ---- Every attempt runs a prefix of the plan -----------------------------------------

  ghost predicate RanPrefix(pg: Postgres, t: Table, t': Table, plan: seq<Planned>, n: nat, id: Uuid)
    requires n <= |plan|
  {
    forall k :: CoreOf(t', id, k) == ApplyAll(pg, CoreOf(t, id, k), PlanActs(plan[..n], k))
  }

  lemma {:induction false} AttemptRunsPrefix(A: iset<Attrs>, pg: Postgres, t: Table, plan: seq<Planned>,
                                              fates: seq<Fate>, id: Uuid)
    returns (n: nat)
    requires Injective(A) && PrintsObjects(pg) && GuardSafe(t, A) && GoodPlan(plan, id, A) && FreshIds(fates, id)
    ensures var r := Attempt(pg, t, plan, fates);
            && n <= |plan| && (r.ok ==> n == |plan|)
            && GuardSafe(r.table, A) && RanPrefix(pg, t, r.table, plan, n, id)
    decreases |plan|
  {
    n := 0;
    assert plan[..0] == [];
    if plan != [] && plan[0].Send? {
      var st := plan[0].st;
      var r := Send1(pg, t, st, fates);
      SendActs(A, pg, t, st, fates, id);
      if r.ok {
        var m := AttemptRunsPrefix(A, pg, r.table, plan[1..], r.fates, id);
        n := m + 1;
        var end := Attempt(pg, r.table, plan[1..], r.fates).table;
        forall k ensures CoreOf(end, id, k) == ApplyAll(pg, CoreOf(t, id, k), PlanActs(plan[..n], k)) {
          assert plan[..n][1..] == plan[1..][..m];
          ApplyConcat(pg, CoreOf(t, id, k), StatementActs(st, k), PlanActs(plan[1..][..m], k));
        }
      } else if WasRun(pg, t, st, fates) {
        n := 1;
        forall k ensures PlanActs(plan[..1], k) == StatementActs(st, k) {
          assert plan[..1][1..] == [];
        }
      }
    }
  }

  /** Whether sending the statement changed the table. */
  predicate WasRun(pg: Postgres, t: Table, st: Statement, fates: seq<Fate>) {
    fates != [] && !fates[0].Lost? && Exec(pg, t, st, fates[0].now, fates[0].ids).Some?
  }

  lemma SendActs(A: iset<Attrs>, pg: Postgres, t: Table, st: Statement, fates: seq<Fate>, id: Uuid)
    requires Injective(A) && PrintsObjects(pg) && GuardSafe(t, A) && StatementOver(st, A) && FreshIds(fates, id)
    requires st.Merge? ==> st.id == id
    ensures var r := Send1(pg, t, st, fates);
            && GuardSafe(r.table, A) && FreshIds(r.fates, id)
            && (r.ok ==> WasRun(pg, t, st, fates))
            && (!WasRun(pg, t, st, fates) ==> r.table == t)
            && (WasRun(pg, t, st, fates) ==>
                  forall k :: CoreOf(r.table, id, k) == ApplyAll(pg, CoreOf(t, id, k), StatementActs(st, k)))
  {
    if WasRun(pg, t, st, fates) {
      ExecKeepsGuardSafe(A, pg, t, st, fates[0].now, fates[0].ids);
      forall k
        ensures CoreOf(Send1(pg, t, st, fates).table, id, k)
                == ApplyAll(pg, CoreOf(t, id, k), StatementActs(st, k))
      {
        ExecActs(A, pg, t, st, fates[0].now, fates[0].ids, id, k);
      }
    }
  }

  // ---- How an attempt can be cut off ------------------------------------------------

  /** A crash after any number of statements leaves just what those statements did. */
  lemma {:induction false} CrashLeavesPrefix(pg: Postgres, t: Table, plan: seq<Planned>, fates: seq<Fate>, n: nat)
    requires n < |plan| && n == |fates| && Attempt(pg, t, plan[..n], fates).ok
    ensures Attempt(pg, t, plan, fates).table == Attempt(pg, t, plan[..n], fates).table
    ensures !Attempt(pg, t, plan, fates).ok
    decreases n
  {
    if n > 0 {
      assert plan[..n][1..] == plan[1..][..n - 1];
      var o := Send1(pg, t, plan[0].st, fates);
      CrashLeavesPrefix(pg, o.table, plan[1..], o.fates, n - 1);
    }
  }

  /** And the last of them may have run without the worker hearing of it. */
  lemma UnheardRunsToo(pg: Postgres, t: Table, st: Statement, now: Time, ids: NewIds, fates: seq<Fate>)
    ensures var (heard, unheard, lost) := (Send1(pg, t, st, [Fate.Ran(now, ids)] + fates),
                                           Send1(pg, t, st, [Unacknowledged(now, ids)] + fates),
                                           Send1(pg, t, st, [Lost] + fates));
            && unheard.table == heard.table && !unheard.ok
            && lost.table == t && !lost.ok
            && (heard.ok <==> Exec(pg, t, st, now, ids).Some?)
            && (heard.ok ==> heard.table == Exec(pg, t, st, now, ids).value)
  {}

  // ---- Convergence --------------------------------------------------------------------

  /** What a full run of the plan makes of a key, without guards, clocks or faults. */
  function Ideal(pg: Postgres, t: Table, plan: seq<Planned>, id: Uuid, k: Key): Option<Core> {
    ApplyAll(pg, CoreOf(t, id, k), PlanActs(plan, k))
  }

  /** Cut-off attempts do not change what a full run leads to. */
  lemma {:induction false} AttemptsKeepIdeal(A: iset<Attrs>, pg: Postgres, t: Table, plan: seq<Planned>,
                                              runs: seq<seq<Fate>>, id: Uuid)
    requires Injective(A) && PrintsObjects(pg) && GuardSafe(t, A) && GoodPlan(plan, id, A)
    requires forall i :: 0 <= i < |runs| ==> FreshIds(runs[i], id)
    ensures var t' := Attempts(pg, t, plan, runs);
            GuardSafe(t', A) && forall k :: Ideal(pg, t', plan, id, k) == Ideal(pg, t, plan, id, k)
    decreases |runs|
  {
    if runs != [] {
      var t1 := Attempt(pg, t, plan, runs[0]).table;
      var n := AttemptRunsPrefix(A, pg, t, plan, runs[0], id);
      forall k ensures Ideal(pg, t1, plan, id, k) == Ideal(pg, t, plan, id, k) {
        PlanActsSplit(plan, n, k);
        PrefixLeavesNoTrace(pg, CoreOf(t, id, k), PlanActs(plan[..n], k), PlanActs(plan[n..], k));
      }
      AttemptsKeepIdeal(A, pg, t1, plan, runs[1..], id);
    }
  }

  lemma {:induction false} PlanActsSplit(plan: seq<Planned>, n: nat, k: Key)
    requires n <= |plan|
    ensures PlanActs(plan, k) == PlanActs(plan[..n], k) + PlanActs(plan[n..], k)
    decreases n
  {
    if n == 0 {
      assert plan[..0] == [] && plan[0..] == plan;
    } else {
      PlanActsSplit(plan[1..], n - 1, k);
      assert plan[..n][1..] == plan[1..][..n - 1] && plan[1..][n - 1..] == plan[n..];
      Regroup(if plan[0].Send? then StatementActs(plan[0].st, k) else [],
              PlanActs(plan[1..][..n - 1], k), PlanActs(plan[n..], k));
    }
  }

  /** An occasion for convergence: a history, a plan for asset `id`, and what became
      of its attempts, next to an undisturbed run. */
  datatype Occasion = Occasion(pg: Postgres, h: seq<Executed>, plan: seq<Planned>, id: Uuid,
                               cutOff: seq<seq<Fate>>, final: seq<Fate>, undisturbed: seq<Fate>)

  /** The last attempt and the undisturbed run both complete; only attributes of `A`
      were ever upserted before. */
  ghost predicate Fair(c: Occasion, A: iset<Attrs>) {
    && PrintsObjects(c.pg) && (forall x :: x in c.h ==> StatementOver(x.st, A))
    && (forall i :: 0 <= i < |c.cutOff| ==> FreshIds(c.cutOff[i], c.id))
    && FreshIds(c.final, c.id) && FreshIds(c.undisturbed, c.id)
    && Retried(c).ok && Undisturbed(c).ok
  }

  function Retried(c: Occasion): Outcome {
    Attempt(c.pg, Attempts(c.pg, TableAfter(c.pg, c.h), c.plan, c.cutOff), c.plan, c.final)
  }

  function Undisturbed(c: Occasion): Outcome {
    Attempt(c.pg, TableAfter(c.pg, c.h), c.plan, c.undisturbed)
  }

  /** Both tables have the row, with the same attributes, fingerprint and parent, or
      neither has it. */
  predicate SameRow(r: Table, u: Table, k: Key) {
    (k in r <==> k in u)
    && (k in r ==> r[k].attrs == u[k].attrs && r[k].fingerprint == u[k].fingerprint && r[k].parent == u[k].parent)
  }

  ghost predicate Converges(c: Occasion) {
    forall k :: SameRow(Retried(c).table, Undisturbed(c).table, k)
  }

  /** Retry convergence. Starting from any table that upserts and merges can lead
      to, any number of attempts, each cut off anywhere and at any times, followed
      by one that completes, leave every row with the attributes, fingerprint and
      parent that one undisturbed run gives it. */
  lemma RetryConverges(A: iset<Attrs>, c: Occasion)
    requires Injective(A) && Fair(c, A) && GoodPlan(c.plan, c.id, A)
    ensures Converges(c)
    ensures forall k ::
              CoreOf(Undisturbed(c).table, c.id, k) == Ideal(c.pg, TableAfter(c.pg, c.h), c.plan, c.id, k)
  {
    var t := TableAfter(c.pg, c.h);
    var t' := Attempts(c.pg, t, c.plan, c.cutOff);
    ReachableIsGuardSafe(A, c.pg, c.h);
    AttemptsKeepIdeal(A, c.pg, t, c.plan, c.cutOff, c.id);
    CompleteIsIdeal(A, c.pg, t', c.plan, c.final, c.id);
    CompleteIsIdeal(A, c.pg, t, c.plan, c.undisturbed, c.id);
    forall k ensures SameRow(Retried(c).table, Undisturbed(c).table, k) {
      assert Ideal(c.pg, t', c.plan, c.id, k) == Ideal(c.pg, t, c.plan, c.id, k);
      assert CoreOf(Retried(c).table, c.id, k) == CoreOf(Undisturbed(c).table, c.id, k);
    }
  }

  /** An attempt that completes leads to the ideal result. */
  lemma CompleteIsIdeal(A: iset<Attrs>, pg: Postgres, t: Table, plan: seq<Planned>, fates: seq<Fate>, id: Uuid)
    requires Injective(A) && PrintsObjects(pg) && GuardSafe(t, A) && GoodPlan(plan, id, A) && FreshIds(fates, id)
    requires Attempt(pg, t, plan, fates).ok
    ensures forall k :: CoreOf(Attempt(pg, t, plan, fates).table, id, k) == Ideal(pg, t, plan, id, k)
  {
    var n := AttemptRunsPrefix(A, pg, t, plan, fates, id);
    assert plan[..|plan|] == plan;
  }

  /** The exact condition: every plan over `A` converges from every table reached over
      `A` if and only if no two attribute sets of `A` share a fingerprint. */
  lemma ConvergesIff(A: iset<Attrs>)
    requires AllPrintable(A)
    ensures Injective(A) <==> forall c: Occasion :: Fair(c, A) && GoodPlan(c.plan, c.id, A) ==> Converges(c)
  {
    if Injective(A) {
      forall c: Occasion | Fair(c, A) && GoodPlan(c.plan, c.id, A) ensures Converges(c) {
        RetryConverges(A, c);
      }
    } else {
      var a, b :| a in A && b in A && Fingerprint(a) == Fingerprint(b) && a != b;
      var c := CollisionDiverges(A, Key(0, "kind", "value"), None, a, b);
    }
  }

  /** Two attribute sets that share a fingerprint give an occasion that diverges. */
  lemma CollisionDiverges(A: iset<Attrs>, k: Key, parent: Option<Uuid>, a: Attrs, b: Attrs) returns (c: Occasion)
    requires AllPrintable(A) && a in A && b in A && Fingerprint(a) == Fingerprint(b) && a != b
    ensures c.plan == [Send(Upsert([Tuple(k, parent, b, Fingerprint(b))]))] && c.id == 0
    ensures Fair(c, A) && GoodPlan(c.plan, c.id, A) && !Converges(c)
  {
    SharedFingerprintSharesKeys(a, b);
    c := TupleDiverges(A, Tuple(k, None, a, Fingerprint(a)), Tuple(k, parent, b, Fingerprint(b)));
  }

  /** The one tuple is inserted at time 0, and the other upserted a minute later, or
      a nanosecond after that. */
  function Collision(first: Tuple, second: Tuple): Occasion {
    var ids := _ => 1;
    Occasion(Postgres(_ => "{"), [Executed(Upsert([first]), 0, ids)], [Send(Upsert([second]))], 0,
             [], [Fate.Ran(MINUTE, ids)], [Fate.Ran(MINUTE + 1, ids)])
  }

  lemma TupleDiverges(A: iset<Attrs>, first: Tuple, second: Tuple) returns (c: Occasion)
    requires TupleOver(first, A) && TupleOver(second, A) && first.key == second.key
    requires first.fingerprint == second.fingerprint
    requires first.attrs.Keys == second.attrs.Keys && first.attrs != second.attrs
    ensures c.plan == [Send(Upsert([second]))] && c.id == 0
    ensures Fair(c, A) && GoodPlan(c.plan, c.id, A) && !Converges(c)
  {
    c := Collision(first, second);
    CollisionEnds(c, first, second);
    CollisionIsFair(A, c, first, second);
    assert !SameRow(Retried(c).table, Undisturbed(c).table, first.key);
  }

  lemma CollisionIsFair(A: iset<Attrs>, c: Occasion, first: Tuple, second: Tuple)
    requires c == Collision(first, second) && TupleOver(first, A) && TupleOver(second, A)
    requires Retried(c).ok && Undisturbed(c).ok
    ensures Fair(c, A) && GoodPlan(c.plan, c.id, A)
  {
    OneStatementOver(A, first, 0, c.h[0].ids);
  }

  lemma CollisionEnds(c: Occasion, first: Tuple, second: Tuple)
    requires c == Collision(first, second) && first.key == second.key
    requires first.fingerprint == second.fingerprint && first.attrs.Keys == second.attrs.Keys
    ensures var (r, u, k) := (Retried(c), Undisturbed(c), first.key);
            && r.ok && u.ok && k in r.table && k in u.table
            && r.table[k].attrs == first.attrs && u.table[k].attrs == second.attrs
  {
    var ids := c.h[0].ids;
    OneInsert(c.pg, first, 0, ids);
    SharedFingerprintDiverges(c.pg, first.key, Row(1, first.attrs, first.fingerprint, 0, first.parent), second, ids);
  }

  /** A plan that upserts other attributes with the fingerprint of the row ends
      differently when it runs within the guard's minute and when it runs later. */
  lemma SharedFingerprintDiverges(pg: Postgres, k: Key, r: Row, u: Tuple, ids: NewIds)
    requires u.key == k && u.fingerprint == r.fingerprint && u.attrs.Keys == r.attrs.Keys && r.lastSeen == 0
    ensures var (t, plan) := (map[k := r], [Send(Upsert([u]))]);
            var (soon, late) := (Attempt(pg, t, plan, [Fate.Ran(MINUTE, ids)]),
                                 Attempt(pg, t, plan, [Fate.Ran(MINUTE + 1, ids)]));
            && soon.ok && late.ok && k in soon.table && k in late.table
            && soon.table[k].attrs == r.attrs && late.table[k].attrs == u.attrs
  {
    var t: Table := map[k := r];
    assert r.attrs + u.attrs == u.attrs;
    assert UpsertTuple(t, u, MINUTE, ids(k)) == t;
    assert UpsertTuple(t, u, MINUTE + 1, ids(k))[k].attrs == u.attrs;
    OneUpsert(pg, t, u, MINUTE, ids);
    OneUpsert(pg, t, u, MINUTE + 1, ids);
  }

  lemma OneUpsert(pg: Postgres, t: Table, u: Tuple, now: Time, ids: NewIds)
    ensures Attempt(pg, t, [Send(Upsert([u]))], [Fate.Ran(now, ids)])
            == Outcome(UpsertTuple(t, u, now, ids(u.key)), true, [])
  {
    assert [u][1..] == [];
    assert UpsertAll(t, [u], now, ids, {}) == Some(UpsertTuple(t, u, now, ids(u.key)));
    assert [Send(Upsert([u]))][1..] == [];
  }
}
