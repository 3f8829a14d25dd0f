/** The assets table and the statements of worker/asset_writer.go as steps on it.
    A table is a map from the unique key (scope, kind, value) to a row; each
    statement is atomic and reads the clock once.
 */
module AssetTable {
  import opened Wrappers
  import Json
  import opened Values
  import opened AttrsEncoding
  import Utf8

  type Uuid = nat
  type Time = int

  const MINUTE: Time := 60_000_000_000

  datatype Key = Key(scope: Uuid, kind: string, value: string)

  datatype Row = Row(id: Uuid, attrs: Attrs, fingerprint: Digest, lastSeen: Time, parent: Option<Uuid>)

  type Table = map<Key, Row>

  /** One row of a VALUES list: what EXCLUDED holds. */
  datatype Tuple = Tuple(key: Key, parent: Option<Uuid>, attrs: Attrs, fingerprint: Digest)

  /** What is assumed of PostgreSQL: how it prints a jsonb object. */
  datatype Postgres = Postgres(jsonbText: Attrs -> string)

  ghost predicate PrintsObjects(pg: Postgres) {
    forall a :: pg.jsonbText(a) != "" && pg.jsonbText(a)[0] == '{'
  }

  /** digest(attrs::text, 'sha256'). */
  function ServerDigest(pg: Postgres, attrs: Attrs): Digest {
    Sha256(Utf8.Encode(pg.jsonbText(attrs)))
  }

  /** The ids a statement gives to the rows it inserts. */
  type NewIds = Key -> Uuid

  // ---- Statements ---------------------------------------------------------------

  datatype Statement =
    | Merge(id: Uuid, delta: Attrs)
    | Upsert(tuples: seq<Tuple>)

  /** The WHERE clause of the conflict action. */
  predicate Guard(r: Row, u: Tuple, now: Time) {
    r.fingerprint != u.fingerprint || r.lastSeen < now - MINUTE
  }

  /** Whether the tuple inserts or updates its row. */
  predicate Affects(t: Table, u: Tuple, now: Time) {
    u.key !in t || Guard(t[u.key], u, now)
  }

  function UpsertTuple(t: Table, u: Tuple, now: Time, newId: Uuid): Table {
    if u.key !in t then
      t[u.key := Row(newId, u.attrs, u.fingerprint, now, u.parent)]
    else if Guard(t[u.key], u, now) then
      var r := t[u.key];
      t[u.key := r.(attrs := r.attrs + u.attrs, fingerprint := u.fingerprint, lastSeen := now)]
    else t
  }

  /** INSERT ... ON CONFLICT DO UPDATE, tuple by tuple. PostgreSQL refuses to
      affect one row twice in a statement; the statement then has no effect. */
  function UpsertAll(t: Table, us: seq<Tuple>, now: Time, ids: NewIds, affected: set<Key>): Option<Table>
    decreases |us|
  {
    if us == [] then Some(t)
    else if us[0].key in affected then None
    else
      UpsertAll(UpsertTuple(t, us[0], now, ids(us[0].key)), us[1..], now, ids,
                if Affects(t, us[0], now) then affected + {us[0].key} else affected)
  }

  function MergeRow(pg: Postgres, r: Row, delta: Attrs, now: Time): Row {
    r.(attrs := r.attrs + delta, lastSeen := now, fingerprint := ServerDigest(pg, r.attrs + delta))
  }

  function MergeById(pg: Postgres, t: Table, id: Uuid, delta: Attrs, now: Time): Table {
    map k | k in t :: if t[k].id == id then MergeRow(pg, t[k], delta, now) else t[k]
  }

  function Exec(pg: Postgres, t: Table, st: Statement, now: Time, ids: NewIds): Option<Table> {
    match st
    case Merge(id, delta) => Some(MergeById(pg, t, id, delta, now))
    case Upsert(us) => UpsertAll(t, us, now, ids, {})
  }

  // ---- The fingerprint guard drops no change --------------------------------------

  /** If a row carries the fingerprint of attributes from a set `A`, merging those
      attributes into it would change nothing. `A` stands for whatever the clients of
      the table write. */
  ghost predicate SafeRow(r: Row, A: iset<Attrs>) {
    forall a :: a in A && r.fingerprint == Fingerprint(a) ==> r.attrs + a == r.attrs
  }

  ghost predicate GuardSafe(t: Table, A: iset<Attrs>) {
    forall k :: k in t ==> SafeRow(t[k], A)
  }

  /** A client writes attributes of `A` and sends their fingerprint with them. */
  ghost predicate TupleOver(u: Tuple, A: iset<Attrs>) {
    u.attrs in A && u.fingerprint == Fingerprint(u.attrs)
  }

  ghost predicate StatementOver(st: Statement, A: iset<Attrs>) {
    st.Upsert? ==> forall u :: u in st.tuples ==> TupleOver(u, A)
  }

  lemma MergeAbsorbs(x: Attrs, a: Attrs)
    ensures (x + a) + a == x + a
  {}

  /** Client and server digests never meet: their texts start differently. */
  lemma DigestsDisjoint(pg: Postgres, a: Attrs, b: Attrs)
    requires PrintsObjects(pg)
    ensures ServerDigest(pg, a) != Fingerprint(b)
  {
    ClientTextIsList(b);
    var s := pg.jsonbText(a);
    assert Utf8.Encode(s)[0] == Utf8.EncodeChar(s[0])[0] == '{' as int;
  }

  /** A row that has just taken on the attributes and the fingerprint of a tuple. */
  lemma WrittenIsSafe(A: iset<Attrs>, r: Row, u: Tuple, x: Attrs)
    requires Injective(A) && TupleOver(u, A) && r.attrs == x + u.attrs && r.fingerprint == u.fingerprint
    ensures SafeRow(r, A)
  {
    forall a | a in A && r.fingerprint == Fingerprint(a) ensures r.attrs + a == r.attrs {
      assert u.attrs == a;
      MergeAbsorbs(x, a);
    }
  }

  lemma UpsertKeepsGuardSafe(A: iset<Attrs>, t: Table, u: Tuple, now: Time, newId: Uuid)
    requires Injective(A) && GuardSafe(t, A) && TupleOver(u, A)
    ensures GuardSafe(UpsertTuple(t, u, now, newId), A)
  {
    var t' := UpsertTuple(t, u, now, newId);
    if Affects(t, u, now) {
      UpsertWrites(t, u, now, newId);
      WrittenIsSafe(A, t'[u.key], u, if u.key in t then t[u.key].attrs else map[]);
      OthersStaySafe(A, t, t', u.key);
    } else {
      assert t' == t;
    }
  }

  lemma OthersStaySafe(A: iset<Attrs>, t: Table, t': Table, key: Key)
    requires GuardSafe(t, A) && key in t' && SafeRow(t'[key], A)
    requires forall k :: k in t' && k != key ==> k in t && t'[k] == t[k]
    ensures GuardSafe(t', A)
  {}

  lemma UpsertWrites(t: Table, u: Tuple, now: Time, newId: Uuid)
    requires Affects(t, u, now)
    ensures var (t', x) := (UpsertTuple(t, u, now, newId), if u.key in t then t[u.key].attrs else map[]);
            u.key in t' && t'[u.key].attrs == x + u.attrs && t'[u.key].fingerprint == u.fingerprint
  {
    assert map[] + u.attrs == u.attrs;
  }

  lemma MergedIsSafe(A: iset<Attrs>, pg: Postgres, r: Row, delta: Attrs, now: Time)
    requires PrintsObjects(pg)
    ensures SafeRow(MergeRow(pg, r, delta, now), A)
  {
    forall a | a in A ensures MergeRow(pg, r, delta, now).fingerprint != Fingerprint(a) {
      DigestsDisjoint(pg, r.attrs + delta, a);
    }
  }

  lemma MergeKeepsGuardSafe(A: iset<Attrs>, pg: Postgres, t: Table, id: Uuid, delta: Attrs, now: Time)
    requires GuardSafe(t, A) && PrintsObjects(pg)
    ensures GuardSafe(MergeById(pg, t, id, delta, now), A)
  {
    forall k | k in t ensures SafeRow(MergeById(pg, t, id, delta, now)[k], A) {
      MergedIsSafe(A, pg, t[k], delta, now);
    }
  }

  lemma {:induction false} UpsertAllKeepsGuardSafe(A: iset<Attrs>, t: Table, us: seq<Tuple>, now: Time,
                                                    ids: NewIds, affected: set<Key>)
    requires Injective(A) && GuardSafe(t, A) && forall u :: u in us ==> TupleOver(u, A)
    ensures var r := UpsertAll(t, us, now, ids, affected); r.Some? ==> GuardSafe(r.value, A)
    decreases |us|
  {
    if us != [] && us[0].key !in affected {
      UpsertKeepsGuardSafe(A, t, us[0], now, ids(us[0].key));
      UpsertAllKeepsGuardSafe(A, UpsertTuple(t, us[0], now, ids(us[0].key)), us[1..], now, ids,
                              if Affects(t, us[0], now) then affected + {us[0].key} else affected);
    }
  }

  lemma ExecKeepsGuardSafe(A: iset<Attrs>, pg: Postgres, t: Table, st: Statement, now: Time, ids: NewIds)
    requires Injective(A) && GuardSafe(t, A) && PrintsObjects(pg) && StatementOver(st, A)
    ensures var r := Exec(pg, t, st, now, ids); r.Some? ==> GuardSafe(r.value, A)
  {
    match st
    case Merge(id, delta) => MergeKeepsGuardSafe(A, pg, t, id, delta, now);
    case Upsert(us) => UpsertAllKeepsGuardSafe(A, t, us, now, ids, {});
  }

  /** A statement as it was executed at some time. */
  datatype Executed = Executed(st: Statement, now: Time, ids: NewIds)

  /** The table after a history of statements, starting empty; a refused statement
      leaves no trace. */
  function TableAfter(pg: Postgres, h: seq<Executed>): Table {
    if h == [] then map[]
    else
      var (t, x) := (TableAfter(pg, h[..|h| - 1]), h[|h| - 1]);
      var r := Exec(pg, t, x.st, x.now, x.ids);
      if r.None? then t else r.value
  }

  lemma {:induction false} ReachableIsGuardSafe(A: iset<Attrs>, pg: Postgres, h: seq<Executed>)
    requires Injective(A) && PrintsObjects(pg) && forall x :: x in h ==> StatementOver(x.st, A)
    ensures GuardSafe(TableAfter(pg, h), A)
  {
    if h != [] {
      var (p, x) := (h[..|h| - 1], h[|h| - 1]);
      ReachableIsGuardSafe(A, pg, p);
      ExecKeepsGuardSafe(A, pg, TableAfter(pg, p), x.st, x.now, x.ids);
    }
  }

  /** In every table reachable by upserts and merges, an upsert that the guard
      skips would have changed nothing but the time. */
  lemma GuardDropsNoChange(A: iset<Attrs>, pg: Postgres, h: seq<Executed>, u: Tuple, now: Time, newId: Uuid)
    requires Injective(A) && PrintsObjects(pg) && forall x :: x in h ==> StatementOver(x.st, A)
    requires TupleOver(u, A) && !Affects(TableAfter(pg, h), u, now)
    ensures var r := TableAfter(pg, h)[u.key];
            r.(attrs := r.attrs + u.attrs, fingerprint := u.fingerprint) == r
  {
    ReachableIsGuardSafe(A, pg, h);
  }

  /** An upsert over `A`, on a table reached over `A`, that the guard skips. */
  datatype Skip = Skip(pg: Postgres, h: seq<Executed>, u: Tuple, now: Time)

  ghost predicate SkipOver(c: Skip, A: iset<Attrs>) {
    && PrintsObjects(c.pg) && (forall x :: x in c.h ==> StatementOver(x.st, A))
    && TupleOver(c.u, A) && !Affects(TableAfter(c.pg, c.h), c.u, c.now)
  }

  predicate Harmless(c: Skip)
    requires c.u.key in TableAfter(c.pg, c.h)
  {
    var r := TableAfter(c.pg, c.h)[c.u.key];
    r.attrs + c.u.attrs == r.attrs
  }

  /** The guard never drops a change exactly when no two attribute sets in use share
      a fingerprint. */
  lemma GuardExactIff(A: iset<Attrs>)
    requires AllPrintable(A)
    ensures Injective(A) <==> forall c: Skip :: SkipOver(c, A) ==> Harmless(c)
  {
    if Injective(A) {
      forall c: Skip | SkipOver(c, A) ensures Harmless(c) {
        GuardDropsNoChange(A, c.pg, c.h, c.u, c.now, 0);
      }
    } else {
      var a, b :| a in A && b in A && Fingerprint(a) == Fingerprint(b) && a != b;
      var c := SkippedCollision(A, a, b);
    }
  }

  lemma SkippedCollision(A: iset<Attrs>, a: Attrs, b: Attrs) returns (c: Skip)
    requires AllPrintable(A) && a in A && b in A && Fingerprint(a) == Fingerprint(b) && a != b
    ensures SkipOver(c, A) && !Harmless(c)
  {
    var k := Key(0, "kind", "value");
    SharedFingerprintSharesKeys(a, b);
    c := SkippedTuple(A, Tuple(k, None, a, Fingerprint(a)), Tuple(k, None, b, Fingerprint(b)));
  }

  lemma SkippedTuple(A: iset<Attrs>, first: Tuple, second: Tuple) returns (c: Skip)
    requires TupleOver(first, A) && TupleOver(second, A) && first.key == second.key
    requires first.fingerprint == second.fingerprint
    requires first.attrs.Keys == second.attrs.Keys && first.attrs != second.attrs
    ensures SkipOver(c, A) && !Harmless(c)
  {
    var (pg, ids) := (Postgres(_ => "{"), _ => 1);
    var h := [Executed(Upsert([first]), 0, ids)];
    c := Skip(pg, h, second, MINUTE);
    OneInsert(pg, first, 0, ids);
    OneStatementOver(A, first, 0, ids);
    SecondIsSkipped(TableAfter(pg, h), first, second);
  }

  lemma OneStatementOver(A: iset<Attrs>, u: Tuple, now: Time, ids: NewIds)
    requires TupleOver(u, A)
    ensures forall x :: x in [Executed(Upsert([u]), now, ids)] ==> StatementOver(x.st, A)
  {}

  lemma SecondIsSkipped(t: Table, first: Tuple, second: Tuple)
    requires first.key == second.key && first.fingerprint == second.fingerprint
    requires first.attrs.Keys == second.attrs.Keys && first.attrs != second.attrs
    requires first.key in t && t[first.key].attrs == first.attrs
    requires t[first.key].fingerprint == first.fingerprint && t[first.key].lastSeen == 0
    ensures !Affects(t, second, MINUTE) && t[second.key].attrs + second.attrs != t[second.key].attrs
  {
    assert first.attrs + second.attrs == second.attrs;
  }

  lemma SharedFingerprintSharesKeys(a: Attrs, b: Attrs)
    requires Printable(Map(a)) && Printable(Map(b)) && Fingerprint(a) == Fingerprint(b)
    ensures a.Keys == b.Keys
  {
    FingerprintKernel(a, b);
    SameEncodedKeys(a, b);
  }

  /** A first upsert inserts its row. */
  lemma OneInsert(pg: Postgres, u: Tuple, now: Time, ids: NewIds)
    ensures TableAfter(pg, [Executed(Upsert([u]), now, ids)])
            == map[u.key := Row(ids(u.key), u.attrs, u.fingerprint, now, u.parent)]
  {
    var x := Executed(Upsert([u]), now, ids);
    assert [x][..0] == [] && TableAfter(pg, []) == map[];
    assert [u][1..] == [];
    assert UpsertAll(map[], [u], now, ids, {}) == Some(UpsertTuple(map[], u, now, ids(u.key)));
  }

  /** The guard compares fingerprints, not attributes. When two upserts share a
      fingerprint, skipping the second one is harmless exactly when they carry the
      same attributes; an empty list against an empty map is the smallest loss. */
  lemma SkipLosesExactly(x: Attrs, a: Attrs, b: Attrs)
    requires Printable(Map(a)) && Printable(Map(b)) && Fingerprint(a) == Fingerprint(b)
    ensures (x + a) + b == x + a <==> a == b
  {
    SharedFingerprintSharesKeys(a, b);
    MergeAbsorbs(x, a);
    if (x + a) + b == x + a {
      OverwrittenBySame(x, a, b);
    }
  }

  lemma OverwrittenBySame(x: Attrs, a: Attrs, b: Attrs)
    requires a.Keys == b.Keys && (x + a) + b == x + a
    ensures a == b
  {
    forall k | k in a ensures a[k] == b[k] {
      assert ((x + a) + b)[k] == b[k] && (x + a)[k] == a[k];
    }
  }

  lemma SameEncodedKeys(a: Attrs, b: Attrs)
    requires Canon(Map(a)) == Canon(Map(b))
    ensures a.Keys == b.Keys
  {
    EncodedKeys(a);
    EncodedKeys(b);
  }

  /** The heads of the pair list are the keys. */
  lemma EncodedKeys(a: Attrs)
    ensures Canon(Map(a)).Arr? && var heads := Heads(Canon(Map(a)).items);
            forall k :: k in a <==> k in heads
  {
    PairsOfMap(Map(a));
    assert Canon(Map(a)) == Json.Arr(CanonPairs(Map(a)));
  }

  // ---- One row per statement ------------------------------------------------------

  ghost predicate DistinctKeys(us: seq<Tuple>) {
    forall i, j :: 0 <= i < j < |us| ==> us[i].key != us[j].key
  }

  /** A statement is accepted on every table and at every time exactly when it
      names no key twice, although duplicates are documented to be merged. */
  lemma AcceptedIffDistinct(us: seq<Tuple>)
    ensures DistinctKeys(us) <==>
              forall t: Table, now: Time, ids: NewIds :: UpsertAll(t, us, now, ids, {}).Some?
  {
    if DistinctKeys(us) {
      forall t: Table, now: Time, ids: NewIds ensures UpsertAll(t, us, now, ids, {}).Some? {
        DistinctAccepted(t, us, now, ids, {});
      }
    } else {
      var t: Table := map[];
      var ids: NewIds := _ => 0;
      DuplicateRefused(t, us, 0, ids, {});
      assert UpsertAll(t, us, 0, ids, {}).None?;
    }
  }

  lemma {:induction false} DistinctAccepted(t: Table, us: seq<Tuple>, now: Time, ids: NewIds, affected: set<Key>)
    requires DistinctKeys(us) && forall u :: u in us ==> u.key !in affected
    ensures UpsertAll(t, us, now, ids, affected).Some?
    decreases |us|
  {
    if us != [] {
      DistinctAccepted(UpsertTuple(t, us[0], now, ids(us[0].key)), us[1..], now, ids,
                       if Affects(t, us[0], now) then affected + {us[0].key} else affected);
    }
  }

  /** Where all rows are new, the second tuple for a key is refused. */
  lemma {:induction false} DuplicateRefused(t: Table, us: seq<Tuple>, now: Time, ids: NewIds, affected: set<Key>)
    requires t.Keys == affected && (!DistinctKeys(us) || exists u :: u in us && u.key in affected)
    ensures UpsertAll(t, us, now, ids, affected).None?
    decreases |us|
  {
    if us[0].key !in affected {
      var t' := UpsertTuple(t, us[0], now, ids(us[0].key));
      if u :| u in us && u.key in affected {
        assert u in us[1..];
      } else {
        var i, j :| 0 <= i < j < |us| && us[i].key == us[j].key;
        if i == 0 {
          assert us[j] in us[1..];
        } else {
          assert us[1..][i - 1].key == us[1..][j - 1].key;
        }
      }
      DuplicateRefused(t', us[1..], now, ids, affected + {us[0].key});
    }
  }

  /** On a given table a statement is accepted exactly when no tuple that inserts or
      updates its row is followed by another one for the same key. */
  ghost predicate NoneTwice(t: Table, us: seq<Tuple>, now: Time) {
    forall i, j :: 0 <= i < j < |us| && us[i].key == us[j].key ==> !Affects(t, us[i], now)
  }

  lemma AcceptedExactly(t: Table, us: seq<Tuple>, now: Time, ids: NewIds)
    ensures UpsertAll(t, us, now, ids, {}).Some? <==> NoneTwice(t, us, now)
  {
    AcceptedFrom(t, us, now, ids, {});
  }

  lemma {:induction false} AcceptedFrom(t: Table, us: seq<Tuple>, now: Time, ids: NewIds, affected: set<Key>)
    ensures UpsertAll(t, us, now, ids, affected).Some? <==>
              NoneTwice(t, us, now) && forall i :: 0 <= i < |us| ==> us[i].key !in affected
    decreases |us|
  {
    if us != [] && us[0].key !in affected {
      var (u, rest) := (us[0], us[1..]);
      var t' := UpsertTuple(t, u, now, ids(u.key));
      var affected' := if Affects(t, u, now) then affected + {u.key} else affected;
      AcceptedFrom(t', rest, now, ids, affected');
      if Affects(t, u, now) {
        HeadAffects(t, t', us, now, affected);
      } else {
        HeadSkipped(t, us, now, affected);
      }
    }
  }

  lemma HeadAffects(t: Table, t': Table, us: seq<Tuple>, now: Time, affected: set<Key>)
    requires us != [] && us[0].key !in affected && Affects(t, us[0], now)
    requires forall k :: k != us[0].key ==> (k in t <==> k in t') && (k in t ==> t'[k] == t[k])
    ensures NoneTwice(t, us, now) && (forall i :: 0 <= i < |us| ==> us[i].key !in affected) <==>
              NoneTwice(t', us[1..], now)
              && forall i :: 0 <= i < |us[1..]| ==> us[1..][i].key !in affected + {us[0].key}
  {
    var rest := us[1..];
    assert forall i :: 0 <= i < |rest| ==> rest[i] == us[i + 1];
    assert forall i :: 1 <= i < |us| ==> us[i] == rest[i - 1];
    if NoneTwice(t, us, now) {
      assert forall i :: 0 <= i < |rest| ==> rest[i].key != us[0].key;
    }
    if forall i :: 0 <= i < |rest| ==> rest[i].key !in affected + {us[0].key} {
      assert forall i :: 0 <= i < |rest| ==> rest[i].key != us[0].key;
      assert forall i :: 0 <= i < |rest| ==> (Affects(t, rest[i], now) <==> Affects(t', rest[i], now));
    }
  }

  lemma HeadSkipped(t: Table, us: seq<Tuple>, now: Time, affected: set<Key>)
    requires us != [] && us[0].key !in affected && !Affects(t, us[0], now)
    ensures NoneTwice(t, us, now) && (forall i :: 0 <= i < |us| ==> us[i].key !in affected) <==>
              NoneTwice(t, us[1..], now) && forall i :: 0 <= i < |us[1..]| ==> us[1..][i].key !in affected
  {
    var rest := us[1..];
    assert forall i :: 0 <= i < |rest| ==> rest[i] == us[i + 1];
    assert forall i :: 1 <= i < |us| ==> us[i] == rest[i - 1];
  }

  // ---- What becomes of a row --------------------------------------------------------

  /** From `r` to `r'` a row keeps its id and its parent, and is as it was or was seen
      at `now`. */
  predicate Kept(r: Row, r': Row, now: Time) {
    r'.id == r.id && r'.parent == r.parent && (r' == r || r'.lastSeen == now)
  }

  lemma {:induction false} UpsertAllKeeps(t: Table, us: seq<Tuple>, now: Time, ids: NewIds, affected: set<Key>, k: Key)
    requires UpsertAll(t, us, now, ids, affected).Some?
    ensures var r := UpsertAll(t, us, now, ids, affected).value;
            && (k in t ==> k in r && Kept(t[k], r[k], now))
            && ((forall u :: u in us ==> u.key != k) ==> (k in r <==> k in t) && (k in t ==> r[k] == t[k]))
    decreases |us|
  {
    if us != [] {
      assert us[0] in us && forall u :: u in us[1..] ==> u in us;
      UpsertAllKeeps(UpsertTuple(t, us[0], now, ids(us[0].key)), us[1..], now, ids,
                     if Affects(t, us[0], now) then affected + {us[0].key} else affected, k);
    }
  }

  /** What a statement that names no key twice makes of each row it names. */
  lemma {:induction false} UpsertAllWrites(t: Table, us: seq<Tuple>, now: Time, ids: NewIds, affected: set<Key>, i: nat)
    requires UpsertAll(t, us, now, ids, affected).Some? && i < |us|
    requires forall j :: 0 <= j < |us| && j != i ==> us[j].key != us[i].key
    ensures var (r, u) := (UpsertAll(t, us, now, ids, affected).value, us[i]);
            && u.key in r
            && (u.key !in t ==> r[u.key] == Row(ids(u.key), u.attrs, u.fingerprint, now, u.parent))
            && (u.key in t ==>
                  var was := t[u.key];
                  r[u.key] == if was.fingerprint != u.fingerprint || was.lastSeen < now - 60_000_000_000
                              then Row(was.id, was.attrs + u.attrs, u.fingerprint, now, was.parent)
                              else was)
    decreases |us|
  {
    var t' := UpsertTuple(t, us[0], now, ids(us[0].key));
    var affected' := if Affects(t, us[0], now) then affected + {us[0].key} else affected;
    if i == 0 {
      assert forall u :: u in us[1..] ==> u.key != us[0].key;
      UpsertAllKeeps(t', us[1..], now, ids, affected', us[0].key);
    } else {
      assert us[1..][i - 1] == us[i] && us[i].key != us[0].key;
      assert forall j :: 0 <= j < |us[1..]| ==> us[1..][j] == us[j + 1];
      UpsertAllWrites(t', us[1..], now, ids, affected', i - 1);
    }
  }

  /** After an accepted upsert every row it names was seen at most a minute ago. */
  lemma {:induction false} NamedRowsAreFresh(t: Table, us: seq<Tuple>, now: Time, ids: NewIds,
                                             affected: set<Key>, i: nat)
    requires UpsertAll(t, us, now, ids, affected).Some? && i < |us|
    ensures var r := UpsertAll(t, us, now, ids, affected).value;
            us[i].key in r && (r[us[i].key].lastSeen == now || r[us[i].key].lastSeen >= now - 60_000_000_000)
    decreases |us|
  {
    var t' := UpsertTuple(t, us[0], now, ids(us[0].key));
    var affected' := if Affects(t, us[0], now) then affected + {us[0].key} else affected;
    if i == 0 {
      UpsertAllKeeps(t', us[1..], now, ids, affected', us[0].key);
    } else {
      NamedRowsAreFresh(t', us[1..], now, ids, affected', i - 1);
    }
  }

  /** A statement keeps every row's id and parent; a row that changes is seen now, and
      a merge changes the rows with its id only, and sees them all. */
  lemma ExecKeepsRows(pg: Postgres, t: Table, st: Statement, now: Time, ids: NewIds, k: Key)
    requires Exec(pg, t, st, now, ids).Some? && k in t
    ensures var r := Exec(pg, t, st, now, ids).value;
            && k in r && Kept(t[k], r[k], now)
            && (st.Merge? && t[k].id == st.id ==>
                  && r[k].lastSeen == now && r[k].attrs == t[k].attrs + st.delta
                  && r[k].fingerprint == Sha256(Utf8.Encode(pg.jsonbText(r[k].attrs))))
            && (st.Merge? && t[k].id != st.id ==> r[k] == t[k])
  {
    if st.Upsert? {
      UpsertAllKeeps(t, st.tuples, now, ids, {}, k);
    }
  }

  /** Two digests of the database are equal exactly when the printed attributes are. */
  lemma ServerDigestExact(pg: Postgres, a: Attrs, b: Attrs)
    ensures ServerDigest(pg, a) == ServerDigest(pg, b) <==> pg.jsonbText(a) == pg.jsonbText(b)
  {
    if ServerDigest(pg, a) == ServerDigest(pg, b) {
      Utf8.EncodeInjective(pg.jsonbText(a), pg.jsonbText(b));
    }
  }

  /** So a second merge changes the fingerprint exactly when it changes the printed
      attributes. */
  lemma MergeShowsIff(pg: Postgres, r: Row, d: Attrs, e: Attrs, now: Time, later: Time)
    ensures var r1 := MergeRow(pg, r, d, now);
            MergeRow(pg, r1, e, later).fingerprint == r1.fingerprint <==>
              pg.jsonbText(r.attrs + d + e) == pg.jsonbText(r.attrs + d)
  {
    ServerDigestExact(pg, r.attrs + d + e, r.attrs + d);
  }
}
