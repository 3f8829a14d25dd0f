/** The caching resolver of sdk/dns/cache.go. Its methods drop the lock between
    the lookup and the store, so many callers interleave; the step system below
    has one step per locked section and one per backend reply.
 */
module CachingResolver {
  import opened Sequences
  import opened Wrappers
  import opened LruModel
  import opened LinkedLru

  const MINUTE: int := 60_000_000_000
  const DEFAULT_TTL := 5 * MINUTE
  const DEFAULT_CAPACITY := 4096

  datatype RecordType = Addresses | AllRecords | CName | Mx | Txt | Ns

  datatype Settings = Settings(ttl: int, cap: int)

  /** What the backend said. Only answers of the all-records method carry a
      validity time; `None` is the zero time. */
  datatype Reply<+V> = Failed | Answered(value: V, validUntil: Option<Time>)

  /** The ttl an answer is stored with. A validity time that has already passed
      when it is checked is ignored. */
  function StoreTtl(ttl: int, rt: RecordType, validUntil: Option<Time>, checkedAt: Time): int {
    if rt.AllRecords? && validUntil.Some? && 0 < validUntil.value - checkedAt < ttl
    then validUntil.value - checkedAt
    else ttl
  }

  /** A caller between its critical sections. */
  datatype Pending<+V> =
    | Fetching(rt: RecordType, host: string)
    | Ready(rt: RecordType, host: string, value: V, validUntil: Option<Time>, checkedAt: Time)

  datatype Event<+V> =
    | Lookup(caller: nat, rt: RecordType, host: string, now: Time)
    | Replied(caller: nat, reply: Reply<V>, checkedAt: Time)
    | Store(caller: nat, now: Time)

  datatype System<+V> = System(caches: map<RecordType, seq<Entry<V>>>, callers: map<nat, Pending<V>>)

  function Cache<V>(sys: System<V>, rt: RecordType): seq<Entry<V>> {
    if rt in sys.caches then sys.caches[rt] else []
  }

  /** One step. A step its caller cannot take at that point changes nothing. */
  function Step<V>(cfg: Settings, sys: System<V>, ev: Event<V>): System<V> {
    match ev
    case Lookup(c, rt, host, now) =>
      if c in sys.callers then sys
      else
        var caches := sys.caches[rt := AfterGet(Cache(sys, rt), host, now)];
        if Got(Cache(sys, rt), host, now).Some? then sys.(caches := caches)
        else System(caches, sys.callers[c := Fetching(rt, host)])
    case Replied(c, reply, checkedAt) =>
      if c !in sys.callers || !sys.callers[c].Fetching? then sys
      else if reply.Failed? then sys.(callers := sys.callers - {c})
      else
        var p := sys.callers[c];
        sys.(callers := sys.callers[c := Ready(p.rt, p.host, reply.value, reply.validUntil, checkedAt)])
    case Store(c, now) =>
      if c !in sys.callers || !sys.callers[c].Ready? then sys
      else
        var p := sys.callers[c];
        var e := Entry(p.host, p.value, now + StoreTtl(cfg.ttl, p.rt, p.validUntil, p.checkedAt));
        System(sys.caches[p.rt := AfterPut(Cache(sys, p.rt), e, cfg.cap)], sys.callers - {c})
  }

  function Run<V>(cfg: Settings, h: seq<Event<V>>): System<V> {
    if h == [] then System(map[], map[]) else Step(cfg, Run(cfg, Init(h)), Last(h))
  }

  /** Event `k` of the history is a lookup answered from the cache with `value`. */
  ghost predicate HitAt<V>(cfg: Settings, h: seq<Event<V>>, k: nat, rt: RecordType, host: string, value: V) {
    && k < |h| && h[k].Lookup?
    && h[k].rt == rt && h[k].host == host
    && var sys := Run(cfg, h[..k]);
       h[k].caller !in sys.callers && Got(Cache(sys, rt), host, h[k].now) == Some(value)
  }

  /** Event `i` is the backend giving `p.value` for the host and record type of `p`. */
  ghost predicate AnsweredAt<V>(cfg: Settings, h: seq<Event<V>>, i: nat, p: Pending<V>) {
    && i < |h| && h[i].Replied? && p.Ready?
    && h[i].reply == Answered(p.value, p.validUntil) && h[i].checkedAt == p.checkedAt
    && var sys := Run(cfg, h[..i]);
       h[i].caller in sys.callers && sys.callers[h[i].caller] == Fetching(p.rt, p.host)
  }

  /** Event `j` is a caller storing the answer `p`. */
  ghost predicate StoredAt<V>(cfg: Settings, h: seq<Event<V>>, j: nat, p: Pending<V>) {
    && j < |h| && h[j].Store? && p.Ready?
    && var sys := Run(cfg, h[..j]);
       h[j].caller in sys.callers && sys.callers[h[j].caller] == p
  }

  /** An entry comes from an earlier store, a pending answer from an earlier reply. */
  ghost predicate EntryJustified<V(!new)>(cfg: Settings, h: seq<Event<V>>, rt: RecordType, e: Entry<V>) {
    exists j: nat, p: Pending<V> ::
      && StoredAt(cfg, h, j, p)
      && p.rt == rt && p.host == e.key && p.value == e.value
      && e.expiresAt == h[j].now + StoreTtl(cfg.ttl, rt, p.validUntil, p.checkedAt)
  }

  ghost predicate Justified<V(!new)>(cfg: Settings, h: seq<Event<V>>) {
    var sys := Run(cfg, h);
    && (forall rt, e :: e in Cache(sys, rt) ==> EntryJustified(cfg, h, rt, e))
    && (forall c :: c in sys.callers && sys.callers[c].Ready? ==>
          exists i: nat :: AnsweredAt(cfg, h, i, sys.callers[c]))
  }

  lemma PrefixOfPrefix<T>(h: seq<T>, k: nat, i: nat)
    requires i <= k <= |h|
    ensures h[..k][..i] == h[..i]
  {}

  lemma EntryStaysJustified<V(!new)>(cfg: Settings, h: seq<Event<V>>, k: nat, rt: RecordType, e: Entry<V>)
    requires k <= |h| && EntryJustified(cfg, h[..k], rt, e)
    ensures EntryJustified(cfg, h, rt, e)
  {
    var j: nat, p: Pending<V> :|
      && StoredAt(cfg, h[..k], j, p)
      && p.rt == rt && p.host == e.key && p.value == e.value
      && e.expiresAt == h[..k][j].now + StoreTtl(cfg.ttl, rt, p.validUntil, p.checkedAt);
    PrefixOfPrefix(h, k, j);
    assert StoredAt(cfg, h, j, p);
  }

  lemma AnswerStays<V>(cfg: Settings, h: seq<Event<V>>, k: nat, i: nat, p: Pending<V>)
    requires k <= |h| && AnsweredAt(cfg, h[..k], i, p)
    ensures AnsweredAt(cfg, h, i, p)
  {
    PrefixOfPrefix(h, k, i);
  }

  lemma DropSubset<T>(s: seq<T>, i: nat)
    requires i < |s|
    ensures forall x :: x in DropAt(s, i) ==> x in s
  {}

  /** Cache operations make up no entries. */
  lemma NoNewEntries<V>(s: seq<Entry<V>>, key: string, now: Time, e: Entry<V>, cap: int)
    ensures forall x :: x in AfterGet(s, key, now) ==> x in s
    ensures forall x :: x in AfterPut(s, e, cap) ==> x == e || x in s
  {
    if Holds(s, key) {
      DropSubset(s, IndexOf(s, key));
    }
    if Holds(s, e.key) {
      DropSubset(s, IndexOf(s, e.key));
    } else {
      assert forall x :: x in [e] + s ==> x == e || x in s;
    }
  }

  lemma {:induction false} HistoryJustifies<V(!new)>(cfg: Settings, h: seq<Event<V>>)
    ensures Justified(cfg, h)
  {
    if h != [] {
      var (p, n) := (Init(h), |h| - 1);
      assert h[..n] == p;
      HistoryJustifies(cfg, p);
      var (sys, sys') := (Run(cfg, p), Run(cfg, h));
      forall rt, e | e in Cache(sys', rt) ensures EntryJustified(cfg, h, rt, e) {
        CachedBefore(cfg, sys, Last(h), rt, e);
        if e in Cache(sys, rt) {
          EntryStaysJustified(cfg, h, n, rt, e);
        } else {
          assert StoredAt(cfg, h, n, sys.callers[h[n].caller]);
        }
      }
      forall c | c in sys'.callers && sys'.callers[c].Ready?
        ensures exists i: nat :: AnsweredAt(cfg, h, i, sys'.callers[c])
      {
        if c in sys.callers && sys.callers[c] == sys'.callers[c] {
          var i: nat :| AnsweredAt(cfg, p, i, sys.callers[c]);
          AnswerStays(cfg, h, n, i, sys.callers[c]);
        } else {
          assert AnsweredAt(cfg, h, n, sys'.callers[c]);
        }
      }
    }
  }

  /** After a step, an entry was there before or is the one just stored. */
  lemma CachedBefore<V>(cfg: Settings, sys: System<V>, ev: Event<V>, rt: RecordType, e: Entry<V>)
    requires e in Cache(Step(cfg, sys, ev), rt)
    ensures e in Cache(sys, rt) ||
            (&& ev.Store? && ev.caller in sys.callers && sys.callers[ev.caller].Ready?
             && var p := sys.callers[ev.caller];
                p.rt == rt && e == Entry(p.host, p.value,
                                         ev.now + StoreTtl(cfg.ttl, rt, p.validUntil, p.checkedAt)))
  {
    if ev.Lookup? {
      NoNewEntries(Cache(sys, ev.rt), ev.host, ev.now, e, cfg.cap);
    } else if ev.Store? && ev.caller in sys.callers && sys.callers[ev.caller].Ready? {
      var p := sys.callers[ev.caller];
      var n := Entry(p.host, p.value, ev.now + StoreTtl(cfg.ttl, p.rt, p.validUntil, p.checkedAt));
      NoNewEntries(Cache(sys, p.rt), p.host, ev.now, n, cfg.cap);
    }
  }

  /** Cache honesty and expiry bound. In every interleaving, a hit returns a value
      that the backend earlier gave for that host and record type and that some
      caller then stored; the hit comes at most one ttl after that store, and if
      the answer's validity time was still ahead when it was checked, no later
      than that time plus the delay between check and store. */
  lemma HitsAreHonest<V(!new)>(cfg: Settings, h: seq<Event<V>>, k: nat, rt: RecordType, host: string, value: V)
    requires HitAt(cfg, h, k, rt, host, value)
    ensures exists i: nat, j: nat, p: Pending<V> ::
              && i < j < k && AnsweredAt(cfg, h, i, p) && StoredAt(cfg, h, j, p)
              && p.rt == rt && p.host == host && p.value == value
              && h[k].now <= h[j].now + cfg.ttl
              && (rt.AllRecords? && p.validUntil.Some? && p.validUntil.value > p.checkedAt ==>
                    h[k].now <= p.validUntil.value + (h[j].now - p.checkedAt))
  {
    var s := Cache(Run(cfg, h[..k]), rt);
    var e := s[IndexOf(s, host)];
    HistoryJustifies(cfg, h[..k]);
    assert EntryJustified(cfg, h[..k], rt, e);
    var j: nat, p: Pending<V> :|
      && StoredAt(cfg, h[..k], j, p)
      && p.rt == rt && p.host == e.key && p.value == e.value
      && e.expiresAt == h[..k][j].now + StoreTtl(cfg.ttl, rt, p.validUntil, p.checkedAt);
    PrefixOfPrefix(h, k, j);
    HistoryJustifies(cfg, h[..j]);
    var i: nat :| AnsweredAt(cfg, h[..j], i, Run(cfg, h[..j]).callers[h[j].caller]);
    AnswerStays(cfg, h, j, i, p);
    assert AnsweredAt(cfg, h, i, p) && StoredAt(cfg, h, j, p);
  }

  /** The expiry of a stored all-records answer respects its validity time, up to
      the delay between check and store, exactly when that time was still ahead
      at the check. */
  lemma ValidityRespectedIff(cfg: Settings, validUntil: Time, checkedAt: Time, storedAt: Time)
    requires cfg.ttl > 0
    ensures storedAt + StoreTtl(cfg.ttl, AllRecords, Some(validUntil), checkedAt)
              <= validUntil + (storedAt - checkedAt)
            <==> validUntil > checkedAt
  {}

  /** A history in which an answer that was stale on arrival is served from the
      cache for the whole ttl. */
  function StaleHistory<V>(cfg: Settings, host: string, value: V): seq<Event<V>> {
    [Lookup(0, AllRecords, host, 10), Replied(0, Answered(value, Some(5)), 10), Store(0, 10),
     Lookup(0, AllRecords, host, 10 + cfg.ttl)]
  }

  lemma StaleAnswerIsServed<V>(cfg: Settings, host: string, value: V)
    requires cfg.ttl > 0 && cfg.cap > 0
    ensures HitAt(cfg, StaleHistory(cfg, host, value), 3, AllRecords, host, value)
    ensures StaleHistory(cfg, host, value)[3].now > 5
  {
    var h := StaleHistory(cfg, host, value);
    assert h[..0] == [] && Init(h[..1]) == h[..0] && Init(h[..2]) == h[..1] && Init(h[..3]) == h[..2];
    var callers: map<nat, Pending<V>> := map[0 := Fetching(AllRecords, host)];
    assert Run(cfg, h[..1]) == System(map[AllRecords := []], callers);
    assert Run(cfg, h[..2]).callers == map[0 := Ready(AllRecords, host, value, Some(5), 10)];
    assert Run(cfg, h[..3]).callers == map[];
    assert Cache(Run(cfg, h[..3]), AllRecords) == [Entry(host, value, 10 + cfg.ttl)];
  }

  // ---- Recency in every interleaving ----------------------------------------

  /** The calls that one record type's cache sees in a history, in order. */
  function OpsOf<V>(cfg: Settings, h: seq<Event<V>>, rt: RecordType): seq<Op<V>> {
    if h == [] then []
    else OpsOf(cfg, Init(h), rt) + OpOf(cfg, Run(cfg, Init(h)), Last(h), rt)
  }

  /** The call that a step makes on the cache of a record type, if any. */
  function OpOf<V>(cfg: Settings, sys: System<V>, ev: Event<V>, rt: RecordType): seq<Op<V>> {
    match ev
    case Lookup(c, t, host, now) => if c !in sys.callers && t == rt then [GetOp(host, now)] else []
    case Replied(_, _, _) => []
    case Store(c, now) =>
      if c in sys.callers && sys.callers[c].Ready? && sys.callers[c].rt == rt then
        var p := sys.callers[c];
        [PutOp(Entry(p.host, p.value, now + StoreTtl(cfg.ttl, p.rt, p.validUntil, p.checkedAt)))]
      else []
  }

  lemma StepIsOp<V>(cfg: Settings, sys: System<V>, ev: Event<V>, rt: RecordType)
    ensures var ops := OpOf(cfg, sys, ev, rt);
            Cache(Step(cfg, sys, ev), rt)
            == if ops == [] then Cache(sys, rt) else AfterOp(Cache(sys, rt), ops[0], cfg.cap)
  {}

  /** In every interleaving each cache is what its own calls make of it. */
  lemma {:induction false} CacheIsRunOfOps<V>(cfg: Settings, h: seq<Event<V>>, rt: RecordType)
    ensures Cache(Run(cfg, h), rt) == AfterOps(OpsOf(cfg, h, rt), cfg.cap)
  {
    if h != [] {
      var (p, ev) := (Init(h), Last(h));
      CacheIsRunOfOps(cfg, p, rt);
      StepIsOp(cfg, Run(cfg, p), ev, rt);
      var (before, ops) := (OpsOf(cfg, p, rt), OpOf(cfg, Run(cfg, p), ev, rt));
      if ops == [] {
        assert before + ops == before;
      } else {
        assert ops == [ops[0]];
        AfterOpsSnoc(before, ops[0], cfg.cap);
      }
    }
  }

  /** So in every interleaving, with failed fetches and expiries, each cache fits and
      keeps its entries in the order of their last touches. */
  lemma CachesKeepOrder<V>(cfg: Settings, h: seq<Event<V>>, rt: RecordType)
    requires cfg.cap > 0
    ensures Fits(Cache(Run(cfg, h), rt), cfg.cap)
    ensures InTouchOrder(Cache(Run(cfg, h), rt), OpsOf(cfg, h, rt), cfg.cap)
  {
    CacheIsRunOfOps(cfg, h, rt);
    OpsKeepOrder(OpsOf(cfg, h, rt), cfg.cap);
  }

  /** And a step takes a key out of a cache only by looking it up when it has expired,
      or by a store that pushes it out as the least recently touched one. */
  lemma StepsLoseFairly<V>(cfg: Settings, h: seq<Event<V>>, ev: Event<V>, rt: RecordType, k: string)
    requires cfg.cap > 0
    requires Holds(Cache(Run(cfg, h), rt), k) && !Holds(Cache(Run(cfg, h + [ev]), rt), k)
    ensures var ops := OpOf(cfg, Run(cfg, h), ev, rt);
            |ops| == 1 && LostFairly(OpsOf(cfg, h, rt), ops[0], k, cfg.cap)
  {
    var (before, ops) := (OpsOf(cfg, h, rt), OpOf(cfg, Run(cfg, h), ev, rt));
    CacheIsRunOfOps(cfg, h, rt);
    CacheIsRunOfOps(cfg, h + [ev], rt);
    OpsSnoc(cfg, h, ev, rt);
    AtMostOneOp(cfg, Run(cfg, h), ev, rt);
    assert before + [] == before;
    assert ops != [];
    assert ops == [ops[0]];
    KeysAreLostFairly(before, ops[0], k, cfg.cap);
  }

  lemma OpsSnoc<V>(cfg: Settings, h: seq<Event<V>>, ev: Event<V>, rt: RecordType)
    ensures OpsOf(cfg, h + [ev], rt) == OpsOf(cfg, h, rt) + OpOf(cfg, Run(cfg, h), ev, rt)
  {
    assert Init(h + [ev]) == h;
  }

  lemma AtMostOneOp<V>(cfg: Settings, sys: System<V>, ev: Event<V>, rt: RecordType)
    ensures |OpOf(cfg, sys, ev, rt)| <= 1
  {}

  // ---- What a fetch leaves ---------------------------------------------------

  /** How long a stored answer is served, in plain numbers: an all-records answer that
      is still valid when it is checked lives for the rest of its validity, at most for
      the ttl; any other answer lives for the ttl. Right after the store, a lookup of
      that host by a caller without a fetch under way is a hit up to that point and a
      miss from then on. */
  lemma ServedExactlyUntil<V>(cfg: Settings, h: seq<Event<V>>, c: nat, stored: Time, c2: nat, now: Time)
    requires cfg.cap > 0 && c in Run(cfg, h).callers && Run(cfg, h).callers[c].Ready?
    requires c2 == c || c2 !in Run(cfg, h).callers
    ensures var p := Run(cfg, h).callers[c];
            var left := if p.rt == AllRecords && p.validUntil.Some? then p.validUntil.value - p.checkedAt else 0;
            var life := if 0 < left < cfg.ttl then left else cfg.ttl;
            HitAt(cfg, h + [Store(c, stored), Lookup(c2, p.rt, p.host, now)], |h| + 1, p.rt, p.host, p.value)
            <==> now <= stored + life
  {
    var sys := Run(cfg, h);
    var p := sys.callers[c];
    StoredIsServed(cfg, sys, c, stored, now);
    var h1 := h + [Store(c, stored)];
    assert Init(h1) == h;
    assert (h + [Store(c, stored), Lookup(c2, p.rt, p.host, now)])[..|h| + 1] == h1;
    assert Run(cfg, h1) == Step(cfg, sys, Store(c, stored));
  }

  lemma StoredIsServed<V>(cfg: Settings, sys: System<V>, c: nat, stored: Time, now: Time)
    requires cfg.cap > 0 && c in sys.callers && sys.callers[c].Ready?
    ensures var p := sys.callers[c];
            var left := if p.rt == AllRecords && p.validUntil.Some? then p.validUntil.value - p.checkedAt else 0;
            var life := if 0 < left < cfg.ttl then left else cfg.ttl;
            var after := Step(cfg, sys, Store(c, stored));
            && after.callers == sys.callers - {c}
            && Got(Cache(after, p.rt), p.host, now) == if now <= stored + life then Some(p.value) else None
  {
    var p := sys.callers[c];
    var e := Entry(p.host, p.value, stored + StoreTtl(cfg.ttl, p.rt, p.validUntil, p.checkedAt));
    PutIsGot(Cache(sys, p.rt), e, cfg.cap, now);
  }

  lemma PutIsGot<V>(s: seq<Entry<V>>, e: Entry<V>, cap: int, now: Time)
    requires cap > 0
    ensures Got(AfterPut(s, e, cap), e.key, now) == if now <= e.expiresAt then Some(e.value) else None
  {
    assert AfterPut(s, e, cap)[0] == e;
  }

  /** A hit returns the latest answer: no later store for that host and record type
      comes between the store it goes back to and the hit. */
  lemma HitsAreLatest<V>(cfg: Settings, h: seq<Event<V>>, k: nat, rt: RecordType, host: string, value: V)
    requires cfg.cap > 0 && HitAt(cfg, h, k, rt, host, value)
    ensures var last := LastPut(OpsOf(cfg, h[..k], rt), host);
            last.Some? && last.value.value == value && h[k].now <= last.value.expiresAt
  {
    var s := Cache(Run(cfg, h[..k]), rt);
    CacheIsRunOfOps(cfg, h[..k], rt);
    EntriesAreLastPuts(OpsOf(cfg, h[..k], rt), cfg.cap);
    assert s[IndexOf(s, host)] in s;
  }

  /** A caller's three steps, run without others between them, are one call. */
  lemma StepsAreCall<V>(cfg: Settings, sys: System<V>, c: nat, rt: RecordType, host: string, getAt: Time,
                        reply: Reply<V>, checkAt: Time, putAt: Time)
    requires c !in sys.callers
    ensures var s1 := Step(cfg, sys, Lookup(c, rt, host, getAt));
            var s3 := Step(cfg, Step(cfg, s1, Replied(c, reply, checkAt)), Store(c, putAt));
            var fetched := if reply.Failed? then Failure("") else Success(reply.value);
            var ttl := if reply.Failed? then 0 else StoreTtl(cfg.ttl, rt, reply.validUntil, checkAt);
            && Cache(s3, rt) == AfterCall(Cache(sys, rt), host, fetched, ttl, getAt, putAt, cfg.cap)
            && s3.callers == sys.callers
            && forall other :: other != rt ==> Cache(s3, other) == Cache(sys, other)
  {}

  // ---- The resolver object ------------------------------------------------

  /** The resolver with the cache of one of its lookup methods; the six caches
      share nothing but the mutex and the settings. Each method is shown as one
      caller runs it alone; `inner` is the backend. */
  class CachingResolver<V> {
    const cfg: Settings
    const cache: Lru<V>

    ghost predicate Valid()
      reads this, cache, cache.ll, cache.ll.nodes, cache.entries
    {
      cache.Valid() && cache.cap == cfg.cap
    }

    /** Non-positive settings are replaced: a zero ttl does not switch caching off. */
    constructor (ttl: int, capacity: int)
      ensures Valid() && cache.contents == []
      ensures cfg.ttl == if ttl > 0 then ttl else 300_000_000_000
      ensures cfg.cap == if capacity > 0 then capacity else 4096
    {
      var c := if capacity <= 0 then DEFAULT_CAPACITY else capacity;
      cfg := Settings(if ttl <= 0 then DEFAULT_TTL else ttl, c);
      var l := new Lru<V>(c);
      cache := l;
    }

    /** The first locked section of every lookup method. */
    method Find(host: string, now: Time) returns (v: Option<V>)
      requires Valid()
      modifies cache, cache.ll, cache.ll.nodes
      ensures Valid() && cache.entries == old(cache.entries) && cache.ll.nodes == old(cache.ll.nodes)
      ensures v == Got(old(cache.contents), host, now)
      ensures cache.contents == AfterGet(old(cache.contents), host, now)
    {
      v := cache.Get(host, now);
    }

    /** The second one, entered only with an answer. */
    method Keep(host: string, value: V, ttl: int, now: Time)
      requires Valid()
      modifies cache, cache.ll, cache.ll.nodes, cache.entries
      ensures Valid()
      ensures cache.contents == AfterPut(old(cache.contents), Entry(host, value, now + ttl), cfg.cap)
    {
      cache.Put(host, value, ttl, now);
    }

    /** A lookup method whose answers carry no validity time. */
    method Resolve(host: string, inner: string -> Result<V, string>, getAt: Time, putAt: Time)
      returns (res: Result<V, string>)
      requires Valid()
      modifies cache, cache.ll, cache.ll.nodes, cache.entries
      ensures Valid()
      ensures var hit := Got(old(cache.contents), host, getAt);
              && res == (if hit.Some? then Success(hit.value) else inner(host))
              && cache.contents == AfterCall(old(cache.contents), host, inner(host), cfg.ttl, getAt, putAt, cfg.cap)
    {
      var v := Find(host, getAt);
      ghost var s1 := cache.contents;
      if v.Some? {
        return Success(v.value);
      }
      res := inner(host);
      if res.Success? {
        var ttl := cfg.ttl;
        Keep(host, res.value, ttl, putAt);
        CallByParts(old(cache.contents), s1, cache.contents, host, res.value, ttl, getAt, putAt, cfg.cap);
      }
    }

    /** How long an all-records answer is kept. */
    method CheckValidity(until: Option<Time>, checkAt: Time) returns (ttl: int)
      ensures ttl == StoreTtl(cfg.ttl, AllRecords, until, checkAt)
    {
      ttl := cfg.ttl;
      if until.Some? {
        var d := until.value - checkAt;
        if d > 0 && d < ttl {
          ttl := d;
        }
      }
    }

    /** The all-records method, whose answers may carry one. */
    method ResolveAll(host: string, inner: string -> Result<V, string>, validUntil: V -> Option<Time>,
                      getAt: Time, checkAt: Time, putAt: Time)
      returns (res: Result<V, string>)
      requires Valid()
      modifies cache, cache.ll, cache.ll.nodes, cache.entries
      ensures Valid()
      ensures var hit := Got(old(cache.contents), host, getAt);
              && res == (if hit.Some? then Success(hit.value) else inner(host))
              && var until := if inner(host).Success? then validUntil(inner(host).value) else None;
                 cache.contents == AfterCall(old(cache.contents), host, inner(host),
                                             StoreTtl(cfg.ttl, AllRecords, until, checkAt), getAt, putAt, cfg.cap)
    {
      var v := Find(host, getAt);
      ghost var s1 := cache.contents;
      if v.Some? {
        return Success(v.value);
      }
      res := inner(host);
      if res.Success? {
        var ttl := CheckValidity(validUntil(res.value), checkAt);
        Keep(host, res.value, ttl, putAt);
        CallByParts(old(cache.contents), s1, cache.contents, host, res.value, ttl, getAt, putAt, cfg.cap);
      }
    }
  }

  /** What one call leaves in its cache: a failed fetch stores nothing. */
  function AfterCall<V>(s: seq<Entry<V>>, host: string, fetched: Result<V, string>, ttl: int,
                        getAt: Time, putAt: Time, cap: int): seq<Entry<V>> {
    if Got(s, host, getAt).Some? || fetched.Failure? then AfterGet(s, host, getAt)
    else AfterPut(AfterGet(s, host, getAt), Entry(host, fetched.value, putAt + ttl), cap)
  }

  lemma CallByParts<V>(s: seq<Entry<V>>, s1: seq<Entry<V>>, s2: seq<Entry<V>>, host: string, value: V,
                       ttl: int, getAt: Time, putAt: Time, cap: int)
    requires Got(s, host, getAt).None?
    requires s1 == AfterGet(s, host, getAt) && s2 == AfterPut(s1, Entry(host, value, putAt + ttl), cap)
    ensures s2 == AfterCall(s, host, Success(value), ttl, getAt, putAt, cap)
  {}

  /** With a successful fetch a call is the sequential lookup of the run theorems. */
  lemma CallIsLookup<V>(s: seq<Entry<V>>, host: string, value: V, ttl: int, getAt: Time, putAt: Time, cap: int)
    ensures AfterCall(s, host, Success(value), ttl, getAt, putAt, cap)
            == AfterLookup(s, Access(host, value, getAt, putAt), ttl, cap)
  {}
}
