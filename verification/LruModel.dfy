/** The cache of sdk/dns/cache.go read as a plain recency sequence, most recently
    touched entry first, and what that sequence holds after whole runs.
 */
module LruModel {
  import opened Sequences
  import opened Wrappers

  type Time = int

  datatype Entry<+V> = Entry(key: string, value: V, expiresAt: Time)

  /** The position of a key, or the length of the sequence when it is absent. */
  function IndexOf<V>(s: seq<Entry<V>>, key: string): (i: nat)
    ensures i <= |s|
    ensures i < |s| ==> s[i].key == key
    ensures forall j :: 0 <= j < i ==> s[j].key != key
  {
    if s == [] || s[0].key == key then 0 else 1 + IndexOf(s[1..], key)
  }

  predicate Holds<V>(s: seq<Entry<V>>, key: string) {
    IndexOf(s, key) < |s|
  }

  ghost predicate DistinctKeys<V>(s: seq<Entry<V>>) {
    forall i, j :: 0 <= i < j < |s| ==> s[i].key != s[j].key
  }

  function DropAt<T>(s: seq<T>, i: nat): (r: seq<T>)
    requires i < |s|
    ensures |r| == |s| - 1
    ensures forall j :: 0 <= j < |r| ==> r[j] == s[if j < i then j else j + 1]
  {
    s[..i] + s[i + 1..]
  }

  function Truncate<T>(s: seq<T>, cap: int): seq<T> {
    if |s| <= cap then s else if cap < 0 then [] else s[..cap]
  }

  /** The sequence after `get`: a live entry moves to the front, an expired one goes. */
  function AfterGet<V>(s: seq<Entry<V>>, key: string, now: Time): seq<Entry<V>> {
    if !Holds(s, key) then s
    else
      var i := IndexOf(s, key);
      if now > s[i].expiresAt then DropAt(s, i) else [s[i]] + DropAt(s, i)
  }

  function Got<V>(s: seq<Entry<V>>, key: string, now: Time): Option<V> {
    if Holds(s, key) && now <= s[IndexOf(s, key)].expiresAt then Some(s[IndexOf(s, key)].value) else None
  }

  /** The sequence after `put`: the entry is in front; one that is new to the cache
      may push others off the far end. */
  function AfterPut<V>(s: seq<Entry<V>>, e: Entry<V>, cap: int): seq<Entry<V>> {
    if Holds(s, e.key) then [e] + DropAt(s, IndexOf(s, e.key)) else Truncate([e] + s, cap)
  }

  /** What the index map relies on: the sequence keeps its keys distinct and
      never grows beyond the capacity. */
  ghost predicate Fits<V>(s: seq<Entry<V>>, cap: int) {
    DistinctKeys(s) && |s| <= cap
  }

  lemma OperationsFit<V>(s: seq<Entry<V>>, key: string, now: Time, e: Entry<V>, cap: int)
    requires Fits(s, cap) && cap > 0
    ensures Fits(AfterGet(s, key, now), cap)
    ensures Fits(AfterPut(s, e, cap), cap)
  {
    if Holds(s, key) {
      DropIsDistinct(s, IndexOf(s, key));
      MoveIsDistinct(s, IndexOf(s, key), s[IndexOf(s, key)]);
    }
    if Holds(s, e.key) {
      MoveIsDistinct(s, IndexOf(s, e.key), e);
    } else {
      NewIsDistinct(s, e, cap);
    }
  }

  lemma MoveIsDistinct<V>(s: seq<Entry<V>>, i: nat, e: Entry<V>)
    requires i < |s| && DistinctKeys(s) && e.key == s[i].key
    ensures DistinctKeys([e] + DropAt(s, i))
  {
    DropIsDistinct(s, i);
  }

  lemma NewIsDistinct<V>(s: seq<Entry<V>>, e: Entry<V>, cap: int)
    requires cap > 0 && DistinctKeys(s) && !Holds(s, e.key)
    ensures Fits(Truncate([e] + s, cap), cap)
  {}

  lemma DropIsDistinct<V>(s: seq<Entry<V>>, i: nat)
    requires i < |s| && DistinctKeys(s)
    ensures DistinctKeys(DropAt(s, i))
    ensures forall j :: 0 <= j < |s| - 1 ==> DropAt(s, i)[j].key != s[i].key
  {
    assert forall j :: 0 <= j < |s| - 1 ==> DropAt(s, i)[j] == s[if j < i then j else j + 1];
  }

  // ---- Runs of lookups whose fetches succeed ---------------------------------------

  /** One sequential lookup: the key, the value a fetch would return, and the two
      clock readings, the second one taken only on a miss. */
  datatype Access<+V> = Access(key: string, fetched: V, getAt: Time, putAt: Time)

  predicate Hits<V>(s: seq<Entry<V>>, a: Access<V>) {
    Got(s, a.key, a.getAt).Some?
  }

  function AfterLookup<V>(s: seq<Entry<V>>, a: Access<V>, ttl: int, cap: int): seq<Entry<V>> {
    var s' := AfterGet(s, a.key, a.getAt);
    if Hits(s, a) then s' else AfterPut(s', Entry(a.key, a.fetched, a.putAt + ttl), cap)
  }

  function AfterLookups<V>(h: seq<Access<V>>, ttl: int, cap: int): seq<Entry<V>> {
    if h == [] then []
    else AfterLookup(AfterLookups(Init(h), ttl, cap), Last(h), ttl, cap)
  }

  /** No entry stored during the run is older than the ttl when the run ends. */
  ghost predicate NothingExpires<V>(h: seq<Access<V>>, ttl: int) {
    forall i, j :: 0 <= i < |h| && 0 <= j < |h| ==> h[j].getAt <= h[i].putAt + ttl
  }

  function HeldKeys<V>(s: seq<Entry<V>>): (ks: seq<string>)
    ensures |ks| == |s| && forall i :: 0 <= i < |s| ==> ks[i] == s[i].key
  {
    seq(|s|, i requires 0 <= i < |s| => s[i].key)
  }

  function History<V>(h: seq<Access<V>>): (ks: seq<string>)
    ensures |ks| == |h| && forall i :: 0 <= i < |h| ==> ks[i] == h[i].key
  {
    seq(|h|, i requires 0 <= i < |h| => h[i].key)
  }

  function Remove(ks: seq<string>, k: string): (r: seq<string>)
    ensures k !in ks ==> r == ks
  {
    if ks == [] then [] else if ks[0] == k then ks[1..] else [ks[0]] + Remove(ks[1..], k)
  }

  /** The distinct keys of a history read backwards. */
  function Recent(h: seq<string>): seq<string> {
    if h == [] then [] else [Last(h)] + Remove(Recent(Init(h)), Last(h))
  }

  ghost predicate Distinct(ks: seq<string>) {
    forall i, j :: 0 <= i < j < |ks| ==> ks[i] != ks[j]
  }

  lemma {:induction false} RemoveAt(ks: seq<string>, i: nat)
    requires i < |ks| && Distinct(ks)
    ensures Remove(ks, ks[i]) == ks[..i] + ks[i + 1..]
  {
    if i > 0 {
      var t := ks[1..];
      assert t[i - 1] == ks[i];
      RemoveAt(t, i - 1);
      assert [ks[0]] + (t[..i - 1] + t[i..]) == ks[..i] + ks[i + 1..];
    }
  }

  lemma {:induction false} RecentIsDistinct(h: seq<string>)
    ensures Distinct(Recent(h))
    ensures forall k :: k in Recent(h) <==> k in h
  {
    if h != [] {
      var (p, k) := (Init(h), Last(h));
      RecentIsDistinct(p);
      assert h == p + [k];
      TouchIsDistinct(Recent(p), k);
    }
  }

  lemma TouchIsDistinct(r: seq<string>, k: string)
    requires Distinct(r)
    ensures Distinct([k] + Remove(r, k))
    ensures forall x :: x in [k] + Remove(r, k) <==> x == k || x in r
  {
    if k in r {
      TouchHeld(r, k);
    } else {
      NewInFront(r, k);
    }
  }

  lemma TouchHeld(r: seq<string>, k: string)
    requires Distinct(r) && k in r
    ensures Distinct([k] + Remove(r, k))
    ensures forall x :: x in [k] + Remove(r, k) <==> x in r
  {
    var i :| 0 <= i < |r| && r[i] == k;
    RemoveAt(r, i);
    assert r == r[..i] + [k] + r[i + 1..];
    MoveToFront(r[..i], k, r[i + 1..]);
  }

  lemma MoveToFront(a: seq<string>, k: string, b: seq<string>)
    requires Distinct(a + [k] + b)
    ensures Distinct([k] + (a + b))
    ensures forall x :: x in [k] + (a + b) <==> x in a + [k] + b
  {
    var (r, t) := (a + [k] + b, [k] + (a + b));
    assert r[|a|] == k;
    assert forall i :: 1 <= i < |t| ==> t[i] == r[if i <= |a| then i - 1 else i];
  }

  lemma NewInFront(r: seq<string>, k: string)
    requires Distinct(r) && k !in r
    ensures Distinct([k] + r)
    ensures forall x :: x in [k] + r <==> x == k || x in r
  {}

  /** Cutting before or after moving a key to the front makes no difference. */
  lemma TouchTruncated(ks: seq<string>, k: string, cap: int)
    requires cap > 0 && Distinct(ks)
    ensures Truncate([k] + Remove(Truncate(ks, cap), k), cap) == Truncate([k] + Remove(ks, k), cap)
  {
    if |ks| > cap {
      if i :| 0 <= i < |ks| && ks[i] == k {
        TouchCut(ks, i, cap);
      } else {
        assert k !in ks[..cap];
        assert ([k] + ks[..cap])[..cap] == ([k] + ks)[..cap];
      }
    }
  }

  lemma TouchCut(ks: seq<string>, i: nat, cap: int)
    requires 0 < cap < |ks| && Distinct(ks) && i < |ks|
    ensures var k := ks[i];
            Truncate([k] + Remove(ks[..cap], k), cap) == Truncate([k] + Remove(ks, k), cap)
  {
    RemoveAt(ks, i);
    if i < cap {
      TouchKept(ks, i, cap);
    } else {
      TouchLost(ks, i, cap);
    }
  }

  lemma TouchKept(ks: seq<string>, i: nat, cap: int)
    requires i < cap < |ks| && Distinct(ks)
    ensures Truncate([ks[i]] + Remove(ks[..cap], ks[i]), cap) == Truncate([ks[i]] + (ks[..i] + ks[i + 1..]), cap)
  {
    var (k, cut) := (ks[i], ks[..cap]);
    assert cut[i] == k;
    RemoveAt(cut, i);
    var (front, mid, tail) := (ks[..i], ks[i + 1..cap], ks[cap..]);
    assert cut[..i] == front && cut[i + 1..] == mid && ks[i + 1..] == mid + tail;
    CutBehind([k] + (front + mid), tail, cap);
    Regroup(front, mid, tail);
    Regroup([k], front + mid, tail);
  }

  lemma TouchLost(ks: seq<string>, i: nat, cap: int)
    requires 0 < cap <= i < |ks| && Distinct(ks)
    ensures Truncate([ks[i]] + Remove(ks[..cap], ks[i]), cap) == Truncate([ks[i]] + (ks[..i] + ks[i + 1..]), cap)
  {
    var (k, cut, mid, tail) := (ks[i], ks[..cap], ks[cap..i], ks[i + 1..]);
    assert k !in cut;
    assert ks[..i] == cut + mid;
    CutBehind([k] + cut, mid + tail, cap);
    assert [k] + (cut + mid + tail) == [k] + cut + (mid + tail);
  }

  lemma CutBehind(p: seq<string>, rest: seq<string>, cap: nat)
    requires cap <= |p|
    ensures Truncate(p + rest, cap) == Truncate(p, cap)
  {
    assert (p + rest)[..cap] == p[..cap];
    assert p[..|p|] == p && (|p| == cap ==> (p + rest)[..cap] == p);
  }

  lemma HeldKeysParts<V>(s: seq<Entry<V>>, i: nat)
    requires i < |s|
    ensures HeldKeys(DropAt(s, i)) == DropAt(HeldKeys(s), i)
    ensures HeldKeys([s[i]] + DropAt(s, i)) == [s[i].key] + DropAt(HeldKeys(s), i)
  {
    assert forall j :: 0 <= j < |s| - 1 ==> DropAt(s, i)[j] == s[if j < i then j else j + 1];
  }

  lemma HeldKeysOfPut<V>(s: seq<Entry<V>>, e: Entry<V>, cap: int)
    ensures HeldKeys(Truncate([e] + s, cap)) == Truncate([e.key] + HeldKeys(s), cap)
  {
    var t := [e] + s;
    assert HeldKeys(t) == [e.key] + HeldKeys(s) by {
      assert forall i :: 0 <= i < |s| ==> t[i + 1] == s[i];
    }
    HeldKeysOfPrefix(t, cap);
  }

  lemma HeldKeysOfPrefix<V>(t: seq<Entry<V>>, cap: int)
    ensures HeldKeys(Truncate(t, cap)) == Truncate(HeldKeys(t), cap)
  {}

  lemma HeldIsHolds<V>(s: seq<Entry<V>>, key: string)
    ensures Holds(s, key) <==> key in HeldKeys(s)
    ensures Holds(s, key) ==> HeldKeys(s)[IndexOf(s, key)] == key
  {}

  lemma HeldIsDistinct<V>(s: seq<Entry<V>>)
    requires DistinctKeys(s)
    ensures Distinct(HeldKeys(s))
  {}

  /** A lookup hits a held entry that has not expired. */
  lemma HitIffLive<V>(s: seq<Entry<V>>, a: Access<V>)
    ensures Hits(s, a) <==> a.key in HeldKeys(s) && a.getAt <= s[IndexOf(s, a.key)].expiresAt
  {
    HeldIsHolds(s, a.key);
  }

  /** Every lookup moves its key to the front: a hit does, and so does an entry that
      is new or was found expired, dropped and fetched again. */
  lemma LookupTouches<V>(s: seq<Entry<V>>, a: Access<V>, ttl: int, cap: int)
    requires Fits(s, cap) && cap > 0
    ensures HeldKeys(AfterLookup(s, a, ttl, cap)) == Truncate([a.key] + Remove(HeldKeys(s), a.key), cap)
  {
    HeldIsHolds(s, a.key);
    HeldIsDistinct(s);
    if Holds(s, a.key) {
      HeldTouches(s, a, ttl, cap);
    } else {
      var e := Entry(a.key, a.fetched, a.putAt + ttl);
      HeldKeysOfPut(s, e, cap);
      assert AfterLookup(s, a, ttl, cap) == Truncate([e] + s, cap);
    }
  }

  lemma HeldTouches<V>(s: seq<Entry<V>>, a: Access<V>, ttl: int, cap: int)
    requires Fits(s, cap) && cap > 0 && Holds(s, a.key)
    requires Distinct(HeldKeys(s)) && HeldKeys(s)[IndexOf(s, a.key)] == a.key
    ensures HeldKeys(AfterLookup(s, a, ttl, cap)) == Truncate([a.key] + Remove(HeldKeys(s), a.key), cap)
  {
    var (ks, i) := (HeldKeys(s), IndexOf(s, a.key));
    HeldKeysParts(s, i);
    RemoveAt(ks, i);
    if a.getAt > s[i].expiresAt {
      var e := Entry(a.key, a.fetched, a.putAt + ttl);
      ExpiredIsReplaced(s, a, ttl, cap);
      HeldKeysOfPut(DropAt(s, i), e, cap);
    }
  }

  lemma ExpiredIsReplaced<V>(s: seq<Entry<V>>, a: Access<V>, ttl: int, cap: int)
    requires DistinctKeys(s) && Holds(s, a.key) && a.getAt > s[IndexOf(s, a.key)].expiresAt
    ensures AfterLookup(s, a, ttl, cap)
            == Truncate([Entry(a.key, a.fetched, a.putAt + ttl)] + DropAt(s, IndexOf(s, a.key)), cap)
  {
    DropIsGone(s, a.key);
    PutNew(DropAt(s, IndexOf(s, a.key)), Entry(a.key, a.fetched, a.putAt + ttl), cap);
  }

  lemma DropIsGone<V>(s: seq<Entry<V>>, key: string)
    requires DistinctKeys(s) && Holds(s, key)
    ensures !Holds(DropAt(s, IndexOf(s, key)), key)
  {
    DropIsDistinct(s, IndexOf(s, key));
  }

  lemma PutNew<V>(s: seq<Entry<V>>, e: Entry<V>, cap: int)
    requires !Holds(s, e.key)
    ensures AfterPut(s, e, cap) == Truncate([e] + s, cap)
  {}

  /** What a lookup leaves was there before, or is what was fetched. */
  lemma LookupKeeps<V>(s: seq<Entry<V>>, a: Access<V>, ttl: int, cap: int, e: Entry<V>)
    requires e in AfterLookup(s, a, ttl, cap)
    ensures e in s || e == Entry(a.key, a.fetched, a.putAt + ttl)
  {
    var s' := AfterGet(s, a.key, a.getAt);
    GetKeeps(s, a.key, a.getAt, e);
    if !Hits(s, a) {
      PutKeeps(s', Entry(a.key, a.fetched, a.putAt + ttl), cap, e);
    }
  }

  lemma GetKeeps<V>(s: seq<Entry<V>>, key: string, now: Time, e: Entry<V>)
    ensures e in AfterGet(s, key, now) ==> e in s
  {}

  lemma PutKeeps<V>(s: seq<Entry<V>>, n: Entry<V>, cap: int, e: Entry<V>)
    ensures e in AfterPut(s, n, cap) ==> e in s || e == n
  {}

  lemma LookupFits<V>(s: seq<Entry<V>>, a: Access<V>, ttl: int, cap: int)
    requires Fits(s, cap) && cap > 0
    ensures Fits(AfterLookup(s, a, ttl, cap), cap)
  {
    var n := Entry(a.key, a.fetched, a.putAt + ttl);
    OperationsFit(s, a.key, a.getAt, n, cap);
    OperationsFit(AfterGet(s, a.key, a.getAt), a.key, a.getAt, n, cap);
  }

  lemma {:induction false} RunInvariant<V>(h: seq<Access<V>>, ttl: int, cap: int)
    requires cap > 0
    ensures Fits(AfterLookups(h, ttl, cap), cap)
    ensures forall e :: e in AfterLookups(h, ttl, cap) ==>
              exists i :: 0 <= i < |h| && e.expiresAt == h[i].putAt + ttl
  {
    if h != [] {
      var (p, a) := (Init(h), Last(h));
      RunInvariant(p, ttl, cap);
      var s := AfterLookups(p, ttl, cap);
      LookupFits(s, a, ttl, cap);
      forall e | e in AfterLookups(h, ttl, cap)
        ensures exists i :: 0 <= i < |h| && e.expiresAt == h[i].putAt + ttl
      {
        LookupKeeps(s, a, ttl, cap, e);
        if e in s {
          var i :| 0 <= i < |p| && e.expiresAt == p[i].putAt + ttl;
          assert h[i] == p[i];
        } else {
          assert h[|h| - 1] == a;
        }
      }
    }
  }

  /** Residency. Whatever has expired in between, the keys held after any run of
      lookups are exactly the first `cap` distinct keys of the history read
      backwards, in that order. */
  lemma {:induction false} HoldsMostRecent<V>(h: seq<Access<V>>, ttl: int, cap: int)
    requires cap > 0
    ensures HeldKeys(AfterLookups(h, ttl, cap)) == Truncate(Recent(History(h)), cap)
  {
    if h != [] {
      var (p, a) := (Init(h), Last(h));
      HoldsMostRecent(p, ttl, cap);
      RunInvariant(p, ttl, cap);
      LookupTouches(AfterLookups(p, ttl, cap), a, ttl, cap);
      assert Init(History(h)) == History(p);
      RecentIsDistinct(History(p));
      TouchTruncated(Recent(History(p)), a.key, cap);
    }
  }

  /** The keys before `i` after `x` has moved to the front of `r`. */
  lemma PrefixAfterTouch(r: seq<string>, x: string, i: nat) returns (i': nat)
    requires Distinct(r) && i < |r| && r[i] != x
    ensures var r' := [x] + Remove(r, x);
            && i' < |r'| && i' <= i + 1 && r'[i'] == r[i]
            && forall k :: k in r'[..i'] <==> k == x || k in r[..i]
  {
    if m :| 0 <= m < |r| && r[m] == x {
      RemoveAt(r, m);
      if m < i {
        i' := i;
        MovedFromBefore(r, x, m, i);
      } else {
        i' := i + 1;
        assert ([x] + (r[..m] + r[m + 1..]))[..i'] == [x] + r[..i];
      }
    } else {
      i' := i + 1;
      assert ([x] + r)[..i'] == [x] + r[..i];
    }
  }

  lemma MovedFromBefore(r: seq<string>, x: string, m: nat, i: nat)
    requires m < i < |r| && r[m] == x
    ensures var r' := [x] + (r[..m] + r[m + 1..]);
            i < |r'| && r'[i] == r[i] && forall k :: k in r'[..i] <==> k == x || k in r[..i]
  {
    var (a, b) := (r[..m], r[m + 1..i]);
    assert ([x] + (r[..m] + r[m + 1..]))[..i] == [x] + (a + b);
    assert r[..i] == a + [x] + b;
    assert forall k :: k in [x] + (a + b) <==> k == x || k in a + [x] + b;
  }

  /** Where a key sits among the recent ones: right behind the distinct keys that
      were accessed after its last access. */
  lemma {:induction false} RecentPosition(h: seq<string>, j: nat) returns (i: nat)
    requires j < |h| && h[j] !in h[j + 1..]
    ensures i < |Recent(h)| && Recent(h)[i] == h[j]
    ensures forall k :: k in Recent(h)[..i] <==> k in h[j + 1..]
  {
    var (p, x) := (Init(h), Last(h));
    if j == |h| - 1 {
      i := 0;
    } else {
      RecentIsDistinct(p);
      assert h[j + 1..] == p[j + 1..] + [x];
      assert x in h[j + 1..];
      i := RecentPosition(p, j);
      i := PrefixAfterTouch(Recent(p), x, i);
    }
  }

  /** The distinct keys of a history. */
  function Elements(ks: seq<string>): set<string> {
    set i | 0 <= i < |ks| :: ks[i]
  }

  lemma {:induction false} DistinctSize(ks: seq<string>, keys: set<string>)
    requires Distinct(ks) && forall k :: k in ks <==> k in keys
    ensures |ks| == |keys|
  {
    if ks == [] {
      assert keys == {};
    } else {
      assert ks == [ks[0]] + ks[1..];
      DistinctSize(ks[1..], keys - {ks[0]});
    }
  }

  /** The store time of a key: when the last of its lookups that missed put it back. */
  function LastStore<V>(h: seq<Access<V>>, key: string, ttl: int, cap: int): Option<Time> {
    if h == [] then None
    else if Last(h).key == key && !Hits(AfterLookups(Init(h), ttl, cap), Last(h)) then Some(Last(h).putAt)
    else LastStore(Init(h), key, ttl, cap)
  }

  /** Every held entry expires one ttl after its key's last store. */
  lemma {:induction false} ExpiryIsLastStore<V>(h: seq<Access<V>>, ttl: int, cap: int)
    requires cap > 0
    ensures forall e :: e in AfterLookups(h, ttl, cap) ==>
              var stored := LastStore(h, e.key, ttl, cap);
              stored.Some? && e.expiresAt == stored.value + ttl
  {
    if h != [] {
      var (p, a) := (Init(h), Last(h));
      ExpiryIsLastStore(p, ttl, cap);
      RunInvariant(p, ttl, cap);
      forall e | e in AfterLookups(h, ttl, cap)
        ensures var stored := LastStore(h, e.key, ttl, cap);
                stored.Some? && e.expiresAt == stored.value + ttl
      {
        LookupKeeps(AfterLookups(p, ttl, cap), a, ttl, cap, e);
        MissReplaces(AfterLookups(p, ttl, cap), a, ttl, cap, e);
      }
    }
  }

  /** After a miss the only entry for the key is the one just fetched; after a hit
      there is no new one. */
  lemma MissReplaces<V>(s: seq<Entry<V>>, a: Access<V>, ttl: int, cap: int, e: Entry<V>)
    requires DistinctKeys(s) && e in AfterLookup(s, a, ttl, cap)
    ensures if e.key == a.key && !Hits(s, a) then e == Entry(a.key, a.fetched, a.putAt + ttl) else e in s
  {
    LookupKeeps(s, a, ttl, cap, e);
    if Hits(s, a) {
      GetKeeps(s, a.key, a.getAt, e);
    } else if Holds(s, a.key) {
      ExpiredIsReplaced(s, a, ttl, cap);
      DropIsDistinct(s, IndexOf(s, a.key));
    }
  }

  /** The exact hit law: a lookup hits if and only if fewer than `cap` distinct keys
      were accessed since its key's last access, and the key's last store plus the
      ttl has not passed. */
  lemma HitLaw<V>(h: seq<Access<V>>, a: Access<V>, j: nat, ttl: int, cap: int)
    requires cap > 0 && j < |h| && h[j].key == a.key && a.key !in History(h)[j + 1..]
    ensures var stored := LastStore(h, a.key, ttl, cap);
            Hits(AfterLookups(h, ttl, cap), a) <==>
              |Elements(History(h)[j + 1..])| < cap && stored.Some? && a.getAt <= stored.value + ttl
  {
    HeldIffFewKeysSince(h, a.key, j, ttl, cap);
    HitIffStoredLately(h, a, ttl, cap);
  }

  lemma HeldIffFewKeysSince<V>(h: seq<Access<V>>, key: string, j: nat, ttl: int, cap: int)
    requires cap > 0 && j < |h| && h[j].key == key && key !in History(h)[j + 1..]
    ensures key in HeldKeys(AfterLookups(h, ttl, cap)) <==> |Elements(History(h)[j + 1..])| < cap
  {
    var (ks, since) := (History(h), Elements(History(h)[j + 1..]));
    HoldsMostRecent(h, ttl, cap);
    var i := RecentPosition(ks, j);
    RecentIsDistinct(ks);
    DistinctSize(Recent(ks)[..i], since);
    assert key in Truncate(Recent(ks), cap) <==> i < cap;
  }

  lemma HitIffStoredLately<V>(h: seq<Access<V>>, a: Access<V>, ttl: int, cap: int)
    requires cap > 0
    ensures var (s, stored) := (AfterLookups(h, ttl, cap), LastStore(h, a.key, ttl, cap));
            Hits(s, a) <==> a.key in HeldKeys(s) && stored.Some? && a.getAt <= stored.value + ttl
  {
    var s := AfterLookups(h, ttl, cap);
    HitIffLive(s, a);
    HeldIsHolds(s, a.key);
    ExpiryIsLastStore(h, ttl, cap);
    if Holds(s, a.key) {
      assert s[IndexOf(s, a.key)] in s;
    }
  }

  /** A key that was never accessed is never hit. */
  lemma NeverAccessedMisses<V>(h: seq<Access<V>>, a: Access<V>, ttl: int, cap: int)
    requires cap > 0 && a.key !in History(h)
    ensures !Hits(AfterLookups(h, ttl, cap), a)
  {
    HoldsMostRecent(h, ttl, cap);
    RecentIsDistinct(History(h));
    HitIffLive(AfterLookups(h, ttl, cap), a);
  }

  /** When nothing expires, the number of distinct keys alone decides. */
  lemma HitIffFewKeysSince<V>(h: seq<Access<V>>, a: Access<V>, j: nat, ttl: int, cap: int)
    requires cap > 0 && NothingExpires(h + [a], ttl)
    requires j < |h| && h[j].key == a.key && a.key !in History(h)[j + 1..]
    ensures Hits(AfterLookups(h, ttl, cap), a) <==>
              |Elements(History(h)[j + 1..])| < cap
  {
    HeldIffFewKeysSince(h, a.key, j, ttl, cap);
    HeldIsLive(h, a, ttl, cap);
  }

  lemma HeldIsLive<V>(h: seq<Access<V>>, a: Access<V>, ttl: int, cap: int)
    requires cap > 0 && NothingExpires(h + [a], ttl)
    ensures var s := AfterLookups(h, ttl, cap); Hits(s, a) <==> a.key in HeldKeys(s)
  {
    var (s, ha) := (AfterLookups(h, ttl, cap), h + [a]);
    HitIffLive(s, a);
    HeldIsHolds(s, a.key);
    if Holds(s, a.key) {
      RunInvariant(h, ttl, cap);
      assert s[IndexOf(s, a.key)] in s;
      var i :| 0 <= i < |h| && s[IndexOf(s, a.key)].expiresAt == h[i].putAt + ttl;
      assert ha[i] == h[i] && ha[|h|] == a;
    }
  }

  /** A larger cache holds whatever a smaller one holds. */
  lemma MoreCapacityHoldsMore<V>(h: seq<Access<V>>, ttl: int, cap: int, larger: int)
    requires 0 < cap <= larger
    ensures HeldKeys(AfterLookups(h, ttl, cap)) <= HeldKeys(AfterLookups(h, ttl, larger))
  {
    HoldsMostRecent(h, ttl, cap);
    HoldsMostRecent(h, ttl, larger);
  }

  /** What is a hit at one capacity is one at a larger capacity exactly when the
      larger cache's last store of the key has not expired. */
  lemma MoreCapacityIff<V>(h: seq<Access<V>>, a: Access<V>, ttl: int, cap: int, larger: int)
    requires 0 < cap <= larger && Hits(AfterLookups(h, ttl, cap), a)
    ensures var stored := LastStore(h, a.key, ttl, larger);
            stored.Some? && (Hits(AfterLookups(h, ttl, larger), a) <==> a.getAt <= stored.value + ttl)
  {
    HitIffLive(AfterLookups(h, ttl, cap), a);
    MoreCapacityHoldsMore(h, ttl, cap, larger);
    var s := AfterLookups(h, ttl, larger);
    HeldIsHolds(s, a.key);
    ExpiryIsLastStore(h, ttl, larger);
    assert s[IndexOf(s, a.key)] in s;
    HitIffStoredLately(h, a, ttl, larger);
  }

  /** So when nothing expires more capacity never hurts. */
  lemma MoreCapacityNeverHurts<V>(h: seq<Access<V>>, a: Access<V>, ttl: int, cap: int, larger: int)
    requires 0 < cap <= larger && NothingExpires(h + [a], ttl)
    requires Hits(AfterLookups(h, ttl, cap), a)
    ensures Hits(AfterLookups(h, ttl, larger), a)
  {
    HeldIsLive(h, a, ttl, cap);
    MoreCapacityHoldsMore(h, ttl, cap, larger);
    HeldIsLive(h, a, ttl, larger);
  }

  /** With expiry it can: the smaller cache had to fetch the key again and so holds
      the younger copy. */
  lemma MoreCapacityCanHurt<V>(v: V)
    ensures var h := [Access("x", v, 0, 0), Access("y", v, 5, 5), Access("x", v, 6, 6)];
            var a := Access("x", v, 12, 12);
            Hits(AfterLookups(h, 10, 1), a) && !Hits(AfterLookups(h, 10, 2), a)
  {
    var (x, y, z) := (Access("x", v, 0, 0), Access("y", v, 5, 5), Access("x", v, 6, 6));
    var h := [x, y, z];
    assert Init(h) == [x, y] && Init([x, y]) == [x] && Init([x]) == [];
    var (e0, e5, e6) := (Entry("x", v, 10), Entry("y", v, 15), Entry("x", v, 16));
    assert AfterLookups([x], 10, 1) == [e0] == AfterLookups([x], 10, 2);
    assert AfterLookups([x, y], 10, 1) == [e5] && AfterLookups([x, y], 10, 2) == [e5, e0];
    assert AfterLookups(h, 10, 1) == [e6];
    assert IndexOf([e5, e0], "x") == 1;
    assert AfterLookups(h, 10, 2) == [e0, e5];
  }

  /** The same fact about histories of keys alone. */
  lemma VictimIsOldest(ks: seq<string>, x: string, k: string, j: nat, cap: int)
    requires cap > 0
    requires k in Truncate(Recent(ks), cap) && k !in Truncate(Recent(ks + [x]), cap)
    requires j < |ks| && ks[j] == k && k !in ks[j + 1..]
    ensures forall other :: other in Truncate(Recent(ks), cap) && other != k ==> other in ks[j + 1..]
  {
    RecentIsDistinct(ks);
    var r := Recent(ks);
    var i := RecentPosition(ks, j);
    RecentSnoc(ks, x);
    VictimIsLast(r, x, k, i, cap);
    InFront(r[..i], k, ks[j + 1..]);
  }

  lemma InFront(before: seq<string>, k: string, since: seq<string>)
    requires forall x :: x in before <==> x in since
    ensures forall x :: x in before + [k] && x != k ==> x in since
  {}

  lemma RecentSnoc(ks: seq<string>, x: string)
    ensures Recent(ks + [x]) == [x] + Remove(Recent(ks), x)
  {
    assert Init(ks + [x]) == ks;
  }

  lemma VictimIsLast(r: seq<string>, x: string, k: string, i: nat, cap: int)
    requires cap > 0 && Distinct(r) && i < |r| && r[i] == k
    requires k in Truncate(r, cap) && k !in Truncate([x] + Remove(r, x), cap)
    ensures Truncate(r, cap) == r[..i] + [k]
  {
    HeldAt(r, k, i, cap);
    LostAt(r, x, k, i, cap);
    LastKept(r, i);
  }

  lemma LastKept(r: seq<string>, i: nat)
    requires i < |r|
    ensures Truncate(r, i + 1) == r[..i] + [r[i]]
  {}

  lemma LostAt(r: seq<string>, x: string, k: string, i: nat, cap: int)
    requires Distinct(r) && i < |r| && r[i] == k && k !in Truncate([x] + Remove(r, x), cap)
    ensures i >= cap - 1
  {
    if i < cap - 1 {
      OutlivesTouch(r, x, k, i, cap);
    }
  }

  lemma HeldAt(r: seq<string>, k: string, i: nat, cap: int)
    requires cap > 0 && Distinct(r) && i < |r| && r[i] == k && k in Truncate(r, cap)
    ensures i < cap
  {
    var m :| 0 <= m < |Truncate(r, cap)| && Truncate(r, cap)[m] == k;
    assert r[m] == k;
  }

  lemma OutlivesTouch(r: seq<string>, x: string, k: string, i: nat, cap: int)
    requires Distinct(r) && i < |r| && r[i] == k && i < cap - 1
    ensures k in Truncate([x] + Remove(r, x), cap)
  {
    var r' := [x] + Remove(r, x);
    if k == x {
      assert Truncate(r', cap)[0] == k;
    } else {
      var i' := PrefixAfterTouch(r, x, i);
      assert Truncate(r', cap)[i'] == k;
    }
  }

  /** A key that a lookup pushes out is the least recently accessed one: every
      other key held at that point was accessed after its last access. */
  lemma EvictsLeastRecent<V>(h: seq<Access<V>>, a: Access<V>, k: string, j: nat, ttl: int, cap: int)
    requires cap > 0
    requires k in HeldKeys(AfterLookups(h, ttl, cap))
    requires k !in HeldKeys(AfterLookups(h + [a], ttl, cap))
    requires j < |h| && h[j].key == k && k !in History(h)[j + 1..]
    ensures forall other :: other in HeldKeys(AfterLookups(h, ttl, cap)) && other != k ==>
              other in History(h)[j + 1..]
  {
    assert History(h + [a]) == History(h) + [a.key];
    HoldsMostRecent(h, ttl, cap);
    HoldsMostRecent(h + [a], ttl, cap);
    VictimIsOldest(History(h), a.key, k, j, cap);
  }

  // ---- Runs of single operations ---------------------------------------------------

  /** One call on the cache. Lookups whose fetches fail, expiries and the interleaved
      calls of many callers are all runs of these. */
  datatype Op<+V> = GetOp(key: string, now: Time) | PutOp(entry: Entry<V>)

  function AfterOp<V>(s: seq<Entry<V>>, op: Op<V>, cap: int): seq<Entry<V>> {
    match op
    case GetOp(key, now) => AfterGet(s, key, now)
    case PutOp(e) => AfterPut(s, e, cap)
  }

  function AfterOps<V>(h: seq<Op<V>>, cap: int): seq<Entry<V>> {
    if h == [] then [] else AfterOp(AfterOps(Init(h), cap), Last(h), cap)
  }

  /** The key that a call touches, if any: a put always does, a get when it hits. */
  predicate Touches<V>(s: seq<Entry<V>>, op: Op<V>, key: string) {
    match op
    case GetOp(k, now) => k == key && Got(s, k, now).Some?
    case PutOp(e) => e.key == key
  }

  /** How many calls had been made when the key was last touched, that call included. */
  function LastTouch<V>(h: seq<Op<V>>, key: string, cap: int): (n: nat)
    ensures n <= |h|
  {
    if h == [] then 0
    else if Touches(AfterOps(Init(h), cap), Last(h), key) then |h|
    else LastTouch(Init(h), key, cap)
  }

  /** Entries stand in the order of their last touches, the latest first. */
  ghost predicate InTouchOrder<V>(s: seq<Entry<V>>, h: seq<Op<V>>, cap: int) {
    forall i, j :: 0 <= i < j < |s| ==> LastTouch(h, s[i].key, cap) > LastTouch(h, s[j].key, cap)
  }

  /** Recency over arbitrary runs of gets and puts, at any clock readings: the cache
      fits, and its entries stand in the order of their last touches. */
  lemma {:induction false} OpsKeepOrder<V>(h: seq<Op<V>>, cap: int)
    requires cap > 0
    ensures Fits(AfterOps(h, cap), cap)
    ensures InTouchOrder(AfterOps(h, cap), h, cap)
  {
    if h != [] {
      var (p, op) := (Init(h), Last(h));
      OpsKeepOrder(p, cap);
      var s := AfterOps(p, cap);
      OpFits(s, op, cap);
      OpKeepsOrder(s, h, cap);
    }
  }

  lemma OpFits<V>(s: seq<Entry<V>>, op: Op<V>, cap: int)
    requires Fits(s, cap) && cap > 0
    ensures Fits(AfterOp(s, op, cap), cap)
  {
    match op
    case GetOp(key, now) =>
      if Holds(s, key) {
        DropIsDistinct(s, IndexOf(s, key));
        MoveIsDistinct(s, IndexOf(s, key), s[IndexOf(s, key)]);
      }
    case PutOp(e) =>
      if Holds(s, e.key) {
        MoveIsDistinct(s, IndexOf(s, e.key), e);
      } else {
        NewIsDistinct(s, e, cap);
      }
  }

  lemma OpKeepsOrder<V>(s: seq<Entry<V>>, h: seq<Op<V>>, cap: int)
    requires h != [] && cap > 0 && s == AfterOps(Init(h), cap) && DistinctKeys(s) && InTouchOrder(s, Init(h), cap)
    ensures InTouchOrder(AfterOp(s, Last(h), cap), h, cap)
  {
    match Last(h)
    case GetOp(key, now) =>
      if !Holds(s, key) {
        Untouched(s, s, h, cap);
      } else {
        var i := IndexOf(s, key);
        DropInOrder(s, i, Init(h), cap);
        DropIsDistinct(s, i);
        Untouched(s, DropAt(s, i), h, cap);
        if now <= s[i].expiresAt {
          FrontInOrder(s[i], DropAt(s, i), h, cap);
        }
      }
    case PutOp(e) =>
      if Holds(s, e.key) {
        var i := IndexOf(s, e.key);
        DropInOrder(s, i, Init(h), cap);
        DropIsDistinct(s, i);
        Untouched(s, DropAt(s, i), h, cap);
        FrontInOrder(e, DropAt(s, i), h, cap);
      } else {
        Untouched(s, s, h, cap);
        FrontInOrder(e, s, h, cap);
        CutInOrder([e] + s, h, cap);
      }
  }

  /** Entries that the last call did not touch keep their order, and all of them were
      touched before that call. */
  lemma Untouched<V>(s: seq<Entry<V>>, r: seq<Entry<V>>, h: seq<Op<V>>, cap: int)
    requires h != [] && s == AfterOps(Init(h), cap) && InTouchOrder(r, Init(h), cap)
    requires forall i :: 0 <= i < |r| ==> !Touches(s, Last(h), r[i].key)
    ensures InTouchOrder(r, h, cap)
    ensures forall i :: 0 <= i < |r| ==> LastTouch(h, r[i].key, cap) < |h|
  {}

  lemma DropInOrder<V>(s: seq<Entry<V>>, i: nat, h: seq<Op<V>>, cap: int)
    requires i < |s| && InTouchOrder(s, h, cap)
    ensures InTouchOrder(DropAt(s, i), h, cap)
  {}

  lemma FrontInOrder<V>(e: Entry<V>, r: seq<Entry<V>>, h: seq<Op<V>>, cap: int)
    requires InTouchOrder(r, h, cap)
    requires forall i :: 0 <= i < |r| ==> LastTouch(h, r[i].key, cap) < LastTouch(h, e.key, cap)
    ensures InTouchOrder([e] + r, h, cap)
  {}

  lemma CutInOrder<V>(s: seq<Entry<V>>, h: seq<Op<V>>, cap: int)
    requires InTouchOrder(s, h, cap)
    ensures InTouchOrder(Truncate(s, cap), h, cap)
  {}

  /** Every eviction removes the least recently touched key: when a put pushes a key
      out, all other keys held before it were touched later. */
  lemma EvictsLeastTouched<V>(h: seq<Op<V>>, e: Entry<V>, k: string, other: string, cap: int)
    requires cap > 0
    requires Holds(AfterOps(h, cap), k) && !Holds(AfterOps(h + [PutOp(e)], cap), k)
    requires Holds(AfterOps(h, cap), other) && other != k
    ensures LastTouch(h, other, cap) > LastTouch(h, k, cap)
  {
    OpsKeepOrder(h, cap);
    AfterOpsSnoc(h, PutOp(e), cap);
    VictimIsBehind(AfterOps(h, cap), e, k, other, cap);
    BehindIsEarlier(AfterOps(h, cap), h, other, k, cap);
  }

  lemma AfterOpsSnoc<V>(h: seq<Op<V>>, op: Op<V>, cap: int)
    ensures AfterOps(h + [op], cap) == AfterOp(AfterOps(h, cap), op, cap)
  {
    assert Init(h + [op]) == h;
  }

  lemma VictimIsBehind<V>(s: seq<Entry<V>>, e: Entry<V>, k: string, other: string, cap: int)
    requires Fits(s, cap) && cap > 0 && Holds(s, k) && !Holds(AfterPut(s, e, cap), k)
    requires Holds(s, other) && other != k
    ensures IndexOf(s, other) < IndexOf(s, k)
  {
    EvictedIsLast(s, e, k, cap);
    BeforeLast(s, k, other);
  }

  lemma BeforeLast<V>(s: seq<Entry<V>>, k: string, other: string)
    requires Holds(s, other) && other != k && Holds(s, k) && IndexOf(s, k) == |s| - 1
    ensures IndexOf(s, other) < IndexOf(s, k)
  {
    assert s[IndexOf(s, other)].key == other && s[|s| - 1].key == k;
  }

  lemma BehindIsEarlier<V>(s: seq<Entry<V>>, h: seq<Op<V>>, other: string, k: string, cap: int)
    requires InTouchOrder(s, h, cap) && IndexOf(s, other) < IndexOf(s, k) < |s|
    ensures LastTouch(h, other, cap) > LastTouch(h, k, cap)
  {
    assert s[IndexOf(s, other)].key == other && s[IndexOf(s, k)].key == k;
  }

  lemma PutKeepsKeys<V>(s: seq<Entry<V>>, e: Entry<V>, k: string, cap: int)
    requires Holds(s, e.key) && Holds(s, k)
    ensures Holds(AfterPut(s, e, cap), k)
  {
    var (s', i, j) := (AfterPut(s, e, cap), IndexOf(s, e.key), IndexOf(s, k));
    assert k == e.key ==> s'[0].key == k;
    assert k != e.key ==> s'[1..] == DropAt(s, i) && DropAt(s, i)[if j < i then j else j - 1].key == k;
    assert exists m :: 0 <= m < |s'| && s'[m].key == k;
  }

  lemma EvictedIsLast<V>(s: seq<Entry<V>>, e: Entry<V>, k: string, cap: int)
    requires Fits(s, cap) && cap > 0 && Holds(s, k) && !Holds(AfterPut(s, e, cap), k)
    ensures IndexOf(s, k) == |s| - 1
  {
    if Holds(s, e.key) {
      PutKeepsKeys(s, e, k, cap);
    } else {
      PutNew(s, e, cap);
      CutLosesLast(s, e, k, cap);
    }
  }

  lemma CutLosesLast<V>(s: seq<Entry<V>>, e: Entry<V>, k: string, cap: int)
    requires |s| <= cap && cap > 0 && Holds(s, k) && !Holds(Truncate([e] + s, cap), k)
    ensures IndexOf(s, k) == |s| - 1
  {
    if IndexOf(s, k) < |s| - 1 {
      CutKeepsFront(s, e, k, cap);
    }
  }

  lemma CutKeepsFront<V>(s: seq<Entry<V>>, e: Entry<V>, k: string, cap: int)
    requires |s| <= cap && IndexOf(s, k) < |s| - 1
    ensures Holds(Truncate([e] + s, cap), k)
  {
    assert Truncate([e] + s, cap)[IndexOf(s, k) + 1] == s[IndexOf(s, k)];
  }

  /** A get pushes nothing out: it drops its own key or none. */
  lemma GetKeepsOthers<V>(s: seq<Entry<V>>, key: string, now: Time, k: string)
    requires Holds(s, k) && k != key
    ensures Holds(AfterGet(s, key, now), k)
  {
    if Holds(s, key) {
      var (i, j) := (IndexOf(s, key), IndexOf(s, k));
      var r := DropAt(s, i);
      assert r[if j < i then j else j - 1].key == k;
      assert ([s[i]] + r)[1..] == r;
    }
  }

  lemma LiveStays<V>(s: seq<Entry<V>>, k: string, now: Time)
    requires Holds(s, k) && now <= s[IndexOf(s, k)].expiresAt
    ensures Holds(AfterGet(s, k, now), k)
  {}

  /** Why a call lost a key: it had expired and was looked up, or a put of a key that
      was not held pushed it out of the full cache as the least recently touched one. */
  ghost predicate LostFairly<V>(h: seq<Op<V>>, op: Op<V>, k: string, cap: int) {
    var s := AfterOps(h, cap);
    match op
    case GetOp(key, now) => key == k && Holds(s, k) && now > s[IndexOf(s, k)].expiresAt
    case PutOp(e) =>
      && |s| == cap && !Holds(s, e.key)
      && forall other :: Holds(s, other) && other != k ==> LastTouch(h, other, cap) > LastTouch(h, k, cap)
  }

  lemma KeysAreLostFairly<V>(h: seq<Op<V>>, op: Op<V>, k: string, cap: int)
    requires cap > 0
    requires Holds(AfterOps(h, cap), k) && !Holds(AfterOps(h + [op], cap), k)
    ensures LostFairly(h, op, k, cap)
  {
    AfterOpsSnoc(h, op, cap);
    match op
    case GetOp(key, now) =>
      if key != k {
        GetKeepsOthers(AfterOps(h, cap), key, now, k);
      } else if now <= AfterOps(h, cap)[IndexOf(AfterOps(h, cap), k)].expiresAt {
        LiveStays(AfterOps(h, cap), k, now);
      }
    case PutOp(e) =>
      OpsKeepOrder(h, cap);
      EvictedFromFull(AfterOps(h, cap), e, k, cap);
      forall other | Holds(AfterOps(h, cap), other) && other != k
        ensures LastTouch(h, other, cap) > LastTouch(h, k, cap)
      {
        EvictsLeastTouched(h, e, k, other, cap);
      }
  }

  lemma EvictedFromFull<V>(s: seq<Entry<V>>, e: Entry<V>, k: string, cap: int)
    requires Fits(s, cap) && cap > 0 && Holds(s, k) && !Holds(AfterPut(s, e, cap), k)
    ensures |s| == cap && !Holds(s, e.key)
  {
    if Holds(s, e.key) {
      PutKeepsKeys(s, e, k, cap);
    } else {
      PutNew(s, e, cap);
      if |s| < cap {
        RoomForAll(s, e, k, cap);
      }
    }
  }

  lemma RoomForAll<V>(s: seq<Entry<V>>, e: Entry<V>, k: string, cap: int)
    requires |s| < cap && Holds(s, k)
    ensures Holds(Truncate([e] + s, cap), k)
  {
    assert ([e] + s)[IndexOf(s, k) + 1].key == k;
  }

  /** The entry of the last put of a key. */
  function LastPut<V>(h: seq<Op<V>>, key: string): Option<Entry<V>> {
    if h == [] then None
    else if Last(h).PutOp? && Last(h).entry.key == key then Some(Last(h).entry)
    else LastPut(Init(h), key)
  }

  /** What is held for a key is what was last put for it. */
  lemma {:induction false} EntriesAreLastPuts<V>(h: seq<Op<V>>, cap: int)
    requires cap > 0
    ensures forall e :: e in AfterOps(h, cap) ==> LastPut(h, e.key) == Some(e)
  {
    if h != [] {
      var (p, op) := (Init(h), Last(h));
      EntriesAreLastPuts(p, cap);
      OpsKeepOrder(p, cap);
      forall e | e in AfterOps(h, cap) ensures LastPut(h, e.key) == Some(e) {
        OpLeaves(AfterOps(p, cap), op, cap, e);
      }
    }
  }

  /** After a put the only entry for its key is the one that was put. */
  lemma OpLeaves<V>(s: seq<Entry<V>>, op: Op<V>, cap: int, e: Entry<V>)
    requires DistinctKeys(s) && e in AfterOp(s, op, cap)
    ensures if op.PutOp? && e.key == op.entry.key then e == op.entry else e in s
  {
    match op
    case GetOp(key, now) => GetKeeps(s, key, now, e);
    case PutOp(n) =>
      PutKeeps(s, n, cap, e);
      if Holds(s, n.key) {
        DropIsDistinct(s, IndexOf(s, n.key));
      } else {
        PutNew(s, n, cap);
      }
  }
}
