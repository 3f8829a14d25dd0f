/** The doubly linked list and index map behind the DNS cache
    (sdk/dns/cache.go:172-227), proved to behave as the recency sequence of
    LruModel. The list is the ring with a sentinel that container/list builds.
 */
module LinkedLru {
  import opened Sequences
  import opened Wrappers
  import opened LruModel

  class LruEntry<V> {
    const key: string
    var value: V
    var expiresAt: Time

    constructor (key: string, value: V, expiresAt: Time)
      ensures this.key == key && this.value == value && this.expiresAt == expiresAt
    {
      this.key, this.value, this.expiresAt := key, value, expiresAt;
    }

    ghost function Snapshot(): Entry<V>
      reads this
    {
      Entry(key, value, expiresAt)
    }
  }

  /** A list node. Only the sentinel carries no entry. */
  class Element<V> {
    var next: Element?<V>
    var prev: Element?<V>
    const entry: LruEntry?<V>

    constructor (entry: LruEntry?<V>)
      ensures this.entry == entry
    {
      this.entry := entry;
      next, prev := null, null;
    }
  }

  ghost predicate NoRepeats<T>(s: seq<T>) {
    forall i, j :: 0 <= i < j < |s| ==> s[i] != s[j]
  }

  function After(i: nat, n: nat): (j: nat)
    requires i < n
    ensures j < n
  {
    if i == n - 1 then 0 else i + 1
  }

  function Before(i: nat, n: nat): (j: nat)
    requires i < n
    ensures j < n
  {
    if i == 0 then n - 1 else i - 1
  }

  /** The next position, stepping over position `i`. */
  function SkipAfter(j: nat, i: nat, n: nat): (k: nat)
    requires j < n && i < n
    ensures k < n
  {
    if After(j, n) == i then After(i, n) else After(j, n)
  }

  function SkipBefore(j: nat, i: nat, n: nat): (k: nat)
    requires j < n && i < n
    ensures k < n
  {
    if Before(j, n) == i then Before(i, n) else Before(j, n)
  }

  /** Each node's neighbours on the ring point at it and are pointed at by it. */
  ghost predicate Linked<V>(ring: seq<Element<V>>)
    reads set e | e in ring
  {
    && (forall i {:trigger ring[i].next} :: 0 <= i < |ring| ==> ring[i].next == ring[After(i, |ring|)])
    && (forall i {:trigger ring[i].prev} :: 0 <= i < |ring| ==> ring[i].prev == ring[Before(i, |ring|)])
  }

  lemma DropNoRepeats<T>(r: seq<T>, i: nat)
    requires NoRepeats(r) && i < |r|
    ensures NoRepeats(DropAt(r, i))
  {}

  /** Who is next to whom once the node at `i` is gone. */
  lemma DropNeighbours<T>(r: seq<T>, i: nat, j: nat)
    requires i < |r| && j < |r| - 1
    ensures var (n, r', j0) := (|r|, DropAt(r, i), if j < i then j else j + 1);
            && r'[j] == r[j0] && j0 != i
            && r'[After(j, n - 1)] == r[SkipAfter(j0, i, n)]
            && r'[Before(j, n - 1)] == r[SkipBefore(j0, i, n)]
  {}

  /** Who is next to whom once `e` stands behind the first node. */
  lemma InsertNeighbours<T>(r: seq<T>, e: T, j: nat)
    requires r != [] && j <= |r|
    ensures var (n, r') := (|r|, [r[0], e] + r[1..]);
            && (j != 1 ==> r'[j] == r[if j == 0 then 0 else j - 1])
            && r'[After(j, n + 1)] ==
               (if j == 0 then e else if j == 1 then r[After(0, n)] else r[After(j - 1, n)])
            && r'[Before(j, n + 1)] ==
               (if j == 1 then r[0]
                else if (if j == 0 then 0 else j - 1) == After(0, n) then e
                else r[Before(if j == 0 then 0 else j - 1, n)])
  {}

  class LinkedList<V> {
    const root: Element<V>
    var len: nat
    /** The ring walked once around: the sentinel, then the elements front first. */
    ghost var ring: seq<Element<V>>
    /** Every element ever linked in, and the sentinel. */
    ghost var nodes: set<Element<V>>

    ghost predicate Valid()
      reads this, nodes
    {
      && (forall i :: 0 <= i < |ring| ==> ring[i] in nodes)
      && |ring| == len + 1
      && ring[0] == root
      && NoRepeats(ring)
      && Linked(ring)
      && forall i :: 1 <= i < |ring| ==> ring[i].entry != null
    }

    constructor ()
      ensures Valid() && ring == [root]
      ensures fresh(nodes)
    {
      var r := new Element<V>(null);
      root := r;
      len := 0;
      ring, nodes := [r], {r};
      new;
      r.next, r.prev := r, r;
    }

    method Back() returns (e: Element?<V>)
      requires Valid()
      ensures e == if len == 0 then null else ring[len]
    {
      if len == 0 {
        return null;
      }
      assert ring[0].prev == ring[len];
      return root.prev;
    }

    /** Makes the neighbours of `e` point past it. */
    method Unlink(e: Element<V>, ghost i: nat)
      requires NoRepeats(ring) && Linked(ring) && 1 <= i < |ring| && ring[i] == e
      modifies ring
      ensures forall j {:trigger ring[j].next} :: 0 <= j < |ring| && j != i ==>
                ring[j].next == ring[SkipAfter(j, i, |ring|)]
      ensures forall j {:trigger ring[j].prev} :: 0 <= j < |ring| && j != i ==>
                ring[j].prev == ring[SkipBefore(j, i, |ring|)]
    {
      assert e.prev == ring[Before(i, |ring|)] && e.next == ring[After(i, |ring|)];
      e.prev.next := e.next;
      e.next.prev := e.prev;
      e.next := null;
      e.prev := null;
    }

    method Remove(e: Element<V>, ghost i: nat)
      requires Valid() && 1 <= i < |ring| && ring[i] == e
      modifies this, nodes
      ensures Valid() && ring == DropAt(old(ring), i) && nodes == old(nodes)
    {
      ghost var r := ring;
      Unlink(e, i);
      len := len - 1;
      ring := DropAt(r, i);
      DropNoRepeats(r, i);
      forall j | 0 <= j < |ring|
        ensures ring[j].next == ring[After(j, |ring|)] && ring[j].prev == ring[Before(j, |ring|)]
      {
        DropNeighbours(r, i, j);
      }
    }

    /** Links `e` in right behind the sentinel. */
    method LinkFront(e: Element<V>)
      requires NoRepeats(ring) && Linked(ring) && ring != [] && ring[0] == root && e !in ring
      modifies ring, e
      ensures e.prev == root && e.next == ring[After(0, |ring|)]
      ensures forall j {:trigger ring[j].next} :: 0 <= j < |ring| ==>
                ring[j].next == if j == 0 then e else ring[After(j, |ring|)]
      ensures forall j {:trigger ring[j].prev} :: 0 <= j < |ring| ==>
                ring[j].prev == if j == After(0, |ring|) then e else ring[Before(j, |ring|)]
    {
      assert ring[0].next == ring[After(0, |ring|)];
      e.prev := root;
      e.next := root.next;
      e.prev.next := e;
      e.next.prev := e;
    }

    method PushFront(e: Element<V>)
      requires Valid() && e !in ring && e.entry != null
      modifies this, nodes, e
      ensures Valid() && ring == [root, e] + old(ring)[1..] && nodes == old(nodes) + {e}
    {
      ghost var r := ring;
      LinkFront(e);
      len := len + 1;
      ring, nodes := [root, e] + r[1..], nodes + {e};
      forall j | 0 <= j < |ring|
        ensures ring[j].next == ring[After(j, |ring|)] && ring[j].prev == ring[Before(j, |ring|)]
      {
        InsertNeighbours(r, e, j);
      }
    }

    method MoveToFront(e: Element<V>, ghost i: nat)
      requires Valid() && 1 <= i < |ring| && ring[i] == e
      modifies this, nodes
      ensures Valid() && ring == [root, e] + DropAt(old(ring), i)[1..] && nodes == old(nodes)
    {
      if root.next == e {
        assert ring[0].next == ring[1];
        return;
      }
      Remove(e, i);
      PushFront(e);
      assert nodes == old(nodes);
    }
  }

  /** The index maps exactly the keys of the entries, each to the element at the
      entry's position. */
  ghost predicate Indexed<V>(s: seq<Entry<V>>, es: seq<Element<V>>, idx: map<string, Element<V>>) {
    && |s| == |es|
    && (forall i :: 0 <= i < |s| ==> s[i].key in idx && idx[s[i].key] == es[i])
    && (forall k :: k in idx ==> Holds(s, k))
  }

  lemma IndexedDistinct<V>(s: seq<Entry<V>>, es: seq<Element<V>>, idx: map<string, Element<V>>)
    requires Indexed(s, es, idx) && NoRepeats(es)
    ensures DistinctKeys(s)
  {}

  lemma DropIndexed<V>(s: seq<Entry<V>>, es: seq<Element<V>>, idx: map<string, Element<V>>, i: nat)
    requires Indexed(s, es, idx) && NoRepeats(es) && i < |s|
    ensures Indexed(DropAt(s, i), DropAt(es, i), idx - {s[i].key})
  {
    IndexedDistinct(s, es, idx);
    DropIsDistinct(s, i);
    var (s', es', idx') := (DropAt(s, i), DropAt(es, i), idx - {s[i].key});
    forall j | 0 <= j < |s'| ensures s'[j].key in idx' && idx'[s'[j].key] == es'[j] {
      var j0 := if j < i then j else j + 1;
      assert s'[j] == s[j0] && es'[j] == es[j0];
    }
    forall k | k in idx' ensures Holds(s', k) {
      var j := IndexOf(s, k);
      assert s'[if j < i then j else j - 1].key == k;
    }
  }

  lemma InsertIndexed<V>(s: seq<Entry<V>>, es: seq<Element<V>>, idx: map<string, Element<V>>,
                         e: Entry<V>, el: Element<V>)
    requires Indexed(s, es, idx) && e.key !in idx
    ensures Indexed([e] + s, [el] + es, idx[e.key := el])
  {
    forall k | k in idx[e.key := el] ensures Holds([e] + s, k) {
      assert ([e] + s)[1..] == s;
    }
  }

  lemma TouchIndexed<V>(s: seq<Entry<V>>, es: seq<Element<V>>, idx: map<string, Element<V>>, i: nat)
    requires Indexed(s, es, idx) && NoRepeats(es) && i < |s|
    ensures Indexed([s[i]] + DropAt(s, i), [es[i]] + DropAt(es, i), idx)
  {
    DropIndexed(s, es, idx, i);
    InsertIndexed(DropAt(s, i), DropAt(es, i), idx - {s[i].key}, s[i], es[i]);
    assert (idx - {s[i].key})[s[i].key := es[i]] == idx;
  }

  lemma AssignIndexed<V>(s: seq<Entry<V>>, es: seq<Element<V>>, idx: map<string, Element<V>>, i: nat, e: Entry<V>)
    requires Indexed(s, es, idx) && i < |s| && e.key == s[i].key
    ensures Indexed(s[i := e], es, idx)
  {
    forall k | k in idx ensures Holds(s[i := e], k) {
      assert s[i := e][IndexOf(s, k)].key == k;
    }
  }

  /** The entries the elements carry, read off. */
  ghost predicate Carries<V>(es: seq<Element<V>>, s: seq<Entry<V>>, entries: set<LruEntry<V>>)
    reads entries
  {
    && |s| == |es|
    && forall i :: 0 <= i < |es| ==> es[i].entry in entries && s[i] == es[i].entry.Snapshot()
  }

  lemma DropCarries<V>(es: seq<Element<V>>, s: seq<Entry<V>>, entries: set<LruEntry<V>>, i: nat)
    requires Carries(es, s, entries) && i < |s|
    ensures Carries(DropAt(es, i), DropAt(s, i), entries)
  {
    forall j | 0 <= j < |s| - 1
      ensures DropAt(es, i)[j].entry in entries && DropAt(s, i)[j] == DropAt(es, i)[j].entry.Snapshot()
    {
      var j0 := if j < i then j else j + 1;
      assert DropAt(es, i)[j] == es[j0] && DropAt(s, i)[j] == s[j0];
    }
  }

  lemma InsertCarries<V>(es: seq<Element<V>>, s: seq<Entry<V>>, entries: set<LruEntry<V>>,
                         el: Element<V>, all: set<LruEntry<V>>)
    requires Carries(es, s, entries) && entries <= all && el.entry in all
    ensures Carries([el] + es, [el.entry.Snapshot()] + s, all)
  {}

  lemma TouchCarries<V>(es: seq<Element<V>>, s: seq<Entry<V>>, entries: set<LruEntry<V>>, i: nat)
    requires Carries(es, s, entries) && i < |s|
    ensures Carries([es[i]] + DropAt(es, i), [s[i]] + DropAt(s, i), entries)
  {
    DropCarries(es, s, entries, i);
    InsertCarries(DropAt(es, i), DropAt(s, i), entries, es[i], entries);
  }

  /** As above, except at `i`, where alone `e` is. */
  ghost predicate CarriesBut<V>(es: seq<Element<V>>, s: seq<Entry<V>>, entries: set<LruEntry<V>>,
                                i: nat, e: LruEntry<V>)
    reads entries - {e}
  {
    && i < |s| == |es| && es[i].entry == e && e in entries
    && forall j :: 0 <= j < |es| && j != i ==>
      && es[j].entry != e && es[j].entry in entries && s[j] == es[j].entry.Snapshot()
  }

  lemma CarriesElsewhere<V>(es: seq<Element<V>>, s: seq<Entry<V>>, entries: set<LruEntry<V>>, i: nat, e: LruEntry<V>)
    requires Carries(es, s, entries) && DistinctKeys(s) && i < |s| && es[i].entry == e
    ensures CarriesBut(es, s, entries, i, e)
  {
    forall j | 0 <= j < |es| && j != i ensures es[j].entry != e {
      assert s[j].key != s[i].key;
    }
  }

  lemma AssignCarries<V>(es: seq<Element<V>>, s: seq<Entry<V>>, entries: set<LruEntry<V>>, i: nat, e: LruEntry<V>)
    requires CarriesBut(es, s, entries, i, e)
    ensures Carries(es, s[i := e.Snapshot()], entries)
  {}

  /** Changes to the ring, read behind the sentinel. */
  lemma TailOfDrop<T>(r: seq<T>, i: nat)
    requires 1 <= i < |r|
    ensures DropAt(r, i)[1..] == DropAt(r[1..], i - 1)
  {}

  lemma TailOfTouch<T>(root: T, e: T, r: seq<T>, i: nat)
    requires 1 <= i < |r|
    ensures ([root, e] + DropAt(r, i)[1..])[1..] == [e] + DropAt(r[1..], i - 1)
  {
    TailOfDrop(r, i);
  }

  lemma TailOfInsert<T>(root: T, e: T, r: seq<T>)
    requires r != []
    ensures ([root, e] + r[1..])[1..] == [e] + r[1..]
  {}

  /** List, index and entries hold the same keys, each exactly once. */
  ghost predicate Agree<V>(s: seq<Entry<V>>, r: seq<Element<V>>, idx: map<string, Element<V>>,
                           entries: set<LruEntry<V>>)
    reads entries
  {
    r != [] && Indexed(s, r[1..], idx) && Carries(r[1..], s, entries)
  }

  // What becomes of them when the ring changes.

  lemma DropPlan<V>(s: seq<Entry<V>>, r: seq<Element<V>>, idx: map<string, Element<V>>,
                    entries: set<LruEntry<V>>, i: nat) returns (s': seq<Entry<V>>)
    requires NoRepeats(r) && Agree(s, r, idx, entries) && i < |s|
    ensures s' == DropAt(s, i) && r[i + 1].entry != null
    ensures Agree(s', DropAt(r, i + 1), idx - {r[i + 1].entry.key}, entries)
  {
    var es := r[1..];
    assert es[i] == r[i + 1] && es[i].entry in entries;
    s' := DropAt(s, i);
    DropIndexed(s, es, idx, i);
    DropCarries(es, s, entries, i);
    TailOfDrop(r, i + 1);
  }

  lemma TouchPlan<V>(s: seq<Entry<V>>, r: seq<Element<V>>, idx: map<string, Element<V>>,
                     entries: set<LruEntry<V>>, i: nat) returns (s': seq<Entry<V>>)
    requires NoRepeats(r) && Agree(s, r, idx, entries) && i < |s|
    ensures s' == [s[i]] + DropAt(s, i)
    ensures Agree(s', [r[0], r[i + 1]] + DropAt(r, i + 1)[1..], idx, entries)
  {
    s' := [s[i]] + DropAt(s, i);
    var es' := ([r[0], r[i + 1]] + DropAt(r, i + 1)[1..])[1..];
    var es := r[1..];
    assert es' == [es[i]] + DropAt(es, i) by {
      TailOfTouch(r[0], r[i + 1], r, i + 1);
    }
    assert Indexed(s', es', idx) by {
      TouchIndexed(s, es, idx, i);
    }
    assert Carries(es', s', entries) by {
      TouchCarries(es, s, entries, i);
    }
  }

  lemma InsertPlan<V>(s: seq<Entry<V>>, r: seq<Element<V>>, idx: map<string, Element<V>>,
                      entries: set<LruEntry<V>>, el: Element<V>) returns (s': seq<Entry<V>>)
    requires Agree(s, r, idx, entries)
    requires el.entry != null && el.entry.key !in idx
    ensures s' == [el.entry.Snapshot()] + s
    ensures Agree(s', [r[0], el] + r[1..], idx[el.entry.key := el], entries + {el.entry})
  {
    var es := r[1..];
    s' := [el.entry.Snapshot()] + s;
    InsertIndexed(s, es, idx, el.entry.Snapshot(), el);
    InsertCarries(es, s, entries, el, entries + {el.entry});
    TailOfInsert(r[0], el, r);
  }

  lemma PutHeld<V>(s: seq<Entry<V>>, e: Entry<V>, cap: int)
    requires Holds(s, e.key)
    ensures var i := IndexOf(s, e.key);
            AfterPut(s, e, cap) == [s[i := e][i]] + DropAt(s[i := e], i)
  {
    var i := IndexOf(s, e.key);
    assert DropAt(s[i := e], i) == DropAt(s, i);
  }

  lemma PutAbsent<V>(s: seq<Entry<V>>, e: Entry<V>, cap: int)
    requires !Holds(s, e.key)
    ensures AfterPut(s, e, cap) == Truncate([e] + s, cap)
  {}

  /** A sequence on its way from `all` to what fits. */
  ghost predicate CutFrom<T>(all: seq<T>, s: seq<T>, cap: int) {
    s <= all && (|s| >= cap || s == all)
  }

  lemma InitCut<T>(all: seq<T>, s: seq<T>, cap: int)
    requires CutFrom(all, s, cap) && |s| > cap && s != []
    ensures CutFrom(all, Init(s), cap)
  {}

  lemma CutEnds<T>(all: seq<T>, s: seq<T>, cap: int)
    requires CutFrom(all, s, cap) && (|s| <= cap || s == [])
    ensures s == Truncate(all, cap)
  {}

  class Lru<V> {
    const cap: int
    const ll: LinkedList<V>
    var idx: map<string, Element<V>>
    /** The entries in recency order, and the objects that hold them. */
    ghost var contents: seq<Entry<V>>
    ghost var entries: set<LruEntry<V>>

    /** List and index hold the same keys, each exactly once. */
    ghost predicate Valid()
      reads this, ll, ll.nodes, entries
    {
      ll.Valid() && Agree(contents, ll.ring, idx, entries)
    }

    constructor (capacity: int)
      ensures Valid() && contents == [] && cap == capacity
      ensures fresh(ll) && fresh(ll.nodes) && entries == {}
    {
      cap := capacity;
      var l := new LinkedList<V>();
      ll := l;
      idx := map[];
      contents, entries := [], {};
    }

    /** The element the index gives for a key is the one at the key's position. */
    lemma Locate(key: string) returns (i: nat)
      requires Valid()
      ensures DistinctKeys(contents) && NoRepeats(ll.ring[1..])
      ensures key in idx <==> Holds(contents, key)
      ensures key in idx ==>
                && i == IndexOf(contents, key) && i < |contents| == |ll.ring| - 1
                && ll.ring[1..][i] == ll.ring[i + 1] == idx[key] && idx[key].entry in entries
    {
      i := IndexOf(contents, key);
      IndexedDistinct(contents, ll.ring[1..], idx);
    }

    /** Takes one element out of the list and the index. */
    method Drop(el: Element<V>, ghost i: nat)
      requires Valid() && i < |contents| && ll.ring[i + 1] == el
      modifies this, ll, ll.nodes
      ensures Valid() && contents == DropAt(old(contents), i) && entries == old(entries)
      ensures ll.ring == DropAt(old(ll.ring), i + 1) && ll.nodes == old(ll.nodes)
    {
      ghost var s' := DropPlan(contents, ll.ring, idx, entries, i);
      var k := el.entry.key;
      ll.Remove(el, i + 1);
      idx := idx - {k};
      contents := s';
    }

    /** Moves one element to the front of the list. */
    method Touch(el: Element<V>, ghost i: nat)
      requires Valid() && i < |contents| && ll.ring[i + 1] == el
      modifies this, ll, ll.nodes
      ensures Valid() && contents == [old(contents)[i]] + DropAt(old(contents), i) && entries == old(entries)
      ensures ll.nodes == old(ll.nodes)
    {
      ghost var r' := [ll.root, el] + DropAt(ll.ring, i + 1)[1..];
      ghost var s' := TouchPlan(contents, ll.ring, idx, entries, i);
      assert Agree(s', r', idx, entries);
      ll.MoveToFront(el, i + 1);
      contents := s';
    }

    /** Adds an element whose key is new. */
    method Insert(el: Element<V>)
      requires Valid() && el.entry != null && el.entry.key !in idx && el !in ll.nodes
      modifies this, ll, ll.nodes, el
      ensures Valid() && contents == [el.entry.Snapshot()] + old(contents) && entries == old(entries) + {el.entry}
      ensures ll.nodes == old(ll.nodes) + {el}
    {
      ghost var r' := [ll.root, el] + ll.ring[1..];
      ghost var s' := InsertPlan(contents, ll.ring, idx, entries, el);
      assert Agree(s', r', idx[el.entry.key := el], entries + {el.entry});
      ll.PushFront(el);
      idx := idx[el.entry.key := el];
      contents, entries := s', entries + {el.entry};
    }

    /** Gives an entry a new value and expiry. */
    method Assign(e: LruEntry<V>, value: V, expiresAt: Time, ghost i: nat)
      requires Valid() && i < |contents| && ll.ring[i + 1].entry == e
      modifies this`contents, e
      ensures Valid()
      ensures contents == old(contents)[i := Entry(e.key, value, expiresAt)]
    {
      ghost var (s, es) := (contents, ll.ring[1..]);
      assert es[i].entry == e && s[i].key == e.key;
      assert CarriesBut(es, s, entries, i, e) by {
        IndexedDistinct(s, es, idx);
        CarriesElsewhere(es, s, entries, i, e);
      }
      e.value := value;
      e.expiresAt := expiresAt;
      contents := s[i := e.Snapshot()];
      assert Indexed(contents, es, idx) by {
        AssignIndexed(s, es, idx, i, e.Snapshot());
      }
      assert Carries(es, contents, entries) by {
        AssignCarries(es, s, entries, i, e);
      }
    }

    /** `put` on a key that is present. */
    method Update(el: Element<V>, value: V, expiresAt: Time, ghost i: nat)
      requires Valid() && i < |contents| && ll.ring[i + 1] == el
      modifies this, ll, ll.nodes, el.entry
      ensures var s := old(contents)[i := Entry(old(contents)[i].key, value, expiresAt)];
              Valid() && contents == [s[i]] + DropAt(s, i)
      ensures entries == old(entries) && ll.nodes == old(ll.nodes)
    {
      assert ll.ring[1..][i] == el;
      Assign(el.entry, value, expiresAt, i);
      Touch(el, i);
    }

    method Get(key: string, now: Time) returns (v: Option<V>)
      requires Valid()
      modifies this, ll, ll.nodes
      ensures Valid() && entries == old(entries)
      ensures v == Got(old(contents), key, now)
      ensures contents == AfterGet(old(contents), key, now)
      ensures ll.nodes == old(ll.nodes)
    {
      ghost var i := Locate(key);
      if key !in idx {
        return None;
      }
      var el := idx[key];
      var e := el.entry;
      if now > e.expiresAt {
        Drop(el, i);
        return None;
      }
      Touch(el, i);
      return Some(e.value);
    }

    method Put(key: string, value: V, ttl: int, now: Time)
      requires Valid()
      modifies this, ll, ll.nodes, entries
      ensures Valid()
      ensures contents == AfterPut(old(contents), Entry(key, value, now + ttl), cap)
      ensures fresh(entries - old(entries))
      ensures fresh(ll.nodes - old(ll.nodes))
    {
      ghost var i := Locate(key);
      if key in idx {
        PutHeld(contents, Entry(key, value, now + ttl), cap);
        Update(idx[key], value, now + ttl, i);
        return;
      }
      PutAbsent(contents, Entry(key, value, now + ttl), cap);
      Add(key, value, now + ttl);
    }

    /** `put` on a key that is absent. */
    method Add(key: string, value: V, expiresAt: Time)
      requires Valid() && key !in idx
      modifies this, ll, ll.nodes
      ensures Valid() && contents == Truncate([Entry(key, value, expiresAt)] + old(contents), cap)
      ensures fresh(entries - old(entries)) && fresh(ll.nodes - old(ll.nodes))
    {
      var e := new LruEntry<V>(key, value, expiresAt);
      var el := new Element<V>(e);
      Insert(el);
      EvictTail();
    }

    /** The eviction loop of `put`. */
    method EvictTail()
      requires Valid()
      modifies this, ll, ll.nodes
      ensures Valid() && contents == Truncate(old(contents), cap) && entries == old(entries)
      ensures ll.nodes == old(ll.nodes)
    {
      ghost var all := contents;
      while ll.len > cap
        invariant Valid() && entries == old(entries)
        invariant ll.nodes == old(ll.nodes)
        invariant ll.len == |contents| && CutFrom(all, contents, cap)
        decreases ll.len
      {
        var oldest := ll.Back();
        if oldest == null {
          break;
        }
        InitCut(all, contents, cap);
        DropBack(oldest);
      }
      CutEnds(all, contents, cap);
    }

    method DropBack(oldest: Element<V>)
      requires Valid() && contents != [] && oldest == ll.ring[ll.len]
      modifies this, ll, ll.nodes
      ensures Valid() && contents == Init(old(contents)) && entries == old(entries)
      ensures ll.len == old(ll.len) - 1
      ensures ll.nodes == old(ll.nodes)
    {
      Drop(oldest, |contents| - 1);
    }
  }
}
