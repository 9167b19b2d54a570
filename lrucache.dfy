/**
 * The least-recently-used cache behind both tile caches: a list of
 * key/value entries ordered from most to least recently used, and a map
 * from each key to its entry. Inserting a new key into a full cache
 * evicts the entry at the back of the list and hands it to the caller.
 */
module Lru {
  import opened Wrappers

  /** What put reports: whether an entry was evicted, and which. */
  datatype PutResult<K, V> = PutResult(evicted: bool, evictedItem: Option<(K, V)>)

  // ---------------------------------------------------------------------
  // The entry list as a value, front = most recently used
  // ---------------------------------------------------------------------

  function Keys<K, V>(items: seq<(K, V)>): set<K>
  {
    set i | 0 <= i < |items| :: items[i].0
  }

  predicate DistinctKeys<K(==), V>(items: seq<(K, V)>)
  {
    forall i, j :: 0 <= i < j < |items| ==> items[i].0 != items[j].0
  }

  /** Position of the entry for k, the list iterator the map holds for k. */
  function IndexOf<K(==), V>(items: seq<(K, V)>, k: K): (i: nat)
    requires k in Keys(items)
    ensures i < |items| && items[i].0 == k
    ensures forall j :: 0 <= j < i ==> items[j].0 != k
  {
    if items[0].0 == k then 0
    else
      assert k in Keys(items[1..]) by {
        var j :| 0 <= j < |items| && items[j].0 == k;
        assert items[1..][j - 1].0 == k;
      }
      1 + IndexOf(items[1..], k)
  }

  /** The value stored for k, if any. */
  function Lookup<K(==), V>(items: seq<(K, V)>, k: K): Option<V>
  {
    if k in Keys(items) then Some(items[IndexOf(items, k)].1) else None
  }

  /** The list with the entry for k taken out, the others in their order. */
  function Without<K(==), V>(items: seq<(K, V)>, k: K): seq<(K, V)>
  {
    if k in Keys(items) then
      var i := IndexOf(items, k);
      items[..i] + items[i + 1..]
    else items
  }

  /** list::splice of the entry for k to the front, which get does on a hit. */
  function Touch<K(==), V>(items: seq<(K, V)>, k: K): seq<(K, V)>
  {
    if k in Keys(items) then [items[IndexOf(items, k)]] + Without(items, k) else items
  }

  /** The entry list after put(k, v) on a cache of the given capacity. */
  function PutItems<K(==), V>(items: seq<(K, V)>, capacity: nat, k: K, v: V): seq<(K, V)>
    requires capacity >= 1
  {
    if k in Keys(items) then [(k, v)] + Without(items, k)
    else if |items| >= capacity then [(k, v)] + items[..|items| - 1]
    else [(k, v)] + items
  }

  /** The result put(k, v) returns. */
  function PutOutcome<K(==), V>(items: seq<(K, V)>, capacity: nat, k: K): PutResult<K, V>
    requires capacity >= 1
  {
    if k !in Keys(items) && |items| >= capacity then PutResult(true, Some(items[|items| - 1]))
    else PutResult(false, None)
  }

  /** The invariant the list and map keep together: distinct keys, within capacity. */
  predicate WellFormed<K(==), V>(items: seq<(K, V)>, capacity: nat)
  {
    capacity >= 1 && |items| <= capacity && DistinctKeys(items)
  }

  // ---------------------------------------------------------------------
  // Facts about the entry list
  // ---------------------------------------------------------------------

  lemma {:induction false} IndexOfUnique<K, V>(items: seq<(K, V)>, k: K, j: nat)
    requires DistinctKeys(items) && j < |items| && items[j].0 == k
    ensures k in Keys(items) && IndexOf(items, k) == j
  {
    assert items[j].0 in Keys(items);
  }

  /** Where each entry of Without(items, k) comes from. */
  lemma {:induction false} WithoutShape<K, V>(items: seq<(K, V)>, k: K)
    requires k in Keys(items)
    ensures |Without(items, k)| == |items| - 1
    ensures forall j :: 0 <= j < IndexOf(items, k) ==> Without(items, k)[j] == items[j]
    ensures forall j :: IndexOf(items, k) <= j < |Without(items, k)| ==> Without(items, k)[j] == items[j + 1]
    ensures items == items[..IndexOf(items, k)] + [items[IndexOf(items, k)]] + items[IndexOf(items, k) + 1..]
  {
    RemoveAtShape(items, IndexOf(items, k), Without(items, k));
  }

  /** The list with its i-th entry cut out, entry by entry. */
  lemma {:induction false} RemoveAtShape<T>(s: seq<T>, i: nat, w: seq<T>)
    requires i < |s| && w == s[..i] + s[i + 1..]
    ensures |w| == |s| - 1
    ensures forall j :: 0 <= j < i ==> w[j] == s[j]
    ensures forall j :: i <= j < |w| ==> w[j] == s[j + 1]
    ensures s == s[..i] + [s[i]] + s[i + 1..]
  {
    assert s == s[..i] + s[i..];
    assert s[i..] == [s[i]] + s[i + 1..];
  }

  /** Taking an entry out keeps the other keys distinct. */
  lemma {:induction false} WithoutDistinct<K, V>(items: seq<(K, V)>, k: K)
    requires DistinctKeys(items)
    ensures DistinctKeys(Without(items, k))
  {
    if k in Keys(items) {
      WithoutShape(items, k);
    }
  }

  /** The keys of a list that is another with its i-th entry taken out. */
  lemma {:induction false} KeysOfRemoval<K, V>(items: seq<(K, V)>, w: seq<(K, V)>, i: nat)
    requires DistinctKeys(items) && i < |items| && |w| == |items| - 1
    requires forall j :: 0 <= j < i ==> w[j] == items[j]
    requires forall j :: i <= j < |w| ==> w[j] == items[j + 1]
    ensures Keys(w) == Keys(items) - {items[i].0}
  {
    forall m | m in Keys(items) - {items[i].0} ensures m in Keys(w) {
      var j :| 0 <= j < |items| && items[j].0 == m;
      if j < i { assert w[j].0 == m; } else { assert w[j - 1].0 == m; }
    }
    forall m | m in Keys(w) ensures m in Keys(items) - {items[i].0} {
      var j :| 0 <= j < |w| && w[j].0 == m;
      if j < i { assert items[j].0 == m; } else { assert items[j + 1].0 == m; }
    }
  }

  /** Taking an entry out removes exactly its key. */
  lemma {:induction false} WithoutKeys<K, V>(items: seq<(K, V)>, k: K)
    requires DistinctKeys(items)
    ensures Keys(Without(items, k)) == Keys(items) - {k}
  {
    if k in Keys(items) {
      WithoutShape(items, k);
      KeysOfRemoval(items, Without(items, k), IndexOf(items, k));
    }
  }

  /** Taking an entry out removes exactly that entry from the multiset of entries. */
  lemma {:induction false} WithoutMultiset<K, V>(items: seq<(K, V)>, k: K)
    requires k in Keys(items)
    ensures multiset(Without(items, k)) == multiset(items) - multiset{items[IndexOf(items, k)]}
  {
    WithoutShape(items, k);
  }

  /** Putting an entry for a key not in the list in front keeps the keys distinct. */
  lemma {:induction false} PrependFresh<K, V>(items: seq<(K, V)>, k: K, v: V)
    requires DistinctKeys(items) && k !in Keys(items)
    ensures DistinctKeys([(k, v)] + items)
    ensures Keys([(k, v)] + items) == Keys(items) + {k}
  {
    var r := [(k, v)] + items;
    forall a, b | 0 <= a < b < |r| ensures r[a].0 != r[b].0 {
      assert r[b] == items[b - 1];
      if a == 0 { assert items[b - 1].0 in Keys(items); }
    }
    forall m | m in Keys(r) ensures m == k || m in Keys(items) {
      var j := IndexOf(r, m);
      if j > 0 { assert items[j - 1].0 == m; }
    }
    forall m | m in Keys(items) ensures m in Keys(r) {
      var j := IndexOf(items, m);
      assert r[j + 1].0 == m;
    }
    assert r[0].0 == k;
  }

  /** get on a hit keeps the entries, moves k's entry to the front and keeps the others' order. */
  lemma {:induction false} TouchFacts<K, V>(items: seq<(K, V)>, k: K)
    requires DistinctKeys(items)
    ensures DistinctKeys(Touch(items, k)) && Keys(Touch(items, k)) == Keys(items)
    ensures multiset(Touch(items, k)) == multiset(items) && |Touch(items, k)| == |items|
    ensures k in Keys(items) ==> Touch(items, k)[0] == (k, Lookup(items, k).value)
    ensures k in Keys(items) ==> Touch(items, k)[1..] == Without(items, k)
    ensures k !in Keys(items) ==> Touch(items, k) == items
  {
    if k in Keys(items) {
      var e := items[IndexOf(items, k)];
      var w := Without(items, k);
      WithoutDistinct(items, k);
      WithoutKeys(items, k);
      WithoutMultiset(items, k);
      WithoutShape(items, k);
      PrependFresh(w, e.0, e.1);
      assert Touch(items, k) == [(e.0, e.1)] + w;
    }
  }

  /** A second get of the same key changes nothing: the entry is already in front. */
  lemma {:induction false} TouchIdempotent<K, V>(items: seq<(K, V)>, k: K)
    requires DistinctKeys(items)
    ensures Touch(Touch(items, k), k) == Touch(items, k)
  {
    TouchFacts(items, k);
    if k in Keys(items) {
      var t := Touch(items, k);
      IndexOfUnique(t, k, 0);
      assert Without(t, k) == t[1..];
      assert t == [t[0]] + t[1..];
    }
  }

  /** An entry present in a list with distinct keys is what Lookup finds for its key. */
  lemma {:induction false} LookupEntry<K, V>(items: seq<(K, V)>, e: (K, V))
    requires DistinctKeys(items) && e in multiset(items)
    ensures Lookup(items, e.0) == Some(e.1)
  {
    var j :| 0 <= j < |items| && items[j] == e;
    IndexOfUnique(items, e.0, j);
  }

  /** get reads the value of the entry and does not change what the cache holds. */
  lemma {:induction false} TouchLookup<K, V>(items: seq<(K, V)>, k: K, m: K)
    requires DistinctKeys(items)
    ensures Lookup(Touch(items, k), m) == Lookup(items, m)
  {
    TouchFacts(items, k);
    if m in Keys(items) {
      var e := items[IndexOf(items, m)];
      assert e in multiset(Touch(items, k));
      LookupEntry(Touch(items, k), e);
    }
  }

  /** Dropping the back entry removes exactly its key. */
  lemma {:induction false} DropLastKeys<K, V>(items: seq<(K, V)>)
    requires DistinctKeys(items) && |items| >= 1
    ensures DistinctKeys(items[..|items| - 1])
    ensures Keys(items[..|items| - 1]) == Keys(items) - {items[|items| - 1].0}
  {
    var n := |items|;
    var p := items[..n - 1];
    forall m | m in Keys(items) && m != items[n - 1].0 ensures m in Keys(p) {
      var j := IndexOf(items, m);
      assert p[j].0 == m;
    }
    forall m | m in Keys(p) ensures m in Keys(items) && m != items[n - 1].0 {
      var j := IndexOf(p, m);
      assert items[j].0 == m;
    }
  }

  /**
   * put keeps the list well formed, and says exactly what happened to the
   * keys: an existing key is updated in place, a new key is added, and in a
   * full cache the least recently used entry (the back of the list) leaves.
   */
  lemma {:induction false} PutFacts<K, V>(items: seq<(K, V)>, capacity: nat, k: K, v: V)
    requires WellFormed(items, capacity)
    ensures WellFormed(PutItems(items, capacity, k, v), capacity)
    ensures PutItems(items, capacity, k, v)[0] == (k, v)
    ensures k in Keys(items) ==>
      !PutOutcome(items, capacity, k).evicted &&
      Keys(PutItems(items, capacity, k, v)) == Keys(items) &&
      |PutItems(items, capacity, k, v)| == |items|
    ensures k !in Keys(items) && |items| < capacity ==>
      !PutOutcome(items, capacity, k).evicted &&
      Keys(PutItems(items, capacity, k, v)) == Keys(items) + {k} &&
      |PutItems(items, capacity, k, v)| == |items| + 1
    ensures k !in Keys(items) && |items| >= capacity ==>
      PutOutcome(items, capacity, k).evicted &&
      PutOutcome(items, capacity, k).evictedItem == Some(items[|items| - 1]) &&
      Keys(PutItems(items, capacity, k, v)) == Keys(items) - {items[|items| - 1].0} + {k} &&
      |PutItems(items, capacity, k, v)| == |items|
    ensures PutOutcome(items, capacity, k).evicted <==> PutOutcome(items, capacity, k).evictedItem.Some?
  {
    if k in Keys(items) {
      WithoutDistinct(items, k);
      WithoutKeys(items, k);
      WithoutShape(items, k);
      PrependFresh(Without(items, k), k, v);
    } else if |items| >= capacity {
      DropLastKeys(items);
      PrependFresh(items[..|items| - 1], k, v);
    } else {
      PrependFresh(items, k, v);
    }
  }

  /**
   * No entry is lost when a new key goes in: the entries after put plus the
   * evicted one are the entries before plus the new one.
   */
  lemma {:induction false} PutConservesNewKey<K, V>(items: seq<(K, V)>, capacity: nat, k: K, v: V)
    requires WellFormed(items, capacity) && k !in Keys(items)
    ensures multiset(PutItems(items, capacity, k, v)) +
      (if PutOutcome(items, capacity, k).evicted then multiset{PutOutcome(items, capacity, k).evictedItem.value} else multiset{})
      == multiset(items) + multiset{(k, v)}
  {
    if |items| >= capacity {
      var n := |items|;
      assert items == items[..n - 1] + [items[n - 1]];
    }
  }

  /** Updating an existing key overwrites its value; the old value is not handed back. */
  lemma {:induction false} PutUpdateDropsOldValue<K, V>(items: seq<(K, V)>, capacity: nat, k: K, v: V)
    requires WellFormed(items, capacity) && k in Keys(items)
    ensures multiset(PutItems(items, capacity, k, v)) ==
      multiset(items) - multiset{items[IndexOf(items, k)]} + multiset{(k, v)}
    ensures PutOutcome(items, capacity, k) == PutResult(false, None)
  {
    WithoutMultiset(items, k);
  }

  /** Every entry of the list before put, other than k's and the evicted one, is still there. */
  lemma {:induction false} PutKeepsEntry<K, V>(items: seq<(K, V)>, capacity: nat, k: K, v: V, i: nat)
    requires WellFormed(items, capacity) && i < |items| && items[i].0 != k
    requires !(PutOutcome(items, capacity, k).evicted && i == |items| - 1)
    ensures items[i] in multiset(PutItems(items, capacity, k, v))
  {
    var r := PutItems(items, capacity, k, v);
    if k in Keys(items) {
      KeptInWithout(items, k, i);
      assert r == [(k, v)] + Without(items, k);
    } else {
      assert r[i + 1] == items[i];
    }
  }

  /** Taking out the entry for k keeps every entry with another key. */
  lemma {:induction false} KeptInWithout<K, V>(items: seq<(K, V)>, k: K, i: nat)
    requires k in Keys(items) && i < |items| && items[i].0 != k
    ensures items[i] in Without(items, k)
  {
    var j := IndexOf(items, k);
    if i < j {
      assert (items[..j] + items[j + 1..])[i] == items[i];
    } else {
      assert (items[..j] + items[j + 1..])[i - 1] == items[i];
    }
  }

  /** get after put: the new key reads back its value, other keys keep theirs unless evicted. */
  lemma {:induction false} PutLookup<K, V>(items: seq<(K, V)>, capacity: nat, k: K, v: V, m: K)
    requires WellFormed(items, capacity)
    ensures Lookup(PutItems(items, capacity, k, v), k) == Some(v)
    ensures m != k && !(PutOutcome(items, capacity, k).evicted && m == items[|items| - 1].0) ==>
      Lookup(PutItems(items, capacity, k, v), m) == Lookup(items, m)
  {
    PutFacts(items, capacity, k, v);
    var r := PutItems(items, capacity, k, v);
    IndexOfUnique(r, k, 0);
    if m != k && !(PutOutcome(items, capacity, k).evicted && m == items[|items| - 1].0) {
      if m in Keys(items) {
        var i := IndexOf(items, m);
        PutKeepsEntry(items, capacity, k, v, i);
        LookupEntry(r, items[i]);
      } else {
        assert m !in Keys(r);
      }
    }
  }

  /** The map beside the list: one entry per key of the list, holding that key's value. */
  ghost predicate Agrees<K, V>(items: seq<(K, V)>, cache: map<K, V>)
  {
    cache.Keys == Keys(items) &&
    forall i :: 0 <= i < |items| ==> cache[items[i].0] == items[i].1
  }

  /** The map after put(k, v): the evicted key goes, k is bound to v. */
  function PutCache<K(==), V>(items: seq<(K, V)>, capacity: nat, k: K, v: V, cache: map<K, V>): map<K, V>
    requires capacity >= 1
  {
    var c := if PutOutcome(items, capacity, k).evicted then cache - {items[|items| - 1].0} else cache;
    c[k := v]
  }

  /** get's splice leaves the map agreeing with the list. */
  lemma {:induction false} TouchAgrees<K, V>(items: seq<(K, V)>, k: K, cache: map<K, V>)
    requires DistinctKeys(items) && Agrees(items, cache)
    ensures Agrees(Touch(items, k), cache)
  {
    TouchFacts(items, k);
    var t := Touch(items, k);
    forall j | 0 <= j < |t| ensures cache[t[j].0] == t[j].1 {
      assert t[j] in multiset(items);
      var i :| 0 <= i < |items| && items[i] == t[j];
    }
  }

  /** get's splice of entry i, the one for k, to the front is Touch, and keeps the cache's invariant. */
  lemma {:induction false} GetSplice<K, V>(items: seq<(K, V)>, capacity: nat, cache: map<K, V>, k: K, i: nat)
    requires WellFormed(items, capacity) && Agrees(items, cache) && k in Keys(items) && i == IndexOf(items, k)
    ensures [items[i]] + items[..i] + items[i + 1..] == Touch(items, k)
    ensures WellFormed(Touch(items, k), capacity) && Agrees(Touch(items, k), cache)
    ensures Lookup(items, k) == Some(items[i].1)
  {
    SpliceIsTouch(items, k, i);
    TouchFacts(items, k);
    TouchAgrees(items, k, cache);
  }

  /** The list get produces, written as the source splices it. */
  lemma {:induction false} SpliceIsTouch<K, V>(items: seq<(K, V)>, k: K, i: nat)
    requires k in Keys(items) && i == IndexOf(items, k)
    ensures [items[i]] + items[..i] + items[i + 1..] == Touch(items, k)
  {
    assert Without(items, k) == items[..i] + items[i + 1..];
  }

  /** put leaves the map agreeing with the list. */
  lemma {:induction false} PutAgrees<K, V>(items: seq<(K, V)>, capacity: nat, k: K, v: V, cache: map<K, V>)
    requires WellFormed(items, capacity) && Agrees(items, cache)
    ensures Agrees(PutItems(items, capacity, k, v), PutCache(items, capacity, k, v, cache))
  {
    var r := PutItems(items, capacity, k, v);
    var c := PutCache(items, capacity, k, v, cache);
    PutFacts(items, capacity, k, v);
    forall i | 0 <= i < |r| ensures c[r[i].0] == r[i].1 {
      if i > 0 {
        assert r[i].0 != k by { IndexOfUnique(r, k, 0); }
        PutLookup(items, capacity, k, v, r[i].0);
        IndexOfUnique(r, r[i].0, i);
        assert r[i].0 in Keys(items);
        var j := IndexOf(items, r[i].0);
      }
    }
  }

  // ---------------------------------------------------------------------
  // The cache object
  // ---------------------------------------------------------------------

  class LRUCache<K(==), V> {
    const capacity: nat
    var items: seq<(K, V)>
    var cache: map<K, V>

    /** The list and the map agree, the keys are distinct, the size is within capacity. */
    ghost predicate Valid()
      reads this
    {
      WellFormed(items, capacity) && Agrees(items, cache)
    }

    /** LRUCache(capacity); a capacity of 0 would make the first put read the back of an empty list. */
    constructor (capacity: nat)
      requires capacity >= 1
      ensures Valid() && this.capacity == capacity && items == []
    {
      this.capacity := capacity;
      items := [];
      cache := map[];
    }

    /** The map lookup agrees with the list. */
    lemma {:induction false} LookupAgrees(k: K)
      requires Valid()
      ensures k in cache ==> k in Keys(items) && Lookup(items, k) == Some(cache[k])
      ensures k !in cache ==> Lookup(items, k) == None
    {
      if k in cache {
        var i := IndexOf(items, k);
      }
    }

    /** get: a miss changes nothing, a hit moves the entry to the front and returns its value. */
    method Get(key: K) returns (r: Option<V>)
      requires Valid()
      modifies this
      ensures Valid()
      ensures r == Lookup(old(items), key)
      ensures items == Touch(old(items), key)
      ensures cache == old(cache)
    {
      LookupAgrees(key);
      if key !in cache {
        return None;
      }
      var i := IndexOf(items, key);
      GetSplice(items, capacity, cache, key, i);
      r := Some(items[i].1);
      items := [items[i]] + items[..i] + items[i + 1..];
    }

    /** size(): the number of entries. */
    function Size(): (n: nat)
      reads this
      requires Valid()
      ensures n == |cache| && n <= capacity
    {
      KeysCount(items);
      |items|
    }

    /** contains(): whether the map has the key, the same as whether the list has it. */
    function Contains(key: K): (b: bool)
      reads this
      requires Valid()
      ensures b <==> key in Keys(items)
      ensures b <==> Lookup(items, key).Some?
    {
      LookupAgrees(key);
      key in cache
    }

    /** put: update in place, or insert at the front after evicting the back when full. */
    method Put(key: K, value: V) returns (result: PutResult<K, V>)
      requires Valid()
      modifies this
      ensures Valid()
      ensures items == PutItems(old(items), capacity, key, value)
      ensures result == PutOutcome(old(items), capacity, key)
    {
      ghost var before := items;
      ghost var beforeCache := cache;
      result := PutResult(false, None);
      LookupAgrees(key);
      if key in cache {
        var i := IndexOf(items, key);
        ghost var rest := items[..i] + items[i + 1..];
        assert rest == Without(before, key);
        items := [(key, value)] + items[..i] + items[i + 1..];
        cache := cache[key := value];
        assert items == [(key, value)] + rest;
      } else {
        if |items| >= capacity {
          var last := items[|items| - 1];
          cache := cache - {last.0};
          result := PutResult(true, Some(last));
          items := items[..|items| - 1];
        }
        items := [(key, value)] + items;
        cache := cache[key := value];
      }
      assert cache == PutCache(before, capacity, key, value, beforeCache);
      PutFacts(before, capacity, key, value);
      PutAgrees(before, capacity, key, value, beforeCache);
    }
  }

  /** With distinct keys, there are as many keys as entries. */
  lemma {:induction false} KeysCount<K, V>(items: seq<(K, V)>)
    requires DistinctKeys(items)
    ensures |Keys(items)| == |items|
  {
    if items != [] {
      var t := items[1..];
      assert DistinctKeys(t);
      KeysCount(t);
      forall j | 0 <= j < |t| ensures t[j].0 != items[0].0 {
        assert t[j] == items[j + 1];
      }
      assert items[0].0 !in Keys(t);
      PrependFresh(t, items[0].0, items[0].1);
      assert items == [(items[0].0, items[0].1)] + t;
    }
  }
}
