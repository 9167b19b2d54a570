/**
 * The terrain manager's bookkeeping as values. The state is the two
 * caches' entry lists, the key sets that gate requests, the per-worker
 * request queues and the counters; every operation of the manager is a
 * function from the state before to the state after. The class in
 * manager.dfy is proved to follow these functions, and the properties of
 * the manager are proved here about them.
 */
module ManagerSpec {
  import opened Wrappers
  import opened TileKeys
  import opened Lru
  import LW = LoadWorker
  import DD = DiskDeallocation
  import Nodes
  import opened Files

  // ---------------------------------------------------------------------
  // The eviction policy: no root, no tile with a resident child
  // ---------------------------------------------------------------------

  /** hasChildren: one of the four children is in the memory cache. */
  function HasChildren(resident: set<TileKey>, k: TileKey): (b: bool)
    ensures b <==> exists c :: c in Children(k) && c in resident
  {
    TopLeftChild(k) in resident || TopRightChild(k) in resident
      || BottomLeftChild(k) in resident || BottomRightChild(k) in resident
  }

  /** checkEviction: a tile may leave a cache only if it is not the root and no child of it is resident. */
  function CheckEviction(resident: set<TileKey>, k: TileKey): (b: bool)
    ensures b <==> k != Root() && forall c :: c in Children(k) ==> c !in resident
  {
    !HasChildren(resident, k) && k != Root()
  }

  /** allChildrenExistant: all four children are in the memory cache. */
  function AllChildrenExistant(resident: set<TileKey>, k: TileKey): (b: bool)
    ensures b <==> forall c :: c in Children(k) ==> c in resident
  {
    TopLeftChild(k) in resident && TopRightChild(k) in resident
      && BottomLeftChild(k) in resident && BottomRightChild(k) in resident
  }

  /**
   * The check the memory loop makes runs against the cache without the
   * entry in hand; since no tile is its own child that is the same as
   * checking against the cache with it.
   */
  lemma {:induction false} CheckIgnoresSelf(resident: set<TileKey>, k: TileKey)
    ensures CheckEviction(resident - {k}, k) == CheckEviction(resident + {k}, k)
  {
    ChildNotSelf(k);
  }

  // ---------------------------------------------------------------------
  // The reinsertion loop of both caches
  // ---------------------------------------------------------------------

  /** How the reinsertion loop ends: with the cache and the entry it lets go, or never. */
  datatype Eviction<V> = Evicts(items: seq<(TileKey, V)>, victim: (TileKey, V)) | Spins

  /**
   * while (!ok(evicted)) evicted = put(evicted).evictedItem: put the entry in
   * hand back in front of the full cache, which hands back the entry at the
   * back. The source loops without bound; after as many tries as there are
   * entries in the cache plus the one in hand, every entry has been tried
   * once and the next tries repeat them, so the loop never ends: Spins.
   */
  function Reinsert<V>(items: seq<(TileKey, V)>, capacity: nat, held: (TileKey, V), ok: TileKey -> bool, fuel: nat): (r: Eviction<V>)
    requires WellFormed(items, capacity) && |items| == capacity && held.0 !in Keys(items)
    ensures r.Evicts? ==>
      && WellFormed(r.items, capacity) && |r.items| == capacity
      && r.victim.0 !in Keys(r.items) && ok(r.victim.0)
    decreases fuel
  {
    if ok(held.0) then Evicts(items, held)
    else if fuel == 0 then Spins
    else
      ReinsertTurn(items, capacity, held);
      Reinsert(PutItems(items, capacity, held.0, held.1), capacity, items[|items| - 1], ok, fuel - 1)
  }

  /** The loop loses no entry and makes none up: the cache and the entry let go are the old cache and the entry in hand. */
  lemma {:induction false} ReinsertConserves<V>(items: seq<(TileKey, V)>, capacity: nat, held: (TileKey, V), ok: TileKey -> bool, fuel: nat)
    requires WellFormed(items, capacity) && |items| == capacity && held.0 !in Keys(items)
    ensures var r := Reinsert(items, capacity, held, ok, fuel);
      r.Evicts? ==> multiset(r.items) + multiset{r.victim} == multiset(items + [held])
    decreases fuel
  {
    if !ok(held.0) && fuel > 0 {
      ReinsertTurn(items, capacity, held);
      ReinsertConserves(PutItems(items, capacity, held.0, held.1), capacity, items[|items| - 1], ok, fuel - 1);
    }
  }

  /** One turn of the loop: the full cache takes the entry in hand and hands back its last one, which is no longer in it. */
  lemma {:induction false} ReinsertTurn<V>(items: seq<(TileKey, V)>, capacity: nat, held: (TileKey, V))
    requires WellFormed(items, capacity) && |items| == capacity && held.0 !in Keys(items)
    ensures var next := PutItems(items, capacity, held.0, held.1);
      && WellFormed(next, capacity) && |next| == capacity && items[|items| - 1].0 !in Keys(next)
      && multiset(next + [items[|items| - 1]]) == multiset(items + [held])
  {
    var n := |items|;
    PutFacts(items, capacity, held.0, held.1);
    assert items == items[..n - 1] + [items[n - 1]];
  }

  /** An entry that fails the check goes back in front; the one handed back is the last, and the loop goes on from there. */
  lemma {:induction false} ReinsertUnfold<V>(items: seq<(TileKey, V)>, capacity: nat, held: (TileKey, V), ok: TileKey -> bool, fuel: nat)
    requires WellFormed(items, capacity) && |items| == capacity && held.0 !in Keys(items)
    requires !ok(held.0) && fuel > 0
    ensures PutOutcome(items, capacity, held.0) == PutResult(true, Some(items[|items| - 1]))
    ensures Reinsert(items, capacity, held, ok, fuel)
         == Reinsert(PutItems(items, capacity, held.0, held.1), capacity, items[|items| - 1], ok, fuel - 1)
  {
    ReinsertTurn(items, capacity, held);
  }

  /**
   * One turn of the loop as the caller sees it: put lets go the back entry,
   * which becomes the one in hand, and the cache and the entry in hand hold
   * the same keys as before.
   */
  lemma {:induction false} ReinsertPutBack<V>(items: seq<(TileKey, V)>, capacity: nat, held: (TileKey, V), ok: TileKey -> bool, fuel: nat,
                           after: seq<(TileKey, V)>, next: (TileKey, V), left: nat)
    requires WellFormed(items, capacity) && |items| == capacity && held.0 !in Keys(items)
    requires !ok(held.0) && fuel > 0
    requires after == PutItems(items, capacity, held.0, held.1) && next == items[|items| - 1] && left == fuel - 1
    ensures WellFormed(after, capacity) && |after| == capacity && next.0 !in Keys(after)
    ensures Keys(after) + {next.0} == Keys(items) + {held.0}
    ensures Reinsert(items, capacity, held, ok, fuel) == Reinsert(after, capacity, next, ok, left)
  {
    PutBackKeys(items, capacity, held, after, next);
    ReinsertUnfold(items, capacity, held, ok, fuel);
  }

  /** The keys of the cache and of the entry in hand, before and after one turn. */
  lemma {:induction false} PutBackKeys<V>(items: seq<(TileKey, V)>, capacity: nat, held: (TileKey, V), after: seq<(TileKey, V)>, next: (TileKey, V))
    requires WellFormed(items, capacity) && |items| == capacity && held.0 !in Keys(items)
    requires after == PutItems(items, capacity, held.0, held.1) && next == items[|items| - 1]
    ensures WellFormed(after, capacity) && |after| == capacity && next.0 !in Keys(after)
    ensures Keys(after) + {next.0} == Keys(items) + {held.0}
  {
    PutFacts(items, capacity, held.0, held.1);
    ReinsertTurn(items, capacity, held);
    assert next.0 in Keys(items);
  }

  /** A rotation of a list with distinct keys, with entry j taken out, keeps the others' keys distinct. */
  lemma {:induction false} RotationKeys<V>(w: seq<(TileKey, V)>, j: nat)
    requires DistinctKeys(w) && j < |w|
    ensures DistinctKeys(w[j + 1..] + w[..j])
    ensures Keys(w[j + 1..] + w[..j]) == Keys(w) - {w[j].0}
    ensures |w[j + 1..] + w[..j]| == |w| - 1
  {
    var r := w[j + 1..] + w[..j];
    var d := |w| - j - 1;
    assert forall i :: 0 <= i < d ==> r[i] == w[j + 1 + i];
    assert forall i :: d <= i < |r| ==> r[i] == w[i - d];
    forall a, b | 0 <= a < b < |r| ensures r[a].0 != r[b].0 {
      var fa := if a < d then j + 1 + a else a - d;
      var fb := if b < d then j + 1 + b else b - d;
      assert r[a] == w[fa] && r[b] == w[fb] && fa != fb;
    }
    forall m | m in Keys(r) ensures m in Keys(w) - {w[j].0} {
      var i :| 0 <= i < |r| && r[i].0 == m;
      var f := if i < d then j + 1 + i else i - d;
      assert r[i] == w[f] && f != j;
    }
    forall m | m in Keys(w) - {w[j].0} ensures m in Keys(r) {
      var i :| 0 <= i < |w| && w[i].0 == m;
      assert i != j;
      if i > j { assert r[i - j - 1] == w[i]; } else { assert r[i + d] == w[i]; }
    }
  }

  /** One turn of the loop on a rotation: putting entry j back in front hands back entry j - 1. */
  lemma {:induction false} RotationStep<V>(w: seq<(TileKey, V)>, capacity: nat, j: nat)
    requires capacity >= 1 && |w| == capacity + 1 && DistinctKeys(w) && 0 < j <= capacity
    ensures WellFormed(w[j + 1..] + w[..j], capacity) && w[j].0 !in Keys(w[j + 1..] + w[..j])
    ensures PutItems(w[j + 1..] + w[..j], capacity, w[j].0, w[j].1) == w[j..] + w[..j - 1]
    ensures (w[j + 1..] + w[..j])[capacity - 1] == w[j - 1]
  {
    RotationKeys(w, j);
    var items := w[j + 1..] + w[..j];
    var n := |items|;
    assert items[n - 1] == w[j - 1];
    assert items[..n - 1] == w[j + 1..] + w[..j - 1];
    assert w[j..] == [w[j]] + w[j + 1..];
  }

  /** The last position at or before j whose entry passes ok (0 when none does). */
  function LastPassing<V>(w: seq<(TileKey, V)>, j: nat, ok: TileKey -> bool): (v: nat)
    requires j < |w|
    ensures v <= j
    ensures (exists i :: 0 <= i <= j && ok(w[i].0)) ==> ok(w[v].0)
    ensures forall i :: v < i <= j ==> !ok(w[i].0)
    decreases j
  {
    if ok(w[j].0) || j == 0 then j else LastPassing(w, j - 1, ok)
  }

  /**
   * The loop rotates the list of the cache's entries followed by the one in
   * hand: with entry j in hand, the cache holds the entries after j and
   * then those before it. So it tries the entries from the back of that
   * list to its front, and lets go the first one that passes.
   */
  lemma {:induction false} ReinsertRotates<V>(w: seq<(TileKey, V)>, capacity: nat, j: nat, ok: TileKey -> bool)
    requires capacity >= 1 && |w| == capacity + 1 && DistinctKeys(w) && j <= capacity
    ensures WellFormed(w[j + 1..] + w[..j], capacity) && |w[j + 1..] + w[..j]| == capacity
    ensures w[j].0 !in Keys(w[j + 1..] + w[..j])
    ensures var r := Reinsert(w[j + 1..] + w[..j], capacity, w[j], ok, j);
      && (r.Spins? <==> forall i :: 0 <= i <= j ==> !ok(w[i].0))
      && (r.Evicts? ==> var v := LastPassing(w, j, ok); r.victim == w[v] && r.items == w[v + 1..] + w[..v])
    decreases j
  {
    RotationKeys(w, j);
    var items := w[j + 1..] + w[..j];
    var r := Reinsert(items, capacity, w[j], ok, j);
    var v := LastPassing(w, j, ok);
    if ok(w[j].0) {
      assert r == Evicts(items, w[j]);
      assert v == j;
    } else if j > 0 {
      RotationStep(w, capacity, j);
      var i := j - 1;
      var next := w[i + 1..] + w[..i];
      assert next == w[j..] + w[..j - 1];
      assert r == Reinsert(next, capacity, w[i], ok, i);
      assert v == LastPassing(w, i, ok);
      ReinsertRotates(w, capacity, i, ok);
      if r.Evicts? {
        assert r.items == w[v + 1..] + w[..v];
      }
    }
  }

  // ---------------------------------------------------------------------
  // put into a cache, then the reinsertion loop
  // ---------------------------------------------------------------------

  /** What a put followed by the reinsertion loop leaves: the entries and the one let go, or a loop without end. */
  datatype Inserted<V> = Inserted(items: seq<(TileKey, V)>, victim: Option<(TileKey, V)>) | Spun

  /** put(key, value), and when that evicted an entry, the loop until one passes ok. */
  function CachePut<V>(items: seq<(TileKey, V)>, capacity: nat, key: TileKey, value: V, ok: TileKey -> bool): (r: Inserted<V>)
    requires WellFormed(items, capacity)
    ensures r.Inserted? ==> WellFormed(r.items, capacity)
  {
    PutFacts(items, capacity, key, value);
    var put := PutOutcome(items, capacity, key);
    var after := PutItems(items, capacity, key, value);
    if !put.evicted then Inserted(after, None)
    else
      match Reinsert(after, capacity, put.evictedItem.value, ok, capacity)
      case Spins => Spun
      case Evicts(rest, victim) => Inserted(rest, Some(victim))
  }

  /** The evicting case: the cache stays full and lets go the entry of w = new entry + old list that the loop reaches first. */
  lemma {:induction false} CachePutEvicting<V>(items: seq<(TileKey, V)>, capacity: nat, key: TileKey, value: V, ok: TileKey -> bool)
    requires WellFormed(items, capacity) && key !in Keys(items) && |items| >= capacity
    ensures var r := CachePut(items, capacity, key, value, ok);
      var w := [(key, value)] + items;
      && (r.Spun? <==> forall i :: 0 <= i < |w| ==> !ok(w[i].0))
      && (r.Inserted? ==> r.victim.Some?)
      && (r.Inserted? ==> exists p :: 0 <= p < |w| && w[p] == r.victim.value
                             && r.items == w[p + 1..] + w[..p] && forall i :: p < i < |w| ==> !ok(w[i].0))
  {
    PutFacts(items, capacity, key, value);
    var n := |items|;
    var w := [(key, value)] + items;
    PrependFresh(items, key, value);
    assert w[capacity + 1..] == [];
    assert w[..capacity] == PutItems(items, capacity, key, value);
    assert w[capacity] == items[n - 1];
    ReinsertRotates(w, capacity, capacity, ok);
    assert w[capacity + 1..] + w[..capacity] == PutItems(items, capacity, key, value);
    assert PutOutcome(items, capacity, key).evictedItem == Some(w[capacity]);
    var p := LastPassing(w, capacity, ok);
    assert p < |w|;
  }

  /**
   * What put and the loop do, in terms of w, the new entry followed by the
   * old list (front = most recently used): without eviction the put alone;
   * with one, the cache stays full and lets go exactly one entry that
   * passes ok, the least recently used of those that pass; the loop never
   * ends exactly when no entry passes.
   */
  lemma {:induction false} CachePutFacts<V>(items: seq<(TileKey, V)>, capacity: nat, key: TileKey, value: V, ok: TileKey -> bool)
    requires WellFormed(items, capacity)
    ensures var r := CachePut(items, capacity, key, value, ok);
      var w := [(key, value)] + items;
      && (r.Spun? <==> key !in Keys(items) && |items| >= capacity && forall i :: 0 <= i < |w| ==> !ok(w[i].0))
      && (r.Inserted? && r.victim.None? <==> key in Keys(items) || |items| < capacity)
      && (r.Inserted? && r.victim.None? ==> r.items == PutItems(items, capacity, key, value))
      && (r.Inserted? && r.victim.Some? ==>
            && ok(r.victim.value.0) && |r.items| == capacity
            && Keys(r.items) == Keys(items) + {key} - {r.victim.value.0}
            && exists p :: 0 <= p < |w| && w[p] == r.victim.value && forall i :: p < i < |w| ==> !ok(w[i].0))
  {
    PutFacts(items, capacity, key, value);
    if key !in Keys(items) && |items| >= capacity {
      CachePutEvicting(items, capacity, key, value, ok);
      if CachePut(items, capacity, key, value, ok).Inserted? {
        CachePutVictim(items, capacity, key, value, ok);
      }
    }
  }

  /** The evicting case once the loop ends: the one let go passes ok, and the keys lose exactly its key. */
  lemma {:induction false} CachePutVictim<V>(items: seq<(TileKey, V)>, capacity: nat, key: TileKey, value: V, ok: TileKey -> bool)
    requires WellFormed(items, capacity) && key !in Keys(items) && |items| >= capacity
    requires CachePut(items, capacity, key, value, ok).Inserted?
    ensures var r := CachePut(items, capacity, key, value, ok);
      var w := [(key, value)] + items;
      && r.victim.Some? && ok(r.victim.value.0) && |r.items| == capacity
      && Keys(r.items) == Keys(items) + {key} - {r.victim.value.0}
      && exists p :: 0 <= p < |w| && w[p] == r.victim.value && forall i :: p < i < |w| ==> !ok(w[i].0)
  {
    CachePutEvicting(items, capacity, key, value, ok);
    PutFacts(items, capacity, key, value);
    var w := [(key, value)] + items;
    var r := CachePut(items, capacity, key, value, ok);
    PrependFresh(items, key, value);
    var p :| 0 <= p < |w| && w[p] == r.victim.value
             && r.items == w[p + 1..] + w[..p] && forall i :: p < i < |w| ==> !ok(w[i].0);
    RotationKeys(w, p);
  }

  /** The same outcome in terms of the keys alone, for any check. */
  lemma {:induction false} CachePutKeyFacts<V>(items: seq<(TileKey, V)>, capacity: nat, key: TileKey, value: V, ok: TileKey -> bool)
    requires WellFormed(items, capacity)
    ensures var r := CachePut(items, capacity, key, value, ok);
      && (r.Spun? <==> key !in Keys(items) && |items| >= capacity && forall x :: x in Keys(items) + {key} ==> !ok(x))
      && (r.Inserted? && r.victim.None? ==>
            r.items == PutItems(items, capacity, key, value) && Keys(r.items) == Keys(items) + {key})
      && (r.Inserted? && r.victim.Some? ==>
            && r.victim.value.0 in Keys(items) + {key} && ok(r.victim.value.0)
            && key !in Keys(items) && |items| >= capacity && |r.items| == capacity
            && Keys(r.items) == Keys(items) + {key} - {r.victim.value.0})
  {
    CachePutFacts(items, capacity, key, value, ok);
    PutFacts(items, capacity, key, value);
    var w := [(key, value)] + items;
    var c := CachePut(items, capacity, key, value, ok);
    if key !in Keys(items) && |items| >= capacity {
      PrependFresh(items, key, value);
      if forall x :: x in Keys(items) + {key} ==> !ok(x) {
        forall i | 0 <= i < |w| ensures !ok(w[i].0) {
          assert w[i].0 in Keys(w);
        }
      } else {
        var x :| x in Keys(items) + {key} && ok(x);
        var i :| 0 <= i < |w| && w[i].0 == x;
      }
      if c.Inserted? {
        var p :| 0 <= p < |w| && w[p] == c.victim.value && forall i :: p < i < |w| ==> !ok(w[i].0);
        assert c.victim.value.0 in Keys(w);
      }
    }
  }

  // ---------------------------------------------------------------------
  // The manager's state
  // ---------------------------------------------------------------------

  /**
   * The fields of TerrainManager that the bookkeeping touches. Times are
   * milliseconds of the system clock; the request counter and the API
   * request statistic are unsigned 32-bit counters.
   */
  datatype ManagerState = ManagerState(
    mem: seq<(TileKey, Nodes.TerrainNode)>, memCapacity: nat,
    disk: seq<(TileKey, ())>, diskCapacity: nat,
    loading: set<TileKey>, unloadable: set<TileKey>, evictions: set<TileKey>,
    loadRequests: seq<seq<LW.Request>>, currentLoadThread: nat,
    requested: U32, offlineWait: bool, lastNetworkError: int, apiRequests: U32,
    unloadRequests: seq<DD.Request>)

  /** Both caches well formed, at least one load worker, and the round-robin index naming one of them. */
  predicate Wf(s: ManagerState)
  {
    && WellFormed(s.mem, s.memCapacity) && WellFormed(s.disk, s.diskCapacity)
    && |s.loadRequests| >= 1 && s.currentLoadThread < |s.loadRequests|
  }

  /** requestNode's guard: not in memory, not being loaded, not known unloadable, not being deleted from disk. */
  predicate Gate(s: ManagerState, k: TileKey)
  {
    k !in Keys(s.mem) && k !in s.loading && k !in s.unloadable && k !in s.evictions
  }

  /** The request requestNode posts: from the disk cache when the tile is on disk, offline while waiting after an error. */
  function RequestFor(s: ManagerState, k: TileKey): LW.Request
  {
    LW.Request(k, if k in Keys(s.disk) then LW.LoadRequestDiskCache else LW.LoadRequest, s.offlineWait)
  }

  /** requestNode: when the guard holds, mark the tile loading and post one request to the next worker, round robin. */
  function RequestNode(s: ManagerState, k: TileKey): (t: ManagerState)
    requires Wf(s)
    ensures Wf(t)
  {
    if !Gate(s, k) then s
    else
      var i := s.currentLoadThread;
      s.(loading := s.loading + {k},
         loadRequests := s.loadRequests[i := s.loadRequests[i] + [RequestFor(s, k)]],
         currentLoadThread := (i + 1) % |s.loadRequests|,
         requested := Wrap(s.requested + 1))
  }

  /** All the requests queued for the workers, worker by worker. */
  function AllRequests<T>(qs: seq<seq<T>>): seq<T>
  {
    if qs == [] then [] else AllRequests(qs[..|qs| - 1]) + qs[|qs| - 1]
  }

  /** Appending to one worker's queue adds exactly that one request to the multiset of all queued requests. */
  lemma {:induction false} AllRequestsUpdate<T>(qs: seq<seq<T>>, i: nat, r: T)
    requires i < |qs|
    ensures multiset(AllRequests(qs[i := qs[i] + [r]])) == multiset(AllRequests(qs)) + multiset{r}
    decreases |qs|
  {
    var n := |qs| - 1;
    var qs' := qs[i := qs[i] + [r]];
    assert AllRequests(qs') == AllRequests(qs'[..n]) + qs'[n];
    assert AllRequests(qs) == AllRequests(qs[..n]) + qs[n];
    if i < n {
      assert qs'[..n] == qs[..n][i := qs[i] + [r]] && qs'[n] == qs[n];
      AllRequestsUpdate(qs[..n], i, r);
      calc {
        multiset(AllRequests(qs'));
        multiset(AllRequests(qs'[..n])) + multiset(qs[n]);
        multiset(AllRequests(qs[..n])) + multiset{r} + multiset(qs[n]);
      }
    } else {
      assert qs'[..n] == qs[..n] && qs'[n] == qs[n] + [r];
      assert multiset(qs'[n]) == multiset(qs[n]) + multiset{r};
    }
  }

  /**
   * requestNode changes the state exactly when the guard holds; then the
   * tile is loading, one request for it (of the kind the disk cache
   * decides) is queued, the next worker is chosen round robin, the counter
   * goes up by one, and nothing else changes.
   */
  lemma {:induction false} RequestNodeEffect(s: ManagerState, k: TileKey)
    requires Wf(s)
    ensures var t := RequestNode(s, k);
      && (t != s <==> Gate(s, k))
      && (Gate(s, k) ==>
            && t.loading == s.loading + {k}
            && t.currentLoadThread == (s.currentLoadThread + 1) % |s.loadRequests|
            && t.requested == Wrap(s.requested + 1)
            && t.mem == s.mem && t.disk == s.disk && t.unloadable == s.unloadable && t.evictions == s.evictions)
  {
    if Gate(s, k) {
      assert k in RequestNode(s, k).loading;
    }
  }

  /**
   * The request requestNode posts goes to the back of the current worker's
   * queue, and is the one request added to all the queued requests.
   */
  lemma {:induction false} RequestNodeQueued(s: ManagerState, k: TileKey)
    requires Wf(s) && Gate(s, k)
    ensures var t := RequestNode(s, k);
      && |t.loadRequests| == |s.loadRequests|
      && t.loadRequests[s.currentLoadThread] == s.loadRequests[s.currentLoadThread] + [RequestFor(s, k)]
      && (forall j :: 0 <= j < |s.loadRequests| && j != s.currentLoadThread ==> t.loadRequests[j] == s.loadRequests[j])
      && multiset(AllRequests(t.loadRequests)) == multiset(AllRequests(s.loadRequests)) + multiset{RequestFor(s, k)}
  {
    AllRequestsUpdate(s.loadRequests, s.currentLoadThread, RequestFor(s, k));
  }

  /** A second requestNode for the same tile does nothing: the first one marked it loading. */
  lemma {:induction false} RequestNodeIdempotent(s: ManagerState, k: TileKey)
    requires Wf(s)
    ensures RequestNode(RequestNode(s, k), k) == RequestNode(s, k)
  {
  }

  /** requestChildren: requestNode for the four children, top left, top right, bottom left, bottom right. */
  function RequestChildren(s: ManagerState, k: TileKey): (t: ManagerState)
    requires Wf(s)
    ensures Wf(t)
  {
    RequestNode(RequestNode(RequestNode(RequestNode(s, TopLeftChild(k)), TopRightChild(k)), BottomLeftChild(k)), BottomRightChild(k))
  }

  /** Requests never touch the caches, and a tile once loading stays so. */
  lemma {:induction false} RequestNodeKeeps(s: ManagerState, k: TileKey)
    requires Wf(s)
    ensures var t := RequestNode(s, k);
      && t.mem == s.mem && t.disk == s.disk && t.unloadable == s.unloadable && t.evictions == s.evictions
      && s.loading <= t.loading && k in t.loading + Keys(t.mem) + t.unloadable + t.evictions
  {
  }

  /** requestNode adds the tile to the loading set exactly when its guard holds. */
  lemma {:induction false} RequestNodeLoading(s: ManagerState, k: TileKey)
    requires Wf(s)
    ensures RequestNode(s, k).loading == s.loading + (if Gate(s, k) then {k} else {})
  {
  }

  /**
   * After requestChildren every child is accounted for: in memory, being
   * loaded, known unloadable or being deleted; the caches and the other
   * key sets are untouched.
   */
  lemma {:induction false} RequestChildrenCovers(s: ManagerState, k: TileKey)
    requires Wf(s)
    ensures var t := RequestChildren(s, k);
      && (forall c :: c in Children(k) ==> c in t.loading + Keys(t.mem) + t.unloadable + t.evictions)
      && t.mem == s.mem && t.disk == s.disk && t.unloadable == s.unloadable && t.evictions == s.evictions
      && s.loading <= t.loading
  {
    var s1 := RequestNode(s, TopLeftChild(k));
    var s2 := RequestNode(s1, TopRightChild(k));
    var s3 := RequestNode(s2, BottomLeftChild(k));
    RequestNodeKeeps(s, TopLeftChild(k));
    RequestNodeKeeps(s1, TopRightChild(k));
    RequestNodeKeeps(s2, BottomLeftChild(k));
    RequestNodeKeeps(s3, BottomRightChild(k));
  }

  /** The tiles requestChildren newly marks loading are exactly the children that passed the guard. */
  lemma {:induction false} RequestChildrenLoading(s: ManagerState, k: TileKey)
    requires Wf(s)
    ensures RequestChildren(s, k).loading == s.loading + set c | c in Children(k) && Gate(s, c)
  {
    var s1 := RequestNode(s, TopLeftChild(k));
    var s2 := RequestNode(s1, TopRightChild(k));
    var s3 := RequestNode(s2, BottomLeftChild(k));
    RequestNodeLoading(s, TopLeftChild(k));
    RequestNodeLoading(s1, TopRightChild(k));
    RequestNodeLoading(s2, BottomLeftChild(k));
    RequestNodeLoading(s3, BottomRightChild(k));
    RequestNodeKeeps(s, TopLeftChild(k));
    RequestNodeKeeps(s1, TopRightChild(k));
    RequestNodeKeeps(s2, BottomLeftChild(k));
  }

  // ---------------------------------------------------------------------
  // initTerrainNode: into memory, then onto the disk cache
  // ---------------------------------------------------------------------

  /** How handling a response ends: with a new state, in a reinsertion loop that never ends, or on a null node. */
  datatype Fate = Continues(s: ManagerState) | Hangs | Crashes

  /** The memory loop's check for the entry in hand, against the cache it has just displaced from. */
  function MemoryCheck(s: ManagerState, key: TileKey): TileKey -> bool
  {
    k => CheckEviction(Keys(s.mem) + {key}, k)
  }

  /** The disk loop's check: evictable from memory's point of view, and not being loaded. */
  function DiskCheck(s: ManagerState): TileKey -> bool
  {
    k => CheckEviction(Keys(s.mem), k) && k !in s.loading
  }

  /**
   * The memory half of initTerrainNode: put the node into the memory cache
   * under its own tile key and loop until the entry let go passes the
   * check (that node is freed); None when the loop never ends.
   */
  function MemoryInsert(s: ManagerState, node: Nodes.TerrainNode): (r: Option<ManagerState>)
    requires Wf(s)
    ensures r.Some? ==> Wf(r.value) && r.value == s.(mem := r.value.mem)
    ensures r.Some? ==> Keys(r.value.mem) <= Keys(s.mem) + {node.tileKey}
    ensures r.Some? && Root() in Keys(s.mem) ==> Root() in Keys(r.value.mem)
  {
    MemoryInsertKeys(s, node);
    MemoryInsertEvicts(s, node);
    match CachePut(s.mem, s.memCapacity, node.tileKey, node, MemoryCheck(s, node.tileKey))
    case Spun => None
    case Inserted(mem, _) => Some(s.(mem := mem))
  }

  /**
   * The disk half: put the key onto the disk cache, loop the same way with
   * the disk check, and queue the deletion of the entry let go; None when
   * the loop never ends.
   */
  function DiskInsert(s: ManagerState, key: TileKey): (r: Option<ManagerState>)
    requires Wf(s)
    ensures r.Some? ==> Wf(r.value)
    ensures r.Some? ==> r.value == s.(disk := r.value.disk, evictions := r.value.evictions, unloadRequests := r.value.unloadRequests)
  {
    match CachePut(s.disk, s.diskCapacity, key, (), DiskCheck(s))
    case Spun => None
    case Inserted(disk, None) => Some(s.(disk := disk))
    case Inserted(disk, Some(v)) =>
      Some(s.(disk := disk, evictions := s.evictions + {v.0},
              unloadRequests := s.unloadRequests + [DD.Request(v.0, DD.UnloadRequest)]))
  }

  /**
   * initTerrainNode without the GPU upload: the memory half, then the disk
   * half. Only the node's tile can enter memory, the root never leaves it,
   * and nothing outside the caches, the pending deletions and the
   * deallocation queue changes.
   */
  function InitTerrainNode(s: ManagerState, node: Nodes.TerrainNode): (f: Fate)
    requires Wf(s)
    ensures f != Crashes
    ensures f.Continues? ==> Wf(f.s)
    ensures f.Continues? ==> f.s == s.(mem := f.s.mem, disk := f.s.disk, evictions := f.s.evictions, unloadRequests := f.s.unloadRequests)
    ensures f.Continues? ==> Keys(f.s.mem) <= Keys(s.mem) + {node.tileKey}
    ensures f.Continues? && Root() in Keys(s.mem) ==> Root() in Keys(f.s.mem)
  {
    match MemoryInsert(s, node)
    case None => Hangs
    case Some(s1) =>
      match DiskInsert(s1, node.tileKey)
      case None => Hangs
      case Some(s2) => Continues(s2)
  }

  /** The entry with the deepest zoom level, the last of them. */
  function DeepestAt<V>(w: seq<(TileKey, V)>): (i: nat)
    requires |w| >= 1
    ensures i < |w| && forall j :: 0 <= j < |w| ==> w[j].0.z <= w[i].0.z
    decreases |w|
  {
    if |w| == 1 then 0
    else
      var i := DeepestAt(w[..|w| - 1]);
      assert forall j :: 0 <= j < |w| - 1 ==> w[..|w| - 1][j] == w[j];
      if w[|w| - 1].0.z >= w[i].0.z then |w| - 1 else i
  }

  /**
   * Some entry of a list of at least two distinct tiles passes the memory
   * check, as long as no zoom level is the last one of 32 bits: the deepest
   * tile has no child among them, and if the deepest is the root, every
   * tile is at zoom 0 and another one of them is not the root.
   */
  lemma {:induction false} SomeEntryEvictable<V>(w: seq<(TileKey, V)>)
    requires |w| >= 2 && DistinctKeys(w)
    requires forall i :: 0 <= i < |w| ==> w[i].0.z + 1 < U32_MODULUS
    ensures exists i :: 0 <= i < |w| && CheckEviction(Keys(w), w[i].0)
  {
    var m := DeepestAt(w);
    var pick := if w[m].0 != Root() then m else if m == 0 then 1 else 0;
    assert w[pick].0.z == w[m].0.z;
    forall c | c in Children(w[pick].0) ensures c !in Keys(w) {
      assert c.z == w[m].0.z + 1;
    }
    assert CheckEviction(Keys(w), w[pick].0);
  }

  /**
   * The memory loop always ends: when the put evicts, the cache holds the
   * new tile and at least one other, and as long as zoom levels stay below
   * the 32-bit limit one of them passes the check.
   */
  lemma {:induction false} MemoryNeverSpins(s: ManagerState, node: Nodes.TerrainNode)
    requires Wf(s)
    requires forall k :: k in Keys(s.mem) + {node.tileKey} ==> k.z + 1 < U32_MODULUS
    ensures CachePut(s.mem, s.memCapacity, node.tileKey, node, MemoryCheck(s, node.tileKey)).Inserted?
  {
    var key := node.tileKey;
    CachePutFacts(s.mem, s.memCapacity, key, node, MemoryCheck(s, key));
    if key !in Keys(s.mem) && |s.mem| >= s.memCapacity {
      var w := [(key, node)] + s.mem;
      PrependFresh(s.mem, key, node);
      forall i | 0 <= i < |w| ensures w[i].0.z + 1 < U32_MODULUS {
        assert w[i].0 in Keys(w);
      }
      SomeEntryEvictable(w);
    }
  }

  /**
   * What the memory side of initTerrainNode promises about tiles leaving:
   * at most one leaves, the root never does, and one leaves only when none
   * of its children stays resident.
   */
  lemma {:induction false} MemoryInsertEvicts(s: ManagerState, node: Nodes.TerrainNode)
    requires Wf(s)
    ensures var r := CachePut(s.mem, s.memCapacity, node.tileKey, node, MemoryCheck(s, node.tileKey));
      r.Inserted? ==>
        && Keys(s.mem) + {node.tileKey} - Keys(r.items) == (if r.victim.Some? then {r.victim.value.0} else {})
        && (forall k :: k in Keys(s.mem) && k !in Keys(r.items) ==>
              k != Root() && forall c :: c in Children(k) ==> c !in Keys(r.items))
  {
    var key := node.tileKey;
    var ok := MemoryCheck(s, key);
    CachePutFacts(s.mem, s.memCapacity, key, node, ok);
    PutFacts(s.mem, s.memCapacity, key, node);
  }

  /** The loop's victim is not the new entry when an entry after it in w passes the check. */
  lemma {:induction false} VictimNotNew<V>(items: seq<(TileKey, V)>, key: TileKey, value: V, ok: TileKey -> bool, i: nat, p: nat)
    requires i < |items| && ok(items[i].0) && p <= |items|
    requires forall j :: p < j <= |items| ==> !ok(([(key, value)] + items)[j].0)
    requires key !in Keys(items)
    ensures ([(key, value)] + items)[p].0 != key
  {
    var w := [(key, value)] + items;
    assert w[i + 1] == items[i];
    if p != 0 {
      assert w[p] == items[p - 1];
    }
  }

  /** A new key survives an evicting put when some entry already there, the i-th, passes the check. */
  lemma {:induction false} CachePutKeepsNew<V>(items: seq<(TileKey, V)>, capacity: nat, key: TileKey, value: V, ok: TileKey -> bool, i: nat)
    requires WellFormed(items, capacity) && i < |items| && ok(items[i].0)
    ensures var r := CachePut(items, capacity, key, value, ok);
      r.Inserted? ==> key in Keys(r.items)
  {
    var r := CachePut(items, capacity, key, value, ok);
    CachePutFacts(items, capacity, key, value, ok);
    if r.Inserted? && r.victim.Some? {
      var w := [(key, value)] + items;
      var p :| 0 <= p < |w| && w[p] == r.victim.value && forall j :: p < j < |w| ==> !ok(w[j].0);
      VictimNotNew(items, key, value, ok, i, p);
    } else if r.Inserted? {
      PutFacts(items, capacity, key, value);
      assert PutItems(items, capacity, key, value)[0].0 == key;
    }
  }

  /** The new tile stays in memory when some entry already there, the i-th, could be let go instead. */
  lemma {:induction false} MemoryInsertKeepsNew(s: ManagerState, node: Nodes.TerrainNode, i: nat)
    requires Wf(s) && i < |s.mem| && CheckEviction(Keys(s.mem) + {node.tileKey}, s.mem[i].0)
    ensures var r := CachePut(s.mem, s.memCapacity, node.tileKey, node, MemoryCheck(s, node.tileKey));
      r.Inserted? ==> node.tileKey in Keys(r.items)
  {
    var ok := MemoryCheck(s, node.tileKey);
    assert ok(s.mem[i].0);
    CachePutKeepsNew(s.mem, s.memCapacity, node.tileKey, node, ok, i);
  }

  /**
   * Without such an entry the loop lets go the new tile itself: with room
   * for one node and the root resident, the root fails the check and is
   * put back, which pushes out the new node. initTerrainNode then frees
   * that node and reads its tile key afterwards, for the disk half.
   */
  lemma {:induction false} MemoryInsertCanLetGoNew(s: ManagerState, node: Nodes.TerrainNode)
    requires Wf(s) && s.memCapacity == 1 && Keys(s.mem) == {Root()}
    requires node.tileKey != Root() && node.tileKey.z < 29
    ensures var r := CachePut(s.mem, s.memCapacity, node.tileKey, node, MemoryCheck(s, node.tileKey));
      r.Inserted? && r.victim == Some((node.tileKey, node)) && Keys(r.items) == {Root()}
  {
    var key := node.tileKey;
    var ok := MemoryCheck(s, key);
    CachePutFacts(s.mem, s.memCapacity, key, node, ok);
    ChildrenLevel(key);
    assert s.mem[0].0 in Keys(s.mem);
    var w := [(key, node)] + s.mem;
    assert ok(w[0].0);
    assert !ok(w[1].0);
  }

  /** Nothing but the new tile enters memory. */
  lemma {:induction false} MemoryInsertKeys(s: ManagerState, node: Nodes.TerrainNode)
    requires Wf(s)
    ensures var r := CachePut(s.mem, s.memCapacity, node.tileKey, node, MemoryCheck(s, node.tileKey));
      r.Inserted? ==> Keys(r.items) <= Keys(s.mem) + {node.tileKey}
  {
    CachePutFacts(s.mem, s.memCapacity, node.tileKey, node, MemoryCheck(s, node.tileKey));
    PutFacts(s.mem, s.memCapacity, node.tileKey, node);
  }

  /** The disk loop's outcome in terms of the cache: its closed form, with the disk check. */
  lemma {:induction false} DiskCachePutFacts(s: ManagerState, key: TileKey)
    requires Wf(s)
    ensures var r := CachePut(s.disk, s.diskCapacity, key, (), DiskCheck(s));
      && (r.Spun? <==> key !in Keys(s.disk) && |s.disk| >= s.diskCapacity
                       && forall k :: k in Keys(s.disk) + {key} ==> !DiskCheck(s)(k))
      && (r.Inserted? && r.victim.Some? ==> DiskCheck(s)(r.victim.value.0) && Keys(r.items) == Keys(s.disk) + {key} - {r.victim.value.0})
      && (r.Inserted? && r.victim.None? ==> Keys(r.items) == Keys(s.disk) + {key})
  {
    var ok := DiskCheck(s);
    CachePutFacts(s.disk, s.diskCapacity, key, (), ok);
    PutFacts(s.disk, s.diskCapacity, key, ());
    var w := [(key, ())] + s.disk;
    if key !in Keys(s.disk) && |s.disk| >= s.diskCapacity {
      PrependFresh(s.disk, key, ());
      if forall k :: k in Keys(s.disk) + {key} ==> !ok(k) {
        forall i | 0 <= i < |w| ensures !ok(w[i].0) {
          assert w[i].0 in Keys(w);
        }
      } else {
        var k :| k in Keys(s.disk) + {key} && ok(k);
        var i :| 0 <= i < |w| && w[i].0 == k;
      }
    }
  }

  /**
   * The disk half of initTerrainNode: the loop never ends exactly when
   * every entry (the new key among them) is the root, has a child in memory
   * or is being loaded; otherwise the key is on the disk cache and either
   * nothing was let go, or exactly one tile that is none of those three was,
   * it is marked as being deleted and its one deletion request is queued.
   */
  lemma {:induction false} DiskInsertEffect(s: ManagerState, key: TileKey)
    requires Wf(s)
    ensures var r := DiskInsert(s, key);
      && (r.None? <==> key !in Keys(s.disk) && |s.disk| >= s.diskCapacity
                       && forall k :: k in Keys(s.disk) + {key} ==> k == Root() || HasChildren(Keys(s.mem), k) || k in s.loading)
      && (r.Some? ==>
            || (Keys(r.value.disk) == Keys(s.disk) + {key} && r.value.evictions == s.evictions
                && r.value.unloadRequests == s.unloadRequests)
            || exists v :: v != Root() && v !in s.loading && !HasChildren(Keys(s.mem), v)
                && Keys(r.value.disk) == Keys(s.disk) + {key} - {v}
                && r.value.evictions == s.evictions + {v}
                && r.value.unloadRequests == s.unloadRequests + [DD.Request(v, DD.UnloadRequest)])
  {
    DiskCachePutFacts(s, key);
  }

  /**
   * initTerrainNode ends in a loop only in the disk loop (so long as zoom
   * levels stay below the 32-bit limit), and exactly when that one never
   * ends.
   */
  lemma {:induction false} InitTerrainNodeHangs(s: ManagerState, node: Nodes.TerrainNode)
    requires Wf(s)
    requires forall k :: k in Keys(s.mem) + {node.tileKey} ==> k.z + 1 < U32_MODULUS
    ensures MemoryInsert(s, node).Some?
    ensures InitTerrainNode(s, node).Hangs? <==> DiskInsert(MemoryInsert(s, node).value, node.tileKey).None?
  {
    MemoryNeverSpins(s, node);
  }

  // ---------------------------------------------------------------------
  // processAllDoneQueue and processAllUnloadDoneQueue
  // ---------------------------------------------------------------------

  /**
   * What one response does to the bookkeeping: the tile is no longer
   * loading, it is remembered when unloadable, an error turns the offline
   * wait on, and the request counter goes down by one (unsigned).
   */
  predicate ResponseEffect(s: ManagerState, r: LW.Response, t: ManagerState)
  {
    && t.loading == s.loading - {r.tileKey}
    && t.unloadable == s.unloadable + (if r.kind == LW.LoadUnloadable then {r.tileKey} else {})
    && (t.offlineWait <==> s.offlineWait || r.kind == LW.LoadError)
    && t.requested == Wrap(s.requested + U32_MODULUS - 1)
  }

  /** What one response does to memory: at most its own node's tile enters, the root stays, no load request is posted. */
  predicate MemoryEffect(s: ManagerState, r: LW.Response, t: ManagerState)
  {
    && Keys(t.mem) <= Keys(s.mem) + (if r.node.Some? then {r.node.value.tileKey} else {})
    && (Root() in Keys(s.mem) ==> Root() in Keys(t.mem))
    && t.loadRequests == s.loadRequests && t.currentLoadThread == s.currentLoadThread
  }

  /** What every response does first: one request fewer (unsigned), the tile no longer loading, two API requests counted for an answer from the API. */
  function Acknowledge(s: ManagerState, r: LW.Response): (t: ManagerState)
    ensures t == s.(requested := t.requested, loading := t.loading, apiRequests := t.apiRequests)
    ensures r.tileKey !in t.loading && t.loading + {r.tileKey} >= s.loading
  {
    s.(requested := Wrap(s.requested + U32_MODULUS - 1),
       loading := s.loading - {r.tileKey},
       apiRequests := if r.origin == LW.OriginApi then Wrap(s.apiRequests + 2) else s.apiRequests)
  }

  /**
   * One response: the request counter goes down by one (unsigned), the
   * tile is no longer loading, an answer from the API counts two requests;
   * an unloadable tile is remembered, an error starts the offline wait at
   * time now, a timeout is dropped; any other response goes through
   * initTerrainNode, which dereferences its node.
   */
  function ProcessResponse(s: ManagerState, r: LW.Response, now: int): (f: Fate)
    requires Wf(s)
    ensures f.Continues? ==> Wf(f.s)
    ensures f.Continues? ==> ResponseEffect(s, r, f.s) && MemoryEffect(s, r, f.s)
    ensures (r.kind in {LW.LoadOk, LW.LoadStoppedThread} ==> r.node.Some?) ==> f != Crashes
  {
    var s1 := Acknowledge(s, r);
    match r.kind
    case LoadUnloadable => Continues(s1.(unloadable := s1.unloadable + {r.tileKey}))
    case LoadError => Continues(s1.(lastNetworkError := now, offlineWait := true))
    case LoadTimeout => Continues(s1)
    case _ =>
      match r.node
      case None => Crashes
      case Some(n) => InitTerrainNode(s1, n)
  }

  /** processAllDoneQueue: the responses in queue order; a loop that never ends or a crash ends the rest. */
  function ProcessAll(s: ManagerState, rs: seq<LW.Response>, now: int): (f: Fate)
    requires Wf(s)
    ensures f.Continues? ==> Wf(f.s)
    decreases |rs|
  {
    if rs == [] then Continues(s)
    else
      match ProcessAll(s, rs[..|rs| - 1], now)
      case Continues(t) => ProcessResponse(t, rs[|rs| - 1], now)
      case other => other
  }

  /**
   * Every Ok and stopped-thread response carries a node, so that processing
   * them dereferences no null node.
   */
  predicate CarriesNodes(rs: seq<LW.Response>)
  {
    forall i :: 0 <= i < |rs| && rs[i].kind in {LW.LoadOk, LW.LoadStoppedThread} ==> rs[i].node.Some?
  }

  /**
   * The load worker's responses carry their nodes exactly when none of them
   * is a LOAD_STOPPED_THREAD, whose node the worker leaves null.
   */
  lemma {:induction false} WorkerBatchCarriesNodes(rs: seq<LW.Response>)
    requires LW.NodesAsBuilt(rs)
    ensures CarriesNodes(rs) <==> forall i :: 0 <= i < |rs| ==> rs[i].kind != LW.LoadStoppedThread
  {
  }

  /** The tiles the responses are about. */
  function KeysOf(rs: seq<LW.Response>): set<TileKey>
    decreases |rs|
  {
    if rs == [] then {} else KeysOf(rs[..|rs| - 1]) + {rs[|rs| - 1].tileKey}
  }

  /** The tiles answered unloadable. */
  function UnloadableKeysOf(rs: seq<LW.Response>): set<TileKey>
    decreases |rs|
  {
    if rs == [] then {}
    else UnloadableKeysOf(rs[..|rs| - 1]) + (if rs[|rs| - 1].kind == LW.LoadUnloadable then {rs[|rs| - 1].tileKey} else {})
  }

  /** Whether some response is a network error. */
  function SomeError(rs: seq<LW.Response>): bool
    decreases |rs|
  {
    rs != [] && (SomeError(rs[..|rs| - 1]) || rs[|rs| - 1].kind == LW.LoadError)
  }

  /** The three summaries of a batch, position by position. */
  lemma {:induction false} SummariesByPosition(rs: seq<LW.Response>)
    ensures forall k :: k in KeysOf(rs) <==> exists i :: 0 <= i < |rs| && rs[i].tileKey == k
    ensures forall k :: k in UnloadableKeysOf(rs) <==> exists i :: 0 <= i < |rs| && rs[i].tileKey == k && rs[i].kind == LW.LoadUnloadable
    ensures SomeError(rs) <==> exists i :: 0 <= i < |rs| && rs[i].kind == LW.LoadError
    decreases |rs|
  {
    if rs != [] {
      var init := rs[..|rs| - 1];
      SummariesByPosition(init);
      assert forall i :: 0 <= i < |init| ==> init[i] == rs[i];
    }
  }

  /** Unsigned 32-bit subtraction: a - n modulo 2^32. */
  function Sub32(a: U32, n: nat): U32
  {
    (a - n) % U32_MODULUS
  }

  /** One more decrement of an unsigned counter, the way the source writes it, is subtraction of one more. */
  lemma {:induction false} CounterStep(a: U32, n: nat)
    ensures Wrap(Sub32(a, n) + U32_MODULUS - 1) == Sub32(a, n + 1)
  {
    var q := Sub32(a, n);
    var k := (a - n) / U32_MODULUS;
    assert a - n == k * U32_MODULUS + q;
    if q == 0 {
      assert a - (n + 1) == (k - 1) * U32_MODULUS + (U32_MODULUS - 1);
    } else {
      assert a - (n + 1) == k * U32_MODULUS + (q - 1);
    }
  }

  /**
   * What a batch that runs to its end leaves, from s to t: no responded
   * tile is loading unless it was loading and did not respond, the
   * unloadable tiles grew by exactly those answered unloadable, the offline
   * wait is on exactly when it was or some response was an error, and the
   * counter went down by the number of responses, modulo 2^32.
   */
  predicate BatchSummary(s: ManagerState, rs: seq<LW.Response>, t: ManagerState)
  {
    && t.loading == s.loading - KeysOf(rs)
    && t.unloadable == s.unloadable + UnloadableKeysOf(rs)
    && (t.offlineWait <==> s.offlineWait || SomeError(rs))
    && t.requested == Sub32(s.requested, |rs|)
  }

  lemma {:induction false} SummaryStep(s: ManagerState, rs: seq<LW.Response>, g: ManagerState, f: Fate)
    requires rs != [] && BatchSummary(s, rs[..|rs| - 1], g)
    requires f.Continues? ==> ResponseEffect(g, rs[|rs| - 1], f.s)
    ensures f.Continues? ==> BatchSummary(s, rs, f.s)
  {
    CounterStep(s.requested, |rs| - 1);
  }

  /** processAllDoneQueue meets the summary whenever it runs to the end of the batch. */
  lemma {:induction false} ProcessAllFacts(s: ManagerState, rs: seq<LW.Response>, now: int)
    requires Wf(s)
    ensures ProcessAll(s, rs, now).Continues? ==> BatchSummary(s, rs, ProcessAll(s, rs, now).s)
    decreases |rs|
  {
    if rs != [] {
      var n := |rs| - 1;
      ProcessAllFacts(s, rs[..n], now);
      var g := ProcessAll(s, rs[..n], now);
      if g.Continues? {
        SummaryStep(s, rs, g.s, ProcessResponse(g.s, rs[n], now));
      }
    }
  }

  /** A batch whose responses carry their nodes never crashes. */
  lemma {:induction false} ProcessAllNoCrash(s: ManagerState, rs: seq<LW.Response>, now: int)
    requires Wf(s) && CarriesNodes(rs)
    ensures ProcessAll(s, rs, now) != Crashes
    decreases |rs|
  {
    if rs != [] {
      var n := |rs| - 1;
      var init := rs[..n];
      assert forall i :: 0 <= i < n ==> init[i] == rs[i];
      ProcessAllNoCrash(s, init, now);
      var g := ProcessAll(s, init, now);
      if g.Continues? {
        assert ProcessAll(s, rs, now) == ProcessResponse(g.s, rs[n], now);
      } else {
        assert ProcessAll(s, rs, now) == g;
      }
    }
  }

  /** A batch from the load worker with no stopped-thread response never crashes. */
  lemma {:induction false} WorkerBatchNoCrash(s: ManagerState, rs: seq<LW.Response>, now: int)
    requires Wf(s) && LW.NodesAsBuilt(rs)
    requires forall i :: 0 <= i < |rs| ==> rs[i].kind != LW.LoadStoppedThread
    ensures ProcessAll(s, rs, now) != Crashes
  {
    WorkerBatchCarriesNodes(rs);
    ProcessAllNoCrash(s, rs, now);
  }

  /** One more response: the batch so far, then that response if the batch so far continued. */
  lemma {:induction false} ProcessAllStep(s: ManagerState, rs: seq<LW.Response>, i: nat, j: nat, now: int)
    requires Wf(s) && i < |rs| && j == i + 1
    ensures ProcessAll(s, rs[..i], now).Continues? ==> ProcessAll(s, rs[..j], now) == ProcessResponse(ProcessAll(s, rs[..i], now).s, rs[i], now)
  {
    assert rs[..j][..i] == rs[..i];
  }

  /** Once a response hangs or crashes, the rest of the batch is not handled. */
  lemma {:induction false} ProcessAllStops(s: ManagerState, rs: seq<LW.Response>, i: nat, now: int)
    requires Wf(s) && i <= |rs| && !ProcessAll(s, rs[..i], now).Continues?
    ensures ProcessAll(s, rs, now) == ProcessAll(s, rs[..i], now)
    decreases |rs|
  {
    if i == |rs| {
      assert rs[..i] == rs;
    } else {
      var n := |rs| - 1;
      assert rs[..n][..i] == rs[..i];
      ProcessAllStops(s, rs[..n], i, now);
    }
  }

  /** The tiles of the nodes the responses carry. */
  function NodeKeysOf(rs: seq<LW.Response>): set<TileKey>
    decreases |rs|
  {
    if rs == [] then {}
    else
      var r := rs[|rs| - 1];
      NodeKeysOf(rs[..|rs| - 1]) + (if r.node.Some? then {r.node.value.tileKey} else {})
  }

  /** A batch adds to memory only tiles whose nodes it carries, keeps the root, and posts no load request. */
  lemma {:induction false} ProcessAllMemory(s: ManagerState, rs: seq<LW.Response>, now: int)
    requires Wf(s)
    ensures var f := ProcessAll(s, rs, now);
      f.Continues? ==>
        && Keys(f.s.mem) <= Keys(s.mem) + NodeKeysOf(rs)
        && (Root() in Keys(s.mem) ==> Root() in Keys(f.s.mem))
        && f.s.loadRequests == s.loadRequests && f.s.currentLoadThread == s.currentLoadThread
    decreases |rs|
  {
    if rs != [] {
      var n := |rs| - 1;
      ProcessAllMemory(s, rs[..n], now);
      var g := ProcessAll(s, rs[..n], now);
      if g.Continues? {
        assert ProcessAll(s, rs, now) == ProcessResponse(g.s, rs[n], now);
      }
    }
  }

  /** processAllUnloadDoneQueue: every answered tile stops being deleted, whatever the answer. */
  function UnloadDone(s: ManagerState, rs: seq<DD.Response>): (t: ManagerState)
    ensures t == s.(evictions := t.evictions)
    decreases |rs|
  {
    if rs == [] then s
    else
      var t := UnloadDone(s, rs[..|rs| - 1]);
      t.(evictions := t.evictions - {rs[|rs| - 1].tileKey})
  }

  /** One more deletion answer. */
  lemma {:induction false} UnloadDoneStep(s: ManagerState, rs: seq<DD.Response>, i: nat, j: nat)
    requires i < |rs| && j == i + 1
    ensures UnloadDone(s, rs[..j]) == UnloadDone(s, rs[..i]).(evictions := UnloadDone(s, rs[..i]).evictions - {rs[i].tileKey})
  {
    assert rs[..j][..i] == rs[..i];
  }

  /** The deletions still pending are those not answered. */
  lemma {:induction false} UnloadDoneRemoves(s: ManagerState, rs: seq<DD.Response>)
    ensures UnloadDone(s, rs).evictions == s.evictions - set i | 0 <= i < |rs| :: rs[i].tileKey
    decreases |rs|
  {
    if rs != [] {
      var n := |rs| - 1;
      UnloadDoneRemoves(s, rs[..n]);
      assert forall i :: 0 <= i < n ==> rs[..n][i] == rs[i];
      assert (set i | 0 <= i < |rs| :: rs[i].tileKey) == (set i | 0 <= i < n :: rs[..n][i].tileKey) + {rs[n].tileKey};
    }
  }

  // ---------------------------------------------------------------------
  // The offline cool-down
  // ---------------------------------------------------------------------

  /** duration_cast to whole seconds: division truncated toward zero. */
  function SecondsOf(ms: int): (sec: int)
    ensures ms >= 0 ==> 0 <= 1000 * sec <= ms < 1000 * (sec + 1)
    ensures ms < 0 ==> 1000 * (sec - 1) < ms <= 1000 * sec <= 0
  {
    if ms >= 0 then ms / 1000 else -((-ms) / 1000)
  }

  function Abs(n: int): nat { if n < 0 then -n else n }

  /** The start of render: the offline wait ends once the last error is more than five whole seconds away. */
  function Cooldown(s: ManagerState, now: int): ManagerState
  {
    if s.offlineWait && Abs(SecondsOf(now - s.lastNetworkError)) > 5 then s.(offlineWait := false) else s
  }

  /** The wait survives exactly while the clock is less than six seconds from the error, in either direction. */
  lemma {:induction false} CooldownIff(s: ManagerState, now: int)
    ensures Cooldown(s, now).offlineWait <==> s.offlineWait && -6000 < now - s.lastNetworkError < 6000
    ensures Cooldown(s, now) == s.(offlineWait := Cooldown(s, now).offlineWait)
  {
  }

  // ---------------------------------------------------------------------
  // The quadtree order on tiles
  // ---------------------------------------------------------------------

  /** The tile one level up that covers k. */
  function Parent(k: TileKey): TileKey
    requires k.z >= 1
  {
    TileKey(k.x / 2, k.y / 2, k.z - 1)
  }

  /** The tile at level l that covers e. */
  function AncestorAt(e: TileKey, l: nat): (a: TileKey)
    requires l <= e.z
    ensures a.z == l
    decreases e.z - l
  {
    if e.z == l then e else AncestorAt(Parent(e), l)
  }

  /** a is e or covers it. */
  predicate DescOrSelf(a: TileKey, e: TileKey)
  {
    a.z <= e.z && AncestorAt(e, a.z) == a
  }

  /** Going up to level l1 and then to l2 is going up to l2. */
  lemma {:induction false} AncestorCompose(e: TileKey, l1: nat, l2: nat)
    requires l2 <= l1 <= e.z
    ensures AncestorAt(AncestorAt(e, l1), l2) == AncestorAt(e, l2)
    decreases e.z - l1
  {
    if e.z != l1 {
      AncestorCompose(Parent(e), l1, l2);
    }
  }

  /** Covering is transitive. */
  lemma {:induction false} DescTrans(a: TileKey, b: TileKey, c: TileKey)
    requires DescOrSelf(a, b) && DescOrSelf(b, c)
    ensures DescOrSelf(a, c)
  {
    AncestorCompose(c, b.z, a.z);
  }

  /** Each of the four children is one level down and covered by its parent. */
  lemma {:induction false} ChildCovered(k: TileKey, c: TileKey)
    requires InRange(k) && k.z + 1 <= 31 && c in Children(k)
    ensures InRange(c) && c.z == k.z + 1 && DescOrSelf(k, c) && Parent(c) == k
  {
    ChildrenExact(k);
  }

  /** Tiles under two different tiles of the same level are unrelated. */
  lemma {:induction false} ApartUnder(c1: TileKey, c2: TileKey, x: TileKey, y: TileKey)
    requires c1.z == c2.z && c1 != c2 && DescOrSelf(c1, x) && DescOrSelf(c2, y)
    ensures !DescOrSelf(x, y)
  {
    if DescOrSelf(x, y) {
      DescTrans(c1, x, y);
    }
  }

  /** No tile of the list covers another one of it (so none appears twice either). */
  predicate Antichain(ts: seq<TileKey>)
  {
    forall i, j :: 0 <= i < |ts| && 0 <= j < |ts| && i != j ==> !DescOrSelf(ts[i], ts[j])
  }

  /** Every tile of xs is unrelated to every tile of ys, both ways round. */
  predicate Unrelated(xs: seq<TileKey>, ys: seq<TileKey>)
  {
    forall x, y :: x in xs && y in ys ==> !DescOrSelf(x, y) && !DescOrSelf(y, x)
  }

  /** Lists under two different tiles of the same level are unrelated. */
  lemma {:induction false} ApartLists(xs: seq<TileKey>, ys: seq<TileKey>, c1: TileKey, c2: TileKey)
    requires c1.z == c2.z && c1 != c2
    requires forall x :: x in xs ==> DescOrSelf(c1, x)
    requires forall y :: y in ys ==> DescOrSelf(c2, y)
    ensures Unrelated(xs, ys)
  {
    forall x, y | x in xs && y in ys ensures !DescOrSelf(x, y) && !DescOrSelf(y, x) {
      ApartUnder(c1, c2, x, y);
      ApartUnder(c2, c1, y, x);
    }
  }

  /** Two unrelated antichains make one antichain. */
  lemma {:induction false} AntichainJoin(xs: seq<TileKey>, ys: seq<TileKey>)
    requires Antichain(xs) && Antichain(ys) && Unrelated(xs, ys)
    ensures Antichain(xs + ys)
  {
    var zs := xs + ys;
    forall i, j | 0 <= i < |zs| && 0 <= j < |zs| && i != j ensures !DescOrSelf(zs[i], zs[j]) {
      if i < |xs| && j >= |xs| {
        assert zs[i] in xs && zs[j] in ys;
      } else if i >= |xs| && j < |xs| {
        assert zs[i] in ys && zs[j] in xs;
      } else if i < |xs| {
        assert zs[i] == xs[i] && zs[j] == xs[j];
      } else {
        assert zs[i] == ys[i - |xs|] && zs[j] == ys[j - |xs|];
      }
    }
  }

  // ---------------------------------------------------------------------
  // collectRenderable
  // ---------------------------------------------------------------------

  /** The state after a traversal and the tiles it queued for drawing, in queue order. */
  datatype Walk = Walk(s: ManagerState, tiles: seq<TileKey>)

  /** The state a traversal leaves: the caches hold the same entries in another order, requests may have been added. */
  predicate Keeps(s: ManagerState, t: ManagerState)
  {
    && Wf(t)
    && multiset(t.mem) == multiset(s.mem) && Keys(t.mem) == Keys(s.mem)
    && multiset(t.disk) == multiset(s.disk) && Keys(t.disk) == Keys(s.disk)
    && t.unloadable == s.unloadable && t.evictions == s.evictions && s.loading <= t.loading
  }

  lemma {:induction false} KeepsTrans(s: ManagerState, t: ManagerState, u: ManagerState)
    requires Keeps(s, t) && Keeps(t, u)
    ensures Keeps(s, u)
  {
  }

  /** cache.get(k): the entry for k moves to the front, if there is one. */
  function TouchDisk(s: ManagerState, k: TileKey): (t: ManagerState)
    requires Wf(s)
    ensures Keeps(s, t) && t.mem == s.mem && t.loading == s.loading
  {
    TouchFacts(s.disk, k);
    s.(disk := Touch(s.disk, k))
  }

  function TouchMem(s: ManagerState, k: TileKey): (t: ManagerState)
    requires Wf(s)
    ensures Keeps(s, t) && t.disk == s.disk && t.loading == s.loading
  {
    TouchFacts(s.mem, k);
    s.(mem := Touch(s.mem, k))
  }

  /** The children's zoom level, below the configured bound. */
  lemma {:induction false} ChildrenLevel(k: TileKey)
    requires k.z < 29
    ensures forall c :: c in Children(k) ==> c.z == k.z + 1
  {
  }

  /**
   * collectRenderable from tile k: move k to the front of the disk cache
   * and of the memory cache; an invisible tile ends there (levels 0 to 2
   * always count as visible; inView stands for the frustum and horizon
   * tests); shouldSplit reads the node from the memory cache again; a tile
   * that is not split, or whose four children are not all in memory, is
   * queued for drawing (in the second case its children are requested);
   * otherwise the four children are traversed, in the order top left, top
   * right, bottom left, bottom right.
   */
  function Traverse(s: ManagerState, k: TileKey, inView: TileKey -> bool, wantsSplit: TileKey -> bool, maxZoom: nat): (w: Walk)
    requires Wf(s) && k in Keys(s.mem) && maxZoom <= 29 && k.z <= maxZoom
    ensures Keeps(s, w.s)
    ensures InRange(k) ==> Drawable(Keys(s.mem), k, maxZoom, w.tiles)
    decreases maxZoom - k.z, 1
  {
    var s1 := TouchDisk(s, k);
    var s2 := TouchMem(s1, k);
    KeepsTrans(s, s1, s2);
    if !(k.z <= 2 || inView(k)) then Walk(s2, [])
    else
      var s3 := TouchMem(s2, k);
      KeepsTrans(s, s2, s3);
      DrawableOne(Keys(s.mem), k, maxZoom);
      if !(wantsSplit(k) && k.z < maxZoom) then Walk(s3, [k])
      else if !AllChildrenExistant(Keys(s3.mem), k) then
        RequestChildrenCovers(s3, k);
        Walk(RequestChildren(s3, k), [k])
      else
        TraverseChildren(s3, k, inView, wantsSplit, maxZoom)
  }

  /** The split case of collectRenderable: the four children of k, in order, each from the state the previous left. */
  function TraverseChildren(s: ManagerState, k: TileKey, inView: TileKey -> bool, wantsSplit: TileKey -> bool, maxZoom: nat): (w: Walk)
    requires Wf(s) && maxZoom <= 29 && k.z < maxZoom && AllChildrenExistant(Keys(s.mem), k)
    ensures Keeps(s, w.s)
    ensures InRange(k) ==> Drawable(Keys(s.mem), k, maxZoom, w.tiles)
    decreases maxZoom - k.z, 0
  {
    ChildrenLevel(k);
    var a := Traverse(s, TopLeftChild(k), inView, wantsSplit, maxZoom);
    var b := Traverse(a.s, TopRightChild(k), inView, wantsSplit, maxZoom);
    KeepsTrans(s, a.s, b.s);
    var c := Traverse(b.s, BottomLeftChild(k), inView, wantsSplit, maxZoom);
    KeepsTrans(s, b.s, c.s);
    var d := Traverse(c.s, BottomRightChild(k), inView, wantsSplit, maxZoom);
    KeepsTrans(s, c.s, d.s);
    SplitDrawable(Keys(s.mem), k, maxZoom, a.tiles, b.tiles, c.tiles, d.tiles);
    Walk(d.s, a.tiles + b.tiles + c.tiles + d.tiles)
  }

  /** What a traversal from k queues: tiles under k that are in memory and within range, none covering another. */
  predicate Drawable(resident: set<TileKey>, k: TileKey, maxZoom: nat, ts: seq<TileKey>)
  {
    && (forall e :: e in ts ==> e in resident && DescOrSelf(k, e) && InRange(e) && e.z <= maxZoom)
    && Antichain(ts)
  }

  /** A tile queued on its own. */
  lemma {:induction false} DrawableOne(resident: set<TileKey>, k: TileKey, maxZoom: nat)
    requires k in resident && k.z <= maxZoom
    ensures InRange(k) ==> Drawable(resident, k, maxZoom, [k])
  {
    assert AncestorAt(k, k.z) == k;
  }

  /** The four children's lists, each drawable under its child, join into one drawable list under the parent. */
  lemma {:induction false} DrawableJoin(s: set<TileKey>, k: TileKey, maxZoom: nat, a: seq<TileKey>, b: seq<TileKey>, c: seq<TileKey>, d: seq<TileKey>)
    requires InRange(k) && k.z < 29
    requires Drawable(s, TopLeftChild(k), maxZoom, a) && Drawable(s, TopRightChild(k), maxZoom, b)
    requires Drawable(s, BottomLeftChild(k), maxZoom, c) && Drawable(s, BottomRightChild(k), maxZoom, d)
    ensures Drawable(s, k, maxZoom, a + b + c + d)
  {
    var tl, tr, bl, br := TopLeftChild(k), TopRightChild(k), BottomLeftChild(k), BottomRightChild(k);
    ChildrenLevel(k);
    ChildrenDistinct(k);
    ApartLists(a, b, tl, tr);
    AntichainJoin(a, b);
    ApartLists(a, c, tl, bl);
    ApartLists(b, c, tr, bl);
    AntichainJoin(a + b, c);
    ApartLists(a, d, tl, br);
    ApartLists(b, d, tr, br);
    ApartLists(c, d, bl, br);
    AntichainJoin(a + b + c, d);
    forall e | e in a + b + c + d ensures DescOrSelf(k, e) {
      if e in a { ChildCovered(k, tl); DescTrans(k, tl, e); }
      else if e in b { ChildCovered(k, tr); DescTrans(k, tr, e); }
      else if e in c { ChildCovered(k, bl); DescTrans(k, bl, e); }
      else { ChildCovered(k, br); DescTrans(k, br, e); }
    }
  }

  /**
   * collectRenderable queues only tiles that are in memory and lie under
   * the tile it starts from, and never a tile together with one of its
   * descendants: the split case, from what the four traversals below it
   * queue.
   */
  lemma {:induction false} SplitDrawable(resident: set<TileKey>, k: TileKey, maxZoom: nat, a: seq<TileKey>, b: seq<TileKey>, c: seq<TileKey>, d: seq<TileKey>)
    requires k.z < 29
    requires InRange(TopLeftChild(k)) ==> Drawable(resident, TopLeftChild(k), maxZoom, a)
    requires InRange(TopRightChild(k)) ==> Drawable(resident, TopRightChild(k), maxZoom, b)
    requires InRange(BottomLeftChild(k)) ==> Drawable(resident, BottomLeftChild(k), maxZoom, c)
    requires InRange(BottomRightChild(k)) ==> Drawable(resident, BottomRightChild(k), maxZoom, d)
    ensures InRange(k) ==> Drawable(resident, k, maxZoom, a + b + c + d)
  {
    if InRange(k) {
      ChildrenExact(k);
      DrawableJoin(resident, k, maxZoom, a, b, c, d);
    }
  }

  // ---------------------------------------------------------------------
  // render
  // ---------------------------------------------------------------------

  /** The render loop: get each queued tile from the memory cache, in queue order. */
  function DrawAll(s: ManagerState, ts: seq<TileKey>): (t: ManagerState)
    requires Wf(s)
    ensures Keeps(s, t) && t.disk == s.disk && t.loading == s.loading
    decreases |ts|
  {
    if ts == [] then s else TouchMem(DrawAll(s, ts[..|ts| - 1]), ts[|ts| - 1])
  }

  /** One more tile drawn. */
  lemma {:induction false} DrawAllStep(s: ManagerState, ts: seq<TileKey>, i: nat, j: nat)
    requires Wf(s) && i < |ts| && j == i + 1
    ensures DrawAll(s, ts[..j]) == TouchMem(DrawAll(s, ts[..i]), ts[i])
  {
    assert ts[..j][..i] == ts[..i];
  }

  /**
   * The tile whose node the collision test reads: the last collected tile
   * the camera stands over, or the root when there is none. The test of
   * whether the camera lies over a tile works on the camera's floating
   * point position and is the parameter underCamera.
   */
  function CameraTile(tiles: seq<TileKey>, underCamera: TileKey -> bool): (k: TileKey)
    ensures k == Root() || (k in tiles && underCamera(k))
    decreases |tiles|
  {
    if tiles == [] then Root()
    else if underCamera(tiles[|tiles| - 1]) then tiles[|tiles| - 1]
    else CameraTile(tiles[..|tiles| - 1], underCamera)
  }

  /**
   * The camera tile is the latest collected tile under the camera: every
   * later one is not, and with none under the camera it is the root.
   */
  lemma {:induction false} CameraTileIsLast(tiles: seq<TileKey>, underCamera: TileKey -> bool)
    ensures (forall i :: 0 <= i < |tiles| ==> !underCamera(tiles[i])) ==> CameraTile(tiles, underCamera) == Root()
    ensures (exists i :: 0 <= i < |tiles| && underCamera(tiles[i])) ==>
      exists j :: 0 <= j < |tiles| && tiles[j] == CameraTile(tiles, underCamera) && underCamera(tiles[j])
                  && forall l :: j < l < |tiles| ==> !underCamera(tiles[l])
    decreases |tiles|
  {
    if tiles == [] {
    } else if underCamera(tiles[|tiles| - 1]) {
      var j := |tiles| - 1;
      assert tiles[j] == CameraTile(tiles, underCamera);
    } else {
      var front := tiles[..|tiles| - 1];
      assert forall i :: 0 <= i < |front| ==> front[i] == tiles[i];
      CameraTileIsLast(front, underCamera);
      if exists i :: 0 <= i < |tiles| && underCamera(tiles[i]) {
        var i :| 0 <= i < |tiles| && underCamera(tiles[i]);
        assert underCamera(front[i]);
        var j :| 0 <= j < |front| && front[j] == CameraTile(front, underCamera) && underCamera(front[j])
                 && forall l :: j < l < |front| ==> !underCamera(front[l]);
        assert tiles[j] == CameraTile(tiles, underCamera);
        assert forall l :: j < l < |tiles| ==> !underCamera(tiles[l]) by {
          forall l | j < l < |tiles| ensures !underCamera(tiles[l]) {
            if l < |front| { assert front[l] == tiles[l]; }
          }
        }
      }
    }
  }

  /** The outcome of one frame: the new state and the tiles drawn, or a frame that never ends or crashes. */
  datatype Frame = Frame(s: ManagerState, drawn: seq<TileKey>) | Stuck | Crashed

  /**
   * render without the GPU work: end the offline wait when due, handle
   * the load responses and then the deletion answers; with no root in
   * memory, draw nothing; otherwise collect the drawable tiles from the
   * root, get the camera tile from the memory cache for the collision
   * test, and then get each drawn tile from it, in order.
   */
  function Render(s: ManagerState, now: int, done: seq<LW.Response>, unloadDone: seq<DD.Response>,
                  inView: TileKey -> bool, wantsSplit: TileKey -> bool, underCamera: TileKey -> bool, maxZoom: nat): (f: Frame)
    requires Wf(s) && maxZoom <= 29
    ensures f.Frame? ==> Wf(f.s)
  {
    var s1 := Cooldown(s, now);
    match ProcessAll(s1, done, now)
    case Hangs => Stuck
    case Crashes => Crashed
    case Continues(s2) =>
      var s3 := UnloadDone(s2, unloadDone);
      if Root() !in Keys(s3.mem) then Frame(s3, [])
      else
        var w := Traverse(s3, Root(), inView, wantsSplit, maxZoom);
        Frame(DrawAll(TouchMem(w.s, CameraTile(w.tiles, underCamera)), w.tiles), w.tiles)
  }

  /**
   * A frame keeps the root in memory once it is there, and draws only
   * tiles that are in memory afterwards, lie within range and up to the
   * maximum zoom, and do not overlap; the camera tile the collision test
   * gets is in memory too.
   */
  lemma {:induction false} RenderFacts(s: ManagerState, now: int, done: seq<LW.Response>, unloadDone: seq<DD.Response>,
                    inView: TileKey -> bool, wantsSplit: TileKey -> bool, underCamera: TileKey -> bool, maxZoom: nat)
    requires Wf(s) && maxZoom <= 29
    ensures var f := Render(s, now, done, unloadDone, inView, wantsSplit, underCamera, maxZoom);
      f.Frame? ==>
        && (Root() in Keys(s.mem) ==> Root() in Keys(f.s.mem))
        && Drawable(Keys(f.s.mem), Root(), maxZoom, f.drawn)
        && (Root() in Keys(f.s.mem) ==> CameraTile(f.drawn, underCamera) in Keys(f.s.mem))
  {
    var s1 := Cooldown(s, now);
    ProcessAllMemory(s1, done, now);
    var g := ProcessAll(s1, done, now);
    if g.Continues? {
      var s3 := UnloadDone(g.s, unloadDone);
      if Root() in Keys(s3.mem) {
        Pow2At31();
        assert InRange(Root());
      }
    }
  }

  /**
   * While the root is not in memory and no response brings it, a frame
   * draws nothing and requests nothing: the root is requested once, at
   * setup, so a timeout or an error for that one request leaves every
   * later frame empty.
   */
  lemma {:induction false} RenderWaitsForRoot(s: ManagerState, now: int, done: seq<LW.Response>, unloadDone: seq<DD.Response>,
                           inView: TileKey -> bool, wantsSplit: TileKey -> bool, underCamera: TileKey -> bool, maxZoom: nat)
    requires Wf(s) && maxZoom <= 29
    requires Root() !in Keys(s.mem) && Root() !in NodeKeysOf(done)
    ensures var f := Render(s, now, done, unloadDone, inView, wantsSplit, underCamera, maxZoom);
      f.Frame? ==> f.drawn == [] && Root() !in Keys(f.s.mem) && f.s.loadRequests == s.loadRequests
  {
    ProcessAllMemory(Cooldown(s, now), done, now);
  }

  // ---------------------------------------------------------------------
  // initDiskCache
  // ---------------------------------------------------------------------

  /**
   * The overlay pass: for each overlay file listed, keep its tile when the
   * tile's heightmap exists, and remove the overlay otherwise. The result
   * is the kept tiles and the files left.
   */
  function OverlayPass(path: string, files: set<string>, overlays: seq<TileKey>): (r: (set<TileKey>, set<string>))
    ensures r.1 <= files
    decreases |overlays|
  {
    if overlays == [] then ({}, files)
    else
      var (kept, left) := OverlayPass(path, files, overlays[..|overlays| - 1]);
      var k := overlays[|overlays| - 1];
      if HeightmapFile(path, k) in left then (kept + {k}, left) else (kept, left - {OverlayFile(path, k)})
  }

  /** The heightmap pass: remove each listed heightmap whose tile was not kept. */
  function HeightmapPass(path: string, files: set<string>, heights: seq<TileKey>, kept: set<TileKey>): (r: set<string>)
    ensures r <= files
    decreases |heights|
  {
    if heights == [] then files
    else
      var left := HeightmapPass(path, files, heights[..|heights| - 1], kept);
      var k := heights[|heights| - 1];
      if k !in kept then left - {HeightmapFile(path, k)} else left
  }

  /** One more overlay listed. */
  lemma {:induction false} OverlayPassStep(path: string, files: set<string>, overlays: seq<TileKey>, i: nat, j: nat)
    requires i < |overlays| && j == i + 1
    ensures var p := OverlayPass(path, files, overlays[..i]);
      var k := overlays[i];
      OverlayPass(path, files, overlays[..j]) ==
        if HeightmapFile(path, k) in p.1 then (p.0 + {k}, p.1) else (p.0, p.1 - {OverlayFile(path, k)})
  {
    assert overlays[..j][..i] == overlays[..i];
  }

  /** One more heightmap listed. */
  lemma {:induction false} HeightmapPassStep(path: string, files: set<string>, heights: seq<TileKey>, kept: set<TileKey>, i: nat, j: nat)
    requires i < |heights| && j == i + 1
    ensures var left := HeightmapPass(path, files, heights[..i], kept);
      HeightmapPass(path, files, heights[..j], kept) ==
        if heights[i] !in kept then left - {HeightmapFile(path, heights[i])} else left
  {
    assert heights[..j][..i] == heights[..i];
  }

  /** The two files of each of the given tiles. */
  function TileFiles(path: string, ks: set<TileKey>): set<string>
  {
    (set k | k in ks :: HeightmapFile(path, k)) + (set k | k in ks :: OverlayFile(path, k))
  }

  /** A tile's file is among the files of a set of tiles exactly when the tile is in the set. */
  lemma {:induction false} TileFilesOf(path: string, ks: set<TileKey>, k: TileKey)
    ensures HeightmapFile(path, k) in TileFiles(path, ks) <==> k in ks
    ensures OverlayFile(path, k) in TileFiles(path, ks) <==> k in ks
  {
    if HeightmapFile(path, k) in TileFiles(path, ks) {
      var j :| j in ks && (HeightmapFile(path, j) == HeightmapFile(path, k) || OverlayFile(path, j) == HeightmapFile(path, k));
      CacheFilesDistinct(path, j, k);
      CacheFilesDistinct(path, k, j);
    }
    if OverlayFile(path, k) in TileFiles(path, ks) {
      var j :| j in ks && (HeightmapFile(path, j) == OverlayFile(path, k) || OverlayFile(path, j) == OverlayFile(path, k));
      CacheFilesDistinct(path, j, k);
    }
  }

  /**
   * The overlay pass keeps exactly the listed tiles whose heightmap exists,
   * and removes exactly the overlays of the other listed tiles.
   */
  lemma {:induction false} OverlayPassFacts(path: string, files: set<string>, overlays: seq<TileKey>)
    ensures var (kept, left) := OverlayPass(path, files, overlays);
      && (forall k :: k in kept <==> k in overlays && HeightmapFile(path, k) in files)
      && left == files - set k | k in overlays && HeightmapFile(path, k) !in files :: OverlayFile(path, k)
    decreases |overlays|
  {
    if overlays != [] {
      var n := |overlays| - 1;
      var init := overlays[..n];
      var k := overlays[n];
      OverlayPassFacts(path, files, init);
      var (kept, left) := OverlayPass(path, files, init);
      assert overlays == init + [k];
      var gone := set j | j in init && HeightmapFile(path, j) !in files :: OverlayFile(path, j);
      CacheFilesDistinct(path, k, k);
      assert HeightmapFile(path, k) in left <==> HeightmapFile(path, k) in files by {
        if HeightmapFile(path, k) in gone {
          var j :| j in init && HeightmapFile(path, j) !in files && OverlayFile(path, j) == HeightmapFile(path, k);
          CacheFilesDistinct(path, k, j);
        }
      }
      if HeightmapFile(path, k) !in files {
        assert (set j | j in overlays && HeightmapFile(path, j) !in files :: OverlayFile(path, j)) == gone + {OverlayFile(path, k)};
      } else {
        assert (set j | j in overlays && HeightmapFile(path, j) !in files :: OverlayFile(path, j)) == gone;
      }
    }
  }

  /** The heightmap pass removes exactly the heightmaps of the listed tiles that were not kept. */
  lemma {:induction false} HeightmapPassFacts(path: string, files: set<string>, heights: seq<TileKey>, kept: set<TileKey>)
    ensures HeightmapPass(path, files, heights, kept) == files - set k | k in heights && k !in kept :: HeightmapFile(path, k)
    decreases |heights|
  {
    if heights != [] {
      var n := |heights| - 1;
      var init := heights[..n];
      var k := heights[n];
      HeightmapPassFacts(path, files, init, kept);
      assert heights == init + [k];
      var gone := set j | j in init && j !in kept :: HeightmapFile(path, j);
      if k !in kept {
        assert (set j | j in heights && j !in kept :: HeightmapFile(path, j)) == gone + {HeightmapFile(path, k)};
      } else {
        assert (set j | j in heights && j !in kept :: HeightmapFile(path, j)) == gone;
      }
    }
  }

  /** The directory listings: exactly the tiles whose overlay, and whose heightmap, is on disk. */
  ghost predicate Listed(path: string, files: set<string>, overlays: seq<TileKey>, heights: seq<TileKey>)
  {
    && (forall k :: k in overlays <==> OverlayFile(path, k) in files)
    && (forall k :: k in heights <==> HeightmapFile(path, k) in files)
  }

  /**
   * After the two passes, with exact listings, a tile's heightmap is left
   * exactly when its overlay is, exactly when the tile was kept; the files
   * removed are the cache files of tiles that were not kept.
   */
  lemma {:induction false} PassesPairFiles(path: string, files: set<string>, overlays: seq<TileKey>, heights: seq<TileKey>)
    requires Listed(path, files, overlays, heights)
    ensures var (kept, left) := OverlayPass(path, files, overlays);
      var after := HeightmapPass(path, left, heights, kept);
      && (forall k :: k in kept <==> HeightmapFile(path, k) in files && OverlayFile(path, k) in files)
      && (forall k :: (HeightmapFile(path, k) in after <==> k in kept) && (OverlayFile(path, k) in after <==> k in kept))
      && after <= files
      && (forall f :: f in files && f !in after ==> exists k :: k !in kept && (f == HeightmapFile(path, k) || f == OverlayFile(path, k)))
  {
    OverlayPassFacts(path, files, overlays);
    var (kept, left) := OverlayPass(path, files, overlays);
    HeightmapPassFacts(path, left, heights, kept);
    var after := HeightmapPass(path, left, heights, kept);
    var goneO := set k | k in overlays && HeightmapFile(path, k) !in files :: OverlayFile(path, k);
    var goneH := set k | k in heights && k !in kept :: HeightmapFile(path, k);
    forall k ensures (HeightmapFile(path, k) in after <==> k in kept) && (OverlayFile(path, k) in after <==> k in kept) {
      CacheFilesDistinct(path, k, k);
      if HeightmapFile(path, k) in goneO {
        var j :| j in overlays && HeightmapFile(path, j) !in files && OverlayFile(path, j) == HeightmapFile(path, k);
        CacheFilesDistinct(path, k, j);
      }
      if HeightmapFile(path, k) in goneH {
        var j :| j in heights && j !in kept && HeightmapFile(path, j) == HeightmapFile(path, k);
        CacheFilesDistinct(path, k, j);
      }
      if OverlayFile(path, k) in goneO {
        var j :| j in overlays && HeightmapFile(path, j) !in files && OverlayFile(path, j) == OverlayFile(path, k);
        CacheFilesDistinct(path, k, j);
      }
      if OverlayFile(path, k) in goneH {
        var j :| j in heights && j !in kept && HeightmapFile(path, j) == OverlayFile(path, k);
        CacheFilesDistinct(path, j, k);
      }
    }
    forall f | f in files && f !in after ensures exists k :: k !in kept && (f == HeightmapFile(path, k) || f == OverlayFile(path, k)) {
      if f in goneO {
        var j :| j in overlays && HeightmapFile(path, j) !in files && OverlayFile(path, j) == f;
      } else {
        var j :| j in heights && j !in kept && HeightmapFile(path, j) == f;
      }
    }
  }

  /** The tiles of a listing. */
  function Elems(order: seq<TileKey>): set<TileKey>
  {
    set k | k in order
  }

  /** No tile listed twice. */
  predicate NoRepeats(order: seq<TileKey>)
  {
    forall i, j :: 0 <= i < j < |order| ==> order[i] != order[j]
  }

  /** The tiles taken so far, listed once each, and the ones left make up the kept tiles, and stay so when one more is taken. */
  predicate Taken(order: seq<TileKey>, rest: set<TileKey>, kept: set<TileKey>)
  {
    NoRepeats(order) && Elems(order) + rest == kept && Elems(order) !! rest
  }

  /** Taking one more of the tiles left. */
  lemma {:induction false} TakeOne(order: seq<TileKey>, rest: set<TileKey>, kept: set<TileKey>, k: TileKey)
    requires Taken(order, rest, kept) && k in rest
    ensures Taken(order + [k], rest - {k}, kept) && |rest - {k}| < |rest|
  {
    assert Elems(order + [k]) == Elems(order) + {k};
  }

  /** The check the start-up loop applies: evictable against the memory cache alone (no tile is loading yet). */
  function FillCheck(s: ManagerState): TileKey -> bool
  {
    k => CheckEviction(Keys(s.mem), k)
  }

  /**
   * One kept tile put onto the disk cache; when an entry is let go, its
   * heightmap and overlay are removed. None when the loop never ends.
   */
  function FillStep(s: ManagerState, path: string, files: set<string>, k: TileKey): (r: Option<(ManagerState, set<string>)>)
    requires Wf(s)
    ensures r.Some? ==> Wf(r.value.0) && r.value.0 == s.(disk := r.value.0.disk) && r.value.1 <= files
  {
    match CachePut(s.disk, s.diskCapacity, k, (), FillCheck(s))
    case Spun => None
    case Inserted(disk, None) => Some((s.(disk := disk), files))
    case Inserted(disk, Some(v)) => Some((s.(disk := disk), files - {HeightmapFile(path, v.0), OverlayFile(path, v.0)}))
  }

  /** The insertion loop over the kept tiles, in the order the map hands them out. */
  function DiskFill(s: ManagerState, path: string, files: set<string>, order: seq<TileKey>): (r: Option<(ManagerState, set<string>)>)
    requires Wf(s)
    ensures r.Some? ==> Wf(r.value.0) && r.value.0 == s.(disk := r.value.0.disk) && r.value.1 <= files
    decreases |order|
  {
    if order == [] then Some((s, files))
    else
      match DiskFill(s, path, files, order[..|order| - 1])
      case None => None
      case Some((t, f)) => FillStep(t, path, f, order[|order| - 1])
  }

  /** One more kept tile handed out by the map. */
  lemma {:induction false} DiskFillStep(s: ManagerState, path: string, files: set<string>, order: seq<TileKey>, k: TileKey)
    requires Wf(s)
    ensures var r := DiskFill(s, path, files, order);
      && (r.None? ==> DiskFill(s, path, files, order + [k]).None?)
      && (r.Some? ==> DiskFill(s, path, files, order + [k]) == FillStep(r.value.0, path, r.value.1, k))
  {
    assert (order + [k])[..|order|] == order;
  }

  /**
   * initDiskCache on the files of the cache directory: the overlay pass,
   * the heightmap pass, then the insertion loop over the kept tiles in the
   * given order, with the files and the state it ends with.
   */
  function InitDiskCache(s: ManagerState, path: string, files: set<string>, overlays: seq<TileKey>, heights: seq<TileKey>, order: seq<TileKey>): (r: Option<(ManagerState, set<string>)>)
    requires Wf(s)
    ensures r.Some? ==> Wf(r.value.0) && r.value.0 == s.(disk := r.value.0.disk) && r.value.1 <= files
  {
    var (kept, left) := OverlayPass(path, files, overlays);
    DiskFill(s, path, HeightmapPass(path, left, heights, kept), order)
  }

  /** Adding a tile to a set adds exactly its two files. */
  lemma {:induction false} TileFilesAdd(path: string, ks: set<TileKey>, v: TileKey)
    ensures TileFiles(path, ks + {v}) == TileFiles(path, ks) + {HeightmapFile(path, v), OverlayFile(path, v)}
  {
  }

  /** A step of the loop that lets nothing go: the tile is put in front, the files stay. */
  predicate FillKept(t: ManagerState, f: set<string>, k: TileKey, u: ManagerState, g: set<string>)
  {
    && t.diskCapacity >= 1
    && Keys(u.disk) == Keys(t.disk) + {k} && g == f
    && u.disk == PutItems(t.disk, t.diskCapacity, k, ())
  }

  /** A step of the loop that lets v go: v passes the check, the cache stays full, v's two files are removed. */
  predicate FillEvicted(t: ManagerState, path: string, f: set<string>, k: TileKey, v: TileKey, u: ManagerState, g: set<string>)
  {
    && v in Keys(t.disk) + {k} && FillCheck(t)(v)
    && k !in Keys(t.disk) && |t.disk| >= t.diskCapacity && |u.disk| == t.diskCapacity
    && Keys(u.disk) == Keys(t.disk) + {k} - {v}
    && g == f - {HeightmapFile(path, v), OverlayFile(path, v)}
  }

  /** One step of the loop, either way. */
  ghost predicate FillMoved(t: ManagerState, path: string, f: set<string>, k: TileKey, u: ManagerState, g: set<string>)
  {
    && u.diskCapacity == t.diskCapacity
    && (FillKept(t, f, k, u, g) || exists v :: FillEvicted(t, path, f, k, v, u, g))
  }

  /**
   * One step of the loop: the tile goes on, and either nothing leaves, or
   * one entry (the new tile or one already there) that is not the root and
   * has no child in memory leaves, with its two files.
   */
  lemma {:induction false} FillStepEffect(s: ManagerState, path: string, files: set<string>, k: TileKey)
    requires Wf(s)
    ensures var r := FillStep(s, path, files, k);
      && (r.None? <==> k !in Keys(s.disk) && |s.disk| >= s.diskCapacity
                       && forall x :: x in Keys(s.disk) + {k} ==> !FillCheck(s)(x))
      && (r.Some? ==> FillMoved(s, path, files, k, r.value.0, r.value.1))
  {
    var c := CachePut(s.disk, s.diskCapacity, k, (), FillCheck(s));
    CachePutKeyFacts(s.disk, s.diskCapacity, k, (), FillCheck(s));
    if c.Inserted? && c.victim.Some? {
      var r := FillStep(s, path, files, k);
      assert FillEvicted(s, path, files, k, c.victim.value.0, r.value.0, r.value.1);
    }
  }

  /** With the memory cache empty, as at start-up, the loop always ends: of two different tiles at most one is the root. */
  lemma {:induction false} DiskFillNeverSpins(s: ManagerState, path: string, files: set<string>, order: seq<TileKey>)
    requires Wf(s) && Keys(s.mem) == {}
    ensures DiskFill(s, path, files, order).Some?
    decreases |order|
  {
    if order != [] {
      var init := order[..|order| - 1];
      var k := order[|order| - 1];
      DiskFillNeverSpins(s, path, files, init);
      var (t, f) := DiskFill(s, path, files, init).value;
      FillStepEffect(t, path, f, k);
      if k !in Keys(t.disk) && |t.disk| >= t.diskCapacity {
        var x := t.disk[0].0;
        assert x in Keys(t.disk);
        var y := if x == Root() then k else x;
        assert FillCheck(t)(y);
      }
    }
  }

  /** The smaller of two counts. */
  function Min(a: nat, b: nat): nat { if a <= b then a else b }

  /**
   * What the loop has done after putting the distinct tiles done (count of
   * them) onto a disk cache that started empty: it holds as many of them as
   * fit, all of them while they fit, and the files removed are the two
   * files of each tile that went on and was let go again.
   */
  predicate FillDone(path: string, files: set<string>, done: set<TileKey>, count: nat, t: ManagerState, f: set<string>)
  {
    && Keys(t.disk) <= done
    && |t.disk| == Min(count, t.diskCapacity)
    && (count <= t.diskCapacity ==> Keys(t.disk) == done)
    && f == files - TileFiles(path, done - Keys(t.disk))
  }

  /** The tiles put but no longer held, after a put that let nothing go. */
  lemma {:induction false} PendingAfterPut(done: set<TileKey>, held: set<TileKey>, k: TileKey)
    requires held <= done && k !in done
    ensures (done + {k}) - (held + {k}) == done - held
  {
  }

  /** The tiles put but no longer held, after a put that let v go. */
  lemma {:induction false} PendingAfterEviction(done: set<TileKey>, held: set<TileKey>, k: TileKey, v: TileKey)
    requires held <= done && k !in done && v in held + {k}
    ensures (done + {k}) - (held + {k} - {v}) == (done - held) + {v}
  {
  }

  /** One step of the loop with a tile not yet put keeps that account. */
  lemma {:induction false} FillStepDone(path: string, files: set<string>, done: set<TileKey>, count: nat, t: ManagerState, f: set<string>, k: TileKey, u: ManagerState, g: set<string>)
    requires Wf(t) && FillDone(path, files, done, count, t, f) && k !in done
    requires FillMoved(t, path, f, k, u, g)
    ensures FillDone(path, files, done + {k}, count + 1, u, g)
  {
    assert k !in Keys(t.disk);
    PutFacts(t.disk, t.diskCapacity, k, ());
    var before := Keys(t.disk);
    if FillKept(t, f, k, u, g) {
      PendingAfterPut(done, before, k);
    } else {
      var v :| FillEvicted(t, path, f, k, v, u, g);
      PendingAfterEviction(done, before, k, v);
      TileFilesAdd(path, done - before, v);
    }
  }

  lemma {:induction false} ElemsSnoc(init: seq<TileKey>, k: TileKey)
    ensures Elems(init + [k]) == Elems(init) + {k} && |init + [k]| == |init| + 1
  {
  }

  /** The account extends over one more tile not yet put. */
  lemma {:induction false} FillExtends(path: string, files: set<string>, init: seq<TileKey>, k: TileKey, t: ManagerState, f: set<string>)
    requires Wf(t) && FillDone(path, files, Elems(init), |init|, t, f) && k !in Elems(init)
    ensures var r := FillStep(t, path, f, k);
      r.Some? ==> FillDone(path, files, Elems(init + [k]), |init + [k]|, r.value.0, r.value.1)
  {
    var r := FillStep(t, path, f, k);
    FillStepEffect(t, path, f, k);
    if r.Some? {
      FillStepDone(path, files, Elems(init), |init|, t, f, k, r.value.0, r.value.1);
      ElemsSnoc(init, k);
    }
  }

  /** The loop from an empty disk cache over distinct tiles, in the terms of FillDone. */
  lemma {:induction false} DiskFillFiles(s: ManagerState, path: string, files: set<string>, order: seq<TileKey>)
    requires Wf(s) && s.disk == [] && NoRepeats(order)
    ensures var r := DiskFill(s, path, files, order);
      r.Some? ==> FillDone(path, files, Elems(order), |order|, r.value.0, r.value.1)
    decreases |order|
  {
    if order == [] {
      assert Elems(order) == {} && Keys(s.disk) == {};
      assert TileFiles(path, Elems(order) - Keys(s.disk)) == {};
    } else {
      var init := order[..|order| - 1];
      var k := order[|order| - 1];
      assert NoRepeats(init);
      DiskFillFiles(s, path, files, init);
      var prev := DiskFill(s, path, files, init);
      if prev.Some? {
        assert order == init + [k];
        assert k !in Elems(init);
        FillExtends(path, files, init, k, prev.value.0, prev.value.1);
      }
    }
  }

  /**
   * initDiskCache at start-up (both caches empty), with exact directory
   * listings and the kept tiles handed out once each: it never hangs; it
   * changes only the disk cache, which holds as many kept tiles as fit (all
   * of them when they fit); afterwards a tile's heightmap is on disk
   * exactly when its overlay is, exactly when the disk cache holds the
   * tile; and the only files removed are cache files.
   */
  lemma {:induction false} InitDiskCacheFacts(s: ManagerState, path: string, files: set<string>, overlays: seq<TileKey>, heights: seq<TileKey>, order: seq<TileKey>)
    requires Wf(s) && s.disk == [] && s.mem == []
    requires Listed(path, files, overlays, heights)
    requires NoRepeats(order) && Elems(order) == OverlayPass(path, files, overlays).0
    ensures var r := InitDiskCache(s, path, files, overlays, heights, order);
      && r.Some?
      && r.value.0 == s.(disk := r.value.0.disk)
      && |r.value.0.disk| == Min(|order|, s.diskCapacity)
      && (|order| <= s.diskCapacity ==> Keys(r.value.0.disk) == Elems(order))
      && (forall k :: k in Keys(r.value.0.disk) ==> HeightmapFile(path, k) in files && OverlayFile(path, k) in files)
      && (forall k :: (HeightmapFile(path, k) in r.value.1 <==> k in Keys(r.value.0.disk))
                   && (OverlayFile(path, k) in r.value.1 <==> k in Keys(r.value.0.disk)))
      && r.value.1 <= files
      && (forall f :: f in files && f !in r.value.1 ==> exists k :: f == HeightmapFile(path, k) || f == OverlayFile(path, k))
  {
    var (kept, left) := OverlayPass(path, files, overlays);
    var after := HeightmapPass(path, left, heights, kept);
    PassesPairFiles(path, files, overlays, heights);
    assert Keys(s.mem) == {};
    DiskFillNeverSpins(s, path, after, order);
    DiskFillFiles(s, path, after, order);
    var (t, g) := DiskFill(s, path, after, order).value;
    var gone := Elems(order) - Keys(t.disk);
    forall k ensures (HeightmapFile(path, k) in g <==> k in Keys(t.disk)) && (OverlayFile(path, k) in g <==> k in Keys(t.disk)) {
      TileFilesOf(path, gone, k);
    }
    forall f | f in files && f !in g ensures exists k :: f == HeightmapFile(path, k) || f == OverlayFile(path, k) {
      if f in after {
        assert f in TileFiles(path, gone);
        var k :| k in gone && (f == HeightmapFile(path, k) || f == OverlayFile(path, k));
      }
    }
  }
}
