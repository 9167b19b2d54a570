/**
 * TerrainManager as an object: the two LRU caches, the key sets that gate
 * requests, the queues to and from the worker threads, the round-robin
 * index, the counters and the offline wait. Snap() reads these fields as
 * a ManagerState, and every method is proved to take Snap() where the
 * matching function of ManagerSpec says; the properties themselves are
 * proved about those functions.
 */
module Manager {
  import opened Wrappers
  import opened TileKeys
  import opened Lru
  import opened Queues
  import opened Files
  import MS = ManagerSpec
  import LW = LoadWorker
  import DD = DiskDeallocation
  import Nodes

  /** The contents of a list of queues, queue by queue. */
  function QueueContents<T>(qs: seq<MessageQueue<T>>): (r: seq<seq<T>>)
    reads qs
    ensures |r| == |qs| && forall i :: 0 <= i < |qs| ==> r[i] == qs[i].queue
    decreases |qs|
  {
    if qs == [] then [] else QueueContents(qs[..|qs| - 1]) + [qs[|qs| - 1].queue]
  }

  /** hasChildren: one of the four children is in the memory cache. */
  function HasChildren(cache: LRUCache<TileKey, Nodes.TerrainNode>, k: TileKey): (b: bool)
    reads cache
    requires cache.Valid()
    ensures b == MS.HasChildren(Keys(cache.items), k)
  {
    cache.Contains(TopLeftChild(k)) || cache.Contains(TopRightChild(k))
      || cache.Contains(BottomLeftChild(k)) || cache.Contains(BottomRightChild(k))
  }

  /** checkEviction: no child in the memory cache and not the root. */
  function CheckEviction(cache: LRUCache<TileKey, Nodes.TerrainNode>, k: TileKey): (b: bool)
    reads cache
    requires cache.Valid()
    ensures b == MS.CheckEviction(Keys(cache.items), k)
  {
    !HasChildren(cache, k) && k != Root()
  }

  /** allChildrenExistant: the four children are in the memory cache. */
  function AllChildrenExistant(cache: LRUCache<TileKey, Nodes.TerrainNode>, k: TileKey): (b: bool)
    reads cache
    requires cache.Valid()
    ensures b == MS.AllChildrenExistant(Keys(cache.items), k)
  {
    cache.Contains(TopLeftChild(k)) && cache.Contains(TopRightChild(k))
      && cache.Contains(BottomLeftChild(k)) && cache.Contains(BottomRightChild(k))
  }

  /**
   * One turn of a reinsertion loop: the entry in hand, which failed the
   * check, goes back in front of the full cache, and the entry the cache
   * lets go, its back entry, is the one in hand next; one try fewer is
   * left. ManagerSpec.ReinsertPutBack says what this does to the loop.
   */
  method PutBack<V>(cache: LRUCache<TileKey, V>, held: (TileKey, V), tries: nat) returns (next: (TileKey, V), left: nat)
    requires cache.Valid() && |cache.items| == cache.capacity && held.0 !in Keys(cache.items) && tries > 0
    modifies cache
    ensures cache.Valid() && cache.items == PutItems(old(cache.items), cache.capacity, held.0, held.1)
    ensures next == old(cache.items)[|old(cache.items)| - 1] && left == tries - 1
  {
    var result := cache.Put(held.0, held.1);
    next := result.evictedItem.value;
    left := tries - 1;
  }

  /**
   * while (!checkEviction(evictedKey)) put the entry back, for the memory
   * cache: the check runs against the cache as it stands, without the entry
   * in hand. The source loops for ever when no entry passes; here the loop
   * gives up after as many tries as the cache holds, which is when
   * ManagerSpec.Reinsert says the loop spins.
   */
  method MemoryReinsert(cache: LRUCache<TileKey, Nodes.TerrainNode>, evicted: (TileKey, Nodes.TerrainNode), ghost s: MS.ManagerState, ghost key: TileKey) returns (done: bool)
    requires cache.Valid() && |cache.items| == cache.capacity && evicted.0 !in Keys(cache.items)
    requires Keys(cache.items) + {evicted.0} == Keys(s.mem) + {key}
    modifies cache
    ensures cache.Valid()
    ensures var r := MS.Reinsert(old(cache.items), cache.capacity, evicted, MS.MemoryCheck(s, key), cache.capacity);
      (done <==> r.Evicts?) && (done ==> cache.items == r.items)
  {
    ghost var ok := MS.MemoryCheck(s, key);
    ghost var resident := Keys(s.mem) + {key};
    ghost var start := cache.items;
    var held := evicted;
    var fuel := cache.capacity;
    while !CheckEviction(cache, held.0)
      invariant cache.Valid() && |cache.items| == cache.capacity && held.0 !in Keys(cache.items)
      invariant Keys(cache.items) + {held.0} == resident
      invariant MS.Reinsert(start, cache.capacity, evicted, ok, cache.capacity) == MS.Reinsert(cache.items, cache.capacity, held, ok, fuel)
      decreases fuel
    {
      Apart(Keys(cache.items), held.0, resident);
      MS.CheckIgnoresSelf(resident, held.0);
      if fuel == 0 {
        return false;
      }
      ghost var before, h, f := cache.items, held, fuel;
      held, fuel := PutBack(cache, held, fuel);
      MS.ReinsertPutBack(before, cache.capacity, h, ok, f, cache.items, held, fuel);
    }
    Apart(Keys(cache.items), held.0, resident);
    MS.CheckIgnoresSelf(resident, held.0);
    return true;
  }

  /** The set without the entry in hand, and with it. */
  lemma {:induction false} Apart(keys: set<TileKey>, held: TileKey, resident: set<TileKey>)
    requires held !in keys && keys + {held} == resident
    ensures keys == resident - {held} && resident + {held} == resident
  {
  }

  /** put(key, value) into the memory cache, and the reinsertion loop when that let an entry go. */
  method MemoryPut(cache: LRUCache<TileKey, Nodes.TerrainNode>, node: Nodes.TerrainNode, ghost s: MS.ManagerState) returns (inserted: bool)
    requires cache.Valid() && cache.items == s.mem && cache.capacity == s.memCapacity
    modifies cache
    ensures cache.Valid()
    ensures var r := MS.CachePut(s.mem, s.memCapacity, node.tileKey, node, MS.MemoryCheck(s, node.tileKey));
      (inserted <==> r.Inserted?) && (inserted ==> cache.items == r.items)
  {
    var key := node.tileKey;
    PutFacts(s.mem, s.memCapacity, key, node);
    var result := cache.Put(key, node);
    if !result.evicted {
      return true;
    }
    inserted := MemoryReinsert(cache, result.evictedItem.value, s, key);
  }

  /**
   * while (!checkEviction(evictedKey) || loading) put the key back, for the
   * disk cache: the check looks at the memory cache and at a set of tiles
   * being loaded, neither of which the loop changes (initDiskCache's loop
   * is the one with no tiles loading). Gives up as MemoryReinsert does; the
   * key let go is returned.
   */
  method DiskReinsert(disk: LRUCache<TileKey, ()>, memory: LRUCache<TileKey, Nodes.TerrainNode>, loading: set<TileKey>,
                      evicted: (TileKey, ()), ghost ok: TileKey -> bool) returns (victim: Option<TileKey>)
    requires disk.Valid() && |disk.items| == disk.capacity && evicted.0 !in Keys(disk.items)
    requires memory.Valid() && forall k :: ok(k) == (MS.CheckEviction(Keys(memory.items), k) && k !in loading)
    modifies disk
    ensures disk.Valid()
    ensures var r := MS.Reinsert(old(disk.items), disk.capacity, evicted, ok, disk.capacity);
      (victim.Some? <==> r.Evicts?) && (victim.Some? ==> disk.items == r.items && victim.value == r.victim.0)
  {
    ghost var start := disk.items;
    var held := evicted;
    var fuel := disk.capacity;
    while !CheckEviction(memory, held.0) || held.0 in loading
      invariant disk.Valid() && |disk.items| == disk.capacity && held.0 !in Keys(disk.items)
      invariant MS.Reinsert(start, disk.capacity, evicted, ok, disk.capacity) == MS.Reinsert(disk.items, disk.capacity, held, ok, fuel)
      decreases fuel
    {
      if fuel == 0 {
        return None;
      }
      ghost var before, h, f := disk.items, held, fuel;
      held, fuel := PutBack(disk, held, fuel);
      MS.ReinsertPutBack(before, disk.capacity, h, ok, f, disk.items, held, fuel);
    }
    return Some(held.0);
  }

  /** put(key) into the disk cache, and the reinsertion loop when that let an entry go; the key finally let go, if any. */
  method DiskPut(disk: LRUCache<TileKey, ()>, memory: LRUCache<TileKey, Nodes.TerrainNode>, loading: set<TileKey>,
                 key: TileKey, ghost ok: TileKey -> bool) returns (inserted: bool, victim: Option<TileKey>)
    requires disk.Valid() && memory.Valid()
    requires forall k :: ok(k) == (MS.CheckEviction(Keys(memory.items), k) && k !in loading)
    modifies disk
    ensures disk.Valid()
    ensures var r := MS.CachePut(old(disk.items), disk.capacity, key, (), ok);
      && (inserted <==> r.Inserted?)
      && (inserted ==> disk.items == r.items && victim == if r.victim.Some? then Some(r.victim.value.0) else None)
  {
    PutFacts(disk.items, disk.capacity, key, ());
    var result := disk.Put(key, ());
    if !result.evicted {
      return true, None;
    }
    victim := DiskReinsert(disk, memory, loading, result.evictedItem.value, ok);
    inserted := victim.Some?;
  }

  /** One tile of initDiskCache's insertion loop: the put and its loop, then the two files of the key let go are removed. */
  method FillPut(disk: LRUCache<TileKey, ()>, memory: LRUCache<TileKey, Nodes.TerrainNode>, fs: FileSystem, path: string,
                 k: TileKey, ghost s: MS.ManagerState) returns (ok: bool)
    requires disk.Valid() && memory.Valid() && MS.Wf(s)
    requires disk.items == s.disk && disk.capacity == s.diskCapacity && Keys(memory.items) == Keys(s.mem)
    modifies disk, fs
    ensures disk.Valid()
    ensures var r := MS.FillStep(s, path, old(fs.files), k);
      (ok <==> r.Some?) && (ok ==> r.value == (s.(disk := disk.items), fs.files))
  {
    ghost var files := fs.files;
    ghost var c := MS.CachePut(s.disk, s.diskCapacity, k, (), MS.FillCheck(s));
    var victim;
    ok, victim := DiskPut(disk, memory, {}, k, MS.FillCheck(s));
    if ok && victim.Some? {
      var v := victim.value;
      var _ := fs.Remove(HeightmapFile(path, v));
      var _ := fs.Remove(OverlayFile(path, v));
      assert fs.files == files - {HeightmapFile(path, v), OverlayFile(path, v)};
      assert c.Inserted? && c.items == disk.items && c.victim.Some? && c.victim.value.0 == v;
    } else if ok {
      assert c.Inserted? && c.items == disk.items && c.victim.None?;
    }
  }

  /** FillPut as one more step of the loop over the tiles taken so far. */
  method FillNext(disk: LRUCache<TileKey, ()>, memory: LRUCache<TileKey, Nodes.TerrainNode>, fs: FileSystem, path: string,
                  k: TileKey, ghost s: MS.ManagerState, ghost files: set<string>, ghost order: seq<TileKey>) returns (ok: bool)
    requires disk.Valid() && memory.Valid() && MS.Wf(s) && disk.capacity == s.diskCapacity && Keys(memory.items) == Keys(s.mem)
    requires MS.DiskFill(s, path, files, order) == Some((s.(disk := disk.items), fs.files))
    modifies disk, fs
    ensures disk.Valid()
    ensures var r := MS.DiskFill(s, path, files, order + [k]);
      (ok <==> r.Some?) && (ok ==> r == Some((s.(disk := disk.items), fs.files)))
  {
    MS.DiskFillStep(s, path, files, order, k);
    ok := FillPut(disk, memory, fs, path, k, s.(disk := disk.items));
  }

  /** The insertion loop of initDiskCache, on the disk cache and the files; the order the kept tiles were taken in is returned. */
  method Fill(disk: LRUCache<TileKey, ()>, memory: LRUCache<TileKey, Nodes.TerrainNode>, fs: FileSystem, path: string,
              kept: set<TileKey>, ghost s: MS.ManagerState) returns (done: bool, order: seq<TileKey>)
    requires disk.Valid() && memory.Valid() && MS.Wf(s)
    requires disk.items == s.disk && disk.capacity == s.diskCapacity && Keys(memory.items) == Keys(s.mem)
    modifies disk, fs
    ensures disk.Valid()
    ensures MS.NoRepeats(order) && MS.Elems(order) <= kept && (done ==> MS.Elems(order) == kept)
    ensures var r := MS.DiskFill(s, path, old(fs.files), order);
      (done <==> r.Some?) && (done ==> r.value == (s.(disk := disk.items), fs.files))
  {
    ghost var files := fs.files;
    var rest := kept;
    order := [];
    while rest != {}
      invariant disk.Valid() && disk.capacity == s.diskCapacity
      invariant MS.Taken(order, rest, kept)
      invariant MS.DiskFill(s, path, files, order) == Some((s.(disk := disk.items), fs.files))
      decreases |rest|
    {
      var k :| k in rest;
      MS.TakeOne(order, rest, kept, k);
      var ok := FillNext(disk, memory, fs, path, k, s, files, order);
      order := order + [k];
      rest := rest - {k};
      if !ok {
        return false, order;
      }
    }
    return true, order;
  }

  /**
   * The overlay pass of initDiskCache over the listed overlay tiles: keep
   * a tile whose heightmap exists, remove its overlay otherwise.
   */
  method OverlayPass(fs: FileSystem, path: string, overlays: seq<TileKey>) returns (kept: set<TileKey>)
    modifies fs
    ensures (kept, fs.files) == MS.OverlayPass(path, old(fs.files), overlays)
  {
    ghost var files := fs.files;
    kept := {};
    var i := 0;
    while i < |overlays|
      invariant i <= |overlays| && (kept, fs.files) == MS.OverlayPass(path, files, overlays[..i])
    {
      var j := i + 1;
      var k := overlays[i];
      MS.OverlayPassStep(path, files, overlays, i, j);
      if fs.Exists(HeightmapFile(path, k)) {
        kept := kept + {k};
      } else {
        var _ := fs.Remove(OverlayFile(path, k));
      }
      i := j;
    }
    assert overlays[..i] == overlays;
  }

  /** The heightmap pass of initDiskCache over the listed heightmap tiles: remove each one not kept. */
  method HeightmapPass(fs: FileSystem, path: string, heights: seq<TileKey>, kept: set<TileKey>)
    modifies fs
    ensures fs.files == MS.HeightmapPass(path, old(fs.files), heights, kept)
  {
    ghost var files := fs.files;
    var i := 0;
    while i < |heights|
      invariant i <= |heights| && fs.files == MS.HeightmapPass(path, files, heights[..i], kept)
    {
      var j := i + 1;
      var k := heights[i];
      MS.HeightmapPassStep(path, files, heights, kept, i, j);
      if k !in kept {
        var _ := fs.Remove(HeightmapFile(path, k));
      }
      i := j;
    }
    assert heights[..i] == heights;
  }

  /** How a step that may run into the source's endless loop or its null dereference ends. */
  datatype Status = Done | Hung | Crashed

  /** The outcome a Status reports, next to the state the object holds. */
  predicate Reports(f: MS.Fate, status: Status, s: MS.ManagerState)
  {
    match status
    case Done => f == MS.Continues(s)
    case Hung => f == MS.Hangs
    case Crashed => f == MS.Crashes
  }

  /** The frame a Status and the drawn tiles report, next to the state the object holds. */
  predicate Renders(f: MS.Frame, status: Status, drawn: seq<TileKey>, s: MS.ManagerState)
  {
    match status
    case Done => f == MS.Frame(s, drawn)
    case Hung => f == MS.Stuck
    case Crashed => f == MS.Crashed
  }

  class TerrainManager {
    const memoryCache: LRUCache<TileKey, Nodes.TerrainNode>
    /** Key-only cache of the tiles on disk. */
    const diskCache: LRUCache<TileKey, ()>
    var loadingTiles: set<TileKey>
    var unloadableTileKeys: set<TileKey>
    var currentDiskCacheEvictions: set<TileKey>

    /** One request queue per load worker; their number is the number of workers. */
    const loadRequestQueues: seq<MessageQueue<LW.Request>>
    const doneQueue: MessageQueue<LW.Response>
    const unloadRequestQueue: MessageQueue<DD.Request>
    const unloadDoneQueue: MessageQueue<DD.Response>
    var currentLoadThread: nat

    /** Unsigned counters: the tiles requested and not answered, and the statistic of web requests. */
    var numberOfRequestedTiles: U32
    var apiRequests: U32
    var offlineWait: bool
    /** The time of the last network error, in milliseconds of the system clock. */
    var lastNetworkError: int

    const fs: FileSystem
    /** The configured disk cache path. */
    const diskCachePath: string

    /** The caches are well formed, there is a worker, the index names one, and the worker queues are distinct objects. */
    ghost predicate Valid()
      reads this, memoryCache, diskCache
    {
      && memoryCache.Valid() && diskCache.Valid()
      && |loadRequestQueues| >= 1 && currentLoadThread < |loadRequestQueues|
      && (forall i, j :: 0 <= i < j < |loadRequestQueues| ==> loadRequestQueues[i] != loadRequestQueues[j])
      && (forall i :: 0 <= i < |loadRequestQueues| ==> loadRequestQueues[i] !in {this, memoryCache, diskCache, unloadRequestQueue})
    }

    /** The bookkeeping fields as a value. */
    function Snap(): (s: MS.ManagerState)
      reads this, memoryCache, diskCache, unloadRequestQueue, loadRequestQueues
    {
      MS.ManagerState(memoryCache.items, memoryCache.capacity, diskCache.items, diskCache.capacity,
                      loadingTiles, unloadableTileKeys, currentDiskCacheEvictions,
                      QueueContents(loadRequestQueues), currentLoadThread,
                      numberOfRequestedTiles, offlineWait, lastNetworkError, apiRequests,
                      unloadRequestQueue.queue)
    }

    lemma {:induction false} SnapWf()
      requires Valid()
      ensures MS.Wf(Snap())
    {
    }

    /** The manager before setup: empty caches of the configured sizes, empty sets and queues, worker 0 next. */
    constructor (memoryCacheSize: nat, diskCacheSize: nat, loadRequestQueues: seq<MessageQueue<LW.Request>>,
                 doneQueue: MessageQueue<LW.Response>, unloadRequestQueue: MessageQueue<DD.Request>,
                 unloadDoneQueue: MessageQueue<DD.Response>, fs: FileSystem, diskCachePath: string)
      requires memoryCacheSize >= 1 && diskCacheSize >= 1 && |loadRequestQueues| >= 1
      requires forall i, j :: 0 <= i < j < |loadRequestQueues| ==> loadRequestQueues[i] != loadRequestQueues[j]
      ensures Valid()
      ensures this.loadRequestQueues == loadRequestQueues && this.doneQueue == doneQueue
      ensures this.unloadRequestQueue == unloadRequestQueue && this.unloadDoneQueue == unloadDoneQueue
      ensures this.fs == fs && this.diskCachePath == diskCachePath
      ensures fresh(memoryCache) && fresh(diskCache)
      ensures memoryCache.items == [] && memoryCache.capacity == memoryCacheSize
      ensures diskCache.items == [] && diskCache.capacity == diskCacheSize
      ensures loadingTiles == {} && unloadableTileKeys == {} && currentDiskCacheEvictions == {}
      ensures currentLoadThread == 0 && numberOfRequestedTiles == 0 && apiRequests == 0 && !offlineWait
    {
      memoryCache := new LRUCache(memoryCacheSize);
      diskCache := new LRUCache(diskCacheSize);
      this.loadRequestQueues := loadRequestQueues;
      this.doneQueue := doneQueue;
      this.unloadRequestQueue := unloadRequestQueue;
      this.unloadDoneQueue := unloadDoneQueue;
      this.fs := fs;
      this.diskCachePath := diskCachePath;
      loadingTiles, unloadableTileKeys, currentDiskCacheEvictions := {}, {}, {};
      currentLoadThread := 0;
      numberOfRequestedTiles, apiRequests := 0, 0;
      offlineWait := false;
      lastNetworkError := 0;
    }

    /** requestNode, as ManagerSpec.RequestNode: the guard, then one request to the current worker. */
    method RequestNode(k: TileKey)
      requires Valid()
      modifies this, loadRequestQueues
      ensures Valid() && Snap() == MS.RequestNode(old(Snap()), k)
    {
      var resident := memoryCache.Contains(k);
      if !resident && k !in loadingTiles && k !in unloadableTileKeys && k !in currentDiskCacheEvictions {
        PostRequest(k);
      }
    }

    /** The body of requestNode once the guard holds: mark the tile loading and push its request. */
    method PostRequest(k: TileKey)
      requires Valid() && MS.Gate(Snap(), k)
      modifies this, loadRequestQueues
      ensures Valid() && Snap() == MS.RequestNode(old(Snap()), k)
    {
      ghost var s := Snap();
      var onDisk := diskCache.Contains(k);
      var kind := if onDisk then LW.LoadRequestDiskCache else LW.LoadRequest;
      var request := LW.Request(k, kind, offlineWait);
      var i := currentLoadThread;
      var next := (i + 1) % |loadRequestQueues|;
      var count := Wrap(numberOfRequestedTiles + 1);
      ghost var t := s.(loading := loadingTiles + {k}, loadRequests := s.loadRequests[i := s.loadRequests[i] + [request]],
                        currentLoadThread := next, requested := count);
      assert request == MS.RequestFor(s, k);
      assert MS.RequestNode(s, k) == t;
      loadingTiles := loadingTiles + {k};
      loadRequestQueues[i].Push(request);
      currentLoadThread := next;
      numberOfRequestedTiles := count;
      assert QueueContents(loadRequestQueues) == t.loadRequests;
      assert memoryCache.items == s.mem && diskCache.items == s.disk;
      assert unloadRequestQueue.queue == s.unloadRequests;
    }

    /** requestChildren: requestNode for the four children, in order. */
    method RequestChildren(k: TileKey)
      requires Valid()
      modifies this, loadRequestQueues
      ensures Valid() && Snap() == MS.RequestChildren(old(Snap()), k)
    {
      RequestNode(TopLeftChild(k));
      RequestNode(TopRightChild(k));
      RequestNode(BottomLeftChild(k));
      RequestNode(BottomRightChild(k));
    }

    /** The memory half of initTerrainNode, on the memory cache field. */
    method MemoryInsert(node: Nodes.TerrainNode, ghost s: MS.ManagerState) returns (inserted: bool)
      requires Valid() && s == Snap()
      modifies memoryCache
      ensures Valid()
      ensures inserted <==> MS.MemoryInsert(s, node).Some?
      ensures inserted ==> MS.MemoryInsert(s, node).value == Snap()
    {
      inserted := MemoryPut(memoryCache, node, s);
      if inserted {
        assert Snap() == s.(mem := memoryCache.items);
      }
    }

    /** The disk half of initTerrainNode: the put and its loop, then the deletion of the key let go is recorded and queued. */
    method DiskInsert(key: TileKey, ghost s: MS.ManagerState) returns (inserted: bool)
      requires Valid() && s == Snap()
      modifies this, diskCache, unloadRequestQueue
      ensures Valid()
      ensures inserted <==> MS.DiskInsert(s, key).Some?
      ensures inserted ==> MS.DiskInsert(s, key).value == Snap()
    {
      var victim;
      inserted, victim := DiskPut(diskCache, memoryCache, loadingTiles, key, MS.DiskCheck(s));
      ghost var s2 := s.(disk := diskCache.items);
      assert Snap() == s2;
      if inserted && victim.Some? {
        RecordEviction(victim.value);
      }
    }

    /** _currentDiskCacheEvictions.insert(evictedKey) and the unload request for it. */
    method RecordEviction(v: TileKey)
      requires Valid()
      modifies this, unloadRequestQueue
      ensures Valid()
      ensures Snap() == old(Snap()).(evictions := old(Snap()).evictions + {v},
                                   unloadRequests := old(Snap()).unloadRequests + [DD.Request(v, DD.UnloadRequest)])
    {
      ghost var s := Snap();
      var request := DD.Request(v, DD.UnloadRequest);
      var evictions := currentDiskCacheEvictions + {v};
      currentDiskCacheEvictions := evictions;
      unloadRequestQueue.Push(request);
      assert QueueContents(loadRequestQueues) == s.loadRequests;
      assert memoryCache.items == s.mem && diskCache.items == s.disk;
    }

    /**
     * The insertion loop of initDiskCache over the kept tiles, in the order
     * the map hands them out, which is returned; it stops where a
     * reinsertion loop never ends.
     */
    method FillDiskCache(kept: set<TileKey>) returns (done: bool, order: seq<TileKey>)
      requires Valid()
      modifies diskCache, fs
      ensures Valid()
      ensures MS.NoRepeats(order) && MS.Elems(order) <= kept && (done ==> MS.Elems(order) == kept)
      ensures var r := MS.DiskFill(old(Snap()), diskCachePath, old(fs.files), order);
        (done <==> r.Some?) && (done ==> r.value == (Snap(), fs.files))
    {
      ghost var s := Snap();
      done, order := Fill(diskCache, memoryCache, fs, diskCachePath, kept, s);
      assert Snap() == s.(disk := diskCache.items);
    }

    /**
     * initDiskCache on the listings of the two cache directories (directory
     * order): the overlay pass, the heightmap pass, and the insertion loop
     * over the kept tiles, whose order is returned.
     */
    method InitDiskCache(overlays: seq<TileKey>, heights: seq<TileKey>) returns (done: bool, order: seq<TileKey>)
      requires Valid()
      modifies diskCache, fs
      ensures Valid()
      ensures var kept := MS.OverlayPass(diskCachePath, old(fs.files), overlays).0;
        MS.NoRepeats(order) && MS.Elems(order) <= kept && (done ==> MS.Elems(order) == kept)
      ensures var r := MS.InitDiskCache(old(Snap()), diskCachePath, old(fs.files), overlays, heights, order);
        (done <==> r.Some?) && (done ==> r.value == (Snap(), fs.files))
    {
      var kept := OverlayPass(fs, diskCachePath, overlays);
      HeightmapPass(fs, diskCachePath, heights, kept);
      done, order := FillDiskCache(kept);
    }

    /** setup without the meshes and the threads: initDiskCache, then the request for the root tile. */
    method Setup(overlays: seq<TileKey>, heights: seq<TileKey>) returns (done: bool, order: seq<TileKey>)
      requires Valid()
      modifies this, diskCache, fs, loadRequestQueues
      ensures Valid()
      ensures var r := MS.InitDiskCache(old(Snap()), diskCachePath, old(fs.files), overlays, heights, order);
        (done <==> r.Some?) && (done ==> Snap() == MS.RequestNode(r.value.0, Root()) && fs.files == r.value.1)
    {
      done, order := InitDiskCache(overlays, heights);
      if done {
        RequestNode(Root());
      }
    }

    /**
     * initTerrainNode without the GPU upload and the freeing of the node
     * let go: Hung where the source's reinsertion loop never ends.
     */
    method InitTerrainNode(node: Nodes.TerrainNode) returns (status: Status)
      requires Valid()
      modifies this, memoryCache, diskCache, unloadRequestQueue
      ensures Valid()
      ensures status != Crashed && Reports(MS.InitTerrainNode(old(Snap()), node), status, Snap())
    {
      ghost var s := Snap();
      var inMemory := MemoryInsert(node, s);
      if !inMemory {
        return Hung;
      }
      var onDisk := DiskInsert(node.tileKey, Snap());
      if !onDisk {
        return Hung;
      }
      return Done;
    }

    /** The bookkeeping every response gets first. */
    method Acknowledge(r: LW.Response)
      requires Valid()
      modifies this
      ensures Valid() && Snap() == MS.Acknowledge(old(Snap()), r)
    {
      var requested := Wrap(numberOfRequestedTiles + U32_MODULUS - 1);
      var loading := loadingTiles - {r.tileKey};
      var api := if r.origin == LW.OriginApi then Wrap(apiRequests + 2) else apiRequests;
      numberOfRequestedTiles, loadingTiles, apiRequests := requested, loading, api;
    }

    /** One response of processAllDoneQueue: the bookkeeping, then by its type. */
    method ProcessResponse(r: LW.Response, now: int) returns (status: Status)
      requires Valid()
      modifies this, memoryCache, diskCache, unloadRequestQueue
      ensures Valid() && Reports(MS.ProcessResponse(old(Snap()), r, now), status, Snap())
    {
      Acknowledge(r);
      match r.kind {
        case LoadUnloadable =>
          unloadableTileKeys := unloadableTileKeys + {r.tileKey};
          status := Done;
        case LoadError =>
          lastNetworkError, offlineWait := now, true;
          status := Done;
        case LoadTimeout =>
          status := Done;
        case _ =>
          if r.node.None? {
            return Crashed;
          }
          status := InitTerrainNode(r.node.value);
      }
    }

    /**
     * processAllDoneQueue: take every response and handle them in queue
     * order; a hang or a crash ends the batch.
     */
    method ProcessAllDoneQueue(now: int) returns (status: Status)
      requires Valid()
      modifies this, memoryCache, diskCache, unloadRequestQueue, doneQueue
      ensures Valid() && doneQueue.queue == []
      ensures Reports(MS.ProcessAll(old(Snap()), old(doneQueue.queue), now), status, Snap())
    {
      SnapWf();
      ghost var s := Snap();
      var responses := doneQueue.PopAll();
      var i := 0;
      while i < |responses|
        invariant i <= |responses| && Valid() && doneQueue.queue == []
        invariant MS.ProcessAll(s, responses[..i], now) == MS.Continues(Snap())
      {
        var j := i + 1;
        MS.ProcessAllStep(s, responses, i, j, now);
        status := ProcessResponse(responses[i], now);
        if status != Done {
          MS.ProcessAllStops(s, responses, j, now);
          return;
        }
        i := j;
      }
      assert responses[..i] == responses;
      status := Done;
    }

    /** processAllUnloadDoneQueue: every answered tile leaves the pending deletions; an error answer is only reported. */
    method ProcessAllUnloadDoneQueue()
      requires Valid()
      modifies this, unloadDoneQueue
      ensures Valid() && unloadDoneQueue.queue == []
      ensures Snap() == MS.UnloadDone(old(Snap()), old(unloadDoneQueue.queue))
    {
      ghost var s := Snap();
      var responses := unloadDoneQueue.PopAll();
      var i := 0;
      while i < |responses|
        invariant i <= |responses| && Valid() && unloadDoneQueue.queue == []
        invariant Snap() == MS.UnloadDone(s, responses[..i])
      {
        var j := i + 1;
        MS.UnloadDoneStep(s, responses, i, j);
        currentDiskCacheEvictions := currentDiskCacheEvictions - {responses[i].tileKey};
        i := j;
      }
      assert responses[..i] == responses;
    }

    /** The start of render: the offline wait ends once the last network error is more than five whole seconds away. */
    method EndOfflineWait(now: int)
      requires Valid()
      modifies this
      ensures Valid() && Snap() == MS.Cooldown(old(Snap()), now)
    {
      if offlineWait && MS.Abs(MS.SecondsOf(now - lastNetworkError)) > 5 {
        offlineWait := false;
      }
    }

    /** _diskCache.get(k): the tile moves to the front of the disk cache. */
    method TouchDisk(k: TileKey)
      requires Valid()
      modifies diskCache
      ensures Valid() && Snap() == MS.TouchDisk(old(Snap()), k)
    {
      var _ := diskCache.Get(k);
    }

    /** _memoryCache.get(k): the tile moves to the front of the memory cache. */
    method TouchMemory(k: TileKey)
      requires Valid()
      modifies memoryCache
      ensures Valid() && Snap() == MS.TouchMem(old(Snap()), k)
    {
      var _ := memoryCache.Get(k);
    }

    /**
     * collectRenderable from tile k, with the camera tests as inView and
     * wantsSplit: the tiles queued for drawing, in queue order.
     */
    method CollectRenderable(k: TileKey, inView: TileKey -> bool, wantsSplit: TileKey -> bool, maxZoom: nat) returns (tiles: seq<TileKey>)
      requires Valid() && k in Keys(memoryCache.items) && maxZoom <= 29 && k.z <= maxZoom
      modifies this, memoryCache, diskCache, loadRequestQueues
      ensures Valid() && MS.Traverse(old(Snap()), k, inView, wantsSplit, maxZoom) == MS.Walk(Snap(), tiles)
      decreases maxZoom - k.z, 1
    {
      SnapWf();
      TouchDisk(k);
      TouchMemory(k);
      if !(k.z <= 2 || inView(k)) {
        return [];
      }
      TouchMemory(k);
      if !(wantsSplit(k) && k.z < maxZoom) {
        return [k];
      }
      if !AllChildrenExistant(memoryCache, k) {
        RequestChildren(k);
        return [k];
      }
      tiles := CollectChildren(k, inView, wantsSplit, maxZoom);
    }

    /** The split case: the four children in order, each from the state the previous one left. */
    method CollectChildren(k: TileKey, inView: TileKey -> bool, wantsSplit: TileKey -> bool, maxZoom: nat) returns (tiles: seq<TileKey>)
      requires Valid() && maxZoom <= 29 && k.z < maxZoom && MS.AllChildrenExistant(Keys(memoryCache.items), k)
      modifies this, memoryCache, diskCache, loadRequestQueues
      ensures Valid() && MS.TraverseChildren(old(Snap()), k, inView, wantsSplit, maxZoom) == MS.Walk(Snap(), tiles)
      decreases maxZoom - k.z, 0
    {
      SnapWf();
      MS.ChildrenLevel(k);
      var a := CollectRenderable(TopLeftChild(k), inView, wantsSplit, maxZoom);
      var b := CollectRenderable(TopRightChild(k), inView, wantsSplit, maxZoom);
      var c := CollectRenderable(BottomLeftChild(k), inView, wantsSplit, maxZoom);
      var d := CollectRenderable(BottomRightChild(k), inView, wantsSplit, maxZoom);
      tiles := a + b + c + d;
    }

    /** The render loop: get each queued tile from the memory cache, in queue order. */
    method DrawTiles(tiles: seq<TileKey>)
      requires Valid()
      modifies memoryCache
      ensures Valid() && Snap() == MS.DrawAll(old(Snap()), tiles)
    {
      SnapWf();
      ghost var s := Snap();
      var i := 0;
      while i < |tiles|
        invariant i <= |tiles| && Valid()
        invariant Snap() == MS.DrawAll(s, tiles[..i])
      {
        var j := i + 1;
        MS.DrawAllStep(s, tiles, i, j);
        TouchMemory(tiles[i]);
        i := j;
      }
      assert tiles[..i] == tiles;
    }

    /**
     * render without the GPU work: the offline wait, both answer queues,
     * then, once the root is in memory, the tiles collected from it, the
     * camera tile got from the memory cache for the collision test, and
     * each collected tile got from it in order.
     */
    method Render(now: int, inView: TileKey -> bool, wantsSplit: TileKey -> bool, underCamera: TileKey -> bool, maxZoom: nat) returns (status: Status, drawn: seq<TileKey>)
      requires Valid() && maxZoom <= 29
      modifies this, memoryCache, diskCache, loadRequestQueues, unloadRequestQueue, doneQueue, unloadDoneQueue
      ensures Valid()
      ensures Renders(MS.Render(old(Snap()), now, old(doneQueue.queue), old(unloadDoneQueue.queue), inView, wantsSplit, underCamera, maxZoom), status, drawn, Snap())
    {
      EndOfflineWait(now);
      status := ProcessAllDoneQueue(now);
      if status != Done {
        return status, [];
      }
      ProcessAllUnloadDoneQueue();
      if !memoryCache.Contains(Root()) {
        return Done, [];
      }
      drawn := CollectRenderable(Root(), inView, wantsSplit, maxZoom);
      TouchMemory(MS.CameraTile(drawn, underCamera));
      DrawTiles(drawn);
    }
  }
}