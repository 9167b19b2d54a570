/**
 * The disk-eviction worker: it drains its request queue, deletes both
 * cache files of each requested tile (overlay first, the heightmap only
 * if that succeeded) and answers each request on its done queue.
 */
module DiskDeallocation {
  import opened TileKeys
  import opened Files
  import opened Queues

  datatype RequestType = UnloadRequest | UnloadStopThread

  datatype Request = Request(tileKey: TileKey, kind: RequestType)

  datatype ResponseType = UnloadOk | UnloadError

  datatype Response = Response(kind: ResponseType, tileKey: TileKey)

  /** The response to one request and the files left behind, for the cache at path. */
  function EvictStep(path: string, files: set<string>, request: Request): (r: (Response, set<string>))
    ensures r.0.tileKey == request.tileKey
    ensures r.0.kind == UnloadOk <==> OverlayFile(path, request.tileKey) in files && HeightmapFile(path, request.tileKey) in files
    ensures r.1 <= files
    ensures r.0.kind == UnloadOk ==> r.1 == files - {OverlayFile(path, request.tileKey), HeightmapFile(path, request.tileKey)}
  {
    var k := request.tileKey;
    var removal := ShortCircuitRemove(files, OverlayFile(path, k), HeightmapFile(path, k));
    (Response(if removal.0 then UnloadOk else UnloadError, k), removal.1)
  }

  /** The responses to a batch of requests, in order, and the files left behind. */
  function Batch(path: string, files: set<string>, requests: seq<Request>): (r: (seq<Response>, set<string>))
    ensures |r.0| == |requests|
    decreases |requests|
  {
    if requests == [] then ([], files)
    else
      var before := Batch(path, files, requests[..|requests| - 1]);
      var step := EvictStep(path, before.1, requests[|requests| - 1]);
      (before.0 + [step.0], step.1)
  }

  /** One response per request, with the request's key, in batch order; files are only ever removed. */
  lemma {:induction false} BatchAnswersEach(path: string, files: set<string>, requests: seq<Request>)
    ensures |Batch(path, files, requests).0| == |requests|
    ensures forall i :: 0 <= i < |requests| ==> Batch(path, files, requests).0[i].tileKey == requests[i].tileKey
    ensures Batch(path, files, requests).1 <= files
    decreases |requests|
  {
    if requests != [] {
      BatchAnswersEach(path, files, requests[..|requests| - 1]);
    }
  }

  /** The files a batch prefix leaves are a superset of those the whole batch leaves. */
  lemma {:induction false} BatchPrefixShrinks(path: string, files: set<string>, requests: seq<Request>, n: nat)
    requires n <= |requests|
    ensures Batch(path, files, requests).1 <= Batch(path, files, requests[..n]).1
    decreases |requests| - n
  {
    if n < |requests| {
      BatchPrefixShrinks(path, files, requests, n + 1);
      assert requests[..n + 1][..n] == requests[..n];
    } else {
      assert requests[..n] == requests;
    }
  }

  /** After an UNLOAD_OK response neither file of that tile is left once the batch is done. */
  lemma {:induction false} BatchOkMeansGone(path: string, files: set<string>, requests: seq<Request>, i: nat)
    requires i < |requests|
    requires Batch(path, files, requests).0[i].kind == UnloadOk
    ensures OverlayFile(path, requests[i].tileKey) !in Batch(path, files, requests).1
    ensures HeightmapFile(path, requests[i].tileKey) !in Batch(path, files, requests).1
  {
    BatchResponsePrefix(path, files, requests, i + 1);
    assert requests[..i + 1][..i] == requests[..i];
    BatchPrefixShrinks(path, files, requests, i + 1);
  }

  /** The response at position i < n is already the one the prefix of length n gives. */
  lemma {:induction false} BatchResponsePrefix(path: string, files: set<string>, requests: seq<Request>, n: nat)
    requires n <= |requests|
    ensures |Batch(path, files, requests[..n]).0| == n
    ensures forall i :: 0 <= i < n ==> Batch(path, files, requests).0[i] == Batch(path, files, requests[..n]).0[i]
    decreases |requests| - n
  {
    if n < |requests| {
      var m := n + 1;
      BatchResponsePrefix(path, files, requests, m);
      BatchPrefixStep(path, files, requests, n, m);
    } else {
      assert requests[..n] == requests;
    }
  }

  /** Extending a prefix by one request leaves the responses already given unchanged. */
  lemma {:induction false} BatchPrefixStep(path: string, files: set<string>, requests: seq<Request>, n: nat, m: nat)
    requires m == n + 1 && m <= |requests|
    ensures forall i :: 0 <= i < n ==> Batch(path, files, requests[..m]).0[i] == Batch(path, files, requests[..n]).0[i]
  {
    var longer := requests[..m];
    assert longer[..|longer| - 1] == requests[..n];
    var before := Batch(path, files, requests[..n]);
    assert Batch(path, files, longer).0 == before.0 + [EvictStep(path, before.1, longer[|longer| - 1]).0];
  }

  /** The request type is never looked at: a stop request deletes like any other. */
  lemma {:induction false} BatchIgnoresType(path: string, files: set<string>, requests: seq<Request>, others: seq<Request>)
    requires |requests| == |others|
    requires forall i :: 0 <= i < |requests| ==> requests[i].tileKey == others[i].tileKey
    ensures Batch(path, files, requests) == Batch(path, files, others)
    decreases |requests|
  {
    if requests != [] {
      BatchIgnoresType(path, files, requests[..|requests| - 1], others[..|others| - 1]);
    }
  }

  class DiskDeallocationWorkerThread {
    const requestQueue: MessageQueue<Request>
    const doneQueue: MessageQueue<Response>
    const fs: FileSystem
    /** The configured disk cache path, read from the configuration singleton in the source. */
    const diskCachePath: string

    constructor (requestQueue: MessageQueue<Request>, doneQueue: MessageQueue<Response>, fs: FileSystem, diskCachePath: string)
      ensures this.requestQueue == requestQueue && this.doneQueue == doneQueue
      ensures this.fs == fs && this.diskCachePath == diskCachePath
    {
      this.requestQueue := requestQueue;
      this.doneQueue := doneQueue;
      this.fs := fs;
      this.diskCachePath := diskCachePath;
    }

    /** evictFromDiskCache: the response for one request, with the short-circuit delete applied to the files. */
    method EvictFromDiskCache(request: Request) returns (response: Response)
      modifies fs
      ensures (response, fs.files) == EvictStep(diskCachePath, old(fs.files), request)
    {
      var k := request.tileKey;
      var noError := fs.Remove(OverlayFile(diskCachePath, k));
      if noError {
        noError := fs.Remove(HeightmapFile(diskCachePath, k));
      } else {
        assert fs.files == old(fs.files);
      }
      response := Response(if noError then UnloadOk else UnloadError, k);
    }

    /** processAllRequests: drain the request queue and push one response per request, in order. */
    method ProcessAllRequests()
      modifies requestQueue, doneQueue, fs
      ensures requestQueue.queue == []
      ensures doneQueue.queue == old(doneQueue.queue) + Batch(diskCachePath, old(fs.files), old(requestQueue.queue)).0
      ensures fs.files == Batch(diskCachePath, old(fs.files), old(requestQueue.queue)).1
    {
      var requests := requestQueue.PopAll();
      ghost var files0 := fs.files;
      var i := 0;
      while i < |requests|
        invariant 0 <= i <= |requests|
        invariant requestQueue.queue == []
        invariant doneQueue.queue == old(doneQueue.queue) + Batch(diskCachePath, files0, requests[..i]).0
        invariant fs.files == Batch(diskCachePath, files0, requests[..i]).1
      {
        var response := EvictFromDiskCache(requests[i]);
        doneQueue.Push(response);
        assert requests[..i + 1][..i] == requests[..i];
        i := i + 1;
      }
      assert requests[..i] == requests;
    }
  }
}
