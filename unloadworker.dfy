/**
 * The older copy of the disk-eviction worker. It deletes the same two
 * files per tile, but under the hard-coded directories "overlay/" and
 * "dem/", and it also collects its responses in a local list.
 */
module UnloadWorker {
  import opened TileKeys
  import opened Files
  import opened Queues

  datatype UnloadRequestType = UnloadRequest | UnloadStopThread

  datatype Request = Request(tileKey: TileKey, kind: UnloadRequestType)

  datatype UnloadResponseType = UnloadOk | UnloadError

  datatype Response = Response(kind: UnloadResponseType, tileKey: TileKey)

  function OverlayName(path: string, k: TileKey): string
  {
    FileIn(path, "overlay/", k, ".jpg")
  }

  function DemName(path: string, k: TileKey): string
  {
    FileIn(path, "dem/", k, ".webp")
  }

  /** The response to one request and the files left behind. */
  function EvictStep(path: string, files: set<string>, request: Request): (r: (Response, set<string>))
    ensures r.0.tileKey == request.tileKey
    ensures r.0.kind == UnloadOk <==> OverlayName(path, request.tileKey) in files && DemName(path, request.tileKey) in files
    ensures r.1 <= files
    ensures OverlayName(path, request.tileKey) !in files ==> r.1 == files
    ensures r.0.kind == UnloadOk ==> r.1 == files - {OverlayName(path, request.tileKey), DemName(path, request.tileKey)}
  {
    var k := request.tileKey;
    var removal := ShortCircuitRemove(files, OverlayName(path, k), DemName(path, k));
    (Response(if removal.0 then UnloadOk else UnloadError, k), removal.1)
  }

  /** The responses to a batch, in order, and the files left behind. */
  function Batch(path: string, files: set<string>, requests: seq<Request>): (r: (seq<Response>, set<string>))
    ensures |r.0| == |requests|
    decreases |requests|
  {
    if requests == [] then ([], files)
    else
      var before := Batch(path, files, requests[..|requests| - 1]);
      var step := EvictStep(path, before.1, requests[|requests| - 1]);
      (before.0 + [step.0], step.1)
  }

  /** One response per request, keyed and ordered like the batch; files only ever disappear. */
  lemma {:induction false} BatchAnswersEach(path: string, files: set<string>, requests: seq<Request>)
    ensures forall i :: 0 <= i < |requests| ==> Batch(path, files, requests).0[i].tileKey == requests[i].tileKey
    ensures Batch(path, files, requests).1 <= files
    decreases |requests|
  {
    if requests != [] {
      BatchAnswersEach(path, files, requests[..|requests| - 1]);
    }
  }

  /** The two directories differ from their first letter, so a tile's two files are distinct. */
  lemma {:induction false} NamesApart(path: string, a: TileKey, b: TileKey)
    ensures OverlayName(path, a) != DemName(path, b)
  {
    DirsApart(path, "overlay/", a, ".jpg", "dem/", b, ".webp");
  }

  class UnloadWorkerThread {
    const requestQueue: MessageQueue<Request>
    const doneQueue: MessageQueue<Response>
    const fs: FileSystem
    const diskCachePath: string

    constructor (requestQueue: MessageQueue<Request>, doneQueue: MessageQueue<Response>, fs: FileSystem, diskCachePath: string)
      ensures this.requestQueue == requestQueue && this.doneQueue == doneQueue
      ensures this.fs == fs && this.diskCachePath == diskCachePath
    {
      this.requestQueue := requestQueue;
      this.doneQueue := doneQueue;
      this.fs := fs;
      this.diskCachePath := diskCachePath;
    }

    /** evictFromDiskCache: overlay first, the heightmap only if the overlay existed. */
    method EvictFromDiskCache(request: Request) returns (response: Response)
      modifies fs
      ensures (response, fs.files) == EvictStep(diskCachePath, old(fs.files), request)
    {
      var k := request.tileKey;
      var noError := fs.Remove(OverlayName(diskCachePath, k));
      if noError {
        noError := fs.Remove(DemName(diskCachePath, k));
      } else {
        assert fs.files == old(fs.files);
      }
      response := Response(if noError then UnloadOk else UnloadError, k);
    }

    /**
     * processAllRequests: drain the queue and answer each request in order;
     * the local response list ends equal to what was pushed.
     */
    method ProcessAllRequests() returns (responses: seq<Response>)
      modifies requestQueue, doneQueue, fs
      ensures requestQueue.queue == []
      ensures responses == Batch(diskCachePath, old(fs.files), old(requestQueue.queue)).0
      ensures doneQueue.queue == old(doneQueue.queue) + responses
      ensures fs.files == Batch(diskCachePath, old(fs.files), old(requestQueue.queue)).1
    {
      var requests := requestQueue.PopAll();
      ghost var files0 := fs.files;
      responses := [];
      var i := 0;
      while i < |requests|
        invariant 0 <= i <= |requests|
        invariant requestQueue.queue == []
        invariant responses == Batch(diskCachePath, files0, requests[..i]).0
        invariant doneQueue.queue == old(doneQueue.queue) + responses
        invariant fs.files == Batch(diskCachePath, files0, requests[..i]).1
      {
        var response := EvictFromDiskCache(requests[i]);
        responses := responses + [response];
        doneQueue.Push(response);
        assert requests[..i + 1][..i] == requests[..i];
        i := i + 1;
      }
      assert requests[..i] == requests;
    }
  }
}
