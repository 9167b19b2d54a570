/**
 * The load worker: it drains its request queue and, for each request,
 * fetches the heightmap and then the overlay, from the disk cache or from
 * the web services, and answers on its done queue. Network, disk and
 * image decoders are oracles: each request comes with the outcomes they
 * would report.
 */
module LoadWorker {
  import opened Wrappers
  import opened TileKeys
  import opened Files
  import opened Queues
  import opened Nodes

  datatype LoadResponseType = LoadOk | LoadError | LoadUnloadable | LoadTimeout | LoadStoppedThread

  datatype Origin = OriginDiskCache | OriginApi

  datatype LoadRequestType = LoadRequest | LoadRequestDiskCache | LoadStopThread

  datatype Request = Request(tileKey: TileKey, kind: LoadRequestType, offlineMode: bool)

  /** A response: the decoded heightmap if one was obtained, and for an OK one the new node. */
  datatype Response = Response(kind: LoadResponseType, tileKey: TileKey, origin: Origin, heightData: Option<Raster>, node: Option<TerrainNode>)

  /** Status codes of section 15.3.1 (200 OK) and section 15.3.5 (204 No Content) of RFC 9110. */
  const HTTP_OK: int := 200
  const HTTP_NO_CONTENT: int := 204

  /** What curl_easy_perform reports: a timeout, another transport failure, or a completed exchange. */
  datatype Transport = TimedOut | TransportFailed | Completed(status: int)

  /** What reading and decoding the cached heightmap file gives. */
  datatype DiskHeightmap = OpenFailed | ReadFailed | InfoFailed | DecodeFailed | DiskDecoded(raster: Raster)

  /** The outcomes the outside world would report for one request. */
  datatype Sources = Sources(
    diskHeightmap: DiskHeightmap,
    diskOverlayLoads: bool,
    heightTransport: Transport,
    heightDecoded: Option<Raster>,
    heightWritable: bool,
    overlayTransport: Transport,
    overlayDecodes: bool,
    overlayWritable: bool)

  /** A load step either ends the process (std::exit) or sets the response type, possibly with a raster. */
  datatype Outcome = Exit | Loaded(kind: LoadResponseType, raster: Option<Raster>)

  /** loadHeightmapFromDisk: every failure makes the tile unloadable. */
  function HeightmapFromDisk(d: DiskHeightmap): (o: Outcome)
    ensures o.Loaded?
    ensures o.kind == LoadOk <==> d.DiskDecoded?
    ensures o.kind != LoadOk ==> o.kind == LoadUnloadable && o.raster == None
    ensures d.DiskDecoded? ==> o.raster == Some(d.raster)
  {
    match d
    case DiskDecoded(r) => Loaded(LoadOk, Some(r))
    case _ => Loaded(LoadUnloadable, None)
  }

  /** loadOverlayFromDisk: a cached overlay that does not load ends the process. */
  function OverlayFromDisk(loads: bool): (o: Outcome)
    ensures o.Exit? <==> !loads
    ensures o.Loaded? ==> o.kind == LoadOk
  {
    if loads then Loaded(LoadOk, None) else Exit
  }

  /**
   * loadHeightmapFromApi: timeout, transport error and 204 are reported;
   * any other status but 200, a decode failure or an unwritable cache file
   * ends the process; otherwise the raster is returned.
   */
  function HeightmapFromApi(curlReady: bool, t: Transport, decoded: Option<Raster>, writable: bool): (o: Outcome)
    ensures o.Loaded? && o.kind == LoadOk <==> curlReady && t == Completed(HTTP_OK) && decoded.Some? && writable
    ensures o.Loaded? && o.kind == LoadOk ==> o.raster == decoded
    ensures o.Exit? <==> !curlReady || (t.Completed? && t.status != HTTP_NO_CONTENT && (t.status != HTTP_OK || decoded.None? || !writable))
  {
    if !curlReady then Exit
    else match t
      case TimedOut => Loaded(LoadTimeout, None)
      case TransportFailed => Loaded(LoadError, None)
      case Completed(status) =>
        if status == HTTP_NO_CONTENT then Loaded(LoadUnloadable, None)
        else if status != HTTP_OK then Exit
        else if decoded.None? then Exit
        else if !writable then Exit
        else Loaded(LoadOk, decoded)
  }

  /**
   * loadOverlayFromApi: as for heightmaps, except that any status other
   * than 200 and 204 is a network error rather than the end of the process.
   */
  function OverlayFromApi(curlReady: bool, t: Transport, decodes: bool, writable: bool): (o: Outcome)
    ensures o.Loaded? && o.kind == LoadOk <==> curlReady && t == Completed(HTTP_OK) && decodes && writable
    ensures o.Exit? <==> !curlReady || (t == Completed(HTTP_OK) && (!decodes || !writable))
    ensures o.Loaded? ==> o.raster == None
  {
    if !curlReady then Exit
    else match t
      case TimedOut => Loaded(LoadTimeout, None)
      case TransportFailed => Loaded(LoadError, None)
      case Completed(status) =>
        if status == HTTP_NO_CONTENT then Loaded(LoadUnloadable, None)
        else if status != HTTP_OK then Loaded(LoadError, None)
        else if !decodes then Exit
        else if !writable then Exit
        else Loaded(LoadOk, None)
  }

  /** The two web tables give the same response type except for statuses other than 200 and 204. */
  lemma {:induction false} ApiTablesAgree(curlReady: bool, t: Transport, decoded: Option<Raster>, writable: bool)
    requires t.Completed? ==> t.status == HTTP_OK || t.status == HTTP_NO_CONTENT
    ensures HeightmapFromApi(curlReady, t, decoded, writable).Exit? <==> OverlayFromApi(curlReady, t, decoded.Some?, writable).Exit?
    ensures HeightmapFromApi(curlReady, t, decoded, writable).Loaded? ==>
      HeightmapFromApi(curlReady, t, decoded, writable).kind == OverlayFromApi(curlReady, t, decoded.Some?, writable).kind
  {
  }

  /** With any other status the heightmap request ends the process and the overlay request reports LOAD_ERROR. */
  lemma {:induction false} ApiTablesDiffer(t: Transport, decoded: Option<Raster>, writable: bool)
    requires t.Completed? && t.status != HTTP_OK && t.status != HTTP_NO_CONTENT
    ensures HeightmapFromApi(true, t, decoded, writable) == Exit
    ensures OverlayFromApi(true, t, decoded.Some?, writable) == Loaded(LoadError, None)
  {
  }

  /** Where a fetch goes: the disk for disk-cache requests, else the web unless offline, else nowhere. */
  datatype Route = FromDisk | FromApi | Offline

  function RouteOf(r: Request): (route: Route)
    ensures route == FromDisk <==> r.kind == LoadRequestDiskCache
    ensures route == Offline <==> r.kind != LoadRequestDiskCache && r.offlineMode
  {
    if r.kind == LoadRequestDiskCache then FromDisk else if !r.offlineMode then FromApi else Offline
  }

  /** fetchHeightmap: the outcome and the origin; offline requests stay marked as from the disk cache. */
  function HeightmapFetch(curlReady: bool, r: Request, s: Sources): (Outcome, Origin)
  {
    match RouteOf(r)
    case FromDisk => (HeightmapFromDisk(s.diskHeightmap), OriginDiskCache)
    case FromApi => (HeightmapFromApi(curlReady, s.heightTransport, s.heightDecoded, s.heightWritable), OriginApi)
    case Offline => (Loaded(LoadUnloadable, None), OriginDiskCache)
  }

  /** fetchOverlay, selected the same way. */
  function OverlayFetch(curlReady: bool, r: Request, s: Sources): (Outcome, Origin)
  {
    match RouteOf(r)
    case FromDisk => (OverlayFromDisk(s.diskOverlayLoads), OriginDiskCache)
    case FromApi => (OverlayFromApi(curlReady, s.overlayTransport, s.overlayDecodes, s.overlayWritable), OriginApi)
    case Offline => (Loaded(LoadUnloadable, None), OriginDiskCache)
  }

  /** The files a fetch from the web writes into the cache. */
  function HeightmapWrites(path: string, curlReady: bool, r: Request, s: Sources): set<string>
  {
    var o := HeightmapFetch(curlReady, r, s).0;
    if RouteOf(r) == FromApi && o.Loaded? && o.kind == LoadOk then {HeightmapFile(path, r.tileKey)} else {}
  }

  function OverlayWrites(path: string, curlReady: bool, r: Request, s: Sources): set<string>
  {
    var o := OverlayFetch(curlReady, r, s).0;
    if RouteOf(r) == FromApi && o.Loaded? && o.kind == LoadOk then {OverlayFile(path, r.tileKey)} else {}
  }

  /** One request's answer without its node: the type, the origin and the raster the node gets. */
  datatype Answer = Answer(kind: LoadResponseType, tileKey: TileKey, origin: Origin, raster: Option<Raster>)

  /** The batch so far: answers given, cache files written, the fast-fail flag, and whether the process ended. */
  datatype Progress = Progress(answers: seq<Answer>, files: set<string>, failing: bool, exited: bool)

  /** One iteration of processAllRequests' loop. */
  function Step(path: string, curlReady: bool, p: Progress, r: Request, s: Sources): (q: Progress)
    requires !p.exited
  {
    if p.failing then Progress(p.answers + [Answer(LoadError, r.tileKey, OriginDiskCache, None)], p.files, true, false)
    else
      var (h, hOrigin) := HeightmapFetch(curlReady, r, s);
      if h.Exit? then Progress(p.answers, p.files, p.failing, true)
      else
        var files := p.files + HeightmapWrites(path, curlReady, r, s);
        if h.kind != LoadOk then Progress(p.answers + [Answer(h.kind, r.tileKey, hOrigin, h.raster)], files, h.kind == LoadError, false)
        else
          var (ov, oOrigin) := OverlayFetch(curlReady, r, s);
          if ov.Exit? then Progress(p.answers, files, p.failing, true)
          else
            var files' := files + OverlayWrites(path, curlReady, r, s);
            Progress(p.answers + [Answer(ov.kind, r.tileKey, oOrigin, h.raster)], files', ov.kind == LoadError, false)
  }

  /** The loop over a batch, with one oracle record per request; it stops where the process would end. */
  function Run(path: string, curlReady: bool, start: Progress, requests: seq<Request>, sources: seq<Sources>): (p: Progress)
    requires |requests| == |sources|
    decreases |requests|
  {
    if requests == [] then start
    else
      var before := Run(path, curlReady, start, requests[..|requests| - 1], sources[..|sources| - 1]);
      if before.exited then before else Step(path, curlReady, before, requests[|requests| - 1], sources[|sources| - 1])
  }

  /** Whether a batch holds a LOAD_STOP_THREAD request. */
  function StopRequested(rs: seq<Request>): bool
    decreases |rs|
  {
    rs != [] && (StopRequested(rs[..|rs| - 1]) || rs[|rs| - 1].kind == LoadStopThread)
  }

  /** One more request of the batch looked at. */
  lemma {:induction false} StopRequestedSnoc(rs: seq<Request>, i: nat, j: nat)
    requires i < |rs| && j == i + 1
    ensures StopRequested(rs[..j]) == (StopRequested(rs[..i]) || rs[i].kind == LoadStopThread)
  {
    assert rs[..j][..i] == rs[..i];
  }

  /** StopRequested holds exactly when some request of the batch asks the thread to stop. */
  lemma {:induction false} StopRequestedIff(rs: seq<Request>)
    ensures StopRequested(rs) <==> exists k :: 0 <= k < |rs| && rs[k].kind == LoadStopThread
    decreases |rs|
  {
    if rs != [] {
      var init := rs[..|rs| - 1];
      StopRequestedIff(init);
      if StopRequested(init) {
        var k :| 0 <= k < |init| && init[k].kind == LoadStopThread;
        assert rs[k] == init[k];
      }
      if exists k :: 0 <= k < |rs| && rs[k].kind == LoadStopThread {
        var k :| 0 <= k < |rs| && rs[k].kind == LoadStopThread;
        if k < |init| {
          assert init[k] == rs[k];
        }
      }
    }
  }

  /** One more request that the run has not stopped before takes one more Step. */
  lemma {:induction false} RunSnoc(path: string, curlReady: bool, start: Progress, requests: seq<Request>, sources: seq<Sources>, i: nat, j: nat)
    requires |requests| == |sources| && i < |requests| && j == i + 1
    requires !Run(path, curlReady, start, requests[..i], sources[..i]).exited
    ensures Run(path, curlReady, start, requests[..j], sources[..j])
      == Step(path, curlReady, Run(path, curlReady, start, requests[..i], sources[..i]), requests[i], sources[i])
  {
    assert requests[..j][..i] == requests[..i] && sources[..j][..i] == sources[..i];
  }

  /** Once the process has ended, the later requests change nothing. */
  lemma {:induction false} RunStopsAtExit(path: string, curlReady: bool, start: Progress, requests: seq<Request>, sources: seq<Sources>, n: nat)
    requires |requests| == |sources| && n <= |requests|
    requires Run(path, curlReady, start, requests[..n], sources[..n]).exited
    ensures Run(path, curlReady, start, requests, sources) == Run(path, curlReady, start, requests[..n], sources[..n])
    decreases |requests| - n
  {
    if n == |requests| {
      assert requests[..n] == requests && sources[..n] == sources;
    } else {
      assert requests[..n + 1][..n] == requests[..n] && sources[..n + 1][..n] == sources[..n];
      RunStopsAtExit(path, curlReady, start, requests, sources, n + 1);
    }
  }

  /** A fresh batch: no answers, the flag clear. */
  function Batch(path: string, files: set<string>, curlReady: bool, requests: seq<Request>, sources: seq<Sources>): Progress
    requires |requests| == |sources|
  {
    Run(path, curlReady, Progress([], files, false, false), requests, sources)
  }

  /** A step answers at most once, with the request's key, and only when the process goes on. */
  lemma {:induction false} StepAnswersOnce(path: string, curlReady: bool, p: Progress, r: Request, s: Sources)
    requires !p.exited
    ensures Step(path, curlReady, p, r, s).exited ==> Step(path, curlReady, p, r, s).answers == p.answers
    ensures !Step(path, curlReady, p, r, s).exited ==>
      Step(path, curlReady, p, r, s).answers == p.answers + [Step(path, curlReady, p, r, s).answers[|p.answers|]]
      && Step(path, curlReady, p, r, s).answers[|p.answers|].tileKey == r.tileKey
  {
  }

  /**
   * Unless the process ends, each request gets exactly one answer, with its
   * key and in batch order; if it ends, the requests before it were answered.
   */
  lemma {:induction false} OneAnswerPerRequest(path: string, files: set<string>, curlReady: bool, requests: seq<Request>, sources: seq<Sources>)
    requires |requests| == |sources|
    ensures |Batch(path, files, curlReady, requests, sources).answers| <= |requests|
    ensures !Batch(path, files, curlReady, requests, sources).exited ==> |Batch(path, files, curlReady, requests, sources).answers| == |requests|
    ensures forall i :: 0 <= i < |Batch(path, files, curlReady, requests, sources).answers| ==>
      Batch(path, files, curlReady, requests, sources).answers[i].tileKey == requests[i].tileKey
    decreases |requests|
  {
    if requests != [] {
      var n := |requests| - 1;
      OneAnswerPerRequest(path, files, curlReady, requests[..n], sources[..n]);
      var before := Batch(path, files, curlReady, requests[..n], sources[..n]);
      if !before.exited {
        StepAnswersOnce(path, curlReady, before, requests[n], sources[n]);
      }
    }
  }

  /** Once a request of the batch got LOAD_ERROR the flag is set and every later answer is LOAD_ERROR with no fetch. */
  lemma {:induction false} FailingStaysFailing(path: string, curlReady: bool, p: Progress, r: Request, s: Sources)
    requires !p.exited && p.failing
    ensures Step(path, curlReady, p, r, s) == Progress(p.answers + [Answer(LoadError, r.tileKey, OriginDiskCache, None)], p.files, true, false)
  {
  }

  /** The flag is set exactly after an answer of LOAD_ERROR (it starts clear in each batch). */
  lemma {:induction false} FailingMeansError(path: string, curlReady: bool, p: Progress, r: Request, s: Sources)
    requires !p.exited
    requires p.failing <==> p.answers != [] && p.answers[|p.answers| - 1].kind == LoadError
    ensures var q := Step(path, curlReady, p, r, s);
      !q.exited ==> (q.failing <==> q.answers[|q.answers| - 1].kind == LoadError)
  {
  }

  /** The overlay is fetched only after the heightmap fetch returned LOAD_OK. */
  lemma {:induction false} OverlayOnlyAfterHeightmap(path: string, curlReady: bool, p: Progress, r: Request, s: Sources)
    requires !p.exited && !p.failing
    requires !(HeightmapFetch(curlReady, r, s).0.Loaded? && HeightmapFetch(curlReady, r, s).0.kind == LoadOk)
    ensures Step(path, curlReady, p, r, s).files == p.files
    ensures var q := Step(path, curlReady, p, r, s);
      !q.exited ==> q.answers[|q.answers| - 1].kind == HeightmapFetch(curlReady, r, s).0.kind
  {
  }

  /** Offline requests for tiles not in the disk cache do no I/O and are unloadable. */
  lemma {:induction false} OfflineIsUnloadable(path: string, curlReady: bool, p: Progress, r: Request, s: Sources)
    requires !p.exited && !p.failing
    requires r.kind != LoadRequestDiskCache && r.offlineMode
    ensures Step(path, curlReady, p, r, s) == Progress(p.answers + [Answer(LoadUnloadable, r.tileKey, OriginDiskCache, None)], p.files, false, false)
  {
  }

  /** An answer of LOAD_OK carries a raster: the heightmap the node will own. */
  lemma {:induction false} OkCarriesRaster(path: string, curlReady: bool, p: Progress, r: Request, s: Sources)
    requires !p.exited
    ensures var q := Step(path, curlReady, p, r, s);
      !q.exited && !p.failing && q.answers[|q.answers| - 1].kind == LoadOk ==> q.answers[|q.answers| - 1].raster.Some?
  {
    var (h, _) := HeightmapFetch(curlReady, r, s);
    if h.Loaded? && h.kind == LoadOk {
      match RouteOf(r)
      case FromDisk =>
      case FromApi =>
      case Offline =>
    }
  }

  /** The answers a run of responses stands for, one each, in order. */
  function AnswersOf(rs: seq<Response>): (r: seq<Answer>)
    ensures |r| == |rs|
    decreases |rs|
  {
    if rs == [] then [] else AnswersOf(rs[..|rs| - 1]) + [AnswerOf(rs[|rs| - 1])]
  }

  /** The responses from position start on stand, in order, for the given answers. */
  predicate Stands(q: seq<Response>, start: nat, answers: seq<Answer>)
  {
    start <= |q| && AnswersOf(q[start..]) == answers
  }

  /** Pushing one more response extends what the queue stands for by one answer and keeps its prefix. */
  lemma {:induction false} StandsSnoc(q: seq<Response>, start: nat, answers: seq<Answer>, r: Response)
    requires Stands(q, start, answers)
    ensures Stands(q + [r], start, answers + [AnswerOf(r)])
    ensures (q + [r])[..start] == q[..start]
  {
    assert (q + [r])[start..][..|q| - start] == q[start..];
  }

  /** Every answer of a run is the answer of the response at the same place. */
  lemma {:induction false} StandsAt(q: seq<Response>, start: nat, answers: seq<Answer>, k: nat)
    requires Stands(q, start, answers) && k < |answers|
    ensures AnswerOf(q[start + k]) == answers[k]
  {
    AnswersOfAt(q[start..], k);
  }

  lemma {:induction false} AnswersOfAt(rs: seq<Response>, k: nat)
    requires k < |rs|
    ensures AnswersOf(rs)[k] == AnswerOf(rs[k])
    decreases |rs|
  {
    if k < |rs| - 1 {
      AnswersOfAt(rs[..|rs| - 1], k);
    }
  }

  /** The response a stored answer stands for, given its node. */
  function AnswerOf(r: Response): Answer
  {
    Answer(r.kind, r.tileKey, r.origin, r.heightData)
  }

  /** Every height code of the raster lies between lo and hi. */
  predicate HeightsWithin(h: Raster, lo: int, hi: int)
  {
    forall x: U32, y: U32 :: x < RASTER_SIDE && y < RASTER_SIDE ==> lo <= CodeAt(h, x, y) <= hi
  }

  /** Exactly the OK responses carry a node; every other response keeps a null one. */
  predicate NodesAsBuilt(rs: seq<Response>)
  {
    forall i :: 0 <= i < |rs| ==> (rs[i].node.Some? <==> rs[i].kind == LoadOk)
  }

  /**
   * A response as the worker pushes it: a node exactly when it is OK, and
   * then one made during the call, for the response's tile, holding the
   * response's raster, and prepared.
   */
  twostate predicate Delivered(new resp: Response, r: real, project: Sample -> Vec)
    reads if resp.node.Some? then {resp.node.value} else {}
  {
    && (resp.node.Some? <==> resp.kind == LoadOk)
    && match resp.node
       case None => true
       case Some(n) =>
         && fresh(n)
         && n.tileKey == resp.tileKey
         && resp.heightData == Some(n.heightData)
         && Prepared(n, r, project)
  }

  /**
   * Nodes handed over with OK responses: the height range is the lowest
   * and highest code of the raster, the box is folded from it, and the
   * samples are at the pixels the program reads.
   */
  predicate Prepared(n: TerrainNode, r: real, project: Sample -> Vec)
    reads n
  {
    && n.minCode <= n.maxCode
    && HeightsWithin(n.heightData, n.minCode, n.maxCode)
    && (exists x: U32, y: U32 :: x < RASTER_SIDE && y < RASTER_SIDE && n.minCode == CodeAt(n.heightData, x, y))
    && (exists x: U32, y: U32 :: x < RASTER_SIDE && y < RASTER_SIDE && n.maxCode == CodeAt(n.heightData, x, y))
    && n.aabb == AabbFor(n.tileKey, r, Corners(project, n.minCode, n.maxCode))
    && n.projectedGridPoints == GridSamples(n.heightData)
    && n.horizonCullingPoints == HorizonSamples(n.maxCode)
  }

  class LoadWorkerThread {
    const requestQueue: MessageQueue<Request>
    const doneQueue: MessageQueue<Response>
    const fs: FileSystem
    const diskCachePath: string
    /** Whether the curl handle was created. */
    const curlReady: bool
    /** The globe radius and the projection onto the globe, which this model leaves abstract. */
    const radius: real
    const project: Sample -> Vec
    var stopThread: bool

    constructor (requestQueue: MessageQueue<Request>, doneQueue: MessageQueue<Response>, fs: FileSystem,
                 diskCachePath: string, curlReady: bool, radius: real, project: Sample -> Vec)
      requires GlobeRadius(radius)
      ensures this.requestQueue == requestQueue && this.doneQueue == doneQueue && this.fs == fs
      ensures this.diskCachePath == diskCachePath && this.curlReady == curlReady
      ensures this.radius == radius && this.project == project && !stopThread
      ensures Valid()
    {
      this.requestQueue := requestQueue;
      this.doneQueue := doneQueue;
      this.fs := fs;
      this.diskCachePath := diskCachePath;
      this.curlReady := curlReady;
      this.radius := radius;
      this.project := project;
      stopThread := false;
    }

    ghost predicate Valid()
    {
      GlobeRadius(radius)
    }

    /** A new node for an OK answer, with its heights, AABB and sample points generated in the source's order. */
    method NewNode(tileKey: TileKey, raster: Raster) returns (n: TerrainNode)
      requires Valid()
      ensures fresh(n)
      ensures n.tileKey == tileKey && n.heightData == raster
      ensures Prepared(n, radius, project)
    {
      n := new TerrainNode(tileKey, raster);
      n.GenerateMinMaxHeight();
      RawCodeDigits(GetHeight(n.heightData, 0, 0));
      MinMaxAfterScan(n.heightData, n.minCode, n.maxCode, 1.0);
      n.GenerateAabb(radius, project);
      n.GenerateProjectedGridPoints();
      n.GenerateHorizonPoints();
    }

    /** loadHeightmapFromApi: the table's outcome; on success the raw image is written to the cache. */
    method LoadHeightmapFromApi(request: Request, src: Sources) returns (o: Outcome)
      modifies fs
      ensures o == HeightmapFromApi(curlReady, src.heightTransport, src.heightDecoded, src.heightWritable)
      ensures fs.files == old(fs.files) + (if o.Loaded? && o.kind == LoadOk then {HeightmapFile(diskCachePath, request.tileKey)} else {})
    {
      o := HeightmapFromApi(curlReady, src.heightTransport, src.heightDecoded, src.heightWritable);
      if o.Loaded? && o.kind == LoadOk {
        fs.Write(HeightmapFile(diskCachePath, request.tileKey));
      }
    }

    /** loadOverlayFromApi: the table's outcome; on success the image is written to the cache. */
    method LoadOverlayFromApi(request: Request, src: Sources) returns (o: Outcome)
      modifies fs
      ensures o == OverlayFromApi(curlReady, src.overlayTransport, src.overlayDecodes, src.overlayWritable)
      ensures fs.files == old(fs.files) + (if o.Loaded? && o.kind == LoadOk then {OverlayFile(diskCachePath, request.tileKey)} else {})
    {
      o := OverlayFromApi(curlReady, src.overlayTransport, src.overlayDecodes, src.overlayWritable);
      if o.Loaded? && o.kind == LoadOk {
        fs.Write(OverlayFile(diskCachePath, request.tileKey));
      }
    }

    /** fetchHeightmap: choose the source and record the origin. */
    method FetchHeightmap(request: Request, src: Sources) returns (o: Outcome, origin: Origin)
      modifies fs
      ensures (o, origin) == HeightmapFetch(curlReady, request, src)
      ensures fs.files == old(fs.files) + HeightmapWrites(diskCachePath, curlReady, request, src)
    {
      if request.kind == LoadRequestDiskCache {
        o := HeightmapFromDisk(src.diskHeightmap);
        origin := OriginDiskCache;
      } else if !request.offlineMode {
        o := LoadHeightmapFromApi(request, src);
        origin := OriginApi;
      } else {
        o := Loaded(LoadUnloadable, None);
        origin := OriginDiskCache;
      }
    }

    /** fetchOverlay: the same choice for the overlay. */
    method FetchOverlay(request: Request, src: Sources) returns (o: Outcome, origin: Origin)
      modifies fs
      ensures (o, origin) == OverlayFetch(curlReady, request, src)
      ensures fs.files == old(fs.files) + OverlayWrites(diskCachePath, curlReady, request, src)
    {
      if request.kind == LoadRequestDiskCache {
        o := OverlayFromDisk(src.diskOverlayLoads);
        origin := OriginDiskCache;
      } else if !request.offlineMode {
        o := LoadOverlayFromApi(request, src);
        origin := OriginApi;
      } else {
        o := Loaded(LoadUnloadable, None);
        origin := OriginDiskCache;
      }
    }

    /**
     * One iteration of processAllRequests' loop: it pushes the answer Step
     * gives, unless the process ends; an OK response carries a new,
     * prepared node for the request's key holding the fetched raster, and
     * every other response a null node.
     */
    method HandleRequest(request: Request, src: Sources, failing: bool, ghost p: Progress) returns (failingNext: bool, exited: bool, ghost pushed: Response)
      requires Valid()
      requires !p.exited && p.failing == failing && fs.files == p.files
      modifies this, doneQueue, fs
      ensures var q := Step(diskCachePath, curlReady, p, request, src);
        && exited == q.exited
        && fs.files == q.files
        && failingNext == q.failing
        && (exited ==> doneQueue.queue == old(doneQueue.queue) && q.answers == p.answers)
        && (!exited ==>
              && doneQueue.queue == old(doneQueue.queue) + [pushed]
              && q.answers == p.answers + [AnswerOf(pushed)]
              && Delivered(pushed, radius, project))
      ensures stopThread <==> old(stopThread) || request.kind == LoadStopThread
    {
      if request.kind == LoadStopThread {
        stopThread := true;
      }
      failingNext := failing;
      exited := false;
      pushed := Response(LoadError, request.tileKey, OriginDiskCache, None, None);
      if failing {
        var resp := Response(LoadError, request.tileKey, OriginDiskCache, None, None);
        pushed := resp;
        doneQueue.Push(resp);
        return;
      }
      var h, hOrigin := FetchHeightmap(request, src);
      if h.Exit? {
        exited := true;
        return;
      }
      if h.kind != LoadOk {
        if h.kind == LoadError {
          failingNext := true;
        }
        var resp := Response(h.kind, request.tileKey, hOrigin, h.raster, None);
        pushed := resp;
        doneQueue.Push(resp);
        return;
      }
      var ov, oOrigin := FetchOverlay(request, src);
      if ov.Exit? {
        exited := true;
        return;
      }
      if ov.kind != LoadOk {
        if ov.kind == LoadError {
          failingNext := true;
        }
        var resp := Response(ov.kind, request.tileKey, oOrigin, h.raster, None);
        pushed := resp;
        doneQueue.Push(resp);
        return;
      }
      OkCarriesRaster(diskCachePath, curlReady, p, request, src);
      var node := NewNode(request.tileKey, h.raster.value);
      var resp := Response(LoadOk, request.tileKey, oOrigin, h.raster, Some(node));
      pushed := resp;
      doneQueue.Push(resp);
    }

    /**
     * processAllRequests, given the oracle outcomes for each request of the
     * batch: the answers of Batch are pushed in order, each OK one with a
     * new prepared node for its tile and raster and every other one with a
     * null node; unless the process ended, a set stop flag adds a trailing
     * LOAD_STOPPED_THREAD for the root key.
     */
    method ProcessAllRequests(sources: seq<Sources>) returns (exited: bool)
      requires Valid()
      requires |sources| == |requestQueue.queue|
      modifies this, requestQueue, doneQueue, fs
      ensures requestQueue.queue == []
      ensures var b := Batch(diskCachePath, old(fs.files), curlReady, old(requestQueue.queue), sources);
        && exited == b.exited
        && fs.files == b.files
        && |doneQueue.queue| >= |old(doneQueue.queue)| + |b.answers|
        && doneQueue.queue[..|old(doneQueue.queue)|] == old(doneQueue.queue)
        && (forall k :: 0 <= k < |b.answers| ==> AnswerOf(doneQueue.queue[|old(doneQueue.queue)| + k]) == b.answers[k])
      ensures forall k :: |old(doneQueue.queue)| <= k < |doneQueue.queue| ==> Delivered(doneQueue.queue[k], radius, project)
      ensures !exited ==> (stopThread <==> old(stopThread) || exists k :: 0 <= k < |old(requestQueue.queue)| && old(requestQueue.queue)[k].kind == LoadStopThread)
      ensures !exited ==> |doneQueue.queue| == |old(doneQueue.queue)| + |old(requestQueue.queue)| + (if stopThread then 1 else 0)
      ensures !exited && stopThread ==> doneQueue.queue[|doneQueue.queue| - 1] == Response(LoadStoppedThread, Root(), OriginDiskCache, None, None)
      ensures NodesAsBuilt(doneQueue.queue[|old(doneQueue.queue)|..])
    {
      var requests := requestQueue.PopAll();
      OneAnswerPerRequest(diskCachePath, fs.files, curlReady, requests, sources);
      exited := RunBatch(requests, sources);
      StopRequestedIff(requests);
      ghost var b := Batch(diskCachePath, old(fs.files), curlReady, requests, sources);
      forall k | 0 <= k < |b.answers|
        ensures AnswerOf(doneQueue.queue[|old(doneQueue.queue)| + k]) == b.answers[k]
      {
        StandsAt(doneQueue.queue, |old(doneQueue.queue)|, b.answers, k);
      }
      if !exited && stopThread {
        doneQueue.Push(Response(LoadStoppedThread, Root(), OriginDiskCache, None, None));
      }
      ghost var out := doneQueue.queue[|old(doneQueue.queue)|..];
      forall i | 0 <= i < |out|
        ensures out[i].node.Some? <==> out[i].kind == LoadOk
      {
        assert out[i] == doneQueue.queue[|old(doneQueue.queue)| + i];
      }
    }

    /** The loop of processAllRequests over the popped batch. */
    method RunBatch(requests: seq<Request>, sources: seq<Sources>) returns (exited: bool)
      requires Valid()
      requires |sources| == |requests|
      modifies this, doneQueue, fs
      ensures var b := Batch(diskCachePath, old(fs.files), curlReady, requests, sources);
        && exited == b.exited
        && fs.files == b.files
        && Stands(doneQueue.queue, |old(doneQueue.queue)|, b.answers)
        && doneQueue.queue[..|old(doneQueue.queue)|] == old(doneQueue.queue)
      ensures forall k :: |old(doneQueue.queue)| <= k < |doneQueue.queue| ==> Delivered(doneQueue.queue[k], radius, project)
      ensures !exited ==> stopThread == (old(stopThread) || StopRequested(requests))
    {
      ghost var files0 := fs.files;
      ghost var start := |doneQueue.queue|;
      ghost var p0 := Progress([], files0, false, false);
      var returnNetworkErrors := false;
      exited := false;
      var i := 0;
      while i < |requests| && !exited
        invariant 0 <= i <= |requests|
        invariant var p := Run(diskCachePath, curlReady, p0, requests[..i], sources[..i]);
          && exited == p.exited
          && fs.files == p.files
          && returnNetworkErrors == p.failing
          && Stands(doneQueue.queue, start, p.answers)
          && doneQueue.queue[..start] == old(doneQueue.queue)
        invariant forall k :: start <= k < |doneQueue.queue| ==> Delivered(doneQueue.queue[k], radius, project)
        invariant stopThread == (old(stopThread) || StopRequested(requests[..i]))
      {
        ghost var p := Run(diskCachePath, curlReady, p0, requests[..i], sources[..i]);
        var j := i + 1;
        RunSnoc(diskCachePath, curlReady, p0, requests, sources, i, j);
        StopRequestedSnoc(requests, i, j);
        ghost var before := doneQueue.queue;
        ghost var pushed;
        returnNetworkErrors, exited, pushed := HandleRequest(requests[i], sources[i], returnNetworkErrors, p);
        if !exited {
          StandsSnoc(before, start, p.answers, pushed);
        }
        i := j;
      }
      if exited {
        RunStopsAtExit(diskCachePath, curlReady, p0, requests, sources, i);
      } else {
        assert requests[..i] == requests && sources[..i] == sources;
      }
    }
  }
}
