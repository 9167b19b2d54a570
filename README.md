# streaming-atlod tile-streaming bookkeeping in Dafny

This project models the tile-streaming core of streaming-atlod, a terrain
renderer that streams a quadtree of XYZ map tiles (heightmap plus overlay
image) from the web, a disk cache and memory. It covers:

- tile keys `x/y/z`: the string form and its parse, the four children,
  equality and the hash (`tilekey.dfy`);
- the LRU cache whose `put` hands the evicted entry back to the caller
  (`lrucache.dfy`) and the message queues between the manager and its workers
  (`messagequeue.dfy`), both as classes over `seq` and `map` fields;
- the terrain manager: request gating with the loading, unloadable and
  being-deleted tile sets, round-robin worker choice, the handling of load
  responses and deletion answers, the offline cool-down, the "not the root and
  no resident child" eviction policy with the reinsertion loops on both caches,
  the disk-cache reconciliation at start-up, and the root-down traversal that
  collects the tiles to draw. `managerspec.dfy` states the manager's state
  machine as functions on a `ManagerState` value and proves its properties
  there; `manager.dfy` is the `TerrainManager` class, whose methods are proved
  to follow those functions;
- the load worker's batch loop, its choice of source and the outcome tables of
  the disk and web loads (`loadworker.dfy`), and the two disk-deletion workers
  (`diskdeallocation.dfy`, `unloadworker.dfy`) over a file system modelled as a
  set of path names (`files.dfy`);
- configuration: `key=value` line splitting, number parsing and the range
  checks (`config.dfy`);
- the integer parts of a terrain node (raster indexing, the raw height code,
  the min/max scan, the 3x3 samples and the bounding box dispatch,
  `terrainnode.dfy`) and the index and vertex layout of the grid, skirt and pole
  meshes, with the older prototype copies of the grid and skirt meshes
  (`gridmesh.dfy`, `skirtmesh.dfy`, `polemesh.dfy`, `terraingridmesh.dfy`,
  `terrainskirtmesh.dfy`).

Unsigned 32-bit arithmetic (tile coordinates, counters, index arithmetic, the
mesh loop bounds) wraps modulo 2^32 explicitly. The source runs each cache's
reinsertion loop without a bound; the model stops it after as many tries as
the cache has entries, which is exactly when every candidate has been tried and
the source would loop forever. That outcome is reported as a hang ("Hangs",
"Spun", "Stuck", status `Hung`), and a null node dereference as a crash.

Three behaviours of the code are easy to misread:

- a `LOAD_STOPPED_THREAD` response reaches `initTerrainNode` like `LOAD_OK`,
  since every type other than unloadable, timeout and error goes there
  (terrainmanager.cpp lines 503-522). Its node is null, which the model treats
  as a crash;
- the web heightmap load decodes the image before it writes the cache file;
- the disk-deletion workers skip the heightmap removal when the overlay
  removal fails.

## Model

| member | source | states |
|---|---|---|
| TileKeys.Equals | streaming-atlod/src/xyztilekey.cpp:22-25 | true exactly when the two keys are the same key |
| TileKeys.NotEquals | streaming-atlod/src/xyztilekey.cpp:27-30 | true exactly when the two keys differ |
| TileKeys.ChildExact | streaming-atlod/src/xyztilekey.cpp:37-55 | for a key inside its zoom level below zoom 31, a child is (2x+dx, 2y+dy, z+1) with no 32-bit wrap, lies inside the next level, and halving its coordinates gives the parent back |
| TileKeys.ChildrenExact | streaming-atlod/src/xyztilekey.cpp:37-55 | the four children's exact coordinates (top-left, top-right, bottom-left, bottom-right), all inside the next zoom level |
| TileKeys.ChildrenDistinct | streaming-atlod/src/xyztilekey.cpp:37-55 | the four children are pairwise different keys, even when the unsigned arithmetic wraps |
| TileKeys.ChildNotSelf | streaming-atlod/src/xyztilekey.cpp:37-55 | no key is one of its own children |
| TileKeys.TopLeftChild | streaming-atlod/src/xyztilekey.cpp:37-40 | the child (2x, 2y, z + 1) in unsigned 32-bit arithmetic; ChildExact and ChildrenExact state that it is exact and inside the next level below zoom 31 |
| TileKeys.TopRightChild | streaming-atlod/src/xyztilekey.cpp:42-45 | the child (2x + 1, 2y, z + 1), wrapping modulo 2^32; its exact coordinates are stated by ChildrenExact |
| TileKeys.BottomLeftChild | streaming-atlod/src/xyztilekey.cpp:47-50 | the child (2x, 2y + 1, z + 1), wrapping modulo 2^32; its exact coordinates are stated by ChildrenExact |
| TileKeys.BottomRightChild | streaming-atlod/src/xyztilekey.cpp:52-55 | the child (2x + 1, 2y + 1, z + 1), wrapping modulo 2^32; its exact coordinates are stated by ChildrenExact |
| TileKeys.Children | streaming-atlod/src/xyztilekey.cpp:37-55 | the four children in the traversal's order; ChildrenDistinct states they are pairwise different, ChildNotSelf that none is the key itself |
| TileKeys.DecimalDigits | streaming-atlod/src/xyztilekey.cpp:34 | std::to_string gives a non-empty run of digits with no leading zero, and reading those digits gives the number back |
| TileKeys.SkipSpace | streaming-atlod/src/xyztilekey.cpp:17 | extraction skips white space: the position moves forward to the first non-space character or the end |
| TileKeys.DigitsEnd | streaming-atlod/src/xyztilekey.cpp:17 | numeric extraction is greedy: it takes every digit up to the first non-digit |
| TileKeys.ReadUnsigned | streaming-atlod/src/xyztilekey.cpp:17 | `>> unsigned` takes an optional '+' or '-' and then digits; a success consumes at least one character and stops right before a non-digit or the end; ReadSignedAt gives the value, negated modulo 2^32 after '-' |
| TileKeys.ReadChar | streaming-atlod/src/xyztilekey.cpp:17 | a successful `>> char` consumes one non-space character |
| TileKeys.ToString | streaming-atlod/src/xyztilekey.cpp:32-35 | "x/y/z" from the std::to_string digits of each coordinate; ParseToString states that the string constructor reads it back |
| TileKeys.Parse | streaming-atlod/src/xyztilekey.cpp:12-20 | the string constructor: three numbers with a delimiter after the first two, only the second checked for '/'; ParseJoined, ParseSignedJoined, ParseToString, FirstDelimiterUnchecked and SecondDelimiterChecked state what it gives |
| TileKeys.ParseJoined | streaming-atlod/src/xyztilekey.cpp:12-20 | three 32-bit digit runs joined by '/' parse as the key of their values |
| TileKeys.ReadSignedAt | streaming-atlod/src/xyztilekey.cpp:17 | a sign followed by 32-bit digits reads as their value, negated modulo 2^32 after '-', and stops after the digits |
| TileKeys.ParseSignedJoined | streaming-atlod/src/xyztilekey.cpp:12-20 | a '+' or '-' before the first number is accepted: "-1/2/3" gives (4294967295, 2, 3) and "+7/2/3" gives (7, 2, 3) |
| TileKeys.ParseToString | streaming-atlod/src/xyztilekey.cpp:12-35 | round trip: the string constructor gives back every key from its string() form |
| TileKeys.FirstDelimiterAny | streaming-atlod/src/xyztilekey.cpp:17 | any character other than white space or a digit is accepted as the first delimiter: digits a, that character, digits b, '/', digits c parse as the key of the three values |
| TileKeys.FirstDelimiterUnchecked | streaming-atlod/src/xyztilekey.cpp:17 | the first delimiter is read but never checked: "1x2/3" parses as (1, 2, 3) |
| TileKeys.SecondDelimiterChecked | streaming-atlod/src/xyztilekey.cpp:17 | only the last delimiter read is compared with '/': "1/2x3" is reported invalid |
| TileKeys.Hash | streaming-atlod/src/xyztilekey.h:42-49 | the size_t hash of a key never wraps: it is below 2^64 and equals 17·31³ + 31²·x + 31·y + z |
| TileKeys.HashCollision | streaming-atlod/src/xyztilekey.h:42-49 | the hash is not injective: (1, 0, 0) and (0, 31, 0) share a hash |
| Lru.IndexOf | streaming-atlod/src/lrucache.h:30 | the list position the map holds for a present key: the entry there has the key and no earlier entry does |
| Lru.TouchFacts | streaming-atlod/src/lrucache.h:41-50 | the splice done by get on a hit keeps the same entries and keys, puts the key's entry in front and keeps the others' order; a miss leaves the list alone |
| Lru.Touch | streaming-atlod/src/lrucache.h:41-50 | the list after get's splice; TouchFacts, TouchIdempotent and TouchLookup state that a hit moves the key's entry to the front and changes nothing else, and a miss changes nothing |
| Lru.TouchIdempotent | streaming-atlod/src/lrucache.h:41-50 | a second get of the same key changes nothing |
| Lru.TouchLookup | streaming-atlod/src/lrucache.h:41-50 | get changes no key's value |
| Lru.WithoutKeys | streaming-atlod/src/lrucache.h:48 | taking an entry out of the list removes exactly its key |
| Lru.WithoutMultiset | streaming-atlod/src/lrucache.h:48 | taking an entry out removes exactly that entry from the multiset of entries |
| Lru.PutFacts | streaming-atlod/src/lrucache.h:62-86 | put keeps keys distinct and the size within capacity, puts the new entry in front; updates in place without eviction; with room it only adds the key; when full it evicts exactly the back entry and reports it |
| Lru.PutItems | streaming-atlod/src/lrucache.h:62-86 | the list after put; PutFacts, PutConservesNewKey, PutKeepsEntry and PutLookup state its contents, its order and its values |
| Lru.PutConservesNewKey | streaming-atlod/src/lrucache.h:73-85 | inserting a new key: the entries after put plus the evicted one are the entries before plus the new one |
| Lru.PutUpdateDropsOldValue | streaming-atlod/src/lrucache.h:66-71 | putting a present key replaces its value, reports nothing evicted, and the old value is not handed back |
| Lru.PutKeepsEntry | streaming-atlod/src/lrucache.h:62-86 | every entry other than the key's own and the evicted one survives put |
| Lru.PutLookup | streaming-atlod/src/lrucache.h:62-86 | after put the key reads back its new value, and every other key not evicted keeps its value |
| Lru.TouchAgrees | streaming-atlod/src/lrucache.h:48 | after get's splice the map still holds one iterator per list entry |
| Lru.PutAgrees | streaming-atlod/src/lrucache.h:76-84 | after put the map, with the evicted key erased and the new key bound, agrees with the list |
| Lru.LRUCache.constructor | streaming-atlod/src/lrucache.h:35-39 | a new cache of the given capacity is empty |
| Lru.LRUCache.LookupAgrees | streaming-atlod/src/lrucache.h:30 | what the map finds for a key is what the list holds for it |
| Lru.LRUCache.Get | streaming-atlod/src/lrucache.h:41-50 | returns the key's value or nothing, and leaves the list as after the splice to the front |
| Lru.LRUCache.Size | streaming-atlod/src/lrucache.h:52-55 | the number of entries, never above capacity |
| Lru.LRUCache.Contains | streaming-atlod/src/lrucache.h:57-60 | true exactly when the key has an entry in the list |
| Lru.LRUCache.Put | streaming-atlod/src/lrucache.h:62-86 | leaves the list of PutItems and returns PutOutcome, keeping the cache well formed |
| Lru.KeysCount | streaming-atlod/src/lrucache.h:29-30 | with distinct keys there are as many keys as entries |
| Queues.MessageQueue.constructor | streaming-atlod/src/messagequeue.h:78-81 | a new queue is empty |
| Queues.MessageQueue.Push | streaming-atlod/src/messagequeue.h:22-27 | the message is appended at the back |
| Queues.MessageQueue.Pop | streaming-atlod/src/messagequeue.h:33-42 | nothing from an empty queue, which stays empty; otherwise the front message, and the rest of the queue stays in order |
| Queues.MessageQueue.Empty | streaming-atlod/src/messagequeue.h:48-52 | true exactly when no message is queued |
| Queues.MessageQueue.PopAll | streaming-atlod/src/messagequeue.h:58-64 | returns the whole queue front first and leaves it empty |
| Queues.MessageQueue.PushAll | streaming-atlod/src/messagequeue.h:70-76 | the messages are appended in order after those already queued |
| Queues.PushedInOrder | streaming-atlod/src/messagequeue.h:22-27 | first in, first out: pushing messages one at a time appends them in push order |
| Queues.PushesThenPopAll | streaming-atlod/src/messagequeue.h:22-64 | pushes then popAll return the old contents followed by the pushed messages, and leave the queue empty |
| Files.BaseNameInjective | streaming-atlod/src/terrainmanager.cpp:403-405 | different tiles have different "x_y_z" base names |
| Files.FileInInjective | streaming-atlod/src/terrainmanager.cpp:403-405 | within one directory and extension, each tile has its own file name |
| Files.CacheFilesDistinct | streaming-atlod/src/terrainmanager.cpp:403-405 | a tile's heightmap file is never any tile's overlay file, and each heightmap or overlay name belongs to one tile |
| Files.ShortCircuitRemove | streaming-atlod/src/diskdeallocationworkerthread.cpp:51-52 | success exactly when both files existed; the first file is always gone, the second is removed only when the first existed, and nothing else changes |
| Files.ShortCircuitRemoveOk | streaming-atlod/src/diskdeallocationworkerthread.cpp:51-52 | when both removals succeed, exactly the two files are gone |
| Files.FileSystem.Exists | streaming-atlod/src/terrainmanager.cpp:445 | std::filesystem::exists: true exactly when the file is present |
| Files.FileSystem.Remove | streaming-atlod/src/terrainmanager.cpp:448 | std::filesystem::remove: true exactly when the file existed, and afterwards it does not |
| Files.FileSystem.Write | streaming-atlod/src/loadworkerthread.cpp:314-322 | writing a cache file through an ofstream that opened leaves the file present |
| Config.Stoul | streaming-atlod/src/configmanager.cpp:62 | std::stoul: a number only when the text, after white space and an optional sign, starts with digits whose value fits in 64 bits; the result is below 2^64 |
| Config.ToInt | streaming-atlod/src/configmanager.cpp:62 | `int parsedValue = stoul(...)` keeps the low 32 bits: the result is an int congruent to the input modulo 2^32, and equal to it when it fits |
| Config.TryParsingNumber | streaming-atlod/src/configmanager.cpp:59-69 | failure exactly when stoul throws, leaving the property unchanged; on success the narrowed number |
| Config.ParseDecimal | streaming-atlod/src/configmanager.cpp:59-69 | the decimal text of any number below 2^64 is accepted and read as that number narrowed to int |
| Config.ParseNegative | streaming-atlod/src/configmanager.cpp:62 | "-5" is accepted and read as -5 |
| Config.ParseWraps | streaming-atlod/src/configmanager.cpp:62-63 | the text of n + 2^32 is read as n, so a huge value can pass a later range check |
| Config.ToIntWraps | streaming-atlod/src/configmanager.cpp:62 | narrowing n + 2^32 to int gives n |
| Config.ParseEdges | streaming-atlod/src/configmanager.cpp:59-69 | " 300px" reads as 300; "px" and "" fail and leave the property unchanged |
| Config.KeyNameInjective | streaming-atlod/src/configmanager.cpp:16-54 | no two settings share a key name |
| Config.FieldOfName | streaming-atlod/src/configmanager.cpp:16-54 | each setting's key selects that setting |
| Config.FieldOfSound | streaming-atlod/src/configmanager.cpp:16-54 | a key selects a setting only by its exact name, and selects nothing exactly when no setting has that name |
| Config.DiskCacheKeySpelling | streaming-atlod/src/configmanager.cpp:37 | the disk cache size is set by the key "diskacachesize"; "diskcachesize" sets nothing |
| Config.SetNumberFacts | streaming-atlod/src/configmanager.cpp:34-54 | assigning a numeric setting changes that setting and no other |
| Config.SetTextFacts | streaming-atlod/src/configmanager.cpp:16-33 | assigning a text setting changes that setting and no other |
| Config.EntryIgnoresUnknown | streaming-atlod/src/configmanager.cpp:11-57 | an unknown key changes nothing and asks for no exit |
| Config.EntryText | streaming-atlod/src/configmanager.cpp:16-33 | a text key stores the value verbatim, even an empty one, asks for no exit and changes nothing else |
| Config.EntryNumber | streaming-atlod/src/configmanager.cpp:34-56 | a numeric key asks for exit exactly when stoul fails, then keeping the old value; otherwise it stores the narrowed number; nothing else changes |
| Config.FindEquals | streaming-atlod/src/configmanager.cpp:143 | line.find('='): the first '=' at or after the start, or none when there is no '=' |
| Config.SplitLine | streaming-atlod/src/configmanager.cpp:143-146 | none exactly when the line has no '='; otherwise key + "=" + value is the line and the key holds no '=' |
| Config.LineWithoutEqualsFails | streaming-atlod/src/configmanager.cpp:148-150 | one line without '=' makes the whole file ask for exit |
| Config.UnknownLineIgnored | streaming-atlod/src/configmanager.cpp:142-151 | a line with an unknown key changes neither the settings nor the verdict |
| Config.NoProblemsIffAcceptable | streaming-atlod/src/configmanager.cpp:153-221 | no check fails exactly when every field is present and every size lies in its documented range |
| Config.AcceptedBounds | streaming-atlod/src/configmanager.cpp:183-221 | accepted settings give caches of at least one entry, a disk cache larger than the memory cache, a maximum zoom below 30, positive mesh sizes and at least one load worker |
| Config.LoadedIsAcceptable | streaming-atlod/src/configmanager.cpp:131-226 | loadConfig returns only when the file opened, every line had '=' and parsed, and the settings are acceptable; every other path exits with status 1 |
| Config.ConfigManager.constructor | streaming-atlod/src/configmanager.cpp:6-9 | a new manager has empty strings and zero numbers |
| Config.ConfigManager.AssignText | streaming-atlod/src/configmanager.cpp:16-33 | stores the text in that setting only |
| Config.ConfigManager.AssignNumber | streaming-atlod/src/configmanager.cpp:63 | stores the number in that setting only |
| Config.ConfigManager.AddSingleEntry | streaming-atlod/src/configmanager.cpp:11-57 | leaves the settings of Entry and reports its exit flag |
| Config.ConfigManager.LoadConfig | streaming-atlod/src/configmanager.cpp:131-226 | leaves the settings and the outcome of LoadResult |
| Config.ConfigRegistry.GetInstance | streaming-atlod/src/configmanager.cpp:233-241 | creates the manager, with empty strings and zero numbers, on the first call and returns that same manager on every later call |
| DiskDeallocation.EvictStep | streaming-atlod/src/diskdeallocationworkerthread.cpp:38-59 | the response carries the request's key; UNLOAD_OK exactly when both of the tile's files existed, and then exactly those two files are gone; files are only removed |
| DiskDeallocation.Batch | streaming-atlod/src/diskdeallocationworkerthread.cpp:27-36 | one response per request |
| DiskDeallocation.BatchAnswersEach | streaming-atlod/src/diskdeallocationworkerthread.cpp:27-36 | the i-th response answers the i-th request, and files are only ever removed |
| DiskDeallocation.BatchPrefixShrinks | streaming-atlod/src/diskdeallocationworkerthread.cpp:31-35 | processing more requests never brings a file back |
| DiskDeallocation.BatchOkMeansGone | streaming-atlod/src/diskdeallocationworkerthread.cpp:31-35 | after an UNLOAD_OK response neither file of that tile is left at the end of the batch |
| DiskDeallocation.BatchResponsePrefix | streaming-atlod/src/diskdeallocationworkerthread.cpp:31-35 | each response depends only on the requests up to it |
| DiskDeallocation.BatchIgnoresType | streaming-atlod/src/diskdeallocationworkerthread.cpp:31-35 | the request type is never looked at: requests with the same keys get the same responses and remove the same files |
| DiskDeallocation.DiskDeallocationWorkerThread.constructor | streaming-atlod/src/diskdeallocationworkerthread.cpp:6-10 | the worker keeps the two queues it is given |
| DiskDeallocation.DiskDeallocationWorkerThread.EvictFromDiskCache | streaming-atlod/src/diskdeallocationworkerthread.cpp:38-59 | returns the response and leaves the files of EvictStep |
| DiskDeallocation.DiskDeallocationWorkerThread.ProcessAllRequests | streaming-atlod/src/diskdeallocationworkerthread.cpp:27-36 | drains the request queue and appends the batch's responses, in order, to the done queue, leaving the files of Batch |
| UnloadWorker.EvictStep | streaming-atlod/src/unloadworkerthread.cpp:49-73 | the response carries the request's key; UNLOAD_OK exactly when both the overlay and the "dem/" heightmap existed, then both are gone; without the overlay nothing is removed |
| UnloadWorker.Batch | streaming-atlod/src/unloadworkerthread.cpp:27-43 | one response per request |
| UnloadWorker.BatchAnswersEach | streaming-atlod/src/unloadworkerthread.cpp:27-43 | the i-th response answers the i-th request, and files are only ever removed |
| UnloadWorker.NamesApart | streaming-atlod/src/unloadworkerthread.cpp:52-60 | a tile's overlay and heightmap names never coincide with another's of the other kind |
| UnloadWorker.UnloadWorkerThread.constructor | streaming-atlod/src/unloadworkerthread.cpp:5-9 | the worker keeps the two queues it is given |
| UnloadWorker.UnloadWorkerThread.EvictFromDiskCache | streaming-atlod/src/unloadworkerthread.cpp:49-73 | returns the response and leaves the files of EvictStep |
| UnloadWorker.UnloadWorkerThread.ProcessAllRequests | streaming-atlod/src/unloadworkerthread.cpp:27-43 | drains the request queue, returns the batch's responses and appends them, in order, to the done queue, leaving the files of Batch |
| LoadWorker.HeightmapFromDisk | streaming-atlod/src/loadworkerthread.cpp:162-209 | LOAD_OK with the decoded raster exactly when the cached file opens, reads and decodes; every failure is LOAD_UNLOADABLE with no raster |
| LoadWorker.OverlayFromDisk | streaming-atlod/src/loadworkerthread.cpp:216-234 | a cached overlay that loads is LOAD_OK; one that does not ends the process |
| LoadWorker.HeightmapFromApi | streaming-atlod/src/loadworkerthread.cpp:255-336 | LOAD_OK with the raster exactly when curl exists, the exchange completes with 200, the image decodes and the cache file can be written; the process ends exactly when curl is missing or a completed exchange is neither 204 nor a good 200 |
| LoadWorker.OverlayFromApi | streaming-atlod/src/loadworkerthread.cpp:343-413 | LOAD_OK exactly when curl exists, the status is 200, the image decodes and the file can be written; the process ends exactly when curl is missing or a 200 image cannot be decoded or written; no raster is carried |
| LoadWorker.ApiTablesAgree | streaming-atlod/src/loadworkerthread.cpp:276-290 | for timeouts, transport errors, 200 and 204, the heightmap and overlay web loads end the process in the same cases and otherwise give the same response type |
| LoadWorker.ApiTablesDiffer | streaming-atlod/src/loadworkerthread.cpp:290-292 | any other status ends the process for a heightmap but is LOAD_ERROR for an overlay (lines 382-385) |
| LoadWorker.RouteOf | streaming-atlod/src/loadworkerthread.cpp:126-137 | disk-cache requests go to the disk; the others go to the web unless the request is offline, in which case nothing is fetched |
| LoadWorker.HeightmapFetch | streaming-atlod/src/loadworkerthread.cpp:126-137 | fetchHeightmap: the disk load for disk-cache requests, the web load otherwise, LOAD_UNLOADABLE offline; OfflineIsUnloadable and OverlayOnlyAfterHeightmap state its cases |
| LoadWorker.OverlayFetch | streaming-atlod/src/loadworkerthread.cpp:144-155 | fetchOverlay, chosen by the same route; OverlayOnlyAfterHeightmap states that it runs only after a LOAD_OK heightmap |
| LoadWorker.StopRequestedIff | streaming-atlod/src/loadworkerthread.cpp:58-60 | the stop flag is raised exactly when some request of the batch is LOAD_STOP_THREAD |
| LoadWorker.Step | streaming-atlod/src/loadworkerthread.cpp:58-114 | one iteration of the loop; StepAnswersOnce, FailingStaysFailing and OverlayOnlyAfterHeightmap state its answer, files and flag |
| LoadWorker.Run | streaming-atlod/src/loadworkerthread.cpp:58-114 | the loop over the batch, stopping where the process ends; RunSnoc and RunStopsAtExit state its steps |
| LoadWorker.Batch | streaming-atlod/src/loadworkerthread.cpp:52-119 | the loop from a fresh start; OneAnswerPerRequest and FailingMeansError state its answers |
| LoadWorker.RunSnoc | streaming-atlod/src/loadworkerthread.cpp:58-116 | a request the batch has not stopped before is handled by one more loop iteration |
| LoadWorker.RunStopsAtExit | streaming-atlod/src/loadworkerthread.cpp:58-116 | once the process has ended, later requests change nothing |
| LoadWorker.StepAnswersOnce | streaming-atlod/src/loadworkerthread.cpp:58-116 | one iteration pushes exactly one response, with the request's key, unless the process ends, in which case it pushes none |
| LoadWorker.OneAnswerPerRequest | streaming-atlod/src/loadworkerthread.cpp:52-116 | unless the process ends, each request gets exactly one response, with its key and in batch order; if it ends, the requests before it were answered |
| LoadWorker.FailingStaysFailing | streaming-atlod/src/loadworkerthread.cpp:63-70 | after a LOAD_ERROR in the batch, every later request is answered LOAD_ERROR from the disk-cache origin without any fetch |
| LoadWorker.FailingMeansError | streaming-atlod/src/loadworkerthread.cpp:72-95 | the fast-fail flag is set exactly when the last answer was LOAD_ERROR |
| LoadWorker.OverlayOnlyAfterHeightmap | streaming-atlod/src/loadworkerthread.cpp:72-81 | when the heightmap fetch is not LOAD_OK, the overlay is not fetched, nothing is written, and the answer is the heightmap's type |
| LoadWorker.OfflineIsUnloadable | streaming-atlod/src/loadworkerthread.cpp:134-136 | an offline request for a tile not on disk does no I/O and is answered LOAD_UNLOADABLE |
| LoadWorker.OkCarriesRaster | streaming-atlod/src/loadworkerthread.cpp:97-106 | every LOAD_OK answer carries the heightmap raster the new node takes |
| LoadWorker.StandsSnoc | streaming-atlod/src/loadworkerthread.cpp:115 | pushing one response extends the answers the done queue holds by one and keeps what was there |
| LoadWorker.LoadWorkerThread.constructor | streaming-atlod/src/loadworkerthread.cpp:23-28 | the worker keeps its queues, records whether curl was created, and starts with the stop flag clear |
| LoadWorker.LoadWorkerThread.NewNode | streaming-atlod/src/loadworkerthread.cpp:97-106 | a new node for the request's key owning the raster: its height range is the lowest and highest code of the raster (both bounds of every code and codes of actual pixels), its box is the fold over the corners at those heights, its grid samples are GridSamples (the codes of the pixels (floor(511i/3), floor(511j/3)) the program reads) and its horizon samples sit at the maximum code |
| LoadWorker.LoadWorkerThread.LoadHeightmapFromApi | streaming-atlod/src/loadworkerthread.cpp:255-336 | the outcome of HeightmapFromApi; the heightmap file exists afterwards exactly when the load succeeded, and nothing else is written |
| LoadWorker.LoadWorkerThread.LoadOverlayFromApi | streaming-atlod/src/loadworkerthread.cpp:343-413 | the outcome of OverlayFromApi; the overlay file is written exactly on success |
| LoadWorker.LoadWorkerThread.FetchHeightmap | streaming-atlod/src/loadworkerthread.cpp:126-137 | the outcome and origin of HeightmapFetch and its writes |
| LoadWorker.LoadWorkerThread.FetchOverlay | streaming-atlod/src/loadworkerthread.cpp:144-155 | the outcome and origin of OverlayFetch and its writes |
| LoadWorker.LoadWorkerThread.HandleRequest | streaming-atlod/src/loadworkerthread.cpp:57-116 | one iteration as Step: the same exit, files and flag, and one pushed response standing for Step's answer. That response has a node exactly when it is LOAD_OK, and every other response keeps the null node. The node is fresh, for the request's tile, and holds the response's raster. Its height range is the raster's lowest and highest code, the box and horizon height come from that range, and the grid samples are at the pixels the program reads. A stop request raises the stop flag |
| LoadWorker.LoadWorkerThread.ProcessAllRequests | streaming-atlod/src/loadworkerthread.cpp:52-120 | drains the request queue and pushes Batch's answers in order. Exactly the LOAD_OK responses carry a node, and the trailing stopped-thread response a null one. Each node is fresh, for its response's tile, and holds its response's raster, prepared as in NewNode. Unless the process ended, there is one response per request, then a LOAD_STOPPED_THREAD for the root when a stop was requested |
| LoadWorker.LoadWorkerThread.RunBatch | streaming-atlod/src/loadworkerthread.cpp:57-116 | the loop leaves the files and exit of Batch, and pushes responses standing for its answers after the old queue. Exactly the LOAD_OK responses carry a node. Each node is fresh, for its response's tile, holds its response's raster, and is prepared as in NewNode |
| Nodes.PixelOffsetInRaster | streaming-atlod/src/terrainnode.cpp:46-52 | inside the raster, getHeight's unsigned offset (y·512 + x)·3 does not wrap and its three bytes lie in the buffer |
| Nodes.PixelOffsetsApart | streaming-atlod/src/terrainnode.cpp:46-52 | different pixels read non-overlapping byte triples |
| Nodes.RawCodeDigits | streaming-atlod/src/terrainnode.cpp:60-64 | the raw height code r·65536 + g·256 + b lies in [0, 2^24) and the three bytes are its base-256 digits |
| Nodes.ScaledHeightIncreasing | streaming-atlod/src/terrainnode.cpp:60-64 | with a positive height scale, the scaled height strictly increases with the raw code |
| Nodes.MinMaxAfterScan | streaming-atlod/src/terrainnode.cpp:30-38 | after the scan both ends are real codes with 0 <= min <= max < 2^24, and every pixel's scaled height lies between the scaled minimum and maximum |
| Nodes.AsWrittenMissesFarEdge | streaming-atlod/src/terrainnode.cpp:113-114 | as written, the grid samples read pixels 0, 170 and 340, never the far edge 511 |
| Nodes.PixelCoordAsWritten | streaming-atlod/src/terrainnode.cpp:113-114 | the pixel the program reads for grid position i < 3 lies inside the raster |
| Nodes.PixelCoord | streaming-atlod/src/terrainnode.cpp:112-114 | the pixel under tile fraction i/2 always lies inside the raster |
| Nodes.PixelCoordsAtFractions | streaming-atlod/src/terrainnode.cpp:90-116 | the corrected coordinates read the near edge, the middle and the far edge of the tile, the positions the grid points are placed at |
| Nodes.GridSamples | streaming-atlod/src/terrainnode.cpp:107-121 | what the program samples: nine grid samples in loop order, each with the code of pixel (floor(511i/3), floor(511j/3)); its layout is stated by GridSamplesLayout |
| Nodes.HorizonSamples | streaming-atlod/src/terrainnode.cpp:126-136 | nine horizon samples in loop order, all at the maximum code; its layout is stated by GridSamplesLayout |
| Nodes.GridSamplesLayout | streaming-atlod/src/terrainnode.cpp:107-136 | nine grid samples and nine horizon samples; sample 3i+j is at position (i, j), the grid one holding the code of pixel (floor(511i/3), floor(511j/3)), as the program reads it, and the horizon one the maximum code |
| Nodes.GridSamplesCorrected | streaming-atlod/src/terrainnode.cpp:112-114 | the samples as evidently intended, each with the code of the pixel under its position; its layout is stated by GridSamplesCorrectedLayout |
| Nodes.GridSamplesCorrectedLayout | streaming-atlod/src/terrainnode.cpp:112-114 | in the corrected samples, sample 3i+j at position (i, j) holds the code of the pixel at tile fraction (i/2, j/2) |
| Nodes.GridSamplesAgreeAtOrigin | streaming-atlod/src/terrainnode.cpp:112-114 | the program's pixel and the pixel under the position coincide exactly at position (0, 0), so every other sample reads a different pixel from the one under it |
| Nodes.Zoom1InsideZoom0 | streaming-atlod/src/terrainnode.cpp:189-219 | each zoom-1 box is ordered and lies inside the zoom-0 box of the globe |
| Nodes.Zoom1Cover | streaming-atlod/src/terrainnode.cpp:198-219 | the four zoom-1 boxes cover the zoom-0 box: x = 0 is the west half, y = 0 the north half |
| Nodes.Bounds | streaming-atlod/src/terrainnode.cpp:150-182 | the min/max fold gives a box exactly when it saw at least one point |
| Nodes.BoundsTight | streaming-atlod/src/terrainnode.cpp:150-182 | the fold gives the smallest box around its points: ordered, holding every point, each face touched by one |
| Nodes.CornerAt | streaming-atlod/src/terrainnode.cpp:160-179 | the fold visits 18 points, position (i, j) at the minimum height and then at the maximum height |
| Nodes.BoundsSnoc | streaming-atlod/src/terrainnode.cpp:164-177 | each point widens the running box |
| Nodes.AabbOrdered | streaming-atlod/src/terrainnode.cpp:141-184 | whatever the zoom level, the box is ordered on every axis |
| Nodes.AabbFor | streaming-atlod/src/terrainnode.cpp:141-184 | the box of generateAabb: fixed at zoom 0 and 1, the fold of the corner points otherwise; AabbOrdered, Zoom1InsideZoom0, Zoom1Cover and BoundsTight state its shape |
| Nodes.TerrainNode.constructor | streaming-atlod/src/terrainnode.cpp:17-25 | a new node has its key and raster, the min/max sentinels, and no sample points |
| Nodes.TerrainNode.GenerateMinMaxHeight | streaming-atlod/src/terrainnode.cpp:30-38 | the scan keeps everything else, only lowers the minimum and raises the maximum, bounds every pixel's code, and each end is the old value or some pixel's code |
| Nodes.TerrainNode.FoldColumn | streaming-atlod/src/terrainnode.cpp:33-36 | one pass of the inner loop bounds the codes of one raster column the same way |
| Nodes.TerrainNode.GenerateProjectedGridPoints | streaming-atlod/src/terrainnode.cpp:107-121 | appends GridSamples, i outer and j inner: sample (i, j) holds the code of pixel (floor(511i/3), floor(511j/3)), as at lines 113-114; nothing else changes |
| Nodes.TerrainNode.GenerateHorizonPoints | streaming-atlod/src/terrainnode.cpp:126-136 | appends the nine positions at the maximum height, changing nothing else |
| Nodes.TerrainNode.GenerateAabb | streaming-atlod/src/terrainnode.cpp:141-184 | sets the box of AabbFor: the fixed box at zoom 0 and 1, otherwise the fold over the 18 corner points; nothing else changes |
| Nodes.TerrainNode.FoldCorners | streaming-atlod/src/terrainnode.cpp:150-182 | the loops give the fold of all 18 corner points |
| Nodes.TerrainNode.FoldCornerRow | streaming-atlod/src/terrainnode.cpp:161-178 | one pass of the outer loop folds the six points of row i into the running box |
| GridMeshes.RowCountWraps | streaming-atlod/src/gridmesh.cpp:78 | the outer bound _sideLength - 1 is unsigned subtraction modulo 2^32, so it wraps to 2^32 - 1 at 0 |
| GridMeshes.GridVerticesLayout | streaming-atlod/src/gridmesh.cpp:41-53 | side·side vertices, vertex i·side + j being column j of row i |
| GridMeshes.GridVertices | streaming-atlod/src/gridmesh.cpp:41-53 | the lattice of side·side vertices; GridVerticesLayout states its order |
| GridMeshes.GridIndices | streaming-atlod/src/gridmesh.cpp:76-85 | the strip index buffer; GridIndicesCount, GridIndexLayout, GridIndicesBounded and StripsJoinRows state its length, layout and range |
| GridMeshes.StripShape | streaming-atlod/src/gridmesh.cpp:79-83 | one strip has 2·side + 1 entries: pairs j + side·i, j + side·(i + 1), then the restart marker |
| GridMeshes.GridIndicesCount | streaming-atlod/src/gridmesh.cpp:76-85 | for a non-zero side the buffer holds (side - 1)·(2·side + 1) indices |
| GridMeshes.NoWrap | streaming-atlod/src/gridmesh.cpp:80-81 | up to side 65535 the index arithmetic stays below the restart marker and never wraps |
| GridMeshes.GridIndexLayout | streaming-atlod/src/gridmesh.cpp:76-85 | strip i starts at i·(2·side + 1); its entries are the two row vertices of each column and the restart marker at its end |
| GridMeshes.GridIndicesBounded | streaming-atlod/src/gridmesh.cpp:76-85 | an entry is the restart marker exactly at the end of a strip, and otherwise names a vertex of the lattice |
| GridMeshes.GridPositionsCover | streaming-atlod/src/gridmesh.cpp:76-85 | every position of the buffer is some column of some strip |
| GridMeshes.StripsJoinRows | streaming-atlod/src/gridmesh.cpp:41-85 | strip i stitches row i to row i + 1: entry 2j names the vertex at (j, i) and entry 2j + 1 the one at (j, i + 1) |
| GridMeshes.ZeroSideOnlyRestarts | streaming-atlod/src/gridmesh.cpp:78-84 | with side 0 the wrapped bound yields 2^32 - 1 empty strips: nothing but restart markers |
| GridMeshes.GridMesh.constructor | streaming-atlod/src/gridmesh.cpp:11-14 | a new mesh has its side length and empty buffers |
| GridMeshes.GridMesh.Load | streaming-atlod/src/gridmesh.cpp:19-23 | appends the lattice vertices and then the strip indices |
| GridMeshes.GridMesh.LoadVertices | streaming-atlod/src/gridmesh.cpp:41-53 | appends the lattice row by row, each row left to right; the indices are untouched |
| GridMeshes.GridMesh.LoadIndices | streaming-atlod/src/gridmesh.cpp:76-85 | appends one strip per value of the wrapped row bound; the vertices are untouched |
| GridMeshes.GridMesh.PushStrip | streaming-atlod/src/gridmesh.cpp:79-83 | one pass of the outer loop appends strip i |
| TerrainGridMeshes.GridMesh.constructor | streaming-atlod/src/terrain/gridmesh.cpp:3-6 | a new mesh has its side length and empty buffers |
| TerrainGridMeshes.GridMesh.Load | streaming-atlod/src/terrain/gridmesh.cpp:8-12 | appends the same lattice vertices and strip indices as the tile grid mesh |
| TerrainGridMeshes.GridMesh.LoadVertices | streaming-atlod/src/terrain/gridmesh.cpp:25-37 | appends the lattice row by row; the indices are untouched |
| TerrainGridMeshes.GridMesh.LoadIndices | streaming-atlod/src/terrain/gridmesh.cpp:57-66 | appends one strip per value of the wrapped row bound; the vertices are untouched |
| TerrainGridMeshes.GridMesh.PushStrip | streaming-atlod/src/terrain/gridmesh.cpp:60-64 | one pass of the outer loop appends strip i |
| SkirtMeshes.BorderWalkShape | streaming-atlod/src/skirtmesh.cpp:63-117 | the border walk has 4·side - 4 cells for side >= 2, and position k of it is the cell WalkAt gives; side 1 visits cell (0, 0) twice |
| SkirtMeshes.WalkAtInverse | streaming-atlod/src/skirtmesh.cpp:41-61 | each walk position is a border cell, and PositionOf gives the position back |
| SkirtMeshes.PositionOfInverse | streaming-atlod/src/skirtmesh.cpp:41-61 | each border cell has a walk position, and WalkAt gives the cell back |
| SkirtMeshes.WalkVisitsBorderOnce | streaming-atlod/src/skirtmesh.cpp:41-117 | the walk visits only border cells, every border cell, and none twice |
| SkirtMeshes.WalkIsClosedPath | streaming-atlod/src/skirtmesh.cpp:41-117 | consecutive cells of the walk are grid neighbours, and the last neighbours the first, so the skirt closes |
| SkirtMeshes.SkirtVerticesLayout | streaming-atlod/src/skirtmesh.cpp:63-117 | three floats for each of the 2·(4·side - 4) vertices; the pair of walk position k is its cell flagged duplicate, then the same cell flagged original |
| SkirtMeshes.SkirtVertices | streaming-atlod/src/skirtmesh.cpp:63-117 | the border pairs of the skirt; SkirtVerticesLayout, SkirtVerticesBySegment and WalkVisitsBorderOnce state their order |
| SkirtMeshes.SkirtIndices | streaming-atlod/src/skirtmesh.cpp:140-148 | the skirt strip; SkirtIndicesBounded and SkirtStripCloses state its range and how it closes |
| SkirtMeshes.SkirtVerticesBySegment | streaming-atlod/src/skirtmesh.cpp:63-117 | the vertex buffer is the four loops in order: top row, right column, bottom row, left column |
| SkirtMeshes.SkirtVertexCount | streaming-atlod/src/skirtmesh.cpp:63-117 | 8·side - 8 vertices for side >= 2, and 4 for side 1 |
| SkirtMeshes.SkirtIndicesBounded | streaming-atlod/src/skirtmesh.cpp:140-148 | n + 2 indices: 0 to n - 1 in order and then 0 and 1, each naming an existing vertex |
| SkirtMeshes.SkirtStripCloses | streaming-atlod/src/skirtmesh.cpp:140-148 | the two wrapping indices name the first cell's pair again, and the last vertex neighbours that cell |
| SkirtMeshes.SkirtMesh.constructor | streaming-atlod/src/skirtmesh.cpp:8-11 | a new mesh has its side length and empty buffers |
| SkirtMeshes.SkirtMesh.Load | streaming-atlod/src/skirtmesh.cpp:16-20 | appends the skirt vertices, then the indices over the whole vertex buffer |
| SkirtMeshes.SkirtMesh.LoadVertices | streaming-atlod/src/skirtmesh.cpp:38-135 | appends the four border loops' vertex pairs; the indices are untouched |
| SkirtMeshes.SkirtMesh.PushTopRow | streaming-atlod/src/skirtmesh.cpp:63-75 | the first loop appends the pairs of the top row, left to right |
| SkirtMeshes.SkirtMesh.PushRightColumn | streaming-atlod/src/skirtmesh.cpp:77-89 | the second loop appends the pairs of the right column without its corners, top to bottom |
| SkirtMeshes.SkirtMesh.PushBottomRow | streaming-atlod/src/skirtmesh.cpp:91-103 | the third loop appends the pairs of the bottom row, right to left |
| SkirtMeshes.SkirtMesh.PushLeftColumn | streaming-atlod/src/skirtmesh.cpp:105-117 | the fourth loop appends the pairs of the left column without its corners, bottom to top |
| SkirtMeshes.SkirtMesh.LoadIndices | streaming-atlod/src/skirtmesh.cpp:140-154 | appends one index per vertex and then 0 and 1; the vertices are untouched |
| TerrainSkirtMeshes.PrototypeVerticesLayout | streaming-atlod/src/terrain/skirtmesh.cpp:45-95 | the pair of walk position k is its cell flagged 0, then flagged 1 |
| TerrainSkirtMeshes.FlagsReversed | streaming-atlod/src/terrain/skirtmesh.cpp:45-95 | the same walk as the tile skirt, with the two vertices of every pair swapped |
| TerrainSkirtMeshes.PrototypeVerticesBySegment | streaming-atlod/src/terrain/skirtmesh.cpp:45-95 | the vertex buffer is the four loops in order |
| TerrainSkirtMeshes.PrototypeVertexCount | streaming-atlod/src/terrain/skirtmesh.cpp:45-95 | 8·side - 8 vertices for side >= 2, and 4 for side 1 |
| TerrainSkirtMeshes.PrototypeIndicesBounded | streaming-atlod/src/terrain/skirtmesh.cpp:115-120 | n indices 0 to n - 1 in order, with no wrap-around pair |
| TerrainSkirtMeshes.SkirtMesh.constructor | streaming-atlod/src/terrain/skirtmesh.cpp:4-7 | a new mesh has its side length and empty buffers |
| TerrainSkirtMeshes.SkirtMesh.Load | streaming-atlod/src/terrain/skirtmesh.cpp:9-13 | appends the prototype vertices, then one index per vertex |
| TerrainSkirtMeshes.SkirtMesh.LoadVertices | streaming-atlod/src/terrain/skirtmesh.cpp:25-113 | appends the four border loops' vertex pairs; the indices are untouched |
| TerrainSkirtMeshes.SkirtMesh.PushTopRow | streaming-atlod/src/terrain/skirtmesh.cpp:45-56 | appends the top row's pairs, left to right |
| TerrainSkirtMeshes.SkirtMesh.PushRightColumn | streaming-atlod/src/terrain/skirtmesh.cpp:58-69 | appends the right column's inner pairs, top to bottom |
| TerrainSkirtMeshes.SkirtMesh.PushBottomRow | streaming-atlod/src/terrain/skirtmesh.cpp:71-82 | appends the bottom row's pairs, right to left |
| TerrainSkirtMeshes.SkirtMesh.PushLeftColumn | streaming-atlod/src/terrain/skirtmesh.cpp:84-95 | appends the left column's inner pairs, bottom to top |
| TerrainSkirtMeshes.SkirtMesh.LoadIndices | streaming-atlod/src/terrain/skirtmesh.cpp:115-126 | appends one index per vertex; the vertices are untouched |
| PoleMeshes.PoleVerticesLayout | streaming-atlod/src/polemesh.cpp:35-47 | two floats per vertex: the centre first, then rim point i at position i + 1 |
| PoleMeshes.PoleVertices | streaming-atlod/src/polemesh.cpp:35-47 | the centre and the rim points; PoleVerticesLayout states their order |
| PoleMeshes.PoleIndices | streaming-atlod/src/polemesh.cpp:67-73 | the fan strip; PoleIndicesLayout and PoleFanVertices state its layout |
| PoleMeshes.PoleIndicesLayout | streaming-atlod/src/polemesh.cpp:67-73 | 2n + 1 indices: rim i + 1 and the centre for each i, then rim 1 again; with at least one rim point every index names a vertex |
| PoleMeshes.PoleFanVertices | streaming-atlod/src/polemesh.cpp:35-73 | the strip alternates rim point i and the centre, and closes on the first rim point |
| PoleMeshes.EmptyPoleOutOfRange | streaming-atlod/src/polemesh.cpp:67-73 | with zero rim points the only index, 1, lies past the single centre vertex |
| PoleMeshes.PoleMesh.constructor | streaming-atlod/src/polemesh.cpp:8-11 | a new mesh has its rim count and empty buffers |
| PoleMeshes.PoleMesh.Load | streaming-atlod/src/polemesh.cpp:13-17 | appends the pole vertices, then its indices |
| PoleMeshes.PoleMesh.LoadVertices | streaming-atlod/src/polemesh.cpp:35-65 | appends the centre and the rim points in angle order; the indices are untouched |
| PoleMeshes.PoleMesh.LoadIndices | streaming-atlod/src/polemesh.cpp:67-79 | appends the fan strip; the vertices are untouched |
| ManagerSpec.HasChildren | streaming-atlod/src/terrainmanager.cpp:799-805 | true exactly when one of the four children is in the memory cache |
| ManagerSpec.CheckEviction | streaming-atlod/src/terrainmanager.cpp:225-228 | true exactly when the tile is not the root and none of its children is in the memory cache |
| ManagerSpec.AllChildrenExistant | streaming-atlod/src/terrainmanager.cpp:348-354 | true exactly when all four children are in the memory cache |
| ManagerSpec.CheckIgnoresSelf | streaming-atlod/src/terrainmanager.cpp:225-228 | whether the tile itself is resident does not change the verdict |
| ManagerSpec.Reinsert | streaming-atlod/src/terrainmanager.cpp:191-195 | when the reinsertion loop ends, the cache is still full and well formed, and the entry let go passes the check and is not in the cache |
| ManagerSpec.ReinsertConserves | streaming-atlod/src/terrainmanager.cpp:191-195 | when the loop ends, the cache together with the entry let go is, as a multiset, the old cache together with the entry in hand: no entry was lost or made up |
| ManagerSpec.ReinsertUnfold | streaming-atlod/src/terrainmanager.cpp:191-194 | one turn of the loop: put the entry in hand back, which evicts the entry at the back of the full cache, and go on with that one |
| ManagerSpec.ReinsertRotates | streaming-atlod/src/terrainmanager.cpp:191-195 | the loop rotates the entries: it never ends exactly when no entry passes the check, and otherwise lets go the last passing entry from the back, the cache then starting just after it |
| ManagerSpec.LastPassing | streaming-atlod/src/terrainmanager.cpp:191-195 | the position of the last entry up to j that passes the check, all later ones failing it |
| ManagerSpec.CachePut | streaming-atlod/src/terrainmanager.cpp:169-195 | a put followed by the reinsertion loop leaves a well-formed cache |
| ManagerSpec.CachePutEvicting | streaming-atlod/src/terrainmanager.cpp:169-195 | for a new key on a full cache: it never ends exactly when no entry of the new entry plus the old list passes the check, and otherwise the victim is the last passing one and the list is rotated to start after it |
| ManagerSpec.CachePutFacts | streaming-atlod/src/terrainmanager.cpp:169-195 | nothing is let go exactly when the key was present or the cache had room, and then it is a plain put; a victim passes the check, the cache stays full, and the keys are the old ones plus the new minus the victim |
| ManagerSpec.CachePutKeyFacts | streaming-atlod/src/terrainmanager.cpp:169-195 | the same outcome stated on key sets: the loop spins exactly when no key of old plus new passes the check |
| ManagerSpec.RequestNode | streaming-atlod/src/terrainmanager.cpp:326-341 | requestNode keeps the state well formed: the round-robin index still names a worker |
| ManagerSpec.RequestNodeEffect | streaming-atlod/src/terrainmanager.cpp:326-341 | the state changes exactly when the tile is not in memory, not loading, not unloadable and not being deleted; then it is loading, the index moves to the next worker modulo the worker count, the counter goes up modulo 2^32 and the caches and key sets stay |
| ManagerSpec.RequestNodeQueued | streaming-atlod/src/terrainmanager.cpp:334-338 | exactly one request is appended, to the current worker's queue: from the disk cache when the tile is on disk, marked offline while waiting; the other queues stay |
| ManagerSpec.RequestFor | streaming-atlod/src/terrainmanager.cpp:334-338 | the request posted for the tile; RequestNodeQueued states its kind and offline flag |
| ManagerSpec.RequestNodeIdempotent | streaming-atlod/src/terrainmanager.cpp:326-341 | requesting the same tile twice is requesting it once |
| ManagerSpec.RequestNodeKeeps | streaming-atlod/src/terrainmanager.cpp:326-341 | afterwards the tile is in memory, loading, unloadable or being deleted; nothing leaves the loading set |
| ManagerSpec.RequestNodeLoading | streaming-atlod/src/terrainmanager.cpp:328-332 | the loading set gains the tile exactly when the guard holds |
| ManagerSpec.RequestChildren | streaming-atlod/src/terrainmanager.cpp:314-320 | requesting the four children keeps the state well formed |
| ManagerSpec.RequestChildrenCovers | streaming-atlod/src/terrainmanager.cpp:314-320 | afterwards every child is in memory, loading, unloadable or being deleted, and the caches and key sets stay |
| ManagerSpec.RequestChildrenLoading | streaming-atlod/src/terrainmanager.cpp:314-320 | the loading set gains exactly the children that passed the guard |
| ManagerSpec.MemoryInsert | streaming-atlod/src/terrainmanager.cpp:169-202 | the memory half of initTerrainNode changes only the memory cache, admits at most the node's own tile and never lets go the root |
| ManagerSpec.DiskInsert | streaming-atlod/src/terrainmanager.cpp:205-214 | the disk half changes only the disk cache, the pending deletions and the deallocation queue |
| ManagerSpec.InitTerrainNode | streaming-atlod/src/terrainmanager.cpp:129-215 | never a null dereference; when it ends, only the caches, the pending deletions and the deallocation queue change, only the node's tile enters memory and the root stays |
| ManagerSpec.DeepestAt | streaming-atlod/src/terrainmanager.cpp:186-189 | an entry whose zoom level is at least every other entry's |
| ManagerSpec.SomeEntryEvictable | streaming-atlod/src/terrainmanager.cpp:186-191 | among two or more distinct tiles some tile passes the check: a deepest one that is not the root has no resident child |
| ManagerSpec.MemoryNeverSpins | streaming-atlod/src/terrainmanager.cpp:191-195 | below the zoom bound, the memory reinsertion loop always ends |
| ManagerSpec.MemoryInsertEvicts | streaming-atlod/src/terrainmanager.cpp:169-202 | at most one tile leaves memory, and a tile that leaves is not the root and has no child left in memory |
| ManagerSpec.CachePutKeepsNew | streaming-atlod/src/terrainmanager.cpp:169-195 | if an old entry passes the check, the new key stays in the cache |
| ManagerSpec.MemoryInsertKeepsNew | streaming-atlod/src/terrainmanager.cpp:169-195 | if some resident tile is evictable, the new node's tile stays in memory |
| ManagerSpec.MemoryInsertCanLetGoNew | streaming-atlod/src/terrainmanager.cpp:187-205 | with room for one node and only the root resident, the loop puts the root back and lets go of the new node itself, which initTerrainNode then frees before reading its key |
| ManagerSpec.MemoryInsertKeys | streaming-atlod/src/terrainmanager.cpp:169-195 | the memory keys afterwards lie within the old keys plus the node's tile |
| ManagerSpec.DiskCachePutFacts | streaming-atlod/src/terrainmanager.cpp:205-211 | the disk loop spins exactly when no key of old plus new is evictable and not loading; a victim is evictable and not loading, and the keys are old plus new minus it |
| ManagerSpec.DiskInsertEffect | streaming-atlod/src/terrainmanager.cpp:205-214 | either the key just joins the disk cache, or one tile that is not the root, not loading and without resident children leaves it, is marked as being deleted and gets one unload request |
| ManagerSpec.InitTerrainNodeHangs | streaming-atlod/src/terrainmanager.cpp:191-211 | below the zoom bound the memory half always ends, so initTerrainNode hangs exactly when the disk loop does |
| ManagerSpec.Acknowledge | streaming-atlod/src/terrainmanager.cpp:495-500 | every response takes its tile out of the loading set and touches only the counter, the loading set and the API statistic |
| ManagerSpec.ProcessResponse | streaming-atlod/src/terrainmanager.cpp:494-523 | one response: the tile stops loading, an unloadable one is remembered, an error starts the offline wait, the counter goes down by one modulo 2^32; at most its node's tile enters memory, the root stays, no request is posted; no crash when Ok responses carry nodes |
| ManagerSpec.ProcessAll | streaming-atlod/src/terrainmanager.cpp:490-524 | handling the queue in order keeps the state well formed |
| ManagerSpec.SummariesByPosition | streaming-atlod/src/terrainmanager.cpp:494-511 | the batch summaries are the keys, the unloadable keys and the error flag of the responses, position by position |
| ManagerSpec.CounterStep | streaming-atlod/src/terrainmanager.cpp:495 | one more unsigned decrement is subtracting one more modulo 2^32 |
| ManagerSpec.ProcessAllFacts | streaming-atlod/src/terrainmanager.cpp:490-524 | a batch that runs to its end leaves no responded tile loading, adds exactly the tiles answered unloadable, sets the offline wait exactly on an error, and lowers the counter by the batch size modulo 2^32 |
| ManagerSpec.ProcessAllNoCrash | streaming-atlod/src/terrainmanager.cpp:490-524 | when every Ok and stopped-thread response carries its node, the batch never dereferences a null node |
| ManagerSpec.WorkerBatchCarriesNodes | streaming-atlod/src/loadworkerthread.cpp:100-120 | responses built as the load worker builds them (a node exactly for LOAD_OK) carry their nodes exactly when none is a LOAD_STOPPED_THREAD |
| ManagerSpec.WorkerBatchNoCrash | streaming-atlod/src/terrainmanager.cpp:490-524 | a batch from the load worker with no stopped-thread response never dereferences a null node |
| ManagerSpec.ProcessAllStep | streaming-atlod/src/terrainmanager.cpp:494-523 | one more response is one more ProcessResponse |
| ManagerSpec.ProcessAllStops | streaming-atlod/src/terrainmanager.cpp:490-524 | once a response hangs or crashes, the later ones are never handled |
| ManagerSpec.ProcessAllMemory | streaming-atlod/src/terrainmanager.cpp:490-524 | a batch admits to memory only the tiles of its nodes, keeps the root, and posts no load request |
| ManagerSpec.UnloadDone | streaming-atlod/src/terrainmanager.cpp:529-539 | deletion answers change only the set of tiles being deleted |
| ManagerSpec.UnloadDoneStep | streaming-atlod/src/terrainmanager.cpp:533-534 | each answer takes its tile out of that set, whatever its status |
| ManagerSpec.UnloadDoneRemoves | streaming-atlod/src/terrainmanager.cpp:529-539 | the set loses exactly the answered tiles |
| ManagerSpec.SecondsOf | streaming-atlod/src/terrainmanager.cpp:561 | the conversion to whole seconds truncates toward zero, on both sides of zero |
| ManagerSpec.CooldownIff | streaming-atlod/src/terrainmanager.cpp:558-564 | the offline wait survives exactly while the clock is less than six seconds from the last error, in either direction; nothing else changes |
| ManagerSpec.Cooldown | streaming-atlod/src/terrainmanager.cpp:558-564 | the offline wait at the start of render; CooldownIff states when it ends and that nothing else changes |
| ManagerSpec.AncestorCompose | streaming-atlod/src/xyztilekey.cpp:37-55 | going up to one level and then to a lower one is going up to the lower one directly |
| ManagerSpec.ChildCovered | streaming-atlod/src/xyztilekey.cpp:37-55 | each child is one level deeper, lies under its parent, and its parent is the tile |
| ManagerSpec.ApartUnder | streaming-atlod/src/xyztilekey.cpp:37-55 | tiles under two different tiles of one level never cover each other |
| ManagerSpec.TouchDisk | streaming-atlod/src/terrainmanager.cpp:238-239 | get on the disk cache only reorders its entries |
| ManagerSpec.TouchMem | streaming-atlod/src/terrainmanager.cpp:241 | get on the memory cache only reorders its entries |
| ManagerSpec.Traverse | streaming-atlod/src/terrainmanager.cpp:236-284 | collectRenderable only reorders the caches and adds loading tiles, and queues tiles under the start tile that are resident, within range and up to the maximum zoom, none covering another |
| ManagerSpec.TraverseChildren | streaming-atlod/src/terrainmanager.cpp:276-282 | the split case: the four children in order keep the same guarantees |
| ManagerSpec.DrawableJoin | streaming-atlod/src/terrainmanager.cpp:276-282 | the lists queued under the four children join into one list under the parent |
| ManagerSpec.SplitDrawable | streaming-atlod/src/terrainmanager.cpp:276-282 | the same join when only children within range are known drawable |
| ManagerSpec.DrawAll | streaming-atlod/src/terrainmanager.cpp:584-599 | the drawing loop's gets only reorder the memory cache |
| ManagerSpec.DrawAllStep | streaming-atlod/src/terrainmanager.cpp:584-589 | one more tile drawn is one more get on the memory cache |
| ManagerSpec.Render | streaming-atlod/src/terrainmanager.cpp:549-599 | a frame that ends keeps the state well formed; its callers' properties are stated by RenderFacts and RenderWaitsForRoot |
| ManagerSpec.RenderFacts | streaming-atlod/src/terrainmanager.cpp:549-599 | a frame keeps the root in memory once it is there, and draws only resident tiles within range and up to the maximum zoom, none covering another; the camera tile the collision test gets (line 755) is resident too |
| ManagerSpec.RenderWaitsForRoot | streaming-atlod/src/terrainmanager.cpp:570-572 | without the root in memory and none arriving, the frame draws nothing and requests nothing |
| ManagerSpec.CameraTile | streaming-atlod/src/terrainmanager.cpp:293-308 | the tile the collision test reads is the root or a collected tile the camera stands over |
| ManagerSpec.CameraTileIsLast | streaming-atlod/src/terrainmanager.cpp:263-270 | it is the last collected tile under the camera, and the root when none is |
| ManagerSpec.OverlayPass | streaming-atlod/src/terrainmanager.cpp:436-451 | the overlay pass only removes files |
| ManagerSpec.HeightmapPass | streaming-atlod/src/terrainmanager.cpp:453-467 | the heightmap pass only removes files |
| ManagerSpec.OverlayPassStep | streaming-atlod/src/terrainmanager.cpp:442-449 | one overlay: kept when its heightmap exists, otherwise its overlay file is removed |
| ManagerSpec.HeightmapPassStep | streaming-atlod/src/terrainmanager.cpp:460-465 | one heightmap: removed unless its tile was kept |
| ManagerSpec.TileFilesOf | streaming-atlod/src/terrainmanager.cpp:403-405 | a tile's heightmap and overlay files are among the files of a tile set exactly when the tile is in the set |
| ManagerSpec.OverlayPassFacts | streaming-atlod/src/terrainmanager.cpp:436-451 | the kept tiles are exactly the listed overlays with a heightmap, and exactly the overlays without one are removed |
| ManagerSpec.HeightmapPassFacts | streaming-atlod/src/terrainmanager.cpp:453-467 | exactly the listed heightmaps of tiles not kept are removed |
| ManagerSpec.PassesPairFiles | streaming-atlod/src/terrainmanager.cpp:407-467 | with complete listings, a tile is kept exactly when both its files exist, both files survive exactly for kept tiles, and every removed file belongs to a tile not kept |
| ManagerSpec.FillStep | streaming-atlod/src/terrainmanager.cpp:470-483 | one put of the fill loop changes only the disk cache and only removes files |
| ManagerSpec.DiskFill | streaming-atlod/src/terrainmanager.cpp:469-484 | the fill loop in a given order changes only the disk cache and only removes files |
| ManagerSpec.DiskFillStep | streaming-atlod/src/terrainmanager.cpp:469-484 | one more tile of the fill order is one more FillStep, and a loop that never ended stays so |
| ManagerSpec.InitDiskCache | streaming-atlod/src/terrainmanager.cpp:407-485 | initDiskCache changes only the disk cache and only removes files |
| ManagerSpec.FillStepEffect | streaming-atlod/src/terrainmanager.cpp:470-483 | the loop spins exactly when no key of old plus new passes the check; otherwise either the tile just joins the cache, or one entry leaves it and both its files are removed |
| ManagerSpec.DiskFillNeverSpins | streaming-atlod/src/terrainmanager.cpp:475-479 | with an empty memory cache every non-root tile is evictable, so the fill always ends |
| ManagerSpec.DiskFillFiles | streaming-atlod/src/terrainmanager.cpp:469-484 | from an empty disk cache, the fill holds as many of the tiles as fit (all while they fit), and removes the two files of exactly the tiles put in and let go |
| ManagerSpec.InitDiskCacheFacts | streaming-atlod/src/terrainmanager.cpp:407-485 | from empty caches with complete listings: the disk cache holds min(count, capacity) tiles, all of them when they fit, each with both files; a tile's files survive exactly when it is cached; only tile files are removed |
| Manager.HasChildren | streaming-atlod/src/terrainmanager.cpp:799-805 | hasChildren on the memory cache object agrees with the specification on its keys |
| Manager.CheckEviction | streaming-atlod/src/terrainmanager.cpp:225-228 | checkEviction on the memory cache object agrees with the specification |
| Manager.AllChildrenExistant | streaming-atlod/src/terrainmanager.cpp:348-354 | allChildrenExistant on the memory cache object agrees with the specification |
| Manager.PutBack | streaming-atlod/src/terrainmanager.cpp:192-194 | one turn of a reinsertion loop on the cache object: the cache's entries become put's, the entry in hand next is the old back entry, and one try fewer is left |
| ManagerSpec.ReinsertPutBack | streaming-atlod/src/terrainmanager.cpp:191-194 | after such a turn the cache stays full and well formed, the cache and the entry in hand hold the same keys as before, and the rest of the loop is the loop from the new state with one try fewer |
| Manager.MemoryReinsert | streaming-atlod/src/terrainmanager.cpp:191-195 | the memory reinsertion loop, proved against Reinsert: it ends exactly when Reinsert evicts, leaving the cache Reinsert gives |
| Manager.MemoryPut | streaming-atlod/src/terrainmanager.cpp:169-195 | the put into the memory cache and its loop leave the cache CachePut gives |
| Manager.DiskReinsert | streaming-atlod/src/terrainmanager.cpp:208-211 | the disk reinsertion loop, with the check on the memory cache and the loading set, ends exactly when Reinsert evicts, with its cache and victim |
| Manager.DiskPut | streaming-atlod/src/terrainmanager.cpp:205-211 | the put into the disk cache and its loop leave the cache and victim CachePut gives |
| Manager.FillPut | streaming-atlod/src/terrainmanager.cpp:470-483 | one put of initDiskCache's fill loop, with the two file removals for a victim, is FillStep |
| Manager.FillNext | streaming-atlod/src/terrainmanager.cpp:469-484 | one more pass of the fill loop extends DiskFill by one tile |
| Manager.Fill | streaming-atlod/src/terrainmanager.cpp:469-484 | the fill loop visits each kept tile once in some order, all of them unless a loop never ends, and leaves the cache and files DiskFill gives for that order |
| Manager.OverlayPass | streaming-atlod/src/terrainmanager.cpp:436-451 | the overlay loop on the file system gives the kept tiles and the files of the OverlayPass function |
| Manager.HeightmapPass | streaming-atlod/src/terrainmanager.cpp:453-467 | the heightmap loop on the file system leaves the files of the HeightmapPass function |
| Manager.TerrainManager.SnapWf | streaming-atlod/src/terrainmanager.h:35-129 | a valid manager object gives a well-formed specification state |
| Manager.TerrainManager.constructor | streaming-atlod/src/terrainmanager.cpp:17-80 | a new manager has empty caches of the configured sizes, the given worker queues, no tiles loading, unloadable or being deleted, zero counters and no offline wait |
| Manager.TerrainManager.RequestNode | streaming-atlod/src/terrainmanager.cpp:326-341 | requestNode on the object is the RequestNode function |
| Manager.TerrainManager.PostRequest | streaming-atlod/src/terrainmanager.cpp:332-339 | the guarded body of requestNode is RequestNode when the guard holds |
| Manager.TerrainManager.RequestChildren | streaming-atlod/src/terrainmanager.cpp:314-320 | requestChildren on the object is the RequestChildren function |
| Manager.TerrainManager.MemoryInsert | streaming-atlod/src/terrainmanager.cpp:169-202 | the memory half of initTerrainNode on the object is MemoryInsert, ending exactly when it does |
| Manager.TerrainManager.DiskInsert | streaming-atlod/src/terrainmanager.cpp:205-214 | the disk half of initTerrainNode on the object is DiskInsert, ending exactly when it does |
| Manager.TerrainManager.RecordEviction | streaming-atlod/src/terrainmanager.cpp:212-213 | the victim joins the pending deletions and one unload request is pushed; nothing else changes |
| Manager.TerrainManager.FillDiskCache | streaming-atlod/src/terrainmanager.cpp:469-484 | the fill loop on the object's disk cache and file system is DiskFill over the order it took |
| Manager.TerrainManager.InitDiskCache | streaming-atlod/src/terrainmanager.cpp:407-485 | initDiskCache on the object is the InitDiskCache function over the fill order it took |
| Manager.TerrainManager.Setup | streaming-atlod/src/terrainmanager.cpp:85-123 | setup's bookkeeping: initDiskCache, then the request for the root tile |
| Manager.TerrainManager.InitTerrainNode | streaming-atlod/src/terrainmanager.cpp:129-215 | initTerrainNode on the object reports what InitTerrainNode gives, and never crashes |
| Manager.TerrainManager.Acknowledge | streaming-atlod/src/terrainmanager.cpp:495-500 | the first lines of handling a response are Acknowledge |
| Manager.TerrainManager.ProcessResponse | streaming-atlod/src/terrainmanager.cpp:495-522 | one response on the object reports what ProcessResponse gives |
| Manager.TerrainManager.ProcessAllDoneQueue | streaming-atlod/src/terrainmanager.cpp:490-524 | the done queue is emptied and the object reports what ProcessAll gives for the responses it held |
| Manager.TerrainManager.ProcessAllUnloadDoneQueue | streaming-atlod/src/terrainmanager.cpp:529-539 | the deletion answer queue is emptied and the object is UnloadDone of the answers it held |
| Manager.TerrainManager.EndOfflineWait | streaming-atlod/src/terrainmanager.cpp:558-564 | the start of render is Cooldown |
| Manager.TerrainManager.TouchDisk | streaming-atlod/src/terrainmanager.cpp:238-239 | get on the disk cache object is TouchDisk |
| Manager.TerrainManager.TouchMemory | streaming-atlod/src/terrainmanager.cpp:241 | get on the memory cache object is TouchMem |
| Manager.TerrainManager.CollectRenderable | streaming-atlod/src/terrainmanager.cpp:236-284 | collectRenderable on the object gives the state and queued tiles of Traverse |
| Manager.TerrainManager.CollectChildren | streaming-atlod/src/terrainmanager.cpp:276-282 | the four recursive calls give TraverseChildren |
| Manager.TerrainManager.DrawTiles | streaming-atlod/src/terrainmanager.cpp:584-599 | the drawing loop's gets give DrawAll |
| Manager.TerrainManager.Render | streaming-atlod/src/terrainmanager.cpp:549-599 | render on the object reports the frame of the Render function: the new state after the collision test's get and the drawing gets, and the tiles drawn, or that it hangs or crashes |

## Left out

- OpenGL (textures, buffers, shaders, drawing), GLFW and the statistics counters are not modelled: they are output only.
- Threads, mutexes and the workers' run loops are not modelled. Queues are sequential objects, and one worker batch is one call.
- Network, disk reads, image decoding and the clock are parameters: the loads take the outcome of each step as input, and time is an integer number of milliseconds.
- A decoded heightmap is always a 512×512 RGB raster (`Nodes.Raster`, 786432 bytes). The source keeps whatever width and height the WebP image has (loadworkerthread.cpp lines 186-206 and 294-328) and never checks them, while terrainnode.cpp lines 32-33 and 48 scan and index at a fixed 512; the out-of-bounds reads a smaller image would cause cannot be expressed in the model.
- `Files.FileSystem.Remove` is the non-failing case of `std::filesystem::remove`: true exactly when the file existed. The overload the source calls (diskdeallocationworkerthread.cpp lines 51-52, unloadworkerthread.cpp lines 62-63, terrainmanager.cpp line 448) throws `filesystem_error` on an operating-system error such as a denied permission; nothing catches it, so the process ends. That path is not modelled.
- ManagerSpec.Render: one clock value `now` serves the whole frame, both for the offline cool-down and for stamping LOAD_ERROR responses. The source reads the clock again for each error response (terrainmanager.cpp line 509, against line 560), so in the model every error of a frame carries the frame's start time.
- Floating point is not modelled: the camera, map projections, vertex positions, the rim points of the pole mesh, the +6.5 horizon offset, `horizonCulled`, `shouldSplit`, `computeBaseDistWithLatitude`, the bounds test of `updateMinimumDistanceTileKey` and the height arithmetic of `checkCollision`. The traversal takes visibility (`inView`), the split decision (`wantsSplit`) and whether the camera lies over a tile (`underCamera`) as predicates, and the box folds work on reals. The memory cache `get` that `checkCollision` does on the camera tile (terrainmanager.cpp line 755) is modelled: Render touches CameraTile before the drawing loop.
- Directory creation in `initDiskCache` is not modelled. Directory listings are given as sequences of tile keys, so file names that the regular expression rejects and the parse of the matched digits are not modelled.
- The iteration order of `std::unordered_map` is not modelled. The fill loop of `initDiskCache` takes whatever order it picks, and returns it.
- Setting `traversed[evictedKey]` to an empty default for a key never listed is not modelled. Every key in the disk cache at start-up was listed.
- Freeing nodes and buffers, and the `.value()` on a missing memory cache entry in the render loop, are not modelled. A drawn tile is always resident (RenderFacts). One free matters: when the memory loop lets go of the new node itself, initTerrainNode frees it (terrainmanager.cpp line 199) and then reads its tile key for the disk cache (line 205). MemoryInsertCanLetGoNew shows this happens with room for one node and only the root resident; MemoryInsertKeepsNew shows it cannot when some other resident tile could be let go. Otherwise every resident tile is an ancestor of the new one, at most 30 tiles up to zoom 29, so a full cache of 200 to 500 nodes, the sizes the configuration accepts, always has another candidate; the model does not prove this counting step. The model reads the key from the node value, as if it were read before the free.
- `_lastUsedTimeStamp` is not modelled (it is written but never read), and `shutdown` is not modelled (it is empty).
- The manager's keys are `TileKey` values, not their strings. The round trip from `string()` to the parse is proved in TileKeys, so the two are interchangeable.
- The text of error messages (such as "Something went wrong disk dealloc") is not modelled.
- URLs, curl options and the OS call that checks for curl are not modelled: each is a boolean or status input of the load tables.
- Cache capacities of at least 1 and at least one load worker are required. The source would call `back()` on an empty list, or take a remainder by zero; the configuration ranges guarantee both.
- Traversal and rendering require `maxZoom <= 29`, the configuration bound, so child coordinates never wrap.
- ManagerSpec.MemoryNeverSpins: also requires every zoom level in memory to be below 2^32 - 1, which the zoom bound of the requests ensures.
- ManagerSpec.InitDiskCacheFacts: stated for the start-up state of empty caches, which is how `setup` calls it.
- Manager.Fill: the fill loop of `initDiskCache` reuses the disk-cache reinsertion loop with an empty loading set. In the source that loop checks only `checkEviction`, which is the same thing when nothing is loading.
- Manager.Fill: when a reinsertion loop would never end, the returned order covers only the tiles taken so far.
- Config: the initial values of the numeric fields are taken as 0, because the header that declares them is out of date.
- Nodes.GridSamplesLayout: the samples hold the raw code CodeAt; the projection to the ellipsoid is left out.

## Findings

| source | as written | input that shows it | evidently intended | confidence | as-written member | corrected member |
|---|---|---|---|---|---|---|
| streaming-atlod/src/terrainnode.cpp:113-114 | the pixel under grid point i is floor(i·511/3) | i = 2 reads pixel 340, while the point sits at the far edge of the tile, whose pixel is 511 | floor(i·511/2), so the readings are at pixels 0, 255 and 511, matching the positions x + i/2 | not executed | Nodes.AsWrittenMissesFarEdge | Nodes.GridSamplesCorrectedLayout |
