# zipService core, modelled in Dafny

zipService collects links under a task, downloads every link in parallel
byte-range segments, merges the segments into one file per link, and streams
the download directory back to the client as a zip archive. This project
models the parts of it that do the work and proves what they do:

- `models.dfy` (module `Models`, from `models/download.go`): the range
  planner `SplitIntoChunks`, the segment download `Download`, the merge
  `MergeDownloads` and the removal of temporary files `CleanupTmpFiles`.
  The download directory is a value, a map from `Path` to bytes; a path is
  either the temporary file of segment `i` or a file named by its URL.
- `manager.dfy` (module `Manager`, from `manager/manager.go`): `Run`, the
  per-URL pipeline probe, chunk size, plan, fetch every segment, merge, and
  cleanup only if the merge succeeded. The network and the file-name
  extraction are oracles (`Environment`). What `Run` logs for a URL is
  returned as a `UrlOutcome`.
- `service.dfy` (module `Service`, from `service/link_service.go`): the task
  registry `LinkService`, a class whose `tasks` map the methods update.
- `handlers.dfy` (module `Handlers`, from `handlers/archive.go`): the
  archive-name rule, the link-to-URL conversion loop, and the directory walk
  that picks the archive entries and names them.
- `wrappers.dfy` (module `Wrappers`): `Option` and `Result`.

Behaviours the proofs pin down:

- `SplitIntoChunks` with one chunk yields `[0, Chunksize]`. `Run` sets
  `Chunksize` to the whole content length, so that range asks for one byte
  past the end.
- When the resource is small compared with the chunk count, the last range
  is inverted. `PlanCanInvert` shows 5 bytes in 4 chunks giving
  `[0,1] [2,3] [4,5] [6,4]`.
- A merge failure skips cleanup, so temporary files stay in the shared
  directory. A later URL whose segment `k` fails then merges the stale file
  `k` left behind and is reported downloaded (`StaleTempFileIsMerged`).
- The registry stores its configuration but enforces no per-task link limit
  and no extension allow-list. `AddLink` fails only on an unknown task.

## Model

| member | source | states |
|---|---|---|
| Models.Plan | models/download.go:24 | the plan has exactly `Chunks` ranges |
| Models.SplitIntoChunks | models/download.go:23-39 | the array it fills equals the closed-form plan: range 0 is `[0, Chunksize]`, range `i` starts at `i*(Chunksize+1)`, the last ends at `TotalSize-1` |
| Models.PlanFirstRange | models/download.go:26-28 | the first range is `[0, Chunksize]`; with one chunk it is the whole plan, ending at `Chunksize` rather than `TotalSize-1` |
| Models.PlanContiguous | models/download.go:29-35 | every range starts one byte after the previous one ends: no gap and no overlap |
| Models.PlanInteriorRanges | models/download.go:32-35 | every range but the last is `Chunksize+1` bytes wide and starts at `i*(Chunksize+1)` |
| Models.PlanLastRange | models/download.go:29-31 | with two or more chunks the last range ends at `TotalSize-1`; it is inverted exactly when `(Chunks-1)*(Chunksize+1) > TotalSize-1` |
| Models.PlanCanInvert | models/download.go:23-39 | 5 bytes in 4 chunks of size 1 give `[0,1] [2,3] [4,5] [6,4]` |
| Models.PlanTiles | models/download.go:23-39 | with two or more chunks, a non-negative chunk size and a last range at worst empty, the plan tiles `[0, TotalSize-1]` |
| Models.PiecesReassemble | models/download.go:23-39 | concatenating a resource's bytes over a tiling plan, in plan order, gives the resource back |
| Models.Download | models/download.go:41-79 | a failed GET or a status above 299 returns an error and writes nothing; otherwise temp file `idx` holds the body and no other file changes |
| Models.FirstMissingFrom | models/download.go:96-101 | finds the first missing temp file at or after `i`; all files before it exist |
| Models.Merge | models/download.go:81-112 | the merge fails exactly when some temp file below `Chunks` is missing; the output file always exists; no other file changes |
| Models.MergeDownloads | models/download.go:81-112 | truncates the output, appends temp files in index order and stops at the first missing one, matching `Merge` |
| Models.MergeComplete | models/download.go:96-108 | when all temp files exist the merge succeeds and the output is their concatenation in index order |
| Models.MergePartial | models/download.go:96-101 | when temp file `k` is the first missing one, the merge reports it and the output left behind holds exactly files `0..k-1` |
| Models.MergeIdempotent | models/download.go:88-93 | merging again over a merge's result changes nothing, because the output is truncated and rebuilt |
| Models.Cleaned | models/download.go:114-128 | after cleanup no temp file below `Chunks` exists and every other file, including the output, is unchanged |
| Models.CleanupTmpFiles | models/download.go:114-128 | removes temp files `0..Chunks-1`, skips missing ones, always returns nil, matching `Cleaned` |
| Models.CleanupIdempotent | models/download.go:118-125 | cleaning twice equals cleaning once |
| Manager.GoDiv | manager/manager.go:64 | the chunk size is the content length divided by the worker count, truncated toward zero as Go's `/` does |
| Manager.FetchAll | manager/manager.go:84-96 | after one Download per range, each successful segment's temp file holds its body, each failed segment's temp file is what was there before, and nothing else changes |
| Manager.FetchSegments | manager/manager.go:84-96 | a Download is attempted for every planned range, and a failed one does not stop the rest |
| Manager.ProcessUrl | manager/manager.go:31-56 | a failed probe, an unparsable Content-Length and a missing file name each give their own skip outcome with the directory unchanged: the URL is skipped before any file is written |
| Manager.RunAll | manager/manager.go:27-113 | there is exactly one outcome per URL |
| Manager.Run | manager/manager.go:23-114 | processes the URLs in input order as `RunAll` does, skipping a URL on failure with `continue` |
| Manager.RunAllAppend | manager/manager.go:27-113 | processing `a + b` is processing `a` and then `b` on the directory `a` left: URLs are handled strictly in order and a failure never stops later URLs |
| Manager.RunAllStepwise | manager/manager.go:27-113 | outcome `i` is what URL `i` gives on the directory left by URLs `0..i-1` |
| Manager.ProcessUrlMergeAndCleanup | manager/manager.go:98-109 | a URL is downloaded exactly when every planned temp file exists after the fetch; on a merge failure cleanup is skipped and the fetched segments and partial output remain; on success the output is the segments in order and no temp file below the worker count remains |
| Manager.StaleTempFileIsMerged | manager/manager.go:84-103 | a temp file left by an earlier URL stands in for a failed segment (such as one answered with a status above 299), and the URL is reported downloaded |
| Manager.ChunkSizeLeavesLastRangeNonEmpty | manager/manager.go:60-64 | with `n >= 2` workers and more than `n*(n-1)` bytes, the chunk size `t/n` keeps the last range non-empty and in bounds |
| Manager.ProcessUrlReassembles | manager/manager.go:31-109 | if the server returns exactly the requested bytes for every in-bounds range, the output file is byte-for-byte the remote resource (two or more workers, more than `n*(n-1)` bytes) |
| Service.LinkService.constructor | service/link_service.go:21-26 | a new registry has no tasks, so `ActiveTasksCount() == 0` |
| Service.LinkService.CreateTask | service/link_service.go:29-39 | registers the ID with an empty link list, leaves other tasks unchanged, and raises the count by one when the ID is new |
| Service.LinkService.AddLink | service/link_service.go:42-53 | an unknown ID is an error and changes nothing; otherwise the link goes at the end of that task's list, with no limit or type check, and other tasks are unchanged |
| Service.LinkService.GetLinks | service/link_service.go:56-66 | returns the task's links in insertion order, or not-found for an unknown ID |
| Service.LinkService.ClearTask | service/link_service.go:69-79 | an unknown ID is an error; afterwards `GetLinks` and `GetTaskStatus` fail on that ID and other tasks are unchanged |
| Service.LinkService.GetTaskStatus | service/link_service.go:82-92 | equals the length of `GetLinks` for the same ID, and fails on exactly the IDs where `GetLinks` fails |
| Service.LinkService.ActiveTasksCount | service/link_service.go:94-98 | the number of registered task IDs |
| Handlers.ArchiveName | handlers/archive.go:120-126 | the name always ends in ".zip"; with no filename it is "downloads.zip"; otherwise it is the filename, with ".zip" added only when missing |
| Handlers.ArchiveNameIdempotent | handlers/archive.go:120-126 | applying the rule to its own output is the identity |
| Handlers.ParsedLinks | handlers/archive.go:96-103 | only links that parse are kept; each kept URL comes from an input string |
| Handlers.ConvertLinks | handlers/archive.go:95-103 | its loop builds `ParsedLinks`, dropping unparseable strings |
| Handlers.ParsedLinksAppend | handlers/archive.go:96-103 | conversion distributes over concatenation, so kept links keep their relative order |
| Handlers.ParsedLinksAllValid | handlers/archive.go:96-103 | when every string parses nothing is dropped and link `i` becomes URL `i` |
| Handlers.Callback | handlers/archive.go:137-169 | a visit becomes an entry exactly when it has no walk error, is not a directory, does not end in ".zip" and opens; the entry is named by its path relative to the download directory |
| Handlers.Walk | handlers/archive.go:137-169 | every entry comes from an eligible visit, carries its relative name and its bytes, and there are no more entries than visits |
| Handlers.StreamArchive | handlers/archive.go:133-176 | writes `Walk`'s entries in walk order and then appends the error text when the walk failed |
| Handlers.WalkStopsAtFirstError | handlers/archive.go:137-141 | visits after the first failing callback have no effect, and the walk reports an error |
| Handlers.WalkAppend | handlers/archive.go:137-169 | when no callback in `a` fails, `a`'s entries precede `b`'s: entries appear in walk order |

## Left out

- Goroutines, `sync.WaitGroup` and `sync.RWMutex`. The segment fetches run one after another; `Manager.FetchAll` shows each temp file depends only on its own response, so the order does not matter. The registry is single-threaded.
- Real HTTP. The HEAD probe with `strconv.Atoi` on Content-Length, the ranged GET and `util.ExtractFileName` are oracle functions in `Manager.Environment`.
- `util.WORKER_ROUTINES` and `util.TMP_FILE_PREFIX`. The worker count is the parameter `workers` (positive, since it divides). A temp file is the path `Temp(dir, idx)`.
- Models.Download: the nil dereference when the client call itself fails (download.go:51, a panic) is modelled as the error `ChunkFail` with no file written.
- Models.Download: failures of `os.MkdirAll`, `os.Create` and `io.Copy` are not modelled; the disk is assumed to accept every write.
- Models.CleanupTmpFiles: a failure of `os.Remove` on an existing temp file (permissions, I/O) is not modelled; every existing planned temp file is removed.
- Models.MergeDownloads: failures of `os.MkdirAll`, of creating the output and of `io.Copy` are not modelled. The missing-temp-file error is.
- Models.Path: a name derived from a URL is never equal to a temp-file name.
- Go's 64-bit `int` overflow in the range arithmetic is not modelled; integers are unbounded.
- `uuid.New`. `CreateTask` takes the drawn ID as a parameter.
- `url.Parse`, `filepath.Rel` and the order and per-file results of `filepath.Walk` are parameters.
- Handlers.Callback: failures of `zip.FileInfoHeader` and `zipWriter.CreateHeader` are not modelled. The deflate encoding, headers and central directory are not modelled either; the deferred `Close` writes the central directory after the error text.
- Handlers.StreamArchive: the trailer's position in the byte stream is not modelled. The zip writer buffers its output while the error text goes straight to the response, so buffered entry bytes can reach the client after the text; the model only states that the text follows the entries written.
- The HTTP handler bodies (status codes, JSON, `Content-Disposition`), `handlers/task.go`, `main.go`, `config/config.go` loading, and logging.
- Per-task link limits, the extension allow-list and `MaxConcurrentTasks`. The registry stores the `Config` but never reads it, so none is modelled as an error.
- The registry returns the task's link slice by value; aliasing of Go's backing array is not modelled.
