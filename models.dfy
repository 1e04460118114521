/**
 * models/download.go: the range planner (SplitIntoChunks), the segment
 * download (Download), the merge of temporary segment files
 * (MergeDownloads) and their removal (CleanupTmpFiles).
 *
 * The download directory is a value: a map from path to file contents.
 * Methods that change the directory take it in and give the new one back.
 */
module Models {
  import opened Wrappers

  type Byte = bv8
  type Bytes = seq<Byte>

  /** An inclusive byte interval, as written into a `Range: bytes=start-end` header. */
  datatype ByteRange = ByteRange(start: int, end: int)

  /**
   * A file of the download directory: the temporary file of segment `index`
   * ("<dir>/<prefix>-<index>.tmp") or a file named by the URL ("<dir>/<name>").
   */
  datatype Path =
    | Temp(dir: string, index: int)
    | Named(dir: string, name: string)

  type FileSystem = map<Path, Bytes>

  /** The fields of DownloadRequest that the algorithms read (the HTTP client is a parameter). */
  datatype DownloadRequest = DownloadRequest(
    url: string,
    fileName: string,
    chunks: nat,
    chunksize: int,
    totalSize: int,
    downloadDir: string)

  datatype DownloadError =
    | ChunkFail                    // the ranged GET itself failed
    | BadStatus(status: int)       // the GET answered with a status above 299
    | OpenChunkFailed(path: Path)  // the merge could not open a temporary file

  /** The answer to one ranged GET. */
  datatype Response = TransportError | Reply(status: int, body: Bytes)

  /** The remote side of a ranged GET: the response to (url, requested range). */
  type Fetcher = (string, ByteRange) -> Response

  function TmpFilePath(req: DownloadRequest, idx: int): Path {
    Temp(req.downloadDir, idx)
  }

  function OutputFilePath(req: DownloadRequest): Path {
    Named(req.downloadDir, req.fileName)
  }

  /** The temporary files of segments 0 .. k-1. */
  function TmpPathsBelow(req: DownloadRequest, k: int): set<Path> {
    set j | 0 <= j < k :: TmpFilePath(req, j)
  }

  /** `fs` and `fs'` hold the same files with the same contents, except possibly at `paths`. */
  ghost predicate AgreeExcept(fs: FileSystem, fs': FileSystem, paths: set<Path>) {
    forall p :: p !in paths ==> (p in fs <==> p in fs') && (p in fs ==> fs[p] == fs'[p])
  }

  // ---------------------------------------------------------------------
  // Range planning
  // ---------------------------------------------------------------------

  /**
   * Closed form of range `i` of the plan: every range before the last is
   * `chunksize + 1` bytes wide, the last one ends at `totalSize - 1`, and
   * range 0 is `[0, chunksize]` even when it is the only one.
   */
  function PlannedRange(req: DownloadRequest, i: int): ByteRange {
    var width := req.chunksize + 1;
    if i == 0 then ByteRange(0, req.chunksize)
    else if i == req.chunks - 1 then ByteRange(i * width, req.totalSize - 1)
    else ByteRange(i * width, i * width + req.chunksize)
  }

  /** The range plan: one range per chunk, range `i` given by PlannedRange. */
  function Plan(req: DownloadRequest): (plan: seq<ByteRange>)
    ensures |plan| == req.chunks
  {
    seq(req.chunks, i => PlannedRange(req, i))
  }

  /** Fills a fresh array of `Chunks` ranges, each one starting right after the previous one's end. */
  method SplitIntoChunks(req: DownloadRequest) returns (arr: array<ByteRange>)
    ensures arr[..] == Plan(req)
  {
    arr := new ByteRange[req.chunks];
    var i := 0;
    while i < req.chunks
      invariant 0 <= i <= req.chunks
      invariant forall j :: 0 <= j < i ==> arr[j] == PlannedRange(req, j)
    {
      if i == 0 {
        arr[i] := ByteRange(0, req.chunksize);
      } else if i == req.chunks - 1 {
        assert (i - 1) * (req.chunksize + 1) + req.chunksize + 1 == i * (req.chunksize + 1);
        arr[i] := ByteRange(arr[i - 1].end + 1, req.totalSize - 1);
      } else {
        assert (i - 1) * (req.chunksize + 1) + req.chunksize + 1 == i * (req.chunksize + 1);
        var start := arr[i - 1].end + 1;
        arr[i] := ByteRange(start, start + req.chunksize);
      }
      i := i + 1;
    }
  }

  /** The first range is `[0, chunksize]`; with a single chunk it is the whole plan. */
  lemma PlanFirstRange(req: DownloadRequest)
    requires req.chunks >= 1
    ensures Plan(req)[0] == ByteRange(0, req.chunksize)
    ensures req.chunks == 1 ==> Plan(req) == [ByteRange(0, req.chunksize)]
  {
  }

  /** Every range starts one byte after the previous one ends: no gap, no overlap. */
  lemma PlanContiguous(req: DownloadRequest)
    ensures forall i :: 1 <= i < req.chunks ==> Plan(req)[i].start == Plan(req)[i - 1].end + 1
  {
    var plan := Plan(req);
    forall i | 1 <= i < req.chunks
      ensures plan[i].start == plan[i - 1].end + 1
    {
      assert (i - 1) * (req.chunksize + 1) + req.chunksize + 1 == i * (req.chunksize + 1);
    }
  }

  /** Every range but the last is `chunksize + 1` bytes wide and starts at `i * (chunksize + 1)`. */
  lemma PlanInteriorRanges(req: DownloadRequest)
    ensures forall i :: 0 <= i < req.chunks - 1 ==>
      Plan(req)[i].end - Plan(req)[i].start == req.chunksize &&
      Plan(req)[i].start == i * (req.chunksize + 1)
  {
  }

  /**
   * With two or more chunks the last range ends at `totalSize - 1`; it is
   * inverted (start after end) exactly when the earlier ranges already reach
   * past `totalSize - 1`.
   */
  lemma PlanLastRange(req: DownloadRequest)
    requires req.chunks >= 2
    ensures Plan(req)[req.chunks - 1].end == req.totalSize - 1
    ensures Plan(req)[req.chunks - 1].start == (req.chunks - 1) * (req.chunksize + 1)
    ensures Plan(req)[req.chunks - 1].start > Plan(req)[req.chunks - 1].end
        <==> (req.chunks - 1) * (req.chunksize + 1) > req.totalSize - 1
  {
  }

  /**
   * A five-byte resource split four ways (chunk size 5 / 4 = 1): the third
   * range already reaches byte 5, one past the end, and the last range is `[6, 4]`.
   */
  lemma PlanCanInvert()
    ensures Plan(DownloadRequest("", "", 4, 1, 5, "")) ==
      [ByteRange(0, 1), ByteRange(2, 3), ByteRange(4, 5), ByteRange(6, 4)]
  {
  }

  // ---------------------------------------------------------------------
  // A plan that tiles a resource reassembles it
  // ---------------------------------------------------------------------

  /**
   * The ranges cover `[0, size - 1]` one after the other: the first starts
   * at 0, each starts right after the previous one, none is inverted by more
   * than an empty range, and the last ends at `size - 1`.
   */
  ghost predicate Tiles(plan: seq<ByteRange>, size: int) {
    && |plan| > 0
    && plan[0].start == 0
    && plan[|plan| - 1].end == size - 1
    && (forall i :: 1 <= i < |plan| ==> plan[i].start == plan[i - 1].end + 1)
    && (forall i :: 0 <= i < |plan| ==> plan[i].start <= plan[i].end + 1)
  }

  /** The bytes of `content` inside range `r` (empty when `r` is not within `content`). */
  function Piece(content: Bytes, r: ByteRange): Bytes {
    if 0 <= r.start <= r.end + 1 <= |content| then content[r.start..r.end + 1] else []
  }

  /** The pieces of `content` for each range of `plan`, concatenated in plan order. */
  function Pieces(content: Bytes, plan: seq<ByteRange>): Bytes {
    if plan == [] then [] else Pieces(content, plan[..|plan| - 1]) + Piece(content, plan[|plan| - 1])
  }

  lemma {:induction false} TilesStartBound(plan: seq<ByteRange>, size: int, i: int)
    requires Tiles(plan, size) && 0 <= i < |plan|
    ensures 0 <= plan[i].start
  {
    if i > 0 {
      TilesStartBound(plan, size, i - 1);
    }
  }

  lemma {:induction false} TilesEndBound(plan: seq<ByteRange>, size: int, i: int)
    requires Tiles(plan, size) && 0 <= i < |plan|
    ensures plan[i].end + 1 <= size
    decreases |plan| - i
  {
    if i < |plan| - 1 {
      TilesEndBound(plan, size, i + 1);
    }
  }

  lemma {:induction false} PiecesPrefix(content: Bytes, plan: seq<ByteRange>, k: int)
    requires Tiles(plan, |content|) && 1 <= k <= |plan|
    ensures 0 <= plan[k - 1].end + 1 <= |content|
    ensures Pieces(content, plan[..k]) == content[..plan[k - 1].end + 1]
  {
    TilesStartBound(plan, |content|, k - 1);
    TilesEndBound(plan, |content|, k - 1);
    var r := plan[k - 1];
    assert plan[..k][..k - 1] == plan[..k - 1];
    if k == 1 {
      assert Pieces(content, plan[..k]) == Pieces(content, []) + Piece(content, r);
    } else {
      PiecesPrefix(content, plan, k - 1);
      assert Pieces(content, plan[..k]) == content[..r.start] + content[r.start..r.end + 1];
    }
  }

  /** Fetching every range of a tiling plan and concatenating the pieces gives the resource back. */
  lemma PiecesReassemble(content: Bytes, plan: seq<ByteRange>)
    requires Tiles(plan, |content|)
    ensures Pieces(content, plan) == content
  {
    PiecesPrefix(content, plan, |plan|);
    assert plan[..|plan|] == plan;
  }

  /**
   * With two or more chunks, a non-negative chunk size and the last range
   * not inverted by more than an empty range, the plan tiles `[0, totalSize - 1]`.
   */
  lemma PlanTiles(req: DownloadRequest)
    requires req.chunks >= 2 && req.chunksize >= 0
    requires (req.chunks - 1) * (req.chunksize + 1) <= req.totalSize
    ensures Tiles(Plan(req), req.totalSize)
  {
    PlanContiguous(req);
    PlanLastRange(req);
    var plan := Plan(req);
    forall i | 0 <= i < |plan|
      ensures plan[i].start <= plan[i].end + 1
    {
    }
  }

  // ---------------------------------------------------------------------
  // Download of one segment
  // ---------------------------------------------------------------------

  /** A response is written to disk when it arrived and its status is at most 299. */
  predicate Succeeded(resp: Response) {
    resp.Reply? && resp.status <= 299
  }

  /**
   * Ranged GET of segment `idx`: on failure nothing is written; otherwise the
   * segment's temporary file holds the response body and no other file changes.
   */
  function Download(req: DownloadRequest, idx: int, byteChunk: ByteRange, get: Fetcher, fs: FileSystem)
    : (r: (Option<DownloadError>, FileSystem))
    ensures r.0 == None <==> Succeeded(get(req.url, byteChunk))
    ensures get(req.url, byteChunk).TransportError? ==> r.0 == Some(ChunkFail)
    ensures get(req.url, byteChunk).Reply? && get(req.url, byteChunk).status > 299 ==>
      r.0 == Some(BadStatus(get(req.url, byteChunk).status))
    ensures r.0 != None ==> r.1 == fs
    ensures r.0 == None ==>
      TmpFilePath(req, idx) in r.1 && r.1[TmpFilePath(req, idx)] == get(req.url, byteChunk).body
    ensures AgreeExcept(fs, r.1, {TmpFilePath(req, idx)})
  {
    var resp := get(req.url, byteChunk);
    match resp
    case TransportError => (Some(ChunkFail), fs)
    case Reply(status, body) =>
      if status > 299 then (Some(BadStatus(status)), fs)
      else (None, fs[TmpFilePath(req, idx) := body])
  }

  // ---------------------------------------------------------------------
  // Merge
  // ---------------------------------------------------------------------

  /** The first segment index at or after `i` whose temporary file is missing, or `chunks`. */
  function FirstMissingFrom(req: DownloadRequest, fs: FileSystem, i: nat): (k: nat)
    requires i <= req.chunks
    ensures i <= k <= req.chunks
    ensures forall j :: i <= j < k ==> TmpFilePath(req, j) in fs
    ensures k < req.chunks ==> TmpFilePath(req, k) !in fs
    decreases req.chunks - i
  {
    if i == req.chunks then i
    else if TmpFilePath(req, i) !in fs then i
    else FirstMissingFrom(req, fs, i + 1)
  }

  function FirstMissing(req: DownloadRequest, fs: FileSystem): nat {
    FirstMissingFrom(req, fs, 0)
  }

  /** Temporary files 0 .. k-1 concatenated in index order. */
  function Joined(req: DownloadRequest, fs: FileSystem, k: nat): Bytes
    requires forall j :: 0 <= j < k ==> TmpFilePath(req, j) in fs
  {
    if k == 0 then [] else Joined(req, fs, k - 1) + fs[TmpFilePath(req, k - 1)]
  }

  /**
   * The effect of MergeDownloads: the output file is truncated and then
   * receives the temporary files in index order up to the first missing one,
   * which is reported; every other file is left as it was.
   */
  function Merge(req: DownloadRequest, fs: FileSystem): (r: (Option<DownloadError>, FileSystem))
    ensures r.0 == None <==> forall j :: 0 <= j < req.chunks ==> TmpFilePath(req, j) in fs
    ensures OutputFilePath(req) in r.1
    ensures AgreeExcept(fs, r.1, {OutputFilePath(req)})
  {
    var k := FirstMissing(req, fs);
    var err := if k < req.chunks then Some(OpenChunkFailed(TmpFilePath(req, k))) else None;
    (err, fs[OutputFilePath(req) := Joined(req, fs, k)])
  }

  method MergeDownloads(req: DownloadRequest, fs: FileSystem) returns (err: Option<DownloadError>, fs': FileSystem)
    ensures (err, fs') == Merge(req, fs)
  {
    var out := OutputFilePath(req);
    fs' := fs[out := []];
    var idx := 0;
    while idx < req.chunks
      invariant 0 <= idx <= req.chunks
      invariant forall j :: 0 <= j < idx ==> TmpFilePath(req, j) in fs
      invariant fs' == fs[out := Joined(req, fs, idx)]
    {
      var tmp := TmpFilePath(req, idx);
      if tmp !in fs' {
        assert FirstMissing(req, fs) == idx;
        return Some(OpenChunkFailed(tmp)), fs';
      }
      fs' := fs'[out := fs'[out] + fs'[tmp]];
      idx := idx + 1;
    }
    err := None;
  }

  /** When every temporary file exists, the output is all of them concatenated in index order. */
  lemma MergeComplete(req: DownloadRequest, fs: FileSystem)
    requires forall j :: 0 <= j < req.chunks ==> TmpFilePath(req, j) in fs
    ensures Merge(req, fs).0 == None
    ensures Merge(req, fs).1[OutputFilePath(req)] == Joined(req, fs, req.chunks)
  {
  }

  /**
   * When temporary file `k` is the first missing one, the merge names it and
   * leaves behind an output holding exactly files 0 .. k-1.
   */
  lemma MergePartial(req: DownloadRequest, fs: FileSystem, k: nat)
    requires k < req.chunks
    requires forall j :: 0 <= j < k ==> TmpFilePath(req, j) in fs
    requires TmpFilePath(req, k) !in fs
    ensures Merge(req, fs).0 == Some(OpenChunkFailed(TmpFilePath(req, k)))
    ensures Merge(req, fs).1[OutputFilePath(req)] == Joined(req, fs, k)
  {
  }

  lemma {:induction false} JoinedOnlyReadsTemps(req: DownloadRequest, fs: FileSystem, fs': FileSystem, k: nat)
    requires forall j :: 0 <= j < k ==> TmpFilePath(req, j) in fs
    requires forall j :: 0 <= j < k ==> TmpFilePath(req, j) in fs' && fs'[TmpFilePath(req, j)] == fs[TmpFilePath(req, j)]
    ensures Joined(req, fs', k) == Joined(req, fs, k)
  {
    if k > 0 {
      JoinedOnlyReadsTemps(req, fs, fs', k - 1);
    }
  }

  /** Merging again over the result of a merge changes nothing: the output is truncated and rebuilt. */
  lemma MergeIdempotent(req: DownloadRequest, fs: FileSystem)
    ensures Merge(req, Merge(req, fs).1) == Merge(req, fs)
  {
    var fs1 := Merge(req, fs).1;
    var k := FirstMissing(req, fs);
    var k1 := FirstMissing(req, fs1);
    assert forall j :: TmpFilePath(req, j) in fs1 <==> TmpFilePath(req, j) in fs;
    assert k1 == k;
    JoinedOnlyReadsTemps(req, fs, fs1, k);
    assert fs1[OutputFilePath(req) := Joined(req, fs1, k1)] == fs1;
  }

  // ---------------------------------------------------------------------
  // Cleanup
  // ---------------------------------------------------------------------

  /** The directory after cleanup: every planned temporary file is gone, everything else is untouched. */
  function Cleaned(req: DownloadRequest, fs: FileSystem): (r: FileSystem)
    ensures forall j :: 0 <= j < req.chunks ==> TmpFilePath(req, j) !in r
    ensures AgreeExcept(fs, r, TmpPathsBelow(req, req.chunks))
  {
    fs - TmpPathsBelow(req, req.chunks)
  }

  /** Removes temporary files 0 .. chunks-1, skipping those that are missing; always reports no error. */
  method CleanupTmpFiles(req: DownloadRequest, fs: FileSystem) returns (err: Option<DownloadError>, fs': FileSystem)
    ensures err == None
    ensures fs' == Cleaned(req, fs)
  {
    fs' := fs;
    var idx := 0;
    while idx < req.chunks
      invariant 0 <= idx <= req.chunks
      invariant fs' == fs - TmpPathsBelow(req, idx)
    {
      var tmp := TmpFilePath(req, idx);
      assert TmpPathsBelow(req, idx + 1) == TmpPathsBelow(req, idx) + {tmp};
      if tmp in fs' {
        fs' := fs' - {tmp};
      }
      // a temporary file that is already gone fails to be removed; the loop goes on
      idx := idx + 1;
    }
    err := None;
  }

  /** Cleaning twice is the same as cleaning once. */
  lemma CleanupIdempotent(req: DownloadRequest, fs: FileSystem)
    ensures Cleaned(req, Cleaned(req, fs)) == Cleaned(req, fs)
  {
  }
}
