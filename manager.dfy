/**
 * manager/manager.go: Run, the per-URL pipeline
 * probe -> chunk size -> plan -> fetch every segment -> merge -> cleanup if merged.
 *
 * The network (the HEAD probe with its Content-Length, the ranged GETs) and
 * the file-name extraction are oracles bundled in an Environment. The
 * segment fetches, concurrent in the source, run here one after the other:
 * FetchAll shows that each temporary file depends only on its own response,
 * so the order does not matter. What Run logs per URL is returned as a
 * sequence of outcomes.
 */
module Manager {
  import opened Wrappers
  import opened Models

  type Url = string

  /** The HEAD probe: failed, or answered with a Content-Length that parses as an integer (Some) or not (None). */
  datatype Head = HeadFailed | HeadOk(contentLength: Option<int>)

  datatype Environment = Environment(
    head: Url -> Head,                 // HEAD request and Content-Length parsing
    get: Fetcher,                      // ranged GET
    fileName: Url -> Option<string>)   // file-name extraction from the URL

  /** What happened to one URL (the source logs it). */
  datatype UrlOutcome =
    | ProbeFailed
    | BadContentLength
    | NoFileName
    | MergeFailed(err: DownloadError)
    | Downloaded(fileName: string)

  /** Integer division truncating toward zero, as Go's `/` on int. */
  function GoDiv(a: int, b: int): (q: int)
    requires b > 0
    ensures a >= 0 ==> 0 <= a - b * q < b
    ensures a < 0 ==> -b < a - b * q <= 0
  {
    if a >= 0 then a / b else -((-a) / b)
  }

  /** The request Run builds for a URL: `workers` chunks of `contentLength / workers` bytes. */
  function RequestFor(u: Url, name: string, contentLength: int, dir: string, workers: nat): DownloadRequest
    requires workers > 0
  {
    DownloadRequest(u, name, workers, GoDiv(contentLength, workers), contentLength, dir)
  }

  // ---------------------------------------------------------------------
  // Fetching every segment
  // ---------------------------------------------------------------------

  /**
   * The directory after one Download per range of `plan`, segment `i`
   * fetching `plan[i]`: a successful segment's temporary file holds its
   * body, a failed segment's temporary file is whatever was there before,
   * and no other file changes.
   */
  function FetchAll(req: DownloadRequest, plan: seq<ByteRange>, get: Fetcher, fs: FileSystem): (r: FileSystem)
    ensures AgreeExcept(fs, r, TmpPathsBelow(req, |plan|))
    ensures forall i :: 0 <= i < |plan| && Succeeded(get(req.url, plan[i])) ==>
      TmpFilePath(req, i) in r && r[TmpFilePath(req, i)] == get(req.url, plan[i]).body
    ensures forall i :: 0 <= i < |plan| && !Succeeded(get(req.url, plan[i])) ==>
      (TmpFilePath(req, i) in r <==> TmpFilePath(req, i) in fs) &&
      (TmpFilePath(req, i) in fs ==> r[TmpFilePath(req, i)] == fs[TmpFilePath(req, i)])
    decreases |plan|
  {
    if plan == [] then fs
    else
      var last := |plan| - 1;
      Download(req, last, plan[last], get, FetchAll(req, plan[..last], get, fs)).1
  }

  /** One Download per planned range, in index order; a failed segment does not stop the others. */
  method FetchSegments(req: DownloadRequest, byteRangeArray: array<ByteRange>, get: Fetcher, fs: FileSystem)
    returns (fs': FileSystem)
    ensures fs' == FetchAll(req, byteRangeArray[..], get, fs)
  {
    fs' := fs;
    for idx := 0 to byteRangeArray.Length
      invariant fs' == FetchAll(req, byteRangeArray[..idx], get, fs)
    {
      assert byteRangeArray[..idx + 1][..idx] == byteRangeArray[..idx];
      var result := Download(req, idx, byteRangeArray[idx], get, fs');
      fs' := result.1;  // an error is only logged
    }
    assert byteRangeArray[..byteRangeArray.Length] == byteRangeArray[..];
  }

  // ---------------------------------------------------------------------
  // One URL, then all of them
  // ---------------------------------------------------------------------

  /** The effect of one iteration of Run's loop on URL `u`. */
  function ProcessUrl(u: Url, dir: string, env: Environment, workers: nat, fs: FileSystem)
    : (r: (UrlOutcome, FileSystem))
    requires workers > 0
    ensures r.0.ProbeFailed? <==> env.head(u).HeadFailed?
    ensures env.head(u).HeadFailed? ==> r == (ProbeFailed, fs)
    ensures env.head(u) == HeadOk(None) ==> r == (BadContentLength, fs)
    ensures env.head(u).HeadOk? && env.head(u).contentLength.Some? && env.fileName(u).None? ==> r == (NoFileName, fs)
    ensures r.0.ProbeFailed? || r.0.BadContentLength? || r.0.NoFileName? ==> r.1 == fs
  {
    match env.head(u)
    case HeadFailed => (ProbeFailed, fs)
    case HeadOk(None) => (BadContentLength, fs)
    case HeadOk(Some(contentLength)) =>
      match env.fileName(u)
      case None => (NoFileName, fs)
      case Some(name) =>
        var req := RequestFor(u, name, contentLength, dir, workers);
        var fetched := FetchAll(req, Plan(req), env.get, fs);
        var merged := Merge(req, fetched);
        if merged.0.Some? then (MergeFailed(merged.0.value), merged.1)
        else (Downloaded(name), Cleaned(req, merged.1))
  }

  /** Run's loop over `urls`, in order: one outcome per URL, each URL seeing the directory the previous ones left. */
  function RunAll(urls: seq<Url>, dir: string, env: Environment, workers: nat, fs: FileSystem)
    : (r: (seq<UrlOutcome>, FileSystem))
    requires workers > 0
    ensures |r.0| == |urls|
    decreases |urls|
  {
    if urls == [] then ([], fs)
    else
      var before := RunAll(urls[..|urls| - 1], dir, env, workers, fs);
      var step := ProcessUrl(urls[|urls| - 1], dir, env, workers, before.1);
      (before.0 + [step.0], step.1)
  }

  method Run(urls: seq<Url>, downloadDir: string, env: Environment, workers: nat, fs: FileSystem)
    returns (outcomes: seq<UrlOutcome>, fs': FileSystem)
    requires workers > 0
    ensures (outcomes, fs') == RunAll(urls, downloadDir, env, workers, fs)
  {
    outcomes, fs' := [], fs;
    for i := 0 to |urls|
      invariant (outcomes, fs') == RunAll(urls[..i], downloadDir, env, workers, fs)
    {
      assert urls[..i + 1][..i] == urls[..i];
      var u := urls[i];
      var head := env.head(u);
      if head.HeadFailed? {
        outcomes := outcomes + [ProbeFailed];
        continue;
      }
      if head.contentLength.None? {
        outcomes := outcomes + [BadContentLength];
        continue;
      }
      var contentLength := head.contentLength.value;
      var fname := env.fileName(u);
      if fname.None? {
        outcomes := outcomes + [NoFileName];
        continue;
      }
      var chunks := workers;
      var chunksize := GoDiv(contentLength, chunks);
      var req := DownloadRequest(u, fname.value, chunks, chunksize, contentLength, downloadDir);
      var byteRangeArray := SplitIntoChunks(req);
      fs' := FetchSegments(req, byteRangeArray, env.get, fs');
      var err;
      err, fs' := MergeDownloads(req, fs');
      if err.Some? {
        outcomes := outcomes + [MergeFailed(err.value)];
        continue;
      }
      var cleanupErr;
      cleanupErr, fs' := CleanupTmpFiles(req, fs');
      outcomes := outcomes + [Downloaded(fname.value)];
    }
    assert urls[..|urls|] == urls;
  }

  // ---------------------------------------------------------------------
  // Properties of the pipeline
  // ---------------------------------------------------------------------

  lemma RunAllLast(urls: seq<Url>, dir: string, env: Environment, workers: nat, fs: FileSystem)
    requires workers > 0 && urls != []
    ensures var before := RunAll(urls[..|urls| - 1], dir, env, workers, fs);
            var step := ProcessUrl(urls[|urls| - 1], dir, env, workers, before.1);
            RunAll(urls, dir, env, workers, fs) == (before.0 + [step.0], step.1)
  {
  }

  /** Processing `a` then `b` is processing `a + b`: URLs go strictly in order and none stops the next. */
  lemma {:induction false} RunAllAppend(a: seq<Url>, b: seq<Url>, dir: string, env: Environment, workers: nat, fs: FileSystem)
    requires workers > 0
    ensures var first := RunAll(a, dir, env, workers, fs);
            var second := RunAll(b, dir, env, workers, first.1);
            RunAll(a + b, dir, env, workers, fs) == (first.0 + second.0, second.1)
    decreases |b|
  {
    if b == [] {
      assert a + b == a;
      var first := RunAll(a, dir, env, workers, fs);
      assert RunAll(b, dir, env, workers, first.1) == ([], first.1);
      assert first.0 + [] == first.0;
    } else {
      var b' := b[..|b| - 1];
      RunAllAppend(a, b', dir, env, workers, fs);
      assert (a + b)[..|a + b| - 1] == a + b';
      assert (a + b)[|a + b| - 1] == b[|b| - 1];
      RunAllLast(a + b, dir, env, workers, fs);
      var first := RunAll(a, dir, env, workers, fs);
      RunAllLast(b, dir, env, workers, first.1);
      var rest := RunAll(b', dir, env, workers, first.1);
      var step := ProcessUrl(b[|b| - 1], dir, env, workers, rest.1);
      assert (first.0 + rest.0) + [step.0] == first.0 + (rest.0 + [step.0]);
    }
  }

  /** Outcome `i` is what processing URL `i` gives on the directory left by URLs 0 .. i-1. */
  lemma RunAllStepwise(urls: seq<Url>, dir: string, env: Environment, workers: nat, fs: FileSystem, i: nat)
    requires workers > 0 && i < |urls|
    ensures RunAll(urls, dir, env, workers, fs).0[i]
         == ProcessUrl(urls[i], dir, env, workers, RunAll(urls[..i], dir, env, workers, fs).1).0
  {
    RunAllAppend(urls[..i + 1], urls[i + 1..], dir, env, workers, fs);
    assert urls[..i + 1] + urls[i + 1..] == urls;
    assert urls[..i + 1][..i] == urls[..i];
  }

  /**
   * After a successful probe and name extraction: the URL is downloaded
   * exactly when every planned temporary file exists after the fetch, that
   * is when its GET succeeded or when a file of that name was already in the
   * directory. A merge failure skips cleanup and leaves every fetched segment
   * and the partial output behind; a success leaves the output holding the
   * segments in index order and no temporary file below `workers`.
   */
  lemma ProcessUrlMergeAndCleanup(u: Url, dir: string, env: Environment, workers: nat, fs: FileSystem,
                                  contentLength: int, name: string)
    requires workers > 0
    requires env.head(u) == HeadOk(Some(contentLength)) && env.fileName(u) == Some(name)
    ensures var req := RequestFor(u, name, contentLength, dir, workers);
            var plan := Plan(req);
            var r := ProcessUrl(u, dir, env, workers, fs);
            && (r.0 == Downloaded(name) <==>
                 forall i :: 0 <= i < workers ==> Succeeded(env.get(u, plan[i])) || TmpFilePath(req, i) in fs)
            && (r.0.MergeFailed? ==>
                 && OutputFilePath(req) in r.1
                 && forall i :: 0 <= i < workers && Succeeded(env.get(u, plan[i])) ==>
                      TmpFilePath(req, i) in r.1 && r.1[TmpFilePath(req, i)] == env.get(u, plan[i]).body)
            && (r.0.Downloaded? ==>
                 && r.1[OutputFilePath(req)] == Joined(req, FetchAll(req, plan, env.get, fs), workers)
                 && forall i :: 0 <= i < workers ==> TmpFilePath(req, i) !in r.1)
  {
    var req := RequestFor(u, name, contentLength, dir, workers);
    var fetched := FetchAll(req, Plan(req), env.get, fs);
    if forall i :: 0 <= i < workers ==> TmpFilePath(req, i) in fetched {
      MergeComplete(req, fetched);
    }
  }

  /**
   * A stale temporary file stands in for a failed segment (for instance one
   * answered with a status above 299): the URL is reported downloaded.
   */
  lemma StaleTempFileIsMerged(u: Url, dir: string, env: Environment, workers: nat, fs: FileSystem,
                              contentLength: int, name: string, k: nat)
    requires workers > 0 && k < workers
    requires env.head(u) == HeadOk(Some(contentLength)) && env.fileName(u) == Some(name)
    requires var req := RequestFor(u, name, contentLength, dir, workers);
             forall i :: 0 <= i < workers && i != k ==> Succeeded(env.get(u, Plan(req)[i]))
    requires !Succeeded(env.get(u, Plan(RequestFor(u, name, contentLength, dir, workers))[k]))
    requires Temp(dir, k) in fs
    ensures ProcessUrl(u, dir, env, workers, fs).0 == Downloaded(name)
  {
    ProcessUrlMergeAndCleanup(u, dir, env, workers, fs, contentLength, name);
  }

  /** A positive factor cancels from a strict inequality: `n * x < n * y` gives `x < y`. */
  lemma MulStrictCancel(n: int, x: int, y: int)
    requires n > 0 && n * x < n * y
    ensures x < y
  {
  }

  /** With `n >= 2` workers and more than `n * (n - 1)` bytes, every planned range is non-empty and in bounds. */
  lemma ChunkSizeLeavesLastRangeNonEmpty(n: int, t: int)
    requires n >= 2 && t > n * (n - 1)
    ensures (n - 1) * (GoDiv(t, n) + 1) <= t - 1
  {
    var c := t / n;
    var r := t % n;
    assert t == n * c + r && 0 <= r < n;
    assert n * (c + 1) == n * c + n;
    MulStrictCancel(n, n - 1, c + 1);
    assert (n - 1) * (c + 1) == n * c + (n - 1 - c);
  }

  lemma {:induction false} JoinedPieces(req: DownloadRequest, fs: FileSystem, content: Bytes, plan: seq<ByteRange>, k: nat)
    requires k <= |plan|
    requires forall i :: 0 <= i < |plan| ==> TmpFilePath(req, i) in fs && fs[TmpFilePath(req, i)] == Piece(content, plan[i])
    ensures Joined(req, fs, k) == Pieces(content, plan[..k])
  {
    if k > 0 {
      JoinedPieces(req, fs, content, plan, k - 1);
      assert plan[..k][..k - 1] == plan[..k - 1];
    }
  }

  /**
   * End to end: when the remote answers every in-bounds range with exactly
   * those bytes, there are at least two workers and the resource has more
   * than `workers * (workers - 1)` bytes, the URL is downloaded and the
   * output file is byte-for-byte the remote resource.
   */
  lemma ProcessUrlReassembles(u: Url, dir: string, env: Environment, workers: nat, fs: FileSystem,
                              content: Bytes, name: string)
    requires workers >= 2 && |content| > workers * (workers - 1)
    requires env.head(u) == HeadOk(Some(|content|)) && env.fileName(u) == Some(name)
    requires forall r: ByteRange :: 0 <= r.start <= r.end < |content| ==>
      env.get(u, r) == Reply(206, content[r.start..r.end + 1])
    ensures ProcessUrl(u, dir, env, workers, fs).0 == Downloaded(name)
    ensures ProcessUrl(u, dir, env, workers, fs).1[Named(dir, name)] == content
  {
    var req := RequestFor(u, name, |content|, dir, workers);
    var plan := Plan(req);
    ChunkSizeLeavesLastRangeNonEmpty(workers, |content|);
    PlanLastRange(req);
    PlanTiles(req);
    forall i | 0 <= i < workers
      ensures 0 <= plan[i].start <= plan[i].end < |content|
      ensures env.get(u, plan[i]) == Reply(206, Piece(content, plan[i]))
    {
      TilesStartBound(plan, |content|, i);
      TilesEndBound(plan, |content|, i);
    }
    var fetched := FetchAll(req, plan, env.get, fs);
    JoinedPieces(req, fetched, content, plan, workers);
    assert plan[..workers] == plan;
    PiecesReassemble(content, plan);
    ProcessUrlMergeAndCleanup(u, dir, env, workers, fs, |content|, name);
  }
}
