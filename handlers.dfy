/**
 * handlers/archive.go, the parts of DownloadAndArchiveHandler that decide
 * something: the archive-name rule, the conversion of link strings to URLs,
 * and the directory walk that chooses and names the archive entries.
 *
 * URL parsing, `filepath.Rel` and the order and results of the walk are
 * parameters; the zip encoding itself is not modelled, only which entries
 * are written, under which names, with which bytes, in which order.
 */
module Handlers {
  import opened Wrappers
  import opened Models
  import opened Manager

  predicate HasSuffix(s: string, suffix: string) {
    |suffix| <= |s| && s[|s| - |suffix|..] == suffix
  }

  const ZipSuffix := ".zip"
  const DefaultArchiveName := "downloads.zip"

  // ---------------------------------------------------------------------
  // Archive name
  // ---------------------------------------------------------------------

  /**
   * The name in Content-Disposition: the default without a `filename`
   * query, otherwise the filename itself, with ".zip" added once unless it
   * is already there.
   */
  function ArchiveName(filename: string): (name: string)
    ensures HasSuffix(name, ZipSuffix)
    ensures filename == "" ==> name == DefaultArchiveName
    ensures filename != "" ==> name == filename || name == filename + ZipSuffix
    ensures HasSuffix(filename, ZipSuffix) ==> name == filename
  {
    if filename == "" then DefaultArchiveName
    else if HasSuffix(filename, ZipSuffix) then filename
    else filename + ZipSuffix
  }

  /** Applying the rule to its own result changes nothing. */
  lemma ArchiveNameIdempotent(filename: string)
    ensures ArchiveName(ArchiveName(filename)) == ArchiveName(filename)
  {
    assert ArchiveName(filename) != "";
  }

  // ---------------------------------------------------------------------
  // Link conversion
  // ---------------------------------------------------------------------

  /** The links that parse, in their original order; the others are dropped. */
  function ParsedLinks(linkStrings: seq<string>, parse: string -> Option<Url>): (links: seq<Url>)
    ensures |links| <= |linkStrings|
    ensures forall l :: l in links ==> exists s :: s in linkStrings && parse(s) == Some(l)
    decreases |linkStrings|
  {
    if linkStrings == [] then []
    else
      var last := linkStrings[|linkStrings| - 1];
      var before := ParsedLinks(linkStrings[..|linkStrings| - 1], parse);
      match parse(last)
      case None => before
      case Some(u) => before + [u]
  }

  method ConvertLinks(linkStrings: seq<string>, parse: string -> Option<Url>) returns (links: seq<Url>)
    ensures links == ParsedLinks(linkStrings, parse)
  {
    links := [];
    for i := 0 to |linkStrings|
      invariant links == ParsedLinks(linkStrings[..i], parse)
    {
      assert linkStrings[..i + 1][..i] == linkStrings[..i];
      var u := parse(linkStrings[i]);
      if u.None? {
        continue;  // logged and skipped
      }
      links := links + [u.value];
    }
    assert linkStrings[..|linkStrings|] == linkStrings;
  }

  /** Conversion distributes over concatenation: the kept links keep their relative order. */
  lemma {:induction false} ParsedLinksAppend(a: seq<string>, b: seq<string>, parse: string -> Option<Url>)
    ensures ParsedLinks(a + b, parse) == ParsedLinks(a, parse) + ParsedLinks(b, parse)
    decreases |b|
  {
    if b == [] {
      assert a + b == a;
    } else {
      var b' := b[..|b| - 1];
      ParsedLinksAppend(a, b', parse);
      assert (a + b)[..|a + b| - 1] == a + b';
      assert (a + b)[|a + b| - 1] == b[|b| - 1];
    }
  }

  /** When every link parses, nothing is dropped: link `i` becomes URL `i`. */
  lemma {:induction false} ParsedLinksAllValid(linkStrings: seq<string>, parse: string -> Option<Url>)
    requires forall i :: 0 <= i < |linkStrings| ==> parse(linkStrings[i]).Some?
    ensures |ParsedLinks(linkStrings, parse)| == |linkStrings|
    ensures forall i :: 0 <= i < |linkStrings| ==>
      ParsedLinks(linkStrings, parse)[i] == parse(linkStrings[i]).value
    decreases |linkStrings|
  {
    if linkStrings != [] {
      var init := linkStrings[..|linkStrings| - 1];
      ParsedLinksAllValid(init, parse);
      var last := linkStrings[|linkStrings| - 1];
      assert ParsedLinks(linkStrings, parse) == ParsedLinks(init, parse) + [parse(last).value];
    }
  }

  // ---------------------------------------------------------------------
  // The walk that writes the archive entries
  // ---------------------------------------------------------------------

  /** Opening a file, and copying it into its entry (the bytes copied, and an error that cut the copy short). */
  datatype ReadResult =
    | OpenFailed(reason: string)
    | Copied(data: Bytes, copyErr: Option<string>)

  /** One call of the walk callback: the path, whether it is a directory, the error the walk passes in, the file's read. */
  datatype Visit = Visit(path: string, isDir: bool, walkErr: Option<string>, read: ReadResult)

  datatype Entry = Entry(name: string, data: Bytes)

  datatype ArchiveError =
    | WalkFailed(reason: string)
    | OpenError(path: string, reason: string)
    | CopyFailed(reason: string)

  /** What the callback does with one visit. */
  datatype Step =
    | Skip
    | Write(entry: Entry)
    | Stop(err: ArchiveError)
    | WriteThenStop(entry: Entry, err: ArchiveError)

  /** A visit that can become an entry: no walk error, not a directory, not a ".zip" path. */
  predicate Eligible(v: Visit) {
    v.walkErr.None? && !v.isDir && !HasSuffix(v.path, ZipSuffix)
  }

  predicate Stops(s: Step) {
    s.Stop? || s.WriteThenStop?
  }

  /**
   * The walk callback: a walk error stops the walk; directories and ".zip"
   * paths are skipped; a file that cannot be opened stops the walk; any
   * other file becomes an entry named by its path relative to the download
   * directory, and a failed copy stops the walk after that entry.
   */
  function Callback(v: Visit, downloadDir: string, rel: (string, string) -> string): (s: Step)
    ensures (s.Write? || s.WriteThenStop?) <==> Eligible(v) && v.read.Copied?
    ensures (s.Write? || s.WriteThenStop?) ==> s.entry == Entry(rel(downloadDir, v.path), v.read.data)
    ensures s.Skip? <==> v.walkErr.None? && (v.isDir || HasSuffix(v.path, ZipSuffix))
  {
    if v.walkErr.Some? then Stop(WalkFailed(v.walkErr.value))
    else if v.isDir || HasSuffix(v.path, ZipSuffix) then Skip
    else
      match v.read
      case OpenFailed(reason) => Stop(OpenError(v.path, reason))
      case Copied(data, None) => Write(Entry(rel(downloadDir, v.path), data))
      case Copied(data, Some(e)) => WriteThenStop(Entry(rel(downloadDir, v.path), data), CopyFailed(e))
  }

  /**
   * The entries the walk writes, in walk order, and the error that stopped
   * it: the walk ends at the first callback that fails.
   */
  function Walk(visits: seq<Visit>, downloadDir: string, rel: (string, string) -> string)
    : (r: (seq<Entry>, Option<ArchiveError>))
    ensures |r.0| <= |visits|
    ensures forall e :: e in r.0 ==>
      (exists v :: v in visits && Eligible(v) && v.read.Copied? && e == Entry(rel(downloadDir, v.path), v.read.data))
    decreases |visits|
  {
    if visits == [] then ([], None)
    else
      var rest := Walk(visits[1..], downloadDir, rel);
      match Callback(visits[0], downloadDir, rel)
      case Skip => rest
      case Write(e) => ([e] + rest.0, rest.1)
      case Stop(err) => ([], Some(err))
      case WriteThenStop(e, err) => ([e], Some(err))
  }

  /** The text of an archiving error, as the handler formats it. */
  function ErrorText(err: ArchiveError): string {
    match err
    case WalkFailed(reason) => reason
    case OpenError(path, reason) => "failed to open file " + path + ": " + reason
    case CopyFailed(reason) => reason
  }

  /** What is appended to the stream after the entries: nothing, or the error text. */
  function Trailer(err: Option<ArchiveError>): string {
    match err
    case None => ""
    case Some(e) => "\nError during archiving: " + ErrorText(e)
  }

  /**
   * Writes one entry per eligible file as the walk reaches it; on the first
   * error the walk stops, the entries already written stay, and the error
   * text follows them.
   */
  method StreamArchive(visits: seq<Visit>, downloadDir: string, rel: (string, string) -> string)
    returns (entries: seq<Entry>, trailer: string)
    ensures entries == Walk(visits, downloadDir, rel).0
    ensures trailer == Trailer(Walk(visits, downloadDir, rel).1)
  {
    entries := [];
    var err: Option<ArchiveError> := None;
    var i := 0;
    assert visits[0..] == visits;
    assert [] + Walk(visits, downloadDir, rel).0 == Walk(visits, downloadDir, rel).0;
    while i < |visits|
      invariant 0 <= i <= |visits|
      invariant err == None
      invariant Walk(visits, downloadDir, rel).0 == entries + Walk(visits[i..], downloadDir, rel).0
      invariant Walk(visits, downloadDir, rel).1 == Walk(visits[i..], downloadDir, rel).1
    {
      assert visits[i..][0] == visits[i];
      assert visits[i..][1..] == visits[i + 1..];
      var step := Callback(visits[i], downloadDir, rel);
      if step.Stop? || step.WriteThenStop? {
        if step.WriteThenStop? {
          entries := entries + [step.entry];
        }
        err := Some(step.err);
        break;
      }
      if step.Write? {
        entries := entries + [step.entry];
      }
      i := i + 1;
    }
    if i == |visits| {
      assert visits[i..] == [];
    }
    trailer := Trailer(err);
  }

  /** Visits after the one whose callback stops the walk have no effect. */
  lemma {:induction false} WalkStopsAtFirstError(visits: seq<Visit>, downloadDir: string,
                                                 rel: (string, string) -> string, i: nat)
    requires i < |visits| && Stops(Callback(visits[i], downloadDir, rel))
    ensures Walk(visits, downloadDir, rel) == Walk(visits[..i + 1], downloadDir, rel)
    ensures Walk(visits, downloadDir, rel).1.Some?
    decreases i
  {
    if i > 0 {
      WalkStopsAtFirstError(visits[1..], downloadDir, rel, i - 1);
      assert visits[1..][..i] == visits[..i + 1][1..];
    }
  }

  /**
   * When no callback in `a` fails, walking `a` then `b` writes a's entries
   * followed by b's: entries appear in walk order.
   */
  lemma {:induction false} WalkAppend(a: seq<Visit>, b: seq<Visit>, downloadDir: string,
                                      rel: (string, string) -> string)
    requires forall i :: 0 <= i < |a| ==> !Stops(Callback(a[i], downloadDir, rel))
    ensures Walk(a + b, downloadDir, rel).0 == Walk(a, downloadDir, rel).0 + Walk(b, downloadDir, rel).0
    ensures Walk(a + b, downloadDir, rel).1 == Walk(b, downloadDir, rel).1
    decreases |a|
  {
    if a == [] {
      assert a + b == b;
      assert [] + Walk(b, downloadDir, rel).0 == Walk(b, downloadDir, rel).0;
    } else {
      WalkAppend(a[1..], b, downloadDir, rel);
      assert (a + b)[1..] == a[1..] + b;
      assert (a + b)[0] == a[0];
      var tail := Walk(a[1..], downloadDir, rel);
      var wb := Walk(b, downloadDir, rel);
      match Callback(a[0], downloadDir, rel)
      case Skip =>
      case Write(e) =>
        assert [e] + (tail.0 + wb.0) == ([e] + tail.0) + wb.0;
    }
  }
}
