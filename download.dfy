/**
 * `download`: fetch the release's index, then for every record, in index
 * order, fetch its blob into the cache unless it is there, skip the record if
 * that fails, and otherwise copy the blob out under the record's local name.
 */
module Download {
  import opened Wrappers
  import opened FileIndex
  import opened LocalNames
  import opened Host

  /** `download_fileindex_csv` raises when the index cannot be fetched; `read_fileindex_csv` when a line is malformed. */
  datatype DownloadError = IndexUnavailable | CorruptIndex(line: string)

  /** Everything one run leaves behind: its result, what it did, and the working directory's files. */
  datatype Outcome = Outcome(result: Result<seq<Entry>, DownloadError>, events: seq<Event>, files: set<string>)

  /** A blob `gh_asset_download` can fetch. */
  predicate Fetchable(published: (string, string, string) -> Option<string>, repo: string, tag: string, checksum: string) {
    published(repo, tag, checksum).Some?
  }

  /** What the loop does for one record, given the files present when it gets to it. */
  function RecordEvents(repo: string, tag: string, e: Entry, counts: multiset<string>, files: set<string>,
                        published: (string, string, string) -> Option<string>): seq<Event>
  {
    if e.checksum in files then [CopyOut(e.checksum, LocalName(e, counts))]
    else if !Fetchable(published, repo, tag, e.checksum) then [Fetch(repo, tag, e.checksum)]
    else [Fetch(repo, tag, e.checksum), CopyOut(e.checksum, LocalName(e, counts))]
  }

  /** The files present after the loop has handled one record: a fetched blob stays in the cache. */
  function RecordFiles(repo: string, tag: string, e: Entry, files: set<string>,
                       published: (string, string, string) -> Option<string>): set<string>
  {
    if e.checksum !in files && Fetchable(published, repo, tag, e.checksum) then files + {e.checksum} else files
  }

  /** The files present after the loop has gone through `recs`. */
  function PlanFiles(repo: string, tag: string, recs: seq<Entry>, files: set<string>,
                     published: (string, string, string) -> Option<string>): set<string>
  {
    if recs == [] then files
    else RecordFiles(repo, tag, recs[|recs| - 1], PlanFiles(repo, tag, recs[..|recs| - 1], files, published), published)
  }

  /** The files after the loop: those present before, and every blob some record made it fetch. */
  lemma {:induction false} PlanFilesContents(repo: string, tag: string, recs: seq<Entry>, files: set<string>,
                                             published: (string, string, string) -> Option<string>, c: string)
    ensures c in PlanFiles(repo, tag, recs, files, published)
        <==> c in files || (Fetchable(published, repo, tag, c) && c in Checksums(recs))
  {
    if recs != [] {
      var init := recs[..|recs| - 1];
      PlanFilesContents(repo, tag, init, files, published, c);
      assert Checksums(recs) == Checksums(init) + [recs[|recs| - 1].checksum];
    }
  }

  /** The events of the loop over `recs`. */
  function PlanEvents(repo: string, tag: string, recs: seq<Entry>, counts: multiset<string>, files: set<string>,
                      published: (string, string, string) -> Option<string>): seq<Event>
  {
    if recs == [] then []
    else
      var init := recs[..|recs| - 1];
      PlanEvents(repo, tag, init, counts, files, published)
        + RecordEvents(repo, tag, recs[|recs| - 1], counts, PlanFiles(repo, tag, init, files, published), published)
  }

  /** One whole run of `download`, starting with the working directory holding `files`. */
  function DownloadOutcome(repo: string, hashalgo: string, files: set<string>,
                           published: (string, string, string) -> Option<string>): Outcome
  {
    var csv := hashalgo + ".csv";
    match published(repo, hashalgo, csv)
    case None => Outcome(Failure(IndexUnavailable), [Fetch(repo, hashalgo, csv)], files - {csv})
    case Some(text) =>
      var o := IndexOutcome(repo, hashalgo, ParseIndex(text), files - {csv} + {csv}, published);
      o.(events := [Fetch(repo, hashalgo, csv)] + o.events)
  }

  /** The rest of the run once the index has been fetched and read. */
  function IndexOutcome(repo: string, hashalgo: string, read: Result<seq<Entry>, CsvError>, files: set<string>,
                        published: (string, string, string) -> Option<string>): Outcome
  {
    match read
    case Failure(MalformedLine(line)) => Outcome(Failure(CorruptIndex(line)), [], files)
    case Success(index) =>
      var counts := FilenameCounts(index);
      Outcome(Success(index), PlanEvents(repo, hashalgo, index, counts, files, published),
              PlanFiles(repo, hashalgo, index, files, published))
  }

  /** The copies among some events: (checksum, local name) pairs in order. */
  function Copies(events: seq<Event>): seq<(string, string)> {
    if events == [] then []
    else
      var e := events[|events| - 1];
      Copies(events[..|events| - 1]) + (if e.CopyOut? then [(e.checksum, e.localName)] else [])
  }

  /** The asset names fetched among some events, in order. */
  function Fetches(events: seq<Event>): seq<string> {
    if events == [] then []
    else
      var e := events[|events| - 1];
      Fetches(events[..|events| - 1]) + (if e.Fetch? then [e.name] else [])
  }

  lemma {:induction false} CopiesAppend(a: seq<Event>, b: seq<Event>)
    ensures Copies(a + b) == Copies(a) + Copies(b)
    ensures Fetches(a + b) == Fetches(a) + Fetches(b)
    decreases |b|
  {
    if b == [] {
      assert a + b == a;
    } else {
      assert (a + b)[..|a + b| - 1] == a + b[..|b| - 1];
      CopiesAppend(a, b[..|b| - 1]);
    }
  }

  lemma RecordProjections(repo: string, tag: string, e: Entry, counts: multiset<string>, files: set<string>,
                          published: (string, string, string) -> Option<string>)
    ensures Copies(RecordEvents(repo, tag, e, counts, files, published))
         == if e.checksum in files || Fetchable(published, repo, tag, e.checksum)
            then [(e.checksum, LocalName(e, counts))] else []
    ensures Fetches(RecordEvents(repo, tag, e, counts, files, published))
         == if e.checksum in files then [] else [e.checksum]
  {
    var f, o := Fetch(repo, tag, e.checksum), CopyOut(e.checksum, LocalName(e, counts));
    assert [f][..0] == [] && [o][..0] == [];
    assert Copies([f]) == [] && Fetches([f]) == [e.checksum];
    assert Copies([o]) == [(e.checksum, LocalName(e, counts))] && Fetches([o]) == [];
    assert [f, o][..1] == [f];
    assert Copies([f, o]) == [(e.checksum, LocalName(e, counts))] && Fetches([f, o]) == [e.checksum];
  }

  /** The records whose blob is in the cache or can be fetched, with their local names, in index order. */
  function Copyable(repo: string, tag: string, recs: seq<Entry>, counts: multiset<string>, files: set<string>,
                    published: (string, string, string) -> Option<string>): seq<(string, string)>
  {
    if recs == [] then []
    else
      var e := recs[|recs| - 1];
      Copyable(repo, tag, recs[..|recs| - 1], counts, files, published)
        + (if e.checksum in files || Fetchable(published, repo, tag, e.checksum)
           then [(e.checksum, LocalName(e, counts))] else [])
  }

  /**
   * Every record whose blob is cached or fetchable is copied, from the cache
   * file named by its checksum to its local name, in index order; a failed
   * fetch skips only its own record.
   */
  lemma {:induction false} PlanCopies(repo: string, tag: string, recs: seq<Entry>, counts: multiset<string>,
                                      files: set<string>, published: (string, string, string) -> Option<string>)
    ensures Copies(PlanEvents(repo, tag, recs, counts, files, published))
         == Copyable(repo, tag, recs, counts, files, published)
  {
    if recs != [] {
      var init, e := recs[..|recs| - 1], recs[|recs| - 1];
      var before := PlanFiles(repo, tag, init, files, published);
      PlanCopies(repo, tag, init, counts, files, published);
      var step := RecordEvents(repo, tag, e, counts, before, published);
      CopiesAppend(PlanEvents(repo, tag, init, counts, files, published), step);
      RecordProjections(repo, tag, e, counts, before, published);
      PlanFilesContents(repo, tag, init, files, published, e.checksum);
    }
  }

  /** Fetches seen for `c` after one more record: one more exactly when it carries `c` and `c` is not on disk yet. */
  lemma FetchesStep(repo: string, tag: string, recs: seq<Entry>, counts: multiset<string>,
                    files: set<string>, published: (string, string, string) -> Option<string>, c: string)
    requires recs != []
    ensures var init, e := recs[..|recs| - 1], recs[|recs| - 1];
      multiset(Fetches(PlanEvents(repo, tag, recs, counts, files, published)))[c]
      == multiset(Fetches(PlanEvents(repo, tag, init, counts, files, published)))[c]
         + (if e.checksum == c && c !in PlanFiles(repo, tag, init, files, published) then 1 else 0)
  {
    var init, e := recs[..|recs| - 1], recs[|recs| - 1];
    var before := PlanFiles(repo, tag, init, files, published);
    var step := RecordEvents(repo, tag, e, counts, before, published);
    CopiesAppend(PlanEvents(repo, tag, init, counts, files, published), step);
    RecordProjections(repo, tag, e, counts, before, published);
  }

  /** A blob that was cached to begin with is never fetched. */
  lemma {:induction false} CachedNeverFetched(repo: string, tag: string, recs: seq<Entry>, counts: multiset<string>,
                                              files: set<string>, published: (string, string, string) -> Option<string>,
                                              c: string)
    requires c in files
    ensures multiset(Fetches(PlanEvents(repo, tag, recs, counts, files, published)))[c] == 0
  {
    if recs != [] {
      var init := recs[..|recs| - 1];
      CachedNeverFetched(repo, tag, init, counts, files, published, c);
      FetchesStep(repo, tag, recs, counts, files, published, c);
      PlanFilesContents(repo, tag, init, files, published, c);
    }
  }

  /** A blob that can be fetched is fetched once, for the first record that carries it, and never otherwise. */
  lemma {:induction false} FetchableFetchedOnce(repo: string, tag: string, recs: seq<Entry>, counts: multiset<string>,
                                                files: set<string>, published: (string, string, string) -> Option<string>,
                                                c: string)
    requires c !in files && Fetchable(published, repo, tag, c)
    ensures multiset(Fetches(PlanEvents(repo, tag, recs, counts, files, published)))[c]
         == if c in Checksums(recs) then 1 else 0
  {
    if recs != [] {
      var init := recs[..|recs| - 1];
      FetchableFetchedOnce(repo, tag, init, counts, files, published, c);
      FetchesStep(repo, tag, recs, counts, files, published, c);
      PlanFilesContents(repo, tag, init, files, published, c);
      ChecksumsStep(recs);
    }
  }

  /** A blob that cannot be fetched is asked for again by every record that carries it. */
  lemma {:induction false} FailingFetchRepeated(repo: string, tag: string, recs: seq<Entry>, counts: multiset<string>,
                                                files: set<string>, published: (string, string, string) -> Option<string>,
                                                c: string)
    requires c !in files && !Fetchable(published, repo, tag, c)
    ensures multiset(Fetches(PlanEvents(repo, tag, recs, counts, files, published)))[c]
         == multiset(Checksums(recs))[c]
  {
    if recs != [] {
      var init := recs[..|recs| - 1];
      FailingFetchRepeated(repo, tag, init, counts, files, published, c);
      FetchesStep(repo, tag, recs, counts, files, published, c);
      PlanFilesContents(repo, tag, init, files, published, c);
      ChecksumsStep(recs);
    }
  }

  lemma PlanStep(repo: string, tag: string, recs: seq<Entry>, i: nat, counts: multiset<string>, files: set<string>,
                 published: (string, string, string) -> Option<string>)
    requires i < |recs|
    ensures PlanEvents(repo, tag, recs[..i + 1], counts, files, published)
         == PlanEvents(repo, tag, recs[..i], counts, files, published)
            + RecordEvents(repo, tag, recs[i], counts, PlanFiles(repo, tag, recs[..i], files, published), published)
    ensures PlanFiles(repo, tag, recs[..i + 1], files, published)
         == RecordFiles(repo, tag, recs[i], PlanFiles(repo, tag, recs[..i], files, published), published)
  {
    assert recs[..i + 1][..i] == recs[..i];
  }

  /** One turn of the loop of `download`: fetch the record's blob if needed, then copy it out unless that failed. */
  method FetchAndCopyRecord(host: Host, repo: string, hashalgo: string, e: Entry, filenamesCounter: multiset<string>)
    modifies host
    ensures host.trace == old(host.trace) + RecordEvents(repo, hashalgo, e, filenamesCounter, old(host.files), host.published)
    ensures host.files == RecordFiles(repo, hashalgo, e, old(host.files), host.published)
  {
    var checksum, filename := e.checksum, e.filename;
    if checksum !in host.files {
      var fetched := host.AssetDownload(repo, hashalgo, checksum);
      if fetched.None? {
        return;
      }
    }
    if filenamesCounter[filename] == 1 {
      host.CopyBlobOut(checksum, filename);
    } else {
      host.CopyBlobOut(checksum, filename + "." + checksum);
    }
  }

  /** The loop of `download` over the records of the index, with the counts of their filenames. */
  method FetchAndCopy(host: Host, repo: string, hashalgo: string, fileindex: seq<Entry>, filenamesCounter: multiset<string>)
    modifies host
    ensures host.trace == old(host.trace) + PlanEvents(repo, hashalgo, fileindex, filenamesCounter, old(host.files), host.published)
    ensures host.files == PlanFiles(repo, hashalgo, fileindex, old(host.files), host.published)
  {
    ghost var trace0, files0 := host.trace, host.files;
    var i := 0;
    while i < |fileindex|
      invariant i <= |fileindex|
      invariant host.trace == trace0 + PlanEvents(repo, hashalgo, fileindex[..i], filenamesCounter, files0, host.published)
      invariant host.files == PlanFiles(repo, hashalgo, fileindex[..i], files0, host.published)
    {
      PlanStep(repo, hashalgo, fileindex, i, filenamesCounter, files0, host.published);
      FetchAndCopyRecord(host, repo, hashalgo, fileindex[i], filenamesCounter);
      i := i + 1;
    }
    assert fileindex[..i] == fileindex;
  }

  /** `download_fileindex_csv`: remove the local copy of the index, then fetch it into the working directory. */
  method DownloadFileindexCsv(host: Host, repo: string, hashalgo: string) returns (content: Option<string>)
    modifies host
    ensures content == host.published(repo, hashalgo, hashalgo + ".csv")
    ensures host.trace == old(host.trace) + [Fetch(repo, hashalgo, hashalgo + ".csv")]
    ensures host.files == if content.Some? then old(host.files) - {hashalgo + ".csv"} + {hashalgo + ".csv"}
                          else old(host.files) - {hashalgo + ".csv"}
  {
    host.RemoveFile(hashalgo + ".csv");
    content := host.AssetDownload(repo, hashalgo, hashalgo + ".csv");
  }

  /** `download`, with the GitHub calls and the file copies going through `host`. */
  method Download(host: Host, repo: string, hashalgo: string) returns (r: Result<seq<Entry>, DownloadError>)
    modifies host
    ensures var o := DownloadOutcome(repo, hashalgo, old(host.files), host.published);
      r == o.result && host.trace == old(host.trace) + o.events && host.files == o.files
  {
    var content := DownloadFileindexCsv(host, repo, hashalgo);
    if content.None? {
      return Failure(IndexUnavailable);
    }
    var read := ReadFileIndexCsv(content.value);
    ghost var mid := host.trace;
    r := ProcessIndex(host, repo, hashalgo, read);
    ghost var rest := IndexOutcome(repo, hashalgo, read, old(host.files) - {hashalgo + ".csv"} + {hashalgo + ".csv"}, host.published).events;
    assert host.trace == old(host.trace) + ([Fetch(repo, hashalgo, hashalgo + ".csv")] + rest);
  }

  /** What `download` does with the index it has read: give up on a malformed one, or run the loop. */
  method ProcessIndex(host: Host, repo: string, hashalgo: string, read: Result<seq<Entry>, CsvError>)
    returns (r: Result<seq<Entry>, DownloadError>)
    modifies host
    ensures var o := IndexOutcome(repo, hashalgo, read, old(host.files), host.published);
      r == o.result && host.trace == old(host.trace) + o.events && host.files == o.files
  {
    if read.Failure? {
      assert host.trace == host.trace + [];
      return Failure(CorruptIndex(read.error.line));
    }
    var fileindex := read.value;
    var filenamesCounter := multiset(Filenames(fileindex));
    FetchAndCopy(host, repo, hashalgo, fileindex, filenamesCounter);
    return Success(fileindex);
  }
}
