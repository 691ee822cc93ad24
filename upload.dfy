/**
 * `upload`: reconcile the release of one algorithm with the incoming
 * directory. It reads the published index (none if it cannot), keeps the
 * assets that finished uploading and deletes the others, appends the pairs of
 * the incoming files that are new, caches their blobs, sorts the index,
 * writes the csv and md files, and publishes them and the missing blobs.
 */
module Upload {
  import opened Wrappers
  import opened Text
  import opened HashAlgorithms
  import opened FileIndex
  import opened IndexOrder
  import opened Host
  import Download

  /** The two `ValueError`s `upload` raises before touching anything. */
  datatype UploadError = UnsupportedAlgorithm(hashalgo: string) | MissingIncoming

  /** An entry of the incoming directory: its name, whether it is a regular file, and its bytes. */
  datatype DirEntry = DirEntry(name: string, isFile: bool, content: seq<bv8>)

  /** Everything one run leaves behind: the index it published, what it did, and the working directory's files. */
  datatype UploadRun = UploadRun(result: Result<seq<Entry>, UploadError>, events: seq<Event>, files: set<string>)

  /** The hash of a file's bytes under an algorithm, as `hexdigest()` gives it. */
  type Digest = (Algorithm, seq<bv8>) -> string

  // ---------------------------------------------------------------- pre-flight

  /** The checks `upload` makes first: a supported algorithm, then an incoming directory that exists. */
  function Preflight(hashalgo: string, incoming: Option<seq<DirEntry>>): (r: Result<Algorithm, UploadError>)
    ensures r.Success? <==> hashalgo in SupportedNames && incoming.Some?
    ensures r.Success? ==> Name(r.value) == hashalgo
    ensures hashalgo !in SupportedNames ==> r == Failure(UnsupportedAlgorithm(hashalgo))
    ensures hashalgo in SupportedNames && incoming.None? ==> r == Failure(MissingIncoming)
  {
    match HashCommand(hashalgo)
    case None => Failure(UnsupportedAlgorithm(hashalgo))
    case Some(algo) => if incoming.None? then Failure(MissingIncoming) else Success(algo)
  }

  // ---------------------------------------------------------------- prior index

  /** The index `upload` starts from: the published one, or an empty one when it cannot be fetched or read. */
  function PriorIndex(fetched: Option<string>): seq<Entry> {
    if fetched.None? then []
    else
      match ParseIndex(fetched.value)
      case Success(index) => index
      case Failure(_) => []
  }

  /** A published index made of writable records is read back as it was written. */
  lemma PublishedIndexIsRead(index: seq<Entry>)
    requires forall k :: 0 <= k < |index| ==> WritableEntry(index[k])
    ensures PriorIndex(Some(EncodeIndex(index))) == index
  {
    CsvRoundTrip(index);
  }

  /**
   * A published index with any line that is not two `;`-fields (a blank one
   * included) counts as no index at all: the run is that of a new release.
   */
  lemma CorruptIndexIsNewRelease(text: string, k: nat)
    requires k < |Lines(Normalize(text))| && ParseLine(Lines(Normalize(text))[k]).None?
    ensures ParseIndex(text).Failure?
    ensures PriorIndex(Some(text)) == []
  {
    ParseLinesSucceeds(Lines(Normalize(text)));
  }

  // ---------------------------------------------------------------- remote assets

  /** `get_assets` is asked only when there is a prior index. */
  function ListEvents(repo: string, tag: string, prior: seq<Entry>): seq<Event> {
    if prior == [] then [] else [List(repo, tag)]
  }

  /** `uploaded_hashes`: the names of the assets whose upload completed, in listing order. */
  function UploadedNames(assets: seq<Asset>): seq<string> {
    if assets == [] then []
    else
      var a := assets[|assets| - 1];
      UploadedNames(assets[..|assets| - 1]) + (if a.state == "uploaded" then [a.name] else [])
  }

  /** The deletions of the partially uploaded assets, in listing order. */
  function PurgeEvents(repo: string, tag: string, assets: seq<Asset>): seq<Event> {
    if assets == [] then []
    else
      var a := assets[|assets| - 1];
      PurgeEvents(repo, tag, assets[..|assets| - 1]) + (if a.state == "uploaded" then [] else [Delete(repo, tag, a.name)])
  }

  /** A name is skipped exactly when some listed asset of that name is in state "uploaded". */
  lemma {:induction false} UploadedNamesMeaning(assets: seq<Asset>, name: string)
    ensures name in UploadedNames(assets) <==> exists k :: 0 <= k < |assets| && assets[k] == Asset(name, "uploaded")
  {
    if assets != [] {
      var init := assets[..|assets| - 1];
      UploadedNamesMeaning(init, name);
      if exists k :: 0 <= k < |init| && init[k] == Asset(name, "uploaded") {
        var k :| 0 <= k < |init| && init[k] == Asset(name, "uploaded");
        assert assets[k] == init[k];
      }
    }
  }

  /**
   * Every listed asset is either skipped or deleted, never both; the
   * deletions are all of this release and name exactly the assets in another
   * state than "uploaded".
   */
  lemma {:induction false} PurgeEventsMeaning(repo: string, tag: string, assets: seq<Asset>, name: string)
    ensures |UploadedNames(assets)| + |PurgeEvents(repo, tag, assets)| == |assets|
    ensures forall k :: 0 <= k < |PurgeEvents(repo, tag, assets)| ==> PurgeEvents(repo, tag, assets)[k].Delete?
    ensures Delete(repo, tag, name) in PurgeEvents(repo, tag, assets)
        <==> exists k :: 0 <= k < |assets| && assets[k].name == name && assets[k].state != "uploaded"
  {
    if assets != [] {
      var init, a := assets[..|assets| - 1], assets[|assets| - 1];
      PurgeEventsMeaning(repo, tag, init, name);
      if exists k :: 0 <= k < |init| && init[k].name == name && init[k].state != "uploaded" {
        var k :| 0 <= k < |init| && init[k].name == name && init[k].state != "uploaded";
        assert assets[k] == init[k];
      }
      var p := PurgeEvents(repo, tag, init);
      var q := if a.state == "uploaded" then [] else [Delete(repo, tag, a.name)];
      assert PurgeEvents(repo, tag, assets) == p + q;
      assert forall k :: 0 <= k < |q| ==> q[k].Delete?;
    }
  }

  // ---------------------------------------------------------------- incoming files

  /** `f.startswith(".")` */
  predicate Hidden(name: string) {
    |name| > 0 && name[0] == '.'
  }

  /** The entries `upload` takes from the incoming directory, in listing order: regular files that are not hidden. */
  function Candidates(entries: seq<DirEntry>): seq<DirEntry> {
    if entries == [] then []
    else
      var d := entries[|entries| - 1];
      Candidates(entries[..|entries| - 1]) + (if d.isFile && !Hidden(d.name) then [d] else [])
  }

  lemma {:induction false} CandidatesMeaning(entries: seq<DirEntry>, d: DirEntry)
    ensures d in Candidates(entries) <==> d in entries && d.isFile && !Hidden(d.name)
  {
    if entries != [] {
      var init := entries[..|entries| - 1];
      CandidatesMeaning(init, d);
      assert entries == init + [entries[|entries| - 1]];
    }
  }

  /** The `[checksum, filename]` pair of every candidate, in order. */
  function IncomingPairs(algo: Algorithm, digest: Digest, files: seq<DirEntry>): (r: seq<Entry>)
    ensures |r| == |files|
  {
    seq(|files|, k requires 0 <= k < |files| => Entry(digest(algo, files[k].content), files[k].name))
  }

  // ---------------------------------------------------------------- merge

  /** The index after the incoming pairs were added one by one, each only when it is not there yet. */
  function Merge(index: seq<Entry>, pairs: seq<Entry>): seq<Entry> {
    if pairs == [] then index
    else
      var m, p := Merge(index, pairs[..|pairs| - 1]), pairs[|pairs| - 1];
      if p in m then m else m + [p]
  }

  /** The merge only appends: the prior index is kept in front, record for record. */
  lemma {:induction false} MergeKeepsPrior(index: seq<Entry>, pairs: seq<Entry>)
    ensures |index| <= |Merge(index, pairs)| <= |index| + |pairs|
    ensures Merge(index, pairs)[..|index|] == index
  {
    if pairs != [] {
      MergeKeepsPrior(index, pairs[..|pairs| - 1]);
    }
  }

  /** A record is in the merged index exactly when it was in the prior index or among the incoming pairs. */
  lemma {:induction false} MergeMembers(index: seq<Entry>, pairs: seq<Entry>, x: Entry)
    ensures x in Merge(index, pairs) <==> x in index || x in pairs
  {
    if pairs != [] {
      var init := pairs[..|pairs| - 1];
      MergeMembers(index, init, x);
      assert pairs == init + [pairs[|pairs| - 1]];
    }
  }

  /** Every record the merge appends was absent from everything before it. */
  lemma {:induction false} MergeAppendsOnlyAbsent(index: seq<Entry>, pairs: seq<Entry>)
    ensures forall k :: |index| <= k < |Merge(index, pairs)| ==> Merge(index, pairs)[k] !in Merge(index, pairs)[..k]
  {
    if pairs != [] {
      var m := Merge(index, pairs[..|pairs| - 1]);
      MergeAppendsOnlyAbsent(index, pairs[..|pairs| - 1]);
      MergeKeepsPrior(index, pairs[..|pairs| - 1]);
      var p := pairs[|pairs| - 1];
      if p !in m {
        assert (m + [p])[..|m|] == m;
        assert forall k :: 0 <= k < |m| ==> (m + [p])[..k] == m[..k];
      }
    }
  }

  predicate NoDuplicates(s: seq<Entry>) {
    forall i, j :: 0 <= i < j < |s| ==> s[i] != s[j]
  }

  /** An index without repeated records stays so: the merge adds no duplicates. */
  lemma MergeAddsNoDuplicates(index: seq<Entry>, pairs: seq<Entry>)
    requires NoDuplicates(index)
    ensures NoDuplicates(Merge(index, pairs))
  {
    var m := Merge(index, pairs);
    MergeAppendsOnlyAbsent(index, pairs);
    MergeKeepsPrior(index, pairs);
    forall i, j | 0 <= i < j < |m|
      ensures m[i] != m[j]
    {
      if j >= |index| {
        assert m[i] in m[..j];
      } else {
        assert m[i] == index[i] && m[j] == index[j];
      }
    }
  }

  /** When every incoming pair is indexed already, the merge changes nothing. */
  lemma {:induction false} MergeOfKnown(index: seq<Entry>, pairs: seq<Entry>)
    requires forall k :: 0 <= k < |pairs| ==> pairs[k] in index
    ensures Merge(index, pairs) == index
  {
    if pairs != [] {
      MergeOfKnown(index, pairs[..|pairs| - 1]);
    }
  }

  /**
   * The index `upload` writes: sorted by `(casefold(filename), checksum)`, and
   * holding the records of the prior index and the incoming pairs, each as
   * often as it occurs in the merged list.
   */
  lemma NewIndexContents(index: seq<Entry>, pairs: seq<Entry>, x: Entry)
    ensures Sorted(Sort(Merge(index, pairs)))
    ensures multiset(Sort(Merge(index, pairs))) == multiset(Merge(index, pairs))
    ensures x in Sort(Merge(index, pairs)) <==> x in index || x in pairs
  {
    SortSortsAndPermutes(Merge(index, pairs));
    MergeMembers(index, pairs, x);
    assert x in Sort(Merge(index, pairs)) <==> x in multiset(Sort(Merge(index, pairs)));
  }

  /**
   * Uploading again what is published already gives back the same index: a
   * sorted prior index that holds all incoming pairs is left unchanged.
   */
  lemma RerunKeepsIndex(index: seq<Entry>, pairs: seq<Entry>)
    requires Sorted(index)
    requires forall k :: 0 <= k < |pairs| ==> pairs[k] in index
    ensures Sort(Merge(index, pairs)) == index
  {
    MergeOfKnown(index, pairs);
    SortOfSorted(index);
  }

  // ---------------------------------------------------------------- blob cache

  /** The files present after the incoming blobs have been copied into the cache. */
  function StoreFiles(pairs: seq<Entry>, files: set<string>): set<string> {
    if pairs == [] then files else StoreFiles(pairs[..|pairs| - 1], files) + {pairs[|pairs| - 1].checksum}
  }

  /** The copies into the cache: one for each pair whose checksum is not there when its turn comes. */
  function StoreEvents(pairs: seq<Entry>, files: set<string>): seq<Event> {
    if pairs == [] then []
    else
      var init, p := pairs[..|pairs| - 1], pairs[|pairs| - 1];
      StoreEvents(init, files) + (if p.checksum in StoreFiles(init, files) then [] else [Cache(p.filename, p.checksum)])
  }

  /** The checksums copied into the cache among some events, in order. */
  function CacheTargets(events: seq<Event>): seq<string> {
    if events == [] then []
    else
      var e := events[|events| - 1];
      CacheTargets(events[..|events| - 1]) + (if e.Cache? then [e.checksum] else [])
  }

  /** After the loop the cache holds what it held before and the blob of every incoming pair. */
  lemma {:induction false} StoreFilesContents(pairs: seq<Entry>, files: set<string>, c: string)
    ensures c in StoreFiles(pairs, files) <==> c in files || c in Checksums(pairs)
  {
    if pairs != [] {
      StoreFilesContents(pairs[..|pairs| - 1], files, c);
      ChecksumsStep(pairs);
    }
  }

  /** The loop over the incoming files makes no other calls than copies into the cache. */
  lemma {:induction false} StoreOnlyCaches(pairs: seq<Entry>, files: set<string>)
    ensures forall e :: e in StoreEvents(pairs, files) ==> e.Cache?
  {
    if pairs != [] {
      StoreOnlyCaches(pairs[..|pairs| - 1], files);
    }
  }

  lemma StoreEventsStep(pairs: seq<Entry>, files: set<string>)
    requires pairs != []
    ensures var init, p := pairs[..|pairs| - 1], pairs[|pairs| - 1];
      CacheTargets(StoreEvents(pairs, files))
      == CacheTargets(StoreEvents(init, files)) + (if p.checksum in StoreFiles(init, files) then [] else [p.checksum])
  {
    var init, p := pairs[..|pairs| - 1], pairs[|pairs| - 1];
    var a := StoreEvents(init, files);
    var b := if p.checksum in StoreFiles(init, files) then [] else [Cache(p.filename, p.checksum)];
    CacheTargetsAppend(a, b);
    assert [Cache(p.filename, p.checksum)][..0] == [];
  }

  /** Every blob missing from the cache is copied into it exactly once; a cached one never. */
  lemma {:induction false} StoreCachesOnce(pairs: seq<Entry>, files: set<string>, c: string)
    ensures multiset(CacheTargets(StoreEvents(pairs, files)))[c]
         == if c in files || c !in Checksums(pairs) then 0 else 1
  {
    if pairs != [] {
      var init := pairs[..|pairs| - 1];
      StoreCachesOnce(init, files, c);
      StoreFilesContents(init, files, c);
      ChecksumsStep(pairs);
      StoreEventsStep(pairs, files);
    }
  }

  lemma {:induction false} CacheTargetsAppend(a: seq<Event>, b: seq<Event>)
    ensures CacheTargets(a + b) == CacheTargets(a) + CacheTargets(b)
    decreases |b|
  {
    if b == [] {
      assert a + b == a;
    } else {
      assert (a + b)[..|a + b| - 1] == a + b[..|b| - 1];
      CacheTargetsAppend(a, b[..|b| - 1]);
    }
  }

  // ---------------------------------------------------------------- publishing

  /** The blob uploads: one per record, in index order, unless its checksum is in the skip set. */
  function BlobUploads(repo: string, tag: string, index: seq<Entry>, skip: seq<string>): seq<Event> {
    if index == [] then []
    else
      var e := index[|index| - 1];
      BlobUploads(repo, tag, index[..|index| - 1], skip) + (if e.checksum in skip then [] else [Event.Upload(repo, tag, e.checksum)])
  }

  lemma {:induction false} BlobUploadsAreUploads(repo: string, tag: string, index: seq<Entry>, skip: seq<string>)
    ensures forall e :: e in BlobUploads(repo, tag, index, skip) ==> e.Upload? && e.repo == repo && e.tag == tag
  {
    if index != [] {
      BlobUploadsAreUploads(repo, tag, index[..|index| - 1], skip);
    }
  }

  /** A skipped checksum is never uploaded, and any other is uploaded once per record carrying it. */
  lemma {:induction false} BlobUploadsCount(repo: string, tag: string, index: seq<Entry>, skip: seq<string>, c: string)
    ensures multiset(BlobUploads(repo, tag, index, skip))[Event.Upload(repo, tag, c)]
         == if c in skip then 0 else multiset(Checksums(index))[c]
  {
    if index != [] {
      var init, e := index[..|index| - 1], index[|index| - 1];
      BlobUploadsCount(repo, tag, init, skip, c);
      ChecksumsStep(index);
    }
  }

  /** The uploads follow the index: those of a concatenation are those of its first part, then those of its second. */
  lemma {:induction false} BlobUploadsInOrder(repo: string, tag: string, a: seq<Entry>, b: seq<Entry>, skip: seq<string>)
    ensures BlobUploads(repo, tag, a + b, skip) == BlobUploads(repo, tag, a, skip) + BlobUploads(repo, tag, b, skip)
    decreases |b|
  {
    if b == [] {
      assert a + b == a;
    } else {
      assert (a + b)[..|a + b| - 1] == a + b[..|b| - 1];
      BlobUploadsInOrder(repo, tag, a, b[..|b| - 1], skip);
    }
  }

  /** A single record is uploaded exactly when its checksum is not skipped. */
  lemma BlobUploadsOfOne(repo: string, tag: string, e: Entry, skip: seq<string>)
    ensures BlobUploads(repo, tag, [e], skip) == if e.checksum in skip then [] else [Event.Upload(repo, tag, e.checksum)]
  {
    assert [e][..0] == [];
  }

  /** Nothing is uploaded when every record's blob is in the skip set. */
  lemma {:induction false} AllSkippedNoBlobUploads(repo: string, tag: string, index: seq<Entry>, skip: seq<string>)
    requires forall k :: 0 <= k < |index| ==> index[k].checksum in skip
    ensures BlobUploads(repo, tag, index, skip) == []
  {
    if index != [] {
      AllSkippedNoBlobUploads(repo, tag, index[..|index| - 1], skip);
    }
  }

  /** The two index files `upload` writes into the working directory. */
  function WriteEvents(repo: string, hashalgo: string, index: seq<Entry>): seq<Event> {
    [Write(hashalgo + ".csv", EncodeIndex(index)), Write(hashalgo + ".md", RenderMd(index, repo, hashalgo))]
  }

  /** The release is created and its old index files are deleted. */
  function RetireEvents(repo: string, hashalgo: string): seq<Event> {
    [Create(repo, hashalgo, true), Delete(repo, hashalgo, hashalgo + ".csv"), Delete(repo, hashalgo, hashalgo + ".md")]
  }

  /** The new index files are uploaded, then the missing blobs, and the notes come last. */
  function ReplaceEvents(repo: string, hashalgo: string, index: seq<Entry>, skip: seq<string>, notes: string): seq<Event> {
    [Event.Upload(repo, hashalgo, hashalgo + ".csv"), Event.Upload(repo, hashalgo, hashalgo + ".md")]
    + BlobUploads(repo, hashalgo, index, skip) + [Edit(repo, hashalgo, notes)]
  }

  // ---------------------------------------------------------------- one run

  /** The files left in the working directory once the index has been asked for. */
  function AfterFetch(hashalgo: string, files: set<string>, fetched: Option<string>): set<string> {
    if fetched.Some? then files - {hashalgo + ".csv"} + {hashalgo + ".csv"} else files - {hashalgo + ".csv"}
  }

  /** What `upload` does before it publishes: read the index, sort out the assets, cache the incoming blobs, write the files. */
  function PrepareEvents(repo: string, hashalgo: string, prior: seq<Entry>, assets: seq<Asset>, pairs: seq<Entry>,
                         cached: set<string>, index: seq<Entry>): seq<Event>
  {
    [Fetch(repo, hashalgo, hashalgo + ".csv")] + ListEvents(repo, hashalgo, prior) + PurgeEvents(repo, hashalgo, assets)
    + StoreEvents(pairs, cached) + WriteEvents(repo, hashalgo, index)
  }

  /** The whole sequence of calls of a run that passed the pre-flight checks. */
  function RunEvents(repo: string, hashalgo: string, prior: seq<Entry>, assets: seq<Asset>, pairs: seq<Entry>,
                     cached: set<string>, index: seq<Entry>, notes: string): seq<Event>
  {
    PrepareEvents(repo, hashalgo, prior, assets, pairs, cached, index) + RetireEvents(repo, hashalgo)
    + ReplaceEvents(repo, hashalgo, index, UploadedNames(assets), notes)
  }

  /** `upload` with a supported algorithm and an existing incoming directory. */
  function ReconcileOutcome(repo: string, hashalgo: string, algo: Algorithm, entries: seq<DirEntry>, digest: Digest,
                            files: set<string>, published: (string, string, string) -> Option<string>,
                            listing: (string, string) -> seq<Asset>): UploadRun
  {
    var fetched := published(repo, hashalgo, hashalgo + ".csv");
    var cached := AfterFetch(hashalgo, files, fetched);
    var prior := PriorIndex(fetched);
    var assets := if prior == [] then [] else listing(repo, hashalgo);
    var pairs := IncomingPairs(algo, digest, Candidates(entries));
    var index := Sort(Merge(prior, pairs));
    UploadRun(Success(index),
              RunEvents(repo, hashalgo, prior, assets, pairs, cached, index, Normalize(RenderMd(index, repo, hashalgo))),
              StoreFiles(pairs, cached) + {hashalgo + ".csv", hashalgo + ".md"})
  }

  /** One whole run of `upload`, starting with the working directory holding `files`. */
  function UploadOutcome(repo: string, hashalgo: string, incoming: Option<seq<DirEntry>>, digest: Digest,
                         files: set<string>, published: (string, string, string) -> Option<string>,
                         listing: (string, string) -> seq<Asset>): UploadRun
  {
    match Preflight(hashalgo, incoming)
    case Failure(err) => UploadRun(Failure(err), [], files)
    case Success(algo) => ReconcileOutcome(repo, hashalgo, algo, incoming.value, digest, files, published, listing)
  }

  /** A run fails exactly when a pre-flight check does, and then it makes no call and changes no file. */
  lemma RejectedRunDoesNothing(repo: string, hashalgo: string, incoming: Option<seq<DirEntry>>, digest: Digest,
                               files: set<string>, published: (string, string, string) -> Option<string>,
                               listing: (string, string) -> seq<Asset>)
    ensures var o := UploadOutcome(repo, hashalgo, incoming, digest, files, published, listing);
      (o.result.Failure? <==> !(hashalgo in SupportedNames && incoming.Some?)) &&
      (o.result.Failure? ==> o.events == [] && o.files == files) &&
      (o.result.Success? ==> o.events != [])
  {
  }

  lemma PrepareShape(repo: string, hashalgo: string, prior: seq<Entry>, assets: seq<Asset>, pairs: seq<Entry>,
                     cached: set<string>, index: seq<Entry>)
    ensures forall e :: e in PrepareEvents(repo, hashalgo, prior, assets, pairs, cached, index) + RetireEvents(repo, hashalgo)
                        ==> !e.Upload?
    ensures List(repo, hashalgo) in PrepareEvents(repo, hashalgo, prior, assets, pairs, cached, index) <==> prior != []
  {
    PurgeOnlyDeletes(repo, hashalgo, assets);
    StoreOnlyCaches(pairs, cached);
  }

  lemma {:induction false} PurgeOnlyDeletes(repo: string, tag: string, assets: seq<Asset>)
    ensures forall e :: e in PurgeEvents(repo, tag, assets) ==> e.Delete?
  {
    if assets != [] {
      PurgeOnlyDeletes(repo, tag, assets[..|assets| - 1]);
    }
  }

  /** `get_assets` is called exactly when the prior index holds a record. */
  lemma ListedIffPriorIndex(repo: string, hashalgo: string, algo: Algorithm, entries: seq<DirEntry>, digest: Digest,
                            files: set<string>, published: (string, string, string) -> Option<string>,
                            listing: (string, string) -> seq<Asset>)
    ensures List(repo, hashalgo) in ReconcileOutcome(repo, hashalgo, algo, entries, digest, files, published, listing).events
        <==> PriorIndex(published(repo, hashalgo, hashalgo + ".csv")) != []
  {
    var fetched := published(repo, hashalgo, hashalgo + ".csv");
    var prior := PriorIndex(fetched);
    var assets := if prior == [] then [] else listing(repo, hashalgo);
    var pairs := IncomingPairs(algo, digest, Candidates(entries));
    var index := Sort(Merge(prior, pairs));
    PrepareShape(repo, hashalgo, prior, assets, pairs, AfterFetch(hashalgo, files, fetched), index);
    BlobUploadsAreUploads(repo, hashalgo, index, UploadedNames(assets));
  }

  /** Every deletion of a run comes before every upload. */
  lemma DeletesBeforeUploads(repo: string, hashalgo: string, prior: seq<Entry>, assets: seq<Asset>, pairs: seq<Entry>,
                             cached: set<string>, index: seq<Entry>, notes: string, i: nat, j: nat)
    requires var events := RunEvents(repo, hashalgo, prior, assets, pairs, cached, index, notes);
      i < |events| && j < |events| && events[i].Delete? && events[j].Upload?
    ensures i < j
  {
    var head := PrepareEvents(repo, hashalgo, prior, assets, pairs, cached, index) + RetireEvents(repo, hashalgo);
    var tail := ReplaceEvents(repo, hashalgo, index, UploadedNames(assets), notes);
    var events := head + tail;
    PrepareShape(repo, hashalgo, prior, assets, pairs, cached, index);
    BlobUploadsAreUploads(repo, hashalgo, index, UploadedNames(assets));
  }

  /**
   * The release notes are the md table as written: reading it back changes
   * nothing when no field holds a line break.
   */
  lemma ReleaseNotesAreTheTable(repo: string, hashalgo: string, algo: Algorithm, entries: seq<DirEntry>, digest: Digest,
                                files: set<string>, published: (string, string, string) -> Option<string>,
                                listing: (string, string) -> seq<Asset>)
    requires OneLine(repo) && OneLine(hashalgo)
    requires var index := ReconcileOutcome(repo, hashalgo, algo, entries, digest, files, published, listing).result.value;
      forall k :: 0 <= k < |index| ==> OneLine(index[k].checksum) && OneLine(index[k].filename)
    ensures var o := ReconcileOutcome(repo, hashalgo, algo, entries, digest, files, published, listing);
      o.events[|o.events| - 1] == Edit(repo, hashalgo, RenderMd(o.result.value, repo, hashalgo))
  {
    var o := ReconcileOutcome(repo, hashalgo, algo, entries, digest, files, published, listing);
    MdShape(o.result.value, repo, hashalgo);
  }

  // ---------------------------------------------------------------- the method

  /** Regrouping a trace; stated once so that the methods below need only name the pieces. */
  lemma AppendAssoc(t: seq<Event>, a: seq<Event>, b: seq<Event>)
    ensures t + a + b == t + (a + b)
  {
  }

  /** Fetch and read the published index; a failure of either is a new release with an empty index. */
  method FetchPriorIndex(host: Host, repo: string, hashalgo: string) returns (fileindex: seq<Entry>)
    modifies host
    ensures fileindex == PriorIndex(host.published(repo, hashalgo, hashalgo + ".csv"))
    ensures host.trace == old(host.trace) + [Fetch(repo, hashalgo, hashalgo + ".csv")]
    ensures host.files == AfterFetch(hashalgo, old(host.files), host.published(repo, hashalgo, hashalgo + ".csv"))
  {
    var content := Download.DownloadFileindexCsv(host, repo, hashalgo);
    if content.None? {
      return [];
    }
    var read := ReadFileIndexCsv(content.value);
    if read.Failure? {
      return [];
    }
    return read.value;
  }

  /** Ask for the release's assets, when there is a prior index. */
  method ListAssets(host: Host, repo: string, hashalgo: string, fileindex: seq<Entry>) returns (uploadedAssets: seq<Asset>)
    modifies host
    ensures uploadedAssets == if fileindex == [] then [] else host.listing(repo, hashalgo)
    ensures host.trace == old(host.trace) + ListEvents(repo, hashalgo, fileindex)
    ensures host.files == old(host.files)
  {
    uploadedAssets := [];
    if fileindex != [] {
      uploadedAssets := host.GetAssets(repo, hashalgo);
    } else {
      assert host.trace == host.trace + [];
    }
  }

  /** Collect the names of the completed assets and delete the others. */
  method ClassifyAssets(host: Host, repo: string, hashalgo: string, uploadedAssets: seq<Asset>)
    returns (uploadedHashes: seq<string>)
    modifies host
    ensures uploadedHashes == UploadedNames(uploadedAssets)
    ensures host.trace == old(host.trace) + PurgeEvents(repo, hashalgo, uploadedAssets)
    ensures host.files == old(host.files)
  {
    ghost var trace0 := host.trace;
    uploadedHashes := [];
    var i := 0;
    while i < |uploadedAssets|
      invariant i <= |uploadedAssets|
      invariant uploadedHashes == UploadedNames(uploadedAssets[..i])
      invariant host.trace == trace0 + PurgeEvents(repo, hashalgo, uploadedAssets[..i])
      invariant host.files == old(host.files)
    {
      assert uploadedAssets[..i + 1][..i] == uploadedAssets[..i];
      var asset := uploadedAssets[i];
      if asset.state == "uploaded" {
        uploadedHashes := uploadedHashes + [asset.name];
      } else {
        host.AssetDelete(repo, hashalgo, asset.name);
      }
      i := i + 1;
    }
    assert uploadedAssets[..i] == uploadedAssets;
  }

  lemma IncomingStep(algo: Algorithm, digest: Digest, filenames: seq<DirEntry>, i: nat, index: seq<Entry>, files: set<string>)
    requires i < |filenames|
    ensures var pairs := IncomingPairs(algo, digest, filenames);
      var p := Entry(digest(algo, filenames[i].content), filenames[i].name);
      var m := Merge(index, pairs[..i]);
      var f := StoreFiles(pairs[..i], files);
      Merge(index, pairs[..i + 1]) == (if p in m then m else m + [p])
      && StoreFiles(pairs[..i + 1], files) == f + {p.checksum}
      && StoreEvents(pairs[..i + 1], files)
         == StoreEvents(pairs[..i], files) + (if p.checksum in f then [] else [Cache(p.filename, p.checksum)])
  {
    var pairs := IncomingPairs(algo, digest, filenames);
    assert pairs[..i + 1][..i] == pairs[..i];
  }

  /** One turn of the loop over the incoming files: index the file's pair unless it is there, and cache its blob. */
  method AddIncomingFile(host: Host, algo: Algorithm, digest: Digest, file: DirEntry, fileindex: seq<Entry>)
    returns (merged: seq<Entry>)
    modifies host
    ensures var p := Entry(digest(algo, file.content), file.name);
      merged == (if p in fileindex then fileindex else fileindex + [p])
      && host.files == old(host.files) + {p.checksum}
      && host.trace == old(host.trace) + (if p.checksum in old(host.files) then [] else [Cache(p.filename, p.checksum)])
  {
    var filename := file.name;
    var checksum := digest(algo, file.content);
    merged := fileindex;
    if Entry(checksum, filename) !in merged {
      merged := merged + [Entry(checksum, filename)];
    }
    if checksum !in host.files {
      host.CacheBlob(filename, checksum);
    } else {
      assert host.trace == host.trace + [];
    }
  }

  /** Add the pairs of the incoming files to the index and make sure their blobs are in the cache. */
  method AddIncoming(host: Host, algo: Algorithm, digest: Digest, filenames: seq<DirEntry>, prior: seq<Entry>)
    returns (fileindex: seq<Entry>)
    modifies host
    ensures fileindex == Merge(prior, IncomingPairs(algo, digest, filenames))
    ensures host.trace == old(host.trace) + StoreEvents(IncomingPairs(algo, digest, filenames), old(host.files))
    ensures host.files == StoreFiles(IncomingPairs(algo, digest, filenames), old(host.files))
  {
    ghost var trace0, files0 := host.trace, host.files;
    ghost var pairs := IncomingPairs(algo, digest, filenames);
    fileindex := prior;
    var i := 0;
    while i < |filenames|
      invariant i <= |filenames|
      invariant fileindex == Merge(prior, pairs[..i])
      invariant host.trace == trace0 + StoreEvents(pairs[..i], files0)
      invariant host.files == StoreFiles(pairs[..i], files0)
    {
      IncomingStep(algo, digest, filenames, i, prior, files0);
      fileindex := AddIncomingFile(host, algo, digest, filenames[i], fileindex);
      i := i + 1;
    }
    assert pairs[..i] == pairs;
  }

  /** Write the csv and md files of the new index; returns the md text. */
  method WriteIndexFiles(host: Host, repo: string, hashalgo: string, fileindex: seq<Entry>) returns (md: string)
    modifies host
    ensures md == RenderMd(fileindex, repo, hashalgo)
    ensures host.trace == old(host.trace) + WriteEvents(repo, hashalgo, fileindex)
    ensures host.files == old(host.files) + {hashalgo + ".csv", hashalgo + ".md"}
  {
    var csv := WriteFileIndexCsv(fileindex);
    host.WriteFile(hashalgo + ".csv", csv);
    md := WriteFileIndexMd(fileindex, repo, hashalgo);
    host.WriteFile(hashalgo + ".md", md);
  }

  /** Upload the blob of every record not in the skip set, in index order. */
  method UploadBlobs(host: Host, repo: string, hashalgo: string, fileindex: seq<Entry>, uploadedHashes: seq<string>)
    modifies host
    ensures host.trace == old(host.trace) + BlobUploads(repo, hashalgo, fileindex, uploadedHashes)
    ensures host.files == old(host.files)
  {
    ghost var trace0 := host.trace;
    var i := 0;
    while i < |fileindex|
      invariant i <= |fileindex|
      invariant host.trace == trace0 + BlobUploads(repo, hashalgo, fileindex[..i], uploadedHashes)
      invariant host.files == old(host.files)
    {
      assert fileindex[..i + 1][..i] == fileindex[..i];
      var checksum := fileindex[i].checksum;
      if checksum !in uploadedHashes {
        host.AssetUpload(repo, hashalgo, checksum);
      }
      i := i + 1;
    }
    assert fileindex[..i] == fileindex;
  }

  /** Upload the new index files and the missing blobs, then set the release notes. */
  method Replace(host: Host, repo: string, hashalgo: string, fileindex: seq<Entry>, uploadedHashes: seq<string>,
                 releaseNotes: string)
    modifies host
    ensures host.trace == old(host.trace) + ReplaceEvents(repo, hashalgo, fileindex, uploadedHashes, releaseNotes)
    ensures host.files == old(host.files)
  {
    host.AssetUpload(repo, hashalgo, hashalgo + ".csv");
    host.AssetUpload(repo, hashalgo, hashalgo + ".md");
    ghost var t := host.trace;
    UploadBlobs(host, repo, hashalgo, fileindex, uploadedHashes);
    host.ReleaseEdit(repo, hashalgo, releaseNotes);
    assert host.trace == old(host.trace) + ReplaceEvents(repo, hashalgo, fileindex, uploadedHashes, releaseNotes);
  }

  /** Everything before publishing: returns the new index, the skip set and the md text. */
  method Prepare(host: Host, repo: string, hashalgo: string, hashcmd: Algorithm, incomingDir: seq<DirEntry>,
                 digest: Digest) returns (fileindex: seq<Entry>, uploadedHashes: seq<string>, md: string)
    modifies host
    ensures var fetched := host.published(repo, hashalgo, hashalgo + ".csv");
      var cached := AfterFetch(hashalgo, old(host.files), fetched);
      var prior := PriorIndex(fetched);
      var assets := if prior == [] then [] else host.listing(repo, hashalgo);
      var pairs := IncomingPairs(hashcmd, digest, Candidates(incomingDir));
      fileindex == Sort(Merge(prior, pairs)) && uploadedHashes == UploadedNames(assets)
      && md == RenderMd(fileindex, repo, hashalgo)
      && host.trace == old(host.trace) + PrepareEvents(repo, hashalgo, prior, assets, pairs, cached, fileindex)
      && host.files == StoreFiles(pairs, cached) + {hashalgo + ".csv", hashalgo + ".md"}
  {
    ghost var t0 := host.trace;
    var prior := FetchPriorIndex(host, repo, hashalgo);
    ghost var t1 := host.trace;
    var uploadedAssets := ListAssets(host, repo, hashalgo, prior);
    ghost var t2 := host.trace;
    uploadedHashes := ClassifyAssets(host, repo, hashalgo, uploadedAssets);
    ghost var t3 := host.trace;
    var filenames := Candidates(incomingDir);
    var merged := AddIncoming(host, hashcmd, digest, filenames, prior);
    ghost var t4 := host.trace;
    fileindex := Sort(merged);
    md := WriteIndexFiles(host, repo, hashalgo, fileindex);
    ghost var a := [Fetch(repo, hashalgo, hashalgo + ".csv")];
    ghost var l := ListEvents(repo, hashalgo, prior);
    ghost var p := PurgeEvents(repo, hashalgo, uploadedAssets);
    ghost var s := t4[|t3|..];
    ghost var w := WriteEvents(repo, hashalgo, fileindex);
    AppendAssoc(t0, a, l);
    AppendAssoc(t0, a + l, p);
    AppendAssoc(t0, a + l + p, s);
    AppendAssoc(t0, a + l + p + s, w);
  }

  /** The steps of `upload` after the pre-flight checks. */
  method Reconcile(host: Host, repo: string, hashalgo: string, hashcmd: Algorithm, incomingDir: seq<DirEntry>,
                   digest: Digest) returns (fileindex: seq<Entry>)
    modifies host
    ensures var o := ReconcileOutcome(repo, hashalgo, hashcmd, incomingDir, digest, old(host.files), host.published, host.listing);
      o.result == Success(fileindex) && host.trace == old(host.trace) + o.events && host.files == o.files
  {
    var uploadedHashes, md;
    fileindex, uploadedHashes, md := Prepare(host, repo, hashalgo, hashcmd, incomingDir, digest);
    ghost var t1 := host.trace;
    // gh_release_create, then gh_asset_delete of the old csv and md
    host.ReleaseCreate(repo, hashalgo, true);
    host.AssetDelete(repo, hashalgo, hashalgo + ".csv");
    host.AssetDelete(repo, hashalgo, hashalgo + ".md");
    ghost var t2 := host.trace;
    assert t2 == t1 + RetireEvents(repo, hashalgo);
    // the md file read back in text mode
    var releaseNotes := Normalize(md);
    Replace(host, repo, hashalgo, fileindex, uploadedHashes, releaseNotes);
    ghost var pre := t1[|old(host.trace)|..];
    AppendAssoc(old(host.trace), pre, RetireEvents(repo, hashalgo));
    AppendAssoc(old(host.trace), pre + RetireEvents(repo, hashalgo),
                ReplaceEvents(repo, hashalgo, fileindex, uploadedHashes, releaseNotes));
  }

  /** `upload`, with the GitHub calls and the file operations going through `host`. */
  method Upload(host: Host, repo: string, hashalgo: string, incoming: Option<seq<DirEntry>>, digest: Digest)
    returns (r: Result<seq<Entry>, UploadError>)
    modifies host
    ensures var o := UploadOutcome(repo, hashalgo, incoming, digest, old(host.files), host.published, host.listing);
      r == o.result && host.trace == old(host.trace) + o.events && host.files == o.files
  {
    var hashcmd := HashCommand(hashalgo);
    if hashcmd.None? {
      return Failure(UnsupportedAlgorithm(hashalgo));
    }
    if incoming.None? {
      return Failure(MissingIncoming);
    }
    var fileindex := Reconcile(host, repo, hashalgo, hashcmd.value, incoming.value, digest);
    return Success(fileindex);
  }
}
