# process_release_data.py, modelled in Dafny

`process_release_data.py` keeps test data as GitHub release assets. Each hash
algorithm (MD5, SHA224, SHA256, SHA384, SHA512) has one release. Every data file
is stored there as a blob named by its checksum. The release also holds an
index `<algo>.csv` with one `checksum;filename` line per record, and a markdown
table `<algo>.md` that links every filename to its blob's download URL.

- `download` fetches the index. It fetches every blob that is not in the local
  cache yet, and copies each blob into the download directory under its
  record's local name.
- `upload` starts from the published index, or an empty one when that cannot be
  fetched or read. It then:
  - sorts the release's assets into finished uploads, which it skips, and
    partial ones, which it deletes;
  - adds the pairs of the incoming files that are new, caches their blobs and
    sorts the index;
  - writes the csv and md files and publishes them, with every blob not already
    uploaded;
  - sets the release notes to the md table.

The model is organised as follows:

- **`Text`** holds the Python string operations the code relies on:
  `str.isspace`, `rstrip`, `split`, line iteration over a text file, universal
  newlines, and lexicographic comparison.
- **`HashAlgorithms`** is `get_hashcmd`.
- **`FileIndex`** is the csv codec and the markdown renderer.
- **`IndexOrder`** is the `(casefold(filename), checksum)` key and the stable
  sort.
- **`LocalNames`** is `download`'s name disambiguation.
- **`Host`** is a class standing for the GitHub release and the release's
  working directory `<root>/<algo>`. `upload` writes its md file to
  `os.path.join(root_dir, hashalgo_dir, hashalgo + ".md")`
  (process_release_data.py:238). That is this same directory only because
  `hashalgo_dir` is absolute, `root_dir` coming from `realpath`
  (process_release_data.py:296). The model takes it to be so.
  - Every `github_release` call and every file the script writes is appended
    to its `trace`.
  - `files` is the set of names present in the working directory, i.e. the
    blob cache and the index files.
  - What a download obtains (`published`) and what `get_assets` lists
    (`listing`) are constant functions given to the host.
- **`Download`** and **`Upload`** are the two operations. Each is a method with
  loops over a `Host`. It is proved equal to a function giving the whole
  outcome of a run: the result, the trace it appends and the files it leaves.
  Lemmas then prove the properties below about that function.

About local names: records with different filenames or checksums usually get
different local names, but not always. The index `x;a`, `y;a`, `z;a.x` gives both
the first and the third record the local name `a.x`. The later copy then
replaces the earlier one. `LocalNamesDistinct` proves distinctness under two
conditions: checksums hold no dot, and no filename equals another record's
`filename.checksum`. `LocalNameCollision` proves the counterexample. The model
follows the code here.

The docstring of `download` (process_release_data.py:114-117) says that when
several records share a filename "the last entry will be used". The code instead
copies every version under `filename.checksum`, and the model follows the code.

Two records with the same checksum and different filenames each cause a
blob upload in the same run. `BlobUploadsCount` states this. The model follows
the code here too.

## Model

| member | source | states |
|---|---|---|
| Text.RStrip | process_release_data.py:79 | the result is a prefix of the line, does not end in whitespace, and only whitespace was removed |
| Text.Split | process_release_data.py:79 | `split(";")` gives one more part than there are separators, and no part holds a separator |
| Text.SplitJoin | process_release_data.py:79 | joining the parts of a split with the separator gives back the string |
| Text.SplitPair | process_release_data.py:79 | a string with exactly one separator between two separator-free fields splits into exactly those two fields |
| Text.SplitFree | process_release_data.py:79 | a string without the separator splits into itself alone |
| Text.LinesConcat | process_release_data.py:77-78 | the lines a text file yields, put back together, are the text |
| Text.LinesShape | process_release_data.py:77-78 | every line is non-empty, holds no newline before its last character, and every line but the last ends in a newline |
| Text.LinesOfTerminated | process_release_data.py:77-78 | a newline-terminated line in front of a text is yielded as a line of its own, followed by the lines of the rest |
| Text.LinesOfConcat | process_release_data.py:77-78 | a concatenation of newline-terminated lines is iterated as exactly those lines |
| Text.Normalize | process_release_data.py:77 | reading in text mode leaves no carriage return and does not change a text that has none |
| Text.NormalizeKeeps | process_release_data.py:77 | text before the first carriage return is read as it is, whatever follows |
| Text.NormalizeCrLf | process_release_data.py:77 | a "\r\n" is read as one "\n", the text before it kept and the rest translated in turn |
| Text.NormalizeLoneCr | process_release_data.py:77 | a "\r" not followed by a newline is read as "\n", the text before it kept and the rest translated in turn |
| Text.LexTotal | process_release_data.py:236 | string comparison is total |
| Text.LexTransitive | process_release_data.py:236 | string comparison is transitive |
| Text.LexAntisymmetric | process_release_data.py:236 | two strings each not above the other are equal |
| HashAlgorithms.HashCommand | process_release_data.py:31-46 | an algorithm is found exactly for MD5, SHA224, SHA256, SHA384 and SHA512, and it is the one named |
| FileIndex.ParseLineMeaning | process_release_data.py:79 | a line parses exactly when its right-stripped text holds one `;`, into the text before and after it |
| FileIndex.ParseLinesSucceeds | process_release_data.py:76-81 | reading succeeds exactly when every line is two `;`-fields |
| FileIndex.ParseLinesValues | process_release_data.py:76-81 | a successful read yields one record per line, record k being line k's pair |
| FileIndex.ParseLinesMeaning | process_release_data.py:76-81 | reading succeeds exactly when every line parses, and record k is line k's pair |
| FileIndex.ParseLinesFailureSticks | process_release_data.py:78-79 | the first malformed line ends the reading, whatever follows |
| FileIndex.BlankLineIsMalformed | process_release_data.py:79 | an index with a blank line cannot be read |
| FileIndex.ParseEncodedLine | process_release_data.py:79-87 | a written line of a writable record reads back as that record |
| FileIndex.ParseEncodedLines | process_release_data.py:76-87 | the written lines of writable records read back as those records, in order |
| FileIndex.CsvRoundTrip | process_release_data.py:75-87 | reading what `write_fileindex_csv` wrote gives the same records in the same order |
| FileIndex.ReadFileIndexCsv | process_release_data.py:75-81 | the loop over the lines computes the reading function, failing at the first malformed line |
| FileIndex.WriteFileIndexCsv | process_release_data.py:84-87 | the loop writes the encoding of the index, one `checksum;filename\n` line per record |
| FileIndex.MdShape | process_release_data.py:90-110 | the table is the header, the separator and one row per record in index order, no other line, and it reads back unchanged |
| FileIndex.MdLinesAreLines | process_release_data.py:90-110 | header, separator and every row are each one newline-terminated line without carriage return |
| FileIndex.MdRowIsLine | process_release_data.py:94-110 | each row is a single newline-terminated line without carriage return |
| FileIndex.WriteFileIndexMd | process_release_data.py:90-110 | the loop writes the rendered table |
| IndexOrder.CaseFold | process_release_data.py:236 | folding keeps the length, leaves no upper-case ASCII letter and keeps every character that is not one |
| IndexOrder.CaseFoldEqual | process_release_data.py:236 | two filenames fold to the same key exactly when they have the same length and differ only in the case of ASCII letters |
| IndexOrder.KeyTotal | process_release_data.py:236 | any two records are ordered one way or the other by the sort key |
| IndexOrder.KeyTransitive | process_release_data.py:236 | the sort key order is transitive |
| IndexOrder.KeyAntisymmetric | process_release_data.py:236 | two records are ordered both ways exactly when their keys are equal |
| IndexOrder.InsertPermutes | process_release_data.py:236 | inserting adds the record and loses none |
| IndexOrder.InsertSorted | process_release_data.py:236 | inserting into a sorted index keeps it sorted |
| IndexOrder.SortSortsAndPermutes | process_release_data.py:236 | the sort result is in key order and is a permutation of its input |
| IndexOrder.InsertStable | process_release_data.py:236 | an inserted record goes after every record with the same key |
| IndexOrder.SortStable | process_release_data.py:236 | records with equal keys keep their relative order (a stable sort) |
| IndexOrder.SortOfSorted | process_release_data.py:236 | sorting an index already in key order leaves it unchanged |
| LocalNames.KeepsNameIffUnique | process_release_data.py:136-168 | a record keeps its filename exactly when no other record carries that filename |
| LocalNames.SuffixInjective | process_release_data.py:167 | with dot-free checksums, `filename.checksum` determines both parts |
| LocalNames.LocalNamesDistinct | process_release_data.py:136-168 | two different records get different local names, given dot-free checksums and no shadowing filename |
| LocalNames.LocalNameCollision | process_release_data.py:136-168 | a concrete index in which two different records are copied to the same local name |
| LocalNames.SecondVersionRenamesBoth | process_release_data.py:160-168 | a lone `a.txt` keeps its name; a second version makes both carry their checksums |
| Host.Host.AssetDownload | process_release_data.py:70 | the download obtains the published content, is recorded, and leaves the file in the working directory on success |
| Host.Host.GetAssets | process_release_data.py:204 | the listing is returned and recorded |
| Host.Host.AssetDelete | process_release_data.py:212 | the deletion is recorded and no local file changes |
| Host.Host.AssetUpload | process_release_data.py:251-252 | the upload is recorded and no local file changes |
| Host.Host.ReleaseCreate | process_release_data.py:244 | the creation is recorded |
| Host.Host.ReleaseEdit | process_release_data.py:265 | the edit is recorded with its body |
| Host.Host.RemoveFile | process_release_data.py:67-68 | the index file is gone from the working directory |
| Host.Host.CacheBlob | process_release_data.py:231-233 | the blob is present under its checksum and the copy is recorded |
| Host.Host.WriteFile | process_release_data.py:84-87 | the file is present and its text is recorded |
| Host.Host.CopyBlobOut | process_release_data.py:160-168 | the copy to the download directory is recorded |
| Download.PlanFilesContents | process_release_data.py:143-156 | after the loop the cache holds exactly what it held plus every fetchable blob of the index |
| Download.PlanCopies | process_release_data.py:143-168 | every record whose blob is cached or fetched is copied under its local name, in index order, and no other |
| Download.CachedNeverFetched | process_release_data.py:144-145 | a blob cached beforehand is never fetched |
| Download.FetchableFetchedOnce | process_release_data.py:144-158 | a fetchable blob is fetched once if some record carries it, else never |
| Download.FailingFetchRepeated | process_release_data.py:144-155 | a blob that cannot be fetched is asked for once per record carrying it, and the loop goes on |
| Download.FetchAndCopyRecord | process_release_data.py:144-168 | one turn appends that record's fetch and copy events and caches what it fetched |
| Download.FetchAndCopy | process_release_data.py:143-168 | the loop appends the plan of the whole index and leaves the planned cache |
| Download.DownloadFileindexCsv | process_release_data.py:63-72 | the local index is removed, then fetched, and is present only if the fetch succeeded |
| Download.ProcessIndex | process_release_data.py:132-168 | a malformed index ends the run with that line; a read index runs the loop with the filename counts |
| Download.Download | process_release_data.py:113-168 | a run's result, trace and files are those of the outcome function |
| Upload.Preflight | process_release_data.py:177-182 | the run goes ahead exactly for a supported algorithm and an existing incoming directory, the algorithm checked first |
| Upload.RejectedRunDoesNothing | process_release_data.py:177-182 | a run fails exactly when a pre-flight check does, and then makes no call and changes no file |
| Upload.PublishedIndexIsRead | process_release_data.py:191-199 | an index written by the previous run is the prior index of the next one |
| Upload.CorruptIndexIsNewRelease | process_release_data.py:191-199 | a published index with any line that is not two `;`-fields (the only way a read fails, by `FileIndex.ParseLinesSucceeds`) cannot be read and counts as an empty one |
| Upload.ListedIffPriorIndex | process_release_data.py:203-205 | the assets are listed exactly when the prior index is non-empty |
| Upload.UploadedNamesMeaning | process_release_data.py:206-209 | a name is in the skip set exactly when some listed asset of that name is in state "uploaded" |
| Upload.PurgeEventsMeaning | process_release_data.py:207-212 | every listed asset is skipped or deleted, the deletions name exactly the assets in another state |
| Upload.PurgeOnlyDeletes | process_release_data.py:207-212 | the asset loop makes only deletions |
| Upload.CandidatesMeaning | process_release_data.py:217-221 | an incoming entry is taken exactly when it is a regular file whose name does not start with a dot |
| Upload.MergeKeepsPrior | process_release_data.py:225-229 | the merge only appends: the prior index stays in front, and at most one record per incoming file is added |
| Upload.MergeMembers | process_release_data.py:225-229 | a record is in the merged index exactly when it was in the prior index or among the incoming pairs |
| Upload.MergeAppendsOnlyAbsent | process_release_data.py:225-229 | every appended record was absent from everything before it |
| Upload.MergeAddsNoDuplicates | process_release_data.py:225-229 | an index without repeated records gets none from the merge |
| Upload.MergeOfKnown | process_release_data.py:225-229 | when every incoming pair is indexed, the merge changes nothing |
| Upload.NewIndexContents | process_release_data.py:217-236 | the new index is sorted, a permutation of the merged list, and holds exactly the prior and incoming records |
| Upload.RerunKeepsIndex | process_release_data.py:217-236 | uploading files that are all indexed already gives back the same sorted index |
| Upload.StoreFilesContents | process_release_data.py:230-233 | after the loop the cache holds what it held and the blob of every incoming pair |
| Upload.StoreOnlyCaches | process_release_data.py:222-233 | the incoming loop makes no other calls than copies into the cache |
| Upload.StoreCachesOnce | process_release_data.py:230-233 | every missing blob is copied into the cache exactly once, a cached one never |
| Upload.BlobUploadsAreUploads | process_release_data.py:255-260 | the blob loop makes only uploads to this release |
| Upload.BlobUploadsCount | process_release_data.py:255-260 | a skipped checksum is never uploaded; any other once per record carrying it |
| Upload.BlobUploadsInOrder | process_release_data.py:255-260 | the uploads follow the index order |
| Upload.BlobUploadsOfOne | process_release_data.py:256-260 | a record is uploaded exactly when its checksum is not skipped |
| Upload.AllSkippedNoBlobUploads | process_release_data.py:255-258 | when every blob was uploaded before, no blob is uploaded |
| Upload.PrepareShape | process_release_data.py:191-248 | nothing before the index files are replaced is an upload, and the listing happens exactly for a prior index |
| Upload.DeletesBeforeUploads | process_release_data.py:203-260 | every deletion of a run comes before every upload |
| Upload.ReleaseNotesAreTheTable | process_release_data.py:262-265 | the last call sets the release notes to the md table as written |
| Upload.FetchPriorIndex | process_release_data.py:191-199 | the prior index is the published one when it can be fetched and read, empty otherwise |
| Upload.ListAssets | process_release_data.py:203-205 | the assets are listed only for a non-empty prior index |
| Upload.ClassifyAssets | process_release_data.py:206-212 | the loop collects the skip set and deletes every other asset, in listing order |
| Upload.AddIncomingFile | process_release_data.py:223-233 | one turn indexes the file's pair unless present and caches its blob unless present |
| Upload.AddIncoming | process_release_data.py:217-233 | the loop computes the merge and the cache copies |
| Upload.WriteIndexFiles | process_release_data.py:237-239 | the csv and md files of the new index are written |
| Upload.UploadBlobs | process_release_data.py:254-260 | the loop makes exactly the blob uploads of the index and skip set |
| Upload.Replace | process_release_data.py:250-265 | the index files are uploaded, then the blobs, then the notes are set |
| Upload.Prepare | process_release_data.py:188-239 | the run up to publishing: prior index, skip set, merged and sorted index, md text, and its trace and files |
| Upload.Reconcile | process_release_data.py:184-265 | the run after the pre-flight checks matches the outcome function |
| Upload.Upload | process_release_data.py:171-265 | a run's result, trace and files are those of the outcome function |

## Left out

- The `github_release` calls are events on the host's trace. Their network
  behaviour, authentication and the token (process_release_data.py:64-65,
  119-120, 174-175) are not part of this model.
- The return values of the upload, delete, create and edit calls are ignored,
  as the code ignores them.
- `hashlib` is a `Digest` parameter from algorithm and bytes to a hex string.
  `get_hashcmd` returns the algorithm and not a closure that opens a file.
- `os.mkdir` of the download and working directories is not modelled: the
  directories are taken to exist.
- The `cd` context manager is not modelled: every call works on the working
  directory.
- `os.listdir`, `os.path.isfile` and the reading of incoming files make up the
  incoming directory: a sequence of entries in listing order, each with its
  name, whether it is a regular file, and its bytes. A missing directory is
  `None`.
- The download directory is not a set of files. Its copies are `CopyOut`
  events, and a later copy to the same name replaces the earlier.
- Text is `seq<char>`; UTF-8 encoding and decoding are the identity. Decoding
  errors are not modelled.
- IndexOrder.CaseFold: lower-cases ASCII only, because Unicode case folding is
  not modelled.
- LocalNames.LocalNamesDistinct: proved only for dot-free checksums and no
  filename equal to another record's `filename.checksum`, because the
  unconditional claim is false (`LocalNames.LocalNameCollision`).
- FileIndex.CsvRoundTrip: holds only for records without `;`, `\n` or `\r` in a
  field and without trailing whitespace in the filename, because the code
  writes other records in a form it cannot read back.
- Upload.ReleaseNotesAreTheTable: assumes no field holds a line break, because
  otherwise text-mode reading changes the md text. The general case is in
  `Upload.ReconcileOutcome`, which sets the notes to the table with universal
  newlines applied.
- FileIndex.MdShape: assumes the repository name, the algorithm name and every
  field is free of line breaks, because otherwise a row spans several lines.
  An incoming filename from `os.listdir` may hold a '\n'. `FileIndex.RenderMd`
  still gives the exact text written in that case.
- Download.Download returns the index it read, while the Python function
  returns `None`. Its two `ValueError`s (process_release_data.py:71, 79) are
  returned as the values `IndexUnavailable` and `CorruptIndex`.
- Upload.Upload returns the index it published, while the Python function
  returns `None`. The error cases return the two `ValueError`s as values.
- Logging and the command-line interface (process_release_data.py:268-310) have
  no effect on the model and are left out.
