/**
 * The file index of one release: its `<algo>.csv` form (`read_fileindex_csv`,
 * `write_fileindex_csv`) and its Markdown rendering (`write_fileindex_md`).
 */
module FileIndex {
  import opened Wrappers
  import opened Text

  /** One record of the index, the list `[checksum, filename]` of the script. */
  datatype Entry = Entry(checksum: string, filename: string)

  /** `read_fileindex_csv` raises ValueError on a line that is not two `;`-fields. */
  datatype CsvError = MalformedLine(line: string)

  /** The line `write_fileindex_csv` writes for one record. */
  function EncodeLine(e: Entry): string {
    e.checksum + ";" + e.filename + "\n"
  }

  function EncodedLines(index: seq<Entry>): (r: seq<string>)
    ensures |r| == |index|
  {
    seq(|index|, k requires 0 <= k < |index| => EncodeLine(index[k]))
  }

  /** The checksums of an index, in order. */
  function Checksums(index: seq<Entry>): (r: seq<string>)
    ensures |r| == |index|
  {
    seq(|index|, k requires 0 <= k < |index| => index[k].checksum)
  }

  lemma ChecksumsStep(index: seq<Entry>)
    requires index != []
    ensures Checksums(index) == Checksums(index[..|index| - 1]) + [index[|index| - 1].checksum]
  {
  }

  /** The whole text of `<algo>.csv` for an index. */
  function EncodeIndex(index: seq<Entry>): string {
    Concat(EncodedLines(index))
  }

  /** One line of the file as `read_fileindex_csv` reads it: `line.rstrip().split(";")` unpacked into two. */
  function ParseLine(line: string): Option<Entry> {
    var fields := Split(RStrip(line), ';');
    if |fields| == 2 then Some(Entry(fields[0], fields[1])) else None
  }

  /**
   * A line is a record exactly when, without its trailing whitespace, it holds
   * one `;`; the record's fields are then the text on either side of it.
   */
  lemma ParseLineMeaning(line: string)
    ensures ParseLine(line).Some? <==> multiset(RStrip(line))[';'] == 1
    ensures ParseLine(line).Some? ==>
      var e := ParseLine(line).value;
      RStrip(line) == e.checksum + ";" + e.filename && ';' !in e.checksum && ';' !in e.filename
  {
    var fields := Split(RStrip(line), ';');
    if |fields| == 2 {
      SplitJoin(RStrip(line), ';');
      assert fields[1..] == [fields[1]];
    }
  }

  /** The records of a sequence of lines; the first malformed line aborts the whole read. */
  function ParseLines(lines: seq<string>): Result<seq<Entry>, CsvError> {
    if lines == [] then Success([])
    else
      match ParseLines(lines[..|lines| - 1])
      case Failure(err) => Failure(err)
      case Success(entries) =>
        match ParseLine(lines[|lines| - 1])
        case None => Failure(MalformedLine(lines[|lines| - 1]))
        case Some(e) => Success(entries + [e])
  }

  /** What `read_fileindex_csv` returns or raises for a file with this text. */
  function ParseIndex(text: string): Result<seq<Entry>, CsvError> {
    ParseLines(Lines(Normalize(text)))
  }

  /** A failure on a prefix of the lines is the failure of the whole read. */
  lemma {:induction false} ParseLinesFailureSticks(lines: seq<string>, i: nat)
    requires i <= |lines|
    requires ParseLines(lines[..i]).Failure?
    ensures ParseLines(lines) == ParseLines(lines[..i])
    decreases |lines| - i
  {
    if i < |lines| {
      assert lines[..i + 1][..i] == lines[..i];
      ParseLinesFailureSticks(lines, i + 1);
    } else {
      assert lines[..i] == lines;
    }
  }

  /** Reading succeeds exactly when every line is two `;`-fields. */
  lemma {:induction false} ParseLinesSucceeds(lines: seq<string>)
    ensures ParseLines(lines).Success? <==> forall k :: 0 <= k < |lines| ==> ParseLine(lines[k]).Some?
  {
    if lines != [] {
      var init, last := lines[..|lines| - 1], lines[|lines| - 1];
      ParseLinesSucceeds(init);
      assert forall k :: 0 <= k < |init| ==> init[k] == lines[k];
      assert lines[|lines| - 1] == last;
    }
  }

  /** A successful read yields one record per line, in the order of the lines. */
  lemma {:induction false} ParseLinesValues(lines: seq<string>)
    requires ParseLines(lines).Success?
    ensures |ParseLines(lines).value| == |lines|
    ensures forall k :: 0 <= k < |lines| ==> ParseLine(lines[k]) == Some(ParseLines(lines).value[k])
  {
    if lines != [] {
      var init, last := lines[..|lines| - 1], lines[|lines| - 1];
      var entries, e := ParseLines(init).value, ParseLine(last).value;
      ParseLinesValues(init);
      var v := entries + [e];
      assert ParseLines(lines).value == v;
      forall k | 0 <= k < |lines|
        ensures ParseLine(lines[k]) == Some(v[k])
      {
        if k < |init| {
          assert lines[k] == init[k] && v[k] == entries[k];
        }
      }
    }
  }

  /**
   * Reading succeeds exactly when every line is two `;`-fields, and then yields
   * one record per line, in the order of the lines.
   */
  lemma ParseLinesMeaning(lines: seq<string>)
    ensures ParseLines(lines).Success? <==> forall k :: 0 <= k < |lines| ==> ParseLine(lines[k]).Some?
    ensures ParseLines(lines).Success? ==>
      |ParseLines(lines).value| == |lines| &&
      forall k :: 0 <= k < |lines| ==> ParseLines(lines).value[k] == ParseLine(lines[k]).value
  {
    ParseLinesSucceeds(lines);
    if ParseLines(lines).Success? {
      ParseLinesValues(lines);
    }
  }

  /** `read_fileindex_csv` fails on an empty or all-blank line. */
  lemma BlankLineIsMalformed(text: string, k: nat)
    requires k < |Lines(Normalize(text))|
    requires RStrip(Lines(Normalize(text))[k]) == []
    ensures ParseIndex(text).Failure?
  {
    ParseLinesMeaning(Lines(Normalize(text)));
  }

  /** When a record survives a write and a read: no field holds `;` or a line break, and the filename does not end in whitespace. */
  predicate WritableEntry(e: Entry) {
    ';' !in e.checksum && '\n' !in e.checksum && '\r' !in e.checksum &&
    ';' !in e.filename && '\n' !in e.filename && '\r' !in e.filename &&
    (e.filename == [] || !IsSpace(e.filename[|e.filename| - 1]))
  }

  lemma ParseEncodedLine(e: Entry)
    requires WritableEntry(e)
    ensures ParseLine(EncodeLine(e)) == Some(e)
  {
    var s := e.checksum + ";" + e.filename;
    assert EncodeLine(e) == s + "\n";
    assert !IsSpace(s[|s| - 1]);
    assert RStrip(s + "\n") == s;
    SplitPair(e.checksum, e.filename, ';');
  }

  lemma {:induction false} NotInConcat(parts: seq<string>, c: char)
    requires forall k :: 0 <= k < |parts| ==> c !in parts[k]
    ensures c !in Concat(parts)
  {
    if parts != [] { NotInConcat(parts[1..], c); }
  }

  lemma {:induction false} ParseEncodedLines(index: seq<Entry>)
    requires forall k :: 0 <= k < |index| ==> WritableEntry(index[k])
    ensures ParseLines(EncodedLines(index)) == Success(index)
  {
    if index != [] {
      var lines, init, last := EncodedLines(index), index[..|index| - 1], index[|index| - 1];
      assert lines[..|lines| - 1] == EncodedLines(init);
      ParseEncodedLines(init);
      ParseEncodedLine(last);
      assert lines[|lines| - 1] == EncodeLine(last);
      assert ParseLines(lines) == Success(init + [last]);
      assert init + [last] == index;
    }
  }

  /** Round trip: reading back what `write_fileindex_csv` wrote gives the same records in the same order. */
  lemma CsvRoundTrip(index: seq<Entry>)
    requires forall k :: 0 <= k < |index| ==> WritableEntry(index[k])
    ensures ParseIndex(EncodeIndex(index)) == Success(index)
  {
    var ls := EncodedLines(index);
    NotInConcat(ls, '\r');
    forall k | 0 <= k < |ls| ensures TerminatedLine(ls[k]) {
      var e := index[k];
      assert ls[k][..|ls[k]| - 1] == e.checksum + ";" + e.filename;
    }
    LinesOfConcat(ls);
    ParseEncodedLines(index);
  }

  /** `read_fileindex_csv`: one record per line, appended in a loop; a malformed line raises. */
  method ReadFileIndexCsv(text: string) returns (r: Result<seq<Entry>, CsvError>)
    ensures r == ParseIndex(text)
  {
    var lines := Lines(Normalize(text));
    var fileindex: seq<Entry> := [];
    var i := 0;
    while i < |lines|
      invariant i <= |lines|
      invariant ParseLines(lines[..i]) == Success(fileindex)
    {
      assert lines[..i + 1][..i] == lines[..i];
      var fields := Split(RStrip(lines[i]), ';');
      if |fields| != 2 {
        ParseLinesFailureSticks(lines, i + 1);
        return Failure(MalformedLine(lines[i]));
      }
      fileindex := fileindex + [Entry(fields[0], fields[1])];
      i := i + 1;
    }
    assert lines[..i] == lines;
    return Success(fileindex);
  }

  /** `write_fileindex_csv`: the text it writes, one line per record in index order. */
  method WriteFileIndexCsv(fileindex: seq<Entry>) returns (text: string)
    ensures text == EncodeIndex(fileindex)
  {
    text := "";
    var i := 0;
    while i < |fileindex|
      invariant i <= |fileindex|
      invariant text == Concat(EncodedLines(fileindex[..i]))
    {
      assert EncodedLines(fileindex[..i + 1]) == EncodedLines(fileindex[..i]) + [EncodeLine(fileindex[i])];
      ConcatAppend(EncodedLines(fileindex[..i]), [EncodeLine(fileindex[i])]);
      text := text + EncodeLine(fileindex[i]);
      i := i + 1;
    }
    assert fileindex[..i] == fileindex;
  }

  /** The first two lines of the Markdown rendering. */
  function MdHeader(hashalgo: string): string {
    "| FileName | " + hashalgo + " |\n"
  }

  const MdSeparator: string := "|----------|-------------|\n"

  /** The table row of one record: a link to its download URL, then its checksum. */
  function MdRow(e: Entry, repo: string, hashalgo: string): string {
    MdRowText(e, repo, hashalgo) + "\n"
  }

  function MdRowText(e: Entry, repo: string, hashalgo: string): string {
    "| [" + e.filename + "](" + DownloadUrl(repo, hashalgo, e.checksum) + ") | " + e.checksum
  }

  /** Where GitHub serves the asset named `checksum` of release `hashalgo`. */
  function DownloadUrl(repo: string, hashalgo: string, checksum: string): string {
    "https://github.com/" + repo + "/releases/download/" + hashalgo + "/" + checksum
  }

  function MdRows(index: seq<Entry>, repo: string, hashalgo: string): (r: seq<string>)
    ensures |r| == |index|
  {
    seq(|index|, k requires 0 <= k < |index| => MdRow(index[k], repo, hashalgo))
  }

  /** The whole text `write_fileindex_md` writes. */
  function RenderMd(index: seq<Entry>, repo: string, hashalgo: string): string {
    Concat([MdHeader(hashalgo), MdSeparator] + MdRows(index, repo, hashalgo))
  }

  /** A field that does not break a line of the rendering. */
  predicate OneLine(s: string) {
    '\n' !in s && '\r' !in s
  }

  /**
   * The shape of the rendering: the header, the separator, then exactly one
   * row per record, in index order.
   */
  lemma MdShape(index: seq<Entry>, repo: string, hashalgo: string)
    requires OneLine(repo) && OneLine(hashalgo)
    requires forall k :: 0 <= k < |index| ==> OneLine(index[k].checksum) && OneLine(index[k].filename)
    ensures Lines(RenderMd(index, repo, hashalgo)) == [MdHeader(hashalgo), MdSeparator] + MdRows(index, repo, hashalgo)
    ensures |Lines(RenderMd(index, repo, hashalgo))| == |index| + 2
    ensures Normalize(RenderMd(index, repo, hashalgo)) == RenderMd(index, repo, hashalgo)
  {
    var ls := [MdHeader(hashalgo), MdSeparator] + MdRows(index, repo, hashalgo);
    MdLinesAreLines(index, repo, hashalgo);
    LinesOfConcat(ls);
    NotInConcat(ls, '\r');
  }

  /** Every piece of the rendering is one terminated line without a carriage return. */
  lemma MdLinesAreLines(index: seq<Entry>, repo: string, hashalgo: string)
    requires OneLine(repo) && OneLine(hashalgo)
    requires forall k :: 0 <= k < |index| ==> OneLine(index[k].checksum) && OneLine(index[k].filename)
    ensures var ls := [MdHeader(hashalgo), MdSeparator] + MdRows(index, repo, hashalgo);
      forall k :: 0 <= k < |ls| ==> TerminatedLine(ls[k]) && '\r' !in ls[k]
  {
    var ls := [MdHeader(hashalgo), MdSeparator] + MdRows(index, repo, hashalgo);
    forall k | 0 <= k < |ls| ensures TerminatedLine(ls[k]) && '\r' !in ls[k] {
      if k == 0 {
        MdHeaderIsLine(hashalgo);
      } else if k == 1 {
        assert MdSeparator[..|MdSeparator| - 1] == "|----------|-------------|";
      } else {
        assert ls[k] == MdRow(index[k - 2], repo, hashalgo);
        MdRowIsLine(index[k - 2], repo, hashalgo);
      }
    }
  }

  lemma MdHeaderIsLine(hashalgo: string)
    requires OneLine(hashalgo)
    ensures TerminatedLine(MdHeader(hashalgo)) && '\r' !in MdHeader(hashalgo)
  {
    var h := MdHeader(hashalgo);
    assert h[..|h| - 1] == "| FileName | " + hashalgo + " |";
  }

  lemma MdRowIsLine(e: Entry, repo: string, hashalgo: string)
    requires OneLine(repo) && OneLine(hashalgo) && OneLine(e.checksum) && OneLine(e.filename)
    ensures TerminatedLine(MdRow(e, repo, hashalgo)) && '\r' !in MdRow(e, repo, hashalgo)
  {
    var row, body := MdRow(e, repo, hashalgo), MdRowText(e, repo, hashalgo);
    var url := DownloadUrl(repo, hashalgo, e.checksum);
    assert OneLine(url) by {
      assert OneLine("https://github.com/" + repo);
      assert OneLine("https://github.com/" + repo + "/releases/download/");
      assert OneLine("https://github.com/" + repo + "/releases/download/" + hashalgo + "/");
    }
    assert OneLine(body) by {
      assert OneLine("| [" + e.filename + "](");
      assert OneLine("| [" + e.filename + "](" + url + ") | ");
    }
    assert row[..|row| - 1] == body;
  }

  /** `write_fileindex_md`: header, separator, then one row per record written in a loop. */
  method WriteFileIndexMd(fileindex: seq<Entry>, repo: string, hashalgo: string) returns (text: string)
    ensures text == RenderMd(fileindex, repo, hashalgo)
  {
    text := MdHeader(hashalgo) + MdSeparator;
    assert [MdHeader(hashalgo), MdSeparator] + MdRows(fileindex[..0], repo, hashalgo) == [MdHeader(hashalgo), MdSeparator];
    assert Concat([MdSeparator]) == MdSeparator + Concat([]);
    assert Concat([MdHeader(hashalgo), MdSeparator]) == MdHeader(hashalgo) + Concat([MdSeparator]);
    var i := 0;
    while i < |fileindex|
      invariant i <= |fileindex|
      invariant text == Concat([MdHeader(hashalgo), MdSeparator] + MdRows(fileindex[..i], repo, hashalgo))
    {
      var before := [MdHeader(hashalgo), MdSeparator] + MdRows(fileindex[..i], repo, hashalgo);
      assert [MdHeader(hashalgo), MdSeparator] + MdRows(fileindex[..i + 1], repo, hashalgo)
        == before + [MdRow(fileindex[i], repo, hashalgo)];
      ConcatAppend(before, [MdRow(fileindex[i], repo, hashalgo)]);
      text := text + MdRow(fileindex[i], repo, hashalgo);
      i := i + 1;
    }
    assert fileindex[..i] == fileindex;
  }
}
