/**
 * The names `download` gives the files it copies out of the blob cache: a
 * filename that occurs once in the index is kept, one that occurs several
 * times gets the record's checksum appended after a dot.
 */
module LocalNames {
  import opened FileIndex

  /** `[checksum_filename[1] for checksum_filename in fileindex]` */
  function Filenames(index: seq<Entry>): (r: seq<string>)
    ensures |r| == |index|
  {
    seq(|index|, k requires 0 <= k < |index| => index[k].filename)
  }

  /** `Counter(filenames)`: how many records carry each filename. */
  function FilenameCounts(index: seq<Entry>): multiset<string> {
    multiset(Filenames(index))
  }

  /** The name under which a record is copied into the download directory. */
  function LocalName(e: Entry, counts: multiset<string>): string {
    if counts[e.filename] == 1 then e.filename else e.filename + "." + e.checksum
  }

  lemma CountTwo(s: seq<string>, i: nat, j: nat)
    requires i < j < |s| && s[i] == s[j]
    ensures multiset(s)[s[i]] >= 2
  {
    assert s == s[..i] + [s[i]] + s[i + 1..j] + [s[j]] + s[j + 1..];
  }

  lemma CountOne(s: seq<string>, i: nat)
    requires i < |s|
    requires forall j :: 0 <= j < |s| && s[j] == s[i] ==> j == i
    ensures multiset(s)[s[i]] == 1
  {
    assert s == s[..i] + [s[i]] + s[i + 1..];
    assert s[i] !in s[..i];
    assert s[i] !in s[i + 1..];
  }

  /** A record keeps its filename exactly when no other record of the index carries that filename. */
  lemma KeepsNameIffUnique(index: seq<Entry>, i: nat)
    requires i < |index|
    ensures LocalName(index[i], FilenameCounts(index)) == index[i].filename
      <==> forall j :: 0 <= j < |index| && index[j].filename == index[i].filename ==> j == i
  {
    var names := Filenames(index);
    if forall j :: 0 <= j < |index| && index[j].filename == index[i].filename ==> j == i {
      CountOne(names, i);
    } else {
      var j :| 0 <= j < |index| && index[j].filename == index[i].filename && j != i;
      if i < j { CountTwo(names, i, j); } else { CountTwo(names, j, i); }
    }
  }

  /** A checksum as `hexdigest()` produces it holds no dot. */
  predicate DotFree(s: string) {
    '.' !in s
  }

  /** No record's filename is what another record becomes when its checksum is appended. */
  predicate NoShadowedNames(index: seq<Entry>) {
    forall a, b :: 0 <= a < |index| && 0 <= b < |index| ==>
      index[a].filename != index[b].filename + "." + index[b].checksum
  }

  lemma SuffixInjective(a: string, c: string, b: string, d: string)
    requires DotFree(c) && DotFree(d)
    requires a + "." + c == b + "." + d
    ensures a == b && c == d
  {
    var s, t := a + "." + c, b + "." + d;
    assert s[|s| - 1 - |c|] == '.' && t[|t| - 1 - |d|] == '.';
    assert forall k :: |s| - |c| <= k < |s| ==> s[k] == c[k - (|s| - |c|)];
    assert forall k :: |t| - |d| <= k < |t| ==> t[k] == d[k - (|t| - |d|)];
    assert |c| == |d|;
    assert c == s[|s| - |c|..];
    assert d == (b + "." + d)[|s| - |d|..];
    assert a == s[..|a|];
    assert b == (b + "." + d)[..|b|];
  }

  /**
   * Two different records get different local names, provided checksums hold
   * no dot and no filename is another record's filename with its checksum
   * appended. `LocalNameCollision` shows that the second proviso is needed.
   */
  lemma LocalNamesDistinct(index: seq<Entry>, i: nat, j: nat)
    requires i < |index| && j < |index| && index[i] != index[j]
    requires forall k :: 0 <= k < |index| ==> DotFree(index[k].checksum)
    requires NoShadowedNames(index)
    ensures LocalName(index[i], FilenameCounts(index)) != LocalName(index[j], FilenameCounts(index))
  {
    var counts := FilenameCounts(index);
    var ei, ej := index[i], index[j];
    if counts[ei.filename] == 1 && counts[ej.filename] == 1 {
      KeepsNameIffUnique(index, i);
    } else if counts[ei.filename] != 1 && counts[ej.filename] != 1 {
      if ei.filename + "." + ei.checksum == ej.filename + "." + ej.checksum {
        SuffixInjective(ei.filename, ei.checksum, ej.filename, ej.checksum);
      }
    }
  }

  /**
   * Without the proviso two different records can share a local name: in this
   * index the first and the third record are both copied to "a.x", and the
   * later copy replaces the earlier.
   */
  lemma LocalNameCollision()
    ensures var index := [Entry("x", "a"), Entry("y", "a"), Entry("z", "a.x")];
      index[0] != index[2] &&
      LocalName(index[0], FilenameCounts(index)) == "a.x" &&
      LocalName(index[2], FilenameCounts(index)) == "a.x"
  {
    var index := [Entry("x", "a"), Entry("y", "a"), Entry("z", "a.x")];
    var names: seq<string> := ["a", "a", "a.x"];
    assert Filenames(index) == names;
    assert "a" != "a.x" by { assert |"a"| != |"a.x"|; }
    assert multiset(names) == multiset{"a", "a", "a.x"};
    assert FilenameCounts(index)["a"] == 2 && FilenameCounts(index)["a.x"] == 1;
  }

  /**
   * One record named "a.txt" keeps its name; a second record with that name
   * and another checksum makes both carry their checksums.
   */
  lemma SecondVersionRenamesBoth(x: string, y: string)
    requires x != y
    ensures LocalName(Entry(x, "a.txt"), FilenameCounts([Entry(x, "a.txt")])) == "a.txt"
    ensures var index := [Entry(x, "a.txt"), Entry(y, "a.txt")];
      LocalName(index[0], FilenameCounts(index)) == "a.txt." + x &&
      LocalName(index[1], FilenameCounts(index)) == "a.txt." + y
  {
    var index := [Entry(x, "a.txt"), Entry(y, "a.txt")];
    assert Filenames([Entry(x, "a.txt")]) == ["a.txt"];
    assert Filenames(index) == ["a.txt", "a.txt"];
  }
}
