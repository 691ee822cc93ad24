/**
 * The order `upload` puts the index in: `fileindex.sort(key=lambda a:
 * (a[1].casefold(), a[0]))`, a stable sort on the case-folded filename, then
 * the checksum.
 */
module IndexOrder {
  import opened Text
  import opened FileIndex

  /** `str.casefold`, restricted to ASCII: upper-case letters become lower-case, all else stays. */
  function CaseFold(s: string): (r: string)
    ensures |r| == |s|
    ensures forall k :: 0 <= k < |r| ==> !('A' <= r[k] <= 'Z')
    ensures forall k :: 0 <= k < |s| && !('A' <= s[k] <= 'Z') ==> r[k] == s[k]
  {
    seq(|s|, k requires 0 <= k < |s| => if 'A' <= s[k] <= 'Z' then (s[k] as int + 32) as char else s[k])
  }

  /** Two characters that are the same letter in either case, or simply the same character. */
  predicate SameUpToCase(x: char, y: char) {
    x == y ||
    ('A' <= x <= 'Z' && y as int == x as int + 32) ||
    ('A' <= y <= 'Z' && x as int == y as int + 32)
  }

  /** Case folding identifies two names exactly when they differ only in the case of ASCII letters. */
  lemma CaseFoldEqual(a: string, b: string)
    ensures CaseFold(a) == CaseFold(b) <==>
      |a| == |b| && forall k :: 0 <= k < |a| ==> SameUpToCase(a[k], b[k])
  {
    var fa, fb := CaseFold(a), CaseFold(b);
    if fa == fb {
      forall k | 0 <= k < |a| ensures SameUpToCase(a[k], b[k]) {
        assert fa[k] == fb[k];
      }
    } else if |a| == |b| {
      var k :| 0 <= k < |a| && fa[k] != fb[k];
      assert !SameUpToCase(a[k], b[k]);
    }
  }

  /** Python's `<=` on the sort keys `(casefold(filename), checksum)`. */
  predicate KeyLe(a: Entry, b: Entry) {
    var fa, fb := CaseFold(a.filename), CaseFold(b.filename);
    (LexLe(fa, fb) && fa != fb) || (fa == fb && LexLe(a.checksum, b.checksum))
  }

  /** Two records whose sort keys are equal; a stable sort keeps such records in their original order. */
  predicate SameKey(a: Entry, b: Entry) {
    CaseFold(a.filename) == CaseFold(b.filename) && a.checksum == b.checksum
  }

  lemma KeyTotal(a: Entry, b: Entry)
    ensures KeyLe(a, b) || KeyLe(b, a)
  {
    LexTotal(CaseFold(a.filename), CaseFold(b.filename));
    LexTotal(a.checksum, b.checksum);
  }

  lemma KeyTransitive(a: Entry, b: Entry, c: Entry)
    requires KeyLe(a, b) && KeyLe(b, c)
    ensures KeyLe(a, c)
  {
    var fa, fb, fc := CaseFold(a.filename), CaseFold(b.filename), CaseFold(c.filename);
    if fa == fb && fb == fc {
      LexTransitive(a.checksum, b.checksum, c.checksum);
    } else if fa != fb && fb != fc {
      LexTransitive(fa, fb, fc);
      if fa == fc { LexAntisymmetric(fa, fb); }
    }
  }

  lemma KeyAntisymmetric(a: Entry, b: Entry)
    ensures KeyLe(a, b) && KeyLe(b, a) <==> SameKey(a, b)
  {
    var fa, fb := CaseFold(a.filename), CaseFold(b.filename);
    if KeyLe(a, b) && KeyLe(b, a) {
      if fa != fb { LexAntisymmetric(fa, fb); }
      LexAntisymmetric(a.checksum, b.checksum);
    }
    if SameKey(a, b) { LexReflexive(a.checksum); }
  }

  ghost predicate Sorted(s: seq<Entry>) {
    forall i, j :: 0 <= i < j < |s| ==> KeyLe(s[i], s[j])
  }

  /** Insert `x` into sorted `s` after every record whose key is not above its own. */
  function Insert(x: Entry, s: seq<Entry>): seq<Entry> {
    if s == [] then [x]
    else if !KeyLe(s[0], x) then [x] + s
    else [s[0]] + Insert(x, s[1..])
  }

  /** The stable sort `list.sort` performs, written as an insertion sort from the last record backwards. */
  function Sort(s: seq<Entry>): seq<Entry> {
    if s == [] then [] else Insert(s[|s| - 1], Sort(s[..|s| - 1]))
  }

  /** A record whose key is not below any key of `s` goes at the end. */
  lemma {:induction false} InsertAtEnd(x: Entry, s: seq<Entry>)
    requires forall k :: 0 <= k < |s| ==> KeyLe(s[k], x)
    ensures Insert(x, s) == s + [x]
  {
    if s != [] {
      InsertAtEnd(x, s[1..]);
      assert [s[0]] + (s[1..] + [x]) == s + [x];
    }
  }

  /** Sorting an index that is already in order leaves it as it is. */
  lemma {:induction false} SortOfSorted(s: seq<Entry>)
    requires Sorted(s)
    ensures Sort(s) == s
  {
    if s != [] {
      var init := s[..|s| - 1];
      assert Sorted(init);
      SortOfSorted(init);
      InsertAtEnd(s[|s| - 1], init);
    }
  }

  lemma {:induction false} InsertPermutes(x: Entry, s: seq<Entry>)
    ensures multiset(Insert(x, s)) == multiset(s) + multiset{x}
  {
    if s != [] && KeyLe(s[0], x) {
      InsertPermutes(x, s[1..]);
      assert s == [s[0]] + s[1..];
    }
  }

  lemma {:induction false} InsertSorted(x: Entry, s: seq<Entry>)
    requires Sorted(s)
    ensures Sorted(Insert(x, s))
  {
    if s == [] {
    } else if !KeyLe(s[0], x) {
      KeyTotal(x, s[0]);
      forall j | 0 < j < |s| ensures KeyLe(x, s[j]) { KeyTransitive(x, s[0], s[j]); }
      assert forall j :: 0 < j <= |s| ==> Insert(x, s)[j] == s[j - 1];
    } else {
      var rest := Insert(x, s[1..]);
      assert Sorted(s[1..]);
      InsertSorted(x, s[1..]);
      InsertPermutes(x, s[1..]);
      forall j | 0 <= j < |rest| ensures KeyLe(s[0], rest[j]) {
        assert rest[j] in multiset(rest);
        if rest[j] != x {
          assert rest[j] in multiset(s[1..]);
          var m :| 0 <= m < |s[1..]| && s[1..][m] == rest[j];
          assert s[m + 1] == rest[j];
        }
      }
      assert forall j :: 0 < j <= |rest| ==> Insert(x, s)[j] == rest[j - 1];
    }
  }

  /** The result of sorting is in key order and holds the same records as many times as before. */
  lemma {:induction false} SortSortsAndPermutes(s: seq<Entry>)
    ensures Sorted(Sort(s))
    ensures multiset(Sort(s)) == multiset(s)
  {
    if s != [] {
      var init, last := s[..|s| - 1], s[|s| - 1];
      SortSortsAndPermutes(init);
      InsertSorted(last, Sort(init));
      InsertPermutes(last, Sort(init));
      assert s == init + [last];
    }
  }

  /** The records of `s` whose key equals the key of `y`, in their order in `s`. */
  function WithKeyOf(s: seq<Entry>, y: Entry): seq<Entry> {
    if s == [] then []
    else (if SameKey(s[0], y) then [s[0]] else []) + WithKeyOf(s[1..], y)
  }

  lemma {:induction false} WithKeyOfAppend(a: seq<Entry>, b: seq<Entry>, y: Entry)
    ensures WithKeyOf(a + b, y) == WithKeyOf(a, y) + WithKeyOf(b, y)
  {
    if a == [] {
      assert a + b == b;
    } else {
      assert (a + b)[1..] == a[1..] + b;
      WithKeyOfAppend(a[1..], b, y);
    }
  }

  lemma {:induction false} NoneWithKeyAbove(x: Entry, s: seq<Entry>, y: Entry)
    requires Sorted(s) && s != [] && !KeyLe(s[0], x) && SameKey(x, y)
    ensures WithKeyOf(s, y) == []
  {
    KeyAntisymmetric(s[0], x);
    if |s| > 1 {
      assert !KeyLe(s[1], x) by {
        if KeyLe(s[1], x) { KeyTransitive(s[0], s[1], x); }
      }
      assert Sorted(s[1..]);
      NoneWithKeyAbove(x, s[1..], y);
    }
  }

  lemma {:induction false} InsertStable(x: Entry, s: seq<Entry>, y: Entry)
    requires Sorted(s)
    ensures WithKeyOf(Insert(x, s), y) == WithKeyOf(s, y) + (if SameKey(x, y) then [x] else [])
  {
    if s == [] {
    } else if !KeyLe(s[0], x) {
      assert Insert(x, s)[1..] == s;
      if SameKey(x, y) { NoneWithKeyAbove(x, s, y); }
    } else {
      assert Sorted(s[1..]);
      InsertStable(x, s[1..], y);
      assert Insert(x, s)[1..] == Insert(x, s[1..]);
    }
  }

  lemma WithKeyOfOne(x: Entry, y: Entry)
    ensures WithKeyOf([x], y) == if SameKey(x, y) then [x] else []
  {
    assert [x][1..] == [];
  }

  /**
   * The sort is stable: the records that share one key appear in it in the
   * order they had before sorting.
   */
  lemma {:induction false} SortStable(s: seq<Entry>, y: Entry)
    ensures WithKeyOf(Sort(s), y) == WithKeyOf(s, y)
  {
    if s != [] {
      var init, last := s[..|s| - 1], s[|s| - 1];
      var tail := if SameKey(last, y) then [last] else [];
      calc {
        WithKeyOf(Sort(s), y);
        WithKeyOf(Insert(last, Sort(init)), y);
        { SortSortsAndPermutes(init); InsertStable(last, Sort(init), y); }
        WithKeyOf(Sort(init), y) + tail;
        { SortStable(init, y); }
        WithKeyOf(init, y) + tail;
        { WithKeyOfAppend(init, [last], y); WithKeyOfOne(last, y); }
        WithKeyOf(init + [last], y);
        { assert s == init + [last]; }
        WithKeyOf(s, y);
      }
    }
  }
}
