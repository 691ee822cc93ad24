/**
 * The parts of Python's string and text-file semantics the script relies on:
 * `str.isspace`/`str.rstrip`, `str.split(sep)`, iterating over the lines of a
 * file opened in text mode (universal newlines), and string comparison.
 */
module Text {

  /** The characters for which Python's `str.isspace()` holds; `str.rstrip()` removes these. */
  predicate IsSpace(c: char) {
    c == ' ' || ('\t' <= c <= '\r') || ('\U{001c}' <= c <= '\U{001f}')
    || c == '\U{0085}' || c == '\U{00a0}' || c == '\U{1680}'
    || ('\U{2000}' <= c <= '\U{200a}')
    || c == '\U{2028}' || c == '\U{2029}' || c == '\U{202f}' || c == '\U{205f}' || c == '\U{3000}'
  }

  /** `s.rstrip()`: the longest prefix of `s` that does not end in whitespace. */
  function RStrip(s: string): (r: string)
    ensures r <= s
    ensures r == [] || !IsSpace(r[|r| - 1])
    ensures forall k :: |r| <= k < |s| ==> IsSpace(s[k])
  {
    if s != [] && IsSpace(s[|s| - 1]) then RStrip(s[..|s| - 1]) else s
  }

  /** The inverse of `Split`: the parts with `sep` between consecutive ones. */
  function Join(parts: seq<string>, sep: char): string
    requires |parts| >= 1
  {
    if |parts| == 1 then parts[0] else parts[0] + [sep] + Join(parts[1..], sep)
  }

  /** `s.split(sep)`: the maximal `sep`-free pieces of `s`, one more than there are separators. */
  function Split(s: string, sep: char): (r: seq<string>)
    ensures |r| == multiset(s)[sep] + 1
    ensures forall k :: 0 <= k < |r| ==> sep !in r[k]
  {
    if s == [] then [[]]
    else if s[0] == sep then
      assert s == [s[0]] + s[1..];
      [[]] + Split(s[1..], sep)
    else
      var rest := Split(s[1..], sep);
      var r := [[s[0]] + rest[0]] + rest[1..];
      assert s == [s[0]] + s[1..];
      assert multiset(s)[sep] == multiset(s[1..])[sep];
      assert forall k :: 1 <= k < |r| ==> r[k] == rest[k];
      r
  }

  /** Joining after a character was put in front of the first part, or after an empty part was put in front. */
  lemma JoinCons(x: char, rest: seq<string>, sep: char)
    requires |rest| >= 1
    ensures Join([[x] + rest[0]] + rest[1..], sep) == [x] + Join(rest, sep)
    ensures Join([[]] + rest, sep) == [sep] + Join(rest, sep)
  {
    var r := [[x] + rest[0]] + rest[1..];
    assert r[1..] == rest[1..];
    assert ([[]] + rest)[1..] == rest;
    if |rest| > 1 {
      assert Join(r, sep) == ([x] + rest[0]) + [sep] + Join(rest[1..], sep);
    }
  }

  /** Joining the pieces of a split with the separator gives back the string. */
  lemma {:induction false} SplitJoin(s: string, sep: char)
    ensures Join(Split(s, sep), sep) == s
  {
    if s != [] {
      SplitJoin(s[1..], sep);
      JoinCons(s[0], Split(s[1..], sep), sep);
      assert s == [s[0]] + s[1..];
    }
  }

  lemma {:induction false} SplitPair(a: string, b: string, sep: char)
    requires sep !in a && sep !in b
    ensures Split(a + [sep] + b, sep) == [a, b]
  {
    if a == [] {
      assert a + [sep] + b == [sep] + b;
      SplitCons(sep, b, sep);
      SplitFree(b, sep);
    } else {
      var t := a[1..] + [sep] + b;
      assert a + [sep] + b == [a[0]] + t;
      SplitPair(a[1..], b, sep);
      SplitCons(a[0], t, sep);
      assert [a[0]] + a[1..] == a;
    }
  }

  /** One step of splitting: a separator in front starts a new empty piece, any other character joins the first piece. */
  lemma SplitCons(x: char, t: string, sep: char)
    ensures x == sep ==> Split([x] + t, sep) == [[]] + Split(t, sep)
    ensures x != sep ==> Split([x] + t, sep) == [[x] + Split(t, sep)[0]] + Split(t, sep)[1..]
  {
    assert ([x] + t)[1..] == t;
  }

  /** A string without the separator splits into itself alone. */
  lemma {:induction false} SplitFree(s: string, sep: char)
    requires sep !in s
    ensures Split(s, sep) == [s]
  {
    if s != [] {
      SplitFree(s[1..], sep);
      assert [s[0]] + s[1..] == s;
    }
  }

  /** Concatenation of a sequence of strings. */
  function Concat(parts: seq<string>): string {
    if parts == [] then [] else parts[0] + Concat(parts[1..])
  }

  lemma {:induction false} ConcatAppend(a: seq<string>, b: seq<string>)
    ensures Concat(a + b) == Concat(a) + Concat(b)
  {
    if a != [] {
      assert (a + b)[1..] == a[1..] + b;
      ConcatAppend(a[1..], b);
    } else {
      assert a + b == b;
    }
  }

  /**
   * The lines produced by iterating over a file in text mode: every line
   * keeps its terminating '\n', and the last one may lack it.
   */
  function Lines(s: string): seq<string> {
    if s == [] then []
    else if s[0] == '\n' then ["\n"] + Lines(s[1..])
    else
      var rest := Lines(s[1..]);
      if rest == [] then [[s[0]]] else [[s[0]] + rest[0]] + rest[1..]
  }

  /** The lines put together are the text again. */
  lemma {:induction false} LinesConcat(s: string)
    ensures Concat(Lines(s)) == s
  {
    if s != [] {
      LinesConcat(s[1..]);
      var rest := Lines(s[1..]);
      if s[0] == '\n' {
        var r := ["\n"] + rest;
        assert r[1..] == rest;
        assert Concat(r) == "\n" + Concat(rest);
        assert s == "\n" + s[1..];
      } else if rest == [] {
        assert [[s[0]]][1..] == [];
        assert s == [s[0]] + s[1..];
      } else {
        var r := [[s[0]] + rest[0]] + rest[1..];
        var a, b := rest[0], Concat(rest[1..]);
        assert r[1..] == rest[1..];
        assert Concat(rest) == a + b;
        assert Concat(r) == ([s[0]] + a) + b;
        assert ([s[0]] + a) + b == [s[0]] + (a + b);
        assert s == [s[0]] + s[1..];
      }
    }
  }

  /** Line `k` is non-empty, holds no '\n' before its last character, and ends in '\n' unless it is the last. */
  lemma {:induction false} LineShape(s: string, k: nat)
    requires k < |Lines(s)|
    ensures Lines(s)[k] != [] && '\n' !in Lines(s)[k][..|Lines(s)[k]| - 1]
    ensures k < |Lines(s)| - 1 ==> Lines(s)[k][|Lines(s)[k]| - 1] == '\n'
  {
    var rest := Lines(s[1..]);
    if s[0] == '\n' {
      if k > 0 {
        assert Lines(s)[k] == rest[k - 1];
        LineShape(s[1..], k - 1);
      }
    } else if rest != [] {
      LineShape(s[1..], k);
      if k == 0 {
        var l := [s[0]] + rest[0];
        assert l[..|l| - 1] == [s[0]] + rest[0][..|rest[0]| - 1];
      } else {
        assert Lines(s)[k] == rest[k];
      }
    }
  }

  /** Every line is non-empty, holds no '\n' before its last character, and all but the last end in '\n'. */
  lemma LinesShape(s: string)
    ensures forall k :: 0 <= k < |Lines(s)| ==> Lines(s)[k] != []
    ensures forall k :: 0 <= k < |Lines(s)| ==> '\n' !in Lines(s)[k][..|Lines(s)[k]| - 1]
    ensures forall k :: 0 <= k < |Lines(s)| - 1 ==> Lines(s)[k][|Lines(s)[k]| - 1] == '\n'
  {
    forall k | 0 <= k < |Lines(s)| {
      LineShape(s, k);
    }
  }

  /** A line as `Lines` produces it from text in which every line is terminated. */
  predicate TerminatedLine(l: string) {
    |l| >= 1 && l[|l| - 1] == '\n' && '\n' !in l[..|l| - 1]
  }

  /** Splitting a concatenation of terminated lines into lines gives back those lines. */
  lemma {:induction false} LinesOfConcat(ls: seq<string>)
    requires forall k :: 0 <= k < |ls| ==> TerminatedLine(ls[k])
    ensures Lines(Concat(ls)) == ls
  {
    if ls != [] {
      LinesOfConcat(ls[1..]);
      LinesOfTerminated(ls[0], Concat(ls[1..]));
      assert ls == [ls[0]] + ls[1..];
    }
  }

  lemma {:induction false} LinesOfTerminated(l: string, t: string)
    requires TerminatedLine(l)
    ensures Lines(l + t) == [l] + Lines(t)
    decreases |l|
  {
    var s := l + t;
    assert |l| > 1 ==> l[..|l| - 1][0] == l[0];
    if l[0] == '\n' {
      assert l == "\n" && s[1..] == t;
    } else {
      var l' := l[1..];
      assert l'[..|l'| - 1] == l[..|l| - 1][1..];
      LinesOfTerminated(l', t);
      assert s[1..] == l' + t;
      assert [l[0]] + l' == l;
    }
  }

  /**
   * Universal-newline translation, as Python's text mode applies on reading:
   * "\r\n" and a lone "\r" both become "\n".
   */
  function Normalize(s: string): (r: string)
    ensures '\r' !in r
    ensures |r| <= |s|
    ensures '\r' !in s ==> r == s
  {
    if s == [] then []
    else if s[0] == '\r' then
      if |s| > 1 && s[1] == '\n' then "\n" + Normalize(s[2..]) else "\n" + Normalize(s[1..])
    else
      assert s == [s[0]] + s[1..];
      [s[0]] + Normalize(s[1..])
  }

  /** One step of the translation for a text that starts with a character other than '\r'. */
  lemma NormalizeCons(x: char, t: string)
    requires x != '\r'
    ensures Normalize([x] + t) == [x] + Normalize(t)
  {
    assert ([x] + t)[1..] == t;
  }

  /** One step of the translation for a text that starts with '\r'. */
  lemma NormalizeCr(t: string)
    ensures t != [] && t[0] == '\n' ==> Normalize("\r" + t) == "\n" + Normalize(t[1..])
    ensures t == [] || t[0] != '\n' ==> Normalize("\r" + t) == "\n" + Normalize(t)
  {
    assert ("\r" + t)[1..] == t;
    assert t != [] ==> ("\r" + t)[2..] == t[1..];
  }

  /** Text without a carriage return passes through the translation unchanged, whatever follows it. */
  lemma {:induction false} NormalizeKeeps(a: string, t: string)
    requires '\r' !in a
    ensures Normalize(a + t) == a + Normalize(t)
  {
    if a != [] {
      var x, a', u := a[0], a[1..], a[1..] + t;
      assert a == [x] + a';
      assert '\r' !in a';
      NormalizeKeeps(a', t);
      assert a + t == [x] + u;
      NormalizeCons(x, u);
      assert [x] + (a' + Normalize(t)) == a + Normalize(t);
    } else {
      assert a + t == t;
    }
  }

  /** The translation of "\r\n": up to the first carriage return the text is kept, and the pair becomes "\n". */
  lemma NormalizeCrLf(a: string, b: string)
    requires '\r' !in a
    ensures Normalize(a + "\r\n" + b) == a + "\n" + Normalize(b)
  {
    var nb := "\n" + b;
    assert a + "\r\n" + b == a + ("\r" + nb);
    NormalizeKeeps(a, "\r" + nb);
    NormalizeCr(nb);
    assert nb[1..] == b;
    assert a + ("\n" + Normalize(b)) == a + "\n" + Normalize(b);
  }

  /** The translation of a lone "\r", one not followed by '\n': it becomes "\n". */
  lemma NormalizeLoneCr(a: string, b: string)
    requires '\r' !in a
    requires b == [] || b[0] != '\n'
    ensures Normalize(a + "\r" + b) == a + "\n" + Normalize(b)
  {
    assert a + "\r" + b == a + ("\r" + b);
    NormalizeKeeps(a, "\r" + b);
    NormalizeCr(b);
    assert a + ("\n" + Normalize(b)) == a + "\n" + Normalize(b);
  }

  /** Python's `a <= b` on strings: lexicographic order of the code points. */
  predicate LexLe(a: string, b: string) {
    a == [] || (b != [] && (a[0] < b[0] || (a[0] == b[0] && LexLe(a[1..], b[1..]))))
  }

  lemma {:induction false} LexReflexive(a: string)
    ensures LexLe(a, a)
  {
    if a != [] { LexReflexive(a[1..]); }
  }

  lemma {:induction false} LexTotal(a: string, b: string)
    ensures LexLe(a, b) || LexLe(b, a)
  {
    if a != [] && b != [] && a[0] == b[0] { LexTotal(a[1..], b[1..]); }
  }

  lemma {:induction false} LexAntisymmetric(a: string, b: string)
    requires LexLe(a, b) && LexLe(b, a)
    ensures a == b
  {
    if a != [] && b != [] {
      LexAntisymmetric(a[1..], b[1..]);
      assert a == [a[0]] + a[1..] && b == [b[0]] + b[1..];
    }
  }

  lemma {:induction false} LexTransitive(a: string, b: string, c: string)
    requires LexLe(a, b) && LexLe(b, c)
    ensures LexLe(a, c)
  {
    if a != [] && b != [] && c != [] && a[0] == b[0] && b[0] == c[0] {
      LexTransitive(a[1..], b[1..], c[1..]);
    }
  }
}
