/**
 * Byte-array text helpers used by the CSV reader: splitting a line on a
 * separator, trimming white space and substring search, with and without
 * case folding.
 */
module Text {

  /** White space as QByteArray::trimmed understands it. */
  predicate IsSpace(c: char) {
    c == ' ' || c == '\t' || c == '\n' || c == '\U{000B}' || c == '\U{000C}' || c == '\r'
  }

  /** Number of occurrences of `c` in `s`. */
  function Count(s: string, c: char): (n: nat)
    ensures n <= |s|
    ensures n == 0 <==> c !in s
  {
    if s == [] then 0 else Count(s[1..], c) + (if s[0] == c then 1 else 0)
  }

  /** The fields of `s` between occurrences of `sep` (QByteArray::split). */
  function Split(s: string, sep: char): (fields: seq<string>)
    ensures |fields| > 0
  {
    if s == [] then [[]]
    else
      var rest := Split(s[1..], sep);
      if s[0] == sep then [[]] + rest
      else [[s[0]] + rest[0]] + rest[1..]
  }

  /** There is one field more than there are separators, and no field holds one. */
  lemma {:induction false} SplitShape(s: string, sep: char)
    ensures |Split(s, sep)| == Count(s, sep) + 1
    ensures forall i :: 0 <= i < |Split(s, sep)| ==> sep !in Split(s, sep)[i]
  {
    if s != [] {
      SplitShape(s[1..], sep);
      var rest := Split(s[1..], sep);
      if s[0] != sep {
        var fields := Split(s, sep);
        assert fields[0] == [s[0]] + rest[0];
        assert forall i :: 1 <= i < |fields| ==> fields[i] == rest[i];
      }
    }
  }

  /** The fields of `fields` written one after another with `sep` between them. */
  function Join(fields: seq<string>, sep: char): string
    requires |fields| > 0
  {
    if |fields| == 1 then fields[0] else fields[0] + [sep] + Join(fields[1..], sep)
  }

  /** Splitting loses nothing: joining the fields gives the line back. */
  lemma {:induction false} JoinSplit(s: string, sep: char)
    ensures Join(Split(s, sep), sep) == s
  {
    if s != [] {
      JoinSplit(s[1..], sep);
      var rest := Split(s[1..], sep);
      if s[0] == sep {
        assert Split(s, sep)[1..] == rest;
      } else {
        var fields := Split(s, sep);
        if |rest| == 1 {
          assert fields == [[s[0]] + rest[0]];
        } else {
          assert fields[1..] == rest[1..];
          assert Join(rest, sep) == rest[0] + [sep] + Join(rest[1..], sep);
        }
      }
    }
  }

  /** Splitting a joined line gives back fields that did not contain the separator. */
  lemma {:induction false} SplitJoin(fields: seq<string>, sep: char)
    requires |fields| > 0
    requires forall i :: 0 <= i < |fields| ==> sep !in fields[i]
    ensures Split(Join(fields, sep), sep) == fields
  {
    if |fields| == 1 {
      SplitField(fields[0], sep);
    } else {
      SplitJoin(fields[1..], sep);
      SplitPrefixed(fields[0], Join(fields[1..], sep), sep);
      assert [fields[0]] + fields[1..] == fields;
    }
  }

  /** A text without the separator is a single field. */
  lemma {:induction false} SplitField(f: string, sep: char)
    requires sep !in f
    ensures Split(f, sep) == [f]
  {
    if f != [] {
      SplitField(f[1..], sep);
      var rest := Split(f[1..], sep);
      assert rest == [f[1..]];
      assert Split(f, sep) == [[f[0]] + f[1..]] + rest[1..];
      assert [f[0]] + f[1..] == f;
    }
  }

  /** A field without the separator, then the separator, then the rest. */
  lemma {:induction false} SplitPrefixed(f: string, rest: string, sep: char)
    requires sep !in f
    ensures Split(f + [sep] + rest, sep) == [f] + Split(rest, sep)
  {
    if f == [] {
      assert f + [sep] + rest == [sep] + rest;
    } else {
      SplitPrefixed(f[1..], rest, sep);
      assert f + [sep] + rest == [f[0]] + (f[1..] + [sep] + rest);
      SplitCons(f[0], f[1..] + [sep] + rest, sep);
      assert [f[0]] + f[1..] == f;
    }
  }

  /** A first character other than the separator joins the first field. */
  lemma SplitCons(c: char, s: string, sep: char)
    requires c != sep
    ensures Split([c] + s, sep) == [[c] + Split(s, sep)[0]] + Split(s, sep)[1..]
  {
    assert ([c] + s)[1..] == s;
  }

  /** `s` without its leading white space. */
  function TrimStart(s: string): string {
    if s != [] && IsSpace(s[0]) then TrimStart(s[1..]) else s
  }

  /** TrimStart drops a run of white space from the front and stops at anything else. */
  lemma {:induction false} TrimStartShape(s: string)
    ensures var r := TrimStart(s);
      && |r| <= |s| && r == s[|s| - |r|..]
      && (r == [] || !IsSpace(r[0]))
      && forall i :: 0 <= i < |s| - |r| ==> IsSpace(s[i])
  {
    if s != [] && IsSpace(s[0]) {
      var t := s[1..];
      TrimStartShape(t);
      var r := TrimStart(t);
      assert TrimStart(s) == r;
      assert t[|t| - |r|..] == s[|s| - |r|..];
      forall i | 0 <= i < |s| - |r|
        ensures IsSpace(s[i])
      {
        if i > 0 {
          assert s[i] == t[i - 1];
        }
      }
    }
  }

  /** `s` without its trailing white space. */
  function TrimEnd(s: string): string {
    if s != [] && IsSpace(s[|s| - 1]) then TrimEnd(s[..|s| - 1]) else s
  }

  /** TrimEnd drops a run of white space from the back and stops at anything else. */
  lemma {:induction false} TrimEndShape(s: string)
    ensures var r := TrimEnd(s);
      && |r| <= |s| && r == s[..|r|]
      && (r == [] || !IsSpace(r[|r| - 1]))
      && forall i :: |r| <= i < |s| ==> IsSpace(s[i])
  {
    if s != [] && IsSpace(s[|s| - 1]) {
      var t := s[..|s| - 1];
      TrimEndShape(t);
      var r := TrimEnd(t);
      assert TrimEnd(s) == r;
      assert t[..|r|] == s[..|r|];
      forall i | |r| <= i < |s|
        ensures IsSpace(s[i])
      {
        if i < |t| {
          assert s[i] == t[i];
        }
      }
    }
  }

  /** `s` without white space at either end (QByteArray::trimmed). */
  function Trim(s: string): (r: string)
    ensures |r| <= |s|
    ensures r == [] || (!IsSpace(r[0]) && !IsSpace(r[|r| - 1]))
  {
    TrimStartShape(s);
    TrimEndShape(TrimStart(s));
    TrimEnd(TrimStart(s))
  }

  /**
   * Trimming keeps a piece of `s` and drops only white space before and
   * after it.
   */
  lemma TrimSlice(s: string) returns (i: nat)
    ensures OccursAt(s, Trim(s), i)
    ensures forall j :: 0 <= j < i ==> IsSpace(s[j])
    ensures forall j :: i + |Trim(s)| <= j < |s| ==> IsSpace(s[j])
  {
    var t := TrimStart(s);
    var r := TrimEnd(t);
    TrimStartShape(s);
    TrimEndShape(t);
    i := |s| - |t|;
    assert r == t[..|r|];
    assert t[..|r|] == s[i..i + |r|];
    assert forall j :: i + |r| <= j < |s| ==> s[j] == t[j - i];
  }

  /** Trimming a text with no white space at its ends changes nothing. */
  lemma TrimTrimmed(s: string)
    requires s == [] || (!IsSpace(s[0]) && !IsSpace(s[|s| - 1]))
    ensures Trim(s) == s
  {
  }

  /** `k` occurs in `s` starting at position `i`. */
  predicate OccursAt(s: string, k: string, i: int) {
    0 <= i <= |s| - |k| && s[i..i + |k|] == k
  }

  /** `k` occurs in `s` as a contiguous piece: at its start or further on. */
  predicate Contains(s: string, k: string)
    decreases |s|
  {
    |k| <= |s| && (s[..|k|] == k || Contains(s[1..], k))
  }

  /** A piece found at some position is contained. */
  lemma {:induction false} OccursContains(s: string, k: string, i: int)
    requires OccursAt(s, k, i)
    ensures Contains(s, k)
    decreases i
  {
    if i > 0 {
      assert s[1..][i - 1..i - 1 + |k|] == s[i..i + |k|];
      OccursContains(s[1..], k, i - 1);
    }
  }

  /** A contained piece occurs at some position. */
  lemma {:induction false} ContainsOccurs(s: string, k: string) returns (i: int)
    requires Contains(s, k)
    ensures OccursAt(s, k, i)
    decreases |s|
  {
    if s[..|k|] == k {
      i := 0;
    } else {
      var j := ContainsOccurs(s[1..], k);
      assert s[1..][j..j + |k|] == s[j + 1..j + 1 + |k|];
      i := j + 1;
    }
  }

  /**
   * Simple case folding of one character: ASCII and Latin-1 capital letters
   * become small letters, everything else is kept.
   */
  function FoldCase(c: char): char {
    if 'A' <= c <= 'Z' || ('À' <= c <= 'Þ' && c != '×') then
      (c as int + 32) as char
    else c
  }

  /** Case folding of every character of `s`. */
  function Fold(s: string): (r: string)
    ensures |r| == |s|
  {
    if s == [] then [] else [FoldCase(s[0])] + Fold(s[1..])
  }

  /** No character of `s` changes under case folding. */
  predicate Unfolded(s: string) {
    s == [] || (FoldCase(s[0]) == s[0] && Unfolded(s[1..]))
  }

  /** A text no character of which changes under folding is its own fold. */
  lemma {:induction false} FoldUnfolded(s: string)
    requires Unfolded(s)
    ensures Fold(s) == s
  {
    if s != [] {
      FoldUnfolded(s[1..]);
      assert s == [s[0]] + s[1..];
    }
  }

  /** Fold folds each character in place. */
  lemma {:induction false} FoldPointwise(s: string)
    ensures forall i :: 0 <= i < |s| ==> Fold(s)[i] == FoldCase(s[i])
  {
    if s != [] {
      FoldPointwise(s[1..]);
    }
  }

  /** `k` occurs in `s` when both are case-folded (Qt::CaseInsensitive). */
  predicate ContainsIgnoringCase(s: string, k: string) {
    Contains(Fold(s), Fold(k))
  }
}
