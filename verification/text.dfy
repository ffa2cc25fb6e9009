/**
 * The string operations both scripts are built from: `str.split` on a one-character
 * separator, `sep.join`, `startswith` (Dafny's prefix test `p <= s`) and the
 * substring test `t in s`.
 */
module Text {

  /** `s.split(sep)`: the pieces between separators, in order. Like Python, an empty
      string splits into one empty piece and two adjacent separators give an empty piece. */
  function Split(s: string, sep: char): (r: seq<string>)
    ensures |r| >= 1
    ensures forall i :: 0 <= i < |r| ==> sep !in r[i]
    decreases |s|
  {
    if |s| == 0 then [""]
    else
      var rest := Split(s[1..], sep);
      if s[0] == sep then [""] + rest
      else [[s[0]] + rest[0]] + rest[1..]
  }

  /** `sep.join(parts)` for a non-empty list of parts. */
  function Join(parts: seq<string>, sep: char): string
    requires |parts| >= 1
  {
    if |parts| == 1 then parts[0] else parts[0] + [sep] + Join(parts[1..], sep)
  }

  /** Python's `t in s` on strings: `t` occurs at some position of `s`. */
  predicate Contains(s: string, t: string)
  {
    exists i | 0 <= i <= |s| - |t| :: OccursAt(s, t, i)
  }

  predicate OccursAt(s: string, t: string, i: int)
  {
    0 <= i && i + |t| <= |s| && s[i..i + |t|] == t
  }

  lemma JoinConsHead(c: char, r: seq<string>, sep: char)
    requires |r| >= 1
    ensures Join([[c] + r[0]] + r[1..], sep) == [c] + Join(r, sep)
  {
    var r' := [[c] + r[0]] + r[1..];
    assert r'[1..] == r[1..];
  }

  /** Joining the pieces of a split gives back the original string. */
  lemma {:induction false} JoinSplit(s: string, sep: char)
    ensures Join(Split(s, sep), sep) == s
    decreases |s|
  {
    if |s| > 0 {
      var rest := Split(s[1..], sep);
      JoinSplit(s[1..], sep);
      if s[0] == sep {
        assert ([""] + rest)[1..] == rest;
        assert [s[0]] + s[1..] == s;
      } else {
        JoinConsHead(s[0], rest, sep);
        assert [s[0]] + s[1..] == s;
      }
    }
  }

  /** A separator-free prefix is glued onto the first piece of what follows it. */
  lemma {:induction false} SplitPrefix(p: string, t: string, sep: char)
    requires sep !in p
    ensures Split(p + t, sep) == [p + Split(t, sep)[0]] + Split(t, sep)[1..]
    decreases |p|
  {
    if |p| == 0 {
      var r := Split(t, sep);
      assert p + t == t;
      assert p + r[0] == r[0];
      assert [r[0]] + r[1..] == r;
    } else {
      assert (p + t)[0] == p[0];
      assert (p + t)[1..] == p[1..] + t;
      SplitPrefix(p[1..], t, sep);
      assert [p[0]] + (p[1..] + Split(t, sep)[0]) == p + Split(t, sep)[0];
    }
  }

  /** A string without the separator splits into itself alone. */
  lemma SplitNoSeparator(p: string, sep: char)
    requires sep !in p
    ensures Split(p, sep) == [p]
  {
    SplitPrefix(p, "", sep);
    assert p + "" == p;
  }

  /** A separator-free piece followed by the separator splits off as one whole piece. */
  lemma SplitPieceThenSep(p: string, t: string, sep: char)
    requires sep !in p
    ensures Split(p + [sep] + t, sep) == [p] + Split(t, sep)
  {
    assert p + [sep] + t == p + ([sep] + t);
    SplitPrefix(p, [sep] + t, sep);
    assert ([sep] + t)[1..] == t;
    var r := Split(t, sep);
    assert Split([sep] + t, sep) == [""] + r;
    assert ([""] + r)[0] == "" && ([""] + r)[1..] == r;
    assert p + "" == p;
  }

  /** Splitting a join recovers exactly the parts, in order, when no part holds the separator. */
  lemma {:induction false} SplitJoin(parts: seq<string>, sep: char)
    requires |parts| >= 1
    requires forall i :: 0 <= i < |parts| ==> sep !in parts[i]
    ensures Split(Join(parts, sep), sep) == parts
  {
    if |parts| == 1 {
      SplitNoSeparator(parts[0], sep);
    } else {
      SplitJoin(parts[1..], sep);
      SplitPieceThenSep(parts[0], Join(parts[1..], sep), sep);
      assert [parts[0]] + parts[1..] == parts;
    }
  }

  /** Appending one part to a join appends the separator and that part. */
  lemma {:induction false} JoinSnoc(parts: seq<string>, x: string, sep: char)
    requires |parts| >= 1
    ensures Join(parts + [x], sep) == Join(parts, sep) + [sep] + x
    decreases |parts|
  {
    if |parts| == 1 {
      assert (parts + [x])[1..] == [x];
    } else {
      assert (parts + [x])[1..] == parts[1..] + [x];
      JoinSnoc(parts[1..], x, sep);
    }
  }

  /** A prefix that holds no separator is kept at the head of the first piece. */
  lemma FirstPieceKeepsPrefix(s: string, p: string, sep: char)
    requires p <= s
    requires sep !in p
    ensures p <= Split(s, sep)[0]
  {
    assert s == p + s[|p|..];
    SplitPrefix(p, s[|p|..], sep);
  }

  /** An occurrence inside the right operand of a concatenation is an occurrence in the whole, shifted. */
  lemma OccursShift(a: string, b: string, t: string, q: int)
    requires q >= 0
    ensures OccursAt(b, t, q) <==> OccursAt(a + b, t, |a| + q)
  {
    if q + |t| <= |b| {
      assert (a + b)[|a| + q..|a| + q + |t|] == b[q..q + |t|];
    }
  }

  /** A separator-free head cannot hold an occurrence of anything starting with the separator. */
  lemma NoDelimitedInHead(parts: seq<string>, k: string, sep: char, q: int)
    requires |parts| >= 1 && sep !in parts[0]
    requires 0 <= q < |parts[0]|
    ensures !OccursAt(Join(parts, sep), [sep] + k + [sep], q)
  {
    var j := Join(parts, sep);
    assert j[q] == parts[0][q];
  }

  /** What `Join` puts first: the whole first part, then a separator when more parts follow. */
  lemma JoinHead(parts: seq<string>, sep: char)
    requires |parts| >= 1
    ensures |Join(parts, sep)| >= |parts[0]|
    ensures Join(parts, sep)[..|parts[0]|] == parts[0]
    ensures |parts| == 1 ==> Join(parts, sep) == parts[0]
    ensures |parts| > 1 ==> |Join(parts, sep)| > |parts[0]| && Join(parts, sep)[|parts[0]|] == sep
  {
  }

  /** An occurrence that starts at the first separator exposes the second part as the token. */
  lemma DelimitedAtFirstSep(parts: seq<string>, k: string, sep: char)
    requires |parts| >= 2
    requires forall i :: 0 <= i < |parts| ==> sep !in parts[i]
    requires sep !in k
    requires OccursAt(Join(parts, sep), [sep] + k + [sep], |parts[0]|)
    ensures |parts| > 2 && parts[1] == k
  {
    var t := [sep] + k + [sep];
    var j := Join(parts, sep);
    var q := |parts[0]|;
    var rest := parts[1..];
    var j' := Join(rest, sep);
    var m := |rest[0]|;
    assert j == parts[0] + [sep] + j';
    assert j'[..|k| + 1] == k + [sep] by {
      assert j[q + 1..q + |t|] == t[1..];
      assert j[q + 1..q + |t|] == j'[..|k| + 1];
    }
    JoinHead(rest, sep);
    assert forall i :: 0 <= i < m ==> j'[i] != sep by {
      forall i | 0 <= i < m ensures j'[i] != sep {
        assert j'[i] == rest[0][i];
      }
    }
    assert forall i :: 0 <= i < |k| ==> j'[i] != sep by {
      forall i | 0 <= i < |k| ensures j'[i] != sep {
        assert j'[i] == k[i];
      }
    }
    assert j'[|k|] == sep;
    assert m == |k|;
    assert |rest| > 1;
    assert k == j'[..|k|] == rest[0];
  }

  /** An interior part equal to `k` gives an occurrence of the delimited token. */
  lemma {:induction false} InteriorGivesDelimited(parts: seq<string>, k: string, sep: char, i: int)
    requires 0 < i < |parts| - 1 && parts[i] == k
    ensures Contains(Join(parts, sep), [sep] + k + [sep])
    decreases i
  {
    var t := [sep] + k + [sep];
    var rest := parts[1..];
    var j' := Join(rest, sep);
    var head := parts[0] + [sep];
    assert Join(parts, sep) == head + j';
    if i == 1 {
      var j'' := Join(rest[1..], sep);
      assert j' == parts[1] + [sep] + j'';
      assert Join(parts, sep) == parts[0] + t + j'';
      assert Join(parts, sep)[|parts[0]|..|parts[0]| + |t|] == t;
      assert OccursAt(Join(parts, sep), t, |parts[0]|);
    } else {
      InteriorGivesDelimited(rest, k, sep, i - 1);
      var q :| 0 <= q <= |j'| - |t| && OccursAt(j', t, q);
      OccursShift(head, j', t, q);
      assert OccursAt(Join(parts, sep), t, |head| + q);
    }
  }

  /** An occurrence of the delimited token lies on an interior part equal to `k`. */
  lemma {:induction false} DelimitedGivesInterior(parts: seq<string>, k: string, sep: char, q: int)
    requires |parts| >= 1
    requires forall i :: 0 <= i < |parts| ==> sep !in parts[i]
    requires sep !in k
    requires OccursAt(Join(parts, sep), [sep] + k + [sep], q)
    ensures exists i :: 0 < i < |parts| - 1 && parts[i] == k
    decreases |parts|
  {
    var t := [sep] + k + [sep];
    if q < |parts[0]| {
      NoDelimitedInHead(parts, k, sep, q);
    } else if |parts| == 1 {
      assert false;
    } else if q == |parts[0]| {
      DelimitedAtFirstSep(parts, k, sep);
      assert 0 < 1 < |parts| - 1 && parts[1] == k;
    } else {
      var rest := parts[1..];
      var head := parts[0] + [sep];
      assert Join(parts, sep) == head + Join(rest, sep);
      OccursShift(head, Join(rest, sep), t, q - |head|);
      DelimitedGivesInterior(rest, k, sep, q - |head|);
      var i' :| 0 < i' < |rest| - 1 && rest[i'] == k;
      assert parts[i' + 1] == k;
    }
  }

  /**
   * `[sep] + k + [sep]` occurs in `Join(parts, sep)` exactly when `k` is one of the
   * interior parts (neither the first nor the last), provided `k` and the parts hold
   * no separator: the delimiters make the test match whole fields only.
   */
  lemma DelimitedInJoin(parts: seq<string>, k: string, sep: char)
    requires |parts| >= 1
    requires forall i :: 0 <= i < |parts| ==> sep !in parts[i]
    requires sep !in k
    ensures Contains(Join(parts, sep), [sep] + k + [sep]) <==> exists i :: 0 < i < |parts| - 1 && parts[i] == k
  {
    var t := [sep] + k + [sep];
    if exists i :: 0 < i < |parts| - 1 && parts[i] == k {
      var i :| 0 < i < |parts| - 1 && parts[i] == k;
      InteriorGivesDelimited(parts, k, sep, i);
    }
    if Contains(Join(parts, sep), t) {
      var q :| 0 <= q <= |Join(parts, sep)| - |t| && OccursAt(Join(parts, sep), t, q);
      DelimitedGivesInterior(parts, k, sep, q);
    }
  }

  /** The same for any string, through its pieces: a delimited token matches a whole interior field. */
  lemma DelimitedToken(s: string, k: string, sep: char)
    requires sep !in k
    ensures Contains(s, [sep] + k + [sep]) <==> exists i :: 0 < i < |Split(s, sep)| - 1 && Split(s, sep)[i] == k
  {
    JoinSplit(s, sep);
    DelimitedInJoin(Split(s, sep), k, sep);
  }
}
