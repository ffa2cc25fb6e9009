/**
 * Score mode, reference side: the FORMAT-name-to-position map, the running maximum
 * of a SpliceAI row's four delta scores, and the index of retained reference rows
 * keyed "chr"+CHROM-POS-REF-ALT, built from the SNV file and then the indel file.
 *
 * Scores are compared as reals; `toReal` stands for Python's `float()` on a score field.
 */
module SpliceAIIndex {
  import opened Text
  import opened Vcf

  // ---------------------------------------------------------------------------
  // get_format

  /** `dict(zip(names, range(len(names))))`: each name to its position, a repeated name to its last one. */
  function FormatMap(names: seq<string>): (m: map<string, nat>)
    ensures forall n :: n in m <==> n in names
    ensures forall n :: n in m ==> m[n] < |names| && names[m[n]] == n
    ensures forall n :: n in m ==> forall j :: m[n] < j < |names| ==> names[j] != n
  {
    if |names| == 0 then map[]
    else FormatMap(names[..|names| - 1])[names[|names| - 1] := |names| - 1]
  }

  /** `get_format`: the map for a colon-separated FORMAT column. */
  function GetFormat(format: string): map<string, nat>
  {
    FormatMap(Split(format, ':'))
  }

  /** Distinct names map to their own positions: the map inverts the list. */
  lemma FormatMapDistinct(names: seq<string>, i: int)
    requires 0 <= i < |names|
    requires forall j :: 0 <= j < |names| && j != i ==> names[j] != names[i]
    ensures names[i] in FormatMap(names) && FormatMap(names)[names[i]] == i
  {
  }

  // ---------------------------------------------------------------------------
  // The maximum delta score

  /** Retained rows have a maximum score of at least this. */
  const Threshold: real := 0.2

  /** `info[2:6]`: the delta-score sub-fields, fewer when the INFO column is short. */
  function ScoreFields(info: seq<string>): seq<string>
    requires |info| >= 2
  {
    info[2..if |info| < 6 then |info| else 6]
  }

  /** The value the running maximum reaches, comparing each score in turn against 0.00 and the best so far. */
  function MaxScore(scores: seq<string>, toReal: string -> real): real
  {
    if |scores| == 0 then 0.0
    else
      var best := MaxScore(scores[..|scores| - 1], toReal);
      var x := toReal(scores[|scores| - 1]);
      if x > best then x else best
  }

  /** The maximum is never below 0 or any score, and it is 0 or one of the scores. */
  lemma {:induction false} MaxScoreIsMaximum(scores: seq<string>, toReal: string -> real)
    ensures MaxScore(scores, toReal) >= 0.0
    ensures forall i :: 0 <= i < |scores| ==> MaxScore(scores, toReal) >= toReal(scores[i])
    ensures MaxScore(scores, toReal) == 0.0 || exists i :: 0 <= i < |scores| && MaxScore(scores, toReal) == toReal(scores[i])
  {
    if |scores| > 0 {
      var init := scores[..|scores| - 1];
      MaxScoreIsMaximum(init, toReal);
      assert forall i :: 0 <= i < |init| ==> scores[i] == init[i];
    }
  }

  /** The loop over the score sub-fields with its running `max`, started at 0.00. */
  method RunningMax(scores: seq<string>, toReal: string -> real) returns (max: real)
    ensures max == MaxScore(scores, toReal)
    ensures max >= 0.0 && forall i :: 0 <= i < |scores| ==> max >= toReal(scores[i])
    ensures max == 0.0 || exists i :: 0 <= i < |scores| && max == toReal(scores[i])
  {
    max := 0.0;
    for n := 0 to |scores|
      invariant max == MaxScore(scores[..n], toReal)
    {
      assert scores[..n + 1][..n] == scores[..n];
      if toReal(scores[n]) > max {
        max := toReal(scores[n]);
      }
    }
    assert scores[..|scores|] == scores;
    MaxScoreIsMaximum(scores, toReal);
  }

  // ---------------------------------------------------------------------------
  // The reference index

  /** The rows the script reads without an IndexError: headers, or INFO (column 7) with a gene sub-field. */
  predicate SafeRow(line: string)
  {
    IsVcfHeader(line) || (|Columns(line)| >= 8 && |Split(Columns(line)[7], '|')| >= 2)
  }

  predicate SafeRows(rows: seq<string>)
  {
    forall i :: 0 <= i < |rows| ==> SafeRow(rows[i])
  }

  /** The `|`-separated sub-fields of INFO: 1 is the gene, 2 to 5 the delta scores. */
  function Info(line: string): seq<string>
    requires SafeRow(line) && !IsVcfHeader(line)
  {
    Split(Columns(line)[7], '|')
  }

  /** A data row whose gene is in the panel and whose maximum score reaches 0.2. */
  predicate Retained(line: string, genes: set<string>, toReal: string -> real)
    requires SafeRow(line)
  {
    && !IsVcfHeader(line)
    && Info(line)[1] in genes
    && MaxScore(ScoreFields(Info(line)), toReal) >= Threshold
  }

  /** "chr" + CHROM + "-" + POS + "-" + REF + "-" + ALT. */
  function IndexKey(line: string): string
    requires SafeRow(line) && !IsVcfHeader(line)
  {
    var cols := Columns(line);
    Join(["chr" + cols[0], cols[1], cols[3], cols[4]], '-')
  }

  /** The index after reading `rows` in order: each retained row stored under its key, later rows overwriting. */
  function IndexOf(rows: seq<string>, genes: set<string>, toReal: string -> real): map<string, string>
    requires SafeRows(rows)
  {
    if |rows| == 0 then map[]
    else
      var index := IndexOf(rows[..|rows| - 1], genes, toReal);
      var last := rows[|rows| - 1];
      if Retained(last, genes, toReal) then index[IndexKey(last) := last] else index
  }

  /** Row `i` is retained under key `k` and no later row is retained under `k`. */
  predicate LastRetainedAt(rows: seq<string>, genes: set<string>, toReal: string -> real, i: int, k: string)
    requires SafeRows(rows)
  {
    && 0 <= i < |rows|
    && Retained(rows[i], genes, toReal)
    && IndexKey(rows[i]) == k
    && forall j :: i < j < |rows| && Retained(rows[j], genes, toReal) ==> IndexKey(rows[j]) != k
  }

  /**
   * A key is indexed iff some row is retained under it, and the row stored there is
   * the last such row: a later row with the same key overwrites an earlier one.
   */
  lemma {:induction false} IndexHoldsLastRetained(rows: seq<string>, genes: set<string>, toReal: string -> real, k: string)
    requires SafeRows(rows)
    ensures k in IndexOf(rows, genes, toReal) <==>
              exists i :: 0 <= i < |rows| && Retained(rows[i], genes, toReal) && IndexKey(rows[i]) == k
    ensures k in IndexOf(rows, genes, toReal) ==>
              exists i :: LastRetainedAt(rows, genes, toReal, i, k) && IndexOf(rows, genes, toReal)[k] == rows[i]
  {
    if |rows| > 0 {
      var init := rows[..|rows| - 1];
      var last := |rows| - 1;
      IndexHoldsLastRetained(init, genes, toReal, k);
      assert forall i :: 0 <= i < |init| ==> init[i] == rows[i];
      if Retained(rows[last], genes, toReal) && IndexKey(rows[last]) == k {
        assert LastRetainedAt(rows, genes, toReal, last, k);
      } else if k in IndexOf(init, genes, toReal) {
        var i :| LastRetainedAt(init, genes, toReal, i, k) && IndexOf(init, genes, toReal)[k] == init[i];
        assert LastRetainedAt(rows, genes, toReal, i, k);
      }
    }
  }

  /** Reading a second file after a first: the second file's entries win, the first's other keys stay. */
  lemma {:induction false} IndexAppend(a: seq<string>, b: seq<string>, genes: set<string>, toReal: string -> real)
    requires SafeRows(a) && SafeRows(b)
    ensures SafeRows(a + b)
    ensures IndexOf(a + b, genes, toReal) == IndexOf(a, genes, toReal) + IndexOf(b, genes, toReal)
    decreases |b|
  {
    assert forall i :: 0 <= i < |a + b| ==> (a + b)[i] == if i < |a| then a[i] else b[i - |a|];
    if |b| == 0 {
      assert a + b == a;
    } else {
      var b' := b[..|b| - 1];
      assert (a + b)[..|a + b| - 1] == a + b';
      IndexAppend(a, b', genes, toReal);
    }
  }

  /** Every key of the index starts with "chr". */
  lemma {:induction false} IndexKeysPrefixed(rows: seq<string>, genes: set<string>, toReal: string -> real)
    requires SafeRows(rows)
    ensures forall k :: k in IndexOf(rows, genes, toReal) ==> "chr" <= k
  {
    if |rows| > 0 {
      IndexKeysPrefixed(rows[..|rows| - 1], genes, toReal);
      var last := rows[|rows| - 1];
      if Retained(last, genes, toReal) {
        var cols := Columns(last);
        JoinHead(["chr" + cols[0], cols[1], cols[3], cols[4]], '-');
      }
    }
  }

  /**
   * The loop over one SpliceAI file: headers and rows outside the panel are skipped,
   * the maximum score is computed, and a row reaching 0.2 is stored under its key.
   */
  method IndexFile(index: map<string, string>, rows: seq<string>, genes: set<string>, toReal: string -> real)
    returns (index': map<string, string>)
    requires SafeRows(rows)
    ensures index' == index + IndexOf(rows, genes, toReal)
  {
    index' := index;
    for n := 0 to |rows|
      invariant index' == index + IndexOf(rows[..n], genes, toReal)
    {
      assert rows[..n + 1][..n] == rows[..n];
      var line := rows[n];
      var words := Split(line, '\t');
      if "#" <= line { continue; }
      var info := Split(words[7], '|');
      var gene := info[1];
      if gene !in genes { continue; }
      var max := RunningMax(ScoreFields(info), toReal);
      if max >= Threshold {
        var variant := Join(["chr" + words[0], words[1], words[3], words[4]], '-');
        index' := index'[variant := line];
      }
    }
    assert rows[..|rows|] == rows;
  }

  /** The SNV file, then the indel file, into one index. */
  method BuildIndex(snvs: seq<string>, indels: seq<string>, genes: set<string>, toReal: string -> real)
    returns (index: map<string, string>)
    requires SafeRows(snvs) && SafeRows(indels)
    ensures SafeRows(snvs + indels)
    ensures index == IndexOf(snvs + indels, genes, toReal)
  {
    index := IndexFile(map[], snvs, genes, toReal);
    index := IndexFile(index, indels, genes, toReal);
    IndexAppend(snvs, indels, genes, toReal);
    assert map[] + IndexOf(snvs, genes, toReal) == IndexOf(snvs, genes, toReal);
  }
}
