/**
 * Score mode, sample side: each sample's VCF lines are looked up in the SpliceAI index
 * by CHROM-POS-REF-ALT, and a line that passes the FILTER, genotype and depth gates is
 * written with the participant id and the stored reference row. Depth is read through
 * the FORMAT map. Unlike consequence mode there is no de-duplication.
 */
module SpliceAI {
  import opened Text
  import opened Numbers
  import opened Optional
  import Panel
  import Samples
  import opened SpliceAIIndex
  import opened Vcf

  /** CHROM-POS-REF-ALT exactly as the VCF writes them: no "chr" is added on this side. */
  function LookupKey(cols: seq<string>): string
    requires |cols| >= 5
  {
    Join([cols[0], cols[1], cols[3], cols[4]], '-')
  }

  /** DP read at the position the FORMAT column (8) gives it in the genotype column (9), when it parses. */
  function FormatDepth(cols: seq<string>): Option<int>
    requires |cols| >= 10
  {
    var format := GetFormat(cols[8]);
    var values := Split(cols[9], ':');
    if "DP" in format && format["DP"] < |values| && IsDecimal(values[format["DP"]])
    then Some(IntValue(values[format["DP"]]))
    else None
  }

  /** A data line with FILTER "PASS", a non-"0/0" genotype and an indexed key: the lines whose DP is read. */
  predicate Reaches(line: string, index: map<string, string>)
  {
    var cols := Columns(line);
    && !IsVcfHeader(line)
    && |cols| >= 10
    && cols[6] == "PASS"
    && !("0/0" <= cols[9])
    && LookupKey(cols) in index
  }

  /**
   * The lines the loop reads without an IndexError, KeyError or failing `int()`:
   * FILTER exists, a PASS line has a genotype column, and a line that reaches the
   * depth test has a "DP" entry that exists and parses.
   */
  predicate SafeVcfLine(line: string, index: map<string, string>)
  {
    var cols := Columns(line);
    || IsVcfHeader(line)
    || (&& |cols| >= 7
        && (cols[6] == "PASS" ==> |cols| >= 10)
        && (Reaches(line, index) ==> FormatDepth(cols).Some?))
  }

  /** One output line: participant id, the VCF line and the reference row stored under its key. */
  datatype ScoreHit = ScoreHit(id: string, line: string, reference: string)
  {
    function Output(): string
    {
      id + "\t" + line + "\t" + reference + "\n"
    }
  }

  /** What one VCF line of sample `id` contributes. */
  function LineHit(id: string, line: string, index: map<string, string>): Option<ScoreHit>
    requires SafeVcfLine(line, index)
  {
    if Reaches(line, index) && FormatDepth(Columns(line)).value >= MinDepth
    then Some(ScoreHit(id, line, index[LookupKey(Columns(line))]))
    else None
  }

  /** The hits of one VCF, in line order. */
  function VcfHits(id: string, lines: seq<string>, index: map<string, string>): seq<ScoreHit>
    requires forall l :: l in lines ==> SafeVcfLine(l, index)
  {
    if |lines| == 0 then []
    else
      var last := lines[|lines| - 1];
      VcfHits(id, lines[..|lines| - 1], index) + (if LineHit(id, last, index).Some? then [LineHit(id, last, index).value] else [])
  }

  /**
   * The loop over one VCF: header, FILTER, "0/0" and index-miss lines are skipped,
   * DP is read through the FORMAT map, and a line with DP of at least 6 is written.
   */
  method ScanVcf(id: string, lines: seq<string>, index: map<string, string>) returns (hits: seq<ScoreHit>)
    requires forall l :: l in lines ==> SafeVcfLine(l, index)
    ensures hits == VcfHits(id, lines, index)
    ensures forall i :: 0 <= i < |hits| ==> hits[i].id == id && hits[i].line in lines
  {
    hits := [];
    for n := 0 to |lines|
      invariant hits == VcfHits(id, lines[..n], index)
      invariant forall i :: 0 <= i < |hits| ==> hits[i].id == id && hits[i].line in lines[..n]
    {
      assert lines[..n + 1][..n] == lines[..n];
      var line := lines[n];
      assert SafeVcfLine(line, index);
      var words := Split(line, '\t');
      if "#" <= line { continue; }
      if words[6] != "PASS" { continue; }
      if "0/0" <= words[9] { continue; }
      var variant := Join([words[0], words[1], words[3], words[4]], '-');
      if variant !in index { continue; }
      var format := GetFormat(words[8]);
      var getDP := Split(words[9], ':');
      var dp := getDP[format["DP"]];
      if IntValue(dp) < MinDepth { continue; }
      hits := hits + [ScoreHit(id, line, index[variant])];
    }
    assert lines[..|lines|] == lines;
  }

  /** A hit of a VCF is a line of it that passes every gate. */
  lemma {:induction false} VcfHitsMembership(id: string, lines: seq<string>, index: map<string, string>, h: ScoreHit)
    requires forall l :: l in lines ==> SafeVcfLine(l, index)
    ensures h in VcfHits(id, lines, index) <==> exists l :: l in lines && LineHit(id, l, index) == Some(h)
  {
    if |lines| > 0 {
      var init := lines[..|lines| - 1];
      VcfHitsMembership(id, init, index, h);
      assert lines == init + [lines[|lines| - 1]];
    }
  }

  // ---------------------------------------------------------------------------
  // Keys on the two sides

  /** A join of several parts starts with "chr" only when its first part does. */
  lemma ChrPrefixFromHead(parts: seq<string>, sep: char)
    requires |parts| >= 2 && sep !in "chr"
    ensures "chr" <= Join(parts, sep) ==> "chr" <= parts[0]
  {
    JoinHead(parts, sep);
  }

  /**
   * When no key field holds '-', a VCF line's lookup key equals a reference row's index key
   * iff the VCF CHROM is "chr" followed by the reference CHROM and POS, REF and ALT agree.
   */
  lemma KeysAgree(vcf: seq<string>, reference: seq<string>)
    requires |vcf| >= 5 && |reference| >= 5
    requires forall i :: i in {0, 1, 3, 4} ==> '-' !in vcf[i] && '-' !in reference[i]
    ensures Join([vcf[0], vcf[1], vcf[3], vcf[4]], '-') == Join(["chr" + reference[0], reference[1], reference[3], reference[4]], '-')
            <==> vcf[0] == "chr" + reference[0] && vcf[1] == reference[1] && vcf[3] == reference[3] && vcf[4] == reference[4]
  {
    var v := [vcf[0], vcf[1], vcf[3], vcf[4]];
    var r := ["chr" + reference[0], reference[1], reference[3], reference[4]];
    assert '-' !in vcf[0] && '-' !in vcf[1] && '-' !in vcf[3] && '-' !in vcf[4];
    assert '-' !in reference[0] && '-' !in reference[1] && '-' !in reference[3] && '-' !in reference[4];
    assert forall c :: c in "chr" + reference[0] ==> c in "chr" || c in reference[0];
    SplitJoin(v, '-');
    SplitJoin(r, '-');
  }

  /** A VCF whose CHROM does not start with "chr" never finds its lines in the index. */
  lemma UnprefixedChromNeverHits(line: string, rows: seq<string>, genes: set<string>, toReal: string -> real)
    requires SafeRows(rows)
    requires |Columns(line)| >= 5 && !("chr" <= Columns(line)[0])
    ensures LookupKey(Columns(line)) !in IndexOf(rows, genes, toReal)
  {
    var cols := Columns(line);
    IndexKeysPrefixed(rows, genes, toReal);
    ChrPrefixFromHead([cols[0], cols[1], cols[3], cols[4]], '-');
  }

  /**
   * A line of a sample's VCF is written iff it is a data line with FILTER "PASS", a
   * genotype not starting "0/0", DP of at least 6, and some retained reference row
   * indexed under its key; the row written beside it is the last such reference row.
   */
  lemma EmittedIffIndexed(id: string, line: string, rows: seq<string>, genes: set<string>, toReal: string -> real)
    requires SafeRows(rows)
    requires SafeVcfLine(line, IndexOf(rows, genes, toReal))
    ensures var cols := Columns(line);
            LineHit(id, line, IndexOf(rows, genes, toReal)).Some? <==>
              && !IsVcfHeader(line) && |cols| >= 10 && cols[6] == "PASS" && !("0/0" <= cols[9])
              && (exists i :: 0 <= i < |rows| && Retained(rows[i], genes, toReal) && IndexKey(rows[i]) == LookupKey(cols))
              && FormatDepth(cols).Some? && FormatDepth(cols).value >= MinDepth
    ensures var cols := Columns(line);
            LineHit(id, line, IndexOf(rows, genes, toReal)).Some? ==>
              exists i :: LastRetainedAt(rows, genes, toReal, i, LookupKey(cols))
                && LineHit(id, line, IndexOf(rows, genes, toReal)) == Some(ScoreHit(id, line, rows[i]))
  {
    var cols := Columns(line);
    if |cols| >= 5 {
      IndexHoldsLastRetained(rows, genes, toReal, LookupKey(cols));
    }
  }

  // ---------------------------------------------------------------------------
  // The run

  /** The index built from the SNV file, then the indel file, over score mode's panel genes. */
  function ReferenceIndex(panelRows: seq<string>, snvs: seq<string>, indels: seq<string>, toReal: string -> real): map<string, string>
    requires SafeRows(snvs) && SafeRows(indels)
  {
    IndexAppend(snvs, indels, {}, toReal);
    IndexOf(snvs + indels, Panel.PanelGenes(panelRows, false), toReal)
  }

  /** A sample row the loop reads without failing: both columns present, and an existing VCF readable. */
  predicate SafeSample(sample: string, fs: FileSystem, index: map<string, string>)
  {
    && Samples.WellFormed(sample)
    && (!Samples.IsSamplesHeader(sample) && Samples.VcfPath(sample) in fs ==>
          forall l :: l in fs[Samples.VcfPath(sample)] ==> SafeVcfLine(l, index))
  }

  /** What one sample row contributes: nothing for the header or a missing VCF. */
  function SampleHits(sample: string, fs: FileSystem, index: map<string, string>): seq<ScoreHit>
    requires SafeSample(sample, fs, index)
  {
    if Samples.IsSamplesHeader(sample) || Samples.VcfPath(sample) !in fs then []
    else VcfHits(Samples.Id(sample), fs[Samples.VcfPath(sample)], index)
  }

  /** The output of the whole run, sample by sample. */
  function RunHits(samples: seq<string>, fs: FileSystem, index: map<string, string>): seq<ScoreHit>
    requires forall s :: s in samples ==> SafeSample(s, fs, index)
  {
    if |samples| == 0 then []
    else RunHits(samples[..|samples| - 1], fs, index) + SampleHits(samples[|samples| - 1], fs, index)
  }

  /** An output line comes from a line of the VCF of a listed, non-header sample whose VCF exists. */
  lemma {:induction false} RunHitsMembership(samples: seq<string>, fs: FileSystem, index: map<string, string>, h: ScoreHit)
    requires forall s :: s in samples ==> SafeSample(s, fs, index)
    ensures h in RunHits(samples, fs, index) <==>
              exists s :: s in samples && !Samples.IsSamplesHeader(s) && Samples.VcfPath(s) in fs
                && h in VcfHits(Samples.Id(s), fs[Samples.VcfPath(s)], index)
  {
    if |samples| > 0 {
      var init := samples[..|samples| - 1];
      RunHitsMembership(init, fs, index, h);
      assert samples == init + [samples[|samples| - 1]];
    }
  }

  /**
   * The whole script: the panel gene set without a confidence filter, the index from
   * the two SpliceAI files, then every sample's VCF scanned in samples-file order.
   */
  method Run(samples: seq<string>, panelRows: seq<string>, snvs: seq<string>, indels: seq<string>,
             fs: FileSystem, toReal: string -> real) returns (hits: seq<ScoreHit>)
    requires SafeRows(snvs) && SafeRows(indels)
    requires forall s :: s in samples ==> SafeSample(s, fs, ReferenceIndex(panelRows, snvs, indels, toReal))
    ensures hits == RunHits(samples, fs, ReferenceIndex(panelRows, snvs, indels, toReal))
  {
    var genes := Panel.AddPanel({}, panelRows, false);
    var index := BuildIndex(snvs, indels, genes, toReal);
    assert genes == Panel.PanelGenes(panelRows, false);
    assert index == ReferenceIndex(panelRows, snvs, indels, toReal);
    hits := [];
    for n := 0 to |samples|
      invariant hits == RunHits(samples[..n], fs, index)
    {
      assert samples[..n + 1][..n] == samples[..n];
      var line := samples[n];
      assert SafeSample(line, fs, index);
      var words := Split(line, '\t');
      if "Participant" <= line { continue; }
      var id := words[0];
      var vcf := words[1];
      if vcf in fs {
        var more := ScanVcf(id, fs[vcf], index);
        hits := hits + more;
      }
    }
    assert samples[..|samples|] == samples;
  }
}
