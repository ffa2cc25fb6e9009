/**
 * Consequence mode end to end: the participant-to-panels map built from the panels
 * file, the per-sample gene set (assigned panels plus the extra gene list), the walk
 * over the samples file and each sample's VCF, and the run-wide dedup of emitted
 * (sample, variant) keys.
 *
 * Files are given as their lines; `fs` maps a path to the lines of the file there,
 * so `vcf in fs` stands for `os.path.exists(vcf)`.
 */
module Consequence {
  import opened Text
  import Panel
  import Samples
  import opened ConsequenceFilter
  import opened Vcf

  // ---------------------------------------------------------------------------
  // The panels file: "participant id <TAB> panel path", ids may repeat.

  /** A panels-file row the script can read (it takes columns 0 and 1). */
  predicate AssignmentRow(row: string)
  {
    |Split(row, '\t')| >= 2
  }

  predicate AssignmentRows(rows: seq<string>)
  {
    forall i :: 0 <= i < |rows| ==> AssignmentRow(rows[i])
  }

  /** The panel paths listed for `id`, in file order. */
  function PathsOf(rows: seq<string>, id: string): seq<string>
    requires AssignmentRows(rows)
  {
    if |rows| == 0 then []
    else
      var words := Split(rows[|rows| - 1], '\t');
      PathsOf(rows[..|rows| - 1], id) + (if words[0] == id then [words[1]] else [])
  }

  /** `m` holds an entry for exactly the listed ids: their paths joined by ';'. */
  ghost predicate IsAssignment(m: map<string, string>, rows: seq<string>)
    requires AssignmentRows(rows)
  {
    && (forall id :: id in m <==> PathsOf(rows, id) != [])
    && (forall id :: id in m ==> PathsOf(rows, id) != [] && m[id] == Join(PathsOf(rows, id), ';'))
  }

  /**
   * The loop over the panels file: a new id gets its path, a repeated id gets
   * "; path" appended to what it already has.
   */
  method BuildAssignment(rows: seq<string>) returns (panels: map<string, string>)
    requires AssignmentRows(rows)
    ensures IsAssignment(panels, rows)
  {
    panels := map[];
    for n := 0 to |rows|
      invariant IsAssignment(panels, rows[..n])
    {
      var words := Split(rows[n], '\t');
      var prefix, next := rows[..n], rows[..n + 1];
      assert next[..n] == prefix;
      forall id ensures PathsOf(next, id) == PathsOf(prefix, id) + (if words[0] == id then [words[1]] else []) {
      }
      ghost var before := panels;
      if words[0] !in panels {
        assert PathsOf(next, words[0]) == [words[1]];
        panels := panels[words[0] := words[1]];
      } else {
        JoinSnoc(PathsOf(prefix, words[0]), words[1], ';');
        panels := panels[words[0] := panels[words[0]] + ";" + words[1]];
      }
      forall id | id in panels ensures PathsOf(next, id) != [] && panels[id] == Join(PathsOf(next, id), ';') {
        if id != words[0] {
          assert panels[id] == before[id] == Join(PathsOf(prefix, id), ';');
          assert PathsOf(next, id) == PathsOf(prefix, id) + [];
          assert PathsOf(prefix, id) + [] == PathsOf(prefix, id);
        } else if id in before {
          assert before[id] == Join(PathsOf(prefix, id), ';');
          assert panels[id] == before[id] + ";" + words[1];
          assert PathsOf(next, id) == PathsOf(prefix, id) + [words[1]];
          assert Join(PathsOf(next, id), ';') == Join(PathsOf(prefix, id), ';') + [';'] + words[1];
        } else {
          assert PathsOf(next, id) == [words[1]];
        }
      }
    }
    assert rows[..|rows|] == rows;
  }

  /**
   * Splitting a participant's joined entry gives back exactly that participant's
   * panel paths, in file order, when no path contains ';'.
   */
  lemma AssignedPanelsRoundTrip(m: map<string, string>, rows: seq<string>, id: string)
    requires AssignmentRows(rows)
    requires IsAssignment(m, rows)
    requires id in m
    requires forall i :: 0 <= i < |PathsOf(rows, id)| ==> ';' !in PathsOf(rows, id)[i]
    ensures Split(m[id], ';') == PathsOf(rows, id)
  {
    SplitJoin(PathsOf(rows, id), ';');
  }

  /** The panel files the script opens for `id`: its entry split on ';'. */
  function SamplePanels(rows: seq<string>, id: string): seq<string>
    requires AssignmentRows(rows)
    requires PathsOf(rows, id) != []
  {
    Split(Join(PathsOf(rows, id), ';'), ';')
  }

  // ---------------------------------------------------------------------------
  // A sample's genes: every assigned panel (with the confidence filter) plus the
  // first column of every line of the extra gene list.

  predicate AllPresent(paths: seq<string>, fs: FileSystem)
  {
    forall i :: 0 <= i < |paths| ==> paths[i] in fs
  }

  function PanelsGenes(paths: seq<string>, fs: FileSystem): set<string>
    requires AllPresent(paths, fs)
  {
    if |paths| == 0 then {}
    else PanelsGenes(paths[..|paths| - 1], fs) + Panel.PanelGenes(fs[paths[|paths| - 1]], true)
  }

  function ListGenes(geneRows: seq<string>): set<string>
  {
    if |geneRows| == 0 then {}
    else ListGenes(geneRows[..|geneRows| - 1]) + {Split(geneRows[|geneRows| - 1], '\t')[0]}
  }

  /** Gene `g` is admitted by one of the panel files. */
  ghost predicate InSomePanel(paths: seq<string>, fs: FileSystem, g: string)
    requires AllPresent(paths, fs)
  {
    exists i, r :: 0 <= i < |paths| && Panel.AdmitsAt(fs[paths[i]], r, g, true)
  }

  /** Gene `g` is the first column of some line of the extra gene list. */
  predicate Listed(geneRows: seq<string>, g: string)
  {
    exists n :: 0 <= n < |geneRows| && Split(geneRows[n], '\t')[0] == g
  }

  lemma {:induction false} PanelsGenesMembership(paths: seq<string>, fs: FileSystem, g: string)
    requires AllPresent(paths, fs)
    ensures g in PanelsGenes(paths, fs) <==> InSomePanel(paths, fs, g)
  {
    if |paths| > 0 {
      var init := paths[..|paths| - 1];
      var last := |paths| - 1;
      PanelsGenesMembership(init, fs, g);
      Panel.PanelGenesMembership(fs[paths[last]], g, true);
      if InSomePanel(paths, fs, g) {
        var i, r :| 0 <= i < |paths| && Panel.AdmitsAt(fs[paths[i]], r, g, true);
        if i < last {
          assert Panel.AdmitsAt(fs[init[i]], r, g, true);
        }
      }
      if InSomePanel(init, fs, g) {
        var i, r :| 0 <= i < |init| && Panel.AdmitsAt(fs[init[i]], r, g, true);
        assert Panel.AdmitsAt(fs[paths[i]], r, g, true);
      }
      if g in Panel.PanelGenes(fs[paths[last]], true) {
        var r :| Panel.AdmitsAt(fs[paths[last]], r, g, true);
        assert InSomePanel(paths, fs, g);
      }
    }
  }

  lemma {:induction false} ListGenesMembership(geneRows: seq<string>, g: string)
    ensures g in ListGenes(geneRows) <==> Listed(geneRows, g)
  {
    if |geneRows| > 0 {
      var init := geneRows[..|geneRows| - 1];
      ListGenesMembership(init, g);
      if Listed(geneRows, g) {
        var n :| 0 <= n < |geneRows| && Split(geneRows[n], '\t')[0] == g;
        if n < |geneRows| - 1 {
          assert Split(init[n], '\t')[0] == g;
        }
      }
      if Listed(init, g) {
        var n :| 0 <= n < |init| && Split(init[n], '\t')[0] == g;
        assert Split(geneRows[n], '\t')[0] == g;
      }
    }
  }

  /**
   * A sample's gene set is exactly the genes some assigned panel admits (column 2 of
   * a row with at least 14 fields, "gene" in column 1, "Expert Review Green" in
   * column 3 and an accepted mode in column 7) together with the first column of
   * every line of the extra gene list.
   */
  lemma SampleGenesMembership(paths: seq<string>, fs: FileSystem, geneRows: seq<string>, g: string)
    requires AllPresent(paths, fs)
    ensures g in PanelsGenes(paths, fs) + ListGenes(geneRows) <==> InSomePanel(paths, fs, g) || Listed(geneRows, g)
  {
    PanelsGenesMembership(paths, fs, g);
    ListGenesMembership(geneRows, g);
  }

  /** Builds one sample's gene set from nothing: its panel files, then the gene list. */
  method LoadSampleGenes(paths: seq<string>, fs: FileSystem, geneRows: seq<string>) returns (genes: set<string>)
    requires AllPresent(paths, fs)
    ensures genes == PanelsGenes(paths, fs) + ListGenes(geneRows)
  {
    genes := {};
    for i := 0 to |paths|
      invariant genes == PanelsGenes(paths[..i], fs)
    {
      assert paths[..i + 1][..i] == paths[..i];
      genes := Panel.AddPanel(genes, fs[paths[i]], true);
    }
    assert paths[..|paths|] == paths;
    for n := 0 to |geneRows|
      invariant genes == PanelsGenes(paths, fs) + ListGenes(geneRows[..n])
    {
      assert geneRows[..n + 1][..n] == geneRows[..n];
      var wordsG := Split(geneRows[n], '\t');
      genes := genes + {wordsG[0]};
    }
    assert geneRows[..|geneRows|] == geneRows;
  }

  // ---------------------------------------------------------------------------
  // Samples and the run.

  /** A sample row that is not the header and whose id has at least one panel. */
  predicate HasPanels(rows: seq<string>, sample: string)
    requires AssignmentRows(rows)
  {
    !Samples.IsSamplesHeader(sample) && PathsOf(rows, Samples.Id(sample)) != []
  }

  /** The gene set the script builds for a sample that has panels. */
  function SampleGenes(rows: seq<string>, geneRows: seq<string>, fs: FileSystem, sample: string): set<string>
    requires AssignmentRows(rows)
    requires HasPanels(rows, sample)
    requires AllPresent(SamplePanels(rows, Samples.Id(sample)), fs)
  {
    PanelsGenes(SamplePanels(rows, Samples.Id(sample)), fs) + ListGenes(geneRows)
  }

  /**
   * What the script needs of a sample row not to fail: both columns (read before the
   * panel check), every assigned panel file present, and every line of its VCF, when
   * that exists, readable.
   */
  predicate SafeSample(rows: seq<string>, geneRows: seq<string>, fs: FileSystem, sample: string)
    requires AssignmentRows(rows)
  {
    && Samples.WellFormed(sample)
    && (HasPanels(rows, sample) ==>
          && AllPresent(SamplePanels(rows, Samples.Id(sample)), fs)
          && (Samples.VcfPath(sample) in fs ==>
                forall l :: l in fs[Samples.VcfPath(sample)] ==> SafeLine(l, SampleGenes(rows, geneRows, fs, sample))))
  }

  /** The sample's VCF is scanned: it has panels and its VCF file exists. */
  predicate Scanned(rows: seq<string>, geneRows: seq<string>, fs: FileSystem, sample: string)
    requires AssignmentRows(rows)
  {
    && SafeSample(rows, geneRows, fs, sample)
    && HasPanels(rows, sample)
    && Samples.VcfPath(sample) in fs
  }

  /** `h` is a line this sample can emit: from its VCF, qualifying against its own genes. */
  predicate EmittedFor(rows: seq<string>, geneRows: seq<string>, fs: FileSystem, sample: string, h: Hit)
    requires AssignmentRows(rows)
  {
    && Scanned(rows, geneRows, fs, sample)
    && h.id == Samples.Id(sample)
    && h.line in fs[Samples.VcfPath(sample)]
    && Justified(h, SampleGenes(rows, geneRows, fs, sample))
  }

  /** `line` of this sample's VCF qualifies against the sample's genes. */
  predicate QualifyingLine(rows: seq<string>, geneRows: seq<string>, fs: FileSystem, sample: string, line: string)
    requires AssignmentRows(rows)
  {
    && Scanned(rows, geneRows, fs, sample)
    && line in fs[Samples.VcfPath(sample)]
    && Qualifies(line, SampleGenes(rows, geneRows, fs, sample))
  }

  function KeySet(hits: seq<Hit>): set<string>
  {
    set i | 0 <= i < |hits| :: HitKey(hits[i])
  }

  /** No two emitted lines share a sample-CHROM-POS-REF-ALT key. */
  predicate DistinctKeys(hits: seq<Hit>)
  {
    forall i, j :: 0 <= i < j < |hits| ==> HitKey(hits[i]) != HitKey(hits[j])
  }

  lemma KeySetAppend(a: seq<Hit>, b: seq<Hit>)
    ensures KeySet(a + b) == KeySet(a) + KeySet(b)
  {
    forall k | k in KeySet(a + b) ensures k in KeySet(a) + KeySet(b) {
      var i :| 0 <= i < |a + b| && HitKey((a + b)[i]) == k;
      if i >= |a| {
        assert HitKey(b[i - |a|]) == k;
      }
    }
    forall k | k in KeySet(a) + KeySet(b) ensures k in KeySet(a + b) {
      if k in KeySet(a) {
        var i :| 0 <= i < |a| && HitKey(a[i]) == k;
        assert (a + b)[i] == a[i];
      } else {
        var i :| 0 <= i < |b| && HitKey(b[i]) == k;
        assert (a + b)[|a| + i] == b[i];
      }
    }
  }

  /** Two key-distinct runs of output whose keys do not meet stay key-distinct together. */
  lemma DistinctAppend(a: seq<Hit>, b: seq<Hit>)
    requires DistinctKeys(a) && DistinctKeys(b)
    requires KeySet(a) !! KeySet(b)
    ensures DistinctKeys(a + b)
  {
    forall i, j | 0 <= i < j < |a + b| ensures HitKey((a + b)[i]) != HitKey((a + b)[j]) {
      if j < |a| {
        assert (a + b)[i] == a[i] && (a + b)[j] == a[j];
      } else if i >= |a| {
        assert (a + b)[i] == b[i - |a|] && (a + b)[j] == b[j - |a|];
      } else {
        assert HitKey(a[i]) in KeySet(a);
        assert HitKey(b[j - |a|]) in KeySet(b);
      }
    }
  }

  /**
   * One sample's VCF, line by line: each line goes through the filter with the
   * tracking set the earlier lines (and samples) left behind.
   */
  method FilterVcf(id: string, lines: seq<string>, genes: set<string>, tracking: set<string>)
    returns (hits: seq<Hit>, tracking': set<string>)
    requires forall l :: l in lines ==> SafeLine(l, genes)
    ensures tracking' == tracking + KeySet(hits)
    ensures DistinctKeys(hits)
    ensures forall i :: 0 <= i < |hits| ==>
              hits[i].id == id && hits[i].line in lines && Justified(hits[i], genes) && HitKey(hits[i]) !in tracking
    ensures forall l :: l in lines && Qualifies(l, genes) ==> DedupKey(id, l) in tracking'
  {
    hits, tracking' := [], tracking;
    for n := 0 to |lines|
      invariant tracking' == tracking + KeySet(hits)
      invariant DistinctKeys(hits)
      invariant forall i :: 0 <= i < |hits| ==>
                  hits[i].id == id && hits[i].line in lines[..n] && Justified(hits[i], genes) && HitKey(hits[i]) !in tracking
      invariant forall l :: l in lines[..n] && Qualifies(l, genes) ==> DedupKey(id, l) in tracking'
    {
      var more, after := FilterLine(id, lines[n], genes, tracking');
      assert lines[..n + 1] == lines[..n] + [lines[n]];
      if more != [] {
        assert KeySet(more) == {HitKey(more[0])};
        DistinctAppend(hits, more);
        KeySetAppend(hits, more);
      } else {
        assert hits + more == hits;
      }
      hits, tracking' := hits + more, after;
    }
    assert lines[..|lines|] == lines;
  }

  /**
   * One row of the samples file: the header and participants without panels are
   * skipped; otherwise the gene set is rebuilt from scratch and, when the VCF exists,
   * its lines are filtered (a missing VCF is reported and skipped).
   */
  method ProcessSample(rows: seq<string>, panels: map<string, string>, geneRows: seq<string>, fs: FileSystem,
                       sample: string, tracking: set<string>)
    returns (hits: seq<Hit>, tracking': set<string>)
    requires AssignmentRows(rows)
    requires IsAssignment(panels, rows)
    requires SafeSample(rows, geneRows, fs, sample)
    ensures tracking' == tracking + KeySet(hits)
    ensures DistinctKeys(hits)
    ensures forall i :: 0 <= i < |hits| ==> EmittedFor(rows, geneRows, fs, sample, hits[i]) && HitKey(hits[i]) !in tracking
    ensures forall l :: QualifyingLine(rows, geneRows, fs, sample, l) ==> DedupKey(Samples.Id(sample), l) in tracking'
    ensures !HasPanels(rows, sample) ==> hits == [] && tracking' == tracking
  {
    hits, tracking' := [], tracking;
    var words := Split(sample, '\t');
    if "Participant" <= sample { return; }
    var id := words[0];
    var vcfFileLoc := words[1];
    if id !in panels { return; }
    var panelPaths := Split(panels[id], ';');
    assert panelPaths == SamplePanels(rows, id);
    var genes := LoadSampleGenes(panelPaths, fs, geneRows);
    assert genes == SampleGenes(rows, geneRows, fs, sample);
    if vcfFileLoc in fs {
      hits, tracking' := FilterVcf(id, fs[vcfFileLoc], genes, tracking);
    }
  }

  /**
   * The whole consequence-mode run: the panels file is read once, then every sample
   * row is processed in order against one run-wide tracking set.
   *
   * Every (sample, CHROM, POS, REF, ALT) key is emitted at most once over the run;
   * every emitted line comes from a scanned sample's own VCF and qualifies against
   * that sample's genes; and every qualifying line of every scanned sample has its
   * key emitted (by that sample or by an earlier row with the same id).
   */
  method Run(samples: seq<string>, rows: seq<string>, geneRows: seq<string>, fs: FileSystem)
    returns (hits: seq<Hit>)
    requires AssignmentRows(rows)
    requires forall s :: s in samples ==> SafeSample(rows, geneRows, fs, s)
    ensures DistinctKeys(hits)
    ensures forall h :: h in hits ==> exists s :: s in samples && EmittedFor(rows, geneRows, fs, s, h)
    ensures forall s, l :: s in samples && QualifyingLine(rows, geneRows, fs, s, l) ==>
              DedupKey(Samples.Id(s), l) in KeySet(hits)
  {
    var panels := BuildAssignment(rows);
    var tracking: set<string> := {};
    hits := [];
    for n := 0 to |samples|
      invariant tracking == KeySet(hits)
      invariant DistinctKeys(hits)
      invariant forall h :: h in hits ==> exists s :: s in samples[..n] && EmittedFor(rows, geneRows, fs, s, h)
      invariant forall s, l :: s in samples[..n] && QualifyingLine(rows, geneRows, fs, s, l) ==>
                  DedupKey(Samples.Id(s), l) in tracking
    {
      assert samples[..n + 1] == samples[..n] + [samples[n]];
      var more, after := ProcessSample(rows, panels, geneRows, fs, samples[n], tracking);
      assert KeySet(hits) !! KeySet(more);
      DistinctAppend(hits, more);
      KeySetAppend(hits, more);
      forall h | h in more ensures exists s :: s in samples[..n + 1] && EmittedFor(rows, geneRows, fs, s, h) {
        var i :| 0 <= i < |more| && more[i] == h;
        assert EmittedFor(rows, geneRows, fs, samples[n], h);
      }
      hits, tracking := hits + more, after;
    }
    assert samples[..|samples|] == samples;
  }
}
