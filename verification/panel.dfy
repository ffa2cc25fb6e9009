/**
 * The panel gene-set builder shared by both scripts. A panel file is a tab-separated
 * table; a row names a gene (column 2) that is admitted when the row is long enough,
 * is a "gene" row, has an accepted inheritance mode (column 7) and, in consequence
 * mode only, carries the "Expert Review Green" confidence label (column 3).
 */
module Panel {
  import opened Text

  /** Rows shorter than this are skipped as truncated upstream data. */
  const MinFields: nat := 14
  const GreenLabel: string := "Expert Review Green"

  /** The inheritance-mode column starts with one of the accepted modes. */
  predicate ModeAccepted(mode: string)
  {
    "MONOALLELIC" <= mode || "BOTH" <= mode || "BIALLELIC" <= mode
  }

  /** The admission test on a tab-split row; `requireGreen` is consequence mode's confidence filter. */
  predicate Admitted(fields: seq<string>, requireGreen: bool)
  {
    && |fields| >= MinFields
    && fields[1] == "gene"
    && (requireGreen ==> Contains(fields[3], GreenLabel))
    && ModeAccepted(fields[7])
  }

  /** The genes one panel line contributes: its column 2 when admitted, nothing otherwise. */
  function RowGenes(line: string, requireGreen: bool): set<string>
  {
    var fields := Split(line, '\t');
    if Admitted(fields, requireGreen) then {fields[2]} else {}
  }

  /** The gene set a panel file yields, line by line. */
  function PanelGenes(lines: seq<string>, requireGreen: bool): set<string>
  {
    if |lines| == 0 then {}
    else PanelGenes(lines[..|lines| - 1], requireGreen) + RowGenes(lines[|lines| - 1], requireGreen)
  }

  /** Line `i` of a panel file admits gene `g`. */
  predicate AdmitsAt(lines: seq<string>, i: int, g: string, requireGreen: bool)
  {
    0 <= i < |lines| && Admitted(Split(lines[i], '\t'), requireGreen) && Split(lines[i], '\t')[2] == g
  }

  /**
   * A gene is in a panel's set iff some line of the panel has at least 14 fields,
   * column 1 "gene", an accepted mode in column 7 (and in consequence mode the green
   * label in column 3), and that gene in column 2.
   */
  lemma {:induction false} PanelGenesMembership(lines: seq<string>, g: string, requireGreen: bool)
    ensures g in PanelGenes(lines, requireGreen) <==> exists i :: AdmitsAt(lines, i, g, requireGreen)
  {
    if |lines| > 0 {
      var init := lines[..|lines| - 1];
      PanelGenesMembership(init, g, requireGreen);
      assert init + [lines[|lines| - 1]] == lines;
      assert g in RowGenes(lines[|lines| - 1], requireGreen) <==> AdmitsAt(lines, |lines| - 1, g, requireGreen);
      if exists i :: AdmitsAt(lines, i, g, requireGreen) {
        var i :| AdmitsAt(lines, i, g, requireGreen);
        if i < |lines| - 1 {
          assert AdmitsAt(init, i, g, requireGreen);
        }
      }
      if exists i :: AdmitsAt(init, i, g, requireGreen) {
        var i :| AdmitsAt(init, i, g, requireGreen);
        assert AdmitsAt(lines, i, g, requireGreen);
      }
    }
  }

  /** Panel files read one after another contribute the union of their genes. */
  lemma {:induction false} PanelGenesAppend(a: seq<string>, b: seq<string>, requireGreen: bool)
    ensures PanelGenes(a + b, requireGreen) == PanelGenes(a, requireGreen) + PanelGenes(b, requireGreen)
    decreases |b|
  {
    if |b| == 0 {
      assert a + b == a;
    } else {
      var b' := b[..|b| - 1];
      assert (a + b)[..|a + b| - 1] == a + b';
      PanelGenesAppend(a, b', requireGreen);
    }
  }

  /** A row with fewer than 14 fields contributes nothing, whatever else it holds. */
  lemma ShortRowIgnored(lines: seq<string>, i: int, requireGreen: bool)
    requires 0 <= i < |lines|
    requires |Split(lines[i], '\t')| < MinFields
    ensures PanelGenes(lines, requireGreen) == PanelGenes(lines[..i] + lines[i + 1..], requireGreen)
  {
    assert lines == lines[..i] + ([lines[i]] + lines[i + 1..]);
    PanelGenesAppend(lines[..i], [lines[i]] + lines[i + 1..], requireGreen);
    PanelGenesAppend([lines[i]], lines[i + 1..], requireGreen);
    PanelGenesAppend(lines[..i], lines[i + 1..], requireGreen);
    assert [lines[i]][..0] == [];
  }

  /** The confidence filter only removes genes: consequence mode admits a subset of score mode's genes. */
  lemma {:induction false} GreenFilterNarrows(lines: seq<string>)
    ensures PanelGenes(lines, true) <= PanelGenes(lines, false)
  {
    if |lines| > 0 {
      GreenFilterNarrows(lines[..|lines| - 1]);
    }
  }

  /**
   * Reads one panel file into the gene set: the loop over its lines that both scripts
   * run, adding column 2 of each admitted row to `genes`.
   */
  method AddPanel(genes: set<string>, lines: seq<string>, requireGreen: bool) returns (genes': set<string>)
    ensures genes' == genes + PanelGenes(lines, requireGreen)
  {
    genes' := genes;
    for n := 0 to |lines|
      invariant genes' == genes + PanelGenes(lines[..n], requireGreen)
    {
      assert lines[..n + 1][..n] == lines[..n];
      var fields := Split(lines[n], '\t');
      if |fields| < MinFields { continue; }
      if fields[1] != "gene" { continue; }
      if requireGreen && !Contains(fields[3], GreenLabel) { continue; }
      if "MONOALLELIC" <= fields[7] || "BOTH" <= fields[7] || "BIALLELIC" <= fields[7] {
        genes' := genes' + {fields[2]};
      }
    }
    assert lines[..|lines|] == lines;
  }
}
