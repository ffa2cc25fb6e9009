/**
 * Consequence mode, one VCF line at a time: the quality gates, the choice of the
 * `CSQT=` annotation, the search over its comma-separated blocks for a consequence
 * term and a `|gene|` token, the depth read from colon field 3 of the genotype, and
 * the run-wide set of already-emitted (sample, variant) keys.
 */
module ConsequenceFilter {
  import opened Text
  import opened Numbers
  import opened Optional
  import opened Vcf

  /** Consequences of interest; a block matches one by plain substring. */
  const CqTerms: set<string> := {"stop_gained", "splice_acceptor", "splice_donor", "frameshift", "missense", "splice_region"}

  /** One output line: participant id, the whole VCF line, the matched gene and consequence. */
  datatype Hit = Hit(id: string, line: string, gene: string, term: string)
  {
    function Output(): string
    {
      id + "\t" + line + "\t" + gene + "\t" + term + "\n"
    }
  }

  predicate IsCsqt(field: string)
  {
    "CSQT=" <= field
  }

  /** The `CSQT=` sub-field of INFO that the script ends up with: the last one, or none. */
  function LastCsqt(info: seq<string>): Option<string>
  {
    if |info| == 0 then None
    else if IsCsqt(info[|info| - 1]) then Some(info[|info| - 1])
    else LastCsqt(info[..|info| - 1])
  }

  /** There is no `CSQT=` sub-field at all, or the chosen one is the last of several. */
  lemma {:induction false} LastCsqtIsLast(info: seq<string>)
    ensures LastCsqt(info).None? <==> forall i :: 0 <= i < |info| ==> !IsCsqt(info[i])
    ensures LastCsqt(info).Some? ==>
              exists i :: 0 <= i < |info| && info[i] == LastCsqt(info).value && IsCsqt(info[i]) &&
                          forall j :: i < j < |info| ==> !IsCsqt(info[j])
  {
    if |info| > 0 && !IsCsqt(info[|info| - 1]) {
      var init := info[..|info| - 1];
      LastCsqtIsLast(init);
      if LastCsqt(info).Some? {
        var i :| 0 <= i < |init| && init[i] == LastCsqt(init).value && IsCsqt(init[i]) &&
                 forall j :: i < j < |init| ==> !IsCsqt(init[j]);
        assert info[i] == LastCsqt(info).value;
      }
    }
  }

  /**
   * The loop over INFO's `;`-separated sub-fields: every `CSQT=` sub-field overwrites
   * the kept blocks and bumps the counter; a zero counter means "no annotation".
   */
  method SelectCsqt(info: seq<string>) returns (blocks: Option<seq<string>>)
    ensures blocks.None? <==> LastCsqt(info).None?
    ensures blocks.Some? ==> blocks.value == Split(LastCsqt(info).value, ',')
  {
    var count := 0;
    var splitInfo: seq<string> := [];
    for n := 0 to |info|
      invariant count == 0 <==> LastCsqt(info[..n]).None?
      invariant count > 0 ==> splitInfo == Split(LastCsqt(info[..n]).value, ',')
    {
      assert info[..n + 1][..n] == info[..n];
      if IsCsqt(info[n]) {
        splitInfo := Split(info[n], ',');
        count := count + 1;
      }
    }
    assert info[..|info|] == info;
    blocks := if count == 0 then None else Some(splitInfo);
  }

  /** The first block keeps the `CSQT=` prefix of the sub-field it was cut from. */
  lemma FirstBlockKeepsPrefix(info: seq<string>)
    requires LastCsqt(info).Some?
    ensures IsCsqt(Split(LastCsqt(info).value, ',')[0])
  {
    LastCsqtIsLast(info);
    FirstPieceKeepsPrefix(LastCsqt(info).value, "CSQT=", ',');
  }

  /** The annotation blocks of a line's INFO column (column 7). */
  function CsqtBlocks(cols: seq<string>): Option<seq<string>>
    requires |cols| >= 8
  {
    match LastCsqt(Split(cols[7], ';'))
    case None => None
    case Some(field) => Some(Split(field, ','))
  }

  function GeneToken(gene: string): string
  {
    "|" + gene + "|"
  }

  /** A block names the consequence anywhere and the gene as a whole `|`-delimited token. */
  predicate Matches(block: string, term: string, gene: string)
  {
    Contains(block, term) && Contains(block, GeneToken(gene))
  }

  /** The gene test matches exactly when the gene is one whole interior `|`-field of the block. */
  lemma GeneMatchIsWholeField(block: string, gene: string)
    requires '|' !in gene
    ensures Contains(block, GeneToken(gene)) <==>
              exists i :: 0 < i < |Split(block, '|')| - 1 && Split(block, '|')[i] == gene
  {
    assert GeneToken(gene) == ['|'] + gene + ['|'];
    DelimitedToken(block, gene, '|');
  }

  /** "CR1" does not match a block whose only gene field is "CR1L"; "CR1L" does. */
  lemma PartialNameDoesNotMatch(before: string, after: string)
    requires '|' !in before && '|' !in after
    ensures !Contains(before + "|CR1L|" + after, GeneToken("CR1"))
    ensures Contains(before + "|CR1L|" + after, GeneToken("CR1L"))
  {
    var block := before + "|CR1L|" + after;
    var fields := [before, "CR1L", after];
    assert Join(fields[1..][1..], '|') == after;
    assert Join(fields[1..], '|') == "CR1L" + "|" + after;
    assert Join(fields, '|') == block;
    SplitJoin(fields, '|');
    GeneMatchIsWholeField(block, "CR1");
    GeneMatchIsWholeField(block, "CR1L");
    assert Split(block, '|')[1] == "CR1L";
  }

  predicate BlockMatches(block: string, terms: set<string>, genes: set<string>)
  {
    exists j, k :: j in terms && k in genes && Matches(block, j, k)
  }

  predicate SomeBlockMatches(blocks: seq<string>, upTo: int, genes: set<string>)
    requires upTo <= |blocks|
  {
    exists i :: 0 <= i < upTo && BlockMatches(blocks[i], CqTerms, genes)
  }

  /** Colon field 3 of the genotype column, read as an integer; None where `int()` would fail. */
  function FixedDepth(genotype: string): Option<int>
  {
    var parts := Split(genotype, ':');
    if |parts| >= 4 && IsDecimal(parts[3]) then Some(IntValue(parts[3])) else None
  }

  predicate DepthOk(genotype: string)
  {
    FixedDepth(genotype).Some? && FixedDepth(genotype).value >= MinDepth
  }

  /** A data line with FILTER "PASS", a genotype not starting "0/0" and a `CSQT=` annotation. */
  predicate Gated(line: string)
  {
    var cols := Columns(line);
    && !IsVcfHeader(line)
    && |cols| >= 10
    && cols[6] == "PASS"
    && !("0/0" <= cols[9])
    && CsqtBlocks(cols).Some?
  }

  /** A data line that passes the gates and whose chosen annotation has a matching block. */
  predicate Candidate(line: string, genes: set<string>)
  {
    && Gated(line)
    && var blocks := CsqtBlocks(Columns(line)).value;
       SomeBlockMatches(blocks, |blocks|, genes)
  }

  /** A line the script would write for a sample that has not yet had this variant. */
  predicate Qualifies(line: string, genes: set<string>)
  {
    Candidate(line, genes) && DepthOk(Columns(line)[9])
  }

  /**
   * The lines the script reads without an IndexError or a failing `int()`: headers,
   * and otherwise FILTER must exist, and when it is PASS the genotype column must
   * exist, and when a block matches, colon field 3 of the genotype must be a number.
   */
  predicate SafeLine(line: string, genes: set<string>)
  {
    var cols := Columns(line);
    IsVcfHeader(line) ||
    (|cols| >= 7 && (cols[6] != "PASS" || (|cols| >= 10 && (Candidate(line, genes) ==> FixedDepth(cols[9]).Some?))))
  }

  function Column(cols: seq<string>, i: nat): string
  {
    if i < |cols| then cols[i] else ""
  }

  /** sample-CHROM-POS-REF-ALT; lines that reach it always have all five columns. */
  function DedupKey(id: string, line: string): string
  {
    var cols := Columns(line);
    Join([id, Column(cols, 0), Column(cols, 1), Column(cols, 3), Column(cols, 4)], '-')
  }

  function HitKey(h: Hit): string
  {
    DedupKey(h.id, h.line)
  }

  /** An emitted line qualifies, and its gene and consequence match one of its blocks together. */
  predicate Justified(h: Hit, genes: set<string>)
  {
    && Qualifies(h.line, genes)
    && h.gene in genes
    && h.term in CqTerms
    && var blocks := CsqtBlocks(Columns(h.line)).value;
       exists i :: 0 <= i < |blocks| && Matches(blocks[i], h.term, h.gene)
  }

  /** The filter's state for one line so far: nothing written, or one justified hit written and its key tracked. */
  predicate Progress(hits: seq<Hit>, tracking': set<string>, tracking: set<string>, id: string, line: string, genes: set<string>)
  {
    if hits == [] then tracking' == tracking
    else
      && |hits| == 1
      && tracking' == tracking + {DedupKey(id, line)}
      && hits[0].id == id && hits[0].line == line
      && Justified(hits[0], genes)
  }

  /**
   * The innermost step, reached with a block that holds `term` and the `|gene|` token:
   * a depth below 6 or an already-tracked key skips it, otherwise the key is tracked
   * and the line written.
   */
  method Emit(id: string, line: string, block: string, term: string, gene: string, genes: set<string>,
              tracking: set<string>, hits: seq<Hit>, tracking': set<string>)
    returns (hits'': seq<Hit>, tracking'': set<string>)
    requires SafeLine(line, genes) && Gated(line)
    requires block in CsqtBlocks(Columns(line)).value
    requires term in CqTerms && gene in genes && Matches(block, term, gene)
    requires Progress(hits, tracking', tracking, id, line, genes)
    ensures Progress(hits'', tracking'', tracking, id, line, genes)
    ensures hits'' != [] <==> hits != [] || (DepthOk(Columns(line)[9]) && DedupKey(id, line) !in tracking)
  {
    hits'', tracking'' := hits, tracking';
    var words := Split(line, '\t');
    var blocks := CsqtBlocks(words).value;
    ghost var i :| 0 <= i < |blocks| && blocks[i] == block;
    assert BlockMatches(blocks[i], CqTerms, genes);
    assert Candidate(line, genes);
    var getDp := Split(words[9], ':');
    var dp := IntValue(getDp[3]);
    if dp < MinDepth { return; }
    var idVar := Join([id, words[0], words[1], words[3], words[4]], '-');
    assert idVar == DedupKey(id, line);
    if idVar in tracking' { return; }
    tracking'' := tracking' + {idVar};
    hits'' := hits + [Hit(id, line, gene, term)];
  }

  /** The loop over the gene set for one block that holds `term`, in an unspecified order. */
  method TryGenes(id: string, line: string, block: string, term: string, genes: set<string>,
                  tracking: set<string>, hits: seq<Hit>, tracking': set<string>)
    returns (hits'': seq<Hit>, tracking'': set<string>)
    requires SafeLine(line, genes) && Gated(line)
    requires block in CsqtBlocks(Columns(line)).value
    requires term in CqTerms && Contains(block, term)
    requires Progress(hits, tracking', tracking, id, line, genes)
    ensures Progress(hits'', tracking'', tracking, id, line, genes)
    ensures hits'' != [] <==>
              hits != [] ||
              ((exists k :: k in genes && Matches(block, term, k)) && DepthOk(Columns(line)[9]) && DedupKey(id, line) !in tracking)
  {
    hits'', tracking'' := hits, tracking';
    var rest := genes;
    while rest != {}
      invariant rest <= genes
      invariant Progress(hits'', tracking'', tracking, id, line, genes)
      invariant hits'' != [] <==>
                  hits != [] ||
                  ((exists k :: k in genes - rest && Matches(block, term, k)) && DepthOk(Columns(line)[9]) && DedupKey(id, line) !in tracking)
      decreases rest
    {
      var k :| k in rest;
      rest := rest - {k};
      if Contains(block, "|" + k + "|") {
        assert Matches(block, term, k);
        hits'', tracking'' := Emit(id, line, block, term, k, genes, tracking, hits'', tracking'');
      }
    }
  }

  /** The loop over the consequence terms for one block, in an unspecified order. */
  method TryTerms(id: string, line: string, block: string, genes: set<string>,
                  tracking: set<string>, hits: seq<Hit>, tracking': set<string>)
    returns (hits'': seq<Hit>, tracking'': set<string>)
    requires SafeLine(line, genes) && Gated(line)
    requires block in CsqtBlocks(Columns(line)).value
    requires Progress(hits, tracking', tracking, id, line, genes)
    ensures Progress(hits'', tracking'', tracking, id, line, genes)
    ensures hits'' != [] <==>
              hits != [] || (BlockMatches(block, CqTerms, genes) && DepthOk(Columns(line)[9]) && DedupKey(id, line) !in tracking)
  {
    hits'', tracking'' := hits, tracking';
    var terms := CqTerms;
    while terms != {}
      invariant terms <= CqTerms
      invariant Progress(hits'', tracking'', tracking, id, line, genes)
      invariant hits'' != [] <==>
                  hits != [] || (BlockMatches(block, CqTerms - terms, genes) && DepthOk(Columns(line)[9]) && DedupKey(id, line) !in tracking)
      decreases terms
    {
      var j :| j in terms;
      if Contains(block, j) {
        hits'', tracking'' := TryGenes(id, line, block, j, genes, tracking, hits'', tracking'');
      }
      terms := terms - {j};
    }
  }

  /**
   * One VCF line of one sample. Headers, non-PASS lines, 0/0 genotypes and lines
   * without `CSQT=` are skipped; then every block, consequence term and gene is tried,
   * and the first matching combination (in an unspecified order) whose depth is at
   * least 6 and whose key was not yet emitted is written and its key recorded.
   */
  method FilterLine(id: string, line: string, genes: set<string>, tracking: set<string>)
    returns (hits: seq<Hit>, tracking': set<string>)
    requires SafeLine(line, genes)
    ensures |hits| <= 1
    ensures hits != [] <==> Qualifies(line, genes) && DedupKey(id, line) !in tracking
    ensures tracking' == if hits == [] then tracking else tracking + {DedupKey(id, line)}
    ensures hits != [] ==> hits[0].id == id && hits[0].line == line && Justified(hits[0], genes)
  {
    hits, tracking' := [], tracking;
    if "#" <= line { return; }
    var words := Split(line, '\t');
    if words[6] != "PASS" { return; }
    if "0/0" <= words[9] { return; }
    var found := SelectCsqt(Split(words[7], ';'));
    if found.None? { return; }
    var blocks := found.value;
    assert blocks == CsqtBlocks(words).value;
    for b := 0 to |blocks|
      invariant Progress(hits, tracking', tracking, id, line, genes)
      invariant hits != [] <==> SomeBlockMatches(blocks, b, genes) && DepthOk(words[9]) && DedupKey(id, line) !in tracking
    {
      hits, tracking' := TryTerms(id, line, blocks[b], genes, tracking, hits, tracking');
    }
  }
}
