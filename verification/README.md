# Extract_variants in Dafny

A model of the two filtering scripts of Extract_variants, with proofs about them. Both scripts walk a samples file ("participant id, VCF path"). They build a set of genes of interest from PanelApp-style panel files and write the VCF lines of each sample that pass a chain of tests:

- **Consequence mode** (`find_variants_by_gene_and_consequence.py`):
  - Reads a panels file that assigns panel files to participants.
  - Builds each sample's gene set afresh. The set holds the "Expert Review Green" genes of the sample's panels plus an extra gene list.
  - Keeps a VCF line when it has FILTER `PASS`, a genotype that is not `0/0`, and a `CSQT=` annotation block naming a consequence of interest together with a `|gene|` token. The depth in colon field 3 of the genotype must also be at least 6.
  - Emits each sample-CHROM-POS-REF-ALT key once over the whole run.
- **Score mode** (`find_variants_by_gene_and_SpliceAI_score.py`):
  - Builds one panel gene set with no confidence filter.
  - Indexes the SpliceAI SNV file and then the indel file. A row is kept when its gene is in the set and its largest delta score is at least 0.2. It is stored under the key `"chr"`+CHROM-POS-REF-ALT.
  - Writes each sample VCF line that has FILTER `PASS`, a genotype that is not `0/0`, a CHROM-POS-REF-ALT key that is in the index, and a DP of at least 6. DP is found through the FORMAT column. The stored reference row is written beside the line.

The modules follow the scripts:

- `Text` (`text.dfy`): `str.split`, `join`, `startswith` and the substring test, with the round trips between split and join.
- `Numbers` (`numbers.dfy`): `int()`.
- `Vcf` (`vcf.dfy`): files as lines, VCF columns and header lines, and the depth threshold both modes share.
- `Optional` (`optional.dfy`): an option type.
- `Panel` (`panel.dfy`): the panel-row admission loop, shared by both scripts.
- `Samples` (`samples.dfy`): the samples file.
- `ConsequenceFilter` (`consequence_filter.dfy`): one VCF line in consequence mode.
- `Consequence` (`consequence.dfy`): the panel assignment, the per-sample gene sets and the consequence run.
- `SpliceAIIndex` (`spliceai_index.dfy`): `get_format`, the running maximum and the reference index.
- `SpliceAI` (`spliceai.dfy`): the score-mode VCF scan and run.

The scripts' loops are methods with loop invariants. Each method is proved against a recursive function or predicate of its inputs, and lemmas state what those functions mean.

**Inputs.** A file is the sequence of its lines, already stripped. The file system is a map from path to lines, so `vcf in fs` stands for `os.path.exists(vcf)`. Python's `float()` on a score field is a parameter `toReal`. The run methods return the output lines as values: `Hit` and `ScoreHit`, whose `Output()` gives the text written.

**Details of the code the model follows:**

- When an INFO column has several `CSQT=` sub-fields, the loop in `find_variants_by_gene_and_consequence.py:82-85` overwrites `split_info` each time. So the last such sub-field is used, and its first block keeps the `CSQT=` prefix (`ConsequenceFilter.LastCsqtIsLast`, `ConsequenceFilter.FirstBlockKeepsPrefix`).
- In score mode the index key is prefixed with `"chr"` (`find_variants_by_gene_and_SpliceAI_score.py:66`) but the VCF lookup key is not (line 100). A sample line therefore hits only when its CHROM is literally `"chr"` followed by the reference CHROM. A VCF that writes CHROM as `13`, for example, never hits (`SpliceAI.KeysAgree`, `SpliceAI.UnprefixedChromNeverHits`).
- The comments beside both depth tests speak of "at least 5 reads", but the code drops DP < 6. The model uses 6.
- Consequence mode hard-codes DP as colon field 3 of the genotype (`find_variants_by_gene_and_consequence.py:95`). Score mode finds it through FORMAT.

**Other behaviour the model makes visible:**

- A blank line in the extra gene list adds the gene `""`. Its token `||` matches any annotation block with an empty interior `|`-field, that is, two adjacent `|` (`ConsequenceFilter.GeneMatchIsWholeField` for the gene `""`). A block whose only empty field is the last one, such as `A|B|`, does not match. The model keeps this behaviour.
- Consequence mode deduplicates by sample id, not by sample row. A participant listed twice is scanned twice, but each of its keys is emitted once.
- Score mode does not deduplicate.

## Model

| member | source | states |
|---|---|---|
| Panel.AddPanel | find_variants_by_gene_and_consequence.py:58-65 | The loop over one panel file adds exactly the genes of the admitted rows to the set it is given. Score mode runs it with no confidence filter (find_variants_by_gene_and_SpliceAI_score.py:40-46). |
| Panel.PanelGenesMembership | find_variants_by_gene_and_consequence.py:61-65 | A gene is in a panel's set iff some row has at least 14 fields, column 1 "gene", column 3 containing "Expert Review Green" (consequence mode only), column 7 starting with MONOALLELIC, BOTH or BIALLELIC, and that gene in column 2. |
| Panel.ShortRowIgnored | find_variants_by_gene_and_consequence.py:61 | Removing a row with fewer than 14 fields leaves the gene set unchanged. |
| Panel.PanelGenesAppend | find_variants_by_gene_and_consequence.py:56-65 | Reading panel files one after another yields the union of their gene sets. |
| Panel.GreenFilterNarrows | find_variants_by_gene_and_SpliceAI_score.py:43-46 | Score mode's admission, which lacks the confidence test, admits every gene consequence mode admits from the same file. |
| Consequence.BuildAssignment | find_variants_by_gene_and_consequence.py:31-38 | The panels-file loop gives an entry to exactly the ids listed. Each entry is that id's panel paths, in file order, joined by ';'. |
| Consequence.AssignedPanelsRoundTrip | find_variants_by_gene_and_consequence.py:55 | Splitting an id's entry on ';' gives back exactly its panel paths, in file order, when no path contains ';'. |
| Consequence.PanelsGenesMembership | find_variants_by_gene_and_consequence.py:56-65 | A gene is in the panels' union iff some row of some assigned panel file admits it. |
| Consequence.ListGenesMembership | find_variants_by_gene_and_consequence.py:67-70 | A gene comes from the extra list iff it is the first tab field of one of its lines. |
| Consequence.SampleGenesMembership | find_variants_by_gene_and_consequence.py:51-70 | A sample's gene set is the union of the admitted panel genes and the listed genes. |
| Consequence.LoadSampleGenes | find_variants_by_gene_and_consequence.py:51-70 | The per-sample loops rebuild the gene set from empty: the union of the assigned panels' genes and the extra list. |
| ConsequenceFilter.LastCsqtIsLast | find_variants_by_gene_and_consequence.py:80-86 | There is no chosen sub-field iff no INFO sub-field starts with "CSQT=". Otherwise the chosen one starts with "CSQT=" and no later sub-field does. |
| ConsequenceFilter.SelectCsqt | find_variants_by_gene_and_consequence.py:80-86 | The counting loop reports no annotation iff there is no "CSQT=" sub-field. Otherwise it gives the comma blocks of the last one. |
| ConsequenceFilter.FirstBlockKeepsPrefix | find_variants_by_gene_and_consequence.py:84 | The first block still starts with "CSQT=". |
| ConsequenceFilter.GeneMatchIsWholeField | find_variants_by_gene_and_consequence.py:90-92 | For a gene without '\|', the "\|gene\|" test succeeds iff the gene is a whole interior '\|'-field of the block. |
| ConsequenceFilter.PartialNameDoesNotMatch | find_variants_by_gene_and_consequence.py:91 | Gene CR1 does not match a block whose gene field is CR1L, and CR1L does. |
| ConsequenceFilter.Emit | find_variants_by_gene_and_consequence.py:93-102 | Once a block holds a term and a gene token, a line has been written after the step iff one already had been, or DP is at least 6 and the key was untracked. Writing tracks exactly that key and records a hit justified by the block. |
| ConsequenceFilter.TryGenes | find_variants_by_gene_and_consequence.py:90-102 | The gene loop for one block writes a line iff one was already written, or some gene's token is in the block, DP is at least 6 and the key is untracked. |
| ConsequenceFilter.TryTerms | find_variants_by_gene_and_consequence.py:88-102 | The term loop for one block writes a line iff one was already written, or the block holds some term and some gene token together, DP is at least 6 and the key is untracked. |
| ConsequenceFilter.FilterLine | find_variants_by_gene_and_consequence.py:77-102 | A line is written iff it is not a header, FILTER is "PASS", the genotype does not start "0/0", the last CSQT annotation has a block matching a consequence term and a gene token, DP (colon field 3) is at least 6, and its key is not yet tracked. At most one line is written. Its gene and term match one block together, and exactly its key is added to the tracking set. |
| Consequence.FilterVcf | find_variants_by_gene_and_consequence.py:74-102 | Every line written comes from this VCF, is justified and has a fresh key. No key is written twice. The tracking set grows by exactly the written keys. Every qualifying line's key ends up tracked. |
| Consequence.ProcessSample | find_variants_by_gene_and_consequence.py:45-104 | A header row or an id without panels writes nothing and leaves the tracking set unchanged. Otherwise the sample's lines are checked against its own gene set, with the same guarantees as FilterVcf. |
| Consequence.Run | find_variants_by_gene_and_consequence.py:43-104 | Over the whole run no sample-CHROM-POS-REF-ALT key is written twice. Every written line comes from a listed sample's VCF and qualifies against that sample's genes. Every qualifying line of every scanned sample has its key written. |
| Numbers.IntValue | find_variants_by_gene_and_consequence.py:96 | `int()` of an optionally signed digit string. The result is negative only with a '-' sign. |
| SpliceAIIndex.FormatMap | find_variants_by_gene_and_SpliceAI_score.py:26-33 | The keys are exactly the FORMAT names. Each name maps to a position holding that name, and no later position holds it, so a repeated name maps to its last position. |
| SpliceAIIndex.FormatMapDistinct | find_variants_by_gene_and_SpliceAI_score.py:31-32 | A name that occurs once maps to its own position. |
| SpliceAIIndex.MaxScoreIsMaximum | find_variants_by_gene_and_SpliceAI_score.py:61-64 | The running maximum is at least 0 and at least every score, and it equals 0 or one of the scores. |
| SpliceAIIndex.RunningMax | find_variants_by_gene_and_SpliceAI_score.py:61-64 | The score loop computes max(0, s2..s5). The same loop is repeated at lines 77-80. |
| SpliceAIIndex.IndexHoldsLastRetained | find_variants_by_gene_and_SpliceAI_score.py:54-67 | A key is indexed iff some row is retained under it, meaning gene in the set and maximum at least 0.2. The stored row is the last retained row with that key. |
| SpliceAIIndex.IndexKeysPrefixed | find_variants_by_gene_and_SpliceAI_score.py:66 | Every index key starts with "chr". |
| SpliceAIIndex.IndexAppend | find_variants_by_gene_and_SpliceAI_score.py:69-83 | Reading the indel file after the SNV file overrides the SNV entries with the same key and keeps all others. |
| SpliceAIIndex.IndexFile | find_variants_by_gene_and_SpliceAI_score.py:54-67 | The loop over one SpliceAI file updates the index given to it with exactly that file's retained rows. |
| SpliceAIIndex.BuildIndex | find_variants_by_gene_and_SpliceAI_score.py:51-83 | The index from both files equals the index of the SNV rows followed by the indel rows. |
| SpliceAI.ScanVcf | find_variants_by_gene_and_SpliceAI_score.py:94-107 | The VCF loop writes, in line order, the hits of exactly the lines that pass every gate. Each carries the sample id and a line of this VCF. |
| SpliceAI.VcfHitsMembership | find_variants_by_gene_and_SpliceAI_score.py:94-107 | A hit is written for a VCF iff one of its lines yields that hit. |
| SpliceAI.KeysAgree | find_variants_by_gene_and_SpliceAI_score.py:100 | When no key field contains '-', the lookup key equals an index key iff the VCF CHROM is "chr" followed by the reference CHROM and POS, REF and ALT agree. |
| SpliceAI.UnprefixedChromNeverHits | find_variants_by_gene_and_SpliceAI_score.py:100-101 | A line whose CHROM does not start with "chr" is never found in the index. |
| SpliceAI.EmittedIffIndexed | find_variants_by_gene_and_SpliceAI_score.py:97-106 | A line is written iff it is not a header, FILTER is "PASS", the genotype does not start "0/0", a retained reference row has its key, and the FORMAT-located DP is at least 6. The row written beside it is the last such reference row. |
| SpliceAI.RunHitsMembership | find_variants_by_gene_and_SpliceAI_score.py:86-107 | An output line comes from the VCF of a listed, non-header sample whose VCF exists. |
| SpliceAI.Run | find_variants_by_gene_and_SpliceAI_score.py:37-107 | The run's output is, sample by sample, the hits against the index built from the panel genes (no confidence filter), the SNV file and then the indel file. |

## Left out

- Argument parsing, opening and decompressing files, `print` diagnostics for missing panels or VCFs, and writing the output file. Files are sequences of lines and the output is a returned sequence of hits.
- The hard-coded panel and SpliceAI paths (find_variants_by_gene_and_SpliceAI_score.py:38, 48-49) are parameters. The output-file names are not modelled.
- `.strip()`: lines are assumed already trimmed.
- Crashes: `IndexError` on short rows, `KeyError` for a FORMAT without DP, and failing `int()` or `open()`. They are preconditions (`SafeLine`, `SafeVcfLine`, `SafeRows`, `SafeSample`, `AssignmentRows`) that name exactly the inputs on which the scripts would crash. Behaviour after a crash is not modelled.
- SpliceAIIndex.MaxScore: `float()` is the parameter `toReal`, and comparisons are on exact reals. Float rounding, NaN, and `float()` failing on a malformed score are not modelled. The threshold 0.2 is the exact real 0.2, not its binary approximation.
- Numbers.IntValue: surrounding whitespace, which Python 2's `int()` also accepts, is not modelled.
- ConsequenceFilter.FilterLine: Python 2's dict iteration order for the consequence terms and the genes is not modelled. The contract says only that some matching (gene, term) pair is written, not which one.
- Consequence.Run: the run's output is characterised by membership and key uniqueness, not as an exact sequence, since the (gene, term) choice above is unspecified.
