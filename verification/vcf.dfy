/**
 * What both scripts share about their inputs: files as lines, the tab-separated
 * columns of a VCF line, VCF header lines, and the minimum read depth.
 */
module Vcf {
  import opened Text

  /** Path to lines; a path is present iff `os.path.exists` holds for it. */
  type FileSystem = map<string, seq<string>>

  /** Calls with fewer reads than this are dropped, in both modes. */
  const MinDepth: int := 6

  /** The tab-separated columns of a VCF (or SpliceAI) line. */
  function Columns(line: string): seq<string>
  {
    Split(line, '\t')
  }

  /** Meta-information and column-header lines start with '#'. */
  predicate IsVcfHeader(line: string)
  {
    "#" <= line
  }
}
