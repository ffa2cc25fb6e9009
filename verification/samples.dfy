/**
 * The samples file both scripts walk: one tab-separated row per participant,
 * "participant id <TAB> VCF path", with an optional header row starting "Participant".
 */
module Samples {
  import opened Text

  predicate IsSamplesHeader(row: string)
  {
    "Participant" <= row
  }

  /** Rows the scripts can read without failing: the header, or a row with both columns. */
  predicate WellFormed(row: string)
  {
    IsSamplesHeader(row) || |Split(row, '\t')| >= 2
  }

  function Id(row: string): string
  {
    Split(row, '\t')[0]
  }

  function VcfPath(row: string): string
    requires |Split(row, '\t')| >= 2
  {
    Split(row, '\t')[1]
  }
}
