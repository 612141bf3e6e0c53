/**
 * The value types the core passes around: proteoforms, variants given by
 * chromosome and base pair, the warnings sent for rejected input rows and
 * the proteoform match policy.
 */
module PapModel {
  import opened Wrappers

  /** A post-translational modification: a type code and an optional site. */
  datatype Ptm = Ptm(typeCode: string, coordinate: Option<int>)

  /** A protein accession with an optional subsequence range and its modifications. */
  datatype Proteoform = Proteoform(
    accession: string,
    startCoordinate: Option<int>,
    endCoordinate: Option<int>,
    ptms: set<Ptm>)

  /** A genetic variant position: chromosome number and base pair. */
  datatype Snp = Snp(chr: int, bp: int)

  /** The warning codes sent for input rows that are skipped. */
  datatype WarningKind = EmptyRow | InvalidRow

  /** A warning as sent to the logger: its code and the row number it reports. */
  datatype Warning = Warning(kind: WarningKind, row: int)

  /** Warnings reported in row order, no row twice. */
  predicate RowsIncrease(ws: seq<Warning>) {
    forall a, b :: 0 <= a < b < |ws| ==> ws[a].row < ws[b].row
  }

  /** The proteoform match policies. */
  datatype MatchType = Exact | One | Superset
}
