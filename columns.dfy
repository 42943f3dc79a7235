/** The five closed-loop rate columns the sensitivity plots read, and the
    real-valued series they form over the years of a run. */
module Columns {
  import opened Wrappers
  import opened Tables

  /** `'pp'`, `'pa'`, `'pc'`, `'abs'` and `'total'` of the closed-loop table. */
  datatype Column = Rate(p: Polymer) | TotalRate

  const AllColumns: seq<Column> := [Rate(PP), Rate(PA), Rate(PC), Rate(ABS), TotalRate]

  /** The rate a closed-loop row holds in a column; `None` where the
      calculation produced no finite number. */
  function Value(row: ClosedLoopYear, col: Column): Option<real> {
    match col
    case Rate(p) => row.rate.Get(p)
    case TotalRate => row.total
  }

  /** Every row of a run has a finite rate in the column. */
  predicate Defined(rows: seq<ClosedLoopYear>, col: Column) {
    forall n | 0 <= n < |rows| :: Value(rows[n], col).Some?
  }

  /** The column as a series, one entry per year. */
  function Series(rows: seq<ClosedLoopYear>, col: Column): (r: seq<real>)
    requires Defined(rows, col)
    ensures |r| == |rows|
    ensures forall n | 0 <= n < |rows| :: Some(r[n]) == Value(rows[n], col)
  {
    seq(|rows|, n requires 0 <= n < |rows| => Value(rows[n], col).value)
  }
}
