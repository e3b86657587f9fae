/** The column store the feature pipeline works on: a pandas DataFrame reduced
    to named numeric columns of equal length, with missing values as `None`. */
module Tables {
  import opened Wrappers

  type Column = seq<Option<real>>

  datatype Table = Table(rows: nat, cols: map<string, Column>)

  /** Every column has one value per row. */
  predicate Valid(t: Table) {
    forall k | k in t.cols :: |t.cols[k]| == t.rows
  }

  /** `df[name] = col`: adds the column or replaces the one of that name. */
  function AddColumn(t: Table, name: string, col: Column): (r: Table)
    requires Valid(t) && |col| == t.rows
    ensures Valid(r) && r.rows == t.rows
    ensures name in r.cols && r.cols[name] == col
    ensures forall k | k != name :: (k in r.cols <==> k in t.cols)
    ensures forall k | k != name && k in t.cols :: r.cols[k] == t.cols[k]
  {
    Table(t.rows, t.cols[name := col])
  }
}
