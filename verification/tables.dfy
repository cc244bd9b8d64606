/** The pandas data frame of the feature table: named columns over rows of cells. */
module Tables {

  datatype Frame = Frame(columns: seq<string>, rows: seq<seq<real>>)

  /** Every row has one cell per column. */
  predicate WellFormed(t: Frame)
  {
    forall i :: 0 <= i < |t.rows| ==> |t.rows[i]| == |t.columns|
  }

  /** Column `j` read top to bottom. */
  function Column(rows: seq<seq<real>>, j: nat): seq<real>
    requires forall i :: 0 <= i < |rows| ==> j < |rows[i]|
  {
    seq(|rows|, i requires 0 <= i < |rows| => rows[i][j])
  }

  /** `np.column_stack(cols)`: n rows, the j-th cell of row i taken from cols[j][i]. */
  function ColumnStack(cols: seq<seq<real>>, n: nat): (rows: seq<seq<real>>)
    requires forall j :: 0 <= j < |cols| ==> |cols[j]| == n
    ensures |rows| == n && forall i :: 0 <= i < n ==> |rows[i]| == |cols|
    ensures forall i, j :: 0 <= i < n && 0 <= j < |cols| ==> rows[i][j] == cols[j][i]
  {
    seq(n, i requires 0 <= i < n => seq(|cols|, j requires 0 <= j < |cols| => cols[j][i]))
  }

  /** Stacking is undone by reading the columns back: column j of the table is cols[j]. */
  lemma ColumnStackColumns(cols: seq<seq<real>>, n: nat, j: nat)
    requires forall k :: 0 <= k < |cols| ==> |cols[k]| == n
    requires j < |cols|
    ensures Column(ColumnStack(cols, n), j) == cols[j]
  {
  }
}
