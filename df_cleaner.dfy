/** The report-table filter (src/run/3_df_cleaner.py): a row is dropped when any of its cells
    is exactly "Not Found", and the other rows are kept as they are, in order. */
module DfCleaner {
  import opened Text

  /** A row of the table: its cells, `None` for an empty cell (read as NaN). */
  type Row = seq<Option<string>>

  /** `df.eq("Not Found").any(axis=1)` for one row: some cell equals "Not Found" exactly. */
  predicate Flagged(row: Row)
  {
    exists j | 0 <= j < |row| :: row[j] == Some(NotFound)
  }

  /** `not_found_mask`. */
  function Mask(rows: seq<Row>): (m: seq<bool>)
    ensures |m| == |rows| && forall i | 0 <= i < |rows| :: m[i] == Flagged(rows[i])
  {
    seq(|rows|, i requires 0 <= i < |rows| => Flagged(rows[i]))
  }

  /** `df[~mask]`: the rows whose mask entry is false, in order. */
  function Select(rows: seq<Row>, mask: seq<bool>): seq<Row>
    requires |mask| == |rows|
    decreases |rows|
  {
    if rows == [] then []
    else
      var n := |rows| - 1;
      Select(rows[..n], mask[..n]) + (if mask[n] then [] else [rows[n]])
  }

  /** `filtered_df`. */
  function Filtered(rows: seq<Row>): seq<Row>
  {
    Select(rows, Mask(rows))
  }

  /** The number of `True` entries of a mask (`mask.sum()`). */
  function Count(mask: seq<bool>): nat
    decreases |mask|
  {
    if mask == [] then 0 else Count(mask[..|mask| - 1]) + (if mask[|mask| - 1] then 1 else 0)
  }

  /** A row is kept exactly when it has no "Not Found" cell: every kept row is a row of the
      table without one, and every such row is kept. */
  lemma {:induction false} SelectSpec(rows: seq<Row>, mask: seq<bool>)
    requires |mask| == |rows|
    ensures forall r :: r in Select(rows, mask) <==> exists i | 0 <= i < |rows| :: rows[i] == r && !mask[i]
    decreases |rows|
  {
    if rows != [] {
      var n := |rows| - 1;
      SelectSpec(rows[..n], mask[..n]);
      assert forall i | 0 <= i < n :: rows[..n][i] == rows[i] && mask[..n][i] == mask[i];
    }
  }

  /** No kept row has a "Not Found" cell, and a row without one is kept. */
  lemma FilteredSpec(rows: seq<Row>)
    ensures forall r | r in Filtered(rows) :: !Flagged(r)
    ensures forall i | 0 <= i < |rows| :: !Flagged(rows[i]) ==> rows[i] in Filtered(rows)
    ensures forall i | 0 <= i < |rows| :: rows[i] !in Filtered(rows) ==> Flagged(rows[i])
  {
    SelectSpec(rows, Mask(rows));
  }

  /** Filtering the rows of two tables one after the other is filtering each: the kept rows
      stay in their order. */
  lemma {:induction false} FilteredAppend(a: seq<Row>, b: seq<Row>)
    ensures Filtered(a + b) == Filtered(a) + Filtered(b)
    decreases |b|
  {
    if b == [] {
      assert a + b == a;
    } else {
      var n := |b| - 1;
      FilteredAppend(a, b[..n]);
      assert (a + b)[..|a| + n] == a + b[..n];
      assert Mask(a + b)[..|a| + n] == Mask(a + b[..n]);
      assert Mask(b)[..n] == Mask(b[..n]);
      assert (a + b)[|a| + n] == b[n];
    }
  }

  /** The remaining count is the total less the flagged rows. */
  lemma {:induction false} SelectCount(rows: seq<Row>, mask: seq<bool>)
    requires |mask| == |rows|
    ensures |Select(rows, mask)| == |rows| - Count(mask)
    decreases |rows|
  {
    if rows != [] {
      var n := |rows| - 1;
      SelectCount(rows[..n], mask[..n]);
    }
  }

  /** `remaining_rows_count`: the rows less those with a "Not Found" cell. */
  lemma FilteredCount(rows: seq<Row>)
    ensures |Filtered(rows)| == |rows| - Count(Mask(rows))
  {
    SelectCount(rows, Mask(rows));
  }
}
