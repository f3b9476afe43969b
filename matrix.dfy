/** Matrix.java: an ordered list of rows that addRow and join grow in place. */
module Matrices {
  import opened Rows

  class Matrix {
    var rows: seq<Row>

    /** Matrix(): no rows yet. */
    constructor ()
      ensures rows == []
    {
      rows := [];
    }

    /** Matrix(List): starts with the given rows. */
    constructor FromRows(rows: seq<Row>)
      ensures this.rows == rows
    {
      this.rows := rows;
    }

    /** Matrix.addRow: the row goes at the end; the earlier rows stay as they were. */
    method AddRow(row: Row)
      modifies this
      ensures rows == old(rows) + [row]
    {
      rows := rows + [row];
    }

    /** Matrix.join: appends the other matrix's rows, in order, one addRow at a
        time; nothing happens when it has none. The other matrix is only read.
        (Joining a matrix to itself would make Java's list iterator fail; the
        program never does it.) */
    method Join(matrix: Matrix)
      requires matrix != this
      modifies this
      ensures rows == old(rows) + matrix.rows
      ensures |matrix.rows| == 0 ==> rows == old(rows)
      ensures matrix.rows == old(matrix.rows)
    {
      if |matrix.rows| > 0 {
        for i := 0 to |matrix.rows|
          invariant rows == old(rows) + matrix.rows[..i]
        {
          AddRow(matrix.rows[i]);
          assert matrix.rows[..i + 1] == matrix.rows[..i] + [matrix.rows[i]];
        }
        assert matrix.rows[..|matrix.rows|] == matrix.rows;
      }
    }
  }

  /** Two joins in a row leave T's rows followed by A's and then B's. */
  method JoinTwice(t: Matrix, a: Matrix, b: Matrix)
    requires t != a && t != b
    modifies t
    ensures t.rows == old(t.rows) + old(a.rows) + old(b.rows)
    ensures a.rows == old(a.rows) && b.rows == old(b.rows)
  {
    t.Join(a);
    t.Join(b);
  }
}
