/**
 The outer loop of D3DXMatrixInverse (WebAssembly/shims/D3DX8Math.h) on the
 left half of the augmented array alone.
 */
module MatrixElimination {
  import opened Common
  import opened Matrix

  const TOLERANCE: real := 0.00000001

  /** The first index from `first` on, and before `upTo`, with the largest absolute value. */
  function LargestEntry(v: Vector, first: nat, upTo: nat): (row: nat)
    requires first < upTo <= 4
    ensures first <= row < upTo
    ensures forall r :: first <= r < upTo ==> Abs(v.Get(r)) <= Abs(v.Get(row))
    ensures forall r :: first <= r < row ==> Abs(v.Get(r)) < Abs(v.Get(row))
    decreases upTo
  {
    if upTo == first + 1 then first
    else
      var before := LargestEntry(v, first, upTo - 1);
      if Abs(v.Get(upTo - 1)) > Abs(v.Get(before)) then upTo - 1 else before
  }

  /** The row that pivot search chooses: the first of the largest candidates at or below the diagonal. */
  function Largest(left: Matrix4, column: nat): nat
    requires column < 4
  {
    LargestEntry(left.Column(column), column, 4)
  }

  /** The first `rows` rows cleared of `column`, except the pivot row. */
  function Cleared(left: Matrix4, column: nat, rows: nat): Matrix4
    requires column < 4 && rows <= 4
  {
    if rows == 0 then left
    else
      var before := Cleared(left, column, rows - 1);
      if rows - 1 == column then before else SubtractRow(before, rows - 1, before.Row(rows - 1).Get(column), column)
  }

  function BroughtUp(left: Matrix4, column: nat, pivotRow: nat): Matrix4
    requires column < 4 && pivotRow < 4
  {
    if pivotRow == column then left else Swap(left, column, pivotRow)
  }

  /** One turn of the outer loop. */
  function Eliminated(left: Matrix4, column: nat, pivotRow: nat): Matrix4
    requires column < 4 && pivotRow < 4
  {
    var up := BroughtUp(left, column, pivotRow);
    var pivot := up.Row(column).Get(column);
    if pivot == 0.0 then up else Cleared(DivideRow(up, column, pivot), column, 4)
  }

  /** The left half after `columns` turns, with the largest pivots; None once no candidate exceeds the tolerance. */
  function Reduction(matrix: Matrix4, columns: nat): Option<Matrix4>
    requires columns <= 4
  {
    if columns == 0 then Some(matrix)
    else
      match Reduction(matrix, columns - 1)
      case None => None
      case Some(left) =>
        var row := Largest(left, columns - 1);
        if Abs(left.Row(row).Get(columns - 1)) <= TOLERANCE then None else Some(Eliminated(left, columns - 1, row))
  }

  lemma {:induction false} StuckForGood(matrix: Matrix4, few: nat, many: nat)
    requires few <= many <= 4 && Reduction(matrix, few).None?
    ensures Reduction(matrix, many).None?
  {
    if few < many {
      StuckForGood(matrix, few, many - 1);
    }
  }

  // ----- The columns that are done

  /** The columns before `column` are already those of the identity. */
  ghost predicate ReducedBefore(left: Matrix4, column: nat) {
    forall r, c :: 0 <= r < 4 && 0 <= c < column && c < 4 ==> left.Row(r).Get(c) == (if r == c then 1.0 else 0.0)
  }

  lemma IsIdentity(left: Matrix4)
    requires ReducedBefore(left, 4)
    ensures left == IDENTITY
  {
    assert left.Row(0).Get(0) == 1.0 && left.Row(0).Get(1) == left.Row(0).Get(2) == left.Row(0).Get(3) == 0.0;
    assert left.Row(1).Get(1) == 1.0 && left.Row(1).Get(0) == left.Row(1).Get(2) == left.Row(1).Get(3) == 0.0;
    assert left.Row(2).Get(2) == 1.0 && left.Row(2).Get(0) == left.Row(2).Get(1) == left.Row(2).Get(3) == 0.0;
    assert left.Row(3).Get(3) == 1.0 && left.Row(3).Get(0) == left.Row(3).Get(1) == left.Row(3).Get(2) == 0.0;
  }

  lemma SwapKeepsReduced(left: Matrix4, column: nat, pivotRow: nat)
    requires ReducedBefore(left, column) && column <= pivotRow < 4
    ensures ReducedBefore(Swap(left, column, pivotRow), column)
  {
    var swapped := Swap(left, column, pivotRow);
    forall r, c | 0 <= r < 4 && 0 <= c < column && c < 4
      ensures swapped.Row(r).Get(c) == (if r == c then 1.0 else 0.0)
    {
      var from := if r == column then pivotRow else if r == pivotRow then column else r;
      assert swapped.Row(r) == left.Row(from);
    }
  }

  lemma DivisionKeepsReduced(left: Matrix4, column: nat)
    requires ReducedBefore(left, column) && column < 4 && left.Row(column).Get(column) != 0.0
    ensures ReducedBefore(DivideRow(left, column, left.Row(column).Get(column)), column)
    ensures DivideRow(left, column, left.Row(column).Get(column)).Row(column).Get(column) == 1.0
  {
    var p := left.Row(column).Get(column);
    var divided := DivideRow(left, column, p);
    forall r, c | 0 <= r < 4 && 0 <= c < column && c < 4
      ensures divided.Row(r).Get(c) == (if r == c then 1.0 else 0.0)
    {
      if r == column {
        assert left.Row(r).Get(c) == 0.0;
        EntryOfDivided(left.Row(r), p, c);
      } else {
        assert divided.Row(r) == left.Row(r);
      }
    }
    EntryOfDivided(left.Row(column), p, column);
  }

  lemma EntryOfDivided(v: Vector, p: real, c: nat)
    requires p != 0.0 && c < 4
    ensures Divided(v, p).Get(c) == v.Get(c) / p
  {
  }

  /** Column `column` is cleared in the rows before `row`, except on the diagonal. */
  ghost predicate Clearing(left: Matrix4, column: nat, row: nat) {
    && column < 4 && ReducedBefore(left, column) && left.Row(column).Get(column) == 1.0
    && forall r :: 0 <= r < row && r < 4 && r != column ==> left.Row(r).Get(column) == 0.0
  }

  lemma SubtractionClears(left: Matrix4, column: nat, row: nat)
    requires Clearing(left, column, row) && row < 4 && row != column
    ensures Clearing(SubtractRow(left, row, left.Row(row).Get(column), column), column, row + 1)
  {
    var factor, reduced := left.Row(row).Get(column), SubtractRow(left, row, left.Row(row).Get(column), column);
    forall c | 0 <= c <= column
      ensures reduced.Row(row).Get(c) == left.Row(row).Get(c) - factor * left.Row(column).Get(c)
    {
      EntryOfMinus(left.Row(row), factor, left.Row(column), c);
    }
    forall r | 0 <= r < 4 && r != row ensures reduced.Row(r) == left.Row(r) {}
  }

  lemma ClearedIsReduced(left: Matrix4, column: nat)
    requires Clearing(left, column, 4)
    ensures ReducedBefore(left, column + 1)
  {
  }

  lemma {:induction false} ClearedIsClearing(left: Matrix4, column: nat, rows: nat)
    requires column < 4 && rows <= 4 && Clearing(left, column, 0)
    ensures Clearing(Cleared(left, column, rows), column, rows)
  {
    hide Clearing;
    if rows > 0 {
      ClearedIsClearing(left, column, rows - 1);
      var before := Cleared(left, column, rows - 1);
      if rows - 1 == column {
        ClearingPassesPivot(before, column);
      } else {
        SubtractionClears(before, column, rows - 1);
      }
    }
  }

  lemma ClearingPassesPivot(left: Matrix4, column: nat)
    requires Clearing(left, column, column)
    ensures Clearing(left, column, column + 1)
  {
  }

  lemma RowOfBroughtUp(left: Matrix4, column: nat, pivotRow: nat, r: nat)
    requires column < 4 && pivotRow < 4 && r < 4
    ensures BroughtUp(left, column, pivotRow).Row(r)
            == left.Row(if r == column then pivotRow else if r == pivotRow then column else r)
  {
  }

  /** What clearing a column makes of each row. */
  lemma {:induction false} RowOfCleared(left: Matrix4, column: nat, rows: nat, r: nat)
    requires column < 4 && rows <= 4 && r < 4
    ensures Cleared(left, column, rows).Row(r)
            == if r < rows && r != column then Minus(left.Row(r), left.Row(r).Get(column), left.Row(column))
                else left.Row(r)
  {
    hide Minus;
    if rows > 0 {
      RowOfCleared(left, column, rows - 1, r);
      RowOfCleared(left, column, rows - 1, rows - 1);
      RowOfCleared(left, column, rows - 1, column);
    }
  }

  lemma EliminatedIsReduced(left: Matrix4, column: nat, pivotRow: nat)
    requires column <= pivotRow < 4 && ReducedBefore(left, column) && left.Row(pivotRow).Get(column) != 0.0
    ensures ReducedBefore(Eliminated(left, column, pivotRow), column + 1)
  {
    hide ReducedBefore, Cleared, Swap, DivideRow;
    var up := BroughtUp(left, column, pivotRow);
    RowOfBroughtUp(left, column, pivotRow, column);
    if pivotRow != column {
      SwapKeepsReduced(left, column, pivotRow);
    }
    DivisionKeepsReduced(up, column);
    var divided := DivideRow(up, column, up.Row(column).Get(column));
    ClearedIsClearing(divided, column, 4);
    ClearedIsReduced(Cleared(divided, column, 4), column);
  }

  lemma LargestPivot(left: Matrix4, column: nat)
    requires column < 4 && Abs(left.Row(Largest(left, column)).Get(column)) > TOLERANCE
    ensures column <= Largest(left, column) < 4 && left.Row(Largest(left, column)).Get(column) != 0.0
    ensures forall r :: column <= r < 4 ==>
              Abs(left.Row(r).Get(column)) <= Abs(left.Row(Largest(left, column)).Get(column))
  {
    ColumnEntries(left, column);
  }

  lemma ColumnEntries(left: Matrix4, column: nat)
    requires column < 4
    ensures forall r :: 0 <= r < 4 ==> left.Column(column).Get(r) == left.Row(r).Get(column)
  {
  }
}
