/**
 D3DXMatrixInverse (WebAssembly/shims/D3DX8Math.h): Gauss-Jordan elimination
 in place on the augmented array.
 */
module MatrixInversion {
  import opened Common
  import opened Matrix
  import opened MatrixElimination
  import opened MatrixPivots

  // ----- What the augmented array means

  /**
   The augmented array [left | right] is reached from [matrix | identity] by
   row operations; `undo` is the product of their inverses and `scale` is what
   they divided the determinant by.
   */
  ghost predicate Reached(matrix: Matrix4, left: Matrix4, right: Matrix4, undo: Matrix4, scale: real) {
    && left == Product(right, matrix)
    && matrix == Product(undo, left)
    && IDENTITY == Product(undo, right)
    && DeterminantIs(left, scale, Determinant(matrix))
  }

  ghost predicate DeterminantIs(left: Matrix4, scale: real, total: real) {
    Determinant(left) * scale == total
  }

  lemma ReachedAtStart(matrix: Matrix4)
    ensures Reached(matrix, matrix, IDENTITY, IDENTITY, 1.0)
  {
    TimesIdentity(matrix);
    TimesIdentity(IDENTITY);
  }

  lemma TimesIdentity(m: Matrix4)
    ensures Product(IDENTITY, m) == m && Product(m, IDENTITY) == m
  {
  }

  /** At the end the right half is a two-sided inverse and `scale` is the determinant. */
  lemma ReachedAtEnd(matrix: Matrix4, left: Matrix4, right: Matrix4, undo: Matrix4, scale: real)
    requires Reached(matrix, left, right, undo, scale) && ReducedBefore(left, 4)
    ensures Product(right, matrix) == IDENTITY && Product(matrix, right) == IDENTITY
    ensures Determinant(matrix) == scale
  {
    IsIdentity(left);
    TimesIdentity(undo);
    DeterminantOfIdentity();
  }

  /** A factor taken out of the determinant is put into the scale. */
  lemma Rescale(before: Matrix4, after: Matrix4, k: real, scale: real, p: real, total: real)
    requires DeterminantIs(before, scale, total) && Determinant(after) == k * Determinant(before) && k * p == 1.0
    ensures DeterminantIs(after, scale * p, total)
  {
  }

  lemma NegatedDeterminant(before: Matrix4, after: Matrix4, scale: real, total: real)
    requires DeterminantIs(before, scale, total) && Determinant(after) == -Determinant(before)
    ensures DeterminantIs(after, scale * -1.0, total)
  {
  }

  lemma SameDeterminant(before: Matrix4, after: Matrix4, scale: real, total: real)
    requires DeterminantIs(before, scale, total) && Determinant(after) == Determinant(before)
    ensures DeterminantIs(after, scale, total)
  {
  }

  // Row operations on `left` and `right`, undone by column operations on `undo`.

  function SwapEntries(v: Vector, i: nat, j: nat): Vector
    requires i < 4 && j < 4
  {
    v.Put(i, v.Get(j)).Put(j, v.Get(i))
  }

  function SwapColumns(m: Matrix4, i: nat, j: nat): Matrix4
    requires i < 4 && j < 4
  {
    Rows(SwapEntries(m.r0, i, j), SwapEntries(m.r1, i, j), SwapEntries(m.r2, i, j), SwapEntries(m.r3, i, j))
  }

  lemma RowTimesSwap(u: Vector, m: Matrix4, i: nat, j: nat)
    requires i < 4 && j < 4
    ensures RowTimes(SwapEntries(u, i, j), Swap(m, i, j)) == RowTimes(u, m)
  {
    forall c: nat | c < 4
      ensures Dot(SwapEntries(u, i, j), Swap(m, i, j).Column(c)) == Dot(u, m.Column(c))
    {
      assert Swap(m, i, j).Column(c) == SwapEntries(m.Column(c), i, j);
      DotOfSwapped(u, m.Column(c), i, j);
    }
  }

  lemma DotOfSwapped(u: Vector, v: Vector, i: nat, j: nat)
    requires i < 4 && j < 4
    ensures Dot(SwapEntries(u, i, j), SwapEntries(v, i, j)) == Dot(u, v)
  {
  }

  lemma ReachedAfterSwap(matrix: Matrix4, left: Matrix4, right: Matrix4, undo: Matrix4, scale: real, i: nat, j: nat)
    requires Reached(matrix, left, right, undo, scale) && i < 4 && j < 4 && i != j
    ensures Reached(matrix, Swap(left, i, j), Swap(right, i, j), SwapColumns(undo, i, j), scale * -1.0)
  {
    ProductUndoesSwap(undo, left, i, j);
    ProductUndoesSwap(undo, right, i, j);
    DeterminantOfSwap(left, i, j);
    assert Swap(left, i, j) == Product(Swap(right, i, j), matrix);
    NegatedDeterminant(left, Swap(left, i, j), scale, Determinant(matrix));
  }

  lemma ProductUndoesSwap(undo: Matrix4, m: Matrix4, i: nat, j: nat)
    requires i < 4 && j < 4
    ensures Product(SwapColumns(undo, i, j), Swap(m, i, j)) == Product(undo, m)
  {
    RowTimesSwap(undo.r0, m, i, j);
    RowTimesSwap(undo.r1, m, i, j);
    RowTimesSwap(undo.r2, m, i, j);
    RowTimesSwap(undo.r3, m, i, j);
  }

  function ScaleEntry(v: Vector, i: nat, p: real): Vector
    requires i < 4
  {
    v.Put(i, v.Get(i) * p)
  }

  function ScaleColumn(m: Matrix4, i: nat, p: real): Matrix4
    requires i < 4
  {
    Rows(ScaleEntry(m.r0, i, p), ScaleEntry(m.r1, i, p), ScaleEntry(m.r2, i, p), ScaleEntry(m.r3, i, p))
  }

  lemma RowTimesScaled(u: Vector, k: real, m: Matrix4)
    ensures RowTimes(Scaled(u, k), m) == Scaled(RowTimes(u, m), k)
  {
    hide Dot;
    DotOfScaled(u, k, m.Column(0));
    DotOfScaled(u, k, m.Column(1));
    DotOfScaled(u, k, m.Column(2));
    DotOfScaled(u, k, m.Column(3));
  }

  lemma DotOfScaled(u: Vector, k: real, v: Vector)
    ensures Dot(Scaled(u, k), v) == Dot(u, v) * k
  {
    Reassociate(u.x0, k, v.x0);
    Reassociate(u.x1, k, v.x1);
    Reassociate(u.x2, k, v.x2);
    Reassociate(u.x3, k, v.x3);
    FactorOut(k, u.x0 * v.x0, u.x1 * v.x1, u.x2 * v.x2, u.x3 * v.x3);
  }

  lemma Reassociate(x: real, k: real, y: real)
    ensures x * k * y == x * y * k
  {
  }

  lemma FactorOut(k: real, a: real, b: real, c: real, d: real)
    ensures a * k + b * k + c * k + d * k == (a + b + c + d) * k
  {
  }

  lemma Cancel(x: real, y: real, p: real, q: real)
    requires p * q == 1.0
    ensures x * p * (y * q) == x * y
  {
    assert x * p * (y * q) == x * y * (p * q);
  }

  lemma DotOfScaledEntries(u: Vector, v: Vector, i: nat, p: real, q: real)
    requires i < 4 && p * q == 1.0
    ensures Dot(ScaleEntry(u, i, p), ScaleEntry(v, i, q)) == Dot(u, v)
  {
    Cancel(u.Get(i), v.Get(i), p, q);
  }

  lemma ColumnsOfScaledRow(m: Matrix4, i: nat, q: real)
    requires i < 4
    ensures var n := m.WithRow(i, Scaled(m.Row(i), q));
            && n.Column(0) == ScaleEntry(m.Column(0), i, q) && n.Column(1) == ScaleEntry(m.Column(1), i, q)
            && n.Column(2) == ScaleEntry(m.Column(2), i, q) && n.Column(3) == ScaleEntry(m.Column(3), i, q)
  {
  }

  lemma RowTimesScaledEntry(u: Vector, m: Matrix4, i: nat, p: real, q: real)
    requires i < 4 && p * q == 1.0
    ensures RowTimes(ScaleEntry(u, i, p), m.WithRow(i, Scaled(m.Row(i), q))) == RowTimes(u, m)
  {
    hide Dot, ScaleEntry;
    ColumnsOfScaledRow(m, i, q);
    DotOfScaledEntries(u, m.Column(0), i, p, q);
    DotOfScaledEntries(u, m.Column(1), i, p, q);
    DotOfScaledEntries(u, m.Column(2), i, p, q);
    DotOfScaledEntries(u, m.Column(3), i, p, q);
  }

  lemma ReachedAfterDivision(matrix: Matrix4, left: Matrix4, right: Matrix4, undo: Matrix4, scale: real, i: nat,
                             p: real)
    requires Reached(matrix, left, right, undo, scale) && i < 4 && p != 0.0
    ensures Reached(matrix, DivideRow(left, i, p), DivideRow(right, i, p), ScaleColumn(undo, i, p), scale * p)
  {
    var q := 1.0 / p;
    assert q * p == 1.0;
    DivisionIsScaling(left.Row(i), p);
    DivisionIsScaling(right.Row(i), p);
    ProductUndoesScaling(undo, left, i, p, q);
    ProductUndoesScaling(undo, right, i, p, q);
    RowTimesScaled(right.Row(i), q, matrix);
    DeterminantOfScaledRow(left, i, q);
    Rescale(left, left.WithRow(i, Scaled(left.Row(i), q)), q, scale, p, Determinant(matrix));
  }

  lemma ProductUndoesScaling(undo: Matrix4, m: Matrix4, i: nat, p: real, q: real)
    requires i < 4 && p * q == 1.0
    ensures Product(ScaleColumn(undo, i, p), m.WithRow(i, Scaled(m.Row(i), q))) == Product(undo, m)
  {
    RowTimesScaledEntry(undo.r0, m, i, p, q);
    RowTimesScaledEntry(undo.r1, m, i, p, q);
    RowTimesScaledEntry(undo.r2, m, i, p, q);
    RowTimesScaledEntry(undo.r3, m, i, p, q);
  }

  /** Adds `k` times entry `i` to entry `j`. */
  function AddEntry(v: Vector, i: nat, k: real, j: nat): Vector
    requires i < 4 && j < 4
  {
    v.Put(j, v.Get(j) + k * v.Get(i))
  }

  function AddColumn(m: Matrix4, i: nat, k: real, j: nat): Matrix4
    requires i < 4 && j < 4
  {
    Rows(AddEntry(m.r0, i, k, j), AddEntry(m.r1, i, k, j), AddEntry(m.r2, i, k, j), AddEntry(m.r3, i, k, j))
  }

  function SubtractEntry(v: Vector, i: nat, k: real, j: nat): Vector
    requires i < 4 && j < 4
  {
    v.Put(i, Reduced(v.Get(i), k, v.Get(j)))
  }

  lemma DotOfSubtraction(u: Vector, v: Vector, i: nat, k: real, j: nat)
    requires i < 4 && j < 4 && i != j
    ensures Dot(AddEntry(u, i, k, j), SubtractEntry(v, i, k, j)) == Dot(u, v)
  {
  }

  lemma RowTimesSubtraction(u: Vector, m: Matrix4, i: nat, k: real, j: nat)
    requires i < 4 && j < 4 && i != j
    ensures RowTimes(AddEntry(u, i, k, j), SubtractRow(m, i, k, j)) == RowTimes(u, m)
  {
    hide Dot;
    ColumnsOfSubtraction(m, i, k, j);
    DotOfSubtraction(u, m.Column(0), i, k, j);
    DotOfSubtraction(u, m.Column(1), i, k, j);
    DotOfSubtraction(u, m.Column(2), i, k, j);
    DotOfSubtraction(u, m.Column(3), i, k, j);
  }

  lemma ColumnsOfSubtraction(m: Matrix4, i: nat, k: real, j: nat)
    requires i < 4 && j < 4 && i != j
    ensures var n := SubtractRow(m, i, k, j);
            && n.Column(0) == SubtractEntry(m.Column(0), i, k, j) && n.Column(1) == SubtractEntry(m.Column(1), i, k, j)
            && n.Column(2) == SubtractEntry(m.Column(2), i, k, j) && n.Column(3) == SubtractEntry(m.Column(3), i, k, j)
  {
    hide Reduced;
  }

  lemma DotOfDifference(u: Vector, k: real, w: Vector, v: Vector)
    ensures Dot(Minus(u, k, w), v) == Reduced(Dot(u, v), k, Dot(w, v))
  {
    DifferenceTimes(u.x0, k, w.x0, v.x0);
    DifferenceTimes(u.x1, k, w.x1, v.x1);
    DifferenceTimes(u.x2, k, w.x2, v.x2);
    DifferenceTimes(u.x3, k, w.x3, v.x3);
    var a, b, c, d := w.x0 * v.x0, w.x1 * v.x1, w.x2 * v.x2, w.x3 * v.x3;
    assert k * (a + b + c + d) == k * a + k * b + k * c + k * d;
  }

  lemma DifferenceTimes(x: real, k: real, y: real, z: real)
    ensures (x - k * y) * z == x * z - k * (y * z)
  {
  }

  lemma RowTimesDifference(u: Vector, k: real, w: Vector, m: Matrix4)
    ensures RowTimes(Minus(u, k, w), m) == Minus(RowTimes(u, m), k, RowTimes(w, m))
  {
    hide Dot, Reduced;
    DotOfDifference(u, k, w, m.Column(0));
    DotOfDifference(u, k, w, m.Column(1));
    DotOfDifference(u, k, w, m.Column(2));
    DotOfDifference(u, k, w, m.Column(3));
  }

  lemma ReachedAfterSubtraction(matrix: Matrix4, left: Matrix4, right: Matrix4, undo: Matrix4, scale: real,
                                i: nat, k: real, j: nat)
    requires Reached(matrix, left, right, undo, scale) && i < 4 && j < 4 && i != j
    ensures Reached(matrix, SubtractRow(left, i, k, j), SubtractRow(right, i, k, j), AddColumn(undo, i, k, j), scale)
  {
    ProductUndoesSubtraction(undo, left, i, k, j);
    ProductUndoesSubtraction(undo, right, i, k, j);
    RowTimesDifference(right.Row(i), k, right.Row(j), matrix);
    DeterminantOfSubtraction(left, i, k, j);
    SameDeterminant(left, SubtractRow(left, i, k, j), scale, Determinant(matrix));
  }

  lemma ProductUndoesSubtraction(undo: Matrix4, m: Matrix4, i: nat, k: real, j: nat)
    requires i < 4 && j < 4 && i != j
    ensures Product(AddColumn(undo, i, k, j), SubtractRow(m, i, k, j)) == Product(undo, m)
  {
    RowTimesSubtraction(undo.r0, m, i, k, j);
    RowTimesSubtraction(undo.r1, m, i, k, j);
    RowTimesSubtraction(undo.r2, m, i, k, j);
    RowTimesSubtraction(undo.r3, m, i, k, j);
  }

  // ----- The augmented array and the algorithm

  ghost predicate Shape(a: array2<real>) {
    a.Length0 == 4 && a.Length1 == 8
  }

  function HalfRow(a: array2<real>, r: nat, base: nat): Vector
    requires Shape(a) && r < 4 && base <= 4
    reads a
  {
    Vector(a[r, base], a[r, base + 1], a[r, base + 2], a[r, base + 3])
  }

  function Left(a: array2<real>): Matrix4
    requires Shape(a)
    reads a
  {
    Rows(HalfRow(a, 0, 0), HalfRow(a, 1, 0), HalfRow(a, 2, 0), HalfRow(a, 3, 0))
  }

  function Right(a: array2<real>): Matrix4
    requires Shape(a)
    reads a
  {
    Rows(HalfRow(a, 0, 4), HalfRow(a, 1, 4), HalfRow(a, 2, 4), HalfRow(a, 3, 4))
  }

  /** The initialisation loops: the matrix beside the identity. */
  method Augment(matrix: Matrix4) returns (a: array2<real>)
    ensures fresh(a) && Shape(a) && Left(a) == matrix && Right(a) == IDENTITY
  {
    a := new real[4, 8]((i, j) => 0.0);
    for row := 0 to 4
      invariant forall r, c :: 0 <= r < row && 0 <= c < 4 ==> a[r, c] == matrix.Row(r).Get(c)
      invariant forall r, c :: 0 <= r < 4 && 4 <= c < 8 ==> a[r, c] == (if r < row && c == 4 + r then 1.0 else 0.0)
    {
      for column := 0 to 4
        invariant forall r, c :: 0 <= r < row && 0 <= c < 4 ==> a[r, c] == matrix.Row(r).Get(c)
        invariant forall c :: 0 <= c < column ==> a[row, c] == matrix.Row(row).Get(c)
        invariant forall r, c :: 0 <= r < 4 && 4 <= c < 8 ==> a[r, c] == (if r < row && c == 4 + r then 1.0 else 0.0)
      {
        a[row, column] := matrix.Row(row).Get(column);
      }
      a[row, 4 + row] := 1.0;
    }
  }

  /** Finds the largest candidate at or below the diagonal. */
  method FindPivot(a: array2<real>, column: nat) returns (pivotRow: nat, pivotAbs: real)
    requires Shape(a) && column < 4
    ensures pivotRow == Largest(Left(a), column) && pivotAbs == Abs(a[pivotRow, column])
  {
    hide Left;
    ghost var candidates := Left(a).Column(column);
    CandidatesOf(a, column);
    pivotRow := column;
    pivotAbs := Abs(a[column, column]);
    for row := column + 1 to 4
      invariant pivotRow == LargestEntry(candidates, column, row) && pivotAbs == Abs(a[pivotRow, column])
    {
      var candidateAbs := Abs(a[row, column]);
      if candidateAbs > pivotAbs {
        pivotAbs := candidateAbs;
        pivotRow := row;
      }
    }
  }

  method SwapRows(a: array2<real>, i: nat, j: nat)
    requires Shape(a) && i < 4 && j < 4 && i != j
    modifies a
    ensures Left(a) == Swap(old(Left(a)), i, j) && Right(a) == Swap(old(Right(a)), i, j)
  {
    for index := 0 to 8
      invariant forall r, c :: 0 <= r < 4 && 0 <= c < 8 ==>
                  a[r, c] == old(a[if c < index && r == i then j else if c < index && r == j then i else r, c])
    {
      var temp := a[i, index];
      a[i, index] := a[j, index];
      a[j, index] := temp;
    }
  }

  method DivideRowBy(a: array2<real>, i: nat, p: real)
    requires Shape(a) && i < 4 && p != 0.0
    modifies a
    ensures Left(a) == DivideRow(old(Left(a)), i, p) && Right(a) == DivideRow(old(Right(a)), i, p)
  {
    for index := 0 to 8
      invariant forall r, c :: 0 <= r < 4 && 0 <= c < 8 ==>
                  a[r, c] == if r == i && c < index then old(a[r, c]) / p else old(a[r, c])
    {
      a[i, index] := a[i, index] / p;
    }
  }

  method SubtractRowFrom(a: array2<real>, i: nat, factor: real, j: nat)
    requires Shape(a) && i < 4 && j < 4 && i != j
    modifies a
    ensures Left(a) == SubtractRow(old(Left(a)), i, factor, j) && Right(a) == SubtractRow(old(Right(a)), i, factor, j)
  {
    for index := 0 to 8
      invariant forall r, c :: 0 <= r < 4 && 0 <= c < 8 && r != i ==> a[r, c] == old(a[r, c])
      invariant forall c :: 0 <= c < index ==> a[i, c] == Reduced(old(a[i, c]), factor, old(a[j, c]))
      invariant forall c :: index <= c < 8 ==> a[i, c] == old(a[i, c])
    {
      a[i, index] := Reduced(a[i, index], factor, a[j, index]);
    }
    assert HalfRow(a, i, 0) == Minus(old(HalfRow(a, i, 0)), factor, old(HalfRow(a, j, 0)));
    assert HalfRow(a, i, 4) == Minus(old(HalfRow(a, i, 4)), factor, old(HalfRow(a, j, 4)));
  }

  /** Clears `column` in every row but the pivot row. */
  method ClearColumn(a: array2<real>, column: nat, ghost matrix: Matrix4, ghost undo: Matrix4, ghost scale: real)
    returns (ghost undone: Matrix4)
    requires Shape(a) && Clearing(Left(a), column, 0)
    requires Reached(matrix, Left(a), Right(a), undo, scale)
    modifies a
    ensures ReducedBefore(Left(a), column + 1) && Left(a) == Cleared(old(Left(a)), column, 4)
    ensures Reached(matrix, Left(a), Right(a), undone, scale)
  {
    undone := undo;
    for row := 0 to 4
      invariant Clearing(Left(a), column, row) && Left(a) == Cleared(old(Left(a)), column, row)
      invariant Reached(matrix, Left(a), Right(a), undone, scale)
    {
      if row == column {
        continue;
      }
      var factor := a[row, column];
      assert factor == Left(a).Row(row).Get(column);
      SubtractionClears(Left(a), column, row);
      ReachedAfterSubtraction(matrix, Left(a), Right(a), undone, scale, row, factor, column);
      undone := AddColumn(undone, row, factor, column);
      SubtractRowFrom(a, row, factor, column);
    }
    ClearedIsReduced(Left(a), column);
  }

  /** The body of the outer loop once a pivot above the tolerance is found. */
  method EliminateColumn(a: array2<real>, column: nat, pivotRow: nat, det: real, sign: real,
                         ghost matrix: Matrix4, ghost undo: Matrix4, ghost scale: real)
    returns (newDet: real, newSign: real, ghost undone: Matrix4, ghost newScale: real)
    requires Shape(a) && column <= pivotRow < 4 && Left(a).Row(pivotRow).Get(column) != 0.0
    requires ReducedBefore(Left(a), column) && scale == det * sign && scale != 0.0
    requires Reached(matrix, Left(a), Right(a), undo, scale)
    modifies a
    ensures ReducedBefore(Left(a), column + 1) && newScale == newDet * newSign && newScale != 0.0
    ensures Left(a) == Eliminated(old(Left(a)), column, pivotRow)
    ensures Reached(matrix, Left(a), Right(a), undone, newScale)
  {
    hide Reached, Determinant, Product, Cleared;
    newSign, undone, newScale := sign, undo, scale;
    if pivotRow != column {
      undone := BringUpPivot(a, column, pivotRow, matrix, undo, scale);
      FlipSign(scale, det, sign);
      newSign, newScale := -sign, scale * -1.0;
    }
    var pivot := a[column, column];
    assert pivot == Left(a).Row(column).Get(column);
    DivisionKeepsReduced(Left(a), column);
    ReachedAfterDivision(matrix, Left(a), Right(a), undone, newScale, column, pivot);
    undone := ScaleColumn(undone, column, pivot);
    AccumulatePivot(newScale, det, newSign, pivot);
    newDet, newScale := det * pivot, newScale * pivot;
    DivideRowBy(a, column, pivot);
    undone := ClearColumn(a, column, matrix, undone, newScale);
  }

  method BringUpPivot(a: array2<real>, column: nat, pivotRow: nat, ghost matrix: Matrix4, ghost undo: Matrix4,
                      ghost scale: real)
    returns (ghost undone: Matrix4)
    requires Shape(a) && column < pivotRow < 4 && Left(a).Row(pivotRow).Get(column) != 0.0
    requires ReducedBefore(Left(a), column) && Reached(matrix, Left(a), Right(a), undo, scale)
    modifies a
    ensures ReducedBefore(Left(a), column) && Left(a).Row(column).Get(column) != 0.0
    ensures Left(a) == Swap(old(Left(a)), column, pivotRow)
    ensures Reached(matrix, Left(a), Right(a), undone, scale * -1.0)
  {
    SwapKeepsReduced(Left(a), column, pivotRow);
    ReachedAfterSwap(matrix, Left(a), Right(a), undo, scale, column, pivotRow);
    undone := SwapColumns(undo, column, pivotRow);
    SwapRows(a, column, pivotRow);
  }

  /**
   D3DXMatrixInverse. A returned matrix is a two-sided inverse and the reported
   determinant is the determinant; nothing is returned exactly when, with some
   number of rows chosen by their leading minors, every other row has a minor
   within the tolerance times that of the chosen rows.
   */
  method MatrixInverse(matrix: Matrix4) returns (out: Option<Matrix4>, determinant: real)
    ensures out.Some? ==> Product(out.value, matrix) == IDENTITY && Product(matrix, out.value) == IDENTITY
    ensures out.Some? ==> determinant == Determinant(matrix) && determinant != 0.0
    ensures out.None? ==> determinant == 0.0
    ensures out.None? <==> Reduction(matrix, 4).None?
    ensures out.None? <==> Refused(matrix)
  {
    hide Reached, Product, Eliminated, Refused;
    FailsExactlyWhenRefused(matrix);
    var a := Augment(matrix);
    var det, sign := 1.0, 1.0;
    ghost var undo, scale := IDENTITY, 1.0;
    ReachedAtStart(matrix);
    for column := 0 to 4
      invariant ReducedBefore(Left(a), column) && scale == det * sign && scale != 0.0
      invariant Reached(matrix, Left(a), Right(a), undo, scale)
      invariant Reduction(matrix, column) == Some(Left(a))
    {
      var pivotRow, pivotAbs := FindPivot(a, column);
      CandidatesOf(a, column);
      if pivotAbs <= TOLERANCE {
        StuckForGood(matrix, column + 1, 4);
        return None, 0.0;
      }
      det, sign, undo, scale := EliminateColumn(a, column, pivotRow, det, sign, matrix, undo, scale);
    }
    ReachedAtEnd(matrix, Left(a), Right(a), undo, scale);
    return Some(Right(a)), det * sign;
  }

  /** No entry of the first column exceeds the tolerance: the very first pivot search fails. */
  predicate FirstColumnWithinTolerance(matrix: Matrix4) {
    forall r :: 0 <= r < 4 ==> Abs(matrix.Row(r).x0) <= TOLERANCE
  }

  lemma CandidatesOf(a: array2<real>, column: nat)
    requires Shape(a) && column < 4
    ensures forall r :: 0 <= r < 4 ==> a[r, column] == Left(a).Row(r).Get(column) == Left(a).Column(column).Get(r)
    ensures forall r :: 0 <= r < 4 ==> Left(a).Row(r).x0 == Left(a).Row(r).Get(0)
  {
  }

  lemma FlipSign(scale: real, det: real, sign: real)
    requires scale == det * sign
    ensures scale * -1.0 == det * (-sign)
  {
  }

  lemma AccumulatePivot(scale: real, det: real, sign: real, pivot: real)
    requires scale == det * sign && scale != 0.0 && pivot != 0.0
    ensures scale * pivot == det * pivot * sign && scale * pivot != 0.0
  {
  }

  /** With nothing but tiny entries in the first column, the first pivot search already fails. */
  lemma TinyFirstColumnIsRefused(matrix: Matrix4)
    requires FirstColumnWithinTolerance(matrix)
    ensures Reduction(matrix, 4).None?
  {
    assert Reduction(matrix, 0) == Some(matrix);
    StuckForGood(matrix, 1, 4);
  }

  /**
   Not every invertible matrix is inverted, because the tolerance is absolute:
   this one has the diagonal matrix of reciprocals for an inverse, yet its
   first column is within the tolerance, so MatrixInverse reports zero.
   */
  lemma InvertibleButRefused()
    ensures Reduction(Diagonal(0.000000001), 4).None? && Refused(Diagonal(0.000000001))
    ensures Determinant(Diagonal(0.000000001)) == 0.000000001
    ensures Product(Diagonal(1000000000.0), Diagonal(0.000000001)) == IDENTITY
  {
    hide Determinant, Product, Reduction, Refused;
    assert FirstColumnWithinTolerance(Diagonal(0.000000001));
    FailsExactlyWhenRefused(Diagonal(0.000000001));
    TinyFirstColumnIsRefused(Diagonal(0.000000001));
    DeterminantOfDiagonal(0.000000001);
    ProductOfDiagonals(1000000000.0, 0.000000001);
  }

  function Diagonal(x: real): Matrix4 {
    IDENTITY.WithRow(0, Vector(x, 0.0, 0.0, 0.0))
  }

  lemma DeterminantOfDiagonal(x: real)
    ensures Determinant(Diagonal(x)) == x
  {
    hide Det;
    ScaleFirst(IDENTITY.r0, IDENTITY.r1, IDENTITY.r2, IDENTITY.r3, x);
    DeterminantOfIdentity();
    assert Scaled(IDENTITY.r0, x) == Vector(x, 0.0, 0.0, 0.0);
  }

  lemma ProductOfDiagonals(x: real, y: real)
    ensures Product(Diagonal(x), Diagonal(y)) == Diagonal(x * y)
  {
    hide RowTimes;
    FirstRowOfDiagonals(x, y);
    TimesIdentity(Diagonal(y));
  }

  lemma FirstRowOfDiagonals(x: real, y: real)
    ensures RowTimes(Vector(x, 0.0, 0.0, 0.0), Diagonal(y)) == Vector(x * y, 0.0, 0.0, 0.0)
  {
  }
}
