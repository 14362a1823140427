/**
 How large a determinant makes sure that D3DXMatrixInverse
 (WebAssembly/shims/D3DX8Math.h) finds an inverse, and how small a one that it
 does not.
 */
module MatrixBounds {
  import opened Matrix
  import opened MatrixElimination
  import opened MatrixPivots

  // ----- Growth of the entries

  /** No entry at or beyond the diagonal position k exceeds the bound. */
  ghost predicate Within(m: Matrix4, k: nat, bound: real) {
    forall r, c :: k <= r < 4 && k <= c < 4 ==> Abs(m.Row(r).Get(c)) <= bound
  }

  function Doubled(bound: real, times: nat): real {
    if times == 0 then bound else 2.0 * Doubled(bound, times - 1)
  }

  lemma QuotientIsSmall(f: real, p: real)
    requires p != 0.0 && Abs(f) <= Abs(p)
    ensures Abs(f / p) <= 1.0
  {
    hide Abs;
    var q := f / p;
    assert q * p == f;
    AbsOfProductIs(q, p, f);
    AbsIsPositive(p);
    OrderOfMultiples(Abs(q), 1.0, Abs(p));
  }

  /** Because the pivot is the largest candidate, a subtraction at most doubles an entry. */
  lemma SubtractionDoubles(x: real, g: real, y: real, bound: real)
    requires Abs(x) <= bound && Abs(y) <= bound && Abs(g) <= 1.0
    ensures Abs(Reduced(x, g, y)) <= 2.0 * bound
  {
    ProductWithin(g, y, 1.0, bound, g * y, bound);
  }

  lemma TurnDoubles(left: Matrix4, k: nat, row: nat, bound: real)
    requires k <= row < 4 && left.Row(row).Get(k) != 0.0 && Within(left, k, bound)
    requires forall r :: k <= r < 4 ==> Abs(left.Row(r).Get(k)) <= Abs(left.Row(row).Get(k))
    ensures Within(Eliminated(left, k, row), k + 1, 2.0 * bound)
  {
    hide Abs, Reduced, BroughtUp, Cleared, Minus;
    var up := BroughtUp(left, k, row);
    RowOfBroughtUp(left, k, row, k);
    forall r, c | k + 1 <= r < 4 && k + 1 <= c < 4
      ensures Abs(Eliminated(left, k, row).Row(r).Get(c)) <= 2.0 * bound
    {
      RowOfBroughtUp(left, k, row, r);
      RowAfterTurn(up, k, r);
      var g := up.Row(r).Get(k) / up.Row(k).Get(k);
      QuotientIsSmall(up.Row(r).Get(k), up.Row(k).Get(k));
      SubtractionDoubles(up.Row(r).Get(c), g, up.Row(k).Get(c), bound);
      EntryAfterMinus(up.Row(r), g, up.Row(k), c);
    }
  }

  lemma EntryAfterMinus(u: Vector, g: real, v: Vector, c: nat)
    requires c < 4
    ensures Minus(u, g, v).Get(c) == Reduced(u.Get(c), g, v.Get(c))
  {
    hide Reduced;
  }

  lemma {:induction false} ReductionGrowth(matrix: Matrix4, k: nat, bound: real)
    requires k <= 4 && Within(matrix, 0, bound) && Reduction(matrix, k).Some?
    ensures Within(Reduction(matrix, k).value, k, Doubled(bound, k))
  {
    hide Within, Eliminated;
    if k > 0 {
      ReductionGrowth(matrix, k - 1, bound);
      var left := Reduction(matrix, k - 1).value;
      LargestPivot(left, k - 1);
      TurnDoubles(left, k - 1, Largest(left, k - 1), Doubled(bound, k - 1));
    }
  }

  // ----- What a turn does to the determinant

  lemma {:induction false} DeterminantOfCleared(left: Matrix4, column: nat, rows: nat)
    requires column < 4 && rows <= 4
    ensures Determinant(Cleared(left, column, rows)) == Determinant(left)
  {
    hide Determinant, SubtractRow;
    if rows > 0 {
      DeterminantOfCleared(left, column, rows - 1);
      var before := Cleared(left, column, rows - 1);
      if rows - 1 != column {
        DeterminantOfSubtraction(before, rows - 1, before.Row(rows - 1).Get(column), column);
      }
    }
  }

  lemma DeterminantOfBroughtUp(left: Matrix4, column: nat, row: nat)
    requires column < 4 && row < 4
    ensures Abs(Determinant(BroughtUp(left, column, row))) == Abs(Determinant(left))
  {
    hide Determinant, Swap;
    if row != column {
      DeterminantOfSwap(left, column, row);
    }
  }

  lemma DeterminantOfDivision(m: Matrix4, i: nat, p: real)
    requires i < 4 && p != 0.0
    ensures Determinant(DivideRow(m, i, p)) * p == Determinant(m)
  {
    hide Determinant, Divided, Scaled;
    DivisionIsScaling(m.Row(i), p);
    DeterminantOfScaledRow(m, i, 1.0 / p);
    InverseCancels(Determinant(m), p);
  }

  lemma InverseCancels(d: real, p: real)
    requires p != 0.0
    ensures 1.0 / p * d * p == d
  {
    var q := 1.0 / p;
    assert q * p == 1.0;
    assert q * d * p == q * p * d;
  }

  /** A turn divides the determinant by the pivot, up to sign. */
  lemma DeterminantOfTurn(left: Matrix4, k: nat, row: nat)
    requires k <= row < 4 && left.Row(row).Get(k) != 0.0
    ensures Abs(Determinant(Eliminated(left, k, row))) * Abs(left.Row(row).Get(k)) == Abs(Determinant(left))
  {
    hide Determinant, BroughtUp, Cleared, DivideRow, Abs;
    var up := BroughtUp(left, k, row);
    RowOfBroughtUp(left, k, row, k);
    var p := up.Row(k).Get(k);
    DeterminantOfBroughtUp(left, k, row);
    DeterminantOfDivision(up, k, p);
    DeterminantOfCleared(DivideRow(up, k, p), k, 4);
    AbsOfProductIs(Determinant(DivideRow(up, k, p)), p, Determinant(up));
  }

  /** The largest product that the first k pivots can have. */
  function PivotProduct(bound: real, k: nat): real {
    if k == 0 then 1.0 else Doubled(bound, k - 1) * PivotProduct(bound, k - 1)
  }

  function TolerancePower(k: nat): (p: real)
    ensures p > 0.0
  {
    if k == 0 then 1.0 else TOLERANCE * TolerancePower(k - 1)
  }

  /** `total` lies between the powers of the tolerance and the product of the grown bounds, times the determinant. */
  ghost predicate Between(left: Matrix4, total: real, power: real, product: real) {
    && power * Abs(Determinant(left)) <= total <= product * Abs(Determinant(left))
    && 0.0 <= product && 0.0 < power
  }

  lemma BetweenAfterTurn(left: Matrix4, k: nat, total: real, power: real, product: real, grown: real,
                         nextPower: real, nextProduct: real)
    requires k < 4 && Between(left, total, power, product) && Within(left, k, grown)
    requires Abs(left.Row(Largest(left, k)).Get(k)) > TOLERANCE
    requires nextPower == TOLERANCE * power && nextProduct == grown * product
    ensures Between(Eliminated(left, k, Largest(left, k)), total, nextPower, nextProduct)
  {
    hide Within, Eliminated, Determinant, Abs, Largest;
    var row := Largest(left, k);
    LargestPivot(left, k);
    DeterminantOfTurn(left, k, row);
    EntryWithin(left, k, grown, row);
    var rest := Determinant(Eliminated(left, k, row));
    AbsIsNotNegative(rest);
    PivotBounds(Abs(left.Row(row).Get(k)), Abs(rest), grown, product, power, Abs(Determinant(left)), total);
  }

  /** Each pivot is above the tolerance and at most as large as the entries have grown. */
  lemma {:induction false} DeterminantBetween(matrix: Matrix4, k: nat, bound: real)
    requires k <= 4 && Within(matrix, 0, bound) && Reduction(matrix, k).Some?
    ensures Between(Reduction(matrix, k).value, Abs(Determinant(matrix)), TolerancePower(k), PivotProduct(bound, k))
  {
    hide Within, Eliminated, Determinant, Doubled, Abs, Between, Largest;
    if k == 0 {
      BetweenAtStart(matrix);
    } else {
      DeterminantBetween(matrix, k - 1, bound);
      ReductionGrowth(matrix, k - 1, bound);
      BetweenAfterTurn(Reduction(matrix, k - 1).value, k - 1, Abs(Determinant(matrix)), TolerancePower(k - 1),
                       PivotProduct(bound, k - 1), Doubled(bound, k - 1), TolerancePower(k), PivotProduct(bound, k));
    }
  }

  lemma BetweenAtStart(matrix: Matrix4)
    ensures Between(matrix, Abs(Determinant(matrix)), 1.0, 1.0)
  {
    hide Determinant;
  }

  lemma AbsIsNotNegative(x: real)
    ensures Abs(x) >= 0.0
  {
  }

  lemma EntryWithin(left: Matrix4, k: nat, bound: real, r: nat)
    requires k <= r < 4 && Within(left, k, bound)
    ensures Abs(left.Row(r).Get(k)) <= bound
  {
  }

  lemma PivotBounds(pivot: real, rest: real, grown: real, product: real, power: real, before: real, total: real)
    requires TOLERANCE < pivot <= grown && rest >= 0.0 && product >= 0.0 && power > 0.0
    requires rest * pivot == before && power * before <= total <= product * before
    ensures TOLERANCE * power * rest <= total <= grown * product * rest && 0.0 <= grown * product
  {
    assert product * before == product * rest * pivot;
    assert product * rest >= 0.0 && product * rest * pivot <= product * rest * grown;
    assert power * before == power * rest * pivot;
    assert power * rest >= 0.0 && power * rest * TOLERANCE <= power * rest * pivot;
  }

  // ----- A determinant with a tiny column

  /** The determinant of three rows in the last three columns. */
  function LastThree(u: Vector, v: Vector, w: Vector): real {
    u.x1 * Minor(v, w, 2, 3) - v.x1 * Minor(u, w, 2, 3) + w.x1 * Minor(u, v, 2, 3)
  }

  lemma LastThreeTimes(x: real, u: Vector, v: Vector, w: Vector)
    ensures x * LastThree(u, v, w)
            == x * u.x1 * v.x2 * w.x3 - x * u.x1 * v.x3 * w.x2 - x * v.x1 * u.x2 * w.x3 + x * v.x1 * u.x3 * w.x2
               + x * w.x1 * u.x2 * v.x3 - x * w.x1 * u.x3 * v.x2
  {
  }

  /** Expansion along the first column. */
  lemma FirstColumnExpansion(a: Vector, b: Vector, c: Vector, d: Vector)
    ensures Det(a, b, c, d) == a.x0 * LastThree(b, c, d) - b.x0 * LastThree(a, c, d)
                               + c.x0 * LastThree(a, b, d) - d.x0 * LastThree(a, b, c)
  {
    hide Det, LastThree;
    Leibniz(a, b, c, d);
    LastThreeTimes(a.x0, b, c, d);
    LastThreeTimes(b.x0, a, c, d);
    LastThreeTimes(c.x0, a, b, d);
    LastThreeTimes(d.x0, a, b, c);
  }

  lemma MinorWithin(u: Vector, v: Vector, a: real, bound: real)
    requires Abs(u.x2) <= a && Abs(v.x2) <= a && Abs(u.x3) <= bound && Abs(v.x3) <= bound
    ensures Abs(Minor(u, v, 2, 3)) <= 2.0 * (a * bound)
  {
    hide Abs;
    var x, y, t := u.x2 * v.x3, v.x2 * u.x3, a * bound;
    ProductWithin(u.x2, v.x3, a, bound, x, t);
    ProductWithin(v.x2, u.x3, a, bound, y, t);
    DifferenceWithin(x, y, t);
    assert Minor(u, v, 2, 3) == x - y;
  }

  lemma DifferenceWithin(x: real, y: real, t: real)
    requires Abs(x) <= t && Abs(y) <= t
    ensures Abs(x - y) <= 2.0 * t
  {
  }

  ghost predicate LastWithin(v: Vector, bound: real) {
    Abs(v.x1) <= bound && Abs(v.x2) <= bound && Abs(v.x3) <= bound
  }

  /** Three products of an entry and a minor. */
  lemma LastThreeWithin(u: Vector, v: Vector, w: Vector, a: real, bound: real)
    requires Abs(u.x1) <= a && Abs(v.x1) <= a && Abs(w.x1) <= a
    requires Abs(u.x2) <= bound && Abs(v.x2) <= bound && Abs(w.x2) <= bound
    requires Abs(u.x3) <= bound && Abs(v.x3) <= bound && Abs(w.x3) <= bound
    ensures Abs(LastThree(u, v, w)) <= 6.0 * (a * (bound * bound))
  {
    hide Minor, Abs, LastThree;
    MinorWithin(v, w, bound, bound);
    MinorWithin(u, w, bound, bound);
    MinorWithin(u, v, bound, bound);
    LastThreeBy(u, v, w, a, 2.0 * (bound * bound));
    ThreeTimesTwo(a, bound * bound);
  }

  lemma LastThreeBy(u: Vector, v: Vector, w: Vector, a: real, m: real)
    requires Abs(u.x1) <= a && Abs(v.x1) <= a && Abs(w.x1) <= a
    requires Abs(Minor(v, w, 2, 3)) <= m && Abs(Minor(u, w, 2, 3)) <= m && Abs(Minor(u, v, 2, 3)) <= m
    ensures Abs(LastThree(u, v, w)) <= 3.0 * (a * m)
  {
    hide Minor, Abs;
    var x, y, z, t := u.x1 * Minor(v, w, 2, 3), v.x1 * Minor(u, w, 2, 3), w.x1 * Minor(u, v, 2, 3), a * m;
    ProductWithin(u.x1, Minor(v, w, 2, 3), a, m, x, t);
    ProductWithin(v.x1, Minor(u, w, 2, 3), a, m, y, t);
    ProductWithin(w.x1, Minor(u, v, 2, 3), a, m, z, t);
    ThreeWithin(x, y, z, t);
    assert LastThree(u, v, w) == x - y + z;
  }

  lemma ThreeWithin(x: real, y: real, z: real, t: real)
    requires Abs(x) <= t && Abs(y) <= t && Abs(z) <= t
    ensures Abs(x - y + z) <= 3.0 * t
  {
  }

  lemma FourWithin(x: real, y: real, z: real, w: real, t: real)
    requires Abs(x) <= t && Abs(y) <= t && Abs(z) <= t && Abs(w) <= t
    ensures Abs(x - y + z - w) <= 4.0 * t
  {
  }

  lemma ThreeTimesTwo(a: real, b: real)
    ensures 3.0 * (a * (2.0 * b)) == 6.0 * (a * b)
  {
  }

  lemma FirstColumnBy(a: Vector, b: Vector, c: Vector, d: Vector, t: real, m: real)
    requires Abs(a.x0) <= t && Abs(b.x0) <= t && Abs(c.x0) <= t && Abs(d.x0) <= t
    requires Abs(LastThree(b, c, d)) <= m && Abs(LastThree(a, c, d)) <= m
    requires Abs(LastThree(a, b, d)) <= m && Abs(LastThree(a, b, c)) <= m
    ensures Abs(Det(a, b, c, d)) <= 4.0 * (t * m)
  {
    hide Det, LastThree, Abs;
    var x, y := a.x0 * LastThree(b, c, d), b.x0 * LastThree(a, c, d);
    var z, w := c.x0 * LastThree(a, b, d), d.x0 * LastThree(a, b, c);
    var bound := t * m;
    ProductWithin(a.x0, LastThree(b, c, d), t, m, x, bound);
    ProductWithin(b.x0, LastThree(a, c, d), t, m, y, bound);
    ProductWithin(c.x0, LastThree(a, b, d), t, m, z, bound);
    ProductWithin(d.x0, LastThree(a, b, c), t, m, w, bound);
    FirstColumnExpansion(a, b, c, d);
    FourWithin(x, y, z, w, bound);
  }

  /** With a first column within the tolerance: 24 products of one tiny and three other entries. */
  lemma TinyFirstColumn(a: Vector, b: Vector, c: Vector, d: Vector, bound: real)
    requires Abs(a.x0) <= TOLERANCE && Abs(b.x0) <= TOLERANCE && Abs(c.x0) <= TOLERANCE && Abs(d.x0) <= TOLERANCE
    requires LastWithin(a, bound) && LastWithin(b, bound) && LastWithin(c, bound) && LastWithin(d, bound)
    ensures Abs(Det(a, b, c, d)) <= 24.0 * TOLERANCE * (bound * (bound * bound))
  {
    hide Det, LastThree, Abs;
    LastThreeWithin(b, c, d, bound, bound);
    LastThreeWithin(a, c, d, bound, bound);
    LastThreeWithin(a, b, d, bound, bound);
    LastThreeWithin(a, b, c, bound, bound);
    FirstColumnBy(a, b, c, d, TOLERANCE, 6.0 * (bound * (bound * bound)));
  }

  /** What is left of the determinant once the first column is that of the identity. */
  lemma DetAfterOne(a: Vector, b: Vector, c: Vector, d: Vector)
    requires a.x0 == 1.0 && b.x0 == c.x0 == d.x0 == 0.0
    ensures Det(a, b, c, d) == LastThree(b, c, d)
  {
    hide Det, LastThree;
    FirstColumnExpansion(a, b, c, d);
  }

  lemma LastThreeAfterOne(b: Vector, c: Vector, d: Vector)
    requires b.x1 == 1.0 && c.x1 == d.x1 == 0.0
    ensures LastThree(b, c, d) == Minor(c, d, 2, 3)
  {
    hide Minor;
  }

  /** The bound on what is left of the determinant in column k. */
  function StuckBound(k: nat, bound: real): real {
    if k == 0 then 24.0 * TOLERANCE * (bound * (bound * bound))
    else if k == 1 then 6.0 * (TOLERANCE * (bound * bound))
    else if k == 2 then 2.0 * (TOLERANCE * bound)
    else TOLERANCE
  }

  /** The determinant when column k has no candidate above the tolerance. */
  lemma StuckDeterminant(left: Matrix4, k: nat, bound: real)
    requires k < 4 && ReducedBefore(left, k) && Within(left, k, bound)
    requires forall r :: k <= r < 4 ==> Abs(left.Row(r).Get(k)) <= TOLERANCE
    ensures Abs(Determinant(left)) <= StuckBound(k, bound)
  {
    hide Abs, Det, LastThree, Minor;
    var a, b, c, d := left.r0, left.r1, left.r2, left.r3;
    EntriesOf(left, k, bound);
    if k == 0 {
      TinyFirstColumn(a, b, c, d, bound);
    } else {
      DetAfterOne(a, b, c, d);
      if k == 1 {
        LastThreeWithin(b, c, d, TOLERANCE, bound);
      } else {
        LastThreeAfterOne(b, c, d);
        if k == 2 {
          MinorWithin(c, d, TOLERANCE, bound);
        } else {
          LastMinor(c, d);
        }
      }
    }
  }

  lemma LastMinor(c: Vector, d: Vector)
    requires c.x2 == 1.0 && d.x2 == 0.0
    ensures Minor(c, d, 2, 3) == d.x3
  {
  }

  /** The quantified facts, entry by entry. */
  lemma EntriesOf(left: Matrix4, k: nat, bound: real)
    requires k < 4 && ReducedBefore(left, k) && Within(left, k, bound)
    requires forall r :: k <= r < 4 ==> Abs(left.Row(r).Get(k)) <= TOLERANCE
    ensures k == 0 ==>
              && Abs(left.r0.x0) <= TOLERANCE && Abs(left.r1.x0) <= TOLERANCE
              && Abs(left.r2.x0) <= TOLERANCE && Abs(left.r3.x0) <= TOLERANCE
              && LastWithin(left.r0, bound) && LastWithin(left.r1, bound) && LastWithin(left.r2, bound)
                 && LastWithin(left.r3, bound)
    ensures k >= 1 ==> left.r0.x0 == 1.0 && left.r1.x0 == left.r2.x0 == left.r3.x0 == 0.0
    ensures k == 1 ==>
              && Abs(left.r1.x1) <= TOLERANCE && Abs(left.r2.x1) <= TOLERANCE && Abs(left.r3.x1) <= TOLERANCE
              && LastWithin(left.r1, bound) && LastWithin(left.r2, bound) && LastWithin(left.r3, bound)
    ensures k >= 2 ==> left.r1.x1 == 1.0 && left.r2.x1 == left.r3.x1 == 0.0
    ensures k == 2 ==>
              && Abs(left.r2.x2) <= TOLERANCE && Abs(left.r3.x2) <= TOLERANCE
              && Abs(left.r2.x3) <= bound && Abs(left.r3.x3) <= bound
    ensures k == 3 ==> left.r2.x2 == 1.0 && left.r3.x2 == 0.0 && Abs(left.r3.x3) <= TOLERANCE
  {
    hide Abs;
    forall r: nat | r < 4
      ensures k <= r ==> RowWithin(left.Row(r), k, bound)
      ensures k > 0 ==> left.Row(r).x0 == if r == 0 then 1.0 else 0.0
      ensures k > 1 ==> left.Row(r).x1 == if r == 1 then 1.0 else 0.0
      ensures k > 2 ==> left.Row(r).x2 == if r == 2 then 1.0 else 0.0
    {
      RowOf(left, k, bound, r);
    }
    FourRows(left);
    assert RowWithin(left.Row(3), k, bound);
    assert k <= 2 ==> RowWithin(left.Row(2), k, bound);
    assert k <= 1 ==> RowWithin(left.Row(1), k, bound);
    assert k <= 0 ==> RowWithin(left.Row(0), k, bound);
  }

  ghost predicate RowWithin(v: Vector, k: nat, bound: real) {
    && (k == 0 ==> Abs(v.x0) <= TOLERANCE) && (k == 1 ==> Abs(v.x1) <= TOLERANCE)
    && (k == 2 ==> Abs(v.x2) <= TOLERANCE) && (k == 3 ==> Abs(v.x3) <= TOLERANCE)
    && (k <= 1 ==> Abs(v.x1) <= bound) && (k <= 2 ==> Abs(v.x2) <= bound) && Abs(v.x3) <= bound
  }

  lemma RowOf(left: Matrix4, k: nat, bound: real, r: nat)
    requires k < 4 && r < 4 && ReducedBefore(left, k) && Within(left, k, bound)
    requires k <= r ==> Abs(left.Row(r).Get(k)) <= TOLERANCE
    ensures k <= r ==> RowWithin(left.Row(r), k, bound)
    ensures k > 0 ==> left.Row(r).x0 == if r == 0 then 1.0 else 0.0
    ensures k > 1 ==> left.Row(r).x1 == if r == 1 then 1.0 else 0.0
    ensures k > 2 ==> left.Row(r).x2 == if r == 2 then 1.0 else 0.0
  {
    hide Abs;
    var v := left.Row(r);
    assert v.Get(0) == v.x0 && v.Get(1) == v.x1 && v.Get(2) == v.x2 && v.Get(3) == v.x3;
    if k <= r {
      assert k <= 1 ==> Abs(left.Row(r).Get(1)) <= bound;
      assert k <= 2 ==> Abs(left.Row(r).Get(2)) <= bound;
      assert Abs(left.Row(r).Get(3)) <= bound;
    }
    assert k > 0 ==> left.Row(r).Get(0) == if r == 0 then 1.0 else 0.0;
    assert k > 1 ==> left.Row(r).Get(1) == if r == 1 then 1.0 else 0.0;
    assert k > 2 ==> left.Row(r).Get(2) == if r == 2 then 1.0 else 0.0;
  }

  lemma FourRows(m: Matrix4)
    ensures m.Row(0) == m.r0 && m.Row(1) == m.r1 && m.Row(2) == m.r2 && m.Row(3) == m.r3
  {
  }

  // ----- The bounds

  /** Entries doubled k times, times the pivots before, times the determinant that is left. */
  lemma StuckTotals(bound: real)
    ensures PivotProduct(bound, 0) == 1.0 && Doubled(bound, 0) == bound
    ensures PivotProduct(bound, 1) == bound && Doubled(bound, 1) == 2.0 * bound
    ensures PivotProduct(bound, 2) == 2.0 * (bound * bound) && Doubled(bound, 2) == 4.0 * bound
    ensures PivotProduct(bound, 3) == 8.0 * (bound * (bound * bound))
  {
    assert PivotProduct(bound, 1) == Doubled(bound, 0) * PivotProduct(bound, 0);
    assert Doubled(bound, 1) == 2.0 * Doubled(bound, 0);
    assert PivotProduct(bound, 2) == Doubled(bound, 1) * PivotProduct(bound, 1);
    assert Doubled(bound, 2) == 2.0 * Doubled(bound, 1);
    assert PivotProduct(bound, 3) == Doubled(bound, 2) * PivotProduct(bound, 2);
  }

  lemma TimesLarger(x: real, y: real, z: real)
    requires x >= 0.0 && y <= z
    ensures x * y <= x * z
  {
  }

  lemma FactorLast(x: real, c: real, y: real)
    ensures x * (c * y) == c * (x * y)
  {
  }

  lemma StuckInSecond(bound: real, square: real, rest: real, total: real)
    requires bound >= 0.0 && square == bound * bound && rest <= StuckBound(1, 2.0 * bound) && total <= bound * rest
    ensures total <= 24.0 * TOLERANCE * (bound * square)
  {
    assert 2.0 * bound * (2.0 * bound) == 4.0 * square;
    TimesLarger(bound, rest, 24.0 * TOLERANCE * square);
    FactorLast(bound, 24.0 * TOLERANCE, square);
  }

  lemma StuckInThird(bound: real, square: real, rest: real, product: real, total: real)
    requires bound >= 0.0 && square == bound * bound && rest <= StuckBound(2, 4.0 * bound)
    requires product == 2.0 * square && total <= product * rest
    ensures total <= 24.0 * TOLERANCE * (bound * square)
  {
    CubeIsNotNegative(bound, square);
    TimesLarger(product, rest, 8.0 * TOLERANCE * bound);
    FactorLast(product, 8.0 * TOLERANCE, bound);
  }

  lemma StuckInLast(cube: real, rest: real, product: real, total: real)
    requires cube >= 0.0 && rest <= TOLERANCE && product == 8.0 * cube && total <= product * rest
    ensures total <= 24.0 * TOLERANCE * cube
  {
    TimesLarger(product, rest, TOLERANCE);
  }

  lemma CubeIsNotNegative(bound: real, square: real)
    requires bound >= 0.0 && square == bound * bound
    ensures square >= 0.0 && bound * square >= 0.0
  {
  }

  lemma StuckTotal(k: nat, bound: real, rest: real, product: real, total: real)
    requires k < 4 && bound >= 0.0 && rest <= StuckBound(k, Doubled(bound, k))
    requires product == PivotProduct(bound, k) && 0.0 <= total <= product * rest
    ensures total <= 24.0 * TOLERANCE * (bound * (bound * bound))
  {
    hide PivotProduct, Doubled, StuckBound;
    var square := bound * bound;
    var cube := bound * square;
    StuckTotals(bound);
    CubeIsNotNegative(bound, square);
    if k == 0 {
      StuckInFirst(bound, rest);
    } else if k == 1 {
      StuckInSecond(bound, square, rest, total);
    } else if k == 2 {
      StuckInThird(bound, square, rest, product, total);
    } else {
      LastBound(Doubled(bound, 3), rest);
      StuckInLast(cube, rest, product, total);
    }
  }

  lemma StuckInFirst(bound: real, rest: real)
    requires rest <= StuckBound(0, bound)
    ensures rest <= 24.0 * TOLERANCE * (bound * (bound * bound))
  {
  }

  lemma LastBound(bound: real, rest: real)
    requires rest <= StuckBound(3, bound)
    ensures rest <= TOLERANCE
  {
  }

  lemma StuckMeansSmall(matrix: Matrix4, k: nat, bound: real)
    requires k < 4 && Within(matrix, 0, bound) && Reduction(matrix, k).Some? && Reduction(matrix, k + 1).None?
    ensures Abs(Determinant(matrix)) <= 24.0 * TOLERANCE * (bound * (bound * bound))
  {
    hide Within, Determinant, Doubled, PivotProduct, Abs, Between, ReducedBefore, StuckBound;
    var left := Reduction(matrix, k).value;
    DeterminantBetween(matrix, k, bound);
    ReductionGrowth(matrix, k, bound);
    ReductionIsReduced(matrix, k);
    NoCandidate(left, k);
    StuckDeterminant(left, k, Doubled(bound, k));
    BoundIsNotNegative(matrix, bound);
    BetweenGives(left, Abs(Determinant(matrix)), TolerancePower(k), PivotProduct(bound, k));
    StuckTotal(k, bound, Abs(Determinant(left)), PivotProduct(bound, k), Abs(Determinant(matrix)));
  }

  lemma BetweenGives(left: Matrix4, total: real, power: real, product: real)
    requires Between(left, total, power, product)
    ensures 0.0 <= total <= product * Abs(Determinant(left))
  {
    hide Determinant;
    ProductGrows(0.0, power, 0.0, Abs(Determinant(left)));
  }

  lemma BoundIsNotNegative(matrix: Matrix4, bound: real)
    requires Within(matrix, 0, bound)
    ensures bound >= 0.0
  {
    EntryWithin(matrix, 0, bound, 0);
  }

  lemma NoCandidate(left: Matrix4, k: nat)
    requires k < 4 && Abs(left.Row(Largest(left, k)).Get(k)) <= TOLERANCE
    ensures forall r :: k <= r < 4 ==> Abs(left.Row(r).Get(k)) <= TOLERANCE
  {
    hide Abs;
    ColumnEntries(left, k);
  }

  lemma {:induction false} ReductionIsReduced(matrix: Matrix4, k: nat)
    requires k <= 4 && Reduction(matrix, k).Some?
    ensures ReducedBefore(Reduction(matrix, k).value, k)
  {
    hide Eliminated, Largest;
    if k > 0 {
      ReductionIsReduced(matrix, k - 1);
      var left := Reduction(matrix, k - 1).value;
      LargestPivot(left, k - 1);
      EliminatedIsReduced(left, k - 1, Largest(left, k - 1));
    }
  }

  /**
   A matrix whose entries are at most `bound` and whose determinant exceeds
   24 tolerances times the cube of the bound is inverted.
   */
  lemma WellScaledIsInverted(matrix: Matrix4, bound: real)
    requires Within(matrix, 0, bound)
    requires Abs(Determinant(matrix)) > 24.0 * TOLERANCE * (bound * (bound * bound))
    ensures Reduction(matrix, 4).Some? && !Refused(matrix)
  {
    hide Within, Determinant, Reduction, Refused;
    FailsExactlyWhenRefused(matrix);
    if Reduction(matrix, 4).None? {
      var k := FirstFailure(matrix);
      StuckMeansSmall(matrix, k, bound);
    }
  }

  ghost function LargestOf(v: Vector): (bound: real)
    ensures forall c :: 0 <= c < 4 ==> Abs(v.Get(c)) <= bound
  {
    var i := LargestEntry(v, 0, 4);
    Abs(v.Get(i))
  }

  lemma SomeBound(matrix: Matrix4) returns (bound: real)
    ensures Within(matrix, 0, bound)
  {
    hide Abs;
    var a, b, c, d := LargestOf(matrix.r0), LargestOf(matrix.r1), LargestOf(matrix.r2), LargestOf(matrix.r3);
    bound := if a >= b && a >= c && a >= d then a else if b >= c && b >= d then b else if c >= d then c else d;
    forall r, c | 0 <= r < 4 && 0 <= c < 4 ensures Abs(matrix.Row(r).Get(c)) <= bound {
      FourRows(matrix);
    }
  }

  /** A matrix is inverted only if its determinant exceeds, in size, the fourth power of the tolerance. */
  lemma InvertedHasDeterminant(matrix: Matrix4)
    requires Reduction(matrix, 4).Some?
    ensures Abs(Determinant(matrix)) >= TolerancePower(4)
  {
    hide Within, Determinant, PivotProduct, TolerancePower, ReducedBefore, Reduction, Between;
    var bound := SomeBound(matrix);
    DeterminantBetween(matrix, 4, bound);
    ReductionIsReduced(matrix, 4);
    IsIdentity(Reduction(matrix, 4).value);
    DeterminantOfIdentity();
    BetweenFromIdentity(Abs(Determinant(matrix)), TolerancePower(4), PivotProduct(bound, 4));
  }

  lemma BetweenFromIdentity(total: real, power: real, product: real)
    requires Between(IDENTITY, total, power, product)
    ensures total >= power
  {
    hide Determinant;
    DeterminantOfIdentity();
  }

  /** So a singular matrix is always refused. */
  lemma SingularIsRefused(matrix: Matrix4)
    requires Determinant(matrix) == 0.0
    ensures Reduction(matrix, 4).None? && Refused(matrix)
  {
    hide Determinant, Reduction, Refused;
    FailsExactlyWhenRefused(matrix);
    if Reduction(matrix, 4).Some? {
      InvertedHasDeterminant(matrix);
    }
  }

  lemma IdentityIsInverted()
    ensures Reduction(IDENTITY, 4).Some? && !Refused(IDENTITY)
  {
    hide Determinant, Reduction, Refused;
    DeterminantOfIdentity();
    assert Within(IDENTITY, 0, 1.0);
    WellScaledIsInverted(IDENTITY, 1.0);
  }
}
