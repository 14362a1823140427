/**
 When D3DXMatrixInverse (WebAssembly/shims/D3DX8Math.h) finds a matrix
 singular, told by the minors of the matrix itself.
 */
module MatrixPivots {
  import opened Matrix
  import opened MatrixElimination

  // ----- Leading minors

  function Unit(i: nat): Vector
    requires i < 4
  {
    IDENTITY.Row(i)
  }

  function HeadRow(o: Matrix4, k: nat, v: Vector, i: nat): Vector
    requires i < 4
  {
    if i < k then o.Row(i) else if i == k then v else Unit(i)
  }

  /** The first k rows of `o`, then `v`, then unit rows: its determinant is that of the first k + 1 columns. */
  function Head(o: Matrix4, k: nat, v: Vector): Matrix4 {
    Rows(HeadRow(o, k, v, 0), HeadRow(o, k, v, 1), HeadRow(o, k, v, 2), HeadRow(o, k, v, 3))
  }

  /** The minor of the first k rows and `v` in the first k + 1 columns. */
  function Lead(o: Matrix4, k: nat, v: Vector): real {
    Determinant(Head(o, k, v))
  }

  /** The minor of the first k rows in the first k columns. */
  function Leading(o: Matrix4, k: nat): real
    requires k < 4
  {
    Lead(o, k, Unit(k))
  }

  lemma MinorsBesideUnit(c: Vector)
    ensures var d := Unit(3);
            && Minor(c, d, 2, 3) == c.x2 && Minor(c, d, 1, 3) == c.x1 && Minor(c, d, 1, 2) == 0.0
            && Minor(c, d, 0, 3) == c.x0 && Minor(c, d, 0, 2) == 0.0 && Minor(c, d, 0, 1) == 0.0
  {
  }

  /** The determinant of three rows in the first three columns. */
  function ThreeRows(a: Vector, b: Vector, c: Vector): real {
    Minor(a, b, 0, 1) * c.x2 - Minor(a, b, 0, 2) * c.x1 + Minor(a, b, 1, 2) * c.x0
  }

  lemma DetBeforeUnit(a: Vector, b: Vector, c: Vector)
    ensures ThreeRows(a, b, c) == Det(a, b, c, Unit(3))
  {
    hide Minor, Unit;
    MinorsBesideUnit(c);
  }

  lemma DetBeforeTwoUnits(a: Vector, b: Vector)
    ensures Minor(a, b, 0, 1) == Det(a, b, Unit(2), Unit(3))
  {
    hide Minor, Det;
    var c := Unit(2);
    assert c.x2 == 1.0 && c.x1 == 0.0 && c.x0 == 0.0;
    DetBeforeUnit(a, b, c);
  }

  lemma FirstMinor(v: Vector)
    ensures Minor(v, Unit(1), 0, 1) == v.x0
  {
  }

  /** The minors of one, two and three rows and of all four, written out. */
  function WrittenOut(o: Matrix4, k: nat, v: Vector): real
    requires k < 4
  {
    if k == 0 then v.x0
    else if k == 1 then Minor(o.r0, v, 0, 1)
    else if k == 2 then ThreeRows(o.r0, o.r1, v)
    else Det(o.r0, o.r1, o.r2, v)
  }

  lemma MinorsWrittenOut(o: Matrix4, k: nat, v: Vector)
    requires k < 4
    ensures Lead(o, k, v) == WrittenOut(o, k, v)
  {
    hide Det, Minor;
    if k == 0 {
      FirstMinor(v);
      DetBeforeTwoUnits(v, Unit(1));
    } else if k == 1 {
      DetBeforeTwoUnits(o.r0, v);
    } else if k == 2 {
      DetBeforeUnit(o.r0, o.r1, v);
    }
  }

  /** The minor of the chosen rows alone is that of the last of them beside the others. */
  lemma LeadingIsLead(o: Matrix4, k: nat)
    requires k < 4
    ensures Leading(o, k) == if k == 0 then 1.0 else Lead(o, k - 1, o.Row(k - 1))
  {
    hide Det, Minor;
    if k == 0 {
      DetBeforeTwoUnits(Unit(0), Unit(1));
      FirstMinor(Unit(0));
    } else {
      assert Head(o, k, Unit(k)) == Head(o, k - 1, o.Row(k - 1));
    }
  }

  lemma HeadOfSubtraction(o: Matrix4, k: nat, v: Vector, i: nat, c: real)
    requires i < k < 4
    ensures Head(o, k, Minus(v, c, o.Row(i))) == SubtractRow(Head(o, k, v), k, c, i)
  {
    hide Minus;
  }

  lemma LeadOfSubtraction(o: Matrix4, k: nat, v: Vector, i: nat, c: real)
    requires i < k < 4
    ensures Lead(o, k, Minus(v, c, o.Row(i))) == Lead(o, k, v)
  {
    hide Head, Determinant, SubtractRow, Minus;
    HeadOfSubtraction(o, k, v, i, c);
    DeterminantOfSubtraction(Head(o, k, v), k, c, i);
  }

  lemma LeadWithoutTail(o: Matrix4, k: nat, v: Vector, j: nat, c: real)
    requires k < j < 4
    ensures Lead(o, k, Minus(v, c, Unit(j))) == Lead(o, k, v)
  {
    hide Determinant, Minus;
    assert Head(o, k, Minus(v, c, Unit(j))) == SubtractRow(Head(o, k, v), k, c, j);
    DeterminantOfSubtraction(Head(o, k, v), k, c, j);
  }

  lemma LeadOfScaled(o: Matrix4, k: nat, v: Vector, c: real)
    requires k < 4
    ensures Lead(o, k, Scaled(v, c)) == c * Lead(o, k, v)
  {
    hide Determinant, Scaled;
    assert Head(o, k, Scaled(v, c)) == Head(o, k, v).WithRow(k, Scaled(Head(o, k, v).Row(k), c));
    DeterminantOfScaledRow(Head(o, k, v), k, c);
  }

  /** Entries after the diagonal do not matter. */
  function WithoutTail(v: Vector, k: nat): Vector
    requires k < 4
    decreases 4 - k
  {
    if k == 3 then v
    else var w := WithoutTail(v, k + 1); Minus(w, v.Get(k + 1), Unit(k + 1))
  }

  lemma LeadOfWithoutTail(o: Matrix4, k: nat, v: Vector)
    requires k < 4
    ensures Lead(o, k, WithoutTail(v, k)) == Lead(o, k, v)
  {
    hide Lead, Minus;
    LeadOfWithoutTailFrom(o, k, v, k);
  }

  lemma {:induction false} LeadOfWithoutTailFrom(o: Matrix4, k: nat, v: Vector, j: nat)
    requires k <= j < 4
    ensures Lead(o, k, WithoutTail(v, j)) == Lead(o, k, v)
    decreases 4 - j
  {
    hide Lead, Minus, Unit;
    if j < 3 {
      LeadOfWithoutTailFrom(o, k, v, j + 1);
      LeadWithoutTail(o, k, WithoutTail(v, j + 1), j + 1, v.Get(j + 1));
    }
  }

  /** A row that starts with k zeros contributes its entry on the diagonal. */
  lemma LeadOfReducedRow(o: Matrix4, k: nat, w: Vector)
    requires k < 4 && forall c :: 0 <= c < k ==> w.Get(c) == 0.0
    ensures Lead(o, k, w) == w.Get(k) * Leading(o, k)
  {
    hide Lead;
    LeadOfWithoutTail(o, k, w);
    ReducedRowWithoutTail(w, k);
    LeadOfScaled(o, k, Unit(k), w.Get(k));
  }

  lemma ReducedRowWithoutTail(w: Vector, k: nat)
    requires k < 4 && forall c :: 0 <= c < k ==> w.Get(c) == 0.0
    ensures WithoutTail(w, k) == Scaled(Unit(k), w.Get(k))
  {
    var w3 := WithoutTail(w, 3);
    var w2 := Minus(w3, w.Get(3), Unit(3));
    var w1 := Minus(w2, w.Get(2), Unit(2));
    var w0 := Minus(w1, w.Get(1), Unit(1));
    assert WithoutTail(w, 2) == w2 && WithoutTail(w, 1) == w1 && WithoutTail(w, 0) == w0;
    assert k > 0 ==> w.Get(0) == 0.0;
    assert k > 1 ==> w.Get(1) == 0.0;
    assert k > 2 ==> w.Get(2) == 0.0;
  }

  // ----- The order of the rows, chosen by minors

  /** The minors that row r, for r at or below the diagonal, would give. */
  function Leads(o: Matrix4, k: nat): Vector {
    Vector(Lead(o, k, o.r0), Lead(o, k, o.r1), Lead(o, k, o.r2), Lead(o, k, o.r3))
  }

  /** The rows of the matrix, each of the first k chosen as the first with the largest leading minor. */
  function PivotOrder(matrix: Matrix4, k: nat): Matrix4
    requires k <= 4
  {
    if k == 0 then matrix
    else
      var o := PivotOrder(matrix, k - 1);
      BroughtUp(o, k - 1, LargestEntry(Leads(o, k - 1), k - 1, 4))
  }

  /** Every remaining row gives a minor that is tiny beside the minor of the rows already chosen. */
  ghost predicate RefusedAt(matrix: Matrix4, k: nat)
    requires k < 4
  {
    var o := PivotOrder(matrix, k);
    forall r :: k <= r < 4 ==> Abs(Lead(o, k, o.Row(r))) <= TOLERANCE * Abs(Leading(o, k))
  }

  ghost predicate Refused(matrix: Matrix4) {
    exists k :: 0 <= k < 4 && RefusedAt(matrix, k)
  }

  // ----- Rows that differ by multiples of the chosen rows

  function Shifted(v: Vector, o: Matrix4, c: Vector): Vector {
    Minus(Minus(Minus(v, c.x0, o.r0), c.x1, o.r1), c.x2, o.r2)
  }

  ghost predicate Multipliers(c: Vector, k: nat) {
    forall i :: k <= i < 4 ==> c.Get(i) == 0.0
  }

  ghost predicate Congruent(o: Matrix4, k: nat, u: Vector, v: Vector) {
    exists c :: Multipliers(c, k) && u == Shifted(v, o, c)
  }

  lemma MinusNothing(v: Vector, w: Vector)
    ensures Minus(v, 0.0, w) == v
  {
  }

  lemma CongruentToItself(o: Matrix4, k: nat, v: Vector)
    ensures Congruent(o, k, v, v)
  {
    hide Minus;
    var c := Vector(0.0, 0.0, 0.0, 0.0);
    MinusNothing(v, o.r0);
    MinusNothing(v, o.r1);
    MinusNothing(v, o.r2);
    assert Multipliers(c, k) && v == Shifted(v, o, c);
  }

  /** Subtracts a multiple of a row that is among the chosen, or none. */
  lemma LeadOfOneShift(o: Matrix4, k: nat, v: Vector, i: nat, c: real)
    requires k < 4 && i < 3 && (i >= k ==> c == 0.0)
    ensures Lead(o, k, Minus(v, c, o.Row(i))) == Lead(o, k, v)
  {
    hide Lead, Minus;
    if i < k {
      LeadOfSubtraction(o, k, v, i, c);
    } else {
      MinusNothing(v, o.Row(i));
    }
  }

  lemma LeadOfCongruent(o: Matrix4, k: nat, u: Vector, v: Vector)
    requires k < 4 && Congruent(o, k, u, v)
    ensures Lead(o, k, u) == Lead(o, k, v)
  {
    hide Lead, Minus;
    var c :| Multipliers(c, k) && u == Shifted(v, o, c);
    assert (0 >= k ==> c.Get(0) == 0.0) && (1 >= k ==> c.Get(1) == 0.0) && (2 >= k ==> c.Get(2) == 0.0);
    var first := Minus(v, c.x0, o.r0);
    var second := Minus(first, c.x1, o.r1);
    LeadOfOneShift(o, k, v, 0, c.x0);
    LeadOfOneShift(o, k, first, 1, c.x1);
    LeadOfOneShift(o, k, second, 2, c.x2);
  }

  /** Only the chosen rows matter to congruence. */
  lemma CongruentBelowSwap(o: Matrix4, p: Matrix4, k: nat, u: Vector, v: Vector)
    requires Congruent(o, k, u, v) && forall i :: 0 <= i < k && i < 4 ==> o.Row(i) == p.Row(i)
    ensures Congruent(p, k, u, v)
  {
    hide Minus;
    var c :| Multipliers(c, k) && u == Shifted(v, o, c);
    OneShiftAlike(o, p, k, v, 0, c);
    OneShiftAlike(o, p, k, Minus(v, c.x0, o.r0), 1, c);
    OneShiftAlike(o, p, k, Minus(Minus(v, c.x0, o.r0), c.x1, o.r1), 2, c);
    assert Multipliers(c, k) && u == Shifted(v, p, c);
  }

  lemma OneShiftAlike(o: Matrix4, p: Matrix4, k: nat, v: Vector, i: nat, c: Vector)
    requires i < 4 && Multipliers(c, k) && forall j :: 0 <= j < k && j < 4 ==> o.Row(j) == p.Row(j)
    ensures Minus(v, c.Get(i), o.Row(i)) == Minus(v, c.Get(i), p.Row(i))
  {
    hide Minus;
    if i < k {
      assert o.Row(i) == p.Row(i);
    } else {
      MinusNothing(v, o.Row(i));
      MinusNothing(v, p.Row(i));
    }
  }

  /** The multipliers after subtracting `g` times the newly chosen row. */
  function Combined(c: Vector, d: Vector, g: real, k: nat): Vector
    requires k < 3
  {
    if k == 0 then Vector(g, 0.0, 0.0, 0.0)
    else if k == 1 then Vector(c.x0 - g * d.x0, g, 0.0, 0.0)
    else Vector(c.x0 - g * d.x0, c.x1 - g * d.x1, g, 0.0)
  }

  lemma CongruentAfterSubtraction(o: Matrix4, k: nat, u: Vector, v: Vector, x: Vector, g: real)
    requires k < 3 && Congruent(o, k, u, v) && Congruent(o, k, x, o.Row(k))
    ensures Congruent(o, k + 1, Minus(u, g, x), v)
  {
    hide Minus;
    var c :| Multipliers(c, k) && u == Shifted(v, o, c);
    var d :| Multipliers(d, k) && x == Shifted(o.Row(k), o, d);
    ShiftedTwice(o, k, v, c, d, g);
    assert Multipliers(Combined(c, d, g, k), k + 1);
  }

  lemma ShiftedTwice(o: Matrix4, k: nat, v: Vector, c: Vector, d: Vector, g: real)
    requires k < 3 && Multipliers(c, k) && Multipliers(d, k)
    ensures Minus(Shifted(v, o, c), g, Shifted(o.Row(k), o, d)) == Shifted(v, o, Combined(c, d, g, k))
  {
    hide Shifted, Minus, Combined;
    assert c.Get(2) == 0.0 == d.Get(2);
    assert k < 2 ==> c.Get(1) == 0.0 == d.Get(1);
    assert k < 1 ==> c.Get(0) == 0.0 == d.Get(0);
    forall j: nat | j < 4
      ensures Minus(Shifted(v, o, c), g, Shifted(o.Row(k), o, d)).Get(j) == Shifted(v, o, Combined(c, d, g, k)).Get(j)
    {
      ShiftedTwiceEntry(o, k, v, c, d, g, j);
    }
    SameEntries(Minus(Shifted(v, o, c), g, Shifted(o.Row(k), o, d)), Shifted(v, o, Combined(c, d, g, k)));
  }

  lemma ShiftedTwiceEntry(o: Matrix4, k: nat, v: Vector, c: Vector, d: Vector, g: real, j: nat)
    requires k < 3 && j < 4 && c.x2 == 0.0 == d.x2 && (k < 2 ==> c.x1 == 0.0 == d.x1) && (k < 1 ==> c.x0 == 0.0 == d.x0)
    ensures Minus(Shifted(v, o, c), g, Shifted(o.Row(k), o, d)).Get(j) == Shifted(v, o, Combined(c, d, g, k)).Get(j)
  {
    hide Shifted, Minus, Combined;
    ShiftedEntry(v, o, c, j);
    ShiftedEntry(o.Row(k), o, d, j);
    ShiftedEntry(v, o, Combined(c, d, g, k), j);
    EntryOfMinus(Shifted(v, o, c), g, Shifted(o.Row(k), o, d), j);
    CombinedEntry(v.Get(j), o.r0.Get(j), o.r1.Get(j), o.r2.Get(j), c, d, g, k);
    RowEntry(o, k, j);
  }

  lemma RowEntry(o: Matrix4, k: nat, j: nat)
    requires k < 3 && j < 4
    ensures o.Row(k).Get(j) == if k == 0 then o.r0.Get(j) else if k == 1 then o.r1.Get(j) else o.r2.Get(j)
  {
  }

  lemma SameEntries(u: Vector, v: Vector)
    requires forall j: nat :: j < 4 ==> u.Get(j) == v.Get(j)
    ensures u == v
  {
    assert u.Get(0) == v.Get(0) && u.Get(1) == v.Get(1) && u.Get(2) == v.Get(2) && u.Get(3) == v.Get(3);
  }

  lemma ShiftedEntry(v: Vector, o: Matrix4, c: Vector, j: nat)
    requires j < 4
    ensures Shifted(v, o, c).Get(j) == v.Get(j) - c.x0 * o.r0.Get(j) - c.x1 * o.r1.Get(j) - c.x2 * o.r2.Get(j)
  {
    hide Minus;
    EntryOfMinus(v, c.x0, o.r0, j);
    EntryOfMinus(Minus(v, c.x0, o.r0), c.x1, o.r1, j);
    EntryOfMinus(Minus(Minus(v, c.x0, o.r0), c.x1, o.r1), c.x2, o.r2, j);
  }

  lemma CombinedEntry(v: real, p: real, q: real, r: real, c: Vector, d: Vector, g: real, k: nat)
    requires k < 3 && c.x2 == 0.0 == d.x2 && (k < 2 ==> c.x1 == 0.0 == d.x1) && (k < 1 ==> c.x0 == 0.0 == d.x0)
    ensures var e := Combined(c, d, g, k);
            var chosen := if k == 0 then p else if k == 1 then q else r;
            v - c.x0 * p - c.x1 * q - c.x2 * r - g * (chosen - d.x0 * p - d.x1 * q - d.x2 * r)
            == v - e.x0 * p - e.x1 * q - e.x2 * r
  {
  }

  // ----- The elimination follows the minors

  /** After k turns: the chosen rows have a minor other than zero, and each row below is congruent to its own. */
  ghost predicate Follows(left: Matrix4, o: Matrix4, k: nat)
    requires k <= 4
  {
    && ReducedBefore(left, k)
    && (k < 4 ==> Leading(o, k) != 0.0)
    && forall r :: k <= r < 4 ==> Congruent(o, k, left.Row(r), o.Row(r))
  }

  /** A candidate of the elimination is the quotient of two minors. */
  lemma CandidateIsQuotient(left: Matrix4, o: Matrix4, k: nat, r: nat)
    requires k <= r < 4 && Follows(left, o, k)
    ensures Lead(o, k, o.Row(r)) == left.Row(r).Get(k) * Leading(o, k)
  {
    hide Lead, Leading, Congruent;
    LeadOfCongruent(o, k, left.Row(r), o.Row(r));
    LeadOfReducedRow(o, k, left.Row(r));
  }

  lemma AbsIsPositive(s: real)
    requires s != 0.0
    ensures Abs(s) > 0.0
  {
  }

  lemma OrderOfScaled(x: real, y: real, s: real, l: real, m: real)
    requires s != 0.0 && l == x * s && m == y * s
    ensures Abs(l) <= Abs(m) <==> Abs(x) <= Abs(y)
  {
    hide Abs;
    AbsIsPositive(s);
    AbsOfProduct(x, s);
    AbsOfProduct(y, s);
    OrderOfMultiples(Abs(x), Abs(y), Abs(s));
  }

  lemma WithinTolerance(x: real, s: real, l: real)
    requires s != 0.0 && l == x * s
    ensures Abs(l) <= TOLERANCE * Abs(s) <==> Abs(x) <= TOLERANCE
  {
    hide Abs;
    AbsIsPositive(s);
    AbsOfProduct(x, s);
    OrderOfMultiples(Abs(x), TOLERANCE, Abs(s));
  }

  /** The candidates and the minors are in the same order of size. */
  ghost predicate InSameOrder(v: Vector, w: Vector, k: nat) {
    forall i, j :: k <= i < 4 && k <= j < 4 ==> (Abs(v.Get(i)) <= Abs(v.Get(j)) <==> Abs(w.Get(i)) <= Abs(w.Get(j)))
  }

  lemma LargestInSameOrder(v: Vector, w: Vector, k: nat)
    requires k < 4 && InSameOrder(v, w, k)
    ensures LargestEntry(v, k, 4) == LargestEntry(w, k, 4)
  {
    hide Abs, InSameOrder;
    SameLargest(v, w, k, LargestEntry(v, k, 4), LargestEntry(w, k, 4));
  }

  lemma SameLargest(v: Vector, w: Vector, k: nat, i: nat, j: nat)
    requires InSameOrder(v, w, k) && k <= i < 4 && k <= j < 4
    requires Abs(v.Get(j)) <= Abs(v.Get(i)) && Abs(w.Get(i)) <= Abs(w.Get(j))
    requires i < j ==> Abs(w.Get(i)) < Abs(w.Get(j))
    requires j < i ==> Abs(v.Get(j)) < Abs(v.Get(i))
    ensures i == j
  {
    hide Abs;
  }

  lemma LeadsEntries(o: Matrix4, k: nat)
    ensures forall r :: 0 <= r < 4 ==> Leads(o, k).Get(r) == Lead(o, k, o.Row(r))
  {
    hide Lead;
  }

  /** Minors and candidates choose the same row, and refuse together. */
  lemma SameChoice(left: Matrix4, o: Matrix4, k: nat)
    requires k < 4 && Follows(left, o, k)
    ensures LargestEntry(Leads(o, k), k, 4) == Largest(left, k)
    ensures (forall r :: k <= r < 4 ==> Abs(Lead(o, k, o.Row(r))) <= TOLERANCE * Abs(Leading(o, k)))
            <==> Abs(left.Row(Largest(left, k)).Get(k)) <= TOLERANCE
  {
    hide Lead, Leading, Congruent, ReducedBefore, Leads, Abs, Follows;
    ColumnEntries(left, k);
    forall i, j | k <= i < 4 && k <= j < 4
      ensures Abs(Leads(o, k).Get(i)) <= Abs(Leads(o, k).Get(j))
              <==> Abs(left.Column(k).Get(i)) <= Abs(left.Column(k).Get(j))
    {
      SameOrder(left, o, k, i, j);
    }
    LargestInSameOrder(Leads(o, k), left.Column(k), k);
    forall r | k <= r < 4
      ensures Abs(Lead(o, k, o.Row(r))) <= TOLERANCE * Abs(Leading(o, k)) <==> Abs(left.Row(r).Get(k)) <= TOLERANCE
    {
      TinyTogether(left, o, k, r);
    }
  }

  lemma SameOrder(left: Matrix4, o: Matrix4, k: nat, i: nat, j: nat)
    requires k <= i < 4 && k <= j < 4 && Follows(left, o, k)
    ensures Abs(Leads(o, k).Get(i)) <= Abs(Leads(o, k).Get(j))
            <==> Abs(left.Column(k).Get(i)) <= Abs(left.Column(k).Get(j))
  {
    hide Lead, Leading, Congruent, ReducedBefore, Leads, Abs;
    ColumnEntries(left, k);
    LeadsEntries(o, k);
    assert Leads(o, k).Get(i) == Lead(o, k, o.Row(i)) && Leads(o, k).Get(j) == Lead(o, k, o.Row(j));
    assert left.Column(k).Get(i) == left.Row(i).Get(k) && left.Column(k).Get(j) == left.Row(j).Get(k);
    CandidateIsQuotient(left, o, k, i);
    CandidateIsQuotient(left, o, k, j);
    OrderOfScaled(left.Row(i).Get(k), left.Row(j).Get(k), Leading(o, k), Lead(o, k, o.Row(i)), Lead(o, k, o.Row(j)));
  }

  lemma TinyTogether(left: Matrix4, o: Matrix4, k: nat, r: nat)
    requires k <= r < 4 && Follows(left, o, k)
    ensures Abs(Lead(o, k, o.Row(r))) <= TOLERANCE * Abs(Leading(o, k)) <==> Abs(left.Row(r).Get(k)) <= TOLERANCE
  {
    hide Lead, Leading, Congruent, ReducedBefore, Abs;
    CandidateIsQuotient(left, o, k, r);
    WithinTolerance(left.Row(r).Get(k), Leading(o, k), Lead(o, k, o.Row(r)));
  }

  lemma HeadAlike(o: Matrix4, p: Matrix4, k: nat, v: Vector)
    requires k < 4 && forall i :: 0 <= i < k ==> o.Row(i) == p.Row(i)
    ensures Lead(o, k, v) == Lead(p, k, v)
  {
    hide Determinant;
    assert k > 0 ==> o.Row(0) == p.Row(0);
    assert k > 1 ==> o.Row(1) == p.Row(1);
    assert k > 2 ==> o.Row(2) == p.Row(2);
  }

  /** Exchanging two of the rows not yet chosen, in both, keeps the relation. */
  lemma FollowsAfterBringingUp(left: Matrix4, o: Matrix4, k: nat, row: nat)
    requires k <= row < 4 && Follows(left, o, k)
    ensures Follows(BroughtUp(left, k, row), BroughtUp(o, k, row), k)
  {
    hide Lead, Congruent, ReducedBefore, BroughtUp;
    var up, p := BroughtUp(left, k, row), BroughtUp(o, k, row);
    forall r: nat | r < 4
      ensures up.Row(r) == left.Row(if r == k then row else if r == row then k else r)
      ensures p.Row(r) == o.Row(if r == k then row else if r == row then k else r)
    {
      RowOfBroughtUp(left, k, row, r);
      RowOfBroughtUp(o, k, row, r);
    }
    HeadAlike(o, p, k, Unit(k));
    forall r | k <= r < 4 ensures Congruent(p, k, up.Row(r), p.Row(r)) {
      var from := if r == k then row else if r == row then k else r;
      CongruentBelowSwap(o, p, k, left.Row(from), o.Row(from));
    }
    BringingUpKeepsReduced(left, k, row);
  }

  lemma BringingUpKeepsReduced(left: Matrix4, k: nat, row: nat)
    requires k <= row < 4 && ReducedBefore(left, k)
    ensures ReducedBefore(BroughtUp(left, k, row), k)
  {
    hide ReducedBefore, Swap;
    if row != k {
      SwapKeepsReduced(left, k, row);
    }
  }

  lemma DivisionThenMinus(u: Vector, f: real, x: Vector, p: real)
    requires p != 0.0
    ensures Minus(u, f, Divided(x, p)) == Minus(u, f / p, x)
  {
    QuotientTimes(f, x.x0, p);
    QuotientTimes(f, x.x1, p);
    QuotientTimes(f, x.x2, p);
    QuotientTimes(f, x.x3, p);
  }

  lemma QuotientTimes(f: real, x: real, p: real)
    requires p != 0.0
    ensures f * (x / p) == f / p * x
  {
  }

  /** A row below the pivot after its turn: a multiple of the pivot row is gone. */
  lemma RowAfterTurn(up: Matrix4, k: nat, r: nat)
    requires k < r < 4 && up.Row(k).Get(k) != 0.0
    ensures var p := up.Row(k).Get(k);
            Cleared(DivideRow(up, k, p), k, 4).Row(r) == Minus(up.Row(r), up.Row(r).Get(k) / p, up.Row(k))
  {
    hide Minus, Cleared, Divided;
    var p := up.Row(k).Get(k);
    RowOfCleared(DivideRow(up, k, p), k, 4, r);
    DivisionThenMinus(up.Row(r), up.Row(r).Get(k), up.Row(k), p);
  }

  lemma FollowsAfterTurn(left: Matrix4, o: Matrix4, k: nat, row: nat)
    requires k <= row < 4 && Follows(left, o, k) && left.Row(row).Get(k) != 0.0
    ensures Follows(Eliminated(left, k, row), BroughtUp(o, k, row), k + 1)
  {
    hide Lead, Congruent, ReducedBefore, BroughtUp, Cleared, Minus;
    var up, p := BroughtUp(left, k, row), BroughtUp(o, k, row);
    FollowsAfterBringingUp(left, o, k, row);
    EliminatedIsReduced(left, k, row);
    RowOfBroughtUp(left, k, row, k);
    if k < 3 {
      NextLeading(up, p, k);
      forall r | k + 1 <= r < 4 ensures Congruent(p, k + 1, Eliminated(left, k, row).Row(r), p.Row(r)) {
        RowAfterTurn(up, k, r);
        CongruentAfterSubtraction(p, k, up.Row(r), p.Row(r), up.Row(k), up.Row(r).Get(k) / up.Row(k).Get(k));
      }
    }
  }

  /** The minor of one more row is the pivot times the minor before. */
  lemma NextLeading(up: Matrix4, p: Matrix4, k: nat)
    requires k < 3 && Follows(up, p, k) && up.Row(k).Get(k) != 0.0
    ensures Leading(p, k + 1) != 0.0
  {
    hide Congruent, ReducedBefore, Lead, Leading;
    CandidateIsQuotient(up, p, k, k);
    LeadingIsLead(p, k + 1);
  }

  lemma {:induction false} ReductionFollows(matrix: Matrix4, k: nat)
    requires k <= 4 && Reduction(matrix, k).Some?
    ensures Follows(Reduction(matrix, k).value, PivotOrder(matrix, k), k)
  {
    hide Follows, Eliminated, Leads;
    if k == 0 {
      FollowsAtStart(matrix);
    } else {
      ReductionFollows(matrix, k - 1);
      var left, o := Reduction(matrix, k - 1).value, PivotOrder(matrix, k - 1);
      SameChoice(left, o, k - 1);
      LargestPivot(left, k - 1);
      FollowsAfterTurn(left, o, k - 1, Largest(left, k - 1));
    }
  }

  lemma FollowsAtStart(matrix: Matrix4)
    ensures Follows(matrix, matrix, 0)
  {
    hide Congruent, Lead, Leading;
    LeadingIsLead(matrix, 0);
    forall r | 0 <= r < 4 ensures Congruent(matrix, 0, matrix.Row(r), matrix.Row(r)) {
      CongruentToItself(matrix, 0, matrix.Row(r));
    }
  }

  lemma RefusedInTurn(matrix: Matrix4, k: nat)
    requires k < 4 && Reduction(matrix, k).Some?
    ensures Reduction(matrix, k + 1).None? <==> RefusedAt(matrix, k)
  {
    hide Follows, Eliminated, Lead, Leading;
    ReductionFollows(matrix, k);
    SameChoice(Reduction(matrix, k).value, PivotOrder(matrix, k), k);
  }

  /**
   Elimination fails exactly when, for some k, with k rows chosen greedily by
   leading minors, every remaining row has a minor in the first k + 1 columns
   within the tolerance times the minor of the chosen rows.
   */
  lemma FailsExactlyWhenRefused(matrix: Matrix4)
    ensures Reduction(matrix, 4).None? <==> Refused(matrix)
  {
    hide Reduction, RefusedAt;
    NothingReduced(matrix);
    forall k | 0 <= k < 4 && Reduction(matrix, k).Some?
      ensures Reduction(matrix, k + 1).None? <==> RefusedAt(matrix, k)
    {
      RefusedInTurn(matrix, k);
    }
    if Reduction(matrix, 4).Some? {
      forall k | 0 <= k < 4 ensures !RefusedAt(matrix, k) {
        if Reduction(matrix, k).None? { StuckForGood(matrix, k, 4); }
        if Reduction(matrix, k + 1).None? { StuckForGood(matrix, k + 1, 4); }
      }
    } else {
      var k := FirstFailure(matrix);
    }
  }

  lemma FirstFailure(matrix: Matrix4) returns (k: nat)
    requires Reduction(matrix, 4).None?
    ensures k < 4 && Reduction(matrix, k).Some? && Reduction(matrix, k + 1).None?
  {
    hide Reduction;
    NothingReduced(matrix);
    k := if Reduction(matrix, 1).None? then 0 else if Reduction(matrix, 2).None? then 1
         else if Reduction(matrix, 3).None? then 2 else 3;
  }

  lemma NothingReduced(matrix: Matrix4)
    ensures Reduction(matrix, 0).Some?
  {
  }
}
