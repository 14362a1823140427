/**
 Vectors, 4x4 matrices and determinants over exact reals, for the inversion
 in WebAssembly/shims/D3DX8Math.h.
 */
module Matrix {

  function Abs(x: real): real {
    if x < 0.0 then -x else x
  }

  // ----- Vectors and matrices

  datatype Vector = Vector(x0: real, x1: real, x2: real, x3: real) {
    function Get(i: nat): real
      requires i < 4
    {
      if i == 0 then x0 else if i == 1 then x1 else if i == 2 then x2 else x3
    }

    function Put(i: nat, value: real): Vector
      requires i < 4
    {
      if i == 0 then this.(x0 := value) else if i == 1 then this.(x1 := value)
      else if i == 2 then this.(x2 := value) else this.(x3 := value)
    }
  }

  datatype Matrix4 = Rows(r0: Vector, r1: Vector, r2: Vector, r3: Vector) {
    function Row(i: nat): Vector
      requires i < 4
    {
      if i == 0 then r0 else if i == 1 then r1 else if i == 2 then r2 else r3
    }

    function WithRow(i: nat, v: Vector): Matrix4
      requires i < 4
    {
      if i == 0 then this.(r0 := v) else if i == 1 then this.(r1 := v)
      else if i == 2 then this.(r2 := v) else this.(r3 := v)
    }

    function Column(c: nat): Vector
      requires c < 4
    {
      Vector(r0.Get(c), r1.Get(c), r2.Get(c), r3.Get(c))
    }
  }

  const IDENTITY: Matrix4 :=
    Rows(Vector(1.0, 0.0, 0.0, 0.0), Vector(0.0, 1.0, 0.0, 0.0), Vector(0.0, 0.0, 1.0, 0.0), Vector(0.0, 0.0, 0.0, 1.0))

  function Dot(u: Vector, v: Vector): real {
    u.x0 * v.x0 + u.x1 * v.x1 + u.x2 * v.x2 + u.x3 * v.x3
  }

  function RowTimes(u: Vector, m: Matrix4): Vector {
    Vector(Dot(u, m.Column(0)), Dot(u, m.Column(1)), Dot(u, m.Column(2)), Dot(u, m.Column(3)))
  }

  /** The product computed by operator* on D3DXMATRIX. */
  function Product(left: Matrix4, right: Matrix4): Matrix4 {
    Rows(RowTimes(left.r0, right), RowTimes(left.r1, right), RowTimes(left.r2, right), RowTimes(left.r3, right))
  }

  // ----- Row operations

  function Scaled(v: Vector, k: real): Vector {
    Vector(v.x0 * k, v.x1 * k, v.x2 * k, v.x3 * k)
  }

  function Divided(v: Vector, p: real): Vector
    requires p != 0.0
  {
    Vector(v.x0 / p, v.x1 / p, v.x2 / p, v.x3 / p)
  }

  function Reduced(x: real, factor: real, y: real): real {
    x - factor * y
  }

  function Minus(u: Vector, k: real, v: Vector): Vector {
    Vector(Reduced(u.x0, k, v.x0), Reduced(u.x1, k, v.x1), Reduced(u.x2, k, v.x2), Reduced(u.x3, k, v.x3))
  }

  function Swap(m: Matrix4, i: nat, j: nat): Matrix4
    requires i < 4 && j < 4
  {
    m.WithRow(i, m.Row(j)).WithRow(j, m.Row(i))
  }

  function DivideRow(m: Matrix4, i: nat, p: real): Matrix4
    requires i < 4 && p != 0.0
  {
    m.WithRow(i, Divided(m.Row(i), p))
  }

  /** Subtracts `k` times row `j` from row `i`. */
  function SubtractRow(m: Matrix4, i: nat, k: real, j: nat): Matrix4
    requires i < 4 && j < 4
  {
    m.WithRow(i, Minus(m.Row(i), k, m.Row(j)))
  }

  // ----- Determinants

  /** The 2x2 minor of two rows in two columns. */
  function Minor(u: Vector, v: Vector, i: nat, j: nat): real
    requires i < 4 && j < 4
  {
    u.Get(i) * v.Get(j) - u.Get(j) * v.Get(i)
  }

  /** A minor of the first two rows times the complementary minor of the last two. */
  function Term(a: Vector, b: Vector, c: Vector, d: Vector, i: nat, j: nat, k: nat, l: nat): real
    requires i < 4 && j < 4 && k < 4 && l < 4
  {
    Minor(a, b, i, j) * Minor(c, d, k, l)
  }

  /** The determinant of four rows: Laplace expansion along the first two rows. */
  function Det(a: Vector, b: Vector, c: Vector, d: Vector): real {
    Term(a, b, c, d, 0, 1, 2, 3) - Term(a, b, c, d, 0, 2, 1, 3) + Term(a, b, c, d, 0, 3, 1, 2)
    + Term(a, b, c, d, 1, 2, 0, 3) - Term(a, b, c, d, 1, 3, 0, 2) + Term(a, b, c, d, 2, 3, 0, 1)
  }

  function Determinant(m: Matrix4): real {
    Det(m.r0, m.r1, m.r2, m.r3)
  }

  /** A product of two minors, written out. */
  lemma MinorProduct(a: Vector, b: Vector, c: Vector, d: Vector, i: nat, j: nat, k: nat, l: nat)
    requires i < 4 && j < 4 && k < 4 && l < 4
    ensures Term(a, b, c, d, i, j, k, l) ==
            a.Get(i) * b.Get(j) * c.Get(k) * d.Get(l) - a.Get(i) * b.Get(j) * c.Get(l) * d.Get(k)
            - a.Get(j) * b.Get(i) * c.Get(k) * d.Get(l) + a.Get(j) * b.Get(i) * c.Get(l) * d.Get(k)
  {
  }

  /** The Leibniz formula: one signed product for each of the 24 permutations. */
  lemma Leibniz(a: Vector, b: Vector, c: Vector, d: Vector)
    ensures Det(a, b, c, d) ==
            a.x0 * b.x1 * c.x2 * d.x3 - a.x0 * b.x1 * c.x3 * d.x2
            - a.x1 * b.x0 * c.x2 * d.x3 + a.x1 * b.x0 * c.x3 * d.x2
            - a.x0 * b.x2 * c.x1 * d.x3 + a.x0 * b.x2 * c.x3 * d.x1
            + a.x2 * b.x0 * c.x1 * d.x3 - a.x2 * b.x0 * c.x3 * d.x1
            + a.x0 * b.x3 * c.x1 * d.x2 - a.x0 * b.x3 * c.x2 * d.x1
            - a.x3 * b.x0 * c.x1 * d.x2 + a.x3 * b.x0 * c.x2 * d.x1
            + a.x1 * b.x2 * c.x0 * d.x3 - a.x1 * b.x2 * c.x3 * d.x0
            - a.x2 * b.x1 * c.x0 * d.x3 + a.x2 * b.x1 * c.x3 * d.x0
            - a.x1 * b.x3 * c.x0 * d.x2 + a.x1 * b.x3 * c.x2 * d.x0
            + a.x3 * b.x1 * c.x0 * d.x2 - a.x3 * b.x1 * c.x2 * d.x0
            + a.x2 * b.x3 * c.x0 * d.x1 - a.x2 * b.x3 * c.x1 * d.x0
            - a.x3 * b.x2 * c.x0 * d.x1 + a.x3 * b.x2 * c.x1 * d.x0
  {
    MinorProduct(a, b, c, d, 0, 1, 2, 3);
    MinorProduct(a, b, c, d, 0, 2, 1, 3);
    MinorProduct(a, b, c, d, 0, 3, 1, 2);
    MinorProduct(a, b, c, d, 1, 2, 0, 3);
    MinorProduct(a, b, c, d, 1, 3, 0, 2);
    MinorProduct(a, b, c, d, 2, 3, 0, 1);
  }

  lemma SwapFirstTwo(a: Vector, b: Vector, c: Vector, d: Vector)
    ensures Det(b, a, c, d) == -Det(a, b, c, d)
  {
  }

  lemma SwapMiddleTwo(a: Vector, b: Vector, c: Vector, d: Vector)
    ensures Det(a, c, b, d) == -Det(a, b, c, d)
  {
    Leibniz(a, b, c, d);
    Leibniz(a, c, b, d);
  }

  lemma SwapLastTwo(a: Vector, b: Vector, c: Vector, d: Vector)
    ensures Det(a, b, d, c) == -Det(a, b, c, d)
  {
  }

  lemma EntryOfScaled(v: Vector, k: real, i: nat)
    requires i < 4
    ensures Scaled(v, k).Get(i) == v.Get(i) * k
  {
  }

  lemma ScaledMinor(x: real, y: real, p: real, q: real, k: real)
    ensures x * k * q - y * k * p == k * (x * q - y * p)
  {
    assert k * (x * q - y * p) == k * (x * q) - k * (y * p);
  }

  lemma MinorOfScaled(a: Vector, b: Vector, k: real, i: nat, j: nat)
    requires i < 4 && j < 4
    ensures Minor(Scaled(a, k), b, i, j) == k * Minor(a, b, i, j)
  {
    hide Scaled, Vector.Get;
    EntryOfScaled(a, k, i);
    EntryOfScaled(a, k, j);
    ScaledMinor(a.Get(i), a.Get(j), b.Get(i), b.Get(j), k);
  }

  lemma ScaledProduct(k: real, m: real, n: real, scaled: real)
    requires scaled == k * m
    ensures scaled * n == k * (m * n)
  {
  }

  lemma ScaledTerm(a: Vector, b: Vector, c: Vector, d: Vector, k: real, i: nat, j: nat, p: nat, q: nat)
    requires i < 4 && j < 4 && p < 4 && q < 4
    ensures Term(Scaled(a, k), b, c, d, i, j, p, q) == k * Term(a, b, c, d, i, j, p, q)
  {
    hide Minor, Scaled;
    MinorOfScaled(a, b, k, i, j);
    ScaledProduct(k, Minor(a, b, i, j), Minor(c, d, p, q), Minor(Scaled(a, k), b, i, j));
  }

  lemma ScaleFirst(a: Vector, b: Vector, c: Vector, d: Vector, k: real)
    ensures Det(Scaled(a, k), b, c, d) == k * Det(a, b, c, d)
  {
    ScaledTerm(a, b, c, d, k, 0, 1, 2, 3);
    ScaledTerm(a, b, c, d, k, 0, 2, 1, 3);
    ScaledTerm(a, b, c, d, k, 0, 3, 1, 2);
    ScaledTerm(a, b, c, d, k, 1, 2, 0, 3);
    ScaledTerm(a, b, c, d, k, 1, 3, 0, 2);
    ScaledTerm(a, b, c, d, k, 2, 3, 0, 1);
    Distribute(k, Det(a, b, c, d),
               Term(a, b, c, d, 0, 1, 2, 3), Term(a, b, c, d, 0, 2, 1, 3), Term(a, b, c, d, 0, 3, 1, 2),
               Term(a, b, c, d, 1, 2, 0, 3), Term(a, b, c, d, 1, 3, 0, 2), Term(a, b, c, d, 2, 3, 0, 1));
  }

  lemma Distribute(k: real, sum: real, t0: real, t1: real, t2: real, t3: real, t4: real, t5: real)
    requires sum == t0 - t1 + t2 + t3 - t4 + t5
    ensures k * sum == k * t0 - k * t1 + k * t2 + k * t3 - k * t4 + k * t5
  {
  }

  lemma EntryOfMinus(a: Vector, k: real, b: Vector, i: nat)
    requires i < 4
    ensures Minus(a, k, b).Get(i) == a.Get(i) - k * b.Get(i)
  {
  }

  lemma SubtractSecondFromFirst(a: Vector, b: Vector, c: Vector, d: Vector, k: real)
    ensures Det(Minus(a, k, b), b, c, d) == Det(a, b, c, d)
  {
  }

  /** Exchanging any two rows negates the determinant. */
  lemma DeterminantOfSwap(m: Matrix4, i: nat, j: nat)
    requires i < 4 && j < 4 && i != j
    ensures Determinant(Swap(m, i, j)) == -Determinant(m)
  {
    assert Swap(m, i, j) == Swap(m, j, i);
    var low, high := if i < j then i else j, if i < j then j else i;
    var a, b, c, d := m.r0, m.r1, m.r2, m.r3;
    if low == 0 && high == 1 {
      SwapFirstTwo(a, b, c, d);
    } else if low == 1 && high == 2 {
      SwapMiddleTwo(a, b, c, d);
    } else if low == 2 {
      SwapLastTwo(a, b, c, d);
    } else if low == 0 && high == 2 {
      SwapFirstTwo(a, b, c, d); SwapMiddleTwo(b, a, c, d); SwapFirstTwo(b, c, a, d);
    } else if low == 1 {
      SwapLastTwo(a, b, c, d); SwapMiddleTwo(a, b, d, c); SwapLastTwo(a, d, b, c);
    } else {
      SwapFirstTwo(a, b, c, d); SwapLastTwo(b, a, c, d); SwapMiddleTwo(b, a, d, c);
      SwapFirstTwo(b, d, a, c); SwapLastTwo(d, b, a, c);
    }
  }

  lemma ScaledFrontRow(m: Matrix4, k: real)
    ensures Determinant(m.WithRow(0, Scaled(m.r0, k))) == k * Determinant(m)
  {
    hide Det, Scaled;
    ScaleFirst(m.r0, m.r1, m.r2, m.r3, k);
  }

  lemma RowToFront(m: Matrix4, i: nat, v: Vector)
    requires 0 < i < 4
    ensures Swap(m, 0, i).r0 == m.Row(i) && Swap(m.WithRow(i, v), 0, i) == Swap(m, 0, i).WithRow(0, v)
  {
  }

  /** Scaling a row scales the determinant. */
  lemma DeterminantOfScaledRow(m: Matrix4, i: nat, k: real)
    requires i < 4
    ensures Determinant(m.WithRow(i, Scaled(m.Row(i), k))) == k * Determinant(m)
  {
    hide Determinant, Scaled, Swap;
    if i == 0 {
      ScaledFrontRow(m, k);
    } else {
      var front, scaled := Swap(m, 0, i), m.WithRow(i, Scaled(m.Row(i), k));
      RowToFront(m, i, Scaled(m.Row(i), k));
      DeterminantOfSwap(m, 0, i);
      DeterminantOfSwap(scaled, 0, i);
      ScaledFrontRow(front, k);
      NegateFactor(k, Determinant(m), Determinant(front), Determinant(Swap(scaled, 0, i)));
    }
  }

  lemma NegateFactor(k: real, x: real, y: real, z: real)
    requires y == -x && z == k * y
    ensures -z == k * x
  {
  }

  /** Subtracting a multiple of another row leaves the determinant unchanged. */
  lemma DeterminantOfSubtraction(m: Matrix4, i: nat, k: real, j: nat)
    requires i < 4 && j < 4 && i != j
    ensures Determinant(SubtractRow(m, i, k, j)) == Determinant(m)
    decreases i
  {
    var reduced := SubtractRow(m, i, k, j);
    if i == 0 && j == 1 {
      SubtractSecondFromFirst(m.r0, m.r1, m.r2, m.r3, k);
    } else if i == 0 {
      var near := Swap(m, 1, j);
      DeterminantOfSwap(m, 1, j);
      SubtractSecondFromFirst(near.r0, near.r1, near.r2, near.r3, k);
      assert Swap(reduced, 1, j) == near.WithRow(0, Minus(near.r0, k, near.r1));
      DeterminantOfSwap(reduced, 1, j);
    } else {
      var front := Swap(m, 0, i);
      var at := if j == 0 then i else j;
      DeterminantOfSwap(m, 0, i);
      DeterminantOfSubtraction(front, 0, k, at);
      assert Swap(reduced, 0, i) == SubtractRow(front, 0, k, at);
      DeterminantOfSwap(reduced, 0, i);
    }
  }

  lemma DivisionIsScaling(v: Vector, p: real)
    requires p != 0.0
    ensures Divided(v, p) == Scaled(v, 1.0 / p)
  {
  }

  lemma DeterminantOfIdentity()
    ensures Determinant(IDENTITY) == 1.0
  {
    Leibniz(IDENTITY.r0, IDENTITY.r1, IDENTITY.r2, IDENTITY.r3);
  }

  // ----- Absolute values

  lemma AbsOfProduct(x: real, y: real)
    ensures Abs(x * y) == Abs(x) * Abs(y)
  {
  }

  lemma AbsOfProductIs(x: real, y: real, z: real)
    requires z == x * y
    ensures Abs(z) == Abs(x) * Abs(y)
  {
    AbsOfProduct(x, y);
  }

  lemma OrderOfMultiples(x: real, y: real, s: real)
    requires s > 0.0
    ensures x * s <= y * s <==> x <= y
  {
  }

  lemma ProductWithin(x: real, y: real, a: real, b: real, product: real, bound: real)
    requires Abs(x) <= a && Abs(y) <= b && product == x * y && bound == a * b
    ensures Abs(product) <= bound && 0.0 <= bound
  {
    AbsOfProduct(x, y);
    ProductGrows(Abs(x), a, Abs(y), b);
  }

  lemma ProductGrows(x: real, a: real, y: real, b: real)
    requires 0.0 <= x <= a && 0.0 <= y <= b
    ensures x * y <= a * b && 0.0 <= a * b
  {
    assert x * y <= a * y;
  }
}
