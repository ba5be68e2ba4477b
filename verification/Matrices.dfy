/** Bilinear forms, orthogonality and plane rotations of real matrices. A matrix is a function of two indices,
    so a statement about the first n of them holds for every size; a rotation turns two columns into each
    other, and turns two rows of the matrix it is applied to from both sides. */
module Matrices {
  import opened RealSums

  ghost function Times(x: Vec, y: Vec): Vec {
    i => x(i) * y(i)
  }

  ghost function Dot(n: nat, x: Vec, y: Vec): real {
    Sum(n, Times(x, y))
  }

  /** The matrix-vector product a*y. */
  ghost function Apply(n: nat, a: Mat, y: Vec): Vec {
    i => Dot(n, Row(a, i), y)
  }

  /** The bilinear form xᵀ a y. */
  ghost function Form(n: nat, a: Mat, x: Vec, y: Vec): real {
    Dot(n, x, Apply(n, a, y))
  }

  /** vᵀ a v: entry (i, j) is the form applied to columns i and j of v. */
  ghost function Conj(n: nat, a: Mat, v: Mat): Mat {
    (i, j) => Form(n, a, Col(v, i), Col(v, j))
  }

  ghost function Identity(): Mat {
    (i, j) => if i == j then 1.0 else 0.0
  }

  ghost predicate Symmetric(n: nat, a: Mat) {
    forall i, j :: 0 <= i < n && 0 <= j < n ==> a(i, j) == a(j, i)
  }

  ghost predicate Agree(n: nat, a: Mat, b: Mat) {
    forall i, j :: 0 <= i < n && 0 <= j < n ==> a(i, j) == b(i, j)
  }

  /** Both the columns and the rows of v are orthonormal. */
  ghost predicate Orthogonal(n: nat, v: Mat) {
    && (forall i, j :: 0 <= i < n && 0 <= j < n ==>
          Dot(n, Col(v, i), Col(v, j)) == Identity()(i, j))
    && (forall i, j :: 0 <= i < n && 0 <= j < n ==>
          Dot(n, Row(v, i), Row(v, j)) == Identity()(i, j))
  }

  ghost function Diagonal(a: Mat): Vec {
    i => a(i, i)
  }

  ghost function Trace(n: nat, a: Mat): real {
    Sum(n, Diagonal(a))
  }

  /** The square of entry (i, j) above the diagonal, zero elsewhere. */
  ghost function UpperSquares(a: Mat): Mat {
    (i, j) => if i < j then a(i, j) * a(i, j) else 0.0
  }

  /** The sum of squares above the diagonal. */
  ghost function OffSum(n: nat, a: Mat): real {
    Sum(n, RowSums(n, UpperSquares(a)))
  }

  // ----- Bilinearity

  lemma DotSymmetric(n: nat, x: Vec, y: Vec)
    ensures Dot(n, x, y) == Dot(n, y, x)
  {
    SumExt(n, Times(x, y), Times(y, x));
  }

  lemma DotLinear(n: nat, x: Vec, a: real, y: Vec, b: real, z: Vec, w: Vec)
    requires forall i :: 0 <= i < n ==> w(i) == a * y(i) + b * z(i)
    ensures Dot(n, x, w) == a * Dot(n, x, y) + b * Dot(n, x, z)
  {
    forall i | 0 <= i < n
      ensures Times(x, w)(i) == a * Times(x, y)(i) + b * Times(x, z)(i)
    {
    }
    SumLinear(n, a, Times(x, y), b, Times(x, z), Times(x, w));
  }

  lemma FormLinearRight(n: nat, m: Mat, x: Vec, a: real, y: Vec, b: real, z: Vec, w: Vec)
    requires forall i :: 0 <= i < n ==> w(i) == a * y(i) + b * z(i)
    ensures Form(n, m, x, w) == a * Form(n, m, x, y) + b * Form(n, m, x, z)
  {
    forall i | 0 <= i < n
      ensures Apply(n, m, w)(i) == a * Apply(n, m, y)(i) + b * Apply(n, m, z)(i)
    {
      DotLinear(n, Row(m, i), a, y, b, z, w);
    }
    DotLinear(n, x, a, Apply(n, m, y), b, Apply(n, m, z), Apply(n, m, w));
  }

  lemma FormLinearLeft(n: nat, m: Mat, x: Vec, a: real, y: Vec, b: real, z: Vec, w: Vec)
    requires forall i :: 0 <= i < n ==> w(i) == a * y(i) + b * z(i)
    ensures Form(n, m, w, x) == a * Form(n, m, y, x) + b * Form(n, m, z, x)
  {
    var mx := Apply(n, m, x);
    DotSymmetric(n, w, mx);
    DotSymmetric(n, y, mx);
    DotSymmetric(n, z, mx);
    DotLinear(n, mx, a, y, b, z, w);
  }

  lemma FormExt(n: nat, m: Mat, x: Vec, x': Vec, y: Vec, y': Vec)
    requires forall i :: 0 <= i < n ==> x(i) == x'(i) && y(i) == y'(i)
    ensures Form(n, m, x, y) == Form(n, m, x', y')
  {
    FormLinearRight(n, m, x, 1.0, y, 0.0, y, y');
    FormLinearLeft(n, m, y', 1.0, x, 0.0, x, x');
  }

  lemma FormIdentity(n: nat, x: Vec, y: Vec)
    ensures Form(n, Identity(), x, y) == Dot(n, x, y)
  {
    forall i | 0 <= i < n
      ensures Times(x, Apply(n, Identity(), y))(i) == Times(x, y)(i)
    {
      SumSingle(n, Times(Row(Identity(), i), y), i);
    }
    SumExt(n, Times(x, Apply(n, Identity(), y)), Times(x, y));
  }

  // ----- Plane rotations

  /** Entry k of a vector rotated in the plane (p, q), given its entries at p, q and k. */
  ghost function Turn(p: int, q: int, c: real, s: real, k: int, xp: real, xq: real, xk: real): real {
    if k == p then c * xp - s * xq else if k == q then s * xp + c * xq else xk
  }

  /** g with columns p and q rotated. */
  ghost function ColRot(g: Mat, p: int, q: int, c: real, s: real): Mat {
    (i, j) => Turn(p, q, c, s, j, g(i, p), g(i, q), g(i, j))
  }

  /** g with rows p and q rotated. */
  ghost function RowRot(g: Mat, p: int, q: int, c: real, s: real): Mat {
    (i, j) => Turn(p, q, c, s, i, g(p, j), g(q, j), g(i, j))
  }

  lemma FormColRotRight(n: nat, a: Mat, x: Vec, v: Mat, p: nat, q: nat, c: real, s: real, j: nat)
    requires p < q < n && j < n
    ensures Form(n, a, x, Col(ColRot(v, p, q, c, s), j)) ==
            Turn(p, q, c, s, j, Form(n, a, x, Col(v, p)), Form(n, a, x, Col(v, q)), Form(n, a, x, Col(v, j)))
  {
    var w := Col(ColRot(v, p, q, c, s), j);
    assert forall r :: w(r) == Turn(p, q, c, s, j, v(r, p), v(r, q), v(r, j));
    if j == p {
      FormLinearRight(n, a, x, c, Col(v, p), -s, Col(v, q), w);
    } else if j == q {
      FormLinearRight(n, a, x, s, Col(v, p), c, Col(v, q), w);
    } else {
      FormLinearRight(n, a, x, 1.0, Col(v, j), 0.0, Col(v, j), w);
    }
  }

  lemma FormColRotLeft(n: nat, a: Mat, x: Vec, v: Mat, p: nat, q: nat, c: real, s: real, i: nat)
    requires p < q < n && i < n
    ensures Form(n, a, Col(ColRot(v, p, q, c, s), i), x) ==
            Turn(p, q, c, s, i, Form(n, a, Col(v, p), x), Form(n, a, Col(v, q), x), Form(n, a, Col(v, i), x))
  {
    var w := Col(ColRot(v, p, q, c, s), i);
    assert forall r :: w(r) == Turn(p, q, c, s, i, v(r, p), v(r, q), v(r, i));
    if i == p {
      FormLinearLeft(n, a, x, c, Col(v, p), -s, Col(v, q), w);
    } else if i == q {
      FormLinearLeft(n, a, x, s, Col(v, p), c, Col(v, q), w);
    } else {
      FormLinearLeft(n, a, x, 1.0, Col(v, i), 0.0, Col(v, i), w);
    }
  }

  /** Entry (i, j) of vᵀ a v after rotating the columns of v. */
  lemma ConjRotatesAt(n: nat, a: Mat, v: Mat, p: nat, q: nat, c: real, s: real, i: nat, j: nat)
    requires p < q < n && i < n && j < n
    ensures Conj(n, a, ColRot(v, p, q, c, s))(i, j) ==
            RowRot(ColRot(Conj(n, a, v), p, q, c, s), p, q, c, s)(i, j)
  {
    var w := Col(ColRot(v, p, q, c, s), j);
    FormColRotLeft(n, a, w, v, p, q, c, s, i);
    FormColRotRight(n, a, Col(v, p), v, p, q, c, s, j);
    FormColRotRight(n, a, Col(v, q), v, p, q, c, s, j);
    FormColRotRight(n, a, Col(v, i), v, p, q, c, s, j);
  }

  /** Rotating two columns keeps the inner product of any two rows. */
  lemma RowDotRotates(n: nat, v: Mat, p: nat, q: nat, c: real, s: real, i: int, j: int)
    requires p < q < n && c * c + s * s == 1.0
    ensures Dot(n, Row(ColRot(v, p, q, c, s), i), Row(ColRot(v, p, q, c, s), j)) ==
            Dot(n, Row(v, i), Row(v, j))
  {
    var v' := ColRot(v, p, q, c, s);
    var f, g := Times(Row(v', i), Row(v', j)), Times(Row(v, i), Row(v, j));
    forall k | 0 <= k < n && k != p && k != q
      ensures f(k) == g(k)
    {
      TurnedEntry(v, p, q, c, s, i, k);
      TurnedEntry(v, p, q, c, s, j, k);
    }
    SumTwoChanges(n, f, g, p, q);
    TurnedProducts(v, p, q, c, s, i, j);
  }

  lemma TurnedEntry(v: Mat, p: int, q: int, c: real, s: real, i: int, k: int)
    ensures ColRot(v, p, q, c, s)(i, k) == Turn(p, q, c, s, k, v(i, p), v(i, q), v(i, k))
  {
  }

  lemma TurnedProducts(v: Mat, p: int, q: int, c: real, s: real, i: int, j: int)
    requires p < q && c * c + s * s == 1.0
    ensures var v' := ColRot(v, p, q, c, s);
            v'(i, p) * v'(j, p) + v'(i, q) * v'(j, q) == v(i, p) * v(j, p) + v(i, q) * v(j, q)
  {
    TurnedEntry(v, p, q, c, s, i, p);
    TurnedEntry(v, p, q, c, s, i, q);
    TurnedEntry(v, p, q, c, s, j, p);
    TurnedEntry(v, p, q, c, s, j, q);
    RotatedProduct(c, s, v(i, p), v(i, q), v(j, p), v(j, q));
  }

  /** A rotation of the plane keeps the inner product. */
  lemma RotatedProduct(c: real, s: real, x: real, y: real, z: real, w: real)
    requires c * c + s * s == 1.0
    ensures (c * x - s * y) * (c * z - s * w) + (s * x + c * y) * (s * z + c * w) == x * z + y * w
  {
    calc {
      (c * x - s * y) * (c * z - s * w) + (s * x + c * y) * (s * z + c * w);
      (c * c + s * s) * (x * z) + (c * c + s * s) * (y * w);
    }
  }

  lemma RotatedIdentity(g: Mat, p: int, q: int, c: real, s: real, i: int, j: int)
    requires p < q && c * c + s * s == 1.0
    requires g(p, p) == 1.0 && g(q, q) == 1.0 && g(p, q) == 0.0 && g(q, p) == 0.0
    requires g(i, j) == Identity()(i, j)
    requires g(p, j) == Identity()(p, j) && g(q, j) == Identity()(q, j)
    requires g(i, p) == Identity()(i, p) && g(i, q) == Identity()(i, q)
    ensures RowRot(ColRot(g, p, q, c, s), p, q, c, s)(i, j) == Identity()(i, j)
  {
    var xp := Turn(p, q, c, s, j, g(p, p), g(p, q), g(p, j));
    var xq := Turn(p, q, c, s, j, g(q, p), g(q, q), g(q, j));
    var xi := Turn(p, q, c, s, j, g(i, p), g(i, q), g(i, j));
    assert RowRot(ColRot(g, p, q, c, s), p, q, c, s)(i, j) == Turn(p, q, c, s, i, xp, xq, xi);
    assert xp == (if j == p then c else if j == q then s else 0.0);
    assert xq == (if j == p then -s else if j == q then c else 0.0);
    if i != p && i != q {
      assert g(i, p) == 0.0 && g(i, q) == 0.0;
    }
  }

  /** Rotations keep a matrix orthogonal. */
  lemma RotationKeepsOrthogonal(n: nat, v: Mat, p: nat, q: nat, c: real, s: real)
    requires p < q < n && c * c + s * s == 1.0 && Orthogonal(n, v)
    ensures Orthogonal(n, ColRot(v, p, q, c, s))
  {
    var v' := ColRot(v, p, q, c, s);
    forall i, j | 0 <= i < n && 0 <= j < n
      ensures Dot(n, Row(v', i), Row(v', j)) == Identity()(i, j)
    {
      RowDotRotates(n, v, p, q, c, s, i, j);
    }
    var g := Conj(n, Identity(), v);
    forall i, j | 0 <= i < n && 0 <= j < n
      ensures g(i, j) == Identity()(i, j)
    {
      FormIdentity(n, Col(v, i), Col(v, j));
    }
    forall i, j | 0 <= i < n && 0 <= j < n
      ensures Dot(n, Col(v', i), Col(v', j)) == Identity()(i, j)
    {
      FormIdentity(n, Col(v', i), Col(v', j));
      ConjRotatesAt(n, Identity(), v, p, q, c, s, i, j);
      RotatedIdentity(g, p, q, c, s, i, j);
    }
  }

  lemma IdentityOrthogonal(n: nat)
    ensures Orthogonal(n, Identity())
  {
    forall i, j | 0 <= i < n && 0 <= j < n
      ensures Dot(n, Col(Identity(), i), Col(Identity(), j)) == Identity()(i, j)
      ensures Dot(n, Row(Identity(), i), Row(Identity(), j)) == Identity()(i, j)
    {
      SumSingle(n, Times(Col(Identity(), i), Col(Identity(), j)), i);
      SumSingle(n, Times(Row(Identity(), i), Row(Identity(), j)), i);
    }
  }

  lemma ConjIdentity(n: nat, a: Mat)
    ensures Agree(n, Conj(n, a, Identity()), a)
  {
    forall i, j | 0 <= i < n && 0 <= j < n
      ensures Conj(n, a, Identity())(i, j) == a(i, j)
    {
      SumSingle(n, Times(Row(a, i), Col(Identity(), j)), j);
      SumSingle(n, Times(Col(Identity(), i), Apply(n, a, Col(Identity(), j))), i);
    }
  }
}
