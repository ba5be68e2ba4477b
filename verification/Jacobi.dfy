/** The cyclic Jacobi eigensolver of internal/cohort/mds.go, over the reals: what every
    rotation keeps and what it removes. */
module Jacobi {
  import opened RealSums
  import opened Matrices
  import opened Grids
  import opened Arith

  const JACOBI_MAX_SWEEPS := 100

  ghost function Sq(x: real): real {
    x * x
  }

  // ----- One rotation, entry by entry

  /** What one pass of the rotation body leaves in m. */
  ghost function Step(m: Mat, p: int, q: int, t: real, c: real, s: real): Mat {
    (i, j) =>
      if i == p && j == p then m(p, p) - t * m(p, q)
      else if i == q && j == q then m(q, q) + t * m(p, q)
      else if (i == p && j == q) || (i == q && j == p) then 0.0
      else if j == p then c * m(i, p) - s * m(i, q)
      else if j == q then c * m(i, q) + s * m(i, p)
      else if i == p then c * m(j, p) - s * m(j, q)
      else if i == q then c * m(j, q) + s * m(j, p)
      else m(i, j)
  }

  /** (t, c, s) turn the plane by an angle that annihilates apq. */
  ghost predicate Annihilates(app: real, aqq: real, apq: real, t: real, c: real, s: real) {
    && c * c + s * s == 1.0
    && s == t * c
    && apq * (t * t) + (aqq - app) * t == apq
  }

  /** The rotated diagonal block, computed by the two-sided product. */
  lemma BlockRotates(app: real, aqq: real, apq: real, t: real, c: real, s: real)
    requires Annihilates(app, aqq, apq, t, c, s)
    ensures c * (c * app - s * apq) - s * (c * apq - s * aqq) == app - t * apq
    ensures s * (s * app + c * apq) + c * (s * apq + c * aqq) == aqq + t * apq
    ensures c * (s * app + c * apq) - s * (s * apq + c * aqq) == 0.0
    ensures s * (c * app - s * apq) + c * (c * apq - s * aqq) == 0.0
  {
    var cc := c * c;
    assert c * s == t * cc;
    assert s * s == t * t * cc;
    assert cc + t * t * cc == 1.0;
    var d := (aqq - app) * t;
    assert d == apq - apq * (t * t);
    calc {
      c * (c * app - s * apq) - s * (c * apq - s * aqq);
      cc * app - 2.0 * (c * s) * apq + (s * s) * aqq;
      cc * app - 2.0 * (t * cc) * apq + (t * t * cc) * aqq;
      (cc + t * t * cc) * app - 2.0 * (t * cc) * apq + (t * cc) * d;
      app - 2.0 * (t * cc) * apq + (t * cc) * (apq - apq * (t * t));
      app - t * apq * (cc + t * t * cc);
      app - t * apq;
    }
    calc {
      s * (s * app + c * apq) + c * (s * apq + c * aqq);
      (s * s) * app + 2.0 * (c * s) * apq + cc * aqq;
      (cc + s * s) * (app + aqq) - (cc * app - 2.0 * (c * s) * apq + (s * s) * aqq);
      aqq + t * apq;
    }
    calc {
      c * (s * app + c * apq) - s * (s * apq + c * aqq);
      (c * s) * app + cc * apq - (s * s) * apq - (c * s) * aqq;
      cc * apq - (t * t * cc) * apq - cc * d;
      0.0;
    }
  }

  /** The two-sided rotation at (i, j), written out. */
  ghost function Rotated(m: Mat, p: int, q: int, c: real, s: real, i: int, j: int): real {
    Turn(p, q, c, s, i, Turn(p, q, c, s, j, m(p, p), m(p, q), m(p, j)),
         Turn(p, q, c, s, j, m(q, p), m(q, q), m(q, j)), Turn(p, q, c, s, j, m(i, p), m(i, q), m(i, j)))
  }

  lemma StepRotatesBlock(m: Mat, p: int, q: int, t: real, c: real, s: real, i: int, j: int)
    requires p < q && m(p, q) == m(q, p) && i in {p, q} && j in {p, q}
    requires Annihilates(m(p, p), m(q, q), m(p, q), t, c, s)
    ensures Step(m, p, q, t, c, s)(i, j) == Rotated(m, p, q, c, s, i, j)
  {
    hide Annihilates;
    BlockRotates(m(p, p), m(q, q), m(p, q), t, c, s);
  }

  lemma StepRotatesLines(m: Mat, p: int, q: int, t: real, c: real, s: real, i: int, j: int)
    requires p < q && m(p, j) == m(j, p) && m(q, j) == m(j, q) && !(i in {p, q} && j in {p, q})
    ensures Step(m, p, q, t, c, s)(i, j) == Rotated(m, p, q, c, s, i, j)
  {
  }

  /** The coded update is the two-sided rotation of a symmetric matrix. */
  lemma StepRotates(n: nat, m: Mat, p: nat, q: nat, t: real, c: real, s: real, i: nat, j: nat)
    requires p < q < n && i < n && j < n && Symmetric(n, m)
    requires Annihilates(m(p, p), m(q, q), m(p, q), t, c, s)
    ensures Step(m, p, q, t, c, s)(i, j) == RowRot(ColRot(m, p, q, c, s), p, q, c, s)(i, j)
  {
    hide Step, Annihilates, Turn;
    if i in {p, q} && j in {p, q} {
      StepRotatesBlock(m, p, q, t, c, s, i, j);
    } else {
      StepRotatesLines(m, p, q, t, c, s, i, j);
    }
  }

  // ----- The off-diagonal sum

  /** Squares of all entries off the diagonal. */
  ghost function OffSquares(m: Mat): Mat {
    (i, j) => if i == j then 0.0 else m(i, j) * m(i, j)
  }

  ghost function FullOff(n: nat, m: Mat): real {
    Sum(n, RowSums(n, OffSquares(m)))
  }

  /** The coded sum counts each symmetric pair once. */
  lemma FullOffIsTwice(n: nat, m: Mat)
    requires Symmetric(n, m)
    ensures FullOff(n, m) == 2.0 * OffSum(n, m)
  {
    var u := UpperSquares(m);
    forall i | 0 <= i < n
      ensures RowSums(n, OffSquares(m))(i) == 1.0 * RowSums(n, u)(i) + 1.0 * ColSums(n, u)(i)
    {
      SumLinear(n, 1.0, Row(u, i), 1.0, Col(u, i), Row(OffSquares(m), i));
    }
    SumLinear(n, 1.0, RowSums(n, u), 1.0, ColSums(n, u), RowSums(n, OffSquares(m)));
    SumExchange(n, n, u);
  }

  lemma StepRowOff(n: nat, m: Mat, p: nat, q: nat, t: real, c: real, s: real, i: nat)
    requires p < q < n && i < n && i != p && i != q
    requires c * c + s * s == 1.0
    ensures RowSums(n, OffSquares(Step(m, p, q, t, c, s)))(i) == RowSums(n, OffSquares(m))(i)
  {
    var m' := Step(m, p, q, t, c, s);
    var f, g := Row(OffSquares(m'), i), Row(OffSquares(m), i);
    SumTwoChanges(n, f, g, p, q);
    assert m'(i, p) == c * m(i, p) - s * m(i, q);
    assert m'(i, q) == s * m(i, p) + c * m(i, q);
    RotatedProduct(c, s, m(i, p), m(i, q), m(i, p), m(i, q));
  }

  lemma StepPivotPair(m: Mat, p: int, q: int, t: real, c: real, s: real, j: int)
    requires p < q && j != p && j != q && c * c + s * s == 1.0
    requires m(p, j) == m(j, p) && m(q, j) == m(j, q)
    ensures var o', o := OffSquares(Step(m, p, q, t, c, s)), OffSquares(m);
            o'(p, j) + o'(q, j) == o(p, j) + o(q, j)
  {
    var m' := Step(m, p, q, t, c, s);
    assert m'(p, j) == c * m(j, p) - s * m(j, q);
    assert m'(q, j) == s * m(j, p) + c * m(j, q);
    RotatedProduct(c, s, m(j, p), m(j, q), m(j, p), m(j, q));
  }

  /** Two pairs of vectors whose sums agree except at p and q, where the first vanishes. */
  lemma TwoRowsSum(n: nat, x': Vec, y': Vec, x: Vec, y: Vec, p: nat, q: nat, w: real)
    requires p < q < n
    requires forall j :: 0 <= j < n && j != p && j != q ==> x'(j) + y'(j) == x(j) + y(j)
    requires x'(p) + y'(p) == 0.0 && x'(q) + y'(q) == 0.0
    requires x(p) + y(p) == w && x(q) + y(q) == w
    ensures Sum(n, x') + Sum(n, y') == Sum(n, x) + Sum(n, y) - 2.0 * w
  {
    var h': Vec := j => x'(j) + y'(j);
    var h: Vec := j => x(j) + y(j);
    SumTwoChanges(n, h', h, p, q);
    SumOfSums(n, x', y', h');
    SumOfSums(n, x, y, h);
  }

  lemma {:induction false} SumOfSums(n: nat, f: Vec, g: Vec, h: Vec)
    requires forall i :: 0 <= i < n ==> h(i) == f(i) + g(i)
    ensures Sum(n, h) == Sum(n, f) + Sum(n, g)
  {
    if n > 0 { SumOfSums(n - 1, f, g, h); }
  }

  lemma StepPivotBlock(m: Mat, p: int, q: int, t: real, c: real, s: real)
    requires p < q && m(p, q) == m(q, p)
    ensures var o', o, w := OffSquares(Step(m, p, q, t, c, s)), OffSquares(m), m(p, q) * m(p, q);
            o'(p, p) + o'(q, p) == 0.0 == o'(p, q) + o'(q, q) && o(p, p) + o(q, p) == w == o(p, q) + o(q, q)
  {
  }

  lemma StepPivotRowsOff(n: nat, m: Mat, p: nat, q: nat, t: real, c: real, s: real)
    requires p < q < n && Symmetric(n, m)
    requires c * c + s * s == 1.0
    ensures var r', r := RowSums(n, OffSquares(Step(m, p, q, t, c, s))), RowSums(n, OffSquares(m));
            r'(p) + r'(q) == r(p) + r(q) - 2.0 * (m(p, q) * m(p, q))
  {
    hide Step, OffSquares;
    var o', o := OffSquares(Step(m, p, q, t, c, s)), OffSquares(m);
    forall j | 0 <= j < n && j != p && j != q
      ensures o'(p, j) + o'(q, j) == o(p, j) + o(q, j)
    {
      StepPivotPair(m, p, q, t, c, s, j);
    }
    StepPivotBlock(m, p, q, t, c, s);
    TwoRowsSum(n, Row(o', p), Row(o', q), Row(o, p), Row(o, q), p, q, m(p, q) * m(p, q));
  }

  lemma StepFullOff(n: nat, m: Mat, p: nat, q: nat, t: real, c: real, s: real)
    requires p < q < n && Symmetric(n, m)
    requires c * c + s * s == 1.0
    ensures FullOff(n, Step(m, p, q, t, c, s)) == FullOff(n, m) - 2.0 * (m(p, q) * m(p, q))
  {
    var r', r := RowSums(n, OffSquares(Step(m, p, q, t, c, s))), RowSums(n, OffSquares(m));
    forall i | 0 <= i < n && i != p && i != q
      ensures r'(i) == r(i)
    {
      StepRowOff(n, m, p, q, t, c, s, i);
    }
    SumTwoChanges(n, r', r, p, q);
    StepPivotRowsOff(n, m, p, q, t, c, s);
  }

  /** A step takes the square of the annihilated entry off the coded sum. */
  lemma StepOff(n: nat, m: Mat, p: nat, q: nat, t: real, c: real, s: real)
    requires p < q < n && Symmetric(n, m) && Symmetric(n, Step(m, p, q, t, c, s))
    requires c * c + s * s == 1.0
    ensures OffSum(n, Step(m, p, q, t, c, s)) == OffSum(n, m) - Sq(m(p, q))
  {
    hide FullOff, OffSum, Step;
    StepFullOff(n, m, p, q, t, c, s);
    FullOffIsTwice(n, m);
    FullOffIsTwice(n, Step(m, p, q, t, c, s));
  }

  // ----- What the solver keeps

  /** m is vᵀ a v for an orthogonal v. */
  ghost predicate Decomposes(n: nat, a: Mat, m: Mat, v: Mat) {
    Symmetric(n, m) && Orthogonal(n, v) && Agree(n, m, Conj(n, a, v))
  }

  lemma OrthogonalExt(n: nat, v: Mat, v': Mat)
    requires Orthogonal(n, v) && Agree(n, v, v')
    ensures Orthogonal(n, v')
  {
    forall i, j | 0 <= i < n && 0 <= j < n
      ensures Dot(n, Col(v', i), Col(v', j)) == Dot(n, Col(v, i), Col(v, j))
      ensures Dot(n, Row(v', i), Row(v', j)) == Dot(n, Row(v, i), Row(v, j))
    {
      SumExt(n, Times(Col(v', i), Col(v', j)), Times(Col(v, i), Col(v, j)));
      SumExt(n, Times(Row(v', i), Row(v', j)), Times(Row(v, i), Row(v, j)));
    }
  }

  lemma OffSumExt(n: nat, m: Mat, m': Mat)
    requires Agree(n, m, m')
    ensures OffSum(n, m) == OffSum(n, m')
    ensures Trace(n, m) == Trace(n, m')
  {
    forall i | 0 <= i < n
      ensures RowSums(n, UpperSquares(m))(i) == RowSums(n, UpperSquares(m'))(i)
    {
      SumExt(n, Row(UpperSquares(m), i), Row(UpperSquares(m'), i));
    }
    SumExt(n, RowSums(n, UpperSquares(m)), RowSums(n, UpperSquares(m')));
    SumExt(n, Diagonal(m), Diagonal(m'));
  }

  /** One rotation: the decomposition and the trace survive, and the off-diagonal sum falls by
      exactly the square of the annihilated entry. */
  lemma RotationKeeps(n: nat, a: Mat, m: Mat, v: Mat, m': Mat, v': Mat, p: nat, q: nat,
                      t: real, c: real, s: real)
    requires p < q < n && Decomposes(n, a, m, v)
    requires Annihilates(m(p, p), m(q, q), m(p, q), t, c, s)
    requires Agree(n, m', Step(m, p, q, t, c, s)) && Agree(n, v', ColRot(v, p, q, c, s))
    ensures Decomposes(n, a, m', v')
    ensures Trace(n, m') == Trace(n, m)
    ensures OffSum(n, m') == OffSum(n, m) - Sq(m(p, q))
  {
    var st := Step(m, p, q, t, c, s);
    assert Symmetric(n, st) && Symmetric(n, m');
    OffSumExt(n, m', st);
    StepOff(n, m, p, q, t, c, s);
    SumTwoChanges(n, Diagonal(st), Diagonal(m), p, q);
    RotationKeepsOrthogonal(n, v, p, q, c, s);
    OrthogonalExt(n, ColRot(v, p, q, c, s), v');
    forall i, j | 0 <= i < n && 0 <= j < n
      ensures m'(i, j) == Conj(n, a, v')(i, j)
    {
      RotatedEntry(n, a, m, v, v', p, q, t, c, s, i, j);
    }
  }

  lemma RotatedEntry(n: nat, a: Mat, m: Mat, v: Mat, v': Mat, p: nat, q: nat,
                     t: real, c: real, s: real, i: nat, j: nat)
    requires p < q < n && i < n && j < n && Decomposes(n, a, m, v)
    requires Annihilates(m(p, p), m(q, q), m(p, q), t, c, s)
    requires Agree(n, v', ColRot(v, p, q, c, s))
    ensures Step(m, p, q, t, c, s)(i, j) == Conj(n, a, v')(i, j)
  {
    var g := Conj(n, a, v);
    var w := ColRot(v, p, q, c, s);
    StepRotates(n, m, p, q, t, c, s, i, j);
    ConjRotatesAt(n, a, v, p, q, c, s, i, j);
    FormExt(n, a, Col(v', i), Col(w, i), Col(v', j), Col(w, j));
    var xp := Turn(p, q, c, s, j, m(p, p), m(p, q), m(p, j));
    var xq := Turn(p, q, c, s, j, m(q, p), m(q, q), m(q, j));
    var xi := Turn(p, q, c, s, j, m(i, p), m(i, q), m(i, j));
    assert RowRot(ColRot(m, p, q, c, s), p, q, c, s)(i, j) == Turn(p, q, c, s, i, xp, xq, xi);
    assert xp == Turn(p, q, c, s, j, g(p, p), g(p, q), g(p, j));
    assert xq == Turn(p, q, c, s, j, g(q, p), g(q, q), g(q, j));
    assert xi == Turn(p, q, c, s, j, g(i, p), g(i, q), g(i, j));
  }

  // ----- The angle

  lemma TangentRoot(theta: real, root: real)
    requires root >= 0.0 && root * root == theta * theta + 1.0
    ensures Abs(theta) + root >= 1.0
    ensures var t := if theta < 0.0 then -(1.0 / (Abs(theta) + root)) else 1.0 / (Abs(theta) + root);
            t * t + 2.0 * theta * t == 1.0
  {
    var u := Abs(theta);
    assert u * u == theta * theta;
    RootAtLeastOne(u, root);
    var w := root - u;
    assert w * (u + root) == 1.0;
    var x := 1.0 / (u + root);
    assert x * (u + root) == 1.0;
    assert (x - w) * (u + root) == 0.0;
    assert x == w;
    assert x * x + 2.0 * u * x == 1.0 by {
      calc {
        w * w + 2.0 * u * w;
        (w + u) * (w + u) - u * u;
        root * root - u * u;
      }
    }
  }

  lemma ProductNonNegative(x: real, y: real)
    requires x >= 0.0 && y >= 0.0
    ensures x * y >= 0.0
  {
  }

  lemma BelowOne(x: real)
    requires 0.0 <= x < 1.0
    ensures x * x <= x
  {
    var y := 1.0 - x;
    ProductNonNegative(x, y);
    assert x * y == x - x * x;
  }

  lemma RootAtLeastOne(u: real, root: real)
    requires u >= 0.0 && root >= 0.0 && root * root == u * u + 1.0
    ensures root >= 1.0
  {
    assert u * u >= 0.0;
    if root < 1.0 {
      BelowOne(root);
    }
  }

  /** A reciprocal of at least one, of either sign. */
  lemma AtMostOne(d: real)
    requires d >= 1.0
    ensures 0.0 < 1.0 / d <= 1.0
  {
  }

  lemma TangentSolves(app: real, aqq: real, apq: real, theta: real, t: real)
    requires apq != 0.0 && theta == (aqq - app) / (2.0 * apq)
    requires t * t + 2.0 * theta * t == 1.0
    ensures apq * (t * t) + (aqq - app) * t == apq
  {
    assert theta * (2.0 * apq) == aqq - app;
    calc {
      apq * (t * t) + (aqq - app) * t;
      apq * (t * t) + (theta * (2.0 * apq)) * t;
      apq * (t * t + 2.0 * theta * t);
    }
  }

  lemma CosineRoot(t: real, root: real)
    requires root >= 0.0 && root * root == t * t + 1.0
    ensures root > 0.0
    ensures var c := 1.0 / root; c * c + (t * c) * (t * c) == 1.0
  {
    assert t * t >= 0.0;
    assert root != 0.0;
    var c := 1.0 / root;
    assert c * root == 1.0;
    calc {
      c * c + (t * c) * (t * c);
      (c * c) * (t * t + 1.0);
      (c * c) * (root * root);
      (c * root) * (c * root);
    }
  }

  /** The tangent, cosine and sine of the angle of at most 45 degrees that annihilates apq. */
  method Angle(sqrt: real -> real, app: real, aqq: real, apq: real) returns (t: real, c: real, s: real)
    requires IsSqrt(sqrt) && apq != 0.0
    ensures Annihilates(app, aqq, apq, t, c, s)
    ensures -1.0 <= t <= 1.0 && c > 0.0
  {
    var theta := (aqq - app) / (2.0 * apq);
    var root := sqrt(theta * theta + 1.0);
    TangentRoot(theta, root);
    AtMostOne(Abs(theta) + root);
    t := 1.0 / (Abs(theta) + root);
    if theta < 0.0 {
      t := -t;
    }
    TangentSolves(app, aqq, apq, theta, t);
    var hypotenuse := sqrt(t * t + 1.0);
    CosineRoot(t, hypotenuse);
    c := 1.0 / hypotenuse;
    s := t * c;
  }

  // ----- The solver, in place

  /** The entries outside the pivot rows and columns, and the pivot block itself, are those of m0;
      rows and columns p and q hold xp and xq up to r, mirrored. */
  ghost predicate PivotLines(m: array2<real>, n: nat, m0: Mat, p: nat, q: nat, r: nat, xp: Vec, xq: Vec)
    requires Square(m, n) && p < q < n
    reads m
  {
    && (forall i, j :: 0 <= i < n && 0 <= j < n && i != p && i != q && j != p && j != q ==>
          m[i, j] == m0(i, j))
    && m[p, p] == m0(p, p) && m[q, q] == m0(q, q)
    && (forall i :: 0 <= i < n && i != p && i != q ==> m[i, p] == if i < r then xp(i) else m0(i, p))
    && (forall i :: 0 <= i < n && i != p && i != q ==> m[i, q] == if i < r then xq(i) else m0(i, q))
    && (forall i :: 0 <= i < n && i != p && i != q ==> m[p, i] == if i < r then xp(i) else m0(p, i))
    && (forall i :: 0 <= i < n && i != p && i != q ==> m[q, i] == if i < r then xq(i) else m0(q, i))
  }

  /** Turns the entries of line r in rows and columns p and q. */
  method RotateLine(m: array2<real>, n: nat, p: nat, q: nat, r: nat,
                    turnP: (real, real) -> real, turnQ: (real, real) -> real)
    requires Square(m, n) && p < q < n && r < n && r != p && r != q
    modifies m
    ensures m[r, p] == m[p, r] == turnP(old(m[r, p]), old(m[r, q]))
    ensures m[r, q] == m[q, r] == turnQ(old(m[r, p]), old(m[r, q]))
    ensures forall i, j :: 0 <= i < n && 0 <= j < n && !(i == r && j in {p, q}) && !(j == r && i in {p, q}) ==>
              m[i, j] == old(m[i, j])
  {
    var arp, arq := m[r, p], m[r, q];
    m[r, p] := turnP(arp, arq);
    m[p, r] := m[r, p];
    m[r, q] := turnQ(arp, arq);
    m[q, r] := m[r, q];
  }

  /** Turns every line of m other than p and q. */
  method RotateLines(m: array2<real>, n: nat, p: nat, q: nat,
                     turnP: (real, real) -> real, turnQ: (real, real) -> real, ghost m0: Mat)
    requires Square(m, n) && p < q < n && Agree(n, m0, Entries(m))
    modifies m
    ensures PivotLines(m, n, m0, p, q, n, i => turnP(m0(i, p), m0(i, q)), i => turnQ(m0(i, p), m0(i, q)))
  {
    ghost var xp: Vec := i => turnP(m0(i, p), m0(i, q));
    ghost var xq: Vec := i => turnQ(m0(i, p), m0(i, q));
    for r := 0 to n
      invariant PivotLines(m, n, m0, p, q, r, xp, xq)
    {
      if r == p || r == q {
        continue;
      }
      RotateLine(m, n, p, q, r, turnP, turnQ);
    }
  }

  /** turnP and turnQ are the two coordinates of the rotation by (c, s). */
  ghost predicate Turns(turnP: (real, real) -> real, turnQ: (real, real) -> real, c: real, s: real) {
    forall x, y :: turnP(x, y) == c * x - s * y && turnQ(x, y) == c * y + s * x
  }

  lemma StepLines(m: Mat, p: int, q: int, t: real, c: real, s: real,
                  turnP: (real, real) -> real, turnQ: (real, real) -> real)
    requires p < q && Turns(turnP, turnQ, c, s)
    ensures var st := Step(m, p, q, t, c, s);
            && (forall i :: i != p && i != q ==> st(i, p) == st(p, i) == turnP(m(i, p), m(i, q)))
            && (forall i :: i != p && i != q ==> st(i, q) == st(q, i) == turnQ(m(i, p), m(i, q)))
  {
  }

  lemma StepBlock(m: Mat, p: int, q: int, t: real, c: real, s: real)
    requires p < q
    ensures var st := Step(m, p, q, t, c, s);
            && st(p, p) == m(p, p) - t * m(p, q) && st(q, q) == m(q, q) + t * m(p, q)
            && st(p, q) == 0.0 == st(q, p)
            && (forall i, j :: i != p && i != q && j != p && j != q ==> st(i, j) == m(i, j))
  {
  }

  /** The whole update of m by one rotation, given as its two coordinates. */
  method RotateBy(m: array2<real>, n: nat, p: nat, q: nat, t: real,
                  turnP: (real, real) -> real, turnQ: (real, real) -> real, ghost c: real, ghost s: real)
    requires Square(m, n) && p < q < n && Turns(turnP, turnQ, c, s)
    modifies m
    ensures Agree(n, Entries(m), Step(old(Entries(m)), p, q, t, c, s))
  {
    hide Turns, Step, Entries;
    ghost var m0 := Entries(m);
    var apq := m[p, q];
    RotateLines(m, n, p, q, turnP, turnQ, m0);
    SetBlock(m, n, p, q, m[p, p] - t * apq, m[q, q] + t * apq);
    StepLines(m0, p, q, t, c, s, turnP, turnQ);
    StepBlock(m0, p, q, t, c, s);
  }

  /** Writes the two diagonal entries and annihilates the entries between them. */
  method SetBlock(m: array2<real>, n: nat, p: nat, q: nat, x: real, y: real)
    requires Square(m, n) && p < q < n
    modifies m
    ensures m[p, p] == x && m[q, q] == y && m[p, q] == 0.0 == m[q, p]
    ensures forall i, j :: 0 <= i < n && 0 <= j < n && !(i in {p, q} && j in {p, q}) ==> m[i, j] == old(m[i, j])
  {
    m[p, p] := x;
    m[q, q] := y;
    m[p, q] := 0.0;
    m[q, p] := 0.0;
  }

  /** The whole update of m by one rotation. */
  method RotateMatrix(m: array2<real>, n: nat, p: nat, q: nat, t: real, c: real, s: real)
    requires Square(m, n) && p < q < n
    modifies m
    ensures Agree(n, Entries(m), Step(old(Entries(m)), p, q, t, c, s))
  {
    hide Step;
    RotateBy(m, n, p, q, t, (x, y) => c * x - s * y, (x, y) => c * y + s * x, c, s);
  }

  /** Turns columns p and q of v, row by row. */
  method RotateColumns(v: array2<real>, n: nat, p: nat, q: nat,
                       turnP: (real, real) -> real, turnQ: (real, real) -> real)
    requires Square(v, n) && p < q < n
    modifies v
    ensures forall i, j :: 0 <= i < n && 0 <= j < n ==>
              v[i, j] == if j == p then turnP(old(v[i, p]), old(v[i, q]))
                         else if j == q then turnQ(old(v[i, p]), old(v[i, q]))
                         else old(v[i, j])
  {
    for r := 0 to n
      invariant forall i, j :: 0 <= i < n && 0 <= j < n ==>
        v[i, j] == if i < r && j == p then turnP(old(v[i, p]), old(v[i, q]))
                   else if i < r && j == q then turnQ(old(v[i, p]), old(v[i, q]))
                   else old(v[i, j])
    {
      var vrp, vrq := v[r, p], v[r, q];
      v[r, p] := turnP(vrp, vrq);
      v[r, q] := turnQ(vrp, vrq);
    }
  }

  lemma ColRotTurns(g: Mat, p: int, q: int, c: real, s: real,
                    turnP: (real, real) -> real, turnQ: (real, real) -> real)
    requires Turns(turnP, turnQ, c, s)
    ensures forall i, j :: ColRot(g, p, q, c, s)(i, j) ==
              if j == p then turnP(g(i, p), g(i, q)) else if j == q then turnQ(g(i, p), g(i, q)) else g(i, j)
  {
  }

  /** Rotates columns p and q of v. */
  method RotateVectors(v: array2<real>, n: nat, p: nat, q: nat, c: real, s: real)
    requires Square(v, n) && p < q < n
    modifies v
    ensures Agree(n, Entries(v), ColRot(old(Entries(v)), p, q, c, s))
  {
    hide ColRot, Entries;
    var turnP: (real, real) -> real := (x, y) => c * x - s * y;
    var turnQ: (real, real) -> real := (x, y) => s * x + c * y;
    RotateColumns(v, n, p, q, turnP, turnQ);
    ColRotTurns(old(Entries(v)), p, q, c, s, turnP, turnQ);
  }

  /** Both in-place updates of one rotation. */
  method RotatePair(m: array2<real>, v: array2<real>, n: nat, p: nat, q: nat, t: real, c: real, s: real)
    requires m != v && Square(m, n) && Square(v, n) && p < q < n
    modifies m, v
    ensures Agree(n, Entries(m), Step(old(Entries(m)), p, q, t, c, s))
    ensures Agree(n, Entries(v), ColRot(old(Entries(v)), p, q, c, s))
  {
    RotateMatrix(m, n, p, q, t, c, s);
    RotateVectors(v, n, p, q, c, s);
  }

  /** One annihilating rotation of the pair (m, v). */
  method Rotate(sqrt: real -> real, ghost a: Mat, m: array2<real>, v: array2<real>, n: nat, p: nat, q: nat)
    requires IsSqrt(sqrt) && m != v && Square(m, n) && Square(v, n) && p < q < n
    requires Decomposes(n, a, Entries(m), Entries(v))
    requires m[p, q] != 0.0
    modifies m, v
    ensures Decomposes(n, a, Entries(m), Entries(v))
    ensures Trace(n, Entries(m)) == old(Trace(n, Entries(m)))
    ensures OffSum(n, Entries(m)) == old(OffSum(n, Entries(m)) - Sq(m[p, q]))
    ensures m[p, q] == 0.0
  {
    ghost var m0, v0 := Entries(m), Entries(v);
    var t, c, s := Angle(sqrt, m[p, p], m[q, q], m[p, q]);
    RotatePair(m, v, n, p, q, t, c, s);
    assert Sq(m0(p, q)) == old(Sq(m[p, q]));
    RotationKeeps(n, a, m0, v0, Entries(m), Entries(v), p, q, t, c, s);
  }

  // ----- What the eigenpairs are worth

  /** The residual a*x - lambda*x. */
  ghost function Residual(n: nat, a: Mat, x: Vec, lambda: real): Vec {
    i => Apply(n, a, x)(i) - lambda * x(i)
  }

  /** Coordinate j times column r, weighted by z: the terms of v vᵀ z at i. */
  ghost function Spread(v: Mat, z: Vec, i: int): Mat {
    (r, j) => v(i, r) * v(j, r) * z(j)
  }

  /** The coordinates of z along the columns of v. */
  ghost function Coords(n: nat, v: Mat, z: Vec): Vec {
    r => Dot(n, Col(v, r), z)
  }

  lemma SpreadSums(n: nat, v: Mat, z: Vec, i: nat, k: nat)
    requires k < n
    ensures RowSums(n, Spread(v, z, i))(k) == Times(Row(v, i), Coords(n, v, z))(k)
    ensures ColSums(n, Spread(v, z, i))(k) == z(k) * Dot(n, Row(v, i), Row(v, k))
  {
    SumScale(n, v(i, k), Times(Col(v, k), z), Row(Spread(v, z, i), k));
    SumScale(n, z(k), Times(Row(v, i), Row(v, k)), Col(Spread(v, z, i), k));
  }

  /** An orthogonal v rebuilds z from its coordinates. */
  lemma Rebuilds(n: nat, v: Mat, z: Vec, i: nat)
    requires Orthogonal(n, v) && i < n
    ensures Dot(n, Row(v, i), Coords(n, v, z)) == z(i)
  {
    hide Spread, Times, Coords, RowSums, ColSums;
    var b := Spread(v, z, i);
    forall k | 0 <= k < n
      ensures RowSums(n, b)(k) == Times(Row(v, i), Coords(n, v, z))(k)
      ensures ColSums(n, b)(k) == if k == i then z(i) else 0.0
    {
      SpreadSums(n, v, z, i, k);
    }
    SumExt(n, RowSums(n, b), Times(Row(v, i), Coords(n, v, z)));
    SumExchange(n, n, b);
    SumSingle(n, ColSums(n, b), i);
  }

  /** Parseval: an orthogonal v keeps the sum of squares. */
  lemma Parseval(n: nat, v: Mat, z: Vec)
    requires Orthogonal(n, v)
    ensures Dot(n, z, z) == Dot(n, Coords(n, v, z), Coords(n, v, z))
  {
    hide Orthogonal;
    var w := Coords(n, v, z);
    var b: Mat := (i, r) => z(i) * v(i, r) * w(r);
    forall i | 0 <= i < n
      ensures RowSums(n, b)(i) == Times(z, z)(i)
    {
      SumScale(n, z(i), Times(Row(v, i), w), Row(b, i));
      Rebuilds(n, v, z, i);
    }
    SumExt(n, RowSums(n, b), Times(z, z));
    forall r | 0 <= r < n
      ensures ColSums(n, b)(r) == Times(w, w)(r)
    {
      SumScale(n, w(r), Times(Col(v, r), z), Col(b, r));
    }
    SumExt(n, ColSums(n, b), Times(w, w));
    SumExchange(n, n, b);
  }

  /** The coordinates of column k's residual are the off-diagonal entries of m in column k. */
  lemma ResidualCoords(n: nat, a: Mat, m: Mat, v: Mat, k: nat)
    requires Decomposes(n, a, m, v) && k < n
    ensures forall r :: 0 <= r < n ==>
              Coords(n, v, Residual(n, a, Col(v, k), m(k, k)))(r) == if r == k then 0.0 else m(r, k)
  {
    var x := Col(v, k);
    var z := Residual(n, a, x, m(k, k));
    forall r | 0 <= r < n
      ensures Coords(n, v, z)(r) == if r == k then 0.0 else m(r, k)
    {
      DotLinear(n, Col(v, r), 1.0, Apply(n, a, x), -m(k, k), x, z);
      assert m(r, k) == Conj(n, a, v)(r, k);
      assert Dot(n, Col(v, r), Col(v, k)) == Identity()(r, k);
    }
  }

  lemma {:induction false} TermAtMostSum(n: nat, f: Vec, i: nat)
    requires i < n && forall j :: 0 <= j < n ==> f(j) >= 0.0
    ensures f(i) <= Sum(n, f)
  {
    SumNonNegative(n - 1, f);
    if i < n - 1 { TermAtMostSum(n - 1, f, i); }
  }

  /** Column k's off-diagonal squares are within the coded off-diagonal sum. */
  lemma ColumnWithinOff(n: nat, m: Mat, k: nat)
    requires Symmetric(n, m) && k < n
    ensures Sum(n, Col(OffSquares(m), k)) <= OffSum(n, m)
  {
    var o := OffSquares(m);
    forall i, j ensures o(i, j) >= 0.0 {
      assert m(i, j) * m(i, j) >= 0.0;
    }
    SumExt(n, Col(o, k), Row(o, k));
    var f: Vec := i => if i == k then RowSums(n, o)(k) else o(i, k);
    forall i | 0 <= i < n
      ensures f(i) <= RowSums(n, o)(i)
    {
      if i != k { TermAtMostSum(n, Row(o, i), k); }
    }
    SumMono(n, f, RowSums(n, o));
    SumOneChange(n, f, Col(o, k), k);
    FullOffIsTwice(n, m);
  }

  /** Each returned pair misses the eigenvalue equation by at most the off-diagonal sum. */
  lemma ResidualBound(n: nat, a: Mat, m: Mat, v: Mat, k: nat)
    requires Decomposes(n, a, m, v) && k < n
    ensures var z := Residual(n, a, Col(v, k), m(k, k)); Dot(n, z, z) <= OffSum(n, m)
  {
    var z := Residual(n, a, Col(v, k), m(k, k));
    var w := Coords(n, v, z);
    Parseval(n, v, z);
    ResidualCoords(n, a, m, v, k);
    forall r | 0 <= r < n
      ensures Times(w, w)(r) == Col(OffSquares(m), k)(r)
    {
    }
    SumExt(n, Times(w, w), Col(OffSquares(m), k));
    ColumnWithinOff(n, m, k);
  }

  // ----- Sweeps

  /** The coded off-diagonal sum. */
  method OffDiagonal(m: array2<real>, n: nat) returns (off: real)
    requires Square(m, n)
    ensures off == OffSum(n, Entries(m))
  {
    hide Entries;
    ghost var u := UpperSquares(Entries(m));
    off := 0.0;
    for p := 0 to n
      invariant off == Sum(p, RowSums(n, u))
    {
      SumConst(p + 1, 0.0, Row(u, p));
      for q := p + 1 to n
        invariant off == Sum(p, RowSums(n, u)) + Sum(q, Row(u, p))
      {
        off := off + m[p, q] * m[p, q];
      }
    }
  }

  /** m still decomposes a, with the given trace and no more than the given off-diagonal sum. */
  ghost predicate Progress(n: nat, a: Mat, m: Mat, v: Mat, trace: real, off: real) {
    Decomposes(n, a, m, v) && Trace(n, m) == trace && OffSum(n, m) <= off
  }

  /** Entry (p, q) is annihilated, which takes its square off the off-diagonal sum; if it was zero, nothing changes. */
  ghost predicate Eliminates(n: nat, m: Mat, m': Mat, p: nat, q: nat) {
    m'(p, q) == 0.0 && OffSum(n, m') == OffSum(n, m) - Sq(m(p, q)) && (m(p, q) == 0.0 ==> Agree(n, m', m))
  }

  lemma NeverRises(n: nat, m: Mat, m': Mat, p: nat, q: nat)
    requires Eliminates(n, m, m', p, q)
    ensures OffSum(n, m') <= OffSum(n, m)
    ensures OffSum(n, m') == OffSum(n, m) ==> m(p, q) == 0.0
  {
    hide OffSum;
    SquarePositive(m(p, q));
  }

  lemma SquarePositive(x: real)
    ensures Sq(x) >= 0.0 && (Sq(x) == 0.0 ==> x == 0.0)
  {
    assert Sq(x) >= 0.0;
    if x > 0.0 {
      ZeroProduct(x, x);
    } else if x < 0.0 {
      ZeroProduct(-x, x);
      assert (-x) * x == -Sq(x);
    }
  }

  lemma ZeroProduct(x: real, y: real)
    requires x > 0.0
    ensures x * y == 0.0 <==> y == 0.0
  {
  }

  /** Annihilates entry (p, q) unless it is zero already. */
  method Annihilate(sqrt: real -> real, ghost a: Mat, m: array2<real>, v: array2<real>, n: nat, p: nat, q: nat,
                    ghost trace: real, ghost off: real)
    requires IsSqrt(sqrt) && m != v && Square(m, n) && Square(v, n) && p < q < n
    requires Progress(n, a, Entries(m), Entries(v), trace, off)
    modifies m, v
    ensures Progress(n, a, Entries(m), Entries(v), trace, off)
    ensures Eliminates(n, old(Entries(m)), Entries(m), p, q)
  {
    hide OffSum, Decomposes, Trace;
    ghost var m0 := Entries(m);
    assert m0(p, q) == m[p, q];
    if m[p, q] != 0.0 {
      Rotate(sqrt, a, m, v, n, p, q);
    } else {
      assert Sq(m0(p, q)) == 0.0;
    }
    NeverRises(n, m0, Entries(m), p, q);
  }

  // ----- One sweep, pair by pair

  /** The pair comes before (p, q) in row order. */
  ghost predicate Before(pair: (nat, nat), p: nat, q: nat) {
    pair.0 < p || (pair.0 == p && pair.1 < q)
  }

  /** pairs lists in row order every pair above the diagonal that comes before (p, q). */
  ghost predicate Cyclic(n: nat, pairs: seq<(nat, nat)>, p: nat, q: nat) {
    && (forall e :: e in pairs <==> e.0 < e.1 < n && Before(e, p, q))
    && (forall i, j :: 0 <= i < j < |pairs| ==> Before(pairs[i], pairs[j].0, pairs[j].1))
  }

  /** Every matrix of ms eliminates its pair from the one before it. */
  ghost predicate Trail(n: nat, ms: seq<Mat>, pairs: seq<(nat, nat)>) {
    |ms| == |pairs| + 1
    && forall k :: 0 <= k < |pairs| ==> Eliminates(n, ms[k], ms[k + 1], pairs[k].0, pairs[k].1)
  }

  lemma OnePairMore(n: nat, pairs: seq<(nat, nat)>, p: nat, q: nat)
    requires Cyclic(n, pairs, p, q) && p < q < n
    ensures Cyclic(n, pairs + [(p, q)], p, q + 1)
  {
    forall i | 0 <= i < |pairs| ensures Before(pairs[i], p, q) {
      assert pairs[i] in pairs;
    }
  }

  lemma OneStepMore(n: nat, ms: seq<Mat>, pairs: seq<(nat, nat)>, m: Mat, p: nat, q: nat)
    requires Trail(n, ms, pairs) && Eliminates(n, ms[|pairs|], m, p, q)
    ensures Trail(n, ms + [m], pairs + [(p, q)])
  {
    hide Eliminates;
  }

  /** A trail never raises the off-diagonal sum, and one that keeps it meets only zeros and changes nothing. */
  lemma {:induction false} TrailFalls(n: nat, ms: seq<Mat>, pairs: seq<(nat, nat)>, k: nat)
    requires Trail(n, ms, pairs) && k <= |pairs| && forall e :: e in pairs ==> e.0 < n && e.1 < n
    ensures OffSum(n, ms[k]) <= OffSum(n, ms[0])
    ensures OffSum(n, ms[k]) == OffSum(n, ms[0]) ==>
              Agree(n, ms[k], ms[0]) && forall i :: 0 <= i < k ==> ms[0](pairs[i].0, pairs[i].1) == 0.0
  {
    hide OffSum;
    if k > 0 {
      TrailFalls(n, ms, pairs, k - 1);
      NeverRises(n, ms[k - 1], ms[k], pairs[k - 1].0, pairs[k - 1].1);
      assert pairs[k - 1] in pairs;
    }
  }

  lemma {:induction false} NothingAbove(n: nat, m: Mat)
    requires forall i, j :: 0 <= i < j < n ==> m(i, j) == 0.0
    ensures OffSum(n, m) == 0.0
  {
    var u := UpperSquares(m);
    forall i | 0 <= i < n ensures RowSums(n, u)(i) == 0.0 {
      SumConst(n, 0.0, Row(u, i));
    }
    SumConst(n, 0.0, RowSums(n, u));
  }

  /** A whole sweep lowers an off-diagonal sum that is not zero. */
  lemma SweepFalls(n: nat, ms: seq<Mat>, pairs: seq<(nat, nat)>)
    requires Trail(n, ms, pairs) && Cyclic(n, pairs, n, 0) && OffSum(n, ms[0]) > 0.0
    ensures OffSum(n, ms[|pairs|]) < OffSum(n, ms[0])
  {
    hide OffSum;
    TrailFalls(n, ms, pairs, |pairs|);
    if OffSum(n, ms[|pairs|]) == OffSum(n, ms[0]) {
      forall i: nat, j: nat | i < j < n ensures ms[0](i, j) == 0.0 {
        assert (i, j) in pairs;
      }
      NothingAbove(n, ms[0]);
    }
  }

  /** A sweep over two points is one rotation, and leaves nothing off the diagonal. */
  lemma SweepOfTwo(ms: seq<Mat>, pairs: seq<(nat, nat)>)
    requires Trail(2, ms, pairs) && Cyclic(2, pairs, 2, 0)
    ensures OffSum(2, ms[|pairs|]) == 0.0
  {
    assert (0, 1) in pairs;
    var last := pairs[|pairs| - 1];
    assert last in pairs;
    NothingAbove(2, ms[|pairs|]);
  }

  lemma RowOfPairs(n: nat, p: nat, len: nat)
    requires p < n && 2 * len == p * (2 * n - p - 1)
    ensures 2 * (len + (n - p - 1)) == (p + 1) * (2 * n - p - 2)
  {
  }

  /** One cyclic sweep over the pairs above the diagonal; ms are the matrices it goes through. */
  method Sweep(sqrt: real -> real, ghost a: Mat, m: array2<real>, v: array2<real>, n: nat,
               ghost trace: real, ghost off: real)
    returns (ghost ms: seq<Mat>, ghost pairs: seq<(nat, nat)>)
    requires IsSqrt(sqrt) && m != v && Square(m, n) && Square(v, n)
    requires Progress(n, a, Entries(m), Entries(v), trace, off)
    modifies m, v
    ensures Progress(n, a, Entries(m), Entries(v), trace, off)
    ensures Cyclic(n, pairs, n, 0) && 2 * |pairs| == n * (n - 1)
    ensures Trail(n, ms, pairs) && ms[0] == old(Entries(m)) && ms[|pairs|] == Entries(m)
  {
    hide Progress, Eliminates, Entries;
    ms, pairs := [Entries(m)], [];
    for p := 0 to n
      invariant Progress(n, a, Entries(m), Entries(v), trace, off)
      invariant Cyclic(n, pairs, p, 0) && 2 * |pairs| == p * (2 * n - p - 1)
      invariant Trail(n, ms, pairs) && ms[0] == old(Entries(m)) && ms[|pairs|] == Entries(m)
    {
      ghost var listed := |pairs|;
      RowStarts(n, pairs, p);
      for q := p + 1 to n
        invariant Progress(n, a, Entries(m), Entries(v), trace, off)
        invariant Cyclic(n, pairs, p, q) && |pairs| == listed + (q - p - 1)
        invariant Trail(n, ms, pairs) && ms[0] == old(Entries(m)) && ms[|pairs|] == Entries(m)
      {
        Annihilate(sqrt, a, m, v, n, p, q, trace, off);
        OnePairMore(n, pairs, p, q);
        OneStepMore(n, ms, pairs, Entries(m), p, q);
        ms, pairs := ms + [Entries(m)], pairs + [(p, q)];
      }
      RowEnds(n, pairs, p);
      RowOfPairs(n, p, listed);
    }
  }

  lemma RowStarts(n: nat, pairs: seq<(nat, nat)>, p: nat)
    requires Cyclic(n, pairs, p, 0)
    ensures Cyclic(n, pairs, p, p + 1)
  {
  }

  lemma RowEnds(n: nat, pairs: seq<(nat, nat)>, p: nat)
    requires p < n && Cyclic(n, pairs, p, n)
    ensures Cyclic(n, pairs, p + 1, 0)
  {
  }

  ghost function Squares(a: Mat): Mat {
    (i, j) => a(i, j) * a(i, j)
  }

  /** The convergence tolerance: 1e-24 times the squared norm, at least 1e-24. */
  ghost function Tolerance(n: nat, a: Mat): real {
    var norm := Sum(n, RowSums(n, Squares(a)));
    0.000000000000000000000001 * (if norm > 1.0 then norm else 1.0)
  }

  method SquaredNorm(a: array2<real>, n: nat) returns (norm: real)
    requires Square(a, n)
    ensures norm == Sum(n, RowSums(n, Squares(Entries(a))))
  {
    ghost var sq := Squares(Entries(a));
    norm := 0.0;
    for i := 0 to n
      invariant norm == Sum(i, RowSums(n, sq))
    {
      for j := 0 to n
        invariant norm == Sum(i, RowSums(n, sq)) + Sum(j, Row(sq, i))
      {
        norm := norm + a[i, j] * a[i, j];
      }
    }
  }

  lemma StartDecomposes(n: nat, a: Mat, m: Mat, v: Mat)
    requires Symmetric(n, a) && Agree(n, m, a) && Agree(n, v, Identity())
    ensures Decomposes(n, a, m, v)
  {
    IdentityOrthogonal(n);
    OrthogonalExt(n, Identity(), v);
    ConjIdentity(n, a);
    forall i, j | 0 <= i < n && 0 <= j < n
      ensures m(i, j) == Conj(n, a, v)(i, j)
    {
      FormExt(n, a, Col(v, i), Col(Identity(), i), Col(v, j), Col(Identity(), j));
      assert Conj(n, a, Identity())(i, j) == a(i, j);
    }
  }

  ghost function Values(vals: seq<real>): Vec {
    k => if 0 <= k < |vals| then vals[k] else 0.0
  }

  /** What the solver promises of the pairs it returns: orthonormal vectors, values on the diagonal
      of vᵀ a v that sum to the trace of a, and residuals within off. */
  ghost predicate Eigenpairs(n: nat, a: Mat, vals: Vec, v: Mat, off: real) {
    && Orthogonal(n, v)
    && (forall k :: 0 <= k < n ==> vals(k) == Form(n, a, Col(v, k), Col(v, k)))
    && Sum(n, vals) == Trace(n, a)
    && (forall k :: 0 <= k < n ==>
          Dot(n, Residual(n, a, Col(v, k), vals(k)), Residual(n, a, Col(v, k), vals(k))) <= off)
  }

  lemma DecompositionGivesEigenpairs(n: nat, a: Mat, m: Mat, v: Mat, vals: Vec)
    requires Decomposes(n, a, m, v) && Trace(n, m) == Trace(n, a)
    requires forall k :: 0 <= k < n ==> vals(k) == m(k, k)
    ensures Eigenpairs(n, a, vals, v, OffSum(n, m))
  {
    SumExt(n, vals, Diagonal(m));
    forall k | 0 <= k < n
      ensures vals(k) == Form(n, a, Col(v, k), Col(v, k))
      ensures Dot(n, Residual(n, a, Col(v, k), vals(k)), Residual(n, a, Col(v, k), vals(k))) <= OffSum(n, m)
    {
      assert m(k, k) == Conj(n, a, v)(k, k);
      ResidualBound(n, a, m, v, k);
    }
  }

  /** A copy of a to rotate, and the identity to gather the rotations in. */
  method Start(a: array2<real>, n: nat) returns (m: array2<real>, v: array2<real>)
    requires Square(a, n) && Symmetric(n, Entries(a))
    ensures fresh(m) && fresh(v) && m != v && Square(m, n) && Square(v, n)
    ensures Progress(n, Entries(a), Entries(m), Entries(v), Trace(n, Entries(a)), OffSum(n, Entries(a)))
    ensures OffSum(n, Entries(m)) == OffSum(n, Entries(a))
  {
    m := new real[n, n]((i, j) requires 0 <= i < n && 0 <= j < n reads a => a[i, j]);
    v := new real[n, n]((i, j) => if i == j then 1.0 else 0.0);
    StartDecomposes(n, Entries(a), Entries(m), Entries(v));
    OffSumExt(n, Entries(m), Entries(a));
  }

  method ToleranceOf(a: array2<real>, n: nat) returns (tol: real)
    requires Square(a, n)
    ensures tol == Tolerance(n, Entries(a))
  {
    var norm := SquaredNorm(a, n);
    tol := 0.000000000000000000000001 * (if norm > 1.0 then norm else 1.0);
  }

  /** Squared error under either bound is as good as none: 1e-24, or 1e-24 of the squared norm. */
  lemma WithinTolerance(n: nat, a: Mat, x: real)
    ensures x <= Tolerance(n, a) <==>
              x <= 0.000000000000000000000001
              || x <= 0.000000000000000000000001 * Sum(n, RowSums(n, Squares(a)))
    ensures Tolerance(n, a) > 0.0
  {
  }

  /** The off-diagonal sums before and after each sweep: every sweep starts above the tolerance and lowers the sum,
      for two points to zero. */
  ghost predicate Falling(n: nat, a: Mat, offs: seq<real>) {
    && offs != [] && offs[0] == OffSum(n, a)
    && (forall k :: 0 <= k < |offs| - 1 ==> Tolerance(n, a) < offs[k] && offs[k + 1] < offs[k])
    && (n == 2 ==> forall k :: 0 < k < |offs| ==> offs[k] == 0.0)
  }

  lemma {:induction false} FallsBelow(n: nat, a: Mat, offs: seq<real>)
    requires Falling(n, a, offs)
    ensures offs[|offs| - 1] <= OffSum(n, a)
    ensures |offs| > 1 ==> offs[|offs| - 1] < OffSum(n, a)
  {
    hide OffSum, Tolerance;
    if |offs| > 1 { FallsBelow(n, a, offs[..|offs| - 1]); }
  }

  lemma OneSweepMore(n: nat, a: Mat, offs: seq<real>, ms: seq<Mat>, pairs: seq<(nat, nat)>)
    requires Falling(n, a, offs) && Trail(n, ms, pairs) && Cyclic(n, pairs, n, 0)
    requires OffSum(n, ms[0]) == offs[|offs| - 1] > Tolerance(n, a)
    ensures Falling(n, a, offs + [OffSum(n, ms[|pairs|])])
    ensures OffSum(n, ms[|pairs|]) < OffSum(n, ms[0])
  {
    hide OffSum, Tolerance;
    WithinTolerance(n, a, 0.0);
    SweepFalls(n, ms, pairs);
    if n == 2 { SweepOfTwo(ms, pairs); }
  }

  /** The eigenvalues and eigenvectors of the symmetric matrix a, which is not modified. offs are the off-diagonal
      sums before the first sweep and after each. */
  method JacobiEigen(sqrt: real -> real, a: array2<real>, n: nat)
    returns (vals: array<real>, v: array2<real>, ghost offs: seq<real>)
    requires IsSqrt(sqrt) && Square(a, n) && Symmetric(n, Entries(a))
    ensures fresh(vals) && fresh(v) && vals.Length == n && Square(v, n)
    ensures Falling(n, Entries(a), offs) && |offs| <= 101
    ensures Eigenpairs(n, Entries(a), Values(vals[..]), Entries(v), offs[|offs| - 1])
    ensures |offs| <= 100 ==> offs[|offs| - 1] <= Tolerance(n, Entries(a))
    ensures OffSum(n, Entries(a)) > Tolerance(n, Entries(a)) ==> offs[|offs| - 1] < OffSum(n, Entries(a))
    ensures OffSum(n, Entries(a)) > Tolerance(n, Entries(a)) && n == 2 ==> offs[|offs| - 1] == 0.0
  {
    hide Decomposes, OffSum, Trace, Eigenpairs, Tolerance, Trail, Cyclic;
    ghost var a0 := Entries(a);
    var m;
    m, v := Start(a, n);
    offs := [OffSum(n, a0)];
    var tol := ToleranceOf(a, n);
    var sweep := 0;
    while sweep < JACOBI_MAX_SWEEPS
      invariant fresh(m) && fresh(v) && m != v && Square(m, n) && Square(v, n)
      invariant Progress(n, a0, Entries(m), Entries(v), Trace(n, a0), OffSum(n, Entries(m)))
      invariant sweep <= JACOBI_MAX_SWEEPS && |offs| == sweep + 1
      invariant Falling(n, a0, offs) && offs[sweep] == OffSum(n, Entries(m))
    {
      var s := OffDiagonal(m, n);
      if s <= tol {
        break;
      }
      ghost var ms, pairs := Sweep(sqrt, a0, m, v, n, Trace(n, a0), s);
      OneSweepMore(n, a0, offs, ms, pairs);
      offs := offs + [OffSum(n, Entries(m))];
      sweep := sweep + 1;
    }
    FallsBelow(n, a0, offs);
    vals := new real[n](i requires 0 <= i < n reads m => m[i, i]);
    DecompositionGivesEigenpairs(n, a0, Entries(m), Entries(v), Values(vals[..]));
  }
}
