/** Finite sums of reals over an index range, and the algebra the statistics and the matrix code need:
    extensionality, linearity, exchange of two sums, and what the signs of the terms say of the sum. Sums are
    by recursion on the upper end. */
module RealSums {

  type Vec = int -> real
  type Mat = (int, int) -> real

  /** The sum of f(0), ..., f(n-1). */
  ghost function Sum(n: nat, f: Vec): real {
    if n == 0 then 0.0 else Sum(n - 1, f) + f(n - 1)
  }

  /** Row i of a matrix. */
  ghost function Row(a: Mat, i: int): Vec {
    j => a(i, j)
  }

  /** Column j of a matrix. */
  ghost function Col(a: Mat, j: int): Vec {
    i => a(i, j)
  }

  /** The sum of each row of an n-by-k matrix, as a vector. */
  ghost function RowSums(k: nat, a: Mat): Vec {
    i => Sum(k, Row(a, i))
  }

  /** The sum of each column of an n-by-k matrix, as a vector. */
  ghost function ColSums(n: nat, a: Mat): Vec {
    j => Sum(n, Col(a, j))
  }

  lemma NoTerms(f: Vec)
    ensures Sum(0, f) == 0.0
  {
  }

  lemma OneTermMore(n: nat, f: Vec)
    ensures Sum(n + 1, f) == Sum(n, f) + f(n)
  {
  }

  lemma {:induction false} SumExt(n: nat, f: Vec, g: Vec)
    requires forall i :: 0 <= i < n ==> f(i) == g(i)
    ensures Sum(n, f) == Sum(n, g)
  {
    if n > 0 { SumExt(n - 1, f, g); }
  }

  lemma Distributes(a: real, x: real, y: real)
    ensures a * (x + y) == a * x + a * y
  {
  }

  lemma OneMore(n: nat, c: real)
    requires n > 0
    ensures n as real * c == (n - 1) as real * c + c
  {
    assert n as real == (n - 1) as real + 1.0;
  }

  lemma {:induction false} SumLinear(n: nat, a: real, f: Vec, b: real, g: Vec, h: Vec)
    requires forall i :: 0 <= i < n ==> h(i) == a * f(i) + b * g(i)
    ensures Sum(n, h) == a * Sum(n, f) + b * Sum(n, g)
  {
    if n > 0 {
      SumLinear(n - 1, a, f, b, g, h);
      Distributes(a, Sum(n - 1, f), f(n - 1));
      Distributes(b, Sum(n - 1, g), g(n - 1));
    }
  }

  lemma {:induction false} SumScale(n: nat, a: real, f: Vec, h: Vec)
    requires forall i :: 0 <= i < n ==> h(i) == a * f(i)
    ensures Sum(n, h) == a * Sum(n, f)
  {
    if n > 0 {
      SumScale(n - 1, a, f, h);
      Distributes(a, Sum(n - 1, f), f(n - 1));
    }
  }

  lemma {:induction false} SumConst(n: nat, c: real, f: Vec)
    requires forall i :: 0 <= i < n ==> f(i) == c
    ensures Sum(n, f) == n as real * c
  {
    if n > 0 {
      SumConst(n - 1, c, f);
      OneMore(n, c);
    }
  }

  lemma {:induction false} SumMono(n: nat, f: Vec, g: Vec)
    requires forall i :: 0 <= i < n ==> f(i) <= g(i)
    ensures Sum(n, f) <= Sum(n, g)
  {
    if n > 0 { SumMono(n - 1, f, g); }
  }

  lemma {:induction false} SumNonNegative(n: nat, f: Vec)
    requires forall i :: 0 <= i < n ==> f(i) >= 0.0
    ensures Sum(n, f) >= 0.0
  {
    if n > 0 { SumNonNegative(n - 1, f); }
  }

  /** A sum of non-negative terms is zero only when every term is. */
  lemma {:induction false} SumZeroTerms(n: nat, f: Vec)
    requires forall i :: 0 <= i < n ==> f(i) >= 0.0
    requires Sum(n, f) == 0.0
    ensures forall i :: 0 <= i < n ==> f(i) == 0.0
  {
    if n > 0 {
      SumNonNegative(n - 1, f);
      SumZeroTerms(n - 1, f);
    }
  }

  /** Two vectors that agree except at p. */
  lemma {:induction false} SumOneChange(n: nat, f: Vec, g: Vec, p: nat)
    requires p < n
    requires forall i :: 0 <= i < n && i != p ==> f(i) == g(i)
    ensures Sum(n, f) - f(p) == Sum(n, g) - g(p)
  {
    if p == n - 1 {
      SumExt(n - 1, f, g);
    } else {
      SumOneChange(n - 1, f, g, p);
    }
  }

  /** Two vectors that agree except at p and q. */
  lemma {:induction false} SumTwoChanges(n: nat, f: Vec, g: Vec, p: nat, q: nat)
    requires p < q < n
    requires forall i :: 0 <= i < n && i != p && i != q ==> f(i) == g(i)
    ensures Sum(n, f) - f(p) - f(q) == Sum(n, g) - g(p) - g(q)
  {
    if q == n - 1 {
      SumOneChange(n - 1, f, g, p);
    } else {
      SumTwoChanges(n - 1, f, g, p, q);
    }
  }

  /** A vector that vanishes except at p sums to its value there. */
  lemma {:induction false} SumSingle(n: nat, f: Vec, p: nat)
    requires p < n
    requires forall i :: 0 <= i < n && i != p ==> f(i) == 0.0
    ensures Sum(n, f) == f(p)
  {
    SumOneChange(n, f, _ => 0.0, p);
    SumConst(n, 0.0, _ => 0.0);
  }

  /** Summing by rows or by columns gives the same total. */
  lemma {:induction false} SumExchange(n: nat, k: nat, a: Mat)
    ensures Sum(n, RowSums(k, a)) == Sum(k, ColSums(n, a))
  {
    if n == 0 {
      SumConst(k, 0.0, ColSums(0, a));
    } else {
      SumExchange(n - 1, k, a);
      SumLinear(k, 1.0, ColSums(n - 1, a), 1.0, Row(a, n - 1), ColSums(n, a));
    }
  }
}
