/** Mutable n-by-n tables of reals, read as matrix values. */
module Grids {
  import opened RealSums

  /** A square root over the reals, as math.Sqrt is used. */
  ghost predicate IsSqrt(sqrt: real -> real) {
    forall x :: x >= 0.0 ==> sqrt(x) >= 0.0 && sqrt(x) * sqrt(x) == x
  }

  ghost function RowsOf(m: array2<real>): seq<seq<real>>
    reads m
  {
    seq(m.Length0, i requires 0 <= i < m.Length0 reads m =>
      seq(m.Length1, j requires 0 <= j < m.Length1 reads m => m[i, j]))
  }

  ghost function At(rows: seq<seq<real>>): Mat {
    (i, j) => if 0 <= i < |rows| && 0 <= j < |rows[i]| then rows[i][j] else 0.0
  }

  /** The entries of m as a matrix value. */
  ghost function Entries(m: array2<real>): (e: Mat)
    reads m
    ensures forall i, j :: 0 <= i < m.Length0 && 0 <= j < m.Length1 ==> e(i, j) == m[i, j]
  {
    At(RowsOf(m))
  }

  ghost predicate Square(m: array2<real>, n: nat) {
    m.Length0 == n && m.Length1 == n
  }
}
