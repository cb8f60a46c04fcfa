/** Properties of square matrices of reals held in two-dimensional arrays,
    shared by the distance-matrix builder and the optimization engine. */
module Matrix {

  /** `m` has `n` rows of `n` entries each. */
  ghost predicate IsSquare(m: array2<real>, n: nat) {
    m.Length0 == n && m.Length1 == n
  }

  /** `m[i, j] == m[j, i]` for every pair of indices. */
  ghost predicate Symmetric(m: array2<real>)
    reads m
  {
    m.Length0 == m.Length1 &&
    forall i, j :: 0 <= i < m.Length0 && 0 <= j < m.Length0 ==> m[i, j] == m[j, i]
  }

  /** No entry is negative. */
  ghost predicate NonNegative(m: array2<real>)
    reads m
  {
    forall i, j :: 0 <= i < m.Length0 && 0 <= j < m.Length1 ==> 0.0 <= m[i, j]
  }

  /** Every entry on the diagonal is zero. */
  ghost predicate ZeroDiagonal(m: array2<real>)
    reads m
  {
    forall i :: 0 <= i < m.Length0 && i < m.Length1 ==> m[i, i] == 0.0
  }

  /** Every entry off the diagonal is strictly positive. */
  ghost predicate PositiveOffDiagonal(m: array2<real>)
    reads m
  {
    forall i, j :: 0 <= i < m.Length0 && 0 <= j < m.Length1 && i != j ==> 0.0 < m[i, j]
  }
}
