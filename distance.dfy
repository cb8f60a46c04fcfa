/** Planar distances between cities and the distance matrix the engine consumes.
    The square root is passed in as a function; `IsSqrt` is all the model
    assumes of it. */
module Distance {
  import opened Matrix

  /** A city, reduced to the two coordinates the distance uses. */
  datatype City = City(lat: real, lon: real)

  /** What the model relies on about the square root: it maps 0 to 0 and is
      strictly increasing on the non-negative reals. */
  ghost predicate IsSqrt(sqrt: real -> real) {
    sqrt(0.0) == 0.0 &&
    forall x, y :: 0.0 <= x < y ==> sqrt(x) < sqrt(y)
  }

  /** Euclidean distance on latitude and longitude taken as plane coordinates. */
  function EuclideanDistance(c1: City, c2: City, sqrt: real -> real): real {
    var latDiff := c1.lat - c2.lat;
    var lonDiff := c1.lon - c2.lon;
    sqrt(latDiff * latDiff + lonDiff * lonDiff)
  }

  /** The distance does not depend on the order of the two cities. */
  lemma EuclideanSymmetric(c1: City, c2: City, sqrt: real -> real)
    ensures EuclideanDistance(c1, c2, sqrt) == EuclideanDistance(c2, c1, sqrt)
  {
    var latDiff, lonDiff := c1.lat - c2.lat, c1.lon - c2.lon;
    assert (c2.lat - c1.lat) * (c2.lat - c1.lat) == latDiff * latDiff;
    assert (c2.lon - c1.lon) * (c2.lon - c1.lon) == lonDiff * lonDiff;
  }

  /** A square is never negative, and is positive when its root is not zero. */
  lemma SquareSign(x: real)
    ensures 0.0 <= x * x
    ensures x != 0.0 ==> 0.0 < x * x
  {
    if x < 0.0 {
      assert x * x == (-x) * (-x);
    }
  }

  /** The distance is non-negative, is zero between a city and itself, and is
      positive between cities at different coordinates. */
  lemma EuclideanSign(c1: City, c2: City, sqrt: real -> real)
    requires IsSqrt(sqrt)
    ensures 0.0 <= EuclideanDistance(c1, c2, sqrt)
    ensures c1 == c2 ==> EuclideanDistance(c1, c2, sqrt) == 0.0
    ensures c1 != c2 ==> 0.0 < EuclideanDistance(c1, c2, sqrt)
  {
    var latDiff, lonDiff := c1.lat - c2.lat, c1.lon - c2.lon;
    SquareSign(latDiff);
    SquareSign(lonDiff);
    if c1 != c2 {
      assert 0.0 < latDiff * latDiff + lonDiff * lonDiff;
      assert sqrt(0.0) < sqrt(latDiff * latDiff + lonDiff * lonDiff);
    }
  }

  /** The entry the builder leaves at row i, column j. */
  function MatrixEntry(cities: seq<City>, sqrt: real -> real, i: nat, j: nat): real
    requires i < |cities| && j < |cities|
  {
    if i == j then 0.0 else EuclideanDistance(cities[i], cities[j], sqrt)
  }

  /** No two cities share both coordinates. */
  ghost predicate DistinctCities(cities: seq<City>) {
    forall i, j :: 0 <= i < |cities| && 0 <= j < |cities| && i != j ==> cities[i] != cities[j]
  }

  /** Fills a zero matrix with the distance of every pair of distinct indices. */
  method BuildDistanceMatrix(cities: seq<City>, sqrt: real -> real) returns (matrix: array2<real>)
    ensures fresh(matrix)
    ensures IsSquare(matrix, |cities|)
    ensures forall i, j :: 0 <= i < |cities| && 0 <= j < |cities| ==>
      matrix[i, j] == MatrixEntry(cities, sqrt, i, j)
    ensures ZeroDiagonal(matrix)
    ensures Symmetric(matrix)
    ensures IsSqrt(sqrt) ==> NonNegative(matrix)
    ensures IsSqrt(sqrt) && DistinctCities(cities) ==> PositiveOffDiagonal(matrix)
  {
    var n := |cities|;
    matrix := new real[n, n]((i, j) => 0.0);
    for i := 0 to n
      invariant IsSquare(matrix, n)
      invariant forall r, c :: 0 <= r < n && 0 <= c < n ==>
        matrix[r, c] == if r < i then MatrixEntry(cities, sqrt, r, c) else 0.0
    {
      for j := 0 to n
        invariant forall r, c :: 0 <= r < n && 0 <= c < n ==>
          matrix[r, c] == if r < i || (r == i && c < j) then MatrixEntry(cities, sqrt, r, c) else 0.0
      {
        if i != j {
          matrix[i, j] := EuclideanDistance(cities[i], cities[j], sqrt);
        }
      }
    }
    forall i, j | 0 <= i < n && 0 <= j < n
      ensures matrix[i, j] == matrix[j, i]
    {
      EuclideanSymmetric(cities[i], cities[j], sqrt);
    }
    if IsSqrt(sqrt) {
      forall i, j | 0 <= i < n && 0 <= j < n
        ensures 0.0 <= matrix[i, j]
        ensures i != j && DistinctCities(cities) ==> 0.0 < matrix[i, j]
      {
        EuclideanSign(cities[i], cities[j], sqrt);
      }
    }
  }
}
