/**
 * The distance matrix: entry (j, l) is the distance between positions j and l.
 * `euclid` is the square root of the squared distance; the square root (a
 * floating-point operation) is not modelled, so entries here are squared
 * Euclidean distances. Symmetry, the zero diagonal and non-negativity hold
 * for both alike, since the square root maps 0 to 0 and keeps the order of
 * non-negative numbers.
 */
module Distances {
  import opened Config
  import opened Sums

  /** `euclid(a, b)` squared. */
  function SquaredDistance(a: Point, b: Point): real {
    (a.x - b.x) * (a.x - b.x) + (a.y - b.y) * (a.y - b.y)
  }

  /** The distance is symmetric, never negative, and zero from a point to itself. */
  lemma DistanceProperties(a: Point, b: Point)
    ensures SquaredDistance(a, b) == SquaredDistance(b, a)
    ensures SquaredDistance(a, b) >= 0.0
    ensures SquaredDistance(a, a) == 0.0
  {
    var dx, dy := a.x - b.x, a.y - b.y;
    assert dx * dx >= 0.0 && dy * dy >= 0.0;
    assert (b.x - a.x) * (b.x - a.x) == dx * dx;
    assert (b.y - a.y) * (b.y - a.y) == dy * dy;
  }

  /** `D`: the nPos-by-nPos table of pairwise distances over `pos_coords`. */
  function DistanceMatrix(pos: seq<Point>): Matrix {
    seq(|pos|, j requires 0 <= j < |pos| =>
      seq(|pos|, l requires 0 <= l < |pos| => SquaredDistance(pos[j], pos[l])))
  }

  /**
   * The table is square of the size of the position list, symmetric, zero on
   * its diagonal and never negative.
   */
  lemma DistanceMatrixShape(pos: seq<Point>, j: nat, l: nat)
    requires j < |pos| && l < |pos|
    ensures IsSquare(DistanceMatrix(pos), |pos|)
    ensures DistanceMatrix(pos)[j][l] == DistanceMatrix(pos)[l][j]
    ensures DistanceMatrix(pos)[j][j] == 0.0
    ensures DistanceMatrix(pos)[j][l] >= 0.0
  {
    DistanceProperties(pos[j], pos[l]);
    DistanceProperties(pos[j], pos[j]);
  }

  /** Python/app.py:171-175: a zero table filled in place by two nested loops. */
  method BuildDistances(pos: seq<Point>) returns (D: array2<real>)
    ensures fresh(D)
    ensures D.Length0 == |pos| && D.Length1 == |pos|
    ensures forall j, l :: 0 <= j < |pos| && 0 <= l < |pos| ==> D[j, l] == DistanceMatrix(pos)[j][l]
  {
    var nPos := |pos|;
    D := new real[nPos, nPos]((j, l) => 0.0);
    for j := 0 to nPos
      invariant forall j', l :: 0 <= j' < j && 0 <= l < nPos ==> D[j', l] == DistanceMatrix(pos)[j'][l]
    {
      for l := 0 to nPos
        invariant forall j', l' :: 0 <= j' < j && 0 <= l' < nPos ==> D[j', l'] == DistanceMatrix(pos)[j'][l']
        invariant forall l' :: 0 <= l' < l ==> D[j, l'] == DistanceMatrix(pos)[j][l']
      {
        D[j, l] := SquaredDistance(pos[j], pos[l]);
      }
    }
  }
}
