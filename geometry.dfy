/**
 * Points in the projected (metre) frame and the closed-ball distance test used
 * by deduplication and by the radius queries. The source compares a Euclidean
 * norm with a threshold (`norm <= seuil`); because the norm is the square root
 * of the squared distance, `norm <= r` holds exactly when `r >= 0` and the
 * squared distance is at most `r * r`, which is what `Within` states.
 */
module Geometry {

  datatype Point = Point(x: real, y: real)

  /** Squared Euclidean distance. */
  function Dist2(p: Point, q: Point): (d: real)
    ensures d >= 0.0
  {
    var dx := p.x - q.x;
    var dy := p.y - q.y;
    SquareNonNegative(dx);
    SquareNonNegative(dy);
    dx * dx + dy * dy
  }

  lemma SquareNonNegative(a: real)
    ensures a * a >= 0.0
  {
    if a < 0.0 {
      assert a * a == (-a) * (-a);
    }
  }

  /** The closed ball test `norm(p - q) <= r`. */
  predicate Within(p: Point, q: Point, r: real)
  {
    0.0 <= r && Dist2(p, q) <= r * r
  }

  lemma Dist2Symmetric(p: Point, q: Point)
    ensures Dist2(p, q) == Dist2(q, p)
  {
    assert (p.x - q.x) * (p.x - q.x) == (q.x - p.x) * (q.x - p.x);
    assert (p.y - q.y) * (p.y - q.y) == (q.y - p.y) * (q.y - p.y);
  }

  /** A larger radius admits every point a smaller one does. */
  lemma WithinMonotone(p: Point, q: Point, r1: real, r2: real)
    requires r1 <= r2
    ensures Within(p, q, r1) ==> Within(p, q, r2)
  {
    if 0.0 <= r1 {
      assert r1 * r1 <= r1 * r2 <= r2 * r2;
    }
  }
}
