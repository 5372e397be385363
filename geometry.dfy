/** Delivery points and the distance between them.
    The planar Euclidean distance uses a square root, which is not modelled
    numerically: a distance is any function `dist` handed in by the caller, and
    `IsEuclidean(dist)` says that it is the non-negative square root of the
    squared coordinate difference. */
module Geometry {

  /** A demand point: a coordinate on the map and the demand to deliver there.
      The depot is a point of the same type with demand 0. */
  datatype DeliveryPoint = DeliveryPoint(x: real, y: real, demand: int)

  /** A distance function between two points. */
  type Metric = (DeliveryPoint, DeliveryPoint) -> real

  function SquaredDistance(p: DeliveryPoint, q: DeliveryPoint): real
  {
    (p.x - q.x) * (p.x - q.x) + (p.y - q.y) * (p.y - q.y)
  }

  /** `dist` is the Euclidean distance: non-negative and its square is the
      squared coordinate difference. */
  ghost predicate IsEuclidean(dist: Metric)
  {
    forall p, q :: dist(p, q) >= 0.0 && dist(p, q) * dist(p, q) == SquaredDistance(p, q)
  }

  /** The only property of a distance that the cost model relies on. */
  ghost predicate NonNegative(dist: Metric)
  {
    forall p, q :: dist(p, q) >= 0.0
  }

  /** Squaring is strictly increasing on the non-negative reals. */
  lemma SquareIncreasing(lo: real, hi: real)
    requires 0.0 <= lo
    ensures lo < hi ==> lo * lo < hi * hi
  {
    if lo < hi {
      var small, mid, large := lo * lo, lo * hi, hi * hi;
      assert small <= mid;
      assert mid < large;
    }
  }

  /** Two non-negative reals with the same square are equal. */
  lemma SquareRootUnique(a: real, b: real)
    requires a >= 0.0 && b >= 0.0 && a * a == b * b
    ensures a == b
  {
    SquareIncreasing(a, b);
    SquareIncreasing(b, a);
  }

  /** The Euclidean distance is determined: two distances that are both
      Euclidean agree on every pair of points, so `dist` can only be the
      distance `distance` computes. */
  lemma EuclideanIsUnique(d1: Metric, d2: Metric, p: DeliveryPoint, q: DeliveryPoint)
    requires IsEuclidean(d1) && IsEuclidean(d2)
    ensures d1(p, q) == d2(p, q)
  {
    SquareRootUnique(d1(p, q), d2(p, q));
  }

  /** A real whose square is zero is zero. */
  lemma SquareZero(a: real)
    requires a * a == 0.0
    ensures a == 0.0
  {
    SquareIncreasing(0.0, a);
    SquareIncreasing(0.0, -a);
  }

  /** The Euclidean distance is non-negative and symmetric, and two points
      are at distance zero exactly when their coordinates coincide. */
  lemma EuclideanDistance(dist: Metric, p: DeliveryPoint, q: DeliveryPoint)
    requires IsEuclidean(dist)
    ensures NonNegative(dist)
    ensures dist(p, q) == dist(q, p)
    ensures dist(p, p) == 0.0
    ensures dist(p, q) == 0.0 <==> p.x == q.x && p.y == q.y
  {
    assert SquaredDistance(p, q) == SquaredDistance(q, p);
    SquareRootUnique(dist(p, q), dist(q, p));
    assert SquaredDistance(p, p) == 0.0;
    SquareRootUnique(dist(p, p), 0.0);
    if dist(p, q) == 0.0 {
      var dx, dy := p.x - q.x, p.y - q.y;
      assert dx * dx + dy * dy == 0.0;
      assert dx * dx >= 0.0 && dy * dy >= 0.0 by {
        SquareIncreasing(0.0, dx);
        SquareIncreasing(0.0, -dx);
        SquareIncreasing(0.0, dy);
        SquareIncreasing(0.0, -dy);
      }
      SquareZero(dx);
      SquareZero(dy);
    } else if p.x == q.x && p.y == q.y {
      assert p == DeliveryPoint(q.x, q.y, p.demand);
      assert SquaredDistance(p, q) == 0.0;
      SquareRootUnique(dist(p, q), 0.0);
    }
  }
}
