/** The `Point` record shared by every variant of the clustering engine, its
    constructors and the Euclidean distance between coordinate vectors.

    The `distance` field holds the SQUARED Euclidean distance once it has been
    measured. The square root is monotone on non-negative reals, so every
    comparison the program makes between distances gives the same answer on
    squared distances (see `SquaringPreservesOrder`). Before a point has been
    measured the field holds the program's sentinel value unchanged. */
module Points {

  /** INT_MAX: the distance of a point that has not been assigned yet. */
  const IntMax: real := 2147483647.0

  /** __DBL_MAX__, the largest finite double: the unassigned distance of the
      planar and legacy points, and the minimum the assignment scan reports
      when there is no centroid at all. */
  const DblMax: real := 179769313486231570814527423731704356798070567525844996598917476803157260780028538760589558632766878171540458953514382464234321326889464182768467546703537516986049910576551282076245490090389328944075868508455133942304583236903222948165808559332123348274797826204144723168738177180919299881250404026184124858368.0

  /** A data point or a centroid: coordinates, (squared) distance to the
      assigned centroid, and the assigned cluster (-1 when unassigned). */
  datatype Point = Point(coords: seq<real>, distance: real, clusterId: int)

  // ---- constructors of the N-dimensional point ----

  /** A data point read from input: unassigned, distance INT_MAX. */
  function FromCoords(coords: seq<real>): Point {
    Point(coords, IntMax, -1)
  }

  /** A centroid with a given cluster id: distance 0. */
  function Centroid(coords: seq<real>, id: int): Point {
    Point(coords, 0.0, id)
  }

  /** The default point: no coordinates, unassigned, distance INT_MAX. */
  function DefaultPoint(): Point {
    Point([], IntMax, -1)
  }

  // ---- constructors of the 2-D point (x, y) ----

  /** A raw planar point: unassigned, distance DBL_MAX. */
  function Planar(x: real, y: real): Point {
    Point([x, y], DblMax, -1)
  }

  /** A planar point with every field given. */
  function PlanarFull(x: real, y: real, distance: real, id: int): Point {
    Point([x, y], distance, id)
  }

  /** A planar centroid: distance 0. */
  function PlanarCentroid(x: real, y: real, id: int): Point {
    Point([x, y], 0.0, id)
  }

  /** The default planar point: the origin, distance 0, unassigned. */
  function PlanarDefault(): Point {
    Point([0.0, 0.0], 0.0, -1)
  }

  // ---- constructors of the oldest N-dimensional point (field `cluster`) ----

  /** The oldest variant's default point: no coordinates, unassigned, DBL_MAX. */
  function LegacyDefault(): Point {
    Point([], DblMax, -1)
  }

  /** The oldest variant's point from coordinates: unassigned, DBL_MAX. */
  function LegacyFromCoords(coords: seq<real>): Point {
    Point(coords, DblMax, -1)
  }

  // ---- dimensions ----

  /** Every point of `ps` has exactly `d` coordinates. */
  predicate InSpace(ps: seq<Point>, d: nat) {
    forall i :: 0 <= i < |ps| ==> |ps[i].coords| == d
  }

  /** Every point of `ps` has as many coordinates as every point of `cs`, so
      that the distance between any point and any centroid is defined. */
  predicate Compatible(ps: seq<Point>, cs: seq<Point>) {
    forall i, j :: 0 <= i < |ps| && 0 <= j < |cs| ==> |ps[i].coords| == |cs[j].coords|
  }

  /** The dimension of a centroid collection (0 when it is empty). */
  function Dim(cs: seq<Point>): nat {
    if |cs| == 0 then 0 else |cs[0].coords|
  }

  // ---- distance ----

  function Sq(x: real): (r: real)
    ensures r >= 0.0
  {
    x * x
  }

  /** The squared Euclidean distance: the sum, over the coordinates, of the
      squared coordinate differences. Both vectors must have the same length,
      because the program indexes the second one at every index of the first. */
  function SqDist(a: seq<real>, b: seq<real>): (d: real)
    requires |a| == |b|
    ensures d >= 0.0
    ensures a == b ==> d == 0.0
    decreases |a|
  {
    if |a| == 0 then 0.0
    else
      var n := |a| - 1;
      assert a == b ==> a[..n] == b[..n];
      SqDist(a[..n], b[..n]) + Sq(a[n] - b[n])
  }

  /** Distance is symmetric. */
  lemma {:induction false} SqDistSymmetric(a: seq<real>, b: seq<real>)
    requires |a| == |b|
    ensures SqDist(a, b) == SqDist(b, a)
    decreases |a|
  {
    if |a| > 0 {
      var n := |a| - 1;
      SqDistSymmetric(a[..n], b[..n]);
      assert Sq(a[n] - b[n]) == Sq(b[n] - a[n]);
    }
  }

  /** The 2-D distance of the planar variants is the N-D distance on
      2-coordinate vectors. */
  lemma PlanarDistance(x1: real, y1: real, x2: real, y2: real)
    ensures SqDist([x1, y1], [x2, y2]) == (x1 - x2) * (x1 - x2) + (y1 - y2) * (y1 - y2)
  {
    assert [x1, y1][..1] == [x1];
    assert [x2, y2][..1] == [x2];
    assert [x1][..0] == [] && [x2][..0] == [];
  }

  lemma SquareMonotone(x: real, y: real)
    requires 0.0 <= x < y
    ensures x * x < y * y
  {
    var e := y - x;
    assert y * y == (x + e) * (x + e);
    assert (x + e) * (x + e) == x * x + 2.0 * x * e + e * e;
    assert x * e >= 0.0;
    assert e * e > 0.0;
  }

  /** Comparing squared distances gives the same answers as comparing the
      distances themselves. */
  lemma SquaringPreservesOrder(x: real, y: real)
    requires x >= 0.0 && y >= 0.0
    ensures x < y <==> x * x < y * y
  {
    if x < y {
      SquareMonotone(x, y);
    } else if y < x {
      SquareMonotone(y, x);
    }
  }

  /** The values the program's own tests expect of its constructors and of
      `calcDist` (distances squared). */
  lemma ConstructorAndDistanceExamples()
    ensures DefaultPoint().coords == [] && DefaultPoint().distance == IntMax
            && DefaultPoint().clusterId == -1
    ensures FromCoords([1.0, 2.0]).clusterId == -1 && FromCoords([1.0, 2.0]).distance == IntMax
    ensures Centroid([3.0, 4.0], 1).clusterId == 1 && Centroid([3.0, 4.0], 1).distance == 0.0
    ensures SqDist([0.0, 0.0], [3.0, 4.0]) == 5.0 * 5.0
    ensures SqDist([-1.0, -1.0], [-4.0, -5.0]) == 5.0 * 5.0
    ensures SqDist([0.0, 1.0, 2.0, 3.0], [2.0, 3.0, 4.0, 5.0]) == 4.0 * 4.0
    ensures SqDist([0.0, 1.0, 2.0, 3.0], [4.0, 5.0, 6.0, 7.0]) == 8.0 * 8.0
    ensures SqDist([0.0, 1.0, 2.0, 3.0], [0.0, 1.0, 2.0, 3.0]) == 0.0
  {
    PlanarDistance(0.0, 0.0, 3.0, 4.0);
    PlanarDistance(-1.0, -1.0, -4.0, -5.0);
    var a := [0.0, 1.0, 2.0, 3.0];
    var b := [2.0, 3.0, 4.0, 5.0];
    var c := [4.0, 5.0, 6.0, 7.0];
    assert a[..3] == [0.0, 1.0, 2.0] && b[..3] == [2.0, 3.0, 4.0] && c[..3] == [4.0, 5.0, 6.0];
    assert a[..3][..2] == [0.0, 1.0] && b[..3][..2] == [2.0, 3.0] && c[..3][..2] == [4.0, 5.0];
    PlanarDistance(0.0, 1.0, 2.0, 3.0);
    PlanarDistance(0.0, 1.0, 4.0, 5.0);
  }
}
