/** The `Cluster` record of the post-processing stage: an id, a center, the
    member points and a separately stored point count. */
module Clusters {
  import opened Points
  import opened Sorting
  import opened Neighbors

  /** `numPoints` is stored, not computed: only some constructors set it
      from the member points. */
  datatype Cluster = Cluster(clusterId: int, center: Point, points: seq<Point>, numPoints: int)

  /** The stored count agrees with the member points. */
  predicate Consistent(c: Cluster) {
    c.numPoints == |c.points|
  }

  /** `Cluster()`: id -1, default center, no points. */
  function DefaultCluster(): Cluster {
    Cluster(-1, DefaultPoint(), [], 0)
  }

  /** `Cluster(id)`. */
  function WithId(id: int): Cluster {
    Cluster(id, DefaultPoint(), [], 0)
  }

  /** `Cluster(id, center)`. */
  function WithCenter(id: int, center: Point): Cluster {
    Cluster(id, center, [], 0)
  }

  /** `Cluster(id, points)`: the count is taken from the points. */
  function WithPoints(id: int, points: seq<Point>): Cluster {
    Cluster(id, DefaultPoint(), points, |points|)
  }

  /** `Cluster(id, center, points)`: the count is taken from the points. */
  function WithCenterAndPoints(id: int, center: Point, points: seq<Point>): Cluster {
    Cluster(id, center, points, |points|)
  }

  /** `Cluster(id, center, points, num_points)`: the count is whatever the
      caller passes. */
  function WithCount(id: int, center: Point, points: seq<Point>, numPoints: int): Cluster {
    Cluster(id, center, points, numPoints)
  }

  /** Every constructor but the last yields a consistent cluster with the
      given id, and the last one does exactly when the caller's count is the
      number of points. */
  lemma ConstructorsConsistent(id: int, center: Point, points: seq<Point>, n: int)
    ensures Consistent(DefaultCluster()) && DefaultCluster().clusterId == -1 && DefaultCluster().points == []
    ensures Consistent(WithId(id)) && WithId(id).clusterId == id && WithId(id).points == []
    ensures Consistent(WithCenter(id, center)) && WithCenter(id, center).center == center
    ensures Consistent(WithPoints(id, points)) && WithPoints(id, points).points == points
    ensures Consistent(WithCenterAndPoints(id, center, points))
    ensures WithCenterAndPoints(id, center, points).center == center
    ensures Consistent(WithCount(id, center, points, n)) <==> n == |points|
  {
  }

  /** `Cluster::sort`: orders the member points by distance from the center
      and changes nothing else. */
  function Sort(c: Cluster): (r: Cluster)
    requires InSpace(c.points, |c.center.coords|)
    ensures r.clusterId == c.clusterId && r.center == c.center && r.numPoints == c.numPoints
    ensures multiset(r.points) == multiset(c.points)
    ensures InSpace(r.points, |c.center.coords|)
    ensures SortedBy(c.center, r.points)
    ensures Consistent(r) <==> Consistent(c)
  {
    c.(points := SortByDistance(c.center, c.points))
  }

  /** `Cluster::getNeighbors`. */
  function ClusterNeighbors(c: Cluster, k: int): (r: seq<Point>)
    requires 0 < k < |c.points| ==> InSpace(c.points, |c.center.coords|)
    ensures k <= 0 ==> r == []
    ensures 0 < k && k >= |c.points| ==> r == c.points
    ensures 0 < k < |c.points| ==> |r| == k
    ensures forall i :: 0 <= i < |r| ==> r[i] in c.points
  {
    GetNeighbors(c.center, c.points, k)
  }

  /** A cluster built from points alone keeps the default center, which has
      no coordinates. Asking it for no neighbors, or for at least as many as
      it has points, measures no distance, so those calls are answered:
      nothing, or all its points in their order. */
  lemma PointsOnlyClusterNeighbors(id: int, ps: seq<Point>, k: int)
    ensures k <= 0 ==> ClusterNeighbors(WithPoints(id, ps), k) == []
    ensures 0 < k && k >= |ps| ==> ClusterNeighbors(WithPoints(id, ps), k) == ps
  {
  }

  /** Whether the cluster was sorted first makes no difference to the chosen
      neighbors unless every point is returned, in which case they come in
      the member order. */
  lemma NeighborsIgnoreSorting(c: Cluster, k: int)
    requires InSpace(c.points, |c.center.coords|)
    ensures 0 < k < |c.points| ==> ClusterNeighbors(Sort(c), k) == ClusterNeighbors(c, k)
    ensures 0 < k && k >= |c.points| ==> ClusterNeighbors(Sort(c), k) == Sort(c).points
  {
    SortIdempotent(c.center, c.points);
  }

  /** Sorting twice is sorting once. */
  lemma SortTwice(c: Cluster)
    requires InSpace(c.points, |c.center.coords|)
    ensures Sort(Sort(c)) == Sort(c)
  {
    SortIdempotent(c.center, c.points);
  }
}
