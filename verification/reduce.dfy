/** Attaching externally computed cluster ids to points (`combinePoints`):
    every point takes the id given for it and its distance to that
    cluster's center. */
module Reduce {
  import opened Points
  import opened Assignment
  import opened Recalculation
  import opened Engine

  /** The ids given for the first `n` points are valid indices of centers of
      the points' dimension. The program reads `cluster_ids[i]` and
      `cluster_centers[cluster_ids[i]]` for every point without checking. */
  predicate ValidIds(ps: seq<Point>, ids: seq<int>, centers: seq<Point>) {
    && |ids| >= |ps|
    && forall i :: 0 <= i < |ps| ==>
         0 <= ids[i] < |centers| && |centers[ids[i]].coords| == |ps[i].coords|
  }

  /** `combinePoints(points, cluster_ids, cluster_centers)`. */
  function CombinePoints(ps: seq<Point>, ids: seq<int>, centers: seq<Point>): (r: seq<Point>)
    requires ValidIds(ps, ids, centers)
    ensures |r| == |ps|
    ensures Ids(r) == ids[..|ps|]
    ensures forall i :: 0 <= i < |ps| ==> r[i].coords == ps[i].coords
    ensures forall i :: 0 <= i < |ps| ==> r[i].distance == SqDist(ps[i].coords, centers[ids[i]].coords)
    ensures forall i :: 0 <= i < |ps| ==> r[i].distance >= 0.0
    ensures forall i :: 0 <= i < |ps| ==> r[i].coords == centers[ids[i]].coords ==> r[i].distance == 0.0
    ensures forall i :: 0 <= i < |ps| ==>
              (ps[i].clusterId == ids[i] && ps[i].distance == SqDist(ps[i].coords, centers[ids[i]].coords)
               ==> r[i] == ps[i])
  {
    var r := seq(|ps|, i requires 0 <= i < |ps| =>
                 ps[i].(clusterId := ids[i], distance := SqDist(ps[i].coords, centers[ids[i]].coords)));
    assert Ids(r) == ids[..|ps|];
    r
  }

  /** Combining only looks at the coordinates: doing it again with the same
      ids and centers changes nothing. */
  lemma CombineIdempotent(ps: seq<Point>, ids: seq<int>, centers: seq<Point>)
    requires ValidIds(ps, ids, centers)
    ensures ValidIds(CombinePoints(ps, ids, centers), ids, centers)
    ensures CombinePoints(CombinePoints(ps, ids, centers), ids, centers) == CombinePoints(ps, ids, centers)
  {
  }

  /** With the ids of the nearest centroids, combining yields a settled
      assignment whose distances are the minimum over all centers, and it
      agrees with an assignment pass wherever that pass moved a point. */
  lemma CombineNearest(ps: seq<Point>, cs: seq<Point>)
    requires Compatible(ps, cs) && |cs| > 0
    ensures ValidIds(ps, Ids(Assign(ps, cs).points), cs)
    ensures Compatible(CombinePoints(ps, Ids(Assign(ps, cs).points), cs), cs)
    ensures Settled(CombinePoints(ps, Ids(Assign(ps, cs).points), cs), cs)
    ensures forall i, j :: 0 <= i < |ps| && 0 <= j < |cs| ==>
              CombinePoints(ps, Ids(Assign(ps, cs).points), cs)[i].distance <= SqDist(ps[i].coords, cs[j].coords)
    ensures forall i :: 0 <= i < |ps| && Assign(ps, cs).points[i].clusterId != ps[i].clusterId ==>
              CombinePoints(ps, Ids(Assign(ps, cs).points), cs)[i] == Assign(ps, cs).points[i]
  {
    var a := Assign(ps, cs).points;
    var r := CombinePoints(ps, Ids(a), cs);
    forall i, j | 0 <= i < |ps| && 0 <= j < |cs|
      ensures r[i].distance <= SqDist(ps[i].coords, cs[j].coords)
    {
      NearestIsFirstNearest(ps[i].coords, cs, 0);
    }
  }
}
