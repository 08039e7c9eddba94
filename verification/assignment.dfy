/** Assigning every point to its nearest centroid (`assignPointsToCentroids`
    and the `assignPointsToClasters` copies of the older variants). */
module Assignment {
  import opened Points

  /** The index of the first centroid among `cs[..n]` at strictly minimal
      distance from `x`, scanning left to right and replacing the current best
      only on a strictly smaller distance; -1 when `n == 0`. */
  function NearestAmong(x: seq<real>, cs: seq<Point>, n: nat): (r: int)
    requires n <= |cs|
    requires forall j :: 0 <= j < |cs| ==> |cs[j].coords| == |x|
    ensures -1 <= r < n
    ensures r == -1 <==> n == 0
    ensures r >= 0 ==> forall j :: 0 <= j < n ==> SqDist(x, cs[r].coords) <= SqDist(x, cs[j].coords)
    ensures r >= 0 ==> forall j :: 0 <= j < r ==> SqDist(x, cs[r].coords) < SqDist(x, cs[j].coords)
    decreases n
  {
    if n == 0 then -1
    else
      var best := NearestAmong(x, cs, n - 1);
      if best == -1 || SqDist(x, cs[n - 1].coords) < SqDist(x, cs[best].coords) then n - 1
      else best
  }

  /** The first nearest centroid to `x`, or -1 when there is no centroid. */
  function Nearest(x: seq<real>, cs: seq<Point>): (r: int)
    requires forall j :: 0 <= j < |cs| ==> |cs[j].coords| == |x|
    ensures -1 <= r < |cs|
    ensures r == -1 <==> |cs| == 0
  {
    NearestAmong(x, cs, |cs|)
  }

  /** The brute-force description of the scan's answer: `r` indexes a
      centroid no farther from `x` than any other, and every centroid before
      it is strictly farther. */
  predicate IsFirstNearest(x: seq<real>, cs: seq<Point>, r: int)
    requires forall j :: 0 <= j < |cs| ==> |cs[j].coords| == |x|
  {
    && 0 <= r < |cs|
    && (forall j :: 0 <= j < |cs| ==> SqDist(x, cs[r].coords) <= SqDist(x, cs[j].coords))
    && (forall j :: 0 <= j < r ==> SqDist(x, cs[r].coords) < SqDist(x, cs[j].coords))
  }

  /** The scan returns exactly the brute-force first nearest centroid: it
      satisfies the description, and nothing else does. */
  lemma NearestIsFirstNearest(x: seq<real>, cs: seq<Point>, r: int)
    requires forall j :: 0 <= j < |cs| ==> |cs[j].coords| == |x|
    ensures |cs| > 0 ==> IsFirstNearest(x, cs, Nearest(x, cs))
    ensures IsFirstNearest(x, cs, r) <==> (|cs| > 0 && r == Nearest(x, cs))
  {
  }

  /** One step of the scan for a single point: when the nearest centroid
      differs from the point's current cluster, the point takes the new id
      and the new distance; otherwise it is left exactly as it was. With no
      centroid at all the scan reports index -1 at distance DBL_MAX. */
  function Reassign(p: Point, cs: seq<Point>): Point
    requires forall j :: 0 <= j < |cs| ==> |cs[j].coords| == |p.coords|
  {
    var j := Nearest(p.coords, cs);
    if p.clusterId == j then p
    else p.(clusterId := j, distance := if j == -1 then DblMax else SqDist(p.coords, cs[j].coords))
  }

  /** The indices at which `after` carries a different cluster id from `before`. */
  function Moved(before: seq<Point>, after: seq<Point>): set<int>
    requires |before| == |after|
  {
    set i | 0 <= i < |before| && before[i].clusterId != after[i].clusterId
  }

  /** When every point changed cluster, all of them are counted. */
  lemma EveryPointMoved(before: seq<Point>, after: seq<Point>)
    requires |before| == |after|
    requires forall i :: 0 <= i < |before| ==> before[i].clusterId != after[i].clusterId
    ensures |Moved(before, after)| == |before|
  {
    assert CountMoved(before, after, |before|) == |before| by {
      CountMovedAll(before, after, |before|);
    }
    assert Moved(before, after) == set i | 0 <= i < |before| && before[i].clusterId != after[i].clusterId;
  }

  /** On freshly read points (all unassigned) and at least one centroid, the
      first pass moves every point, so its count is the number of points. */
  lemma FirstPassMovesAll(ps: seq<Point>, cs: seq<Point>)
    requires Compatible(ps, cs)
    requires |cs| > 0
    requires forall i :: 0 <= i < |ps| ==> ps[i].clusterId == -1
    ensures Assign(ps, cs).changed == |ps|
  {
    EveryPointMoved(ps, Assign(ps, cs).points);
  }

  lemma {:induction false} CountMovedAll(before: seq<Point>, after: seq<Point>, n: nat)
    requires n <= |before| == |after|
    requires forall i :: 0 <= i < |before| ==> before[i].clusterId != after[i].clusterId
    ensures CountMoved(before, after, n) == n
  {
    if n > 0 {
      CountMovedAll(before, after, n - 1);
    }
  }

  /** The result of one assignment pass: the updated points and the number of
      points whose cluster changed. */
  datatype Pass = Pass(points: seq<Point>, changed: nat)

  /** The program's change counter after the first `n` points: it goes up by
      one for every point whose cluster id the pass replaced. */
  function CountMoved(before: seq<Point>, after: seq<Point>, n: nat): (c: nat)
    requires n <= |before| == |after|
    ensures c <= n
    ensures c == |set i | 0 <= i < n && before[i].clusterId != after[i].clusterId|
    decreases n
  {
    if n == 0 then 0
    else
      var prev := CountMoved(before, after, n - 1);
      var step := if before[n - 1].clusterId != after[n - 1].clusterId then 1 else 0;
      ghost var low := set i | 0 <= i < n - 1 && before[i].clusterId != after[i].clusterId;
      ghost var all := set i | 0 <= i < n && before[i].clusterId != after[i].clusterId;
      assert n - 1 !in low;
      assert all == low + (if step == 1 then {n - 1} else {});
      prev + step
  }

  /** One assignment pass over all points, in order. */
  function Assign(ps: seq<Point>, cs: seq<Point>): (r: Pass)
    requires Compatible(ps, cs)
    ensures |r.points| == |ps|
    ensures forall i :: 0 <= i < |ps| ==> r.points[i].coords == ps[i].coords
    ensures forall i :: 0 <= i < |ps| ==> r.points[i].clusterId == Nearest(ps[i].coords, cs)
    ensures |cs| > 0 ==> forall i :: 0 <= i < |ps| ==> 0 <= r.points[i].clusterId < |cs|
    ensures forall i :: 0 <= i < |ps| && r.points[i].clusterId == ps[i].clusterId ==> r.points[i] == ps[i]
    ensures forall i :: 0 <= i < |ps| && r.points[i].clusterId != ps[i].clusterId ==>
              r.points[i].distance ==
                if |cs| == 0 then DblMax else SqDist(ps[i].coords, cs[Nearest(ps[i].coords, cs)].coords)
    ensures r.changed == |Moved(ps, r.points)|
    ensures r.changed <= |ps|
  {
    var pts := seq(|ps|, i requires 0 <= i < |ps| => Reassign(ps[i], cs));
    Pass(pts, CountMoved(ps, pts, |ps|))
  }

  /** The variant of `old/fix_k-means2D.h`, which records the new cluster id
      but never writes the distance. */
  function AssignKeepDistance(ps: seq<Point>, cs: seq<Point>): (r: Pass)
    requires Compatible(ps, cs)
    ensures |r.points| == |ps|
    ensures forall i :: 0 <= i < |ps| ==>
              r.points[i] == ps[i].(clusterId := Nearest(ps[i].coords, cs))
    ensures r.changed == |Moved(ps, r.points)|
  {
    var full := Assign(ps, cs);
    var pts := seq(|ps|, i requires 0 <= i < |ps| => full.points[i].(distance := ps[i].distance));
    assert Moved(ps, pts) == Moved(ps, full.points);
    Pass(pts, full.changed)
  }

  /** A pass reports no change exactly when every point already carries its
      nearest centroid, and then it returns the points untouched. */
  lemma NoChangeIffStable(ps: seq<Point>, cs: seq<Point>)
    requires Compatible(ps, cs)
    ensures Assign(ps, cs).changed == 0 <==>
              forall i :: 0 <= i < |ps| ==> ps[i].clusterId == Nearest(ps[i].coords, cs)
    ensures Assign(ps, cs).changed == 0 ==> Assign(ps, cs).points == ps
  {
    var r := Assign(ps, cs);
    if r.changed == 0 {
      forall i | 0 <= i < |ps|
        ensures ps[i].clusterId == Nearest(ps[i].coords, cs)
      {
        assert i !in Moved(ps, r.points);
      }
    } else {
      var i :| i in Moved(ps, r.points);
      assert ps[i].clusterId != Nearest(ps[i].coords, cs);
    }
  }

  /** Assignment is idempotent: a second pass with the same centroids changes
      nothing and reports 0. */
  lemma AssignIdempotent(ps: seq<Point>, cs: seq<Point>)
    requires Compatible(ps, cs)
    ensures Compatible(Assign(ps, cs).points, cs)
    ensures Assign(Assign(ps, cs).points, cs) == Pass(Assign(ps, cs).points, 0)
  {
    var r := Assign(ps, cs);
    NoChangeIffStable(r.points, cs);
  }

  /** With two centroids the scan picks the second only when it is strictly
      nearer. */
  lemma NearestOfTwo(x: seq<real>, c0: Point, c1: Point)
    requires |c0.coords| == |x| && |c1.coords| == |x|
    ensures Nearest(x, [c0, c1]) == if SqDist(x, c1.coords) < SqDist(x, c0.coords) then 1 else 0
  {
    var cs := [c0, c1];
    assert NearestAmong(x, cs, 1) == 0;
  }

  /** The worked example of the program's tests: (0,0), (10,10), (2,2), (9,9)
      against centroids (1,1), (8,8) are assigned 0, 1, 0, 1, all four moving
      away from "unassigned". */
  lemma AssignExample(ps: seq<Point>, cs: seq<Point>)
    requires |ps| == 4
    requires ps[0] == FromCoords([0.0, 0.0]) && ps[1] == FromCoords([10.0, 10.0])
    requires ps[2] == FromCoords([2.0, 2.0]) && ps[3] == FromCoords([9.0, 9.0])
    requires |cs| == 2 && cs[0] == FromCoords([1.0, 1.0]) && cs[1] == FromCoords([8.0, 8.0])
    ensures Compatible(ps, cs)
    ensures Assign(ps, cs).changed == 4
    ensures Assign(ps, cs).points[0].clusterId == 0 && Assign(ps, cs).points[1].clusterId == 1
    ensures Assign(ps, cs).points[2].clusterId == 0 && Assign(ps, cs).points[3].clusterId == 1
  {
    ExampleNearest(cs);
    FirstPassMovesAll(ps, cs);
  }

  lemma ExampleNearest(cs: seq<Point>)
    requires |cs| == 2 && cs[0].coords == [1.0, 1.0] && cs[1].coords == [8.0, 8.0]
    ensures Nearest([0.0, 0.0], cs) == 0 && Nearest([10.0, 10.0], cs) == 1
    ensures Nearest([2.0, 2.0], cs) == 0 && Nearest([9.0, 9.0], cs) == 1
  {
    assert cs == [cs[0], cs[1]];
    NearestOfTwoPlanar(0.0, 0.0, cs[0], cs[1]);
    NearestOfTwoPlanar(10.0, 10.0, cs[0], cs[1]);
    NearestOfTwoPlanar(2.0, 2.0, cs[0], cs[1]);
    NearestOfTwoPlanar(9.0, 9.0, cs[0], cs[1]);
  }

  lemma NearestOfTwoPlanar(x: real, y: real, c0: Point, c1: Point)
    requires c0.coords == [1.0, 1.0] && c1.coords == [8.0, 8.0]
    ensures Nearest([x, y], [c0, c1]) ==
              if (x - 8.0) * (x - 8.0) + (y - 8.0) * (y - 8.0) < (x - 1.0) * (x - 1.0) + (y - 1.0) * (y - 1.0)
              then 1 else 0
  {
    PlanarDistance(x, y, 1.0, 1.0);
    PlanarDistance(x, y, 8.0, 8.0);
    NearestOfTwo([x, y], c0, c1);
  }
}
