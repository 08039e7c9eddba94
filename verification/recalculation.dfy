/** Moving every centroid to the mean of its member points
    (`recalculateCentroids` and its copies), the degenerate-centroid check, and
    the single accumulation pass the program performs. */
module Recalculation {
  import opened Points
  import opened Outcomes

  // ---- vectors ----

  function Zeros(d: nat): (z: seq<real>)
    ensures |z| == d
    ensures forall j :: 0 <= j < d ==> z[j] == 0.0
  {
    seq(d, j => 0.0)
  }

  function AddVec(a: seq<real>, b: seq<real>): (s: seq<real>)
    requires |a| == |b|
    ensures |s| == |a|
    ensures forall j :: 0 <= j < |a| ==> s[j] == a[j] + b[j]
  {
    seq(|a|, j requires 0 <= j < |a| => a[j] + b[j])
  }

  // ---- per-cluster count, sum and mean ----

  /** The cluster ids of the points, in order. */
  function Ids(ps: seq<Point>): (ids: seq<int>)
    ensures |ids| == |ps|
    ensures forall i :: 0 <= i < |ps| ==> ids[i] == ps[i].clusterId
  {
    seq(|ps|, i requires 0 <= i < |ps| => ps[i].clusterId)
  }

  /** The number of points whose cluster id is `c`: the multiplicity of `c`
      among the points' ids. */
  function ClusterCount(ps: seq<Point>, c: int): (n: nat)
    ensures n <= |ps|
    ensures n == multiset(Ids(ps))[c]
    decreases |ps|
  {
    if |ps| == 0 then 0
    else
      var last := |ps| - 1;
      assert Ids(ps) == Ids(ps[..last]) + [ps[last].clusterId];
      ClusterCount(ps[..last], c) + (if ps[last].clusterId == c then 1 else 0)
  }

  /** The coordinate-wise sum of the points whose cluster id is `c`, starting
      from the zero vector of dimension `d`. */
  function ClusterSum(ps: seq<Point>, c: int, d: nat): (s: seq<real>)
    requires InSpace(ps, d)
    ensures |s| == d
    decreases |ps|
  {
    if |ps| == 0 then Zeros(d)
    else
      var last := |ps| - 1;
      var prev := ClusterSum(ps[..last], c, d);
      if ps[last].clusterId == c then AddVec(prev, ps[last].coords) else prev
  }

  /** The coordinate-wise mean of the points of cluster `c`. */
  function Mean(ps: seq<Point>, c: int, d: nat): (m: seq<real>)
    requires InSpace(ps, d)
    requires ClusterCount(ps, c) > 0
    ensures |m| == d
  {
    var s := ClusterSum(ps, c, d);
    seq(d, j requires 0 <= j < d => s[j] / ClusterCount(ps, c) as real)
  }

  /** The means of clusters 0 .. k-1, or the first cluster without members. */
  function Means(ps: seq<Point>, k: nat, d: nat): (r: Result<seq<seq<real>>>)
    requires k > 0 ==> InSpace(ps, d)
    ensures r.Success? ==> forall c :: 0 <= c < k ==> ClusterCount(ps, c) > 0
    ensures (forall c :: 0 <= c < k ==> ClusterCount(ps, c) > 0) ==> r.Success?
    ensures r.Success? ==> |r.value| == k && forall c :: 0 <= c < k ==> r.value[c] == Mean(ps, c, d)
    ensures r.Failure? ==>
              && r.error.EmptyCluster?
              && r.error.cluster < k
              && ClusterCount(ps, r.error.cluster) == 0
              && forall c :: 0 <= c < r.error.cluster ==> ClusterCount(ps, c) > 0
    decreases k
  {
    if k == 0 then Success([])
    else
      match Means(ps, k - 1, d)
      case Failure(e) =>
        assert ClusterCount(ps, e.cluster) == 0;
        Failure(e)
      case Success(prev) =>
        if ClusterCount(ps, k - 1) == 0 then
          assert !(forall c :: 0 <= c < k ==> ClusterCount(ps, c) > 0) by {
            assert 0 <= k - 1 < k && ClusterCount(ps, k - 1) == 0;
          }
          Failure(EmptyCluster(k - 1))
        else
          var r := prev + [Mean(ps, k - 1, d)];
          assert forall c :: 0 <= c < k - 1 ==> r[c] == prev[c];
          Success(r)
  }

  // ---- checks ----

  /** The first point whose cluster id does not index one of `k` centroids,
      or -1 when every id does. */
  function FirstStray(ps: seq<Point>, k: nat): (r: int)
    ensures -1 <= r < |ps|
    ensures r == -1 <==> forall i :: 0 <= i < |ps| ==> 0 <= ps[i].clusterId < k
    ensures r >= 0 ==> !(0 <= ps[r].clusterId < k)
    ensures r >= 0 ==> forall i :: 0 <= i < r ==> 0 <= ps[i].clusterId < k
    decreases |ps|
  {
    if |ps| == 0 then -1
    else if !(0 <= ps[0].clusterId < k) then 0
    else
      var rest := FirstStray(ps[1..], k);
      if rest == -1 then -1 else rest + 1
  }

  /** The first `j >= from` with `vs[j] == vs[i]`, or -1. */
  function EqualFrom(vs: seq<seq<real>>, i: nat, from: nat): (r: int)
    requires i < |vs|
    ensures r == -1 <==> forall j :: from <= j < |vs| ==> vs[j] != vs[i]
    ensures r != -1 ==> from <= r < |vs| && vs[r] == vs[i]
    ensures r != -1 ==> forall j :: from <= j < r ==> vs[j] != vs[i]
    decreases |vs| - from
  {
    if from >= |vs| then -1
    else if vs[from] == vs[i] then from
    else EqualFrom(vs, i, from + 1)
  }

  /** The first pair `i < j`, in the program's scan order (by `i`, then by
      `j`), of identical vectors among `vs[from..]` paired with later ones. */
  function CollisionFrom(vs: seq<seq<real>>, from: nat): (r: Option<(nat, nat)>)
    ensures r.None? <==> forall i, j :: from <= i < j < |vs| ==> vs[i] != vs[j]
    ensures r.Some? ==> from <= r.value.0 < r.value.1 < |vs| && vs[r.value.0] == vs[r.value.1]
    ensures r.Some? ==> forall i, j :: from <= i < r.value.0 && i < j < |vs| ==> vs[i] != vs[j]
    decreases |vs| - from
  {
    if from >= |vs| then None
    else
      var j := EqualFrom(vs, from, from + 1);
      if j != -1 then Some((from, j as nat))
      else CollisionFrom(vs, from + 1)
  }

  /** Two centroids with identical coordinates, if there are any. */
  function FindCollision(vs: seq<seq<real>>): (r: Option<(nat, nat)>)
    ensures r.None? <==> forall i, j :: 0 <= i < j < |vs| ==> vs[i] != vs[j]
    ensures r.Some? ==> r.value.0 < r.value.1 < |vs| && vs[r.value.0] == vs[r.value.1]
  {
    CollisionFrom(vs, 0)
  }

  // ---- the recalculation step ----

  /** Every point's cluster id indexes one of `k` centroids. */
  predicate IdsInRange(ps: seq<Point>, k: nat) {
    forall i :: 0 <= i < |ps| ==> 0 <= ps[i].clusterId < k
  }

  /** Every cluster 0 .. k-1 has at least one member. */
  predicate NoneEmpty(ps: seq<Point>, k: nat) {
    forall c :: 0 <= c < k ==> ClusterCount(ps, c) > 0
  }

  /** The canonical recalculation, as the program intends it: every centroid
      is reset to the zero vector of its own dimension and distance 0, then
      becomes the mean of the points carrying its index; the result is
      rejected when some point's id indexes no centroid, when a centroid has
      no member, or when two of the new centroids coincide. The centroids keep
      their own cluster ids, and the points are only read. */
  function Recalculate(ps: seq<Point>, cs: seq<Point>): (r: Result<seq<Point>>)
    requires Compatible(ps, cs)
    ensures r.Success? <==>
              && IdsInRange(ps, |cs|)
              && NoneEmpty(ps, |cs|)
              && forall i, j :: 0 <= i < j < |cs| ==> Mean(ps, i, Dim(cs)) != Mean(ps, j, Dim(cs))
    ensures r.Success? ==>
              && |r.value| == |cs|
              && forall i :: 0 <= i < |cs| ==>
                   r.value[i] == Point(Mean(ps, i, Dim(cs)), 0.0, cs[i].clusterId)
    ensures r.Failure? && r.error.InvalidClusterId? ==>
              r.error.point < |ps| && !(0 <= ps[r.error.point].clusterId < |cs|)
    ensures r.Failure? && r.error.EmptyCluster? ==>
              r.error.cluster < |cs| && ClusterCount(ps, r.error.cluster) == 0
    ensures r.Failure? && r.error.DegenerateCentroids? ==>
              && NoneEmpty(ps, |cs|)
              && r.error.first < r.error.second < |cs|
              && Mean(ps, r.error.first, Dim(cs)) == Mean(ps, r.error.second, Dim(cs))
    ensures r.Failure? ==> !r.error.TooManyCentroids?
  {
    var stray := FirstStray(ps, |cs|);
    if stray >= 0 then Failure(InvalidClusterId(stray))
    else
      var ms :- Means(ps, |cs|, Dim(cs));
      match FindCollision(ms)
      case Some(pair) => Failure(DegenerateCentroids(pair.0, pair.1))
      case None =>
        Success(seq(|cs|, i requires 0 <= i < |cs| => Point(ms[i], 0.0, cs[i].clusterId)))
  }

  /** The intended recalculation of the planar copies (`KMeans2D.h`,
      `KMeans.h`), which zero only the coordinates: each centroid keeps its
      distance field. Otherwise as the intended `Recalculate`. As written,
      an empty cluster does not stop these copies: its centroid gets NaN
      coordinates (see `EmptyClusterGivesNaN`) and the run carries on. */
  function RecalculatePlanar(ps: seq<Point>, cs: seq<Point>): (r: Result<seq<Point>>)
    requires Compatible(ps, cs)
    ensures r.Success? <==> Recalculate(ps, cs).Success?
    ensures r.Failure? ==> r.error == Recalculate(ps, cs).error
    ensures r.Success? ==>
              && |r.value| == |cs|
              && forall i :: 0 <= i < |cs| ==>
                   r.value[i] == cs[i].(coords := Recalculate(ps, cs).value[i].coords)
  {
    var next :- Recalculate(ps, cs);
    Success(seq(|cs|, i requires 0 <= i < |cs| => cs[i].(coords := next[i].coords)))
  }

  /** The oldest variant (`k-means2D.cpp`) with its divisor corrected to the
      member count: each centroid becomes the mean of its members, keeping its
      id and distance; points whose id indexes no centroid contribute
      nothing; there is no degenerate-centroid check. */
  function RecalculateSlots(ps: seq<Point>, cs: seq<Point>): (r: Result<seq<Point>>)
    requires Compatible(ps, cs)
    ensures r.Success? <==> NoneEmpty(ps, |cs|)
    ensures r.Success? ==>
              && |r.value| == |cs|
              && forall i :: 0 <= i < |cs| ==> r.value[i] == cs[i].(coords := Mean(ps, i, Dim(cs)))
    ensures r.Failure? ==> r.error.EmptyCluster? && ClusterCount(ps, r.error.cluster) == 0
  {
    var ms :- Means(ps, |cs|, Dim(cs));
    Success(seq(|cs|, i requires 0 <= i < |cs| => cs[i].(coords := ms[i])))
  }

  /** The intended recalculation of `old/fix_k-means2D.h`: every new
      centroid is a fresh default point (distance DBL_MAX) whose cluster is
      its slot index and whose two coordinates are the means of the members'
      first two coordinates. Ids that index no centroid are collected but
      never used. As written, an empty cluster divides an empty sum by a
      zero size and gets NaN coordinates; the model reports it instead. */
  function RecalculateFirstTwo(ps: seq<Point>, cs: seq<Point>): (r: Result<seq<Point>>)
    requires forall i :: 0 <= i < |ps| ==> |ps[i].coords| >= 2
    ensures r.Success? <==> NoneEmpty(ps, |cs|)
    ensures r.Success? ==>
              && |r.value| == |cs|
              && forall i :: 0 <= i < |cs| ==>
                   r.value[i] == Point(Mean(FirstTwo(ps), i, 2), DblMax, i)
    ensures r.Failure? ==> r.error.EmptyCluster? && ClusterCount(ps, r.error.cluster) == 0
  {
    var flat := FirstTwo(ps);
    var ms :- Means(flat, |cs|, 2);
    Success(seq(|cs|, i requires 0 <= i < |cs| => Point(ms[i], DblMax, i)))
  }

  /** The points cut down to their first two coordinates. */
  function FirstTwo(ps: seq<Point>): (r: seq<Point>)
    requires forall i :: 0 <= i < |ps| ==> |ps[i].coords| >= 2
    ensures |r| == |ps| && InSpace(r, 2)
    ensures forall i :: 0 <= i < |ps| ==> r[i] == ps[i].(coords := ps[i].coords[..2])
    ensures forall c :: ClusterCount(r, c) == ClusterCount(ps, c)
  {
    var r := seq(|ps|, i requires 0 <= i < |ps| => ps[i].(coords := ps[i].coords[..2]));
    assert Ids(r) == Ids(ps);
    r
  }

  // ---- the program's single accumulation pass ----

  /** The accumulation the program performs: one pass over the points adding
      each point's coordinates into the running sum of its cluster and one to
      its count. It computes, for every cluster, exactly the per-cluster sum
      and count that define the mean. */
  method Accumulate(ps: seq<Point>, k: nat, d: nat) returns (sums: seq<seq<real>>, counts: seq<nat>)
    requires InSpace(ps, d)
    requires IdsInRange(ps, k)
    ensures |sums| == k && |counts| == k
    ensures forall c :: 0 <= c < k ==> sums[c] == ClusterSum(ps, c, d)
    ensures forall c :: 0 <= c < k ==> counts[c] == ClusterCount(ps, c)
  {
    sums := seq(k, c => Zeros(d));
    counts := seq(k, c => 0);
    var i := 0;
    while i < |ps|
      invariant 0 <= i <= |ps|
      invariant |sums| == k && |counts| == k
      invariant forall c :: 0 <= c < k ==> sums[c] == ClusterSum(ps[..i], c, d)
      invariant forall c :: 0 <= c < k ==> counts[c] == ClusterCount(ps[..i], c)
    {
      var id := ps[i].clusterId;
      assert ps[..i + 1][..i] == ps[..i];
      sums := sums[id := AddVec(sums[id], ps[i].coords)];
      counts := counts[id := counts[id] + 1];
      i := i + 1;
    }
    assert ps[..|ps|] == ps;
  }

  // ---- the program's own example ----

  /** The three-dimensional example of the program's tests: points (t, t, t)
      for t = 0 .. 4 in cluster 0 and t = 5 .. 9 in cluster 1 give the
      centroids (2, 2, 2) and (7, 7, 7). Only the centroids' coordinates
      matter; their other fields are left free. */
  lemma CentroidExample3D(ps: seq<Point>, cs: seq<Point>)
    requires |ps| == 10
    requires ps[0] == Centroid([0.0, 0.0, 0.0], 0)
    requires ps[1] == Centroid([1.0, 1.0, 1.0], 0)
    requires ps[2] == Centroid([2.0, 2.0, 2.0], 0)
    requires ps[3] == Centroid([3.0, 3.0, 3.0], 0)
    requires ps[4] == Centroid([4.0, 4.0, 4.0], 0)
    requires ps[5] == Centroid([5.0, 5.0, 5.0], 1)
    requires ps[6] == Centroid([6.0, 6.0, 6.0], 1)
    requires ps[7] == Centroid([7.0, 7.0, 7.0], 1)
    requires ps[8] == Centroid([8.0, 8.0, 8.0], 1)
    requires ps[9] == Centroid([9.0, 9.0, 9.0], 1)
    requires |cs| == 2 && cs[0].coords == [0.0, 0.0, 0.0] && cs[1].coords == [5.0, 5.0, 5.0]
    ensures Compatible(ps, cs)
    ensures Recalculate(ps, cs).Success?
    ensures Recalculate(ps, cs).value[0].coords == [2.0, 2.0, 2.0]
    ensures Recalculate(ps, cs).value[1].coords == [7.0, 7.0, 7.0]
  {
    DiagonalMeans(ps);
    assert Dim(cs) == 3;
  }

  lemma DiagonalMeans(ps: seq<Point>)
    requires |ps| == 10
    requires ps[0] == Centroid([0.0, 0.0, 0.0], 0)
    requires ps[1] == Centroid([1.0, 1.0, 1.0], 0)
    requires ps[2] == Centroid([2.0, 2.0, 2.0], 0)
    requires ps[3] == Centroid([3.0, 3.0, 3.0], 0)
    requires ps[4] == Centroid([4.0, 4.0, 4.0], 0)
    requires ps[5] == Centroid([5.0, 5.0, 5.0], 1)
    requires ps[6] == Centroid([6.0, 6.0, 6.0], 1)
    requires ps[7] == Centroid([7.0, 7.0, 7.0], 1)
    requires ps[8] == Centroid([8.0, 8.0, 8.0], 1)
    requires ps[9] == Centroid([9.0, 9.0, 9.0], 1)
    ensures InSpace(ps, 3) && IdsInRange(ps, 2) && NoneEmpty(ps, 2)
    ensures Mean(ps, 0, 3) == [2.0, 2.0, 2.0] && Mean(ps, 1, 3) == [7.0, 7.0, 7.0]
  {
    DiagonalSums(ps);
    assert ps[..10] == ps;
  }

  lemma DiagonalSums(ps: seq<Point>)
    requires |ps| == 10 && InSpace(ps, 3)
    requires ps[0].coords == [0.0, 0.0, 0.0] && ps[0].clusterId == 0
    requires ps[1].coords == [1.0, 1.0, 1.0] && ps[1].clusterId == 0
    requires ps[2].coords == [2.0, 2.0, 2.0] && ps[2].clusterId == 0
    requires ps[3].coords == [3.0, 3.0, 3.0] && ps[3].clusterId == 0
    requires ps[4].coords == [4.0, 4.0, 4.0] && ps[4].clusterId == 0
    requires ps[5].coords == [5.0, 5.0, 5.0] && ps[5].clusterId == 1
    requires ps[6].coords == [6.0, 6.0, 6.0] && ps[6].clusterId == 1
    requires ps[7].coords == [7.0, 7.0, 7.0] && ps[7].clusterId == 1
    requires ps[8].coords == [8.0, 8.0, 8.0] && ps[8].clusterId == 1
    requires ps[9].coords == [9.0, 9.0, 9.0] && ps[9].clusterId == 1
    ensures ClusterSum(ps[..10], 0, 3) == [10.0, 10.0, 10.0] && ClusterCount(ps[..10], 0) == 5
    ensures ClusterSum(ps[..10], 1, 3) == [35.0, 35.0, 35.0] && ClusterCount(ps[..10], 1) == 5
  {
    assert ps[..0] == [];
    DiagonalStep(ps, 1, 0, 0.0, 0, 0.0);
    DiagonalStep(ps, 1, 1, 0.0, 0, 0.0);
    DiagonalStep(ps, 2, 0, 0.0, 1, 1.0);
    DiagonalStep(ps, 2, 1, 0.0, 0, 1.0);
    DiagonalStep(ps, 3, 0, 1.0, 2, 2.0);
    DiagonalStep(ps, 3, 1, 0.0, 0, 2.0);
    DiagonalStep(ps, 4, 0, 3.0, 3, 3.0);
    DiagonalStep(ps, 4, 1, 0.0, 0, 3.0);
    DiagonalStep(ps, 5, 0, 6.0, 4, 4.0);
    DiagonalStep(ps, 5, 1, 0.0, 0, 4.0);
    DiagonalStep(ps, 6, 0, 10.0, 5, 5.0);
    DiagonalStep(ps, 6, 1, 0.0, 0, 5.0);
    DiagonalStep(ps, 7, 0, 10.0, 5, 6.0);
    DiagonalStep(ps, 7, 1, 5.0, 1, 6.0);
    DiagonalStep(ps, 8, 0, 10.0, 5, 7.0);
    DiagonalStep(ps, 8, 1, 11.0, 2, 7.0);
    DiagonalStep(ps, 9, 0, 10.0, 5, 8.0);
    DiagonalStep(ps, 9, 1, 18.0, 3, 8.0);
    DiagonalStep(ps, 10, 0, 10.0, 5, 9.0);
    DiagonalStep(ps, 10, 1, 26.0, 4, 9.0);
  }

  /** One step of the running sums of a cluster on points of the form
      (t, t, t). */
  lemma DiagonalStep(ps: seq<Point>, n: nat, c: int, s: real, m: nat, t: real)
    requires 0 < n <= |ps| && InSpace(ps, 3)
    requires ps[n - 1].coords == [t, t, t]
    requires ClusterSum(ps[..n - 1], c, 3) == [s, s, s] && ClusterCount(ps[..n - 1], c) == m
    ensures ps[n - 1].clusterId == c ==>
              ClusterSum(ps[..n], c, 3) == [s + t, s + t, s + t] && ClusterCount(ps[..n], c) == m + 1
    ensures ps[n - 1].clusterId != c ==>
              ClusterSum(ps[..n], c, 3) == [s, s, s] && ClusterCount(ps[..n], c) == m
  {
    SumStep(ps, n, c, 3);
    if ps[n - 1].clusterId == c {
      DiagonalAdd(s, t);
    }
  }

  lemma DiagonalAdd(s: real, t: real)
    ensures AddVec([s, s, s], [t, t, t]) == [s + t, s + t, s + t]
  {
    var v := AddVec([s, s, s], [t, t, t]);
    assert v[0] == s + t && v[1] == s + t && v[2] == s + t;
  }

  /** One step of the running sums: the prefix of length `n` adds the point
      at `n - 1` to the prefix before it. */
  lemma SumStep(ps: seq<Point>, n: nat, c: int, d: nat)
    requires 0 < n <= |ps| && InSpace(ps, d)
    ensures InSpace(ps[..n], d) && InSpace(ps[..n - 1], d)
    ensures ClusterSum(ps[..n], c, d) ==
              if ps[n - 1].clusterId == c then AddVec(ClusterSum(ps[..n - 1], c, d), ps[n - 1].coords)
              else ClusterSum(ps[..n - 1], c, d)
    ensures ClusterCount(ps[..n], c) == ClusterCount(ps[..n - 1], c) + (if ps[n - 1].clusterId == c then 1 else 0)
  {
    assert ps[..n][..n - 1] == ps[..n - 1];
  }

  // ---- the recalculation as written ----

  /** The canonical `recalculateCentroids` as written resets each centroid by
      CLEARING its coordinate vector rather than filling it with zeros. The
      accumulation then indexes an empty vector, and the division and the
      distinctness check loop over its (zero) length, so what the caller gets
      back is every centroid with no coordinates at all and distance 0. */
  function RecalculateAsWritten(cs: seq<Point>): (r: seq<Point>)
    ensures |r| == |cs|
    ensures forall i :: 0 <= i < |cs| ==> |r[i].coords| == 0 && r[i].distance == 0.0
    ensures forall i :: 0 <= i < |cs| ==> r[i].clusterId == cs[i].clusterId
  {
    seq(|cs|, i requires 0 <= i < |cs| => cs[i].(coords := [], distance := 0.0))
  }

  /** Whenever the centroids have at least one coordinate, the result as
      written differs from the intended mean in every centroid. */
  lemma ClearedCentroidsLoseTheMean(ps: seq<Point>, cs: seq<Point>)
    requires Compatible(ps, cs) && Dim(cs) > 0
    requires Recalculate(ps, cs).Success?
    ensures forall i :: 0 <= i < |cs| ==>
              RecalculateAsWritten(cs)[i].coords != Recalculate(ps, cs).value[i].coords
  {
  }

  /** On the program's own three-dimensional example, the coordinates as
      written are empty where (2, 2, 2) and (7, 7, 7) are expected. */
  lemma ClearedCentroidsExample(ps: seq<Point>, cs: seq<Point>)
    requires |ps| == 10
    requires ps[0] == Centroid([0.0, 0.0, 0.0], 0) && ps[1] == Centroid([1.0, 1.0, 1.0], 0)
    requires ps[2] == Centroid([2.0, 2.0, 2.0], 0) && ps[3] == Centroid([3.0, 3.0, 3.0], 0)
    requires ps[4] == Centroid([4.0, 4.0, 4.0], 0) && ps[5] == Centroid([5.0, 5.0, 5.0], 1)
    requires ps[6] == Centroid([6.0, 6.0, 6.0], 1) && ps[7] == Centroid([7.0, 7.0, 7.0], 1)
    requires ps[8] == Centroid([8.0, 8.0, 8.0], 1) && ps[9] == Centroid([9.0, 9.0, 9.0], 1)
    requires |cs| == 2 && cs[0].coords == [0.0, 0.0, 0.0] && cs[1].coords == [5.0, 5.0, 5.0]
    ensures RecalculateAsWritten(cs)[0].coords != [2.0, 2.0, 2.0]
    ensures RecalculateAsWritten(cs)[1].coords != [7.0, 7.0, 7.0]
  {
  }

  /** The distinctness check as written: for each pair `i < j` it looks for a
      coordinate at which the two centroids differ and terminates the program
      when it FINDS one. */
  predicate ExitsAsWritten(vs: seq<seq<real>>) {
    exists i, j, t :: 0 <= i < j < |vs| && 0 <= t < |vs[i]| && t < |vs[j]| && vs[i][t] != vs[j][t]
  }

  /** With two or more centroids of one dimension, the check as written stops
      the program on every input the intended check accepts, and lets
      through only inputs in which all centroids coincide. */
  lemma InvertedCheck(vs: seq<seq<real>>, d: nat)
    requires forall i :: 0 <= i < |vs| ==> |vs[i]| == d
    ensures !ExitsAsWritten(vs) <==> forall i, j :: 0 <= i < j < |vs| ==> vs[i] == vs[j]
    ensures |vs| >= 2 && FindCollision(vs).None? ==> ExitsAsWritten(vs)
    ensures |vs| >= 2 && !ExitsAsWritten(vs) ==> FindCollision(vs).Some?
  {
    if !ExitsAsWritten(vs) {
      forall i, j | 0 <= i < j < |vs|
        ensures vs[i] == vs[j]
      {
        forall t | 0 <= t < d
          ensures vs[i][t] == vs[j][t]
        {
        }
      }
    }
    if |vs| >= 2 && FindCollision(vs).None? {
      assert vs[0] != vs[1];
      var t :| 0 <= t < d && vs[0][t] != vs[1][t];
    }
  }

  /** Once the reset is fixed to fill the coordinates with zeros, the new
      centroids of the program's example are (2, 2, 2) and (7, 7, 7):
      distinct, yet the check as written stops the program. With the reset
      as written the vectors are empty, the check compares no coordinate and
      never fires, so the clearing masks this defect. */
  lemma InvertedCheckExample(vs: seq<seq<real>>)
    requires vs == [[2.0, 2.0, 2.0], [7.0, 7.0, 7.0]]
    ensures FindCollision(vs).None?
    ensures ExitsAsWritten(vs)
  {
    assert vs[0][0] != vs[1][0];
  }

  /** A double: a finite value, NaN or an infinity. */
  datatype Double = Finite(value: real) | NaN | Infinite(positive: bool)

  /** Floating-point division by a count, as the program performs it. */
  function Quotient(x: real, n: nat): (q: Double)
    ensures n > 0 <==> q.Finite?
    ensures n > 0 ==> q.value * n as real == x
    ensures n == 0 && x == 0.0 ==> q.NaN?
  {
    if n > 0 then Finite(x / n as real)
    else if x == 0.0 then NaN
    else Infinite(x > 0.0)
  }

  /** The mean as the planar engine computes it: each coordinate sum, started
      from zero, divided by the member count, whatever that count is. */
  function MeanAsWritten(ps: seq<Point>, c: int, d: nat): (m: seq<Double>)
    requires InSpace(ps, d)
    ensures |m| == d
    ensures ClusterCount(ps, c) > 0 ==> forall j :: 0 <= j < d ==> m[j] == Finite(Mean(ps, c, d)[j])
  {
    var s := ClusterSum(ps, c, d);
    seq(d, j requires 0 <= j < d => Quotient(s[j], ClusterCount(ps, c)))
  }

  /** A cluster without members sums to the zero vector. */
  lemma {:induction false} EmptyClusterSum(ps: seq<Point>, c: int, d: nat)
    requires InSpace(ps, d) && ClusterCount(ps, c) == 0
    ensures ClusterSum(ps, c, d) == Zeros(d)
    decreases |ps|
  {
    if |ps| > 0 {
      EmptyClusterSum(ps[..|ps| - 1], c, d);
    }
  }

  /** A centroid that attracted no point gets NaN in every coordinate when
      its zero-reset sums are divided by a zero count. That happens as written
      in the planar engine (`KMeans2D.h`, `KMeans.h`) and in the fix draft;
      in the canonical code it happens once its reset is fixed, since with
      cleared vectors the division loop runs over no coordinate. The
      intended recalculation reports the empty cluster instead (see
      `Means`). */
  lemma EmptyClusterGivesNaN(ps: seq<Point>, c: int, d: nat)
    requires InSpace(ps, d) && ClusterCount(ps, c) == 0
    ensures forall j :: 0 <= j < d ==> MeanAsWritten(ps, c, d)[j] == NaN
    ensures forall k: nat :: 0 <= c < k ==> Means(ps, k, d).Failure?
  {
    EmptyClusterSum(ps, c, d);
  }

  /** `k-means2D.cpp` as written: every coordinate sum is divided by the
      number of ALL points rather than by the number of points in the
      cluster. Each centroid keeps its id and distance. */
  function RecalculateTotalDivisor(ps: seq<Point>, cs: seq<Point>): (r: seq<Point>)
    requires Compatible(ps, cs)
    requires |ps| > 0
    ensures |r| == |cs|
    ensures forall i :: 0 <= i < |cs| ==>
              && |r[i].coords| == |cs[i].coords|
              && r[i].clusterId == cs[i].clusterId && r[i].distance == cs[i].distance
              && forall j :: 0 <= j < |cs[i].coords| ==>
                   r[i].coords[j] * |ps| as real == ClusterSum(ps, i, |cs[i].coords|)[j]
  {
    seq(|cs|, i requires 0 <= i < |cs| =>
      var d := |cs[i].coords|;
      var s := ClusterSum(ps, i, d);
      cs[i].(coords := seq(d, j requires 0 <= j < d => s[j] / |ps| as real)))
  }

  /** Two points, (2, 2) in cluster 0 and (4, 4) in cluster 1: as written the
      first centroid moves to (1, 1), not to its only member (2, 2). */
  lemma TotalDivisorExample(ps: seq<Point>, cs: seq<Point>)
    requires |ps| == 2 && ps[0] == Point([2.0, 2.0], 0.0, 0) && ps[1] == Point([4.0, 4.0], 0.0, 1)
    requires |cs| == 2 && |cs[0].coords| == 2 && |cs[1].coords| == 2
    ensures Compatible(ps, cs)
    ensures RecalculateTotalDivisor(ps, cs)[0].coords == [1.0, 1.0]
    ensures RecalculateSlots(ps, cs).Success?
    ensures RecalculateSlots(ps, cs).value[0].coords == [2.0, 2.0]
  {
    SumStep(ps, 1, 0, 2);
    SumStep(ps, 2, 0, 2);
    SumStep(ps, 1, 1, 2);
    SumStep(ps, 2, 1, 2);
    assert ps[..0] == [];
    assert ps[..2] == ps;
    assert ClusterSum(ps, 0, 2) == [2.0, 2.0];
    assert NoneEmpty(ps, 2);
    assert Mean(ps, 0, 2) == [2.0, 2.0];
  }
}
