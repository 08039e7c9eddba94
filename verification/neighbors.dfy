/** Choosing `k` representative points of a cluster (`getNeighbors`): the
    point nearest the center first, then repeatedly the point whose distance
    to the nearest already chosen point is largest (farthest-point
    traversal). */
module Neighbors {
  import opened Points
  import opened Sorting

  /** The distance from `p` to the nearest point of the non-empty `ns`. The
      program starts its minimum at DBL_MAX and replaces it on a strictly
      smaller distance; with at least one neighbor that is the minimum
      itself. */
  function MinDistTo(p: Point, ns: seq<Point>): (r: real)
    requires |ns| > 0
    requires InSpace(ns, |p.coords|)
    ensures r >= 0.0
    decreases |ns|
  {
    var last := SqDist(p.coords, ns[|ns| - 1].coords);
    if |ns| == 1 then last
    else
      var prev := MinDistTo(p, ns[..|ns| - 1]);
      if last < prev then last else prev
  }

  /** The minimum is a lower bound: no neighbor is nearer to `p`. */
  lemma {:induction false} MinDistBelowEach(p: Point, ns: seq<Point>)
    requires |ns| > 0
    requires InSpace(ns, |p.coords|)
    ensures forall j :: 0 <= j < |ns| ==> MinDistTo(p, ns) <= SqDist(p.coords, ns[j].coords)
    decreases |ns|
  {
    if |ns| > 1 {
      var init := ns[..|ns| - 1];
      MinDistBelowEach(p, init);
      assert forall j :: 0 <= j < |ns| - 1 ==> init[j] == ns[j];
    }
  }

  /** How far each candidate of `sorted` is from its nearest neighbor in `ns`. */
  function Spreads(sorted: seq<Point>, ns: seq<Point>): (vs: seq<real>)
    requires |ns| > 0
    requires |sorted| > 0 && InSpace(sorted, |sorted[0].coords|) && InSpace(ns, |sorted[0].coords|)
    ensures |vs| == |sorted|
    ensures forall j :: 0 <= j < |sorted| ==> vs[j] == MinDistTo(sorted[j], ns)
  {
    seq(|sorted|, j requires 0 <= j < |sorted| => MinDistTo(sorted[j], ns))
  }

  /** The index of the candidate the scan chooses among the first `n`
      values: the first one that is largest. The scan starts from a best
      value of -1.0 and takes a candidate only when it is strictly larger, so
      with non-negative values the first candidate is always taken and ties
      go to the earliest. -1 when `n == 0`. */
  function FarthestAmong(vs: seq<real>, n: nat): (r: int)
    requires n <= |vs|
    requires forall j :: 0 <= j < |vs| ==> vs[j] >= 0.0
    ensures -1 <= r < n
    ensures r == -1 <==> n == 0
    ensures r >= 0 ==> forall j :: 0 <= j < n ==> vs[j] <= vs[r]
    ensures r >= 0 ==> forall j :: 0 <= j < r ==> vs[j] < vs[r]
    decreases n
  {
    if n == 0 then -1
    else
      var best := FarthestAmong(vs, n - 1);
      var maxMinDist := if best == -1 then -1.0 else vs[best];
      if vs[n - 1] > maxMinDist then n - 1 else best
  }

  /** `q` is a candidate the scan may take after the non-empty `ns`: it
      belongs to `sorted`, all points share its dimension, and no point of
      `sorted` is farther from its nearest neighbor. */
  predicate IsFarthest(sorted: seq<Point>, ns: seq<Point>, q: Point) {
    && |ns| > 0
    && InSpace(sorted, |q.coords|)
    && InSpace(ns, |q.coords|)
    && q in sorted
    && forall j :: 0 <= j < |sorted| ==> MinDistTo(sorted[j], ns) <= MinDistTo(q, ns)
  }

  /** `sorted[idx]` is the candidate the scan takes after the non-empty `ns`:
      no point of `sorted` is farther from its nearest neighbor, and every
      point before it is strictly nearer to its nearest neighbor, because the
      scan replaces its best candidate only on a strictly larger distance. */
  predicate FirstFarthestAt(sorted: seq<Point>, ns: seq<Point>, idx: int) {
    && |ns| > 0
    && 0 <= idx < |sorted|
    && InSpace(sorted, |sorted[idx].coords|)
    && InSpace(ns, |sorted[idx].coords|)
    && (forall j :: 0 <= j < |sorted| ==> MinDistTo(sorted[j], ns) <= MinDistTo(sorted[idx], ns))
    && (forall j :: 0 <= j < idx ==> MinDistTo(sorted[j], ns) < MinDistTo(sorted[idx], ns))
  }

  /** `q` is the candidate the scan takes after `ns`: the first farthest
      candidate in sorted order. */
  predicate Picked(sorted: seq<Point>, ns: seq<Point>, q: Point) {
    exists idx :: 0 <= idx < |sorted| && FirstFarthestAt(sorted, ns, idx) && sorted[idx] == q
  }

  /** The loop `while (neighbors.size() < k)`: appends the farthest candidate
      until there are `k` neighbors; of several equally far candidates it
      takes the first in sorted order. */
  function Grow(sorted: seq<Point>, ns: seq<Point>, k: int): (r: seq<Point>)
    requires |ns| > 0 && |sorted| > 0
    requires InSpace(sorted, |sorted[0].coords|) && InSpace(ns, |sorted[0].coords|)
    ensures |r| == if k > |ns| then k else |ns|
    ensures r[..|ns|] == ns
    ensures InSpace(r, |sorted[0].coords|)
    ensures forall t :: |ns| <= t < |r| ==> Picked(sorted, r[..t], r[t])
    decreases k - |ns|
  {
    if |ns| >= k then ns
    else
      var idx := FarthestAmong(Spreads(sorted, ns), |sorted|);
      ScanPicksFirstFarthest(sorted, ns);
      var r := Grow(sorted, ns + [sorted[idx]], k);
      GrowStep(sorted, ns, idx, r);
      r
  }

  /** The scan over the candidates' spreads picks the first farthest one. */
  lemma ScanPicksFirstFarthest(sorted: seq<Point>, ns: seq<Point>)
    requires |ns| > 0 && |sorted| > 0
    requires InSpace(sorted, |sorted[0].coords|) && InSpace(ns, |sorted[0].coords|)
    ensures FirstFarthestAt(sorted, ns, FarthestAmong(Spreads(sorted, ns), |sorted|))
  {
  }

  /** The candidate the scan takes is a farthest candidate. */
  lemma PickedIsFarthest(sorted: seq<Point>, ns: seq<Point>, q: Point)
    requires Picked(sorted, ns, q)
    ensures IsFarthest(sorted, ns, q)
  {
  }

  /** One more round of the loop extends the rule by the round's own pick
      `sorted[idx]`. */
  lemma GrowStep(sorted: seq<Point>, ns: seq<Point>, idx: int, r: seq<Point>)
    requires FirstFarthestAt(sorted, ns, idx)
    requires |r| > |ns| && r[..|ns| + 1] == ns + [sorted[idx]]
    requires forall t :: |ns| + 1 <= t < |r| ==> Picked(sorted, r[..t], r[t])
    ensures r[..|ns|] == ns
    ensures forall t :: |ns| <= t < |r| ==> Picked(sorted, r[..t], r[t])
  {
    PrefixOfExtension(r, ns, sorted[idx]);
  }

  lemma PrefixOfExtension(r: seq<Point>, ns: seq<Point>, pick: Point)
    requires |r| > |ns| && r[..|ns| + 1] == ns + [pick]
    ensures r[..|ns|] == ns && r[|ns|] == pick
  {
    assert r[..|ns|] == r[..|ns| + 1][..|ns|];
    assert r[|ns|] == r[..|ns| + 1][|ns|];
  }

  /** `getNeighbors(center, points, k)`. A non-positive `k` gives no
      neighbors and a `k` of at least the number of points gives all of them
      in their original order; otherwise the result starts with a point
      nearest to the center and adds farthest candidates of the sorted
      points until it has `k` points. */
  function GetNeighbors(center: Point, ps: seq<Point>, k: int): (r: seq<Point>)
    requires 0 < k < |ps| ==> InSpace(ps, |center.coords|)
    ensures k <= 0 ==> r == []
    ensures 0 < k && k >= |ps| ==> r == ps
    ensures 0 < k < |ps| ==> |r| == k
    ensures InSpace(ps, |center.coords|) ==> InSpace(r, |center.coords|)
    ensures forall i :: 0 <= i < |r| ==> r[i] in ps
    ensures 0 < k < |ps| ==> forall q :: q in ps ==> Key(center, r[0]) <= Key(center, q)
  {
    if k <= 0 then []
    else if k >= |ps| then ps
    else
      var sorted := SortByDistance(center, ps);
      FirstIsNearest(center, ps, sorted);
      var r := Grow(sorted, [sorted[0]], k);
      assert r[0] == r[..1][0];
      PicksFromPoints(ps, sorted, r);
      r
  }

  /** Every pick of the loop, and the starting point, is one of `ps`. */
  lemma PicksFromPoints(ps: seq<Point>, sorted: seq<Point>, r: seq<Point>)
    requires multiset(sorted) == multiset(ps) && |sorted| > 0 && |r| > 0
    requires r[0] == sorted[0]
    requires forall t :: 1 <= t < |r| ==> Picked(sorted, r[..t], r[t])
    ensures forall i :: 0 <= i < |r| ==> r[i] in ps
  {
    forall i | 0 <= i < |r|
      ensures r[i] in ps
    {
      if i > 0 {
        PickedIsFarthest(sorted, r[..i], r[i]);
      }
      assert r[i] in multiset(sorted);
    }
  }

  /** The minimum is attained: some neighbor is exactly that far from `p`. */
  lemma {:induction false} MinDistAttained(p: Point, ns: seq<Point>) returns (j: nat)
    requires |ns| > 0
    requires InSpace(ns, |p.coords|)
    ensures j < |ns| && MinDistTo(p, ns) == SqDist(p.coords, ns[j].coords)
    decreases |ns|
  {
    if |ns| == 1 {
      j := 0;
    } else {
      var init := ns[..|ns| - 1];
      var i := MinDistAttained(p, init);
      assert init[i] == ns[i];
      if SqDist(p.coords, ns[|ns| - 1].coords) < MinDistTo(p, init) {
        j := |ns| - 1;
      } else {
        j := i;
      }
    }
  }

  /** Every chosen neighbor after the first is a farthest point of `ps`: no
      point `q` of `ps` is farther from the neighbors chosen before it. */
  lemma NeighborIsFarthest(center: Point, ps: seq<Point>, k: int, t: nat, q: Point)
    requires InSpace(ps, |center.coords|)
    requires 0 < k < |ps| && 1 <= t < k && q in ps
    ensures MinDistTo(q, GetNeighbors(center, ps, k)[..t])
              <= MinDistTo(GetNeighbors(center, ps, k)[t], GetNeighbors(center, ps, k)[..t])
  {
    var r := GetNeighbors(center, ps, k);
    var sorted := SortByDistance(center, ps);
    assert r == Grow(sorted, [sorted[0]], k);
    PickedIsFarthest(sorted, r[..t], r[t]);
    assert q in multiset(sorted);
    var j :| 0 <= j < |sorted| && sorted[j] == q;
  }

  /** Of several equally far candidates, the neighbor chosen after the first
      is the earliest in the order of the sorted points: every point sorted
      before it is strictly nearer to the neighbors already chosen. */
  lemma NeighborIsFirstFarthest(center: Point, ps: seq<Point>, k: int, t: nat)
    requires InSpace(ps, |center.coords|)
    requires 0 < k < |ps| && 1 <= t < k
    ensures exists idx :: && FirstFarthestAt(SortByDistance(center, ps), GetNeighbors(center, ps, k)[..t], idx)
                          && SortByDistance(center, ps)[idx] == GetNeighbors(center, ps, k)[t]
  {
    var sorted := SortByDistance(center, ps);
    assert GetNeighbors(center, ps, k) == Grow(sorted, [sorted[0]], k);
  }

  /** A chosen neighbor repeats an earlier one (at distance 0 from it) only
      when every point of `ps` already coincides with a chosen neighbor;
      otherwise it is strictly away from all of them. */
  lemma NoRepeatWhileRoom(center: Point, ps: seq<Point>, k: int, t: nat, q: Point)
    requires InSpace(ps, |center.coords|)
    requires 0 < k < |ps| && 1 <= t < k
    requires q in ps && MinDistTo(q, GetNeighbors(center, ps, k)[..t]) > 0.0
    ensures forall i :: 0 <= i < t ==>
              GetNeighbors(center, ps, k)[t].coords != GetNeighbors(center, ps, k)[i].coords
  {
    var r := GetNeighbors(center, ps, k);
    NeighborIsFarthest(center, ps, k, t, q);
    forall i | 0 <= i < t
      ensures r[t].coords != r[i].coords
    {
      assert r[..t][i] == r[i];
      MinDistBelowEach(r[t], r[..t]);
      assert MinDistTo(r[t], r[..t]) > 0.0;
      assert SqDist(r[t].coords, r[i].coords) > 0.0;
    }
  }
}
