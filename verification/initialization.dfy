/** Choosing the initial centroids (`initialize_random_centroids` and its
    copies). The random number generator is not modelled: the indices it
    produces are a parameter, either as the final picks or as the raw stream
    of draws that the rejection loop consumes. */
module Initialization {
  import opened Points
  import opened Outcomes

  /** `picks` holds `k` pairwise distinct indices into `n` points. */
  predicate ValidPicks(picks: seq<int>, k: nat, n: nat) {
    && |picks| == k
    && (forall i :: 0 <= i < k ==> 0 <= picks[i] < n)
    && (forall i, j :: 0 <= i < j < k ==> picks[i] != picks[j])
  }

  /** `picks` holds `k` indices into `n` points, repetitions allowed. */
  predicate IndicesInRange(picks: seq<int>, k: nat, n: nat) {
    |picks| == k && forall i :: 0 <= i < k ==> 0 <= picks[i] < n
  }

  // ---- the rejection loop ----

  /** The rejection loop: draws are consumed in order; one already taken is
      drawn again, a new one is taken, until `k` have been taken. When the
      stream of draws ends first, what was taken so far is returned. */
  function Accept(draws: seq<int>, k: nat, taken: seq<int>): (r: seq<int>)
    requires |taken| <= k
    requires forall i, j :: 0 <= i < j < |taken| ==> taken[i] != taken[j]
    ensures |taken| <= |r| <= k && r[..|taken|] == taken
    ensures forall i, j :: 0 <= i < j < |r| ==> r[i] != r[j]
    ensures forall i :: 0 <= i < |r| ==> r[i] in taken || r[i] in draws
    ensures |r| < k ==> forall x :: x in draws ==> x in r
    decreases |draws|
  {
    if |taken| == k || |draws| == 0 then taken
    else if draws[0] in taken then
      var r := Accept(draws[1..], k, taken);
      assert forall x :: x in taken ==> x in r[..|taken|];
      r
    else
      var next := taken + [draws[0]];
      var r := Accept(draws[1..], k, next);
      assert draws == [draws[0]] + draws[1..];
      assert r[..|taken|] == r[..|next|][..|taken|];
      assert forall x :: x in next ==> x in r[..|next|];
      r
  }

  /** The indices the rejection loop keeps from a stream of draws: the first
      `k` distinct values of the stream, or all of its distinct values when
      it has fewer. */
  function PickDistinct(draws: seq<int>, k: nat): (r: seq<int>)
    ensures |r| <= k
    ensures forall i, j :: 0 <= i < j < |r| ==> r[i] != r[j]
    ensures forall i :: 0 <= i < |r| ==> r[i] in draws
    ensures |r| < k ==> forall x :: x in draws ==> x in r
  {
    Accept(draws, k, [])
  }

  /** Pairwise distinct integers drawn from [0, n) are at most n. */
  lemma {:induction false} DistinctInRangeBound(xs: seq<int>, n: nat)
    requires forall i :: 0 <= i < |xs| ==> 0 <= xs[i] < n
    requires forall i, j :: 0 <= i < j < |xs| ==> xs[i] != xs[j]
    ensures |xs| <= n
    decreases |xs|
  {
    if |xs| > 0 {
      // drop the last value x and close the gap it leaves in [0, n)
      var m := |xs| - 1;
      var x := xs[m];
      var ys := seq(m, t requires 0 <= t < m => if xs[t] < x then xs[t] else xs[t] - 1);
      forall t | 0 <= t < m
        ensures 0 <= ys[t] < n - 1
      {
        assert xs[t] != x;
      }
      DistinctInRangeBound(ys, n - 1);
    }
  }

  /** When every draw lies in [0, n), the rejection loop delivers `k` picks
      only if `k <= n`: whatever finite stream the generator produces, the
      loop asked for more than `n` centroids never finishes. */
  lemma PickDistinctBound(draws: seq<int>, k: nat, n: nat)
    requires forall i :: 0 <= i < |draws| ==> 0 <= draws[i] < n
    ensures |PickDistinct(draws, k)| <= n
    ensures k > n ==> |PickDistinct(draws, k)| < k
  {
    var r := PickDistinct(draws, k);
    forall i | 0 <= i < |r|
      ensures 0 <= r[i] < n
    {
      var j :| 0 <= j < |draws| && draws[j] == r[i];
    }
    DistinctInRangeBound(r, n);
  }

  /** Whenever the loop does deliver `k` picks from draws in [0, n), they are
      valid picks. */
  lemma PickDistinctValid(draws: seq<int>, k: nat, n: nat)
    requires forall i :: 0 <= i < |draws| ==> 0 <= draws[i] < n
    requires |PickDistinct(draws, k)| == k
    ensures ValidPicks(PickDistinct(draws, k), k, n)
  {
    var r := PickDistinct(draws, k);
    forall i | 0 <= i < |r|
      ensures 0 <= r[i] < n
    {
      var j :| 0 <= j < |draws| && draws[j] == r[i];
    }
  }

  // ---- the variants ----

  /** The canonical initialisation: `k` copies of pairwise distinct input
      points, chosen by `picks`. A negative `k` compares as a huge unsigned
      number against the point count, so it is rejected like a `k` above the
      point count. */
  function Initialize(points: seq<Point>, k: int, picks: seq<int>): (r: Result<seq<Point>>)
    requires 0 <= k <= |points| ==> ValidPicks(picks, k, |points|)
    ensures r.Failure? <==> k < 0 || k > |points|
    ensures r.Failure? ==> r.error == TooManyCentroids(k, |points|)
    ensures r.Success? ==> |r.value| == k
    ensures r.Success? ==> forall i :: 0 <= i < k ==> r.value[i] == points[picks[i]]
    ensures r.Success? ==> multiset(r.value) <= multiset(points)
  {
    if k < 0 || k > |points| then Failure(TooManyCentroids(k, |points|))
    else
      var cs := seq(k, i requires 0 <= i < k => points[picks[i]]);
      SubMultiset(points, picks, cs);
      Success(cs)
  }

  /** Copies of the points at pairwise distinct positions form a
      sub-multiset of the points. */
  lemma {:induction false} SubMultiset(points: seq<Point>, picks: seq<int>, cs: seq<Point>)
    requires ValidPicks(picks, |cs|, |points|)
    requires forall i :: 0 <= i < |cs| ==> cs[i] == points[picks[i]]
    ensures multiset(cs) <= multiset(points)
    decreases |cs|
  {
    if |cs| > 0 {
      var m := |cs| - 1;
      var p := picks[m];
      var rest := points[..p] + points[p + 1..];
      // positions of the other picks once position p is removed
      var picks' := seq(m, t requires 0 <= t < m => if picks[t] < p then picks[t] else picks[t] - 1);
      forall t | 0 <= t < m
        ensures 0 <= picks'[t] < |rest| && cs[t] == rest[picks'[t]]
      {
        assert picks[t] != p;
      }
      assert ValidPicks(picks', m, |rest|);
      SubMultiset(rest, picks', cs[..m]);
      RemoveAt(points, p);
      assert cs == cs[..m] + [points[p]];
    }
  }

  /** Taking one element out of a sequence takes it out of its multiset. */
  lemma RemoveAt<T>(s: seq<T>, i: nat)
    requires i < |s|
    ensures multiset(s) == multiset(s[..i] + s[i + 1..]) + multiset{s[i]}
  {
    assert s == s[..i] + [s[i]] + s[i + 1..];
  }

  /** When the input points have pairwise distinct coordinates, so do the
      centroids: the program's "centroids are unique" test. */
  lemma InitialCentroidsUnique(points: seq<Point>, k: int, picks: seq<int>)
    requires 0 <= k <= |points| && ValidPicks(picks, k, |points|)
    requires forall i, j :: 0 <= i < j < |points| ==> points[i].coords != points[j].coords
    ensures forall i, j :: 0 <= i < j < k ==>
              Initialize(points, k, picks).value[i].coords != Initialize(points, k, picks).value[j].coords
  {
    var cs := Initialize(points, k, picks).value;
    forall i, j | 0 <= i < j < k
      ensures cs[i].coords != cs[j].coords
    {
      if picks[i] < picks[j] {
        assert points[picks[i]].coords != points[picks[j]].coords;
      } else {
        assert points[picks[j]].coords != points[picks[i]].coords;
      }
    }
  }

  /** The planar copies (`KMeans2D.h`, `KMeans.h`) run the same rejection loop
      without the guard on `k`: a negative `k` yields no centroid, and the
      caller must not ask for more centroids than there are points (see
      `PickDistinctBound`). */
  function InitializeUnguarded(points: seq<Point>, k: int, picks: seq<int>): (r: seq<Point>)
    requires k > 0 ==> ValidPicks(picks, k, |points|)
    ensures k <= 0 ==> r == []
    ensures k > 0 ==> |r| == k && multiset(r) <= multiset(points)
    ensures forall i :: 0 <= i < |r| ==> r[i] == points[picks[i]]
  {
    if k <= 0 then []
    else
      var cs := seq(k, i requires 0 <= i < k => points[picks[i]]);
      SubMultiset(points, picks, cs);
      cs
  }

  /** `old/fix_k-means2D.h`: `k` independent draws, so the same point may be
      chosen twice. Every centroid is still one of the points. */
  function InitializeWithReplacement(points: seq<Point>, k: int, picks: seq<int>): (r: seq<Point>)
    requires k > 0 ==> IndicesInRange(picks, k, |points|)
    ensures |r| == if k > 0 then k else 0
    ensures forall i :: 0 <= i < |r| ==> r[i] in points
  {
    if k <= 0 then []
    else seq(k, i requires 0 <= i < k => points[picks[i]])
  }

  /** `k-means2D.cpp`: `k` independent draws (`rand() % n`); centroid `i`
      takes cluster id `i` and distance 0. */
  function InitializeSlots(points: seq<Point>, k: int, picks: seq<int>): (r: seq<Point>)
    requires k > 0 ==> IndicesInRange(picks, k, |points|)
    ensures |r| == if k > 0 then k else 0
    ensures forall i :: 0 <= i < |r| ==>
              r[i].clusterId == i && r[i].distance == 0.0 && exists p :: p in points && r[i].coords == p.coords
  {
    if k <= 0 then []
    else seq(k, i requires 0 <= i < k => points[picks[i]].(clusterId := i, distance := 0.0))
  }
}
