/** The clustering driver: the `KMeansND` engine of the canonical code, the
    budget-decrementing loop shared by the older N-dimensional and planar
    engines, and the epoch loop of the two oldest drafts. A recalculation
    that the intended program rejects (a stray id, an empty cluster, two
    coinciding centroids) ends the run with that error, where the program
    exits. */
module Engine {
  import opened Points
  import opened Outcomes
  import opened Assignment
  import opened Recalculation
  import opened Initialization

  /** The state of a `KMeansND` engine: the number of clusters, the iteration
      budget, the centroids and the points. File paths and the output flag
      are left out with the file I/O. */
  datatype KMeansND = KMeansND(k: int, maxIter: int, centroids: seq<Point>, points: seq<Point>)

  /** The outcome of a run: the final points and centroids, the number of
      recalculation rounds performed and the last change count the loop
      tested (for the epoch loop of the drafts, the count of its last epoch:
      the count of the extra assignment after that loop is discarded). */
  datatype Run = Run(points: seq<Point>, centroids: seq<Point>, rounds: nat, lastChanged: nat)

  /** The constructor from a point collection: it keeps the points and draws
      the initial centroids from them. */
  function FromPoints(k: int, maxIter: int, points: seq<Point>, picks: seq<int>): (r: Result<KMeansND>)
    requires 0 <= k <= |points| ==> ValidPicks(picks, k, |points|)
    ensures r.Success? <==> 0 <= k <= |points|
    ensures r.Success? ==> r.value.k == k && r.value.maxIter == maxIter && r.value.points == points
    ensures r.Success? ==> |r.value.centroids| == k && multiset(r.value.centroids) <= multiset(points)
    ensures r.Failure? ==> r.error == TooManyCentroids(k, |points|)
  {
    var cs :- Initialize(points, k, picks);
    Success(KMeansND(k, maxIter, cs, points))
  }

  /** `setPoints`: replaces the points and redraws the centroids from them,
      keeping `k` and the budget. */
  function SetPoints(e: KMeansND, points: seq<Point>, picks: seq<int>): (r: Result<KMeansND>)
    requires 0 <= e.k <= |points| ==> ValidPicks(picks, e.k, |points|)
    ensures r.Success? <==> 0 <= e.k <= |points|
    ensures r.Success? ==> r.value.k == e.k && r.value.maxIter == e.maxIter && r.value.points == points
    ensures r.Success? ==> |r.value.centroids| == e.k && multiset(r.value.centroids) <= multiset(points)
  {
    FromPoints(e.k, e.maxIter, points, picks)
  }

  /** Every point carries the index of its first nearest centroid. */
  predicate Settled(ps: seq<Point>, cs: seq<Point>)
    requires Compatible(ps, cs)
  {
    forall i :: 0 <= i < |ps| ==> ps[i].clusterId == Nearest(ps[i].coords, cs)
  }

  /** Every centroid sits at the mean of the points carrying its index. */
  predicate AtMeans(ps: seq<Point>, cs: seq<Point>) {
    forall i :: 0 <= i < |cs| ==>
      && InSpace(ps, |cs[i].coords|)
      && ClusterCount(ps, i) > 0
      && cs[i].coords == Mean(ps, i, |cs[i].coords|)
  }

  /** After a successful recalculation the centroids have the points'
      dimension, and they sit at the means of the points they came from. */
  lemma RecalculateKeepsShape(ps: seq<Point>, cs: seq<Point>)
    requires Compatible(ps, cs) && Recalculate(ps, cs).Success?
    ensures Compatible(ps, Recalculate(ps, cs).value)
    ensures Dim(Recalculate(ps, cs).value) == Dim(cs)
    ensures InSpace(ps, Dim(cs))
    ensures AtMeans(ps, Recalculate(ps, cs).value)
  {
  }

  /** Points that keep their coordinates stay compatible with the same
      centroids. */
  lemma SameCoordsCompatible(ps: seq<Point>, qs: seq<Point>, cs: seq<Point>)
    requires Compatible(ps, cs) && |qs| == |ps|
    requires forall i :: 0 <= i < |ps| ==> qs[i].coords == ps[i].coords
    ensures Compatible(qs, cs)
  {
  }

  /** One round of the canonical loop: recalculate, then reassign. It fails
      exactly when the recalculation does. A successful round keeps the
      number of centroids and the points' coordinates, leaves every point
      settled on the new centroids, and when it changes nothing the new
      centroids sit at the means of the points. */
  function Round(ps: seq<Point>, cs: seq<Point>): (r: Result<(seq<Point>, Pass)>)
    requires Compatible(ps, cs)
    ensures r.Failure? <==> Recalculate(ps, cs).Failure?
    ensures r.Failure? ==> r.error == Recalculate(ps, cs).error
    ensures r.Success? ==>
              var (next, pass) := r.value;
              && next == Recalculate(ps, cs).value
              && pass == Assign(ps, next)
              && |next| == |cs| && |pass.points| == |ps|
              && (forall i :: 0 <= i < |ps| ==> pass.points[i].coords == ps[i].coords)
              && Compatible(pass.points, next) && Settled(pass.points, next)
              && (pass.changed == 0 ==> AtMeans(pass.points, next))
  {
    var next :- Recalculate(ps, cs);
    RecalculateKeepsShape(ps, cs);
    var pass := Assign(ps, next);
    SameCoordsCompatible(ps, pass.points, next);
    NoChangeIffStable(ps, next);
    Success((next, pass))
  }

  /** `KMeansND::Cluster`: one assignment pass, then rounds of recalculation
      and reassignment while the last pass changed something and fewer than
      `maxIter` rounds have run. */
  method Cluster(e: KMeansND) returns (r: Result<Run>)
    requires Compatible(e.points, e.centroids)
    ensures r.Failure? ==> !r.error.TooManyCentroids?
    ensures r.Success? ==> |r.value.points| == |e.points| && |r.value.centroids| == |e.centroids|
    ensures r.Success? ==> forall i :: 0 <= i < |e.points| ==> r.value.points[i].coords == e.points[i].coords
    ensures r.Success? ==> Compatible(r.value.points, r.value.centroids) && Settled(r.value.points, r.value.centroids)
    ensures r.Success? ==> r.value.rounds <= if e.maxIter > 0 then e.maxIter else 0
    ensures r.Success? ==> r.value.lastChanged == 0 || r.value.rounds == if e.maxIter > 0 then e.maxIter else 0
    ensures r.Success? && r.value.rounds == 0 ==> r.value.centroids == e.centroids
    ensures r.Success? && r.value.rounds > 0 && r.value.lastChanged == 0 ==>
              AtMeans(r.value.points, r.value.centroids)
    ensures e.maxIter <= 0 ==> r.Success? && r.value.rounds == 0
  {
    var pass := Assign(e.points, e.centroids);
    SameCoordsCompatible(e.points, pass.points, e.centroids);
    var points := pass.points;
    var centroids := e.centroids;
    var changed := pass.changed;
    var iter: nat := 0;
    while changed != 0 && iter < e.maxIter
      invariant |points| == |e.points| && |centroids| == |e.centroids|
      invariant forall i :: 0 <= i < |e.points| ==> points[i].coords == e.points[i].coords
      invariant Compatible(points, centroids) && Settled(points, centroids)
      invariant iter <= if e.maxIter > 0 then e.maxIter else 0
      invariant iter == 0 ==> centroids == e.centroids
      invariant iter > 0 && changed == 0 ==> AtMeans(points, centroids)
      decreases e.maxIter - iter
    {
      var round := Round(points, centroids);
      if round.Failure? {
        return Failure(round.error);
      }
      ghost var before := points;
      centroids := round.value.0;
      pass := round.value.1;
      points := pass.points;
      assert forall i :: 0 <= i < |e.points| ==> points[i].coords == before[i].coords;
      changed := pass.changed;
      iter := iter + 1;
    }
    return Success(Run(points, centroids, iter, changed));
  }

  // ---- the older engines ----

  /** Which copy of the budget-decrementing loop runs: the N-dimensional one
      (`clustering_core/KmeansND.h`), whose recalculation resets the centroid
      distance to 0, or a planar one (`KMeans2D.h`, `KMeans.h`), which leaves
      it alone. */
  datatype Copy = NDimensional | Planar

  /** The intended recalculation of each copy: every centroid at the mean of
      its points, with the points' dimension. The N-dimensional copy as
      written has the defects of the canonical one (see
      `RecalculateAsWritten` and `InvertedCheck`), and the planar copies as
      written carry on with NaN centroids after an empty cluster (see
      `EmptyClusterGivesNaN`) where this one reports it. */
  function LegacyRecalculate(copy: Copy, ps: seq<Point>, cs: seq<Point>): (r: Result<seq<Point>>)
    requires Compatible(ps, cs)
    ensures r.Failure? <==> Recalculate(ps, cs).Failure?
    ensures r.Failure? ==> r.error == Recalculate(ps, cs).error
    ensures r.Success? ==>
              && |r.value| == |cs| && Compatible(ps, r.value) && Dim(r.value) == Dim(cs)
              && AtMeans(ps, r.value)
  {
    if Recalculate(ps, cs).Failure? then Failure(Recalculate(ps, cs).error)
    else
      RecalculateKeepsShape(ps, cs);
      match copy
      case NDimensional => Recalculate(ps, cs)
      case Planar => RecalculatePlanar(ps, cs)
  }

  /** The first nearest centroid depends on the centroids' coordinates only. */
  lemma {:induction false} NearestAmongByCoords(x: seq<real>, cs: seq<Point>, ds: seq<Point>, n: nat)
    requires n <= |cs| == |ds|
    requires forall j :: 0 <= j < |cs| ==> |cs[j].coords| == |x| && ds[j].coords == cs[j].coords
    ensures NearestAmong(x, cs, n) == NearestAmong(x, ds, n)
    decreases n
  {
    if n > 0 {
      NearestAmongByCoords(x, cs, ds, n - 1);
    }
  }

  /** Settledness survives replacing the centroids by ones with the same
      coordinates. */
  lemma SettledByCoords(ps: seq<Point>, cs: seq<Point>, ds: seq<Point>)
    requires Compatible(ps, cs) && Settled(ps, cs) && |ds| == |cs|
    requires forall j :: 0 <= j < |cs| ==> ds[j].coords == cs[j].coords
    ensures Compatible(ps, ds) && Settled(ps, ds)
  {
    forall i | 0 <= i < |ps|
      ensures ps[i].clusterId == Nearest(ps[i].coords, ds)
    {
      NearestAmongByCoords(ps[i].coords, cs, ds, |cs|);
    }
  }

  /** One round of the budget-decrementing loop: assign, then recalculate
      from the new assignment. */
  function LegacyRound(copy: Copy, ps: seq<Point>, cs: seq<Point>): (r: Result<(Pass, seq<Point>)>)
    requires Compatible(ps, cs)
    ensures r.Success? ==>
              var (pass, next) := r.value;
              && pass == Assign(ps, cs)
              && |next| == |cs| && |pass.points| == |ps|
              && (forall i :: 0 <= i < |ps| ==> pass.points[i].coords == ps[i].coords)
              && Compatible(pass.points, cs) && Settled(pass.points, cs)
              && Compatible(pass.points, next) && Dim(next) == Dim(cs)
              && AtMeans(pass.points, next)
              && (pass.changed == 0 ==> pass.points == ps)
    ensures r.Failure? ==> !r.error.TooManyCentroids?
  {
    var pass := Assign(ps, cs);
    SameCoordsCompatible(ps, pass.points, cs);
    NoChangeIffStable(ps, cs);
    var next := LegacyRecalculate(copy, pass.points, cs);
    if next.Failure? then Failure(next.error) else Success((pass, next.value))
  }

  /** The loop of `kMeansClustering` in the older engines: the change count
      starts at the number of points, and while it is positive and the
      budget is positive, a round assigns, recalculates and spends one unit
      of budget. The last step of every round is a recalculation, so after
      at least one round the centroids sit at the means of the final
      clusters; after a round that changed nothing, following one that did
      run, the points are also settled on the final centroids. */
  method LegacyCluster(copy: Copy, points: seq<Point>, centroids: seq<Point>, maxIter: int) returns (r: Result<Run>)
    requires Compatible(points, centroids)
    ensures r.Failure? ==> !r.error.TooManyCentroids?
    ensures r.Success? ==> |r.value.points| == |points| && |r.value.centroids| == |centroids|
    ensures r.Success? ==> forall i :: 0 <= i < |points| ==> r.value.points[i].coords == points[i].coords
    ensures r.Success? ==> Compatible(r.value.points, r.value.centroids)
    ensures r.Success? ==> r.value.rounds <= if maxIter > 0 then maxIter else 0
    ensures r.Success? ==> r.value.lastChanged == 0 || r.value.rounds == if maxIter > 0 then maxIter else 0
    ensures r.Success? && r.value.rounds == 0 ==> r.value.centroids == centroids && r.value.points == points
    ensures |points| == 0 || maxIter <= 0 ==> r.Success? && r.value.rounds == 0
    ensures r.Success? && r.value.rounds > 0 ==>
              AtMeans(r.value.points, r.value.centroids)
    ensures r.Success? && r.value.rounds >= 2 && r.value.lastChanged == 0 ==>
              Settled(r.value.points, r.value.centroids)
  {
    var ps := points;
    var cs := centroids;
    var changed: nat := |points|;
    var budget := maxIter;
    var rounds: nat := 0;
    while changed > 0 && budget > 0
      invariant |ps| == |points| && |cs| == |centroids|
      invariant forall i :: 0 <= i < |points| ==> ps[i].coords == points[i].coords
      invariant Compatible(ps, cs)
      invariant rounds == 0 ==> cs == centroids && ps == points && changed == |points| && budget == maxIter
      invariant rounds > 0 ==> budget == maxIter - rounds && budget >= 0 && |points| > 0
      invariant rounds > 0 ==> AtMeans(ps, cs)
      invariant rounds >= 2 && changed == 0 ==> Settled(ps, cs)
      decreases budget
    {
      var round := LegacyRound(copy, ps, cs);
      if round.Failure? {
        return Failure(round.error);
      }
      var (pass, next) := round.value;
      if rounds > 0 && pass.changed == 0 {
        // the assignment kept the points, so the means did not move
        forall j | 0 <= j < |cs|
          ensures next[j].coords == cs[j].coords
        {
          assert pass.points == ps;
        }
        SettledByCoords(pass.points, cs, next);
      }
      ps := pass.points;
      cs := next;
      changed := pass.changed;
      budget := budget - 1;
      rounds := rounds + 1;
    }
    return Success(Run(ps, cs, rounds, changed));
  }

  /** The constructor of `KMeans.h` that takes a point collection, as the
      program intends it: the centroids are drawn from the given points,
      without the canonical guard on `k`. */
  function LegacyFromPoints(k: int, maxIter: int, points: seq<Point>, picks: seq<int>): (e: KMeansND)
    requires k > 0 ==> ValidPicks(picks, k, |points|)
    ensures e.k == k && e.maxIter == maxIter && e.points == points
    ensures |e.centroids| == if k > 0 then k else 0
    ensures multiset(e.centroids) <= multiset(points)
  {
    KMeansND(k, maxIter, InitializeUnguarded(points, k, picks), points)
  }

  /** The same constructor as written initialises its members in declaration
      order, and the centroid member is declared before the point member: the
      centroids are drawn from the point member before it is constructed,
      which is undefined behaviour. The model takes that member as empty.
      For any `k >= 1` there is then no valid choice at all, while from the
      given points the first `k` indices would do. */
  lemma ConstructorDrawsFromNothing(k: int, picks: seq<int>, points: seq<Point>)
    requires k >= 1
    ensures !ValidPicks(picks, k, 0)
    ensures k <= |points| ==> ValidPicks(seq(k, i => i), k, |points|)
  {
    if ValidPicks(picks, k, 0) {
      DistinctInRangeBound(picks, 0);
    }
  }

  // ---- the two oldest drafts ----

  /** Which draft runs the epoch loop: `old/fix_k-means2D.h`, whose
      assignment never writes the distance and whose recalculation builds
      fresh two-coordinate centroids, or `k-means2D.cpp`, whose recalculation
      is corrected here to divide by the member count. */
  datatype Draft = FixDraft | OldestDraft

  /** The shape each draft needs: the fix draft reads exactly two
      coordinates of every point and every centroid. */
  predicate DraftShape(draft: Draft, ps: seq<Point>, cs: seq<Point>) {
    match draft
    case FixDraft => InSpace(ps, 2) && InSpace(cs, 2)
    case OldestDraft => Compatible(ps, cs)
  }

  /** The assignment pass of each draft: both give every point its first
      nearest centroid and count the points that moved. */
  function DraftAssign(draft: Draft, ps: seq<Point>, cs: seq<Point>): (r: Pass)
    requires DraftShape(draft, ps, cs)
    ensures Compatible(ps, cs) && |r.points| == |ps|
    ensures forall i :: 0 <= i < |ps| ==> r.points[i].coords == ps[i].coords
    ensures Compatible(r.points, cs) && Settled(r.points, cs)
    ensures DraftShape(draft, r.points, cs)
    ensures r.changed == 0 <==> Settled(ps, cs)
    ensures r.changed == 0 ==> r.points == ps
  {
    NoChangeIffStable(ps, cs);
    match draft
    case FixDraft =>
      var pass := AssignKeepDistance(ps, cs);
      if pass.changed == 0 then
        assert forall i :: 0 <= i < |ps| ==> i !in Moved(ps, pass.points);
        pass
      else
        var i :| i in Moved(ps, pass.points);
        pass
    case OldestDraft =>
      var pass := Assign(ps, cs);
      SameCoordsCompatible(ps, pass.points, cs);
      pass
  }

  /** Points with exactly two coordinates are their own first-two cut. */
  lemma FirstTwoOfPlanar(ps: seq<Point>)
    requires InSpace(ps, 2)
    ensures FirstTwo(ps) == ps
  {
    assert forall i :: 0 <= i < |ps| ==> ps[i].coords[..2] == ps[i].coords;
  }

  /** The corrected recalculation of `k-means2D.cpp` keeps the points'
      dimension and puts every centroid at its mean. */
  lemma SlotsShape(ps: seq<Point>, cs: seq<Point>)
    requires Compatible(ps, cs) && RecalculateSlots(ps, cs).Success?
    ensures Compatible(ps, RecalculateSlots(ps, cs).value)
    ensures AtMeans(ps, RecalculateSlots(ps, cs).value)
  {
    var next := RecalculateSlots(ps, cs).value;
    if |cs| > 0 {
      assert |next[0].coords| == Dim(cs);
    }
  }

  /** The recalculation of `old/fix_k-means2D.h` on two-coordinate points
      yields two-coordinate centroids at the means. */
  lemma FirstTwoShape(ps: seq<Point>, cs: seq<Point>)
    requires InSpace(ps, 2) && RecalculateFirstTwo(ps, cs).Success?
    ensures InSpace(RecalculateFirstTwo(ps, cs).value, 2)
    ensures Compatible(ps, RecalculateFirstTwo(ps, cs).value)
    ensures AtMeans(ps, RecalculateFirstTwo(ps, cs).value)
  {
    FirstTwoOfPlanar(ps);
  }

  /** The recalculation of each draft: both put every centroid at the mean of
      its points and keep the draft's shape. */
  function DraftRecalculate(draft: Draft, ps: seq<Point>, cs: seq<Point>): (r: Result<seq<Point>>)
    requires DraftShape(draft, ps, cs)
    ensures r.Success? <==> NoneEmpty(ps, |cs|)
    ensures r.Failure? ==> r.error.EmptyCluster?
    ensures r.Success? ==>
              && |r.value| == |cs| && DraftShape(draft, ps, r.value)
              && Compatible(ps, r.value) && AtMeans(ps, r.value)
  {
    match draft
    case FixDraft =>
      var r := RecalculateFirstTwo(ps, cs);
      if r.Success? then FirstTwoShape(ps, cs); r else r
    case OldestDraft =>
      var r := RecalculateSlots(ps, cs);
      if r.Success? then SlotsShape(ps, cs); r else r
  }

  /** Two sets of centroids that both sit at the means of the same points
      coincide coordinate for coordinate. */
  lemma MeansUnmoved(ps: seq<Point>, cs: seq<Point>, ds: seq<Point>)
    requires Compatible(ps, cs) && Compatible(ps, ds) && |cs| == |ds|
    requires AtMeans(ps, cs) && AtMeans(ps, ds)
    ensures forall j :: 0 <= j < |cs| ==> ds[j].coords == cs[j].coords
  {
    forall j | 0 <= j < |cs|
      ensures ds[j].coords == cs[j].coords
    {
      assert ClusterCount(ps, j) > 0;
      assert |ds[j].coords| == |ps[0].coords| == |cs[j].coords|;
    }
  }

  /** One round of a draft's epoch loop: assign, then recalculate. */
  function DraftRound(draft: Draft, ps: seq<Point>, cs: seq<Point>): (r: Result<(Pass, seq<Point>)>)
    requires DraftShape(draft, ps, cs)
    ensures r.Failure? ==> r.error.EmptyCluster?
    ensures r.Success? ==>
              var (pass, next) := r.value;
              && pass == DraftAssign(draft, ps, cs)
              && |next| == |cs| && |pass.points| == |ps|
              && (forall i :: 0 <= i < |ps| ==> pass.points[i].coords == ps[i].coords)
              && Compatible(ps, cs) && Settled(ps, cs) == (pass.changed == 0)
              && (pass.changed == 0 ==> pass.points == ps)
              && DraftShape(draft, pass.points, next)
              && Compatible(pass.points, next) && AtMeans(pass.points, next)
  {
    var pass := DraftAssign(draft, ps, cs);
    var next := DraftRecalculate(draft, pass.points, cs);
    if next.Failure? then Failure(next.error) else Success((pass, next.value))
  }

  /** `kMeansClustering` of the two oldest drafts: at most `epochs` rounds of
      assignment then recalculation, stopping after the first round in
      which no point moved, and one last assignment pass. The final points
      are settled on the final centroids; when the run converged after a
      round that moved points, the centroids also sit at the means of the
      final clusters. The reported count is the last epoch's, since the
      draft ignores the count of its closing assignment. */
  method EpochClustering(draft: Draft, points: seq<Point>, centroids: seq<Point>, epochs: int) returns (r: Result<Run>)
    requires DraftShape(draft, points, centroids)
    ensures r.Failure? ==> r.error.EmptyCluster?
    ensures r.Success? ==> |r.value.points| == |points| && |r.value.centroids| == |centroids|
    ensures r.Success? ==> forall i :: 0 <= i < |points| ==> r.value.points[i].coords == points[i].coords
    ensures r.Success? ==> Compatible(r.value.points, r.value.centroids) && Settled(r.value.points, r.value.centroids)
    ensures r.Success? ==> r.value.rounds <= if epochs > 0 then epochs else 0
    ensures r.Success? ==> r.value.lastChanged == 0 || r.value.rounds == if epochs > 0 then epochs else 0
    ensures r.Success? && r.value.rounds == 0 ==> r.value.centroids == centroids
    ensures epochs <= 0 ==> r.Success? && r.value.rounds == 0
    ensures r.Success? && r.value.rounds >= 2 && r.value.lastChanged == 0 ==>
              AtMeans(r.value.points, r.value.centroids)
  {
    var ps := points;
    var cs := centroids;
    var changed: nat := 0;
    var rounds: nat := 0;
    while rounds < epochs
      invariant |ps| == |points| && |cs| == |centroids|
      invariant forall i :: 0 <= i < |points| ==> ps[i].coords == points[i].coords
      invariant DraftShape(draft, ps, cs) && Compatible(ps, cs)
      invariant rounds <= if epochs > 0 then epochs else 0
      invariant rounds == 0 ==> cs == centroids
      invariant rounds > 0 ==> AtMeans(ps, cs)
      invariant rounds >= 2 && changed == 0 ==> Settled(ps, cs)
      decreases epochs - rounds
    {
      var round := DraftRound(draft, ps, cs);
      if round.Failure? {
        return Failure(round.error);
      }
      var (pass, next) := round.value;
      if rounds > 0 && pass.changed == 0 {
        // nothing moved, so the means did not move either
        MeansUnmoved(ps, cs, next);
        SettledByCoords(ps, cs, next);
      }
      ps, cs, changed, rounds := pass.points, next, pass.changed, rounds + 1;
      if changed == 0 {
        break;
      }
    }
    var last := DraftAssign(draft, ps, cs);
    return Success(Run(last.points, cs, rounds, changed));
  }

  /** The cluster sizes of the engine's points. */
  function GetClustersSize(e: KMeansND): (m: map<int, nat>)
    ensures forall c :: c in m <==> exists i :: 0 <= i < |e.points| && e.points[i].clusterId == c
    ensures forall c :: c in m ==> m[c] == ClusterCount(e.points, c)
  {
    var m := ClusterSizes(e.points);
    assert forall c :: c in multiset(Ids(e.points)) <==> c in Ids(e.points);
    m
  }

  /** The number of points carrying each cluster id, for the ids that occur:
      the map the program builds by incrementing one entry per point. */
  function ClusterSizes(ps: seq<Point>): (m: map<int, nat>)
    ensures m.Keys == set c | c in multiset(Ids(ps))
    ensures forall c :: c in m ==> m[c] == multiset(Ids(ps))[c]
    decreases |ps|
  {
    if |ps| == 0 then map[]
    else
      var last := |ps| - 1;
      var prev := ClusterSizes(ps[..last]);
      var id := ps[last].clusterId;
      assert Ids(ps) == Ids(ps[..last]) + [id];
      prev[id := (if id in prev then prev[id] else 0) + 1]
  }
}
