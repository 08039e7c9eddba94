# K-Means clustering of tweet embeddings: a Dafny model

This project models the clustering core of `clustering_tweets`. The core is a K-Means engine over N-dimensional points, plus the post-processing that works on the clusters it produces. Dafny states and proves properties of each step. The files are:

- `points.dfy` (module `Points`): the `Point` record (coordinates, distance, cluster id) with every constructor of the canonical, planar and oldest variants, and the Euclidean distance.
- `assignment.dfy` (module `Assignment`): `assignPointsToCentroids`. Each point moves to its first nearest centroid, and the pass returns the number of points that changed cluster.
- `recalculation.dfy` (module `Recalculation`): `recalculateCentroids`. It covers the per-cluster count, sum and mean, the degenerate-centroid check, the single accumulation pass of the program, and the recalculation of every older variant. It also models the canonical recalculation as written (see Findings).
- `initialization.dfy` (module `Initialization`): `initialize_random_centroids` in its guarded, unguarded, with-replacement and slot-numbering versions, and the rejection loop that draws distinct indices.
- `engine.dfy` (module `Engine`): the `KMeansND` engine and the other drivers.
  - The engine parts are its constructor, `setPoints`, `Cluster` and `getClustersSize`, with `returnClustersSize`.
  - Two other loops are modelled: the budget-decrementing loop of `clustering_core/KmeansND.h`, `KMeans2D.h` and `KMeans.h`, and the epoch loop of the two oldest drafts.
- `sorting.dfy` (module `Sorting`): `sortPointsByDistance`.
- `neighbors.dfy` (module `Neighbors`): `getNeighbors`, the farthest-point selection of `k` representatives.
- `clusters.dfy` (module `Clusters`): the `Cluster` class with its six constructors, `sort` and `getNeighbors`.
- `reduce.dfy` (module `Reduce`): `combinePoints`.
- `outcomes.dfy` (module `Outcomes`): `Option`, `Result` and the error kinds.

Modelling conventions:

- **Coordinates.** Coordinates are `seq<real>`.
- **Distance.** The `distance` field holds the **squared** Euclidean distance. The square root is monotone on non-negative reals, so every comparison the program makes gives the same answer on squared distances (`Points.SquaringPreservesOrder`).
- **Sentinels.** `INT_MAX` and `__DBL_MAX__` are kept as the exact constants `IntMax` and `DblMax`.
- **Errors.** Where the program calls `exit(1)`, or where it would index out of bounds or divide by zero, the model returns an error:
  - `TooManyCentroids` when `k` exceeds the number of points;
  - `InvalidClusterId` when a point's id indexes no centroid;
  - `EmptyCluster` when a centroid has no member;
  - `DegenerateCentroids` when two new centroids coincide.
- **Randomness.** Random choices are an explicit parameter `picks`: the indices the generator produced.
- **Planar points.** A point of the planar variants (`x`, `y`) is a `Point` with two coordinates.

The code and the repository's own description disagree in one place. The description says the canonical `initialize_random_centroids` gives each centroid its slot as cluster id and distance 0. The code copies the chosen points verbatim (`src/clustering_core/modules/kMeansLogic.hpp:116`), and the model follows the code. Only the oldest draft numbers its centroids, and it is modelled by `Initialization.InitializeSlots`.

## Model

| member | source | states |
|---|---|---|
| Points.SqDist | src/clustering_core/modules/structPoint.hpp:53-61 | The distance between two vectors of one dimension is non-negative and is 0 between equal vectors. |
| Points.SqDistSymmetric | src/clustering_core/modules/structPoint.hpp:53-61 | The distance is symmetric. |
| Points.PlanarDistance | src/clustering_core/KMeans2D.h:56-59 | The planar `calcDist` on (x, y) equals the N-dimensional distance on two-coordinate vectors. |
| Points.SquaringPreservesOrder | src/clustering_core/modules/structPoint.hpp:60 | For non-negative values, `x < y` exactly when `x*x < y*y`. This justifies comparing squared distances. |
| Points.ConstructorAndDistanceExamples | src/tests_core/TestStructPoint.hpp:31-56 | The test expectations: the default point has no coordinates, distance INT_MAX and id -1; a centroid has distance 0; (0,0)–(3,4) and (-1,-1)–(-4,-5) are at distance 5. The four-dimensional distances 4, 8 and 0 of the test driver hold as well. |
| Assignment.NearestAmong | src/clustering_core/modules/kMeansLogic.hpp:19-29 | The scan returns -1 exactly when there is no centroid. Otherwise it returns a centroid at minimal distance, and every centroid before it is strictly farther: the first minimum wins ties. |
| Assignment.NearestIsFirstNearest | src/clustering_core/modules/kMeansLogic.hpp:19-29 | The scan's answer satisfies the brute-force description of "first nearest centroid", and no other index does. |
| Assignment.CountMoved | src/clustering_core/modules/kMeansLogic.hpp:30-35 | The change counter equals the number of indices whose cluster id changed. |
| Assignment.Assign | src/clustering_core/modules/kMeansLogic.hpp:13-38 | Every point gets its first nearest centroid and keeps its coordinates. A point whose id is unchanged is left untouched. A moved point takes the distance to that centroid, or DBL_MAX when there is no centroid. The returned count is the number of moved points, at most the number of points. |
| Assignment.AssignKeepDistance | clastering_core/old/fix_k-means2D.h:126-150 | The fix draft's pass gives each point its nearest centroid id and leaves its distance as it was. Its count is the number of moved points. |
| Assignment.NoChangeIffStable | src/clustering_core/modules/kMeansLogic.hpp:30-37 | A pass reports 0 exactly when every point already carries its nearest centroid, and then it returns the points unchanged. |
| Assignment.AssignIdempotent | src/clustering_core/modules/kMeansLogic.hpp:13-38 | A second pass with the same centroids reports 0 and changes nothing. |
| Assignment.FirstPassMovesAll | src/clustering_core/modules/kMeansLogic.hpp:30-35 | On unassigned points, with at least one centroid, the first pass counts every point. |
| Assignment.NearestOfTwo | src/clustering_core/modules/kMeansLogic.hpp:24-28 | With two centroids, the second is chosen exactly when it is strictly nearer. |
| Assignment.AssignExample | src/tests_core/TestKmeansLogic.hpp:123-141 | The test's points (0,0), (10,10), (2,2), (9,9) against (1,1), (8,8) are assigned 0, 1, 0, 1. The pass reports 4 changes. |
| Recalculation.ClusterCount | src/clustering_core/modules/kMeansLogic.hpp:51-54 | A cluster's count is the multiplicity of its id among the points' ids. |
| Recalculation.Means | src/clustering_core/modules/kMeansLogic.hpp:62-68 | The means of clusters 0..k-1 exist exactly when no cluster is empty, and each is the cluster's `Mean`. Otherwise the error names the lowest empty cluster. |
| Recalculation.FirstStray | src/clustering_core/modules/kMeansLogic.hpp:58 | The result is -1 exactly when every point's id indexes a centroid. Otherwise it is the first point whose id does not. |
| Recalculation.FindCollision | src/clustering_core/modules/kMeansLogic.hpp:70-89 | No pair is reported exactly when the vectors are pairwise distinct. A reported pair `i < j` is made of equal vectors. |
| Recalculation.Recalculate | src/clustering_core/modules/kMeansLogic.hpp:41-90 | Success holds exactly when every id indexes a centroid, no cluster is empty and the new means are pairwise distinct. Each new centroid is (mean of its members, distance 0, its own id). Each error kind names a point or cluster that shows it. |
| Recalculation.Accumulate | src/clustering_core/modules/kMeansLogic.hpp:51-60 | The program's single accumulation pass yields, for every cluster, exactly the sum and count that define its mean. |
| Recalculation.CentroidExample3D | src/tests_core/TestKMeansND.hpp:273-291 | On the test's ten diagonal points, the intended recalculation succeeds and gives (2,2,2) and (7,7,7). |
| Recalculation.RecalculatePlanar | src/clustering_core/KMeans2D.h:219-257 | The intended planar recalculation succeeds and fails exactly as the intended canonical one. Its centroids take the canonical means and keep their distance. |
| Recalculation.RecalculateSlots | clastering_core/k-means2D.cpp:112-132 | With the divisor corrected, it succeeds exactly when no cluster is empty. Each centroid moves to its mean and keeps its id and distance. |
| Recalculation.RecalculateFirstTwo | clastering_core/old/fix_k-means2D.h:154-177 | The intended recalculation of the fix draft succeeds exactly when no cluster is empty. Centroid `i` is a fresh point: the mean of its members' first two coordinates, distance DBL_MAX, id `i`. |
| Recalculation.RecalculateAsWritten | src/clustering_core/modules/kMeansLogic.hpp:44-48 | As written, every centroid ends with no coordinates and distance 0, and keeps its id. |
| Recalculation.ClearedCentroidsLoseTheMean | src/clustering_core/modules/kMeansLogic.hpp:46 | When the centroids have at least one coordinate, the result as written differs from the intended mean in every centroid. |
| Recalculation.ClearedCentroidsExample | src/tests_core/TestKMeansND.hpp:284-291 | On the test's example, the centroids as written are not (2,2,2) and (7,7,7). |
| Recalculation.InvertedCheck | src/clustering_core/modules/kMeansLogic.hpp:70-89 | The check as written exits exactly when some two centroids differ. So it stops every run whose centroids the intended check accepts. |
| Recalculation.InvertedCheckExample | src/clustering_core/modules/kMeansLogic.hpp:83-87 | Once the reset at line 46 is fixed, the example's new centroids (2,2,2) and (7,7,7) are distinct, yet the check as written exits. With the reset as written the vectors are empty and the check never fires. |
| Recalculation.Quotient | src/clustering_core/KMeans2D.h:241-242 | Dividing by a count gives a finite value exactly when the count is positive, and then the quotient times the count is the dividend. 0/0 is NaN. |
| Recalculation.MeanAsWritten | src/clustering_core/KMeans2D.h:222-243 | For a non-empty cluster, the planar engine's division of its zero-reset sums gives the mean. |
| Recalculation.EmptyClusterGivesNaN | src/clustering_core/KMeans2D.h:241-242 | As written in the planar engine, a centroid without members gets NaN in every coordinate. The canonical division at `kMeansLogic.hpp:66` does the same once its reset is fixed. The intended `Means` fails on such a cluster. |
| Recalculation.RecalculateTotalDivisor | clastering_core/k-means2D.cpp:128 | As written, each coordinate times the total number of points equals the cluster's coordinate sum. Id and distance are kept. |
| Recalculation.TotalDivisorExample | clastering_core/k-means2D.cpp:112-132 | For (2,2) in cluster 0 and (4,4) in cluster 1, the code as written moves centroid 0 to (1,1). The corrected recalculation moves it to (2,2). |
| Initialization.PickDistinct | src/clustering_core/modules/kMeansLogic.hpp:107-117 | The rejection loop's picks are distinct, come from the draws and number at most `k`. It stops short only when every draw was already taken. |
| Initialization.PickDistinctBound | src/clustering_core/KMeans2D.h:268-287 | Distinct picks in `[0, n)` never exceed `n`. So for `k > n` the loop never completes, whatever the draws. |
| Initialization.PickDistinctValid | src/clustering_core/modules/kMeansLogic.hpp:107-117 | A completed run of the loop is a valid choice of `k` distinct indices. |
| Initialization.Initialize | src/clustering_core/modules/kMeansLogic.hpp:93-121 | The call fails, with `TooManyCentroids`, exactly when `k > n` (a negative `k` too, through the signed/unsigned comparison). Otherwise centroid `i` is `points[picks[i]]`, copied verbatim, and the centroids form a sub-multiset of the points. |
| Initialization.InitialCentroidsUnique | src/tests_core/TestKmeansLogic.hpp:33-46 | On points with distinct coordinates, the initial centroids have pairwise distinct coordinates. |
| Initialization.InitializeUnguarded | src/clustering_core/KMeans2D.h:268-287 | Without the guard, a non-positive `k` yields no centroid. Otherwise centroid `i` is `points[picks[i]]`, and the `k` centroids form a sub-multiset of the points. |
| Initialization.InitializeWithReplacement | clastering_core/old/fix_k-means2D.h:111-123 | `k` independent draws: every centroid is one of the points. |
| Initialization.InitializeSlots | clastering_core/k-means2D.cpp:71-82 | Centroid `i` has the coordinates of some point, cluster id `i` and distance 0. |
| Engine.FromPoints | src/clustering_core/KmeansND.hpp:43 | The constructor succeeds exactly when `0 <= k <= n`. It keeps `k`, the budget and the points, and draws `k` centroids from the points. |
| Engine.SetPoints | src/clustering_core/KmeansND.hpp:88-92 | `setPoints` replaces the points and redraws the centroids under the same guard. |
| Engine.Round | src/clustering_core/KmeansND.hpp:74-75 | One round fails exactly when the recalculation fails. Otherwise it recalculates and then reassigns. |
| Engine.Cluster | src/clustering_core/KmeansND.hpp:67-80 | The run keeps the coordinates and ends with every point assigned to its nearest final centroid. It stops within the budget, and early only when a pass changed nothing. With no round, the centroids are unchanged. A run that converged after at least one round leaves every centroid at the mean of its cluster. A non-positive budget performs no round. |
| Engine.LegacyRecalculate | clustering_core/KmeansND.h:242-291 | The intended recalculation of each older copy: it fails exactly when the intended canonical one does, with the same error, and otherwise puts every centroid at its mean in the points' dimension. The N-dimensional copy resets the distance and the planar ones keep it. |
| Engine.LegacyRound | clustering_core/KmeansND.h:203-214 | One round of the budget loop assigns, then recalculates. The assigned points are settled on the old centroids, and the new centroids sit at their clusters' means. A round that changed nothing leaves the points as they were. |
| Engine.LegacyCluster | src/clustering_core/KMeans2D.h:150-166 | The budget loop starts with the change counter at the number of points. Every round leaves the centroids at the means. Stopping at a zero count after two or more rounds leaves the run settled. With no points, or a non-positive budget, nothing happens. |
| Engine.LegacyFromPoints | clastering_core/KMeans.h:71 | The intended constructor keeps its arguments and draws `k` centroids from the given points. |
| Engine.ConstructorDrawsFromNothing | clastering_core/KMeans.h:50-71 | As written, the centroids are drawn from the point member before it is constructed, which is undefined behaviour; the model takes that member as empty. For `k >= 1` no choice of indices is valid, although one exists for the given points. |
| Engine.DraftAssign | clastering_core/old/fix_k-means2D.h:126-150 | Each draft's pass settles every point at its nearest centroid. It reports 0 exactly when the points were already settled. |
| Engine.DraftRecalculate | clastering_core/old/fix_k-means2D.h:154-177 | Each draft's recalculation succeeds exactly when no cluster is empty, and it leaves every centroid at its mean. |
| Engine.DraftRound | clastering_core/old/fix_k-means2D.h:93-104 | One epoch assigns, then recalculates. |
| Engine.EpochClustering | clastering_core/old/fix_k-means2D.h:82-109 | The epoch loop stops within the budget or at the first epoch that changed nothing. The final assignment settles every point. Stopping at a zero count after two or more epochs leaves the centroids at the means. |
| Engine.GetClustersSize | src/clustering_core/KmeansND.hpp:64 | The sizes map has a key exactly for each id that occurs, mapped to that id's count. |
| Engine.ClusterSizes | src/clustering_core/modules/ClusterTools.hpp:10-18 | The keys of the map are the ids that occur, and each maps to its multiplicity. |
| Sorting.SortByDistance | src/data_processing/modules/SortingClusters.hpp:13-18 | The result is a permutation of the points, ordered by non-decreasing distance from the center. |
| Sorting.InsertSorted | src/data_processing/modules/SortingClusters.hpp:15-17 | Inserting into an ordered sequence keeps it ordered. |
| Sorting.SortedUnchanged | src/data_processing/modules/SortingClusters.hpp:13-18 | Sorting an ordered sequence returns it unchanged. |
| Sorting.SortIdempotent | src/data_processing/modules/SortingClusters.hpp:13-18 | Sorting twice is sorting once. |
| Sorting.SortedPermutationsAgree | src/data_processing/modules/SortingClusters.hpp:13-18 | Any two orderings of the same points by distance have the same distance at every position. |
| Sorting.SortAgreesWithAnySort | src/data_processing/modules/SortingClusters.hpp:13-18 | The model's order matches any ordering `std::sort` may produce in the distance at every position. They differ at most among points at equal distance. |
| Sorting.FirstIsNearest | src/data_processing/modules/ClusterRelevantInfo.hpp:18-23 | The first point of any sorted permutation is nearest to the center among all the points. |
| Neighbors.MinDistTo | src/data_processing/modules/ClusterRelevantInfo.hpp:30-36 | The distance to the nearest neighbor is non-negative. |
| Neighbors.MinDistBelowEach | src/data_processing/modules/ClusterRelevantInfo.hpp:30-36 | No neighbor is nearer than the computed minimum. |
| Neighbors.MinDistAttained | src/data_processing/modules/ClusterRelevantInfo.hpp:30-36 | Some neighbor is exactly at the computed minimum. |
| Neighbors.FarthestAmong | src/data_processing/modules/ClusterRelevantInfo.hpp:26-42 | The candidate scan returns -1 only for no candidates. Otherwise it returns a candidate with the largest value, and every earlier candidate is strictly smaller: the first maximum wins ties. |
| Neighbors.Grow | src/data_processing/modules/ClusterRelevantInfo.hpp:25-45 | The loop extends the neighbors to `k` and keeps the starting ones. Every added point is the first farthest candidate in sorted order: no candidate is farther from the neighbors before it, and every candidate sorted before it is strictly nearer to them. |
| Neighbors.ScanPicksFirstFarthest | src/data_processing/modules/ClusterRelevantInfo.hpp:26-42 | One scan over the sorted candidates, with its strict comparison, takes the first farthest candidate. |
| Neighbors.GetNeighbors | src/data_processing/modules/ClusterRelevantInfo.hpp:11-48 | A non-positive `k` gives nothing, and `k >= n` gives all points in order. Otherwise there are exactly `k` neighbors, all from the points, and the first is nearest to the center. |
| Neighbors.NeighborIsFirstFarthest | src/data_processing/modules/ClusterRelevantInfo.hpp:38-44 | Of several equally far candidates, each neighbor after the first is the earliest in sorted order. |
| Neighbors.NeighborIsFarthest | src/data_processing/modules/ClusterRelevantInfo.hpp:25-45 | Each neighbor after the first is at least as far from the earlier neighbors as any point is. |
| Neighbors.NoRepeatWhileRoom | src/data_processing/modules/ClusterRelevantInfo.hpp:38-44 | While some point is away from every chosen neighbor, a new neighbor is away from every earlier one. |
| Clusters.ConstructorsConsistent | src/data_processing/Clusters.hpp:16-21 | The default cluster has id -1 and no points. The constructors taking points record their number. The count-taking constructor is consistent exactly when its count matches. |
| Clusters.Sort | src/data_processing/Clusters.hpp:28 | Sorting a cluster permutes its points into distance order and changes nothing else. |
| Clusters.PointsOnlyClusterNeighbors | src/tests_core/TestClusters.hpp:55-64 | A cluster built from points alone, whose default center has no coordinates, answers a request for no neighbors with nothing and a request for at least as many as its points with all of them in order. |
| Clusters.ClusterNeighbors | src/data_processing/Clusters.hpp:30 | A cluster's neighbors: none for a non-positive `k`, all its points for `k` of at least their number, and otherwise exactly `k` of its points. |
| Clusters.NeighborsIgnoreSorting | src/data_processing/Clusters.hpp:28-30 | Sorting a cluster first does not change its neighbors unless all points are returned. |
| Clusters.SortTwice | src/data_processing/Clusters.hpp:28 | Sorting a cluster twice is sorting it once. |
| Reduce.CombinePoints | src/data_processing/ReduceClusterSizes.hpp:12-22 | Every point keeps its coordinates, takes its given id and, as its distance, the distance to the center that id names. So the ids of the result are the given ids. The distance is non-negative, and 0 when the point sits on its center. A point that already carries that id and distance comes back unchanged. |
| Reduce.CombineIdempotent | src/data_processing/ReduceClusterSizes.hpp:12-22 | Combining again with the same ids and centers changes nothing. |
| Reduce.CombineNearest | src/data_processing/ReduceClusterSizes.hpp:17-19 | With the nearest-centroid ids, the combined points are settled and each distance is the minimum over all centers. The result agrees with an assignment pass on every point that pass moved. |

## Left out

- File input and output are left out: `read_data`, `save`, `save_result`, `save_centroids`, `readCentroids_from_csv`, the path members and the path constructor of `KMeansND`, the status and debug printing, and the visualisation and Qt front ends. They are I/O.
- The random number generators are replaced by the `picks` (or `draws`) parameter. No distribution is modelled.
- Floating point is replaced by exact reals. There is no rounding and no overflow. The square root is replaced by comparing squared distances. Only `Recalculation.MeanAsWritten` models NaN.
- Counters (`points_changed`, the per-cluster counts) are unbounded naturals. A 32-bit overflow needs more than 2^31 points and is not modelled.
- The initializer-list `Point` constructor (`structPoint.hpp:46`) leaves the distance and cluster id uninitialised, which cannot be modelled. Examples built with it in the tests are modelled with only their coordinates pinned (`Recalculation.CentroidExample3D`) or as unassigned points (`Assignment.AssignExample`).
- The trivial setters `setK`, `setCentroids`, `setMaxIter` and the `KMeansND(k, max_iter)` constructor are record updates with no behaviour to prove. The `Cluster` getters are the datatype's fields.
- Recalculation.RecalculatePlanar: states the intended behaviour on an empty cluster. As written, the planar copies give that centroid NaN coordinates (`KMeans2D.h:241-242`) and carry on; the model returns `EmptyCluster`.
- Recalculation.RecalculateFirstTwo: states the intended behaviour on an empty cluster. As written, the fix draft divides an empty sum by a zero size (`clastering_core/old/fix_k-means2D.h:173-174`), giving NaN; the model returns `EmptyCluster`.
- Recalculation.Recalculate: in the program, a point whose id indexes no centroid writes out of bounds. The model reports `InvalidClusterId` instead.
- Points of mismatched dimensions read past a vector's end in the program. Every operation that measures a distance requires equal dimensions (`Compatible`, `InSpace`). `Neighbors.GetNeighbors` and `Clusters.ClusterNeighbors` require them only when `0 < k < n`, the one case in which they measure. `Sorting.SortByDistance` requires them even for zero or one point, where `std::sort` compares nothing.
- Engine.EpochClustering: the draft draws its own initial centroids. The model takes them as a parameter, to be produced by `Initialization.InitializeWithReplacement` or `Initialization.InitializeSlots`.
- Engine.LegacyCluster: the convergence property is stated after at least two rounds. The case of a single round that happens to settle is not characterised beyond `AtMeans`.
- Neighbors.GetNeighbors: `std::sort` may order points at equal distance from the center in any order. The model sorts stably, so which of several equidistant nearest points comes first may differ. `Sorting.FirstIsNearest` and `Neighbors.NeighborIsFarthest` hold for every sorted permutation, and `Sorting.SortAgreesWithAnySort` shows every sorted permutation has the same distances position by position. `Neighbors.NeighborIsFirstFarthest` states the tie-break against the model's order.
- Sorting.SortedUnchanged: a fact of the model's stable order only. `std::sort` is not stable and may reorder equidistant points of an already ordered input.
- Sorting.SortIdempotent: a fact of the model's stable order only, for the same reason. For `std::sort` only the distances at each position are the same after a second sort (`Sorting.SortAgreesWithAnySort`).
- Clusters.SortTwice: built on `Sorting.SortIdempotent`, so it holds of the model's stable order and not of every `std::sort`.
- Clusters.NeighborsIgnoreSorting: built on `Sorting.SortIdempotent`. With `std::sort` a second sort may reorder equidistant points, and the neighbors chosen among ties may then differ.
- Engine.LegacyRecalculate: models the intended recalculation, not the older copies as written. The N-dimensional copy (`clustering_core/KmeansND.h:245-249`, `:276-287`) has the canonical clearing of the coordinate vectors and the inverted distinctness check, modelled for the canonical code by `Recalculation.RecalculateAsWritten` and `Recalculation.InvertedCheck`. After an empty cluster, the planar copies (`KMeans2D.h:241-242`, `clastering_core/KMeans.h:156-157`) carry on with NaN centroids, since NaN never compares equal in their check; the model returns `EmptyCluster` instead.
- Neighbors.MinDistTo: the program starts its minimum at DBL_MAX. The model takes the plain minimum, which is the same for finite distances.
- Neighbors.GetNeighbors: its contract does not state the farthest-point property. That property is stated separately, one pick at a time, by `Neighbors.NeighborIsFarthest`.

## Findings

| source | as written | input that shows it | evidently intended | confidence | as-written member | corrected member |
|---|---|---|---|---|---|---|
| src/clustering_core/modules/kMeansLogic.hpp:46 | each centroid's coordinate vector is cleared before the means are accumulated into it, so the accumulation writes past the end of an empty vector and the result has no coordinates | the test's ten diagonal points in two clusters (`TestKMeansND.hpp:273-291`) | reset every coordinate to 0 and take the mean: (2,2,2) and (7,7,7) | not executed | Recalculation.ClearedCentroidsExample | Recalculation.CentroidExample3D |
| src/clustering_core/modules/kMeansLogic.hpp:83 | the distinctness check exits when it finds a coordinate where two centroids differ; as written the cleared vectors of line 46 mask this, and it shows once that reset is fixed | centroids (2,2,2) and (7,7,7), with the reset fixed | exit only when two centroids coincide in every coordinate | not executed | Recalculation.InvertedCheckExample | Recalculation.FindCollision |
| src/clustering_core/KMeans2D.h:241-242 | a centroid with no members divides its zero sums by a zero count, giving NaN; NaN never compares equal, so the distinctness check lets it through and the run carries on (the same division is at `clastering_core/KMeans.h:156-157`, at `clastering_core/old/fix_k-means2D.h:173-174`, and at `kMeansLogic.hpp:66` once its reset is fixed) | any run in which some centroid attracts no point | report the empty cluster instead of producing NaN coordinates | not executed | Recalculation.EmptyClusterGivesNaN | Recalculation.Means |
| clastering_core/k-means2D.cpp:128 | each coordinate sum is divided by the number of all points | (2,2) in cluster 0 and (4,4) in cluster 1 give centroid 0 at (1,1) | divide by the number of points in the cluster: (2,2) | not executed | Recalculation.TotalDivisorExample | Recalculation.RecalculateSlots |
| clastering_core/KMeans.h:71 | the initialiser list draws the centroids from the point member, which is declared after the centroid member and so is read before it is constructed (undefined behaviour; the model takes it as empty) | any `k >= 1` | draw the centroids from the given points | not executed | Engine.ConstructorDrawsFromNothing | Engine.LegacyFromPoints |
| src/clustering_core/KMeans2D.h:268-287 | the rejection loop has no guard on `k` | `k = 3` with 2 points: the third distinct index is never found | refuse `k` larger than the number of points, as the canonical version does | not executed | Initialization.PickDistinctBound | Initialization.Initialize |
