/** Typed failures of the clustering core. Where the program prints a message
    and ends the process (or runs into undefined behaviour) the model returns
    one of these instead. */
module Outcomes {

  datatype Error =
    | TooManyCentroids(k: int, available: nat)  // k < 0 or k > number of points
    | InvalidClusterId(point: nat)              // a point's id does not index a centroid
    | EmptyCluster(cluster: nat)                // a centroid with no member points
    | DegenerateCentroids(first: nat, second: nat) // two centroids with identical coordinates

  datatype Option<+T> = None | Some(value: T)

  datatype Result<+T> = Success(value: T) | Failure(error: Error) {

    predicate IsFailure() {
      Failure?
    }

    function PropagateFailure<U>(): Result<U>
      requires Failure?
    {
      Failure(error)
    }

    function Extract(): T
      requires Success?
    {
      value
    }
  }
}
