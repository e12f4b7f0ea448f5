/**
 * The spherical k-means clusterer, seen only from outside: the arguments it
 * is constructed with and the data it is fitted on. Its Lloyd iterations are
 * not modelled; `Fit` records the features it was given.
 */
module Clustering {
  import opened Vectors

  datatype Option<T> = None | Some(value: T)

  class SphericalKMeans {
    const nClusters: int
    const randomState: int
    const initialCentroids: seq<Vector>
    /** The features of the last `fit` call, if any. */
    var fittedOn: Option<seq<Vector>>

    constructor (nClusters: int, randomState: int, initialCentroids: seq<Vector>)
      ensures this.nClusters == nClusters && this.randomState == randomState
      ensures this.initialCentroids == initialCentroids
      ensures fittedOn == None
    {
      this.nClusters := nClusters;
      this.randomState := randomState;
      this.initialCentroids := initialCentroids;
      fittedOn := None;
    }

    method Fit(features: seq<Vector>)
      modifies this
      ensures fittedOn == Some(features)
    {
      fittedOn := Some(features);
    }
  }
}
