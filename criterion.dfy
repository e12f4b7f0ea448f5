/**
 * The adaptation criterion object the two callbacks share with the loss: the
 * clusterer published each epoch and the two per-sample memory arrays,
 * indexed by `sample_idx`. The criterion's own loss computation is not part
 * of this model.
 */
module Criterion {
  import opened Vectors
  import opened Clustering

  class AdaptCriterion {
    /** `target_kmeans`, replaced at the start of every epoch. */
    var targetKMeans: SphericalKMeans?
    /** `memory_features`: one row per target sample. */
    var memoryFeatures: array<Vector>
    /** `memory_outputs`: one row per target sample. */
    var memoryOutputs: array<Vector>

    /** The two memory tensors are distinct objects. */
    ghost predicate Valid()
      reads this
    {
      memoryFeatures != memoryOutputs
    }

    constructor (features: seq<Vector>, outputs: seq<Vector>)
      ensures Valid() && targetKMeans == null
      ensures fresh(memoryFeatures) && fresh(memoryOutputs)
      ensures memoryFeatures[..] == features && memoryOutputs[..] == outputs
    {
      targetKMeans := null;
      memoryFeatures := new Vector[|features|](i requires 0 <= i < |features| => features[i]);
      memoryOutputs := new Vector[|outputs|](i requires 0 <= i < |outputs| => outputs[i]);
    }
  }
}
