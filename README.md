# skada training callbacks, modelled in Dafny

This project models the two skorch callbacks in `skada/deep/callbacks.py` that
keep the state of skada's deep domain-adaptation criterion up to date during
training:

- `ComputeSourceCentroids.on_epoch_begin` runs at the start of every epoch.
  - It splits the training rows by the sign of `sample_domain`: `>= 0` is a
    source row, `< 0` is a target row.
  - It counts the distinct source labels (`n_classes`).
  - For every class id `c` in `[0, n_classes)` that has source rows, it sums
    the L2-normalised source features of that class.
  - It seeds a spherical k-means clusterer with these sums, fits it on the
    target features and stores it as the criterion's `target_kmeans`.
- `ComputeMemoryBank` holds a `momentum` (default 0.7). After every batch,
  `on_batch_end` does the following:
  - It selects the batch's target rows together with their `sample_idx`.
  - It runs the network on them and computes normalised features and a
    column-normalised squared softmax.
  - It overwrites the rows of the criterion's `memory_features` and
    `memory_outputs` at those indices.

Files and modules:

- `vectors.dfy` (`Vectors`): vectors of reals, row sums, scaling, `F.normalize`
  and softmax. The square root inside the L2 norm and the exponential inside
  softmax are function parameters.
- `masks.dfy` (`Masks`): boolean-mask selection `t[mask]` and the source and
  target domain masks.
- `clustering.dfy` (`Clustering`): the spherical k-means clusterer, seen from
  outside. It records its constructor arguments and the data it was fitted on.
- `criterion.dfy` (`Criterion`): the adaptation criterion's mutable state. This
  is the clusterer slot plus the two memory arrays.
- `source_centroids.dfy` (`SourceCentroids`): `on_epoch_begin`, with the
  centroid loop as a `while` loop proved against the specification function
  `CentroidSeq`.
- `memory_bank.dfy` (`MemoryBank`): `on_batch_end` as an in-place update of the
  two memory arrays. It is modelled both as written (`OnBatchEnd`) and as the
  moving average the code evidently intends (`OnBatchEndEma`). See
  "## Findings".

Behaviour of torch that the model follows:

- A negative index in `memory[batch_idx]` counts from the end.
- An index outside `[-n, n)` raises `IndexError`. Both gathers (lines 114 and
  119) run before either write (lines 122-123), so an out-of-range index leaves
  both memories unchanged. The model reports it as `BatchStatus.IndexError`.
- `torch.stack([])` raises. The model reports it as
  `EpochStatus.EmptyCentroidStack`, and the clusterer slot is left as it was.

## Model

| member | source | states |
|---|---|---|
| Masks.Selected | skada/deep/callbacks.py:38-41 | The positions a boolean mask selects are exactly the positions where the mask is true. They are in bounds and in strictly increasing order, so relative order is kept. |
| Masks.Mask | skada/deep/callbacks.py:38-41 | `t[mask]` has one entry per selected position, and its k-th entry is the k-th selected row. Two tensors selected with the same mask stay aligned. |
| Masks.SourceMask | skada/deep/callbacks.py:38-39 | `sample_domain >= 0` has one entry per row. Its partner `DomainPartition` states that it selects exactly the rows with a non-negative domain id. |
| Masks.TargetMask | skada/deep/callbacks.py:102-103 | `sample_domain < 0` (also line 41) has one entry per row. Its partner `DomainPartition` states that it selects exactly the rows with a negative domain id, the complement of the source rows. |
| Masks.DomainPartition | skada/deep/callbacks.py:38-41 | A row is selected as source iff its domain id is `>= 0`, and as target iff it is `< 0`. Together the two selections hold every row exactly once (as a multiset) and their lengths add up to the batch size. |
| Masks.MaskComplement | skada/deep/callbacks.py:38-41 | A mask and its negation split any sequence into two parts that together hold every element once. |
| SourceCentroids.NumClasses | skada/deep/callbacks.py:53 | `len(y_s.unique())` is at most the number of source rows, and is zero iff there are no source rows. |
| SourceCentroids.ClassMask | skada/deep/callbacks.py:57 | `y_s == c` has one entry per source row. Its partner `ClassPresent` states when it selects anything. |
| SourceCentroids.ClassCentroid | skada/deep/callbacks.py:59-61 | The centroid of class `c` has the feature width. Its partners `ClassCentroidAppend` and `ClassCentroidIgnoresOtherRows` pin it down as the sum of the class's normalised rows. |
| SourceCentroids.ClassPresent | skada/deep/callbacks.py:57-58 | `mask.sum() > 0` for `mask = y_s == c` holds iff `c` occurs among the source labels. |
| SourceCentroids.ClassCentroidAppend | skada/deep/callbacks.py:59-61 | A centroid is a sum, not a mean. Adding a source row adds its normalised features to its own class's centroid only; every other class's centroid is unchanged. |
| SourceCentroids.ClassCentroidIgnoresOtherRows | skada/deep/callbacks.py:59-61 | A class centroid does not depend on the features of rows with another label. |
| SourceCentroids.EmittedClasses | skada/deep/callbacks.py:53-62 | The classes the loop emits a centroid for are exactly the ids in `[0, n)` that occur among the source labels. They come in strictly increasing order, and there are at most `n` of them. |
| SourceCentroids.StackClasses | skada/deep/callbacks.py:54-62 | The list the loop appends to has one entry per emitted class, and its k-th entry belongs to the k-th emitted class. |
| SourceCentroids.StackAgrees | skada/deep/callbacks.py:54-62 | The stacked list depends only on the centroids of the emitted classes. |
| SourceCentroids.CentroidSeq | skada/deep/callbacks.py:54-62 | `source_centroids` after the loop over `[0, n)` holds at most `n` centroids. Its partners `CentroidSeqClasses`, `EmptyStack` and `OneCentroidPerClass` state its contents. |
| SourceCentroids.CentroidSeqClasses | skada/deep/callbacks.py:53-62 | `source_centroids` has as many entries as there are emitted classes (at most `n_classes`), and entry k is the centroid of the k-th emitted class. |
| SourceCentroids.LoopStep | skada/deep/callbacks.py:56-62 | One loop iteration appends the class centroid exactly when `mask.sum() > 0`, and otherwise leaves the list unchanged. |
| SourceCentroids.OutOfRangeLabelIgnored | skada/deep/callbacks.py:56-62 | A source row labelled outside `[0, n_classes)` contributes to no centroid. |
| SourceCentroids.EmptyStack | skada/deep/callbacks.py:64 | `torch.stack` gets an empty list iff no source label lies in `[0, n)`. |
| SourceCentroids.OneCentroidPerClass | skada/deep/callbacks.py:53-68 | At most `n_classes` centroids are emitted. Exactly `n_classes` are emitted iff every source label lies in `[0, n_classes)`; otherwise the clusterer gets fewer initial centroids than `n_clusters`. |
| SourceCentroids.SkippedClassExample | skada/deep/callbacks.py:53-62 | Source labels `[0, 0, 2]` give `n_classes = 2` but only one centroid, for class 0. |
| SourceCentroids.CollectCentroids | skada/deep/callbacks.py:53-62 | The `for c in range(n_classes)` loop produces exactly `CentroidSeq`, with the loop invariant that after class `c` the list holds the centroids of the classes before `c`. |
| SourceCentroids.ComputeSourceCentroids.OnEpochBegin | skada/deep/callbacks.py:32-75 | Fails with an empty stack iff no centroid was emitted, and then leaves `target_kmeans` unchanged. Otherwise it stores a new clusterer with `n_clusters = n_classes`, `random_state = 0`, the emitted centroids as initial centroids, fitted on the target features. |
| Clustering.SphericalKMeans.constructor | skada/deep/callbacks.py:67-72 | The clusterer records `n_clusters`, `random_state` and `initial_centroids` and is not yet fitted. |
| Clustering.SphericalKMeans.Fit | skada/deep/callbacks.py:73 | After `fit`, the clusterer has been fitted on exactly the given target features. |
| Vectors.Normalize | skada/deep/callbacks.py:60 | `F.normalize(v, p=2)` (also line 108) keeps the row's width. Its partner `NormalizeRoundTrip` states that it divides by `max(norm, 1e-12)`. |
| Vectors.SumRows | skada/deep/callbacks.py:61 | `sum(dim=0)` of a `d`-column matrix has `d` components. Its partner `SumRowsColumn` states that each is a column sum. |
| Vectors.NormalizeRoundTrip | skada/deep/callbacks.py:60 | `F.normalize` divides by `max(norm, 1e-12)`: scaling back by the norm gives the row back when the norm is at least `1e-12`, and a zero row stays zero. |
| Vectors.SumRowsColumn | skada/deep/callbacks.py:61 | Component j of `sum(dim=0)` is the sum of column j. |
| Vectors.Softmax | skada/deep/callbacks.py:109 | Every softmax entry is positive and a non-empty row sums to one, for any positive exponential. |
| Criterion.AdaptCriterion.constructor | skada/deep/callbacks.py:122-123 | The adaptation criterion that both callbacks write: a clusterer slot (line 75) and two distinct memory arrays holding the given rows. |
| MemoryBank.ComputeMemoryBank.constructor | skada/deep/callbacks.py:85-87 | The callback stores the given momentum, 0.7 by default. |
| MemoryBank.BatchIndices | skada/deep/callbacks.py:103 | `batch_idx` has one entry per target row of the batch, and entry k is the `sample_idx` of a row whose domain id is negative. |
| MemoryBank.TargetSelectionAligned | skada/deep/callbacks.py:102-103 | `X_t` and `batch_idx` have equal length, and their k-th entries come from the same target row of the batch. |
| MemoryBank.SoftmaxRows | skada/deep/callbacks.py:109 | `F.softmax(output_t, dim=1)` is strictly positive and has one column per class. |
| MemoryBank.SquaredColumnNormalize | skada/deep/callbacks.py:110 | Each entry of `s**2 / (s**2).sum(dim=0)` is positive, its column sum is positive, and the entry is its squared value divided by that column sum. |
| MemoryBank.ColumnsSumToOne | skada/deep/callbacks.py:110 | Over a non-empty batch of positive softmax rows, every class column of `outputs_target` sums to one. |
| MemoryBank.Gather | skada/deep/callbacks.py:114 | `memory[batch_idx]` has one row per index, with negative indices counting from the end. Its partner `ScatterScaledGather` states what writing the scaled gathered rows back gives. |
| MemoryBank.Scatter | skada/deep/callbacks.py:122-123 | `memory[batch_idx] = rows` keeps the memory length, with writes taking effect in batch order. Its partners `ScatterDistinct` and `ScatterFrame` state the addressed and unaddressed rows. |
| MemoryBank.ScatterFrame | skada/deep/callbacks.py:122-123 | For any indices, repeated ones included, a row no index addresses keeps its value. |
| MemoryBank.ScatterDistinct | skada/deep/callbacks.py:122-123 | With distinct rows addressed, each addressed row holds its own written value and every other row is unchanged. |
| MemoryBank.ScatterRows | skada/deep/callbacks.py:122-123 | The in-place indexed write leaves the memory array equal to the specification `Scatter` of its old contents. |
| MemoryBank.AsWrittenUpdate | skada/deep/callbacks.py:112-123 | The update as written: gather the addressed rows, scale them by `1 - momentum`, write them back. It keeps the memory length; its partner `AsWrittenUpdateRows` states the value of every row. |
| MemoryBank.AsWrittenUpdateRows | skada/deep/callbacks.py:112-123 | As written, every row addressed by `batch_idx` becomes `(1 - momentum)` times its old value, and every other row is unchanged. |
| MemoryBank.DuplicateIndexScaledOnce | skada/deep/callbacks.py:114-123 | An index that occurs twice in `batch_idx` is scaled once, not twice, because all old rows are gathered before the write. |
| MemoryBank.NoTargetRowsNoChange | skada/deep/callbacks.py:101-123 | A batch with no target rows selects no index and leaves the memory unchanged. |
| MemoryBank.SuccessiveBatchesCompound | skada/deep/callbacks.py:112-123 | Two batches that address the same row scale it by `(1 - momentum)^2`. |
| MemoryBank.ComputeMemoryBank.OnBatchEnd | skada/deep/callbacks.py:101-123 | Succeeds iff every index is in bounds for both memories. On success both memories equal the as-written update of their old contents. On `IndexError` neither memory changes. |
| MemoryBank.EmaUpdate | skada/deep/callbacks.py:112-120 | Corrected update: gather the addressed rows, blend each with its fresh row, write them back. It keeps the memory length; its partners `EmaUpdateRows` and `EmaUpdateFrame` state its per-row value and its frame. |
| MemoryBank.EmaUpdateRows | skada/deep/callbacks.py:112-120 | Corrected update: with distinct rows, each addressed row becomes `(1 - momentum) * old + momentum * new` for its own fresh row. |
| MemoryBank.EmaUpdateFrame | skada/deep/callbacks.py:112-123 | Corrected update, for any batch including one with repeated indices: every row no index addresses is unchanged. |
| MemoryBank.ComputeMemoryBank.OnBatchEndEma | skada/deep/callbacks.py:101-123 | The corrected callback succeeds iff every index is in bounds. It then leaves both memories equal to the moving-average update with the batch's normalised features and squared-softmax outputs; on `IndexError` neither changes. |
| MemoryBank.EmaIterateConverges | skada/deep/callbacks.py:112-120 | After `n` corrected updates with the same fresh row, the distance to it is `(1 - momentum)^n` times the initial distance. |
| MemoryBank.EmaIterateComponent | skada/deep/callbacks.py:112-120 | Repeated corrected updates act on each component separately. |
| MemoryBank.EmaFixedPoint | skada/deep/callbacks.py:112-120 | A memory row equal to its fresh row is a fixed point of the corrected update. |
| MemoryBank.AsWrittenDiffersFromEma | skada/deep/callbacks.py:112-120 | With momentum 0.7, memory row `[1.0]` and fresh row `[1.0]`, the code as written stores `[0.3]`, while the moving average keeps `[1.0]`. |

## Left out

- `net._prepare_input` and the `y is None` fallback (lines 34-35) are not modelled. The labels are passed in already resolved, as integers, one per row.
- `net.predict_features` and the `net.module_` forward pass are function parameters applied row by row. This assumes each row's result depends only on that row, as it does in evaluation mode.
- The `net.module_.eval()` mode switch, `torch.no_grad()`, device placement and `torch.tensor` conversions have no effect the model can state, so they are not modelled.
- The square root in the L2 norm and the exponential in softmax are opaque function parameters. Only the exponential's positivity is assumed; nothing is assumed about the norm.
- All arithmetic is over exact reals. Floating-point rounding is not modelled.
- `SphericalKMeans`'s own fitting (its Lloyd iterations) is not part of this model. So is its behaviour when given fewer initial centroids than `n_clusters`. The model records only the constructor arguments and the fit data.
- Exceptions are results: an empty `torch.stack` and an out-of-range index return an error status. How they propagate out of the training loop is not modelled.
- MemoryBank.ComputeMemoryBank.OnBatchEndEma requires the memory rows to have the width of the fresh rows (`featureDim` and the class count). Torch would instead raise a shape error, and that path is not modelled.
- MemoryBank.ComputeMemoryBank.OnBatchEndEma writes duplicate indices in batch order, so the last one wins. Torch leaves the winner unspecified. The as-written update does not depend on this, because all values written to one row are equal.
- Concurrent or multi-device use of the memory bank is not modelled.

## Findings

| source | as written | input that shows it | evidently intended | confidence | as-written member | corrected member |
|---|---|---|---|---|---|---|
| skada/deep/callbacks.py:112-120 | Each assignment ends at the closing parenthesis on lines 114 and 119. The lines `+self.momentum * ...` (115, 120) are separate expression statements whose value is discarded. The memory row becomes `(1 - momentum) * old`, so fresh features and outputs never reach the memory, and every visit shrinks the row further. | momentum 0.7, memory row `[1.0]`, fresh row `[1.0]`: the memory becomes `[0.3]` | the moving average `(1 - momentum) * old + momentum * new`, which keeps `[1.0]` and converges to a constant fresh row | not executed | MemoryBank.AsWrittenDiffersFromEma | MemoryBank.EmaIterateConverges |
