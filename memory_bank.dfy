/**
 * `ComputeMemoryBank.on_batch_end`: after every batch, select the batch's
 * target rows and their `sample_idx`, run the network on them, and write the
 * rows of the criterion's `memory_features` and `memory_outputs` at those
 * indices.
 *
 * As written, each update statement ends after its first term, so the row
 * stored is `(1 - momentum)` times the old row and the freshly computed
 * features and outputs are discarded (`AsWrittenUpdate`). The exponential
 * moving average the surrounding code evidently intends is `EmaUpdate`.
 */
module MemoryBank {
  import opened Vectors
  import opened Masks
  import opened Criterion

  /** The default of `ComputeMemoryBank(momentum=0.7)`. */
  const DefaultMomentum: real := 0.7

  // ---------------------------------------------------------------------------
  // Target-row selection

  /** `X["sample_idx"][X["sample_domain"] < 0]` */
  function BatchIndices(domains: seq<int>, sampleIdx: seq<int>): (r: seq<int>)
    requires |domains| == |sampleIdx|
    ensures |r| == |Selected(TargetMask(domains))| <= |sampleIdx|
    ensures forall k :: 0 <= k < |r| ==>
      var p := Selected(TargetMask(domains))[k];
      domains[p] < 0 && r[k] == sampleIdx[p]
  {
    Mask(sampleIdx, TargetMask(domains))
  }

  /**
   * `X_t` and `batch_idx` are selected with the same mask: they have the same
   * length and their k-th entries come from the same target row of the batch.
   */
  lemma TargetSelectionAligned<X>(xs: seq<X>, domains: seq<int>, sampleIdx: seq<int>)
    requires |xs| == |domains| == |sampleIdx|
    ensures |Mask(xs, TargetMask(domains))| == |BatchIndices(domains, sampleIdx)|
    ensures forall k :: 0 <= k < |BatchIndices(domains, sampleIdx)| ==>
      var p := Selected(TargetMask(domains))[k];
      p < |xs| && domains[p] < 0
      && Mask(xs, TargetMask(domains))[k] == xs[p]
      && BatchIndices(domains, sampleIdx)[k] == sampleIdx[p]
  {
  }

  // ---------------------------------------------------------------------------
  // Squared-softmax column normalisation

  predicate Positive(s: seq<Vector>)
  {
    forall i, j :: 0 <= i < |s| && 0 <= j < |s[i]| ==> s[i][j] > 0.0
  }

  function Squared(s: seq<Vector>): (r: seq<Vector>)
    ensures |r| == |s|
    ensures forall k :: HasWidth(s, k) ==> HasWidth(r, k)
  {
    seq(|s|, i requires 0 <= i < |s| => seq(|s[i]|, j requires 0 <= j < |s[i]| => Square(s[i][j])))
  }

  lemma ColumnSumPositive(s: seq<Vector>, k: nat, j: nat)
    requires HasWidth(s, k) && Positive(s) && |s| > 0 && j < k
    ensures Sum(Column(Squared(s), j)) > 0.0
  {
    var col := Column(Squared(s), j);
    forall i | 0 <= i < |col| ensures col[i] > 0.0 {
      SquarePositive(s[i][j]);
    }
    SumPositive(col);
  }

  /**
   * `softmax_out**2 / (softmax_out**2).sum(dim=0)`: every entry squared and
   * divided by the sum of its column over the batch.
   */
  function SquaredColumnNormalize(s: seq<Vector>, k: nat): (r: seq<Vector>)
    requires HasWidth(s, k) && Positive(s)
    ensures |r| == |s| && HasWidth(r, k)
    ensures forall i, j :: 0 <= i < |r| && 0 <= j < k ==> r[i][j] > 0.0
    ensures forall i, j :: 0 <= i < |r| && 0 <= j < k ==>
      Sum(Column(Squared(s), j)) > 0.0 && r[i][j] == Squared(s)[i][j] / Sum(Column(Squared(s), j))
  {
    var sq := Squared(s);
    var sums := seq(k, j requires 0 <= j < k => Sum(Column(sq, j)));
    if s == [] then []
    else
      assert forall j :: 0 <= j < k ==> sums[j] > 0.0 by {
        forall j | 0 <= j < k ensures sums[j] > 0.0 {
          ColumnSumPositive(s, k, j);
        }
      }
      var r := seq(|s|, i requires 0 <= i < |s| => seq(k, j requires 0 <= j < k => sq[i][j] / sums[j]));
      assert forall i, j :: 0 <= i < |r| && 0 <= j < k ==> r[i][j] > 0.0 by {
        forall i, j | 0 <= i < |r| && 0 <= j < k ensures r[i][j] > 0.0 {
          SquarePositive(s[i][j]);
          QuotientPositive(sq[i][j], sums[j]);
          assert r[i][j] == sq[i][j] / sums[j];
        }
      }
      r
  }

  /** Over a non-empty batch, every class column of `outputs_target` sums to one. */
  lemma ColumnsSumToOne(s: seq<Vector>, k: nat, j: nat)
    requires HasWidth(s, k) && Positive(s) && |s| > 0 && j < k
    ensures Sum(Column(SquaredColumnNormalize(s, k), j)) == 1.0
  {
    var sq := Squared(s);
    var col := Column(sq, j);
    var total := Sum(col);
    ColumnSumPositive(s, k, j);
    var r := SquaredColumnNormalize(s, k);
    forall i | 0 <= i < |col| ensures Column(r, j)[i] == col[i] / total {
      assert r[i][j] == sq[i][j] / total;
    }
    SumDivide(col, Column(r, j), total);
    DivideSelf(total);
  }

  // ---------------------------------------------------------------------------
  // Index-selected gather and scatter

  /** torch's bounds check for an index into a dimension of size `n`. */
  predicate InBounds(i: int, n: nat)
  {
    -(n as int) <= i < n
  }

  predicate AllInBounds(idx: seq<int>, n: nat)
  {
    forall k :: 0 <= k < |idx| ==> InBounds(idx[k], n)
  }

  /** The row an in-bounds index addresses; a negative index counts from the end. */
  function Row(i: int, n: nat): (r: nat)
    requires InBounds(i, n)
    ensures r < n
  {
    if i < 0 then i + n else i
  }

  /** The rows a batch of indices addresses. */
  function Touched(idx: seq<int>, n: nat): set<nat>
    requires AllInBounds(idx, n)
  {
    set k | 0 <= k < |idx| :: Row(idx[k], n)
  }

  /** `memory[batch_idx]` */
  function Gather(mem: seq<Vector>, idx: seq<int>): (rows: seq<Vector>)
    requires AllInBounds(idx, |mem|)
    ensures |rows| == |idx|
  {
    seq(|idx|, k requires 0 <= k < |idx| => mem[Row(idx[k], |mem|)])
  }

  /** `memory[batch_idx] = vals`, the writes taking effect in batch order. */
  function Scatter(mem: seq<Vector>, idx: seq<int>, vals: seq<Vector>): (r: seq<Vector>)
    requires AllInBounds(idx, |mem|) && |vals| == |idx|
    ensures |r| == |mem|
  {
    if idx == [] then mem
    else
      var n := |idx| - 1;
      Scatter(mem, idx[..n], vals[..n])[Row(idx[n], |mem|) := vals[n]]
  }

  /** When distinct indices address distinct rows, each addressed row holds its own value. */
  lemma {:induction false} ScatterDistinct(mem: seq<Vector>, idx: seq<int>, vals: seq<Vector>)
    requires AllInBounds(idx, |mem|) && |vals| == |idx|
    requires forall k, l :: 0 <= k < l < |idx| ==> Row(idx[k], |mem|) != Row(idx[l], |mem|)
    ensures forall k :: 0 <= k < |idx| ==> Scatter(mem, idx, vals)[Row(idx[k], |mem|)] == vals[k]
    ensures forall r :: 0 <= r < |mem| && r !in Touched(idx, |mem|) ==> Scatter(mem, idx, vals)[r] == mem[r]
  {
    if idx != [] {
      var n := |idx| - 1;
      ScatterDistinct(mem, idx[..n], vals[..n]);
      assert Touched(idx, |mem|) == Touched(idx[..n], |mem|) + {Row(idx[n], |mem|)};
    }
  }

  /** A row no index addresses keeps its value, whatever the indices repeat. */
  lemma {:induction false} ScatterFrame(mem: seq<Vector>, idx: seq<int>, vals: seq<Vector>, r: nat)
    requires AllInBounds(idx, |mem|) && |vals| == |idx| && r < |mem| && r !in Touched(idx, |mem|)
    ensures Scatter(mem, idx, vals)[r] == mem[r]
  {
    if idx != [] {
      var n := |idx| - 1;
      assert Touched(idx, |mem|) == Touched(idx[..n], |mem|) + {Row(idx[n], |mem|)};
      ScatterFrame(mem, idx[..n], vals[..n], r);
    }
  }

  function ScaleRows(c: real, rows: seq<Vector>): (r: seq<Vector>)
    ensures |r| == |rows|
  {
    seq(|rows|, k requires 0 <= k < |rows| => Scale(c, rows[k]))
  }

  /** The in-place counterpart of `Scatter` on a memory tensor. */
  method ScatterRows(a: array<Vector>, idx: seq<int>, vals: seq<Vector>)
    requires AllInBounds(idx, a.Length) && |vals| == |idx|
    modifies a
    ensures a[..] == Scatter(old(a[..]), idx, vals)
  {
    var k := 0;
    while k < |idx|
      invariant 0 <= k <= |idx|
      invariant a[..] == Scatter(old(a[..]), idx[..k], vals[..k])
    {
      assert idx[..k + 1][..k] == idx[..k] && vals[..k + 1][..k] == vals[..k];
      a[Row(idx[k], a.Length)] := vals[k];
      k := k + 1;
    }
    assert idx[..k] == idx && vals[..k] == vals;
  }

  // ---------------------------------------------------------------------------
  // The memory update as written

  /**
   * Lines 112-123 as written: gather the addressed rows, scale them by
   * `1 - momentum`, write them back.
   */
  function AsWrittenUpdate(mem: seq<Vector>, idx: seq<int>, momentum: real): (r: seq<Vector>)
    requires AllInBounds(idx, |mem|)
    ensures |r| == |mem|
  {
    Scatter(mem, idx, ScaleRows(1.0 - momentum, Gather(mem, idx)))
  }

  lemma {:induction false} ScatterScaledGather(mem: seq<Vector>, base: seq<Vector>, idx: seq<int>, c: real)
    requires |mem| == |base| && AllInBounds(idx, |base|)
    ensures forall r :: 0 <= r < |mem| ==>
      Scatter(mem, idx, ScaleRows(c, Gather(base, idx)))[r]
        == if r in Touched(idx, |mem|) then Scale(c, base[r]) else mem[r]
  {
    if idx != [] {
      var n := |idx| - 1;
      var vals := ScaleRows(c, Gather(base, idx));
      assert vals[..n] == ScaleRows(c, Gather(base, idx[..n]));
      ScatterScaledGather(mem, base, idx[..n], c);
      var row := Row(idx[n], |mem|);
      assert Touched(idx, |mem|) == Touched(idx[..n], |mem|) + {row};
      assert vals[n] == Scale(c, base[row]);
      var prev := Scatter(mem, idx[..n], vals[..n]);
      assert Scatter(mem, idx, vals) == prev[row := vals[n]];
    }
  }

  /**
   * Every row addressed by the batch becomes `(1 - momentum)` times its old
   * value, once, however often its index occurs, because all old rows are
   * gathered before any is written; every other row is unchanged.
   */
  lemma AsWrittenUpdateRows(mem: seq<Vector>, idx: seq<int>, momentum: real)
    requires AllInBounds(idx, |mem|)
    ensures forall r :: 0 <= r < |mem| ==>
      AsWrittenUpdate(mem, idx, momentum)[r]
        == if r in Touched(idx, |mem|) then Scale(1.0 - momentum, mem[r]) else mem[r]
  {
    ScatterScaledGather(mem, mem, idx, 1.0 - momentum);
  }

  /** An index that occurs a second time in the batch changes nothing more. */
  lemma DuplicateIndexScaledOnce(mem: seq<Vector>, idx: seq<int>, momentum: real, k: nat)
    requires AllInBounds(idx, |mem|) && k < |idx|
    ensures AllInBounds(idx + [idx[k]], |mem|)
    ensures AsWrittenUpdate(mem, idx + [idx[k]], momentum) == AsWrittenUpdate(mem, idx, momentum)
  {
    var idx' := idx + [idx[k]];
    assert AllInBounds(idx', |mem|);
    assert Touched(idx', |mem|) == Touched(idx, |mem|) by {
      forall r | r in Touched(idx', |mem|) ensures r in Touched(idx, |mem|) {
        var k' :| 0 <= k' < |idx'| && r == Row(idx'[k'], |mem|);
        if k' == |idx| {
          assert idx'[k'] == idx[k];
        } else {
          assert idx'[k'] == idx[k'];
        }
      }
      forall r | r in Touched(idx, |mem|) ensures r in Touched(idx', |mem|) {
        var k' :| 0 <= k' < |idx| && r == Row(idx[k'], |mem|);
        assert idx'[k'] == idx[k'];
      }
    }
    AsWrittenUpdateRows(mem, idx, momentum);
    AsWrittenUpdateRows(mem, idx', momentum);
  }

  /** A batch with no target rows leaves the memory as it was. */
  lemma NoTargetRowsNoChange(domains: seq<int>, sampleIdx: seq<int>, mem: seq<Vector>, momentum: real)
    requires |domains| == |sampleIdx|
    requires forall i :: 0 <= i < |domains| ==> domains[i] >= 0
    ensures BatchIndices(domains, sampleIdx) == []
    ensures AsWrittenUpdate(mem, BatchIndices(domains, sampleIdx), momentum) == mem
  {
    MaskNone(sampleIdx, TargetMask(domains));
  }

  /** Scaling twice by the same factor scales by its square. */
  lemma ScaleTwice(a: real, v: Vector)
    ensures Scale(a, Scale(a, v)) == Scale(Square(a), v)
  {
    forall j | 0 <= j < |v| ensures Scale(a, Scale(a, v))[j] == Scale(Square(a), v)[j] {
      calc {
        Scale(a, Scale(a, v))[j];
      ==
        a * (a * v[j]);
      ==
        (a * a) * v[j];
      ==
        Square(a) * v[j];
      }
    }
  }

  /**
   * Two successive batches that address the same row do compound: the row is
   * scaled by `(1 - momentum)` squared.
   */
  lemma SuccessiveBatchesCompound(mem: seq<Vector>, idx: seq<int>, momentum: real, r: nat)
    requires AllInBounds(idx, |mem|) && r in Touched(idx, |mem|) && r < |mem|
    ensures AsWrittenUpdate(AsWrittenUpdate(mem, idx, momentum), idx, momentum)[r]
         == Scale(Square(1.0 - momentum), mem[r])
  {
    var once := AsWrittenUpdate(mem, idx, momentum);
    AsWrittenUpdateRows(mem, idx, momentum);
    assert once[r] == Scale(1.0 - momentum, mem[r]);
    assert |once| == |mem|;
    AsWrittenUpdateRows(once, idx, momentum);
    assert AsWrittenUpdate(once, idx, momentum)[r] == Scale(1.0 - momentum, once[r]);
    ScaleTwice(1.0 - momentum, mem[r]);
  }

  // ---------------------------------------------------------------------------
  // The exponential moving average the code evidently intends

  /** `(1 - momentum) * old + momentum * new` */
  function Blend(momentum: real, prev: Vector, next: Vector): (r: Vector)
    requires |prev| == |next|
    ensures |r| == |prev|
  {
    seq(|prev|, j requires 0 <= j < |prev| => (1.0 - momentum) * prev[j] + momentum * next[j])
  }

  function BlendRows(momentum: real, olds: seq<Vector>, news: seq<Vector>): (r: seq<Vector>)
    requires |olds| == |news| && forall k :: 0 <= k < |olds| ==> |olds[k]| == |news[k]|
    ensures |r| == |olds|
  {
    seq(|olds|, k requires 0 <= k < |olds| => Blend(momentum, olds[k], news[k]))
  }

  predicate FreshRowsFit(mem: seq<Vector>, idx: seq<int>, newRows: seq<Vector>)
    requires AllInBounds(idx, |mem|)
  {
    |newRows| == |idx| && forall k :: 0 <= k < |idx| ==> |newRows[k]| == |mem[Row(idx[k], |mem|)]|
  }

  /** The intended update: each addressed row blended with the batch's fresh row. */
  function EmaUpdate(mem: seq<Vector>, idx: seq<int>, newRows: seq<Vector>, momentum: real): (r: seq<Vector>)
    requires AllInBounds(idx, |mem|) && FreshRowsFit(mem, idx, newRows)
    ensures |r| == |mem|
  {
    Scatter(mem, idx, BlendRows(momentum, Gather(mem, idx), newRows))
  }

  /**
   * With distinct addressed rows, each becomes `(1 - momentum) * old +
   * momentum * new` for its own fresh row.
   */
  lemma EmaUpdateRows(mem: seq<Vector>, idx: seq<int>, newRows: seq<Vector>, momentum: real)
    requires AllInBounds(idx, |mem|) && FreshRowsFit(mem, idx, newRows)
    requires forall k, l :: 0 <= k < l < |idx| ==> Row(idx[k], |mem|) != Row(idx[l], |mem|)
    ensures forall k :: 0 <= k < |idx| ==>
      EmaUpdate(mem, idx, newRows, momentum)[Row(idx[k], |mem|)]
        == Blend(momentum, mem[Row(idx[k], |mem|)], newRows[k])
  {
    ScatterDistinct(mem, idx, BlendRows(momentum, Gather(mem, idx), newRows));
  }

  /** For any batch, repeated indices included, every row it does not address is unchanged. */
  lemma EmaUpdateFrame(mem: seq<Vector>, idx: seq<int>, newRows: seq<Vector>, momentum: real)
    requires AllInBounds(idx, |mem|) && FreshRowsFit(mem, idx, newRows)
    ensures forall r :: 0 <= r < |mem| && r !in Touched(idx, |mem|) ==>
      EmaUpdate(mem, idx, newRows, momentum)[r] == mem[r]
  {
    forall r | 0 <= r < |mem| && r !in Touched(idx, |mem|)
      ensures EmaUpdate(mem, idx, newRows, momentum)[r] == mem[r]
    {
      ScatterFrame(mem, idx, BlendRows(momentum, Gather(mem, idx), newRows), r);
    }
  }

  function Pow(x: real, n: nat): real
  {
    if n == 0 then 1.0 else x * Pow(x, n - 1)
  }

  /** `n` updates of a row with the same fresh row `v1`. */
  function EmaIterate(momentum: real, v0: Vector, v1: Vector, n: nat): (r: Vector)
    requires |v0| == |v1|
    ensures |r| == |v0|
  {
    if n == 0 then v0 else Blend(momentum, EmaIterate(momentum, v0, v1, n - 1), v1)
  }

  /** One component of `EmaIterate`. */
  function EmaIterateAt(momentum: real, a: real, b: real, n: nat): real
  {
    if n == 0 then a else (1.0 - momentum) * EmaIterateAt(momentum, a, b, n - 1) + momentum * b
  }

  /** The updates act on each component separately. */
  lemma {:induction false} EmaIterateComponent(momentum: real, v0: Vector, v1: Vector, n: nat, j: nat)
    requires |v0| == |v1| && j < |v0|
    ensures EmaIterate(momentum, v0, v1, n)[j] == EmaIterateAt(momentum, v0[j], v1[j], n)
  {
    if n > 0 {
      EmaIterateComponent(momentum, v0, v1, n - 1, j);
    }
  }

  /**
   * After `n` updates with the same fresh row, the distance to it has shrunk
   * by `(1 - momentum)^n`: for `0 < momentum <= 1` the row converges to it.
   */
  lemma EmaIterateConverges(momentum: real, v0: Vector, v1: Vector, n: nat, j: nat)
    requires |v0| == |v1| && j < |v0|
    ensures EmaIterate(momentum, v0, v1, n)[j] - v1[j] == Pow(1.0 - momentum, n) * (v0[j] - v1[j])
  {
    EmaIterateComponent(momentum, v0, v1, n, j);
    EmaIterateAtConverges(momentum, v0[j], v1[j], n);
  }

  /** `x` lies `p * gap` above `target`. */
  predicate GapIs(x: real, target: real, p: real, gap: real)
  {
    x - target == p * gap
  }

  lemma EmaIterateAtConverges(momentum: real, a: real, b: real, n: nat)
    ensures EmaIterateAt(momentum, a, b, n) - b == Pow(1.0 - momentum, n) * (a - b)
  {
    EmaIterateAtGap(momentum, a, b, n);
  }

  lemma {:induction false} EmaIterateAtGap(momentum: real, a: real, b: real, n: nat)
    ensures GapIs(EmaIterateAt(momentum, a, b, n), b, Pow(1.0 - momentum, n), a - b)
  {
    if n > 0 {
      EmaIterateAtGap(momentum, a, b, n - 1);
      BlendStep(momentum, EmaIterateAt(momentum, a, b, n - 1), b, EmaIterateAt(momentum, a, b, n),
                Pow(1.0 - momentum, n - 1), Pow(1.0 - momentum, n), a - b);
    }
  }

  /** One blend shrinks the gap to the target by the factor `1 - momentum`. */
  lemma BlendStep(momentum: real, prev: real, target: real, next: real, p: real, q: real, gap: real)
    requires GapIs(prev, target, p, gap)
    requires next == (1.0 - momentum) * prev + momentum * target
    requires q == (1.0 - momentum) * p
    ensures GapIs(next, target, q, gap)
  {
    calc {
      next - target;
    ==
      (1.0 - momentum) * (prev - target);
    ==
      (1.0 - momentum) * (p * gap);
    ==
      ((1.0 - momentum) * p) * gap;
    ==
      q * gap;
    }
  }

  /** A row equal to its fresh row is a fixed point of the intended update. */
  lemma EmaFixedPoint(momentum: real, v: Vector)
    ensures Blend(momentum, v, v) == v
  {
    forall j | 0 <= j < |v| ensures Blend(momentum, v, v)[j] == v[j] {
      assert (1.0 - momentum) * v[j] + momentum * v[j] == v[j];
    }
  }

  /**
   * The as-written update and the intended one disagree: with momentum 0.7, a
   * memory row [1.0] and a fresh row [1.0], the code stores [0.3] where the
   * moving average keeps [1.0].
   */
  lemma AsWrittenDiffersFromEma()
    ensures AsWrittenUpdate([[1.0]], [0], DefaultMomentum) == [[0.3]]
    ensures EmaUpdate([[1.0]], [0], [[1.0]], DefaultMomentum) == [[1.0]]
  {
    var mem: seq<Vector> := [[1.0]];
    AsWrittenUpdateRows(mem, [0], DefaultMomentum);
    assert Touched([0], 1) == {0};
    assert Scale(1.0 - DefaultMomentum, [1.0]) == [0.3];
    EmaUpdateRows(mem, [0], [[1.0]], DefaultMomentum);
    EmaFixedPoint(DefaultMomentum, [1.0]);
  }

  // ---------------------------------------------------------------------------
  // The callback

  /** `net.module_(X, return_features=True)` for one row. */
  datatype ModuleOutput = ModuleOutput(output: Vector, features: Vector)

  datatype BatchStatus =
    | Updated
      /** An index of `batch_idx` is out of bounds for a memory tensor. */
    | IndexError

  class ComputeMemoryBank {
    const momentum: real

    constructor (momentum: real := DefaultMomentum)
      ensures this.momentum == momentum
    {
      this.momentum := momentum;
    }

    /**
     * `on_batch_end(net, batch)` as written: `xs`, `domains` and `sampleIdx`
     * are the batch's `X["X"]`, `X["sample_domain"]` and `X["sample_idx"]`;
     * `forwardPass` is the network's forward pass in evaluation mode, one row at
     * a time.
     */
    method OnBatchEnd<X>(xs: seq<X>, domains: seq<int>, sampleIdx: seq<int>,
                         forwardPass: X -> ModuleOutput, numClasses: nat,
                         norm: Vector -> real, exp: real -> real,
                         criterion: AdaptCriterion)
      returns (status: BatchStatus)
      requires |xs| == |domains| == |sampleIdx|
      requires forall x :: |forwardPass(x).output| == numClasses
      requires forall t :: exp(t) > 0.0
      requires criterion.Valid()
      modifies criterion.memoryFeatures, criterion.memoryOutputs
      ensures var idx := BatchIndices(domains, sampleIdx);
              && (status == Updated <==>
                    AllInBounds(idx, criterion.memoryFeatures.Length)
                    && AllInBounds(idx, criterion.memoryOutputs.Length))
              && (status == Updated ==>
                    && criterion.memoryFeatures[..]
                       == AsWrittenUpdate(old(criterion.memoryFeatures[..]), idx, momentum)
                    && criterion.memoryOutputs[..]
                       == AsWrittenUpdate(old(criterion.memoryOutputs[..]), idx, momentum))
              && (status == IndexError ==>
                    unchanged(criterion.memoryFeatures) && unchanged(criterion.memoryOutputs))
    {
      var targetMask := TargetMask(domains);
      var xT := Mask(xs, targetMask);
      var batchIdx := Mask(sampleIdx, targetMask);

      var forward := seq(|xT|, i requires 0 <= i < |xT| => forwardPass(xT[i]));
      var featuresT := NormalizeRows(seq(|forward|, i requires 0 <= i < |forward| => forward[i].features), norm);
      var softmaxOut := SoftmaxRows(forward, numClasses, exp);
      var outputsTarget := SquaredColumnNormalize(softmaxOut, numClasses);

      var memoryFeatures := criterion.memoryFeatures;
      var memoryOutputs := criterion.memoryOutputs;
      if !AllInBounds(batchIdx, memoryFeatures.Length) {
        return IndexError;
      }
      var newMemoryFeatures := ScaleRows(1.0 - momentum, Gather(memoryFeatures[..], batchIdx));
      // Line 115 is a separate expression statement; its value is discarded.
      var droppedFeatures := ScaleRows(momentum, featuresT);
      if !AllInBounds(batchIdx, memoryOutputs.Length) {
        return IndexError;
      }
      var newMemoryOutputs := ScaleRows(1.0 - momentum, Gather(memoryOutputs[..], batchIdx));
      // Line 120 is a separate expression statement; its value is discarded.
      var droppedOutputs := ScaleRows(momentum, outputsTarget);

      ScatterRows(memoryFeatures, batchIdx, newMemoryFeatures);
      ScatterRows(memoryOutputs, batchIdx, newMemoryOutputs);
      status := Updated;
    }

    /**
     * The same callback with the moving average the code evidently intends:
     * each addressed memory row is blended with the batch's normalised
     * features and squared-softmax outputs.
     */
    method OnBatchEndEma<X(!new)>(xs: seq<X>, domains: seq<int>, sampleIdx: seq<int>,
                            forwardPass: X -> ModuleOutput, numClasses: nat, featureDim: nat,
                            norm: Vector -> real, exp: real -> real,
                            criterion: AdaptCriterion)
      returns (status: BatchStatus)
      requires |xs| == |domains| == |sampleIdx|
      requires forall x :: |forwardPass(x).output| == numClasses && |forwardPass(x).features| == featureDim
      requires forall t :: exp(t) > 0.0
      requires criterion.Valid()
      requires HasWidth(criterion.memoryFeatures[..], featureDim)
      requires HasWidth(criterion.memoryOutputs[..], numClasses)
      modifies criterion.memoryFeatures, criterion.memoryOutputs
      ensures var idx := BatchIndices(domains, sampleIdx);
              var xT := Mask(xs, TargetMask(domains));
              && (status == Updated <==>
                    AllInBounds(idx, criterion.memoryFeatures.Length)
                    && AllInBounds(idx, criterion.memoryOutputs.Length))
              && (status == Updated ==>
                    && FreshRowsFit(old(criterion.memoryFeatures[..]), idx, TargetFeatures(xT, forwardPass, norm))
                    && FreshRowsFit(old(criterion.memoryOutputs[..]), idx, TargetOutputs(xT, forwardPass, numClasses, exp))
                    && criterion.memoryFeatures[..]
                       == EmaUpdate(old(criterion.memoryFeatures[..]), idx, TargetFeatures(xT, forwardPass, norm), momentum)
                    && criterion.memoryOutputs[..]
                       == EmaUpdate(old(criterion.memoryOutputs[..]), idx, TargetOutputs(xT, forwardPass, numClasses, exp), momentum))
              && (status == IndexError ==>
                    unchanged(criterion.memoryFeatures) && unchanged(criterion.memoryOutputs))
    {
      var xT := Mask(xs, TargetMask(domains));
      var batchIdx := Mask(sampleIdx, TargetMask(domains));
      var featuresT := TargetFeatures(xT, forwardPass, norm);
      var outputsTarget := TargetOutputs(xT, forwardPass, numClasses, exp);

      var memoryFeatures := criterion.memoryFeatures;
      var memoryOutputs := criterion.memoryOutputs;
      if !AllInBounds(batchIdx, memoryFeatures.Length) || !AllInBounds(batchIdx, memoryOutputs.Length) {
        return IndexError;
      }
      var newMemoryFeatures := BlendRows(momentum, Gather(memoryFeatures[..], batchIdx), featuresT);
      var newMemoryOutputs := BlendRows(momentum, Gather(memoryOutputs[..], batchIdx), outputsTarget);
      ScatterRows(memoryFeatures, batchIdx, newMemoryFeatures);
      ScatterRows(memoryOutputs, batchIdx, newMemoryOutputs);
      status := Updated;
    }
  }

  /** `F.softmax(output_t, dim=1)` */
  function SoftmaxRows(forward: seq<ModuleOutput>, numClasses: nat, exp: real -> real): (s: seq<Vector>)
    requires forall i :: 0 <= i < |forward| ==> |forward[i].output| == numClasses
    requires forall t :: exp(t) > 0.0
    ensures |s| == |forward| && HasWidth(s, numClasses) && Positive(s)
  {
    seq(|forward|, i requires 0 <= i < |forward| => Softmax(exp, forward[i].output))
  }

  /** `F.normalize(features_t)` for the target rows. */
  function TargetFeatures<X>(xT: seq<X>, forwardPass: X -> ModuleOutput, norm: Vector -> real): (r: seq<Vector>)
    ensures |r| == |xT|
  {
    NormalizeRows(seq(|xT|, i requires 0 <= i < |xT| => forwardPass(xT[i]).features), norm)
  }

  /** `outputs_target` for the target rows. */
  function TargetOutputs<X(!new)>(xT: seq<X>, forwardPass: X -> ModuleOutput, numClasses: nat, exp: real -> real): (r: seq<Vector>)
    requires forall x :: |forwardPass(x).output| == numClasses
    requires forall t :: exp(t) > 0.0
    ensures |r| == |xT| && HasWidth(r, numClasses)
  {
    var forward := seq(|xT|, i requires 0 <= i < |xT| => forwardPass(xT[i]));
    SquaredColumnNormalize(SoftmaxRows(forward, numClasses, exp), numClasses)
  }
}
