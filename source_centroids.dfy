/**
 * `ComputeSourceCentroids.on_epoch_begin`: at the start of every epoch, split
 * the training rows by domain sign, sum the normalised source features of
 * each class id in `[0, n_classes)` that has source rows, seed a spherical
 * k-means clusterer with these sums, fit it on the target features and
 * publish it on the adaptation criterion.
 */
module SourceCentroids {
  import opened Vectors
  import opened Masks
  import opened Clustering
  import opened Criterion

  /** `len(y_s.unique())`: the number of distinct source labels. */
  function NumClasses(ys: seq<int>): (r: nat)
    ensures r <= |ys|
    ensures r == 0 <==> ys == []
  {
    CardBound(ys);
    |set l | l in ys|
  }

  /** A sequence has at most as many distinct elements as it is long, and at least one when non-empty. */
  lemma {:induction false} CardBound(ys: seq<int>)
    ensures |set l | l in ys| <= |ys|
    ensures ys != [] ==> |set l | l in ys| > 0
  {
    if ys != [] {
      var n := |ys| - 1;
      CardBound(ys[..n]);
      assert (set l | l in ys) == (set l | l in ys[..n]) + {ys[n]};
    }
  }

  /** `y_s == c` */
  function ClassMask(ys: seq<int>, c: int): (m: seq<bool>)
    ensures |m| == |ys|
  {
    seq(|ys|, i requires 0 <= i < |ys| => ys[i] == c)
  }

  /** `mask.sum() > 0` holds exactly for the labels that occur among the source rows. */
  lemma ClassPresent(ys: seq<int>, c: int)
    ensures |Selected(ClassMask(ys, c))| > 0 <==> c in ys
  {
    var m := ClassMask(ys, c);
    if c in ys {
      var i :| 0 <= i < |ys| && ys[i] == c;
      assert m[i];
    }
    if |Selected(m)| > 0 {
      var p := Selected(m)[0];
      assert m[p] && ys[p] == c;
    }
  }

  /** Selecting rows of a `d`-column matrix gives a `d`-column matrix. */
  lemma MaskedWidth(fs: seq<Vector>, m: seq<bool>, d: nat)
    requires |fs| == |m| && HasWidth(fs, d)
    ensures HasWidth(Mask(fs, m), d)
  {
    var rows := Mask(fs, m);
    forall k | 0 <= k < |rows| ensures |rows[k]| == d {
      assert rows[k] == fs[Selected(m)[k]];
    }
  }

  /** The feature extractor applied row by row. */
  function Features<X>(xs: seq<X>, predictFeatures: X -> Vector): (fs: seq<Vector>)
    ensures |fs| == |xs|
  {
    seq(|xs|, i requires 0 <= i < |xs| => predictFeatures(xs[i]))
  }

  /**
   * The centroid of class `c`: `F.normalize(features_s[y_s == c]).sum(dim=0)`,
   * a sum over the class's rows, not a mean.
   */
  function ClassCentroid(fs: seq<Vector>, ys: seq<int>, c: int, d: nat, norm: Vector -> real): (r: Vector)
    requires |fs| == |ys| && HasWidth(fs, d)
    ensures |r| == d
  {
    MaskedWidth(fs, ClassMask(ys, c), d);
    SumRows(NormalizeRows(Mask(fs, ClassMask(ys, c)), norm), d)
  }

  /**
   * Adding one source row changes only the centroid of the row's own class,
   * and changes it by adding the row's normalised features: the centroid
   * grows with the class size.
   */
  lemma ClassCentroidAppend(fs: seq<Vector>, ys: seq<int>, f: Vector, l: int, c: int, d: nat, norm: Vector -> real)
    requires |fs| == |ys| && HasWidth(fs, d) && |f| == d
    ensures HasWidth(fs + [f], d)
    ensures ClassCentroid(fs + [f], ys + [l], c, d, norm)
         == if l == c then Add(ClassCentroid(fs, ys, c, d, norm), Normalize(f, norm))
            else ClassCentroid(fs, ys, c, d, norm)
  {
    var fs', ys' := fs + [f], ys + [l];
    assert HasWidth(fs', d);
    var m := ClassMask(ys, c);
    assert ClassMask(ys', c) == m + [l == c];
    MaskAppend(fs, m, f, l == c);
    var rows := Mask(fs, m);
    MaskedWidth(fs, m, d);
    var nr := NormalizeRows(rows, norm);
    assert ClassCentroid(fs, ys, c, d, norm) == SumRows(nr, d);
    if l == c {
      NormalizeRowsAppend(rows, f, norm);
      SumRowsAppend(nr, Normalize(f, norm), d);
      assert ClassCentroid(fs', ys', c, d, norm) == SumRows(NormalizeRows(rows + [f], norm), d);
    } else {
      assert Mask(fs', ClassMask(ys', c)) == rows;
    }
  }

  lemma NormalizeRowsAppend(rows: seq<Vector>, f: Vector, norm: Vector -> real)
    ensures NormalizeRows(rows + [f], norm) == NormalizeRows(rows, norm) + [Normalize(f, norm)]
  {
  }

  /** Changing the features of a row labelled differently leaves the class centroid as it was. */
  lemma ClassCentroidIgnoresOtherRows(fs: seq<Vector>, ys: seq<int>, c: int, d: nat, norm: Vector -> real, i: nat, g: Vector)
    requires |fs| == |ys| && HasWidth(fs, d) && i < |fs| && ys[i] != c && |g| == d
    ensures HasWidth(fs[i := g], d)
    ensures ClassCentroid(fs[i := g], ys, c, d, norm) == ClassCentroid(fs, ys, c, d, norm)
  {
    MaskIgnoresUnselected(fs, ClassMask(ys, c), i, g);
  }

  /**
   * The class ids `c` in `[0, n)` that have at least one source row, in
   * increasing order: the classes the loop emits a centroid for.
   */
  function EmittedClasses(ys: seq<int>, n: nat): (r: seq<int>)
    ensures |r| <= n
    ensures forall c: int :: c in r <==> 0 <= c < n && c in ys
    ensures forall i, j :: 0 <= i < j < |r| ==> r[i] < r[j]
  {
    if n == 0 then []
    else
      var r := EmittedClasses(ys, n - 1);
      assert forall i :: 0 <= i < |r| ==> r[i] in r;
      r + (if n - 1 in ys then [n - 1] else [])
  }

  /**
   * The list the loop builds over the classes `[0, n)`: `centroid(c)` for
   * every class `c` that occurs in `ys`, in class order.
   */
  function Stack(ys: seq<int>, n: nat, centroid: int -> Vector): (r: seq<Vector>)
    ensures |r| <= n
  {
    if n == 0 then []
    else Stack(ys, n - 1, centroid) + (if n - 1 in ys then [centroid(n - 1)] else [])
  }

  /** The k-th stacked entry belongs to the k-th emitted class. */
  lemma {:induction false} StackClasses(ys: seq<int>, n: nat, centroid: int -> Vector)
    ensures |Stack(ys, n, centroid)| == |EmittedClasses(ys, n)|
    ensures forall k :: 0 <= k < |EmittedClasses(ys, n)| ==>
      Stack(ys, n, centroid)[k] == centroid(EmittedClasses(ys, n)[k])
  {
    if n > 0 {
      StackClasses(ys, n - 1, centroid);
      var e0, e1 := EmittedClasses(ys, n - 1), EmittedClasses(ys, n);
      var s0, s1 := Stack(ys, n - 1, centroid), Stack(ys, n, centroid);
      if n - 1 in ys {
        assert e1 == e0 + [n - 1] && s1 == s0 + [centroid(n - 1)];
        forall k | 0 <= k < |e1| ensures s1[k] == centroid(e1[k]) {
          if k < |e0| {
            assert e1[k] == e0[k] && s1[k] == s0[k];
          }
        }
      } else {
        assert e1 == e0 && s1 == s0;
      }
    }
  }

  /** Two centroid functions that agree on the emitted classes stack the same list. */
  lemma {:induction false} StackAgrees(ys: seq<int>, n: nat, f: int -> Vector, g: int -> Vector)
    requires forall c :: 0 <= c < n && c in ys ==> f(c) == g(c)
    ensures Stack(ys, n, f) == Stack(ys, n, g)
  {
    if n > 0 {
      StackAgrees(ys, n - 1, f, g);
    }
  }

  /** `source_centroids` after the loop has visited the classes `[0, n)`. */
  function CentroidSeq(fs: seq<Vector>, ys: seq<int>, n: nat, d: nat, norm: Vector -> real): (r: seq<Vector>)
    requires |fs| == |ys| && HasWidth(fs, d)
    ensures |r| <= n
  {
    Stack(ys, n, c => ClassCentroid(fs, ys, c, d, norm))
  }

  /** The stack holds one centroid per emitted class, in class order. */
  lemma CentroidSeqClasses(fs: seq<Vector>, ys: seq<int>, n: nat, d: nat, norm: Vector -> real)
    requires |fs| == |ys| && HasWidth(fs, d)
    ensures |CentroidSeq(fs, ys, n, d, norm)| == |EmittedClasses(ys, n)| <= n
    ensures forall k :: 0 <= k < |EmittedClasses(ys, n)| ==>
      CentroidSeq(fs, ys, n, d, norm)[k] == ClassCentroid(fs, ys, EmittedClasses(ys, n)[k], d, norm)
  {
    StackClasses(ys, n, c => ClassCentroid(fs, ys, c, d, norm));
  }

  /**
   * `torch.stack` receives an empty list exactly when no source label lies in
   * `[0, n)`; in particular when there are no source rows at all.
   */
  lemma EmptyStack(fs: seq<Vector>, ys: seq<int>, n: nat, d: nat, norm: Vector -> real)
    requires |fs| == |ys| && HasWidth(fs, d)
    ensures CentroidSeq(fs, ys, n, d, norm) == [] <==> forall c: int :: 0 <= c < n ==> c !in ys
  {
    CentroidSeqClasses(fs, ys, n, d, norm);
    var e := EmittedClasses(ys, n);
    if e != [] {
      assert e[0] in e;
    }
  }

  /** One iteration of the loop: class `c` contributes its centroid exactly when `mask.sum() > 0`. */
  lemma LoopStep(fs: seq<Vector>, ys: seq<int>, c: nat, d: nat, norm: Vector -> real)
    requires |fs| == |ys| && HasWidth(fs, d)
    ensures CentroidSeq(fs, ys, c + 1, d, norm)
         == CentroidSeq(fs, ys, c, d, norm)
            + (if |Selected(ClassMask(ys, c))| > 0 then [ClassCentroid(fs, ys, c, d, norm)] else [])
  {
    ClassPresent(ys, c);
  }

  /** A row whose label lies outside `[0, n)` never contributes to any centroid. */
  lemma OutOfRangeLabelIgnored(fs: seq<Vector>, ys: seq<int>, n: nat, d: nat, norm: Vector -> real, i: nat, g: Vector)
    requires |fs| == |ys| && HasWidth(fs, d) && i < |fs| && |g| == d
    requires ys[i] < 0 || ys[i] >= n
    ensures HasWidth(fs[i := g], d)
    ensures CentroidSeq(fs[i := g], ys, n, d, norm) == CentroidSeq(fs, ys, n, d, norm)
  {
    var fs' := fs[i := g];
    assert HasWidth(fs', d);
    forall c | 0 <= c < n && c in ys
      ensures ClassCentroid(fs', ys, c, d, norm) == ClassCentroid(fs, ys, c, d, norm)
    {
      ClassCentroidIgnoresOtherRows(fs, ys, c, d, norm, i, g);
    }
    StackAgrees(ys, n, c => ClassCentroid(fs', ys, c, d, norm), c => ClassCentroid(fs, ys, c, d, norm));
  }

  /** A strictly increasing sequence has as many distinct elements as it is long. */
  lemma {:induction false} IncreasingCard(s: seq<int>)
    requires forall i, j :: 0 <= i < j < |s| ==> s[i] < s[j]
    ensures |set x | x in s| == |s|
  {
    if s != [] {
      var n := |s| - 1;
      IncreasingCard(s[..n]);
      assert (set x | x in s) == (set x | x in s[..n]) + {s[n]};
      assert s[n] !in (set x | x in s[..n]);
    }
  }

  lemma SubsetSameCard(a: set<int>, b: set<int>)
    requires a <= b && |a| == |b|
    ensures a == b
  {
    assert a + (b - a) == b;
    assert a * (b - a) == {};
    assert |b - a| == 0;
  }

  lemma LabelsInRange(ys: seq<int>, n: nat)
    requires forall l: int :: l in ys ==> 0 <= l < n
    ensures (set l: int | l in ys && 0 <= l < n) == (set l | l in ys)
  {
    var labels := set l | l in ys;
    var inRange := set l: int | l in ys && 0 <= l < n;
    forall l | l in labels ensures l in inRange {
      assert l in ys;
    }
  }

  /**
   * With `n_classes` distinct source labels, the loop emits exactly
   * `n_classes` centroids if and only if every source label lies in
   * `[0, n_classes)`; otherwise it emits fewer than the clusterer's
   * `n_clusters`.
   */
  lemma OneCentroidPerClass(ys: seq<int>)
    ensures |EmittedClasses(ys, NumClasses(ys))| <= NumClasses(ys)
    ensures |EmittedClasses(ys, NumClasses(ys))| == NumClasses(ys)
        <==> forall l: int :: l in ys ==> 0 <= l < NumClasses(ys)
  {
    var n := NumClasses(ys);
    var e := EmittedClasses(ys, n);
    var labels := set l | l in ys;
    var inRange := set l: int | l in ys && 0 <= l < n;
    var emitted := set c | c in e;
    IncreasingCard(e);
    assert emitted == inRange;
    if forall l: int :: l in ys ==> 0 <= l < n {
      LabelsInRange(ys, n);
    }
    if |e| == n {
      SubsetSameCard(inRange, labels);
      assert forall l: int :: l in ys ==> l in inRange;
    }
  }

  /**
   * Labels {0, 2}: two distinct classes, yet class 1 has no rows and class 2
   * is out of range, so a single centroid is emitted for a two-cluster
   * clusterer.
   */
  lemma SkippedClassExample()
    ensures NumClasses([0, 0, 2]) == 2
    ensures EmittedClasses([0, 0, 2], 2) == [0]
  {
    var ys := [0, 0, 2];
    assert (set l | l in ys) == {0, 2} by {
      assert ys[0] == 0 && ys[2] == 2;
    }
    assert 1 !in ys;
  }

  /** The `for c in range(n_classes)` loop that collects `source_centroids`. */
  method CollectCentroids(fs: seq<Vector>, ys: seq<int>, n: nat, d: nat, norm: Vector -> real)
    returns (centroids: seq<Vector>)
    requires |fs| == |ys| && HasWidth(fs, d)
    ensures centroids == CentroidSeq(fs, ys, n, d, norm)
  {
    centroids := [];
    var c := 0;
    while c < n
      invariant 0 <= c <= n
      invariant centroids == CentroidSeq(fs, ys, c, d, norm)
    {
      var mask := ClassMask(ys, c);
      LoopStep(fs, ys, c, d, norm);
      if |Selected(mask)| > 0 {
        var centroid := ClassCentroid(fs, ys, c, d, norm);
        centroids := centroids + [centroid];
      }
      c := c + 1;
    }
  }

  datatype EpochStatus =
    | Published
      /** `torch.stack` of an empty list: no class produced a centroid. */
    | EmptyCentroidStack

  class ComputeSourceCentroids {
    constructor ()
    {
    }

    /**
     * `on_epoch_begin(net, dataset_train)`: `xs`, `domains` and `y` are the
     * dataset's `X["X"]`, `X["sample_domain"]` and labels; `predictFeatures`
     * is `net.predict_features` applied per row.
     */
    method OnEpochBegin<X>(xs: seq<X>, domains: seq<int>, y: seq<int>,
                           predictFeatures: X -> Vector, d: nat, norm: Vector -> real,
                           criterion: AdaptCriterion)
      returns (status: EpochStatus)
      requires |xs| == |domains| == |y|
      requires forall x :: |predictFeatures(x)| == d
      modifies criterion`targetKMeans
      ensures var fs := Features(Mask(xs, SourceMask(domains)), predictFeatures);
              var ys := Mask(y, SourceMask(domains));
              HasWidth(fs, d) && |fs| == |ys| &&
              var centroids := CentroidSeq(fs, ys, NumClasses(ys), d, norm);
              && (status == EmptyCentroidStack <==> centroids == [])
              && (status == EmptyCentroidStack ==> criterion.targetKMeans == old(criterion.targetKMeans))
              && (status == Published ==>
                    && criterion.targetKMeans != null
                    && fresh(criterion.targetKMeans)
                    && criterion.targetKMeans.nClusters == NumClasses(ys)
                    && criterion.targetKMeans.randomState == 0
                    && criterion.targetKMeans.initialCentroids == centroids
                    && criterion.targetKMeans.fittedOn
                       == Some(Features(Mask(xs, TargetMask(domains)), predictFeatures)))
    {
      var xS := Mask(xs, SourceMask(domains));
      var yS := Mask(y, SourceMask(domains));
      var xT := Mask(xs, TargetMask(domains));
      var featuresS := Features(xS, predictFeatures);
      var featuresT := Features(xT, predictFeatures);
      assert HasWidth(featuresS, d) by {
        forall i | 0 <= i < |featuresS| ensures |featuresS[i]| == d {
          var x := xS[i];
          assert featuresS[i] == predictFeatures(x);
        }
      }
      var nClasses := NumClasses(yS);
      var sourceCentroids := CollectCentroids(featuresS, yS, nClasses, d, norm);
      assert sourceCentroids == CentroidSeq(featuresS, yS, nClasses, d, norm);
      if |sourceCentroids| == 0 {
        return EmptyCentroidStack;
      }
      var targetKMeans := new SphericalKMeans(nClasses, 0, sourceCentroids);
      targetKMeans.Fit(featuresT);
      criterion.targetKMeans := targetKMeans;
      status := Published;
    }
  }
}
