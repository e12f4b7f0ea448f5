/**
 * Boolean-mask row selection (`t[mask]` on a tensor) and the domain masks
 * both callbacks build from `sample_domain`: a row with a non-negative domain
 * id is a source row, a row with a negative one is a target row.
 */
module Masks {

  /** The positions where `m` is true, in increasing order. */
  function Selected(m: seq<bool>): (r: seq<nat>)
    ensures |r| <= |m|
    ensures forall k :: 0 <= k < |r| ==> r[k] < |m| && m[r[k]]
    ensures forall i :: 0 <= i < |m| && m[i] ==> i in r
    ensures forall k, l :: 0 <= k < l < |r| ==> r[k] < r[l]
  {
    if m == [] then [] else Selected(m[..|m| - 1]) + (if m[|m| - 1] then [|m| - 1] else [])
  }

  /**
   * `v[m]`: the elements of `v` at the positions where `m` is true, in their
   * original order. Two sequences selected with the same mask stay aligned:
   * their k-th elements come from the same position `Selected(m)[k]`.
   */
  function Mask<T>(v: seq<T>, m: seq<bool>): (r: seq<T>)
    requires |v| == |m|
    ensures |r| == |Selected(m)|
    ensures forall k :: 0 <= k < |r| ==> r[k] == v[Selected(m)[k]]
  {
    if v == [] then [] else Mask(v[..|v| - 1], m[..|m| - 1]) + (if m[|m| - 1] then [v[|v| - 1]] else [])
  }

  /** Appending one row and its mask bit appends the row to the selection exactly when the bit is set. */
  lemma MaskAppend<T>(v: seq<T>, m: seq<bool>, x: T, b: bool)
    requires |v| == |m|
    ensures Mask(v + [x], m + [b]) == Mask(v, m) + (if b then [x] else [])
  {
    assert (v + [x])[..|v|] == v && (m + [b])[..|m|] == m;
  }

  /** `sample_domain >= 0` */
  function SourceMask(domains: seq<int>): (m: seq<bool>)
    ensures |m| == |domains|
  {
    seq(|domains|, i requires 0 <= i < |domains| => domains[i] >= 0)
  }

  /** `sample_domain < 0` */
  function TargetMask(domains: seq<int>): (m: seq<bool>)
    ensures |m| == |domains|
  {
    seq(|domains|, i requires 0 <= i < |domains| => domains[i] < 0)
  }

  function Negate(m: seq<bool>): (r: seq<bool>)
    ensures |r| == |m|
  {
    seq(|m|, i requires 0 <= i < |m| => !m[i])
  }

  /** A mask and its negation split `v` into two parts that together hold every element once. */
  lemma {:induction false} MaskComplement<T>(v: seq<T>, m: seq<bool>)
    requires |v| == |m|
    ensures multiset(Mask(v, m)) + multiset(Mask(v, Negate(m))) == multiset(v)
    ensures |Mask(v, m)| + |Mask(v, Negate(m))| == |v|
  {
    if v != [] {
      var n := |v| - 1;
      var v', m' := v[..n], m[..n];
      MaskComplement(v', m');
      LastSplit(v, m);
      var a, b := Mask(v', m'), Mask(v', Negate(m'));
      if m[n] {
        assert Mask(v, m) == a + [v[n]] && Mask(v, Negate(m)) == b;
      } else {
        assert Mask(v, m) == a && Mask(v, Negate(m)) == b + [v[n]];
      }
    }
  }

  /** Peeling the last element off a masked selection and off its complement. */
  lemma LastSplit<T>(v: seq<T>, m: seq<bool>)
    requires |v| == |m| > 0
    ensures var n := |v| - 1;
      && Mask(v, m) == Mask(v[..n], m[..n]) + (if m[n] then [v[n]] else [])
      && Mask(v, Negate(m)) == Mask(v[..n], Negate(m[..n])) + (if m[n] then [] else [v[n]])
      && multiset(v) == multiset(v[..n]) + multiset{v[n]}
  {
    var n := |v| - 1;
    assert v == v[..n] + [v[n]] && m == m[..n] + [m[n]];
    assert Negate(m) == Negate(m[..n]) + [!m[n]];
    MaskAppend(v[..n], m[..n], v[n], m[n]);
    MaskAppend(v[..n], Negate(m[..n]), v[n], !m[n]);
  }

  /**
   * The source rows are exactly the rows with a non-negative domain id, the
   * target rows exactly those with a negative one; the two selections are
   * disjoint and together hold every row.
   */
  lemma DomainPartition<T>(v: seq<T>, domains: seq<int>)
    requires |v| == |domains|
    ensures forall i :: 0 <= i < |v| ==> (i in Selected(SourceMask(domains)) <==> domains[i] >= 0)
    ensures forall i :: 0 <= i < |v| ==> (i in Selected(TargetMask(domains)) <==> domains[i] < 0)
    ensures multiset(Mask(v, SourceMask(domains))) + multiset(Mask(v, TargetMask(domains))) == multiset(v)
    ensures |Mask(v, SourceMask(domains))| + |Mask(v, TargetMask(domains))| == |v|
  {
    assert TargetMask(domains) == Negate(SourceMask(domains));
    MaskComplement(v, SourceMask(domains));
  }

  /** Selecting with a mask that is false everywhere gives nothing. */
  lemma MaskNone<T>(v: seq<T>, m: seq<bool>)
    requires |v| == |m|
    requires forall i :: 0 <= i < |m| ==> !m[i]
    ensures Mask(v, m) == []
  {
  }

  /** A row the mask drops can be replaced without changing the selection. */
  lemma MaskIgnoresUnselected<T>(v: seq<T>, m: seq<bool>, i: nat, x: T)
    requires |v| == |m| && i < |v| && !m[i]
    ensures Mask(v[i := x], m) == Mask(v, m)
  {
    var a, b := Mask(v[i := x], m), Mask(v, m);
    forall k | 0 <= k < |a| ensures a[k] == b[k] {
      assert m[Selected(m)[k]];
    }
  }
}
