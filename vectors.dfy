/**
 * Real-valued feature and probability vectors, and the row-wise tensor
 * operations the two training callbacks apply to them: summing rows,
 * scaling, L2 normalisation and softmax. The square root inside the L2 norm
 * and the exponential inside softmax are not expressible over Dafny's reals;
 * both are passed in as opaque functions.
 */
module Vectors {

  type Vector = seq<real>

  /** The `eps` default of torch.nn.functional.normalize. */
  const NormalizeEps: real := 0.000000000001

  /** Sum of a sequence of reals, accumulated left to right. */
  function Sum(s: seq<real>): real
  {
    if s == [] then 0.0 else Sum(s[..|s| - 1]) + s[|s| - 1]
  }

  lemma {:induction false} SumPositive(s: seq<real>)
    requires |s| > 0
    requires forall i :: 0 <= i < |s| ==> s[i] > 0.0
    ensures Sum(s) > 0.0
  {
    if |s| > 1 {
      SumPositive(s[..|s| - 1]);
    }
  }

  /** Dividing every element by `c` divides the sum by `c`. */
  lemma {:induction false} SumDivide(s: seq<real>, q: seq<real>, c: real)
    requires c != 0.0 && |q| == |s|
    requires forall i :: 0 <= i < |s| ==> q[i] == s[i] / c
    ensures Sum(q) == Sum(s) / c
  {
    if s != [] {
      var n := |s| - 1;
      SumDivide(s[..n], q[..n], c);
      assert Sum(q) == Sum(s[..n]) / c + s[n] / c;
    }
  }

  lemma DivideSelf(x: real)
    requires x != 0.0
    ensures x / x == 1.0
  {
  }

  function Square(x: real): real
  {
    x * x
  }

  lemma SquarePositive(x: real)
    requires x > 0.0
    ensures Square(x) > 0.0
  {
    calc {
      Square(x);
    ==
      x * x;
    >
      0.0;
    }
  }

  lemma QuotientPositive(x: real, y: real)
    requires x > 0.0 && y > 0.0
    ensures x / y > 0.0
  {
  }

  predicate HasWidth(rows: seq<Vector>, d: nat)
  {
    forall i :: 0 <= i < |rows| ==> |rows[i]| == d
  }

  function Zero(d: nat): (r: Vector)
    ensures |r| == d && forall j :: 0 <= j < d ==> r[j] == 0.0
  {
    seq(d, j => 0.0)
  }

  function Add(u: Vector, v: Vector): (r: Vector)
    requires |u| == |v|
    ensures |r| == |u|
  {
    seq(|u|, j requires 0 <= j < |u| => u[j] + v[j])
  }

  function Scale(c: real, v: Vector): (r: Vector)
    ensures |r| == |v|
  {
    seq(|v|, j requires 0 <= j < |v| => c * v[j])
  }

  /** Column `j` of a matrix given as a sequence of rows. */
  function Column(rows: seq<Vector>, j: nat): (col: seq<real>)
    requires forall i :: 0 <= i < |rows| ==> j < |rows[i]|
    ensures |col| == |rows|
  {
    seq(|rows|, i requires 0 <= i < |rows| => rows[i][j])
  }

  /** `rows.sum(dim=0)` for a matrix of `d` columns. */
  function SumRows(rows: seq<Vector>, d: nat): (r: Vector)
    requires HasWidth(rows, d)
    ensures |r| == d
  {
    if rows == [] then Zero(d) else Add(SumRows(rows[..|rows| - 1], d), rows[|rows| - 1])
  }

  lemma SumRowsAppend(rows: seq<Vector>, r: Vector, d: nat)
    requires HasWidth(rows, d) && |r| == d
    ensures HasWidth(rows + [r], d)
    ensures SumRows(rows + [r], d) == Add(SumRows(rows, d), r)
  {
    assert (rows + [r])[..|rows|] == rows;
  }

  /** Each component of the row sum is the sum of that column. */
  lemma {:induction false} SumRowsColumn(rows: seq<Vector>, d: nat, j: nat)
    requires HasWidth(rows, d) && j < d
    ensures SumRows(rows, d)[j] == Sum(Column(rows, j))
  {
    if rows != [] {
      var n := |rows| - 1;
      SumRowsColumn(rows[..n], d, j);
      assert Column(rows, j)[..n] == Column(rows[..n], j);
    }
  }

  function Max(a: real, b: real): real
  {
    if a >= b then a else b
  }

  /**
   * torch.nn.functional.normalize(v, p=2): `v / max(norm(v), eps)`, where
   * `norm` stands for the L2 norm.
   */
  function Normalize(v: Vector, norm: Vector -> real): (r: Vector)
    ensures |r| == |v|
  {
    Scale(1.0 / Max(norm(v), NormalizeEps), v)
  }

  /**
   * Whenever the norm is at least `eps`, normalising and scaling back by the
   * norm gives the vector back; a zero vector stays zero (no division by zero).
   */
  lemma NormalizeRoundTrip(v: Vector, norm: Vector -> real)
    ensures norm(v) >= NormalizeEps ==> Scale(norm(v), Normalize(v, norm)) == v
    ensures (forall j :: 0 <= j < |v| ==> v[j] == 0.0) ==> Normalize(v, norm) == v
  {
    var r := Normalize(v, norm);
    if norm(v) >= NormalizeEps {
      forall j | 0 <= j < |v| ensures Scale(norm(v), r)[j] == v[j] {
        calc {
          Scale(norm(v), r)[j];
          norm(v) * ((1.0 / norm(v)) * v[j]);
          v[j];
        }
      }
    }
  }

  function NormalizeRows(rows: seq<Vector>, norm: Vector -> real): (r: seq<Vector>)
    ensures |r| == |rows|
    ensures forall d :: HasWidth(rows, d) ==> HasWidth(r, d)
  {
    seq(|rows|, i requires 0 <= i < |rows| => Normalize(rows[i], norm))
  }

  /**
   * softmax(z)[j] = exp(z[j]) / sum_l exp(z[l]) for an opaque positive `exp`:
   * every entry is positive and a non-empty row sums to one.
   */
  function Softmax(exp: real -> real, z: Vector): (p: Vector)
    requires forall t :: exp(t) > 0.0
    ensures |p| == |z|
    ensures forall j :: 0 <= j < |p| ==> p[j] > 0.0
    ensures |z| > 0 ==> Sum(p) == 1.0
  {
    if z == [] then []
    else
      var e := seq(|z|, j requires 0 <= j < |z| => exp(z[j]));
      assert forall j :: 0 <= j < |e| ==> e[j] > 0.0 by {
        forall j | 0 <= j < |e| ensures e[j] > 0.0 {
          var t := z[j];
          assert exp(t) > 0.0 && e[j] == exp(t);
        }
      }
      SumPositive(e);
      var p := seq(|e|, j requires 0 <= j < |e| => e[j] / Sum(e));
      SumDivide(e, p, Sum(e));
      DivideSelf(Sum(e));
      p
  }
}
