/**
  Dense matrices as sequences of rows, with exact `real` entries, and the few
  whole-matrix operations the propagation code takes from numpy and scipy:
  sums, dot products, the matrix product, transposition, elementwise maximum
  and the maximum of a vector.
 */
module Matrices {

  type Vector = seq<real>
  type Matrix = seq<seq<real>>

  /** `m` has `rows` rows of `cols` entries each. */
  predicate IsMatrix<T>(m: seq<seq<T>>, rows: nat, cols: nat) {
    |m| == rows && forall i :: 0 <= i < rows ==> |m[i]| == cols
  }

  /** Every entry of the rows x cols matrix `m` lies in [lo, hi]. */
  predicate Within(m: Matrix, rows: nat, cols: nat, lo: real, hi: real)
    requires IsMatrix(m, rows, cols)
  {
    forall i, j :: 0 <= i < rows && 0 <= j < cols ==> lo <= m[i][j] <= hi
  }

  /** Every entry is 0 or 1. */
  predicate Binary(m: Matrix, rows: nat, cols: nat)
    requires IsMatrix(m, rows, cols)
  {
    forall i, j :: 0 <= i < rows && 0 <= j < cols ==> m[i][j] == 0.0 || m[i][j] == 1.0
  }

  function Zeros(rows: nat, cols: nat): (z: Matrix)
    ensures IsMatrix(z, rows, cols)
    ensures forall i, j :: 0 <= i < rows && 0 <= j < cols ==> z[i][j] == 0.0
  {
    seq(rows, _ => seq(cols, _ => 0.0))
  }

  function Max(x: real, y: real): real {
    if x < y then y else x
  }

  /** Python's `sum` over a vector (numpy's `.sum()`), exactly. */
  function Sum(v: Vector): real {
    if |v| == 0 then 0.0 else v[0] + Sum(v[1..])
  }

  /** `v / d` for a nonzero scalar `d`, as numpy divides a vector by a number. */
  function DivideBy(v: Vector, d: real): (w: Vector)
    requires d != 0.0
    ensures |w| == |v|
    ensures forall k :: 0 <= k < |v| ==> w[k] == v[k] / d
  {
    seq(|v|, k requires 0 <= k < |v| => v[k] / d)
  }

  /** The dot product of two vectors of one length. */
  function Dot(u: Vector, v: Vector): real
    requires |u| == |v|
  {
    if |u| == 0 then 0.0 else u[0] * v[0] + Dot(u[1..], v[1..])
  }

  /** Column `j` of `m`, top to bottom. */
  function Column<T>(m: seq<seq<T>>, j: nat): (c: seq<T>)
    requires forall i :: 0 <= i < |m| ==> j < |m[i]|
    ensures |c| == |m|
    ensures forall i :: 0 <= i < |m| ==> c[i] == m[i][j]
  {
    seq(|m|, i requires 0 <= i < |m| => m[i][j])
  }

  /** The transpose of a matrix whose rows have `cols` entries (`cols` fixes the shape when `m` has no rows). */
  function Transpose<T>(m: seq<seq<T>>, cols: nat): (t: seq<seq<T>>)
    requires IsMatrix(m, |m|, cols)
    ensures IsMatrix(t, cols, |m|)
    ensures forall j, i :: 0 <= j < cols && 0 <= i < |m| ==> t[j][i] == m[i][j]
  {
    seq(cols, j requires 0 <= j < cols => Column(m, j))
  }

  /** The matrix product `a . b` of an r x k and a k x `cols` matrix. */
  function MatMul(a: Matrix, b: Matrix, cols: nat): (p: Matrix)
    requires forall i :: 0 <= i < |a| ==> |a[i]| == |b|
    requires IsMatrix(b, |b|, cols)
    ensures IsMatrix(p, |a|, cols)
    ensures forall i, j :: 0 <= i < |a| && 0 <= j < cols ==> p[i][j] == Dot(a[i], Column(b, j))
  {
    seq(|a|, i requires 0 <= i < |a| => seq(cols, j requires 0 <= j < cols => Dot(a[i], Column(b, j))))
  }

  /** numpy's `np.array([a, b]).max(axis = 0)` on two matrices of one shape. */
  function ElementwiseMax(a: Matrix, b: Matrix, rows: nat, cols: nat): (m: Matrix)
    requires IsMatrix(a, rows, cols) && IsMatrix(b, rows, cols)
    ensures IsMatrix(m, rows, cols)
    ensures forall i, j :: 0 <= i < rows && 0 <= j < cols ==> m[i][j] == Max(a[i][j], b[i][j])
  {
    seq(rows, i requires 0 <= i < rows => seq(cols, j requires 0 <= j < cols => Max(a[i][j], b[i][j])))
  }

  /** pandas' `Series.max()` on a nonempty vector: an entry no smaller than any other. */
  function MaxOf(v: Vector): (r: real)
    requires |v| > 0
    ensures r in v
    ensures forall k :: 0 <= k < |v| ==> v[k] <= r
  {
    if |v| == 1 then v[0] else Max(v[0], MaxOf(v[1..]))
  }

  /** The read-out of a two-dimensional array as a matrix value. */
  function Snapshot(a: array2<real>): (m: Matrix)
    reads a
    ensures IsMatrix(m, a.Length0, a.Length1)
    ensures forall i, j :: 0 <= i < a.Length0 && 0 <= j < a.Length1 ==> m[i][j] == a[i, j]
  {
    seq(a.Length0, i requires 0 <= i < a.Length0 reads a =>
      seq(a.Length1, j requires 0 <= j < a.Length1 reads a => a[i, j]))
  }

  /** Two matrices of one shape that agree on every cell are equal. */
  lemma {:induction false} MatrixEquality(a: Matrix, b: Matrix, rows: nat, cols: nat)
    requires IsMatrix(a, rows, cols) && IsMatrix(b, rows, cols)
    requires forall i, j :: 0 <= i < rows && 0 <= j < cols ==> a[i][j] == b[i][j]
    ensures a == b
  {
    forall i | 0 <= i < rows
      ensures a[i] == b[i]
    {
      assert forall j :: 0 <= j < cols ==> a[i][j] == b[i][j];
    }
  }

  /** Dividing every entry by `d` divides the sum by `d`. */
  lemma {:induction false} SumDivideBy(v: Vector, d: real)
    requires d != 0.0
    ensures Sum(DivideBy(v, d)) == Sum(v) / d
  {
    if |v| > 0 {
      assert DivideBy(v, d)[1..] == DivideBy(v[1..], d);
      SumDivideBy(v[1..], d);
    }
  }

  /** A sum of nonnegative entries is nonnegative. */
  lemma {:induction false} SumNonNegative(v: Vector)
    requires forall k :: 0 <= k < |v| ==> 0.0 <= v[k]
    ensures 0.0 <= Sum(v)
  {
    if |v| > 0 {
      SumNonNegative(v[1..]);
    }
  }

  /** Weights in [0, 1] against nonnegative entries give a dot product between 0 and the entries' sum. */
  lemma {:induction false} DotBetweenZeroAndSum(t: Vector, c: Vector)
    requires |t| == |c|
    requires forall k :: 0 <= k < |t| ==> 0.0 <= t[k] <= 1.0
    requires forall k :: 0 <= k < |c| ==> 0.0 <= c[k]
    ensures 0.0 <= Dot(t, c) <= Sum(c)
  {
    if |t| > 0 {
      DotBetweenZeroAndSum(t[1..], c[1..]);
      assert 0.0 <= t[0] * c[0] <= c[0];
      assert Dot(t, c) == t[0] * c[0] + Dot(t[1..], c[1..]);
      assert Sum(c) == c[0] + Sum(c[1..]);
    }
  }

  /** A zero weight vector has a zero dot product with anything. */
  lemma {:induction false} DotZeroWeights(t: Vector, c: Vector)
    requires |t| == |c|
    requires forall k :: 0 <= k < |t| ==> t[k] == 0.0
    ensures Dot(t, c) == 0.0
  {
    if |t| > 0 {
      DotZeroWeights(t[1..], c[1..]);
    }
  }

  /** With nonnegative entries on both sides, the dot product is at least any one of its terms. */
  lemma {:induction false} DotAtLeastTerm(u: Vector, v: Vector, k: nat)
    requires |u| == |v| && k < |u|
    requires forall i :: 0 <= i < |u| ==> 0.0 <= u[i] && 0.0 <= v[i]
    ensures u[k] * v[k] <= Dot(u, v)
  {
    assert Dot(u, v) == u[0] * v[0] + Dot(u[1..], v[1..]);
    if k == 0 {
      DotNonNegative(u[1..], v[1..]);
    } else {
      DotAtLeastTerm(u[1..], v[1..], k - 1);
      assert 0.0 <= u[0] * v[0];
    }
  }

  /** Nonnegative entries on both sides give a nonnegative dot product. */
  lemma {:induction false} DotNonNegative(u: Vector, v: Vector)
    requires |u| == |v|
    requires forall i :: 0 <= i < |u| ==> 0.0 <= u[i] && 0.0 <= v[i]
    ensures 0.0 <= Dot(u, v)
  {
    if |u| > 0 {
      DotNonNegative(u[1..], v[1..]);
      assert 0.0 <= u[0] * v[0];
    }
  }
}
