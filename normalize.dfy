/**
  `normalize_matrix` of network_propagation.py: divide every row (axis 0 or
  'index') or every column (axis 1 or 'column') of a matrix by its own sum. A
  row or column whose sum is zero is copied as it is. Any other axis value
  leaves the freshly allocated all-zero matrix as the result.
 */
module Normalize {
  import opened Matrices

  /** The `axis` argument: a number or a name. */
  datatype Axis = AxisNumber(n: int) | AxisName(name: string)

  predicate ByRows(axis: Axis) {
    axis == AxisNumber(0) || axis == AxisName("index")
  }

  predicate ByColumns(axis: Axis) {
    axis == AxisNumber(1) || axis == AxisName("column")
  }

  /** The inner `__normalize`: a vector divided by its sum, or the vector itself when the sum is zero. */
  function NormalizeVector(v: Vector): (w: Vector)
    ensures |w| == |v|
  {
    var d := Sum(v);
    if d == 0.0 then v else DivideBy(v, d)
  }

  /** The result of `normalize_matrix` on a rows x cols matrix. */
  function Normalized(m: Matrix, rows: nat, cols: nat, axis: Axis): (r: Matrix)
    requires IsMatrix(m, rows, cols)
    ensures IsMatrix(r, rows, cols)
  {
    if ByRows(axis) then
      seq(rows, i requires 0 <= i < rows => NormalizeVector(m[i]))
    else if ByColumns(axis) then
      Transpose(seq(cols, j requires 0 <= j < cols => NormalizeVector(Column(m, j))), rows)
    else
      Zeros(rows, cols)
  }

  /**
    `normalize_matrix`: a zero matrix of the same shape, then row by row (or
    column by column) the normalised vector copied in.
   */
  method NormalizeMatrix(m: Matrix, rows: nat, cols: nat, axis: Axis) returns (r: Matrix)
    requires IsMatrix(m, rows, cols)
    ensures r == Normalized(m, rows, cols, axis)
  {
    var a := new real[rows, cols]((i, j) => 0.0);
    if ByRows(axis) {
      for i := 0 to rows
        invariant forall e, h :: 0 <= e < rows && 0 <= h < cols ==>
          a[e, h] == (if e < i then NormalizeVector(m[e])[h] else 0.0)
      {
        var v := NormalizeVector(m[i]);
        for j := 0 to cols
          invariant forall e, h :: 0 <= e < rows && 0 <= h < cols ==>
            a[e, h] == (if e < i || (e == i && h < j) then NormalizeVector(m[e])[h] else 0.0)
        {
          a[i, j] := v[j];
        }
      }
    } else if ByColumns(axis) {
      for j := 0 to cols
        invariant forall e, h :: 0 <= e < rows && 0 <= h < cols ==>
          a[e, h] == (if h < j then NormalizeVector(Column(m, h))[e] else 0.0)
      {
        var v := NormalizeVector(Column(m, j));
        for i := 0 to rows
          invariant forall e, h :: 0 <= e < rows && 0 <= h < cols ==>
            a[e, h] == (if h < j || (h == j && e < i) then NormalizeVector(Column(m, h))[e] else 0.0)
        {
          a[i, j] := v[i];
        }
      }
    }
    r := Snapshot(a);
    MatrixEquality(r, Normalized(m, rows, cols, axis), rows, cols);
  }

  // ---------------------------------------------------------------------
  // Properties of one normalised vector

  /** A vector with a nonzero sum is rescaled to sum 1; a zero-sum vector is kept. */
  lemma NormalizeVectorSum(v: Vector)
    ensures Sum(v) != 0.0 ==> Sum(NormalizeVector(v)) == 1.0
    ensures Sum(v) != 0.0 ==> forall k :: 0 <= k < |v| ==> NormalizeVector(v)[k] == v[k] / Sum(v)
    ensures Sum(v) == 0.0 ==> NormalizeVector(v) == v
  {
    if Sum(v) != 0.0 {
      SumDivideBy(v, Sum(v));
      assert Sum(v) / Sum(v) == 1.0;
    }
  }

  /** Normalising twice is normalising once. */
  lemma NormalizeVectorIdempotent(v: Vector)
    ensures NormalizeVector(NormalizeVector(v)) == NormalizeVector(v)
  {
    NormalizeVectorSum(v);
    var w := NormalizeVector(v);
    if Sum(v) != 0.0 {
      assert DivideBy(w, 1.0) == w;
    }
  }

  /** A nonnegative entry is at most the sum of a nonnegative vector. */
  lemma {:induction false} EntryAtMostSum(v: Vector, k: nat)
    requires k < |v|
    requires forall i :: 0 <= i < |v| ==> 0.0 <= v[i]
    ensures v[k] <= Sum(v)
  {
    if k == 0 {
      SumNonNegative(v[1..]);
    } else {
      EntryAtMostSum(v[1..], k - 1);
    }
  }

  lemma DivideAtMostOne(x: real, d: real)
    requires 0.0 <= x <= d && d != 0.0
    ensures 0.0 <= x / d <= 1.0
  {
    assert x / d * d == x;
  }

  /** A nonnegative vector normalises to entries in [0, 1] whose sum is at most 1. */
  lemma NormalizeNonNegative(v: Vector)
    requires forall i :: 0 <= i < |v| ==> 0.0 <= v[i]
    ensures forall i :: 0 <= i < |v| ==> 0.0 <= NormalizeVector(v)[i] <= 1.0
    ensures Sum(NormalizeVector(v)) <= 1.0
  {
    NormalizeVectorSum(v);
    SumNonNegative(v);
    forall i | 0 <= i < |v|
      ensures 0.0 <= NormalizeVector(v)[i] <= 1.0
    {
      EntryAtMostSum(v, i);
      var d := Sum(v);
      if d != 0.0 {
        assert NormalizeVector(v)[i] == v[i] / d;
        DivideAtMostOne(v[i], d);
      }
    }
  }

  // ---------------------------------------------------------------------
  // Properties of the normalised matrix

  /**
    By rows, every row of nonzero sum sums to 1 and a zero-sum row is copied;
    by columns, the same for every column; any other axis gives zeros.
   */
  lemma NormalizedMeaning(m: Matrix, rows: nat, cols: nat, axis: Axis)
    requires IsMatrix(m, rows, cols)
    ensures ByRows(axis) ==> forall i :: 0 <= i < rows ==>
      (Sum(m[i]) != 0.0 ==> Sum(Normalized(m, rows, cols, axis)[i]) == 1.0) &&
      (Sum(m[i]) == 0.0 ==> Normalized(m, rows, cols, axis)[i] == m[i])
    ensures ByColumns(axis) ==> forall j :: 0 <= j < cols ==>
      (Sum(Column(m, j)) != 0.0 ==> Sum(Column(Normalized(m, rows, cols, axis), j)) == 1.0) &&
      (Sum(Column(m, j)) == 0.0 ==> Column(Normalized(m, rows, cols, axis), j) == Column(m, j))
    ensures !ByRows(axis) && !ByColumns(axis) ==> Normalized(m, rows, cols, axis) == Zeros(rows, cols)
  {
    var r := Normalized(m, rows, cols, axis);
    if ByRows(axis) {
      forall i | 0 <= i < rows
        ensures Sum(m[i]) != 0.0 ==> Sum(r[i]) == 1.0
        ensures Sum(m[i]) == 0.0 ==> r[i] == m[i]
      {
        NormalizeVectorSum(m[i]);
      }
    } else if ByColumns(axis) {
      forall j | 0 <= j < cols
        ensures Column(r, j) == NormalizeVector(Column(m, j))
        ensures Sum(Column(m, j)) != 0.0 ==> Sum(Column(r, j)) == 1.0
        ensures Sum(Column(m, j)) == 0.0 ==> Column(r, j) == Column(m, j)
      {
        NormalizeVectorSum(Column(m, j));
      }
    }
  }

  /** Normalising an already normalised matrix along the same axis changes nothing. */
  lemma NormalizedIdempotent(m: Matrix, rows: nat, cols: nat, axis: Axis)
    requires IsMatrix(m, rows, cols)
    ensures Normalized(Normalized(m, rows, cols, axis), rows, cols, axis) == Normalized(m, rows, cols, axis)
  {
    var r := Normalized(m, rows, cols, axis);
    var rr := Normalized(r, rows, cols, axis);
    if ByRows(axis) {
      forall i | 0 <= i < rows
        ensures rr[i] == r[i]
      {
        NormalizeVectorIdempotent(m[i]);
      }
    } else if ByColumns(axis) {
      forall j | 0 <= j < cols
        ensures Column(r, j) == NormalizeVector(Column(m, j))
        ensures NormalizeVector(Column(r, j)) == Column(r, j)
      {
        NormalizeVectorIdempotent(Column(m, j));
      }
      forall i, j | 0 <= i < rows && 0 <= j < cols
        ensures rr[i][j] == r[i][j]
      {
        assert rr[i][j] == NormalizeVector(Column(r, j))[i];
        assert r[i][j] == Column(r, j)[i];
      }
    }
    MatrixEquality(rr, r, rows, cols);
  }
}
