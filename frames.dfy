/**
  Labelled tables (pandas DataFrames) and selection of rows by label
  (`frame.loc[labels, :]`). pandas allows a label to stand on several rows:
  `.loc` then yields all of them, and a missing label raises a KeyError. The
  callers in the propagation code go on to use the selection as a matrix with
  exactly one row per requested label, and fail on any other shape.
 */
module Frames {
  import opened Wrappers
  import opened Matrices

  /** A DataFrame: row labels, column labels, and |index| rows of |columns| cells. */
  datatype Frame<R, C, V> = Frame(index: seq<R>, columns: seq<C>, cells: seq<seq<V>>)

  predicate WellFormed<R, C, V>(f: Frame<R, C, V>) {
    IsMatrix(f.cells, |f.index|, |f.columns|)
  }

  /** `frame.T`: labels and cells swap axes. */
  function Transposed<R, C, V>(f: Frame<R, C, V>): (t: Frame<C, R, V>)
    requires WellFormed(f)
    ensures WellFormed(t) && t.index == f.columns && t.columns == f.index
    ensures forall j, i :: 0 <= j < |f.columns| && 0 <= i < |f.index| ==> t.cells[j][i] == f.cells[i][j]
  {
    Frame(f.columns, f.index, Transpose(f.cells, |f.columns|))
  }

  /** The labels of a sequence are pairwise different. */
  predicate Distinct<T(==)>(s: seq<T>) {
    forall i, j :: 0 <= i < j < |s| ==> s[i] != s[j]
  }

  /** The first position of `x` in `s`. */
  function IndexOf<T(==)>(s: seq<T>, x: T): (k: nat)
    requires x in s
    ensures k < |s| && s[k] == x && x !in s[..k]
    ensures Distinct(s) ==> forall j :: 0 <= j < |s| && s[j] == x ==> j == k
  {
    if s[0] == x then 0 else 1 + IndexOf(s[1..], x)
  }

  /** How many rows carry label `x`. */
  function Count<L(==)>(index: seq<L>, x: L): nat {
    if |index| == 0 then 0 else (if index[0] == x then 1 else 0) + Count(index[1..], x)
  }

  /** The rows labelled `x`, in table order: `frame.loc[x]` for one label. */
  function Matches<L(==), V>(index: seq<L>, rows: seq<V>, x: L): seq<V>
    requires |index| == |rows|
  {
    if |index| == 0 then []
    else (if index[0] == x then [rows[0]] else []) + Matches(index[1..], rows[1..], x)
  }

  /** The rows matched by each label in turn, concatenated. */
  function Gather<L(==), V>(index: seq<L>, rows: seq<V>, labels: seq<L>): seq<V>
    requires |index| == |rows|
  {
    if |labels| == 0 then [] else Matches(index, rows, labels[0]) + Gather(index, rows, labels[1..])
  }

  datatype LocError = KeyError | ShapeError

  /**
    `frame.loc[labels, :]` used where one row per label is expected: a KeyError
    when a label is missing, a shape error when a label names several rows.
   */
  function SelectRows<L(==), V>(index: seq<L>, rows: seq<V>, labels: seq<L>): (r: Result<seq<V>, LocError>)
    requires |index| == |rows|
    ensures r == Err(KeyError) <==> exists k :: 0 <= k < |labels| && labels[k] !in index
    ensures r.Ok? <==> forall k :: 0 <= k < |labels| ==> Count(index, labels[k]) == 1
    ensures r.Ok? ==> |r.value| == |labels|
    ensures r.Ok? ==> forall k :: 0 <= k < |labels| ==>
                        labels[k] in index && r.value[k] == rows[IndexOf(index, labels[k])]
  {
    AbsentIffCountZero(index, rows, labels);
    if exists k :: 0 <= k < |labels| && labels[k] !in index then Err(KeyError)
    else
      var g := Gather(index, rows, labels);
      GatherExact(index, rows, labels);
      if |g| == |labels| then Ok(g) else Err(ShapeError)
  }

  // ---------------------------------------------------------------------
  // Lemmas about label selection

  lemma {:induction false} MatchesCount<L, V>(index: seq<L>, rows: seq<V>, x: L)
    requires |index| == |rows|
    ensures |Matches(index, rows, x)| == Count(index, x)
    ensures Count(index, x) == 0 <==> x !in index
  {
    if |index| > 0 {
      MatchesCount(index[1..], rows[1..], x);
      assert x in index <==> index[0] == x || x in index[1..];
    }
  }

  lemma AbsentIffCountZero<L, V>(index: seq<L>, rows: seq<V>, labels: seq<L>)
    requires |index| == |rows|
    ensures forall k :: 0 <= k < |labels| ==> (Count(index, labels[k]) == 0 <==> labels[k] !in index)
  {
    forall k | 0 <= k < |labels| {
      MatchesCount(index, rows, labels[k]);
    }
  }

  /** A label that names exactly one row selects the row at its first position. */
  lemma {:induction false} UniqueMatch<L, V>(index: seq<L>, rows: seq<V>, x: L)
    requires |index| == |rows|
    requires Count(index, x) == 1
    ensures x in index && Matches(index, rows, x) == [rows[IndexOf(index, x)]]
  {
    MatchesCount(index, rows, x);
    if index[0] != x {
      UniqueMatch(index[1..], rows[1..], x);
    } else {
      MatchesCount(index[1..], rows[1..], x);
    }
  }

  /**
    When every label is present, the gathered rows are one per label exactly
    when no label names two rows, and then row k is the one labelled labels[k].
   */
  lemma {:induction false} GatherExact<L, V>(index: seq<L>, rows: seq<V>, labels: seq<L>)
    requires |index| == |rows|
    requires forall k :: 0 <= k < |labels| ==> labels[k] in index
    ensures |Gather(index, rows, labels)| >= |labels|
    ensures |Gather(index, rows, labels)| == |labels| <==> forall k :: 0 <= k < |labels| ==> Count(index, labels[k]) == 1
    ensures |Gather(index, rows, labels)| == |labels| ==>
      forall k :: 0 <= k < |labels| ==> Gather(index, rows, labels)[k] == rows[IndexOf(index, labels[k])]
  {
    if |labels| > 0 {
      GatherExact(index, rows, labels[1..]);
      MatchesCount(index, rows, labels[0]);
      var g := Gather(index, rows, labels);
      var tail := Gather(index, rows, labels[1..]);
      assert forall k :: 1 <= k < |labels| ==> labels[k] == labels[1..][k - 1];
      if |g| == |labels| {
        UniqueMatch(index, rows, labels[0]);
      }
    }
  }
}
