/**
  The drug-pair combiner of network_propagation.py
  (`combin_drug_target_probabilities_matrix`). The pair table is cut to its
  first two columns (DrugA, DrugB), duplicate pairs are dropped keeping the
  first occurrence, and each remaining pair gives one row keyed
  `DrugA + "_" + DrugB`: the `bitwise_or` of the two drugs' target columns of
  the genes x drugs table, cast to integers. The result's columns are the
  table's genes, in the table's order.
 */
module DrugPairs {
  import opened Wrappers
  import opened Matrices
  import opened Frames
  import opened Bitwise

  type Pair = (string, string)

  /** The pair table: rows of `width` drug names each. */
  datatype PairTable = PairTable(width: nat, rows: seq<seq<string>>)

  predicate Rectangular(t: PairTable) {
    forall i :: 0 <= i < |t.rows| ==> |t.rows[i]| == t.width
  }

  datatype CombineError =
    | ColumnCountError   // fewer than two columns: renaming them to DrugA, DrugB fails
    | Lookup(e: LocError)  // a drug missing from the target table, or named by several of its columns

  /** `drug_pairs.iloc[:, :2]` read as (DrugA, DrugB) pairs. */
  function FirstTwoColumns(t: PairTable): (ps: seq<Pair>)
    requires Rectangular(t) && t.width >= 2
    ensures |ps| == |t.rows|
    ensures forall i :: 0 <= i < |ps| ==> ps[i] == (t.rows[i][0], t.rows[i][1])
  {
    seq(|t.rows|, i requires 0 <= i < |t.rows| => (t.rows[i][0], t.rows[i][1]))
  }

  /**
    `drop_duplicates()`: each distinct pair once, at its first occurrence
    (`DropDuplicatesInOrder` states the order).
   */
  function DropDuplicates<T(==, !new)>(s: seq<T>): (r: seq<T>)
    ensures Distinct(r)
    ensures forall x :: x in r <==> x in s
  {
    if |s| == 0 then []
    else
      var front := s[..|s| - 1];
      var p := DropDuplicates(front);
      var last := s[|s| - 1];
      assert forall x :: x in s <==> x in front || x == last;
      if last in p then p else p + [last]
  }

  /** The values of `r`, all found in `s`, come in the order of their first occurrences in `s`. */
  predicate FirstOccurrenceOrder<T(==)>(s: seq<T>, r: seq<T>) {
    (forall x :: x in r ==> x in s) &&
    forall i, j :: 0 <= i < j < |r| ==> IndexOf(s, r[i]) < IndexOf(s, r[j])
  }

  /** The kept values appear in the order of their first occurrences. */
  lemma {:induction false} DropDuplicatesInOrder<T(!new)>(s: seq<T>)
    ensures FirstOccurrenceOrder(s, DropDuplicates(s))
  {
    if |s| > 0 {
      var front := s[..|s| - 1];
      var p := DropDuplicates(front);
      var last := s[|s| - 1];
      DropDuplicatesInOrder(front);
      IndexOfInPrefix(s, |s| - 1);
      forall i, j | 0 <= i < j < |p|
        ensures IndexOf(s, p[i]) < IndexOf(s, p[j])
      {
        assert p[i] in front && p[j] in front;
        assert FirstOccurrenceOrder(front, p);
      }
      if last !in p {
        assert last !in front;
        assert IndexOf(s, last) == |s| - 1;
        var r := p + [last];
        forall i, j | 0 <= i < j < |r|
          ensures IndexOf(s, r[i]) < IndexOf(s, r[j])
        {
          assert r[i] == p[i] && p[i] in front;
          if j < |p| {
            assert r[j] == p[j];
          }
        }
      }
    }
  }

  /** A value found in a prefix is first found at the same place in the whole sequence. */
  lemma IndexOfInPrefix<T>(s: seq<T>, n: nat)
    requires n <= |s|
    ensures forall x :: x in s[..n] ==> x in s && IndexOf(s, x) == IndexOf(s[..n], x) < n
  {
    forall x | x in s[..n]
      ensures x in s && IndexOf(s, x) == IndexOf(s[..n], x) < n
    {
      var k := IndexOf(s[..n], x);
      assert s[k] == x;
    }
  }

  function Key(p: Pair): string {
    p.0 + "_" + p.1
  }

  function Firsts(u: seq<Pair>): (names: seq<string>)
    ensures |names| == |u| && forall k :: 0 <= k < |u| ==> names[k] == u[k].0
  {
    seq(|u|, k requires 0 <= k < |u| => u[k].0)
  }

  function Seconds(u: seq<Pair>): (names: seq<string>)
    ensures |names| == |u| && forall k :: 0 <= k < |u| ==> names[k] == u[k].1
  {
    seq(|u|, k requires 0 <= k < |u| => u[k].1)
  }

  /** `np.bitwise_or(a.astype(int), b.astype(int))` on two matrices of one shape. */
  function OrRows(a: seq<seq<real>>, b: seq<seq<real>>, genes: nat): (r: seq<seq<int>>)
    requires IsMatrix(a, |a|, genes) && IsMatrix(b, |a|, genes)
    ensures IsMatrix(r, |a|, genes)
    ensures forall k, g :: 0 <= k < |a| && 0 <= g < genes ==> r[k][g] == BitOr(Truncate(a[k][g]), Truncate(b[k][g]))
  {
    seq(|a|, k requires 0 <= k < |a| =>
      seq(genes, g requires 0 <= g < genes => BitOr(Truncate(a[k][g]), Truncate(b[k][g]))))
  }

  /** `drug_target.T.loc[names, :]`: the named drugs' target vectors over the genes. */
  function DrugRows(dt: Frame<int, string, real>, names: seq<string>): Result<seq<seq<real>>, LocError>
    requires WellFormed(dt)
  {
    var byDrug := Transposed(dt);
    SelectRows(byDrug.index, byDrug.cells, names)
  }

  /** `combin_drug_target_probabilities_matrix` on a pair table and a genes x drugs target table. */
  function Combine(pairs: PairTable, dt: Frame<int, string, real>): (r: Result<Frame<string, int, int>, CombineError>)
    requires Rectangular(pairs) && WellFormed(dt)
    ensures pairs.width < 2 ==> r == Err(ColumnCountError)
    ensures r.Ok? ==> r.value.columns == dt.index && IsMatrix(r.value.cells, |r.value.index|, |dt.index|)
  {
    if pairs.width < 2 then Err(ColumnCountError)
    else
      var uniq := DropDuplicates(FirstTwoColumns(pairs));
      var aRows := DrugRows(dt, Firsts(uniq));
      var bRows := DrugRows(dt, Seconds(uniq));
      if aRows == Err(KeyError) || bRows == Err(KeyError) then Err(Lookup(KeyError))
      else if aRows.Err? || bRows.Err? then Err(Lookup(ShapeError))
      else
        DrugRowsShape(dt, Firsts(uniq));
        DrugRowsShape(dt, Seconds(uniq));
        Ok(Frame(seq(|uniq|, k requires 0 <= k < |uniq| => Key(uniq[k])), dt.index,
                 OrRows(aRows.value, bRows.value, |dt.index|)))
  }

  lemma DrugRowsShape(dt: Frame<int, string, real>, names: seq<string>)
    requires WellFormed(dt)
    ensures DrugRows(dt, names).Ok? ==> IsMatrix(DrugRows(dt, names).value, |names|, |dt.index|)
    ensures DrugRows(dt, names).Ok? ==> forall k, g :: 0 <= k < |names| && 0 <= g < |dt.index| ==>
      names[k] in dt.columns && DrugRows(dt, names).value[k][g] == dt.cells[g][IndexOf(dt.columns, names[k])]
  {
  }

  /** Looking the drugs up succeeds exactly when each names exactly one column. */
  lemma DrugRowsSucceed(dt: Frame<int, string, real>, names: seq<string>)
    requires WellFormed(dt)
    ensures DrugRows(dt, names).Ok? <==> forall k :: 0 <= k < |names| ==> Count(dt.columns, names[k]) == 1
  {
  }

  /** Every drug named in a list of pairs labels exactly one column. */
  predicate AllUnique(cols: seq<string>, ps: seq<Pair>) {
    forall k :: 0 <= k < |ps| ==> Count(cols, ps[k].0) == 1 && Count(cols, ps[k].1) == 1
  }

  /** The combiner succeeds exactly when both lookups do. */
  lemma CombineOkWhenLookupsOk(pairs: PairTable, dt: Frame<int, string, real>)
    requires Rectangular(pairs) && WellFormed(dt) && pairs.width >= 2
    ensures var uniq := DropDuplicates(FirstTwoColumns(pairs));
      Combine(pairs, dt).Ok? <==> DrugRows(dt, Firsts(uniq)).Ok? && DrugRows(dt, Seconds(uniq)).Ok?
  {
  }

  /** Both lookups succeed exactly when every drug of every pair labels one column. */
  lemma LookupsOkWhenUnique(dt: Frame<int, string, real>, uniq: seq<Pair>)
    requires WellFormed(dt)
    ensures DrugRows(dt, Firsts(uniq)).Ok? && DrugRows(dt, Seconds(uniq)).Ok? <==> AllUnique(dt.columns, uniq)
  {
    DrugRowsSucceed(dt, Firsts(uniq));
    DrugRowsSucceed(dt, Seconds(uniq));
  }

  /** The condition depends only on which pairs occur, not on their order or repetition. */
  lemma AllUniqueSameElements(cols: seq<string>, ps: seq<Pair>, qs: seq<Pair>)
    requires forall x :: x in ps <==> x in qs
    ensures AllUnique(cols, ps) ==> AllUnique(cols, qs)
  {
    if AllUnique(cols, ps) {
      forall k | 0 <= k < |qs|
        ensures Count(cols, qs[k].0) == 1 && Count(cols, qs[k].1) == 1
      {
        var i := IndexOf(ps, qs[k]);
      }
    }
  }

  /**
    The combiner succeeds exactly when the pair table has at least two columns
    and every drug it names labels exactly one column of the target table.
   */
  lemma CombineSucceeds(pairs: PairTable, dt: Frame<int, string, real>)
    requires Rectangular(pairs) && WellFormed(dt)
    ensures Combine(pairs, dt).Ok? <==> (pairs.width >= 2 && forall k :: 0 <= k < |pairs.rows| ==>
                                          Count(dt.columns, pairs.rows[k][0]) == 1 && Count(dt.columns, pairs.rows[k][1]) == 1)
  {
    if pairs.width >= 2 {
      var ps := FirstTwoColumns(pairs);
      var uniq := DropDuplicates(ps);
      CombineOkWhenLookupsOk(pairs, dt);
      LookupsOkWhenUnique(dt, uniq);
      AllUniqueSameElements(dt.columns, ps, uniq);
      AllUniqueSameElements(dt.columns, uniq, ps);
      assert AllUnique(dt.columns, ps) <==> forall k :: 0 <= k < |pairs.rows| ==>
        Count(dt.columns, pairs.rows[k][0]) == 1 && Count(dt.columns, pairs.rows[k][1]) == 1;
    }
  }

  /**
    One row per distinct pair, in first-occurrence order, keyed
    `DrugA + "_" + DrugB`, holding the bitwise OR of the two drugs' target
    columns cast to integers; the columns are the table's genes.
   */
  lemma CombineRows(pairs: PairTable, dt: Frame<int, string, real>)
    requires Rectangular(pairs) && WellFormed(dt)
    requires Combine(pairs, dt).Ok?
    ensures pairs.width >= 2
    ensures var r := Combine(pairs, dt).value;
      && WellFormed(r) && r.columns == dt.index
      && |r.index| == |DropDuplicates(FirstTwoColumns(pairs))|
      && forall k :: 0 <= k < |r.index| ==>
           var p := DropDuplicates(FirstTwoColumns(pairs))[k];
           && r.index[k] == Key(p)
           && p.0 in dt.columns && p.1 in dt.columns
           && forall g :: 0 <= g < |dt.index| ==>
                r.cells[k][g] == BitOr(Truncate(dt.cells[g][IndexOf(dt.columns, p.0)]),
                                       Truncate(dt.cells[g][IndexOf(dt.columns, p.1)]))
  {
    var uniq := DropDuplicates(FirstTwoColumns(pairs));
    DrugRowsShape(dt, Firsts(uniq));
    DrugRowsShape(dt, Seconds(uniq));
  }

  // ---------------------------------------------------------------------
  // The combined row is the union of the two drugs' targets

  /** A 0/1 target table gives 0/1 combined rows: a gene is a target of the pair exactly when it is a target of either drug. */
  lemma CombineIsUnion(pairs: PairTable, dt: Frame<int, string, real>)
    requires Rectangular(pairs) && WellFormed(dt)
    requires Binary(dt.cells, |dt.index|, |dt.columns|)
    requires Combine(pairs, dt).Ok?
    ensures var r := Combine(pairs, dt).value;
      forall k, g :: 0 <= k < |r.index| && 0 <= g < |dt.index| ==>
        var p := DropDuplicates(FirstTwoColumns(pairs))[k];
        && p.0 in dt.columns && p.1 in dt.columns
        && r.cells[k][g] == if dt.cells[g][IndexOf(dt.columns, p.0)] == 1.0 || dt.cells[g][IndexOf(dt.columns, p.1)] == 1.0
                            then 1 else 0
  {
    CombineRows(pairs, dt);
    var r := Combine(pairs, dt).value;
    var uniq := DropDuplicates(FirstTwoColumns(pairs));
    forall k, g | 0 <= k < |r.index| && 0 <= g < |dt.index|
      ensures r.cells[k][g] == if dt.cells[g][IndexOf(dt.columns, uniq[k].0)] == 1.0 || dt.cells[g][IndexOf(dt.columns, uniq[k].1)] == 1.0
                               then 1 else 0
    {
      var x := dt.cells[g][IndexOf(dt.columns, uniq[k].0)];
      var y := dt.cells[g][IndexOf(dt.columns, uniq[k].1)];
      assert x == 0.0 || x == 1.0;
      assert y == 0.0 || y == 1.0;
      BitOrOnFlags(Truncate(x), Truncate(y));
    }
  }

  /** The rows of (A, B) and of (B, A) hold the same values; only their keys differ. */
  lemma CombineSymmetricValues(pairs: PairTable, dt: Frame<int, string, real>, k: nat, l: nat)
    requires Rectangular(pairs) && WellFormed(dt)
    requires Combine(pairs, dt).Ok?
    requires k < |Combine(pairs, dt).value.index| && l < |Combine(pairs, dt).value.index|
    requires DropDuplicates(FirstTwoColumns(pairs))[l] ==
             (DropDuplicates(FirstTwoColumns(pairs))[k].1, DropDuplicates(FirstTwoColumns(pairs))[k].0)
    ensures Combine(pairs, dt).value.cells[k] == Combine(pairs, dt).value.cells[l]
  {
    CombineRows(pairs, dt);
    var r := Combine(pairs, dt).value;
    var p := DropDuplicates(FirstTwoColumns(pairs))[k];
    forall g | 0 <= g < |dt.index|
      ensures r.cells[k][g] == r.cells[l][g]
    {
      BitOrCommutative(Truncate(dt.cells[g][IndexOf(dt.columns, p.0)]), Truncate(dt.cells[g][IndexOf(dt.columns, p.1)]));
    }
  }

  /** Combining a drug with itself gives its own target column, cast to integers. */
  lemma CombineWithItself(pairs: PairTable, dt: Frame<int, string, real>, k: nat)
    requires Rectangular(pairs) && WellFormed(dt)
    requires Combine(pairs, dt).Ok?
    requires k < |Combine(pairs, dt).value.index|
    requires DropDuplicates(FirstTwoColumns(pairs))[k].0 == DropDuplicates(FirstTwoColumns(pairs))[k].1
    ensures var a := DropDuplicates(FirstTwoColumns(pairs))[k].0;
      a in dt.columns &&
      forall g :: 0 <= g < |dt.index| ==> Combine(pairs, dt).value.cells[k][g] == Truncate(dt.cells[g][IndexOf(dt.columns, a)])
  {
    CombineRows(pairs, dt);
    var a := DropDuplicates(FirstTwoColumns(pairs))[k].0;
    forall g | 0 <= g < |dt.index|
      ensures Combine(pairs, dt).value.cells[k][g] == Truncate(dt.cells[g][IndexOf(dt.columns, a)])
    {
      BitOrIdempotent(Truncate(dt.cells[g][IndexOf(dt.columns, a)]));
    }
  }
}
