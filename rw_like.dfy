/**
  The diffusion ("RW-like") propagator of network_propagation.py
  (`RWlike_network_propagation`): one step of linear diffusion,
  `max(DT . rownorm(N), DT)`, with DT the drugs x genes target matrix and
  rownorm(N) the network matrix normalised along axis 0.
 */
module RWLike {
  import opened Wrappers
  import opened Matrices
  import opened Frames
  import opened NetworkBuilder
  import opened Normalize

  /** `np.array([DT . rownorm(N), DT]).max(axis = 0)`. */
  function RWLikeMatrix(dt: Matrix, net: Matrix): (r: Matrix)
    requires IsMatrix(net, |net|, |net|) && IsMatrix(dt, |dt|, |net|)
    ensures IsMatrix(r, |dt|, |net|)
  {
    ElementwiseMax(MatMul(dt, Normalized(net, |net|, |net|, AxisNumber(0)), |net|), dt, |dt|, |net|)
  }

  /**
    As written: a direct target reads at least 1, every cell is at least its
    target entry, and with a 0/1 target matrix and a nonnegative network every
    cell is nonnegative and a drug without targets gets a zero row.
   */
  lemma RWLikeProperties(dt: Matrix, net: Matrix)
    requires IsMatrix(net, |net|, |net|) && IsMatrix(dt, |dt|, |net|)
    ensures forall d, g :: 0 <= d < |dt| && 0 <= g < |net| ==> dt[d][g] <= RWLikeMatrix(dt, net)[d][g]
    ensures Binary(dt, |dt|, |net|) && Within(net, |net|, |net|, 0.0, 1.0) ==>
      forall d, g :: 0 <= d < |dt| && 0 <= g < |net| ==> 0.0 <= RWLikeMatrix(dt, net)[d][g]
    ensures forall d, g :: 0 <= d < |dt| && 0 <= g < |net| && (forall k :: 0 <= k < |net| ==> dt[d][k] == 0.0) ==>
      RWLikeMatrix(dt, net)[d][g] == 0.0
  {
    var n := |net|;
    var p := MatMul(dt, Normalized(net, n, n, AxisNumber(0)), n);
    forall d, g | 0 <= d < |dt| && 0 <= g < n && (forall k :: 0 <= k < n ==> dt[d][k] == 0.0)
      ensures RWLikeMatrix(dt, net)[d][g] == 0.0
    {
      DotZeroWeights(dt[d], Column(Normalized(net, n, n, AxisNumber(0)), g));
    }
  }

  /**
    The same diffusion with the network normalised along axis 1 (each column
    sums to 1), so that a cell of `DT . colnorm(N)` is a 0/1-weighted part of
    one column and never exceeds 1.
   */
  function RWLikeCorrectedMatrix(dt: Matrix, net: Matrix): (r: Matrix)
    requires IsMatrix(net, |net|, |net|) && IsMatrix(dt, |dt|, |net|)
    ensures IsMatrix(r, |dt|, |net|)
  {
    ElementwiseMax(MatMul(dt, Normalized(net, |net|, |net|, AxisNumber(1)), |net|), dt, |dt|, |net|)
  }

  lemma ColumnOfColumnNormalized(m: Matrix, rows: nat, cols: nat, j: nat)
    requires IsMatrix(m, rows, cols) && j < cols
    ensures Column(Normalized(m, rows, cols, AxisNumber(1)), j) == NormalizeVector(Column(m, j))
  {
  }

  /**
    With a 0/1 target matrix and a nonnegative network, the corrected
    diffusion keeps every cell in [0, 1] and a direct target reads exactly 1,
    as the source's comment promises for the diffusion.
   */
  lemma RWLikeCorrectedInUnitRange(dt: Matrix, net: Matrix)
    requires IsMatrix(net, |net|, |net|) && IsMatrix(dt, |dt|, |net|)
    requires Binary(dt, |dt|, |net|)
    requires forall i, j :: 0 <= i < |net| && 0 <= j < |net| ==> 0.0 <= net[i][j]
    ensures Within(RWLikeCorrectedMatrix(dt, net), |dt|, |net|, 0.0, 1.0)
    ensures forall d, g :: 0 <= d < |dt| && 0 <= g < |net| && dt[d][g] == 1.0 ==> RWLikeCorrectedMatrix(dt, net)[d][g] == 1.0
  {
    var n := |net|;
    var cn := Normalized(net, n, n, AxisNumber(1));
    var r := RWLikeCorrectedMatrix(dt, net);
    forall d, g | 0 <= d < |dt| && 0 <= g < n
      ensures 0.0 <= r[d][g] <= 1.0
      ensures dt[d][g] == 1.0 ==> r[d][g] == 1.0
    {
      ColumnOfColumnNormalized(net, n, n, g);
      NormalizeNonNegative(Column(net, g));
      DotBetweenZeroAndSum(dt[d], Column(cn, g));
    }
  }

  /** The network of the finding: genes 1 and 3 each linked to gene 2 with weight 1. */
  function StarNet(): Matrix {
    [[0.0, 1.0, 0.0], [1.0, 0.0, 1.0], [0.0, 1.0, 0.0]]
  }

  lemma StarNetwork()
    ensures NetworkMatrix([Edge(1, 2, 1.0), Edge(3, 2, 1.0)], [1, 2, 3], 0.0) == StarNet()
  {
    var edges, genes := [Edge(1, 2, 1.0), Edge(3, 2, 1.0)], [1, 2, 3];
    var net := NetworkMatrix(edges, genes, 0.0);
    forall i, j | 0 <= i < 3 && 0 <= j < 3
      ensures net[i][j] == StarNet()[i][j]
    {
      var x, y := genes[i], genes[j];
      assert edges[..1] == [Edge(1, 2, 1.0)] && edges[..1][..0] == [];
      assert CellAfter(edges[..1][..0], genes, x, y, 0.0) == 0.0;
      assert CellAfter(edges[..1], genes, x, y, 0.0) == if Writes(edges[0], genes, x, y) then 1.0 else 0.0;
      assert net[i][j] == CellAfter(edges, genes, x, y, 0.0);
    }
    MatrixEquality(net, StarNet(), 3, 3);
  }

  /**
    The finding, as written: over the network `StarNet` a drug targeting all
    three genes meets the row-normalised network [[0, 1, 0], [1/2, 0, 1/2],
    [0, 1, 0]]; the product row is [1/2, 2, 1/2], and target gene 2 reads 2:
    the diffusion exceeds 1.
   */
  lemma RWLikeExceedsOne()
    ensures RWLikeMatrix([[1.0, 1.0, 1.0]], StarNet())[0][1] == 2.0
  {
    var star := StarNet();
    var rn := Normalized(star, 3, 3, AxisNumber(0));
    assert Column(rn, 1) == [1.0, 0.0, 1.0] by {
      assert Sum(star[1]) == 2.0;
      assert Sum(star[0]) == 1.0 && Sum(star[2]) == 1.0;
    }
  }

  /**
    The same network breaks the promise for a non-target gene too: a drug
    targeting genes 1 and 3 only gets the product row [0, 2, 0], so gene 2,
    which it does not target, reads 2.
   */
  lemma RWLikeNonTargetExceedsOne()
    ensures RWLikeMatrix([[1.0, 0.0, 1.0]], StarNet())[0][1] == 2.0
  {
    var star := StarNet();
    var rn := Normalized(star, 3, 3, AxisNumber(0));
    assert Column(rn, 1) == [1.0, 0.0, 1.0] by {
      assert Sum(star[1]) == 2.0;
      assert Sum(star[0]) == 1.0 && Sum(star[2]) == 1.0;
    }
  }

  // ---------------------------------------------------------------------
  // The entry point, computation only (the result-file cache is not modelled)

  /**
    `RWlike_network_propagation`: build the network over `genes`, normalise
    its rows, take the genes' rows of the genes x drugs table and transpose
    them, multiply, then raise every cell to at least its target entry. The
    result is indexed by the table's drugs and the universe's genes.
   */
  method RWLikePropagation(edges: seq<Edge>, genes: seq<int>, table: Frame<int, string, real>)
    returns (r: Result<Frame<string, int, real>, LocError>)
    requires Distinct(genes) && WellFormed(table)
    ensures SelectRows(table.index, table.cells, genes).Err? ==> r == Err(SelectRows(table.index, table.cells, genes).error)
    ensures SelectRows(table.index, table.cells, genes).Ok? ==>
      r == Ok(Frame(table.columns, genes,
        RWLikeMatrix(Transpose(SelectRows(table.index, table.cells, genes).value, |table.columns|),
                     NetworkMatrix(edges, genes, 0.0))))
    ensures r.Ok? ==> forall d, g ::
              (0 <= d < |table.columns| && 0 <= g < |genes| &&
               table.cells[IndexOf(table.index, genes[g])][d] == 1.0) ==> 1.0 <= r.value.cells[d][g]
  {
    var n := |genes|;
    var network := GetMatrixFromNetwork(edges, genes);
    var normalized := NormalizeMatrix(network, n, n, AxisNumber(0));
    var picked := SelectRows(table.index, table.cells, genes);
    if picked.Err? {
      return Err(picked.error);
    }
    assert IsMatrix(picked.value, n, |table.columns|) by {
      forall k | 0 <= k < n ensures |picked.value[k]| == |table.columns| {
        assert picked.value[k] == table.cells[IndexOf(table.index, genes[k])];
      }
    }
    var dt := Transpose(picked.value, |table.columns|);
    var product := MatMul(dt, normalized, n);
    var result := ElementwiseMax(product, dt, |dt|, n);
    RWLikeProperties(dt, network);
    r := Ok(Frame(table.columns, genes, result));
  }
}
