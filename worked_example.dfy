/**
  A worked example over the universe G = [1, 2, 3] with edges 1-2 (0.4) and
  2-3 (0.6), and one drug D targeting gene 1. The max-probability view gives
  D the row [1, 0.4, 0]; the diffusion gives [1, 1, 0], because row 1 of the
  network, [0, 0.4, 0], normalises to [0, 1, 0].
 */
module WorkedExample {
  import opened Matrices
  import opened NetworkBuilder
  import opened MaxProbability
  import opened Normalize
  import opened RWLike

  function ExampleEdges(): seq<Edge> {
    [Edge(1, 2, 0.4), Edge(2, 3, 0.6)]
  }

  function ExampleGenes(): seq<int> {
    [1, 2, 3]
  }

  /** The network matrix of the example (`ExampleNetwork`): symmetric, zero diagonal, the two weights in place. */
  function ExampleNet(): Matrix {
    [[0.0, 0.4, 0.0], [0.4, 0.0, 0.6], [0.0, 0.6, 0.0]]
  }

  lemma ExampleNetwork()
    ensures NetworkMatrix(ExampleEdges(), ExampleGenes(), 0.0) == ExampleNet()
  {
    var edges, genes := ExampleEdges(), ExampleGenes();
    var net := NetworkMatrix(edges, genes, 0.0);
    forall i, j | 0 <= i < 3 && 0 <= j < 3
      ensures net[i][j] == ExampleNet()[i][j]
    {
      var x, y := genes[i], genes[j];
      assert edges[..1] == [Edge(1, 2, 0.4)] && edges[..1][..0] == [];
      assert CellAfter(edges[..1][..0], genes, x, y, 0.0) == 0.0;
      assert CellAfter(edges[..1], genes, x, y, 0.0) == if Writes(edges[0], genes, x, y) then 0.4 else 0.0;
      assert net[i][j] == CellAfter(edges, genes, x, y, 0.0);
    }
    MatrixEquality(net, ExampleNet(), 3, 3);
  }

  lemma LinkToGene2()
    ensures Influence([1.0, 0.0, 0.0], ExampleNet()[1], 1) == 0.4
  {
    assert Products([1.0, 0.0, 0.0], ExampleNet()[1]) == [0.4, 0.0, 0.0];
    assert MaxOf([0.4, 0.0, 0.0]) == 0.4;
  }

  lemma NoLinkToGene3()
    ensures Influence([1.0, 0.0, 0.0], ExampleNet()[2], 2) == 0.0
  {
    assert Products([1.0, 0.0, 0.0], ExampleNet()[2]) == [0.0, 0.0, 0.0];
    assert MaxOf([0.0, 0.0, 0.0]) == 0.0;
  }

  /** The max-probability row of D: its target reads 1, gene 2 its link to gene 1, gene 3 nothing. */
  lemma ExampleMaxProbability()
    ensures MaxProbabilityMatrix([[1.0, 0.0, 0.0]], ExampleNet()) == [[1.0, 0.4, 0.0]]
  {
    var dt := [1.0, 0.0, 0.0];
    var r := MaxProbabilityMatrix([dt], ExampleNet());
    assert r[0][0] == 1.0;
    assert r[0][1] == 0.4 by {
      LinkToGene2();
    }
    assert r[0][2] == 0.0 by {
      NoLinkToGene3();
    }
    MatrixEquality(r, [[1.0, 0.4, 0.0]], 1, 3);
  }

  /** The diffusion row of D: gene 2 reads 1, the whole of row 1 of the row-normalised network. */
  lemma ExampleRWLike()
    ensures RWLikeMatrix([[1.0, 0.0, 0.0]], ExampleNet()) == [[1.0, 1.0, 0.0]]
  {
    var net := ExampleNet();
    var dt := [1.0, 0.0, 0.0];
    var rn := Normalized(net, 3, 3, AxisNumber(0));
    assert rn[0] == [0.0, 1.0, 0.0] by {
      assert Sum(net[0]) == 0.4;
      assert NormalizeVector(net[0]) == [0.0, 1.0, 0.0];
    }
    var p := MatMul([dt], rn, 3);
    forall g | 0 <= g < 3
      ensures p[0][g] == rn[0][g]
    {
      assert Dot(dt, Column(rn, g)) == 1.0 * rn[0][g] + Dot(dt[1..], Column(rn, g)[1..]);
      DotZeroWeights(dt[1..], Column(rn, g)[1..]);
    }
    MatrixEquality(RWLikeMatrix([dt], net), [[1.0, 1.0, 0.0]], 1, 3);
  }
}
