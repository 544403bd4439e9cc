/**
  The gene-gene network matrix of network_propagation.py (`get_matrix_from_network`):
  a |G| x |G| matrix over the gene universe G, filled from an edge list. Every edge
  whose two endpoints are in G writes its association weight at [a, b] and at
  [b, a]; the others are skipped. Later edges overwrite earlier ones.

  A cell's value is specified by `CellAfter`: the weight of the last edge in the
  universe that touches the cell's two genes, or the cell's initial value.
 */
module NetworkBuilder {
  import opened Matrices
  import opened Frames

  /** One row of the edge list: `entrez_a`, `entrez_b`, `association`. */
  datatype Edge = Edge(a: int, b: int, association: real)

  /** Edge `e` is written into the matrix (both its ends are in the universe) and lands on cell (x, y). */
  predicate Writes(e: Edge, genes: seq<int>, x: int, y: int) {
    e.a in genes && e.b in genes && ((e.a == x && e.b == y) || (e.a == y && e.b == x))
  }

  /** The value of cell (x, y) after the edges are applied in order to a cell holding `init`. */
  function CellAfter(edges: seq<Edge>, genes: seq<int>, x: int, y: int, init: real): real {
    if |edges| == 0 then init
    else if Writes(edges[|edges| - 1], genes, x, y) then edges[|edges| - 1].association
    else CellAfter(edges[..|edges| - 1], genes, x, y, init)
  }

  /** The network matrix whose cell (i, j) starts at `Seed(i, j)`: `selfWeight` on the diagonal, 0 elsewhere. */
  function Seed(i: nat, j: nat, selfWeight: real): real {
    if i == j then selfWeight else 0.0
  }

  /**
    Applies every edge of the list to `m`, a matrix indexed by `genes` on both
    axes: the edge loop shared by both network builders.
   */
  method FillEdges(m: array2<real>, edges: seq<Edge>, genes: seq<int>)
    requires Distinct(genes)
    requires m.Length0 == |genes| && m.Length1 == |genes|
    modifies m
    ensures forall i, j :: 0 <= i < |genes| && 0 <= j < |genes| ==>
      m[i, j] == CellAfter(edges, genes, genes[i], genes[j], old(m[i, j]))
  {
    for k := 0 to |edges|
      invariant forall i, j :: 0 <= i < |genes| && 0 <= j < |genes| ==>
        m[i, j] == CellAfter(edges[..k], genes, genes[i], genes[j], old(m[i, j]))
    {
      var e := edges[k];
      assert edges[..k + 1][..k] == edges[..k];
      if e.a in genes && e.b in genes {
        var ia := IndexOf(genes, e.a);
        var ib := IndexOf(genes, e.b);
        m[ia, ib] := e.association;
        m[ib, ia] := e.association;
      }
    }
    assert edges[..|edges|] == edges;
  }

  /**
    `get_matrix_from_network`: a zero matrix over the universe, then every edge
    with both ends in the universe, written symmetrically.
   */
  method GetMatrixFromNetwork(edges: seq<Edge>, genes: seq<int>) returns (n: Matrix)
    requires Distinct(genes)
    ensures IsMatrix(n, |genes|, |genes|)
    ensures forall i, j :: 0 <= i < |genes| && 0 <= j < |genes| ==>
      n[i][j] == CellAfter(edges, genes, genes[i], genes[j], 0.0)
    ensures forall i, j :: 0 <= i < |genes| && 0 <= j < |genes| ==> n[i][j] == n[j][i]
    ensures n == NetworkMatrix(edges, genes, 0.0)
  {
    var m := new real[|genes|, |genes|]((i, j) => 0.0);
    FillEdges(m, edges, genes);
    n := Snapshot(m);
    MatrixEquality(n, NetworkMatrix(edges, genes, 0.0), |genes|, |genes|);
    forall i, j | 0 <= i < |genes| && 0 <= j < |genes|
      ensures n[i][j] == n[j][i]
    {
      CellSymmetric(edges, genes, genes[i], genes[j], 0.0);
    }
  }

  /** The network matrix built from the edges over a matrix seeded by `Seed`. */
  function NetworkMatrix(edges: seq<Edge>, genes: seq<int>, selfWeight: real): (n: Matrix)
    ensures IsMatrix(n, |genes|, |genes|)
  {
    seq(|genes|, i requires 0 <= i < |genes| =>
      seq(|genes|, j requires 0 <= j < |genes| => CellAfter(edges, genes, genes[i], genes[j], Seed(i, j, selfWeight))))
  }

  // ---------------------------------------------------------------------
  // Properties of the cell specification

  /** Every cell agrees with its mirror image: the matrix is symmetric. */
  lemma {:induction false} CellSymmetric(edges: seq<Edge>, genes: seq<int>, x: int, y: int, init: real)
    ensures CellAfter(edges, genes, x, y, init) == CellAfter(edges, genes, y, x, init)
  {
    if |edges| > 0 {
      CellSymmetric(edges[..|edges| - 1], genes, x, y, init);
    }
  }

  /** A cell that no edge writes keeps its initial value. */
  lemma {:induction false} CellUnwritten(edges: seq<Edge>, genes: seq<int>, x: int, y: int, init: real)
    requires forall k :: 0 <= k < |edges| ==> !Writes(edges[k], genes, x, y)
    ensures CellAfter(edges, genes, x, y, init) == init
  {
    if |edges| > 0 {
      var front := edges[..|edges| - 1];
      assert forall k :: 0 <= k < |front| ==> front[k] == edges[k];
      CellUnwritten(front, genes, x, y, init);
    }
  }

  /**
    A cell holds the weight of the last edge that writes it: a later duplicate
    edge overwrites an earlier one.
   */
  lemma {:induction false} CellIsLastWriter(edges: seq<Edge>, genes: seq<int>, x: int, y: int, init: real, k: nat)
    requires k < |edges| && Writes(edges[k], genes, x, y)
    requires forall l :: k < l < |edges| ==> !Writes(edges[l], genes, x, y)
    ensures CellAfter(edges, genes, x, y, init) == edges[k].association
  {
    var last := |edges| - 1;
    if k < last {
      var front := edges[..last];
      assert !Writes(edges[last], genes, x, y);
      assert forall l :: k < l < |front| ==> front[l] == edges[l];
      CellIsLastWriter(front, genes, x, y, init, k);
    }
  }

  /** Appending an edge with an end outside the universe leaves every cell as it was. */
  lemma {:induction false} OutsideEdgeSkipped(edges: seq<Edge>, e: Edge, genes: seq<int>, x: int, y: int, init: real)
    requires e.a !in genes || e.b !in genes
    ensures CellAfter(edges + [e], genes, x, y, init) == CellAfter(edges, genes, x, y, init)
  {
    assert (edges + [e])[..|edges|] == edges;
  }

  /** Without self-loop edges no edge writes a diagonal cell, so the diagonal keeps its initial value. */
  lemma {:induction false} DiagonalKept(edges: seq<Edge>, genes: seq<int>, x: int, init: real)
    requires forall k :: 0 <= k < |edges| ==> edges[k].a != edges[k].b
    ensures CellAfter(edges, genes, x, x, init) == init
  {
    if |edges| > 0 {
      DiagonalKept(edges[..|edges| - 1], genes, x, init);
    }
  }

  /** Association weights and initial value in [0, 1] give a cell in [0, 1]. */
  lemma {:induction false} CellInUnitRange(edges: seq<Edge>, genes: seq<int>, x: int, y: int, init: real)
    requires forall k :: 0 <= k < |edges| ==> 0.0 <= edges[k].association <= 1.0
    requires 0.0 <= init <= 1.0
    ensures 0.0 <= CellAfter(edges, genes, x, y, init) <= 1.0
  {
    if |edges| > 0 {
      CellInUnitRange(edges[..|edges| - 1], genes, x, y, init);
    }
  }

  /** The matrix specification is symmetric, and its diagonal is `selfWeight` when no edge is a self-loop. */
  lemma NetworkMatrixShape(edges: seq<Edge>, genes: seq<int>, selfWeight: real)
    requires Distinct(genes)
    ensures forall i, j :: 0 <= i < |genes| && 0 <= j < |genes| ==>
      NetworkMatrix(edges, genes, selfWeight)[i][j] == NetworkMatrix(edges, genes, selfWeight)[j][i]
    ensures (forall k :: 0 <= k < |edges| ==> edges[k].a != edges[k].b) ==>
      forall i :: 0 <= i < |genes| ==> NetworkMatrix(edges, genes, selfWeight)[i][i] == selfWeight
  {
    var n := NetworkMatrix(edges, genes, selfWeight);
    forall i, j | 0 <= i < |genes| && 0 <= j < |genes|
      ensures n[i][j] == n[j][i]
    {
      CellSymmetric(edges, genes, genes[i], genes[j], Seed(i, j, selfWeight));
    }
    if forall k :: 0 <= k < |edges| ==> edges[k].a != edges[k].b {
      forall i | 0 <= i < |genes|
        ensures n[i][i] == selfWeight
      {
        DiagonalKept(edges, genes, genes[i], selfWeight);
      }
    }
  }

  /** With weights in [0, 1] and a seed in [0, 1] every cell of the network matrix is in [0, 1]. */
  lemma NetworkMatrixInUnitRange(edges: seq<Edge>, genes: seq<int>, selfWeight: real)
    requires forall k :: 0 <= k < |edges| ==> 0.0 <= edges[k].association <= 1.0
    requires 0.0 <= selfWeight <= 1.0
    ensures Within(NetworkMatrix(edges, genes, selfWeight), |genes|, |genes|, 0.0, 1.0)
  {
    var n := NetworkMatrix(edges, genes, selfWeight);
    forall i, j | 0 <= i < |genes| && 0 <= j < |genes|
      ensures 0.0 <= n[i][j] <= 1.0
    {
      CellInUnitRange(edges, genes, genes[i], genes[j], Seed(i, j, selfWeight));
    }
  }
}
