/**
  The max-probability propagator of network_propagation.py (`get_max_probability`,
  `target_as_1_network_propagation`, `target_as_0_network_propagation`).

  Given a drugs x genes target matrix and the genes x genes network matrix, a
  direct target cell gets 1 and every other cell (drug d, gene g) gets the
  largest of `target[d, g'] * network[g, g']` over all genes g'. The
  "target as 0" view is one minus that, cell by cell.
 */
module MaxProbability {
  import opened Wrappers
  import opened Matrices
  import opened Frames
  import opened NetworkBuilder

  /** The elementwise product `drug_target.loc[drug, :] * network.loc[gene, :]`. */
  function Products(targets: Vector, links: Vector): (p: Vector)
    requires |targets| == |links|
    ensures |p| == |targets|
    ensures forall k :: 0 <= k < |p| ==> p[k] == targets[k] * links[k]
  {
    seq(|targets|, k requires 0 <= k < |targets| => targets[k] * links[k])
  }

  /** The value `get_max_probability` gives gene `g` of a drug with target row `targets`, `links` being row g of the network. */
  function Influence(targets: Vector, links: Vector, g: nat): real
    requires |targets| == |links| && g < |targets|
  {
    if targets[g] == 1.0 then 1.0 else MaxOf(Products(targets, links))
  }

  /** The drugs x genes result of `get_max_probability`. */
  function MaxProbabilityMatrix(dt: Matrix, net: Matrix): (r: Matrix)
    requires IsMatrix(net, |net|, |net|) && IsMatrix(dt, |dt|, |net|)
    ensures IsMatrix(r, |dt|, |net|)
  {
    seq(|dt|, d requires 0 <= d < |dt| =>
      seq(|net|, g requires 0 <= g < |net| => Influence(dt[d], net[g], g)))
  }

  /** `1 - m`, cell by cell, as pandas subtracts a DataFrame from a number. */
  function OneMinus(m: Matrix, rows: nat, cols: nat): (c: Matrix)
    requires IsMatrix(m, rows, cols)
    ensures IsMatrix(c, rows, cols)
  {
    seq(rows, i requires 0 <= i < rows => seq(cols, j requires 0 <= j < cols => 1.0 - m[i][j]))
  }

  /**
    `get_max_probability`: a zero matrix the shape of the target matrix,
    filled gene by gene (outer loop) and drug by drug (inner loop).
   */
  method GetMaxProbability(dt: Matrix, net: Matrix) returns (r: Matrix)
    requires IsMatrix(net, |net|, |net|) && IsMatrix(dt, |dt|, |net|)
    ensures r == MaxProbabilityMatrix(dt, net)
  {
    var drugs, genes := |dt|, |net|;
    var m := new real[drugs, genes]((i, j) => 0.0);
    for g := 0 to genes
      invariant forall e, h :: 0 <= e < drugs && 0 <= h < genes ==>
        m[e, h] == (if h < g then Influence(dt[e], net[h], h) else 0.0)
    {
      for d := 0 to drugs
        invariant forall e, h :: 0 <= e < drugs && 0 <= h < genes ==>
          m[e, h] == (if h < g || (h == g && e < d) then Influence(dt[e], net[h], h) else 0.0)
      {
        if dt[d][g] == 1.0 {
          m[d, g] := 1.0;
        } else {
          m[d, g] := MaxOf(Products(dt[d], net[g]));
        }
      }
    }
    r := Snapshot(m);
    MatrixEquality(r, MaxProbabilityMatrix(dt, net), drugs, genes);
  }

  // ---------------------------------------------------------------------
  // What a cell means

  /**
    For a 0/1 target row and nonnegative links, the value of a cell that is not
    a target is the strongest link from gene g to any of the drug's targets, or
    0 when the drug has no target: it is at least every target's link, and it
    is either 0 or the link of some target.
   */
  lemma StrongestTargetLink(targets: Vector, links: Vector, g: nat)
    requires |targets| == |links| && g < |targets|
    requires forall k :: 0 <= k < |targets| ==> targets[k] == 0.0 || targets[k] == 1.0
    requires forall k :: 0 <= k < |links| ==> 0.0 <= links[k]
    requires targets[g] != 1.0
    ensures 0.0 <= Influence(targets, links, g)
    ensures forall k :: 0 <= k < |targets| && targets[k] == 1.0 ==> links[k] <= Influence(targets, links, g)
    ensures Influence(targets, links, g) == 0.0 ||
            exists k :: 0 <= k < |targets| && targets[k] == 1.0 && Influence(targets, links, g) == links[k]
    ensures (forall k :: 0 <= k < |targets| ==> targets[k] == 0.0) ==> Influence(targets, links, g) == 0.0
  {
    var p := Products(targets, links);
    var m := MaxOf(p);
    assert p[0] <= m;
    var k :| 0 <= k < |p| && p[k] == m;
    assert m == 0.0 || (targets[k] == 1.0 && m == links[k]);
  }

  /**
    The whole matrix: a direct target reads exactly 1; with a 0/1 target matrix
    and network weights in [0, 1] every cell is in [0, 1], and a drug without
    targets gets a zero row.
   */
  lemma MaxProbabilityProperties(dt: Matrix, net: Matrix)
    requires IsMatrix(net, |net|, |net|) && IsMatrix(dt, |dt|, |net|)
    ensures forall d, g :: 0 <= d < |dt| && 0 <= g < |net| && dt[d][g] == 1.0 ==>
      MaxProbabilityMatrix(dt, net)[d][g] == 1.0
    ensures Binary(dt, |dt|, |net|) && Within(net, |net|, |net|, 0.0, 1.0) ==>
      Within(MaxProbabilityMatrix(dt, net), |dt|, |net|, 0.0, 1.0)
    ensures Binary(dt, |dt|, |net|) && Within(net, |net|, |net|, 0.0, 1.0) ==>
      forall d, g :: 0 <= d < |dt| && 0 <= g < |net| && (forall k :: 0 <= k < |net| ==> dt[d][k] == 0.0) ==>
        MaxProbabilityMatrix(dt, net)[d][g] == 0.0
  {
    var r := MaxProbabilityMatrix(dt, net);
    if Binary(dt, |dt|, |net|) && Within(net, |net|, |net|, 0.0, 1.0) {
      forall d, g | 0 <= d < |dt| && 0 <= g < |net| && dt[d][g] != 1.0
        ensures 0.0 <= r[d][g] <= 1.0
        ensures (forall k :: 0 <= k < |net| ==> dt[d][k] == 0.0) ==> r[d][g] == 0.0
      {
        StrongestTargetLink(dt[d], net[g], g);
      }
    }
  }

  /** `target_as_0`: one minus `target_as_1`; a direct target reads 0, and applying `1 - x` again gives `target_as_1` back. */
  lemma TargetAsZeroProperties(dt: Matrix, net: Matrix)
    requires IsMatrix(net, |net|, |net|) && IsMatrix(dt, |dt|, |net|)
    ensures forall d, g :: 0 <= d < |dt| && 0 <= g < |net| && dt[d][g] == 1.0 ==>
      OneMinus(MaxProbabilityMatrix(dt, net), |dt|, |net|)[d][g] == 0.0
    ensures OneMinus(OneMinus(MaxProbabilityMatrix(dt, net), |dt|, |net|), |dt|, |net|) == MaxProbabilityMatrix(dt, net)
    ensures Binary(dt, |dt|, |net|) && Within(net, |net|, |net|, 0.0, 1.0) ==>
      Within(OneMinus(MaxProbabilityMatrix(dt, net), |dt|, |net|), |dt|, |net|, 0.0, 1.0)
  {
    var r := MaxProbabilityMatrix(dt, net);
    MaxProbabilityProperties(dt, net);
    MatrixEquality(OneMinus(OneMinus(r, |dt|, |net|), |dt|, |net|), r, |dt|, |net|);
  }

  // ---------------------------------------------------------------------
  // The two entry points, computation only (the result-file cache is not modelled)

  /**
    `target_as_1_network_propagation`: build the network over `genes`, pick the
    rows of the genes x drugs target table in the order of `genes`, transpose
    to drugs x genes, and run `get_max_probability`. The result is indexed by
    the table's drugs and the universe's genes.
   */
  method TargetAsOnePropagation(edges: seq<Edge>, genes: seq<int>, table: Frame<int, string, real>)
    returns (r: Result<Frame<string, int, real>, LocError>)
    requires Distinct(genes) && WellFormed(table)
    ensures SelectRows(table.index, table.cells, genes).Err? ==> r == Err(SelectRows(table.index, table.cells, genes).error)
    ensures SelectRows(table.index, table.cells, genes).Ok? ==>
      r == Ok(Frame(table.columns, genes,
        MaxProbabilityMatrix(Transpose(SelectRows(table.index, table.cells, genes).value, |table.columns|),
                             NetworkMatrix(edges, genes, 0.0))))
    ensures r.Ok? ==> forall d, g ::
              (0 <= d < |table.columns| && 0 <= g < |genes| &&
               table.cells[IndexOf(table.index, genes[g])][d] == 1.0) ==> r.value.cells[d][g] == 1.0
  {
    var network := GetMatrixFromNetwork(edges, genes);
    var picked := SelectRows(table.index, table.cells, genes);
    if picked.Err? {
      return Err(picked.error);
    }
    assert IsMatrix(picked.value, |genes|, |table.columns|) by {
      forall k | 0 <= k < |genes| ensures |picked.value[k]| == |table.columns| {
        assert picked.value[k] == table.cells[IndexOf(table.index, genes[k])];
      }
    }
    var dt := Transpose(picked.value, |table.columns|);
    var m := GetMaxProbability(dt, network);
    MaxProbabilityProperties(dt, network);
    r := Ok(Frame(table.columns, genes, m));
  }

  /** `target_as_0_network_propagation`: `1 - target_as_1_network_propagation`. */
  method TargetAsZeroPropagation(edges: seq<Edge>, genes: seq<int>, table: Frame<int, string, real>)
    returns (r: Result<Frame<string, int, real>, LocError>)
    requires Distinct(genes) && WellFormed(table)
    ensures SelectRows(table.index, table.cells, genes).Err? ==> r == Err(SelectRows(table.index, table.cells, genes).error)
    ensures SelectRows(table.index, table.cells, genes).Ok? ==>
      r == Ok(Frame(table.columns, genes,
        OneMinus(MaxProbabilityMatrix(Transpose(SelectRows(table.index, table.cells, genes).value, |table.columns|),
                                      NetworkMatrix(edges, genes, 0.0)), |table.columns|, |genes|)))
    ensures r.Ok? ==> forall d, g ::
              (0 <= d < |table.columns| && 0 <= g < |genes| &&
               table.cells[IndexOf(table.index, genes[g])][d] == 1.0) ==> r.value.cells[d][g] == 0.0
  {
    var one := TargetAsOnePropagation(edges, genes, table);
    if one.Err? {
      return Err(one.error);
    }
    r := Ok(Frame(one.value.index, one.value.columns, OneMinus(one.value.cells, |table.columns|, |genes|)));
  }
}
