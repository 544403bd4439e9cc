/**
  The simulated propagation of random_test.py: drug target profiles read
  from the chemicals table (`create_drugs_profiles`), and their product with a
  gene-gene network whose diagonal is 1 (`network_propagation`).
 */
module RandomTest {
  import opened Wrappers
  import opened Matrices
  import opened Frames
  import opened NetworkBuilder
  import opened PyText

  /** A row of the genes table: its `entrez` id and its `symbol`. */
  datatype Gene = Gene(entrez: int, symbol: string)

  /**
    A row of the chemicals table: its `Name` and its `combin_entrez` cell,
    None when that cell is not a string (a missing value).
   */
  datatype Chemical = Chemical(name: string, combinEntrez: Option<string>)

  function Entrez(genes: seq<Gene>): (ids: seq<int>)
    ensures |ids| == |genes| && forall j :: 0 <= j < |genes| ==> ids[j] == genes[j].entrez
  {
    seq(|genes|, j requires 0 <= j < |genes| => genes[j].entrez)
  }

  function Symbols(genes: seq<Gene>): (names: seq<string>)
    ensures |names| == |genes| && forall j :: 0 <= j < |genes| ==> names[j] == genes[j].symbol
  {
    seq(|genes|, j requires 0 <= j < |genes| => genes[j].symbol)
  }

  function Names(chems: seq<Chemical>): (names: seq<string>)
    ensures |names| == |chems| && forall i :: 0 <= i < |chems| ==> names[i] == chems[i].name
  {
    seq(|chems|, i requires 0 <= i < |chems| => chems[i].name)
  }

  /** The comma-separated tokens of a chemical's target list; none when the cell is not a string. */
  function Tokens(c: Chemical): seq<string> {
    if c.combinEntrez.Some? then Split(c.combinEntrez.value, ',') else []
  }

  /** One of the first `upto` tokens parses to `x`. */
  predicate ListedBefore(tokens: seq<string>, upto: nat, x: int)
    requires upto <= |tokens|
  {
    exists u :: 0 <= u < upto && ParseInt(tokens[u]) == Some(x)
  }

  /** The chemical's target list names the id `x`. */
  predicate Lists(c: Chemical, x: int) {
    ListedBefore(Tokens(c), |Tokens(c)|, x)
  }

  /** The chemical's target list holds a token `int()` rejects. */
  predicate Malformed(c: Chemical) {
    exists u :: 0 <= u < |Tokens(c)| && ParseInt(Tokens(c)[u]) == None
  }

  /** One of the first `upto` chemicals is called `name` and lists `x`. */
  predicate MarkedBy(chems: seq<Chemical>, upto: nat, name: string, x: int)
    requires upto <= |chems|
  {
    exists k :: 0 <= k < upto && chems[k].name == name && Lists(chems[k], x)
  }

  /**
    The profile table the chemicals describe, genes by drugs: cell (j, i) is 1
    when some chemical with drug i's name lists gene j's id, and 0 otherwise.
    Assignment goes by label, so chemicals sharing a name share a profile.
   */
  function Profile(chems: seq<Chemical>, genes: seq<Gene>): (p: Matrix)
    ensures IsMatrix(p, |genes|, |chems|)
  {
    seq(|genes|, j requires 0 <= j < |genes| =>
      seq(|chems|, i requires 0 <= i < |chems| =>
        if MarkedBy(chems, |chems|, chems[i].name, genes[j].entrez) then 1.0 else 0.0))
  }

  lemma ListedStep(tokens: seq<string>, t: nat, x: int)
    requires t < |tokens|
    ensures ListedBefore(tokens, t + 1, x) <==> ListedBefore(tokens, t, x) || ParseInt(tokens[t]) == Some(x)
  {
  }

  lemma MarkedStep(chems: seq<Chemical>, k: nat, name: string, x: int)
    requires k < |chems|
    ensures MarkedBy(chems, k + 1, name, x) <==> MarkedBy(chems, k, name, x) || (chems[k].name == name && Lists(chems[k], x))
  {
  }

  /**
    `profile.loc[name, col] = 1`: assignment by label writes column `col` of
    every row labelled `name`.
   */
  method MarkLabel(m: array2<real>, names: seq<string>, name: string, col: nat)
    requires m.Length0 == |names| && col < m.Length1
    modifies m
    ensures forall e, j :: 0 <= e < m.Length0 && 0 <= j < m.Length1 ==>
      m[e, j] == (if j == col && names[e] == name then 1.0 else old(m[e, j]))
  {
    for i := 0 to |names|
      invariant forall e, j :: 0 <= e < m.Length0 && 0 <= j < m.Length1 ==>
        m[e, j] == (if j == col && e < i && names[e] == name then 1.0 else old(m[e, j]))
    {
      if names[i] == name {
        m[i, col] := 1.0;
      }
    }
  }

  /**
    The body of the loop over chemicals for chemical `k`: each token of its
    target list is parsed, and an id in the universe marks the chemical's name
    in that gene's column. The first token `int()` rejects stops the run.
   */
  method MarkTargets(m: array2<real>, chems: seq<Chemical>, k: nat, entrez: seq<int>) returns (bad: Option<string>)
    requires Distinct(entrez) && k < |chems|
    requires m.Length0 == |chems| && m.Length1 == |entrez|
    modifies m
    ensures bad.Some? ==> Malformed(chems[k]) && ParseInt(bad.value) == None
    ensures bad.None? ==> !Malformed(chems[k])
    ensures bad.None? ==> forall e, j :: 0 <= e < |chems| && 0 <= j < |entrez| ==>
      m[e, j] == (if chems[e].name == chems[k].name && Lists(chems[k], entrez[j]) then 1.0 else old(m[e, j]))
  {
    var names := Names(chems);
    var tokens := Tokens(chems[k]);
    for t := 0 to |tokens|
      invariant forall u :: 0 <= u < t ==> ParseInt(tokens[u]) != None
      invariant forall e, j :: 0 <= e < |chems| && 0 <= j < |entrez| ==>
        m[e, j] == (if chems[e].name == chems[k].name && ListedBefore(tokens, t, entrez[j]) then 1.0 else old(m[e, j]))
    {
      var parsed := ParseInt(tokens[t]);
      if parsed == None {
        assert Malformed(chems[k]);
        return Some(tokens[t]);
      }
      var target := parsed.value;
      forall j | 0 <= j < |entrez|
        ensures ListedBefore(tokens, t + 1, entrez[j]) <==> ListedBefore(tokens, t, entrez[j]) || entrez[j] == target
      {
        ListedStep(tokens, t, entrez[j]);
      }
      if target in entrez {
        MarkLabel(m, names, chems[k].name, IndexOf(entrez, target));
      }
    }
    bad := None;
  }

  /** The drugs-by-genes cell of chemical `i` for id `x` once the first `upto` chemicals are read. */
  function Mark(chems: seq<Chemical>, upto: nat, i: nat, x: int): real
    requires upto <= |chems| && i < |chems|
  {
    if MarkedBy(chems, upto, chems[i].name, x) then 1.0 else 0.0
  }

  /** Reading chemical `k` sets to 1 the cells of its name for the ids it lists, and changes nothing else. */
  lemma MarkAfter(chems: seq<Chemical>, k: nat, entrez: seq<int>)
    requires k < |chems|
    ensures forall i, j :: 0 <= i < |chems| && 0 <= j < |entrez| ==>
      Mark(chems, k + 1, i, entrez[j]) ==
        if chems[i].name == chems[k].name && Lists(chems[k], entrez[j]) then 1.0 else Mark(chems, k, i, entrez[j])
  {
    forall i, j | 0 <= i < |chems| && 0 <= j < |entrez|
      ensures Mark(chems, k + 1, i, entrez[j]) ==
        if chems[i].name == chems[k].name && Lists(chems[k], entrez[j]) then 1.0 else Mark(chems, k, i, entrez[j])
    {
      MarkedStep(chems, k, chems[i].name, entrez[j]);
    }
  }

  /** The array holds the marks of the first `k` chemicals, drugs by genes. */
  predicate MarkedUpTo(m: array2<real>, chems: seq<Chemical>, k: nat, entrez: seq<int>)
    requires k <= |chems|
    reads m
  {
    m.Length0 == |chems| && m.Length1 == |entrez| &&
    forall i, j :: 0 <= i < |chems| && 0 <= j < |entrez| ==> m[i, j] == Mark(chems, k, i, entrez[j])
  }

  /** One pass of the loop over chemicals: read chemical `k` into the marks, or report its rejected token. */
  method ReadChemical(m: array2<real>, chems: seq<Chemical>, k: nat, entrez: seq<int>) returns (bad: Option<string>)
    requires Distinct(entrez) && k < |chems| && MarkedUpTo(m, chems, k, entrez)
    modifies m
    ensures bad.Some? ==> Malformed(chems[k]) && ParseInt(bad.value) == None
    ensures bad.None? ==> !Malformed(chems[k]) && MarkedUpTo(m, chems, k + 1, entrez)
  {
    bad := MarkTargets(m, chems, k, entrez);
    if bad.None? {
      MarkAfter(chems, k, entrez);
    }
  }

  /** The marks of all chemicals, transposed to genes by drugs, are the profile. */
  lemma ProfileOfMarks(chems: seq<Chemical>, genes: seq<Gene>, a: Matrix)
    requires IsMatrix(a, |chems|, |genes|)
    requires forall i, j :: 0 <= i < |chems| && 0 <= j < |genes| ==> a[i][j] == Mark(chems, |chems|, i, Entrez(genes)[j])
    ensures Transpose(a, |genes|) == Profile(chems, genes)
  {
    var t, p := Transpose(a, |genes|), Profile(chems, genes);
    forall j, i | 0 <= j < |genes| && 0 <= i < |chems|
      ensures t[j][i] == p[j][i]
    {
      assert t[j][i] == a[i][j] == Mark(chems, |chems|, i, Entrez(genes)[j]);
      assert Entrez(genes)[j] == genes[j].entrez;
    }
    MatrixEquality(t, p, |genes|, |chems|);
  }

  /**
    `create_drugs_profiles`: a drugs-by-genes table of zeros, then for every
    chemical whose target list is a string, every comma-separated token is
    parsed with `int()` and, when the id is in the gene universe, the drug's
    cells for that gene are set to 1. A token `int()` rejects raises a
    ValueError (Err, carrying the token). The result is returned transposed:
    gene symbols by drug names.
   */
  method CreateDrugsProfiles(chems: seq<Chemical>, genes: seq<Gene>) returns (r: Result<Frame<string, string, real>, string>)
    requires Distinct(Entrez(genes))
    ensures r.Err? <==> exists k :: 0 <= k < |chems| && Malformed(chems[k])
    ensures r.Err? ==> ParseInt(r.error) == None
    ensures r.Ok? ==> r.value == Frame(Symbols(genes), Names(chems), Profile(chems, genes))
  {
    var n, g := |chems|, |genes|;
    var entrez := Entrez(genes);
    var m := new real[n, g]((i, j) => 0.0);
    for k := 0 to n
      invariant forall c :: 0 <= c < k ==> !Malformed(chems[c])
      invariant MarkedUpTo(m, chems, k, entrez)
    {
      var bad := ReadChemical(m, chems, k, entrez);
      if bad.Some? {
        return Err(bad.value);
      }
    }
    var a := Snapshot(m);
    assert Transpose(a, g) == Profile(chems, genes) by {
      ProfileOfMarks(chems, genes, a);
    }
    r := Ok(Frame(Symbols(genes), Names(chems), Transpose(a, g)));
  }

  // ---------------------------------------------------------------------
  // Properties of the profile specification

  /** Every cell of the profile is 0 or 1, and chemicals sharing a name share a column. */
  lemma ProfileShape(chems: seq<Chemical>, genes: seq<Gene>)
    ensures Binary(Profile(chems, genes), |genes|, |chems|)
    ensures forall i, i', j :: 0 <= i < |chems| && 0 <= i' < |chems| && 0 <= j < |genes| && chems[i].name == chems[i'].name ==>
      Profile(chems, genes)[j][i] == Profile(chems, genes)[j][i']
  {
  }

  /**
    A chemical whose target cell is not a string is skipped: appending one to
    the table leaves the profile of every earlier chemical as it was.
   */
  lemma MissingTargetsSkipped(chems: seq<Chemical>, c: Chemical, genes: seq<Gene>)
    requires c.combinEntrez.None?
    ensures forall j, i :: 0 <= j < |genes| && 0 <= i < |chems| ==>
      Profile(chems + [c], genes)[j][i] == Profile(chems, genes)[j][i]
  {
    var all := chems + [c];
    forall j, i | 0 <= j < |genes| && 0 <= i < |chems|
      ensures Profile(all, genes)[j][i] == Profile(chems, genes)[j][i]
    {
      var name, x := chems[i].name, genes[j].entrez;
      MarkedStep(all, |chems|, name, x);
      assert !Lists(c, x);
      if MarkedBy(chems, |chems|, name, x) {
        var k :| 0 <= k < |chems| && chems[k].name == name && Lists(chems[k], x);
        assert all[k] == chems[k];
      }
      if MarkedBy(all, |chems|, name, x) {
        var k :| 0 <= k < |chems| && all[k].name == name && Lists(all[k], x);
        assert all[k] == chems[k];
      }
    }
  }

  /**
    A drug whose target cell is not a string, and which shares its name with
    no chemical that has a target list, keeps an all-zero profile.
   */
  lemma SkippedDrugHasZeroProfile(chems: seq<Chemical>, genes: seq<Gene>, i: nat)
    requires i < |chems|
    requires forall k :: 0 <= k < |chems| && chems[k].name == chems[i].name ==> chems[k].combinEntrez.None?
    ensures forall j :: 0 <= j < |genes| ==> Profile(chems, genes)[j][i] == 0.0
  {
  }

  /** The decimal renderings of the ids, as `",".join(map(str, ids))` writes them. */
  function Rendered(ids: seq<int>): (tokens: seq<string>)
    ensures |tokens| == |ids| && forall u :: 0 <= u < |ids| ==> tokens[u] == Show(ids[u])
  {
    seq(|ids|, u requires 0 <= u < |ids| => Show(ids[u]))
  }

  lemma {:induction false} NoCommaInShowNat(n: nat)
    ensures ',' !in ShowNat(n)
  {
    var s := ShowNat(n);
    assert forall i :: 0 <= i < |s| ==> s[i] != ',';
  }

  /**
    A target list written as the comma-joined decimal ids lists exactly those
    ids: splitting on commas recovers the tokens, and `int()` reads each back.
   */
  lemma ListsRendered(c: Chemical, ids: seq<int>, x: int)
    requires |ids| > 0
    requires c.combinEntrez == Some(Join(Rendered(ids), ','))
    ensures Lists(c, x) <==> x in ids
  {
    var tokens := Rendered(ids);
    forall u | 0 <= u < |tokens|
      ensures ',' !in tokens[u]
    {
      var v := ids[u];
      NoCommaInShowNat(if v < 0 then -v else v);
      assert v < 0 ==> tokens[u] == "-" + ShowNat(-v);
    }
    SplitJoin(tokens, ',');
    assert Tokens(c) == tokens;
    forall u | 0 <= u < |ids|
      ensures ParseInt(tokens[u]) == Some(ids[u])
    {
      ParseShow(ids[u]);
    }
    if x in ids {
      var u :| 0 <= u < |ids| && ids[u] == x;
      assert ParseInt(Tokens(c)[u]) == Some(x);
    }
  }

  // ---------------------------------------------------------------------
  // network_propagation: a product with a network whose diagonal is 1

  /**
    The network matrix of `network_propagation`: zeros, 1 on the diagonal for
    every gene of the universe, then the edges written symmetrically.
   */
  method SelfLoopNetwork(edges: seq<Edge>, entrez: seq<int>) returns (n: Matrix)
    requires Distinct(entrez)
    ensures n == NetworkMatrix(edges, entrez, 1.0)
  {
    var size := |entrez|;
    var m := new real[size, size]((i, j) => 0.0);
    for i := 0 to size
      invariant forall e, h :: 0 <= e < size && 0 <= h < size ==> m[e, h] == (if e == h && e < i then 1.0 else 0.0)
    {
      m[i, i] := 1.0;
    }
    FillEdges(m, edges, entrez);
    n := Snapshot(m);
    MatrixEquality(n, NetworkMatrix(edges, entrez, 1.0), size, size);
  }

  /** The unnormalised product: each drug's target row times the network matrix. */
  function Simulated(dt: Matrix, net: Matrix, genes: nat): (p: Matrix)
    requires IsMatrix(net, genes, genes) && forall d :: 0 <= d < |dt| ==> |dt[d]| == genes
    ensures IsMatrix(p, |dt|, genes)
    ensures forall d, g :: 0 <= d < |dt| && 0 <= g < genes ==> p[d][g] == Dot(dt[d], Column(net, g))
  {
    MatMul(dt, net, genes)
  }

  /**
    `network_propagation`: the profile rows are selected by the genes'
    symbols (`drug_target.loc[genes['symbol'], :]`), transposed to drugs by
    genes, and multiplied by the diagonal-1 network. The result is labelled
    drugs by gene symbols. A symbol missing from the profile raises a
    KeyError; a symbol on several rows gives a selection whose shape the
    product rejects.
   */
  method NetworkPropagation(edges: seq<Edge>, genes: seq<Gene>, profile: Frame<string, string, real>)
    returns (r: Result<Frame<string, string, real>, LocError>)
    requires Distinct(Entrez(genes)) && WellFormed(profile)
    ensures r.Err? <==> SelectRows(profile.index, profile.cells, Symbols(genes)).Err?
    ensures r.Err? ==> r.error == SelectRows(profile.index, profile.cells, Symbols(genes)).error
    ensures r.Ok? ==> r.value.index == profile.columns && r.value.columns == Symbols(genes) && WellFormed(r.value)
    ensures r.Ok? ==> (r.value.cells ==
      Simulated(Transpose(SelectRows(profile.index, profile.cells, Symbols(genes)).value, |profile.columns|),
                NetworkMatrix(edges, Entrez(genes), 1.0), |genes|))
  {
    var net := SelfLoopNetwork(edges, Entrez(genes));
    var selected := SelectRows(profile.index, profile.cells, Symbols(genes));
    if selected.Err? {
      return Err(selected.error);
    }
    var dt := Transpose(selected.value, |profile.columns|);
    r := Ok(Frame(profile.columns, Symbols(genes), Simulated(dt, net, |genes|)));
  }

  /**
    For a 0/1 profile and association weights in [0, 1] over a network without
    self-loop edges: every cell of the product is nonnegative, a drug's own
    targets score at least 1 (the diagonal passes each target through), and a
    drug with no targets in the universe scores 0 everywhere.
   */
  lemma SimulatedProperties(edges: seq<Edge>, entrez: seq<int>, dt: Matrix)
    requires Distinct(entrez)
    requires forall k :: 0 <= k < |edges| ==> 0.0 <= edges[k].association <= 1.0
    requires forall k :: 0 <= k < |edges| ==> edges[k].a != edges[k].b
    requires IsMatrix(dt, |dt|, |entrez|) && Binary(dt, |dt|, |entrez|)
    ensures forall d, g :: 0 <= d < |dt| && 0 <= g < |entrez| ==>
      0.0 <= Simulated(dt, NetworkMatrix(edges, entrez, 1.0), |entrez|)[d][g]
    ensures forall d, g :: 0 <= d < |dt| && 0 <= g < |entrez| && dt[d][g] == 1.0 ==>
      1.0 <= Simulated(dt, NetworkMatrix(edges, entrez, 1.0), |entrez|)[d][g]
    ensures forall d :: 0 <= d < |dt| && (forall g :: 0 <= g < |entrez| ==> dt[d][g] == 0.0) ==>
      forall g :: 0 <= g < |entrez| ==> Simulated(dt, NetworkMatrix(edges, entrez, 1.0), |entrez|)[d][g] == 0.0
  {
    var net := NetworkMatrix(edges, entrez, 1.0);
    NetworkMatrixShape(edges, entrez, 1.0);
    NetworkMatrixInUnitRange(edges, entrez, 1.0);
    var p := Simulated(dt, net, |entrez|);
    forall d, g | 0 <= d < |dt| && 0 <= g < |entrez|
      ensures 0.0 <= p[d][g]
      ensures dt[d][g] == 1.0 ==> 1.0 <= p[d][g]
      ensures (forall h :: 0 <= h < |entrez| ==> dt[d][h] == 0.0) ==> p[d][g] == 0.0
    {
      var col := Column(net, g);
      DotNonNegative(dt[d], col);
      DotAtLeastTerm(dt[d], col, g);
      assert col[g] == 1.0;
      if forall h :: 0 <= h < |entrez| ==> dt[d][h] == 0.0 {
        DotZeroWeights(dt[d], col);
      }
    }
  }
}
