# Drug-target network propagation, modelled in Dafny

This project models the matrix core of a drug-combination feature pipeline. Drugs have target genes. A gene-gene interaction network (edges with an association weight) spreads each drug's targets over a universe G of genes (distinct Entrez ids), producing per-drug feature rows:

- **Network matrix** (`get_matrix_from_network`): a |G| x |G| matrix of zeros. Every edge whose two ends are in G is written at [a, b] and [b, a]; later edges overwrite earlier ones. The variant in random_test.py first puts 1 on the diagonal.
- **Max-probability propagation** (`get_max_probability`, `target_as_1_network_propagation`):
  - a target cell reads 1;
  - every other cell (drug d, gene g) reads the largest `target[d, g'] * N[g, g']`.
  - `target_as_0_network_propagation` is one minus that, cell by cell.
- **Normaliser** (`normalize_matrix`): divides every row (axis 0 or 'index') or every column (axis 1 or 'column') by its sum. A zero-sum vector is kept as it is. Any other axis gives the zero matrix.
- **Diffusion** (`RWlike_network_propagation`): `max(DT . rownorm(N), DT)`.
- **Drug-pair combiner** (`combin_drug_target_probabilities_matrix`):
  - uses the first two columns of the pair table;
  - drops duplicate pairs, keeping the first occurrence;
  - keys each row `DrugA + "_" + DrugB`;
  - each row is the `bitwise_or` of the two drugs' target columns, cast to integers.
- **Drug profiles** (`create_drugs_profiles` in random_test.py): reads comma-separated Entrez lists with `int()`, marks the genes of the universe, and returns the genes-by-drugs table.
- **Simulated propagation** (`network_propagation` in random_test.py): multiplies the drugs-by-genes targets by the diagonal-1 network, without normalising.

## How the model is built

- Matrices are `seq<seq<real>>`, indexed by position. Labelled tables are a `Frame` of row labels, column labels and cells.
- Label lookups follow pandas `.loc` (`Frames.SelectRows`):
  - a missing label is a KeyError;
  - a label standing on several rows is an error (ShapeError), because the source's later step (a product, a `bitwise_or`, a constructor with a fixed index, or a per-cell comparison) fails on the shape it produces (one exception, a table with no drugs, is under "## Left out").
- The code that fills a preallocated table in loops is modelled as methods over a local `array2<real>`, with loop invariants. These are the network builders, `get_max_probability`, `normalize_matrix` and `create_drugs_profiles`. Each method's postcondition ties its result to a specification function, and lemmas state what that function means.
- The whole-matrix expressions are functions: the combiner, `1 - x` and the diffusion.
- `bitwise_or` is defined on two's-complement integers of unbounded width. `.astype(int)` truncates toward zero.
- Python's `str.split(",")` and `int()` are modelled in `PyText`.
- For G = [1, 2, 3] with edges 1-2 (0.4) and 2-3 (0.6), a drug targeting gene 1 gets diffusion value 1 at gene 2, because row 1 of the network, [0, 0.4, 0], normalises to [0, 1, 0] (`WorkedExample.ExampleRWLike`).
- Two pairs can produce the same key, as ("a_b", "c") and ("a", "b_c") do. The source then keeps two rows under one label, and so does the model.

## Model

| member | source | states |
|---|---|---|
| Frames.SelectRows | network_propagation.py:96 | `.loc[labels]`: Err(KeyError) exactly when some label is missing; success exactly when every label names one row, and then row k is the row labelled `labels[k]` |
| Frames.Transposed | network_propagation.py:33 | `.T` swaps labels and cells: cell (j, i) of the result is cell (i, j) of the input |
| NetworkBuilder.FillEdges | network_propagation.py:165-170 | after the edge loop every cell holds the weight of the last in-universe edge touching it, or its earlier value |
| NetworkBuilder.GetMatrixFromNetwork | network_propagation.py:160-173 | the built matrix is |G| x |G|, each cell is the last in-universe edge's weight or 0, and it is symmetric |
| NetworkBuilder.CellSymmetric | network_propagation.py:169-170 | writing both [a, b] and [b, a] makes every cell equal to its mirror cell, after any prefix of the edges |
| NetworkBuilder.CellUnwritten | network_propagation.py:160-170 | a cell that no in-universe edge writes keeps its initial value |
| NetworkBuilder.CellIsLastWriter | network_propagation.py:165-170 | a cell holds the weight of the last edge that writes it, so a later duplicate edge overwrites an earlier one |
| NetworkBuilder.OutsideEdgeSkipped | network_propagation.py:167-168 | an edge with an end outside the universe changes no cell |
| NetworkBuilder.DiagonalKept | network_propagation.py:150-151 | with no self-loop edge, the diagonal keeps its initial value (0 here, 1 in the random_test.py variant) |
| NetworkBuilder.NetworkMatrixShape | network_propagation.py:160-170 | the network matrix is symmetric, and without self-loop edges its diagonal is the seed value |
| NetworkBuilder.NetworkMatrixInUnitRange | network_propagation.py:169-170 | weights in [0, 1] give a network matrix with every cell in [0, 1] |
| MaxProbability.GetMaxProbability | network_propagation.py:107-119 | the gene-by-gene, drug-by-drug fill yields the max-probability matrix |
| MaxProbability.StrongestTargetLink | network_propagation.py:117 | for a non-target cell: the value is at least every target's link to the gene, it equals 0 or one target's link, and it is 0 for a drug without targets |
| MaxProbability.MaxProbabilityProperties | network_propagation.py:110-119 | a target reads exactly 1; 0/1 targets and weights in [0, 1] give cells in [0, 1]; a drug without targets gets a zero row |
| MaxProbability.OneMinus | network_propagation.py:78 | `1 - x` keeps the shape; `TargetAsZeroProperties` shows it turns targets to 0, keeps [0, 1] and undoes itself |
| MaxProbability.TargetAsZeroProperties | network_propagation.py:73-78 | `1 - target_as_1`: targets read 0, cells stay in [0, 1], and applying `1 - x` again gives `target_as_1` back |
| MaxProbability.TargetAsOnePropagation | network_propagation.py:80-104 | the lookup error of selecting the universe's genes, or the max-probability matrix labelled drugs by genes, in which every target reads 1 |
| MaxProbability.TargetAsZeroPropagation | network_propagation.py:73-78 | the same lookup error, or one minus the max-probability matrix, in which every target reads 0 |
| Normalize.NormalizeVector | network_propagation.py:123-129 | `__normalize` keeps the length; its lemmas below give the sum 1 for a nonzero sum, the unchanged zero-sum vector, idempotence and the [0, 1] range |
| Normalize.NormalizeMatrix | network_propagation.py:121-146 | the row-by-row (or column-by-column) fill yields the normalised matrix for every axis value |
| Normalize.NormalizeVectorSum | network_propagation.py:123-129 | a vector of nonzero sum is divided by it and then sums to 1; a zero-sum vector is returned unchanged |
| Normalize.NormalizeVectorIdempotent | network_propagation.py:123-129 | normalising a normalised vector changes nothing |
| Normalize.NormalizeNonNegative | network_propagation.py:123-129 | a nonnegative vector normalises to entries in [0, 1] summing to at most 1 |
| Normalize.NormalizedMeaning | network_propagation.py:131-146 | by rows, each nonzero-sum row sums to 1 and zero-sum rows are copied; the same per column by columns; any other axis gives the zero matrix |
| Normalize.NormalizedIdempotent | network_propagation.py:121-146 | normalising twice along the same axis equals normalising once |
| RWLike.RWLikeProperties | network_propagation.py:196-201 | every cell is at least its target entry, so targets read at least 1; 0/1 targets and weights in [0, 1] give nonnegative cells; a drug without targets gets a zero row |
| RWLike.RWLikePropagation | network_propagation.py:186-202 | the lookup error, or `max(DT . rownorm(N), DT)` labelled drugs by genes, in which every target reads at least 1 |
| RWLike.StarNetwork | network_propagation.py:160-170 | the edges 1-2 and 3-2 of weight 1 over G = [1, 2, 3] build the star matrix [[0,1,0],[1,0,1],[0,1,0]] |
| RWLike.RWLikeExceedsOne | network_propagation.py:197-201 | as written, a drug targeting all of G over the star network reads 2 at gene 2 |
| RWLike.RWLikeCorrectedMatrix | network_propagation.py:188-201 | the diffusion with the network normalised by columns, of the drugs-by-genes shape; `RWLikeCorrectedInUnitRange` proves the range and target value the comment promises |
| RWLike.RWLikeNonTargetExceedsOne | network_propagation.py:197-201 | as written, a drug targeting genes 1 and 3 only reads 2 at gene 2, which it does not target |
| RWLike.RWLikeCorrectedInUnitRange | network_propagation.py:199-201 | with column normalisation, 0/1 targets and a nonnegative network, every cell is in [0, 1] and every target reads exactly 1 |
| Bitwise.Truncate | network_propagation.py:35-36 | `.astype(int)` truncates toward zero: the result is within 1 of the input, on the zero side |
| Bitwise.BitOr | network_propagation.py:35-36 | `np.bitwise_or` on integers: the result is negative exactly when an operand is; `BitOrBits` gives it bit by bit |
| Bitwise.BitOrBits | network_propagation.py:35-36 | bit k of `a | b` is set exactly when bit k of a or of b is set, for negative operands too |
| Bitwise.BitOrCommutative | network_propagation.py:35-36 | `a | b == b | a` |
| Bitwise.BitOrIdempotent | network_propagation.py:35-36 | `a | a == a` |
| Bitwise.BitOrOnFlags | network_propagation.py:35-36 | on 0/1 operands `bitwise_or` is logical OR and gives 0/1 |
| DrugPairs.FirstTwoColumns | network_propagation.py:27-28 | pair k is the first two cells of row k of the pair table |
| DrugPairs.DropDuplicates | network_propagation.py:30 | the result has no repeated pair and holds exactly the pairs of the input |
| DrugPairs.DropDuplicatesInOrder | network_propagation.py:30 | kept pairs appear in the order of their first occurrences |
| DrugPairs.DrugRowsSucceed | network_propagation.py:35-36 | selecting the named drugs' target columns succeeds exactly when each name labels one column |
| DrugPairs.Combine | network_propagation.py:17-40 | fewer than two pair columns is an error; a result has the genes as columns and one row of that width per key; `CombineSucceeds` and `CombineRows` give when it succeeds and every row |
| DrugPairs.CombineSucceeds | network_propagation.py:27-36 | the combiner succeeds exactly when the pair table has at least two columns and every drug it names labels exactly one column of the target table |
| DrugPairs.CombineRows | network_propagation.py:30-37 | one row per distinct pair in first-occurrence order, keyed `DrugA_DrugB`, with the genes as columns in the table's order, each cell the `bitwise_or` of the two drugs' truncated target values |
| DrugPairs.CombineIsUnion | network_propagation.py:35-37 | for a 0/1 target table, a combined cell is 1 exactly when the gene is a target of either drug, and 0 otherwise |
| DrugPairs.CombineSymmetricValues | network_propagation.py:32-37 | the rows of (A, B) and (B, A) hold the same values |
| DrugPairs.CombineWithItself | network_propagation.py:35-36 | the row of (A, A) is A's own target vector, truncated |
| PyText.Split | random_test.py:115 | `str.split(",")` yields at least one piece, and no piece contains the separator |
| PyText.JoinSplit | random_test.py:115 | joining the pieces of a split with the separator gives the string back |
| PyText.SplitJoin | random_test.py:115 | splitting the join of separator-free pieces gives the pieces back |
| PyText.ParseInt | random_test.py:117 | `int()` accepts only a token that, stripped of surrounding whitespace, is nonempty and ends in a digit, and a negative value only after a leading minus sign |
| PyText.ParseShow | random_test.py:117 | `int(str(n)) == n` for every integer |
| PyText.ParseRejectsForeign | random_test.py:117 | a token holding a character other than a digit, underscore, sign or whitespace (such as "1.5") is rejected |
| PyText.ParseRejectsBlank | random_test.py:117 | an empty or blank token, as an empty list or a doubled comma produces, is rejected |
| RandomTest.MarkLabel | random_test.py:120 | `.loc[name, id] = 1` writes that column of every row labelled `name`, and nothing else |
| RandomTest.MarkTargets | random_test.py:115-120 | one chemical's tokens either contain one `int()` rejects (reported), or mark its name's cells for exactly the listed ids in the universe |
| RandomTest.CreateDrugsProfiles | random_test.py:105-123 | a ValueError, carrying a rejected token, exactly when some chemical's list has such a token; otherwise the profile table labelled gene symbols by drug names |
| RandomTest.ProfileShape | random_test.py:107-120 | every profile cell is 0 or 1, and chemicals sharing a name share a profile |
| RandomTest.MissingTargetsSkipped | random_test.py:112-113 | a chemical whose list is not a string changes no other drug's profile |
| RandomTest.SkippedDrugHasZeroProfile | random_test.py:112-113 | such a drug, sharing its name with no listed chemical, keeps an all-zero profile |
| RandomTest.ListsRendered | random_test.py:115-118 | a list written as comma-joined decimal ids lists exactly those ids |
| RandomTest.SelfLoopNetwork | random_test.py:77-90 | the network is the edge-built matrix seeded with 1 on the diagonal |
| RandomTest.NetworkPropagation | random_test.py:77-95 | the lookup error of selecting the genes' symbols, or the plain product of the transposed selection and the diagonal-1 network, labelled drugs by gene symbols |
| RandomTest.SimulatedProperties | random_test.py:92-95 | for 0/1 targets, weights in [0, 1] and no self-loops: cells are nonnegative, a drug's targets read at least 1 (nothing clamps them), and a drug without targets gets a zero row |
| WorkedExample.ExampleNetwork | network_propagation.py:160-170 | the example's edges build [[0,0.4,0],[0.4,0,0.6],[0,0.6,0]] |
| WorkedExample.ExampleMaxProbability | network_propagation.py:107-119 | the drug targeting gene 1 gets the max-probability row [1, 0.4, 0] |
| WorkedExample.ExampleRWLike | network_propagation.py:186-201 | the same drug gets the diffusion row [1, 1, 0] |

## Left out

- Result-file caches and CSV reads and writes (network_propagation.py:23-25, 39, 86-88, 102, 154-158, 172, 178-180, 203; random_test.py:71-73, 96): file I/O. Two details are not modelled. `get_matrix_from_network` reuses its file whenever it exists, ignoring the renew flag. random_test.py:71 tests the cache with the private `os._exists`, which does not check for a file.
- Logger setup and debug messages: output only.
- `random_walk_network_propagation` and `pyNBS_random_walk`: a shell subprocess, and an external propagation kernel whose code is not part of this model.
- `gene_expression_network_propagation`: glue that reads files and joins with expression data through a row-wise `apply`.
- `check_data_frames` (logs set differences only), `regular_split` (a random splitter from a library) and the script's main block (file loading, scaling, model training, metrics).
- setting.py: configuration constants only.
- Floating-point rounding and the sparse matrix format: sums and products are exact `real` arithmetic on dense sequences.
- Bitwise.Truncate: does not model NaN, infinities or values beyond 64 bits, on which `.astype(int)` fails or wraps.
- PyText.ParseInt: accepts ASCII decimal digits only, whereas `int()` also accepts other Unicode decimal digits.
- Gene ids are required to be distinct. Symbols are not: a symbol listed twice in the genes table selects the same drug-target row twice, as `.loc` does. Edges carry integer ids, so `int()` on the edge table's columns is not modelled.
- MaxProbability.GetMaxProbability: requires distinct drug labels in effect. With a repeated drug label the source's per-cell lookup returns several values and its comparison fails; the model indexes drugs by position instead.
- Frames.SelectRows: a label on several rows is an immediate error. In the source `.loc` returns all those rows and a later step fails on their shape. The exception is `target_as_1_network_propagation` and `target_as_0_network_propagation` on a drug-target table with no drug columns: there `get_max_probability` has no drug to visit at line 113, so the source returns an empty table with one column per selected row, whereas `MaxProbability.TargetAsOnePropagation` and `MaxProbability.TargetAsZeroPropagation` return the ShapeError. Older pandas versions return empty rows for some missing labels instead of raising a KeyError; the model follows the KeyError.
- The diagonal loop of random_test.py:81-83 runs over a set in hash order; every write is a 1, so the order does not matter and the model uses gene order.

## Findings

| source | as written | input that shows it | evidently intended | confidence | as-written member | corrected member |
|---|---|---|---|---|---|---|
| network_propagation.py:190, 197-201 | the network is normalised by rows (axis 0), but the product `DT . N` sums a column of N, so a non-target or target cell can exceed 1 | G = [1, 2, 3], edges 1-2 and 3-2 of weight 1, a drug targeting all three genes: gene 2 reads 2 | the comment at lines 199-200: targets read 1 and no gene exceeds 1, which holds when every column sums to 1 (normalising along axis 1) | not executed | RWLike.RWLikeExceedsOne | RWLike.RWLikeCorrectedInUnitRange |
| network_propagation.py:190, 197-201 | the same row normalisation lets a gene the drug does not target exceed 1 | the same network, a drug targeting genes 1 and 3 only: gene 2 reads 2 | the comment at lines 199-200: non-target genes do not exceed the targets' 1; column normalisation keeps every cell at most 1 (a gene whose every neighbour is a target can reach 1 itself) | not executed | RWLike.RWLikeNonTargetExceedsOne | RWLike.RWLikeCorrectedInUnitRange |

The entry point `RWLike.RWLikePropagation` keeps the source's row normalisation, so that it states what the code computes. `RWLike.RWLikeCorrectedMatrix` is the corrected diffusion, and `RWLike.RWLikeCorrectedInUnitRange` proves the promised range and target value for it.
