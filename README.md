# osa-edit in Dafny

This project models the core of the Rust crate `osa-edit`. The crate computes the optimal-string-alignment
(restricted Damerau–Levenshtein) edit script between two strings. It works in two phases:

- `matrix_for_strings` fills an (|source| + 1) × (|target| + 1) cost matrix. Each cell is the cheapest of a
  deletion, an insertion, a match or substitution, and a transposition of two adjacent characters. When
  `min_cost_when_target_shorter` is set and the target is shorter than the source, the shrink step then
  scans rows |target| .. |source| of the target's column and keeps the first row with the least cost, so a
  tie goes to the earliest such row. It lowers the matrix's logical row bound to one past that row; no cell
  is changed or dropped.
- `backtrace` walks back from the terminal cell. It emits `Delete`, `Insert`, `Sub`, `Equal`, and a pair of
  `Transpose` entries for each transposition.

The matrix is reached only through the `Matrix` trait. That trait has two backends: a vector of rows
(`VecMatrix`) and a flat row-major grid (`GridMatrix`).

The model has one module per part of the program:

- `Types`: the crate's value types and option constants.
- `MatrixTrait`: the trait's contract, stated on an observable `State` (the cells, the row bound `x` and the
  column bound `y`).
- `VecBackend`, `GridBackend`: one class per backend. Each works in place on its own storage: a `seq` of rows,
  or an `array` indexed at `r * cols + c`. Each is proved to implement the trait's contract exactly.
- `Storage`: the generic parameter `T: Matrix`. It is a datatype that forwards every call to the wrapped
  backend. It also shows that the same call sequence gives the same observations on either backend.
- `Recurrence`: the recurrence the builder computes, stated as functions of the inputs.
- `Alignment`: what an edit script means. `Aligns` says a script turns the source into the target, and `Cost`
  gives its cost.
- `Script`: the backtrace, both as written and corrected. See Findings.
- `Optimality`: the corrected backtrace yields an alignment, and its cost is the terminal cell, which no other
  alignment undercuts.
- `Pipeline`: what the whole computation yields.
- `Properties`: the script and the cost for whole families of inputs: an empty source, an empty target, a
  string against itself, and the symmetry of the cost.
- `OsaCore`: class `Osa`. Its `MatrixForStrings` is the imperative builder with loop invariants. It is proved to
  leave exactly the recurrence's table in the matrix.
- `Lib`: the entry points `get_script` and `get_matrix`.
- `Tests`: the crate's unit-test vectors, each proved to give the expected script.

## Model

| member | source | states |
|---|---|---|
| Types.IdenticalChars | src/lib.rs:25-27 | the default match predicate is plain character equality |
| Types.DefaultsAreDefault | src/lib.rs:38-52 | both default option sets have every cost 1 and character identity as the match predicate, and the two agree on every pair of characters |
| MatrixTrait.New | src/vec.rs:17-23 | a new matrix has x rows of y zero cells and reports (x, y) as its size |
| MatrixTrait.Set | src/osa.rs:6 | setting a cell changes that cell only; the rows, the bounds and every other cell stay the same |
| MatrixTrait.Get | src/osa.rs:8 | reads cell (r, c); callable only with r below the allocated rows and c below the column bound, outside which both backends panic; what it returns after a write is SetThenGet |
| MatrixTrait.HasLastCell | src/vec.rs:24-26 | the last cell exists exactly when 1 <= x <= allocated rows and y >= 1; otherwise `get_last_cell` indexes out of range |
| MatrixTrait.LastCell | src/osa.rs:12 | the last cell is the cell that get(x - 1, y - 1) reads under the current, possibly shrunk, row bound |
| MatrixTrait.Size | src/osa.rs:16 | the size is the logical bounds (x, y), so after shrink(k) it reports k rows (ShrinkThenLastCell) |
| MatrixTrait.Shrink | src/osa.rs:14 | shrinking changes only the logical row bound and keeps every cell |
| MatrixTrait.SetThenGet | src/osa.rs:6-8 | reading a cell after a write gives the written value at that cell and the old value elsewhere |
| MatrixTrait.ShrinkThenLastCell | src/vec.rs:24-32 | after shrink(k) the last cell is cell (k - 1, y - 1) and the size is (k, y) |
| MatrixTrait.Apply | src/osa.rs:5-17 | an allowed call leaves a well-formed matrix |
| MatrixTrait.Run | src/osa.rs:5-17 | a call sequence observes at most one result per call, and an out-of-range call is observed as a panic that ends the run |
| MatrixTrait.RunStopsAtPanic | src/osa.rs:5-17 | a run stops at its first panic: a panic can only be the last observation, and a run that observes fewer results than it has calls ended in a panic |
| VecBackend.VecMatrix.constructor | src/vec.rs:17-23 | the vector backend starts as the trait's new matrix |
| VecBackend.VecMatrix.Set | src/vec.rs:11-13 | the vector backend's set is the trait's set |
| VecBackend.VecMatrix.Get | src/vec.rs:14-16 | the vector backend's get is the trait's get |
| VecBackend.VecMatrix.GetLastCell | src/vec.rs:24-26 | reads cell (x - 1, y - 1) under the current row bound |
| VecBackend.VecMatrix.Shrink | src/vec.rs:27-29 | the vector backend's shrink is the trait's shrink |
| VecBackend.VecMatrix.GetSize | src/vec.rs:30-32 | reports the logical bounds |
| GridBackend.OffsetInRange | src/grid.rs:12-17 | the row-major offset of an in-range cell lies inside the buffer |
| GridBackend.OffsetLess | src/grid.rs:12-17 | a cell in an earlier row sits at a smaller offset |
| GridBackend.OffsetDistinct | src/grid.rs:12-17 | distinct cells never share an offset, so a write touches one cell only |
| GridBackend.GridMatrix.Row | src/grid.rs:15-17 | row r read from the buffer has cols cells, each the buffer entry at its offset |
| GridBackend.GridMatrix.Cells | src/grid.rs:5-9 | the buffer read back as rows, one per grid row |
| GridBackend.GridMatrix.View | src/grid.rs:5-9 | the grid's observable state is well-formed and has one row per grid row |
| GridBackend.GridMatrix.constructor | src/grid.rs:18-24 | the grid backend starts as the trait's new matrix, in a fresh buffer |
| GridBackend.GridMatrix.Set | src/grid.rs:12-14 | one in-place buffer write is the trait's set on the rows |
| GridBackend.GridMatrix.Get | src/grid.rs:15-17 | the grid backend's get is the trait's get |
| GridBackend.GridMatrix.GetLastCell | src/grid.rs:25-27 | reads cell (x - 1, y - 1) under the current row bound |
| GridBackend.GridMatrix.Shrink | src/grid.rs:28-30 | the grid backend's shrink is the trait's shrink |
| GridBackend.GridMatrix.GetSize | src/grid.rs:31-33 | returns the trait's size of the grid's observable state |
| Storage.Matrix.New | src/osa.rs:10 | `T::new` gives a fresh matrix of the requested backend, equal to the trait's new matrix |
| Storage.Matrix.Set | src/osa.rs:6 | forwards to the backend and acts as the trait's set |
| Storage.Matrix.Get | src/osa.rs:8 | forwards to the backend and acts as the trait's get |
| Storage.Matrix.GetLastCell | src/osa.rs:12 | forwards to the backend and returns the trait's last cell |
| Storage.Matrix.Shrink | src/osa.rs:14 | forwards to the backend and acts as the trait's shrink |
| Storage.Matrix.GetSize | src/osa.rs:16 | forwards to the backend and returns the trait's size |
| Storage.Matrix.Perform | src/osa.rs:5-17 | one call: an in-range call gives the trait's observation and new state; an out-of-range index is a panic that changes nothing |
| Storage.RunStep | src/osa.rs:5-17 | a call sequence is its first call's observation followed by the rest of the run, unless that call panics |
| Storage.PerformBoth | src/vec.rs:11-32 | the same call on the two backends, starting from equal states, gives equal observations and equal new states |
| Storage.ReplayBoth | src/grid.rs:12-33 | any call sequence observes exactly the same results on a fresh vector matrix and a fresh grid matrix, and those are the trait's results |
| Recurrence.Min | src/osa.rs:74 | `cmp::min` is no larger than either argument and equals one of them |
| Recurrence.Swapped | src/osa.rs:75-78 | the transposition test: i > 1, j > 1, and the last two source characters of the prefix are the last two target characters swapped, compared by plain character identity and not by the options' match predicate |
| Recurrence.DiagonalCost | src/osa.rs:68-71 | the diagonal step adds 0 when the options' predicate matches the two characters and the substitution cost otherwise |
| Recurrence.Candidates | src/osa.rs:67-83 | the builder's computation of one interior cell from its three neighbours and, when Swapped holds, the cell two back on the diagonal; OsaCore.Osa.FillCell is proved to store it, and CellBelowCandidates and CellIsCandidate state that it is the least candidate |
| Recurrence.ShrinkApplies | src/osa.rs:86 | the shrink step runs exactly when the target is shorter than the source and `min_cost_when_target_shorter` is set |
| Recurrence.Cell | src/osa.rs:59-83 | cell (i, j) as the builder computes it: i * del_cost down column 0, j * ins_cost along row 0, and inside the least of the three candidates, lowered to the transposition candidate when the swap test holds; its properties are CellBelowCandidates, CellIsCandidate and Optimality.CellIsLowerBound |
| Recurrence.Table | src/osa.rs:59-85 | the whole (\|s\| + 1) × (\|t\| + 1) matrix of cells; that it is the only solution of the recurrence is RecursIsTable, and that the builder's loops produce it is FillExact |
| Recurrence.Fill | src/osa.rs:59-85 | what the builder's loops leave in a matrix of any size: the table in the corner, every other cell unchanged; the builder method OsaCore.Osa.FillCorner is proved to produce it |
| Recurrence.CellBelowCandidates | src/osa.rs:67-83 | an interior cell is no larger than the deletion, diagonal and insertion candidates, nor the transposition candidate where the swap test holds |
| Recurrence.CellIsCandidate | src/osa.rs:67-83 | an interior cell equals one of those candidates |
| Recurrence.ShapedCovers | src/osa.rs:59-85 | a matrix of the table's shape covers every cell the backtrace can visit |
| Recurrence.TableRecurs | src/osa.rs:59-85 | the table satisfies the border equations and, in every interior cell, the builder's computation from its neighbours |
| Recurrence.RecursIsTable | src/osa.rs:59-85 | any matrix that satisfies the recurrence is the table |
| Recurrence.RecursAgree | src/osa.rs:59-85 | two matrices that both satisfy the recurrence agree at every cell |
| Recurrence.CandidatesAgree | src/osa.rs:67-83 | the builder's computation from neighbours that hold recurrence values gives the recurrence value |
| Recurrence.FillExact | src/osa.rs:59-85 | filling a matrix of exactly the right size gives the table |
| Recurrence.FirstMinRowUnique | src/osa.rs:87-94 | the first least row of a column is unique |
| Recurrence.FirstMinRow | src/osa.rs:87-94 | the scan's index is the first row in t..s whose cell in column t is least |
| Recurrence.FillAgreesOnColumn | src/osa.rs:86-95 | the scan over a filled storage matrix finds the same row as the scan over the table |
| Recurrence.ShrinkRow | src/osa.rs:86-95 | the row the shrink step keeps is the first row among \|t\| .. \|s\| whose cell in column \|t\| is least; a tie goes to the earliest row, as the strict `>` of the scan gives |
| Recurrence.TerminalRow | src/osa.rs:50-53 | the backtrace starts from the first least row when the shrink step applies, and from the last source row otherwise |
| Alignment.Entries | src/osa.rs:106-133 | a transposition adds two entries to the script, and every other move adds one |
| Alignment.LensAppend | src/osa.rs:106-133 | a move's entries consume exactly the move's width in source and target characters |
| Alignment.LastMoveSplits | src/osa.rs:106-133 | an alignment that is not empty is an alignment of the shorter prefixes, followed by its last move |
| Alignment.AlignsConsumesAll | src/osa.rs:99-136 | an alignment consumes the whole source and the whole target |
| Alignment.AppendParts | src/osa.rs:106-133 | appending a move's entries makes that move the script's last move, with the old script as its prefix |
| Alignment.ExtendAligns | src/osa.rs:106-133 | appending a fitting move to an alignment of the remaining prefixes gives an alignment |
| Alignment.ExtendCost | src/osa.rs:106-133 | appending a move adds that move's cost |
| Script.From | src/osa.rs:106-131 | every move leads back to a cell with a smaller index sum, so the backtrace terminates |
| Script.LaterMove | src/osa.rs:112-135 | the moves after the transposition, in the crate's order; a chosen move is never a transposition and fits inside the matrix |
| Script.NextMoveAsWritten | src/osa.rs:100-135 | the crate's choice at (i, j); a chosen move fits inside the matrix |
| Script.NextMove | src/osa.rs:100-135 | the corrected choice; a chosen move fits inside the matrix |
| Script.BacktraceAsWritten | src/osa.rs:99-136 | the crate's backtrace: from (i, j), the script of the cell the chosen move comes from, followed by that move's entries, or the empty script where no move applies; its properties are Optimality.AsWrittenAligns, Optimality.AsWrittenAgreesOnUnitTranspose and the Findings |
| Script.Backtrace | src/osa.rs:99-136 | the same walk with the corrected transposition test; Optimality.BacktraceIsOptimal and BacktraceIsCheapest state that it is a cheapest alignment |
| Script.CoversFrom | src/osa.rs:106-131 | the cell a move comes from lies inside the matrix |
| Optimality.MoveBound | src/osa.rs:67-83 | in a matrix that follows the recurrence, no fitting move into a cell is cheaper than that cell |
| Optimality.LowerBoundOn | src/osa.rs:59-85 | no alignment of the prefixes s[..i] and t[..j] costs less than cell (i, j) |
| Optimality.CellIsLowerBound | src/osa.rs:59-85 | the same bound for the recurrence's cell |
| Optimality.NextMoveIsSound | src/osa.rs:100-135 | with a matrix that follows the recurrence, the corrected choice finds a move exactly when (i, j) is not the origin, and that move fits and accounts for the cell exactly |
| Optimality.BacktraceSteps | src/osa.rs:99-136 | one step of the corrected backtrace: the script of the previous cell followed by the move's entries, or the empty script |
| Optimality.BacktraceAlignsOn | src/osa.rs:99-136 | the corrected backtrace from (i, j) aligns s[..i] with t[..j] |
| Optimality.ExtendPrefixes | src/osa.rs:106-133 | extending an alignment of the prefixes a move leaves by that move gives an alignment of the longer prefixes |
| Optimality.BacktraceCostOn | src/osa.rs:99-136 | the corrected backtrace from (i, j) costs exactly cell (i, j) |
| Optimality.BacktraceIsOptimal | src/osa.rs:99-136 | on the table, the corrected backtrace aligns the prefixes at the cost of their cell |
| Optimality.BacktraceIsCheapest | src/osa.rs:99-136 | no alignment of the same prefixes costs less than the corrected backtrace |
| Optimality.NextMoveAsWrittenFits | src/osa.rs:100-135 | with a positive transposition cost, the crate's choice also finds a move exactly away from the origin, and that move fits |
| Optimality.AsWrittenSteps | src/osa.rs:99-136 | one step of the as-written backtrace |
| Optimality.AsWrittenAligns | src/osa.rs:99-136 | with a positive transposition cost, the as-written backtrace still aligns the prefixes, whatever its cost |
| Optimality.TestsAgreeOnUnitTranspose | src/osa.rs:105 | with transposition cost 1, the crate's transposition test and the corrected test make the same choice |
| Optimality.AsWrittenAgreesOnUnitTranspose | src/osa.rs:99-136 | with transposition cost 1, the as-written backtrace equals the corrected one |
| Pipeline.TableCoversTerminal | src/osa.rs:50-53 | the table covers the cell the script is traced back from |
| Pipeline.ScriptForUnfolds | src/osa.rs:50-53 | the edit script is the corrected backtrace over the table from the terminal cell |
| Pipeline.ScriptFor | src/osa.rs:50-53 | the script `edit_script_for_strings` traces back from the terminal cell, with the corrected walk; ScriptForIsOptimal states what it is |
| Pipeline.ScriptAsWritten | src/osa.rs:50-53 | the script the crate's own walk traces back from the same cell; ScriptForAsWritten and ScriptAsWrittenAligns state what it is |
| Pipeline.ScriptForIsOptimal | src/osa.rs:50-136 | the script aligns the kept source prefix with the target; its cost is the terminal cell, and no other such alignment is cheaper; without the shrink step it aligns the whole source |
| Pipeline.ScriptForAsWritten | src/osa.rs:99-136 | with transposition cost 1, the crate's script is the corrected script |
| Pipeline.ScriptsAgreeOnUnitTranspose | src/osa.rs:99-136 | the same, stated for any options as an implication on the transposition cost |
| Pipeline.ScriptAsWrittenAligns | src/osa.rs:50-136 | with a positive transposition cost, the crate's script turns the kept source prefix into the target |
| Properties.InsertsAlongTop | src/osa.rs:117-121 | along row 0 of a matrix that follows the recurrence, the backtrace is one insertion per column |
| Properties.EmptySourceInserts | src/osa.rs:50-136 | from the empty source the script is one Insert per target character, whatever the options |
| Properties.DeletesDownLeft | src/osa.rs:112-116 | down column 0 of such a matrix, the backtrace is one deletion per row |
| Properties.ShrinkRowOfEmptyTarget | src/osa.rs:86-95 | with an empty target and the shrink step, the first least row is row 0 |
| Properties.EmptyTargetDeletes | src/osa.rs:50-136 | to the empty target the script is one Delete per source character without the shrink step, and empty with it |
| Properties.DiagonalIsZero | src/osa.rs:67-83 | for a string against itself under a reflexive match predicate, every diagonal cell is 0 |
| Properties.EqualsAlongDiagonal | src/osa.rs:130-134 | along that diagonal, with every cost positive, each backtrace step is Equal |
| Properties.IdenticalStringsAreEqual | src/osa.rs:50-136 | a string against itself gives one Equal per character when the predicate is reflexive and every cost is positive |
| Properties.IdenticalStringsUnderDefaults | src/lib.rs:38-44 | a string against itself gives one Equal per character under the default options |
| Properties.TransposedCandidates | src/osa.rs:67-83 | with equal insertion and deletion costs and a symmetric predicate, each interior cell of the transposed table is the builder's value for the swapped strings |
| Properties.TableIsSymmetric | src/osa.rs:59-85 | under those options the table for (t, s) is the transpose of the table for (s, t) |
| Properties.CostIsSymmetric | src/osa.rs:59-85 | under those options turning s into t costs what turning t into s costs, and without the shrink step so do the two scripts |
| OsaCore.Osa.constructor | src/osa.rs:33-43 | stores the source, the target, the options and the matrix as given |
| OsaCore.Osa.GetCost | src/osa.rs:44-46 | the cost is cell (x - 1, y - 1) under the current row bound |
| OsaCore.Osa.GetMatrix | src/osa.rs:47-49 | returns the very matrix object the builder owns, not a copy |
| OsaCore.Osa.EditScriptForStrings | src/osa.rs:50-53 | after the builder runs the matrix holds the table with the terminal row bound; the script returned is the pipeline's script, its cost is `get_cost`, and with transposition cost 1 it is the crate's own script |
| OsaCore.Osa.Prepare | src/osa.rs:51 | running the builder on a matrix of exactly the right size leaves it finished: the table, the terminal row bound, and the script's cost in the last cell |
| OsaCore.Osa.MatrixForStrings | src/osa.rs:55-97 | the matrix's corner holds the table; its row bound is one past the first least row when the shrink step applies, and unchanged otherwise |
| OsaCore.Osa.FillCorner | src/osa.rs:59-85 | the border loops and the nested interior loops leave the filled matrix and keep both bounds |
| OsaCore.Osa.ShrinkToFirstMin | src/osa.rs:86-96 | the shrink step sets the row bound to one past the first least row and changes nothing else |
| OsaCore.Osa.FillBorders | src/osa.rs:59-64 | the border loops set column 0 to cumulative deletion costs and row 0 to cumulative insertion costs |
| OsaCore.Osa.FillRow | src/osa.rs:66-84 | one pass of the inner loop fills row i |
| OsaCore.Osa.FillCell | src/osa.rs:67-83 | one interior step stores the recurrence's value at (i, j) and changes no other cell |
| OsaCore.Osa.FirstMinRowIndex | src/osa.rs:87-94 | the scan loop returns the first row in t..s whose cell in column t is least |
| OsaCore.UpdatedTwice | src/osa.rs:73-82 | the second write of cell (i, j) overrides the first |
| OsaCore.BordersFilled | src/osa.rs:59-64 | after the border loops, every cell before (1, 1) in the filling order is in place |
| OsaCore.NeighboursFilled | src/osa.rs:67-83 | when the cells before (i, j) are in place, the builder's computation at (i, j) gives the recurrence value |
| OsaCore.FilledCell | src/osa.rs:67-83 | storing that value extends the filled region by one cell |
| OsaCore.FilledRow | src/osa.rs:65-66 | a completed row moves the filling position to the next row |
| OsaCore.FilledEverything | src/osa.rs:65-85 | once every row is done, the matrix is the filled matrix |
| OsaCore.TerminalFacts | src/osa.rs:50-97 | a matrix with the filled cells and the builder's row bound is finished |
| Lib.GetScript | src/lib.rs:54-61 | with either backend, the script is the pipeline's script; it aligns the kept source prefix with the target at the cost of the terminal cell, and with transposition cost 1 it is the crate's own script |
| Lib.GetMatrix | src/lib.rs:63-71 | with either backend, the returned matrix holds the table, with the row bound one past the terminal row |
| Tests.EmptyToA | src/lib.rs:87-92 | "" to "a" gives [Insert] |
| Tests.AToAa | src/lib.rs:93-98 | "a" to "aa" gives [Equal, Insert] |
| Tests.AToAaa | src/lib.rs:99-104 | "a" to "aaa" gives [Equal, Insert, Insert] |
| Tests.EmptyToEmpty | src/lib.rs:105-110 | "" to "" gives [] |
| Tests.AToB | src/lib.rs:111-116 | "a" to "b" gives [Sub] |
| Tests.AaaToAba | src/lib.rs:117-122 | "aaa" to "aba" gives [Equal, Sub, Equal] |
| Tests.AaaToAb | src/lib.rs:123-128 | "aaa" to "ab" gives [Equal, Sub, Delete] |
| Tests.AToA | src/lib.rs:129-134 | "a" to "a" gives [Equal] |
| Tests.AbToAb | src/lib.rs:135-140 | "ab" to "ab" gives [Equal, Equal] |
| Tests.AToEmpty | src/lib.rs:141-146 | "a" to "" gives [Delete] |
| Tests.AaToA | src/lib.rs:147-152 | "aa" to "a" gives [Equal, Delete] |
| Tests.AaaToA | src/lib.rs:153-158 | "aaa" to "a" gives [Equal, Delete, Delete] |
| Tests.KittenToSitting | src/lib.rs:159-165 | "kitten" to "sitting" gives [Sub, Equal, Equal, Equal, Sub, Equal, Insert] |
| Tests.OrangeToApple | src/lib.rs:166-172 | "Orange" to "Apple" gives [Sub, Sub, Sub, Sub, Delete, Equal] |
| Tests.AbToBc | src/lib.rs:173-178 | "ab" to "bc" gives [Delete, Equal, Insert] |
| Tests.AbdToBec | src/lib.rs:179-184 | "abd" to "bec" gives [Delete, Equal, Sub, Insert] |
| Tests.MeToMeme | src/lib.rs:185-190 | "me" to "meme" gives [Equal, Equal, Insert, Insert] |
| Tests.FishToIfsh | src/lib.rs:191-196 | "fish" to "ifsh" gives [Transpose, Transpose, Equal, Equal] |
| Tests.FishyToIfsh | src/lib.rs:197-202 | "fishy" to "ifsh" gives [Transpose, Transpose, Equal, Equal, Delete] |
| Tests.FishToIfshTable | src/lib.rs:212-225 | the table for "fish" and "ifsh" is the matrix that `test_matrix` expects |
| Findings.SwapMatrixRecurs | src/osa.rs:59-85 | the given matrix for "ab" to "ba" follows the recurrence when the transposition costs 0 or 5 |
| Findings.SwapMatrixIsTable | src/osa.rs:59-85 | and is therefore the table |
| Findings.AsWrittenOnCostFive | src/osa.rs:105-110 | at transposition cost 5 the crate's backtrace takes the transposition |
| Findings.AsWrittenOnCostZero | src/osa.rs:105-135 | at transposition cost 0 the crate's backtrace finds no move at the terminal cell |
| Findings.SwapAligns | src/osa.rs:106-109 | the transposition pair turns "ab" into "ba" at the transposition's cost |
| Findings.CorrectedOnSwap | src/osa.rs:99-136 | the corrected backtrace turns "ab" into "ba" at the cost of the terminal cell |
| Findings.AsWrittenOvercharges | src/osa.rs:105 | at transposition cost 5 the terminal cell is 2, but the crate reports the transposition, which costs 5; the corrected backtrace's script costs 2 |
| Findings.AsWrittenStalls | src/osa.rs:105 | at transposition cost 0 the crate reports the empty script, which does not turn "ab" into "ba"; the corrected backtrace's script does, at cost 0 |

## Left out

- `min_cost_when_target_shorter`: `matrix_for_strings` reads this option (src/osa.rs:86), but the `Options` struct in src/lib.rs:30-36 has no such field. The model follows the algorithm and adds a boolean field `minCostWhenTargetShorter`. The default constants set it to false.
- Strings versus characters: `Osa::new` takes `Vec<char>`, while `get_script` and `get_matrix` pass `&str` and size the matrix with `str::len`, which counts bytes. The model takes the strings as `seq<char>` and sizes the matrix by characters. This is the only reading under which the two agree.
- Machine integers: `usize` arithmetic is unbounded in the model. Cost sums that would overflow, and `get_size().0 - 1` on an empty matrix, are not modelled.
- Panics: an index out of range is a panic in `VecMatrix`, whose `Vec` indexing checks both the row and the
  column. For `GridMatrix` this rests on the external grid crate, which is not part of this model: that crate
  is assumed to panic on an out-of-range row or column, and `Storage.ReplayBoth` relies on that assumption for
  out-of-range columns. `Storage.Matrix.Perform` models a panic as the observation `Panicked`. Elsewhere an
  out-of-range index is excluded by `requires`. The code never reaches a panic on matrices the entry points
  build.
- The external grid crate is not part of this model. `GridBackend` models it as a row-major `array` of rows × cols cells.
- The benchmarks in benches/main.rs are not modelled; they measure time only.
- Test harness: the unit tests' loops and `assert_eq!` messages are not modelled. Each test vector becomes a lemma about the script the pipeline computes with the default options.
- Script.Backtrace, Script.BacktraceAsWritten: the crate builds each script by pushing onto a vector returned from the recursive call. The model appends the same entries to a sequence.
- OsaCore.Osa.EditScriptForStrings, Lib.GetScript: these return the corrected walk, `Script.Backtrace`, where src/osa.rs:52 runs the crate's own walk with the transposition test of src/osa.rs:105. The two are proved equal when the transposition cost is 1, as in both default option sets. For other costs they can differ (see Findings); the crate's own script is `Pipeline.ScriptAsWritten`.
- Optimality.AsWrittenAligns: it states only that the crate's backtrace is an alignment, not its cost. The Findings show that the cost can differ from the terminal cell.

## Findings

| source | as written | input that shows it | evidently intended | confidence | as-written member | corrected member |
|---|---|---|---|---|---|---|
| src/osa.rs:105 | the backtrace takes the transposition whenever the swap test holds and `get(i - 2, j - 2) < get(i, j)`, ignoring `transp_cost` | source "ab", target "ba", every cost 1 except `transp_cost`. With 5, the terminal cell is 2 but [Transpose, Transpose], which costs 5, is returned. With 0, the cell is 0 and the empty script is returned, which is not an alignment | take the transposition only when `get(i - 2, j - 2) + transp_cost == get(i, j)`, as the other moves test; the two tests agree when `transp_cost` is 1, as in both default option sets | not executed | Findings.AsWrittenOvercharges | Optimality.BacktraceIsOptimal |

The as-written walk is `Script.BacktraceAsWritten`, and `Findings.AsWrittenStalls` exhibits the zero-cost case. The corrected walk is `Script.Backtrace`, with its choice in `Script.NextMove`. The rest of the model uses the corrected walk. `Optimality.AsWrittenAgreesOnUnitTranspose` shows that the two walks are the same under the crate's default options.
