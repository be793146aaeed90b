/** Properties of the edit script and its cost for whole families of
    inputs: an empty source, an empty target, a string against itself, and
    the symmetry of the cost when inserting and deleting cost the same. */
module Properties {
  import opened Types
  import opened Recurrence
  import opened Alignment
  import opened Script
  import opened Optimality
  import opened Pipeline

  // ---------------------------------------------------------------------
  // An empty source: the script inserts every target character.

  /** Along row 0 of a matrix that follows the recurrence, every step of the
      backtrace is an insertion. */
  lemma {:induction false} InsertsAlongTop(t: seq<char>, o: Options, cells: seq<seq<nat>>, j: nat)
    requires Recurs(cells, [], t, o) && j <= |t|
    ensures Covers(cells, 0, j)
    ensures Backtrace([], t, o, cells, 0, j) == seq(j, _ => Insert)
    decreases j
  {
    BacktraceSteps([], t, o, cells, 0, j);
    if j > 0 {
      MulStep(j, o.insCost);
      assert cells[0][j - 1] + o.insCost == cells[0][j];
      assert NextMove([], t, o, cells, 0, j) == Some(Insert);
      InsertsAlongTop(t, o, cells, j - 1);
      assert seq(j, _ => Insert) == seq(j - 1, _ => Insert) + [Insert];
    }
  }

  /** From the empty source the script is one insertion per target
      character, whatever the options. */
  lemma EmptySourceInserts(t: seq<char>, o: Options)
    ensures ScriptFor([], t, o) == seq(|t|, _ => Insert)
  {
    TableRecurs([], t, o);
    ScriptForUnfolds([], t, o);
    InsertsAlongTop(t, o, Table([], t, o), |t|);
  }

  // ---------------------------------------------------------------------
  // An empty target: the script deletes the source characters it keeps.

  /** Down column 0 of a matrix that follows the recurrence, every step of
      the backtrace is a deletion. */
  lemma {:induction false} DeletesDownLeft(s: seq<char>, o: Options, cells: seq<seq<nat>>, i: nat)
    requires Recurs(cells, s, [], o) && i <= |s|
    ensures Covers(cells, i, 0)
    ensures Backtrace(s, [], o, cells, i, 0) == seq(i, _ => Delete)
    decreases i
  {
    BacktraceSteps(s, [], o, cells, i, 0);
    if i > 0 {
      MulStep(i, o.delCost);
      assert cells[i - 1][0] + o.delCost == cells[i][0];
      assert NextMove(s, [], o, cells, i, 0) == Some(Delete);
      DeletesDownLeft(s, o, cells, i - 1);
      assert seq(i, _ => Delete) == seq(i - 1, _ => Delete) + [Delete];
    }
  }

  /** With the shrink step, the first least row of column 0 is row 0: its
      cell is 0 and no row comes before it. */
  lemma ShrinkRowOfEmptyTarget(s: seq<char>, o: Options)
    requires ShrinkApplies(s, [], o)
    ensures TerminalRow(s, [], o) == 0
  {
    var m := Table(s, [], o);
    assert IsFirstMinRow(m, 0, 0, |s|, 0);
    FirstMinRowUnique(m, 0, 0, |s|, 0, TerminalRow(s, [], o));
  }

  /** To the empty target the script deletes every source character; when
      the shrink step runs it keeps no source row at all, and the script is
      empty. */
  lemma EmptyTargetDeletes(s: seq<char>, o: Options)
    ensures !ShrinkApplies(s, [], o) ==> ScriptFor(s, [], o) == seq(|s|, _ => Delete)
    ensures ShrinkApplies(s, [], o) ==> ScriptFor(s, [], o) == []
  {
    TableRecurs(s, [], o);
    ScriptForUnfolds(s, [], o);
    DeletesDownLeft(s, o, Table(s, [], o), TerminalRow(s, [], o));
    if ShrinkApplies(s, [], o) {
      ShrinkRowOfEmptyTarget(s, o);
    }
  }

  // ---------------------------------------------------------------------
  // A string against itself: the script keeps every character.

  /** Every character matches itself under the options' predicate. */
  predicate Reflexive(o: Options) {
    forall c :: o.equals(c, c)
  }

  /** Every edit costs something. */
  predicate PositiveCosts(o: Options) {
    o.insCost > 0 && o.delCost > 0 && o.subCost > 0 && o.transpCost > 0
  }

  /** On the diagonal of a matrix that follows the recurrence for a string
      against itself, every cell is 0. */
  lemma {:induction false} DiagonalIsZero(s: seq<char>, o: Options, cells: seq<seq<nat>>, i: nat)
    requires Recurs(cells, s, s, o) && Reflexive(o) && i <= |s|
    ensures cells[i][i] == 0
    decreases i
  {
    if i > 0 {
      DiagonalIsZero(s, o, cells, i - 1);
      assert DiagonalCost(s, s, o, i, i) == 0;
      assert cells[i][i] == Candidates(cells, s, s, o, i, i);
    }
  }

  /** Along that diagonal every step of the backtrace keeps a character. */
  lemma {:induction false} EqualsAlongDiagonal(s: seq<char>, o: Options, cells: seq<seq<nat>>, i: nat)
    requires Recurs(cells, s, s, o) && Reflexive(o) && PositiveCosts(o) && i <= |s|
    ensures Covers(cells, i, i)
    ensures Backtrace(s, s, o, cells, i, i) == seq(i, _ => Equal)
    decreases i
  {
    BacktraceSteps(s, s, o, cells, i, i);
    if i > 0 {
      DiagonalIsZero(s, o, cells, i);
      DiagonalIsZero(s, o, cells, i - 1);
      assert NextMove(s, s, o, cells, i, i) == Some(Equal);
      EqualsAlongDiagonal(s, o, cells, i - 1);
      assert seq(i, _ => Equal) == seq(i - 1, _ => Equal) + [Equal];
    }
  }

  /** A string against itself gives one Equal per character, when every
      character matches itself and every edit costs something. */
  lemma IdenticalStringsAreEqual(s: seq<char>, o: Options)
    requires Reflexive(o) && PositiveCosts(o)
    ensures ScriptFor(s, s, o) == seq(|s|, _ => Equal)
  {
    TableRecurs(s, s, o);
    ScriptForUnfolds(s, s, o);
    EqualsAlongDiagonal(s, o, Table(s, s, o), |s|);
  }

  /** ... in particular under the default options. */
  lemma IdenticalStringsUnderDefaults(s: seq<char>)
    ensures ScriptFor(s, s, DefaultOptions) == seq(|s|, _ => Equal)
  {
    IdenticalStringsAreEqual(s, DefaultOptions);
  }

  // ---------------------------------------------------------------------
  // Symmetry: swapping source and target transposes the matrix.

  /** The options' predicate does not depend on the order of its
      arguments. */
  predicate Symmetric(o: Options) {
    forall a, b :: o.equals(a, b) == o.equals(b, a)
  }

  /** `cells` with rows and columns exchanged. */
  function Transposed(cells: seq<seq<nat>>, rows: nat, cols: nat): (m: seq<seq<nat>>)
    requires rows <= |cells| && forall a :: 0 <= a < rows ==> cols <= |cells[a]|
    ensures |m| == cols && forall b :: 0 <= b < cols ==> |m[b]| == rows
    ensures forall b, a :: 0 <= b < cols && 0 <= a < rows ==> m[b][a] == cells[a][b]
  {
    seq(cols, b requires 0 <= b < cols => seq(rows, a requires 0 <= a < rows => cells[a][b]))
  }

  /** One interior cell of the transposed table follows the recurrence for
      the swapped strings: deletion and insertion trade places, and the
      diagonal and the transposition test are the same. */
  lemma TransposedCandidates(s: seq<char>, t: seq<char>, o: Options, m: seq<seq<nat>>, mt: seq<seq<nat>>, a: nat, b: nat)
    requires o.insCost == o.delCost && Symmetric(o)
    requires Recurs(m, s, t, o) && mt == Transposed(m, |s| + 1, |t| + 1)
    requires 1 <= a <= |s| && 1 <= b <= |t|
    ensures Covers(mt, b, a) && mt[b][a] == Candidates(mt, t, s, o, b, a)
  {
    assert DiagonalCost(t, s, o, b, a) == DiagonalCost(s, t, o, a, b);
    assert Swapped(t, s, b, a) == Swapped(s, t, a, b);
    assert m[a][b] == Candidates(m, s, t, o, a, b);
  }

  /** When inserting and deleting cost the same and the match predicate is
      symmetric, the table for the swapped strings is the transposed
      table. */
  lemma TableIsSymmetric(s: seq<char>, t: seq<char>, o: Options)
    requires o.insCost == o.delCost && Symmetric(o)
    ensures Table(t, s, o) == Transposed(Table(s, t, o), |s| + 1, |t| + 1)
  {
    var m := Table(s, t, o);
    var mt := Transposed(m, |s| + 1, |t| + 1);
    TableRecurs(s, t, o);
    forall b, a | 1 <= b <= |t| && 1 <= a <= |s| ensures mt[b][a] == Candidates(mt, t, s, o, b, a) {
      TransposedCandidates(s, t, o, m, mt, a, b);
    }
    assert Recurs(mt, t, s, o);
    RecursIsTable(mt, t, s, o);
  }

  /** Hence the distance is symmetric: the cost of turning s into t is that
      of turning t into s, and so is the cost of the scripts, when neither
      direction shrinks. */
  lemma CostIsSymmetric(s: seq<char>, t: seq<char>, o: Options)
    requires o.insCost == o.delCost && Symmetric(o)
    ensures Cell(s, t, o, |s|, |t|) == Cell(t, s, o, |t|, |s|)
    ensures !o.minCostWhenTargetShorter ==> Cost(o, ScriptFor(s, t, o)) == Cost(o, ScriptFor(t, s, o))
  {
    TableIsSymmetric(s, t, o);
    assert Table(t, s, o)[|t|][|s|] == Table(s, t, o)[|s|][|t|];
    ScriptForIsOptimal(s, t, o, []);
    ScriptForIsOptimal(t, s, o, []);
  }
}
