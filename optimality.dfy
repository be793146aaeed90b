/** Why the corrected backtrace is right: every alignment costs at least
    its cell of the recurrence, and the backtrace retraces one that costs
    exactly that. */
module Optimality {
  import opened Types
  import opened Recurrence
  import opened Alignment
  import opened Script

  // ---------------------------------------------------------------------
  // The recurrence is a lower bound on the cost of every alignment.

  /** No fitting move into cell (i, j) of a matrix that follows the
      recurrence undercuts it: the cell is at most the cell the move comes
      from plus the move's cost. */
  lemma MoveBound(s: seq<char>, t: seq<char>, o: Options, cells: seq<seq<nat>>, op: EditType, i: nat, j: nat)
    requires i <= |s| && j <= |t| && Recurs(cells, s, t, o)
    requires Enters(op, i, j) && Fits(o, op, s[..i], t[..j])
    ensures cells[i][j] <= cells[From(op, i, j).0][From(op, i, j).1] + OpCost(o, op)
  {
    if i > 0 && j > 0 {
      assert cells[i][j] == Candidates(cells, s, t, o, i, j);
    }
    match op
    case Delete =>
      if j == 0 {
        MulStep(i, o.delCost);
      }
    case Insert =>
      if i == 0 {
        MulStep(j, o.insCost);
      }
    case Sub =>
    case Equal =>
      assert s[..i][i - 1] == s[i - 1] && t[..j][j - 1] == t[j - 1];
    case Transpose =>
      assert s[..i][i - 1] == s[i - 1] && s[..i][i - 2] == s[i - 2];
      assert t[..j][j - 1] == t[j - 1] && t[..j][j - 2] == t[j - 2];
  }

  lemma MulStep(n: nat, k: nat)
    requires n >= 1
    ensures n * k == (n - 1) * k + k
  {
  }

  /** No alignment of the first i source characters with the first j target
      characters costs less than cell (i, j) of a matrix that follows the
      recurrence. */
  lemma {:induction false} LowerBoundOn(s: seq<char>, t: seq<char>, o: Options, cells: seq<seq<nat>>, script: seq<EditType>, i: nat, j: nat)
    requires i <= |s| && j <= |t| && Recurs(cells, s, t, o)
    requires Aligns(o, script, s[..i], t[..j])
    ensures Cost(o, script) >= cells[i][j]
    decreases |script|
  {
    if script != [] {
      var op := LastMove(script);
      var (pi, pj) := From(op, i, j);
      var prefix := script[..|script| - |Entries(op)|];
      assert s[..i][..pi] == s[..pi] && t[..j][..pj] == t[..pj];
      LowerBoundOn(s, t, o, cells, prefix, pi, pj);
      MoveBound(s, t, o, cells, op, i, j);
    }
  }

  /** No alignment of the first i source characters with the first j target
      characters costs less than cell (i, j) of the recurrence. */
  lemma CellIsLowerBound(s: seq<char>, t: seq<char>, o: Options, script: seq<EditType>, i: nat, j: nat)
    requires i <= |s| && j <= |t|
    requires Aligns(o, script, s[..i], t[..j])
    ensures Cost(o, script) >= Cell(s, t, o, i, j)
  {
    TableRecurs(s, t, o);
    LowerBoundOn(s, t, o, Table(s, t, o), script, i, j);
  }

  // ---------------------------------------------------------------------
  // The corrected backtrace on a matrix that follows the recurrence.

  /** On such a matrix the corrected choice is sound and complete: away from
      the origin some move is chosen, and the chosen move fits and accounts
      for the cell exactly. */
  lemma NextMoveIsSound(s: seq<char>, t: seq<char>, o: Options, cells: seq<seq<nat>>, i: nat, j: nat)
    requires i <= |s| && j <= |t| && Recurs(cells, s, t, o)
    ensures Covers(cells, i, j)
    ensures NextMove(s, t, o, cells, i, j).None? <==> i == 0 && j == 0
    ensures NextMove(s, t, o, cells, i, j).Some? ==>
              var op := NextMove(s, t, o, cells, i, j).value;
              && Fits(o, op, s[..i], t[..j])
              && cells[From(op, i, j).0][From(op, i, j).1] + OpCost(o, op) == cells[i][j]
  {
    if i > 0 && j > 0 {
      assert cells[i][j] == Candidates(cells, s, t, o, i, j);
      assert s[..i][i - 1] == s[i - 1] && t[..j][j - 1] == t[j - 1];
      if i > 1 && j > 1 {
        assert s[..i][i - 2] == s[i - 2] && t[..j][j - 2] == t[j - 2];
      }
    } else if i > 0 {
      assert cells[i][0] == (i - 1) * o.delCost + o.delCost;
    } else if j > 0 {
      assert cells[0][j] == (j - 1) * o.insCost + o.insCost;
    }
  }

  /** One step of the corrected backtrace: the script of the cell the chosen
      move comes from, followed by the move's entries. */
  lemma BacktraceSteps(s: seq<char>, t: seq<char>, o: Options, cells: seq<seq<nat>>, i: nat, j: nat)
    requires i <= |s| && j <= |t| && Covers(cells, i, j)
    ensures var mv := NextMove(s, t, o, cells, i, j);
      && (mv.None? ==> Backtrace(s, t, o, cells, i, j) == [])
      && (mv.Some? ==>
            && Covers(cells, From(mv.value, i, j).0, From(mv.value, i, j).1)
            && Backtrace(s, t, o, cells, i, j)
               == Backtrace(s, t, o, cells, From(mv.value, i, j).0, From(mv.value, i, j).1) + Entries(mv.value))
  {
  }

  /** The corrected backtrace from any cell (i, j) of a matrix that follows
      the recurrence retraces a valid alignment of the first i source
      characters with the first j target characters. */
  lemma {:induction false} BacktraceAlignsOn(s: seq<char>, t: seq<char>, o: Options, cells: seq<seq<nat>>, i: nat, j: nat)
    requires i <= |s| && j <= |t| && Recurs(cells, s, t, o)
    ensures Covers(cells, i, j)
    ensures Aligns(o, Backtrace(s, t, o, cells, i, j), s[..i], t[..j])
    decreases i + j
  {
    NextMoveIsSound(s, t, o, cells, i, j);
    BacktraceSteps(s, t, o, cells, i, j);
    var mv := NextMove(s, t, o, cells, i, j);
    if mv.Some? {
      var (pi, pj) := From(mv.value, i, j);
      BacktraceAlignsOn(s, t, o, cells, pi, pj);
      ExtendPrefixes(o, Backtrace(s, t, o, cells, pi, pj), mv.value, s, t, i, j);
    }
  }

  /** Extending an alignment of the prefixes a move into (i, j) leaves by
      that move aligns the first i source and first j target characters. */
  lemma ExtendPrefixes(o: Options, prefix: seq<EditType>, op: EditType, s: seq<char>, t: seq<char>, i: nat, j: nat)
    requires i <= |s| && j <= |t| && Enters(op, i, j) && Fits(o, op, s[..i], t[..j])
    requires Aligns(o, prefix, s[..From(op, i, j).0], t[..From(op, i, j).1])
    ensures Aligns(o, prefix + Entries(op), s[..i], t[..j])
  {
    var (pi, pj) := From(op, i, j);
    assert s[..i][..pi] == s[..pi] && t[..j][..pj] == t[..pj];
    ExtendAligns(o, prefix, op, s[..i], t[..j]);
  }

  /** ... and its cost is exactly cell (i, j). */
  lemma {:induction false} BacktraceCostOn(s: seq<char>, t: seq<char>, o: Options, cells: seq<seq<nat>>, i: nat, j: nat)
    requires i <= |s| && j <= |t| && Recurs(cells, s, t, o)
    ensures Covers(cells, i, j)
    ensures Cost(o, Backtrace(s, t, o, cells, i, j)) == cells[i][j]
    decreases i + j
  {
    NextMoveIsSound(s, t, o, cells, i, j);
    BacktraceSteps(s, t, o, cells, i, j);
    var mv := NextMove(s, t, o, cells, i, j);
    if mv.Some? {
      var (pi, pj) := From(mv.value, i, j);
      BacktraceCostOn(s, t, o, cells, pi, pj);
      ExtendCost(o, Backtrace(s, t, o, cells, pi, pj), mv.value);
    }
  }

  /** The same, on the recurrence's own table. */
  lemma BacktraceIsOptimal(s: seq<char>, t: seq<char>, o: Options, i: nat, j: nat)
    requires i <= |s| && j <= |t|
    ensures Covers(Table(s, t, o), i, j)
    ensures Aligns(o, Backtrace(s, t, o, Table(s, t, o), i, j), s[..i], t[..j])
    ensures Cost(o, Backtrace(s, t, o, Table(s, t, o), i, j)) == Cell(s, t, o, i, j)
  {
    TableRecurs(s, t, o);
    BacktraceAlignsOn(s, t, o, Table(s, t, o), i, j);
    BacktraceCostOn(s, t, o, Table(s, t, o), i, j);
  }

  /** Hence the corrected backtrace's script is a cheapest alignment: no
      alignment of the same prefixes costs less. */
  lemma BacktraceIsCheapest(s: seq<char>, t: seq<char>, o: Options, i: nat, j: nat, other: seq<EditType>)
    requires i <= |s| && j <= |t| && Aligns(o, other, s[..i], t[..j])
    ensures Covers(Table(s, t, o), i, j)
    ensures Cost(o, Backtrace(s, t, o, Table(s, t, o), i, j)) <= Cost(o, other)
  {
    BacktraceIsOptimal(s, t, o, i, j);
    CellIsLowerBound(s, t, o, other, i, j);
  }

  // ---------------------------------------------------------------------
  // The backtrace as written.

  /** With a positive transposition cost, the crate's choice is still sound
      for alignment: away from the origin some move is chosen, and it fits.
      Only its cost may fall short of the cell. */
  lemma NextMoveAsWrittenFits(s: seq<char>, t: seq<char>, o: Options, cells: seq<seq<nat>>, i: nat, j: nat)
    requires i <= |s| && j <= |t| && Recurs(cells, s, t, o) && o.transpCost > 0
    ensures Covers(cells, i, j)
    ensures NextMoveAsWritten(s, t, o, cells, i, j).None? <==> i == 0 && j == 0
    ensures NextMoveAsWritten(s, t, o, cells, i, j).Some? ==>
              Fits(o, NextMoveAsWritten(s, t, o, cells, i, j).value, s[..i], t[..j])
  {
    NextMoveIsSound(s, t, o, cells, i, j);
    if i > 0 && j > 0 {
      assert s[..i][i - 1] == s[i - 1] && t[..j][j - 1] == t[j - 1];
      if i > 1 && j > 1 {
        assert s[..i][i - 2] == s[i - 2] && t[..j][j - 2] == t[j - 2];
      }
    }
  }

  /** One step of the backtrace as written. */
  lemma AsWrittenSteps(s: seq<char>, t: seq<char>, o: Options, cells: seq<seq<nat>>, i: nat, j: nat)
    requires i <= |s| && j <= |t| && Covers(cells, i, j)
    ensures var mv := NextMoveAsWritten(s, t, o, cells, i, j);
      && (mv.None? ==> BacktraceAsWritten(s, t, o, cells, i, j) == [])
      && (mv.Some? ==>
            && Covers(cells, From(mv.value, i, j).0, From(mv.value, i, j).1)
            && BacktraceAsWritten(s, t, o, cells, i, j)
               == BacktraceAsWritten(s, t, o, cells, From(mv.value, i, j).0, From(mv.value, i, j).1) + Entries(mv.value))
  {
  }

  /** With a positive transposition cost the backtrace as written retraces a
      valid alignment. */
  lemma {:induction false} AsWrittenAligns(s: seq<char>, t: seq<char>, o: Options, cells: seq<seq<nat>>, i: nat, j: nat)
    requires i <= |s| && j <= |t| && Recurs(cells, s, t, o) && o.transpCost > 0
    ensures Covers(cells, i, j)
    ensures Aligns(o, BacktraceAsWritten(s, t, o, cells, i, j), s[..i], t[..j])
    decreases i + j
  {
    NextMoveAsWrittenFits(s, t, o, cells, i, j);
    AsWrittenSteps(s, t, o, cells, i, j);
    var mv := NextMoveAsWritten(s, t, o, cells, i, j);
    if mv.Some? {
      var (pi, pj) := From(mv.value, i, j);
      AsWrittenAligns(s, t, o, cells, pi, pj);
      ExtendPrefixes(o, BacktraceAsWritten(s, t, o, cells, pi, pj), mv.value, s, t, i, j);
    }
  }

  /** With unit transposition cost, as in both default option sets, the two
      transposition tests coincide on a matrix that follows the recurrence:
      the cell is then at most one more than the cell two steps up the
      diagonal, so it is larger exactly when it is one more. */
  lemma TestsAgreeOnUnitTranspose(s: seq<char>, t: seq<char>, o: Options, cells: seq<seq<nat>>, i: nat, j: nat)
    requires i <= |s| && j <= |t| && Recurs(cells, s, t, o) && o.transpCost == 1
    ensures Covers(cells, i, j)
    ensures NextMoveAsWritten(s, t, o, cells, i, j) == NextMove(s, t, o, cells, i, j)
  {
    NextMoveIsSound(s, t, o, cells, i, j);
    if Swapped(s, t, i, j) {
      assert cells[i][j] == Candidates(cells, s, t, o, i, j);
    }
  }

  /** Hence with unit transposition cost the backtrace as written is the
      corrected one. */
  lemma {:induction false} AsWrittenAgreesOnUnitTranspose(s: seq<char>, t: seq<char>, o: Options, cells: seq<seq<nat>>, i: nat, j: nat)
    requires i <= |s| && j <= |t| && Recurs(cells, s, t, o) && o.transpCost == 1
    ensures Covers(cells, i, j)
    ensures BacktraceAsWritten(s, t, o, cells, i, j) == Backtrace(s, t, o, cells, i, j)
    decreases i + j
  {
    TestsAgreeOnUnitTranspose(s, t, o, cells, i, j);
    var mv := NextMove(s, t, o, cells, i, j);
    if mv.Some? {
      var (pi, pj) := From(mv.value, i, j);
      AsWrittenAgreesOnUnitTranspose(s, t, o, cells, pi, pj);
    }
  }
}
