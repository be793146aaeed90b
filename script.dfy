/** Reconstructing the edit script from a filled cost matrix, and what makes
    a script correct: it must be a valid alignment of the source with the
    target, and its cost must be the matrix's terminal cell. */
module Script {
  import opened Types
  import opened Recurrence
  import opened Alignment

  datatype Option<T> = None | Some(value: T)

  // ---------------------------------------------------------------------
  // The backtrace.

  /** Whether the move `op` can lead into cell (i, j). */
  predicate Enters(op: EditType, i: nat, j: nat) {
    Width(op).0 <= i && Width(op).1 <= j
  }

  /** The cell the move `op` into (i, j) comes from. */
  function From(op: EditType, i: nat, j: nat): (cell: (nat, nat))
    requires Enters(op, i, j)
    ensures cell.0 + cell.1 < i + j
  {
    (i - Width(op).0, j - Width(op).1)
  }

  /** The moves the backtrace tries after the transposition, in the order
      the crate tries them: Delete, Insert, Sub, Equal. Each applies when the
      cell it comes from plus the move's cost is the current cell. */
  function LaterMove(o: Options, cells: seq<seq<nat>>, i: nat, j: nat): (mv: Option<EditType>)
    requires Covers(cells, i, j)
    ensures mv.Some? ==> mv.value != Transpose && Enters(mv.value, i, j)
  {
    if i > 0 && cells[i - 1][j] + o.delCost == cells[i][j] then Some(Delete)
    else if j > 0 && cells[i][j - 1] + o.insCost == cells[i][j] then Some(Insert)
    else if i > 0 && j > 0 && cells[i - 1][j - 1] + o.subCost == cells[i][j] then Some(Sub)
    else if i > 0 && j > 0 && cells[i - 1][j - 1] == cells[i][j] then Some(Equal)
    else None
  }

  /** The move the crate's backtrace takes at (i, j): the transposition when
      the swap test holds and the cell two steps up the diagonal is smaller,
      whatever the transposition costs; otherwise the later moves. */
  function NextMoveAsWritten(s: seq<char>, t: seq<char>, o: Options, cells: seq<seq<nat>>, i: nat, j: nat): (mv: Option<EditType>)
    requires i <= |s| && j <= |t| && Covers(cells, i, j)
    ensures mv.Some? ==> Enters(mv.value, i, j)
  {
    if Swapped(s, t, i, j) && cells[i - 2][j - 2] < cells[i][j] then Some(Transpose)
    else LaterMove(o, cells, i, j)
  }

  /** The corrected choice: the transposition applies only when it accounts
      for the cell exactly, as every other move must. */
  function NextMove(s: seq<char>, t: seq<char>, o: Options, cells: seq<seq<nat>>, i: nat, j: nat): (mv: Option<EditType>)
    requires i <= |s| && j <= |t| && Covers(cells, i, j)
    ensures mv.Some? ==> Enters(mv.value, i, j)
  {
    if Swapped(s, t, i, j) && cells[i - 2][j - 2] + o.transpCost == cells[i][j] then Some(Transpose)
    else LaterMove(o, cells, i, j)
  }

  /** The cells the backtrace may visit from (i, j) are inside `cells`. */
  lemma CoversFrom(cells: seq<seq<nat>>, op: EditType, i: nat, j: nat)
    requires Covers(cells, i, j) && Enters(op, i, j)
    ensures Covers(cells, From(op, i, j).0, From(op, i, j).1)
  {
  }

  /** The backtrace as the crate writes it: from (i, j), the script of the
      cell the chosen move comes from, followed by that move's entries; the
      empty script where no move applies, the origin among such cells. */
  function BacktraceAsWritten(s: seq<char>, t: seq<char>, o: Options, cells: seq<seq<nat>>, i: nat, j: nat): seq<EditType>
    requires i <= |s| && j <= |t| && Covers(cells, i, j)
    decreases i + j, cells
  {
    var mv := NextMoveAsWritten(s, t, o, cells, i, j);
    if mv.None? then []
    else
      CoversFrom(cells, mv.value, i, j);
      BacktraceAsWritten(s, t, o, cells, i - Width(mv.value).0, j - Width(mv.value).1) + Entries(mv.value)
  }

  /** The backtrace the rest of the model uses: the same walk, with the
      corrected transposition test. */
  function Backtrace(s: seq<char>, t: seq<char>, o: Options, cells: seq<seq<nat>>, i: nat, j: nat): seq<EditType>
    requires i <= |s| && j <= |t| && Covers(cells, i, j)
    decreases i + j, cells
  {
    var mv := NextMove(s, t, o, cells, i, j);
    if mv.None? then []
    else
      CoversFrom(cells, mv.value, i, j);
      Backtrace(s, t, o, cells, i - Width(mv.value).0, j - Width(mv.value).1) + Entries(mv.value)
  }
}
