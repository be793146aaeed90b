/** The contract every storage backend of the cost matrix satisfies, stated
    on the observable state of a backend: its cells, its logical row bound
    `x` (which `shrink` lowers) and its column bound `y`. Both backends are
    proved to implement exactly these operations, so any client observes the
    same results from either. */
module MatrixTrait {

  /** Observable state of a matrix. `cells` has one entry per allocated row;
      `x` and `y` are the logical bounds reported by `get_size`. */
  datatype State = State(cells: seq<seq<nat>>, x: nat, y: nat) {

    /** Every allocated row has exactly `y` columns. */
    ghost predicate Valid() {
      forall r :: 0 <= r < |cells| ==> |cells[r]| == y
    }

    /** Number of allocated rows (not affected by `shrink`). */
    function Rows(): nat {
      |cells|
    }

    /** Whether (r, c) lies inside the allocated cells. Indexing outside
        panics in both backends. */
    predicate InRange(r: nat, c: nat) {
      r < |cells| && c < y
    }
  }

  /** `new(x, y)`: x rows of y zero cells, with logical bounds (x, y). */
  function New(x: nat, y: nat): (st: State)
    ensures st.Valid() && st.Rows() == x && st.x == x && st.y == y
    ensures forall r, c :: 0 <= r < x && 0 <= c < y ==> st.cells[r][c] == 0
  {
    State(seq(x, _ => seq(y, _ => 0)), x, y)
  }

  /** `cells` with cell (r, c) replaced by `v`. */
  function Updated(cells: seq<seq<nat>>, r: nat, c: nat, v: nat): seq<seq<nat>>
    requires r < |cells| && c < |cells[r]|
  {
    var row: seq<nat> := cells[r][c := v];
    cells[r := row]
  }

  /** `set(r, c, v)`: cell (r, c) becomes v; every other cell, the number of
      rows and both bounds stay as they were. */
  function Set(st: State, r: nat, c: nat, v: nat): (st': State)
    requires st.Valid() && st.InRange(r, c)
    ensures st'.Valid() && st'.Rows() == st.Rows() && st'.x == st.x && st'.y == st.y
    ensures st'.cells[r][c] == v
    ensures forall r', c' :: 0 <= r' < st.Rows() && 0 <= c' < st.y && (r' != r || c' != c) ==>
              st'.cells[r'][c'] == st.cells[r'][c']
  {
    st.(cells := Updated(st.cells, r, c, v))
  }

  /** `get(r, c)`. */
  function Get(st: State, r: nat, c: nat): nat
    requires st.Valid() && st.InRange(r, c)
  {
    st.cells[r][c]
  }

  /** `shrink(k)`: only the logical row bound changes; no cell is touched. */
  function Shrink(st: State, k: nat): (st': State)
    ensures st'.cells == st.cells && st'.y == st.y && st'.x == k
    ensures st.Valid() ==> st'.Valid()
  {
    st.(x := k)
  }

  /** `get_last_cell`: the cell at (x - 1, y - 1) under the current, possibly
      shrunk, row bound. Both backends index out of range (a panic) unless
      1 <= x <= rows and y >= 1. */
  predicate HasLastCell(st: State) {
    1 <= st.x <= st.Rows() && 1 <= st.y
  }

  function LastCell(st: State): (v: nat)
    requires st.Valid() && HasLastCell(st)
    ensures st.InRange(st.x - 1, st.y - 1) && v == Get(st, st.x - 1, st.y - 1)
  {
    st.cells[st.x - 1][st.y - 1]
  }

  /** `get_size`: the logical bounds. */
  function Size(st: State): (nat, nat) {
    (st.x, st.y)
  }

  /** Writing a cell and reading it back gives the value written; reading any
      other cell gives what was there before. */
  lemma SetThenGet(st: State, r: nat, c: nat, v: nat, r': nat, c': nat)
    requires st.Valid() && st.InRange(r, c) && st.InRange(r', c')
    ensures Get(Set(st, r, c, v), r', c') == if r' == r && c' == c then v else Get(st, r', c')
  {
  }

  /** Shrinking never changes a cell, the column bound, or the allocated rows,
      and the terminal cell it exposes is the last cell of row k - 1. */
  lemma ShrinkThenLastCell(st: State, k: nat)
    requires st.Valid() && 1 <= k <= st.Rows() && 1 <= st.y
    ensures HasLastCell(Shrink(st, k))
    ensures LastCell(Shrink(st, k)) == st.cells[k - 1][st.y - 1]
    ensures Size(Shrink(st, k)) == (k, st.y)
  {
  }

  // ---------------------------------------------------------------------
  // Call sequences, used to state that the two backends cannot be told apart.

  /** One call of the trait's interface after construction. */
  datatype Command = SetCell(r: nat, c: nat, v: nat) | GetCell(r: nat, c: nat) | ShrinkTo(k: nat) | LastCellOf | SizeOf

  /** What a call returns. `Panicked` stands for an index out of range, which
      aborts the caller; nothing is observed after it. */
  datatype Observation = Done | Value(v: nat) | Dims(x: nat, y: nat) | Panicked

  /** Whether a call indexes inside the matrix. */
  predicate Allowed(st: State, cmd: Command) {
    match cmd
    case SetCell(r, c, _) => st.InRange(r, c)
    case GetCell(r, c) => st.InRange(r, c)
    case ShrinkTo(_) => true
    case LastCellOf => HasLastCell(st)
    case SizeOf => true
  }

  /** The observation of one allowed call. */
  function Observe(st: State, cmd: Command): Observation
    requires st.Valid() && Allowed(st, cmd)
  {
    match cmd
    case SetCell(_, _, _) => Done
    case GetCell(r, c) => Value(Get(st, r, c))
    case ShrinkTo(_) => Done
    case LastCellOf => Value(LastCell(st))
    case SizeOf => Dims(st.x, st.y)
  }

  /** The state after one allowed call. */
  function Apply(st: State, cmd: Command): (st': State)
    requires st.Valid() && Allowed(st, cmd)
    ensures st'.Valid()
  {
    match cmd
    case SetCell(r, c, v) => Set(st, r, c, v)
    case ShrinkTo(k) => Shrink(st, k)
    case _ => st
  }

  /** The observations a client makes by issuing `cmds` in order: a call that
      would index out of range is observed as a panic and ends the run. */
  function Run(st: State, cmds: seq<Command>): (obs: seq<Observation>)
    requires st.Valid()
    ensures |obs| <= |cmds|
    decreases |cmds|
  {
    if cmds == [] then []
    else if !Allowed(st, cmds[0]) then [Panicked]
    else [Observe(st, cmds[0])] + Run(Apply(st, cmds[0]), cmds[1..])
  }

  /** A run stops at its first panic: a panic can only be the last
      observation, and a run that observes fewer results than it has calls
      ended in one. */
  lemma {:induction false} RunStopsAtPanic(st: State, cmds: seq<Command>)
    requires st.Valid()
    ensures var obs := Run(st, cmds);
      (forall k :: 0 <= k < |obs| - 1 ==> obs[k] != Panicked) &&
      (|obs| < |cmds| ==> obs != [] && obs[|obs| - 1] == Panicked)
    decreases |cmds|
  {
    if cmds != [] && Allowed(st, cmds[0]) {
      var rest := Run(Apply(st, cmds[0]), cmds[1..]);
      RunStopsAtPanic(Apply(st, cmds[0]), cmds[1..]);
      assert Run(st, cmds) == [Observe(st, cmds[0])] + rest;
    }
  }
}
