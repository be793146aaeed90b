/** The algorithm object: the source and target characters, the options, and
    the storage matrix it fills in place. */
module OsaCore {
  import opened Types
  import opened MatrixTrait
  import opened Storage
  import opened Recurrence
  import opened Alignment
  import opened Script
  import opened Optimality
  import opened Pipeline

  /** Cell (a, b) of the (|s| + 1) x (|t| + 1) corner is written once the
      builder's interior loops have passed (i, j): the border is written
      before them, and they go row by row, left to right. */
  predicate Before(s: seq<char>, t: seq<char>, a: nat, b: nat, i: nat, j: nat) {
    a <= |s| && b <= |t| && (a == 0 || b == 0 || a < i || (a == i && b < j))
  }

  /** `cells` is `base` with the cells `Before` (i, j) holding the
      recurrence. */
  ghost predicate FilledBefore(cells: seq<seq<nat>>, base: seq<seq<nat>>, y: nat, s: seq<char>, t: seq<char>, o: Options, i: nat, j: nat) {
    && |cells| == |base|
    && (forall a :: 0 <= a < |base| ==> |cells[a]| == y && |base[a]| == y)
    && forall a, b :: 0 <= a < |base| && 0 <= b < y ==>
         cells[a][b] == if Before(s, t, a, b, i, j) then Cell(s, t, o, a, b) else base[a][b]
  }

  class Osa {
    /** The storage the matrix is built in. The fields of the backend change;
        which backend it is never does. */
    const matrix: Matrix
    const source: seq<char>
    const target: seq<char>
    const options: Options

    ghost predicate Valid()
      reads matrix.Repr()
    {
      matrix.Valid()
    }

    /** `Osa::new`: takes ownership of the matrix as it is. */
    constructor (source: seq<char>, target: seq<char>, options: Options, matrix: Matrix)
      requires matrix.Valid()
      ensures Valid()
      ensures this.source == source && this.target == target && this.options == options
      ensures this.matrix == matrix
    {
      this.matrix := matrix;
      this.source := source;
      this.target := target;
      this.options := options;
    }

    /** `get_cost`: the terminal cell under the current row bound. */
    function GetCost(): (c: nat)
      reads matrix.Repr()
      requires Valid() && HasLastCell(matrix.View())
      ensures c == matrix.View().cells[matrix.View().x - 1][matrix.View().y - 1]
    {
      matrix.GetLastCell()
    }

    /** `get_matrix`: the storage itself, not a copy. */
    function GetMatrix(): (m: Matrix)
      ensures m == matrix
    {
      matrix
    }

    /** `edit_script_for_strings`: builds the matrix, then traces the script
        back from the cell at the matrix's reported size minus one in both
        directions. On a matrix of exactly (|source| + 1) x (|target| + 1)
        cells, as the entry points create, that is the terminal row of
        column |target|; the script turns the first that many source
        characters into the target, and costs what `get_cost` reports. The
        walk is the corrected one; at unit transposition cost it is the
        crate's own. */
    method EditScriptForStrings() returns (script: seq<EditType>)
      requires Valid()
      requires matrix.View().Rows() == matrix.View().x == |source| + 1 && matrix.View().y == |target| + 1
      modifies matrix.Repr()
      ensures Valid() && Finished(matrix.View(), source, target, options)
      ensures script == ScriptFor(source, target, options)
      ensures Cost(options, script) == GetCost()
      ensures options.transpCost == 1 ==> script == ScriptAsWritten(source, target, options)
    {
      Prepare();
      var size := matrix.GetSize();
      script := Backtrace(source, target, options, matrix.View().cells, size.0 - 1, size.1 - 1);
    }

    /** `matrix_for_strings` on a matrix of exactly (|source| + 1) x
        (|target| + 1) cells. */
    method Prepare()
      requires Valid()
      requires matrix.View().Rows() == matrix.View().x == |source| + 1 && matrix.View().y == |target| + 1
      modifies matrix.Repr()
      ensures Valid() && Finished(matrix.View(), source, target, options)
    {
      ghost var base := matrix.View().cells;
      MatrixForStrings();
      TerminalFacts(base, source, target, options, matrix.View());
    }

    /** `matrix_for_strings`: fills the (|source| + 1) x (|target| + 1)
        corner with the recurrence, leaving every other cell as it was, and
        then, when the target is shorter and the option asks for it, lowers
        the row bound to one past the first least row of column |target|.
        The matrix must have room for the corner: the crate indexes it
        without checking. */
    method MatrixForStrings()
      requires Valid()
      requires |source| < matrix.View().Rows() && |target| < matrix.View().y
      modifies matrix.Repr()
      ensures Valid()
      ensures matrix.View().cells == Fill(old(matrix.View().cells), source, target, options)
      ensures matrix.View().y == old(matrix.View().y)
      ensures matrix.View().x == if ShrinkApplies(source, target, options) then ShrinkRow(source, target, options) + 1
                                 else old(matrix.View().x)
    {
      ghost var base := matrix.View().cells;
      FillCorner();
      if |target| < |source| && options.minCostWhenTargetShorter {
        ShrinkToFirstMin(base);
      }
    }

    /** The filling loops: the border, then the interior row by row. */
    method FillCorner()
      requires Valid()
      requires |source| < matrix.View().Rows() && |target| < matrix.View().y
      modifies matrix.Repr()
      ensures Valid()
      ensures matrix.View().cells == Fill(old(matrix.View().cells), source, target, options)
      ensures matrix.View().y == old(matrix.View().y) && matrix.View().x == old(matrix.View().x)
    {
      ghost var base := matrix.View().cells;
      FillBorders();
      for i := 1 to |source| + 1
        invariant Valid() && matrix.View().y == old(matrix.View().y) && matrix.View().x == old(matrix.View().x)
        invariant FilledBefore(matrix.View().cells, base, matrix.View().y, source, target, options, i, 1)
      {
        FillRow(base, i);
      }
      FilledEverything(matrix.View().cells, base, matrix.View().y, source, target, options);
    }

    /** The shrink step on a filled matrix: the row bound becomes one past
        the first least row of column |target| among rows |target| ..
        |source|. */
    method ShrinkToFirstMin(ghost base: seq<seq<nat>>)
      requires Valid() && |target| < |source| < matrix.View().Rows() && |target| < matrix.View().y
      requires |base| == matrix.View().Rows() && forall a :: 0 <= a < |base| ==> |base[a]| == matrix.View().y
      requires matrix.View().cells == Fill(base, source, target, options)
      modifies matrix.Repr()
      ensures Valid()
      ensures matrix.View() == old(matrix.View()).(x := ShrinkRow(source, target, options) + 1)
    {
      var index := FirstMinRowIndex();
      assert HasColumn(base, |target|, |source|);
      FillAgreesOnColumn(base, source, target, options, index);
      matrix.Shrink(index + 1);
    }

    /** The two border loops: column 0 holds cumulative deletion costs, row
        0 cumulative insertion costs. */
    method FillBorders()
      requires Valid()
      requires |source| < matrix.View().Rows() && |target| < matrix.View().y
      modifies matrix.Repr()
      ensures Valid() && matrix.View().y == old(matrix.View().y) && matrix.View().x == old(matrix.View().x)
      ensures FilledBefore(matrix.View().cells, old(matrix.View().cells), matrix.View().y, source, target, options, 1, 1)
    {
      var s, t, o := source, target, options;
      ghost var base := matrix.View().cells;
      ghost var y := matrix.View().y;
      for i := 0 to |s| + 1
        invariant Valid() && matrix.View().y == y && matrix.View().x == old(matrix.View().x)
        invariant |matrix.View().cells| == |base|
        invariant forall a, b :: 0 <= a < |base| && 0 <= b < y ==>
                    matrix.View().cells[a][b] == if b == 0 && a < i then a * o.delCost else base[a][b]
      {
        matrix.Set(i, 0, i * o.delCost);
      }
      for j := 0 to |t| + 1
        invariant Valid() && matrix.View().y == y && matrix.View().x == old(matrix.View().x)
        invariant |matrix.View().cells| == |base|
        invariant forall a, b :: 0 <= a < |base| && 0 <= b < y ==>
                    matrix.View().cells[a][b]
                    == if a == 0 && b < j then b * o.insCost
                       else if b == 0 && a <= |s| then a * o.delCost
                       else base[a][b]
      {
        matrix.Set(0, j, j * o.insCost);
      }
      BordersFilled(matrix.View().cells, base, y, s, t, o);
    }

    /** One pass of the inner loop: row i, left to right. */
    method FillRow(ghost base: seq<seq<nat>>, i: nat)
      requires Valid() && 1 <= i <= |source| && |source| < matrix.View().Rows() && |target| < matrix.View().y
      requires FilledBefore(matrix.View().cells, base, matrix.View().y, source, target, options, i, 1)
      modifies matrix.Repr()
      ensures Valid() && matrix.View().y == old(matrix.View().y) && matrix.View().x == old(matrix.View().x)
      ensures FilledBefore(matrix.View().cells, base, matrix.View().y, source, target, options, i + 1, 1)
    {
      for j := 1 to |target| + 1
        invariant Valid() && matrix.View().y == old(matrix.View().y) && matrix.View().x == old(matrix.View().x)
        invariant FilledBefore(matrix.View().cells, base, matrix.View().y, source, target, options, i, j)
      {
        ghost var cells := matrix.View().cells;
        FillCell(i, j);
        NeighboursFilled(cells, base, matrix.View().y, source, target, options, i, j);
        FilledCell(cells, base, matrix.View().y, source, target, options, i, j);
      }
      FilledRow(matrix.View().cells, base, matrix.View().y, source, target, options, i);
    }

    /** The body of the inner loop: the least of the deletion, diagonal and
        insertion candidates, then, when the swap test holds, the least of
        that and the transposition candidate. */
    method FillCell(i: nat, j: nat)
      requires Valid() && 1 <= i <= |source| && 1 <= j <= |target|
      requires |source| < matrix.View().Rows() && |target| < matrix.View().y
      modifies matrix.Repr()
      ensures Valid() && matrix.View().y == old(matrix.View().y) && matrix.View().x == old(matrix.View().x)
      ensures Covers(old(matrix.View().cells), i, j)
      ensures matrix.View().cells
              == Updated(old(matrix.View().cells), i, j, Candidates(old(matrix.View().cells), source, target, options, i, j))
    {
      var s, t, o := source, target, options;
      ghost var before := matrix.View();
      var delCost := matrix.Get(i - 1, j) + o.delCost;
      var matchSubCost := matrix.Get(i - 1, j - 1);
      if !o.equals(s[i - 1], t[j - 1]) {
        matchSubCost := matchSubCost + o.subCost;
      }
      var insCost := matrix.Get(i, j - 1) + o.insCost;
      ghost var best := Min(delCost, Min(matchSubCost, insCost));
      ghost var candidate := Candidates(before.cells, s, t, o, i, j);
      assert matchSubCost == before.cells[i - 1][j - 1] + DiagonalCost(s, t, o, i, j);
      matrix.Set(i, j, Min(delCost, Min(matchSubCost, insCost)));
      assert matrix.View().cells == Updated(before.cells, i, j, best);
      if i > 1 && j > 1 && s[i - 1] == t[j - 2] && s[i - 2] == t[j - 1] {
        MatrixTrait.SetThenGet(before, i, j, best, i - 2, j - 2);
        var transpCost := matrix.Get(i - 2, j - 2) + o.transpCost;
        matrix.Set(i, j, Min(matrix.Get(i, j), transpCost));
        assert Min(best, transpCost) == candidate;
        UpdatedTwice(before.cells, i, j, best, candidate);
      } else {
        assert best == candidate;
      }
    }

    /** The scan of the shrink step: the first row among |target| ..
        |source| whose cell in column |target| is least, found by keeping
        the candidate unless a later row is strictly smaller. */
    method FirstMinRowIndex() returns (index: nat)
      requires Valid() && |target| < |source| < matrix.View().Rows() && |target| < matrix.View().y
      ensures IsFirstMinRow(matrix.View().cells, |target|, |target|, |source|, index)
    {
      var t := |target|;
      var min := matrix.Get(t, t);
      index := t;
      for i := t to |source| + 1
        invariant index <= |source| && min == matrix.View().cells[index][t]
        invariant i == t ==> index == t
        invariant i > t ==> IsFirstMinRow(matrix.View().cells, t, t, i - 1, index)
      {
        if min > matrix.Get(i, t) {
          min := matrix.Get(i, t);
          index := i;
        }
      }
    }
  }

  /** Writing the same cell twice keeps the second value. */
  lemma UpdatedTwice(cells: seq<seq<nat>>, r: nat, c: nat, v: nat, w: nat)
    requires r < |cells| && c < |cells[r]|
    ensures Updated(Updated(cells, r, c, v), r, c, w) == Updated(cells, r, c, w)
  {
    assert cells[r][c := v][c := w] == cells[r][c := w];
  }

  /** After the border loops the front stands at (1, 1). */
  lemma BordersFilled(cells: seq<seq<nat>>, base: seq<seq<nat>>, y: nat, s: seq<char>, t: seq<char>, o: Options)
    requires |cells| == |base| && |s| < |base| && |t| < y
    requires forall a :: 0 <= a < |base| ==> |cells[a]| == y && |base[a]| == y
    requires forall a, b :: 0 <= a < |base| && 0 <= b < y ==>
               cells[a][b] == if a == 0 && b < |t| + 1 then b * o.insCost
                              else if b == 0 && a <= |s| then a * o.delCost
                              else base[a][b]
    ensures FilledBefore(cells, base, y, s, t, o, 1, 1)
  {
  }

  /** The state the builder leaves in a matrix of exactly the table's size:
      the table, with the row bound one past the terminal row. The script
      traced back from the reported size is then the pipeline's script, and
      it costs the terminal cell. */
  lemma TerminalFacts(base: seq<seq<nat>>, s: seq<char>, t: seq<char>, o: Options, st: State)
    requires |base| == |s| + 1 && st.y == |t| + 1 && forall a :: 0 <= a < |base| ==> |base[a]| == |t| + 1
    requires st.cells == Fill(base, s, t, o)
    requires st.x == if ShrinkApplies(s, t, o) then ShrinkRow(s, t, o) + 1 else |s| + 1
    ensures Finished(st, s, t, o)
  {
    FillExact(base, s, t, o);
    TerminalWalk(st, s, t, o);
    TerminalCost(st, s, t, o);
    ScriptsAgreeOnUnitTranspose(s, t, o);
  }

  /** Under the terminal row bound, the walk from the last cell is the
      pipeline's script. */
  lemma TerminalWalk(st: State, s: seq<char>, t: seq<char>, o: Options)
    requires st.cells == Table(s, t, o) && st.x == TerminalRow(s, t, o) + 1 && st.y == |t| + 1
    ensures Covers(st.cells, st.x - 1, st.y - 1)
    ensures Backtrace(s, t, o, st.cells, st.x - 1, st.y - 1) == ScriptFor(s, t, o)
  {
    TableCoversTerminal(s, t, o);
  }

  /** ... and that script costs the last cell. */
  lemma TerminalCost(st: State, s: seq<char>, t: seq<char>, o: Options)
    requires st.cells == Table(s, t, o) && st.x == TerminalRow(s, t, o) + 1 && st.y == |t| + 1
    ensures st.Valid() && HasLastCell(st)
    ensures Cost(o, ScriptFor(s, t, o)) == LastCell(st)
  {
    var r := TerminalRow(s, t, o);
    assert Cost(o, ScriptFor(s, t, o)) == Cell(s, t, o, r, |t|) by {
      ScriptForIsOptimal(s, t, o, []);
    }
    assert LastCell(st) == Table(s, t, o)[r][|t|];
  }

  /** The state `matrix_for_strings` leaves a matrix of exactly
      (|s| + 1) x (|t| + 1) cells in: its cells are the recurrence's table
      and its row bound is one past the terminal row, so the last cell under
      the bound is the terminal cell of column |t|. The backtrace from there
      is the pipeline's script, and that script costs the last cell. */
  ghost predicate Finished(st: State, s: seq<char>, t: seq<char>, o: Options) {
    && st.Valid() && st.cells == Table(s, t, o)
    && st.x == TerminalRow(s, t, o) + 1 && st.y == |t| + 1
    && HasLastCell(st) && Covers(st.cells, st.x - 1, st.y - 1)
    && Backtrace(s, t, o, st.cells, st.x - 1, st.y - 1) == ScriptFor(s, t, o)
    && Cost(o, ScriptFor(s, t, o)) == LastCell(st)
    && (o.transpCost == 1 ==> ScriptAsWritten(s, t, o) == ScriptFor(s, t, o))
  }

  /** Before the inner loop body at (i, j), every neighbour it reads holds
      the recurrence, so the value it computes is the recurrence's. */
  lemma NeighboursFilled(cells: seq<seq<nat>>, base: seq<seq<nat>>, y: nat, s: seq<char>, t: seq<char>, o: Options, i: nat, j: nat)
    requires 1 <= i <= |s| && 1 <= j <= |t| && |s| < |base| && |t| < y
    requires FilledBefore(cells, base, y, s, t, o, i, j)
    ensures Covers(cells, i, j) && Candidates(cells, s, t, o, i, j) == Cell(s, t, o, i, j)
  {
    assert Before(s, t, i - 1, j, i, j) && Before(s, t, i - 1, j - 1, i, j) && Before(s, t, i, j - 1, i, j);
    if i > 1 && j > 1 {
      assert Before(s, t, i - 2, j - 2, i, j);
    }
    CandidatesAgree(cells, s, t, o, i, j);
  }

  /** Writing the recurrence's value at (i, j) moves the front one cell on. */
  lemma FilledCell(cells: seq<seq<nat>>, base: seq<seq<nat>>, y: nat, s: seq<char>, t: seq<char>, o: Options, i: nat, j: nat)
    requires 1 <= i <= |s| && 1 <= j <= |t| && |s| < |base| && |t| < y
    requires FilledBefore(cells, base, y, s, t, o, i, j)
    ensures FilledBefore(Updated(cells, i, j, Cell(s, t, o, i, j)), base, y, s, t, o, i, j + 1)
  {
  }

  /** Finishing row i moves the front to the start of row i + 1. */
  lemma FilledRow(cells: seq<seq<nat>>, base: seq<seq<nat>>, y: nat, s: seq<char>, t: seq<char>, o: Options, i: nat)
    requires FilledBefore(cells, base, y, s, t, o, i, |t| + 1)
    ensures FilledBefore(cells, base, y, s, t, o, i + 1, 1)
  {
  }

  /** Once every row is done, the matrix is the filled one. */
  lemma FilledEverything(cells: seq<seq<nat>>, base: seq<seq<nat>>, y: nat, s: seq<char>, t: seq<char>, o: Options)
    requires FilledBefore(cells, base, y, s, t, o, |s| + 1, 1)
    ensures cells == Fill(base, s, t, o)
  {
    var f := Fill(base, s, t, o);
    forall a | 0 <= a < |base| ensures cells[a] == f[a] {
      forall b | 0 <= b < y ensures cells[a][b] == f[a][b] {
        assert Before(s, t, a, b, |s| + 1, 1) == (a <= |s| && b <= |t|);
      }
    }
  }
}
