/** The dynamic-programming recurrence the cost-matrix builder computes, as
    functions of the source, the target and the options: cell (i, j) is the
    cheapest way to turn the first i source characters into the first j
    target characters. Also the row the optional shrink step selects. */
module Recurrence {
  import opened Types

  function Min(a: nat, b: nat): (m: nat)
    ensures m <= a && m <= b && (m == a || m == b)
  {
    if a <= b then a else b
  }

  /** The transposition test: the last two characters of the source prefix
      are the last two of the target prefix, swapped. It compares with plain
      character identity, never with the options' match predicate. */
  predicate Swapped(s: seq<char>, t: seq<char>, i: nat, j: nat)
    requires i <= |s| && j <= |t|
  {
    i > 1 && j > 1 && s[i - 1] == t[j - 2] && s[i - 2] == t[j - 1]
  }

  /** What the diagonal step adds: nothing when the options' predicate says
      the two characters match, the substitution cost otherwise. */
  function DiagonalCost(s: seq<char>, t: seq<char>, o: Options, i: nat, j: nat): nat
    requires 1 <= i <= |s| && 1 <= j <= |t|
  {
    if o.equals(s[i - 1], t[j - 1]) then 0 else o.subCost
  }

  /** Cell (i, j) of the cost matrix. Column 0 holds cumulative deletion
      costs, row 0 cumulative insertion costs; an interior cell is the least
      of the deletion, diagonal and insertion candidates, lowered further to
      the transposition candidate when the swap test holds. */
  function Cell(s: seq<char>, t: seq<char>, o: Options, i: nat, j: nat): nat
    requires i <= |s| && j <= |t|
    decreases i + j
  {
    if j == 0 then i * o.delCost
    else if i == 0 then j * o.insCost
    else
      var best := Min(Cell(s, t, o, i - 1, j) + o.delCost,
                      Min(Cell(s, t, o, i - 1, j - 1) + DiagonalCost(s, t, o, i, j),
                          Cell(s, t, o, i, j - 1) + o.insCost));
      if Swapped(s, t, i, j) then Min(best, Cell(s, t, o, i - 2, j - 2) + o.transpCost) else best
  }

  /** An interior cell is no larger than any of its candidates. */
  lemma CellBelowCandidates(s: seq<char>, t: seq<char>, o: Options, i: nat, j: nat)
    requires 1 <= i <= |s| && 1 <= j <= |t|
    ensures Cell(s, t, o, i, j) <= Cell(s, t, o, i - 1, j) + o.delCost
    ensures Cell(s, t, o, i, j) <= Cell(s, t, o, i - 1, j - 1) + DiagonalCost(s, t, o, i, j)
    ensures Cell(s, t, o, i, j) <= Cell(s, t, o, i, j - 1) + o.insCost
    ensures Swapped(s, t, i, j) ==> Cell(s, t, o, i, j) <= Cell(s, t, o, i - 2, j - 2) + o.transpCost
  {
  }

  /** ... and equal to one of them. */
  lemma CellIsCandidate(s: seq<char>, t: seq<char>, o: Options, i: nat, j: nat)
    requires 1 <= i <= |s| && 1 <= j <= |t|
    ensures || Cell(s, t, o, i, j) == Cell(s, t, o, i - 1, j) + o.delCost
            || Cell(s, t, o, i, j) == Cell(s, t, o, i - 1, j - 1) + DiagonalCost(s, t, o, i, j)
            || Cell(s, t, o, i, j) == Cell(s, t, o, i, j - 1) + o.insCost
            || (Swapped(s, t, i, j) && Cell(s, t, o, i, j) == Cell(s, t, o, i - 2, j - 2) + o.transpCost)
  {
  }

  /** The whole (|s| + 1) x (|t| + 1) matrix. */
  function Table(s: seq<char>, t: seq<char>, o: Options): (m: seq<seq<nat>>)
    ensures |m| == |s| + 1
    ensures forall i :: 0 <= i <= |s| ==> |m[i]| == |t| + 1
    ensures forall i, j :: 0 <= i <= |s| && 0 <= j <= |t| ==> m[i][j] == Cell(s, t, o, i, j)
  {
    seq(|s| + 1, i requires 0 <= i <= |s| => seq(|t| + 1, j requires 0 <= j <= |t| => Cell(s, t, o, i, j)))
  }

  /** `cells` has the shape of the (|s| + 1) x (|t| + 1) matrix. */
  predicate Shaped(cells: seq<seq<nat>>, s: seq<char>, t: seq<char>) {
    |cells| == |s| + 1 && forall a :: 0 <= a <= |s| ==> |cells[a]| == |t| + 1
  }

  /** `cells` has rows 0 .. i, each with columns 0 .. j. */
  predicate Covers(cells: seq<seq<nat>>, i: nat, j: nat) {
    i < |cells| && forall r :: 0 <= r <= i ==> j < |cells[r]|
  }

  /** A matrix of the table's shape covers every cell of the table. */
  lemma ShapedCovers(cells: seq<seq<nat>>, s: seq<char>, t: seq<char>)
    requires Shaped(cells, s, t)
    ensures forall a: nat, b: nat {:trigger Covers(cells, a, b)} :: a <= |s| && b <= |t| ==> Covers(cells, a, b)
  {
  }

  /** The value the builder stores at interior cell (a, b), computed from
      the cells it has already filled: the least of the deletion, diagonal
      and insertion candidates, lowered to the transposition candidate when
      the swap test holds. */
  function Candidates(cells: seq<seq<nat>>, s: seq<char>, t: seq<char>, o: Options, a: nat, b: nat): nat
    requires Covers(cells, a, b) && 1 <= a <= |s| && 1 <= b <= |t|
  {
    var best := Min(cells[a - 1][b] + o.delCost,
                    Min(cells[a - 1][b - 1] + DiagonalCost(s, t, o, a, b),
                        cells[a][b - 1] + o.insCost));
    if Swapped(s, t, a, b) then Min(best, cells[a - 2][b - 2] + o.transpCost) else best
  }

  /** Every cell of `cells` follows the recurrence from its neighbours. */
  predicate Recurs(cells: seq<seq<nat>>, s: seq<char>, t: seq<char>, o: Options) {
    && Shaped(cells, s, t)
    && (forall a :: 0 <= a <= |s| ==> cells[a][0] == a * o.delCost)
    && (forall b :: 0 <= b <= |t| ==> cells[0][b] == b * o.insCost)
    && (forall a, b {:trigger Candidates(cells, s, t, o, a, b)} :: 1 <= a <= |s| && 1 <= b <= |t| ==>
          cells[a][b] == Candidates(cells, s, t, o, a, b))
  }

  /** The table follows the recurrence. */
  lemma TableRecurs(s: seq<char>, t: seq<char>, o: Options)
    ensures Recurs(Table(s, t, o), s, t, o)
  {
    var m := Table(s, t, o);
    forall a, b | 1 <= a <= |s| && 1 <= b <= |t| ensures m[a][b] == Candidates(m, s, t, o, a, b) {
      CandidatesAgree(m, s, t, o, a, b);
    }
  }

  /** ... and it is the only matrix that does: the recurrence determines
      every cell. */
  lemma RecursIsTable(cells: seq<seq<nat>>, s: seq<char>, t: seq<char>, o: Options)
    requires Recurs(cells, s, t, o)
    ensures cells == Table(s, t, o)
  {
    var m := Table(s, t, o);
    TableRecurs(s, t, o);
    forall a | 0 <= a <= |s| ensures cells[a] == m[a] {
      forall b | 0 <= b <= |t| ensures cells[a][b] == m[a][b] {
        RecursAgree(cells, m, s, t, o, a, b);
      }
    }
  }

  /** Two matrices that follow the recurrence agree cell by cell: the
      borders are fixed, and an interior cell is the same function of
      neighbours on which they already agree. */
  lemma {:induction false} RecursAgree(c1: seq<seq<nat>>, c2: seq<seq<nat>>, s: seq<char>, t: seq<char>, o: Options, a: nat, b: nat)
    requires Recurs(c1, s, t, o) && Recurs(c2, s, t, o) && a <= |s| && b <= |t|
    ensures c1[a][b] == c2[a][b]
    decreases a + b
  {
    if a > 0 && b > 0 {
      RecursAgree(c1, c2, s, t, o, a - 1, b);
      RecursAgree(c1, c2, s, t, o, a - 1, b - 1);
      RecursAgree(c1, c2, s, t, o, a, b - 1);
      if Swapped(s, t, a, b) {
        RecursAgree(c1, c2, s, t, o, a - 2, b - 2);
      }
      assert c1[a][b] == Candidates(c1, s, t, o, a, b);
      assert c2[a][b] == Candidates(c2, s, t, o, a, b);
    }
  }

  /** Candidates computed from cells that agree with the recurrence give the
      recurrence's value. */
  lemma CandidatesAgree(cells: seq<seq<nat>>, s: seq<char>, t: seq<char>, o: Options, a: nat, b: nat)
    requires Covers(cells, a, b) && 1 <= a <= |s| && 1 <= b <= |t|
    requires cells[a - 1][b] == Cell(s, t, o, a - 1, b)
    requires cells[a - 1][b - 1] == Cell(s, t, o, a - 1, b - 1)
    requires cells[a][b - 1] == Cell(s, t, o, a, b - 1)
    requires Swapped(s, t, a, b) ==> cells[a - 2][b - 2] == Cell(s, t, o, a - 2, b - 2)
    ensures Candidates(cells, s, t, o, a, b) == Cell(s, t, o, a, b)
  {
  }

  /** A storage matrix of any size after the builder has run over it: cells
      inside the (|s| + 1) x (|t| + 1) corner hold the recurrence, the rest
      keep what they held before. */
  function Fill(base: seq<seq<nat>>, s: seq<char>, t: seq<char>, o: Options): (m: seq<seq<nat>>)
    ensures |m| == |base|
    ensures forall a :: 0 <= a < |base| ==> |m[a]| == |base[a]|
    ensures forall a, b :: 0 <= a < |base| && 0 <= b < |base[a]| ==>
              m[a][b] == if a <= |s| && b <= |t| then Cell(s, t, o, a, b) else base[a][b]
  {
    seq(|base|, a requires 0 <= a < |base| =>
      seq(|base[a]|, b requires 0 <= b < |base[a]| =>
        if a <= |s| && b <= |t| then Cell(s, t, o, a, b) else base[a][b]))
  }

  /** On a matrix of exactly the right size, filling gives the table. */
  lemma FillExact(base: seq<seq<nat>>, s: seq<char>, t: seq<char>, o: Options)
    requires |base| == |s| + 1 && forall a :: 0 <= a < |base| ==> |base[a]| == |t| + 1
    ensures Fill(base, s, t, o) == Table(s, t, o)
  {
    var f, m := Fill(base, s, t, o), Table(s, t, o);
    forall a | 0 <= a < |base| ensures f[a] == m[a] {
      assert forall b :: 0 <= b < |base[a]| ==> f[a][b] == m[a][b];
    }
  }

  // ---------------------------------------------------------------------
  // The optional shrink.

  /** The shrink step runs only when the target is shorter than the source
      and the option asks for it. */
  predicate ShrinkApplies(s: seq<char>, t: seq<char>, o: Options) {
    |t| < |s| && o.minCostWhenTargetShorter
  }

  /** Every row lo .. hi of `cells` has a column `col`. */
  predicate HasColumn(cells: seq<seq<nat>>, col: nat, hi: nat) {
    hi < |cells| && forall k :: 0 <= k <= hi ==> col < |cells[k]|
  }

  /** Row r is the first among rows lo .. hi whose cell in column `col` is
      least. */
  predicate IsFirstMinRow(cells: seq<seq<nat>>, col: nat, lo: nat, hi: nat, r: nat)
    requires HasColumn(cells, col, hi)
  {
    && lo <= r <= hi
    && (forall k {:trigger cells[k][col]} :: lo <= k <= hi ==> cells[r][col] <= cells[k][col])
    && (forall k {:trigger cells[k][col]} :: lo <= k < r ==> cells[k][col] > cells[r][col])
  }

  /** At most one row is the first least one. */
  lemma FirstMinRowUnique(cells: seq<seq<nat>>, col: nat, lo: nat, hi: nat, r: nat, r': nat)
    requires HasColumn(cells, col, hi)
    requires IsFirstMinRow(cells, col, lo, hi, r) && IsFirstMinRow(cells, col, lo, hi, r')
    ensures r == r'
  {
    assert cells[r][col] == cells[r'][col];
  }

  /** The scan of the shrink step over rows lo .. hi of column `col`: it
      keeps its candidate unless a later row is strictly smaller, so it
      finds the first least row. */
  function FirstMinRow(cells: seq<seq<nat>>, col: nat, lo: nat, hi: nat): (r: nat)
    requires lo <= hi && HasColumn(cells, col, hi)
    ensures IsFirstMinRow(cells, col, lo, hi, r)
    decreases hi
  {
    if hi == lo then lo
    else
      var r := FirstMinRow(cells, col, lo, hi - 1);
      if cells[r][col] > cells[hi][col] then hi else r
  }

  /** After the builder has run over a storage matrix, the first least row
      of column |t| among rows |t| .. |s| is the shrink row. */
  lemma FillAgreesOnColumn(base: seq<seq<nat>>, s: seq<char>, t: seq<char>, o: Options, r: nat)
    requires |t| <= |s| && HasColumn(base, |t|, |s|)
    requires IsFirstMinRow(Fill(base, s, t, o), |t|, |t|, |s|, r)
    ensures r == ShrinkRow(s, t, o)
  {
    var f, m := Fill(base, s, t, o), Table(s, t, o);
    assert forall k :: |t| <= k <= |s| ==> f[k][|t|] == m[k][|t|];
    FirstMinRowUnique(m, |t|, |t|, |s|, r, ShrinkRow(s, t, o));
  }

  /** The row the shrink step keeps as the last one: the first row among
      |t| .. |s| whose cell in column |t| is least. */
  function ShrinkRow(s: seq<char>, t: seq<char>, o: Options): (r: nat)
    requires |t| <= |s|
    ensures IsFirstMinRow(Table(s, t, o), |t|, |t|, |s|, r)
  {
    FirstMinRow(Table(s, t, o), |t|, |t|, |s|)
  }

  /** The row the edit script is traced back from: the last source row, or
      the shrink row when the shrink step runs. */
  function TerminalRow(s: seq<char>, t: seq<char>, o: Options): (r: nat)
    ensures r <= |s|
    ensures ShrinkApplies(s, t, o) ==> IsFirstMinRow(Table(s, t, o), |t|, |t|, |s|, r)
    ensures !ShrinkApplies(s, t, o) ==> r == |s|
  {
    if ShrinkApplies(s, t, o) then ShrinkRow(s, t, o) else |s|
  }
}
