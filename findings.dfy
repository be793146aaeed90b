/** Two inputs on which the crate's transposition test goes wrong. The test
    asks only whether the cell two steps up the diagonal is smaller than the
    current one, not whether the transposition's cost accounts for the
    difference; with a transposition cost other than one the backtrace can
    then report a script that costs more than the matrix says, or none at
    all. */
module Findings {
  import opened Types
  import opened Recurrence
  import opened Alignment
  import opened Script
  import opened Optimality

  /** Unit costs for everything but the transposition. */
  function WithTranspose(c: nat): (o: Options)
    ensures o.insCost == 1 && o.delCost == 1 && o.subCost == 1 && o.transpCost == c
    ensures !o.minCostWhenTargetShorter
  {
    Options(1, 1, 1, c, IdenticalChars, false)
  }

  /** The matrix for "ab" -> "ba" with transposition cost `c`, for c = 5 and
      c = 0: only the terminal cell depends on it. */
  function SwapMatrix(c: nat): seq<seq<nat>> {
    [[0, 1, 2], [1, 1, 1], [2, 1, if c < 2 then c else 2]]
  }

  /** That matrix follows the recurrence. */
  lemma SwapMatrixRecurs(s: seq<char>, t: seq<char>, c: nat)
    requires s == "ab" && t == "ba" && (c == 0 || c == 5)
    ensures Recurs(SwapMatrix(c), s, t, WithTranspose(c))
  {
    var m, o := SwapMatrix(c), WithTranspose(c);
    forall a | 0 <= a <= 2 ensures |m[a]| == 3 && m[a][0] == a * o.delCost {
      assert a == 0 || a == 1 || a == 2;
    }
    forall b | 0 <= b <= 2 ensures m[0][b] == b * o.insCost {
      assert b == 0 || b == 1 || b == 2;
    }
    forall a, b | 1 <= a <= 2 && 1 <= b <= 2 ensures m[a][b] == Candidates(m, s, t, o, a, b) {
      assert a == 1 || a == 2;
      assert b == 1 || b == 2;
    }
  }

  /** ... so it is the table. */
  lemma SwapMatrixIsTable(s: seq<char>, t: seq<char>, c: nat)
    requires s == "ab" && t == "ba" && (c == 0 || c == 5)
    ensures Table(s, t, WithTranspose(c)) == SwapMatrix(c)
  {
    SwapMatrixRecurs(s, t, c);
    RecursIsTable(SwapMatrix(c), s, t, WithTranspose(c));
  }

  /** The backtrace as written on the cost-5 matrix: the transposition. */
  lemma AsWrittenOnCostFive(s: seq<char>, t: seq<char>)
    requires s == "ab" && t == "ba"
    ensures BacktraceAsWritten(s, t, WithTranspose(5), SwapMatrix(5), 2, 2) == [Transpose, Transpose]
  {
    var o, m := WithTranspose(5), SwapMatrix(5);
    assert NextMoveAsWritten(s, t, o, m, 0, 0) == None;
    AsWrittenSteps(s, t, o, m, 0, 0);
    assert NextMoveAsWritten(s, t, o, m, 2, 2) == Some(Transpose);
    AsWrittenSteps(s, t, o, m, 2, 2);
  }

  /** The backtrace as written on the cost-0 matrix: no move applies at the
      terminal cell. */
  lemma AsWrittenOnCostZero(s: seq<char>, t: seq<char>)
    requires s == "ab" && t == "ba"
    ensures BacktraceAsWritten(s, t, WithTranspose(0), SwapMatrix(0), 2, 2) == []
  {
    var o, m := WithTranspose(0), SwapMatrix(0);
    assert NextMoveAsWritten(s, t, o, m, 2, 2) == None;
    AsWrittenSteps(s, t, o, m, 2, 2);
  }

  /** The transposition turns "ab" into "ba", at the transposition's cost. */
  lemma SwapAligns(s: seq<char>, t: seq<char>, c: nat)
    requires s == "ab" && t == "ba"
    ensures Aligns(WithTranspose(c), [Transpose, Transpose], s, t)
    ensures Cost(WithTranspose(c), [Transpose, Transpose]) == c
  {
    assert [Transpose, Transpose][..0] == [];
    assert s[..0] == [] && t[..0] == [];
  }

  /** The corrected backtrace from the terminal cell of the table for "ab"
      and "ba" turns one into the other, at the cost of that cell. */
  lemma CorrectedOnSwap(s: seq<char>, t: seq<char>, c: nat)
    requires s == "ab" && t == "ba" && (c == 0 || c == 5)
    ensures var o, m := WithTranspose(c), SwapMatrix(c);
      && Table(s, t, o) == m
      && Aligns(o, Backtrace(s, t, o, m, 2, 2), s, t)
      && Cost(o, Backtrace(s, t, o, m, 2, 2)) == m[2][2]
  {
    SwapMatrixIsTable(s, t, c);
    BacktraceIsOptimal(s, t, WithTranspose(c), 2, 2);
    assert s[..2] == s && t[..2] == t;
  }

  /** With transposition cost 5, "ab" -> "ba" costs 2 (insert, keep,
      delete), but the backtrace as written reports the transposition, which
      costs 5. The corrected backtrace reports a script that turns "ab" into
      "ba" at cost 2. */
  lemma AsWrittenOvercharges(s: seq<char>, t: seq<char>)
    requires s == "ab" && t == "ba"
    ensures var o, m := WithTranspose(5), SwapMatrix(5);
      && Table(s, t, o) == m && m[2][2] == 2
      && BacktraceAsWritten(s, t, o, m, 2, 2) == [Transpose, Transpose]
      && Aligns(o, [Transpose, Transpose], s, t)
      && Cost(o, [Transpose, Transpose]) == 5
      && Aligns(o, Backtrace(s, t, o, m, 2, 2), s, t)
      && Cost(o, Backtrace(s, t, o, m, 2, 2)) == 2
  {
    CorrectedOnSwap(s, t, 5);
    AsWrittenOnCostFive(s, t);
    SwapAligns(s, t, 5);
  }

  /** With transposition cost 0, "ab" -> "ba" costs nothing, and no move the
      backtrace as written tries accounts for the terminal cell: it reports
      the empty script, which does not turn "ab" into "ba". The corrected
      backtrace reports a script that does, at cost 0. */
  lemma AsWrittenStalls(s: seq<char>, t: seq<char>)
    requires s == "ab" && t == "ba"
    ensures var o, m := WithTranspose(0), SwapMatrix(0);
      && Table(s, t, o) == m && m[2][2] == 0
      && BacktraceAsWritten(s, t, o, m, 2, 2) == []
      && !Aligns(o, [], s, t)
      && Aligns(o, Backtrace(s, t, o, m, 2, 2), s, t)
      && Cost(o, Backtrace(s, t, o, m, 2, 2)) == 0
  {
    CorrectedOnSwap(s, t, 0);
    AsWrittenOnCostZero(s, t);
  }
}
