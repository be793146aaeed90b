/** The crate's own test vectors: for each pair of strings, the cost matrix
    the recurrence fills under the default options and the edit script
    traced back from it. */
module Tests {
  import opened Types
  import opened Recurrence
  import opened Script
  import opened Pipeline

  const EmptyToAMatrix: seq<seq<nat>> := [[0, 1]]

  /** The matrix for "" and "a" follows the recurrence. */
  lemma EmptyToARecurs()
    ensures Recurs(EmptyToAMatrix, "", "a", DefaultOptions)
  {
    var m := EmptyToAMatrix;
  }

  /** The recurrence's table for "" and "a". */
  lemma EmptyToATable()
    ensures Table("", "a", DefaultOptions) == EmptyToAMatrix
  {
    EmptyToARecurs();
    RecursIsTable(EmptyToAMatrix, "", "a", DefaultOptions);
  }

  /** `m` is, row by row, the matrix for "" and "a". */
  predicate EmptyToACells(m: seq<seq<nat>>) {
    |m| == 1 && m[0] == [0, 1]
  }

  lemma EmptyToARows()
    ensures EmptyToACells(Table("", "a", DefaultOptions))
  {
    EmptyToATable();
  }

  lemma EmptyToAShape(m: seq<seq<nat>>)
    requires EmptyToACells(m)
    ensures Shaped(m, "", "a")
  {
  }

  lemma EmptyToAMove0x0(m: seq<seq<nat>>)
    requires EmptyToACells(m)
    ensures Covers(m, 0, 0) && NextMove("", "a", DefaultOptions, m, 0, 0) == None
  {
    EmptyToAShape(m);
    ShapedCovers(m, "", "a");
  }

  lemma EmptyToAWalk0x0(m: seq<seq<nat>>)
    requires EmptyToACells(m)
    ensures Backtrace("", "a", DefaultOptions, m, 0, 0) == []
  {
    EmptyToAMove0x0(m);
  }

  lemma EmptyToAMove0x1(m: seq<seq<nat>>)
    requires EmptyToACells(m)
    ensures Covers(m, 0, 1) && NextMove("", "a", DefaultOptions, m, 0, 1) == Some(Insert)
  {
    EmptyToAShape(m);
    ShapedCovers(m, "", "a");
  }

  lemma EmptyToAWalk(m: seq<seq<nat>>)
    requires EmptyToACells(m)
    ensures Backtrace("", "a", DefaultOptions, m, 0, 1) == [Insert]
  {
    EmptyToAWalk0x0(m);
    EmptyToAMove0x1(m);
  }

  /** lib.rs:87-92: the script for "" and "a". */
  lemma EmptyToA()
    ensures ScriptFor("", "a", DefaultOptions) == [Insert]
  {
    EmptyToARows();
    ScriptForUnfolds("", "a", DefaultOptions);
    EmptyToAWalk(Table("", "a", DefaultOptions));
  }

  const AToAaMatrix: seq<seq<nat>> := [[0, 1, 2], [1, 0, 1]]

  /** The matrix for "a" and "aa" follows the recurrence. */
  lemma AToAaRecurs()
    ensures Recurs(AToAaMatrix, "a", "aa", DefaultOptions)
  {
    var m := AToAaMatrix;
    forall a, b | 1 <= a <= 1 && 1 <= b <= 2 ensures m[a][b] == Candidates(m, "a", "aa", DefaultOptions, a, b) {
      assert b == 1 || b == 2;
    }
  }

  /** The recurrence's table for "a" and "aa". */
  lemma AToAaTable()
    ensures Table("a", "aa", DefaultOptions) == AToAaMatrix
  {
    AToAaRecurs();
    RecursIsTable(AToAaMatrix, "a", "aa", DefaultOptions);
  }

  /** `m` is, row by row, the matrix for "a" and "aa". */
  predicate AToAaCells(m: seq<seq<nat>>) {
    |m| == 2 && m[0] == [0, 1, 2] && m[1] == [1, 0, 1]
  }

  lemma AToAaRows()
    ensures AToAaCells(Table("a", "aa", DefaultOptions))
  {
    AToAaTable();
  }

  lemma AToAaShape(m: seq<seq<nat>>)
    requires AToAaCells(m)
    ensures Shaped(m, "a", "aa")
  {
  }

  lemma AToAaMove0x0(m: seq<seq<nat>>)
    requires AToAaCells(m)
    ensures Covers(m, 0, 0) && NextMove("a", "aa", DefaultOptions, m, 0, 0) == None
  {
    AToAaShape(m);
    ShapedCovers(m, "a", "aa");
  }

  lemma AToAaWalk0x0(m: seq<seq<nat>>)
    requires AToAaCells(m)
    ensures Backtrace("a", "aa", DefaultOptions, m, 0, 0) == []
  {
    AToAaMove0x0(m);
  }

  lemma AToAaMove1x1(m: seq<seq<nat>>)
    requires AToAaCells(m)
    ensures Covers(m, 1, 1) && NextMove("a", "aa", DefaultOptions, m, 1, 1) == Some(Equal)
  {
    AToAaShape(m);
    ShapedCovers(m, "a", "aa");
  }

  lemma AToAaWalk1x1(m: seq<seq<nat>>)
    requires AToAaCells(m)
    ensures Backtrace("a", "aa", DefaultOptions, m, 1, 1) == [Equal]
  {
    AToAaWalk0x0(m);
    AToAaMove1x1(m);
  }

  lemma AToAaMove1x2(m: seq<seq<nat>>)
    requires AToAaCells(m)
    ensures Covers(m, 1, 2) && NextMove("a", "aa", DefaultOptions, m, 1, 2) == Some(Insert)
  {
    AToAaShape(m);
    ShapedCovers(m, "a", "aa");
  }

  lemma AToAaWalk(m: seq<seq<nat>>)
    requires AToAaCells(m)
    ensures Backtrace("a", "aa", DefaultOptions, m, 1, 2) == [Equal, Insert]
  {
    AToAaWalk1x1(m);
    AToAaMove1x2(m);
  }

  /** lib.rs:93-98: the script for "a" and "aa". */
  lemma AToAa()
    ensures ScriptFor("a", "aa", DefaultOptions) == [Equal, Insert]
  {
    AToAaRows();
    ScriptForUnfolds("a", "aa", DefaultOptions);
    AToAaWalk(Table("a", "aa", DefaultOptions));
  }

  const AToAaaMatrix: seq<seq<nat>> := [[0, 1, 2, 3], [1, 0, 1, 2]]

  /** The matrix for "a" and "aaa" follows the recurrence. */
  lemma AToAaaRecurs()
    ensures Recurs(AToAaaMatrix, "a", "aaa", DefaultOptions)
  {
    var m := AToAaaMatrix;
    forall a, b | 1 <= a <= 1 && 1 <= b <= 3 ensures m[a][b] == Candidates(m, "a", "aaa", DefaultOptions, a, b) {
      assert b == 1 || b == 2 || b == 3;
    }
  }

  /** The recurrence's table for "a" and "aaa". */
  lemma AToAaaTable()
    ensures Table("a", "aaa", DefaultOptions) == AToAaaMatrix
  {
    AToAaaRecurs();
    RecursIsTable(AToAaaMatrix, "a", "aaa", DefaultOptions);
  }

  /** `m` is, row by row, the matrix for "a" and "aaa". */
  predicate AToAaaCells(m: seq<seq<nat>>) {
    |m| == 2 && m[0] == [0, 1, 2, 3] && m[1] == [1, 0, 1, 2]
  }

  lemma AToAaaRows()
    ensures AToAaaCells(Table("a", "aaa", DefaultOptions))
  {
    AToAaaTable();
  }

  lemma AToAaaShape(m: seq<seq<nat>>)
    requires AToAaaCells(m)
    ensures Shaped(m, "a", "aaa")
  {
  }

  lemma AToAaaMove0x0(m: seq<seq<nat>>)
    requires AToAaaCells(m)
    ensures Covers(m, 0, 0) && NextMove("a", "aaa", DefaultOptions, m, 0, 0) == None
  {
    AToAaaShape(m);
    ShapedCovers(m, "a", "aaa");
  }

  lemma AToAaaWalk0x0(m: seq<seq<nat>>)
    requires AToAaaCells(m)
    ensures Backtrace("a", "aaa", DefaultOptions, m, 0, 0) == []
  {
    AToAaaMove0x0(m);
  }

  lemma AToAaaMove1x1(m: seq<seq<nat>>)
    requires AToAaaCells(m)
    ensures Covers(m, 1, 1) && NextMove("a", "aaa", DefaultOptions, m, 1, 1) == Some(Equal)
  {
    AToAaaShape(m);
    ShapedCovers(m, "a", "aaa");
  }

  lemma AToAaaWalk1x1(m: seq<seq<nat>>)
    requires AToAaaCells(m)
    ensures Backtrace("a", "aaa", DefaultOptions, m, 1, 1) == [Equal]
  {
    AToAaaWalk0x0(m);
    AToAaaMove1x1(m);
  }

  lemma AToAaaMove1x2(m: seq<seq<nat>>)
    requires AToAaaCells(m)
    ensures Covers(m, 1, 2) && NextMove("a", "aaa", DefaultOptions, m, 1, 2) == Some(Insert)
  {
    AToAaaShape(m);
    ShapedCovers(m, "a", "aaa");
  }

  lemma AToAaaWalk1x2(m: seq<seq<nat>>)
    requires AToAaaCells(m)
    ensures Backtrace("a", "aaa", DefaultOptions, m, 1, 2) == [Equal, Insert]
  {
    AToAaaWalk1x1(m);
    AToAaaMove1x2(m);
  }

  lemma AToAaaMove1x3(m: seq<seq<nat>>)
    requires AToAaaCells(m)
    ensures Covers(m, 1, 3) && NextMove("a", "aaa", DefaultOptions, m, 1, 3) == Some(Insert)
  {
    AToAaaShape(m);
    ShapedCovers(m, "a", "aaa");
  }

  lemma AToAaaWalk(m: seq<seq<nat>>)
    requires AToAaaCells(m)
    ensures Backtrace("a", "aaa", DefaultOptions, m, 1, 3) == [Equal, Insert, Insert]
  {
    AToAaaWalk1x2(m);
    AToAaaMove1x3(m);
  }

  /** lib.rs:99-104: the script for "a" and "aaa". */
  lemma AToAaa()
    ensures ScriptFor("a", "aaa", DefaultOptions) == [Equal, Insert, Insert]
  {
    AToAaaRows();
    ScriptForUnfolds("a", "aaa", DefaultOptions);
    AToAaaWalk(Table("a", "aaa", DefaultOptions));
  }

  const EmptyToEmptyMatrix: seq<seq<nat>> := [[0]]

  /** The matrix for "" and "" follows the recurrence. */
  lemma EmptyToEmptyRecurs()
    ensures Recurs(EmptyToEmptyMatrix, "", "", DefaultOptions)
  {
    var m := EmptyToEmptyMatrix;
  }

  /** The recurrence's table for "" and "". */
  lemma EmptyToEmptyTable()
    ensures Table("", "", DefaultOptions) == EmptyToEmptyMatrix
  {
    EmptyToEmptyRecurs();
    RecursIsTable(EmptyToEmptyMatrix, "", "", DefaultOptions);
  }

  /** `m` is, row by row, the matrix for "" and "". */
  predicate EmptyToEmptyCells(m: seq<seq<nat>>) {
    |m| == 1 && m[0] == [0]
  }

  lemma EmptyToEmptyRows()
    ensures EmptyToEmptyCells(Table("", "", DefaultOptions))
  {
    EmptyToEmptyTable();
  }

  lemma EmptyToEmptyShape(m: seq<seq<nat>>)
    requires EmptyToEmptyCells(m)
    ensures Shaped(m, "", "")
  {
  }

  lemma EmptyToEmptyMove0x0(m: seq<seq<nat>>)
    requires EmptyToEmptyCells(m)
    ensures Covers(m, 0, 0) && NextMove("", "", DefaultOptions, m, 0, 0) == None
  {
    EmptyToEmptyShape(m);
    ShapedCovers(m, "", "");
  }

  lemma EmptyToEmptyWalk(m: seq<seq<nat>>)
    requires EmptyToEmptyCells(m)
    ensures Backtrace("", "", DefaultOptions, m, 0, 0) == []
  {
    EmptyToEmptyMove0x0(m);
  }

  /** lib.rs:105-110: the script for "" and "". */
  lemma EmptyToEmpty()
    ensures ScriptFor("", "", DefaultOptions) == []
  {
    EmptyToEmptyRows();
    ScriptForUnfolds("", "", DefaultOptions);
    EmptyToEmptyWalk(Table("", "", DefaultOptions));
  }

  const AToBMatrix: seq<seq<nat>> := [[0, 1], [1, 1]]

  /** The matrix for "a" and "b" follows the recurrence. */
  lemma AToBRecurs()
    ensures Recurs(AToBMatrix, "a", "b", DefaultOptions)
  {
    var m := AToBMatrix;
    forall a, b | 1 <= a <= 1 && 1 <= b <= 1 ensures m[a][b] == Candidates(m, "a", "b", DefaultOptions, a, b) {
    }
  }

  /** The recurrence's table for "a" and "b". */
  lemma AToBTable()
    ensures Table("a", "b", DefaultOptions) == AToBMatrix
  {
    AToBRecurs();
    RecursIsTable(AToBMatrix, "a", "b", DefaultOptions);
  }

  /** `m` is, row by row, the matrix for "a" and "b". */
  predicate AToBCells(m: seq<seq<nat>>) {
    |m| == 2 && m[0] == [0, 1] && m[1] == [1, 1]
  }

  lemma AToBRows()
    ensures AToBCells(Table("a", "b", DefaultOptions))
  {
    AToBTable();
  }

  lemma AToBShape(m: seq<seq<nat>>)
    requires AToBCells(m)
    ensures Shaped(m, "a", "b")
  {
  }

  lemma AToBMove0x0(m: seq<seq<nat>>)
    requires AToBCells(m)
    ensures Covers(m, 0, 0) && NextMove("a", "b", DefaultOptions, m, 0, 0) == None
  {
    AToBShape(m);
    ShapedCovers(m, "a", "b");
  }

  lemma AToBWalk0x0(m: seq<seq<nat>>)
    requires AToBCells(m)
    ensures Backtrace("a", "b", DefaultOptions, m, 0, 0) == []
  {
    AToBMove0x0(m);
  }

  lemma AToBMove1x1(m: seq<seq<nat>>)
    requires AToBCells(m)
    ensures Covers(m, 1, 1) && NextMove("a", "b", DefaultOptions, m, 1, 1) == Some(Sub)
  {
    AToBShape(m);
    ShapedCovers(m, "a", "b");
  }

  lemma AToBWalk(m: seq<seq<nat>>)
    requires AToBCells(m)
    ensures Backtrace("a", "b", DefaultOptions, m, 1, 1) == [Sub]
  {
    AToBWalk0x0(m);
    AToBMove1x1(m);
  }

  /** lib.rs:111-116: the script for "a" and "b". */
  lemma AToB()
    ensures ScriptFor("a", "b", DefaultOptions) == [Sub]
  {
    AToBRows();
    ScriptForUnfolds("a", "b", DefaultOptions);
    AToBWalk(Table("a", "b", DefaultOptions));
  }

  const AaaToAbaMatrix: seq<seq<nat>> := [[0, 1, 2, 3], [1, 0, 1, 2], [2, 1, 1, 1], [3, 2, 2, 1]]

  /** The matrix for "aaa" and "aba" follows the recurrence. */
  lemma AaaToAbaRecurs()
    ensures Recurs(AaaToAbaMatrix, "aaa", "aba", DefaultOptions)
  {
    var m := AaaToAbaMatrix;
    forall a, b | 1 <= a <= 3 && 1 <= b <= 3 ensures m[a][b] == Candidates(m, "aaa", "aba", DefaultOptions, a, b) {
      assert a == 1 || a == 2 || a == 3;
      assert b == 1 || b == 2 || b == 3;
    }
  }

  /** The recurrence's table for "aaa" and "aba". */
  lemma AaaToAbaTable()
    ensures Table("aaa", "aba", DefaultOptions) == AaaToAbaMatrix
  {
    AaaToAbaRecurs();
    RecursIsTable(AaaToAbaMatrix, "aaa", "aba", DefaultOptions);
  }

  /** `m` is, row by row, the matrix for "aaa" and "aba". */
  predicate AaaToAbaCells(m: seq<seq<nat>>) {
    |m| == 4 && m[0] == [0, 1, 2, 3] && m[1] == [1, 0, 1, 2] && m[2] == [2, 1, 1, 1] && m[3] == [3, 2, 2, 1]
  }

  lemma AaaToAbaRows()
    ensures AaaToAbaCells(Table("aaa", "aba", DefaultOptions))
  {
    AaaToAbaTable();
  }

  lemma AaaToAbaShape(m: seq<seq<nat>>)
    requires AaaToAbaCells(m)
    ensures Shaped(m, "aaa", "aba")
  {
  }

  lemma AaaToAbaMove0x0(m: seq<seq<nat>>)
    requires AaaToAbaCells(m)
    ensures Covers(m, 0, 0) && NextMove("aaa", "aba", DefaultOptions, m, 0, 0) == None
  {
    AaaToAbaShape(m);
    ShapedCovers(m, "aaa", "aba");
  }

  lemma AaaToAbaWalk0x0(m: seq<seq<nat>>)
    requires AaaToAbaCells(m)
    ensures Backtrace("aaa", "aba", DefaultOptions, m, 0, 0) == []
  {
    AaaToAbaMove0x0(m);
  }

  lemma AaaToAbaMove1x1(m: seq<seq<nat>>)
    requires AaaToAbaCells(m)
    ensures Covers(m, 1, 1) && NextMove("aaa", "aba", DefaultOptions, m, 1, 1) == Some(Equal)
  {
    AaaToAbaShape(m);
    ShapedCovers(m, "aaa", "aba");
  }

  lemma AaaToAbaWalk1x1(m: seq<seq<nat>>)
    requires AaaToAbaCells(m)
    ensures Backtrace("aaa", "aba", DefaultOptions, m, 1, 1) == [Equal]
  {
    AaaToAbaWalk0x0(m);
    AaaToAbaMove1x1(m);
  }

  lemma AaaToAbaMove2x2(m: seq<seq<nat>>)
    requires AaaToAbaCells(m)
    ensures Covers(m, 2, 2) && NextMove("aaa", "aba", DefaultOptions, m, 2, 2) == Some(Sub)
  {
    AaaToAbaShape(m);
    ShapedCovers(m, "aaa", "aba");
  }

  lemma AaaToAbaWalk2x2(m: seq<seq<nat>>)
    requires AaaToAbaCells(m)
    ensures Backtrace("aaa", "aba", DefaultOptions, m, 2, 2) == [Equal, Sub]
  {
    AaaToAbaWalk1x1(m);
    AaaToAbaMove2x2(m);
  }

  lemma AaaToAbaMove3x3(m: seq<seq<nat>>)
    requires AaaToAbaCells(m)
    ensures Covers(m, 3, 3) && NextMove("aaa", "aba", DefaultOptions, m, 3, 3) == Some(Equal)
  {
    AaaToAbaShape(m);
    ShapedCovers(m, "aaa", "aba");
  }

  lemma AaaToAbaWalk(m: seq<seq<nat>>)
    requires AaaToAbaCells(m)
    ensures Backtrace("aaa", "aba", DefaultOptions, m, 3, 3) == [Equal, Sub, Equal]
  {
    AaaToAbaWalk2x2(m);
    AaaToAbaMove3x3(m);
  }

  /** lib.rs:117-122: the script for "aaa" and "aba". */
  lemma AaaToAba()
    ensures ScriptFor("aaa", "aba", DefaultOptions) == [Equal, Sub, Equal]
  {
    AaaToAbaRows();
    ScriptForUnfolds("aaa", "aba", DefaultOptions);
    AaaToAbaWalk(Table("aaa", "aba", DefaultOptions));
  }

  const AaaToAbMatrix: seq<seq<nat>> := [[0, 1, 2], [1, 0, 1], [2, 1, 1], [3, 2, 2]]

  /** The matrix for "aaa" and "ab" follows the recurrence. */
  lemma AaaToAbRecurs()
    ensures Recurs(AaaToAbMatrix, "aaa", "ab", DefaultOptions)
  {
    var m := AaaToAbMatrix;
    forall a, b | 1 <= a <= 3 && 1 <= b <= 2 ensures m[a][b] == Candidates(m, "aaa", "ab", DefaultOptions, a, b) {
      assert a == 1 || a == 2 || a == 3;
      assert b == 1 || b == 2;
    }
  }

  /** The recurrence's table for "aaa" and "ab". */
  lemma AaaToAbTable()
    ensures Table("aaa", "ab", DefaultOptions) == AaaToAbMatrix
  {
    AaaToAbRecurs();
    RecursIsTable(AaaToAbMatrix, "aaa", "ab", DefaultOptions);
  }

  /** `m` is, row by row, the matrix for "aaa" and "ab". */
  predicate AaaToAbCells(m: seq<seq<nat>>) {
    |m| == 4 && m[0] == [0, 1, 2] && m[1] == [1, 0, 1] && m[2] == [2, 1, 1] && m[3] == [3, 2, 2]
  }

  lemma AaaToAbRows()
    ensures AaaToAbCells(Table("aaa", "ab", DefaultOptions))
  {
    AaaToAbTable();
  }

  lemma AaaToAbShape(m: seq<seq<nat>>)
    requires AaaToAbCells(m)
    ensures Shaped(m, "aaa", "ab")
  {
  }

  lemma AaaToAbMove0x0(m: seq<seq<nat>>)
    requires AaaToAbCells(m)
    ensures Covers(m, 0, 0) && NextMove("aaa", "ab", DefaultOptions, m, 0, 0) == None
  {
    AaaToAbShape(m);
    ShapedCovers(m, "aaa", "ab");
  }

  lemma AaaToAbWalk0x0(m: seq<seq<nat>>)
    requires AaaToAbCells(m)
    ensures Backtrace("aaa", "ab", DefaultOptions, m, 0, 0) == []
  {
    AaaToAbMove0x0(m);
  }

  lemma AaaToAbMove1x1(m: seq<seq<nat>>)
    requires AaaToAbCells(m)
    ensures Covers(m, 1, 1) && NextMove("aaa", "ab", DefaultOptions, m, 1, 1) == Some(Equal)
  {
    AaaToAbShape(m);
    ShapedCovers(m, "aaa", "ab");
  }

  lemma AaaToAbWalk1x1(m: seq<seq<nat>>)
    requires AaaToAbCells(m)
    ensures Backtrace("aaa", "ab", DefaultOptions, m, 1, 1) == [Equal]
  {
    AaaToAbWalk0x0(m);
    AaaToAbMove1x1(m);
  }

  lemma AaaToAbMove2x2(m: seq<seq<nat>>)
    requires AaaToAbCells(m)
    ensures Covers(m, 2, 2) && NextMove("aaa", "ab", DefaultOptions, m, 2, 2) == Some(Sub)
  {
    AaaToAbShape(m);
    ShapedCovers(m, "aaa", "ab");
  }

  lemma AaaToAbWalk2x2(m: seq<seq<nat>>)
    requires AaaToAbCells(m)
    ensures Backtrace("aaa", "ab", DefaultOptions, m, 2, 2) == [Equal, Sub]
  {
    AaaToAbWalk1x1(m);
    AaaToAbMove2x2(m);
  }

  lemma AaaToAbMove3x2(m: seq<seq<nat>>)
    requires AaaToAbCells(m)
    ensures Covers(m, 3, 2) && NextMove("aaa", "ab", DefaultOptions, m, 3, 2) == Some(Delete)
  {
    AaaToAbShape(m);
    ShapedCovers(m, "aaa", "ab");
  }

  lemma AaaToAbWalk(m: seq<seq<nat>>)
    requires AaaToAbCells(m)
    ensures Backtrace("aaa", "ab", DefaultOptions, m, 3, 2) == [Equal, Sub, Delete]
  {
    AaaToAbWalk2x2(m);
    AaaToAbMove3x2(m);
  }

  /** lib.rs:123-128: the script for "aaa" and "ab". */
  lemma AaaToAb()
    ensures ScriptFor("aaa", "ab", DefaultOptions) == [Equal, Sub, Delete]
  {
    AaaToAbRows();
    ScriptForUnfolds("aaa", "ab", DefaultOptions);
    AaaToAbWalk(Table("aaa", "ab", DefaultOptions));
  }

  const AToAMatrix: seq<seq<nat>> := [[0, 1], [1, 0]]

  /** The matrix for "a" and "a" follows the recurrence. */
  lemma AToARecurs()
    ensures Recurs(AToAMatrix, "a", "a", DefaultOptions)
  {
    var m := AToAMatrix;
    forall a, b | 1 <= a <= 1 && 1 <= b <= 1 ensures m[a][b] == Candidates(m, "a", "a", DefaultOptions, a, b) {
    }
  }

  /** The recurrence's table for "a" and "a". */
  lemma AToATable()
    ensures Table("a", "a", DefaultOptions) == AToAMatrix
  {
    AToARecurs();
    RecursIsTable(AToAMatrix, "a", "a", DefaultOptions);
  }

  /** `m` is, row by row, the matrix for "a" and "a". */
  predicate AToACells(m: seq<seq<nat>>) {
    |m| == 2 && m[0] == [0, 1] && m[1] == [1, 0]
  }

  lemma AToARows()
    ensures AToACells(Table("a", "a", DefaultOptions))
  {
    AToATable();
  }

  lemma AToAShape(m: seq<seq<nat>>)
    requires AToACells(m)
    ensures Shaped(m, "a", "a")
  {
  }

  lemma AToAMove0x0(m: seq<seq<nat>>)
    requires AToACells(m)
    ensures Covers(m, 0, 0) && NextMove("a", "a", DefaultOptions, m, 0, 0) == None
  {
    AToAShape(m);
    ShapedCovers(m, "a", "a");
  }

  lemma AToAWalk0x0(m: seq<seq<nat>>)
    requires AToACells(m)
    ensures Backtrace("a", "a", DefaultOptions, m, 0, 0) == []
  {
    AToAMove0x0(m);
  }

  lemma AToAMove1x1(m: seq<seq<nat>>)
    requires AToACells(m)
    ensures Covers(m, 1, 1) && NextMove("a", "a", DefaultOptions, m, 1, 1) == Some(Equal)
  {
    AToAShape(m);
    ShapedCovers(m, "a", "a");
  }

  lemma AToAWalk(m: seq<seq<nat>>)
    requires AToACells(m)
    ensures Backtrace("a", "a", DefaultOptions, m, 1, 1) == [Equal]
  {
    AToAWalk0x0(m);
    AToAMove1x1(m);
  }

  /** lib.rs:129-134: the script for "a" and "a". */
  lemma AToA()
    ensures ScriptFor("a", "a", DefaultOptions) == [Equal]
  {
    AToARows();
    ScriptForUnfolds("a", "a", DefaultOptions);
    AToAWalk(Table("a", "a", DefaultOptions));
  }

  const AbToAbMatrix: seq<seq<nat>> := [[0, 1, 2], [1, 0, 1], [2, 1, 0]]

  /** The matrix for "ab" and "ab" follows the recurrence. */
  lemma AbToAbRecurs()
    ensures Recurs(AbToAbMatrix, "ab", "ab", DefaultOptions)
  {
    var m := AbToAbMatrix;
    forall a, b | 1 <= a <= 2 && 1 <= b <= 2 ensures m[a][b] == Candidates(m, "ab", "ab", DefaultOptions, a, b) {
      assert a == 1 || a == 2;
      assert b == 1 || b == 2;
    }
  }

  /** The recurrence's table for "ab" and "ab". */
  lemma AbToAbTable()
    ensures Table("ab", "ab", DefaultOptions) == AbToAbMatrix
  {
    AbToAbRecurs();
    RecursIsTable(AbToAbMatrix, "ab", "ab", DefaultOptions);
  }

  /** `m` is, row by row, the matrix for "ab" and "ab". */
  predicate AbToAbCells(m: seq<seq<nat>>) {
    |m| == 3 && m[0] == [0, 1, 2] && m[1] == [1, 0, 1] && m[2] == [2, 1, 0]
  }

  lemma AbToAbRows()
    ensures AbToAbCells(Table("ab", "ab", DefaultOptions))
  {
    AbToAbTable();
  }

  lemma AbToAbShape(m: seq<seq<nat>>)
    requires AbToAbCells(m)
    ensures Shaped(m, "ab", "ab")
  {
  }

  lemma AbToAbMove0x0(m: seq<seq<nat>>)
    requires AbToAbCells(m)
    ensures Covers(m, 0, 0) && NextMove("ab", "ab", DefaultOptions, m, 0, 0) == None
  {
    AbToAbShape(m);
    ShapedCovers(m, "ab", "ab");
  }

  lemma AbToAbWalk0x0(m: seq<seq<nat>>)
    requires AbToAbCells(m)
    ensures Backtrace("ab", "ab", DefaultOptions, m, 0, 0) == []
  {
    AbToAbMove0x0(m);
  }

  lemma AbToAbMove1x1(m: seq<seq<nat>>)
    requires AbToAbCells(m)
    ensures Covers(m, 1, 1) && NextMove("ab", "ab", DefaultOptions, m, 1, 1) == Some(Equal)
  {
    AbToAbShape(m);
    ShapedCovers(m, "ab", "ab");
  }

  lemma AbToAbWalk1x1(m: seq<seq<nat>>)
    requires AbToAbCells(m)
    ensures Backtrace("ab", "ab", DefaultOptions, m, 1, 1) == [Equal]
  {
    AbToAbWalk0x0(m);
    AbToAbMove1x1(m);
  }

  lemma AbToAbMove2x2(m: seq<seq<nat>>)
    requires AbToAbCells(m)
    ensures Covers(m, 2, 2) && NextMove("ab", "ab", DefaultOptions, m, 2, 2) == Some(Equal)
  {
    AbToAbShape(m);
    ShapedCovers(m, "ab", "ab");
  }

  lemma AbToAbWalk(m: seq<seq<nat>>)
    requires AbToAbCells(m)
    ensures Backtrace("ab", "ab", DefaultOptions, m, 2, 2) == [Equal, Equal]
  {
    AbToAbWalk1x1(m);
    AbToAbMove2x2(m);
  }

  /** lib.rs:135-140: the script for "ab" and "ab". */
  lemma AbToAb()
    ensures ScriptFor("ab", "ab", DefaultOptions) == [Equal, Equal]
  {
    AbToAbRows();
    ScriptForUnfolds("ab", "ab", DefaultOptions);
    AbToAbWalk(Table("ab", "ab", DefaultOptions));
  }

  const AToEmptyMatrix: seq<seq<nat>> := [[0], [1]]

  /** The matrix for "a" and "" follows the recurrence. */
  lemma AToEmptyRecurs()
    ensures Recurs(AToEmptyMatrix, "a", "", DefaultOptions)
  {
    var m := AToEmptyMatrix;
  }

  /** The recurrence's table for "a" and "". */
  lemma AToEmptyTable()
    ensures Table("a", "", DefaultOptions) == AToEmptyMatrix
  {
    AToEmptyRecurs();
    RecursIsTable(AToEmptyMatrix, "a", "", DefaultOptions);
  }

  /** `m` is, row by row, the matrix for "a" and "". */
  predicate AToEmptyCells(m: seq<seq<nat>>) {
    |m| == 2 && m[0] == [0] && m[1] == [1]
  }

  lemma AToEmptyRows()
    ensures AToEmptyCells(Table("a", "", DefaultOptions))
  {
    AToEmptyTable();
  }

  lemma AToEmptyShape(m: seq<seq<nat>>)
    requires AToEmptyCells(m)
    ensures Shaped(m, "a", "")
  {
  }

  lemma AToEmptyMove0x0(m: seq<seq<nat>>)
    requires AToEmptyCells(m)
    ensures Covers(m, 0, 0) && NextMove("a", "", DefaultOptions, m, 0, 0) == None
  {
    AToEmptyShape(m);
    ShapedCovers(m, "a", "");
  }

  lemma AToEmptyWalk0x0(m: seq<seq<nat>>)
    requires AToEmptyCells(m)
    ensures Backtrace("a", "", DefaultOptions, m, 0, 0) == []
  {
    AToEmptyMove0x0(m);
  }

  lemma AToEmptyMove1x0(m: seq<seq<nat>>)
    requires AToEmptyCells(m)
    ensures Covers(m, 1, 0) && NextMove("a", "", DefaultOptions, m, 1, 0) == Some(Delete)
  {
    AToEmptyShape(m);
    ShapedCovers(m, "a", "");
  }

  lemma AToEmptyWalk(m: seq<seq<nat>>)
    requires AToEmptyCells(m)
    ensures Backtrace("a", "", DefaultOptions, m, 1, 0) == [Delete]
  {
    AToEmptyWalk0x0(m);
    AToEmptyMove1x0(m);
  }

  /** lib.rs:141-146: the script for "a" and "". */
  lemma AToEmpty()
    ensures ScriptFor("a", "", DefaultOptions) == [Delete]
  {
    AToEmptyRows();
    ScriptForUnfolds("a", "", DefaultOptions);
    AToEmptyWalk(Table("a", "", DefaultOptions));
  }

  const AaToAMatrix: seq<seq<nat>> := [[0, 1], [1, 0], [2, 1]]

  /** The matrix for "aa" and "a" follows the recurrence. */
  lemma AaToARecurs()
    ensures Recurs(AaToAMatrix, "aa", "a", DefaultOptions)
  {
    var m := AaToAMatrix;
    forall a, b | 1 <= a <= 2 && 1 <= b <= 1 ensures m[a][b] == Candidates(m, "aa", "a", DefaultOptions, a, b) {
      assert a == 1 || a == 2;
    }
  }

  /** The recurrence's table for "aa" and "a". */
  lemma AaToATable()
    ensures Table("aa", "a", DefaultOptions) == AaToAMatrix
  {
    AaToARecurs();
    RecursIsTable(AaToAMatrix, "aa", "a", DefaultOptions);
  }

  /** `m` is, row by row, the matrix for "aa" and "a". */
  predicate AaToACells(m: seq<seq<nat>>) {
    |m| == 3 && m[0] == [0, 1] && m[1] == [1, 0] && m[2] == [2, 1]
  }

  lemma AaToARows()
    ensures AaToACells(Table("aa", "a", DefaultOptions))
  {
    AaToATable();
  }

  lemma AaToAShape(m: seq<seq<nat>>)
    requires AaToACells(m)
    ensures Shaped(m, "aa", "a")
  {
  }

  lemma AaToAMove0x0(m: seq<seq<nat>>)
    requires AaToACells(m)
    ensures Covers(m, 0, 0) && NextMove("aa", "a", DefaultOptions, m, 0, 0) == None
  {
    AaToAShape(m);
    ShapedCovers(m, "aa", "a");
  }

  lemma AaToAWalk0x0(m: seq<seq<nat>>)
    requires AaToACells(m)
    ensures Backtrace("aa", "a", DefaultOptions, m, 0, 0) == []
  {
    AaToAMove0x0(m);
  }

  lemma AaToAMove1x1(m: seq<seq<nat>>)
    requires AaToACells(m)
    ensures Covers(m, 1, 1) && NextMove("aa", "a", DefaultOptions, m, 1, 1) == Some(Equal)
  {
    AaToAShape(m);
    ShapedCovers(m, "aa", "a");
  }

  lemma AaToAWalk1x1(m: seq<seq<nat>>)
    requires AaToACells(m)
    ensures Backtrace("aa", "a", DefaultOptions, m, 1, 1) == [Equal]
  {
    AaToAWalk0x0(m);
    AaToAMove1x1(m);
  }

  lemma AaToAMove2x1(m: seq<seq<nat>>)
    requires AaToACells(m)
    ensures Covers(m, 2, 1) && NextMove("aa", "a", DefaultOptions, m, 2, 1) == Some(Delete)
  {
    AaToAShape(m);
    ShapedCovers(m, "aa", "a");
  }

  lemma AaToAWalk(m: seq<seq<nat>>)
    requires AaToACells(m)
    ensures Backtrace("aa", "a", DefaultOptions, m, 2, 1) == [Equal, Delete]
  {
    AaToAWalk1x1(m);
    AaToAMove2x1(m);
  }

  /** lib.rs:147-152: the script for "aa" and "a". */
  lemma AaToA()
    ensures ScriptFor("aa", "a", DefaultOptions) == [Equal, Delete]
  {
    AaToARows();
    ScriptForUnfolds("aa", "a", DefaultOptions);
    AaToAWalk(Table("aa", "a", DefaultOptions));
  }

  const AaaToAMatrix: seq<seq<nat>> := [[0, 1], [1, 0], [2, 1], [3, 2]]

  /** The matrix for "aaa" and "a" follows the recurrence. */
  lemma AaaToARecurs()
    ensures Recurs(AaaToAMatrix, "aaa", "a", DefaultOptions)
  {
    var m := AaaToAMatrix;
    forall a, b | 1 <= a <= 3 && 1 <= b <= 1 ensures m[a][b] == Candidates(m, "aaa", "a", DefaultOptions, a, b) {
      assert a == 1 || a == 2 || a == 3;
    }
  }

  /** The recurrence's table for "aaa" and "a". */
  lemma AaaToATable()
    ensures Table("aaa", "a", DefaultOptions) == AaaToAMatrix
  {
    AaaToARecurs();
    RecursIsTable(AaaToAMatrix, "aaa", "a", DefaultOptions);
  }

  /** `m` is, row by row, the matrix for "aaa" and "a". */
  predicate AaaToACells(m: seq<seq<nat>>) {
    |m| == 4 && m[0] == [0, 1] && m[1] == [1, 0] && m[2] == [2, 1] && m[3] == [3, 2]
  }

  lemma AaaToARows()
    ensures AaaToACells(Table("aaa", "a", DefaultOptions))
  {
    AaaToATable();
  }

  lemma AaaToAShape(m: seq<seq<nat>>)
    requires AaaToACells(m)
    ensures Shaped(m, "aaa", "a")
  {
  }

  lemma AaaToAMove0x0(m: seq<seq<nat>>)
    requires AaaToACells(m)
    ensures Covers(m, 0, 0) && NextMove("aaa", "a", DefaultOptions, m, 0, 0) == None
  {
    AaaToAShape(m);
    ShapedCovers(m, "aaa", "a");
  }

  lemma AaaToAWalk0x0(m: seq<seq<nat>>)
    requires AaaToACells(m)
    ensures Backtrace("aaa", "a", DefaultOptions, m, 0, 0) == []
  {
    AaaToAMove0x0(m);
  }

  lemma AaaToAMove1x1(m: seq<seq<nat>>)
    requires AaaToACells(m)
    ensures Covers(m, 1, 1) && NextMove("aaa", "a", DefaultOptions, m, 1, 1) == Some(Equal)
  {
    AaaToAShape(m);
    ShapedCovers(m, "aaa", "a");
  }

  lemma AaaToAWalk1x1(m: seq<seq<nat>>)
    requires AaaToACells(m)
    ensures Backtrace("aaa", "a", DefaultOptions, m, 1, 1) == [Equal]
  {
    AaaToAWalk0x0(m);
    AaaToAMove1x1(m);
  }

  lemma AaaToAMove2x1(m: seq<seq<nat>>)
    requires AaaToACells(m)
    ensures Covers(m, 2, 1) && NextMove("aaa", "a", DefaultOptions, m, 2, 1) == Some(Delete)
  {
    AaaToAShape(m);
    ShapedCovers(m, "aaa", "a");
  }

  lemma AaaToAWalk2x1(m: seq<seq<nat>>)
    requires AaaToACells(m)
    ensures Backtrace("aaa", "a", DefaultOptions, m, 2, 1) == [Equal, Delete]
  {
    AaaToAWalk1x1(m);
    AaaToAMove2x1(m);
  }

  lemma AaaToAMove3x1(m: seq<seq<nat>>)
    requires AaaToACells(m)
    ensures Covers(m, 3, 1) && NextMove("aaa", "a", DefaultOptions, m, 3, 1) == Some(Delete)
  {
    AaaToAShape(m);
    ShapedCovers(m, "aaa", "a");
  }

  lemma AaaToAWalk(m: seq<seq<nat>>)
    requires AaaToACells(m)
    ensures Backtrace("aaa", "a", DefaultOptions, m, 3, 1) == [Equal, Delete, Delete]
  {
    AaaToAWalk2x1(m);
    AaaToAMove3x1(m);
  }

  /** lib.rs:153-158: the script for "aaa" and "a". */
  lemma AaaToA()
    ensures ScriptFor("aaa", "a", DefaultOptions) == [Equal, Delete, Delete]
  {
    AaaToARows();
    ScriptForUnfolds("aaa", "a", DefaultOptions);
    AaaToAWalk(Table("aaa", "a", DefaultOptions));
  }

  const KittenToSittingMatrix: seq<seq<nat>> := [[0, 1, 2, 3, 4, 5, 6, 7], [1, 1, 2, 3, 4, 5, 6, 7], [2, 2, 1, 2, 3, 4, 5, 6], [3, 3, 2, 1, 2, 3, 4, 5], [4, 4, 3, 2, 1, 2, 3, 4], [5, 5, 4, 3, 2, 2, 3, 4], [6, 6, 5, 4, 3, 3, 2, 3]]

  lemma KittenToSittingRow1()
    ensures forall b :: 1 <= b <= 7 ==> KittenToSittingMatrix[1][b] == Candidates(KittenToSittingMatrix, "kitten", "sitting", DefaultOptions, 1, b)
  {
    forall b | 1 <= b <= 7 ensures KittenToSittingMatrix[1][b] == Candidates(KittenToSittingMatrix, "kitten", "sitting", DefaultOptions, 1, b) {
      assert b == 1 || b == 2 || b == 3 || b == 4 || b == 5 || b == 6 || b == 7;
    }
  }

  lemma KittenToSittingRow2()
    ensures forall b :: 1 <= b <= 7 ==> KittenToSittingMatrix[2][b] == Candidates(KittenToSittingMatrix, "kitten", "sitting", DefaultOptions, 2, b)
  {
    forall b | 1 <= b <= 7 ensures KittenToSittingMatrix[2][b] == Candidates(KittenToSittingMatrix, "kitten", "sitting", DefaultOptions, 2, b) {
      assert b == 1 || b == 2 || b == 3 || b == 4 || b == 5 || b == 6 || b == 7;
    }
  }

  lemma KittenToSittingRow3()
    ensures forall b :: 1 <= b <= 7 ==> KittenToSittingMatrix[3][b] == Candidates(KittenToSittingMatrix, "kitten", "sitting", DefaultOptions, 3, b)
  {
    forall b | 1 <= b <= 7 ensures KittenToSittingMatrix[3][b] == Candidates(KittenToSittingMatrix, "kitten", "sitting", DefaultOptions, 3, b) {
      assert b == 1 || b == 2 || b == 3 || b == 4 || b == 5 || b == 6 || b == 7;
    }
  }

  lemma KittenToSittingRow4()
    ensures forall b :: 1 <= b <= 7 ==> KittenToSittingMatrix[4][b] == Candidates(KittenToSittingMatrix, "kitten", "sitting", DefaultOptions, 4, b)
  {
    forall b | 1 <= b <= 7 ensures KittenToSittingMatrix[4][b] == Candidates(KittenToSittingMatrix, "kitten", "sitting", DefaultOptions, 4, b) {
      assert b == 1 || b == 2 || b == 3 || b == 4 || b == 5 || b == 6 || b == 7;
    }
  }

  lemma KittenToSittingRow5()
    ensures forall b :: 1 <= b <= 7 ==> KittenToSittingMatrix[5][b] == Candidates(KittenToSittingMatrix, "kitten", "sitting", DefaultOptions, 5, b)
  {
    forall b | 1 <= b <= 7 ensures KittenToSittingMatrix[5][b] == Candidates(KittenToSittingMatrix, "kitten", "sitting", DefaultOptions, 5, b) {
      assert b == 1 || b == 2 || b == 3 || b == 4 || b == 5 || b == 6 || b == 7;
    }
  }

  lemma KittenToSittingRow6()
    ensures forall b :: 1 <= b <= 7 ==> KittenToSittingMatrix[6][b] == Candidates(KittenToSittingMatrix, "kitten", "sitting", DefaultOptions, 6, b)
  {
    forall b | 1 <= b <= 7 ensures KittenToSittingMatrix[6][b] == Candidates(KittenToSittingMatrix, "kitten", "sitting", DefaultOptions, 6, b) {
      assert b == 1 || b == 2 || b == 3 || b == 4 || b == 5 || b == 6 || b == 7;
    }
  }

  lemma KittenToSittingBorders()
    ensures Shaped(KittenToSittingMatrix, "kitten", "sitting")
    ensures forall a :: 0 <= a <= 6 ==> KittenToSittingMatrix[a][0] == a * DefaultOptions.delCost
    ensures forall b :: 0 <= b <= 7 ==> KittenToSittingMatrix[0][b] == b * DefaultOptions.insCost
  {
    forall a | 0 <= a <= 6 ensures |KittenToSittingMatrix[a]| == 8 && KittenToSittingMatrix[a][0] == a * DefaultOptions.delCost {
      assert a == 0 || a == 1 || a == 2 || a == 3 || a == 4 || a == 5 || a == 6;
    }
    forall b | 0 <= b <= 7 ensures KittenToSittingMatrix[0][b] == b * DefaultOptions.insCost {
      assert b == 0 || b == 1 || b == 2 || b == 3 || b == 4 || b == 5 || b == 6 || b == 7;
    }
  }

  /** The matrix for "kitten" and "sitting" follows the recurrence. */
  lemma KittenToSittingRecurs()
    ensures Recurs(KittenToSittingMatrix, "kitten", "sitting", DefaultOptions)
  {
    var m := KittenToSittingMatrix;
    KittenToSittingBorders();
    KittenToSittingRow1();
    KittenToSittingRow2();
    KittenToSittingRow3();
    KittenToSittingRow4();
    KittenToSittingRow5();
    KittenToSittingRow6();
    forall a, b | 1 <= a <= 6 && 1 <= b <= 7 ensures m[a][b] == Candidates(m, "kitten", "sitting", DefaultOptions, a, b) {
      assert a == 1 || a == 2 || a == 3 || a == 4 || a == 5 || a == 6;
    }
  }

  /** The recurrence's table for "kitten" and "sitting". */
  lemma KittenToSittingTable()
    ensures Table("kitten", "sitting", DefaultOptions) == KittenToSittingMatrix
  {
    KittenToSittingRecurs();
    RecursIsTable(KittenToSittingMatrix, "kitten", "sitting", DefaultOptions);
  }

  /** `m` is, row by row, the matrix for "kitten" and "sitting". */
  predicate KittenToSittingCells(m: seq<seq<nat>>) {
    |m| == 7 && m[0] == [0, 1, 2, 3, 4, 5, 6, 7] && m[1] == [1, 1, 2, 3, 4, 5, 6, 7] && m[2] == [2, 2, 1, 2, 3, 4, 5, 6] && m[3] == [3, 3, 2, 1, 2, 3, 4, 5] && m[4] == [4, 4, 3, 2, 1, 2, 3, 4] && m[5] == [5, 5, 4, 3, 2, 2, 3, 4] && m[6] == [6, 6, 5, 4, 3, 3, 2, 3]
  }

  lemma KittenToSittingRows()
    ensures KittenToSittingCells(Table("kitten", "sitting", DefaultOptions))
  {
    KittenToSittingTable();
  }

  lemma KittenToSittingShape(m: seq<seq<nat>>)
    requires KittenToSittingCells(m)
    ensures Shaped(m, "kitten", "sitting")
  {
  }

  lemma KittenToSittingMove0x0(m: seq<seq<nat>>)
    requires KittenToSittingCells(m)
    ensures Covers(m, 0, 0) && NextMove("kitten", "sitting", DefaultOptions, m, 0, 0) == None
  {
    KittenToSittingShape(m);
    ShapedCovers(m, "kitten", "sitting");
  }

  lemma KittenToSittingWalk0x0(m: seq<seq<nat>>)
    requires KittenToSittingCells(m)
    ensures Backtrace("kitten", "sitting", DefaultOptions, m, 0, 0) == []
  {
    KittenToSittingMove0x0(m);
  }

  lemma KittenToSittingMove1x1(m: seq<seq<nat>>)
    requires KittenToSittingCells(m)
    ensures Covers(m, 1, 1) && NextMove("kitten", "sitting", DefaultOptions, m, 1, 1) == Some(Sub)
  {
    KittenToSittingShape(m);
    ShapedCovers(m, "kitten", "sitting");
  }

  lemma KittenToSittingWalk1x1(m: seq<seq<nat>>)
    requires KittenToSittingCells(m)
    ensures Backtrace("kitten", "sitting", DefaultOptions, m, 1, 1) == [Sub]
  {
    KittenToSittingWalk0x0(m);
    KittenToSittingMove1x1(m);
  }

  lemma KittenToSittingMove2x2(m: seq<seq<nat>>)
    requires KittenToSittingCells(m)
    ensures Covers(m, 2, 2) && NextMove("kitten", "sitting", DefaultOptions, m, 2, 2) == Some(Equal)
  {
    KittenToSittingShape(m);
    ShapedCovers(m, "kitten", "sitting");
  }

  lemma KittenToSittingWalk2x2(m: seq<seq<nat>>)
    requires KittenToSittingCells(m)
    ensures Backtrace("kitten", "sitting", DefaultOptions, m, 2, 2) == [Sub, Equal]
  {
    KittenToSittingWalk1x1(m);
    KittenToSittingMove2x2(m);
  }

  lemma KittenToSittingMove3x3(m: seq<seq<nat>>)
    requires KittenToSittingCells(m)
    ensures Covers(m, 3, 3) && NextMove("kitten", "sitting", DefaultOptions, m, 3, 3) == Some(Equal)
  {
    KittenToSittingShape(m);
    ShapedCovers(m, "kitten", "sitting");
  }

  lemma KittenToSittingWalk3x3(m: seq<seq<nat>>)
    requires KittenToSittingCells(m)
    ensures Backtrace("kitten", "sitting", DefaultOptions, m, 3, 3) == [Sub, Equal, Equal]
  {
    KittenToSittingWalk2x2(m);
    KittenToSittingMove3x3(m);
  }

  lemma KittenToSittingMove4x4(m: seq<seq<nat>>)
    requires KittenToSittingCells(m)
    ensures Covers(m, 4, 4) && NextMove("kitten", "sitting", DefaultOptions, m, 4, 4) == Some(Equal)
  {
    KittenToSittingShape(m);
    ShapedCovers(m, "kitten", "sitting");
  }

  lemma KittenToSittingWalk4x4(m: seq<seq<nat>>)
    requires KittenToSittingCells(m)
    ensures Backtrace("kitten", "sitting", DefaultOptions, m, 4, 4) == [Sub, Equal, Equal, Equal]
  {
    KittenToSittingWalk3x3(m);
    KittenToSittingMove4x4(m);
  }

  lemma KittenToSittingMove5x5(m: seq<seq<nat>>)
    requires KittenToSittingCells(m)
    ensures Covers(m, 5, 5) && NextMove("kitten", "sitting", DefaultOptions, m, 5, 5) == Some(Sub)
  {
    KittenToSittingShape(m);
    ShapedCovers(m, "kitten", "sitting");
  }

  lemma KittenToSittingWalk5x5(m: seq<seq<nat>>)
    requires KittenToSittingCells(m)
    ensures Backtrace("kitten", "sitting", DefaultOptions, m, 5, 5) == [Sub, Equal, Equal, Equal, Sub]
  {
    KittenToSittingWalk4x4(m);
    KittenToSittingMove5x5(m);
  }

  lemma KittenToSittingMove6x6(m: seq<seq<nat>>)
    requires KittenToSittingCells(m)
    ensures Covers(m, 6, 6) && NextMove("kitten", "sitting", DefaultOptions, m, 6, 6) == Some(Equal)
  {
    KittenToSittingShape(m);
    ShapedCovers(m, "kitten", "sitting");
  }

  lemma KittenToSittingWalk6x6(m: seq<seq<nat>>)
    requires KittenToSittingCells(m)
    ensures Backtrace("kitten", "sitting", DefaultOptions, m, 6, 6) == [Sub, Equal, Equal, Equal, Sub, Equal]
  {
    KittenToSittingWalk5x5(m);
    KittenToSittingMove6x6(m);
  }

  lemma KittenToSittingMove6x7(m: seq<seq<nat>>)
    requires KittenToSittingCells(m)
    ensures Covers(m, 6, 7) && NextMove("kitten", "sitting", DefaultOptions, m, 6, 7) == Some(Insert)
  {
    KittenToSittingShape(m);
    ShapedCovers(m, "kitten", "sitting");
  }

  lemma KittenToSittingWalk(m: seq<seq<nat>>)
    requires KittenToSittingCells(m)
    ensures Backtrace("kitten", "sitting", DefaultOptions, m, 6, 7) == [Sub, Equal, Equal, Equal, Sub, Equal, Insert]
  {
    KittenToSittingWalk6x6(m);
    KittenToSittingMove6x7(m);
  }

  /** lib.rs:159-165: the script for "kitten" and "sitting". */
  lemma KittenToSitting()
    ensures ScriptFor("kitten", "sitting", DefaultOptions) == [Sub, Equal, Equal, Equal, Sub, Equal, Insert]
  {
    KittenToSittingRows();
    ScriptForUnfolds("kitten", "sitting", DefaultOptions);
    KittenToSittingWalk(Table("kitten", "sitting", DefaultOptions));
  }

  const OrangeToAppleMatrix: seq<seq<nat>> := [[0, 1, 2, 3, 4, 5], [1, 1, 2, 3, 4, 5], [2, 2, 2, 3, 4, 5], [3, 3, 3, 3, 4, 5], [4, 4, 4, 4, 4, 5], [5, 5, 5, 5, 5, 5], [6, 6, 6, 6, 6, 5]]

  lemma OrangeToAppleRow1()
    ensures forall b :: 1 <= b <= 5 ==> OrangeToAppleMatrix[1][b] == Candidates(OrangeToAppleMatrix, "Orange", "Apple", DefaultOptions, 1, b)
  {
    forall b | 1 <= b <= 5 ensures OrangeToAppleMatrix[1][b] == Candidates(OrangeToAppleMatrix, "Orange", "Apple", DefaultOptions, 1, b) {
      assert b == 1 || b == 2 || b == 3 || b == 4 || b == 5;
    }
  }

  lemma OrangeToAppleRow2()
    ensures forall b :: 1 <= b <= 5 ==> OrangeToAppleMatrix[2][b] == Candidates(OrangeToAppleMatrix, "Orange", "Apple", DefaultOptions, 2, b)
  {
    forall b | 1 <= b <= 5 ensures OrangeToAppleMatrix[2][b] == Candidates(OrangeToAppleMatrix, "Orange", "Apple", DefaultOptions, 2, b) {
      assert b == 1 || b == 2 || b == 3 || b == 4 || b == 5;
    }
  }

  lemma OrangeToAppleRow3()
    ensures forall b :: 1 <= b <= 5 ==> OrangeToAppleMatrix[3][b] == Candidates(OrangeToAppleMatrix, "Orange", "Apple", DefaultOptions, 3, b)
  {
    forall b | 1 <= b <= 5 ensures OrangeToAppleMatrix[3][b] == Candidates(OrangeToAppleMatrix, "Orange", "Apple", DefaultOptions, 3, b) {
      assert b == 1 || b == 2 || b == 3 || b == 4 || b == 5;
    }
  }

  lemma OrangeToAppleRow4()
    ensures forall b :: 1 <= b <= 5 ==> OrangeToAppleMatrix[4][b] == Candidates(OrangeToAppleMatrix, "Orange", "Apple", DefaultOptions, 4, b)
  {
    forall b | 1 <= b <= 5 ensures OrangeToAppleMatrix[4][b] == Candidates(OrangeToAppleMatrix, "Orange", "Apple", DefaultOptions, 4, b) {
      assert b == 1 || b == 2 || b == 3 || b == 4 || b == 5;
    }
  }

  lemma OrangeToAppleRow5()
    ensures forall b :: 1 <= b <= 5 ==> OrangeToAppleMatrix[5][b] == Candidates(OrangeToAppleMatrix, "Orange", "Apple", DefaultOptions, 5, b)
  {
    forall b | 1 <= b <= 5 ensures OrangeToAppleMatrix[5][b] == Candidates(OrangeToAppleMatrix, "Orange", "Apple", DefaultOptions, 5, b) {
      assert b == 1 || b == 2 || b == 3 || b == 4 || b == 5;
    }
  }

  lemma OrangeToAppleRow6()
    ensures forall b :: 1 <= b <= 5 ==> OrangeToAppleMatrix[6][b] == Candidates(OrangeToAppleMatrix, "Orange", "Apple", DefaultOptions, 6, b)
  {
    forall b | 1 <= b <= 5 ensures OrangeToAppleMatrix[6][b] == Candidates(OrangeToAppleMatrix, "Orange", "Apple", DefaultOptions, 6, b) {
      assert b == 1 || b == 2 || b == 3 || b == 4 || b == 5;
    }
  }

  lemma OrangeToAppleBorders()
    ensures Shaped(OrangeToAppleMatrix, "Orange", "Apple")
    ensures forall a :: 0 <= a <= 6 ==> OrangeToAppleMatrix[a][0] == a * DefaultOptions.delCost
    ensures forall b :: 0 <= b <= 5 ==> OrangeToAppleMatrix[0][b] == b * DefaultOptions.insCost
  {
    forall a | 0 <= a <= 6 ensures |OrangeToAppleMatrix[a]| == 6 && OrangeToAppleMatrix[a][0] == a * DefaultOptions.delCost {
      assert a == 0 || a == 1 || a == 2 || a == 3 || a == 4 || a == 5 || a == 6;
    }
    forall b | 0 <= b <= 5 ensures OrangeToAppleMatrix[0][b] == b * DefaultOptions.insCost {
      assert b == 0 || b == 1 || b == 2 || b == 3 || b == 4 || b == 5;
    }
  }

  /** The matrix for "Orange" and "Apple" follows the recurrence. */
  lemma OrangeToAppleRecurs()
    ensures Recurs(OrangeToAppleMatrix, "Orange", "Apple", DefaultOptions)
  {
    var m := OrangeToAppleMatrix;
    OrangeToAppleBorders();
    OrangeToAppleRow1();
    OrangeToAppleRow2();
    OrangeToAppleRow3();
    OrangeToAppleRow4();
    OrangeToAppleRow5();
    OrangeToAppleRow6();
    forall a, b | 1 <= a <= 6 && 1 <= b <= 5 ensures m[a][b] == Candidates(m, "Orange", "Apple", DefaultOptions, a, b) {
      assert a == 1 || a == 2 || a == 3 || a == 4 || a == 5 || a == 6;
    }
  }

  /** The recurrence's table for "Orange" and "Apple". */
  lemma OrangeToAppleTable()
    ensures Table("Orange", "Apple", DefaultOptions) == OrangeToAppleMatrix
  {
    OrangeToAppleRecurs();
    RecursIsTable(OrangeToAppleMatrix, "Orange", "Apple", DefaultOptions);
  }

  /** `m` is, row by row, the matrix for "Orange" and "Apple". */
  predicate OrangeToAppleCells(m: seq<seq<nat>>) {
    |m| == 7 && m[0] == [0, 1, 2, 3, 4, 5] && m[1] == [1, 1, 2, 3, 4, 5] && m[2] == [2, 2, 2, 3, 4, 5] && m[3] == [3, 3, 3, 3, 4, 5] && m[4] == [4, 4, 4, 4, 4, 5] && m[5] == [5, 5, 5, 5, 5, 5] && m[6] == [6, 6, 6, 6, 6, 5]
  }

  lemma OrangeToAppleRows()
    ensures OrangeToAppleCells(Table("Orange", "Apple", DefaultOptions))
  {
    OrangeToAppleTable();
  }

  lemma OrangeToAppleShape(m: seq<seq<nat>>)
    requires OrangeToAppleCells(m)
    ensures Shaped(m, "Orange", "Apple")
  {
  }

  lemma OrangeToAppleMove0x0(m: seq<seq<nat>>)
    requires OrangeToAppleCells(m)
    ensures Covers(m, 0, 0) && NextMove("Orange", "Apple", DefaultOptions, m, 0, 0) == None
  {
    OrangeToAppleShape(m);
    ShapedCovers(m, "Orange", "Apple");
  }

  lemma OrangeToAppleWalk0x0(m: seq<seq<nat>>)
    requires OrangeToAppleCells(m)
    ensures Backtrace("Orange", "Apple", DefaultOptions, m, 0, 0) == []
  {
    OrangeToAppleMove0x0(m);
  }

  lemma OrangeToAppleMove1x1(m: seq<seq<nat>>)
    requires OrangeToAppleCells(m)
    ensures Covers(m, 1, 1) && NextMove("Orange", "Apple", DefaultOptions, m, 1, 1) == Some(Sub)
  {
    OrangeToAppleShape(m);
    ShapedCovers(m, "Orange", "Apple");
  }

  lemma OrangeToAppleWalk1x1(m: seq<seq<nat>>)
    requires OrangeToAppleCells(m)
    ensures Backtrace("Orange", "Apple", DefaultOptions, m, 1, 1) == [Sub]
  {
    OrangeToAppleWalk0x0(m);
    OrangeToAppleMove1x1(m);
  }

  lemma OrangeToAppleMove2x2(m: seq<seq<nat>>)
    requires OrangeToAppleCells(m)
    ensures Covers(m, 2, 2) && NextMove("Orange", "Apple", DefaultOptions, m, 2, 2) == Some(Sub)
  {
    OrangeToAppleShape(m);
    ShapedCovers(m, "Orange", "Apple");
  }

  lemma OrangeToAppleWalk2x2(m: seq<seq<nat>>)
    requires OrangeToAppleCells(m)
    ensures Backtrace("Orange", "Apple", DefaultOptions, m, 2, 2) == [Sub, Sub]
  {
    OrangeToAppleWalk1x1(m);
    OrangeToAppleMove2x2(m);
  }

  lemma OrangeToAppleMove3x3(m: seq<seq<nat>>)
    requires OrangeToAppleCells(m)
    ensures Covers(m, 3, 3) && NextMove("Orange", "Apple", DefaultOptions, m, 3, 3) == Some(Sub)
  {
    OrangeToAppleShape(m);
    ShapedCovers(m, "Orange", "Apple");
  }

  lemma OrangeToAppleWalk3x3(m: seq<seq<nat>>)
    requires OrangeToAppleCells(m)
    ensures Backtrace("Orange", "Apple", DefaultOptions, m, 3, 3) == [Sub, Sub, Sub]
  {
    OrangeToAppleWalk2x2(m);
    OrangeToAppleMove3x3(m);
  }

  lemma OrangeToAppleMove4x4(m: seq<seq<nat>>)
    requires OrangeToAppleCells(m)
    ensures Covers(m, 4, 4) && NextMove("Orange", "Apple", DefaultOptions, m, 4, 4) == Some(Sub)
  {
    OrangeToAppleShape(m);
    ShapedCovers(m, "Orange", "Apple");
  }

  lemma OrangeToAppleWalk4x4(m: seq<seq<nat>>)
    requires OrangeToAppleCells(m)
    ensures Backtrace("Orange", "Apple", DefaultOptions, m, 4, 4) == [Sub, Sub, Sub, Sub]
  {
    OrangeToAppleWalk3x3(m);
    OrangeToAppleMove4x4(m);
  }

  lemma OrangeToAppleMove5x4(m: seq<seq<nat>>)
    requires OrangeToAppleCells(m)
    ensures Covers(m, 5, 4) && NextMove("Orange", "Apple", DefaultOptions, m, 5, 4) == Some(Delete)
  {
    OrangeToAppleShape(m);
    ShapedCovers(m, "Orange", "Apple");
  }

  lemma OrangeToAppleWalk5x4(m: seq<seq<nat>>)
    requires OrangeToAppleCells(m)
    ensures Backtrace("Orange", "Apple", DefaultOptions, m, 5, 4) == [Sub, Sub, Sub, Sub, Delete]
  {
    OrangeToAppleWalk4x4(m);
    OrangeToAppleMove5x4(m);
  }

  lemma OrangeToAppleMove6x5(m: seq<seq<nat>>)
    requires OrangeToAppleCells(m)
    ensures Covers(m, 6, 5) && NextMove("Orange", "Apple", DefaultOptions, m, 6, 5) == Some(Equal)
  {
    OrangeToAppleShape(m);
    ShapedCovers(m, "Orange", "Apple");
  }

  lemma OrangeToAppleWalk(m: seq<seq<nat>>)
    requires OrangeToAppleCells(m)
    ensures Backtrace("Orange", "Apple", DefaultOptions, m, 6, 5) == [Sub, Sub, Sub, Sub, Delete, Equal]
  {
    OrangeToAppleWalk5x4(m);
    OrangeToAppleMove6x5(m);
  }

  /** lib.rs:166-172: the script for "Orange" and "Apple". */
  lemma OrangeToApple()
    ensures ScriptFor("Orange", "Apple", DefaultOptions) == [Sub, Sub, Sub, Sub, Delete, Equal]
  {
    OrangeToAppleRows();
    ScriptForUnfolds("Orange", "Apple", DefaultOptions);
    OrangeToAppleWalk(Table("Orange", "Apple", DefaultOptions));
  }

  const AbToBcMatrix: seq<seq<nat>> := [[0, 1, 2], [1, 1, 2], [2, 1, 2]]

  /** The matrix for "ab" and "bc" follows the recurrence. */
  lemma AbToBcRecurs()
    ensures Recurs(AbToBcMatrix, "ab", "bc", DefaultOptions)
  {
    var m := AbToBcMatrix;
    forall a, b | 1 <= a <= 2 && 1 <= b <= 2 ensures m[a][b] == Candidates(m, "ab", "bc", DefaultOptions, a, b) {
      assert a == 1 || a == 2;
      assert b == 1 || b == 2;
    }
  }

  /** The recurrence's table for "ab" and "bc". */
  lemma AbToBcTable()
    ensures Table("ab", "bc", DefaultOptions) == AbToBcMatrix
  {
    AbToBcRecurs();
    RecursIsTable(AbToBcMatrix, "ab", "bc", DefaultOptions);
  }

  /** `m` is, row by row, the matrix for "ab" and "bc". */
  predicate AbToBcCells(m: seq<seq<nat>>) {
    |m| == 3 && m[0] == [0, 1, 2] && m[1] == [1, 1, 2] && m[2] == [2, 1, 2]
  }

  lemma AbToBcRows()
    ensures AbToBcCells(Table("ab", "bc", DefaultOptions))
  {
    AbToBcTable();
  }

  lemma AbToBcShape(m: seq<seq<nat>>)
    requires AbToBcCells(m)
    ensures Shaped(m, "ab", "bc")
  {
  }

  lemma AbToBcMove0x0(m: seq<seq<nat>>)
    requires AbToBcCells(m)
    ensures Covers(m, 0, 0) && NextMove("ab", "bc", DefaultOptions, m, 0, 0) == None
  {
    AbToBcShape(m);
    ShapedCovers(m, "ab", "bc");
  }

  lemma AbToBcWalk0x0(m: seq<seq<nat>>)
    requires AbToBcCells(m)
    ensures Backtrace("ab", "bc", DefaultOptions, m, 0, 0) == []
  {
    AbToBcMove0x0(m);
  }

  lemma AbToBcMove1x0(m: seq<seq<nat>>)
    requires AbToBcCells(m)
    ensures Covers(m, 1, 0) && NextMove("ab", "bc", DefaultOptions, m, 1, 0) == Some(Delete)
  {
    AbToBcShape(m);
    ShapedCovers(m, "ab", "bc");
  }

  lemma AbToBcWalk1x0(m: seq<seq<nat>>)
    requires AbToBcCells(m)
    ensures Backtrace("ab", "bc", DefaultOptions, m, 1, 0) == [Delete]
  {
    AbToBcWalk0x0(m);
    AbToBcMove1x0(m);
  }

  lemma AbToBcMove2x1(m: seq<seq<nat>>)
    requires AbToBcCells(m)
    ensures Covers(m, 2, 1) && NextMove("ab", "bc", DefaultOptions, m, 2, 1) == Some(Equal)
  {
    AbToBcShape(m);
    ShapedCovers(m, "ab", "bc");
  }

  lemma AbToBcWalk2x1(m: seq<seq<nat>>)
    requires AbToBcCells(m)
    ensures Backtrace("ab", "bc", DefaultOptions, m, 2, 1) == [Delete, Equal]
  {
    AbToBcWalk1x0(m);
    AbToBcMove2x1(m);
  }

  lemma AbToBcMove2x2(m: seq<seq<nat>>)
    requires AbToBcCells(m)
    ensures Covers(m, 2, 2) && NextMove("ab", "bc", DefaultOptions, m, 2, 2) == Some(Insert)
  {
    AbToBcShape(m);
    ShapedCovers(m, "ab", "bc");
  }

  lemma AbToBcWalk(m: seq<seq<nat>>)
    requires AbToBcCells(m)
    ensures Backtrace("ab", "bc", DefaultOptions, m, 2, 2) == [Delete, Equal, Insert]
  {
    AbToBcWalk2x1(m);
    AbToBcMove2x2(m);
  }

  /** lib.rs:173-178: the script for "ab" and "bc". */
  lemma AbToBc()
    ensures ScriptFor("ab", "bc", DefaultOptions) == [Delete, Equal, Insert]
  {
    AbToBcRows();
    ScriptForUnfolds("ab", "bc", DefaultOptions);
    AbToBcWalk(Table("ab", "bc", DefaultOptions));
  }

  const AbdToBecMatrix: seq<seq<nat>> := [[0, 1, 2, 3], [1, 1, 2, 3], [2, 1, 2, 3], [3, 2, 2, 3]]

  /** The matrix for "abd" and "bec" follows the recurrence. */
  lemma AbdToBecRecurs()
    ensures Recurs(AbdToBecMatrix, "abd", "bec", DefaultOptions)
  {
    var m := AbdToBecMatrix;
    forall a, b | 1 <= a <= 3 && 1 <= b <= 3 ensures m[a][b] == Candidates(m, "abd", "bec", DefaultOptions, a, b) {
      assert a == 1 || a == 2 || a == 3;
      assert b == 1 || b == 2 || b == 3;
    }
  }

  /** The recurrence's table for "abd" and "bec". */
  lemma AbdToBecTable()
    ensures Table("abd", "bec", DefaultOptions) == AbdToBecMatrix
  {
    AbdToBecRecurs();
    RecursIsTable(AbdToBecMatrix, "abd", "bec", DefaultOptions);
  }

  /** `m` is, row by row, the matrix for "abd" and "bec". */
  predicate AbdToBecCells(m: seq<seq<nat>>) {
    |m| == 4 && m[0] == [0, 1, 2, 3] && m[1] == [1, 1, 2, 3] && m[2] == [2, 1, 2, 3] && m[3] == [3, 2, 2, 3]
  }

  lemma AbdToBecRows()
    ensures AbdToBecCells(Table("abd", "bec", DefaultOptions))
  {
    AbdToBecTable();
  }

  lemma AbdToBecShape(m: seq<seq<nat>>)
    requires AbdToBecCells(m)
    ensures Shaped(m, "abd", "bec")
  {
  }

  lemma AbdToBecMove0x0(m: seq<seq<nat>>)
    requires AbdToBecCells(m)
    ensures Covers(m, 0, 0) && NextMove("abd", "bec", DefaultOptions, m, 0, 0) == None
  {
    AbdToBecShape(m);
    ShapedCovers(m, "abd", "bec");
  }

  lemma AbdToBecWalk0x0(m: seq<seq<nat>>)
    requires AbdToBecCells(m)
    ensures Backtrace("abd", "bec", DefaultOptions, m, 0, 0) == []
  {
    AbdToBecMove0x0(m);
  }

  lemma AbdToBecMove1x0(m: seq<seq<nat>>)
    requires AbdToBecCells(m)
    ensures Covers(m, 1, 0) && NextMove("abd", "bec", DefaultOptions, m, 1, 0) == Some(Delete)
  {
    AbdToBecShape(m);
    ShapedCovers(m, "abd", "bec");
  }

  lemma AbdToBecWalk1x0(m: seq<seq<nat>>)
    requires AbdToBecCells(m)
    ensures Backtrace("abd", "bec", DefaultOptions, m, 1, 0) == [Delete]
  {
    AbdToBecWalk0x0(m);
    AbdToBecMove1x0(m);
  }

  lemma AbdToBecMove2x1(m: seq<seq<nat>>)
    requires AbdToBecCells(m)
    ensures Covers(m, 2, 1) && NextMove("abd", "bec", DefaultOptions, m, 2, 1) == Some(Equal)
  {
    AbdToBecShape(m);
    ShapedCovers(m, "abd", "bec");
  }

  lemma AbdToBecWalk2x1(m: seq<seq<nat>>)
    requires AbdToBecCells(m)
    ensures Backtrace("abd", "bec", DefaultOptions, m, 2, 1) == [Delete, Equal]
  {
    AbdToBecWalk1x0(m);
    AbdToBecMove2x1(m);
  }

  lemma AbdToBecMove3x2(m: seq<seq<nat>>)
    requires AbdToBecCells(m)
    ensures Covers(m, 3, 2) && NextMove("abd", "bec", DefaultOptions, m, 3, 2) == Some(Sub)
  {
    AbdToBecShape(m);
    ShapedCovers(m, "abd", "bec");
  }

  lemma AbdToBecWalk3x2(m: seq<seq<nat>>)
    requires AbdToBecCells(m)
    ensures Backtrace("abd", "bec", DefaultOptions, m, 3, 2) == [Delete, Equal, Sub]
  {
    AbdToBecWalk2x1(m);
    AbdToBecMove3x2(m);
  }

  lemma AbdToBecMove3x3(m: seq<seq<nat>>)
    requires AbdToBecCells(m)
    ensures Covers(m, 3, 3) && NextMove("abd", "bec", DefaultOptions, m, 3, 3) == Some(Insert)
  {
    AbdToBecShape(m);
    ShapedCovers(m, "abd", "bec");
  }

  lemma AbdToBecWalk(m: seq<seq<nat>>)
    requires AbdToBecCells(m)
    ensures Backtrace("abd", "bec", DefaultOptions, m, 3, 3) == [Delete, Equal, Sub, Insert]
  {
    AbdToBecWalk3x2(m);
    AbdToBecMove3x3(m);
  }

  /** lib.rs:179-184: the script for "abd" and "bec". */
  lemma AbdToBec()
    ensures ScriptFor("abd", "bec", DefaultOptions) == [Delete, Equal, Sub, Insert]
  {
    AbdToBecRows();
    ScriptForUnfolds("abd", "bec", DefaultOptions);
    AbdToBecWalk(Table("abd", "bec", DefaultOptions));
  }

  const MeToMemeMatrix: seq<seq<nat>> := [[0, 1, 2, 3, 4], [1, 0, 1, 2, 3], [2, 1, 0, 1, 2]]

  /** The matrix for "me" and "meme" follows the recurrence. */
  lemma MeToMemeRecurs()
    ensures Recurs(MeToMemeMatrix, "me", "meme", DefaultOptions)
  {
    var m := MeToMemeMatrix;
    forall a, b | 1 <= a <= 2 && 1 <= b <= 4 ensures m[a][b] == Candidates(m, "me", "meme", DefaultOptions, a, b) {
      assert a == 1 || a == 2;
      assert b == 1 || b == 2 || b == 3 || b == 4;
    }
  }

  /** The recurrence's table for "me" and "meme". */
  lemma MeToMemeTable()
    ensures Table("me", "meme", DefaultOptions) == MeToMemeMatrix
  {
    MeToMemeRecurs();
    RecursIsTable(MeToMemeMatrix, "me", "meme", DefaultOptions);
  }

  /** `m` is, row by row, the matrix for "me" and "meme". */
  predicate MeToMemeCells(m: seq<seq<nat>>) {
    |m| == 3 && m[0] == [0, 1, 2, 3, 4] && m[1] == [1, 0, 1, 2, 3] && m[2] == [2, 1, 0, 1, 2]
  }

  lemma MeToMemeRows()
    ensures MeToMemeCells(Table("me", "meme", DefaultOptions))
  {
    MeToMemeTable();
  }

  lemma MeToMemeShape(m: seq<seq<nat>>)
    requires MeToMemeCells(m)
    ensures Shaped(m, "me", "meme")
  {
  }

  lemma MeToMemeMove0x0(m: seq<seq<nat>>)
    requires MeToMemeCells(m)
    ensures Covers(m, 0, 0) && NextMove("me", "meme", DefaultOptions, m, 0, 0) == None
  {
    MeToMemeShape(m);
    ShapedCovers(m, "me", "meme");
  }

  lemma MeToMemeWalk0x0(m: seq<seq<nat>>)
    requires MeToMemeCells(m)
    ensures Backtrace("me", "meme", DefaultOptions, m, 0, 0) == []
  {
    MeToMemeMove0x0(m);
  }

  lemma MeToMemeMove1x1(m: seq<seq<nat>>)
    requires MeToMemeCells(m)
    ensures Covers(m, 1, 1) && NextMove("me", "meme", DefaultOptions, m, 1, 1) == Some(Equal)
  {
    MeToMemeShape(m);
    ShapedCovers(m, "me", "meme");
  }

  lemma MeToMemeWalk1x1(m: seq<seq<nat>>)
    requires MeToMemeCells(m)
    ensures Backtrace("me", "meme", DefaultOptions, m, 1, 1) == [Equal]
  {
    MeToMemeWalk0x0(m);
    MeToMemeMove1x1(m);
  }

  lemma MeToMemeMove2x2(m: seq<seq<nat>>)
    requires MeToMemeCells(m)
    ensures Covers(m, 2, 2) && NextMove("me", "meme", DefaultOptions, m, 2, 2) == Some(Equal)
  {
    MeToMemeShape(m);
    ShapedCovers(m, "me", "meme");
  }

  lemma MeToMemeWalk2x2(m: seq<seq<nat>>)
    requires MeToMemeCells(m)
    ensures Backtrace("me", "meme", DefaultOptions, m, 2, 2) == [Equal, Equal]
  {
    MeToMemeWalk1x1(m);
    MeToMemeMove2x2(m);
  }

  lemma MeToMemeMove2x3(m: seq<seq<nat>>)
    requires MeToMemeCells(m)
    ensures Covers(m, 2, 3) && NextMove("me", "meme", DefaultOptions, m, 2, 3) == Some(Insert)
  {
    MeToMemeShape(m);
    ShapedCovers(m, "me", "meme");
  }

  lemma MeToMemeWalk2x3(m: seq<seq<nat>>)
    requires MeToMemeCells(m)
    ensures Backtrace("me", "meme", DefaultOptions, m, 2, 3) == [Equal, Equal, Insert]
  {
    MeToMemeWalk2x2(m);
    MeToMemeMove2x3(m);
  }

  lemma MeToMemeMove2x4(m: seq<seq<nat>>)
    requires MeToMemeCells(m)
    ensures Covers(m, 2, 4) && NextMove("me", "meme", DefaultOptions, m, 2, 4) == Some(Insert)
  {
    MeToMemeShape(m);
    ShapedCovers(m, "me", "meme");
  }

  lemma MeToMemeWalk(m: seq<seq<nat>>)
    requires MeToMemeCells(m)
    ensures Backtrace("me", "meme", DefaultOptions, m, 2, 4) == [Equal, Equal, Insert, Insert]
  {
    MeToMemeWalk2x3(m);
    MeToMemeMove2x4(m);
  }

  /** lib.rs:185-190: the script for "me" and "meme". */
  lemma MeToMeme()
    ensures ScriptFor("me", "meme", DefaultOptions) == [Equal, Equal, Insert, Insert]
  {
    MeToMemeRows();
    ScriptForUnfolds("me", "meme", DefaultOptions);
    MeToMemeWalk(Table("me", "meme", DefaultOptions));
  }

  const FishToIfshMatrix: seq<seq<nat>> := [[0, 1, 2, 3, 4], [1, 1, 1, 2, 3], [2, 1, 1, 2, 3], [3, 2, 2, 1, 2], [4, 3, 3, 2, 1]]

  lemma FishToIfshRow1()
    ensures forall b :: 1 <= b <= 4 ==> FishToIfshMatrix[1][b] == Candidates(FishToIfshMatrix, "fish", "ifsh", DefaultOptions, 1, b)
  {
    forall b | 1 <= b <= 4 ensures FishToIfshMatrix[1][b] == Candidates(FishToIfshMatrix, "fish", "ifsh", DefaultOptions, 1, b) {
      assert b == 1 || b == 2 || b == 3 || b == 4;
    }
  }

  lemma FishToIfshRow2()
    ensures forall b :: 1 <= b <= 4 ==> FishToIfshMatrix[2][b] == Candidates(FishToIfshMatrix, "fish", "ifsh", DefaultOptions, 2, b)
  {
    forall b | 1 <= b <= 4 ensures FishToIfshMatrix[2][b] == Candidates(FishToIfshMatrix, "fish", "ifsh", DefaultOptions, 2, b) {
      assert b == 1 || b == 2 || b == 3 || b == 4;
    }
  }

  lemma FishToIfshRow3()
    ensures forall b :: 1 <= b <= 4 ==> FishToIfshMatrix[3][b] == Candidates(FishToIfshMatrix, "fish", "ifsh", DefaultOptions, 3, b)
  {
    forall b | 1 <= b <= 4 ensures FishToIfshMatrix[3][b] == Candidates(FishToIfshMatrix, "fish", "ifsh", DefaultOptions, 3, b) {
      assert b == 1 || b == 2 || b == 3 || b == 4;
    }
  }

  lemma FishToIfshRow4()
    ensures forall b :: 1 <= b <= 4 ==> FishToIfshMatrix[4][b] == Candidates(FishToIfshMatrix, "fish", "ifsh", DefaultOptions, 4, b)
  {
    forall b | 1 <= b <= 4 ensures FishToIfshMatrix[4][b] == Candidates(FishToIfshMatrix, "fish", "ifsh", DefaultOptions, 4, b) {
      assert b == 1 || b == 2 || b == 3 || b == 4;
    }
  }

  lemma FishToIfshBorders()
    ensures Shaped(FishToIfshMatrix, "fish", "ifsh")
    ensures forall a :: 0 <= a <= 4 ==> FishToIfshMatrix[a][0] == a * DefaultOptions.delCost
    ensures forall b :: 0 <= b <= 4 ==> FishToIfshMatrix[0][b] == b * DefaultOptions.insCost
  {
    forall a | 0 <= a <= 4 ensures |FishToIfshMatrix[a]| == 5 && FishToIfshMatrix[a][0] == a * DefaultOptions.delCost {
      assert a == 0 || a == 1 || a == 2 || a == 3 || a == 4;
    }
    forall b | 0 <= b <= 4 ensures FishToIfshMatrix[0][b] == b * DefaultOptions.insCost {
      assert b == 0 || b == 1 || b == 2 || b == 3 || b == 4;
    }
  }

  /** The matrix for "fish" and "ifsh" follows the recurrence. */
  lemma FishToIfshRecurs()
    ensures Recurs(FishToIfshMatrix, "fish", "ifsh", DefaultOptions)
  {
    var m := FishToIfshMatrix;
    FishToIfshBorders();
    FishToIfshRow1();
    FishToIfshRow2();
    FishToIfshRow3();
    FishToIfshRow4();
    forall a, b | 1 <= a <= 4 && 1 <= b <= 4 ensures m[a][b] == Candidates(m, "fish", "ifsh", DefaultOptions, a, b) {
      assert a == 1 || a == 2 || a == 3 || a == 4;
    }
  }

  /** The recurrence's table for "fish" and "ifsh". */
  lemma FishToIfshTable()
    ensures Table("fish", "ifsh", DefaultOptions) == FishToIfshMatrix
  {
    FishToIfshRecurs();
    RecursIsTable(FishToIfshMatrix, "fish", "ifsh", DefaultOptions);
  }

  /** `m` is, row by row, the matrix for "fish" and "ifsh". */
  predicate FishToIfshCells(m: seq<seq<nat>>) {
    |m| == 5 && m[0] == [0, 1, 2, 3, 4] && m[1] == [1, 1, 1, 2, 3] && m[2] == [2, 1, 1, 2, 3] && m[3] == [3, 2, 2, 1, 2] && m[4] == [4, 3, 3, 2, 1]
  }

  lemma FishToIfshRows()
    ensures FishToIfshCells(Table("fish", "ifsh", DefaultOptions))
  {
    FishToIfshTable();
  }

  lemma FishToIfshShape(m: seq<seq<nat>>)
    requires FishToIfshCells(m)
    ensures Shaped(m, "fish", "ifsh")
  {
  }

  lemma FishToIfshMove0x0(m: seq<seq<nat>>)
    requires FishToIfshCells(m)
    ensures Covers(m, 0, 0) && NextMove("fish", "ifsh", DefaultOptions, m, 0, 0) == None
  {
    FishToIfshShape(m);
    ShapedCovers(m, "fish", "ifsh");
  }

  lemma FishToIfshWalk0x0(m: seq<seq<nat>>)
    requires FishToIfshCells(m)
    ensures Backtrace("fish", "ifsh", DefaultOptions, m, 0, 0) == []
  {
    FishToIfshMove0x0(m);
  }

  lemma FishToIfshMove2x2(m: seq<seq<nat>>)
    requires FishToIfshCells(m)
    ensures Covers(m, 2, 2) && NextMove("fish", "ifsh", DefaultOptions, m, 2, 2) == Some(Transpose)
  {
    FishToIfshShape(m);
    ShapedCovers(m, "fish", "ifsh");
  }

  lemma FishToIfshWalk2x2(m: seq<seq<nat>>)
    requires FishToIfshCells(m)
    ensures Backtrace("fish", "ifsh", DefaultOptions, m, 2, 2) == [Transpose, Transpose]
  {
    FishToIfshWalk0x0(m);
    FishToIfshMove2x2(m);
  }

  lemma FishToIfshMove3x3(m: seq<seq<nat>>)
    requires FishToIfshCells(m)
    ensures Covers(m, 3, 3) && NextMove("fish", "ifsh", DefaultOptions, m, 3, 3) == Some(Equal)
  {
    FishToIfshShape(m);
    ShapedCovers(m, "fish", "ifsh");
  }

  lemma FishToIfshWalk3x3(m: seq<seq<nat>>)
    requires FishToIfshCells(m)
    ensures Backtrace("fish", "ifsh", DefaultOptions, m, 3, 3) == [Transpose, Transpose, Equal]
  {
    FishToIfshWalk2x2(m);
    FishToIfshMove3x3(m);
  }

  lemma FishToIfshMove4x4(m: seq<seq<nat>>)
    requires FishToIfshCells(m)
    ensures Covers(m, 4, 4) && NextMove("fish", "ifsh", DefaultOptions, m, 4, 4) == Some(Equal)
  {
    FishToIfshShape(m);
    ShapedCovers(m, "fish", "ifsh");
  }

  lemma FishToIfshWalk(m: seq<seq<nat>>)
    requires FishToIfshCells(m)
    ensures Backtrace("fish", "ifsh", DefaultOptions, m, 4, 4) == [Transpose, Transpose, Equal, Equal]
  {
    FishToIfshWalk3x3(m);
    FishToIfshMove4x4(m);
  }

  /** lib.rs:191-196: the script for "fish" and "ifsh". */
  lemma FishToIfsh()
    ensures ScriptFor("fish", "ifsh", DefaultOptions) == [Transpose, Transpose, Equal, Equal]
  {
    FishToIfshRows();
    ScriptForUnfolds("fish", "ifsh", DefaultOptions);
    FishToIfshWalk(Table("fish", "ifsh", DefaultOptions));
  }

  const FishyToIfshMatrix: seq<seq<nat>> := [[0, 1, 2, 3, 4], [1, 1, 1, 2, 3], [2, 1, 1, 2, 3], [3, 2, 2, 1, 2], [4, 3, 3, 2, 1], [5, 4, 4, 3, 2]]

  lemma FishyToIfshRow1()
    ensures forall b :: 1 <= b <= 4 ==> FishyToIfshMatrix[1][b] == Candidates(FishyToIfshMatrix, "fishy", "ifsh", DefaultOptions, 1, b)
  {
    forall b | 1 <= b <= 4 ensures FishyToIfshMatrix[1][b] == Candidates(FishyToIfshMatrix, "fishy", "ifsh", DefaultOptions, 1, b) {
      assert b == 1 || b == 2 || b == 3 || b == 4;
    }
  }

  lemma FishyToIfshRow2()
    ensures forall b :: 1 <= b <= 4 ==> FishyToIfshMatrix[2][b] == Candidates(FishyToIfshMatrix, "fishy", "ifsh", DefaultOptions, 2, b)
  {
    forall b | 1 <= b <= 4 ensures FishyToIfshMatrix[2][b] == Candidates(FishyToIfshMatrix, "fishy", "ifsh", DefaultOptions, 2, b) {
      assert b == 1 || b == 2 || b == 3 || b == 4;
    }
  }

  lemma FishyToIfshRow3()
    ensures forall b :: 1 <= b <= 4 ==> FishyToIfshMatrix[3][b] == Candidates(FishyToIfshMatrix, "fishy", "ifsh", DefaultOptions, 3, b)
  {
    forall b | 1 <= b <= 4 ensures FishyToIfshMatrix[3][b] == Candidates(FishyToIfshMatrix, "fishy", "ifsh", DefaultOptions, 3, b) {
      assert b == 1 || b == 2 || b == 3 || b == 4;
    }
  }

  lemma FishyToIfshRow4()
    ensures forall b :: 1 <= b <= 4 ==> FishyToIfshMatrix[4][b] == Candidates(FishyToIfshMatrix, "fishy", "ifsh", DefaultOptions, 4, b)
  {
    forall b | 1 <= b <= 4 ensures FishyToIfshMatrix[4][b] == Candidates(FishyToIfshMatrix, "fishy", "ifsh", DefaultOptions, 4, b) {
      assert b == 1 || b == 2 || b == 3 || b == 4;
    }
  }

  lemma FishyToIfshRow5()
    ensures forall b :: 1 <= b <= 4 ==> FishyToIfshMatrix[5][b] == Candidates(FishyToIfshMatrix, "fishy", "ifsh", DefaultOptions, 5, b)
  {
    forall b | 1 <= b <= 4 ensures FishyToIfshMatrix[5][b] == Candidates(FishyToIfshMatrix, "fishy", "ifsh", DefaultOptions, 5, b) {
      assert b == 1 || b == 2 || b == 3 || b == 4;
    }
  }

  lemma FishyToIfshBorders()
    ensures Shaped(FishyToIfshMatrix, "fishy", "ifsh")
    ensures forall a :: 0 <= a <= 5 ==> FishyToIfshMatrix[a][0] == a * DefaultOptions.delCost
    ensures forall b :: 0 <= b <= 4 ==> FishyToIfshMatrix[0][b] == b * DefaultOptions.insCost
  {
    forall a | 0 <= a <= 5 ensures |FishyToIfshMatrix[a]| == 5 && FishyToIfshMatrix[a][0] == a * DefaultOptions.delCost {
      assert a == 0 || a == 1 || a == 2 || a == 3 || a == 4 || a == 5;
    }
    forall b | 0 <= b <= 4 ensures FishyToIfshMatrix[0][b] == b * DefaultOptions.insCost {
      assert b == 0 || b == 1 || b == 2 || b == 3 || b == 4;
    }
  }

  /** The matrix for "fishy" and "ifsh" follows the recurrence. */
  lemma FishyToIfshRecurs()
    ensures Recurs(FishyToIfshMatrix, "fishy", "ifsh", DefaultOptions)
  {
    var m := FishyToIfshMatrix;
    FishyToIfshBorders();
    FishyToIfshRow1();
    FishyToIfshRow2();
    FishyToIfshRow3();
    FishyToIfshRow4();
    FishyToIfshRow5();
    forall a, b | 1 <= a <= 5 && 1 <= b <= 4 ensures m[a][b] == Candidates(m, "fishy", "ifsh", DefaultOptions, a, b) {
      assert a == 1 || a == 2 || a == 3 || a == 4 || a == 5;
    }
  }

  /** The recurrence's table for "fishy" and "ifsh". */
  lemma FishyToIfshTable()
    ensures Table("fishy", "ifsh", DefaultOptions) == FishyToIfshMatrix
  {
    FishyToIfshRecurs();
    RecursIsTable(FishyToIfshMatrix, "fishy", "ifsh", DefaultOptions);
  }

  /** `m` is, row by row, the matrix for "fishy" and "ifsh". */
  predicate FishyToIfshCells(m: seq<seq<nat>>) {
    |m| == 6 && m[0] == [0, 1, 2, 3, 4] && m[1] == [1, 1, 1, 2, 3] && m[2] == [2, 1, 1, 2, 3] && m[3] == [3, 2, 2, 1, 2] && m[4] == [4, 3, 3, 2, 1] && m[5] == [5, 4, 4, 3, 2]
  }

  lemma FishyToIfshRows()
    ensures FishyToIfshCells(Table("fishy", "ifsh", DefaultOptions))
  {
    FishyToIfshTable();
  }

  lemma FishyToIfshShape(m: seq<seq<nat>>)
    requires FishyToIfshCells(m)
    ensures Shaped(m, "fishy", "ifsh")
  {
  }

  lemma FishyToIfshMove0x0(m: seq<seq<nat>>)
    requires FishyToIfshCells(m)
    ensures Covers(m, 0, 0) && NextMove("fishy", "ifsh", DefaultOptions, m, 0, 0) == None
  {
    FishyToIfshShape(m);
    ShapedCovers(m, "fishy", "ifsh");
  }

  lemma FishyToIfshWalk0x0(m: seq<seq<nat>>)
    requires FishyToIfshCells(m)
    ensures Backtrace("fishy", "ifsh", DefaultOptions, m, 0, 0) == []
  {
    FishyToIfshMove0x0(m);
  }

  lemma FishyToIfshMove2x2(m: seq<seq<nat>>)
    requires FishyToIfshCells(m)
    ensures Covers(m, 2, 2) && NextMove("fishy", "ifsh", DefaultOptions, m, 2, 2) == Some(Transpose)
  {
    FishyToIfshShape(m);
    ShapedCovers(m, "fishy", "ifsh");
  }

  lemma FishyToIfshWalk2x2(m: seq<seq<nat>>)
    requires FishyToIfshCells(m)
    ensures Backtrace("fishy", "ifsh", DefaultOptions, m, 2, 2) == [Transpose, Transpose]
  {
    FishyToIfshWalk0x0(m);
    FishyToIfshMove2x2(m);
  }

  lemma FishyToIfshMove3x3(m: seq<seq<nat>>)
    requires FishyToIfshCells(m)
    ensures Covers(m, 3, 3) && NextMove("fishy", "ifsh", DefaultOptions, m, 3, 3) == Some(Equal)
  {
    FishyToIfshShape(m);
    ShapedCovers(m, "fishy", "ifsh");
  }

  lemma FishyToIfshWalk3x3(m: seq<seq<nat>>)
    requires FishyToIfshCells(m)
    ensures Backtrace("fishy", "ifsh", DefaultOptions, m, 3, 3) == [Transpose, Transpose, Equal]
  {
    FishyToIfshWalk2x2(m);
    FishyToIfshMove3x3(m);
  }

  lemma FishyToIfshMove4x4(m: seq<seq<nat>>)
    requires FishyToIfshCells(m)
    ensures Covers(m, 4, 4) && NextMove("fishy", "ifsh", DefaultOptions, m, 4, 4) == Some(Equal)
  {
    FishyToIfshShape(m);
    ShapedCovers(m, "fishy", "ifsh");
  }

  lemma FishyToIfshWalk4x4(m: seq<seq<nat>>)
    requires FishyToIfshCells(m)
    ensures Backtrace("fishy", "ifsh", DefaultOptions, m, 4, 4) == [Transpose, Transpose, Equal, Equal]
  {
    FishyToIfshWalk3x3(m);
    FishyToIfshMove4x4(m);
  }

  lemma FishyToIfshMove5x4(m: seq<seq<nat>>)
    requires FishyToIfshCells(m)
    ensures Covers(m, 5, 4) && NextMove("fishy", "ifsh", DefaultOptions, m, 5, 4) == Some(Delete)
  {
    FishyToIfshShape(m);
    ShapedCovers(m, "fishy", "ifsh");
  }

  lemma FishyToIfshWalk(m: seq<seq<nat>>)
    requires FishyToIfshCells(m)
    ensures Backtrace("fishy", "ifsh", DefaultOptions, m, 5, 4) == [Transpose, Transpose, Equal, Equal, Delete]
  {
    FishyToIfshWalk4x4(m);
    FishyToIfshMove5x4(m);
  }

  /** lib.rs:197-202: the script for "fishy" and "ifsh". */
  lemma FishyToIfsh()
    ensures ScriptFor("fishy", "ifsh", DefaultOptions) == [Transpose, Transpose, Equal, Equal, Delete]
  {
    FishyToIfshRows();
    ScriptForUnfolds("fishy", "ifsh", DefaultOptions);
    FishyToIfshWalk(Table("fishy", "ifsh", DefaultOptions));
  }

}
