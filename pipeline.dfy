/** What the whole computation yields, as functions of the source, the
    target and the options: the script traced back from the terminal row of
    column |target| of the recurrence's table, and what is proved about it. */
module Pipeline {
  import opened Types
  import opened Recurrence
  import opened Alignment
  import opened Script
  import opened Optimality

  /** The table covers the cell the script is traced back from. */
  lemma TableCoversTerminal(s: seq<char>, t: seq<char>, o: Options)
    ensures Covers(Table(s, t, o), TerminalRow(s, t, o), |t|)
  {
  }

  /** The edit script for `s` and `t`: the corrected backtrace from the
      terminal row of column |t|. */
  function ScriptFor(s: seq<char>, t: seq<char>, o: Options): seq<EditType> {
    TableCoversTerminal(s, t, o);
    Backtrace(s, t, o, Table(s, t, o), TerminalRow(s, t, o), |t|)
  }

  /** The edit script is the backtrace over the table, which covers its
      starting cell. */
  lemma ScriptForUnfolds(s: seq<char>, t: seq<char>, o: Options)
    ensures Covers(Table(s, t, o), TerminalRow(s, t, o), |t|)
    ensures ScriptFor(s, t, o) == Backtrace(s, t, o, Table(s, t, o), TerminalRow(s, t, o), |t|)
  {
  }

  /** The script turns the first TerminalRow source characters into the
      whole target: it consumes exactly that many source characters and all
      target characters, it costs the terminal cell, and no alignment of the
      same characters costs less. Without the shrink step it aligns the
      whole source. */
  lemma ScriptForIsOptimal(s: seq<char>, t: seq<char>, o: Options, other: seq<EditType>)
    ensures Aligns(o, ScriptFor(s, t, o), s[..TerminalRow(s, t, o)], t)
    ensures SourceLen(ScriptFor(s, t, o)) == TerminalRow(s, t, o) && TargetLen(ScriptFor(s, t, o)) == |t|
    ensures Cost(o, ScriptFor(s, t, o)) == Cell(s, t, o, TerminalRow(s, t, o), |t|)
    ensures Aligns(o, other, s[..TerminalRow(s, t, o)], t) ==> Cost(o, ScriptFor(s, t, o)) <= Cost(o, other)
    ensures !ShrinkApplies(s, t, o) ==> Aligns(o, ScriptFor(s, t, o), s, t)
  {
    var r := TerminalRow(s, t, o);
    assert t[..|t|] == t;
    BacktraceIsOptimal(s, t, o, r, |t|);
    AlignsConsumesAll(o, ScriptFor(s, t, o), s[..r], t);
    if Aligns(o, other, s[..r], t) {
      CellIsLowerBound(s, t, o, other, r, |t|);
    }
    if !ShrinkApplies(s, t, o) {
      assert s[..|s|] == s;
    }
  }

  /** The script the crate's own backtrace yields: the walk with the
      transposition test as written, from the same terminal cell. */
  function ScriptAsWritten(s: seq<char>, t: seq<char>, o: Options): seq<EditType> {
    TableCoversTerminal(s, t, o);
    BacktraceAsWritten(s, t, o, Table(s, t, o), TerminalRow(s, t, o), |t|)
  }

  /** With unit transposition cost, as in both default option sets, the
      crate's backtrace yields the same script as the corrected one. */
  lemma ScriptForAsWritten(s: seq<char>, t: seq<char>, o: Options)
    requires o.transpCost == 1
    ensures ScriptAsWritten(s, t, o) == ScriptFor(s, t, o)
  {
    TableRecurs(s, t, o);
    AsWrittenAgreesOnUnitTranspose(s, t, o, Table(s, t, o), TerminalRow(s, t, o), |t|);
  }

  /** The same, as an implication on the options. */
  lemma ScriptsAgreeOnUnitTranspose(s: seq<char>, t: seq<char>, o: Options)
    ensures o.transpCost == 1 ==> ScriptAsWritten(s, t, o) == ScriptFor(s, t, o)
  {
    if o.transpCost == 1 {
      ScriptForAsWritten(s, t, o);
    }
  }

  /** With any positive transposition cost the crate's script still turns
      the kept source prefix into the target, though it need not be the
      cheapest. */
  lemma ScriptAsWrittenAligns(s: seq<char>, t: seq<char>, o: Options)
    requires o.transpCost > 0
    ensures Aligns(o, ScriptAsWritten(s, t, o), s[..TerminalRow(s, t, o)], t)
  {
    TableRecurs(s, t, o);
    AsWrittenAligns(s, t, o, Table(s, t, o), TerminalRow(s, t, o), |t|);
    assert t[..|t|] == t;
  }
}
