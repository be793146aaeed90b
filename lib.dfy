/** The crate's entry points: each sizes a fresh matrix of the requested
    backend to (|source| + 1) x (|target| + 1) and hands it to the
    algorithm. */
module Lib {
  import opened Types
  import opened MatrixTrait
  import opened Storage
  import opened Recurrence
  import opened Alignment
  import opened Pipeline
  import opened OsaCore

  /** `get_script::<T>`: the pipeline's script, whichever backend `kind`
      names; at unit transposition cost, as in both default option sets,
      it is the script of the crate's own backtrace. */
  method GetScript(kind: MatrixType, source: seq<char>, target: seq<char>, options: Options) returns (script: seq<EditType>)
    ensures script == ScriptFor(source, target, options)
    ensures Aligns(options, script, source[..TerminalRow(source, target, options)], target)
    ensures Cost(options, script) == Cell(source, target, options, TerminalRow(source, target, options), |target|)
    ensures options.transpCost == 1 ==> script == ScriptAsWritten(source, target, options)
  {
    var matrix := Matrix.New(kind, |source| + 1, |target| + 1);
    var osa := new Osa(source, target, options, matrix);
    script := osa.EditScriptForStrings();
    ScriptForIsOptimal(source, target, options, script);
  }

  /** `get_matrix::<T>`: a fresh matrix of the backend `kind` names, holding
      the recurrence's table, with the row bound one past the terminal
      row. */
  method GetMatrix(kind: MatrixType, source: seq<char>, target: seq<char>, options: Options) returns (m: Matrix)
    ensures fresh(m.Repr()) && m.Valid() && (kind == Vec <==> m.OnVec?)
    ensures m.View() == State(Table(source, target, options), TerminalRow(source, target, options) + 1, |target| + 1)
  {
    m := Matrix.New(kind, |source| + 1, |target| + 1);
    var osa := new Osa(source, target, options, m);
    ghost var base := m.View().cells;
    osa.MatrixForStrings();
    TerminalFacts(base, source, target, options, m.View());
  }
}
