/** A matrix of either backend behind one interface, standing for the
    generic parameter `T: Matrix` that the algorithm and the entry points are
    written against. Every operation forwards to the backend it wraps; both
    backends refine the same MatrixTrait operations, so the algorithm sees no
    difference between them. */
module Storage {
  import opened Types
  import opened MatrixTrait
  import opened VecBackend
  import opened GridBackend

  datatype Matrix = OnVec(vec: VecMatrix) | OnGrid(grid: GridMatrix) {

    /** The objects the backend keeps its state in. */
    function Repr(): set<object> {
      match this
      case OnVec(v) => {v}
      case OnGrid(g) => {g, g.data}
    }

    ghost predicate Valid()
      reads Repr()
    {
      match this
      case OnVec(v) => v.Valid()
      case OnGrid(g) => g.Valid()
    }

    /** The observable state of the wrapped backend. */
    function View(): (st: State)
      reads Repr()
      requires Valid()
      ensures st.Valid()
    {
      match this
      case OnVec(v) => v.View()
      case OnGrid(g) => g.View()
    }

    /** `T::new(x, y)` for the backend `kind` names. */
    static method New(kind: MatrixType, x: nat, y: nat) returns (m: Matrix)
      ensures fresh(m.Repr()) && m.Valid()
      ensures m.View() == MatrixTrait.New(x, y)
      ensures kind == Vec <==> m.OnVec?
    {
      if kind == Vec {
        var v := new VecMatrix(x, y);
        m := OnVec(v);
      } else {
        var g := new GridMatrix(x, y);
        m := OnGrid(g);
      }
    }

    method Set(r: nat, c: nat, value: nat)
      requires Valid() && View().InRange(r, c)
      modifies Repr()
      ensures Valid() && View() == MatrixTrait.Set(old(View()), r, c, value)
    {
      match this
      case OnVec(v) => v.Set(r, c, value);
      case OnGrid(g) => g.Set(r, c, value);
    }

    function Get(r: nat, c: nat): (v: nat)
      reads Repr()
      requires Valid() && View().InRange(r, c)
      ensures v == MatrixTrait.Get(View(), r, c)
    {
      match this
      case OnVec(v) => v.Get(r, c)
      case OnGrid(g) => g.Get(r, c)
    }

    function GetLastCell(): (v: nat)
      reads Repr()
      requires Valid() && HasLastCell(View())
      ensures v == LastCell(View())
    {
      match this
      case OnVec(v) => v.GetLastCell()
      case OnGrid(g) => g.GetLastCell()
    }

    method Shrink(k: nat)
      requires Valid()
      modifies Repr()
      ensures Valid() && View() == MatrixTrait.Shrink(old(View()), k)
    {
      match this
      case OnVec(v) => v.Shrink(k);
      case OnGrid(g) => g.Shrink(k);
    }

    function GetSize(): (size: (nat, nat))
      reads Repr()
      requires Valid()
      ensures size == Size(View())
    {
      match this
      case OnVec(v) => v.GetSize()
      case OnGrid(g) => g.GetSize()
    }

    /** Issues one command, observing a panic instead of indexing out of
        range. */
    method Perform(cmd: Command) returns (ob: Observation)
      requires Valid()
      modifies Repr()
      ensures Valid()
      ensures ob == if Allowed(old(View()), cmd) then Observe(old(View()), cmd) else Panicked
      ensures View() == if Allowed(old(View()), cmd) then Apply(old(View()), cmd) else old(View())
    {
      match cmd
      case SetCell(r, c, v) =>
        if r < View().Rows() && c < View().y {
          Set(r, c, v);
          ob := Done;
        } else {
          ob := Panicked;
        }
      case GetCell(r, c) =>
        if r < View().Rows() && c < View().y {
          ob := Value(Get(r, c));
        } else {
          ob := Panicked;
        }
      case ShrinkTo(k) =>
        Shrink(k);
        ob := Done;
      case LastCellOf =>
        if 1 <= View().x <= View().Rows() && 1 <= View().y {
          ob := Value(GetLastCell());
        } else {
          ob := Panicked;
        }
      case SizeOf =>
        var (x, y) := GetSize();
        ob := Dims(x, y);
    }
  }

  /** The run from the command at `i` on: its observation, then the run of
      the commands after it, unless it panics; no allowed call is observed
      as a panic. */
  lemma RunStep(st: State, cmds: seq<Command>, i: nat)
    requires st.Valid() && i < |cmds|
    ensures Allowed(st, cmds[i]) ==> Observe(st, cmds[i]) != Panicked
    ensures Run(st, cmds[i..]) == if Allowed(st, cmds[i]) then [Observe(st, cmds[i])] + Run(Apply(st, cmds[i]), cmds[i + 1..])
                                  else [Panicked]
  {
    assert cmds[i..][0] == cmds[i] && cmds[i..][1..] == cmds[i + 1..];
  }

  /** Issues one command to two separate matrices in the same state: both
      observe the same, and they stay in the same state. */
  method PerformBoth(v: Matrix, g: Matrix, cmd: Command) returns (a: Observation, b: Observation)
    requires v.Valid() && g.Valid() && v.View() == g.View() && v.Repr() !! g.Repr()
    modifies v.Repr(), g.Repr()
    ensures v.Valid() && g.Valid() && v.View() == g.View()
    ensures a == b
    ensures a == if Allowed(old(v.View()), cmd) then Observe(old(v.View()), cmd) else Panicked
    ensures v.View() == if Allowed(old(v.View()), cmd) then Apply(old(v.View()), cmd) else old(v.View())
  {
    ghost var st := v.View();
    a := v.Perform(cmd);
    assert g.View() == st;
    b := g.Perform(cmd);
  }

  /** Builds one matrix of each backend with `new(x, y)`, issues the same
      commands to both, and records what each returns: the two records are
      identical, and both are what the trait's contract prescribes. */
  method ReplayBoth(x: nat, y: nat, cmds: seq<Command>) returns (fromVec: seq<Observation>, fromGrid: seq<Observation>)
    ensures fromVec == fromGrid
    ensures fromVec == Run(MatrixTrait.New(x, y), cmds)
  {
    var v := Matrix.New(Vec, x, y);
    var g := Matrix.New(Grid, x, y);
    fromVec, fromGrid := [], [];
    var i := 0;
    while i < |cmds|
      invariant 0 <= i <= |cmds|
      invariant v.Valid() && g.Valid() && v.View() == g.View()
      invariant v.Repr() !! g.Repr()
      invariant fromVec == fromGrid
      invariant fromVec + Run(v.View(), cmds[i..]) == Run(MatrixTrait.New(x, y), cmds)
      decreases |cmds| - i
    {
      ghost var st := v.View();
      RunStep(st, cmds, i);
      var a, b := PerformBoth(v, g, cmds[i]);
      ghost var before := fromVec;
      fromVec, fromGrid := fromVec + [a], fromGrid + [b];
      if a == Panicked {
        return;
      }
      assert before + Run(st, cmds[i..]) == fromVec + Run(v.View(), cmds[i + 1..]);
      i := i + 1;
    }
  }
}
