/** The vector-of-rows backend: `matrix` holds one sequence per row. */
module VecBackend {
  import opened MatrixTrait

  class VecMatrix {
    /** The rows; each has `y` cells. */
    var matrix: seq<seq<nat>>
    /** Logical row bound; `shrink` lowers it without touching `matrix`. */
    var x: nat
    /** Column bound, fixed at construction. */
    const y: nat

    ghost predicate Valid()
      reads this
    {
      forall r :: 0 <= r < |matrix| ==> |matrix[r]| == y
    }

    /** The observable state: the rows as they are stored, and the bounds. */
    function View(): (st: State)
      reads this
      requires Valid()
      ensures st.Valid()
    {
      State(matrix, x, y)
    }

    /** `VecMatrix::new(x, y)`: `x` rows of `y` zeros. */
    constructor (x: nat, y: nat)
      ensures Valid() && View() == MatrixTrait.New(x, y)
    {
      matrix := seq(x, _ => seq(y, _ => 0));
      this.x := x;
      this.y := y;
    }

    /** `set`: replaces row `r` by a copy with cell `c` changed. */
    method Set(r: nat, c: nat, value: nat)
      requires Valid() && View().InRange(r, c)
      modifies this
      ensures Valid() && View() == MatrixTrait.Set(old(View()), r, c, value)
    {
      var row: seq<nat> := matrix[r][c := value];
      matrix := matrix[r := row];
    }

    /** `get`. */
    function Get(r: nat, c: nat): (v: nat)
      reads this
      requires Valid() && View().InRange(r, c)
      ensures v == MatrixTrait.Get(View(), r, c)
    {
      matrix[r][c]
    }

    /** `get_last_cell`: reads row x - 1 of the current logical bound. */
    function GetLastCell(): (v: nat)
      reads this
      requires Valid() && HasLastCell(View())
      ensures v == LastCell(View())
    {
      matrix[x - 1][y - 1]
    }

    /** `shrink`: assigns the logical row bound only. */
    method Shrink(k: nat)
      requires Valid()
      modifies this
      ensures Valid() && View() == MatrixTrait.Shrink(old(View()), k)
    {
      x := k;
    }

    /** `get_size`. */
    function GetSize(): (size: (nat, nat))
      reads this
      requires Valid()
      ensures size == Size(View())
    {
      (x, y)
    }
  }
}
