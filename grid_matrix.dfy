/** The flat-grid backend: one row-major buffer of `rows * cols` cells, as
    the external two-dimensional grid type allocates it. Cell (r, c) lives at
    offset r * cols + c. */
module GridBackend {
  import opened MatrixTrait

  /** Row-major position of cell (r, c) in a buffer with `cols` columns. */
  function Offset(r: nat, c: nat, cols: nat): nat {
    r * cols + c
  }

  /** The offset of cell (r, c) lies inside a rows-by-cols buffer. */
  lemma OffsetInRange(r: nat, c: nat, rows: nat, cols: nat)
    requires r < rows && c < cols
    ensures Offset(r, c, cols) < rows * cols
  {
    calc {
      r * cols + c;
    <
      r * cols + cols;
    ==
      (r + 1) * cols;
    <=  { MulMonotone(r + 1, rows, cols); }
      rows * cols;
    }
  }

  lemma MulMonotone(a: nat, b: nat, k: nat)
    requires a <= b
    ensures a * k <= b * k
  {
  }

  /** A cell in an earlier row sits at a smaller offset. */
  lemma OffsetLess(r: nat, c: nat, r': nat, c': nat, cols: nat)
    requires r < r' && c < cols
    ensures Offset(r, c, cols) < Offset(r', c', cols)
  {
    calc {
      r * cols + c;
    <
      (r + 1) * cols;
    <=  { MulMonotone(r + 1, r', cols); }
      r' * cols;
    <=
      r' * cols + c';
    }
  }

  /** Distinct cells have distinct offsets. */
  lemma OffsetDistinct(r: nat, c: nat, r': nat, c': nat, cols: nat)
    requires c < cols && c' < cols && (r != r' || c != c')
    ensures Offset(r, c, cols) != Offset(r', c', cols)
  {
    if r < r' {
      OffsetLess(r, c, r', c', cols);
    } else if r' < r {
      OffsetLess(r', c', r, c, cols);
    }
  }

  class GridMatrix {
    /** The grid's buffer, row-major. */
    const data: array<nat>
    /** The grid's own dimensions. */
    const rows: nat
    const cols: nat
    /** Logical row bound; `shrink` lowers it without touching the grid. */
    var x: nat
    /** Column bound, fixed at construction. */
    const y: nat

    ghost predicate Valid() {
      data.Length == rows * cols && cols == y
    }

    /** Row r of the buffer. */
    function Row(r: nat): (row: seq<nat>)
      reads data
      requires Valid() && r < rows
      ensures |row| == cols
      ensures forall c :: 0 <= c < cols ==>
                Offset(r, c, cols) < data.Length && row[c] == data[Offset(r, c, cols)]
    {
      assert forall c :: 0 <= c < cols ==> Offset(r, c, cols) < data.Length by {
        forall c | 0 <= c < cols ensures Offset(r, c, cols) < data.Length {
          OffsetInRange(r, c, rows, cols);
        }
      }
      seq(cols, c requires 0 <= c < cols reads data => data[Offset(r, c, cols)])
    }

    /** The buffer read back as rows. */
    function Cells(): (cells: seq<seq<nat>>)
      reads data
      requires Valid()
      ensures |cells| == rows
      ensures forall r :: 0 <= r < rows ==> cells[r] == Row(r)
    {
      seq(rows, r requires 0 <= r < rows reads data => Row(r))
    }

    /** The observable state: the grid as rows, and the bounds. */
    function View(): (st: State)
      reads this, data
      requires Valid()
      ensures st.Valid() && st.Rows() == rows
    {
      State(Cells(), x, y)
    }

    /** `GridMatrix::new(x, y)`: an x-by-y grid of zeros. */
    constructor (x: nat, y: nat)
      ensures Valid() && fresh(data) && View() == MatrixTrait.New(x, y)
    {
      data := new nat[x * y](_ => 0);
      rows, cols := x, y;
      this.x := x;
      this.y := y;
      new;
      forall r | 0 <= r < x ensures Row(r) == MatrixTrait.New(x, y).cells[r] {
        assert forall c :: 0 <= c < y ==> Row(r)[c] == 0;
      }
    }

    /** `set`: writes the buffer cell at offset r * cols + c in place. */
    method Set(r: nat, c: nat, value: nat)
      requires Valid() && View().InRange(r, c)
      modifies data
      ensures Valid() && View() == MatrixTrait.Set(old(View()), r, c, value)
    {
      OffsetInRange(r, c, rows, cols);
      ghost var before := Cells();
      ghost var after := before[r := before[r][c := value]];
      data[Offset(r, c, cols)] := value;
      forall r' | 0 <= r' < rows ensures Row(r') == after[r'] {
        forall c' | 0 <= c' < cols ensures Row(r')[c'] == after[r'][c'] {
          if r' != r || c' != c {
            OffsetDistinct(r', c', r, c, cols);
          }
        }
      }
    }

    /** `get`. */
    function Get(r: nat, c: nat): (v: nat)
      reads this, data
      requires Valid() && View().InRange(r, c)
      ensures v == MatrixTrait.Get(View(), r, c)
    {
      OffsetInRange(r, c, rows, cols);
      data[Offset(r, c, cols)]
    }

    /** `get_last_cell`: reads row x - 1 of the current logical bound. */
    function GetLastCell(): (v: nat)
      reads this, data
      requires Valid() && HasLastCell(View())
      ensures v == LastCell(View())
    {
      Get(x - 1, y - 1)
    }

    /** `shrink`: assigns the logical row bound only. */
    method Shrink(k: nat)
      requires Valid()
      modifies this
      ensures Valid() && View() == MatrixTrait.Shrink(old(View()), k)
    {
      x := k;
    }

    /** `get_size`. */
    function GetSize(): (size: (nat, nat))
      reads this, data
      requires Valid()
      ensures size == Size(View())
    {
      (x, y)
    }
  }
}
