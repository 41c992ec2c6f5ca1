/** The grid: coordinates, the four fixed moves, value tables and the order the loops visit cells. */
module Grid {

  /** A cell coordinate `(row, col)`. */
  type Cell = (int, int)

  /** The four moves, in the order of the action list built by the constructor. */
  datatype Action = Right | Left | Up | Down

  const Actions: seq<Action> := [Right, Left, Up, Down]

  /** Position of an action in `Actions`; this order decides argmax ties. */
  function Index(a: Action): (k: nat)
    ensures k < |Actions| && Actions[k] == a
  {
    match a
    case Right => 0
    case Left => 1
    case Up => 2
    case Down => 3
  }

  /** The unit step `(drow, dcol)` of an action. */
  function Offset(a: Action): Cell
  {
    match a
    case Right => (0, 1)
    case Left => (0, -1)
    case Up => (-1, 0)
    case Down => (1, 0)
  }

  /** The cell an action leads to; it may lie outside the grid. */
  function Dest(c: Cell, a: Action): (d: Cell)
    ensures d != c
    ensures (d.0 == c.0 && (d.1 == c.1 + 1 || d.1 == c.1 - 1))
         || (d.1 == c.1 && (d.0 == c.0 + 1 || d.0 == c.0 - 1))
  {
    (c.0 + Offset(a).0, c.1 + Offset(a).1)
  }

  /** The single obstacle; its coordinate is fixed in the code, not configured. */
  const Wall: Cell := (1, 1)

  /** The configuration the solver is built from. */
  datatype World = World(rows: int, cols: int, rewards: map<Cell, real>, gamma: real, noise: real)

  predicate InBounds(w: World, c: Cell)
  {
    0 <= c.0 < w.rows && 0 <= c.1 < w.cols
  }

  /** A cell the sweep recomputes: neither a reward key nor the wall. */
  predicate Swept(w: World, c: Cell)
  {
    c !in w.rewards && c != Wall
  }

  /** A dense value table, row by row. */
  type Table = seq<seq<real>>

  predicate Shaped(w: World, V: Table)
  {
    |V| == w.rows && forall i :: 0 <= i < |V| ==> |V[i]| == w.cols
  }

  function At(w: World, V: Table, c: Cell): real
    requires Shaped(w, V) && InBounds(w, c)
  {
    V[c.0][c.1]
  }

  /** The table with one cell overwritten. */
  function Put(w: World, V: Table, c: Cell, x: real): (V': Table)
    requires Shaped(w, V) && InBounds(w, c)
    ensures Shaped(w, V')
    ensures At(w, V', c) == x
    ensures forall d :: InBounds(w, d) && d != c ==> At(w, V', d) == At(w, V, d)
  {
    V[c.0 := V[c.0][c.1 := x]]
  }

  /** Columns `0 .. n - 1` of row `i` of the table that holds `f(c)` at each cell `c`. */
  function TabulateRow(f: Cell -> real, i: int, n: int): (row: seq<real>)
    ensures |row| == if n < 0 then 0 else n
    decreases n
  {
    if n <= 0 then [] else TabulateRow(f, i, n - 1) + [f((i, n - 1))]
  }

  /** Rows `0 .. n - 1`, each `cols` wide, of the table that holds `f(c)` at each cell `c`. */
  function Tabulate(f: Cell -> real, n: int, cols: int): (T: Table)
    ensures |T| == if n < 0 then 0 else n
    ensures forall i :: 0 <= i < |T| ==> |T[i]| == if cols < 0 then 0 else cols
    decreases n
  {
    if n <= 0 then [] else Tabulate(f, n - 1, cols) + [TabulateRow(f, n - 1, cols)]
  }

  lemma {:induction false} TabulateRowAt(f: Cell -> real, i: int, n: int, j: int)
    requires 0 <= j < n
    ensures TabulateRow(f, i, n)[j] == f((i, j))
    decreases n
  {
    if j < n - 1 {
      TabulateRowAt(f, i, n - 1, j);
    }
  }

  /** Each cell of a tabulated table holds `f` of that cell. */
  lemma {:induction false} TabulateAt(f: Cell -> real, n: int, cols: int, c: Cell)
    requires 0 <= c.0 < n && 0 <= c.1 < cols
    ensures Tabulate(f, n, cols)[c.0][c.1] == f(c)
    decreases n
  {
    if c.0 < n - 1 {
      TabulateAt(f, n - 1, cols, c);
    } else {
      TabulateRowAt(f, c.0, cols, c.1);
    }
  }

  /** Two tables of the same shape that agree on every cell are equal. */
  lemma Extensional(w: World, A: Table, B: Table)
    requires Shaped(w, A) && Shaped(w, B)
    requires forall c :: InBounds(w, c) ==> At(w, A, c) == At(w, B, c)
    ensures A == B
  {
    forall i | 0 <= i < |A|
      ensures A[i] == B[i]
    {
      forall j | 0 <= j < |A[i]|
        ensures A[i][j] == B[i][j]
      {
        assert At(w, A, (i, j)) == At(w, B, (i, j));
      }
    }
  }

  /** Strict row-major order on cells. */
  predicate Before(a: Cell, b: Cell)
  {
    a.0 < b.0 || (a.0 == b.0 && a.1 < b.1)
  }

  /** Cells `(i, 0), ..., (i, n - 1)`: the inner loop over columns. */
  function RowCells(i: int, n: int): (cs: seq<Cell>)
    ensures forall c :: c in cs <==> c.0 == i && 0 <= c.1 < n
    ensures forall k, l :: 0 <= k < l < |cs| ==> Before(cs[k], cs[l])
    decreases n
  {
    if n <= 0 then [] else RowCells(i, n - 1) + [(i, n - 1)]
  }

  /** Every cell of a `rows × cols` grid, in the order the nested loops visit them. */
  function RowMajor(rows: int, cols: int): (cs: seq<Cell>)
    ensures forall c :: c in cs <==> 0 <= c.0 < rows && 0 <= c.1 < cols
    decreases rows
  {
    if rows <= 0 then [] else RowMajor(rows - 1, cols) + RowCells(rows - 1, cols)
  }

  /** The nested loops visit each cell once, rows top to bottom and each row left to right. */
  lemma {:induction false} RowMajorSorted(rows: int, cols: int)
    ensures forall k, l :: 0 <= k < l < |RowMajor(rows, cols)| ==> Before(RowMajor(rows, cols)[k], RowMajor(rows, cols)[l])
    decreases rows
  {
    if rows > 0 {
      RowMajorSorted(rows - 1, cols);
      var A, B := RowMajor(rows - 1, cols), RowCells(rows - 1, cols);
      forall k, l | 0 <= k < l < |A + B|
        ensures Before((A + B)[k], (A + B)[l])
      {
        if l >= |A| && k < |A| {
          assert A[k] in A && B[l - |A|] in B;
        }
      }
    }
  }
}
