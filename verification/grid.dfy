/** The 9x9 Sudoku grid shared by the solver and the viewer: cells, boards,
    the row-major order the scans follow, the row/column/box relation, and
    what it means for a board to be consistent, full and a solution. */
module Grid {

  /** A (row, column) pair. The frontend keys its maps by the string
      `${row}-${col}`; the pair is the same key without the formatting. */
  type Cell = (int, int)

  /** A board as the JSON and Python code see it: a list of rows of ints,
      0 meaning an empty cell. */
  type Board = seq<seq<int>>

  predicate InGrid(c: Cell) {
    0 <= c.0 < 9 && 0 <= c.1 < 9
  }

  predicate IsBoard(b: Board) {
    |b| == 9 && forall i :: 0 <= i < 9 ==> |b[i]| == 9
  }

  function At(b: Board, c: Cell): int
    requires IsBoard(b) && InGrid(c)
  {
    b[c.0][c.1]
  }

  /** `board[row][col] = v` on a copy. */
  function Put(b: Board, c: Cell, v: int): (r: Board)
    requires IsBoard(b) && InGrid(c)
    ensures IsBoard(r)
    ensures At(r, c) == v
    ensures forall d :: InGrid(d) && d != c ==> At(r, d) == At(b, d)
  {
    b[c.0 := b[c.0][c.1 := v]]
  }

  /** Two boards of the right shape are equal when they agree on every cell. */
  lemma BoardExt(a: Board, b: Board)
    requires IsBoard(a) && IsBoard(b)
    requires forall c :: InGrid(c) ==> At(a, c) == At(b, c)
    ensures a == b
  {
    forall i | 0 <= i < 9
      ensures a[i] == b[i]
    {
      forall j | 0 <= j < 9
        ensures a[i][j] == b[i][j]
      {
        assert At(a, (i, j)) == At(b, (i, j));
      }
    }
  }

  /** Writing a cell's old value back undoes a write: the Python searches
      reset `board[row][col] = 0` after a failed branch. */
  lemma PutRestore(b: Board, c: Cell, v: int)
    requires IsBoard(b) && InGrid(c)
    ensures Put(Put(b, c, v), c, At(b, c)) == b
  {
    BoardExt(Put(Put(b, c, v), c, At(b, c)), b);
  }

  // ---------------------------------------------------------------------
  // Row-major order

  /** Position of a cell in row-major order. */
  function Pos(c: Cell): int {
    9 * c.0 + c.1
  }

  function CellAt(p: int): (c: Cell)
    requires 0 <= p < 81
    ensures InGrid(c) && Pos(c) == p
  {
    (p / 9, p % 9)
  }

  lemma PosRange(c: Cell)
    requires InGrid(c)
    ensures 0 <= Pos(c) < 81 && CellAt(Pos(c)) == c
  {
  }

  /** Row-major position is a bijection between the grid and 0..80. */
  lemma AllPosRange()
    ensures forall c :: InGrid(c) ==> 0 <= Pos(c) < 81 && CellAt(Pos(c)) == c
  {
    forall c | InGrid(c)
      ensures 0 <= Pos(c) < 81 && CellAt(Pos(c)) == c
    {
      PosRange(c);
    }
  }

  /** The 81 cells of the grid. */
  function AllCells(): (s: set<Cell>)
    ensures forall c :: c in s <==> InGrid(c)
  {
    set i, j | 0 <= i < 9 && 0 <= j < 9 :: (i, j)
  }

  /** The cell at row-major position p. */
  lemma ScanCell(p: int)
    requires 0 <= p < 81
    ensures InGrid((p / 9, p % 9)) && Pos((p / 9, p % 9)) == p
    ensures forall c :: InGrid(c) && Pos(c) == p ==> c == (p / 9, p % 9)
  {
    assert CellAt(p) == (p / 9, p % 9);
    forall c | InGrid(c) && Pos(c) == p
      ensures c == (p / 9, p % 9)
    {
      PosRange(c);
    }
  }

  // ---------------------------------------------------------------------
  // Peers

  predicate SameBox(a: Cell, b: Cell) {
    a.0 / 3 == b.0 / 3 && a.1 / 3 == b.1 / 3
  }

  /** Same row, same column or same 3x3 box; a cell is related to itself. */
  predicate Related(a: Cell, b: Cell) {
    a.0 == b.0 || a.1 == b.1 || SameBox(a, b)
  }

  /** Two different cells that constrain each other. */
  predicate Peers(a: Cell, b: Cell) {
    a != b && Related(a, b)
  }

  /** No peer of `c` holds the non-zero value at `c`. */
  ghost predicate NoClashAt(b: Board, c: Cell)
    requires IsBoard(b) && InGrid(c)
  {
    At(b, c) != 0 ==> forall d :: InGrid(d) && Peers(c, d) ==> At(b, c) != At(b, d)
  }

  /** No two peers hold the same non-zero value. */
  ghost predicate Consistent(b: Board)
    requires IsBoard(b)
  {
    forall c :: InGrid(c) ==> NoClashAt(b, c)
  }

  /** No cell is empty. */
  ghost predicate Full(b: Board)
    requires IsBoard(b)
  {
    forall c :: InGrid(c) ==> At(b, c) != 0
  }

  /** `s` keeps every given (non-zero) value of `b`. */
  ghost predicate Extends(s: Board, b: Board)
    requires IsBoard(s) && IsBoard(b)
  {
    forall c :: InGrid(c) && At(b, c) != 0 ==> At(s, c) == At(b, c)
  }

  /** A finished Sudoku that keeps the puzzle's givens. */
  ghost predicate SolutionOf(s: Board, b: Board)
    requires IsBoard(s) && IsBoard(b)
  {
    Full(s) && Consistent(s) && Extends(s, b)
  }
}
