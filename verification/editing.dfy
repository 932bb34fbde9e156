/** Manual play: the move check that flags a conflicting entry, and the
    board history behind `handleCellChange`, `undo` and `redo`. */
module Editing {
  import opened Wrappers
  import opened Grid

  /** Reference meaning of a legal entry: clearing is always legal, and a
      digit is legal when no other cell of its row, column or box holds it.
      The cell itself is not looked at (it already holds the new value). */
  predicate MoveIsValid(b: Board, c: Cell, value: int)
    requires IsBoard(b) && InGrid(c)
  {
    value == 0 || forall i, j :: 0 <= i < 9 && 0 <= j < 9 && Peers(c, (i, j)) ==> b[i][j] != value
  }

  /** `validateMove`: the row scan, the column scan, then the box scan, which
      skips every cell sharing the row or the column (both already scanned). */
  method ValidateMove(b: Board, row: int, col: int, value: int) returns (ok: bool)
    requires IsBoard(b) && InGrid((row, col))
    ensures ok <==> MoveIsValid(b, (row, col), value)
  {
    if value == 0 {
      return true;
    }
    var c := 0;
    while c < 9
      invariant 0 <= c <= 9
      invariant forall j :: 0 <= j < c && j != col ==> b[row][j] != value
    {
      if c != col && b[row][c] == value {
        assert Peers((row, col), (row, c));
        return false;
      }
      c := c + 1;
    }
    var r := 0;
    while r < 9
      invariant 0 <= r <= 9
      invariant forall i :: 0 <= i < r && i != row ==> b[i][col] != value
    {
      if r != row && b[r][col] == value {
        assert Peers((row, col), (r, col));
        return false;
      }
      r := r + 1;
    }
    var boxRow, boxCol := row / 3 * 3, col / 3 * 3;
    r := boxRow;
    while r < boxRow + 3
      invariant boxRow <= r <= boxRow + 3
      invariant forall i, j :: boxRow <= i < r && boxCol <= j < boxCol + 3 && i != row && j != col ==> b[i][j] != value
    {
      c := boxCol;
      while c < boxCol + 3
        invariant boxCol <= c <= boxCol + 3
        invariant forall i, j :: boxRow <= i < r && boxCol <= j < boxCol + 3 && i != row && j != col ==> b[i][j] != value
        invariant forall j :: boxCol <= j < c && r != row && j != col ==> b[r][j] != value
      {
        if r != row && c != col && b[r][c] == value {
          assert Peers((row, col), (r, c));
          return false;
        }
        c := c + 1;
      }
      r := r + 1;
    }
    forall i, j | 0 <= i < 9 && 0 <= j < 9 && Peers((row, col), (i, j))
      ensures b[i][j] != value
    {
      if i != row && j != col {
        assert boxRow <= i < boxRow + 3 && boxCol <= j < boxCol + 3;
      }
    }
    return true;
  }

  // ---------------------------------------------------------------------
  // History

  /** The playing state: the puzzle as started, the board shown, the list of
      boards with its cursor, and the cells flagged as conflicting. */
  datatype Game = Game(original: Board, current: Board, history: seq<Board>, index: int, errors: set<Cell>)

  /** `b` still holds every given of the puzzle. */
  predicate KeepsGivens(b: Board, original: Board)
    requires IsBoard(b) && IsBoard(original)
  {
    forall i, j :: 0 <= i < 9 && 0 <= j < 9 && original[i][j] != 0 ==> b[i][j] == original[i][j]
  }

  /** What every handler keeps: the cursor points into the history, the shown
      board is the one under the cursor, every board in the history keeps the
      givens, and only non-given cells are ever flagged. */
  predicate Valid(g: Game) {
    IsBoard(g.original) && 0 <= g.index < |g.history| && g.current == g.history[g.index]
    && (forall k :: 0 <= k < |g.history| ==> IsBoard(g.history[k]) && KeepsGivens(g.history[k], g.original))
    && forall c :: c in g.errors ==> InGrid(c) && At(g.original, c) == 0
  }

  /** `startGame`: nothing happens unless the solvability request said yes;
      the request itself is outside the model and arrives as `solvable`. */
  function StartGame(board: Board, solvable: bool): (r: Option<Game>)
    requires IsBoard(board)
    ensures r.Some? <==> solvable
    ensures r.Some? ==> Valid(r.value) && r.value.original == board && r.value.current == board
                        && r.value.history == [board] && r.value.errors == {}
  {
    if !solvable then None else Some(Game(board, board, [board], 0, {}))
  }

  /** `handleCellChange`: a given is never edited; otherwise the edited board
      is appended after the cursor (dropping any redo tail) and the cell's
      error flag is set or cleared by the move check. */
  function HandleCellChange(g: Game, row: int, col: int, value: int): (r: Game)
    requires Valid(g) && InGrid((row, col))
    ensures Valid(r) && r.original == g.original
    ensures At(g.original, (row, col)) != 0 ==> r == g
    ensures At(g.original, (row, col)) == 0 ==>
              At(r.current, (row, col)) == value
              && (forall d :: InGrid(d) && d != (row, col) ==> At(r.current, d) == At(g.current, d))
              && r.index == g.index + 1 && |r.history| == g.index + 2
              && r.history[..r.index] == g.history[..g.index + 1]
              && ((row, col) in r.errors <==> !MoveIsValid(r.current, (row, col), value))
              && r.errors - {(row, col)} == g.errors - {(row, col)}
  {
    var c := (row, col);
    if At(g.original, c) != 0 then g
    else
      var newBoard := Put(g.current, c, value);
      var newErrors := if !MoveIsValid(newBoard, c, value) && value != 0 then g.errors + {c} else g.errors - {c};
      var newHistory := g.history[..g.index + 1] + [newBoard];
      assert newHistory[..g.index + 1] == g.history[..g.index + 1];
      Game(g.original, newBoard, newHistory, |newHistory| - 1, newErrors)
  }

  /** `undo`: one step back while there is one. */
  function Undo(g: Game): (r: Game)
    requires Valid(g)
    ensures Valid(r) && r.original == g.original && r.history == g.history && r.errors == g.errors
    ensures g.index > 0 ==> r.index == g.index - 1
    ensures g.index == 0 ==> r == g
  {
    if g.index > 0 then g.(index := g.index - 1, current := g.history[g.index - 1]) else g
  }

  /** `redo`: one step forward while there is one. */
  function Redo(g: Game): (r: Game)
    requires Valid(g)
    ensures Valid(r) && r.original == g.original && r.history == g.history && r.errors == g.errors
    ensures g.index < |g.history| - 1 ==> r.index == g.index + 1
    ensures g.index == |g.history| - 1 ==> r == g
  {
    if g.index < |g.history| - 1 then g.(index := g.index + 1, current := g.history[g.index + 1]) else g
  }

  /** The shown board keeps the puzzle's givens after any handler. */
  lemma GivensNeverChange(g: Game)
    requires Valid(g)
    ensures KeepsGivens(g.current, g.original)
  {
  }

  /** Undo right after an edit shows the board from before the edit. */
  lemma UndoAfterEdit(g: Game, row: int, col: int, value: int)
    requires Valid(g) && InGrid((row, col)) && At(g.original, (row, col)) == 0
    ensures Undo(HandleCellChange(g, row, col, value)).current == g.current
  {
    var r := HandleCellChange(g, row, col, value);
    assert r.history[g.index] == r.history[..r.index][g.index];
  }

  /** An edit discards the redo tail: redo right after it does nothing. */
  lemma EditClearsRedo(g: Game, row: int, col: int, value: int)
    requires Valid(g) && InGrid((row, col)) && At(g.original, (row, col)) == 0
    ensures var r := HandleCellChange(g, row, col, value); Redo(r) == r
  {
  }

  /** Undo followed by redo returns to the same state, and so does redo
      followed by undo. */
  lemma UndoRedoInverse(g: Game)
    requires Valid(g)
    ensures g.index > 0 ==> Redo(Undo(g)) == g
    ensures g.index < |g.history| - 1 ==> Undo(Redo(g)) == g
  {
  }
}
