/** The plain depth-first solver: the safety test, candidate lists, the
    row-major scan for the next empty cell, and the three searches built on
    them (existence, first solution, solution count up to a cap). */
module Backtracking {
  import opened Wrappers
  import opened Grid

  // ---------------------------------------------------------------------
  // Safety and candidates

  /** The value in row `i`, column `j`. */
  function Value(b: Board, i: int, j: int): int
    requires IsBoard(b) && 0 <= i < 9 && 0 <= j < 9
  {
    b[i][j]
  }

  /** `num` appears nowhere in the row, column or box of `c`; the cell itself
      is among the cells looked at. */
  predicate Safe(b: Board, c: Cell, num: int)
    requires IsBoard(b) && InGrid(c)
  {
    forall i, j {:trigger Value(b, i, j)} :: 0 <= i < 9 && 0 <= j < 9 && Related(c, (i, j)) ==> Value(b, i, j) != num
  }

  /** A value safe at an empty cell is not 0. */
  lemma SafeNonZero(b: Board, c: Cell, num: int)
    requires IsBoard(b) && InGrid(c) && At(b, c) == 0 && Safe(b, c, num)
    ensures num != 0
  {
    assert Related(c, (c.0, c.1)) && Value(b, c.0, c.1) == 0;
  }

  /** `is_safe`: the row scan, the column scan and the box scan. */
  method IsSafe(b: Board, row: int, col: int, num: int) returns (ok: bool)
    requires IsBoard(b) && InGrid((row, col))
    ensures ok <==> Safe(b, (row, col), num)
  {
    var x := 0;
    while x < 9
      invariant 0 <= x <= 9
      invariant forall k :: 0 <= k < x ==> b[row][k] != num
    {
      if b[row][x] == num {
        assert Related((row, col), (row, x)) && Value(b, row, x) == num;
        return false;
      }
      x := x + 1;
    }
    x := 0;
    while x < 9
      invariant 0 <= x <= 9
      invariant forall k :: 0 <= k < x ==> b[k][col] != num
    {
      if b[x][col] == num {
        assert Related((row, col), (x, col)) && Value(b, x, col) == num;
        return false;
      }
      x := x + 1;
    }
    var startRow, startCol := row - row % 3, col - col % 3;
    var i := 0;
    while i < 3
      invariant 0 <= i <= 3
      invariant forall k, l :: startRow <= k < startRow + i && startCol <= l < startCol + 3 ==> b[k][l] != num
    {
      var j, k0 := 0, i + startRow;
      while j < 3
        invariant 0 <= j <= 3
        invariant forall k, l :: startRow <= k < startRow + i && startCol <= l < startCol + 3 ==> b[k][l] != num
        invariant forall l :: startCol <= l < startCol + j ==> b[k0][l] != num
      {
        if b[i + startRow][j + startCol] == num {
          assert Related((row, col), (i + startRow, j + startCol)) && Value(b, i + startRow, j + startCol) == num;
          return false;
        }
        j := j + 1;
      }
      i := i + 1;
    }
    forall k, l | 0 <= k < 9 && 0 <= l < 9 && Related((row, col), (k, l))
      ensures Value(b, k, l) != num
    {
      if k != row && l != col {
        assert startRow <= k < startRow + 3 && startCol <= l < startCol + 3;
      }
    }
    return true;
  }

  predicate StrictlyAscending(s: seq<int>) {
    forall i, j :: 0 <= i < j < |s| ==> s[i] < s[j]
  }

  /** The values n..9 that are safe at `c`, in ascending order. */
  function SafeFrom(b: Board, c: Cell, n: int): seq<int>
    requires IsBoard(b) && InGrid(c) && 1 <= n <= 10
    decreases 10 - n
  {
    if n == 10 then [] else (if Safe(b, c, n) then [n] else []) + SafeFrom(b, c, n + 1)
  }

  /** The list holds exactly the safe digits from n on, each once, in
      ascending order. */
  lemma SafeFromMeaning(b: Board, c: Cell, n: int)
    requires IsBoard(b) && InGrid(c) && 1 <= n <= 10
    ensures StrictlyAscending(SafeFrom(b, c, n))
    ensures forall x :: x in SafeFrom(b, c, n) <==> n <= x <= 9 && Safe(b, c, x)
  {
    SafeFromAscending(b, c, n);
    SafeFromMembers(b, c, n);
  }

  lemma {:induction false} SafeFromAscending(b: Board, c: Cell, n: int)
    requires IsBoard(b) && InGrid(c) && 1 <= n <= 10
    ensures StrictlyAscending(SafeFrom(b, c, n))
    ensures forall k :: 0 <= k < |SafeFrom(b, c, n)| ==> n <= SafeFrom(b, c, n)[k] <= 9
    decreases 10 - n
  {
    if n < 10 {
      SafeFromAscending(b, c, n + 1);
      var rest := SafeFrom(b, c, n + 1);
      if Safe(b, c, n) {
        assert SafeFrom(b, c, n) == [n] + rest;
        ConsAscending(n, rest);
      } else {
        assert SafeFrom(b, c, n) == [] + rest == rest;
      }
    }
  }

  lemma AppendAssoc(a: seq<int>, h: seq<int>, r: seq<int>)
    ensures (a + h) + r == a + (h + r)
  {
  }

  /** Putting a digit in front of a list of larger digits keeps it
      ascending and within the digits. */
  lemma ConsAscending(n: int, rest: seq<int>)
    requires 1 <= n <= 9 && StrictlyAscending(rest)
    requires forall k :: 0 <= k < |rest| ==> n < rest[k] <= 9
    ensures StrictlyAscending([n] + rest)
    ensures forall k :: 0 <= k < |[n] + rest| ==> n <= ([n] + rest)[k] <= 9
  {
    var s := [n] + rest;
    assert forall k :: 1 <= k < |s| ==> s[k] == rest[k - 1];
  }

  lemma SafeFromMembers(b: Board, c: Cell, n: int)
    requires IsBoard(b) && InGrid(c) && 1 <= n <= 10
    ensures forall x :: x in SafeFrom(b, c, n) <==> n <= x <= 9 && Safe(b, c, x)
  {
    forall x
      ensures x in SafeFrom(b, c, n) <==> n <= x <= 9 && Safe(b, c, x)
    {
      SafeFromHas(b, c, n, x);
    }
  }

  lemma {:induction false} SafeFromHas(b: Board, c: Cell, n: int, x: int)
    requires IsBoard(b) && InGrid(c) && 1 <= n <= 10
    ensures x in SafeFrom(b, c, n) <==> n <= x <= 9 && Safe(b, c, x)
    decreases 10 - n
  {
    if n < 10 {
      SafeFromHas(b, c, n + 1, x);
      var rest := SafeFrom(b, c, n + 1);
      if Safe(b, c, n) {
        assert SafeFrom(b, c, n) == [n] + rest;
        assert x in [n] + rest <==> x == n || x in rest;
      } else {
        assert SafeFrom(b, c, n) == [] + rest == rest;
      }
    }
  }

  /** `get_possible_values`: nothing for a filled cell, otherwise every safe
      digit in ascending order. */
  function PossibleValues(b: Board, c: Cell): (r: seq<int>)
    requires IsBoard(b) && InGrid(c)
    ensures At(b, c) != 0 ==> r == []
    ensures At(b, c) == 0 ==> StrictlyAscending(r) && forall x :: x in r <==> 1 <= x <= 9 && Safe(b, c, x)
  {
    if At(b, c) != 0 then [] else SafeFromMeaning(b, c, 1); SafeFrom(b, c, 1)
  }

  /** The first half of `get_possible_values`: the set of non-zero values
      in the row, column and box of an empty cell. A digit is taken exactly
      when it is not safe there. */
  method CollectTaken(b: Board, row: int, col: int) returns (taken: set<int>)
    requires IsBoard(b) && InGrid((row, col))
    ensures forall n :: n in taken ==> n != 0 && !Safe(b, (row, col), n)
    ensures forall n :: n != 0 && !Safe(b, (row, col), n) ==> n in taken
  {
    var c := (row, col);
    taken := {};
    var x := 0;
    while x < 9
      invariant 0 <= x <= 9
      invariant forall n :: n in taken ==> n != 0 && !Safe(b, c, n)
      invariant forall k :: 0 <= k < x ==> b[row][k] in taken + {0} && b[k][col] in taken + {0}
    {
      if b[row][x] != 0 {
        assert Related(c, (row, x)) && Value(b, row, x) == b[row][x];
        taken := taken + {b[row][x]};
      }
      if b[x][col] != 0 {
        assert Related(c, (x, col)) && Value(b, x, col) == b[x][col];
        taken := taken + {b[x][col]};
      }
      x := x + 1;
    }
    var startRow, startCol := row - row % 3, col - col % 3;
    var boxTaken := CollectBox(b, c, startRow, startCol);
    taken := taken + boxTaken;
    forall n | n != 0 && !Safe(b, c, n)
      ensures n in taken
    {
      var k, l :| 0 <= k < 9 && 0 <= l < 9 && Related(c, (k, l)) && Value(b, k, l) == n;
      if k != row && l != col {
        assert startRow <= k < startRow + 3 && startCol <= l < startCol + 3;
      }
    }
  }

  /** The box loop of `get_possible_values`. */
  method CollectBox(b: Board, c: Cell, startRow: int, startCol: int) returns (taken: set<int>)
    requires IsBoard(b) && InGrid(c)
    requires startRow == c.0 - c.0 % 3 && startCol == c.1 - c.1 % 3
    ensures forall n :: n in taken ==> n != 0 && !Safe(b, c, n)
    ensures forall k, l :: startRow <= k < startRow + 3 && startCol <= l < startCol + 3 ==> b[k][l] in taken + {0}
  {
    taken := {};
    var i := 0;
    while i < 3
      invariant 0 <= i <= 3
      invariant forall n :: n in taken ==> n != 0 && !Safe(b, c, n)
      invariant forall k, l :: startRow <= k < startRow + i && startCol <= l < startCol + 3 ==> b[k][l] in taken + {0}
    {
      var j, k0 := 0, i + startRow;
      while j < 3
        invariant 0 <= j <= 3
        invariant forall n :: n in taken ==> n != 0 && !Safe(b, c, n)
        invariant forall k, l :: startRow <= k < startRow + i && startCol <= l < startCol + 3 ==> b[k][l] in taken + {0}
        invariant forall l :: startCol <= l < startCol + j ==> b[k0][l] in taken + {0}
      {
        var v := b[i + startRow][j + startCol];
        if v != 0 {
          assert Related(c, (i + startRow, j + startCol)) && Value(b, i + startRow, j + startCol) == v;
          taken := taken + {v};
        }
        j := j + 1;
      }
      i := i + 1;
    }
  }

  /** `get_possible_values` as written: nothing for a filled cell, otherwise
      1..9 minus the taken values, in ascending order. */
  method GetPossibleValues(b: Board, row: int, col: int) returns (possible: seq<int>)
    requires IsBoard(b) && InGrid((row, col))
    ensures possible == PossibleValues(b, (row, col))
  {
    if b[row][col] != 0 {
      return [];
    }
    var taken := CollectTaken(b, row, col);
    possible := FilterTaken(b, (row, col), taken);
  }

  /** The second half of `get_possible_values`: 1..9 in order, skipping the
      taken values. */
  method FilterTaken(b: Board, c: Cell, taken: set<int>) returns (possible: seq<int>)
    requires IsBoard(b) && InGrid(c)
    requires forall n :: 1 <= n <= 9 ==> (n in taken <==> !Safe(b, c, n))
    ensures possible == SafeFrom(b, c, 1)
  {
    possible := [];
    var num := 1;
    while num < 10
      invariant 1 <= num <= 10
      invariant possible + SafeFrom(b, c, num) == SafeFrom(b, c, 1)
    {
      assert num in taken <==> !Safe(b, c, num);
      var head := if num !in taken then [num] else [];
      AppendAssoc(possible, head, SafeFrom(b, c, num + 1));
      possible := possible + head;
      num := num + 1;
    }
  }

  // ---------------------------------------------------------------------
  // The next empty cell

  /** A cell of the row-major scan: a grid cell, or (9, 0) just past the
      last one. */
  predicate InScan(c: Cell) {
    InGrid(c) || c == (9, 0)
  }

  /** `d` comes strictly before `c` in row-major order. */
  predicate Before(d: Cell, c: Cell) {
    d.0 < c.0 || (d.0 == c.0 && d.1 < c.1)
  }

  /** The next cell in row-major order. */
  function Next(c: Cell): (r: Cell)
    requires InGrid(c)
    ensures InScan(r) && Pos(r) == Pos(c) + 1
    ensures forall d :: InGrid(d) ==> (Before(d, r) <==> Before(d, c) || d == c)
  {
    if c.1 < 8 then (c.0, c.1 + 1) else (c.0 + 1, 0)
  }

  /** Every grid cell before `p` in row-major order is filled. */
  ghost predicate FilledBefore(b: Board, p: Cell)
    requires IsBoard(b)
  {
    forall d :: InGrid(d) && Before(d, p) ==> At(b, d) != 0
  }

  /** The first empty cell at `p` or after it in row-major order. */
  function FirstEmptyFrom(b: Board, p: Cell): (r: Option<Cell>)
    requires IsBoard(b) && InScan(p)
    ensures r.Some? ==> InGrid(r.value) && !Before(r.value, p) && At(b, r.value) == 0
    decreases 81 - Pos(p)
  {
    if !InGrid(p) then None
    else if At(b, p) == 0 then Some(p)
    else FirstEmptyFrom(b, Next(p))
  }

  /** The scan passes over filled cells only: every grid cell from `p` up to
      the one found (or to the end of the grid) is filled. */
  lemma {:induction false} FirstEmptySkips(b: Board, p: Cell)
    requires IsBoard(b) && InScan(p)
    ensures var r := FirstEmptyFrom(b, p);
            forall d :: InGrid(d) && !Before(d, p) && (r.Some? ==> Before(d, r.value)) ==> At(b, d) != 0
    decreases 81 - Pos(p)
  {
    if InGrid(p) && At(b, p) != 0 {
      FirstEmptySkips(b, Next(p));
    }
  }

  /** An empty cell with only filled cells between `p` and it is the first
      empty cell from `p`. */
  lemma FirstEmptyUnique(b: Board, p: Cell, c: Cell)
    requires IsBoard(b) && InScan(p) && InGrid(c) && !Before(c, p) && At(b, c) == 0
    requires forall d :: InGrid(d) && !Before(d, p) && Before(d, c) ==> At(b, d) != 0
    ensures FirstEmptyFrom(b, p) == Some(c)
  {
    FirstEmptySkips(b, p);
  }

  /** `find_empty_location`: the rest of the start row, then every later row. */
  method FindEmptyLocation(b: Board, startI: int, startJ: int) returns (r: Option<Cell>)
    requires IsBoard(b) && InGrid((startI, startJ))
    ensures r == FirstEmptyFrom(b, (startI, startJ))
  {
    var p := (startI, startJ);
    var j := startJ;
    while j < 9
      invariant startJ <= j <= 9
      invariant forall d :: InGrid(d) && !Before(d, p) && Before(d, (startI, j)) ==> At(b, d) != 0
    {
      if b[startI][j] == 0 {
        r := Some((startI, j));
        FirstEmptyUnique(b, p, (startI, j));
        return;
      }
      j := j + 1;
    }
    var i := startI + 1;
    while i < 9
      invariant startI + 1 <= i <= 9
      invariant forall d :: InGrid(d) && !Before(d, p) && Before(d, (i, 0)) ==> At(b, d) != 0
    {
      j := 0;
      while j < 9
        invariant 0 <= j <= 9
        invariant forall d :: InGrid(d) && !Before(d, p) && Before(d, (i, j)) ==> At(b, d) != 0
      {
        if b[i][j] == 0 {
          r := Some((i, j));
          FirstEmptyUnique(b, p, (i, j));
          return;
        }
        j := j + 1;
      }
      i := i + 1;
    }
    r := None;
    FirstEmptySkips(b, p);
  }

  /** Row-major position of the first empty cell at `p` or after it, 81 when
      there is none: the scan position, which every search call moves
      strictly forward. */
  function NextPos(b: Board, p: Cell): (r: int)
    requires IsBoard(b) && InScan(p)
    ensures Pos(p) <= r <= 81
  {
    match FirstEmptyFrom(b, p)
    case None => 81
    case Some(c) => PosRange(c); Pos(c)
  }

  /** Once `c` holds a non-zero value, the scan from `c` stops strictly
      after it. */
  lemma FillMovesOn(b: Board, c: Cell, v: int)
    requires IsBoard(b) && InGrid(c) && v != 0
    ensures NextPos(Put(b, c, v), c) > Pos(c)
  {
  }

  /** With every cell before `p` filled and none empty from `p` on, the
      board is full. */
  lemma NoEmptyLeft(b: Board, p: Cell)
    requires IsBoard(b) && InScan(p) && FilledBefore(b, p) && FirstEmptyFrom(b, p).None?
    ensures Full(b)
  {
    FirstEmptySkips(b, p);
  }

  // ---------------------------------------------------------------------
  // Searches

  /** A search's answer together with the board as the call leaves it: the
      Python searches fill and clear cells of the board they are given. */
  datatype Searched<T> = Searched(result: T, board: Board)

  /** Every empty cell of `b` holds a digit 1..9 in `s`. */
  ghost predicate DigitsIn(s: Board, b: Board)
    requires IsBoard(s) && IsBoard(b)
  {
    forall c :: InGrid(c) && At(b, c) == 0 ==> 1 <= At(s, c) <= 9
  }

  /** `s` is a finished grid for the puzzle `b`: full, no value repeated
      among peers, the givens kept and every blank filled with a digit. */
  ghost predicate Completes(s: Board, b: Board)
    requires IsBoard(b)
  {
    IsBoard(s) && SolutionOf(s, b) && DigitsIn(s, b)
  }

  /** Placing a safe value keeps a consistent board consistent. */
  lemma SafePutConsistent(b: Board, c: Cell, v: int)
    requires IsBoard(b) && InGrid(c) && Safe(b, c, v)
    ensures Consistent(b) ==> Consistent(Put(b, c, v))
  {
    var nb := Put(b, c, v);
    if Consistent(b) {
    forall d, e | InGrid(d) && InGrid(e) && Peers(d, e) && At(nb, d) != 0
      ensures At(nb, d) != At(nb, e)
    {
      if d == c {
        assert Related(c, e) && Value(b, e.0, e.1) == At(b, e);
      } else if e == c {
        assert Related(c, d) && Value(b, d.0, d.1) == At(b, d);
      }
    }
    }
  }

  /** Filling an empty cell keeps the board's fill order and givens. */
  lemma PutEmpty(b: Board, c: Cell, v: int)
    requires IsBoard(b) && InGrid(c) && At(b, c) == 0 && FilledBefore(b, c)
    ensures FilledBefore(Put(b, c, v), c)
    ensures Extends(Put(b, c, v), b)
  {
  }

  /** `get_solution(board, i, j)`: the first completion in ascending digit
      order, scanning for empty cells from (i, j) on. On failure the board is
      left as it was given. */
  function GetSolution(b: Board, start: Cell): (r: Searched<Option<Board>>)
    requires IsBoard(b) && InGrid(start)
    ensures IsBoard(r.board)
    ensures r.result.None? ==> r.board == b
    ensures r.result.Some? ==> r.board == r.result.value
    decreases 81 - NextPos(b, start), 1
  {
    match FirstEmptyFrom(b, start)
    case None =>
      Searched(Some(b), b)
    case Some(c) => TrySolution(b, c, 1)
  }

  /** The `for num in range(1, 10)` loop of `get_solution` from `num` on. */
  function TrySolution(b: Board, c: Cell, num: int): (r: Searched<Option<Board>>)
    requires IsBoard(b) && InGrid(c) && At(b, c) == 0 && 1 <= num <= 10
    ensures IsBoard(r.board)
    ensures r.result.None? ==> r.board == b
    ensures r.result.Some? ==> r.board == r.result.value
    decreases 81 - Pos(c), 0, 10 - num
  {
    if num == 10 then Searched(None, b)
    else if Safe(b, c, num) then
      var next := Put(b, c, num);
      FillMovesOn(b, c, num);
      var res := GetSolution(next, c);
      if res.result.Some? then res
      else
        // `board[row][col] = 0` after a failed call: the search hands
        // `next` back, so the reset board is `b` again.
        PutRestore(b, c, num);
        assert Put(res.board, c, 0) == b;
        TrySolution(b, c, num + 1)
    else TrySolution(b, c, num + 1)
  }

  /** A completion of the board with one more digit placed at an empty
      cell completes the original board as well. */
  lemma StepSound(b: Board, c: Cell, num: int, s: Board)
    requires IsBoard(b) && InGrid(c) && At(b, c) == 0 && 1 <= num <= 9 && IsBoard(s)
    requires Extends(s, Put(b, c, num)) && DigitsIn(s, Put(b, c, num))
    ensures Extends(s, b) && DigitsIn(s, b)
  {
    var next := Put(b, c, num);
    assert At(s, c) == num;
    forall d | InGrid(d) && At(b, d) == 0
      ensures 1 <= At(s, d) <= 9
    {
      if d != c {
        assert At(next, d) == 0;
      }
    }
  }

  /** Every cell that is blank in `b` holds, in `s`, a value no peer of it
      repeats. */
  ghost predicate PlacedSafe(s: Board, b: Board)
    requires IsBoard(s) && IsBoard(b)
  {
    forall c :: InGrid(c) && At(b, c) == 0 ==> NoClashAt(s, c)
  }

  /** Placing a safe `num` at the blank `c` and then completing the rest
      without clashes at the remaining blanks leaves no clash at any blank
      of `b`, `c` included. */
  lemma PlacedSafeStep(b: Board, c: Cell, num: int, s: Board)
    requires IsBoard(b) && InGrid(c) && At(b, c) == 0 && Safe(b, c, num) && IsBoard(s)
    requires Extends(s, Put(b, c, num)) && PlacedSafe(s, Put(b, c, num))
    ensures PlacedSafe(s, b)
  {
    var next := Put(b, c, num);
    SafeNonZero(b, c, num);
    assert At(next, c) == num;
    forall d | InGrid(d) && At(b, d) == 0
      ensures NoClashAt(s, d)
    {
      if d == c {
        forall e | InGrid(e) && Peers(c, e)
          ensures At(s, c) != At(s, e)
        {
          if At(b, e) != 0 {
            assert At(next, e) == At(b, e);
            assert Value(b, e.0, e.1) != num;
          } else {
            assert At(next, e) == 0;
            assert NoClashAt(s, e) && Peers(e, c);
          }
        }
      } else {
        assert At(next, d) == 0;
      }
    }
  }

  /** A board `get_solution` returns is full, keeps the givens, holds digits
      in every blank, repeats no value between a filled-in blank and its
      peers, and has no repeated value anywhere when the input had none. */
  lemma {:induction false} GetSolutionSound(b: Board, start: Cell)
    requires IsBoard(b) && InGrid(start) && FilledBefore(b, start)
    ensures var r := GetSolution(b, start);
            r.result.Some? ==> Full(r.board) && Extends(r.board, b) && DigitsIn(r.board, b)
                               && PlacedSafe(r.board, b) && (Consistent(b) ==> Consistent(r.board))
    decreases 81 - NextPos(b, start), 1
  {
    match FirstEmptyFrom(b, start)
    case None => NoEmptyLeft(b, start);
    case Some(c) =>
      FirstEmptySkips(b, start);
      TrySolutionSound(b, c, 1);
  }

  lemma {:induction false} TrySolutionSound(b: Board, c: Cell, num: int)
    requires IsBoard(b) && InGrid(c) && At(b, c) == 0 && FilledBefore(b, c) && 1 <= num <= 10
    ensures var r := TrySolution(b, c, num);
            r.result.Some? ==> Full(r.board) && Extends(r.board, b) && DigitsIn(r.board, b)
                               && PlacedSafe(r.board, b) && (Consistent(b) ==> Consistent(r.board))
    decreases 81 - Pos(c), 0, 10 - num
  {
    if num < 10 {
      if Safe(b, c, num) {
        var next := Put(b, c, num);
        FillMovesOn(b, c, num);
        PutEmpty(b, c, num);
        var res := GetSolution(next, c);
        if res.result.Some? {
          GetSolutionSound(next, c);
          StepSound(b, c, num, res.board);
          PlacedSafeStep(b, c, num, res.board);
          SafePutConsistent(b, c, num);
        } else {
          PutRestore(b, c, num);
          TrySolutionSound(b, c, num + 1);
        }
      } else {
        TrySolutionSound(b, c, num + 1);
      }
    }
  }

  /** A placed value that agrees with a completion keeps it a completion. */
  lemma CompletesPut(b: Board, c: Cell, s: Board)
    requires IsBoard(b) && InGrid(c) && At(b, c) == 0 && Completes(s, b)
    ensures Completes(s, Put(b, c, At(s, c)))
    ensures Safe(b, c, At(s, c))
  {
    var v := At(s, c);
    forall i, j | 0 <= i < 9 && 0 <= j < 9 && Related(c, (i, j))
      ensures b[i][j] != v
    {
      if (i, j) != c && b[i][j] != 0 {
        assert At(b, (i, j)) == At(s, (i, j));
      }
    }
  }

  /** `get_solution` fails only when the puzzle has no completion. */
  lemma {:induction false} GetSolutionComplete(b: Board, start: Cell, s: Board)
    requires IsBoard(b) && InGrid(start) && Completes(s, b)
    ensures GetSolution(b, start).result.Some?
    decreases 81 - NextPos(b, start), 1
  {
    match FirstEmptyFrom(b, start)
    case None =>
    case Some(c) => TrySolutionComplete(b, c, 1, s);
  }

  lemma {:induction false} TrySolutionComplete(b: Board, c: Cell, num: int, s: Board)
    requires IsBoard(b) && InGrid(c) && At(b, c) == 0 && 1 <= num <= 10
    requires Completes(s, b) && num <= At(s, c)
    ensures TrySolution(b, c, num).result.Some?
    decreases 81 - Pos(c), 0, 10 - num
  {
    var v := At(s, c);
    CompletesPut(b, c, s);
    if Safe(b, c, num) {
      var next := Put(b, c, num);
      FillMovesOn(b, c, num);
      TrySolutionSafe(b, c, num);
      if num == v {
        GetSolutionComplete(next, c, s);
      } else {
        TrySolutionComplete(b, c, num + 1, s);
      }
    } else {
      TrySolutionComplete(b, c, num + 1, s);
    }
  }

  /** `solvable(board, i, j)`: the same search driven by the candidate list
      of the cell, answering only yes or no. */
  function Solvable(b: Board, start: Cell): (r: Searched<bool>)
    requires IsBoard(b) && InGrid(start)
    ensures IsBoard(r.board)
    ensures !r.result ==> r.board == b
    decreases 81 - NextPos(b, start), 1
  {
    match FirstEmptyFrom(b, start)
    case None => Searched(true, b)
    case Some(c) => TryCandidates(b, c, PossibleValues(b, c))
  }

  /** The `for num in get_possible_values(...)` loop of `solvable`, with the
      redundant `is_safe` test it repeats. */
  function TryCandidates(b: Board, c: Cell, cands: seq<int>): (r: Searched<bool>)
    requires IsBoard(b) && InGrid(c) && At(b, c) == 0
    ensures IsBoard(r.board)
    ensures !r.result ==> r.board == b
    decreases 81 - Pos(c), 0, |cands|
  {
    if |cands| == 0 then Searched(false, b)
    else
      var num := cands[0];
      if Safe(b, c, num) then
        SafeNonZero(b, c, num);
        var next := Put(b, c, num);
        FillMovesOn(b, c, num);
        var res := Solvable(next, c);
        if res.result then res
        else
          PutRestore(b, c, num);
          TryCandidates(Put(res.board, c, 0), c, cands[1..])
      else TryCandidates(b, c, cands[1..])
  }

  /** `solvable` succeeds exactly when `get_solution` does, and the two
      leave the same board behind. */
  ghost predicate SearchesAgree(b: Board, start: Cell)
    requires IsBoard(b) && InGrid(start)
  {
    Solvable(b, start).result == GetSolution(b, start).result.Some?
    && Solvable(b, start).board == GetSolution(b, start).board
  }

  /** The same for the two loops at the empty cell `c`, from digit `num` on. */
  ghost predicate LoopsAgree(b: Board, c: Cell, num: int)
    requires IsBoard(b) && InGrid(c) && At(b, c) == 0 && 1 <= num <= 10
  {
    TryCandidates(b, c, SafeFrom(b, c, num)).result == TrySolution(b, c, num).result.Some?
    && TryCandidates(b, c, SafeFrom(b, c, num)).board == TrySolution(b, c, num).board
  }

  /** `solvable` and `get_solution` try the same digits in the same order. */
  lemma {:induction false} SolvableAgrees(b: Board, start: Cell)
    requires IsBoard(b) && InGrid(start)
    ensures SearchesAgree(b, start)
    decreases 81 - NextPos(b, start), 1
  {
    match FirstEmptyFrom(b, start)
    case None =>
    case Some(c) => TryAgrees(b, c, 1);
  }

  /** One turn of the `get_solution` loop at a safe digit. */
  lemma TrySolutionSafe(b: Board, c: Cell, num: int)
    requires IsBoard(b) && InGrid(c) && At(b, c) == 0 && 1 <= num < 10
    requires Safe(b, c, num)
    ensures var res := GetSolution(Put(b, c, num), c);
            TrySolution(b, c, num) == if res.result.Some? then res else TrySolution(b, c, num + 1)
  {
    PutRestore(b, c, num);
  }

  /** One turn of the `solvable` loop at a safe head candidate. */
  lemma TryCandidatesSafe(b: Board, c: Cell, cands: seq<int>)
    requires IsBoard(b) && InGrid(c) && At(b, c) == 0 && |cands| > 0
    requires Safe(b, c, cands[0])
    ensures var res := Solvable(Put(b, c, cands[0]), c);
            TryCandidates(b, c, cands) == if res.result then res else TryCandidates(b, c, cands[1..])
  {
    PutRestore(b, c, cands[0]);
  }

  /** The safe digits from n on are n itself (when safe) followed by the
      safe digits from n+1 on. */
  lemma SafeFromTail(b: Board, c: Cell, n: int)
    requires IsBoard(b) && InGrid(c) && 1 <= n < 10
    ensures Safe(b, c, n) ==> |SafeFrom(b, c, n)| > 0 && SafeFrom(b, c, n)[0] == n && SafeFrom(b, c, n)[1..] == SafeFrom(b, c, n + 1)
    ensures !Safe(b, c, n) ==> SafeFrom(b, c, n) == SafeFrom(b, c, n + 1)
  {
    if !Safe(b, c, n) {
      assert [] + SafeFrom(b, c, n + 1) == SafeFrom(b, c, n + 1);
    }
  }

  /** Agreement at a safe digit follows from agreement one level down and
      agreement at the next digit. */
  lemma AgreeStep(b: Board, c: Cell, num: int)
    requires IsBoard(b) && InGrid(c) && At(b, c) == 0 && 1 <= num < 10
    requires Safe(b, c, num) && SearchesAgree(Put(b, c, num), c) && LoopsAgree(b, c, num + 1)
    ensures LoopsAgree(b, c, num)
  {
    SafeFromTail(b, c, num);
    TrySolutionSafe(b, c, num);
    TryCandidatesSafe(b, c, SafeFrom(b, c, num));
  }

  lemma {:induction false} TryAgrees(b: Board, c: Cell, num: int)
    requires IsBoard(b) && InGrid(c) && At(b, c) == 0 && 1 <= num <= 10
    ensures LoopsAgree(b, c, num)
    decreases 81 - Pos(c), 0, 10 - num, 1
  {
    if num == 10 {
      assert SafeFrom(b, c, num) == [];
    } else if Safe(b, c, num) {
      AgreeSafeCase(b, c, num);
    } else {
      AgreeUnsafeCase(b, c, num);
    }
  }

  lemma {:induction false} AgreeSafeCase(b: Board, c: Cell, num: int)
    requires IsBoard(b) && InGrid(c) && At(b, c) == 0 && 1 <= num < 10 && Safe(b, c, num)
    ensures LoopsAgree(b, c, num)
    decreases 81 - Pos(c), 0, 10 - num, 0
  {
    FillMovesOn(b, c, num);
    SolvableAgrees(Put(b, c, num), c);
    TryAgrees(b, c, num + 1);
    AgreeStep(b, c, num);
  }

  lemma {:induction false} AgreeUnsafeCase(b: Board, c: Cell, num: int)
    requires IsBoard(b) && InGrid(c) && At(b, c) == 0 && 1 <= num < 10 && !Safe(b, c, num)
    ensures LoopsAgree(b, c, num)
    decreases 81 - Pos(c), 0, 10 - num, 0
  {
    SafeFromTail(b, c, num);
    TryAgrees(b, c, num + 1);
    CountFromUnsafe(b, c, num, 0, 1);
  }

  /** `get_number_of_solutions(board, i, j, max_solutions)`: the board is
      always given back unchanged, and a board with nothing left to fill
      counts as one solution. */
  function CountSolutions(b: Board, start: Cell, maxSolutions: int): (r: Searched<int>)
    requires IsBoard(b) && InGrid(start)
    ensures r.board == b
    decreases 81 - NextPos(b, start), 1
  {
    match FirstEmptyFrom(b, start)
    case None => Searched(1, b)
    case Some(c) => CountFrom(b, c, 1, 0, maxSolutions)
  }

  /** The counting loop from `num` on with `count` solutions found so far:
      it returns as soon as the total reaches `maxSolutions`. */
  function CountFrom(b: Board, c: Cell, num: int, count: int, maxSolutions: int): (r: Searched<int>)
    requires IsBoard(b) && InGrid(c) && At(b, c) == 0 && 1 <= num <= 10
    ensures r.board == b
    decreases 81 - Pos(c), 0, 10 - num
  {
    if num == 10 then Searched(count, b)
    else if Safe(b, c, num) then
      var next := Put(b, c, num);
      FillMovesOn(b, c, num);
      var res := CountSolutions(next, c, maxSolutions);
      // `board[i][j] = 0` after the call: the search hands `next` back, so
      // the reset board is `b` again.
      PutRestore(b, c, num);
      assert Put(res.board, c, 0) == b;
      var total := count + res.result;
      if total >= maxSolutions then Searched(total, b)
      else CountFrom(b, c, num + 1, total, maxSolutions)
    else CountFrom(b, c, num + 1, count, maxSolutions)
  }

  /** Counts never go negative: a search counts at least zero solutions. */
  lemma {:induction false} CountSolutionsNonNegative(b: Board, start: Cell, maxSolutions: int)
    requires IsBoard(b) && InGrid(start)
    ensures CountSolutions(b, start, maxSolutions).result >= 0
    decreases 81 - NextPos(b, start), 1
  {
    match FirstEmptyFrom(b, start)
    case None =>
    case Some(c) => CountFromAtLeast(b, c, 1, 0, maxSolutions);
  }

  /** The counting loop only ever adds to the running total. */
  lemma {:induction false} CountFromAtLeast(b: Board, c: Cell, num: int, count: int, maxSolutions: int)
    requires IsBoard(b) && InGrid(c) && At(b, c) == 0 && 1 <= num <= 10
    ensures CountFrom(b, c, num, count, maxSolutions).result >= count
    decreases 81 - Pos(c), 0, 10 - num, 2
  {
    if num < 10 && Safe(b, c, num) {
      AtLeastSafeCase(b, c, num, count, maxSolutions);
    } else if num < 10 {
      CountFromUnsafe(b, c, num, count, maxSolutions);
      CountFromAtLeast(b, c, num + 1, count, maxSolutions);
    }
  }

  lemma {:induction false} AtLeastSafeCase(b: Board, c: Cell, num: int, count: int, maxSolutions: int)
    requires IsBoard(b) && InGrid(c) && At(b, c) == 0 && 1 <= num < 10 && Safe(b, c, num)
    ensures CountFrom(b, c, num, count, maxSolutions).result >= count
    decreases 81 - Pos(c), 0, 10 - num, 1
  {
    FillMovesOn(b, c, num);
    CountSolutionsNonNegative(Put(b, c, num), c, maxSolutions);
    if count + CountSolutions(Put(b, c, num), c, maxSolutions).result >= maxSolutions {
      CountFromStop(b, c, num, count, maxSolutions);
    } else {
      AtLeastGo(b, c, num, count, maxSolutions, CountSolutions(Put(b, c, num), c, maxSolutions).result);
    }
  }

  /** `AtLeastSafeCase` below the cap, with the sub-count `sub` found one
      level down. */
  lemma {:induction false} AtLeastGo(b: Board, c: Cell, num: int, count: int, maxSolutions: int, sub: int)
    requires IsBoard(b) && InGrid(c) && At(b, c) == 0 && 1 <= num < 10 && Safe(b, c, num)
    requires sub == CountSolutions(Put(b, c, num), c, maxSolutions).result
    requires sub >= 0 && count + sub < maxSolutions
    ensures CountFrom(b, c, num, count, maxSolutions).result >= count
    decreases 81 - Pos(c), 0, 10 - num, 0
  {
    CountFromGoWith(b, c, num, count, maxSolutions, sub);
    CountFromAtLeast(b, c, num + 1, count + sub, maxSolutions);
  }

  /** The count is positive exactly when `get_solution` finds a solution. */
  ghost predicate CountMatches(b: Board, start: Cell, maxSolutions: int)
    requires IsBoard(b) && InGrid(start)
  {
    CountSolutions(b, start, maxSolutions).result > 0 <==> GetSolution(b, start).result.Some?
  }

  /** The same for the two loops at the empty cell `c`, from digit `num` on
      with `count` solutions already found. */
  ghost predicate LoopCountMatches(b: Board, c: Cell, num: int, count: int, maxSolutions: int)
    requires IsBoard(b) && InGrid(c) && At(b, c) == 0 && 1 <= num <= 10
  {
    CountFrom(b, c, num, count, maxSolutions).result > 0 <==> count > 0 || TrySolution(b, c, num).result.Some?
  }

  /** With a cap of at least one, the count is positive exactly when the
      board is solvable. */
  lemma {:induction false} CountPositive(b: Board, start: Cell, maxSolutions: int)
    requires IsBoard(b) && InGrid(start) && maxSolutions >= 1
    ensures CountMatches(b, start, maxSolutions)
    decreases 81 - NextPos(b, start), 1
  {
    match FirstEmptyFrom(b, start)
    case None =>
    case Some(c) => CountFromPositive(b, c, 1, 0, maxSolutions);
  }

  /** A board with no blank left counts as exactly one solution, whatever
      the cap and the start. */
  lemma CountFull(b: Board, start: Cell, maxSolutions: int)
    requires IsBoard(b) && InGrid(start) && Full(b)
    ensures CountSolutions(b, start, maxSolutions).result == 1
  {
    match FirstEmptyFrom(b, start)
    case None =>
    case Some(c) => assert false;
  }

  /** One turn of the counting loop at a safe digit that reaches the cap:
      the loop stops with the total and the board as it was. */
  lemma CountFromStop(b: Board, c: Cell, num: int, count: int, maxSolutions: int)
    requires IsBoard(b) && InGrid(c) && At(b, c) == 0 && 1 <= num < 10
    requires Safe(b, c, num)
    requires count + CountSolutions(Put(b, c, num), c, maxSolutions).result >= maxSolutions
    ensures CountFrom(b, c, num, count, maxSolutions).result
              == count + CountSolutions(Put(b, c, num), c, maxSolutions).result
  {
  }

  /** One turn of the counting loop at a safe digit below the cap: the loop
      goes on at the next digit with the new total on the restored board. */
  lemma {:induction false} CountFromGo(b: Board, c: Cell, num: int, count: int, maxSolutions: int)
    requires IsBoard(b) && InGrid(c) && At(b, c) == 0 && 1 <= num < 10
    requires Safe(b, c, num)
    requires count + CountSolutions(Put(b, c, num), c, maxSolutions).result < maxSolutions
    ensures CountFrom(b, c, num, count, maxSolutions).result
              == CountFrom(b, c, num + 1, count + CountSolutions(Put(b, c, num), c, maxSolutions).result, maxSolutions).result
  {
    var sub := CountSolutions(Put(b, c, num), c, maxSolutions).result;
    CountFromGoWith(b, c, num, count, maxSolutions, sub);
  }

  lemma {:induction false} CountFromGoWith(b: Board, c: Cell, num: int, count: int, maxSolutions: int, sub: int)
    requires IsBoard(b) && InGrid(c) && At(b, c) == 0 && 1 <= num < 10
    requires Safe(b, c, num)
    requires sub == CountSolutions(Put(b, c, num), c, maxSolutions).result
    requires count + sub < maxSolutions
    ensures CountFrom(b, c, num, count, maxSolutions).result == CountFrom(b, c, num + 1, count + sub, maxSolutions).result
  {
  }

  /** Positivity at a safe digit follows from positivity one level down and
      at the next digit. */
  lemma CountStep(b: Board, c: Cell, num: int, count: int, maxSolutions: int)
    requires IsBoard(b) && InGrid(c) && At(b, c) == 0 && 1 <= num < 10
    requires count >= 0 && maxSolutions >= 1 && Safe(b, c, num)
    requires CountMatches(Put(b, c, num), c, maxSolutions)
    requires LoopCountMatches(b, c, num + 1, count + CountSolutions(Put(b, c, num), c, maxSolutions).result, maxSolutions)
    ensures LoopCountMatches(b, c, num, count, maxSolutions)
  {
    var sub := CountSolutions(Put(b, c, num), c, maxSolutions).result;
    FillMovesOn(b, c, num);
    CountSolutionsNonNegative(Put(b, c, num), c, maxSolutions);
    if count + sub >= maxSolutions {
      CountStepStop(b, c, num, count, maxSolutions);
    } else {
      CountStepGo(b, c, num, count, maxSolutions);
    }
  }

  /** `CountStep` when the cap is reached at `num`. */
  lemma CountStepStop(b: Board, c: Cell, num: int, count: int, maxSolutions: int)
    requires IsBoard(b) && InGrid(c) && At(b, c) == 0 && 1 <= num < 10
    requires count >= 0 && maxSolutions >= 1 && Safe(b, c, num)
    requires CountMatches(Put(b, c, num), c, maxSolutions)
    requires count + CountSolutions(Put(b, c, num), c, maxSolutions).result >= maxSolutions
    ensures LoopCountMatches(b, c, num, count, maxSolutions)
  {
    TrySolutionSafe(b, c, num);
    CountFromStop(b, c, num, count, maxSolutions);
  }

  /** `CountStep` when the loop goes on below the cap. */
  lemma {:induction false} CountStepGo(b: Board, c: Cell, num: int, count: int, maxSolutions: int)
    requires IsBoard(b) && InGrid(c) && At(b, c) == 0 && 1 <= num < 10
    requires count >= 0 && maxSolutions >= 1 && Safe(b, c, num)
    requires CountSolutions(Put(b, c, num), c, maxSolutions).result >= 0
    requires CountMatches(Put(b, c, num), c, maxSolutions)
    requires count + CountSolutions(Put(b, c, num), c, maxSolutions).result < maxSolutions
    requires LoopCountMatches(b, c, num + 1, count + CountSolutions(Put(b, c, num), c, maxSolutions).result, maxSolutions)
    ensures LoopCountMatches(b, c, num, count, maxSolutions)
  {
    var sub := CountSolutions(Put(b, c, num), c, maxSolutions).result;
    GoShift(b, c, num, count, maxSolutions);
    TrySolutionSafe(b, c, num);
    GoLogic(CountFrom(b, c, num, count, maxSolutions).result, count, sub, GetSolution(Put(b, c, num), c).result.Some?,
            TrySolution(b, c, num).result.Some?, TrySolution(b, c, num + 1).result.Some?);
  }

  /** Below the cap the loop at `num` counts what the loop at `num + 1`
      counts, so its positivity is read off there. */
  lemma {:induction false} GoShift(b: Board, c: Cell, num: int, count: int, maxSolutions: int)
    requires IsBoard(b) && InGrid(c) && At(b, c) == 0 && 1 <= num < 10 && Safe(b, c, num)
    requires count + CountSolutions(Put(b, c, num), c, maxSolutions).result < maxSolutions
    requires LoopCountMatches(b, c, num + 1, count + CountSolutions(Put(b, c, num), c, maxSolutions).result, maxSolutions)
    ensures (CountFrom(b, c, num, count, maxSolutions).result > 0)
        <==> (count + CountSolutions(Put(b, c, num), c, maxSolutions).result > 0 || TrySolution(b, c, num + 1).result.Some?)
  {
    CountFromGo(b, c, num, count, maxSolutions);
  }

  /** The propositional core of `CountStepGo`. */
  lemma GoLogic(here: int, count: int, sub: int, found: bool, now: bool, later: bool)
    requires count >= 0 && sub >= 0 && (sub > 0 <==> found) && now == (found || later)
    requires here > 0 <==> count + sub > 0 || later
    ensures here > 0 <==> count > 0 || now
  {
  }

  lemma {:induction false} CountFromPositive(b: Board, c: Cell, num: int, count: int, maxSolutions: int)
    requires IsBoard(b) && InGrid(c) && At(b, c) == 0 && 1 <= num <= 10
    requires count >= 0 && maxSolutions >= 1
    ensures LoopCountMatches(b, c, num, count, maxSolutions)
    decreases 81 - Pos(c), 0, 10 - num, 2
  {
    if num < 10 && Safe(b, c, num) {
      CountSafeCase(b, c, num, count, maxSolutions);
    } else if num < 10 {
      CountUnsafeCase(b, c, num, count, maxSolutions);
    }
  }

  lemma {:induction false} CountSafeCase(b: Board, c: Cell, num: int, count: int, maxSolutions: int)
    requires IsBoard(b) && InGrid(c) && At(b, c) == 0 && 1 <= num < 10
    requires count >= 0 && maxSolutions >= 1 && Safe(b, c, num)
    ensures LoopCountMatches(b, c, num, count, maxSolutions)
    decreases 81 - Pos(c), 0, 10 - num, 1
  {
    var next := Put(b, c, num);
    FillMovesOn(b, c, num);
    CountSolutionsNonNegative(next, c, maxSolutions);
    var sub := CountSolutions(next, c, maxSolutions).result;
    CountFromPositive(b, c, num + 1, count + sub, maxSolutions);
    CountSafeBelow(b, c, num, count, maxSolutions);
  }

  /** `CountSafeCase` once the loop from the next digit is settled: the
      search one level down settles the rest. */
  lemma {:induction false} CountSafeBelow(b: Board, c: Cell, num: int, count: int, maxSolutions: int)
    requires IsBoard(b) && InGrid(c) && At(b, c) == 0 && 1 <= num < 10
    requires count >= 0 && maxSolutions >= 1 && Safe(b, c, num)
    requires LoopCountMatches(b, c, num + 1, count + CountSolutions(Put(b, c, num), c, maxSolutions).result, maxSolutions)
    ensures LoopCountMatches(b, c, num, count, maxSolutions)
    decreases 81 - Pos(c), 0, 10 - num, 0
  {
    FillMovesOn(b, c, num);
    CountPositive(Put(b, c, num), c, maxSolutions);
    CountStep(b, c, num, count, maxSolutions);
  }

  lemma {:induction false} CountUnsafeCase(b: Board, c: Cell, num: int, count: int, maxSolutions: int)
    requires IsBoard(b) && InGrid(c) && At(b, c) == 0 && 1 <= num < 10
    requires count >= 0 && maxSolutions >= 1 && !Safe(b, c, num)
    ensures LoopCountMatches(b, c, num, count, maxSolutions)
    decreases 81 - Pos(c), 0, 10 - num, 0
  {
    CountFromPositive(b, c, num + 1, count, maxSolutions);
    CountFromUnsafe(b, c, num, count, maxSolutions);
  }

  /** One turn of the counting loop (and of the `get_solution` loop) at an
      unsafe digit: both move on to the next digit. */
  lemma CountFromUnsafe(b: Board, c: Cell, num: int, count: int, maxSolutions: int)
    requires IsBoard(b) && InGrid(c) && At(b, c) == 0 && 1 <= num < 10
    requires !Safe(b, c, num)
    ensures CountFrom(b, c, num, count, maxSolutions) == CountFrom(b, c, num + 1, count, maxSolutions)
    ensures TrySolution(b, c, num) == TrySolution(b, c, num + 1)
  {
  }
}
