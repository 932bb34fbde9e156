/** The propagation-plus-search solver behind the arc-backtracking endpoint:
    choosing the cell to branch on, turning the propagation log into viewer
    steps, and the search that re-runs propagation at every level. */
module Solver {
  import opened Wrappers
  import opened Grid
  import opened Events
  import opened Backtracking
  import opened Arc
  import opened Overlay

  // ---------------------------------------------------------------------
  // Choosing the branching cell

  /** The scan both pickers run: row-major from `p`, skipping cells that are
      not `eligible`, taking a cell only when its `size` is strictly below
      the best so far, and returning at once when the new best has size 1. */
  function PickFrom(eligible: Cell -> bool, size: Cell -> int, p: Cell, best: Option<Cell>): Option<Cell>
    requires InScan(p)
    decreases 81 - Pos(p)
  {
    if !InGrid(p) then best
    else if eligible(p) && (best.None? || size(p) < size(best.value)) then
      if size(p) == 1 then Some(p) else PickFrom(eligible, size, Next(p), Some(p))
    else PickFrom(eligible, size, Next(p), best)
  }

  /** Reference meaning of a pick: nothing when no cell is eligible;
      otherwise an eligible cell smaller than every eligible cell before it
      and, unless the scan stopped early at size 1, no larger than any. */
  ghost predicate FirstSmallest(eligible: Cell -> bool, size: Cell -> int, r: Option<Cell>) {
    match r
    case None => forall c :: InGrid(c) ==> !eligible(c)
    case Some(x) =>
      InGrid(x) && eligible(x)
      && (forall c :: InGrid(c) && eligible(c) && Before(c, x) ==> size(c) > size(x))
      && (size(x) != 1 ==> forall c :: InGrid(c) && eligible(c) ==> size(c) >= size(x))
  }

  /** What the scan knows on reaching `p` with `best`. */
  ghost predicate ScannedTo(eligible: Cell -> bool, size: Cell -> int, p: Cell, best: Option<Cell>) {
    match best
    case None => forall c :: InGrid(c) && Before(c, p) ==> !eligible(c)
    case Some(x) =>
      InGrid(x) && Before(x, p) && eligible(x) && size(x) != 1
      && (forall c :: InGrid(c) && eligible(c) && Before(c, x) ==> size(c) > size(x))
      && (forall c :: InGrid(c) && eligible(c) && Before(c, p) ==> size(c) >= size(x))
  }

  lemma {:induction false} PickFromFinds(eligible: Cell -> bool, size: Cell -> int, p: Cell, best: Option<Cell>)
    requires InScan(p) && ScannedTo(eligible, size, p, best)
    ensures FirstSmallest(eligible, size, PickFrom(eligible, size, p, best))
    decreases 81 - Pos(p)
  {
    if InGrid(p) {
      if eligible(p) && (best.None? || size(p) < size(best.value)) {
        if size(p) != 1 {
          PickFromFinds(eligible, size, Next(p), Some(p));
        }
      } else {
        PickFromFinds(eligible, size, Next(p), best);
      }
    }
  }

  /** The scan from the top-left corner with nothing found yet. */
  lemma PickFinds(eligible: Cell -> bool, size: Cell -> int)
    ensures FirstSmallest(eligible, size, PickFrom(eligible, size, (0, 0), None))
  {
    PickFromFinds(eligible, size, (0, 0), None);
  }

  /** `_find_best_empty_cell`: an empty cell with the fewest legal values
      and those values, or nothing on a full board. */
  function BestEmptyCell(b: Board): (r: (Option<Cell>, seq<int>))
    requires IsBoard(b)
    ensures r.0.None? <==> Full(b)
    ensures r.0.None? ==> r.1 == []
    ensures r.0.Some? ==>
              var c := r.0.value;
              InGrid(c) && At(b, c) == 0 && r.1 == PossibleValues(b, c)
              && (forall d :: InGrid(d) && At(b, d) == 0 && Before(d, c) ==> |PossibleValues(b, d)| > |r.1|)
              && (|r.1| != 1 ==> forall d :: InGrid(d) && At(b, d) == 0 ==> |PossibleValues(b, d)| >= |r.1|)
  {
    var eligible := (c: Cell) => InGrid(c) && At(b, c) == 0;
    var size := (c: Cell) => if InGrid(c) then |PossibleValues(b, c)| else 0;
    var cell := PickFrom(eligible, size, (0, 0), None);
    PickFinds(eligible, size);
    (cell, if cell.Some? then PossibleValues(b, cell.value) else [])
  }

  /** `_find_best_cell_from_domains`: an empty cell with the smallest
      non-empty candidate set, and that set listed in `order` (Python's
      `list(set)`, whose order the model leaves open). */
  function BestCellFromDomains(b: Board, d: Candidates, order: set<int> -> seq<int>): (r: (Option<Cell>, seq<int>))
    requires IsBoard(b) && Covers(d)
    ensures r.0.None? <==> forall c :: InGrid(c) && At(b, c) == 0 ==> d[c] == {}
    ensures r.0.None? ==> r.1 == []
    ensures r.0.Some? ==>
              var c := r.0.value;
              InGrid(c) && At(b, c) == 0 && d[c] != {} && r.1 == order(d[c])
              && (forall e :: InGrid(e) && At(b, e) == 0 && d[e] != {} && Before(e, c) ==> |d[e]| > |d[c]|)
              && (|d[c]| != 1 ==> forall e :: InGrid(e) && At(b, e) == 0 && d[e] != {} ==> |d[e]| >= |d[c]|)
  {
    var eligible := (c: Cell) => InGrid(c) && At(b, c) == 0 && c in d && |d[c]| > 0;
    var size := (c: Cell) => if c in d then |d[c]| else 0;
    var cell := PickFrom(eligible, size, (0, 0), None);
    PickFinds(eligible, size);
    (cell, if cell.Some? then order(d[cell.value]) else [])
  }

  // ---------------------------------------------------------------------
  // From the propagation log to viewer steps

  /** A propagation log entry as the viewer's step: a removal becomes an
      `arc` step, an inference an `arc_inferred` step. */
  function Relabel(s: RawStep): Event {
    match s
    case Removal(from, to, value) => Event.Arc(from, to, value)
    case Inference(cell, value) => ArcInferred(cell, value)
  }

  /** The whole log relabelled, entry by entry. */
  function ArcEvents(steps: seq<RawStep>): (r: seq<Event>)
    ensures |r| == |steps|
    ensures forall k :: 0 <= k < |steps| ==> r[k] == Relabel(steps[k])
  {
    if steps == [] then [] else [Relabel(steps[0])] + ArcEvents(steps[1..])
  }

  /** `_apply_arc`'s relabelling as written: every entry is read through
      its `from`, `to` and `value` keys, and an inference has no `from`, so
      the first inference raises `KeyError`. */
  function RelabelAsWritten(steps: seq<RawStep>): Result<seq<Event>, string> {
    if steps == [] then Success([])
    else
      match steps[0]
      case Inference(_, _) => Failure("KeyError: 'from'")
      case Removal(from, to, value) =>
        match RelabelAsWritten(steps[1..])
        case Failure(e) => Failure(e)
        case Success(rest) => Success([Event.Arc(from, to, value)] + rest)
  }

  /** The relabelling as written fails exactly when the log holds an
      inference, and otherwise agrees with `ArcEvents`. */
  lemma {:induction false} RelabelAsWrittenFails(steps: seq<RawStep>)
    ensures RelabelAsWritten(steps).Failure? <==> exists k :: 0 <= k < |steps| && steps[k].Inference?
    ensures RelabelAsWritten(steps).Success? ==> RelabelAsWritten(steps).value == ArcEvents(steps)
  {
    if steps != [] {
      RelabelAsWrittenFails(steps[1..]);
      if steps[0].Removal? && exists k :: 0 <= k < |steps| && steps[k].Inference? {
        var k :| 0 <= k < |steps| && steps[k].Inference?;
        assert steps[1..][k - 1].Inference?;
      }
      if RelabelAsWritten(steps).Success? {
        assert steps == [steps[0]] + steps[1..];
      }
    }
  }

  /** Whenever propagation fills in a cell, `_apply_arc` as written raises:
      the filled cell's inference is in the log. */
  lemma ApplyArcAsWrittenFails(b: Board)
    requires IsBoard(b) && Propagate(b).board != b
    ensures RelabelAsWritten(Propagate(b).steps).Failure?
  {
    var o := Propagate(b);
    PropagateLogs(b);
    if forall c :: InGrid(c) ==> At(o.board, c) == At(b, c) {
      BoardExt(o.board, b);
      assert false;
    }
    var c :| InGrid(c) && At(o.board, c) != At(b, c);
    var k :| 0 <= k < |o.steps| && o.steps[k] == Inference(c, At(o.board, c));
    RelabelAsWrittenFails(o.steps);
  }

  /** In particular every puzzle that propagation alone completes makes the
      as-written relabelling fail. */
  lemma SolvedByPropagationFails(b: Board)
    requires IsBoard(b) && !Full(b) && Propagate(b).ok && Propagate(b).complete
    ensures RelabelAsWritten(Propagate(b).steps).Failure?
  {
    PropagateSound(b);
    ApplyArcAsWrittenFails(b);
  }

  /** `_apply_arc` with the relabelling corrected: propagate, and hand the
      log over as viewer steps. */
  function ApplyArc(b: Board): (r: (Outcome, seq<Event>))
    requires IsBoard(b)
    ensures r.0 == Propagate(b) && |r.1| == |r.0.steps|
    ensures forall k :: 0 <= k < |r.1| ==>
              (r.1[k].Arc? <==> r.0.steps[k].Removal?) && (r.1[k].ArcInferred? <==> r.0.steps[k].Inference?)
  {
    var o := Propagate(b);
    (o, ArcEvents(o.steps))
  }

  // ---------------------------------------------------------------------
  // The search

  /** What `_backtrack_with_steps` returns, with the steps it appended. */
  datatype Search = Search(solved: bool, board: Board, steps: seq<Event>)

  /** Filling in cells only adds to the count of filled cells. */
  lemma {:induction false} FilledGrows(s: Board, b: Board, p: int)
    requires IsBoard(s) && IsBoard(b) && Extends(s, b) && 0 <= p <= 81
    ensures |FilledFrom(s, p)| >= |FilledFrom(b, p)|
    decreases 81 - p
  {
    if p < 81 {
      FilledGrows(s, b, p + 1);
      FilledGrowsCell(s, b, p);
    }
  }

  /** One cell of `FilledGrows`: a cell filled in `b` is filled in `s`. */
  lemma FilledGrowsCell(s: Board, b: Board, p: int)
    requires IsBoard(s) && IsBoard(b) && Extends(s, b) && 0 <= p < 81
    requires |FilledFrom(s, p + 1)| >= |FilledFrom(b, p + 1)|
    ensures |FilledFrom(s, p)| >= |FilledFrom(b, p)|
  {
    var e := (p / 9, p % 9);
    assert b[e.0][e.1] != 0 ==> s[e.0][e.1] != 0 by {
      assert b[e.0][e.1] == At(b, e) && s[e.0][e.1] == At(s, e);
    }
    var hs := if s[e.0][e.1] != 0 then [e] else [];
    var hb := if b[e.0][e.1] != 0 then [e] else [];
    assert |FilledFrom(s, p)| == |hs| + |FilledFrom(s, p + 1)|;
    assert |FilledFrom(b, p)| == |hb| + |FilledFrom(b, p + 1)|;
  }

  lemma FilledCountGrows(s: Board, b: Board)
    requires IsBoard(s) && IsBoard(b) && Extends(s, b)
    ensures FilledCount(b) <= FilledCount(s) <= 81
  {
    FilledCountScan(s);
    FilledCountScan(b);
    FilledGrows(s, b, 0);
    FilledBound(s, 0);
  }

  /** `_backtrack_with_steps(board, steps)`: propagate; stop on a failure
      or a finished board; otherwise branch on the best cell. */
  function Backtrack(b: Board, order: set<int> -> seq<int>): Search
    requires IsBoard(b)
    decreases 81 - FilledCount(b), 1
  {
    var (o, events) := ApplyArc(b);
    PropagateSound(b);
    if !o.ok then Search(false, o.board, events)
    else if o.complete then Search(true, o.board, events)
    else
      var (cell, options) := BestCellFromDomains(o.board, o.domains, order);
      if cell.None? then Search(true, o.board, events)
      else
        FilledCountGrows(o.board, b);
        var r := TryOptions(o.board, cell.value, options, order);
        Search(r.solved, r.board, events + r.steps)
  }

  /** The `for num in options` loop of `_backtrack_with_steps` at the empty
      cell `c`: each safe value is placed on a copy and searched, and a
      failed branch is followed by its revert. On failure the board is the
      one the loop started from. */
  function TryOptions(b: Board, c: Cell, opts: seq<int>, order: set<int> -> seq<int>): Search
    requires IsBoard(b) && InGrid(c) && At(b, c) == 0
    decreases 81 - FilledCount(b), 0, |opts|
  {
    if opts == [] then Search(false, b, [])
    else if !Safe(b, c, opts[0]) then TryOptions(b, c, opts[1..], order)
    else
      var num := opts[0];
      SafeNonZero(b, c, num);
      FilledCountPut(b, c, num);
      FilledCountBound(Put(b, c, num));
      var sub := Backtrack(Put(b, c, num), order);
      if sub.solved then Search(true, sub.board, [BacktrackAssign(c, num)] + sub.steps)
      else
        var rest := TryOptions(b, c, opts[1..], order);
        Search(rest.solved, rest.board,
               [BacktrackAssign(c, num)] + sub.steps + [BacktrackRevert(c, num, None)] + rest.steps)
  }

  /** What `solve` returns: the solution or nothing, the steps, and whether
      the puzzle was solved. */
  datatype Answer = Answer(solution: Option<Board>, steps: seq<Event>, solvable: bool)

  /** `solve(board)`. */
  function Solve(b: Board, order: set<int> -> seq<int>): (r: Answer)
    requires IsBoard(b)
    ensures r.solvable <==> r.solution.Some?
    ensures r.steps == Backtrack(b, order).steps
  {
    var s := Backtrack(b, order);
    if !s.solved then Answer(None, s.steps, false) else Answer(Some(s.board), s.steps, true)
  }

  /** `_backtrack_with_steps` with `_apply_arc` as written: the search
      fails with the relabelling's `KeyError` as soon as the propagation at
      any level it explores logs an inference, and the error passes up
      through every caller. */
  function BacktrackAsWritten(b: Board, order: set<int> -> seq<int>): Result<Search, string>
    requires IsBoard(b)
    decreases 81 - FilledCount(b), 1
  {
    var o := Propagate(b);
    PropagateSound(b);
    match RelabelAsWritten(o.steps)
    case Failure(e) => Failure(e)
    case Success(events) =>
      if !o.ok then Success(Search(false, o.board, events))
      else if o.complete then Success(Search(true, o.board, events))
      else
        var (cell, options) := BestCellFromDomains(o.board, o.domains, order);
        if cell.None? then Success(Search(true, o.board, events))
        else
          FilledCountGrows(o.board, b);
          match TryOptionsAsWritten(o.board, cell.value, options, order)
          case Failure(e) => Failure(e)
          case Success(r) => Success(Search(r.solved, r.board, events + r.steps))
  }

  /** The option loop of the as-written search. */
  function TryOptionsAsWritten(b: Board, c: Cell, opts: seq<int>, order: set<int> -> seq<int>): Result<Search, string>
    requires IsBoard(b) && InGrid(c) && At(b, c) == 0
    decreases 81 - FilledCount(b), 0, |opts|
  {
    if opts == [] then Success(Search(false, b, []))
    else if !Safe(b, c, opts[0]) then TryOptionsAsWritten(b, c, opts[1..], order)
    else
      var num := opts[0];
      SafeNonZero(b, c, num);
      FilledCountPut(b, c, num);
      FilledCountBound(Put(b, c, num));
      match BacktrackAsWritten(Put(b, c, num), order)
      case Failure(e) => Failure(e)
      case Success(sub) =>
        if sub.solved then Success(Search(true, sub.board, [BacktrackAssign(c, num)] + sub.steps))
        else
          match TryOptionsAsWritten(b, c, opts[1..], order)
          case Failure(e) => Failure(e)
          case Success(rest) =>
            Success(Search(rest.solved, rest.board,
                           [BacktrackAssign(c, num)] + sub.steps + [BacktrackRevert(c, num, None)] + rest.steps))
  }

  /** `solve(board)` with `_apply_arc` as written: `solve` has no handler,
      so the search's error is the call's outcome. */
  function SolveAsWritten(b: Board, order: set<int> -> seq<int>): Result<Answer, string>
    requires IsBoard(b)
  {
    match BacktrackAsWritten(b, order)
    case Failure(e) => Failure(e)
    case Success(s) =>
      Success(if !s.solved then Answer(None, s.steps, false) else Answer(Some(s.board), s.steps, true))
  }

  /** `order` lists exactly the members of each set, as `list(s)` does. */
  ghost predicate Enumerates(order: set<int> -> seq<int>) {
    forall s: set<int>, v :: v in order(s) <==> v in s
  }
  // ---------------------------------------------------------------------
  // The search finds a solution exactly when there is one

  /** Digits 1..9 are the candidate digits. */
  lemma InDigits(v: int)
    requires 1 <= v <= 9
    ensures v in Digits
  {
  }

  lemma DigitRange(v: int)
    requires v in Digits
    ensures 1 <= v <= 9
  {
  }

  /** Every cell propagation filled in holds a digit: its candidates are
      its value alone, and an empty cell starts from the digits. */
  lemma FilledWithDigits(b: Board, ob: Board, d: Candidates)
    requires IsBoard(b) && IsBoard(ob) && Covers(d) && Cands(ob, d)
    requires forall c :: InGrid(c) ==> d[c] <= InitialCandidates(At(b, c))
    ensures forall c :: InGrid(c) && At(b, c) == 0 && At(ob, c) != 0 ==> 1 <= At(ob, c) <= 9
  {
    forall c | InGrid(c) && At(b, c) == 0 && At(ob, c) != 0
      ensures 1 <= At(ob, c) <= 9
    {
      assert CandOk(ob, d, c);
      assert At(ob, c) in d[c];
    }
  }

  /** A completion of a board that extends `b`, filling the cells between
      with digits, completes `b`. */
  lemma CompletesThrough(s: Board, m: Board, b: Board)
    requires IsBoard(b) && IsBoard(m) && Completes(s, m) && Extends(m, b)
    requires forall c :: InGrid(c) && At(b, c) == 0 && At(m, c) != 0 ==> 1 <= At(m, c) <= 9
    ensures Completes(s, b)
  {
  }

  /** Where the search branches: propagation neither failed nor finished,
      and the picker chose cell `c` with `options`. */
  ghost predicate Branches(b: Board, order: set<int> -> seq<int>, c: Cell, options: seq<int>)
    requires IsBoard(b)
  {
    var o := Propagate(b);
    PropagateSound(b);
    o.ok && !o.complete && BestCellFromDomains(o.board, o.domains, order) == (Some(c), options)
  }

  /** At a branch the search's answer is the option loop's. */
  lemma BacktrackBranch(b: Board, order: set<int> -> seq<int>, c: Cell, options: seq<int>)
    requires IsBoard(b) && Branches(b, order, c, options)
    ensures var o := Propagate(b);
            IsBoard(o.board) && InGrid(c) && At(o.board, c) == 0
            && var r := TryOptions(o.board, c, options, order);
               Backtrack(b, order) == Search(r.solved, r.board, ArcEvents(o.steps) + r.steps)
  {
    PropagateSound(b);
  }

  /** A solved search returns a completion of its board (`Completes`: full,
      no clash, the givens kept, digits 1..9 in the blanks). */
  lemma {:induction false} BacktrackSound(b: Board, order: set<int> -> seq<int>)
    requires IsBoard(b) && Enumerates(order)
    ensures Backtrack(b, order).solved ==> Completes(Backtrack(b, order).board, b)
    decreases 81 - FilledCount(b), 2
  {
    var o := Propagate(b);
    PropagateSound(b);
    if o.ok {
      FilledWithDigits(b, o.board, o.domains);
      if !o.complete {
        var (cell, options) := BestCellFromDomains(o.board, o.domains, order);
        if cell.None? {
          NoPickFull(o.board, o.domains, order);
        } else {
          BranchSound(b, order, cell.value, options);
        }
      }
    }
  }

  /** With every candidate set of an empty cell holding at least two
      digits, the picker finds nothing only on a full board. */
  lemma NoPickFull(b: Board, d: Candidates, order: set<int> -> seq<int>)
    requires IsBoard(b) && Covers(d) && Cands(b, d)
    ensures BestCellFromDomains(b, d, order).0.None? ==> Full(b)
  {
    if BestCellFromDomains(b, d, order).0.None? {
      forall c | InGrid(c)
        ensures At(b, c) != 0
      {
        assert CandOk(b, d, c);
      }
    }
  }

  lemma BranchSound(b: Board, order: set<int> -> seq<int>, c: Cell, options: seq<int>)
    requires IsBoard(b) && Enumerates(order) && Branches(b, order, c, options)
    ensures Backtrack(b, order).solved ==> Completes(Backtrack(b, order).board, b)
    decreases 81 - FilledCount(b), 1
  {
    var o := Propagate(b);
    PropagateSound(b);
    BacktrackBranch(b, order, c, options);
    FilledWithDigits(b, o.board, o.domains);
    OptionsAreDigits(o.board, o.domains, order, c, options);
    FilledCountGrows(o.board, b);
    TryOptionsSound(o.board, c, options, order);
    var r := TryOptions(o.board, c, options, order);
    if r.solved {
      CompletesThrough(r.board, o.board, b);
    }
  }

  /** The options at a picked cell are digits: they list its candidates. */
  lemma OptionsAreDigits(b: Board, d: Candidates, order: set<int> -> seq<int>, c: Cell, options: seq<int>)
    requires IsBoard(b) && Covers(d) && Cands(b, d) && Enumerates(order)
    requires BestCellFromDomains(b, d, order) == (Some(c), options)
    ensures forall k :: 0 <= k < |options| ==> 1 <= options[k] <= 9
  {
    assert CandOk(b, d, c);
    assert options == order(d[c]);
    forall k | 0 <= k < |options|
      ensures 1 <= options[k] <= 9
    {
      assert options[k] in order(d[c]);
      DigitRange(options[k]);
    }
  }

  lemma {:induction false} TryOptionsSound(b: Board, c: Cell, opts: seq<int>, order: set<int> -> seq<int>)
    requires IsBoard(b) && InGrid(c) && At(b, c) == 0 && Enumerates(order)
    requires forall k :: 0 <= k < |opts| ==> 1 <= opts[k] <= 9
    ensures TryOptions(b, c, opts, order).solved ==> Completes(TryOptions(b, c, opts, order).board, b)
    decreases 81 - FilledCount(b), 0, |opts|
  {
    if opts != [] {
      if Safe(b, c, opts[0]) {
        SafeOptionSound(b, c, opts[0], order);
      }
      TryOptionsSound(b, c, opts[1..], order);
    }
  }

  /** The branch on a safe digit `num` at `c` returns, when solved, a
      completion of the board before the digit was placed. */
  lemma SafeOptionSound(b: Board, c: Cell, num: int, order: set<int> -> seq<int>)
    requires IsBoard(b) && InGrid(c) && At(b, c) == 0 && Enumerates(order)
    requires 1 <= num <= 9 && Safe(b, c, num)
    ensures Backtrack(Put(b, c, num), order).solved ==> Completes(Backtrack(Put(b, c, num), order).board, b)
    decreases 81 - FilledCount(b), 0, 0
  {
    FilledCountPut(b, c, num);
    FilledCountBound(Put(b, c, num));
    BacktrackSound(Put(b, c, num), order);
    var sub := Backtrack(Put(b, c, num), order);
    if sub.solved {
      CompletesThrough(sub.board, Put(b, c, num), b);
    }
  }

  /** A puzzle with a completion is solved: propagation keeps the
      completion among the candidates, so the branch on its value at the
      chosen cell is tried and succeeds. */
  lemma {:induction false} BacktrackComplete(b: Board, order: set<int> -> seq<int>, sol: Board)
    requires IsBoard(b) && Enumerates(order) && Completes(sol, b)
    ensures Backtrack(b, order).solved
    decreases 81 - FilledCount(b), 1
  {
    forall c | InGrid(c) && At(b, c) == 0
      ensures At(sol, c) in Digits
    {
      InDigits(At(sol, c));
    }
    PropagateKeepsSolutions(b, sol);
    PropagateSound(b);
    var o := Propagate(b);
    if !o.complete {
      var (cell, options) := BestCellFromDomains(o.board, o.domains, order);
      if cell.Some? {
        var c := cell.value;
        assert At(sol, c) in options;
        FilledCountGrows(o.board, b);
        TryOptionsComplete(o.board, c, options, order, sol);
      }
    }
  }

  lemma {:induction false} TryOptionsComplete(b: Board, c: Cell, opts: seq<int>, order: set<int> -> seq<int>, sol: Board)
    requires IsBoard(b) && InGrid(c) && At(b, c) == 0 && Enumerates(order)
    requires Completes(sol, b) && At(sol, c) in opts
    ensures TryOptions(b, c, opts, order).solved
    decreases 81 - FilledCount(b), 0, |opts|
  {
    var num := opts[0];
    if num == At(sol, c) {
      CompletesPut(b, c, sol);
      SafeNonZero(b, c, num);
      FilledCountPut(b, c, num);
      FilledCountBound(Put(b, c, num));
      BacktrackComplete(Put(b, c, num), order, sol);
    } else {
      assert At(sol, c) in opts[1..];
      if Safe(b, c, num) && Backtrack(Put(b, c, num), order).solved {
      } else {
        TryOptionsComplete(b, c, opts[1..], order, sol);
      }
    }
  }

  /** `solve` reports a puzzle solvable exactly when it has a completion,
      and the solution it returns is one. */
  lemma SolveDecides(b: Board, order: set<int> -> seq<int>)
    requires IsBoard(b) && Enumerates(order)
    ensures Solve(b, order).solvable <==> exists s :: Completes(s, b)
    ensures Solve(b, order).solvable ==> Completes(Solve(b, order).solution.value, b)
  {
    BacktrackSound(b, order);
    if exists s :: Completes(s, b) {
      var s :| Completes(s, b);
      BacktrackComplete(b, order, s);
    }
  }
  // ---------------------------------------------------------------------
  // What the viewer's overlay makes of the search steps

  /** The overlay loop over `es` started from `m` instead of the empty map. */
  function OverlayFrom(m: Assignments, es: seq<Event>): Assignments
    decreases |es|
  {
    if es == [] then m else OverlayFrom(OverlayStep(m, es[0]), es[1..])
  }

  lemma {:induction false} OverlayFromAppend(m: Assignments, a: seq<Event>, b: seq<Event>)
    ensures OverlayFrom(m, a + b) == OverlayFrom(OverlayFrom(m, a), b)
    decreases |a|
  {
    if a == [] {
      assert a + b == b;
    } else {
      assert (a + b)[0] == a[0] && (a + b)[1..] == a[1..] + b;
      OverlayFromAppend(OverlayStep(m, a[0]), a[1..], b);
    }
  }

  /** The viewer's overlay of a step prefix is the loop from the empty map. */
  lemma {:induction false} OverlayOfFrom(es: seq<Event>)
    ensures OverlayOf(es) == OverlayFrom(map[], es)
    decreases |es|
  {
    if es != [] {
      var n := |es| - 1;
      OverlayOfFrom(es[..n]);
      OverlayFromAppend(map[], es[..n], [es[n]]);
      assert es[..n] + [es[n]] == es;
    }
  }

  /** Propagation steps never touch the overlay. */
  lemma {:induction false} ArcEventsKeepOverlay(m: Assignments, steps: seq<RawStep>)
    ensures OverlayFrom(m, ArcEvents(steps)) == m
    decreases |steps|
  {
    if steps != [] {
      assert ArcEvents(steps)[1..] == ArcEvents(steps[1..]);
      ArcEventsKeepOverlay(m, steps[1..]);
    }
  }

  /** No cell the search may still assign (an empty cell of `b`) is in
      the overlay. */
  ghost predicate Clear(m: Assignments, b: Board)
    requires IsBoard(b)
  {
    forall c :: c in m && InGrid(c) ==> At(b, c) != 0
  }

  /** A failed search leaves the overlay as it found it: each assignment
      it made is followed, after its sub-search, by a revert of the same
      cell. */
  lemma {:induction false} FailedSearchRestores(b: Board, order: set<int> -> seq<int>, m: Assignments)
    requires IsBoard(b) && Clear(m, b)
    ensures !Backtrack(b, order).solved ==> OverlayFrom(m, Backtrack(b, order).steps) == m
    decreases 81 - FilledCount(b), 2
  {
    var o := Propagate(b);
    PropagateSound(b);
    if o.ok && !o.complete {
      var (cell, options) := BestCellFromDomains(o.board, o.domains, order);
      if cell.Some? {
        BranchRestores(b, order, cell.value, options, m);
      }
    } else if !o.ok {
      ArcEventsKeepOverlay(m, o.steps);
    }
  }

  lemma BranchRestores(b: Board, order: set<int> -> seq<int>, c: Cell, options: seq<int>, m: Assignments)
    requires IsBoard(b) && Clear(m, b) && Branches(b, order, c, options)
    ensures !Backtrack(b, order).solved ==> OverlayFrom(m, Backtrack(b, order).steps) == m
    decreases 81 - FilledCount(b), 1
  {
    var o := Propagate(b);
    PropagateSound(b);
    BacktrackBranch(b, order, c, options);
    FilledCountGrows(o.board, b);
    var r := TryOptions(o.board, c, options, order);
    TryOptionsRestores(o.board, c, options, order, m);
    ArcEventsKeepOverlay(m, o.steps);
    OverlayFromAppend(m, ArcEvents(o.steps), r.steps);
  }

  lemma {:induction false} TryOptionsRestores(b: Board, c: Cell, opts: seq<int>, order: set<int> -> seq<int>, m: Assignments)
    requires IsBoard(b) && InGrid(c) && At(b, c) == 0 && Clear(m, b)
    ensures !TryOptions(b, c, opts, order).solved ==> OverlayFrom(m, TryOptions(b, c, opts, order).steps) == m
    decreases 81 - FilledCount(b), 0, |opts|
  {
    if opts != [] {
      TryOptionsRestores(b, c, opts[1..], order, m);
      if Safe(b, c, opts[0]) {
        SafeOptionRestores(b, c, opts[0], order, m);
        var num := opts[0];
        var sub := Backtrack(Put(b, c, num), order);
        var rest := TryOptions(b, c, opts[1..], order);
        if !sub.solved {
          var head := [BacktrackAssign(c, num)] + sub.steps + [BacktrackRevert(c, num, None)];
          OverlayFromAppend(m, head, rest.steps);
        }
      }
    }
  }

  /** The branch on digit `num` at `c`, when it fails, nets out: the
      assignment, the failed sub-search and the revert together leave `m`. */
  lemma SafeOptionRestores(b: Board, c: Cell, num: int, order: set<int> -> seq<int>, m: Assignments)
    requires IsBoard(b) && InGrid(c) && At(b, c) == 0 && Clear(m, b) && Safe(b, c, num)
    ensures var sub := Backtrack(Put(b, c, num), order);
            !sub.solved ==>
              OverlayFrom(m, [BacktrackAssign(c, num)] + sub.steps + [BacktrackRevert(c, num, None)]) == m
    decreases 81 - FilledCount(b), 0, 0
  {
    SafeNonZero(b, c, num);
    FilledCountPut(b, c, num);
    FilledCountBound(Put(b, c, num));
    var sub := Backtrack(Put(b, c, num), order);
    ClearPut(m, b, c, num);
    FailedSearchRestores(Put(b, c, num), order, m[c := num]);
    if !sub.solved {
      AssignThenRevert(m, c, num, sub.steps);
    }
  }

  /** Assigning an empty cell and filling it on the board keeps the
      overlay clear of the board's empty cells. */
  lemma ClearPut(m: Assignments, b: Board, c: Cell, num: int)
    requires IsBoard(b) && InGrid(c) && At(b, c) == 0 && num != 0 && Clear(m, b)
    ensures c !in m && Clear(m[c := num], Put(b, c, num))
  {
    forall k | k in m[c := num] && InGrid(k)
      ensures At(Put(b, c, num), k) != 0
    {
      if k != c {
        assert k in m;
      }
    }
  }

  /** An assignment, steps that leave the overlay alone, and the revert of
      the same cell give back an overlay that did not hold the cell. */
  lemma AssignThenRevert(m: Assignments, c: Cell, num: int, steps: seq<Event>)
    requires c !in m && OverlayFrom(m[c := num], steps) == m[c := num]
    ensures OverlayFrom(m, [BacktrackAssign(c, num)] + steps + [BacktrackRevert(c, num, None)]) == m
  {
    OverlayFromAppend(m, [BacktrackAssign(c, num)] + steps, [BacktrackRevert(c, num, None)]);
    OverlayFromAppend(m, [BacktrackAssign(c, num)], steps);
    assert OverlayFrom(m, [BacktrackAssign(c, num)]) == m[c := num];
    assert m[c := num] - {c} == m;
  }

  /** Seen from the viewer: once the steps of a failed search are replayed
      after any prefix that holds no assignment at the search's empty
      cells, the assignment overlay is what it was before them. */
  lemma FailedSearchOverlay(prefix: seq<Event>, b: Board, order: set<int> -> seq<int>)
    requires IsBoard(b) && Clear(OverlayOf(prefix), b) && !Backtrack(b, order).solved
    ensures OverlayOf(prefix + Backtrack(b, order).steps) == OverlayOf(prefix)
  {
    var steps := Backtrack(b, order).steps;
    OverlayOfFrom(prefix + steps);
    OverlayFromAppend(map[], prefix, steps);
    OverlayOfFrom(prefix);
    FailedSearchRestores(b, order, OverlayOf(prefix));
  }
  // ---------------------------------------------------------------------
  // The search's reverts carry no candidate snapshot

  ghost predicate NoSnapshots(es: seq<Event>) {
    forall k :: 0 <= k < |es| && es[k].BacktrackRevert? ==> es[k].domainBefore.None?
  }

  lemma NoSnapshotsAppend(a: seq<Event>, b: seq<Event>)
    requires NoSnapshots(a) && NoSnapshots(b)
    ensures NoSnapshots(a + b)
  {
    forall k | 0 <= k < |a + b| && (a + b)[k].BacktrackRevert?
      ensures (a + b)[k].domainBefore.None?
    {
      if k >= |a| {
        assert (a + b)[k] == b[k - |a|];
      }
    }
  }

  /** Every revert the search emits is the snapshot-free kind. */
  lemma {:induction false} BacktrackNoSnapshots(b: Board, order: set<int> -> seq<int>)
    requires IsBoard(b)
    ensures NoSnapshots(Backtrack(b, order).steps)
    decreases 81 - FilledCount(b), 2
  {
    var o := Propagate(b);
    PropagateSound(b);
    ArcEventsNoSnapshots(o.steps);
    if o.ok && !o.complete {
      var (cell, options) := BestCellFromDomains(o.board, o.domains, order);
      if cell.Some? {
        BranchNoSnapshots(b, order, cell.value, options);
      }
    }
  }

  lemma BranchNoSnapshots(b: Board, order: set<int> -> seq<int>, c: Cell, options: seq<int>)
    requires IsBoard(b) && Branches(b, order, c, options)
    ensures NoSnapshots(Backtrack(b, order).steps)
    decreases 81 - FilledCount(b), 1
  {
    var o := Propagate(b);
    PropagateSound(b);
    BacktrackBranch(b, order, c, options);
    FilledCountGrows(o.board, b);
    TryOptionsNoSnapshots(o.board, c, options, order);
    ArcEventsNoSnapshots(o.steps);
    NoSnapshotsAppend(ArcEvents(o.steps), TryOptions(o.board, c, options, order).steps);
  }

  lemma {:induction false} TryOptionsNoSnapshots(b: Board, c: Cell, opts: seq<int>, order: set<int> -> seq<int>)
    requires IsBoard(b) && InGrid(c) && At(b, c) == 0
    ensures NoSnapshots(TryOptions(b, c, opts, order).steps)
    decreases 81 - FilledCount(b), 0, |opts|
  {
    if opts != [] {
      TryOptionsNoSnapshots(b, c, opts[1..], order);
      var num := opts[0];
      if Safe(b, c, num) {
        SafeOptionNoSnapshots(b, c, num, order);
        var sub := Backtrack(Put(b, c, num), order);
        var head := [BacktrackAssign(c, num)] + sub.steps + [BacktrackRevert(c, num, None)];
        NoSnapshotsAppend(head, TryOptions(b, c, opts[1..], order).steps);
      }
    }
  }

  /** The branch on a safe digit, with its revert, carries no snapshot. */
  lemma SafeOptionNoSnapshots(b: Board, c: Cell, num: int, order: set<int> -> seq<int>)
    requires IsBoard(b) && InGrid(c) && At(b, c) == 0 && Safe(b, c, num)
    ensures var sub := Backtrack(Put(b, c, num), order);
            NoSnapshots([BacktrackAssign(c, num)] + sub.steps)
            && NoSnapshots([BacktrackAssign(c, num)] + sub.steps + [BacktrackRevert(c, num, None)])
    decreases 81 - FilledCount(b), 0, 0
  {
    SafeNonZero(b, c, num);
    FilledCountPut(b, c, num);
    FilledCountBound(Put(b, c, num));
    BacktrackNoSnapshots(Put(b, c, num), order);
    BracketNoSnapshots(c, num, Backtrack(Put(b, c, num), order).steps);
  }

  /** An assignment before and a plain revert after keep a snapshot-free
      run snapshot-free. */
  lemma BracketNoSnapshots(c: Cell, num: int, steps: seq<Event>)
    requires NoSnapshots(steps)
    ensures NoSnapshots([BacktrackAssign(c, num)] + steps)
    ensures NoSnapshots([BacktrackAssign(c, num)] + steps + [BacktrackRevert(c, num, None)])
  {
    NoSnapshotsAppend([BacktrackAssign(c, num)], steps);
    NoSnapshotsAppend([BacktrackAssign(c, num)] + steps, [BacktrackRevert(c, num, None)]);
  }

  /** Propagation steps are never reverts. */
  lemma ArcEventsNoSnapshots(steps: seq<RawStep>)
    ensures NoSnapshots(ArcEvents(steps))
  {
    forall k | 0 <= k < |steps|
      ensures !ArcEvents(steps)[k].BacktrackRevert?
    {
      assert ArcEvents(steps)[k] == Relabel(steps[k]);
    }
  }

  // ---------------------------------------------------------------------
  // Tentative assignments

  /** Every tentative assignment in `es` is at a grid cell blank in `b`. */
  ghost predicate AssignsBlank(b: Board, es: seq<Event>)
    requires IsBoard(b)
  {
    forall k :: 0 <= k < |es| && es[k].BacktrackAssign? ==> InGrid(es[k].cell) && At(b, es[k].cell) == 0
  }

  /** Every tentative assignment in `es` at `c` places one of `opts` that
      `is_safe` accepts on `b`. */
  ghost predicate AssignsSafeAt(b: Board, c: Cell, opts: seq<int>, es: seq<Event>)
    requires IsBoard(b) && InGrid(c)
  {
    forall k :: 0 <= k < |es| && es[k].BacktrackAssign? && es[k].cell == c ==> es[k].value in opts && Safe(b, c, es[k].value)
  }

  lemma AssignsBlankAppend(b: Board, x: seq<Event>, y: seq<Event>)
    requires IsBoard(b) && AssignsBlank(b, x) && AssignsBlank(b, y)
    ensures AssignsBlank(b, x + y)
  {
    forall k | |x| <= k < |x + y|
      ensures (x + y)[k] == y[k - |x|]
    {
    }
  }

  lemma AssignsAppend(b: Board, c: Cell, opts: seq<int>, x: seq<Event>, y: seq<Event>)
    requires IsBoard(b) && InGrid(c)
    requires AssignsBlank(b, x) && AssignsBlank(b, y) && AssignsSafeAt(b, c, opts, x) && AssignsSafeAt(b, c, opts, y)
    ensures AssignsBlank(b, x + y) && AssignsSafeAt(b, c, opts, x + y)
  {
    AssignsBlankAppend(b, x, y);
    forall k | |x| <= k < |x + y|
      ensures (x + y)[k] == y[k - |x|]
    {
    }
  }

  /** A board that extends `b` has fewer blanks: assignments blank there
      are blank in `b`. */
  lemma AssignsBlankBack(b: Board, m: Board, es: seq<Event>)
    requires IsBoard(b) && IsBoard(m) && Extends(m, b) && AssignsBlank(m, es)
    ensures AssignsBlank(b, es)
  {
    forall k | 0 <= k < |es| && es[k].BacktrackAssign?
      ensures At(b, es[k].cell) == 0
    {
      assert At(m, es[k].cell) == 0;
    }
  }

  /** Propagation steps are never assignments. */
  lemma ArcEventsNoAssigns(b: Board, c: Cell, opts: seq<int>, steps: seq<RawStep>)
    requires IsBoard(b) && InGrid(c)
    ensures AssignsBlank(b, ArcEvents(steps)) && AssignsSafeAt(b, c, opts, ArcEvents(steps))
  {
    forall k | 0 <= k < |steps|
      ensures !ArcEvents(steps)[k].BacktrackAssign?
    {
      assert ArcEvents(steps)[k] == Relabel(steps[k]);
    }
  }

  /** The search tentatively fills only cells that are blank in the board
      it is given. */
  lemma {:induction false} BacktrackAssignsBlank(b: Board, order: set<int> -> seq<int>)
    requires IsBoard(b)
    ensures AssignsBlank(b, Backtrack(b, order).steps)
    decreases 81 - FilledCount(b), 2
  {
    var o := Propagate(b);
    PropagateSound(b);
    ArcEventsNoAssigns(b, (0, 0), [], o.steps);
    if o.ok && !o.complete {
      var (cell, options) := BestCellFromDomains(o.board, o.domains, order);
      if cell.Some? {
        BranchAssignsBlank(b, order, cell.value, options);
      }
    }
  }

  lemma BranchAssignsBlank(b: Board, order: set<int> -> seq<int>, c: Cell, options: seq<int>)
    requires IsBoard(b) && Branches(b, order, c, options)
    ensures AssignsBlank(b, Backtrack(b, order).steps)
    decreases 81 - FilledCount(b), 1
  {
    var o := Propagate(b);
    PropagateSound(b);
    BacktrackBranch(b, order, c, options);
    FilledCountGrows(o.board, b);
    var r := TryOptions(o.board, c, options, order);
    TryOptionsAssigns(o.board, c, options, order);
    AssignsBlankBack(b, o.board, r.steps);
    ArcEventsNoAssigns(b, c, [], o.steps);
    AssignsBlankAppend(b, ArcEvents(o.steps), r.steps);
  }

  /** The option loop at `c` fills only cells blank in its board, and every
      value it places at `c` itself is one of the options that `is_safe`
      accepted on that board. */
  lemma {:induction false} TryOptionsAssigns(b: Board, c: Cell, opts: seq<int>, order: set<int> -> seq<int>)
    requires IsBoard(b) && InGrid(c) && At(b, c) == 0
    ensures var es := TryOptions(b, c, opts, order).steps;
            AssignsBlank(b, es) && AssignsSafeAt(b, c, opts, es)
    decreases 81 - FilledCount(b), 0, |opts|
  {
    if opts != [] {
      TryOptionsAssigns(b, c, opts[1..], order);
      var rest := TryOptions(b, c, opts[1..], order).steps;
      assert AssignsSafeAt(b, c, opts, rest) by {
        forall k | 0 <= k < |rest| && rest[k].BacktrackAssign? && rest[k].cell == c
          ensures rest[k].value in opts
        {
          assert rest[k].value in opts[1..];
        }
      }
      var num := opts[0];
      if Safe(b, c, num) {
        SafeOptionAssigns(b, c, opts, order);
        var sub := Backtrack(Put(b, c, num), order);
        var head := [BacktrackAssign(c, num)] + sub.steps + [BacktrackRevert(c, num, None)];
        AssignsAppend(b, c, opts, head, rest);
      }
    }
  }

  /** The branch on a safe first option: its own assignment, then a search
      that fills only cells blank after it. */
  lemma SafeOptionAssigns(b: Board, c: Cell, opts: seq<int>, order: set<int> -> seq<int>)
    requires IsBoard(b) && InGrid(c) && At(b, c) == 0 && |opts| > 0 && Safe(b, c, opts[0])
    ensures var sub := Backtrack(Put(b, c, opts[0]), order);
            var one := [BacktrackAssign(c, opts[0])] + sub.steps;
            AssignsBlank(b, one) && AssignsSafeAt(b, c, opts, one)
            && AssignsBlank(b, one + [BacktrackRevert(c, opts[0], None)])
            && AssignsSafeAt(b, c, opts, one + [BacktrackRevert(c, opts[0], None)])
    decreases 81 - FilledCount(b), 0, 0
  {
    var num := opts[0];
    var next := Put(b, c, num);
    SafeNonZero(b, c, num);
    FilledCountPut(b, c, num);
    FilledCountBound(next);
    var sub := Backtrack(next, order).steps;
    BacktrackAssignsBlank(next, order);
    assert AssignsBlank(b, sub) && AssignsSafeAt(b, c, opts, sub) by {
      forall k | 0 <= k < |sub| && sub[k].BacktrackAssign?
        ensures At(b, sub[k].cell) == 0 && sub[k].cell != c
      {
        var x := sub[k].cell;
        assert At(next, x) == 0;
        assert At(next, c) == num;
      }
    }
    AssignsAppend(b, c, opts, [BacktrackAssign(c, num)], sub);
    AssignsAppend(b, c, opts, [BacktrackAssign(c, num)] + sub, [BacktrackRevert(c, num, None)]);
  }

  // ---------------------------------------------------------------------
  // The search as written

  /** No propagation step in `es` is an inference. */
  ghost predicate NoInferences(es: seq<Event>) {
    forall k :: 0 <= k < |es| ==> !es[k].ArcInferred?
  }

  lemma NoInferencesAppend(a: seq<Event>, b: seq<Event>)
    requires NoInferences(a) && NoInferences(b)
    ensures NoInferences(a + b)
  {
    forall k | |a| <= k < |a + b|
      ensures (a + b)[k] == b[k - |a|]
    {
    }
  }

  /** When the as-written search returns at all, it returns what the
      corrected search does, and its steps show no inference: the runs it
      survives are those whose propagation never filled a cell by
      inference. */
  lemma {:induction false} BacktrackAsWrittenAgrees(b: Board, order: set<int> -> seq<int>)
    requires IsBoard(b)
    ensures var r := BacktrackAsWritten(b, order);
            r.Success? ==> r.value == Backtrack(b, order) && NoInferences(r.value.steps)
    decreases 81 - FilledCount(b), 2
  {
    var o := Propagate(b);
    PropagateSound(b);
    RelabelAsWrittenFails(o.steps);
    if RelabelAsWritten(o.steps).Success? {
      ArcEventsPlain(o.steps);
      if o.ok && !o.complete {
        var (cell, options) := BestCellFromDomains(o.board, o.domains, order);
        if cell.Some? {
          FilledCountGrows(o.board, b);
          TryOptionsAsWrittenAgrees(o.board, cell.value, options, order);
          match TryOptionsAsWritten(o.board, cell.value, options, order)
          case Failure(_) =>
          case Success(r) => NoInferencesAppend(ArcEvents(o.steps), r.steps);
        }
      }
    }
  }

  /** The log of a propagation with no inference relabels without one. */
  lemma ArcEventsPlain(steps: seq<RawStep>)
    requires forall k :: 0 <= k < |steps| ==> !steps[k].Inference?
    ensures NoInferences(ArcEvents(steps))
  {
    forall k | 0 <= k < |steps|
      ensures !ArcEvents(steps)[k].ArcInferred?
    {
      assert ArcEvents(steps)[k] == Relabel(steps[k]);
    }
  }

  lemma {:induction false} TryOptionsAsWrittenAgrees(b: Board, c: Cell, opts: seq<int>, order: set<int> -> seq<int>)
    requires IsBoard(b) && InGrid(c) && At(b, c) == 0
    ensures var r := TryOptionsAsWritten(b, c, opts, order);
            r.Success? ==> r.value == TryOptions(b, c, opts, order) && NoInferences(r.value.steps)
    decreases 81 - FilledCount(b), 0, |opts|
  {
    if opts != [] {
      TryOptionsAsWrittenAgrees(b, c, opts[1..], order);
      var num := opts[0];
      if Safe(b, c, num) {
        SafeNonZero(b, c, num);
        FilledCountPut(b, c, num);
        FilledCountBound(Put(b, c, num));
        BacktrackAsWrittenAgrees(Put(b, c, num), order);
        match BacktrackAsWritten(Put(b, c, num), order)
        case Failure(_) =>
        case Success(sub) =>
          var one := [BacktrackAssign(c, num)];
          NoInferencesAppend(one, sub.steps);
          if !sub.solved {
            match TryOptionsAsWritten(b, c, opts[1..], order)
            case Failure(_) =>
            case Success(rest) =>
              NoInferencesAppend(one + sub.steps, [BacktrackRevert(c, num, None)]);
              NoInferencesAppend(one + sub.steps + [BacktrackRevert(c, num, None)], rest.steps);
          }
      }
    }
  }

  /** `solve` as written raises whenever propagation of the input fills a
      cell, and otherwise returns what the corrected `solve` returns. */
  lemma SolveAsWrittenMeaning(b: Board, order: set<int> -> seq<int>)
    requires IsBoard(b)
    ensures Propagate(b).board != b ==> SolveAsWritten(b, order).Failure?
    ensures SolveAsWritten(b, order).Success? ==> SolveAsWritten(b, order).value == Solve(b, order)
  {
    if Propagate(b).board != b {
      ApplyArcAsWrittenFails(b);
    }
    BacktrackAsWrittenAgrees(b, order);
  }
}
