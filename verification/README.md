# Sudoku solver and step viewer, modelled in Dafny

This project models the logic core of a Sudoku application. The backend
checks a 9x9 board, solves it and records the solver's reasoning as a step
log. The frontend replays that log one step at a time.

- `wrappers.dfy`: `Option` and `Result`.
- `grid.dfy` (module `Grid`): boards as `seq<seq<int>>`, cells as
  `(row, col)` pairs, the row/column/box relation, and what it means for a
  board to be consistent, full and a solution of a puzzle.
- `backtracking.dfy` (module `Backtracking`): `is_safe`,
  `get_possible_values`, `find_empty_location` and the three depth-first
  searches `solvable`, `get_solution` and `get_number_of_solutions`.
  - Python mutates the board in place. Here each search returns its
    result together with the board it leaves behind, and "the board is
    restored" is part of the contract.
- `arc.py`'s `arc` is modelled in `arc.dfy` (module `Arc`): the
  queue-driven row, column and box propagation, with its step log and its
  two status flags.
- `solver.py` is modelled in `solver.dfy` (module `Solver`): the two
  fewest-options cell pickers, `_apply_arc`, the step-recording search
  `_backtrack_with_steps` and `solve`.
- `validation.dfy` (module `Validation`): `validate_board` over a JSON
  value datatype.
- `events.dfy` (module `Events`): the four step kinds the viewer reads
  (`arc`, `arc_inferred`, `backtrack_assign`, `backtrack_revert`).
- `replay.dfy` (module `Replay`): `applyStepsToDomains`, a left fold over a
  map from cells to candidate lists, seeded with `[1..9]` for every empty
  cell.
- `overlay.dfy` (module `Overlay`): the assignment overlay of
  `renderAIMode` and the arc-inferred map of the grid rendering.
- `navigation.dfy` (module `Navigation`): `nextStep`, `prevStep` and
  `jumpToStep` over a cursor in `[-1, N-1]`.
- `editing.dfy` (module `Editing`): `validateMove`, `startGame`,
  `handleCellChange`, `undo` and `redo` over the edit history.

Python's `list(set)` order in `_find_best_cell_from_domains` is a
parameter `order: set<int> -> seq<int>`. The search lemmas hold for every
`order` that lists exactly the members of the set (`Solver.Enumerates`).
The frontend's string keys `` `${r}-${c}` `` are modelled as the pair
`(r, c)`.

Two behaviours of the code that its contracts record:

- In `applyStepsToDomains`, an `arc` step filters its value out of the
  `from` list whatever that list holds
  (`sudoko-frontend/src/App.jsx:238-243`). So a singleton `[value]` that an
  `arc_inferred` or `backtrack_assign` step set
  (`sudoko-frontend/src/App.jsx:244-251`) becomes `[]` when a later `arc`
  step removes the same value, before any revert.
  `Replay.SingletonPersists` states this: the list is `[value]` or `[]`.
- Both cell pickers return at the first cell with one option
  (`backend/solver.py:19-23`, `backend/solver.py:51-55`). So when a cell
  with zero options comes later, the pick is not a global minimum. The
  contracts of `Solver.BestEmptyCell` and `Solver.BestCellFromDomains`
  state exactly that.

## Model

| member | source | states |
|---|---|---|
| Backtracking.IsSafe | backend/backtracking.py:101-120 | true exactly when `num` is held by no cell of the row, column or 3x3 box of the cell (the cell itself included) |
| Backtracking.SafeFromMeaning | backend/backtracking.py:94-99 | the candidate list from `n` on is strictly ascending and holds exactly the safe digits `n..9` |
| Backtracking.PossibleValues | backend/backtracking.py:76-99 | `[]` for a filled cell; otherwise strictly ascending, and a number is in it exactly when it is a digit 1..9 that is safe at the cell |
| Backtracking.CollectTaken | backend/backtracking.py:80-92 | the taken set holds exactly the non-zero values that make a digit unsafe at the cell |
| Backtracking.GetPossibleValues | backend/backtracking.py:76-99 | the loops return the reference candidate list `PossibleValues` |
| Backtracking.FilterTaken | backend/backtracking.py:94-99 | filtering 1..9 by the taken set gives the safe digits in ascending order |
| Backtracking.FirstEmptyFrom | backend/backtracking.py:64-74 | a cell found is in the grid, empty, and not before the start in row-major order |
| Backtracking.FirstEmptySkips | backend/backtracking.py:64-74 | every cell from the start up to the one found (or to the end of the grid when none is found) holds a value |
| Backtracking.FirstEmptyUnique | backend/backtracking.py:64-74 | an empty cell with only filled cells between the start and it is the cell the scan returns |
| Backtracking.FindEmptyLocation | backend/backtracking.py:64-74 | the rest-of-row loop and the later-rows loop return the first empty cell at or after the start, or nothing |
| Backtracking.SafePutConsistent | backend/backtracking.py:32-33 | writing a safe digit into a board with no clash leaves a board with no clash |
| Backtracking.GetSolution | backend/backtracking.py:23-40 | on failure the board is left as it was given; on success the returned board is the board left behind |
| Backtracking.TrySolution | backend/backtracking.py:31-40 | the digit loop of `get_solution`: a failed loop restores the board |
| Backtracking.GetSolutionSound | backend/backtracking.py:23-40 | a returned board is full, keeps every given, holds a digit 1..9 in every blank, has no value at a filled-in blank that a peer repeats (whatever the input), and has no clash anywhere when the input had none |
| Backtracking.PlacedSafeStep | backend/backtracking.py:32-36 | a digit that `is_safe` accepted at a blank, followed by a clash-free completion of the other blanks, clashes with no peer |
| Backtracking.GetSolutionComplete | backend/backtracking.py:23-40 | a puzzle that has a completion is never answered with `None` |
| Backtracking.Solvable | backend/backtracking.py:4-21 | a `False` answer leaves the board as it was given |
| Backtracking.TryCandidates | backend/backtracking.py:12-21 | the candidate loop of `solvable`: a failed loop restores the board |
| Backtracking.SolvableAgrees | backend/backtracking.py:4-40 | `solvable` says yes exactly when `get_solution` finds a board, and both leave the same board behind |
| Backtracking.CountSolutions | backend/backtracking.py:42-62 | the board is always handed back unchanged |
| Backtracking.CountSolutionsNonNegative | backend/backtracking.py:42-62 | the count is never negative |
| Backtracking.CountFromAtLeast | backend/backtracking.py:51-62 | the counting loop never lowers the running total |
| Backtracking.CountFull | backend/backtracking.py:42-46 | a board with no blank counts as exactly one solution, whatever the start and the cap |
| Backtracking.CountPositive | backend/backtracking.py:42-62 | with `max_solutions >= 1` the count is positive exactly when `get_solution` finds a solution |
| Arc.SeedDomains | backend/arc.py:6-14 | one candidate set per grid cell: a given has exactly its own value, an empty cell the digits 1..9 |
| Arc.SeedQueue | backend/arc.py:11-16 | the seeding queue holds exactly the filled cells |
| Arc.FilledCountScan | backend/arc.py:10-15 | the seeding loop's `assigned`, one per queued given, equals the number of filled cells |
| Arc.SeedKeeps | backend/arc.py:6-16 | the seeded state meets the loop invariant: candidates match the board, `assigned` counts the filled cells, every filled cell is queued |
| Arc.Reduce | backend/arc.py:22-43 | a reduction that goes on keeps the state well shaped and does not raise the measure (total candidates, queue length) |
| Arc.ReduceAll | backend/arc.py:22-43 | a whole pass that goes on keeps the state well shaped and does not raise the measure |
| Arc.ReduceAllStops | backend/arc.py:42-43 | a pass that stops returns `ok = False` and the pass's flag as the fifth value (`True` in the row and column passes, `False` in the box pass) |
| Arc.ReduceKeeps | backend/arc.py:22-43 | one reduction keeps the invariants, changes no filled cell, adds no candidate, and strikes the value from the target unless the target is the propagating cell |
| Arc.Process | backend/arc.py:17-94 | one turn of the queue loop lowers the measure (total candidates, queue length), so the loop ends |
| Arc.ProcessKeeps | backend/arc.py:17-94 | one turn keeps the invariants and settles the popped cell: no peer keeps its value as a candidate |
| Arc.LoopKeeps | backend/arc.py:17-97 | the loop returns a board that keeps every given; candidates only shrink; every log entry is justified; a normal exit has no clash and `complete` exactly when full; a failure leaves an empty candidate set |
| Arc.CountFull | backend/arc.py:97 | `assigned == 81` exactly when the board is full |
| Arc.FilledCountPut | backend/arc.py:34-35 | filling an empty cell adds one to the count of filled cells |
| Arc.PropagateSound | backend/arc.py:5-97 | `arc` keeps the givens and only shrinks candidates; every `from/to/value` entry records a peer's value that `from` no longer has; every inference matches the board; a successful run has no clash and `complete` exactly when full; a failed run has an empty candidate set |
| Arc.PropagateKeepsSolutions | backend/arc.py:5-97 | any solution of the puzzle survives propagation: it stays among the candidates, agrees with every filled cell, and the run does not fail |
| Arc.PropagateStrikes | backend/arc.py:22-30 | every `from/to/value` entry removes a value that `from` had as a candidate after seeding and no longer has at the end, and no (cell, value) pair is logged twice |
| Arc.StruckRemove | backend/arc.py:23-30 | discarding a present candidate and logging it keeps the removal history: candidates only shrink, logged pairs are gone and were seeded, no pair repeats |
| Arc.PropagateLogs | backend/arc.py:31-41 | every cell whose value the run changes has an inference entry with its new value in the log |
| Solver.PickFinds | backend/solver.py:13-23 | the row-major scan with strict `<` and the early stop at size 1 picks the reference cell `FirstSmallest` |
| Solver.BestEmptyCell | backend/solver.py:8-25 | nothing (and `[]`) exactly on a full board; otherwise an empty cell with its `get_possible_values`; every earlier empty cell has strictly more options, and unless the pick has one option no empty cell has fewer |
| Solver.BestCellFromDomains | backend/solver.py:37-59 | nothing (and `[]`) exactly when every empty cell has an empty set; otherwise an empty cell with a non-empty set listed in `order`; earlier such cells have strictly larger sets, and unless the pick has one candidate none is smaller |
| Solver.ArcEvents | backend/solver.py:31-33 | the log relabelled entry by entry: a removal becomes an `arc` step, an inference an `arc_inferred` step |
| Solver.RelabelAsWrittenFails | backend/solver.py:31-33 | the relabelling as written fails exactly when the log holds an inference, and otherwise gives the corrected relabelling |
| Solver.ApplyArcAsWrittenFails | backend/solver.py:28-34 | whenever `arc` changes the board, `_apply_arc` as written raises |
| Solver.SolvedByPropagationFails | backend/solver.py:28-34 | in particular every puzzle that propagation alone completes makes `_apply_arc` as written raise |
| Solver.ApplyArc | backend/solver.py:28-34 | the corrected `_apply_arc`: it runs `arc`, hands over one viewer step per log entry, and each step is of the matching kind |
| Solver.FilledCountGrows | backend/solver.py:64 | a board that keeps another's givens has at least as many filled cells, and at most 81 |
| Solver.Solve | backend/solver.py:92-101 | `solvable` exactly when a solution is returned, with the search's steps |
| Solver.BacktrackSound | backend/solver.py:62-89 | a solved search returns a completion of its board: full, no clash, givens kept, digits in the blanks |
| Solver.BacktrackComplete | backend/solver.py:62-89 | a puzzle that has a completion is solved |
| Solver.SolveDecides | backend/solver.py:92-101 | `solve` says solvable exactly when the puzzle has a completion, and the board it returns is one |
| Solver.BacktrackAssignsBlank | backend/solver.py:79-81 | the search tentatively fills only cells that are blank in the board it is given |
| Solver.TryOptionsAssigns | backend/solver.py:75-81 | the option loop at a cell fills only blank cells, and every value it places at that cell is one of the options that `is_safe` accepted on the loop's board |
| Solver.SafeOptionAssigns | backend/solver.py:75-87 | a safe option's branch, with or without its revert, places at the cell only that option and elsewhere only cells blank after the placement |
| Solver.BacktrackAsWrittenAgrees | backend/solver.py:62-89 | when the search with `_apply_arc` as written returns at all, it returns what the corrected search returns, and its steps contain no `arc_inferred` |
| Solver.TryOptionsAsWrittenAgrees | backend/solver.py:75-89 | the same for the option loop |
| Solver.SolveAsWrittenMeaning | backend/solver.py:92-101 | `solve` as written raises whenever `arc` changes the input board, and otherwise returns what the corrected `solve` returns |
| Solver.FailedSearchOverlay | backend/solver.py:79-87 | the steps of a failed search leave the viewer's assignment overlay as it was before them: every assign is matched by its revert |
| Solver.BacktrackNoSnapshots | backend/solver.py:87 | no revert the search emits carries `domain_before` |
| Solver.OverlayOfFrom | sudoko-frontend/src/App.jsx:510-521 | the overlay loop from the empty map is the viewer's overlay |
| Solver.ArcEventsKeepOverlay | sudoko-frontend/src/App.jsx:510-521 | propagation steps never change the assignment overlay |
| Validation.IntValue | backend/validation.py:9 | integers and booleans (a Python `bool` is an `int`) have an integer value; nothing else has one |
| Validation.ValidateBoard | backend/validation.py:2-11 | true exactly when the value is a list of nine lists of nine integers, each between 0 and 9 |
| Validation.ToBoard | backend/validation.py:2-11 | a valid request yields a 9x9 board whose cells are 0..9 and equal the request's values |
| Replay.Without | sudoko-frontend/src/App.jsx:242 | `filter(v => v !== value)` removes every occurrence of the value and keeps every other element with its count |
| Replay.SeedFromHas | sudoko-frontend/src/App.jsx:225-232 | the row-major loop from position `p` on adds one `[1..9]` entry per empty cell it visits and no other key |
| Replay.SeedLoopAgrees | sudoko-frontend/src/App.jsx:225-232 | the loop's map has exactly one key per empty cell, each mapped to `[1..9]`, whatever the visiting order |
| Replay.SnapshotMap | sudoko-frontend/src/App.jsx:253-261 | the snapshot's 81 lists keyed by their cells, and nothing else |
| Replay.ApplyKeys | sudoko-frontend/src/App.jsx:238-268 | after a step a key is present exactly when it was before or the step stores a list for it |
| Replay.ArcEffect | sudoko-frontend/src/App.jsx:238-243 | an `arc` step keeps the key set, changes only the `from` entry, removes every occurrence of the value there, and changes nothing when the value is absent |
| Replay.PinEffect | sudoko-frontend/src/App.jsx:244-251 | `arc_inferred` and `backtrack_assign` set the cell's entry to `[value]` and leave every other entry unchanged |
| Replay.RevertEffect | sudoko-frontend/src/App.jsx:252-267 | a revert with `domain_before` overwrites the 81 grid entries with the snapshot; without it only the cell's entry becomes `[]` |
| Replay.ApplyStepsToDomains | sudoko-frontend/src/App.jsx:224-272 | the loop returns the left fold of steps `0..stepIndex` over the seeded map |
| Replay.FoldSnoc | sudoko-frontend/src/App.jsx:236-269 | replaying one more step applies that step to the previous result |
| Replay.DomainsAtStart | sudoko-frontend/src/App.jsx:225-232 | at cursor -1 the map has exactly one key per empty cell, each mapped to `[1..9]` |
| Replay.DomainsAtStep | sudoko-frontend/src/App.jsx:234-269 | the map at `k` is the map at `k - 1` with step `k` applied, and depends only on the board and steps `0..k` |
| Replay.FoldKeys | sudoko-frontend/src/App.jsx:236-269 | a key is present after the replay exactly when it was seeded or some step stored a list for it |
| Replay.FoldShrinks | sudoko-frontend/src/App.jsx:238-243 | between steps that store a list for a cell, its candidates only lose members |
| Replay.SingletonPersists | sudoko-frontend/src/App.jsx:238-251 | after an inference or assignment, later steps that store nothing for the cell leave it `[value]` or `[]` |
| Replay.FoldAppend | sudoko-frontend/src/App.jsx:236-269 | replaying a concatenation is replaying its halves in turn |
| Replay.SnapshotAuthority | sudoko-frontend/src/App.jsx:253-261 | after a revert with a snapshot, the grid entries equal the snapshot whatever came before |
| Replay.ArcIdempotent | sudoko-frontend/src/App.jsx:238-243 | applying the same `arc` step twice is applying it once |
| Overlay.LastSearchStep | sudoko-frontend/src/App.jsx:510-521 | a step found is an assign or revert at the cell and occurs in the log |
| Overlay.OverlayIsLastAssignment | sudoko-frontend/src/App.jsx:510-521 | a cell is in the overlay exactly when its last assign-or-revert step is an assign, and it maps to that assign's value |
| Overlay.OnlyAssignedCells | sudoko-frontend/src/App.jsx:510-521 | a cell no assign step names, such as one only inferred by propagation, never appears in the overlay |
| Overlay.BacktrackAssignments | sudoko-frontend/src/App.jsx:510-521 | the loop over steps `0..k` returns the overlay of that prefix |
| Overlay.ArcInferredCells | sudoko-frontend/src/App.jsx:598-605 | the loop over steps `0..k` returns the inferred map of that prefix |
| Overlay.InferredIsLast | sudoko-frontend/src/App.jsx:598-605 | the keys are exactly the cells of some inference step, each mapped to the value of the last inference there |
| Navigation.Enter | sudoko-frontend/src/App.jsx:196-210 | entering the viewer puts the cursor at -1 with the seeded map and an empty overlay |
| Navigation.NextStep | sudoko-frontend/src/App.jsx:274-280 | the cursor advances by one only while it is below N-1, and the map is the replay at the new cursor |
| Navigation.ResetDomains | sudoko-frontend/src/App.jsx:289-298 | the reseeding loop gives the map at cursor -1 |
| Navigation.PrevStep | sudoko-frontend/src/App.jsx:282-301 | the cursor goes back by one only while it is at least 0; landing on -1 reseeds |
| Navigation.JumpToStep | sudoko-frontend/src/App.jsx:303-321 | an index outside `[-1, N-1]` changes nothing; any other index becomes the cursor with its replayed map |
| Navigation.ValidDetermined | sudoko-frontend/src/App.jsx:224-321 | a viewer state is determined by its board, log and cursor |
| Navigation.NextThenPrev | sudoko-frontend/src/App.jsx:274-301 | stepping forward and then back returns to the same state |
| Navigation.PrevThenNext | sudoko-frontend/src/App.jsx:274-301 | stepping back and then forward returns to the same state |
| Navigation.StepsAreJumps | sudoko-frontend/src/App.jsx:274-321 | each step is a jump to the neighbouring index |
| Navigation.Forward | sudoko-frontend/src/App.jsx:274-280 | `n` presses of `nextStep` advance the cursor by `n` but never past N-1 |
| Navigation.ForwardFromStart | sudoko-frontend/src/App.jsx:274-321 | from the entry state, `n` presses give the same state as a jump to `n - 1` (or N-1) |
| Editing.ValidateMove | sudoko-frontend/src/App.jsx:29-52 | true exactly when the value is 0 or no other cell of the row, column or box holds it |
| Editing.StartGame | sudoko-frontend/src/App.jsx:106-116 | the game starts only on a solvable answer, with the board as original, current and sole history entry, and no error flags |
| Editing.HandleCellChange | sudoko-frontend/src/App.jsx:118-141 | an edit of a given is ignored; otherwise only that cell changes, the redo tail is dropped, the new board is appended with the index on it, and the cell is flagged exactly when the move is invalid |
| Editing.Undo | sudoko-frontend/src/App.jsx:143-148 | moves one entry back only while the index is above 0 |
| Editing.Redo | sudoko-frontend/src/App.jsx:150-155 | moves one entry forward only while there is a later entry |
| Editing.GivensNeverChange | sudoko-frontend/src/App.jsx:118-155 | the board shown always keeps every given of the puzzle |
| Editing.UndoAfterEdit | sudoko-frontend/src/App.jsx:118-148 | undo right after an edit shows the board from before the edit |
| Editing.EditClearsRedo | sudoko-frontend/src/App.jsx:136-155 | redo right after an edit does nothing |
| Editing.UndoRedoInverse | sudoko-frontend/src/App.jsx:143-155 | undo then redo, and redo then undo, return to the same state |

## Left out

- Network calls, async state, loading flags and message strings of the
  frontend (`sudoko-frontend/src/App.jsx:54-104, 157-222`) are not
  modelled. `startGame` receives the server's solvability answer as a
  parameter.
- JSX rendering and styling are not modelled. Only the two derived maps of
  `renderAIMode` are kept.
- `backend/main.py` is not part of this model: Flask routes, JSON plumbing,
  floating-point timings and printing. It imports `is_board_valid`, which
  `backend/validation.py` does not define.
- `backend/generate_board.py`, `fill_board` and `backend/test_generate.py`
  are left out. They are driven by `random.shuffle`.
- The commented-out code after `arc` in `backend/arc.py` and its `tabulate`
  import are left out.
- JSON decoding itself is outside the model. `Validation.Json` is the value
  after decoding, and a float's value plays no part.
- Backtracking.CountSolutions: the early return at the cap
  (`backend/backtracking.py:59-60`) is stated only by the definition of
  `CountFrom`. No lemma bounds the count in terms of the cap, and none
  proves that the count equals the number of solutions.
- Solver.Backtrack: this is the search with the corrected `_apply_arc`.
  The code as written raises `KeyError` at any level where propagation
  logs an inference, and that error passes out of every recursive call and
  out of `solve`. `Solver.BacktrackAsWritten` models that search.
  `Solver.BacktrackAsWrittenAgrees` shows that when it returns, it returns
  what `Backtrack` returns.
- Solver.TryOptions: likewise this is the corrected option loop.
  `Solver.TryOptionsAsWritten` is the loop as written.
- Solver.Solve: likewise this is `solve` with the corrected `_apply_arc`.
  `Solver.SolveAsWrittenMeaning` relates it to `Solver.SolveAsWritten`.
- Solver.BacktrackSound: proved for the corrected search. The as-written
  search inherits it only on the runs it survives, through
  `Solver.BacktrackAsWrittenAgrees`.
- Solver.BacktrackComplete: proved for the corrected search only. The
  as-written search raises instead of solving whenever `arc` changes the
  input board (`Solver.SolveAsWrittenMeaning`).
- Solver.SolveDecides: proved for the corrected `solve` only, for the same
  reason.
- Backtracking.CountPositive: states only that the count is positive
  exactly when a solution exists (with a cap of at least one). It does
  not prove that the count equals the number of solutions below the cap.
- Solver.FailedSearchOverlay: the assign/revert pairing of the search is
  stated through its effect on the viewer's overlay. It is not stated as a
  bracket grammar over the log.
- Arc.Process: termination uses the measure (total candidates, queue
  length). "Each cell is queued at most once" is not stated separately.
- Arc.ReduceKeeps: that an inference entry comes right after the removal
  that caused it is part of the definition of `Reduce`. It is not
  restated as a separate property.

## Findings

| source | as written | input that shows it | evidently intended | confidence | as-written member | corrected member |
|---|---|---|---|---|---|---|
| backend/solver.py:31-33 | every raw step is read as `s["from"]`, `s["to"]`, `s["value"]`, but an inference entry (backend/arc.py:36-40) has only `type`, `cell` and `value`, so `KeyError` is raised | any board on which propagation fills a cell, for example a solved grid with one cell cleared | relabel inference entries as `arc_inferred` steps, which the viewer already handles (sudoko-frontend/src/App.jsx:244-247) | high, not executed | Solver.ApplyArcAsWrittenFails | Solver.ApplyArc |
