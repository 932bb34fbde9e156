/** Constraint propagation (`arc` in the backend): every placed value is
    struck from the candidates of its row, column and box peers, and a cell
    left with a single candidate is filled in and propagated in turn. The
    board is threaded through and returned, as the Python code mutates it
    in place. */
module Arc {
  import opened Grid

  type GridCell = c: Cell | InGrid(c) witness (0, 0)

  /** Candidate sets keyed by cell (the Python 9x9 list of sets). */
  type Candidates = map<Cell, set<int>>

  const Digits: set<int> := {1, 2, 3, 4, 5, 6, 7, 8, 9}

  /** The two kinds of record the propagation logs: `value` struck from
      `from` because `to` holds it, and `cell` filled with its last
      candidate. */
  datatype RawStep =
    | Removal(from: Cell, to: Cell, value: int)
    | Inference(cell: Cell, value: int)

  /** The local variables of `arc` between two statements. */
  datatype State = State(board: Board, domains: Candidates, placed: int,
                         arced: set<GridCell>, queue: seq<GridCell>, steps: seq<RawStep>)

  /** The five values `arc` returns. `ok` is false when some candidate set
      ran empty; `complete` is then true if that happened in the row or
      column pass and false if it happened in the box pass, and otherwise
      says whether all 81 cells hold a value. */
  datatype Outcome = Outcome(board: Board, domains: Candidates, steps: seq<RawStep>, ok: bool, complete: bool)

  datatype Phase = Going(state: State) | Stopped(outcome: Outcome)

  ghost predicate Covers(d: Candidates) {
    forall c :: InGrid(c) ==> c in d
  }

  ghost predicate Shaped(st: State) {
    IsBoard(st.board) && Covers(st.domains)
  }

  // ---------------------------------------------------------------------
  // Seeding

  /** The non-empty cells at row-major positions p..80, in the order the
      seeding loops visit them. */
  function FilledFrom(b: Board, p: int): seq<GridCell>
    requires IsBoard(b) && 0 <= p <= 81
    decreases 81 - p
  {
    if p == 81 then []
    else if b[p / 9][p % 9] != 0 then [(p / 9, p % 9)] + FilledFrom(b, p + 1)
    else FilledFrom(b, p + 1)
  }

  /** The cells at row-major position p or later that hold a value. */
  function FilledAfter(b: Board, p: int): set<Cell>
    requires IsBoard(b)
  {
    set c | c in AllCells() && At(b, c) != 0 && Pos(c) >= p
  }

  /** The number of cells holding a value: the quantity `assigned` tracks. */
  function FilledCount(b: Board): int
    requires IsBoard(b)
  {
    |FilledAfter(b, 0)|
  }

  /** A given starts with itself as its only candidate, an empty cell with
      all nine digits. */
  function InitialCandidates(v: int): set<int> {
    if v != 0 then {v} else Digits
  }

  function SeedDomains(b: Board): (d: Candidates)
    requires IsBoard(b)
    ensures Covers(d) && forall c :: c in d ==> InGrid(c)
    ensures forall c :: InGrid(c) && At(b, c) != 0 ==> d[c] == {At(b, c)}
    ensures forall c :: InGrid(c) && At(b, c) == 0 ==> d[c] == {1, 2, 3, 4, 5, 6, 7, 8, 9}
  {
    map c: Cell | c in AllCells() :: InitialCandidates(At(b, c))
  }

  /** The state before the `while queue` loop: every given queued in
      row-major order and counted as assigned. */
  function Seed(b: Board): (st: State)
    requires IsBoard(b)
    ensures Shaped(st)
  {
    var q := FilledFrom(b, 0);
    State(b, SeedDomains(b), |q|, {}, q, [])
  }

  // ---------------------------------------------------------------------
  // One removal

  lemma DigitNonZero(v: int)
    requires v in Digits
    ensures v != 0
  {
  }

  lemma SingletonHas(s: set<int>)
    requires |s| == 1
    ensures exists v :: v in s && s == {v}
  {
    if forall v :: v !in s {
      assert false;
    }
    var v :| v in s;
    assert |s - {v}| == 0;
    assert s == {v};
  }

  /** The element of a one-element set (`list(s)[0]`). */
  function Only(s: set<int>): (v: int)
    requires |s| == 1
    ensures s == {v}
  {
    SingletonHas(s);
    var v :| v in s && s == {v};
    v
  }

  /** Every (cell, candidate) pair: the measure that strictly falls with
      each removal. */
  ghost function Pairs(d: Candidates): set<(Cell, int)> {
    set c, v | c in d && v in d[c] :: (c, v)
  }

  lemma PairsShrink(d: Candidates, t: Cell, v: int)
    requires t in d && v in d[t]
    ensures Pairs(d[t := d[t] - {v}]) < Pairs(d)
  {
    var e := d[t := d[t] - {v}];
    assert (t, v) in Pairs(d) - Pairs(e);
    forall p | p in Pairs(e)
      ensures p in Pairs(d)
    {
      var c, w := p.0, p.1;
      assert c in e && w in e[c];
    }
  }

  /** Either fewer candidate pairs, or the same candidates and no longer a
      queue. */
  ghost predicate Progress(a: State, b: State) {
    Pairs(b.domains) < Pairs(a.domains)
    || (Pairs(b.domains) == Pairs(a.domains) && |b.queue| <= |a.queue|)
  }

  /** Filling `t` with its last candidate: the board is written, the cell
      queued and counted, and the inference logged. */
  function Infer(st: State, t: GridCell): State
    requires Shaped(st) && |st.domains[t]| == 1
  {
    var v := Only(st.domains[t]);
    st.(board := Put(st.board, t, v), placed := st.placed + 1,
        queue := st.queue + [t], steps := st.steps + [Inference(t, v)])
  }

  /** The body of one reduction loop for target `t` of source `src`. */
  function Reduce(st: State, t: GridCell, src: GridCell, value: int, flag: bool): (r: Phase)
    requires Shaped(st)
    ensures r.Going? ==> Shaped(r.state) && Progress(st, r.state)
  {
    if t == src || value !in st.domains[t] then Going(st)
    else
      var left := st.domains[t] - {value};
      var removed := st.(domains := st.domains[t := left], steps := st.steps + [Removal(t, src, value)]);
      var next := if |left| == 1 && t !in st.arced then Infer(removed, t) else removed;
      PairsShrink(st.domains, t, value);
      if |left| == 0 then Stopped(Outcome(next.board, next.domains, next.steps, false, flag))
      else Going(next)
  }

  /** One reduction loop over `ts`, stopping at the first empty set. */
  function ReduceAll(st: State, ts: seq<GridCell>, src: GridCell, value: int, flag: bool): (r: Phase)
    requires Shaped(st)
    ensures r.Going? ==> Shaped(r.state) && Progress(st, r.state)
    decreases |ts|
  {
    if ts == [] then Going(st)
    else
      match Reduce(st, ts[0], src, value, flag)
      case Stopped(o) => Stopped(o)
      case Going(next) => ReduceAll(next, ts[1..], src, value, flag)
  }

  /** A reduction loop that stops reports failure, with the fifth value set
      to the flag of the pass it stopped in (`True` for the row and column
      passes, `False` for the box pass). */
  lemma {:induction false} ReduceAllStops(st: State, ts: seq<GridCell>, src: GridCell, value: int, flag: bool)
    requires Shaped(st)
    ensures var r := ReduceAll(st, ts, src, value, flag);
            r.Stopped? ==> !r.outcome.ok && r.outcome.complete == flag
    decreases |ts|
  {
    if ts != [] {
      match Reduce(st, ts[0], src, value, flag)
      case Stopped(o) =>
      case Going(next) => ReduceAllStops(next, ts[1..], src, value, flag);
    }
  }

  // ---------------------------------------------------------------------
  // Targets

  function RowCells(c: GridCell): seq<GridCell> {
    seq(9, k requires 0 <= k < 9 => (c.0, k))
  }

  function ColCells(c: GridCell): seq<GridCell> {
    seq(9, k requires 0 <= k < 9 => (k, c.1))
  }

  /** The box of `c`, row by row (`start_row`/`start_col` are `c - c % 3`). */
  function BoxCells(c: GridCell): seq<GridCell> {
    seq(9, n requires 0 <= n < 9 => (c.0 - c.0 % 3 + n / 3, c.1 - c.1 % 3 + n % 3))
  }

  // ---------------------------------------------------------------------
  // The loop

  /** One turn of `while queue`: pop, mark as propagated, then the row, the
      column and the box pass with the popped cell's value. */
  function Process(st: State): (r: Phase)
    requires Shaped(st) && |st.queue| > 0
    ensures r.Going? ==> Shaped(r.state)
    ensures r.Going? ==> Pairs(r.state.domains) < Pairs(st.domains)
                         || (Pairs(r.state.domains) == Pairs(st.domains) && |r.state.queue| < |st.queue|)
  {
    var src := st.queue[0];
    var popped := st.(queue := st.queue[1..], arced := st.arced + {src});
    var value := At(popped.board, src);
    match ReduceAll(popped, RowCells(src), src, value, true)
    case Stopped(o) => Stopped(o)
    case Going(s1) =>
      match ReduceAll(s1, ColCells(src), src, value, true)
      case Stopped(o) => Stopped(o)
      case Going(s2) => ReduceAll(s2, BoxCells(src), src, value, false)
  }

  function Loop(st: State): Outcome
    requires Shaped(st)
    decreases Pairs(st.domains), |st.queue|
  {
    if st.queue == [] then Outcome(st.board, st.domains, st.steps, true, st.placed == 81)
    else
      match Process(st)
      case Stopped(o) => o
      case Going(next) => Loop(next)
  }

  /** `arc(board)`. */
  function Propagate(b: Board): Outcome
    requires IsBoard(b)
  {
    Loop(Seed(b))
  }

  // ---------------------------------------------------------------------
  // Counting the filled cells

  lemma {:induction false} FilledHas(b: Board, p: int, c: Cell)
    requires IsBoard(b) && 0 <= p <= 81
    ensures c in FilledFrom(b, p) <==> InGrid(c) && At(b, c) != 0 && Pos(c) >= p
    decreases 81 - p
  {
    if p == 81 {
      if InGrid(c) {
        PosRange(c);
      }
    } else {
      FilledHas(b, p + 1, c);
      ScanCell(p);
    }
  }

  /** Filling an empty cell at position p or later adds one to the count
      from p; one before it adds nothing. */
  lemma {:induction false} FilledPut(b: Board, p: int, c: Cell, v: int)
    requires IsBoard(b) && 0 <= p <= 81
    requires InGrid(c) && At(b, c) == 0 && v != 0
    ensures |FilledFrom(Put(b, c, v), p)| == |FilledFrom(b, p)| + (if Pos(c) >= p then 1 else 0)
    decreases 81 - p
  {
    if p == 81 {
      PosRange(c);
    } else {
      FilledPut(b, p + 1, c, v);
      FilledPutStep(b, p, c, v);
    }
  }

  /** `FilledPutCell` for the board with `v` put at `c`. */
  lemma FilledPutStep(b: Board, p: int, c: Cell, v: int)
    requires IsBoard(b) && 0 <= p < 81
    requires InGrid(c) && At(b, c) == 0 && v != 0
    requires |FilledFrom(Put(b, c, v), p + 1)| == |FilledFrom(b, p + 1)| + (if Pos(c) >= p + 1 then 1 else 0)
    ensures |FilledFrom(Put(b, c, v), p)| == |FilledFrom(b, p)| + (if Pos(c) >= p then 1 else 0)
  {
    var b2 := Put(b, c, v);
    ScanCell(p);
    var e := (p / 9, p % 9);
    assert c != e ==> At(b2, e) == At(b, e);
    FilledPutCell(b, b2, p, c);
  }

  /** One cell of the scan in `FilledPut`. */
  lemma FilledPutCell(b: Board, b2: Board, p: int, c: Cell)
    requires IsBoard(b) && IsBoard(b2) && 0 <= p < 81 && InGrid(c)
    requires b[c.0][c.1] == 0 && b2[c.0][c.1] != 0
    requires c != (p / 9, p % 9) ==> b2[p / 9][p % 9] == b[p / 9][p % 9]
    requires c == (p / 9, p % 9) <==> Pos(c) == p
    requires |FilledFrom(b2, p + 1)| == |FilledFrom(b, p + 1)| + (if Pos(c) >= p + 1 then 1 else 0)
    ensures |FilledFrom(b2, p)| == |FilledFrom(b, p)| + (if Pos(c) >= p then 1 else 0)
  {
    var n1, n2 := |FilledFrom(b, p + 1)|, |FilledFrom(b2, p + 1)|;
    if c == (p / 9, p % 9) {
      assert |FilledFrom(b, p)| == n1;
      assert |FilledFrom(b2, p)| == 1 + n2;
    } else if b[p / 9][p % 9] != 0 {
      assert |FilledFrom(b, p)| == 1 + n1;
      assert |FilledFrom(b2, p)| == 1 + n2;
    } else {
      assert |FilledFrom(b, p)| == n1;
      assert |FilledFrom(b2, p)| == n2;
    }
  }

  /** Filling an empty cell adds one to `assigned`. */
  lemma FilledCountPut(b: Board, c: Cell, v: int)
    requires IsBoard(b) && InGrid(c) && At(b, c) == 0 && v != 0
    ensures FilledCount(Put(b, c, v)) == FilledCount(b) + 1
  {
    FilledCountScan(b);
    FilledCountScan(Put(b, c, v));
    FilledPut(b, 0, c, v);
  }

  /** The row-major scan lists each filled cell once, so its length is the
      number of filled cells. */
  lemma FilledCountScan(b: Board)
    requires IsBoard(b)
    ensures FilledCount(b) == |FilledFrom(b, 0)|
  {
    FilledScan(b, 0);
  }

  lemma {:induction false} FilledScan(b: Board, p: int)
    requires IsBoard(b) && 0 <= p <= 81
    ensures |FilledFrom(b, p)| == |FilledAfter(b, p)|
    decreases 81 - p
  {
    if p == 81 {
      assert FilledAfter(b, p) == {} by {
        forall c | c in FilledAfter(b, p)
          ensures false
        {
          PosRange(c);
        }
      }
    } else {
      FilledScan(b, p + 1);
      FilledAfterSplit(b, p);
    }
  }

  /** One cell of `FilledScan`: position p joins the cells after it exactly
      when it holds a value. */
  lemma FilledAfterSplit(b: Board, p: int)
    requires IsBoard(b) && 0 <= p < 81
    ensures |FilledAfter(b, p)| == |FilledAfter(b, p + 1)| + (if b[p / 9][p % 9] != 0 then 1 else 0)
  {
    ScanCell(p);
    var e := (p / 9, p % 9);
    var rest := FilledAfter(b, p + 1);
    assert e !in rest;
    if b[p / 9][p % 9] != 0 {
      assert At(b, e) != 0;
      assert FilledAfter(b, p) == rest + {e};
    } else {
      assert FilledAfter(b, p) == rest;
    }
  }

  /** Cells at position p or later: at most 81 - p of them hold a value,
      and exactly that many when none of them is empty. */
  lemma {:induction false} FilledBound(b: Board, p: int)
    requires IsBoard(b) && 0 <= p <= 81
    ensures |FilledFrom(b, p)| <= 81 - p
    ensures |FilledFrom(b, p)| == 81 - p
            <==> forall c :: InGrid(c) && Pos(c) >= p ==> At(b, c) != 0
    decreases 81 - p
  {
    if p == 81 {
      forall c | InGrid(c)
        ensures Pos(c) < 81
      {
        PosRange(c);
      }
    } else {
      FilledBound(b, p + 1);
      ScanCell(p);
      assert b[p / 9][p % 9] == At(b, (p / 9, p % 9));
      assert forall c :: InGrid(c) ==> (Pos(c) >= p <==> c == (p / 9, p % 9) || Pos(c) >= p + 1);
    }
  }

  /** At most 81 cells hold a value. */
  lemma FilledCountBound(b: Board)
    requires IsBoard(b)
    ensures 0 <= FilledCount(b) <= 81
  {
    FilledCountScan(b);
    FilledBound(b, 0);
  }

  /** `assigned == 81` is the same as a full board. */
  lemma CountFull(b: Board)
    requires IsBoard(b)
    ensures FilledCount(b) == 81 <==> Full(b)
  {
    FilledCountScan(b);
    FilledBound(b, 0);
  }

  // ---------------------------------------------------------------------
  // Invariants

  /** A filled cell has its own value as only candidate; an empty one keeps
      at least two digits. */
  ghost predicate CandOk(b: Board, d: Candidates, c: Cell)
    requires IsBoard(b) && Covers(d) && InGrid(c)
  {
    if At(b, c) != 0 then d[c] == {At(b, c)} else d[c] <= Digits && |d[c]| >= 2
  }

  ghost predicate Cands(b: Board, d: Candidates)
    requires IsBoard(b) && Covers(d)
  {
    forall c :: InGrid(c) ==> CandOk(b, d, c)
  }

  /** Propagated and queued cells hold values, and every filled cell is one
      or the other. */
  ghost predicate Tracked(st: State)
    requires Shaped(st)
  {
    (forall c: GridCell | c in st.arced :: At(st.board, c) != 0)
    && (forall k :: 0 <= k < |st.queue| ==> At(st.board, st.queue[k]) != 0)
    && (forall c :: InGrid(c) && At(st.board, c) != 0 ==> c in st.arced || c in st.queue)
  }

  /** What a log entry says about the board and candidates it leads to: a
      removal names two peers, the second holding the struck value, which
      the first no longer has; an inference names a digit the cell holds. */
  ghost predicate StepOk(b: Board, d: Candidates, e: RawStep)
    requires IsBoard(b) && Covers(d)
  {
    match e
    case Removal(from, to, v) =>
      InGrid(from) && InGrid(to) && Peers(from, to) && v != 0 && At(b, to) == v && v !in d[from]
    case Inference(c, v) => InGrid(c) && v in Digits && At(b, c) == v
  }

  ghost predicate LogOk(b: Board, d: Candidates, steps: seq<RawStep>)
    requires IsBoard(b) && Covers(d)
  {
    forall k :: 0 <= k < |steps| ==> StepOk(b, d, steps[k])
  }

  ghost predicate Inv(st: State) {
    Shaped(st) && Cands(st.board, st.domains) && Tracked(st)
    && st.placed == FilledCount(st.board) && LogOk(st.board, st.domains, st.steps)
  }

  /** Candidates only lose members. */
  ghost predicate Shrinks(d1: Candidates, d2: Candidates)
    requires Covers(d1) && Covers(d2)
  {
    forall c :: InGrid(c) ==> d2[c] <= d1[c]
  }

  /** From `a` to `b`: no filled cell changes and no candidate is added. */
  ghost predicate Grows(a: State, b: State)
    requires Shaped(a) && Shaped(b)
  {
    Extends(b.board, a.board) && Shrinks(a.domains, b.domains)
  }

  /** No peer of `s` still has the value at `s` as a candidate. */
  ghost predicate Settled(st: State, s: GridCell)
    requires Shaped(st)
  {
    forall p :: InGrid(p) && Peers(s, p) ==> At(st.board, s) !in st.domains[p]
  }

  /** Every propagated cell except `x` (the one being propagated) is
      settled. */
  ghost predicate SettledBut(st: State, x: Cell)
    requires Shaped(st)
  {
    forall s: GridCell | s in st.arced && s != x :: Settled(st, s)
  }

  /** A run that stopped: some candidate set is empty. */
  ghost predicate Failed(o: Outcome)
    requires IsBoard(o.board) && Covers(o.domains)
  {
    !o.ok && exists c :: InGrid(c) && o.domains[c] == {}
  }

  lemma GrowsTrans(a: State, b: State, c: State)
    requires Shaped(a) && Shaped(b) && Shaped(c) && Grows(a, b) && Grows(b, c)
    ensures Grows(a, c)
  {
  }

  lemma LogGrows(b1: Board, d1: Candidates, b2: Board, d2: Candidates, steps: seq<RawStep>)
    requires IsBoard(b1) && Covers(d1) && IsBoard(b2) && Covers(d2)
    requires LogOk(b1, d1, steps) && Extends(b2, b1) && Shrinks(d1, d2)
    ensures LogOk(b2, d2, steps)
  {
    forall k | 0 <= k < |steps|
      ensures StepOk(b2, d2, steps[k])
    {
      assert StepOk(b1, d1, steps[k]);
    }
  }

  lemma SettledPersists(a: State, b: State, s: GridCell)
    requires Shaped(a) && Shaped(b) && Grows(a, b) && At(a.board, s) != 0 && Settled(a, s)
    ensures Settled(b, s)
  {
  }

  lemma LogSnoc(b: Board, d: Candidates, steps: seq<RawStep>, e: RawStep)
    requires IsBoard(b) && Covers(d) && LogOk(b, d, steps) && StepOk(b, d, e)
    ensures LogOk(b, d, steps + [e])
  {
    assert forall k :: 0 <= k < |steps| ==> (steps + [e])[k] == steps[k];
  }

  // ---------------------------------------------------------------------
  // One removal keeps the invariants

  /** A stopped run: a candidate set is empty, and filled cells, candidates
      and log relate as they did before. */
  ghost predicate Halted(st: State, o: Outcome)
    requires Shaped(st)
  {
    IsBoard(o.board) && Covers(o.domains) && Failed(o)
    && Extends(o.board, st.board) && Shrinks(st.domains, o.domains)
    && LogOk(o.board, o.domains, o.steps)
  }

  /** A run stopped by a pass: `complete` is that pass's flag. */
  ghost predicate StoppedOk(st: State, o: Outcome, flag: bool)
    requires Shaped(st)
  {
    Halted(st, o) && o.complete == flag
  }

  /** What the reduction of `t` by `src` needs: `src` is a propagated cell
      holding `v`, and `t` is in its row, column or box. */
  ghost predicate ReduceReady(st: State, t: GridCell, src: GridCell, v: int)
  {
    Inv(st) && src in st.arced && At(st.board, src) == v && Related(src, t)
  }

  /** The result of a reduction that goes on: invariants kept, nothing
      filled changed, no candidate added, and `v` gone from `t`. */
  ghost predicate ReducedOk(st: State, next: State, t: GridCell, src: GridCell, v: int)
    requires Shaped(st)
  {
    Inv(next) && Grows(st, next) && next.arced == st.arced && (t != src ==> v !in next.domains[t])
  }

  lemma ReduceKeeps(st: State, t: GridCell, src: GridCell, v: int, flag: bool)
    requires ReduceReady(st, t, src, v)
    ensures var r := Reduce(st, t, src, v, flag);
            (r.Going? ==> ReducedOk(st, r.state, t, src, v)) && (r.Stopped? ==> StoppedOk(st, r.outcome, flag))
  {
    if t == src || v !in st.domains[t] {
    } else if At(st.board, t) != 0 {
      ReduceGiven(st, t, src, v, flag);
    } else if |st.domains[t]| == 2 {
      ReduceNarrow(st, t, src, v, flag);
    } else {
      ReduceWide(st, t, src, v, flag);
    }
  }

  /** Striking a filled peer's own value empties its set. */
  lemma ReduceGiven(st: State, t: GridCell, src: GridCell, v: int, flag: bool)
    requires ReduceReady(st, t, src, v) && t != src && v in st.domains[t] && At(st.board, t) != 0
    ensures var r := Reduce(st, t, src, v, flag); r.Stopped? && StoppedOk(st, r.outcome, flag)
  {
    assert CandOk(st.board, st.domains, t);
    var d := st.domains[t := {}];
    var e := Removal(t, src, v);
    assert At(st.board, src) != 0;
    LogGrows(st.board, st.domains, st.board, d, st.steps);
    LogSnoc(st.board, d, st.steps, e);
  }

  /** Striking one of three or more candidates of an empty cell. */
  lemma ReduceWide(st: State, t: GridCell, src: GridCell, v: int, flag: bool)
    requires ReduceReady(st, t, src, v) && t != src && v in st.domains[t] && At(st.board, t) == 0
    requires |st.domains[t]| != 2
    ensures var r := Reduce(st, t, src, v, flag); r.Going? && ReducedOk(st, r.state, t, src, v)
  {
    assert CandOk(st.board, st.domains, t);
    StrikeKeeps(st, t, src, v);
  }

  /** The state after striking `v` from a set that keeps two or more
      candidates. */
  lemma StrikeKeeps(st: State, t: GridCell, src: GridCell, v: int)
    requires ReduceReady(st, t, src, v) && t != src && v in st.domains[t] && At(st.board, t) == 0
    requires |st.domains[t]| >= 3
    ensures ReducedOk(st, st.(domains := st.domains[t := st.domains[t] - {v}], steps := st.steps + [Removal(t, src, v)]), t, src, v)
  {
    var d := st.domains[t := st.domains[t] - {v}];
    StrikeCands(st.board, st.domains, t, v);
    assert At(st.board, src) != 0;
    LogGrows(st.board, st.domains, st.board, d, st.steps);
    LogSnoc(st.board, d, st.steps, Removal(t, src, v));
  }

  /** Striking one of three or more candidates keeps every set well formed. */
  lemma StrikeCands(b: Board, dom: Candidates, t: GridCell, v: int)
    requires IsBoard(b) && Covers(dom) && Cands(b, dom) && At(b, t) == 0
    requires v in dom[t] && |dom[t]| >= 3
    ensures Covers(dom[t := dom[t] - {v}]) && Cands(b, dom[t := dom[t] - {v}])
    ensures Shrinks(dom, dom[t := dom[t] - {v}])
  {
    var d := dom[t := dom[t] - {v}];
    assert |dom[t] - {v}| == |dom[t]| - 1;
    forall c | InGrid(c)
      ensures CandOk(b, d, c)
    {
      assert CandOk(b, dom, c);
    }
  }

  /** Striking one of two candidates of an empty cell fills it. */
  lemma ReduceNarrow(st: State, t: GridCell, src: GridCell, v: int, flag: bool)
    requires ReduceReady(st, t, src, v) && t != src && v in st.domains[t] && At(st.board, t) == 0
    requires |st.domains[t]| == 2
    ensures var r := Reduce(st, t, src, v, flag); r.Going? && ReducedOk(st, r.state, t, src, v)
  {
    assert CandOk(st.board, st.domains, t);
    assert t !in st.arced;
    var left := st.domains[t] - {v};
    var removed := st.(domains := st.domains[t := left], steps := st.steps + [Removal(t, src, v)]);
    var next := Infer(removed, t);
    var w := Only(left);
    assert w in Digits && w != v;
    DigitNonZero(w);
    assert next.board == Put(st.board, t, w) && next.domains == st.domains[t := {w}];
    InferCands(st.board, st.domains, t, w);
    InferTracked(st, next, t, w);
    FilledCountPut(st.board, t, w);
    InferLog(st.board, st.domains, st.steps, t, w, src, v);
    assert next.steps == st.steps + [Removal(t, src, v)] + [Inference(t, w)];
  }

  lemma InferCands(b: Board, d: Candidates, t: GridCell, w: int)
    requires IsBoard(b) && Covers(d) && Cands(b, d) && At(b, t) == 0 && w in Digits
    ensures Cands(Put(b, t, w), d[t := {w}])
  {
    forall c | InGrid(c)
      ensures CandOk(Put(b, t, w), d[t := {w}], c)
    {
      assert CandOk(b, d, c);
    }
  }

  lemma InferTracked(st: State, next: State, t: GridCell, w: int)
    requires Shaped(st) && Tracked(st) && At(st.board, t) == 0 && w != 0
    requires Shaped(next) && next.board == Put(st.board, t, w)
    requires next.arced == st.arced && next.queue == st.queue + [t]
    ensures Tracked(next)
  {
    assert forall k :: 0 <= k < |st.queue| ==> next.queue[k] == st.queue[k];
    assert next.queue[|st.queue|] == t;
  }

  lemma InferLog(b: Board, d: Candidates, steps: seq<RawStep>, t: GridCell, w: int, src: GridCell, v: int)
    requires IsBoard(b) && Covers(d) && LogOk(b, d, steps)
    requires At(b, t) == 0 && w in Digits && w in d[t]
    requires Peers(t, src) && v != 0 && At(b, src) == v && v != w
    ensures LogOk(Put(b, t, w), d[t := {w}], steps + [Removal(t, src, v)] + [Inference(t, w)])
  {
    var b2, d2 := Put(b, t, w), d[t := {w}];
    LogGrows(b, d, b2, d2, steps);
    LogSnoc(b2, d2, steps, Removal(t, src, v));
    LogSnoc(b2, d2, steps + [Removal(t, src, v)], Inference(t, w));
  }

  // ---------------------------------------------------------------------
  // One pass keeps the invariants

  /** `RowCells`, `ColCells` and `BoxCells` of `src` are related to it. */
  lemma TargetsRelated(src: GridCell)
    ensures forall k :: 0 <= k < 9 ==> Related(src, RowCells(src)[k])
    ensures forall k :: 0 <= k < 9 ==> Related(src, ColCells(src)[k])
    ensures forall k :: 0 <= k < 9 ==> Related(src, BoxCells(src)[k])
  {
    forall k | 0 <= k < 9
      ensures Related(src, BoxCells(src)[k])
    {
      BoxOffset(src.0, k / 3);
      BoxOffset(src.1, k % 3);
    }
  }

  /** `x - x % 3 + a` lies in the same band of three as `x`. */
  lemma BoxOffset(x: int, a: int)
    requires 0 <= x < 9 && 0 <= a < 3
    ensures (x - x % 3 + a) / 3 == x / 3
  {
  }

  /** Every peer of `src` is one of its row, column or box targets. */
  lemma PeerTargeted(src: GridCell, p: GridCell)
    requires Peers(src, p)
    ensures p == RowCells(src)[p.1] || p == ColCells(src)[p.0]
            || p == BoxCells(src)[3 * (p.0 % 3) + p.1 % 3]
  {
    if src.0 != p.0 && src.1 != p.1 {
      var n := 3 * (p.0 % 3) + p.1 % 3;
      assert n / 3 == p.0 % 3 && n % 3 == p.1 % 3;
    }
  }

  /** What a pass over `ts` needs. */
  ghost predicate PassReady(st: State, ts: seq<GridCell>, src: GridCell, v: int)
  {
    Inv(st) && src in st.arced && At(st.board, src) == v
    && forall k :: 0 <= k < |ts| ==> Related(src, ts[k])
  }

  /** What a pass over `ts` that goes on leaves: the invariants, nothing
      filled changed, no candidate added, and `v` gone from every target. */
  ghost predicate PassDone(st: State, next: State, ts: seq<GridCell>, src: GridCell, v: int)
    requires Shaped(st)
  {
    Inv(next) && Grows(st, next) && next.arced == st.arced
    && forall k :: 0 <= k < |ts| && ts[k] != src ==> v !in next.domains[ts[k]]
  }

  lemma {:induction false} ReduceAllKeeps(st: State, ts: seq<GridCell>, src: GridCell, v: int, flag: bool)
    requires PassReady(st, ts, src, v)
    ensures var r := ReduceAll(st, ts, src, v, flag);
            (r.Going? ==> PassDone(st, r.state, ts, src, v)) && (r.Stopped? ==> StoppedOk(st, r.outcome, flag))
    decreases |ts|
  {
    if ts != [] {
      ReduceKeeps(st, ts[0], src, v, flag);
      match Reduce(st, ts[0], src, v, flag)
      case Stopped(o) =>
      case Going(s1) =>
        assert At(st.board, src) != 0;
        assert PassReady(s1, ts[1..], src, v);
        ReduceAllKeeps(s1, ts[1..], src, v, flag);
        match ReduceAll(s1, ts[1..], src, v, flag)
        case Stopped(o) =>
        case Going(s2) =>
          PassJoin(st, s1, s2, ts, src, v);
    }
  }

  /** The first target's result and the rest of the pass's result make the
      whole pass's result. */
  lemma PassJoin(st: State, s1: State, s2: State, ts: seq<GridCell>, src: GridCell, v: int)
    requires Shaped(st) && |ts| > 0
    requires Shaped(s1) && Grows(st, s1) && s1.arced == st.arced && (ts[0] != src ==> v !in s1.domains[ts[0]])
    requires PassDone(s1, s2, ts[1..], src, v)
    ensures PassDone(st, s2, ts, src, v)
  {
    forall k | 0 <= k < |ts| && ts[k] != src
      ensures v !in s2.domains[ts[k]]
    {
      if k > 0 {
        assert ts[k] == ts[1..][k - 1];
      }
    }
  }

  // ---------------------------------------------------------------------
  // One turn of the loop keeps the invariants

  /** Every propagated cell is settled. */
  ghost predicate AllSettled(st: State)
    requires Shaped(st)
  {
    forall s: GridCell | s in st.arced :: Settled(st, s)
  }

  /** The queue head moved to the propagated set. */
  function Pop(st: State): State
    requires |st.queue| > 0
  {
    st.(queue := st.queue[1..], arced := st.arced + {st.queue[0]})
  }

  lemma PopKeeps(st: State)
    requires Inv(st) && AllSettled(st) && |st.queue| > 0
    ensures Inv(Pop(st)) && SettledBut(Pop(st), st.queue[0]) && At(st.board, st.queue[0]) != 0
  {
    PopTracked(st);
  }

  lemma PopTracked(st: State)
    requires Shaped(st) && Tracked(st) && |st.queue| > 0
    ensures Shaped(Pop(st)) && Tracked(Pop(st))
  {
    var p := Pop(st);
    forall c | InGrid(c) && At(p.board, c) != 0
      ensures c in p.arced || c in p.queue
    {
      if c !in st.arced && c != st.queue[0] {
        var k :| 0 <= k < |st.queue| && st.queue[k] == c;
        assert p.queue[k - 1] == c;
      }
    }
    assert forall k :: 0 <= k < |p.queue| ==> p.queue[k] == st.queue[k + 1];
  }

  lemma PassSettled(st: State, next: State, src: GridCell)
    requires Shaped(st) && Shaped(next) && Inv(st) && SettledBut(st, src)
    requires Grows(st, next) && next.arced == st.arced
    ensures SettledBut(next, src)
  {
    forall s: GridCell | s in next.arced && s != src
      ensures Settled(next, s)
    {
      SettledPersists(st, next, s);
    }
  }

  /** After the row, column and box passes no peer of `src` keeps `v`. */
  lemma PeersCleared(src: GridCell, v: int, d1: Candidates, d2: Candidates, d3: Candidates)
    requires Covers(d1) && Covers(d2) && Covers(d3) && Shrinks(d1, d2) && Shrinks(d2, d3)
    requires forall k :: 0 <= k < 9 && RowCells(src)[k] != src ==> v !in d1[RowCells(src)[k]]
    requires forall k :: 0 <= k < 9 && ColCells(src)[k] != src ==> v !in d2[ColCells(src)[k]]
    requires forall k :: 0 <= k < 9 && BoxCells(src)[k] != src ==> v !in d3[BoxCells(src)[k]]
    ensures forall p :: InGrid(p) && Peers(src, p) ==> v !in d3[p]
  {
    forall p: GridCell | Peers(src, p)
      ensures v !in d3[p]
    {
      PeerTargeted(src, p);
      if p == RowCells(src)[p.1] {
        assert v !in d1[p];
      } else if p == ColCells(src)[p.0] {
        assert v !in d2[p];
      }
    }
  }

  lemma ProcessKeeps(st: State)
    requires Inv(st) && AllSettled(st) && |st.queue| > 0
    ensures var r := Process(st);
            (r.Going? ==> Inv(r.state) && AllSettled(r.state) && Grows(st, r.state))
            && (r.Stopped? ==> Halted(st, r.outcome))
  {
    var src := st.queue[0];
    var popped := Pop(st);
    var v := At(popped.board, src);
    PopKeeps(st);
    TargetsRelated(src);
    ReduceAllKeeps(popped, RowCells(src), src, v, true);
    match ReduceAll(popped, RowCells(src), src, v, true)
    case Stopped(o) =>
    case Going(s1) =>
      PassSettled(popped, s1, src);
      ReduceAllKeeps(s1, ColCells(src), src, v, true);
      match ReduceAll(s1, ColCells(src), src, v, true)
      case Stopped(o) =>
      case Going(s2) =>
        PassSettled(s1, s2, src);
        ReduceAllKeeps(s2, BoxCells(src), src, v, false);
        match ReduceAll(s2, BoxCells(src), src, v, false)
        case Stopped(o) =>
        case Going(s3) =>
          PassSettled(s2, s3, src);
          PeersCleared(src, v, s1.domains, s2.domains, s3.domains);
          assert Settled(s3, src);
  }

  // ---------------------------------------------------------------------
  // The whole run

  /** What a run from `st` returns: nothing filled changed, no candidate
      added, a log that explains itself; when it succeeds, a board without
      clashes whose candidates match it and a `complete` flag that means a
      full board; when it fails, an empty candidate set. */
  ghost predicate LoopOk(st: State, o: Outcome)
    requires Shaped(st)
  {
    IsBoard(o.board) && Covers(o.domains) && Extends(o.board, st.board)
    && Shrinks(st.domains, o.domains) && LogOk(o.board, o.domains, o.steps)
    && (o.ok ==> Cands(o.board, o.domains) && Consistent(o.board) && (o.complete <==> Full(o.board)))
    && (!o.ok ==> Failed(o))
  }

  /** With the queue empty every filled cell is settled, so no two peers
      share a value. */
  lemma FinishOk(st: State)
    requires Inv(st) && AllSettled(st) && st.queue == []
    ensures Consistent(st.board) && (st.placed == 81 <==> Full(st.board))
  {
    forall c: GridCell
      ensures NoClashAt(st.board, c)
    {
      if At(st.board, c) != 0 {
        assert c in st.arced;
        assert Settled(st, c);
        forall p | InGrid(p) && Peers(c, p)
          ensures At(st.board, c) != At(st.board, p)
        {
          assert CandOk(st.board, st.domains, p);
        }
      }
    }
    CountFull(st.board);
  }

  lemma {:induction false} LoopKeeps(st: State)
    requires Inv(st) && AllSettled(st)
    ensures LoopOk(st, Loop(st))
    decreases Pairs(st.domains), |st.queue|
  {
    if st.queue == [] {
      FinishOk(st);
    } else {
      ProcessKeeps(st);
      match Process(st)
      case Stopped(o) =>
      case Going(next) =>
        LoopKeeps(next);
    }
  }

  lemma SeedKeeps(b: Board)
    requires IsBoard(b)
    ensures Inv(Seed(b)) && AllSettled(Seed(b))
  {
    SeedCands(b);
    SeedQueue(b);
    FilledCountScan(b);
  }

  lemma SeedCands(b: Board)
    requires IsBoard(b)
    ensures Cands(b, SeedDomains(b))
  {
    assert |Digits| >= 2 by {
      assert {1, 2} <= Digits;
    }
    forall c | InGrid(c)
      ensures CandOk(b, SeedDomains(b), c)
    {
    }
  }

  /** The seeding queue holds exactly the filled cells. */
  lemma SeedQueue(b: Board)
    requires IsBoard(b)
    ensures forall k :: 0 <= k < |FilledFrom(b, 0)| ==> At(b, FilledFrom(b, 0)[k]) != 0
    ensures forall c :: InGrid(c) && At(b, c) != 0 ==> c in FilledFrom(b, 0)
  {
    var q := FilledFrom(b, 0);
    forall k | 0 <= k < |q|
      ensures At(b, q[k]) != 0
    {
      FilledHas(b, 0, q[k]);
    }
    forall c | InGrid(c) && At(b, c) != 0
      ensures c in q
    {
      FilledHas(b, 0, c);
      PosRange(c);
    }
  }

  /** `arc` never changes a filled cell and only removes candidates; every
      log entry is justified by the final board and candidates; a
      successful run leaves no two peers sharing a value, candidates that
      match the board, and `complete` exactly when the board is full; a
      failed run leaves a cell without candidates. */
  lemma PropagateSound(b: Board)
    requires IsBoard(b)
    ensures var o := Propagate(b);
            IsBoard(o.board) && Covers(o.domains) && Extends(o.board, b)
            && (forall c :: InGrid(c) ==> o.domains[c] <= InitialCandidates(At(b, c)))
            && LogOk(o.board, o.domains, o.steps)
            && (o.ok ==> Consistent(o.board) && Cands(o.board, o.domains) && (o.complete <==> Full(o.board)))
            && (!o.ok ==> Failed(o))
  {
    SeedKeeps(b);
    LoopKeeps(Seed(b));
  }

  // ---------------------------------------------------------------------
  // Propagation never loses a solution

  /** `sol` agrees with every filled cell and is still among the candidates
      everywhere. */
  ghost predicate Keeps(sol: Board, b: Board, d: Candidates)
    requires IsBoard(sol) && IsBoard(b) && Covers(d)
  {
    Extends(sol, b) && forall c :: InGrid(c) ==> At(sol, c) in d[c]
  }

  lemma ReduceKeepsSolution(st: State, t: GridCell, src: GridCell, v: int, flag: bool, sol: Board)
    requires ReduceReady(st, t, src, v) && IsBoard(sol) && Consistent(sol)
    requires Keeps(sol, st.board, st.domains)
    ensures var r := Reduce(st, t, src, v, flag); r.Going? && Keeps(sol, r.state.board, r.state.domains)
  {
    if t != src && v in st.domains[t] {
      assert At(st.board, src) != 0;
      assert NoClashAt(sol, src);
      var left := st.domains[t] - {v};
      assert At(sol, t) in left;
      if |left| == 1 && t !in st.arced {
        InferKeepsSolution(st.board, st.domains, t, left, sol);
      }
    }
  }

  /** Filling `t` with its last candidate writes the solution's value. */
  lemma InferKeepsSolution(b: Board, d: Candidates, t: GridCell, left: set<int>, sol: Board)
    requires IsBoard(b) && Covers(d) && IsBoard(sol) && Extends(sol, b)
    requires forall c :: InGrid(c) && c != t ==> At(sol, c) in d[c]
    requires |left| == 1 && At(sol, t) in left
    ensures Keeps(sol, Put(b, t, Only(left)), d[t := {Only(left)}])
  {
  }

  lemma {:induction false} ReduceAllKeepsSolution(st: State, ts: seq<GridCell>, src: GridCell, v: int, flag: bool, sol: Board)
    requires PassReady(st, ts, src, v) && IsBoard(sol) && Consistent(sol)
    requires Keeps(sol, st.board, st.domains)
    ensures var r := ReduceAll(st, ts, src, v, flag); r.Going? && Keeps(sol, r.state.board, r.state.domains)
    decreases |ts|
  {
    if ts != [] {
      ReduceKeepsSolution(st, ts[0], src, v, flag, sol);
      ReduceKeeps(st, ts[0], src, v, flag);
      var s1 := Reduce(st, ts[0], src, v, flag).state;
      assert At(st.board, src) != 0;
      assert PassReady(s1, ts[1..], src, v);
      ReduceAllKeepsSolution(s1, ts[1..], src, v, flag, sol);
    }
  }

  lemma ProcessKeepsSolution(st: State, sol: Board)
    requires Inv(st) && AllSettled(st) && |st.queue| > 0 && IsBoard(sol) && Consistent(sol)
    requires Keeps(sol, st.board, st.domains)
    ensures var r := Process(st); r.Going? && Keeps(sol, r.state.board, r.state.domains)
  {
    var src := st.queue[0];
    var popped := Pop(st);
    var v := At(popped.board, src);
    PopKeeps(st);
    TargetsRelated(src);
    ReduceAllKeeps(popped, RowCells(src), src, v, true);
    ReduceAllKeepsSolution(popped, RowCells(src), src, v, true, sol);
    var s1 := ReduceAll(popped, RowCells(src), src, v, true).state;
    ReduceAllKeeps(s1, ColCells(src), src, v, true);
    ReduceAllKeepsSolution(s1, ColCells(src), src, v, true, sol);
    var s2 := ReduceAll(s1, ColCells(src), src, v, true).state;
    ReduceAllKeepsSolution(s2, BoxCells(src), src, v, false, sol);
  }

  lemma {:induction false} LoopKeepsSolution(st: State, sol: Board)
    requires Inv(st) && AllSettled(st) && IsBoard(sol) && Consistent(sol)
    requires Keeps(sol, st.board, st.domains)
    ensures var o := Loop(st); o.ok && IsBoard(o.board) && Covers(o.domains) && Keeps(sol, o.board, o.domains)
    decreases Pairs(st.domains), |st.queue|
  {
    LoopKeeps(st);
    if st.queue != [] {
      ProcessKeepsSolution(st, sol);
      ProcessKeeps(st);
      LoopKeepsSolution(Process(st).state, sol);
    }
  }

  /** Propagation is sound for every solution in digits: such a solution
      survives among the candidates, agrees with every cell the run fills,
      and the run does not fail. So a failed run means there is no
      solution. */
  lemma PropagateKeepsSolutions(b: Board, sol: Board)
    requires IsBoard(b) && IsBoard(sol) && SolutionOf(sol, b)
    requires forall c :: InGrid(c) && At(b, c) == 0 ==> At(sol, c) in Digits
    ensures var o := Propagate(b);
            o.ok && IsBoard(o.board) && Covers(o.domains) && Extends(sol, o.board)
            && forall c :: InGrid(c) ==> At(sol, c) in o.domains[c]
  {
    SeedKeeps(b);
    LoopKeepsSolution(Seed(b), sol);
  }
  // ---------------------------------------------------------------------
  // Every filled-in cell is logged as an inference

  /** Each cell where `b` differs from the input `b0` has an inference step
      for its current value in the log. */
  ghost predicate Logged(b0: Board, b: Board, steps: seq<RawStep>)
    requires IsBoard(b0) && IsBoard(b)
  {
    forall c :: InGrid(c) && At(b, c) != At(b0, c) ==> Inference(c, At(b, c)) in steps
  }

  /** `Logged` for whichever way a step of the run ends. */
  ghost predicate PhaseLogged(b0: Board, r: Phase)
    requires IsBoard(b0)
  {
    match r
    case Going(s) => IsBoard(s.board) && Logged(b0, s.board, s.steps)
    case Stopped(o) => IsBoard(o.board) && Logged(b0, o.board, o.steps)
  }

  /** Appending to the log keeps every logged inference. */
  lemma LoggedSnoc(b0: Board, b: Board, steps: seq<RawStep>, e: RawStep)
    requires IsBoard(b0) && IsBoard(b) && Logged(b0, b, steps)
    ensures Logged(b0, b, steps + [e])
  {
    forall c | InGrid(c) && At(b, c) != At(b0, c)
      ensures Inference(c, At(b, c)) in steps + [e]
    {
      assert Inference(c, At(b, c)) in steps;
    }
  }

  lemma ReduceLogs(st: State, t: GridCell, src: GridCell, v: int, flag: bool, b0: Board)
    requires Shaped(st) && IsBoard(b0) && Logged(b0, st.board, st.steps)
    ensures PhaseLogged(b0, Reduce(st, t, src, v, flag))
  {
    if t != src && v in st.domains[t] {
      var left := st.domains[t] - {v};
      var steps := st.steps + [Removal(t, src, v)];
      LoggedSnoc(b0, st.board, st.steps, Removal(t, src, v));
      if |left| == 1 && t !in st.arced {
        var w := Only(left);
        LoggedSnoc(b0, st.board, steps, Inference(t, w));
        assert Inference(t, w) in steps + [Inference(t, w)];
      }
    }
  }

  lemma {:induction false} ReduceAllLogs(st: State, ts: seq<GridCell>, src: GridCell, v: int, flag: bool, b0: Board)
    requires Shaped(st) && IsBoard(b0) && Logged(b0, st.board, st.steps)
    ensures PhaseLogged(b0, ReduceAll(st, ts, src, v, flag))
    decreases |ts|
  {
    if ts != [] {
      ReduceLogs(st, ts[0], src, v, flag, b0);
      match Reduce(st, ts[0], src, v, flag)
      case Stopped(o) =>
      case Going(s1) => ReduceAllLogs(s1, ts[1..], src, v, flag, b0);
    }
  }

  lemma ProcessLogs(st: State, b0: Board)
    requires Shaped(st) && |st.queue| > 0 && IsBoard(b0) && Logged(b0, st.board, st.steps)
    ensures PhaseLogged(b0, Process(st))
  {
    var src := st.queue[0];
    var popped := Pop(st);
    var v := At(popped.board, src);
    ReduceAllLogs(popped, RowCells(src), src, v, true, b0);
    match ReduceAll(popped, RowCells(src), src, v, true)
    case Stopped(o) =>
    case Going(s1) =>
      ReduceAllLogs(s1, ColCells(src), src, v, true, b0);
      match ReduceAll(s1, ColCells(src), src, v, true)
      case Stopped(o) =>
      case Going(s2) => ReduceAllLogs(s2, BoxCells(src), src, v, false, b0);
  }

  lemma {:induction false} LoopLogs(st: State, b0: Board)
    requires Shaped(st) && IsBoard(b0) && Logged(b0, st.board, st.steps)
    ensures IsBoard(Loop(st).board) && Logged(b0, Loop(st).board, Loop(st).steps)
    decreases Pairs(st.domains), |st.queue|
  {
    if st.queue != [] {
      ProcessLogs(st, b0);
      match Process(st)
      case Stopped(o) =>
      case Going(next) => LoopLogs(next, b0);
    }
  }

  /** Propagation writes a cell only together with an inference step for
      it: every cell where the returned board differs from the input is
      logged with its new value. */
  lemma PropagateLogs(b: Board)
    requires IsBoard(b)
    ensures var o := Propagate(b);
            IsBoard(o.board) && forall c :: InGrid(c) && At(o.board, c) != At(b, c) ==> Inference(c, At(o.board, c)) in o.steps
  {
    LoopLogs(Seed(b), b);
  }

  // ---------------------------------------------------------------------
  // Every removal takes away a candidate that was there

  /** Against the seeded candidates `d0`: the candidates only shrank, every
      logged removal names a value `d0` allowed at its cell and `d` no
      longer allows there, and no (cell, value) pair is removed twice. */
  ghost predicate Struck(d0: Candidates, d: Candidates, steps: seq<RawStep>)
    requires Covers(d0) && Covers(d)
  {
    (forall c :: InGrid(c) ==> d[c] <= d0[c])
    && (forall k :: 0 <= k < |steps| && steps[k].Removal? ==>
          InGrid(steps[k].from) && steps[k].value in d0[steps[k].from] && steps[k].value !in d[steps[k].from])
    && (forall i, j :: 0 <= i < j < |steps| && steps[i].Removal? && steps[j].Removal? ==>
          (steps[i].from, steps[i].value) != (steps[j].from, steps[j].value))
  }

  /** `Struck` for whichever way a step of the run ends. */
  ghost predicate PhaseStruck(d0: Candidates, r: Phase)
    requires Covers(d0)
  {
    match r
    case Going(s) => Covers(s.domains) && Struck(d0, s.domains, s.steps)
    case Stopped(o) => Covers(o.domains) && Struck(d0, o.domains, o.steps)
  }

  /** Logging an inference leaves the removal history as it was. */
  lemma StruckInfer(d0: Candidates, d: Candidates, steps: seq<RawStep>, c: Cell, v: int)
    requires Covers(d0) && Covers(d) && Struck(d0, d, steps)
    ensures Struck(d0, d, steps + [Inference(c, v)])
  {
    var es := steps + [Inference(c, v)];
    assert forall k :: 0 <= k < |steps| ==> es[k] == steps[k];
  }

  /** Removing `v` from the candidates of `t` while logging it: `v` was a
      candidate of `t`, so no earlier removal named the same pair. */
  lemma StruckRemove(d0: Candidates, d: Candidates, steps: seq<RawStep>, t: GridCell, src: Cell, v: int)
    requires Covers(d0) && Covers(d) && Struck(d0, d, steps) && v in d[t]
    ensures Covers(d[t := d[t] - {v}])
    ensures Struck(d0, d[t := d[t] - {v}], steps + [Removal(t, src, v)])
  {
    var d1 := d[t := d[t] - {v}];
    var es := steps + [Removal(t, src, v)];
    forall k | 0 <= k < |es| && es[k].Removal?
      ensures InGrid(es[k].from) && es[k].value in d0[es[k].from] && es[k].value !in d1[es[k].from]
    {
      if k < |steps| {
        assert es[k] == steps[k];
      }
    }
    forall i, j | 0 <= i < j < |es| && es[i].Removal? && es[j].Removal?
      ensures (es[i].from, es[i].value) != (es[j].from, es[j].value)
    {
      assert es[i] == steps[i];
      if j < |steps| {
        assert es[j] == steps[j];
      } else if es[i].from == t {
        assert es[i].value !in d[t];
      }
    }
  }

  lemma ReduceStrikes(st: State, t: GridCell, src: GridCell, v: int, flag: bool, d0: Candidates)
    requires Shaped(st) && Covers(d0) && Struck(d0, st.domains, st.steps)
    ensures PhaseStruck(d0, Reduce(st, t, src, v, flag))
  {
    if t != src && v in st.domains[t] {
      var left := st.domains[t] - {v};
      StruckRemove(d0, st.domains, st.steps, t, src, v);
      if |left| == 1 && t !in st.arced {
        StruckInfer(d0, st.domains[t := left], st.steps + [Removal(t, src, v)], t, Only(left));
      }
    }
  }

  lemma {:induction false} ReduceAllStrikes(st: State, ts: seq<GridCell>, src: GridCell, v: int, flag: bool, d0: Candidates)
    requires Shaped(st) && Covers(d0) && Struck(d0, st.domains, st.steps)
    ensures PhaseStruck(d0, ReduceAll(st, ts, src, v, flag))
    decreases |ts|
  {
    if ts != [] {
      ReduceStrikes(st, ts[0], src, v, flag, d0);
      match Reduce(st, ts[0], src, v, flag)
      case Stopped(o) =>
      case Going(s1) => ReduceAllStrikes(s1, ts[1..], src, v, flag, d0);
    }
  }

  lemma ProcessStrikes(st: State, d0: Candidates)
    requires Shaped(st) && |st.queue| > 0 && Covers(d0) && Struck(d0, st.domains, st.steps)
    ensures PhaseStruck(d0, Process(st))
  {
    var src := st.queue[0];
    var popped := Pop(st);
    var v := At(popped.board, src);
    ReduceAllStrikes(popped, RowCells(src), src, v, true, d0);
    match ReduceAll(popped, RowCells(src), src, v, true)
    case Stopped(o) =>
    case Going(s1) =>
      ReduceAllStrikes(s1, ColCells(src), src, v, true, d0);
      match ReduceAll(s1, ColCells(src), src, v, true)
      case Stopped(o) =>
      case Going(s2) => ReduceAllStrikes(s2, BoxCells(src), src, v, false, d0);
  }

  lemma {:induction false} LoopStrikes(st: State, d0: Candidates)
    requires Shaped(st) && Covers(d0) && Struck(d0, st.domains, st.steps)
    ensures Covers(Loop(st).domains) && Struck(d0, Loop(st).domains, Loop(st).steps)
    decreases Pairs(st.domains), |st.queue|
  {
    if st.queue != [] {
      ProcessStrikes(st, d0);
      match Process(st)
      case Stopped(o) =>
      case Going(next) => LoopStrikes(next, d0);
    }
  }

  /** Every removal step `arc` logs takes a value out of a candidate set
      that held it after seeding and does not hold it at the end, and no
      cell loses the same value twice: the log's removals are exactly
      distinct candidates the run eliminated. */
  lemma PropagateStrikes(b: Board)
    requires IsBoard(b)
    ensures var o := Propagate(b);
            Covers(o.domains)
            && (forall k :: 0 <= k < |o.steps| && o.steps[k].Removal? ==>
                  InGrid(o.steps[k].from) && o.steps[k].value in SeedDomains(b)[o.steps[k].from]
                  && o.steps[k].value !in o.domains[o.steps[k].from])
            && (forall i, j :: 0 <= i < j < |o.steps| && o.steps[i].Removal? && o.steps[j].Removal? ==>
                  (o.steps[i].from, o.steps[i].value) != (o.steps[j].from, o.steps[j].value))
  {
    LoopStrikes(Seed(b), SeedDomains(b));
  }
}
