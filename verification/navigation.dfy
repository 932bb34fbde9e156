/** The viewer's cursor over the step log (`nextStep`, `prevStep`,
    `jumpToStep`): a position in [-1, N-1] together with the candidate map
    recomputed from scratch for it on every move. */
module Navigation {
  import opened Grid
  import opened Events
  import opened Replay
  import opened Overlay

  /** The viewer state the navigation reads and writes: the board the
      replay seeds from, the step log, `currentStepIndex` and `domains`. */
  datatype Viewer = Viewer(board: Board, steps: seq<Event>, cursor: int, domains: Domains)

  /** The cursor lies in [-1, N-1] and the shown candidates are exactly the
      replay of steps 0..cursor. */
  ghost predicate Valid(v: Viewer) {
    IsBoard(v.board) && -1 <= v.cursor < |v.steps|
    && v.domains == DomainsAt(v.board, v.steps, v.cursor)
  }

  /** The assignments overlay shown together with the candidates. */
  function OverlayAt(v: Viewer): Assignments
    requires -1 <= v.cursor < |v.steps|
  {
    OverlayOf(v.steps[..v.cursor + 1])
  }

  /** Entering the viewer with a solver log: cursor -1 and the seeded
      candidates. */
  function Enter(board: Board, steps: seq<Event>): (v: Viewer)
    requires IsBoard(board)
    ensures Valid(v) && v.cursor == -1 && v.board == board && v.steps == steps
    ensures OverlayAt(v) == map[]
  {
    assert steps[..0] == [];
    Viewer(board, steps, -1, InitialDomains(board))
  }

  /** `nextStep`: moves forward only while the cursor is below N-1. */
  function NextStep(v: Viewer): (r: Viewer)
    requires Valid(v)
    ensures Valid(r) && r.board == v.board && r.steps == v.steps
    ensures v.cursor < |v.steps| - 1 ==> r.cursor == v.cursor + 1
    ensures v.cursor >= |v.steps| - 1 ==> r == v
  {
    if v.cursor < |v.steps| - 1 then
      var k := v.cursor + 1;
      v.(cursor := k, domains := DomainsAt(v.board, v.steps, k))
    else v
  }

  /** The seeding loop the viewer runs when the cursor returns to -1. */
  function ResetDomains(v: Viewer): (d: Domains)
    requires IsBoard(v.board)
    ensures d == DomainsAt(v.board, v.steps, -1)
  {
    assert v.steps[..0] == [];
    InitialDomains(v.board)
  }

  /** `prevStep`: moves back only while the cursor is at least 0; landing on
      -1 reseeds the candidates instead of replaying. */
  function PrevStep(v: Viewer): (r: Viewer)
    requires Valid(v)
    ensures Valid(r) && r.board == v.board && r.steps == v.steps
    ensures v.cursor >= 0 ==> r.cursor == v.cursor - 1
    ensures v.cursor < 0 ==> r == v
  {
    if v.cursor >= 0 then
      var k := v.cursor - 1;
      if k >= 0 then v.(cursor := k, domains := DomainsAt(v.board, v.steps, k))
      else v.(cursor := k, domains := ResetDomains(v))
    else v
  }

  /** `jumpToStep`: any index outside [-1, N-1] changes nothing. */
  function JumpToStep(v: Viewer, index: int): (r: Viewer)
    requires Valid(v)
    ensures Valid(r) && r.board == v.board && r.steps == v.steps
    ensures (index < -1 || index >= |v.steps|) ==> r == v
    ensures -1 <= index < |v.steps| ==> r.cursor == index
  {
    if index < -1 || index >= |v.steps| then v
    else if index >= 0 then v.(cursor := index, domains := DomainsAt(v.board, v.steps, index))
    else v.(cursor := index, domains := ResetDomains(v))
  }

  /** A state is determined by its board, log and cursor. */
  lemma ValidDetermined(v: Viewer, w: Viewer)
    requires Valid(v) && Valid(w)
    requires v.board == w.board && v.steps == w.steps && v.cursor == w.cursor
    ensures v == w
  {
  }

  /** Stepping forward then back returns to the same state. */
  lemma NextThenPrev(v: Viewer)
    requires Valid(v) && v.cursor < |v.steps| - 1
    ensures PrevStep(NextStep(v)) == v
  {
    ValidDetermined(PrevStep(NextStep(v)), v);
  }

  /** Stepping back then forward returns to the same state. */
  lemma PrevThenNext(v: Viewer)
    requires Valid(v) && v.cursor >= 0
    ensures NextStep(PrevStep(v)) == v
  {
    ValidDetermined(NextStep(PrevStep(v)), v);
  }

  /** Each step is a jump to the neighbouring index. */
  lemma StepsAreJumps(v: Viewer)
    requires Valid(v)
    ensures v.cursor < |v.steps| - 1 ==> NextStep(v) == JumpToStep(v, v.cursor + 1)
    ensures v.cursor >= 0 ==> PrevStep(v) == JumpToStep(v, v.cursor - 1)
  {
    if v.cursor < |v.steps| - 1 {
      ValidDetermined(NextStep(v), JumpToStep(v, v.cursor + 1));
    }
    if v.cursor >= 0 {
      ValidDetermined(PrevStep(v), JumpToStep(v, v.cursor - 1));
    }
  }

  /** `nextStep` pressed n times: the cursor advances by n but never past
      N-1. */
  function Forward(v: Viewer, n: nat): (r: Viewer)
    requires Valid(v)
    ensures Valid(r) && r.board == v.board && r.steps == v.steps
    ensures r.cursor == (if v.cursor + n < |v.steps| then v.cursor + n else |v.steps| - 1)
    decreases n
  {
    if n == 0 then v else NextStep(Forward(v, n - 1))
  }

  /** From the entry state, n presses of `nextStep` give the same state as
      jumping to index n-1 (or N-1 once the log is exhausted): the N+1
      states form one line. */
  lemma ForwardFromStart(board: Board, steps: seq<Event>, n: nat)
    requires IsBoard(board)
    ensures var r := Forward(Enter(board, steps), n);
            r == JumpToStep(Enter(board, steps), if n <= |steps| then n - 1 else |steps| - 1)
  {
    var start := Enter(board, steps);
    var r := Forward(start, n);
    ValidDetermined(r, JumpToStep(start, r.cursor));
  }
}
