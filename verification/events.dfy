/** The solver's step log as the viewer receives it: four kinds of step,
    each carrying absolute cell coordinates. */
module Events {
  import opened Wrappers
  import opened Grid

  /** `domain_before`: a 9x9 array of candidate lists, one per cell (the
      replay reads it at every row and column). */
  type Snapshot = s: seq<seq<seq<int>>> | |s| == 9 && forall r :: 0 <= r < 9 ==> |s[r]| == 9
    witness seq(9, _ => seq(9, _ => []))

  datatype Event =
    | /** Propagation removed `value` from `from` because `to` holds it. */
      Arc(from: Cell, to: Cell, value: int)
    | /** Propagation narrowed `cell` to the single candidate `value`. */
      ArcInferred(cell: Cell, value: int)
    | /** The search tentatively placed `value` at `cell`. */
      BacktrackAssign(cell: Cell, value: int)
    | /** The search took back `value` at `cell`, optionally carrying the
          whole candidate grid from before the assignment. */
      BacktrackRevert(cell: Cell, value: int, domainBefore: Option<Snapshot>)

  /** True when replaying `e` stores a whole new candidate list for `c`:
      a revert with a snapshot stores all 81 grid cells (and not its own
      cell unless that is one of them); an arc removal stores nothing new. */
  predicate Writes(e: Event, c: Cell) {
    match e
    case Arc(_, _, _) => false
    case ArcInferred(cell, _) => cell == c
    case BacktrackAssign(cell, _) => cell == c
    case BacktrackRevert(cell, _, snap) => if snap.Some? then InGrid(c) else cell == c
  }
}
