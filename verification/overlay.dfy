/** The two cell-to-value maps the viewer derives from steps 0..k besides the
    candidate lists: the cells the search currently holds an assignment in
    (`backtrackAssignments`) and the cells propagation has pinned
    (`isArcInferred`). */
module Overlay {
  import opened Wrappers
  import opened Grid
  import opened Events

  type Assignments = map<Cell, int>

  predicate IsSearchStep(e: Event) {
    e.BacktrackAssign? || e.BacktrackRevert?
  }

  /** One pass of the overlay loop: an assignment stores cell -> value, a
      revert deletes the cell whatever value it holds, anything else is
      ignored. */
  function OverlayStep(o: Assignments, e: Event): Assignments {
    match e
    case BacktrackAssign(cell, value) => o[cell := value]
    case BacktrackRevert(cell, _, _) => o - {cell}
    case _ => o
  }

  /** The overlay after steps es, applied left to right from an empty map. */
  function OverlayOf(es: seq<Event>): Assignments
    decreases |es|
  {
    if |es| == 0 then map[] else OverlayStep(OverlayOf(es[..|es| - 1]), es[|es| - 1])
  }

  /** Reference definition: the last assignment or revert at `c` in es. */
  function LastSearchStep(es: seq<Event>, c: Cell): (r: Option<Event>)
    ensures r.Some? ==> IsSearchStep(r.value) && r.value.cell == c && r.value in es
    decreases |es|
  {
    if |es| == 0 then None
    else
      var e := es[|es| - 1];
      if IsSearchStep(e) && e.cell == c then Some(e)
      else
        var r := LastSearchStep(es[..|es| - 1], c);
        assert r.Some? ==> r.value in es[..|es| - 1];
        r
  }

  /** A cell is in the overlay exactly when its last assignment-or-revert is
      an assignment, and it then maps to that assignment's value; earlier
      steps at the cell are irrelevant (matching is by cell, not by a stack). */
  lemma {:induction false} OverlayIsLastAssignment(es: seq<Event>, c: Cell)
    ensures c in OverlayOf(es) <==>
              LastSearchStep(es, c).Some? && LastSearchStep(es, c).value.BacktrackAssign?
    ensures c in OverlayOf(es) ==> OverlayOf(es)[c] == LastSearchStep(es, c).value.value
    decreases |es|
  {
    if |es| > 0 {
      OverlayIsLastAssignment(es[..|es| - 1], c);
    }
  }

  /** A cell that no assignment step names never enters the overlay; in
      particular a cell fixed only by propagation never appears there. */
  lemma OnlyAssignedCells(es: seq<Event>, c: Cell)
    requires forall i :: 0 <= i < |es| ==> !(es[i].BacktrackAssign? && es[i].cell == c)
    ensures c !in OverlayOf(es)
  {
    OverlayIsLastAssignment(es, c);
  }

  /** The loop of `renderAIMode` over steps 0..k. */
  method BacktrackAssignments(steps: seq<Event>, k: int) returns (o: Assignments)
    requires -1 <= k < |steps|
    ensures o == OverlayOf(steps[..k + 1])
  {
    o := map[];
    var i := 0;
    while i <= k
      invariant 0 <= i <= k + 1
      invariant o == OverlayOf(steps[..i])
    {
      assert steps[..i + 1][..i] == steps[..i];
      var step := steps[i];
      if step.BacktrackAssign? {
        o := o[step.cell := step.value];
      } else if step.BacktrackRevert? {
        o := o - {step.cell};
      }
      i := i + 1;
    }
  }

  // ---------------------------------------------------------------------
  // Cells pinned by propagation

  /** One pass of the `isArcInferred` loop. */
  function InferredStep(m: Assignments, e: Event): Assignments {
    if e.ArcInferred? then m[e.cell := e.value] else m
  }

  function InferredOf(es: seq<Event>): Assignments
    decreases |es|
  {
    if |es| == 0 then map[] else InferredStep(InferredOf(es[..|es| - 1]), es[|es| - 1])
  }

  /** The `isArcInferred` loop of the grid rendering over steps 0..k. */
  method ArcInferredCells(steps: seq<Event>, k: int) returns (m: Assignments)
    requires -1 <= k < |steps|
    ensures m == InferredOf(steps[..k + 1])
  {
    m := map[];
    var i := 0;
    while i <= k
      invariant 0 <= i <= k + 1
      invariant m == InferredOf(steps[..i])
    {
      assert steps[..i + 1][..i] == steps[..i];
      var step := steps[i];
      if step.ArcInferred? {
        m := m[step.cell := step.value];
      }
      i := i + 1;
    }
  }

  predicate InfersAt(e: Event, c: Cell) {
    e.ArcInferred? && e.cell == c
  }

  /** The keys are exactly the cells named by some inference step, and each
      maps to the value of the last inference at that cell. */
  lemma {:induction false} InferredIsLast(es: seq<Event>, c: Cell)
    ensures c in InferredOf(es) <==> exists i :: 0 <= i < |es| && InfersAt(es[i], c)
    ensures c in InferredOf(es) ==>
              exists i :: 0 <= i < |es| && es[i] == ArcInferred(c, InferredOf(es)[c])
                          && forall j :: i < j < |es| ==> !InfersAt(es[j], c)
    decreases |es|
  {
    if |es| > 0 {
      var n := |es| - 1;
      var pre := es[..n];
      InferredIsLast(pre, c);
      if InfersAt(es[n], c) {
        assert es[n] == ArcInferred(c, InferredOf(es)[c]);
      } else {
        if exists i :: 0 <= i < |es| && InfersAt(es[i], c) {
          var i :| 0 <= i < |es| && InfersAt(es[i], c);
          assert pre[i] == es[i];
        }
        if c in InferredOf(es) {
          var i :| 0 <= i < n && pre[i] == ArcInferred(c, InferredOf(pre)[c])
                   && forall j :: i < j < n ==> !InfersAt(pre[j], c);
          assert es[i] == pre[i];
          forall j | i < j < |es|
            ensures !InfersAt(es[j], c)
          {
            if j < n { assert es[j] == pre[j]; }
          }
        }
      }
    }
  }
}
