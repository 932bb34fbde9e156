/** Rebuilding the per-cell candidate lists at a cursor position
    (`applyStepsToDomains` in the viewer): seed every empty cell of the board
    with 1..9, then fold the logged steps 0..k over the map. */
module Replay {
  import opened Wrappers
  import opened Grid
  import opened Events

  /** Candidate lists keyed by cell, as the viewer's `domains` object. */
  type Domains = map<Cell, seq<int>>

  const FullDomain: seq<int> := [1, 2, 3, 4, 5, 6, 7, 8, 9]

  /** `list.filter(v => v !== value)`: every occurrence of `v` goes, every
      other element stays with its multiplicity. */
  function Without(s: seq<int>, v: int): (r: seq<int>)
    ensures multiset(r) == multiset(s)[v := 0]
    ensures v !in s ==> r == s
    decreases |s|
  {
    if |s| == 0 then []
    else
      assert s == [s[0]] + s[1..];
      (if s[0] == v then [] else [s[0]]) + Without(s[1..], v)
  }

  // ---------------------------------------------------------------------
  // Seeding

  /** The seeding loop restricted to row-major positions p..80. */
  function SeedFrom(b: Board, p: int): Domains
    requires IsBoard(b) && 0 <= p <= 81
    decreases 81 - p
  {
    if p == 81 then map[]
    else
      var rest := SeedFrom(b, p + 1);
      if b[p / 9][p % 9] == 0 then rest[(p / 9, p % 9) := FullDomain] else rest
  }

  /** The loop from position p on adds one `[1..9]` entry per empty cell it
      visits and no other key. */
  lemma {:induction false} SeedFromHas(b: Board, p: int, c: Cell)
    requires IsBoard(b) && 0 <= p <= 81
    ensures c in SeedFrom(b, p) <==> InGrid(c) && Pos(c) >= p && At(b, c) == 0
    ensures c in SeedFrom(b, p) ==> SeedFrom(b, p)[c] == FullDomain
    decreases 81 - p
  {
    if p == 81 {
      if InGrid(c) {
        PosRange(c);
      }
    } else {
      SeedFromHas(b, p + 1, c);
      ScanCell(p);
    }
  }

  /** One entry `[1..9]` per empty cell of the board, nothing else. */
  function InitialDomains(b: Board): (d: Domains)
    requires IsBoard(b)
    ensures forall c :: c in d <==> InGrid(c) && At(b, c) == 0
    ensures forall c :: c in d ==> d[c] == FullDomain
  {
    map c | c in AllCells() && At(b, c) == 0 :: FullDomain
  }

  /** The viewer's nested seeding loop over rows and columns builds exactly
      that map: the visiting order leaves no trace in the result. */
  lemma SeedLoopAgrees(b: Board, s: Domains, d: Domains)
    requires IsBoard(b) && s == SeedFrom(b, 0) && d == InitialDomains(b)
    ensures s == d
  {
    forall c
      ensures (c in s <==> c in d) && (c in s ==> s[c] == d[c])
    {
      SeedCellAgrees(b, c, s, d);
    }
    SameEntries(s, d);
  }

  lemma SeedCellAgrees(b: Board, c: Cell, s: Domains, d: Domains)
    requires IsBoard(b) && s == SeedFrom(b, 0) && d == InitialDomains(b)
    ensures (c in s <==> c in d) && (c in s ==> s[c] == d[c])
  {
    SeedFromHas(b, 0, c);
    if InGrid(c) {
      PosRange(c);
    }
  }

  lemma SameEntries(s: Domains, d: Domains)
    requires forall c :: (c in s <==> c in d) && (c in s ==> s[c] == d[c])
    ensures s == d
  {
    assert s.Keys == d.Keys;
  }

  // ---------------------------------------------------------------------
  // One step

  /** The 81 grid entries of a `domain_before` snapshot. */
  function SnapshotMap(s: Snapshot): (m: Domains)
    ensures forall c :: c in m <==> InGrid(c)
    ensures forall c :: InGrid(c) ==> m[c] == s[c.0][c.1]
  {
    map i, j | 0 <= i < 9 && 0 <= j < 9 :: (i, j) := s[i][j]
  }

  /** The body of the replay loop for one step. */
  function ApplyEvent(d: Domains, e: Event): Domains {
    match e
    case Arc(from, _, value) =>
      if from in d then d[from := Without(d[from], value)] else d
    case ArcInferred(cell, value) => d[cell := [value]]
    case BacktrackAssign(cell, value) => d[cell := [value]]
    case BacktrackRevert(cell, _, snap) =>
      if snap.Some? then d + SnapshotMap(snap.value) else d[cell := []]
  }

  /** A key is present after a step exactly when it was present before or
      the step stores a list for it. */
  lemma ApplyKeys(d: Domains, e: Event, c: Cell)
    ensures c in ApplyEvent(d, e) <==> c in d || Writes(e, c)
  {
  }

  /** An arc removal never adds a key and touches only the `from` entry,
      where every occurrence of the value goes. */
  lemma ArcEffect(d: Domains, e: Event)
    requires e.Arc?
    ensures var r := ApplyEvent(d, e);
            r.Keys == d.Keys
            && (forall c :: c in d && c != e.from ==> r[c] == d[c])
            && (e.from in d ==> multiset(r[e.from]) == multiset(d[e.from])[e.value := 0])
            && (e.from in d && e.value !in d[e.from] ==> r == d)
  {
  }

  /** An inference or an assignment replaces exactly one entry with
      `[value]`. */
  lemma PinEffect(d: Domains, e: Event)
    requires e.ArcInferred? || e.BacktrackAssign?
    ensures var r := ApplyEvent(d, e);
            r.Keys == d.Keys + {e.cell} && r[e.cell] == [e.value]
            && forall c :: c in d && c != e.cell ==> r[c] == d[c]
  {
  }

  /** A revert with a snapshot overwrites the 81 grid entries and nothing
      else; without one, only the reverted cell's entry becomes empty. */
  lemma RevertEffect(d: Domains, e: Event)
    requires e.BacktrackRevert?
    ensures var r := ApplyEvent(d, e);
            e.domainBefore.Some? ==>
              (forall c :: InGrid(c) ==> c in r && r[c] == e.domainBefore.value[c.0][c.1])
              && forall c :: !InGrid(c) ==> (c in r <==> c in d) && (c in d ==> r[c] == d[c])
    ensures var r := ApplyEvent(d, e);
            e.domainBefore.None? ==>
              r.Keys == d.Keys + {e.cell} && r[e.cell] == []
              && forall c :: c in d && c != e.cell ==> r[c] == d[c]
  {
  }

  // ---------------------------------------------------------------------
  // The fold

  /** Steps applied strictly in order, left to right. */
  function Fold(d: Domains, es: seq<Event>): Domains
    decreases |es|
  {
    if |es| == 0 then d else ApplyEvent(Fold(d, es[..|es| - 1]), es[|es| - 1])
  }

  /** The candidate map shown at cursor k: seed, then steps 0..k. */
  function DomainsAt(b: Board, steps: seq<Event>, k: int): Domains
    requires IsBoard(b) && -1 <= k < |steps|
  {
    Fold(InitialDomains(b), steps[..k + 1])
  }

  /** `applyStepsToDomains(stepIndex)`: the loop over steps 0..stepIndex. */
  method ApplyStepsToDomains(b: Board, steps: seq<Event>, stepIndex: int) returns (d: Domains)
    requires IsBoard(b) && -1 <= stepIndex < |steps|
    ensures d == Fold(InitialDomains(b), steps[..stepIndex + 1])
  {
    var init := InitialDomains(b);
    d := init;
    var i := 0;
    while i <= stepIndex
      invariant 0 <= i <= stepIndex + 1
      invariant d == Fold(init, steps[..i])
    {
      FoldSnoc(init, steps, i);
      d := ApplyEvent(d, steps[i]);
      i := i + 1;
    }
  }

  /** Replaying one more step of a prefix. */
  lemma FoldSnoc(d: Domains, es: seq<Event>, n: int)
    requires 0 <= n < |es|
    ensures Fold(d, es[..n + 1]) == ApplyEvent(Fold(d, es[..n]), es[n])
  {
    assert es[..n + 1][..n] == es[..n];
  }

  // ---------------------------------------------------------------------
  // Properties of the replay

  /** Cursor -1: one entry per empty cell, each the full list 1..9. */
  lemma DomainsAtStart(b: Board, steps: seq<Event>)
    requires IsBoard(b)
    ensures var d := DomainsAt(b, steps, -1);
            (forall c :: c in d <==> InGrid(c) && At(b, c) == 0)
            && forall c :: c in d ==> d[c] == FullDomain
  {
    assert steps[..0] == [];
  }

  /** The state at k is the state at k-1 with step k applied, and it depends
      on nothing but the board and steps 0..k. */
  lemma DomainsAtStep(b: Board, steps: seq<Event>, k: int, other: seq<Event>)
    requires IsBoard(b) && 0 <= k < |steps|
    requires k < |other| && other[..k + 1] == steps[..k + 1]
    ensures DomainsAt(b, steps, k) == ApplyEvent(DomainsAt(b, steps, k - 1), steps[k])
    ensures DomainsAt(b, other, k) == DomainsAt(b, steps, k)
  {
    assert steps[..k + 1][..k] == steps[..k];
  }

  /** A key is present after the replay exactly when it was seeded or some
      step stored a list for it. */
  lemma {:induction false} FoldKeys(d: Domains, es: seq<Event>, c: Cell)
    ensures c in Fold(d, es) <==> c in d || exists i :: 0 <= i < |es| && Writes(es[i], c)
    decreases |es|
  {
    if |es| > 0 {
      var n := |es| - 1;
      FoldKeys(d, es[..n], c);
      ApplyKeys(Fold(d, es[..n]), es[n], c);
      if exists i :: 0 <= i < |es| && Writes(es[i], c) {
        var i :| 0 <= i < |es| && Writes(es[i], c);
        if i < n {
          assert es[..n][i] == es[i];
        }
      }
      if exists i :: 0 <= i < n && Writes(es[..n][i], c) {
        var i :| 0 <= i < n && Writes(es[..n][i], c);
        assert Writes(es[i], c);
      }
    }
  }

  /** Between two steps that store a list for `c`, its candidates can only
      be removed: the entry stays present and its multiset only shrinks. */
  lemma {:induction false} FoldShrinks(d: Domains, es: seq<Event>, c: Cell)
    requires c in d
    requires forall i :: 0 <= i < |es| ==> !Writes(es[i], c)
    ensures c in Fold(d, es) && multiset(Fold(d, es)[c]) <= multiset(d[c])
    decreases |es|
  {
    if |es| > 0 {
      var n := |es| - 1;
      FoldShrinks(d, es[..n], c);
      var before := Fold(d, es[..n]);
      var e := es[n];
      assert !Writes(e, c);
      ApplyKeys(before, e, c);
      match e
      case Arc(_, _, _) => ArcEffect(before, e);
      case ArcInferred(_, _) => PinEffect(before, e);
      case BacktrackAssign(_, _) => PinEffect(before, e);
      case BacktrackRevert(_, _, _) => RevertEffect(before, e);
    }
  }

  /** After an inference or an assignment at `c`, later steps that do not
      store a list for `c` leave it holding at most the one candidate `value`
      (`[value]` or `[]`): an arc removal of that value empties it, nothing
      else changes it. */
  lemma SingletonPersists(d: Domains, pre: seq<Event>, e: Event, post: seq<Event>)
    requires e.ArcInferred? || e.BacktrackAssign?
    requires forall i :: 0 <= i < |post| ==> !Writes(post[i], e.cell)
    ensures var r := Fold(d, pre + [e] + post);
            e.cell in r && multiset(r[e.cell]) <= multiset{e.value}
  {
    var mid := Fold(d, pre + [e]);
    assert (pre + [e])[..|pre|] == pre;
    FoldAppend(d, pre + [e], post);
    FoldShrinks(mid, post, e.cell);
  }

  /** Replaying a concatenation is replaying its two halves in turn. */
  lemma {:induction false} FoldAppend(d: Domains, xs: seq<Event>, ys: seq<Event>)
    ensures Fold(d, xs + ys) == Fold(Fold(d, xs), ys)
    decreases |ys|
  {
    var all := xs + ys;
    if |ys| == 0 {
      assert all == xs;
    } else {
      var n := |ys| - 1;
      assert all[..|all| - 1] == xs + ys[..n];
      FoldAppend(d, xs, ys[..n]);
    }
  }

  /** A revert carrying a snapshot makes the grid entries equal to the
      snapshot, whatever was replayed before it. */
  lemma SnapshotAuthority(d: Domains, es: seq<Event>)
    requires |es| > 0
    requires es[|es| - 1].BacktrackRevert? && es[|es| - 1].domainBefore.Some?
    ensures forall c :: InGrid(c) ==>
              c in Fold(d, es) && Fold(d, es)[c] == es[|es| - 1].domainBefore.value[c.0][c.1]
  {
    RevertEffect(Fold(d, es[..|es| - 1]), es[|es| - 1]);
  }

  /** Applying the same arc removal twice is the same as applying it once. */
  lemma ArcIdempotent(d: Domains, e: Event)
    requires e.Arc?
    ensures ApplyEvent(ApplyEvent(d, e), e) == ApplyEvent(d, e)
  {
    var once := ApplyEvent(d, e);
    ArcEffect(d, e);
    ArcEffect(once, e);
    if e.from in d {
      assert e.value !in multiset(once[e.from]);
    }
  }
}
