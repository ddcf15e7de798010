// When a clamped row is let go: it waits at the wall of an open gap, every step keeps it so but
// a clamp under a gap that reaches across the wall, and a row that waits nowhere stays clamped.
module Release {
  import opened Basics
  import opened HealPlan
  import opened GapLedger
  import opened Coverage
  import opened Runs

  /** Some open gap ends right below the wall. */
  ghost predicate EndsAt(gaps: GapTable, wall: nat) {
    exists g :: Open(gaps, g) && g.to + 1 == wall
  }

  /** Some open gap holds ledgers on both sides of the wall. */
  ghost predicate ReachesAcross(gaps: GapTable, wall: nat) {
    exists g :: Open(gaps, g) && g.from < wall <= g.to
  }

  ghost predicate RowWaits(s: State, c: string)
    requires c in s.rows
  {
    s.rows[c].clampedAt.Some? ==> EndsAt(s.gaps, s.rows[c].clampedAt.value)
  }

  /** Every clamped row waits at the wall of an open gap. */
  ghost predicate Waits(s: State) {
    forall c {:trigger RowWaits(s, c)} :: c in s.rows ==> RowWaits(s, c)
  }

  // --- where the property comes from -------------------------------------------

  /** Promising what lies below a wall leaves an open gap ending there exactly when no gap open
      before reaches across it. */
  lemma RecordedGapMeetsTheWallIff(before: GapTable, after: GapTable, target: uint32, wall: uint32, reason: string)
    requires Sound(before) && 1 <= target < wall && IsRecorded(before, after, target, wall - 1, reason)
    ensures EndsAt(after, wall) <==> !ReachesAcross(before, wall)
  {
    RecordedIsSound(before, after, target, wall - 1, reason);
    RecordedOwesTheRange(before, after, target, wall - 1, reason);
    if g :| Open(before, g) && g.from < wall <= g.to {
      AcrossStaysAcross(before, after, target, wall, reason, g);
    } else {
      assert Owed(after, wall - 1);
      var h :| Owes(after, h, wall - 1);
      OwnerEndsAtTheWall(before, after, target, wall, reason, h);
    }
  }

  /** With nothing reaching across, whoever owes the ledger below the wall ends there. */
  lemma OwnerEndsAtTheWall(before: GapTable, after: GapTable, target: uint32, wall: uint32, reason: string, h: Interval)
    requires Sound(before) && Sound(after) && 1 <= target < wall
    requires IsRecorded(before, after, target, wall - 1, reason)
    requires !ReachesAcross(before, wall) && Owes(after, h, wall - 1)
    ensures EndsAt(after, wall)
  {
    OpenAfterRecord(before, after, target, wall - 1, reason, h);
    assert h.to == wall - 1;
  }

  /** A gap that reaches across the wall stays open over it, so no other one can end there. */
  lemma AcrossStaysAcross(before: GapTable, after: GapTable, target: uint32, wall: uint32, reason: string, g: Interval)
    requires Sound(after) && 1 <= target < wall && IsRecorded(before, after, target, wall - 1, reason)
    requires Open(before, g) && g.from < wall <= g.to
    ensures !EndsAt(after, wall)
  {
    assert RecordedRow(before, after, target, wall - 1, reason, g);
    if IsHole(before, target, wall - 1, g) {
      HoleIsNotOpen(before, target, wall - 1, g, g, g.from);
    }
    if h :| Open(after, h) && h.to + 1 == wall {
      OneOwner(after, g, h, wall - 1);
    }
  }

  // --- every step keeps it -------------------------------------------------------

  lemma SameWallsWait(s: State, s': State)
    requires Waits(s)
    requires forall w: nat :: EndsAt(s.gaps, w) ==> EndsAt(s'.gaps, w)
    requires forall c :: c in s'.rows && s'.rows[c].clampedAt.Some? ==>
      c in s.rows && s.rows[c].clampedAt == s'.rows[c].clampedAt
    ensures Waits(s')
  {
    forall c | c in s'.rows
      ensures RowWaits(s', c)
    {
      if s'.rows[c].clampedAt.Some? {
        assert RowWaits(s, c);
      }
    }
  }

  lemma RecordKeepsWalls(before: GapTable, after: GapTable, from: int, to: int, reason: string, wall: nat)
    requires IsRecorded(before, after, from, to, reason) && EndsAt(before, wall)
    ensures EndsAt(after, wall)
  {
    var g :| Open(before, g) && g.to + 1 == wall;
    assert RecordedRow(before, after, from, to, reason, g);
    assert Open(after, g);
  }

  lemma ReopenKeepsWalls(gaps: GapTable, from: int, to: int, wall: nat)
    requires EndsAt(gaps, wall)
    ensures EndsAt(Reopened(gaps, from, to), wall)
  {
    var g :| Open(gaps, g) && g.to + 1 == wall;
    assert Open(Reopened(gaps, from, to), g);
  }

  /** A re-pointed clamp meets the topmost piece of the split gap; any other wall keeps its gap. */
  lemma PlanMovesWalls(before: GapTable, after: GapTable, replay: iset<int>, wall: nat)
    requires Sound(before) && IsPlanned(before, after, replay) && NoResolvedTwin(before, replay) && EndsAt(before, wall)
    ensures EndsAt(after, RepointedWall(before, before.Keys, replay, wall))
  {
    var g :| Open(before, g) && g.to + 1 == wall;
    forall x | IsSplit(before, x, replay) && x.to + 1 == wall
      ensures x == g
    {
      OneOwner(before, x, g, g.to);
    }
    if IsSplit(before, g, replay) {
      TopPieceStands(before, after, replay, g);
    } else {
      assert PlannedRow(before, after, before.Keys, replay, g);
      assert Open(after, g);
    }
  }

  lemma TopPieceStands(before: GapTable, after: GapTable, replay: iset<int>, g: Interval)
    requires Sound(before) && IsPlanned(before, after, replay) && NoResolvedTwin(before, replay) &&
      IsSplit(before, g, replay)
    ensures EndsAt(after, before[g].healNextTo + 1)
  {
    var top := before[g].healNextTo;
    assert Owes(before, g, top);
    PlanKeepsDebt(before, after, replay, top);
    PlannedIsSound(before, after, before.Keys, replay);
    var r :| Owes(after, r, top);
    var h := OpenAfterPlan(before, after, before.Keys, replay, r);
    OneOwner(before, g, h, top);
    CutFacts(before, g, r, replay);
  }

  lemma PlanKeepsWaiting(s: State, s': State, replay: iset<int>)
    requires Sound(s.gaps) && Waits(s) && PlanStep(s, s', replay) && NoResolvedTwin(s.gaps, replay)
    ensures Waits(s')
  {
    forall c | c in s'.rows
      ensures RowWaits(s', c)
    {
      assert RowWaits(s, c);
      if s.rows[c].clampedAt.Some? {
        PlanMovesWalls(s.gaps, s'.gaps, replay, s.rows[c].clampedAt.value);
      }
    }
  }

  lemma HealKeepsWaiting(s: State, s': State, g: Interval, listed: uint32, newNextTo: uint32, resolved: bool)
    requires Inv(s) && Waits(s) && HealCommit(s, s', g, listed, newNextTo, resolved)
    ensures Waits(s')
  {
    forall c | c in s'.rows
      ensures RowWaits(s', c)
    {
      assert RowWaits(s, c) && RowKept(s, c);
      if s'.rows[c].clampedAt.Some? {
        HealedWallStands(s, s', g, newNextTo, resolved, c);
      }
    }
  }

  lemma HealedWallStands(s: State, s': State, g: Interval, newNextTo: uint32, resolved: bool, c: string)
    requires HealStep(s, s', g, newNextTo, resolved) && (resolved <==> newNextTo < g.from)
    requires c in s.rows && RowWaits(s, c) && 1 <= s.rows[c].targetFrom && s'.rows[c].clampedAt.Some?
    ensures EndsAt(s'.gaps, s'.rows[c].clampedAt.value)
  {
    if s.rows[c].clampedAt != Some(g.to + 1) {
      var h :| Open(s.gaps, h) && h.to + 1 == s.rows[c].clampedAt.value;
      assert Open(s'.gaps, h);
    } else if resolved {
      ResolvedRow(s.rows[c], s'.gaps, g, newNextTo);
    } else {
      assert Open(s'.gaps, g);
    }
  }

  /** A step keeps every clamped row waiting, unless it clamps at a wall no open gap ends at. */
  lemma StepKeepsWaiting(s: State, step: Step, s': State)
    requires Inv(s) && Waits(s) && Next(s, step, s')
    requires step.Clamp? ==> EndsAt(s.gaps, step.wall)
    ensures Waits(s')
  {
    match step
    case Register(c, targetFrom, nextTo, kinds) =>
      forall w: nat | EndsAt(s.gaps, w)
        ensures EndsAt(s'.gaps, w)
      {
        ReopenKeepsWalls(s.gaps, targetFrom, nextTo, w);
      }
      SameWallsWait(s, s');
    case Record(from, to, reason) =>
      forall w: nat | EndsAt(s.gaps, w)
        ensures EndsAt(s'.gaps, w)
      {
        RecordKeepsWalls(s.gaps, s'.gaps, from, to, reason, w);
      }
      SameWallsWait(s, s');
    case Reopen(from, to) =>
      forall w: nat | EndsAt(s.gaps, w)
        ensures EndsAt(s'.gaps, w)
      {
        ReopenKeepsWalls(s.gaps, from, to, w);
      }
      SameWallsWait(s, s');
    case Plan(replay) => PlanKeepsWaiting(s, s', replay);
    case Heal(g, listed, newNextTo, resolved) => HealKeepsWaiting(s, s', g, listed, newNextTo, resolved);
    case Clamp(c, wall) =>
      forall x | x in s'.rows
        ensures RowWaits(s', x)
      {
        assert x in s.rows && RowWaits(s, x);
      }
    case _ => SameWallsWait(s, s');
  }

  /** The condition is exact: a clamp leaves its row waiting if and only if an open gap ends at the wall. */
  lemma ClampWaitsIffAGapEndsThere(s: State, s': State, c: string, wall: uint32)
    requires Waits(s) && c in s.rows && 1 <= wall && ChunkStep(s, s', c, ClampedAtWall(s.rows[c], wall))
    ensures Waits(s') <==> EndsAt(s.gaps, wall)
  {
    forall x | x in s.rows && x != c
      ensures RowWaits(s', x)
    {
      assert RowWaits(s, x);
    }
    assert RowWaits(s', c) <==> EndsAt(s.gaps, wall);
  }

  // --- whole runs ------------------------------------------------------------------

  /** Whenever a run clamps a row, an open gap ends at the wall. */
  ghost predicate ClampsMeetGaps(states: seq<State>, steps: seq<Step>)
    requires IsRun(states, steps)
  {
    forall i :: 0 <= i < |steps| && steps[i].Clamp? ==> EndsAt(states[i].gaps, steps[i].wall)
  }

  lemma {:induction false} RunsKeepRowsWaiting(states: seq<State>, steps: seq<Step>, i: nat)
    requires IsRun(states, steps) && ClampsMeetGaps(states, steps) && i < |states|
    ensures Waits(states[i])
  {
    if i > 0 {
      RunsKeepRowsWaiting(states, steps, i - 1);
      RunsAreHonest(states, steps, i - 1);
      StepKeepsWaiting(states[i - 1], steps[i - 1], states[i]);
    }
  }

  /** Once no gap is open, such a run holds no clamped row, and every finished row declares its
      whole target range, all of it derived. */
  lemma NoOpenGapNoClamp(states: seq<State>, steps: seq<Step>, i: nat, c: string)
    requires IsRun(states, steps) && ClampsMeetGaps(states, steps) && i < |states|
    requires c in states[i].rows && forall g :: !Open(states[i].gaps, g)
    ensures var s, b := states[i], states[i].rows[c];
      && b.clampedAt.None?
      && c in s.anchors
      && (b.done ==> b.nextTo < b.targetFrom && DerivedOver(s, c, b.coveredKinds, b.targetFrom, s.anchors[c]))
  {
    RunsKeepRowsWaiting(states, steps, i);
    RunsAreHonest(states, steps, i);
    assert RowWaits(states[i], c) && RowKept(states[i], c);
  }

  /** A row no open gap ends at the wall of is touched by no heal: it stays clamped, and its
      frontier stays up, however much is healed below it. */
  lemma HealsNeverReleaseAStrandedRow(s: State, s': State, g: Interval, newNextTo: uint32, resolved: bool, c: string)
    requires HealStep(s, s', g, newNextTo, resolved) && c in s.rows
    requires s.rows[c].clampedAt.Some? && !EndsAt(s.gaps, s.rows[c].clampedAt.value)
    ensures s'.rows[c] == s.rows[c] && !EndsAt(s'.gaps, s'.rows[c].clampedAt.value)
  {
    if h :| Open(s'.gaps, h) && h.to + 1 == s.rows[c].clampedAt.value {
      assert Open(s.gaps, h);
    }
  }
}
