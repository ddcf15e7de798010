// The gap table: which ledgers are promised as missing, and what recording,
// planning, reopening and healing do to those promises.
module GapLedger {
  import opened Basics
  import opened Ranges
  import opened HealPlan

  /** One gap row. Its identity is its range (the row id is derived from it);
      healNextTo is the highest ledger still missing. */
  datatype GapRow = GapRow(reason: string, healNextTo: uint32, mode: Mode, resolved: bool)

  /** All gap rows of one network, resolved ones included: ids collide with them. */
  type GapTable = map<Interval, GapRow>

  predicate Open(gaps: GapTable, g: Interval) {
    g in gaps && !gaps[g].resolved
  }

  predicate Overlaps(g: Interval, from: int, to: int) {
    g.from <= to && from <= g.to
  }

  /** Gap g still promises ledger l. */
  ghost predicate Owes(gaps: GapTable, g: Interval, l: int) {
    Open(gaps, g) && g.from <= l <= gaps[g].healNextTo
  }

  ghost predicate Owed(gaps: GapTable, l: int) {
    exists g :: Owes(gaps, g, l)
  }

  /** l is promised, and the gap promising it carries the mode. */
  ghost predicate OwedAs(gaps: GapTable, l: int, mode: Mode) {
    exists g :: Owes(gaps, g, l) && gaps[g].mode == mode
  }

  ghost predicate WellFormed(gaps: GapTable) {
    forall g :: g in gaps ==> 1 <= g.from <= g.to && (!gaps[g].resolved ==> g.from <= gaps[g].healNextTo <= g.to)
  }

  ghost predicate Disjoint(gaps: GapTable) {
    forall g, h :: Open(gaps, g) && Open(gaps, h) && g != h ==> g.to < h.from || h.to < g.from
  }

  /** What every transaction keeps true of the gap table. */
  ghost predicate Sound(gaps: GapTable) {
    WellFormed(gaps) && Disjoint(gaps)
  }

  /** The ledgers inside the range of some open gap, healed or not. */
  ghost function OpenCover(gaps: GapTable): iset<int> {
    iset l: int | InOpenGap(gaps, l)
  }

  ghost predicate InOpenGap(gaps: GapTable, l: int) {
    exists g :: Open(gaps, g) && g.Has(l)
  }

  /** l lies in the range of an open gap that [from .. to] touches. */
  ghost predicate InTouchedGap(gaps: GapTable, from: int, to: int, l: int) {
    exists g :: Open(gaps, g) && Overlaps(g, from, to) && g.Has(l)
  }

  lemma OneOwner(gaps: GapTable, g: Interval, h: Interval, l: int)
    requires Sound(gaps)
    requires Open(gaps, g) && Open(gaps, h) && g.Has(l) && h.Has(l)
    ensures g == h
  {
  }

  // --- ReopenGaps ------------------------------------------------------------

  /** Every open gap touching [from .. to] owes its whole range again, as replay work. */
  function Reopened(gaps: GapTable, from: int, to: int): GapTable {
    map g | g in gaps ::
      if Open(gaps, g) && Overlaps(g, from, to) then gaps[g].(mode := Replay, healNextTo := g.to) else gaps[g]
  }

  lemma ReopenKeepsPromises(gaps: GapTable, from: int, to: int)
    requires Sound(gaps)
    ensures Sound(Reopened(gaps, from, to))
    ensures forall l :: Owed(gaps, l) ==> Owed(Reopened(gaps, from, to), l)
    ensures forall l :: from <= l <= to && InOpenGap(gaps, l) ==> OwedAs(Reopened(gaps, from, to), l, Replay)
    ensures forall g :: g in gaps && !(Open(gaps, g) && Overlaps(g, from, to)) ==>
      Reopened(gaps, from, to)[g] == gaps[g]
  {
    var after := Reopened(gaps, from, to);
    forall l | Owed(gaps, l)
      ensures Owed(after, l)
    {
      var g :| Owes(gaps, g, l);
      assert Owes(after, g, l);
    }
    forall l | from <= l <= to && InOpenGap(gaps, l)
      ensures OwedAs(after, l, Replay)
    {
      var g :| Open(gaps, g) && g.Has(l);
      assert Owes(after, g, l);
    }
  }

  // --- RecordGap -------------------------------------------------------------

  function Rewound(gaps: GapTable, from: int, to: int): GapTable {
    map g | g in gaps :: if Open(gaps, g) && Overlaps(g, from, to) then gaps[g].(healNextTo := g.to) else gaps[g]
  }

  /** h is a maximal part of [from .. to] that no open gap covers. */
  ghost predicate IsHole(gaps: GapTable, from: int, to: int, h: Interval) {
    IsRun(Outside(OpenCover(gaps)), from, to, h)
  }

  /** Recording [from .. to]: touched open gaps are rewound, every hole is promised,
      and nothing else changes. */
  ghost predicate IsRecorded(before: GapTable, after: GapTable, from: int, to: int, reason: string) {
    forall g :: RecordedRow(before, after, from, to, reason, g)
  }

  ghost predicate RecordedRow(before: GapTable, after: GapTable, from: int, to: int, reason: string, g: Interval) {
    if IsHole(before, from, to, g) then g in after && after[g] == GapRow(reason, g.to, Replay, false)
    else if g in before then g in after && after[g] == Rewound(before, from, to)[g]
    else g !in after
  }

  lemma HoleIsNotOpen(gaps: GapTable, from: int, to: int, h: Interval, g: Interval, l: int)
    requires IsHole(gaps, from, to, h) && Open(gaps, g) && h.Has(l)
    ensures !g.Has(l)
  {
  }

  /** An open row of the recorded table is a hole or an open gap of before, rewound. */
  lemma OpenAfterRecord(before: GapTable, after: GapTable, from: int, to: int, reason: string, g: Interval)
    requires Sound(before) && IsRecorded(before, after, from, to, reason) && g in after
    ensures IsHole(before, from, to, g) ==> after[g].healNextTo == g.to
    ensures Open(after, g) ==> IsHole(before, from, to, g) || Open(before, g)
    ensures !IsHole(before, from, to, g) ==>
      g in before && after[g].resolved == before[g].resolved && before[g].healNextTo <= Max(g.to, after[g].healNextTo)
    ensures Open(after, g) && !IsHole(before, from, to, g) ==>
      after[g].healNextTo == (if Overlaps(g, from, to) then g.to else before[g].healNextTo)
  {
    assert RecordedRow(before, after, from, to, reason, g);
  }

  lemma RecordedIsDisjoint(before: GapTable, after: GapTable, from: int, to: int, reason: string,
      g: Interval, h: Interval, l: int)
    requires Sound(before) && IsRecorded(before, after, from, to, reason)
    requires Open(after, g) && Open(after, h) && g.Has(l) && h.Has(l)
    ensures g == h
  {
    OpenAfterRecord(before, after, from, to, reason, g);
    OpenAfterRecord(before, after, from, to, reason, h);
    if IsHole(before, from, to, g) && IsHole(before, from, to, h) {
      RunsOverlapOnlyWhenEqual(Outside(OpenCover(before)), from, to, g, h, l);
    } else if IsHole(before, from, to, g) {
      HoleIsNotOpen(before, from, to, g, h, l);
    } else if IsHole(before, from, to, h) {
      HoleIsNotOpen(before, from, to, h, g, l);
    }
  }

  lemma RecordedIsSound(before: GapTable, after: GapTable, from: int, to: int, reason: string)
    requires Sound(before) && 1 <= from && IsRecorded(before, after, from, to, reason)
    ensures Sound(after)
  {
    forall g | g in after
      ensures 1 <= g.from <= g.to && (!after[g].resolved ==> g.from <= after[g].healNextTo <= g.to)
    {
      OpenAfterRecord(before, after, from, to, reason, g);
    }
    forall g, h | Open(after, g) && Open(after, h) && g != h
      ensures g.to < h.from || h.to < g.from
    {
      OpenAfterRecord(before, after, from, to, reason, g);
      OpenAfterRecord(before, after, from, to, reason, h);
      if g.from <= h.to && h.from <= g.to {
        RecordedIsDisjoint(before, after, from, to, reason, g, h, Max(g.from, h.from));
      }
    }
  }

  /** Whose work a recorded range becomes: what an open gap held keeps that gap's mode, everything else
      is replay work, whatever row of that range was resolved before. */
  lemma RecordedModes(before: GapTable, after: GapTable, from: uint32, to: uint32, reason: string, l: int, mode: Mode)
    requires Sound(before) && 1 <= from <= l <= to && IsRecorded(before, after, from, to, reason)
    ensures OwedAs(after, l, mode) <==>
      if InOpenGap(before, l) then HeldAs(before, l, mode) else mode == Replay
  {
    RecordedIsSound(before, after, from, to, reason);
    RecordedOwesTheRange(before, after, from, to, reason);
    assert Owed(after, l);
    var r :| Owes(after, r, l);
    RecordedOwner(before, after, from, to, reason, r, l);
    if h :| Owes(after, h, l) && after[h].mode == mode {
      OneOwner(after, r, h, l);
    }
    if h :| Open(before, h) && h.Has(l) && before[h].mode == mode {
      OneOwner(before, r, h, l);
    }
  }

  /** The row that owes a recorded ledger is the open gap that held it, or a new one for replay. */
  lemma RecordedOwner(before: GapTable, after: GapTable, from: uint32, to: uint32, reason: string, r: Interval, l: int)
    requires Sound(before) && Sound(after) && IsRecorded(before, after, from, to, reason) && from <= l <= to
    requires Owes(after, r, l)
    ensures r.Has(l)
    ensures if InOpenGap(before, l) then Open(before, r) && after[r].mode == before[r].mode
      else after[r].mode == Replay
  {
    assert r.Has(l) && RecordedRow(before, after, from, to, reason, r);
    if IsHole(before, from, to, r) {
      if g :| Open(before, g) && g.Has(l) {
        HoleIsNotOpen(before, from, to, r, g, l);
      }
    }
  }

  /** l lies inside an open gap of the mode. */
  ghost predicate HeldAs(gaps: GapTable, l: int, mode: Mode) {
    exists g :: Open(gaps, g) && g.Has(l) && gaps[g].mode == mode
  }

  /** RecordGap's promise: everything in [from .. to] is owed afterwards, nothing
      owed before is dropped, and nothing outside the touched gaps is added. */
  lemma RecordedOwesTheRange(before: GapTable, after: GapTable, from: uint32, to: uint32, reason: string)
    requires Sound(before) && IsRecorded(before, after, from, to, reason)
    ensures forall l :: from <= l <= to ==> Owed(after, l)
    ensures forall l :: Owed(before, l) ==> Owed(after, l)
    ensures forall l :: Owed(after, l) ==> from <= l <= to || Owed(before, l) || InTouchedGap(before, from, to, l)
  {
    forall l | from <= l <= to
      ensures Owed(after, l)
    {
      if g :| Open(before, g) && g.Has(l) {
        CoveredStaysOwed(before, after, from, to, reason, g, l);
      } else {
        var r := RunThrough(Outside(OpenCover(before)), from, to, l);
        assert RecordedRow(before, after, from, to, reason, r);
        assert Owes(after, r, l);
      }
    }
    forall l | Owed(before, l)
      ensures Owed(after, l)
    {
      var g :| Owes(before, g, l);
      CoveredStaysOwed(before, after, from, to, reason, g, l);
    }
    forall g, l | Owes(after, g, l)
      ensures from <= l <= to || Owed(before, l) || InTouchedGap(before, from, to, l)
    {
      OpenAfterRecord(before, after, from, to, reason, g);
      if !IsHole(before, from, to, g) && !Overlaps(g, from, to) {
        assert Owes(before, g, l);
      }
    }
  }

  lemma CoveredStaysOwed(before: GapTable, after: GapTable, from: int, to: int, reason: string, g: Interval, l: int)
    requires Sound(before) && IsRecorded(before, after, from, to, reason)
    requires Open(before, g) && g.Has(l) && (from <= l <= to || Owes(before, g, l))
    ensures Owed(after, l)
  {
    if IsHole(before, from, to, g) {
      HoleIsNotOpen(before, from, to, g, g, l);
    }
    assert RecordedRow(before, after, from, to, reason, g);
    assert Owes(after, g, l);
  }

  /** A recorded range can only collide with a resolved row, and that row reopens. */
  lemma CollidingRowReopens(before: GapTable, after: GapTable, from: int, to: int, reason: string, h: Interval)
    requires IsRecorded(before, after, from, to, reason)
    requires IsHole(before, from, to, h) && h in before
    ensures before[h].resolved && Open(after, h) && after[h].healNextTo == h.to
  {
    assert RecordedRow(before, after, from, to, reason, h);
    if !before[h].resolved {
      HoleIsNotOpen(before, from, to, h, h, h.from);
    }
  }

  // --- PlanHeal --------------------------------------------------------------

  /** Every ledger the gap still misses already carries the mode the plan wants. */
  ghost predicate AsPlanned(gaps: GapTable, g: Interval, replay: iset<int>)
    requires g in gaps
  {
    forall l :: g.from <= l <= gaps[g].healNextTo ==> gaps[g].mode == ModeOf(replay, l)
  }

  ghost function ModeOf(replay: iset<int>, l: int): Mode {
    if l in replay then Replay else Deferred
  }

  /** An open gap the plan has to replace. */
  ghost predicate IsSplit(gaps: GapTable, g: Interval, replay: iset<int>) {
    Open(gaps, g) && !AsPlanned(gaps, g, replay)
  }

  /** r is one of the pieces g's remainder is cut into. */
  ghost predicate IsCut(gaps: GapTable, g: Interval, r: Interval, replay: iset<int>) {
    g in gaps && IsPiece(Piece(r, ModeOf(replay, r.from)), g.from, gaps[g].healNextTo, replay)
  }

  /** The gaps in `done` were reconciled with the plan: each one that had to be split is
      gone and its pieces arrived, except where a row that survives has the same range. */
  ghost predicate IsPlannedOver(before: GapTable, after: GapTable, done: set<Interval>, replay: iset<int>) {
    forall r :: PlannedRow(before, after, done, replay, r)
  }

  ghost predicate PlannedRow(before: GapTable, after: GapTable, done: set<Interval>, replay: iset<int>, r: Interval) {
    if Survives(before, r, done, replay) then
      r in after && after[r] == before[r]
    else
      && (r in after <==> exists g :: Arrives(before, g, r, done, replay))
      && (forall g :: Arrives(before, g, r, done, replay) ==> r in after && after[r] == PieceRow(before, g, r, replay))
  }

  ghost predicate Survives(before: GapTable, r: Interval, done: set<Interval>, replay: iset<int>) {
    r in before && !(r in done && IsSplit(before, r, replay))
  }

  ghost predicate Arrives(before: GapTable, g: Interval, r: Interval, done: set<Interval>, replay: iset<int>) {
    g in done && IsSplit(before, g, replay) && IsCut(before, g, r, replay)
  }

  ghost function PieceRow(gaps: GapTable, g: Interval, r: Interval, replay: iset<int>): GapRow
    requires g in gaps
  {
    GapRow(gaps[g].reason, r.to, ModeOf(replay, r.from), false)
  }

  ghost predicate IsPlanned(before: GapTable, after: GapTable, replay: iset<int>) {
    IsPlannedOver(before, after, before.Keys, replay)
  }

  /** No row resolved earlier has exactly the range of a piece the plan cuts. */
  ghost predicate NoResolvedTwin(gaps: GapTable, replay: iset<int>) {
    forall g, r :: IsSplit(gaps, g, replay) && IsCut(gaps, g, r, replay) ==> !(r in gaps && gaps[r].resolved)
  }

  lemma CutFacts(gaps: GapTable, g: Interval, r: Interval, replay: iset<int>)
    requires Sound(gaps) && Open(gaps, g) && IsCut(gaps, g, r, replay)
    ensures g.from <= r.from <= r.to <= gaps[g].healNextTo <= g.to
    ensures forall l :: r.Has(l) ==> ModeOf(replay, l) == ModeOf(replay, r.from)
  {
  }

  lemma CutThrough(gaps: GapTable, g: Interval, l: int, replay: iset<int>) returns (r: Interval)
    requires Sound(gaps) && Owes(gaps, g, l)
    ensures IsCut(gaps, g, r, replay) && r.Has(l)
  {
    r := RunThrough(if l in replay then replay else Outside(replay), g.from, gaps[g].healNextTo, l);
    assert r.Has(r.from);
  }

  lemma CutsNeverOverlap(gaps: GapTable, g: Interval, r: Interval, q: Interval, l: int, replay: iset<int>)
    requires Sound(gaps) && Open(gaps, g) && r.Has(l) && q.Has(l)
    requires IsCut(gaps, g, r, replay) && IsCut(gaps, g, q, replay)
    ensures r == q
  {
  }

  /** An open row of the planned table is either an untouched gap or a piece of a split one. */
  lemma OpenAfterPlan(before: GapTable, after: GapTable, done: set<Interval>, replay: iset<int>, r: Interval)
      returns (g: Interval)
    requires Sound(before) && IsPlannedOver(before, after, done, replay) && Open(after, r)
    ensures Open(before, g) && g.from <= r.from <= r.to <= g.to
    ensures Survives(before, r, done, replay) ==> g == r && after[r] == before[r]
    ensures !Survives(before, r, done, replay) ==>
      Arrives(before, g, r, done, replay) && after[r] == PieceRow(before, g, r, replay)
  {
    assert PlannedRow(before, after, done, replay, r);
    if Survives(before, r, done, replay) {
      g := r;
    } else {
      g :| Arrives(before, g, r, done, replay);
      CutFacts(before, g, r, replay);
    }
  }

  lemma PlannedIsDisjoint(before: GapTable, after: GapTable, done: set<Interval>, replay: iset<int>,
      r: Interval, q: Interval, l: int)
    requires Sound(before) && IsPlannedOver(before, after, done, replay)
    requires Open(after, r) && Open(after, q) && r.Has(l) && q.Has(l)
    ensures r == q
  {
    var g := OpenAfterPlan(before, after, done, replay, r);
    var h := OpenAfterPlan(before, after, done, replay, q);
    OneOwner(before, g, h, l);
    if Arrives(before, g, r, done, replay) && Arrives(before, g, q, done, replay) {
      CutsNeverOverlap(before, g, r, q, l, replay);
    }
  }

  lemma PlannedIsSound(before: GapTable, after: GapTable, done: set<Interval>, replay: iset<int>)
    requires Sound(before) && IsPlannedOver(before, after, done, replay)
    ensures Sound(after)
  {
    forall r | r in after
      ensures 1 <= r.from <= r.to && (!after[r].resolved ==> r.from <= after[r].healNextTo <= r.to)
    {
      assert PlannedRow(before, after, done, replay, r);
      if !after[r].resolved {
        var g := OpenAfterPlan(before, after, done, replay, r);
      }
    }
    forall r, q | Open(after, r) && Open(after, q) && r != q
      ensures r.to < q.from || q.to < r.from
    {
      if r.from <= q.to && q.from <= r.to {
        PlannedIsDisjoint(before, after, done, replay, r, q, Max(r.from, q.from));
      }
    }
  }

  /** Reconciling one more gap extends what was reconciled. */
  lemma PlanOneMore(before: GapTable, mid: GapTable, after: GapTable, done: set<Interval>, g: Interval,
      replay: iset<int>)
    requires Sound(before) && Open(before, g) && g !in done
    requires IsPlannedOver(before, mid, done, replay) && IsPlannedOver(mid, after, {g}, replay)
    ensures IsPlannedOver(before, after, done + {g}, replay)
  {
    forall r
      ensures PlannedRow(before, after, done + {g}, replay, r)
    {
      assert PlannedRow(before, mid, done, replay, g);
      assert Survives(before, g, done, replay) && mid[g] == before[g];
      assert PlannedRow(before, mid, done, replay, r) && PlannedRow(mid, after, {g}, replay, r);
      assert Arrives(mid, g, r, {g}, replay) <==> Arrives(before, g, r, done + {g}, replay);
      forall h | Arrives(before, h, r, done, replay)
        ensures Arrives(before, h, r, done + {g}, replay) && r != g && !Arrives(mid, g, r, {g}, replay)
      {
        CutFacts(before, h, r, replay);
        if r == g || IsCut(before, g, r, replay) {
          OneOwner(before, h, g, r.from);
        }
      }
      forall h | Arrives(before, h, r, done + {g}, replay)
        ensures if h == g then Arrives(mid, g, r, {g}, replay) else Arrives(before, h, r, done, replay)
      {
      }
    }
  }

  /** The gap is left alone exactly when its remainder is one piece in its own mode. */
  lemma OnePieceMeansAsPlanned(gaps: GapTable, g: Interval, pieces: seq<Piece>, replay: iset<int>)
    requires Sound(gaps) && Open(gaps, g) && Tiles(pieces, g.from, gaps[g].healNextTo, replay)
    ensures |pieces| == 1 && pieces[0].mode == gaps[g].mode <==> AsPlanned(gaps, g, replay)
  {
    assert pieces[0].range.Has(g.from);
    assert ModeOf(replay, g.from) == pieces[0].mode;
    if |pieces| == 1 {
      forall l | g.from <= l <= gaps[g].healNextTo
        ensures pieces[0].mode == ModeOf(replay, l)
      {
        assert pieces[0].range.Has(l);
      }
    } else {
      var l := pieces[1].range.from;
      TilesAscend(pieces, g.from, gaps[g].healNextTo, replay, 1, |pieces| - 1);
      assert pieces[1].range.Has(l) && l == pieces[0].range.to + 1 && pieces[1].mode != pieces[0].mode;
      assert g.from <= l <= gaps[g].healNextTo && ModeOf(replay, l) != ModeOf(replay, g.from);
    }
  }

  // --- what a plan does to the debt -----------------------------------------

  /** Planning never invents debt, and what it leaves owed carries the planned mode. */
  lemma PlanOwesNoMore(before: GapTable, after: GapTable, replay: iset<int>, r: Interval, l: int)
    requires Sound(before) && IsPlanned(before, after, replay) && Owes(after, r, l)
    ensures Owed(before, l) && after[r].mode == ModeOf(replay, l)
  {
    var g := OpenAfterPlan(before, after, before.Keys, replay, r);
    if !Survives(before, r, before.Keys, replay) {
      CutFacts(before, g, r, replay);
    }
    assert Owes(before, g, l);
  }

  lemma PlanKeepsDebt(before: GapTable, after: GapTable, replay: iset<int>, l: int)
    requires Sound(before) && IsPlanned(before, after, replay)
    requires NoResolvedTwin(before, replay) && Owed(before, l)
    ensures Owed(after, l)
  {
    var g :| Owes(before, g, l);
    if IsSplit(before, g, replay) {
      var r := CutThrough(before, g, l, replay);
      CutFacts(before, g, r, replay);
      assert Arrives(before, g, r, before.Keys, replay);
      if Survives(before, r, before.Keys, replay) {
        OneOwner(before, g, r, l);
      }
      assert PlannedRow(before, after, before.Keys, replay, r);
      assert Owes(after, r, l);
    } else {
      assert PlannedRow(before, after, before.Keys, replay, g);
      assert Owes(after, g, l);
    }
  }

  lemma TwinDropsDebt(before: GapTable, after: GapTable, replay: iset<int>, g: Interval, twin: Interval)
    requires Sound(before) && IsPlanned(before, after, replay)
    requires IsSplit(before, g, replay) && IsCut(before, g, twin, replay)
    requires twin in before && before[twin].resolved
    ensures Owed(before, twin.from) && !Owed(after, twin.from)
  {
    var l := twin.from;
    CutFacts(before, g, twin, replay);
    assert Owes(before, g, l);
    assert Survives(before, twin, before.Keys, replay);
    forall r | Owes(after, r, l)
      ensures false
    {
      var h := OpenAfterPlan(before, after, before.Keys, replay, r);
      OneOwner(before, g, h, l);
      if Arrives(before, h, r, before.Keys, replay) {
        CutsNeverOverlap(before, g, r, twin, l, replay);
      }
    }
  }

  /** PlanHeal conserves the debt exactly when no resolved row shares a piece's range. */
  lemma PlanConservesDebtIffNoTwin(before: GapTable, after: GapTable, replay: iset<int>)
    requires Sound(before) && IsPlanned(before, after, replay)
    ensures (forall l :: Owed(before, l) <==> Owed(after, l)) <==> NoResolvedTwin(before, replay)
  {
    if NoResolvedTwin(before, replay) {
      forall l
        ensures Owed(before, l) <==> Owed(after, l)
      {
        if Owed(before, l) {
          PlanKeepsDebt(before, after, replay, l);
        }
        if r :| Owes(after, r, l) {
          PlanOwesNoMore(before, after, replay, r, l);
        }
      }
    } else {
      var g, r :| IsSplit(before, g, replay) && IsCut(before, g, r, replay) && r in before && before[r].resolved;
      TwinDropsDebt(before, after, replay, g, r);
    }
  }

  /** Each owed ledger ends up as replay work exactly when the plan contains it. */
  lemma PlanAssignsModes(before: GapTable, after: GapTable, replay: iset<int>, l: int)
    requires Sound(before) && IsPlanned(before, after, replay) && NoResolvedTwin(before, replay)
    ensures OwedAs(after, l, Replay) <==> Owed(before, l) && l in replay
    ensures OwedAs(after, l, Deferred) <==> Owed(before, l) && l !in replay
  {
    forall r | Owes(after, r, l)
      ensures Owed(before, l) && after[r].mode == ModeOf(replay, l)
    {
      PlanOwesNoMore(before, after, replay, r, l);
    }
    if Owed(before, l) {
      PlanKeepsDebt(before, after, replay, l);
    }
  }

  /** Applying a plan a second time finds nothing to replace. */
  lemma PlanningTwiceIsPlanningOnce(before: GapTable, once: GapTable, twice: GapTable, replay: iset<int>)
    requires Sound(before) && IsPlanned(before, once, replay) && IsPlanned(once, twice, replay)
    ensures forall r :: !IsSplit(once, r, replay)
    ensures twice == once
  {
    forall r | Open(once, r)
      ensures AsPlanned(once, r, replay)
    {
      forall l | r.from <= l <= once[r].healNextTo
        ensures once[r].mode == ModeOf(replay, l)
      {
        PlanOwesNoMore(before, once, replay, r, l);
      }
    }
    forall r
      ensures r in once <==> r in twice
      ensures r in once ==> twice[r] == once[r]
    {
      assert PlannedRow(once, twice, once.Keys, replay, r);
    }
  }

  /** A later plan overrides an earlier one: only the last plan decides what is replayed. */
  lemma LastPlanWins(before: GapTable, mid: GapTable, both: GapTable, direct: GapTable,
      first: iset<int>, second: iset<int>, l: int, mode: Mode)
    requires Sound(before)
    requires IsPlanned(before, mid, first) && IsPlanned(mid, both, second) && IsPlanned(before, direct, second)
    requires NoResolvedTwin(before, first) && NoResolvedTwin(before, second) && NoResolvedTwin(mid, second)
    ensures OwedAs(both, l, mode) <==> OwedAs(direct, l, mode)
  {
    PlannedIsSound(before, mid, before.Keys, first);
    PlanConservesDebtIffNoTwin(before, mid, first);
    PlanAssignsModes(mid, both, second, l);
    PlanAssignsModes(before, direct, second, l);
  }

  // --- counting the debt -------------------------------------------------------

  /** Every ledger some open gap still promises. */
  ghost function OwedLedgers(gaps: GapTable): set<int> {
    set l: int | 0 <= l <= MAX_U32 && Owed(gaps, l)
  }

  ghost function OwedCount(gaps: GapTable): nat {
    |OwedLedgers(gaps)|
  }

  /** How many ledgers one row still promises. */
  function RowDebt(g: Interval, row: GapRow): nat {
    if row.resolved || row.healNextTo < g.from then 0 else row.healNextTo - g.from + 1
  }

  /** What every row still promises, added up. */
  ghost function Debt(gaps: GapTable): nat {
    if gaps == map[] then 0
    else
      var g :| g in gaps;
      RowDebt(g, gaps[g]) + Debt(gaps - {g})
  }

  /** The ledgers from lo to hi. */
  function Span(lo: int, hi: int): (r: set<int>)
    requires lo <= hi + 1
    ensures forall l :: l in r <==> lo <= l <= hi
    ensures |r| == hi - lo + 1
    decreases hi - lo
  {
    if hi < lo then {} else Span(lo, hi - 1) + {hi}
  }

  /** Since open gaps never overlap, the total counts each owed ledger exactly once. */
  lemma {:induction false} DebtCountsOwedLedgers(gaps: GapTable)
    requires Sound(gaps)
    ensures Debt(gaps) == OwedCount(gaps)
  {
    if gaps == map[] {
      assert OwedLedgers(gaps) == {};
    } else {
      var g :| g in gaps && Debt(gaps) == RowDebt(g, gaps[g]) + Debt(gaps - {g});
      DebtCountsOwedLedgers(gaps - {g});
      OwedWithout(gaps, g);
    }
  }

  lemma OwedWithout(gaps: GapTable, g: Interval)
    requires Sound(gaps) && g in gaps
    ensures OwedCount(gaps) == RowDebt(g, gaps[g]) + OwedCount(gaps - {g})
  {
    var rest := gaps - {g};
    if gaps[g].resolved {
      forall l | Owed(gaps, l)
        ensures Owed(rest, l)
      {
        var h :| Owes(gaps, h, l);
        assert Owes(rest, h, l);
      }
      forall l | Owed(rest, l)
        ensures Owed(gaps, l)
      {
        var h :| Owes(rest, h, l);
        assert Owes(gaps, h, l);
      }
      assert OwedLedgers(gaps) == OwedLedgers(rest);
    } else {
      SplitsOff(gaps, g);
    }
  }

  lemma SplitsOff(gaps: GapTable, g: Interval)
    requires Sound(gaps) && Open(gaps, g)
    ensures OwedLedgers(gaps) == Span(g.from, gaps[g].healNextTo) + OwedLedgers(gaps - {g})
    ensures Span(g.from, gaps[g].healNextTo) !! OwedLedgers(gaps - {g})
  {
    forall l
      ensures l in OwedLedgers(gaps) <==> l in Span(g.from, gaps[g].healNextTo) || l in OwedLedgers(gaps - {g})
      ensures l in Span(g.from, gaps[g].healNextTo) ==> l !in OwedLedgers(gaps - {g})
    {
      OwedWithOrWithout(gaps, g, l);
    }
  }

  lemma OwedWithOrWithout(gaps: GapTable, g: Interval, l: int)
    requires Sound(gaps) && Open(gaps, g)
    ensures Owed(gaps, l) <==> g.from <= l <= gaps[g].healNextTo || Owed(gaps - {g}, l)
    ensures g.from <= l <= gaps[g].healNextTo ==> !Owed(gaps - {g}, l)
  {
    if h :| Owes(gaps, h, l) {
      assert h == g || Owes(gaps - {g}, h, l);
    }
    if h :| Owes(gaps - {g}, h, l) {
      assert Owes(gaps, h, l);
      if g.from <= l <= gaps[g].healNextTo {
        OneOwner(gaps, g, h, l);
      }
    }
    if g.from <= l <= gaps[g].healNextTo {
      assert Owes(gaps, g, l);
    }
  }

  /** A plan leaves the total where it was exactly when no resolved row shares a piece's range;
      otherwise it drops. */
  lemma PlanConservesTotalIffNoTwin(before: GapTable, after: GapTable, replay: iset<int>)
    requires Sound(before) && IsPlanned(before, after, replay)
    ensures Debt(after) <= Debt(before)
    ensures Debt(after) == Debt(before) <==> NoResolvedTwin(before, replay)
  {
    PlannedIsSound(before, after, before.Keys, replay);
    DebtCountsOwedLedgers(before);
    DebtCountsOwedLedgers(after);
    forall l | Owed(after, l)
      ensures Owed(before, l)
    {
      var r :| Owes(after, r, l);
      PlanOwesNoMore(before, after, replay, r, l);
    }
    PlanConservesDebtIffNoTwin(before, after, replay);
    var owed, still := OwedLedgers(before), OwedLedgers(after);
    assert still <= owed;
    SmallerOrSame(still, owed);
    if still == owed {
      forall l
        ensures Owed(before, l) <==> Owed(after, l)
      {
        assert l in owed <==> l in still;
        if g :| Owes(before, g, l) {
          assert 0 <= l <= MAX_U32;
        }
      }
    }
  }

  lemma SmallerOrSame(a: set<int>, b: set<int>)
    requires a <= b
    ensures |a| <= |b| && (|a| == |b| <==> a == b)
  {
    assert b == a + (b - a);
    if b - a != {} {
      assert |b - a| > 0;
    }
  }
}
