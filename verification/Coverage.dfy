// The coverage ledger: what the gap and backfill tables promise about derived
// history, the transactions that move them, and the invariant all of them keep.
module Coverage {
  import opened Basics
  import opened Ranges
  import opened HealPlan
  import opened GapLedger

  /** One contract's descending walk. clampedAt is the oldest ledger actually served
      when the retention wall cut the walk short; it outgrows 32 bits by one. */
  datatype Backfill = Backfill(
    targetFrom: uint32,
    nextTo: uint32,
    done: bool,
    clampedAt: Option<nat>,
    coveredKinds: seq<string>)

  type BackfillTable = map<string, Backfill>

  /** The tables, plus what they are about: the facts really derived and, for each
      row, the ledger its walk was anchored at. */
  datatype State = State(
    gaps: GapTable,
    rows: BackfillTable,
    cursor: Option<uint32>,
    anchors: map<string, uint32>,
    derived: iset<Fact>)

  // --- the invariant ---------------------------------------------------------

  /** Every ledger of [lo .. hi] was derived for the contract under each kind. */
  ghost predicate DerivedOver(s: State, c: string, kinds: seq<string>, lo: int, hi: int) {
    forall k, l: nat :: k in kinds && lo <= l <= hi ==> Fact(c, k, l) in s.derived
  }

  /** Every ledger of [lo .. hi] was derived for the contract under each kind, or is still owed. */
  ghost predicate PromisedOver(s: State, c: string, kinds: seq<string>, lo: int, hi: int) {
    forall k, l: nat :: k in kinds && lo <= l <= hi ==> Fact(c, k, l) in s.derived || Owed(s.gaps, l)
  }

  /** Coverage honesty: the row declares (nextTo .. anchor] and it is all derived. */
  ghost predicate Honest(s: State, c: string)
    requires c in s.rows && c in s.anchors
  {
    DerivedOver(s, c, s.rows[c].coveredKinds, s.rows[c].nextTo + 1, s.anchors[c])
  }

  /** Live ingestion derived everything it committed above the row's anchor. */
  ghost predicate LiveAboveAnchor(s: State, c: string)
    requires c in s.rows && c in s.anchors
  {
    var anchor: int := s.anchors[c];
    s.cursor.Some? ==> DerivedOver(s, c, s.rows[c].coveredKinds, anchor + 1, s.cursor.value)
  }

  /** A row clamped at w owes nothing silently: below the wall every ledger of its
      target range is derived or promised, from the wall up everything is derived. */
  ghost predicate ClampKept(s: State, c: string)
    requires c in s.rows && c in s.anchors
  {
    var b := s.rows[c];
    b.clampedAt.Some? ==>
      && b.done
      && b.targetFrom <= b.nextTo
      && PromisedOver(s, c, b.coveredKinds, b.targetFrom, b.clampedAt.value - 1)
      && DerivedOver(s, c, b.coveredKinds, Max(b.targetFrom, b.clampedAt.value), s.anchors[c])
  }

  /** A finished row that is not clamped declares its whole target range. */
  ghost predicate DoneMeansDone(s: State, c: string)
    requires c in s.rows
  {
    var b := s.rows[c];
    b.done && b.clampedAt.None? ==> b.nextTo < b.targetFrom
  }

  ghost predicate RowKept(s: State, c: string)
    requires c in s.rows && c in s.anchors
  {
    && 1 <= s.rows[c].targetFrom
    && s.rows[c].nextTo <= s.anchors[c] < MAX_U32
    && Honest(s, c)
    && LiveAboveAnchor(s, c)
    && ClampKept(s, c)
    && DoneMeansDone(s, c)
  }

  ghost predicate Inv(s: State) {
    && Sound(s.gaps)
    && s.anchors.Keys == s.rows.Keys
    && (s.cursor.None? ==> s.rows == map[])
    && (forall c {:trigger RowKept(s, c)} :: c in s.rows ==> RowKept(s, c))
  }

  /** Empty tables. What counts as derived is not restricted: a fact the chain holds no row
      for is derived from the start. */
  ghost predicate Init(s: State) {
    s.gaps == map[] && s.rows == map[] && s.cursor == None && s.anchors == map[]
  }

  /** Facts and debt only grow: everything a row relied on still holds. */
  lemma GrowthKeepsRow(s: State, s': State, c: string)
    requires c in s.rows && c in s.anchors && c in s'.rows && c in s'.anchors
    requires s.rows[c] == s'.rows[c] && s.anchors[c] == s'.anchors[c] && s.cursor == s'.cursor
    requires s.derived <= s'.derived
    requires forall l :: Owed(s.gaps, l) ==> Owed(s'.gaps, l)
    requires RowKept(s, c)
    ensures RowKept(s', c)
  {
  }

  // --- RecordGap and ReopenGaps ----------------------------------------------

  ghost predicate RecordGapStep(s: State, s': State, from: uint32, to: uint32, reason: string) {
    IsRecorded(s.gaps, s'.gaps, from, to, reason) && s' == s.(gaps := s'.gaps)
  }

  lemma RecordGapKeepsInv(s: State, s': State, from: uint32, to: uint32, reason: string)
    requires Inv(s) && 1 <= from && RecordGapStep(s, s', from, to, reason)
    ensures Inv(s')
    ensures forall c, kinds :: PromisedOver(s', c, kinds, from, to)
  {
    RecordedIsSound(s.gaps, s'.gaps, from, to, reason);
    RecordedOwesTheRange(s.gaps, s'.gaps, from, to, reason);
    forall c | c in s'.rows
      ensures RowKept(s', c)
    {
      GrowthKeepsRow(s, s', c);
    }
  }

  ghost predicate ReopenStep(s: State, s': State, from: int, to: int) {
    s' == s.(gaps := Reopened(s.gaps, from, to))
  }

  lemma ReopenKeepsInv(s: State, s': State, from: int, to: int)
    requires Inv(s) && ReopenStep(s, s', from, to)
    ensures Inv(s')
  {
    ReopenKeepsPromises(s.gaps, from, to);
    forall c | c in s'.rows
      ensures RowKept(s', c)
    {
      GrowthKeepsRow(s, s', c);
    }
  }

  // --- PlanHeal --------------------------------------------------------------

  /** Where a clamp at wall w stands once the gaps in `done` were reconciled: rows clamped
      at a split gap follow the top of its remainder. */
  ghost function RepointedWall(gaps: GapTable, done: set<Interval>, replay: iset<int>, w: nat): nat {
    if exists g :: g in done && IsSplit(gaps, g, replay) && g.to + 1 == w then
      var g :| g in done && IsSplit(gaps, g, replay) && g.to + 1 == w;
      gaps[g].healNextTo + 1
    else
      w
  }

  ghost function Repointed(gaps: GapTable, done: set<Interval>, replay: iset<int>, b: Backfill): Backfill {
    match b.clampedAt
    case None => b
    case Some(w) => b.(clampedAt := Some(RepointedWall(gaps, done, replay, w)))
  }

  ghost predicate PlanStep(s: State, s': State, replay: iset<int>) {
    && IsPlanned(s.gaps, s'.gaps, replay)
    && s'.rows == (map c | c in s.rows :: Repointed(s.gaps, s.gaps.Keys, replay, s.rows[c]))
    && s' == s.(gaps := s'.gaps, rows := s'.rows)
  }

  /** Above its watermark a gap owes nothing, and nobody else promises its range. */
  lemma AboveWatermarkNothingIsOwed(gaps: GapTable, g: Interval, l: int)
    requires Sound(gaps) && Open(gaps, g) && gaps[g].healNextTo < l <= g.to
    ensures !Owed(gaps, l)
  {
  }

  lemma PlanKeepsRow(s: State, s': State, replay: iset<int>, c: string)
    requires Sound(s.gaps) && PlanStep(s, s', replay) && NoResolvedTwin(s.gaps, replay)
    requires c in s.rows && c in s.anchors && RowKept(s, c)
    ensures RowKept(s', c)
  {
    PlanConservesDebtIffNoTwin(s.gaps, s'.gaps, replay);
    var b := s.rows[c];
    if b.clampedAt.Some? && s'.rows[c] != b {
      var g :| IsSplit(s.gaps, g, replay) && g.to + 1 == b.clampedAt.value &&
        s'.rows[c].clampedAt == Some(s.gaps[g].healNextTo + 1);
      forall k, l: nat | k in b.coveredKinds && Max(b.targetFrom, s.gaps[g].healNextTo + 1) <= l <= s.anchors[c]
        ensures Fact(c, k, l) in s'.derived
      {
        if l <= g.to {
          AboveWatermarkNothingIsOwed(s.gaps, g, l);
        }
      }
    }
  }

  lemma PlanKeepsInv(s: State, s': State, replay: iset<int>)
    requires Inv(s) && PlanStep(s, s', replay) && NoResolvedTwin(s.gaps, replay)
    ensures Inv(s')
  {
    PlannedIsSound(s.gaps, s'.gaps, s.gaps.Keys, replay);
    forall c | c in s'.rows
      ensures RowKept(s', c)
    {
      PlanKeepsRow(s, s', replay, c);
    }
  }

  /** Applying a plan a second time changes nothing: no row, no watermark, no mode and no clamp. */
  lemma PlanningTwiceChangesNothing(s: State, once: State, twice: State, replay: iset<int>)
    requires Sound(s.gaps) && PlanStep(s, once, replay) && PlanStep(once, twice, replay)
    ensures twice == once
  {
    PlanningTwiceIsPlanningOnce(s.gaps, once.gaps, twice.gaps, replay);
    assert forall c :: c in once.rows ==> twice.rows[c] == once.rows[c];
    assert twice.rows == once.rows;
  }

  // --- CommitHealChunk -------------------------------------------------------

  function Advanced(gaps: GapTable, g: Interval, newNextTo: uint32, resolved: bool): GapTable
    requires g in gaps
  {
    gaps[g := gaps[g].(healNextTo := newNextTo, resolved := resolved)]
  }

  function LowerFrontier(b: Backfill, wall: nat, newNextTo: uint32): Backfill {
    if b.clampedAt == Some(wall) && b.nextTo > newNextTo && b.targetFrom <= newNextTo then b.(nextTo := newNextTo)
    else b
  }

  /** The row's own target is reached: it declares everything it asked for. */
  function Settled(b: Backfill): Backfill {
    b.(nextTo := Max(b.targetFrom, 1) - 1, clampedAt := None)
  }

  function ClearWhenPassed(b: Backfill, wall: nat, newNextTo: uint32): Backfill {
    if b.clampedAt == Some(wall) && b.targetFrom > newNextTo then Settled(b) else b
  }

  /** d is an open gap wholly below floor, and no open gap below floor reaches higher. */
  ghost predicate IsHighestOpenBelow(gaps: GapTable, floor: int, d: Interval) {
    && Open(gaps, d) && d.to < floor
    && forall g :: Open(gaps, g) && g.to < floor ==> g.to <= d.to
  }

  predicate ReachedBelow(gaps: GapTable, floor: int, target: int) {
    exists g :: g in gaps && !gaps[g].resolved && target <= g.to < floor
  }

  ghost function HandDown(b: Backfill, gaps: GapTable, wall: nat, floor: int): Backfill {
    if b.clampedAt == Some(wall) && b.targetFrom < floor &&
       exists d :: IsHighestOpenBelow(gaps, floor, d) && d.to >= b.targetFrom then
      var d :| IsHighestOpenBelow(gaps, floor, d) && d.to >= b.targetFrom;
      b.(clampedAt := Some(d.to + 1))
    else
      b
  }

  function CloseWhenNothingBelow(b: Backfill, gaps: GapTable, wall: nat, floor: int): Backfill {
    if b.clampedAt == Some(wall) && !ReachedBelow(gaps, floor, b.targetFrom) then Settled(b) else b
  }

  /** The row after one heal commit: the four updates of the transaction in order. */
  ghost function HealedRow(b: Backfill, gaps: GapTable, g: Interval, newNextTo: uint32, resolved: bool): Backfill {
    var wall := g.to + 1;
    var settled := ClearWhenPassed(LowerFrontier(b, wall, newNextTo), wall, newNextTo);
    if resolved then CloseWhenNothingBelow(HandDown(settled, gaps, wall, g.from), gaps, wall, g.from) else settled
  }

  ghost function HealedRows(rows: BackfillTable, gaps: GapTable, g: Interval, newNextTo: uint32,
      resolved: bool): BackfillTable
  {
    map c | c in rows :: HealedRow(rows[c], gaps, g, newNextTo, resolved)
  }

  ghost predicate HealStep(s: State, s': State, g: Interval, newNextTo: uint32, resolved: bool) {
    && Open(s.gaps, g)
    && s'.gaps == Advanced(s.gaps, g, newNextTo, resolved)
    && s'.rows == HealedRows(s.rows, s'.gaps, g, newNextTo, resolved)
    && s.derived <= s'.derived
    && s' == s.(gaps := s'.gaps, rows := s'.rows, derived := s'.derived)
  }

  /** What the healer brings to a commit: one chunk just below the watermark it
      listed, closing the gap exactly when it reached the floor. */
  ghost predicate IsChunkOf(g: Interval, listedNextTo: uint32, newNextTo: uint32, resolved: bool) {
    && g.from - 1 <= newNextTo < listedNextTo <= g.to
    && (resolved <==> newNextTo < g.from)
  }

  /** A heal commit made from a listed row that nothing rewound since. */
  ghost predicate HealCommit(s: State, s': State, g: Interval, listedNextTo: uint32, newNextTo: uint32,
      resolved: bool)
  {
    && HealStep(s, s', g, newNextTo, resolved)
    && IsChunkOf(g, listedNextTo, newNextTo, resolved)
    && s.gaps[g].healNextTo <= listedNextTo
  }

  /** The part of a heal commit that does not look at the rows it moves. */
  ghost predicate HealGaps(s: State, s': State, g: Interval, listedNextTo: uint32, newNextTo: uint32, resolved: bool) {
    && Open(s.gaps, g)
    && s'.gaps == Advanced(s.gaps, g, newNextTo, resolved)
    && s.derived <= s'.derived && s'.anchors == s.anchors && s'.cursor == s.cursor && s'.rows.Keys == s.rows.Keys
    && IsChunkOf(g, listedNextTo, newNextTo, resolved)
    && s.gaps[g].healNextTo <= listedNextTo
  }

  lemma AdvancedIsSound(gaps: GapTable, g: Interval, listedNextTo: uint32, newNextTo: uint32, resolved: bool)
    requires Sound(gaps) && Open(gaps, g) && IsChunkOf(g, listedNextTo, newNextTo, resolved)
    ensures Sound(Advanced(gaps, g, newNextTo, resolved))
    ensures forall l :: newNextTo < l <= g.to ==> !Owed(Advanced(gaps, g, newNextTo, resolved), l)
    ensures forall l :: Owed(gaps, l) && !(newNextTo < l <= gaps[g].healNextTo && g.Has(l)) ==>
      Owed(Advanced(gaps, g, newNextTo, resolved), l)
  {
    var after := Advanced(gaps, g, newNextTo, resolved);
    forall l | newNextTo < l <= g.to
      ensures !Owed(after, l)
    {
      if h :| Owes(after, h, l) {
        assert Open(gaps, h);
        OneOwner(gaps, g, h, l);
      }
    }
    forall l | Owed(gaps, l) && !(newNextTo < l <= gaps[g].healNextTo && g.Has(l))
      ensures Owed(after, l)
    {
      var h :| Owes(gaps, h, l);
      assert Owes(after, h, l);
    }
  }

  lemma AdvancedStaysSound(gaps: GapTable, g: Interval, newNextTo: uint32, resolved: bool)
    requires Sound(gaps) && Open(gaps, g) && newNextTo <= g.to && (resolved <==> newNextTo < g.from)
    ensures Sound(Advanced(gaps, g, newNextTo, resolved))
  {
    forall h | Open(Advanced(gaps, g, newNextTo, resolved), h)
      ensures Open(gaps, h)
    {
    }
  }

  /** A commit lowers the total owed by exactly the ledgers between the two watermarks. */
  lemma HealLowersDebt(gaps: GapTable, g: Interval, newNextTo: uint32, resolved: bool)
    requires Sound(gaps) && Open(gaps, g) && g.from - 1 <= newNextTo < gaps[g].healNextTo
    requires resolved <==> newNextTo < g.from
    ensures OwedCount(Advanced(gaps, g, newNextTo, resolved)) == OwedCount(gaps) - (gaps[g].healNextTo - newNextTo)
  {
    var after := Advanced(gaps, g, newNextTo, resolved);
    AdvancedStaysSound(gaps, g, newNextTo, resolved);
    OwedWithout(gaps, g);
    OwedWithout(after, g);
    assert after - {g} == gaps - {g};
  }

  /** A commit discharges only ledgers its chunk replayed exactly when the stored
      watermark is not above the one the healer listed. */
  lemma DischargesOnlyReplayedIffNotRewound(gaps: GapTable, g: Interval, listedNextTo: uint32, newNextTo: uint32,
      resolved: bool)
    requires Sound(gaps) && Open(gaps, g) && IsChunkOf(g, listedNextTo, newNextTo, resolved)
    ensures (forall l :: Owed(gaps, l) && !Owed(Advanced(gaps, g, newNextTo, resolved), l) ==>
      newNextTo < l <= listedNextTo)
        <==> gaps[g].healNextTo <= listedNextTo
  {
    AdvancedIsSound(gaps, g, listedNextTo, newNextTo, resolved);
    var after, top := Advanced(gaps, g, newNextTo, resolved), gaps[g].healNextTo;
    if top > listedNextTo {
      assert Owes(gaps, g, top);
      assert Owed(gaps, top) && !Owed(after, top);
    }
  }

  /** A promise made to a contract survives a heal commit exactly when what the commit discharged
      of it is derived for that contract. */
  lemma PromiseSurvivesHealIffServed(s: State, s': State, g: Interval, listedNextTo: uint32, newNextTo: uint32,
      resolved: bool, c: string, kinds: seq<string>, lo: int, hi: int)
    requires Sound(s.gaps) && Open(s.gaps, g) && IsChunkOf(g, listedNextTo, newNextTo, resolved)
    requires s'.gaps == Advanced(s.gaps, g, newNextTo, resolved) && s.derived <= s'.derived
    requires PromisedOver(s, c, kinds, lo, hi)
    ensures PromisedOver(s', c, kinds, lo, hi) <==>
      DerivedOver(s', c, kinds, Max(lo, newNextTo + 1), Min(hi, s.gaps[g].healNextTo))
  {
    AdvancedIsSound(s.gaps, g, listedNextTo, newNextTo, resolved);
  }

  /** A promise made to a contract survives every heal commit that replayed its part
      of the chunk for that contract. */
  lemma HealKeepsPromise(s: State, s': State, g: Interval, listedNextTo: uint32, newNextTo: uint32, resolved: bool,
      c: string, kinds: seq<string>, lo: int, hi: int)
    requires Sound(s.gaps) && HealGaps(s, s', g, listedNextTo, newNextTo, resolved)
    requires DerivedOver(s', c, kinds, Max(lo, newNextTo + 1), Min(hi, listedNextTo))
    requires PromisedOver(s, c, kinds, lo, hi)
    ensures PromisedOver(s', c, kinds, lo, hi)
  {
    AdvancedIsSound(s.gaps, g, listedNextTo, newNextTo, resolved);
  }

  /** The snapshot a heal replays with contains this row: the chunk's part of its
      target range below its wall is derived once the commit landed. */
  ghost predicate ServedBy(s: State, s': State, c: string, listedNextTo: uint32, newNextTo: uint32)
    requires c in s.rows
  {
    var b := s.rows[c];
    b.clampedAt.Some? ==>
      DerivedOver(s', c, b.coveredKinds, Max(b.targetFrom, newNextTo + 1), Min(b.clampedAt.value - 1, listedNextTo))
  }

  /** Below the floor of a resolved gap, only gaps wholly below it promise anything. */
  lemma OwedBelowFloor(gaps: GapTable, g: Interval, newNextTo: uint32, l: int) returns (h: Interval)
    requires Sound(gaps) && Open(gaps, g) && l < g.from && Owed(Advanced(gaps, g, newNextTo, true), l)
    ensures Open(Advanced(gaps, g, newNextTo, true), h) && l <= h.to < g.from
  {
    h :| Owes(Advanced(gaps, g, newNextTo, true), h, l);
    assert Open(gaps, h);
    if h.to >= g.from {
      OneOwner(gaps, g, h, g.from);
    }
  }

  /** A row clamped at the healed gap has its history down to the new watermark. */
  lemma HealedDownToWatermark(s: State, s': State, g: Interval, listedNextTo: uint32, newNextTo: uint32,
      resolved: bool, c: string)
    requires Inv(s) && HealGaps(s, s', g, listedNextTo, newNextTo, resolved) && c in s.rows
    requires s.rows[c].clampedAt == Some(g.to + 1) && ServedBy(s, s', c, listedNextTo, newNextTo)
    ensures DerivedOver(s', c, s.rows[c].coveredKinds, Max(s.rows[c].targetFrom, newNextTo + 1), s.anchors[c])
  {
    var b := s.rows[c];
    assert RowKept(s, c);
    forall k, l: nat | k in b.coveredKinds && Max(b.targetFrom, newNextTo + 1) <= l <= g.to
      ensures Fact(c, k, l) in s'.derived
    {
      if h :| Owes(s.gaps, h, l) {
        OneOwner(s.gaps, g, h, l);
      }
    }
  }

  lemma HealKeepsOtherRow(s: State, s': State, g: Interval, listedNextTo: uint32, newNextTo: uint32, resolved: bool,
      c: string)
    requires Inv(s) && HealCommit(s, s', g, listedNextTo, newNextTo, resolved) && c in s.rows
    requires s.rows[c].clampedAt != Some(g.to + 1) && ServedBy(s, s', c, listedNextTo, newNextTo)
    ensures s'.rows[c] == s.rows[c] && RowKept(s', c)
  {
    var b := s.rows[c];
    assert RowKept(s, c);
    if b.clampedAt.Some? {
      HealKeepsPromise(s, s', g, listedNextTo, newNextTo, resolved, c, b.coveredKinds, b.targetFrom,
        b.clampedAt.value - 1);
    }
  }

  lemma HealKeepsClampedRow(s: State, s': State, g: Interval, listedNextTo: uint32, newNextTo: uint32, c: string)
    requires Inv(s) && HealCommit(s, s', g, listedNextTo, newNextTo, false) && c in s.rows
    requires s.rows[c].clampedAt == Some(g.to + 1) && ServedBy(s, s', c, listedNextTo, newNextTo)
    ensures RowKept(s', c)
  {
    var b := s.rows[c];
    assert RowKept(s, c);
    HealedDownToWatermark(s, s', g, listedNextTo, newNextTo, false, c);
    HealKeepsPromise(s, s', g, listedNextTo, newNextTo, false, c, b.coveredKinds, b.targetFrom, g.to);
  }

  /** What the four updates leave of a row clamped at a resolved gap. */
  lemma ResolvedRow(b: Backfill, gaps: GapTable, g: Interval, newNextTo: uint32)
    requires b.clampedAt == Some(g.to + 1) && newNextTo < g.from && 1 <= b.targetFrom
    ensures var r := HealedRow(b, gaps, g, newNextTo, true);
      if ReachedBelow(gaps, g.from, b.targetFrom) && b.targetFrom <= newNextTo then
        exists d :: IsHighestOpenBelow(gaps, g.from, d) && d.to >= b.targetFrom &&
          r == LowerFrontier(b, g.to + 1, newNextTo).(clampedAt := Some(d.to + 1))
      else
        r == b.(clampedAt := None, nextTo := b.targetFrom - 1)
  {
    if ReachedBelow(gaps, g.from, b.targetFrom) && b.targetFrom <= newNextTo {
      HandsToHighest(LowerFrontier(b, g.to + 1, newNextTo), gaps, g.to + 1, g.from);
    } else {
      NothingBelowSettles(b, gaps, g, newNextTo);
    }
  }

  lemma HandsToHighest(b: Backfill, gaps: GapTable, wall: nat, floor: int)
    requires b.clampedAt == Some(wall) && b.targetFrom < floor && ReachedBelow(gaps, floor, b.targetFrom)
    ensures exists d ::
      IsHighestOpenBelow(gaps, floor, d) && d.to >= b.targetFrom &&
      HandDown(b, gaps, wall, floor) == b.(clampedAt := Some(d.to + 1))
  {
    var h :| Open(gaps, h) && b.targetFrom <= h.to < floor;
    var d := Climb(gaps, floor, h);
  }

  lemma NothingBelowSettles(b: Backfill, gaps: GapTable, g: Interval, newNextTo: uint32)
    requires b.clampedAt == Some(g.to + 1) && newNextTo < g.from && 1 <= b.targetFrom
    requires !ReachedBelow(gaps, g.from, b.targetFrom) || newNextTo < b.targetFrom
    ensures HealedRow(b, gaps, g, newNextTo, true) == b.(clampedAt := None, nextTo := b.targetFrom - 1)
  {
  }

  lemma Climb(gaps: GapTable, floor: int, g: Interval) returns (d: Interval)
    requires Open(gaps, g) && g.to < floor
    ensures IsHighestOpenBelow(gaps, floor, d) && g.to <= d.to
    decreases floor - g.to
  {
    if h :| Open(gaps, h) && g.to < h.to < floor {
      d := Climb(gaps, floor, h);
    } else {
      d := g;
    }
  }

  /** Ledgers between a resolved gap and the wall its rows wait at next are all derived. */
  lemma DerivedBetweenWalls(s: State, s': State, g: Interval, listedNextTo: uint32, newNextTo: uint32, c: string,
      wall: int)
    requires Inv(s) && HealGaps(s, s', g, listedNextTo, newNextTo, true) && c in s.rows
    requires s.rows[c].clampedAt == Some(g.to + 1) && ServedBy(s, s', c, listedNextTo, newNextTo)
    requires s.rows[c].targetFrom <= wall
    requires forall h :: Open(s'.gaps, h) && h.to < g.from ==> h.to < wall
    ensures DerivedOver(s', c, s.rows[c].coveredKinds, wall, s.anchors[c])
  {
    var b := s.rows[c];
    assert RowKept(s, c);
    HealedDownToWatermark(s, s', g, listedNextTo, newNextTo, true, c);
    HealKeepsPromise(s, s', g, listedNextTo, newNextTo, true, c, b.coveredKinds, b.targetFrom, g.to);
    forall k, l: nat | k in b.coveredKinds && wall <= l < g.from
      ensures Fact(c, k, l) in s'.derived
    {
      if Owed(s'.gaps, l) {
        var h := OwedBelowFloor(s.gaps, g, newNextTo, l);
      }
    }
  }

  /** A row with no open gap below that reaches its target declares all of it, rightly. */
  lemma ResolutionSettles(s: State, s': State, g: Interval, listedNextTo: uint32, newNextTo: uint32, c: string)
    requires Inv(s) && HealCommit(s, s', g, listedNextTo, newNextTo, true) && c in s.rows
    requires s.rows[c].clampedAt == Some(g.to + 1) && ServedBy(s, s', c, listedNextTo, newNextTo)
    requires s.rows[c].targetFrom <= newNextTo ==> !ReachedBelow(s'.gaps, g.from, s.rows[c].targetFrom)
    ensures s'.rows[c].clampedAt == None && s'.rows[c].nextTo == s.rows[c].targetFrom - 1
    ensures DerivedOver(s', c, s.rows[c].coveredKinds, s.rows[c].targetFrom, s.anchors[c])
    ensures RowKept(s', c)
  {
    assert RowKept(s, c);
    ResolvedRow(s.rows[c], s'.gaps, g, newNextTo);
    if s.rows[c].targetFrom <= newNextTo {
      DerivedBetweenWalls(s, s', g, listedNextTo, newNextTo, c, s.rows[c].targetFrom);
    } else {
      HealedDownToWatermark(s, s', g, listedNextTo, newNextTo, true, c);
    }
  }

  /** A row whose target a deeper open gap still reaches waits at that gap's wall, and
      nothing from that wall up is underived. */
  lemma ResolutionRepoints(s: State, s': State, g: Interval, listedNextTo: uint32, newNextTo: uint32, c: string)
      returns (d: Interval)
    requires Inv(s) && HealCommit(s, s', g, listedNextTo, newNextTo, true) && c in s.rows
    requires s.rows[c].clampedAt == Some(g.to + 1) && ServedBy(s, s', c, listedNextTo, newNextTo)
    requires s.rows[c].targetFrom <= newNextTo && ReachedBelow(s'.gaps, g.from, s.rows[c].targetFrom)
    ensures IsHighestOpenBelow(s'.gaps, g.from, d) && d.to >= s.rows[c].targetFrom
    ensures s'.rows[c].clampedAt == Some(d.to + 1)
    ensures DerivedOver(s', c, s.rows[c].coveredKinds, d.to + 1, s.anchors[c])
    ensures RowKept(s', c)
  {
    TargetIsPositive(s, c);
    d := NextWall(s, s', g, newNextTo, c);
    RepointedAt(s, s', g, listedNextTo, newNextTo, c, d);
  }

  lemma RepointedAt(s: State, s': State, g: Interval, listedNextTo: uint32, newNextTo: uint32, c: string, d: Interval)
    requires Inv(s) && HealGaps(s, s', g, listedNextTo, newNextTo, true) && c in s.rows
    requires s.rows[c].clampedAt == Some(g.to + 1) && ServedBy(s, s', c, listedNextTo, newNextTo)
    requires s.rows[c].targetFrom <= newNextTo
    requires IsHighestOpenBelow(s'.gaps, g.from, d) && d.to >= s.rows[c].targetFrom
    requires s'.rows[c] == LowerFrontier(s.rows[c], g.to + 1, newNextTo).(clampedAt := Some(d.to + 1))
    ensures DerivedOver(s', c, s.rows[c].coveredKinds, d.to + 1, s.anchors[c])
    ensures RowKept(s', c)
  {
    DerivedBetweenWalls(s, s', g, listedNextTo, newNextTo, c, d.to + 1);
    RepointedRowKept(s, s', g, listedNextTo, newNextTo, c, d.to + 1);
  }

  lemma TargetIsPositive(s: State, c: string)
    requires Inv(s) && c in s.rows
    ensures 1 <= s.rows[c].targetFrom
  {
    assert RowKept(s, c);
  }

  lemma NextWall(s: State, s': State, g: Interval, newNextTo: uint32, c: string) returns (d: Interval)
    requires HealStep(s, s', g, newNextTo, true) && newNextTo < g.from && c in s.rows
    requires s.rows[c].clampedAt == Some(g.to + 1) && 1 <= s.rows[c].targetFrom <= newNextTo
    requires ReachedBelow(s'.gaps, g.from, s.rows[c].targetFrom)
    ensures IsHighestOpenBelow(s'.gaps, g.from, d) && d.to >= s.rows[c].targetFrom
    ensures s'.rows[c] == LowerFrontier(s.rows[c], g.to + 1, newNextTo).(clampedAt := Some(d.to + 1))
  {
    ResolvedRow(s.rows[c], s'.gaps, g, newNextTo);
    d :| IsHighestOpenBelow(s'.gaps, g.from, d) && d.to >= s.rows[c].targetFrom &&
      s'.rows[c] == LowerFrontier(s.rows[c], g.to + 1, newNextTo).(clampedAt := Some(d.to + 1));
  }

  lemma RepointedRowKept(s: State, s': State, g: Interval, listedNextTo: uint32, newNextTo: uint32, c: string,
      wall: nat)
    requires Inv(s) && HealGaps(s, s', g, listedNextTo, newNextTo, true) && c in s.rows
    requires s.rows[c].clampedAt == Some(g.to + 1) && ServedBy(s, s', c, listedNextTo, newNextTo)
    requires s.rows[c].targetFrom <= newNextTo && s.rows[c].targetFrom < wall <= g.from
    requires s'.rows[c] == LowerFrontier(s.rows[c], g.to + 1, newNextTo).(clampedAt := Some(wall))
    requires DerivedOver(s', c, s.rows[c].coveredKinds, wall, s.anchors[c])
    ensures RowKept(s', c)
  {
    var b := s.rows[c];
    assert RowKept(s, c);
    HealKeepsPromise(s, s', g, listedNextTo, newNextTo, true, c, b.coveredKinds, b.targetFrom, wall - 1);
    HealedDownToWatermark(s, s', g, listedNextTo, newNextTo, true, c);
    KeptAtWall(s, s', c, wall);
  }

  /** A row moved to a wall it has everything above of, without overstating its frontier. */
  lemma KeptAtWall(s: State, s': State, c: string, wall: nat)
    requires c in s.rows && c in s.anchors && c in s'.rows && c in s'.anchors
    requires s.anchors[c] == s'.anchors[c] && s.cursor == s'.cursor && s.derived <= s'.derived
    requires RowKept(s, c) && s.rows[c].clampedAt.Some?
    requires s'.rows[c] == s.rows[c].(nextTo := s'.rows[c].nextTo, clampedAt := Some(wall))
    requires s.rows[c].targetFrom <= s'.rows[c].nextTo <= s.rows[c].nextTo && Honest(s', c)
    requires PromisedOver(s', c, s.rows[c].coveredKinds, s.rows[c].targetFrom, wall - 1)
    requires DerivedOver(s', c, s.rows[c].coveredKinds, Max(s.rows[c].targetFrom, wall), s.anchors[c])
    ensures RowKept(s', c)
  {
  }

  lemma HealKeepsInv(s: State, s': State, g: Interval, listedNextTo: uint32, newNextTo: uint32, resolved: bool)
    requires Inv(s) && HealCommit(s, s', g, listedNextTo, newNextTo, resolved)
    requires forall c :: c in s.rows ==> ServedBy(s, s', c, listedNextTo, newNextTo)
    ensures Inv(s')
    ensures resolved ==> forall c :: c in s'.rows ==> s'.rows[c].clampedAt != Some(g.to + 1)
  {
    AdvancedIsSound(s.gaps, g, listedNextTo, newNextTo, resolved);
    forall c | c in s'.rows
      ensures RowKept(s', c) && (resolved ==> s'.rows[c].clampedAt != Some(g.to + 1))
    {
      if s.rows[c].clampedAt != Some(g.to + 1) {
        HealKeepsOtherRow(s, s', g, listedNextTo, newNextTo, resolved, c);
      } else if resolved {
        if s.rows[c].targetFrom <= newNextTo && ReachedBelow(s'.gaps, g.from, s.rows[c].targetFrom) {
          var d := ResolutionRepoints(s, s', g, listedNextTo, newNextTo, c);
        } else {
          ResolutionSettles(s, s', g, listedNextTo, newNextTo, c);
        }
      } else {
        HealKeepsClampedRow(s, s', g, listedNextTo, newNextTo, c);
      }
    }
  }

  /** A row clamped at the healed gap declares what the chunk derived: its frontier comes down to the
      new watermark, handed down or not, and to its own target once nothing is left to wait for. */
  lemma HealLowersFrontier(s: State, s': State, g: Interval, listedNextTo: uint32, newNextTo: uint32, resolved: bool,
      c: string)
    requires Inv(s) && HealCommit(s, s', g, listedNextTo, newNextTo, resolved)
    requires c in s.rows && s.rows[c].clampedAt == Some(g.to + 1)
    ensures var b, r := s.rows[c], s'.rows[c];
      && r.targetFrom == b.targetFrom && r.coveredKinds == b.coveredKinds
      && r.nextTo == (if r.clampedAt.None? then b.targetFrom - 1 else Min(b.nextTo, newNextTo))
      && r.nextTo <= Max(newNextTo, b.targetFrom - 1)
  {
    assert RowKept(s, c);
    if resolved {
      ResolvedRow(s.rows[c], s'.gaps, g, newNextTo);
    }
  }

  // --- EnsureBackfill --------------------------------------------------------

  /** The covered kinds the registration still derives, in stored order. */
  function Intersect(covered: seq<string>, kinds: seq<string>): (r: seq<string>)
    ensures forall k :: k in r <==> k in covered && k in kinds
    ensures |r| <= |covered|
    ensures |r| == |covered| ==> r == covered
  {
    if covered == [] then []
    else if covered[0] in kinds then [covered[0]] + Intersect(covered[1..], kinds)
    else Intersect(covered[1..], kinds)
  }

  predicate CoversAll(b: Backfill, kinds: seq<string>) {
    forall k :: k in kinds ==> k in b.coveredKinds
  }

  /** The registration asks for history its row does not have. */
  predicate AsksForHistory(b: Backfill, targetFrom: uint32, kinds: seq<string>) {
    targetFrom < b.targetFrom || !CoversAll(b, kinds)
  }

  function FreshRow(targetFrom: uint32, nextTo: uint32, kinds: seq<string>): Backfill {
    Backfill(targetFrom, nextTo, nextTo < targetFrom, None, kinds)
  }

  /** A new kind restarts the walk at the anchor, an older target only lowers the floor;
      dropping kinds records the smaller truth and nothing else. */
  function ReconciledRow(b: Backfill, targetFrom: uint32, nextTo: uint32, kinds: seq<string>): Backfill {
    if AsksForHistory(b, targetFrom, kinds) then
      Backfill(Min(targetFrom, b.targetFrom), if CoversAll(b, kinds) then b.nextTo else nextTo, false, None, kinds)
    else
      b.(coveredKinds := Intersect(b.coveredKinds, kinds))
  }

  ghost predicate EnsureStep(s: State, s': State, c: string, targetFrom: uint32, nextTo: uint32, kinds: seq<string>) {
    s' == Ensured(s, c, targetFrom, nextTo, kinds)
  }

  ghost function Ensured(s: State, c: string, targetFrom: uint32, nextTo: uint32, kinds: seq<string>): State {
    var known := c in s.rows;
    var asks := known ==> AsksForHistory(s.rows[c], targetFrom, kinds);
    var row := if known then ReconciledRow(s.rows[c], targetFrom, nextTo, kinds)
      else FreshRow(targetFrom, nextTo, kinds);
    s.(
      gaps := if asks && targetFrom <= nextTo then Reopened(s.gaps, targetFrom, nextTo) else s.gaps,
      rows := s.rows[c := row],
      anchors := if Anchors(s, c, kinds) then s.anchors[c := nextTo] else s.anchors)
  }

  /** The registration starts a walk at its anchor: a fresh row, or a kind the row does not cover. */
  predicate Anchors(s: State, c: string, kinds: seq<string>) {
    c in s.rows ==> !CoversAll(s.rows[c], kinds)
  }

  /** Registering keeps the ledger honest when a walk it starts is not anchored behind the live cursor. */
  lemma EnsureKeepsInv(s: State, s': State, c: string, targetFrom: uint32, nextTo: uint32, kinds: seq<string>)
    requires Inv(s) && EnsureStep(s, s', c, targetFrom, nextTo, kinds)
    requires 1 <= targetFrom && s.cursor.Some? && (Anchors(s, c, kinds) ==> s.cursor.value <= nextTo < MAX_U32)
    ensures Inv(s')
  {
    ReopenKeepsPromises(s.gaps, targetFrom, nextTo);
    forall x | x in s'.rows && x != c
      ensures RowKept(s', x)
    {
      GrowthKeepsRow(s, s', x);
    }
    EnsuredRowKept(s, s', c, targetFrom, nextTo, kinds);
  }

  lemma EnsuredRowKept(s: State, s': State, c: string, targetFrom: uint32, nextTo: uint32, kinds: seq<string>)
    requires Inv(s) && EnsureStep(s, s', c, targetFrom, nextTo, kinds)
    requires 1 <= targetFrom && s.cursor.Some? && (Anchors(s, c, kinds) ==> s.cursor.value <= nextTo < MAX_U32)
    ensures RowKept(s', c)
  {
    if c in s.rows {
      assert RowKept(s, c);
      ReopenKeepsPromises(s.gaps, targetFrom, nextTo);
    }
  }

  /** A registration that starts a walk is honest under every history the tables are consistent with,
      exactly when its anchor is not behind the cursor. */
  lemma AnchoredHonestIffNotBehindCursor(s: State, c: string, targetFrom: uint32, nextTo: uint32, kinds: seq<string>)
    requires Inv(s) && 1 <= targetFrom && s.cursor.Some? && nextTo < MAX_U32
    requires kinds != [] && Anchors(s, c, kinds)
    ensures (forall world: iset<Fact> :: Inv(s.(derived := world)) ==>
               RegistersHonestly(s.(derived := world), c, targetFrom, nextTo, kinds))
        <==> s.cursor.value <= nextTo
  {
    if s.cursor.value <= nextTo {
      forall world: iset<Fact>, s' | Inv(s.(derived := world)) &&
        EnsureStep(s.(derived := world), s', c, targetFrom, nextTo, kinds)
        ensures Inv(s')
      {
        EnsureKeepsInv(s.(derived := world), s', c, targetFrom, nextTo, kinds);
      }
    } else {
      var k := kinds[0];
      if c in s.rows {
        k :| k in kinds && k !in s.rows[c].coveredKinds;
      }
      var lie := Fact(c, k, nextTo + 1);
      var world := s.derived - iset{lie};
      WithoutOneFact(s, lie);
      var s' := Ensured(s.(derived := world), c, targetFrom, nextTo, kinds);
      assert lie !in s'.derived && !RowKept(s', c);
      assert EnsureStep(s.(derived := world), s', c, targetFrom, nextTo, kinds);
    }
  }

  ghost predicate RegistersHonestly(s: State, c: string, targetFrom: uint32, nextTo: uint32, kinds: seq<string>) {
    forall s' :: EnsureStep(s, s', c, targetFrom, nextTo, kinds) ==> Inv(s')
  }

  /** No row relies on a fact of a kind it does not cover. */
  lemma WithoutOneFact(s: State, f: Fact)
    requires Inv(s) && (f.contract in s.rows ==> f.kind !in s.rows[f.contract].coveredKinds)
    ensures Inv(s.(derived := s.derived - iset{f}))
  {
    forall x | x in s.rows
      ensures RowKept(s.(derived := s.derived - iset{f}), x)
    {
      assert RowKept(s, x);
    }
  }

  /** The registration asks for history: a fresh row, an older target or a kind the row lacks. */
  predicate Asks(s: State, c: string, targetFrom: uint32, kinds: seq<string>) {
    c in s.rows ==> AsksForHistory(s.rows[c], targetFrom, kinds)
  }

  /** What a registration is granted: a row that reaches down to the target asked for and covers exactly
      the kinds asked for, still to be walked wherever history was asked for. A walk starts at the
      anchor for a new kind and keeps its watermark otherwise. */
  lemma RegistrationIsGranted(s: State, s': State, c: string, targetFrom: uint32, nextTo: uint32, kinds: seq<string>)
    requires EnsureStep(s, s', c, targetFrom, nextTo, kinds)
    ensures c in s'.rows
    ensures var r := s'.rows[c];
      && r.targetFrom <= targetFrom
      && (c in s.rows ==> r.targetFrom <= s.rows[c].targetFrom)
      && (r.targetFrom == targetFrom || (c in s.rows && r.targetFrom == s.rows[c].targetFrom))
      && (forall k :: k in r.coveredKinds <==> k in kinds)
      && r.nextTo == (if Anchors(s, c, kinds) then nextTo else s.rows[c].nextTo)
    ensures Asks(s, c, targetFrom, kinds) ==>
      s'.rows[c].clampedAt.None? && (s'.rows[c].done <==> c !in s.rows && nextTo < targetFrom)
    ensures !Asks(s, c, targetFrom, kinds) ==>
      s'.rows[c] == s.rows[c].(coveredKinds := s'.rows[c].coveredKinds)
    ensures forall x :: x != c ==> (x in s'.rows <==> x in s.rows) && (x in s.rows ==> s'.rows[x] == s.rows[x])
  {
  }

  /** A registration that asks for history hands all of its range that lies inside open gaps back to
      the healer; one that does not leaves every gap alone. */
  lemma RegistrationReopensItsRange(s: State, s': State, c: string, targetFrom: uint32, nextTo: uint32,
      kinds: seq<string>)
    requires Sound(s.gaps) && EnsureStep(s, s', c, targetFrom, nextTo, kinds)
    ensures Asks(s, c, targetFrom, kinds) ==>
      forall l :: targetFrom <= l <= nextTo && InOpenGap(s.gaps, l) ==> OwedAs(s'.gaps, l, Replay)
    ensures !Asks(s, c, targetFrom, kinds) ==> s'.gaps == s.gaps
    ensures forall g :: g in s.gaps && !Overlaps(g, targetFrom, nextTo) ==> g in s'.gaps && s'.gaps[g] == s.gaps[g]
  {
    ReopenKeepsPromises(s.gaps, targetFrom, nextTo);
  }

  /** Registering again with nothing new asked for changes nothing at all. */
  lemma SameRegistrationIsANoOp(s: State, s': State, c: string, targetFrom: uint32, nextTo: uint32, kinds: seq<string>)
    requires Inv(s) && EnsureStep(s, s', c, targetFrom, nextTo, kinds)
    requires c in s.rows && s.rows[c].targetFrom <= targetFrom
    requires forall k :: k in kinds <==> k in s.rows[c].coveredKinds
    ensures s' == s
  {
    IntersectWithSelf(s.rows[c].coveredKinds, kinds);
    assert s.rows[c := s.rows[c]] == s.rows;
  }

  lemma {:induction false} IntersectWithSelf(covered: seq<string>, kinds: seq<string>)
    requires forall k :: k in covered ==> k in kinds
    ensures Intersect(covered, kinds) == covered
  {
    if covered != [] {
      IntersectWithSelf(covered[1..], kinds);
    }
  }

  // --- CommitBackfillChunk and DeleteContract --------------------------------

  function Progressed(b: Backfill, next: Backfill): Backfill {
    b.(nextTo := next.nextTo, done := next.done, clampedAt := next.clampedAt)
  }

  ghost predicate ChunkStep(s: State, s': State, c: string, next: Backfill) {
    && c in s.rows
    && s.derived <= s'.derived
    && s' == s.(rows := s.rows[c := Progressed(s.rows[c], next)], derived := s'.derived)
  }

  /** The watermarks a walk commits after scanning down to `from`. */
  function Walked(b: Backfill, from: uint32): Backfill
    requires 1 <= from
  {
    b.(nextTo := from - 1, done := from <= b.targetFrom, clampedAt := None)
  }

  /** The watermarks a walk commits when the retention wall cut it short. */
  function ClampedAtWall(b: Backfill, wall: uint32): Backfill
    requires 1 <= wall
  {
    b.(nextTo := if wall <= b.nextTo then wall - 1 else b.nextTo, done := true, clampedAt := Some(wall))
  }

  lemma ChunkKeepsOthers(s: State, s': State, c: string, next: Backfill)
    requires Inv(s) && ChunkStep(s, s', c, next)
    requires RowKept(s', c)
    ensures Inv(s')
  {
    forall x | x in s'.rows && x != c
      ensures RowKept(s', x)
    {
      GrowthKeepsRow(s, s', x);
    }
  }

  /** A chunk keeps the ledger honest when what it scanned reaches up to the row's watermark. */
  lemma WalkKeepsInv(s: State, s': State, c: string, from: uint32)
    requires Inv(s) && c in s.rows && 1 <= from <= s.rows[c].nextTo && ChunkStep(s, s', c, Walked(s.rows[c], from))
    requires DerivedOver(s', c, s.rows[c].coveredKinds, from, s.rows[c].nextTo)
    ensures Inv(s')
  {
    assert RowKept(s, c);
    ChunkKeepsOthers(s, s', c, Walked(s.rows[c], from));
  }

  /** A clamped chunk keeps it honest when the range below the wall was promised first. */
  lemma ClampKeepsInv(s: State, s': State, c: string, wall: uint32)
    requires Inv(s) && 1 <= wall && c in s.rows && ChunkStep(s, s', c, ClampedAtWall(s.rows[c], wall))
    requires s.rows[c].targetFrom <= s.rows[c].nextTo && s.rows[c].targetFrom < wall
    requires PromisedOver(s, c, s.rows[c].coveredKinds, s.rows[c].targetFrom, wall - 1)
    requires DerivedOver(s', c, s.rows[c].coveredKinds, wall, s.rows[c].nextTo)
    ensures Inv(s')
  {
    assert RowKept(s, c);
    ChunkKeepsOthers(s, s', c, ClampedAtWall(s.rows[c], wall));
  }

  /** A clamped chunk declares everything from the wall up, and nothing below it that was not declared. */
  lemma ClampDeclaresFromTheWall(s: State, s': State, c: string, wall: uint32)
    requires 1 <= wall && c in s.rows && ChunkStep(s, s', c, ClampedAtWall(s.rows[c], wall))
    ensures var b, r := s.rows[c], s'.rows[c];
      && r.nextTo == Min(b.nextTo, wall - 1) && r.done && r.clampedAt == Some(wall)
      && r.targetFrom == b.targetFrom && r.coveredKinds == b.coveredKinds
    ensures forall x :: x in s.rows && x != c ==> x in s'.rows && s'.rows[x] == s.rows[x]
  {
  }

  /** A walk whose anchor sits below its target closes with nothing to derive. */
  lemma EmptyWalkKeepsInv(s: State, s': State, c: string)
    requires Inv(s) && c in s.rows && s.rows[c].nextTo < s.rows[c].targetFrom
    requires ChunkStep(s, s', c, s.rows[c].(done := true, clampedAt := None))
    ensures Inv(s')
  {
    assert RowKept(s, c);
    ChunkKeepsOthers(s, s', c, s.rows[c].(done := true, clampedAt := None));
  }

  ghost predicate DeleteStep(s: State, s': State, c: string) {
    s' == s.(rows := s.rows - {c}, anchors := s.anchors - {c})
  }

  lemma DeleteKeepsInv(s: State, s': State, c: string)
    requires Inv(s) && DeleteStep(s, s', c)
    ensures Inv(s')
  {
    forall x | x in s'.rows
      ensures RowKept(s', x)
    {
      GrowthKeepsRow(s, s', x);
    }
  }

  // --- CommitLedger ----------------------------------------------------------

  ghost predicate LiveStep(s: State, s': State, l: uint32) {
    && (s.cursor.Some? ==> l == s.cursor.value + 1)
    && s.derived <= s'.derived
    && s' == s.(cursor := Some(l), derived := s'.derived)
  }

  /** Live ingestion watches every row it passed the anchor of. */
  ghost predicate LiveServes(s: State, s': State, l: uint32) {
    forall c, k :: c in s.rows && c in s.anchors && s.anchors[c] < l && k in s.rows[c].coveredKinds ==>
      Fact(c, k, l) in s'.derived
  }

  lemma LiveKeepsInv(s: State, s': State, l: uint32)
    requires Inv(s) && LiveStep(s, s', l) && LiveServes(s, s', l)
    ensures Inv(s')
  {
    forall c | c in s'.rows
      ensures RowKept(s', c)
    {
      assert RowKept(s, c);
    }
  }

  // --- when a stale chunk lies -----------------------------------------------

  /** The facts a scan of [from .. to] derives for a contract under its kinds. */
  ghost function ScanFacts(c: string, kinds: seq<string>, from: int, to: int): iset<Fact> {
    iset f: Fact | f.contract == c && f.kind in kinds && from <= f.ledger <= to
  }

  ghost function AfterWalk(s: State, c: string, from: uint32, to: uint32, kinds: seq<string>): State
    requires 1 <= from && c in s.rows
  {
    s.(rows := s.rows[c := Walked(s.rows[c], from)], derived := s.derived + ScanFacts(c, kinds, from, to))
  }

  /** The listed row still stands: nothing re-anchored it above the scan or added a kind. */
  predicate StillListed(b: Backfill, listedNextTo: uint32, kinds: seq<string>) {
    b.nextTo <= listedNextTo && CoversAll(Backfill(b.targetFrom, b.nextTo, b.done, b.clampedAt, kinds), b.coveredKinds)
  }

  /** A chunk scanned from a listed row keeps the row honest under every history the
      tables are consistent with, exactly when the row was not re-anchored meanwhile. */
  lemma WalkHonestIffStillListed(s: State, c: string, from: uint32, listedNextTo: uint32, kinds: seq<string>)
    requires Inv(s) && c in s.rows && s.rows[c].clampedAt.None? && s.rows[c].coveredKinds != []
    requires 1 <= from <= listedNextTo && from <= s.rows[c].nextTo
    ensures (forall world: iset<Fact> :: Inv(s.(derived := world)) ==>
               Honest(AfterWalk(s.(derived := world), c, from, listedNextTo, kinds), c))
        <==> StillListed(s.rows[c], listedNextTo, kinds)
  {
    var b := s.rows[c];
    if StillListed(b, listedNextTo, kinds) {
      forall world: iset<Fact> | Inv(s.(derived := world))
        ensures Honest(AfterWalk(s.(derived := world), c, from, listedNextTo, kinds), c)
      {
        assert RowKept(s.(derived := world), c);
      }
    } else {
      var k, l: nat := b.coveredKinds[0], b.nextTo;
      if b.nextTo <= listedNextTo {
        k :| k in b.coveredKinds && k !in kinds;
      }
      var lie := Fact(c, k, l);
      var world := s.derived - iset{lie};
      forall x | x in s.rows
        ensures RowKept(s.(derived := world), x)
      {
        assert RowKept(s, x);
      }
      var after := AfterWalk(s.(derived := world), c, from, listedNextTo, kinds);
      assert lie !in after.derived;
      assert Inv(s.(derived := world)) && !Honest(after, c);
    }
  }
}
