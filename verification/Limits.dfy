// Where the coverage ledger's hypotheses are needed: concrete runs in which one of them
// fails and a row ends up declaring history nobody derived.
module Limits {
  import opened Basics
  import opened Ranges
  import opened HealPlan
  import opened GapLedger
  import opened Coverage
  import Api
  import Release
  import Runs

  const WALK := "C1"
  const KIND := "events"

  function TwinGap(): Interval {
    Interval(1, 63)
  }

  function WideGap(): Interval {
    Interval(1, 127)
  }

  function TopPiece(): Interval {
    Interval(64, 127)
  }

  ghost function TopHalf(): iset<int> {
    iset l: int | TopPiece().Has(l)
  }

  /** A row clamped at the wide gap's wall, and a row resolved earlier over its lower half. */
  ghost function BeforePlan(): State {
    State(
      map[TwinGap() := GapRow("older", 0, Replay, true), WideGap() := GapRow("newer", 127, Replay, false)],
      map[WALK := Backfill(1, 127, true, Some(128), [KIND])],
      Some(127),
      map[WALK := 127],
      iset{})
  }

  ghost function AfterPlan(): State {
    BeforePlan().(gaps :=
      map[TwinGap() := GapRow("older", 0, Replay, true), TopPiece() := GapRow("newer", 127, Replay, false)])
  }

  /** The top piece healed to its floor: everything it still owed was derived. */
  ghost function AfterHeal(): State {
    AfterPlan().(
      gaps := Advanced(AfterPlan().gaps, TopPiece(), 63, true),
      rows := map[WALK := Backfill(1, 0, true, None, [KIND])],
      derived := iset f: Fact | f.contract == WALK && f.kind == KIND && 64 <= f.ledger <= 127)
  }

  // --- the state before the plan is reached ------------------------------------

  ghost function Fresh(): State {
    State(map[], map[], None, map[], iset{})
  }

  /** Live ingestion starts at 127; a first gap is recorded and healed; a walk registers, finds nothing
      served and is clamped over a second, wider gap. */
  ghost function TwinStates(): seq<State> {
    var live := Fresh().(cursor := Some(127));
    var gap := live.(gaps := map[TwinGap() := GapRow("older", 63, Replay, false)]);
    var healed := live.(gaps := map[TwinGap() := GapRow("older", 0, Replay, true)]);
    var known := healed.(rows := map[WALK := Backfill(1, 127, false, None, [KIND])], anchors := map[WALK := 127]);
    var owed := known.(gaps := BeforePlan().gaps);
    [Fresh(), live, gap, healed, known, owed, BeforePlan()]
  }

  ghost function TwinSteps(): seq<Runs.Step> {
    [ Runs.Live(127),
      Runs.Record(1, 63, "older"),
      Runs.Heal(TwinGap(), 63, 0, true),
      Runs.Register(WALK, 1, 127, [KIND]),
      Runs.Record(1, 127, "newer"),
      Runs.Clamp(WALK, 128) ]
  }

  /** A range no open gap touches is recorded as one gap. */
  lemma OneGapIsRecorded(s: State, s': State, from: uint32, to: uint32, reason: string)
    requires from <= to && forall g :: Open(s.gaps, g) ==> !Overlaps(g, from, to)
    requires s' == s.(gaps := s.gaps[Interval(from, to) := GapRow(reason, to, Replay, false)])
    ensures RecordGapStep(s, s', from, to, reason)
  {
    var whole, free := Interval(from, to), Outside(OpenCover(s.gaps));
    assert IsHole(s.gaps, from, to, whole);
    forall g
      ensures RecordedRow(s.gaps, s'.gaps, from, to, reason, g)
    {
      if IsHole(s.gaps, from, to, g) {
        RunsOverlapOnlyWhenEqual(free, from, to, g, whole, g.from);
      }
    }
  }

  lemma BeforePlanIsReached()
    ensures Runs.IsRun(TwinStates(), TwinSteps()) && TwinStates()[6] == BeforePlan()
    ensures Inv(BeforePlan())
  {
    var ss, ms := TwinStates(), TwinSteps();
    OneGapIsRecorded(ss[1], ss[2], 1, 63, "older");
    OneGapIsRecorded(ss[4], ss[5], 1, 127, "newer");
    TwinHealed();
    TwinRegistered();
    TwinClamped();
    assert Runs.Next(ss[0], ms[0], ss[1]);
    Runs.RunsAreHonest(ss, ms, 6);
  }

  lemma TwinHealed()
    ensures Runs.Next(TwinStates()[2], TwinSteps()[2], TwinStates()[3])
  {
    var s, s' := TwinStates()[2], TwinStates()[3];
    assert s'.rows == HealedRows(s.rows, s'.gaps, TwinGap(), 0, true);
  }

  lemma TwinRegistered()
    ensures Runs.Next(TwinStates()[3], TwinSteps()[3], TwinStates()[4])
  {
    var s, s' := TwinStates()[3], TwinStates()[4];
    assert Reopened(s.gaps, 1, 127) == s.gaps;
  }

  lemma TwinClamped()
    ensures Runs.Next(TwinStates()[5], TwinSteps()[5], TwinStates()[6])
  {
    var s := TwinStates()[5];
    forall l | 1 <= l <= 127
      ensures Owed(s.gaps, l)
    {
      assert Owes(s.gaps, WideGap(), l);
    }
  }

  /** The lower half's piece meets the resolved row of the same range and is not inserted. */
  lemma PlanDropsTheTwin()
    ensures PlanStep(BeforePlan(), AfterPlan(), TopHalf())
  {
    var s, s', replay := BeforePlan(), AfterPlan(), TopHalf();
    OnlyTheWideGapSplits();
    forall r
      ensures PlannedRow(s.gaps, s'.gaps, s.gaps.Keys, replay, r)
    {
      CutsOfTheWideGap(r);
      assert Arrives(s.gaps, WideGap(), r, s.gaps.Keys, replay) <==> r == TwinGap() || r == TopPiece();
      assert forall g :: Arrives(s.gaps, g, r, s.gaps.Keys, replay) ==> g == WideGap();
    }
    assert forall c :: c in s.rows ==> Repointed(s.gaps, s.gaps.Keys, replay, s.rows[c]) == s.rows[c];
    assert s'.rows == map c | c in s.rows :: Repointed(s.gaps, s.gaps.Keys, replay, s.rows[c]);
  }

  lemma OnlyTheWideGapSplits()
    ensures forall g :: IsSplit(BeforePlan().gaps, g, TopHalf()) <==> g == WideGap()
  {
    var s := BeforePlan();
    assert s.gaps[WideGap()].mode != ModeOf(TopHalf(), 1);
  }

  lemma CutsOfTheWideGap(r: Interval)
    ensures IsCut(BeforePlan().gaps, WideGap(), r, TopHalf()) <==> r == TwinGap() || r == TopPiece()
  {
    var s, replay := BeforePlan(), TopHalf();
    assert IsRun(Outside(replay), 1, 127, TwinGap()) && IsRun(replay, 1, 127, TopPiece());
    if IsCut(s.gaps, WideGap(), r, replay) {
      if r.from in replay {
        RunsOverlapOnlyWhenEqual(replay, 1, 127, r, TopPiece(), r.from);
      } else {
        RunsOverlapOnlyWhenEqual(Outside(replay), 1, 127, r, TwinGap(), r.from);
      }
    }
  }

  /** A plan that cuts a piece a resolved row shares its range with loses that piece's debt,
      and the next heal makes the clamped row declare ledgers 1 to 63, never derived. */
  lemma ResolvedTwinMakesARowLie()
    ensures Runs.IsRun(TwinStates(), TwinSteps()) && TwinStates()[6] == BeforePlan()
    ensures PlanStep(BeforePlan(), AfterPlan(), TopHalf())
    ensures HealCommit(AfterPlan(), AfterHeal(), TopPiece(), 127, 63, true)
    ensures ServedBy(AfterPlan(), AfterHeal(), WALK, 127, 63)
    ensures !Honest(AfterHeal(), WALK) && Fact(WALK, KIND, 1) !in AfterHeal().derived
    ensures Api.Reported(false, [KIND], Api.Found(AfterHeal().rows[WALK]), KIND, Api.Query(1, 63), 127) == Api.Complete
  {
    BeforePlanIsReached();
    PlanDropsTheTwin();
    HealClosesTheRow();
    ClosedRowLies();
    ClosedRowAnswersComplete();
  }

  lemma ClosedRowAnswersComplete()
    ensures Api.Reported(false, [KIND], Api.Found(AfterHeal().rows[WALK]), KIND, Api.Query(1, 63), 127) == Api.Complete
  {
  }

  lemma ClosedRowLies()
    ensures !Honest(AfterHeal(), WALK) && Fact(WALK, KIND, 1) !in AfterHeal().derived
  {
  }

  lemma HealClosesTheRow()
    ensures HealCommit(AfterPlan(), AfterHeal(), TopPiece(), 127, 63, true)
  {
    var s, s' := AfterPlan(), AfterHeal();
    assert forall g :: !Open(s'.gaps, g);
    assert HealedRow(s.rows[WALK], s'.gaps, TopPiece(), 63, true) == s'.rows[WALK];
    assert s'.rows == HealedRows(s.rows, s'.gaps, TopPiece(), 63, true);
  }

  // --- a clamp under a gap that reaches across its wall ---------------------------

  const LOWER := "C2"

  function Across(): Interval {
    Interval(1, 5000)
  }

  function AcrossRow(healNextTo: uint32, resolved: bool): GapRow {
    GapRow("below retention", healNextTo, Replay, resolved)
  }

  ghost function LowerScan(): iset<Fact> {
    iset f: Fact | f.contract == LOWER && f.kind == KIND && 4001 <= f.ledger <= 5000
  }

  ghost function BothHealed(): iset<Fact> {
    iset f: Fact | (f.contract == WALK || f.contract == LOWER) && f.kind == KIND && 1 <= f.ledger <= 5000
  }

  ghost function WithRows(s: State, walk: Backfill, lower: Backfill): State {
    s.(rows := map[WALK := walk, LOWER := lower], anchors := map[WALK := 5000, LOWER := 5000])
  }

  /** Two walks register at 5000; the lower one has walked its first cell when retention moves past
      both. The higher cell is processed first and records the gap; the lower clamp adds none. */
  ghost function StrandedStates(): seq<State> {
    var start := Backfill(1, 5000, false, None, [KIND]);
    var live := Fresh().(cursor := Some(5000));
    var one := live.(rows := map[WALK := start], anchors := map[WALK := 5000]);
    var both := WithRows(live, start, start);
    var walked := WithRows(live, start, start.(nextTo := 4000)).(derived := LowerScan());
    var owed := walked.(gaps := map[Across() := AcrossRow(5000, false)]);
    var first := WithRows(owed, start.(done := true, clampedAt := Some(5001)), start.(nextTo := 4000));
    var second := WithRows(owed, start.(done := true, clampedAt := Some(5001)),
                           Backfill(1, 4000, true, Some(4001), [KIND]));
    [Fresh(), live, one, both, walked, owed, first, first, second, Stranded()]
  }

  ghost function Stranded(): State {
    WithRows(Fresh(), Backfill(1, 0, true, None, [KIND]), Backfill(1, 4000, true, Some(4001), [KIND])).(
      cursor := Some(5000), gaps := map[Across() := AcrossRow(0, true)], derived := BothHealed())
  }

  ghost function StrandedSteps(): seq<Runs.Step> {
    [ Runs.Live(5000),
      Runs.Register(WALK, 1, 5000, [KIND]),
      Runs.Register(LOWER, 1, 5000, [KIND]),
      Runs.Walk(LOWER, 4001),
      Runs.Record(1, 5000, "below retention"),
      Runs.Clamp(WALK, 5001),
      Runs.Record(1, 4000, "below retention"),
      Runs.Clamp(LOWER, 4001),
      Runs.Heal(Across(), 5000, 0, true) ]
  }

  lemma StrandedRegistered()
    ensures Runs.Next(StrandedStates()[0], StrandedSteps()[0], StrandedStates()[1])
    ensures Runs.Next(StrandedStates()[1], StrandedSteps()[1], StrandedStates()[2])
    ensures Runs.Next(StrandedStates()[2], StrandedSteps()[2], StrandedStates()[3])
  {
    var ss := StrandedStates();
    assert Reopened(map[], 1, 5000) == map[];
    assert ss[3].rows == ss[2].rows[LOWER := ss[3].rows[LOWER]];
    assert ss[3].anchors == ss[2].anchors[LOWER := 5000];
  }

  lemma StrandedWalked()
    ensures Runs.Next(StrandedStates()[3], StrandedSteps()[3], StrandedStates()[4])
    ensures Runs.Next(StrandedStates()[4], StrandedSteps()[4], StrandedStates()[5])
  {
    var ss := StrandedStates();
    assert ss[4].rows == ss[3].rows[LOWER := ss[4].rows[LOWER]];
    OneGapIsRecorded(ss[4], ss[5], 1, 5000, "below retention");
  }

  lemma AcrossIsOwed(s: State)
    requires s.gaps == map[Across() := AcrossRow(5000, false)]
    ensures forall l :: 1 <= l <= 5000 ==> Owed(s.gaps, l)
  {
    forall l | 1 <= l <= 5000
      ensures Owed(s.gaps, l)
    {
      assert Owes(s.gaps, Across(), l);
    }
  }

  lemma StrandedClamped()
    ensures Runs.Next(StrandedStates()[5], StrandedSteps()[5], StrandedStates()[6])
    ensures Runs.Next(StrandedStates()[7], StrandedSteps()[7], StrandedStates()[8])
  {
    var ss := StrandedStates();
    AcrossIsOwed(ss[5]);
    AcrossIsOwed(ss[7]);
    assert ss[6].rows == ss[5].rows[WALK := ss[6].rows[WALK]];
    assert ss[8].rows == ss[7].rows[LOWER := ss[8].rows[LOWER]];
  }

  /** The second record finds its range covered, and leaves the table as it is. */
  lemma StrandedRecorded()
    ensures Runs.Next(StrandedStates()[6], StrandedSteps()[6], StrandedStates()[7])
  {
    var s := StrandedStates()[6];
    assert Rewound(s.gaps, 1, 4000) == s.gaps;
    forall g
      ensures RecordedRow(s.gaps, s.gaps, 1, 4000, "below retention", g)
    {
      if IsHole(s.gaps, 1, 4000, g) {
        HoleIsNotOpen(s.gaps, 1, 4000, g, Across(), g.from);
      }
    }
  }

  lemma StrandedHealed()
    ensures Runs.Next(StrandedStates()[8], StrandedSteps()[8], StrandedStates()[9])
  {
    var s, s' := StrandedStates()[8], StrandedStates()[9];
    assert forall g :: !Open(s'.gaps, g);
    assert s'.gaps == Advanced(s.gaps, Across(), 0, true);
    assert HealedRow(s.rows[WALK], s'.gaps, Across(), 0, true) == s'.rows[WALK];
    assert HealedRow(s.rows[LOWER], s'.gaps, Across(), 0, true) == s'.rows[LOWER];
    assert s'.rows == HealedRows(s.rows, s'.gaps, Across(), 0, true);
  }

  /** A run in which a row clamps under a gap reaching across its wall ends with no open gap and the
      row's whole history derived, and yet the row stays clamped and answers OLDEST_REACHED. */
  lemma ClampUnderAGapStaysClamped()
    ensures Runs.IsRun(StrandedStates(), StrandedSteps()) && StrandedStates()[9] == Stranded()
    ensures Release.ReachesAcross(StrandedStates()[6].gaps, 4001)
    ensures var s := Stranded();
      && (forall g :: !Open(s.gaps, g))
      && s.rows[LOWER].clampedAt == Some(4001)
      && DerivedOver(s, LOWER, [KIND], 1, 5000)
      && Api.Reported(false, [KIND], Api.Found(s.rows[LOWER]), KIND, Api.Query(1, 4000), 5000) == Api.OldestReached
  {
    StrandedIsRun();
    assert Open(StrandedStates()[6].gaps, Across());
  }

  lemma StrandedIsRun()
    ensures Runs.IsRun(StrandedStates(), StrandedSteps())
  {
    StrandedRegistered();
    StrandedWalked();
    StrandedClamped();
    StrandedRecorded();
    StrandedHealed();
  }

  // --- registering before the first ledger -------------------------------------

  /** Live ingestion from ledger l on, one ledger a step. */
  ghost predicate IsLive(states: seq<State>, l: uint32) {
    |states| > 0 && forall i :: 0 <= i < |states| - 1 ==> IngestsNext(states, l, i)
  }

  ghost predicate IngestsNext(states: seq<State>, l: uint32, i: nat)
    requires i + 1 < |states|
  {
    l + i <= MAX_U32 && LiveStep(states[i], states[i + 1], l + i)
  }

  lemma {:induction false} LiveKeepsRows(states: seq<State>, l: uint32, n: nat)
    requires IsLive(states, l) && n < |states|
    ensures states[n].rows == states[0].rows
    ensures 0 < n ==> states[n].cursor.Some? && states[n].cursor.value == l + n - 1
  {
    if n > 0 {
      LiveKeepsRows(states, l, n - 1);
      assert IngestsNext(states, l, n - 1);
    }
  }

  /** Registered while no cursor exists, a row vouches for everything from nextTo + 1 to the cursor,
      however long ingestion has run; live ledgers are all that was derived, so the claim holds exactly
      when the first of them adjoins the anchor. */
  lemma EarlyRegistrationHonestIffFirstLedgerAdjoins(s: State, states: seq<State>, c: string, targetFrom: uint32,
      nextTo: uint32, kinds: seq<string>, l: uint32, n: nat)
    requires Init(s) && IsLive(states, l) && EnsureStep(s, states[0], c, targetFrom, nextTo, kinds)
    requires kinds != [] && nextTo < MAX_U32 && 0 < n < |states|
    requires forall k, q: nat :: k in kinds ==> (Fact(c, k, q) in states[n].derived <==> l <= q < l + n)
    ensures states[n].cursor.Some? && c in states[n].rows
    ensures DerivedOver(states[n], c, kinds, states[n].rows[c].nextTo + 1, states[n].cursor.value) <==> l <= nextTo + 1
  {
    LiveKeepsRows(states, l, n);
    if nextTo + 1 < l {
      assert kinds[0] in kinds;
      assert Fact(c, kinds[0], nextTo + 1) !in states[n].derived;
    }
  }

  /** The program's own case: no cursor yet means an anchor of 0, and a chain that starts at
      ledger l > 1 answers COMPLETE, ever after, for ledgers it never saw. */
  lemma EarlyRegistrationAnswersComplete(s: State, states: seq<State>, c: string, kinds: seq<string>, l: uint32, n: nat)
    requires Init(s) && IsLive(states, l) && EnsureStep(s, states[0], c, 1, 0, kinds)
    requires KIND in kinds && 1 < l && 0 < n < |states|
    requires forall k, q: nat :: k in kinds ==> (Fact(c, k, q) in states[n].derived <==> l <= q < l + n)
    ensures states[n].cursor.Some? && c in states[n].rows
    ensures var cursor := states[n].cursor.value;
      Api.Reported(false, kinds, Api.Found(states[n].rows[c]), KIND, Api.Query(1, cursor), cursor) == Api.Complete
    ensures Fact(c, KIND, 1) !in states[n].derived
  {
    LiveKeepsRows(states, l, n);
  }
}
