// The healer's workers (internal/ingest/heal.go) as a concurrent step system: each lists,
// claims, replays, commits and releases on its own, between transactions of everybody
// else. Lists go stale; what keeps the ledger honest anyway is proved here.
module HealWorkers {
  import opened Basics
  import opened HealPlan
  import opened GapLedger
  import opened Coverage
  import opened Storage
  import Runs

  /** Where one worker stands between its list, its claim and its release. */
  datatype Phase = Idle | Listed(gaps: seq<ListedGap>) | Claimed(gap: ListedGap) | Finished(gap: ListedGap)

  /** The equivalence gate is proven at most once: a failed comparison disables healing for good. */
  datatype GateState = Unproven | Verified | Disabled

  /** The tables, the gate, the claims, and each worker's phase. */
  datatype System = System(tables: State, gate: GateState, inFlight: set<Interval>, workers: seq<Phase>)

  datatype Move =
    | Gate(passed: bool)
    | List(worker: nat)
    | Claim(worker: nat)
    | Commit(worker: nat)
    | Fail(worker: nat)
    | Release(worker: nat)
    | Elsewhere(step: Runs.Step)

  /** Where the next chunk of a listed gap starts: `chunk` ledgers below its watermark, or its floor. */
  function ReplayFrom(x: ListedGap, chunk: uint32): (from: uint32)
    requires 1 <= chunk && x.range.from <= x.row.healNextTo
    ensures x.range.from <= from <= x.row.healNextTo
    ensures x.row.healNextTo - from < chunk
    ensures from == x.range.from || x.row.healNextTo - from + 1 == chunk
  {
    if x.row.healNextTo - x.range.from >= chunk then x.row.healNextTo - chunk + 1 else x.range.from
  }

  // --- the steps -------------------------------------------------------------

  /** The listing is what the store answered: its open replay gaps, as they stand. */
  ghost predicate IsListing(gaps: GapTable, out: seq<ListedGap>) {
    forall x :: x in out <==> Open(gaps, x.range) && x.row == gaps[x.range] && x.row.mode == Replay
  }

  predicate FirstFree(gaps: seq<ListedGap>, inFlight: set<Interval>, i: nat) {
    i < |gaps| && gaps[i].range !in inFlight && forall j :: 0 <= j < i ==> gaps[j].range in inFlight
  }

  predicate InFlight(p: Phase) {
    p.Claimed? || p.Finished?
  }

  ghost predicate Holds(p: Phase, x: ListedGap) {
    (p.Listed? && x in p.gaps) || (InFlight(p) && x == p.gap)
  }

  ghost predicate HeldBySome(y: System, x: ListedGap) {
    exists i :: 0 <= i < |y.workers| && Holds(y.workers[i], x)
  }

  ghost predicate Moves(y: System, m: Move, y': System, chunk: uint32)
    requires 1 <= chunk
  {
    match m
    case Gate(passed) => y.gate.Unproven? && y' == y.(gate := if passed then Verified else Disabled)
    case List(w) =>
      && y.gate.Verified? && w < |y.workers| && w < |y'.workers| && y.workers[w].Idle?
      && y'.workers[w].Listed? && IsListing(y.tables.gaps, y'.workers[w].gaps)
      && y' == y.(workers := y.workers[w := y'.workers[w]])
    case Claim(w) =>
      && w < |y.workers| && y.workers[w].Listed?
      && ((exists i: nat :: FirstFree(y.workers[w].gaps, y.inFlight, i) &&
             var x := y.workers[w].gaps[i];
             y' == y.(workers := y.workers[w := Claimed(x)], inFlight := y.inFlight + {x.range}))
          || ((forall x :: x in y.workers[w].gaps ==> x.range in y.inFlight) &&
            y' == y.(workers := y.workers[w := Idle])))
    case Commit(w) =>
      && w < |y.workers| && y.workers[w].Claimed?
      && CommitsChunk(y.tables, y'.tables, y.workers[w].gap, chunk)
      && y' == y.(tables := y'.tables, workers := y.workers[w := Finished(y.workers[w].gap)])
    case Fail(w) =>
      w < |y.workers| && y.workers[w].Claimed? && y' == y.(workers := y.workers[w := Finished(y.workers[w].gap)])
    case Release(w) =>
      && w < |y.workers| && y.workers[w].Finished?
      && y' == y.(workers := y.workers[w := Idle], inFlight := y.inFlight - {y.workers[w].gap.range})
    case Elsewhere(step) =>
      && !step.Heal? && Runs.Next(y.tables, step, y'.tables)
      && (forall x :: HeldBySome(y, x) ==> !Touches(y.tables, step, x.range))
      && y' == y.(tables := y'.tables)
  }

  /** The commit of one replayed chunk, made from whatever row the worker listed. */
  ghost predicate CommitsChunk(s: State, s': State, x: ListedGap, chunk: uint32)
    requires 1 <= chunk
  {
    && x.range.from <= x.row.healNextTo
    && var from := ReplayFrom(x, chunk);
    && 1 <= from
    && HealStep(s, s', x.range, from - 1, from <= x.range.from)
    && forall c :: c in s.rows ==> ServedBy(s, s', c, x.row.healNextTo, from - 1)
  }

  /** The steps that would land on a range while a worker holds a listing of it:
      registrations, records, reopens and clamps over it, and plans that split it. */
  ghost predicate Touches(s: State, step: Runs.Step, r: Interval) {
    match step
    case Register(c, target, nextTo, kinds) => target <= nextTo && Overlaps(r, target, nextTo)
    case Clamp(c, wall) => c in s.rows && s.rows[c].targetFrom <= r.to && r.from < wall
    case Record(from, to, _) => Overlaps(r, from, to)
    case Reopen(from, to) => Overlaps(r, from, to)
    case Plan(replay) => IsSplit(s.gaps, r, replay)
    case _ => false
  }

  // --- the invariant ---------------------------------------------------------

  /** Whatever the gap owes above the listed watermark was derived already for every clamped row. */
  ghost predicate Fresh(s: State, x: ListedGap) {
    Open(s.gaps, x.range) ==> forall c :: c in s.rows ==> FreshFor(s, x, c)
  }

  ghost predicate FreshFor(s: State, x: ListedGap, c: string)
    requires c in s.rows && Open(s.gaps, x.range)
  {
    var b := s.rows[c];
    b.clampedAt.Some? ==>
      DerivedOver(s, c, b.coveredKinds, Max(b.targetFrom, x.row.healNextTo + 1),
        Min(b.clampedAt.value - 1, s.gaps[x.range].healNextTo))
  }

  /** A listed gap: only it can be open over its range. */
  ghost predicate HeldOk(s: State, x: ListedGap) {
    && 1 <= x.range.from <= x.row.healNextTo <= x.range.to
    && (forall h :: Open(s.gaps, h) && Overlaps(h, x.range.from, x.range.to) ==> h == x.range)
    && Fresh(s, x)
  }

  ghost predicate SameOrApart(x: Interval, z: Interval) {
    x == z || x.to < z.from || z.to < x.from
  }

  ghost predicate WorkersKept(y: System) {
    && (!y.gate.Verified? ==> forall i :: 0 <= i < |y.workers| ==> y.workers[i].Idle?)
    && (forall x :: HeldBySome(y, x) ==> HeldOk(y.tables, x))
    && (forall x, z :: HeldBySome(y, x) && HeldBySome(y, z) ==> SameOrApart(x.range, z.range))
    && (forall i :: 0 <= i < |y.workers| && InFlight(y.workers[i]) ==> y.workers[i].gap.range in y.inFlight)
    && (forall i, j :: 0 <= i < j < |y.workers| && InFlight(y.workers[i]) && InFlight(y.workers[j]) ==>
          y.workers[i].gap.range != y.workers[j].gap.range)
  }

  ghost predicate SystemInv(y: System) {
    Inv(y.tables) && WorkersKept(y)
  }

  ghost predicate Start(y: System) {
    Inv(y.tables) && y.gate.Unproven? && y.inFlight == {} && forall i :: 0 <= i < |y.workers| ==> y.workers[i].Idle?
  }

  // --- commits ---------------------------------------------------------------

  /** The watermark a commit may discharge from: what was listed, or what a staler commit put back above it. */
  function TopOf(s: State, x: ListedGap): uint32
    requires x.range in s.gaps
  {
    Max(x.row.healNextTo, s.gaps[x.range].healNextTo)
  }

  /** However stale its list, a commit is a legal heal of the ledger: what it discharges
      beyond its own chunk had been derived by the commit that discharged it first. */
  lemma CommitIsALegalHeal(s: State, s': State, x: ListedGap, chunk: uint32)
    requires 1 <= chunk && Inv(s) && HeldOk(s, x) && CommitsChunk(s, s', x, chunk)
    ensures var from := ReplayFrom(x, chunk);
      Runs.Next(s, Runs.Heal(x.range, TopOf(s, x), from - 1, from <= x.range.from), s')
    ensures HealCommit(s, s', x.range, TopOf(s, x), ReplayFrom(x, chunk) - 1, ReplayFrom(x, chunk) <= x.range.from)
    ensures forall c :: c in s.rows ==> ServedBy(s, s', c, TopOf(s, x), ReplayFrom(x, chunk) - 1)
  {
  }

  /** A commit made from a stale list never leaves a ledger neither derived nor owed. */
  lemma StaleCommitDropsNothing(s: State, s': State, x: ListedGap, chunk: uint32, c: string)
    requires 1 <= chunk && Inv(s) && HeldOk(s, x) && CommitsChunk(s, s', x, chunk)
    requires c in s.rows && s.rows[c].clampedAt.Some?
    ensures PromisedOver(s', c, s.rows[c].coveredKinds, s.rows[c].targetFrom, s.rows[c].clampedAt.value - 1)
  {
    CommitIsALegalHeal(s, s', x, chunk);
    var b, from := s.rows[c], ReplayFrom(x, chunk);
    assert RowKept(s, c);
    HealKeepsPromise(s, s', x.range, TopOf(s, x), from - 1, from <= x.range.from, c, b.coveredKinds, b.targetFrom,
      b.clampedAt.value - 1);
  }

  /** A heal never raises a row's wall and leaves its target and kinds alone. */
  lemma HealOnlyLowersWalls(b: Backfill, gaps: GapTable, g: Interval, newNextTo: uint32, resolved: bool)
    requires g.from <= g.to
    ensures var r := HealedRow(b, gaps, g, newNextTo, resolved);
      && r.targetFrom == b.targetFrom && r.coveredKinds == b.coveredKinds
      && (r.clampedAt.Some? ==> b.clampedAt.Some? && r.clampedAt.value <= b.clampedAt.value)
  {
  }

  /** Another worker's listing survives a commit, on the same gap or any other. */
  lemma CommitKeepsListing(s: State, s': State, x: ListedGap, chunk: uint32, z: ListedGap)
    requires 1 <= chunk && Inv(s) && HeldOk(s, x) && CommitsChunk(s, s', x, chunk)
    requires HeldOk(s, z)
    ensures HeldOk(s', z)
  {
    CommitOpensNothing(s, s', x, chunk, z.range);
    if Open(s'.gaps, z.range) {
      forall c | c in s'.rows
        ensures FreshFor(s', z, c)
      {
        CommitKeepsFresh(s, s', x, chunk, z, c);
      }
    }
  }

  lemma CommitOnlyLowersWalls(s: State, s': State, x: ListedGap, chunk: uint32, c: string)
    requires 1 <= chunk && x.range.from <= x.range.to && CommitsChunk(s, s', x, chunk) && c in s'.rows
    ensures c in s.rows
    ensures var b, r := s.rows[c], s'.rows[c];
      && r.targetFrom == b.targetFrom && r.coveredKinds == b.coveredKinds
      && (r.clampedAt.Some? ==> b.clampedAt.Some? && r.clampedAt.value <= b.clampedAt.value)
  {
    var from := ReplayFrom(x, chunk);
    HealOnlyLowersWalls(s.rows[c], s'.gaps, x.range, from - 1, from <= x.range.from);
  }

  lemma CommitOpensNothing(s: State, s': State, x: ListedGap, chunk: uint32, r: Interval)
    requires 1 <= chunk && CommitsChunk(s, s', x, chunk)
    requires forall h :: Open(s.gaps, h) && Overlaps(h, r.from, r.to) ==> h == r
    ensures forall h :: Open(s'.gaps, h) && Overlaps(h, r.from, r.to) ==> h == r
  {
    forall h | Open(s'.gaps, h) && Overlaps(h, r.from, r.to)
      ensures h == r
    {
      assert Open(s.gaps, h);
    }
  }

  lemma CommitKeepsFresh(s: State, s': State, x: ListedGap, chunk: uint32, z: ListedGap, c: string)
    requires 1 <= chunk && Inv(s) && HeldOk(s, x) && CommitsChunk(s, s', x, chunk)
    requires HeldOk(s, z) && Open(s'.gaps, z.range) && c in s'.rows
    ensures FreshFor(s', z, c)
  {
    CommitOnlyLowersWalls(s, s', x, chunk, c);
    assert FreshFor(s, z, c);
    if s'.rows[c].clampedAt.Some? && z.range == x.range {
      CommitKeepsFreshOnItsGap(s, s', x, chunk, z.row.healNextTo, c);
    }
  }

  /** On the gap it commits, a chunk leaves nothing underived between any watermark that
      was listed and the one it stores. */
  lemma CommitKeepsFreshOnItsGap(s: State, s': State, x: ListedGap, chunk: uint32, listed: uint32, c: string)
    requires 1 <= chunk && Inv(s) && HeldOk(s, x) && CommitsChunk(s, s', x, chunk)
    requires c in s.rows && s.rows[c].clampedAt.Some? && FreshFor(s, ListedGap(x.range, x.row.(healNextTo := listed)),
      c)
    ensures var b := s.rows[c];
      DerivedOver(s', c, b.coveredKinds, Max(b.targetFrom, listed + 1),
        Min(b.clampedAt.value - 1, ReplayFrom(x, chunk) - 1))
  {
    var b, stored := s.rows[c], s.gaps[x.range].healNextTo;
    assert RowKept(s, c);
    forall k, l: nat | k in b.coveredKinds && Max(b.targetFrom, listed + 1) <= l &&
        l <= Min(b.clampedAt.value - 1, ReplayFrom(x, chunk) - 1)
      ensures Fact(c, k, l) in s'.derived
    {
      if stored < l {
        AboveWatermarkNothingIsOwed(s.gaps, x.range, l);
      }
    }
  }

  // --- everybody else's transactions ----------------------------------------

  /** The rows over a range stand as they were. */
  ghost predicate SameOver(before: GapTable, after: GapTable, r: Interval) {
    forall h :: Overlaps(h, r.from, r.to) ==> SameAt(before, after, h)
  }

  ghost predicate SameAt(before: GapTable, after: GapTable, h: Interval) {
    (h in before <==> h in after) && (h in before ==> after[h] == before[h])
  }

  /** No row reaches into the range that did not before. */
  ghost predicate ReachesNoFurther(s: State, s': State, r: Interval, c: string)
    requires c in s'.rows
  {
    var b := s'.rows[c];
    b.clampedAt.Some? && b.targetFrom <= r.to && r.from < b.clampedAt.value ==>
      && c in s.rows && s.rows[c].clampedAt.Some? && b.clampedAt.value <= s.rows[c].clampedAt.value
      && s.rows[c].targetFrom <= b.targetFrom && forall k :: k in b.coveredKinds ==> k in s.rows[c].coveredKinds
  }

  ghost predicate Undisturbed(s: State, s': State, r: Interval) {
    && SameOver(s.gaps, s'.gaps, r)
    && s.derived <= s'.derived
    && forall c :: c in s'.rows ==> ReachesNoFurther(s, s', r, c)
  }

  lemma UndisturbedKeepsListing(s: State, s': State, x: ListedGap)
    requires HeldOk(s, x) && Undisturbed(s, s', x.range)
    requires Open(s.gaps, x.range) ==> s.gaps[x.range].healNextTo <= x.range.to
    ensures HeldOk(s', x)
  {
    assert SameAt(s.gaps, s'.gaps, x.range);
    forall h | Open(s'.gaps, h) && Overlaps(h, x.range.from, x.range.to)
      ensures h == x.range
    {
      assert SameAt(s.gaps, s'.gaps, h);
    }
    if Open(s'.gaps, x.range) {
      forall c | c in s'.rows
        ensures FreshFor(s', x, c)
      {
        assert ReachesNoFurther(s, s', x.range, c);
        if c in s.rows {
          assert FreshFor(s, x, c);
        }
      }
    }
  }

  lemma RecordLeavesOthers(before: GapTable, after: GapTable, from: int, to: int, reason: string, x: Interval)
    requires IsRecorded(before, after, from, to, reason) && !Overlaps(x, from, to)
    requires forall h :: Open(before, h) && Overlaps(h, x.from, x.to) ==> h == x
    ensures SameOver(before, after, x)
  {
    forall h | Overlaps(h, x.from, x.to)
      ensures SameAt(before, after, h)
    {
      assert RecordedRow(before, after, from, to, reason, h);
    }
  }

  lemma PlanLeavesOthers(before: GapTable, after: GapTable, replay: iset<int>, x: Interval)
    requires Sound(before) && IsPlanned(before, after, replay) && !IsSplit(before, x, replay) && x.from <= x.to
    requires forall h :: Open(before, h) && Overlaps(h, x.from, x.to) ==> h == x
    ensures SameOver(before, after, x)
  {
    forall h | Overlaps(h, x.from, x.to)
      ensures SameAt(before, after, h)
    {
      assert PlannedRow(before, after, before.Keys, replay, h);
      forall g | Arrives(before, g, h, before.Keys, replay)
        ensures false
      {
        CutFacts(before, g, h, replay);
        assert Overlaps(g, x.from, x.to);
      }
      if IsSplit(before, h, replay) {
        assert h == x;
      }
    }
  }

  /** A step that touches no part of a listed range leaves the listing as good as it was. */
  lemma UntouchedIsUndisturbed(s: State, step: Runs.Step, s': State, x: ListedGap)
    requires Inv(s) && HeldOk(s, x) && !step.Heal? && Runs.Next(s, step, s') && !Touches(s, step, x.range)
    ensures Undisturbed(s, s', x.range)
  {
    match step
    case Record(from, to, reason) =>
      RecordLeavesOthers(s.gaps, s'.gaps, from, to, reason, x.range);
    case Plan(replay) =>
      PlanLeavesOthers(s.gaps, s'.gaps, replay, x.range);
    case _ =>
  }

  // --- every move keeps the invariant ----------------------------------------

  /** Workers other than w stand as they did. */
  ghost predicate OnlyMoved(y: System, y': System, w: nat) {
    && w < |y.workers| == |y'.workers|
    && forall i :: 0 <= i < |y.workers| && i != w ==> y'.workers[i] == y.workers[i]
  }

  /** A phase that holds nothing new keeps what is known of the listings held. */
  lemma HoldingLessKeepsListings(y: System, y': System, w: nat)
    requires WorkersKept(y) && OnlyMoved(y, y', w) && y'.tables == y.tables
    requires forall x :: Holds(y'.workers[w], x) ==> Holds(y.workers[w], x)
    ensures forall x :: HeldBySome(y', x) ==> HeldBySome(y, x)
    ensures forall x :: HeldBySome(y', x) ==> HeldOk(y'.tables, x)
    ensures forall x, z :: HeldBySome(y', x) && HeldBySome(y', z) ==> SameOrApart(x.range, z.range)
  {
  }

  lemma ListKeepsInv(y: System, y': System, w: nat, chunk: uint32)
    requires 1 <= chunk && SystemInv(y) && Moves(y, List(w), y', chunk)
    ensures SystemInv(y')
  {
    forall x | HeldBySome(y', x)
      ensures HeldBySome(y, x) || JustListed(y.tables, x)
    {
      var i :| 0 <= i < |y'.workers| && Holds(y'.workers[i], x);
      if i != w {
        assert Holds(y.workers[i], x);
      }
    }
    forall x | HeldBySome(y', x)
      ensures HeldOk(y'.tables, x)
    {
      if JustListed(y.tables, x) {
        JustListedIsHeldOk(y.tables, x);
      }
    }
    forall x, z | HeldBySome(y', x) && HeldBySome(y', z)
      ensures SameOrApart(x.range, z.range)
    {
      if JustListed(y.tables, x) {
        ApartFromJustListed(y.tables, x, z);
      } else if JustListed(y.tables, z) {
        ApartFromJustListed(y.tables, z, x);
      }
    }
  }

  ghost predicate JustListed(s: State, x: ListedGap) {
    Open(s.gaps, x.range) && x.row == s.gaps[x.range]
  }

  lemma JustListedIsHeldOk(s: State, x: ListedGap)
    requires Inv(s) && JustListed(s, x)
    ensures HeldOk(s, x)
  {
  }

  /** A listing that still stands is an open gap, and nothing else held reaches into one. */
  lemma ApartFromJustListed(s: State, x: ListedGap, z: ListedGap)
    requires JustListed(s, x) && HeldOk(s, x) && HeldOk(s, z)
    ensures SameOrApart(x.range, z.range) && SameOrApart(z.range, x.range)
  {
  }

  lemma ClaimKeepsInv(y: System, y': System, w: nat, chunk: uint32)
    requires 1 <= chunk && SystemInv(y) && Moves(y, Claim(w), y', chunk)
    ensures SystemInv(y')
  {
    HoldingLessKeepsListings(y, y', w);
  }

  lemma CommitKeepsInv(y: System, y': System, w: nat, chunk: uint32)
    requires 1 <= chunk && SystemInv(y) && Moves(y, Commit(w), y', chunk)
    ensures SystemInv(y')
  {
    var x := y.workers[w].gap;
    assert Holds(y.workers[w], x) && HeldBySome(y, x);
    CommitKeepsTables(y.tables, y'.tables, x, chunk);
    HoldingLessKeepsListings(y, y'.(tables := y.tables), w);
    forall z | HeldBySome(y', z)
      ensures HeldBySome(y, z) && HeldOk(y'.tables, z)
    {
      assert HeldBySome(y'.(tables := y.tables), z);
      CommitKeepsListing(y.tables, y'.tables, x, chunk, z);
    }
  }

  lemma CommitKeepsTables(s: State, s': State, x: ListedGap, chunk: uint32)
    requires 1 <= chunk && Inv(s) && HeldOk(s, x) && CommitsChunk(s, s', x, chunk)
    ensures Inv(s')
  {
    var from := ReplayFrom(x, chunk);
    CommitIsALegalHeal(s, s', x, chunk);
    HealKeepsInv(s, s', x.range, TopOf(s, x), from - 1, from <= x.range.from);
  }

  lemma ReleaseKeepsInv(y: System, y': System, w: nat, chunk: uint32)
    requires 1 <= chunk && SystemInv(y) && (Moves(y, Release(w), y', chunk) || Moves(y, Fail(w), y', chunk))
    ensures SystemInv(y')
  {
    HoldingLessKeepsListings(y, y', w);
  }

  lemma ElsewhereKeepsInv(y: System, y': System, step: Runs.Step, chunk: uint32)
    requires 1 <= chunk && SystemInv(y) && Moves(y, Elsewhere(step), y', chunk)
    ensures SystemInv(y')
  {
    Runs.StepKeepsInv(y.tables, step, y'.tables);
    forall x | HeldBySome(y', x)
      ensures HeldBySome(y, x) && HeldOk(y'.tables, x)
    {
      var i :| 0 <= i < |y'.workers| && Holds(y'.workers[i], x);
      assert Holds(y.workers[i], x);
      UntouchedIsUndisturbed(y.tables, step, y'.tables, x);
      UndisturbedKeepsListing(y.tables, y'.tables, x);
    }
  }

  lemma MoveKeepsInv(y: System, m: Move, y': System, chunk: uint32)
    requires 1 <= chunk && SystemInv(y) && Moves(y, m, y', chunk)
    ensures SystemInv(y')
  {
    match m
    case Gate(passed) =>
      assert forall x :: HeldBySome(y', x) ==> HeldBySome(y, x);
    case List(w) => ListKeepsInv(y, y', w, chunk);
    case Claim(w) => ClaimKeepsInv(y, y', w, chunk);
    case Commit(w) => CommitKeepsInv(y, y', w, chunk);
    case Fail(w) => ReleaseKeepsInv(y, y', w, chunk);
    case Release(w) => ReleaseKeepsInv(y, y', w, chunk);
    case Elsewhere(step) => ElsewhereKeepsInv(y, y', step, chunk);
  }

  // --- whole runs -------------------------------------------------------------

  ghost predicate IsSystemRun(ys: seq<System>, ms: seq<Move>, chunk: uint32) {
    && 1 <= chunk
    && |ys| == |ms| + 1
    && Start(ys[0])
    && forall i :: 0 <= i < |ms| ==> Moves(ys[i], ms[i], ys[i + 1], chunk)
  }

  lemma {:induction false} SystemRunsKeepInv(ys: seq<System>, ms: seq<Move>, chunk: uint32, n: nat)
    requires IsSystemRun(ys, ms, chunk) && n < |ys|
    ensures SystemInv(ys[n])
  {
    if n > 0 {
      SystemRunsKeepInv(ys, ms, chunk, n - 1);
      MoveKeepsInv(ys[n - 1], ms[n - 1], ys[n], chunk);
    }
  }

  /** Under any interleaving no gap is in two workers' hands, and the chunks they replay
      never overlap. */
  lemma ChunksInFlightAreDisjoint(ys: seq<System>, ms: seq<Move>, chunk: uint32, n: nat, i: nat, j: nat)
    requires IsSystemRun(ys, ms, chunk) && n < |ys| && i < |ys[n].workers| && j < |ys[n].workers| && i != j
    requires InFlight(ys[n].workers[i]) && InFlight(ys[n].workers[j])
    ensures var x, z := ys[n].workers[i].gap, ys[n].workers[j].gap;
      && x.range != z.range
      && x.range.from <= x.row.healNextTo && z.range.from <= z.row.healNextTo
      && (x.row.healNextTo < ReplayFrom(z, chunk) || z.row.healNextTo < ReplayFrom(x, chunk))
  {
    SystemRunsKeepInv(ys, ms, chunk, n);
    var y, x, z := ys[n], ys[n].workers[i].gap, ys[n].workers[j].gap;
    assert Holds(y.workers[i], x) && Holds(y.workers[j], z);
    assert HeldBySome(y, x) && HeldBySome(y, z);
    assert HeldOk(y.tables, x) && HeldOk(y.tables, z);
    assert i < j || j < i;
  }

  /** Nothing is committed before the equivalence gate passed. */
  lemma {:induction false} NoCommitBeforeTheGate(ys: seq<System>, ms: seq<Move>, chunk: uint32, n: nat)
    requires IsSystemRun(ys, ms, chunk) && n < |ms| && ms[n].Commit?
    ensures exists i :: 0 <= i < n && ms[i] == Gate(true)
  {
    SystemRunsKeepInv(ys, ms, chunk, n);
    assert Moves(ys[n], ms[n], ys[n + 1], chunk);
    VerifiedByTheGate(ys, ms, chunk, n);
  }

  lemma {:induction false} VerifiedByTheGate(ys: seq<System>, ms: seq<Move>, chunk: uint32, n: nat)
    requires IsSystemRun(ys, ms, chunk) && n < |ys| && ys[n].gate.Verified?
    ensures exists i :: 0 <= i < n && ms[i] == Gate(true)
  {
    if ms[n - 1] != Gate(true) {
      VerifiedByTheGate(ys, ms, chunk, n - 1);
    }
  }

  /** A failed comparison disables healing for the rest of the run: nothing is committed after it. */
  lemma NoCommitAfterAFailedGate(ys: seq<System>, ms: seq<Move>, chunk: uint32, i: nat, n: nat)
    requires IsSystemRun(ys, ms, chunk) && i < n < |ms| && ms[i] == Gate(false)
    ensures !ms[n].Commit?
  {
    DisabledForGood(ys, ms, chunk, i, n);
    SystemRunsKeepInv(ys, ms, chunk, n);
    assert Moves(ys[n], ms[n], ys[n + 1], chunk);
  }

  lemma {:induction false} DisabledForGood(ys: seq<System>, ms: seq<Move>, chunk: uint32, i: nat, n: nat)
    requires IsSystemRun(ys, ms, chunk) && i < n < |ys| && ms[i] == Gate(false)
    ensures ys[n].gate.Disabled?
  {
    if i + 1 < n {
      DisabledForGood(ys, ms, chunk, i, n - 1);
    }
    assert Moves(ys[n - 1], ms[n - 1], ys[n], chunk);
  }

  ghost predicate IsLegal(s: State, s': State) {
    exists step :: Runs.Next(s, step, s')
  }

  /** The workers refine the coverage ledger: whatever they do, each move leaves the tables
      alone or is one legal step, so every claim proved of the ledger's runs holds of theirs. */
  lemma WorkersRefineTheLedger(ys: seq<System>, ms: seq<Move>, chunk: uint32, n: nat)
    requires IsSystemRun(ys, ms, chunk) && n < |ms|
    ensures ys[n + 1].tables == ys[n].tables || IsLegal(ys[n].tables, ys[n + 1].tables)
    ensures Inv(ys[n + 1].tables)
  {
    SystemRunsKeepInv(ys, ms, chunk, n);
    SystemRunsKeepInv(ys, ms, chunk, n + 1);
    if ms[n].Commit? {
      var x := ys[n].workers[ms[n].worker].gap;
      assert Holds(ys[n].workers[ms[n].worker], x) && HeldBySome(ys[n], x);
      CommitIsALegalHeal(ys[n].tables, ys[n + 1].tables, x, chunk);
    }
  }
}
