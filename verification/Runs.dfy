// Whole runs of the coverage ledger: every interleaving of registrations, walks, gap
// records, plans, reopens, heals and live ledgers, and what holds in every state reached.
module Runs {
  import opened Basics
  import opened HealPlan
  import opened GapLedger
  import opened Coverage
  import opened Api

  /** One committed transaction. */
  datatype Step =
    | Register(contract: string, targetFrom: uint32, nextTo: uint32, kinds: seq<string>)
    | Unregister(contract: string)
    | CloseEmptyWalk(contract: string)
    | Walk(contract: string, from: uint32)
    | Clamp(contract: string, wall: uint32)
    | Record(from: uint32, to: uint32, reason: string)
    | Plan(replay: iset<int>)
    | Reopen(from: uint32, to: uint32)
    | Heal(gap: Interval, listedNextTo: uint32, newNextTo: uint32, resolved: bool)
    | Live(ledger: uint32)

  /** What the step does to the tables. */
  ghost predicate Takes(s: State, step: Step, s': State) {
    match step
    case Register(c, targetFrom, nextTo, kinds) => EnsureStep(s, s', c, targetFrom, nextTo, kinds)
    case Unregister(c) => DeleteStep(s, s', c)
    case CloseEmptyWalk(c) => c in s.rows && ChunkStep(s, s', c, s.rows[c].(done := true, clampedAt := None))
    case Walk(c, from) => c in s.rows && 1 <= from && ChunkStep(s, s', c, Walked(s.rows[c], from))
    case Clamp(c, wall) => c in s.rows && 1 <= wall && ChunkStep(s, s', c, ClampedAtWall(s.rows[c], wall))
    case Record(from, to, reason) => from <= to && RecordGapStep(s, s', from, to, reason)
    case Plan(replay) => PlanStep(s, s', replay)
    case Reopen(from, to) => ReopenStep(s, s', from, to)
    case Heal(g, listed, newNextTo, resolved) => HealStep(s, s', g, newNextTo, resolved)
    case Live(l) => LiveStep(s, s', l)
  }

  /** What the program takes for granted of the moment a step commits. */
  ghost predicate Granted(s: State, step: Step, s': State)
    requires Takes(s, step, s')
  {
    match step
    // parseFrom rejects ledger 0; a walk is anchored a margin past an existing cursor
    case Register(c, targetFrom, nextTo, kinds) =>
      1 <= targetFrom && s.cursor.Some? && (Anchors(s, c, kinds) ==> s.cursor.value <= nextTo < MAX_U32)
    case Unregister(c) => true
    case CloseEmptyWalk(c) => s.rows[c].nextTo < s.rows[c].targetFrom
    // the scan reached up to the stored watermark under every covered kind
    case Walk(c, from) => from <= s.rows[c].nextTo && DerivedOver(s', c, s.rows[c].coveredKinds, from, s.rows[c].nextTo)
    // the range below the wall was promised first, the range above it scanned
    case Clamp(c, wall) =>
      var b := s.rows[c];
      && b.targetFrom <= b.nextTo && b.targetFrom < wall
      && PromisedOver(s, c, b.coveredKinds, b.targetFrom, wall - 1)
      && DerivedOver(s', c, b.coveredKinds, wall, b.nextTo)
    case Record(from, to, reason) => 1 <= from
    case Plan(replay) => NoResolvedTwin(s.gaps, replay)
    case Reopen(from, to) => true
    // nothing rewound the gap since it was listed, and the snapshot held every clamped row
    case Heal(g, listed, newNextTo, resolved) =>
      && IsChunkOf(g, listed, newNextTo, resolved)
      && s.gaps[g].healNextTo <= listed
      && forall c :: c in s.rows ==> ServedBy(s, s', c, listed, newNextTo)
    // the watch snapshot caught up with a registration within its anchor margin
    case Live(l) => LiveServes(s, s', l)
  }

  ghost predicate Next(s: State, step: Step, s': State) {
    Takes(s, step, s') && Granted(s, step, s')
  }

  ghost predicate IsRun(states: seq<State>, steps: seq<Step>) {
    && |states| == |steps| + 1
    && Init(states[0])
    && forall i :: 0 <= i < |steps| ==> Next(states[i], steps[i], states[i + 1])
  }

  lemma StepKeepsInv(s: State, step: Step, s': State)
    requires Inv(s) && Next(s, step, s')
    ensures Inv(s')
  {
    match step
    case Register(c, targetFrom, nextTo, kinds) => EnsureKeepsInv(s, s', c, targetFrom, nextTo, kinds);
    case Unregister(c) => DeleteKeepsInv(s, s', c);
    case CloseEmptyWalk(c) => EmptyWalkKeepsInv(s, s', c);
    case Walk(c, from) => WalkKeepsInv(s, s', c, from);
    case Clamp(c, wall) => ClampKeepsInv(s, s', c, wall);
    case Record(from, to, reason) => RecordGapKeepsInv(s, s', from, to, reason);
    case Plan(replay) => PlanKeepsInv(s, s', replay);
    case Reopen(from, to) => ReopenKeepsInv(s, s', from, to);
    case Heal(g, listed, newNextTo, resolved) => HealKeepsInv(s, s', g, listed, newNextTo, resolved);
    case Live(l) => LiveKeepsInv(s, s', l);
  }

  /** What a step discharges of a promise was derived for that contract; only heals discharge. */
  ghost predicate Serves(s: State, step: Step, s': State, c: string, kinds: seq<string>, lo: int, hi: int) {
    step.Heal? && step.gap in s.gaps ==>
      DerivedOver(s', c, kinds, Max(lo, step.newNextTo + 1), Min(hi, s.gaps[step.gap].healNextTo))
  }

  /** A promise to a contract survives one step exactly when that step serves it. */
  lemma PromiseSurvivesIffServed(s: State, step: Step, s': State, c: string, kinds: seq<string>, lo: int, hi: int)
    requires Inv(s) && Next(s, step, s') && PromisedOver(s, c, kinds, lo, hi)
    ensures PromisedOver(s', c, kinds, lo, hi) <==> Serves(s, step, s', c, kinds, lo, hi)
  {
    match step
    case Register(_, targetFrom, nextTo, _) => ReopenKeepsPromises(s.gaps, targetFrom, nextTo);
    case Record(from, to, reason) => RecordedOwesTheRange(s.gaps, s'.gaps, from, to, reason);
    case Plan(replay) => PlanConservesDebtIffNoTwin(s.gaps, s'.gaps, replay);
    case Reopen(from, to) => ReopenKeepsPromises(s.gaps, from, to);
    case Heal(g, listed, newNextTo, resolved) =>
      PromiseSurvivesHealIffServed(s, s', g, listed, newNextTo, resolved, c, kinds, lo, hi);
    case _ =>
  }

  /** Coverage honesty over whole runs. */
  lemma {:induction false} RunsAreHonest(states: seq<State>, steps: seq<Step>, i: nat)
    requires IsRun(states, steps) && i < |states|
    ensures Inv(states[i])
  {
    if i > 0 {
      RunsAreHonest(states, steps, i - 1);
      StepKeepsInv(states[i - 1], steps[i - 1], states[i]);
    }
  }

  /** What is promised to a contract anywhere in a run stays derived or owed for the rest of it, as long
      as the heals in between serve it: a gap recorded before a clamp still stands when the clamp commits. */
  lemma {:induction false} PromiseSurvives(states: seq<State>, steps: seq<Step>, i: nat, j: nat, c: string,
      kinds: seq<string>, lo: int, hi: int)
    requires IsRun(states, steps) && i <= j < |states| && PromisedOver(states[i], c, kinds, lo, hi)
    requires forall n :: i <= n < j ==> Serves(states[n], steps[n], states[n + 1], c, kinds, lo, hi)
    ensures PromisedOver(states[j], c, kinds, lo, hi)
    decreases j - i
  {
    if i < j {
      PromiseSurvives(states, steps, i, j - 1, c, kinds, lo, hi);
      RunsAreHonest(states, steps, j - 1);
      PromiseSurvivesIffServed(states[j - 1], steps[j - 1], states[j], c, kinds, lo, hi);
    }
  }

  /** In every state a run reaches, every ledger a row declares was derived for the
      contract under each kind the row covers. */
  lemma DeclaredLedgersWereDerived(states: seq<State>, steps: seq<Step>, i: nat, c: string, kind: string, l: nat)
    requires IsRun(states, steps) && i < |states|
    requires var s := states[i];
      c in s.rows && kind in s.rows[c].coveredKinds && s.cursor.Some? && s.rows[c].nextTo < l <= s.cursor.value
    ensures Fact(c, kind, l) in states[i].derived
  {
    RunsAreHonest(states, steps, i);
    assert RowKept(states[i], c);
  }

  /** In every state a run reaches, a COMPLETE answer from a row that covers the kind
      means every ledger of the query was derived. */
  lemma CompleteIsTrueInEveryRun(states: seq<State>, steps: seq<Step>, i: nat,
      c: string, kinds: seq<string>, kind: string, q: Query, hasMore: bool)
    requires IsRun(states, steps) && i < |states|
    requires var s := states[i];
      && s.cursor.Some? && c in s.rows && kind in s.rows[c].coveredKinds
      && Reported(hasMore, kinds, Found(s.rows[c]), kind, q, s.cursor.value) == Complete
    ensures forall l: nat :: q.fromLedger <= l <= q.toLedger ==> Fact(c, kind, l) in states[i].derived
  {
    RunsAreHonest(states, steps, i);
    CompleteNeverLies(states[i], c, kinds, kind, q, hasMore);
    assert kind in [kind];
  }
}
