// The claims of internal/api/api.go: what part of a query the tables vouch for,
// and the scan status that tells a client whether to believe an empty page.
module Api {
  import opened Basics
  import opened HealPlan
  import opened GapLedger
  import opened Coverage

  /** The bounds of one query; toLedger 0 follows the tip. */
  datatype Query = Query(fromLedger: uint32, toLedger: uint32)

  datatype CoverageInfo = CoverageInfo(
    kindDerived: bool,
    requestedFrom: uint32,
    requestedTo: Option<uint32>,
    indexedFrom: uint32,
    indexedTo: uint32,
    backfillPending: bool,
    clampedAt: Option<nat>)

  datatype ScanStatus = HasMore | WaitingForLedgers | OldestReached | Complete

  /** What reading the backfill row came back with. */
  datatype RowRead = NoBackfill | ReadFailed | Found(row: Backfill)

  // --- the vouchable range ---------------------------------------------------

  /** The oldest ledger a row vouches for, before the query bound is applied. */
  function VouchedFrom(read: RowRead, kind: string, cursor: uint32): uint32 {
    match read
    case NoBackfill => cursor
    case ReadFailed => cursor
    case Found(b) => if kind in b.coveredKinds then Wrap32(b.nextTo + 1) else cursor
  }

  method CoverageOf(kinds: seq<string>, read: RowRead, kind: string, q: Query, cursor: uint32)
      returns (cov: CoverageInfo)
    ensures cov.kindDerived == (kind in kinds)
    ensures cov.kindDerived ==>
      cov.indexedFrom == Max(VouchedFrom(read, kind, cursor), q.fromLedger) &&
      cov.indexedTo == (if q.toLedger > 0 then Min(q.toLedger, cursor) else cursor)
    ensures !cov.kindDerived ==> cov.indexedFrom == 0 && cov.indexedTo == 0
    ensures cov.requestedFrom == q.fromLedger
    ensures cov.requestedTo == (if q.toLedger > 0 then Some(q.toLedger) else None)
    ensures cov.backfillPending <==>
      cov.kindDerived && read.Found? && !(kind in read.row.coveredKinds && read.row.done)
    ensures cov.clampedAt ==
      if cov.kindDerived && read.Found? && kind in read.row.coveredKinds then read.row.clampedAt else None
  {
    cov := CoverageInfo(kind in kinds, q.fromLedger, None, 0, cursor, false, None);
    if q.toLedger > 0 {
      cov := cov.(requestedTo := Some(q.toLedger));
      if q.toLedger < cursor {
        cov := cov.(indexedTo := q.toLedger);
      }
    }
    if !cov.kindDerived {
      cov := cov.(indexedFrom := 0, indexedTo := 0);
      return;
    }
    match read {
      case NoBackfill => cov := cov.(indexedFrom := cursor);
      case ReadFailed => cov := cov.(indexedFrom := cursor);
      case Found(b) =>
        if kind !in b.coveredKinds {
          cov := cov.(indexedFrom := cursor, backfillPending := true);
        } else {
          cov := cov.(indexedFrom := Wrap32(b.nextTo + 1), backfillPending := !b.done, clampedAt := b.clampedAt);
        }
    }
    if cov.indexedFrom < q.fromLedger {
      cov := cov.(indexedFrom := q.fromLedger);
    }
  }

  /** Priority: more rows now, more rows later, unreachable history, complete. */
  function StatusOf(hasMore: bool, q: Query, kindDerived: bool, indexedFrom: uint32, cursor: uint32): ScanStatus {
    if hasMore then HasMore
    else if !kindDerived then OldestReached
    else if q.toLedger == 0 || q.toLedger > cursor then WaitingForLedgers
    else if q.fromLedger < indexedFrom then OldestReached
    else Complete
  }

  /** The status the handler reports for a query, given the row it read. */
  function Reported(hasMore: bool, kinds: seq<string>, read: RowRead, kind: string, q: Query,
      cursor: uint32): ScanStatus
  {
    StatusOf(hasMore, q, kind in kinds,
      if kind in kinds then Max(VouchedFrom(read, kind, cursor), q.fromLedger) else 0, cursor)
  }

  // --- COMPLETE never lies ---------------------------------------------------

  /** Answered from the row the tables hold, COMPLETE means every ledger of the bounded
      query was derived for the contract and the kind. */
  lemma CompleteNeverLies(s: State, c: string, kinds: seq<string>, kind: string, q: Query, hasMore: bool)
    requires Inv(s) && s.cursor.Some?
    requires c in s.rows && kind in s.rows[c].coveredKinds
    requires Reported(hasMore, kinds, Found(s.rows[c]), kind, q, s.cursor.value) == Complete
    ensures DerivedOver(s, c, [kind], q.fromLedger, q.toLedger)
  {
    assert RowKept(s, c);
    forall k, l: nat | k in [kind] && q.fromLedger <= l <= q.toLedger
      ensures Fact(c, k, l) in s.derived
    {
      assert k in s.rows[c].coveredKinds;
    }
  }

  /** A query asks for ledger l; without an upper bound it follows the tip. */
  predicate AsksFor(q: Query, l: nat) {
    q.fromLedger <= l && (q.toLedger == 0 || l <= q.toLedger)
  }

  /** The read vouches for ledger l: it lies above the watermark of a row covering the kind, or, without
      such a row, at the tip. */
  predicate Declares(read: RowRead, kind: string, cursor: uint32, l: nat) {
    if read.Found? && kind in read.row.coveredKinds then read.row.nextTo < l else cursor <= l
  }

  /** What each status says of the ledgers asked for. COMPLETE: all of them are ingested and vouched for.
      WAITING_FOR_LEDGERS: some are yet to come. OLDEST_REACHED: none is yet to come, some is not vouched
      for. More rows go first, and a kind nobody derives is never COMPLETE. */
  lemma StatusTellsWhatIsAnswered(hasMore: bool, kinds: seq<string>, read: RowRead, kind: string, q: Query,
      cursor: uint32)
    requires q.toLedger == 0 || q.fromLedger <= q.toLedger
    requires read.Found? ==> read.row.nextTo < MAX_U32
    ensures var status := Reported(hasMore, kinds, read, kind, q, cursor);
      && (status == HasMore <==> hasMore)
      && (!hasMore && kind !in kinds ==> status == OldestReached)
      && (!hasMore && kind in kinds ==>
            && (status == WaitingForLedgers <==> exists l: nat :: AsksFor(q, l) && cursor < l)
            && (status == Complete <==>
                  forall l: nat :: AsksFor(q, l) ==> l <= cursor && Declares(read, kind, cursor, l))
            && (status == OldestReached <==>
                  && (forall l: nat :: AsksFor(q, l) ==> l <= cursor)
                  && exists l: nat :: AsksFor(q, l) && !Declares(read, kind, cursor, l)))
  {
    assert AsksFor(q, q.fromLedger);
    if q.toLedger == 0 {
      assert AsksFor(q, Max(q.fromLedger, cursor + 1));
    } else {
      assert AsksFor(q, q.toLedger);
    }
  }

  /** So a healed chunk is answered for: after the commit every bounded query above the watermark, or
      above the row's own target, is COMPLETE for each kind a clamped row covers. */
  lemma HealedIsAnswered(s: State, s': State, g: Interval, listedNextTo: uint32, newNextTo: uint32, resolved: bool,
      c: string, kinds: seq<string>, kind: string, q: Query)
    requires Inv(s) && HealCommit(s, s', g, listedNextTo, newNextTo, resolved) && s.cursor.Some?
    requires c in s.rows && s.rows[c].clampedAt == Some(g.to + 1)
    requires kind in kinds && kind in s.rows[c].coveredKinds
    requires Max(newNextTo + 1, s.rows[c].targetFrom) <= q.fromLedger <= q.toLedger <= s.cursor.value
    ensures Reported(false, kinds, Found(s'.rows[c]), kind, q, s.cursor.value) == Complete
  {
    HealLowersFrontier(s, s', g, listedNextTo, newNextTo, resolved, c);
    StatusTellsWhatIsAnswered(false, kinds, Found(s'.rows[c]), kind, q, s.cursor.value);
  }

  /** A clamped chunk is answered for from the wall up. */
  lemma ClampedIsAnswered(s: State, s': State, c: string, wall: uint32, kinds: seq<string>, kind: string, q: Query)
    requires 1 <= wall && c in s.rows && ChunkStep(s, s', c, ClampedAtWall(s.rows[c], wall)) && s.cursor.Some?
    requires kind in kinds && kind in s.rows[c].coveredKinds
    requires wall <= q.fromLedger <= q.toLedger <= s.cursor.value
    ensures Reported(false, kinds, Found(s'.rows[c]), kind, q, s.cursor.value) == Complete
  {
    ClampDeclaresFromTheWall(s, s', c, wall);
    StatusTellsWhatIsAnswered(false, kinds, Found(s'.rows[c]), kind, q, s.cursor.value);
  }

  /** A finished, unclamped row is answered for down to its target. */
  lemma FinishedIsAnswered(s: State, c: string, kinds: seq<string>, kind: string, q: Query)
    requires Inv(s) && s.cursor.Some? && c in s.rows && s.rows[c].done && s.rows[c].clampedAt.None?
    requires kind in kinds && kind in s.rows[c].coveredKinds
    requires s.rows[c].targetFrom <= q.fromLedger <= q.toLedger <= s.cursor.value
    ensures Reported(false, kinds, Found(s.rows[c]), kind, q, s.cursor.value) == Complete
  {
    assert RowKept(s, c);
    StatusTellsWhatIsAnswered(false, kinds, Found(s.rows[c]), kind, q, s.cursor.value);
  }

  /** The read that found nothing to vouch with: no row, a failed read, or a row that does not cover the kind. */
  predicate FallsBack(read: RowRead, kind: string) {
    read.Found? ==> kind !in read.row.coveredKinds
  }

  /** What the tables hold makes ledger l derived for the contract under a kind its row covers: it lies
      above the row's watermark, or the row is clamped and l is derived above its wall or no longer owed. */
  ghost predicate Vouched(s: State, c: string, kind: string, l: nat) {
    && c in s.rows && kind in s.rows[c].coveredKinds
    && var b := s.rows[c];
      b.nextTo < l ||
      (b.clampedAt.Some? && b.targetFrom <= l && (b.clampedAt.value <= l || !Owed(s.gaps, l)))
  }

  /** Every history the tables are consistent with derived ledger l, up to the cursor, exactly when
      they vouch for it. */
  lemma DerivedInEveryHistoryIffVouched(s: State, c: string, kind: string, l: nat)
    requires Inv(s) && s.cursor.Some? && l <= s.cursor.value
    ensures (forall world: iset<Fact> :: Inv(s.(derived := world)) ==> Fact(c, kind, l) in world) <==>
      Vouched(s, c, kind, l)
  {
    var lie := Fact(c, kind, l);
    if Vouched(s, c, kind, l) {
      forall world: iset<Fact> | Inv(s.(derived := world))
        ensures lie in world
      {
        assert RowKept(s.(derived := world), c);
      }
    } else {
      var world := s.derived - iset{lie};
      forall x | x in s.rows
        ensures RowKept(s.(derived := world), x)
      {
        assert RowKept(s, x);
      }
      assert Inv(s.(derived := world)) && lie !in world;
    }
  }

  /** A read that falls back vouches from the cursor ledger on, so COMPLETE is reported for exactly
      the query that starts and ends on it. */
  lemma FallbackVouchesForTheCursorLedger(kinds: seq<string>, kind: string, read: RowRead, q: Query, cursor: uint32)
    requires 0 < cursor && kind in kinds && FallsBack(read, kind)
    requires 0 < q.toLedger ==> q.fromLedger <= q.toLedger
    ensures Reported(false, kinds, read, kind, q, cursor) == Complete <==> q == Query(cursor, cursor)
  {
  }

  /** That answer is true in every history the tables are consistent with exactly when a row covering
      the kind vouches for the cursor ledger: without such a row never, after a failed read of a
      pending one exactly when its watermark is below the cursor. */
  lemma FallbackIsTrueIffVouched(s: State, c: string, kinds: seq<string>, kind: string, read: RowRead)
    requires Inv(s) && s.cursor.Some? && 0 < s.cursor.value && kind in kinds
    requires read == ReadFailed || read == (if c in s.rows then Found(s.rows[c]) else NoBackfill)
    requires FallsBack(read, kind)
    ensures var cursor := s.cursor.value;
      && Reported(false, kinds, read, kind, Query(cursor, cursor), cursor) == Complete
      && ((forall world: iset<Fact> :: Inv(s.(derived := world)) ==> Fact(c, kind, cursor) in world)
          <==> Vouched(s, c, kind, cursor))
      && (Vouched(s, c, kind, cursor) ==> read == ReadFailed)
      && (c in s.rows && kind in s.rows[c].coveredKinds && !s.rows[c].done ==>
            (Vouched(s, c, kind, cursor) <==> s.rows[c].nextTo < cursor))
  {
    DerivedInEveryHistoryIffVouched(s, c, kind, s.cursor.value);
    if c in s.rows {
      assert RowKept(s, c);
    }
  }
}
