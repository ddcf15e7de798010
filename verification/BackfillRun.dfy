// The backfill worker from round to round (internal/ingest/backfill.go): what registrations owe it,
// and that a walk nothing cuts is finished after one round per grid cell it crosses.
module BackfillRun {
  import opened Basics
  import opened Coverage
  import opened Extract
  import opened Storage
  import opened Walk
  import opened BackfillWorker
  import opened BackfillRound
  import Api

  // --- registrations ---------------------------------------------------------------

  /** The pair a registration runs, the contract's kinds and then its walk, leaves every pending walk
      with a registration that derives what the walk covers. */
  lemma RegistrationKeepsRegistered(s: State, s': State, contracts: map<string, seq<string>>, c: string,
      targetFrom: uint32, nextTo: uint32, kinds: seq<string>)
    requires Registered(s.rows, contracts) && IsContractId(c) && EnsureStep(s, s', c, targetFrom, nextTo, kinds)
    ensures Registered(s'.rows, contracts[c := kinds])
  {
    forall x | x in s'.rows && x in contracts[c := kinds] && !s'.rows[x].done
      ensures RegisteredOne(s'.rows[x], x, contracts[c := kinds][x])
    {
      if x != c {
        assert RegisteredOne(s.rows[x], x, contracts[x]);
      }
    }
  }

  /** Torn between the two, the registration is behind its own walk exactly when it dropped a kind
      an unfinished walk still covers. */
  lemma TornRegistrationIffKindDropped(rows: BackfillTable, contracts: map<string, seq<string>>, c: string,
      kinds: seq<string>)
    requires Registered(rows, contracts) && IsContractId(c)
    ensures Registered(rows, contracts[c := kinds]) <==>
      (c in rows && !rows[c].done ==> forall k :: k in rows[c].coveredKinds ==> k in kinds)
  {
    var after := contracts[c := kinds];
    if c in rows && !rows[c].done {
      if forall k :: k in rows[c].coveredKinds ==> k in kinds {
        assert RegisteredOne(rows[c], c, kinds);
      }
      assert Registered(rows, after) ==> RegisteredOne(rows[c], c, after[c]);
    }
    forall x | x in rows && x in after && !rows[x].done && x != c
      ensures RegisteredOne(rows[x], x, after[x])
    {
      assert RegisteredOne(rows[x], x, contracts[x]);
    }
  }

  const REGISTRATION_ANCHOR_MARGIN := 20

  /** A margin past the cursor, in 32-bit arithmetic, or 0 while there is none. */
  function AnchorAt(cursor: Option<Cursor>): uint32 {
    if cursor.Some? then Wrap32(cursor.value.sequence + REGISTRATION_ANCHOR_MARGIN) else 0
  }

  /** Registers a contract: its kinds, then its walk. With a cursor the ledger stays honest; with or without one
      every pending walk stays with a registration that derives what it covers. */
  method Register(store: Store, c: string, targetFrom: uint32, kinds: seq<string>)
    requires store.Valid() && Inv(store.Model()) && Registered(store.rows, store.contracts)
    requires IsContractId(c) && 1 <= targetFrom
    modifies store`contracts, store`gaps, store`rows, store`anchors
    ensures store.Valid() && Registered(store.rows, store.contracts)
    ensures store.contracts == old(store.contracts)[c := kinds]
    ensures EnsureStep(old(store.Model()), store.Model(), c, targetFrom, AnchorAt(store.cursor), kinds)
    ensures store.cursor.Some? && store.cursor.value.sequence + REGISTRATION_ANCHOR_MARGIN < MAX_U32 ==>
      Inv(store.Model())
    ensures store.cursor.Some? && store.cursor.value.sequence + 20 < MAX_U32 ==>
      Anchors(old(store.Model()), c, kinds) ==>
        c in store.anchors && store.anchors[c] == store.cursor.value.sequence + 20
  {
    ghost var before, contracts := store.Model(), store.contracts;
    store.UpsertContract(c, kinds);
    var nextTo := AnchorAt(store.cursor);
    store.EnsureBackfill(c, targetFrom, nextTo, kinds);
    RegistrationKeepsRegistered(before, store.Model(), contracts, c, targetFrom, nextTo, kinds);
    if store.cursor.Some? && store.cursor.value.sequence + REGISTRATION_ANCHOR_MARGIN < MAX_U32 {
      EnsureKeepsInv(before, store.Model(), c, targetFrom, nextTo, kinds);
    }
  }

  // --- rounds ------------------------------------------------------------------------

  /** Where n failure-free rounds take a walk that is served all the way. */
  function AfterRounds(b: Backfill, n: nat): (r: Backfill)
    requires 1 <= b.targetFrom
    ensures r.targetFrom == b.targetFrom && r.coveredKinds == b.coveredKinds
  {
    if n == 0 then b
    else
      var before := AfterRounds(b, n - 1);
      if before.done then before else NextRow(before)
  }

  /** A round changes no registration's kinds, so every pending walk stays registered. */
  lemma RoundKeepsRegistered(rows: BackfillTable, now: BackfillTable, contracts: map<string, seq<string>>)
    requires Registered(rows, contracts) && RoundMoved(rows, now)
    ensures Registered(now, contracts)
  {
    forall c | c in now && c in contracts && !now[c].done
      ensures RegisteredOne(now[c], c, contracts[c])
    {
      assert RowMoved(rows, now, c) && RegisteredOne(rows[c], c, contracts[c]);
    }
  }

  /** n rounds on, every registered walk that is served all the way stands where n steps take it. */
  ghost predicate AllStepped(before: BackfillTable, after: BackfillTable, contracts: map<string, seq<string>>,
      oldest: int, n: nat)
  {
    forall c :: c in before && c in contracts && oldest <= before[c].targetFrom && 1 <= before[c].targetFrom ==>
      c in after && after[c] == AfterRounds(before[c], n)
  }

  lemma OneMoreStepped(rows: BackfillTable, was: BackfillTable, now: BackfillTable,
      contracts: map<string, seq<string>>, oldest: int, n: nat)
    requires AllStepped(rows, was, contracts, oldest, n) && RoundMoved(was, now) &&
      AllAdvanced(was, now, contracts, oldest)
    ensures AllStepped(rows, now, contracts, oldest, n + 1)
  {
    forall c | c in rows && c in contracts && oldest <= rows[c].targetFrom && 1 <= rows[c].targetFrom
      ensures c in now && now[c] == AfterRounds(rows[c], n + 1)
    {
      assert RowMoved(was, now, c);
      if !was[c].done {
        assert Advances(was, now, c, oldest);
      }
    }
  }

  /** Round after round. However each goes, the ledger stays honest; when nothing fails, every registered
      walk that is served all the way makes one step a round. */
  method Run(b: Backfiller, rounds: nat, weather: nat -> Weather, ghost oldest: int, ghost meta: nat -> Meta)
    requires b.Valid() && Inv(b.store.Model()) && Registered(b.store.rows, b.store.contracts)
    modifies b, b.store`gaps, b.store`rows, b.store`records
    ensures b.Valid() && Inv(b.store.Model()) && Registered(b.store.rows, b.store.contracts)
    ensures (forall i :: NothingFails(b.src, oldest, meta, weather(i))) ==>
      AllStepped(old(b.store.rows), b.store.rows, b.store.contracts, oldest, rounds)
  {
    ghost var rows := b.store.rows;
    ghost var smooth := forall i :: NothingFails(b.src, oldest, meta, weather(i));
    for i := 0 to rounds
      invariant b.Valid() && Inv(b.store.Model()) && Registered(b.store.rows, b.store.contracts)
      invariant smooth ==> AllStepped(rows, b.store.rows, b.store.contracts, oldest, i)
    {
      ghost var was := b.store.rows;
      var worked := Round(b, weather(i), oldest, meta);
      RoundKeepsRegistered(was, b.store.rows, b.store.contracts);
      if smooth {
        assert NothingFails(b.src, oldest, meta, weather(i));
        OneMoreStepped(rows, was, b.store.rows, b.store.contracts, oldest, i);
      }
    }
  }

  // --- how many rounds a walk takes ------------------------------------------------------

  /** The grid cells from the watermark down to the target. */
  function CellsToGo(b: Backfill): nat
    requires 1 <= b.targetFrom <= b.nextTo
  {
    (b.nextTo - 1) / BACKFILL_CHUNK_SIZE - (b.targetFrom - 1) / BACKFILL_CHUNK_SIZE + 1
  }

  /** A step from a walk's first chunk on: the same rounds, seen one chunk later. */
  lemma {:induction false} StepFirst(b: Backfill, n: nat)
    requires 1 <= b.targetFrom && !b.done && 0 < n
    ensures AfterRounds(b, n) == AfterRounds(NextRow(b), n - 1)
  {
    if n > 1 {
      StepFirst(b, n - 1);
    }
  }

  /** An unfinished walk that is served all the way is done, at its target and unclamped, after exactly
      one round per cell, and not before. */
  lemma {:induction false} OneRoundPerCell(b: Backfill, n: nat)
    requires 1 <= b.targetFrom <= b.nextTo && !b.done
    ensures AfterRounds(b, n).done <==> CellsToGo(b) <= n
    ensures CellsToGo(b) <= n ==> AfterRounds(b, n) == b.(nextTo := b.targetFrom - 1, done := true, clampedAt := None)
    decreases b.nextTo
  {
    if n > 0 {
      StepFirst(b, n);
      var from, next := ChunkFrom(b), NextRow(b);
      if from > b.targetFrom {
        assert (from - 1) % BACKFILL_CHUNK_SIZE == 0;
        assert CellsToGo(next) == CellsToGo(b) - 1;
        OneRoundPerCell(next, n - 1);
      } else {
        DoneStaysDone(next, n - 1);
      }
    }
  }

  lemma {:induction false} DoneStaysDone(b: Backfill, n: nat)
    requires 1 <= b.targetFrom && b.done
    ensures AfterRounds(b, n) == b
  {
    if n > 0 {
      DoneStaysDone(b, n - 1);
    }
  }

  /** So a run of failure-free rounds, one per cell of a walk or more, leaves that walk finished at its
      target, whatever else is pending; one round fewer does not. */
  lemma WalkFinishesInOneRoundPerCell(before: BackfillTable, after: BackfillTable,
      contracts: map<string, seq<string>>, oldest: int, rounds: nat, c: string)
    requires AllStepped(before, after, contracts, oldest, rounds) && c in before && c in contracts && !before[c].done
    requires oldest <= before[c].targetFrom && 1 <= before[c].targetFrom <= before[c].nextTo
    ensures c in after && (after[c].done <==> CellsToGo(before[c]) <= rounds)
    ensures CellsToGo(before[c]) <= rounds ==>
      after[c] == before[c].(nextTo := before[c].targetFrom - 1, done := true, clampedAt := None)
  {
    OneRoundPerCell(before[c], rounds);
  }

  // --- from a registration to its answers ---------------------------------------------------

  /** The failure-free rounds that finish a walk. */
  function RoundsToGo(b: Backfill): nat
    requires 1 <= b.targetFrom
  {
    if b.done then 0 else if b.nextTo < b.targetFrom then 1 else CellsToGo(b)
  }

  lemma EnoughRoundsFinish(b: Backfill, n: nat)
    requires 1 <= b.targetFrom && b.clampedAt.None? && (b.done ==> b.nextTo < b.targetFrom) && RoundsToGo(b) <= n
    ensures var r := AfterRounds(b, n); r.done && r.clampedAt.None? && r.nextTo < r.targetFrom
  {
    if b.done {
      DoneStaysDone(b, n);
    } else if b.nextTo < b.targetFrom {
      StepFirst(b, n);
      DoneStaysDone(NextRow(b), n - 1);
    } else {
      OneRoundPerCell(b, n);
    }
  }

  /** A registration that asks for history, then enough failure-free rounds over a source that serves it:
      the row declares everything from the target asked for under every kind asked for. */
  lemma RegisteredIsWalked(s: State, s': State, after: BackfillTable, contracts: map<string, seq<string>>, c: string,
      targetFrom: uint32, nextTo: uint32, kinds: seq<string>, oldest: int, rounds: nat)
    requires Inv(s) && EnsureStep(s, s', c, targetFrom, nextTo, kinds) && Asks(s, c, targetFrom, kinds)
    requires 1 <= s'.rows[c].targetFrom && oldest <= s'.rows[c].targetFrom && RoundsToGo(s'.rows[c]) <= rounds
    requires c in contracts && AllStepped(s'.rows, after, contracts, oldest, rounds)
    ensures c in after && after[c].done && after[c].clampedAt.None? && after[c].nextTo < targetFrom
    ensures forall k :: k in after[c].coveredKinds <==> k in kinds
  {
    RegistrationIsGranted(s, s', c, targetFrom, nextTo, kinds);
    EnoughRoundsFinish(s'.rows[c], rounds);
  }

  /** A registration and the rounds behind it, end to end: where nothing fails and the source serves the
      whole target range, every bounded query from the target on is COMPLETE for every kind. */
  method RegisterAndWalk(b: Backfiller, c: string, targetFrom: uint32, kinds: seq<string>, rounds: nat,
      weather: nat -> Weather, ghost oldest: int, ghost meta: nat -> Meta) returns (ghost registered: State)
    requires b.Valid() && Inv(b.store.Model()) && Registered(b.store.rows, b.store.contracts)
    requires IsContractId(c) && 1 <= targetFrom && b.store.cursor.Some?
    requires b.store.cursor.value.sequence + REGISTRATION_ANCHOR_MARGIN < MAX_U32
    modifies b, b.store`contracts, b.store`gaps, b.store`rows, b.store`anchors, b.store`records
    ensures b.Valid() && Inv(b.store.Model()) && Registered(b.store.rows, b.store.contracts)
    ensures EnsureStep(old(b.store.Model()), registered, c, targetFrom, AnchorAt(b.store.cursor), kinds)
    ensures Inv(registered) && c in registered.rows && 1 <= registered.rows[c].targetFrom <= targetFrom
    ensures Asks(old(b.store.Model()), c, targetFrom, kinds) && oldest <= registered.rows[c].targetFrom ==>
      RoundsToGo(registered.rows[c]) <= rounds ==>
        (forall i :: NothingFails(b.src, oldest, meta, weather(i))) ==>
          c in b.store.rows && AnsweredFrom(b.store.rows[c], kinds, targetFrom, b.store.cursor.value.sequence)
  {
    ghost var before := b.store.Model();
    Register(b.store, c, targetFrom, kinds);
    registered := b.store.Model();
    RegistrationIsGranted(before, registered, c, targetFrom, AnchorAt(b.store.cursor), kinds);
    assert RowKept(registered, c);
    Run(b, rounds, weather, oldest, meta);
    if Asks(before, c, targetFrom, kinds) && oldest <= registered.rows[c].targetFrom &&
      RoundsToGo(registered.rows[c]) <= rounds && forall i :: NothingFails(b.src, oldest, meta, weather(i))
    {
      RegisteredIsWalked(before, registered, b.store.rows, b.store.contracts, c, targetFrom, AnchorAt(b.store.cursor),
        kinds, oldest, rounds);
      DeclaredIsAnswered(b.store.rows[c], kinds, targetFrom, b.store.cursor.value.sequence);
    }
  }

  /** Every bounded query from `from` on is COMPLETE, for each of the kinds. */
  ghost predicate AnsweredFrom(b: Backfill, kinds: seq<string>, from: uint32, cursor: uint32) {
    forall kind, q: Api.Query :: kind in kinds && from <= q.fromLedger <= q.toLedger <= cursor ==>
      Api.Reported(false, kinds, Api.Found(b), kind, q, cursor) == Api.Complete
  }

  lemma DeclaredIsAnswered(b: Backfill, kinds: seq<string>, from: uint32, cursor: uint32)
    requires b.nextTo < from && forall k :: k in kinds ==> k in b.coveredKinds
    ensures AnsweredFrom(b, kinds, from, cursor)
  {
    forall kind, q: Api.Query | kind in kinds && from <= q.fromLedger <= q.toLedger <= cursor
      ensures Api.Reported(false, kinds, Api.Found(b), kind, q, cursor) == Api.Complete
    {
      Api.StatusTellsWhatIsAnswered(false, kinds, Api.Found(b), kind, q, cursor);
    }
  }
}
