// One healer (internal/ingest/heal.go): the claims its workers share, the gate they wait
// for, and the chunk each of them replays and commits.
module Healing {
  import opened Basics
  import opened HealPlan
  import opened GapLedger
  import opened Coverage
  import opened Extract
  import ExtractLoop
  import opened Scan
  import opened Storage
  import opened BackfillWorker
  import opened HealWorkers
  import Canonical
  import Gate

  /** The ledger captive core produces at its n-th request. */
  type Replayer = (nat, nat) -> Option<Meta>

  /** What the gate samples and the healer then takes for granted of every replay. */
  ghost predicate Reproduces(core: Replayer, chain: Chain) {
    forall n, q :: ReproducesOne(core(n, q), chain)
  }

  ghost predicate ReproducesOne(r: Option<Meta>, chain: Chain) {
    r.Some? ==> r.value.ledger == chain(r.value.sequence)
  }

  /** From this call on the core produces [from .. to] in order, each ledger naming the hash before it. */
  ghost predicate Replays(core: Replayer, call: nat, from: nat, to: int) {
    forall i: nat :: from + i <= to ==> ReplaysOne(core, call, from, i)
  }

  ghost predicate ReplaysOne(core: Replayer, call: nat, from: nat, i: nat) {
    && Produces(core, call, from, i)
    && (0 < i && Produces(core, call, from, i - 1) ==>
          Follows(core(call + i, from + i).value, core(call + i - 1, from + i - 1).value.hash))
  }

  /** m names the hash before it, when there is one to check. */
  predicate Follows(m: Meta, previous: string) {
    previous == "" || m.previousHash == previous
  }

  ghost predicate Produces(core: Replayer, call: nat, from: nat, i: nat) {
    core(call + i, from + i).Some? && core(call + i, from + i).value.sequence == from + i
  }

  predicate Fits(lcm: Option<Meta>, q: nat, prevHash: string) {
    lcm.Some? && lcm.value.sequence == q && Follows(lcm.value, prevHash)
  }

  /** The hash the replay carries after its first n ledgers. */
  ghost predicate HashBefore(core: Replayer, call: nat, from: nat, n: nat, prevHash: string) {
    if n == 0 then prevHash == ""
    else Produces(core, call, from, n - 1) && prevHash == core(call + n - 1, from + n - 1).value.hash
  }

  lemma OneMoreReplayed(core: Replayer, call: nat, from: nat, q: nat, prevHash: string)
    requires from <= q && Replays(core, call, from, q - 1) && HashBefore(core, call, from, q - from, prevHash)
    ensures Fits(core(call + q - from, q), q, prevHash) <==> Replays(core, call, from, q)
    ensures Fits(core(call + q - from, q), q, prevHash) ==>
      HashBefore(core, call, from, q + 1 - from, core(call + q - from, q).value.hash)
    ensures !Replays(core, call, from, q) ==> forall to :: q <= to ==> !Replays(core, call, from, to)
  {
    var i: nat := q - from;
    assert ReplaysOne(core, call, from, i) <==> Fits(core(call + i, q), q, prevHash);
    assert forall to :: q <= to && Replays(core, call, from, to) ==> ReplaysOne(core, call, from, i);
  }

  /** The store's answer: its open replay gaps as they stand, highest first. */
  ghost predicate ListsInOrder(gaps: GapTable, listed: seq<ListedGap>) {
    && IsListing(gaps, listed)
    && forall a, b :: 0 <= a < b < |listed| ==> listed[b].range.to <= listed[a].range.to
  }

  /** The claimed gap is the one top free gap, and nothing has happened to it since it was listed. */
  lemma ClaimedStands(s: State, listed: seq<ListedGap>, inFlight: set<Interval>, x: ListedGap)
    requires Inv(s) && ListsInOrder(s.gaps, listed) && exists i: nat :: FirstFree(listed, inFlight, i) && x == listed[i]
    ensures IsOnlyTop(s.gaps, inFlight, x) && HeldOk(s, x)
  {
    var i: nat :| FirstFree(listed, inFlight, i) && x == listed[i];
    assert x in listed;
    forall z: ListedGap | IsFreeGap(s.gaps, inFlight, z)
      ensures z.range.to <= x.range.to
    {
      assert z in listed;
      var k :| 0 <= k < |listed| && listed[k] == z;
    }
    forall z: ListedGap | IsTopFreeGap(s.gaps, inFlight, z)
      ensures z == x
    {
      OneOwner(s.gaps, x.range, z.range, x.range.to);
    }
  }

  /** x is the top free gap, and there is no other. */
  ghost predicate IsOnlyTop(gaps: GapTable, inFlight: set<Interval>, x: ListedGap) {
    IsTopFreeGap(gaps, inFlight, x) && forall z :: IsTopFreeGap(gaps, inFlight, z) ==> z == x
  }

  /** The snapshot watches every clamped row for everything it covers. */
  ghost predicate HoldsClampedRows(watch: Watch, rows: BackfillTable) {
    forall c :: c in rows && rows[c].clampedAt.Some? ==> HoldsRow(watch, c, rows[c])
  }

  ghost predicate HoldsRow(watch: Watch, c: string, b: Backfill) {
    IsContractId(c) && c in watch && forall k :: k in b.coveredKinds ==> k in watch[c]
  }

  /** Everything one chunk of a listed gap stores. */
  ghost function ChunkRows(chain: Chain, sac: SacOf, x: ListedGap, chunk: uint32, watch: Watch): set<Row>
    requires 1 <= chunk && x.range.from <= x.row.healNextTo
  {
    AllRows(OfRange(chain, ReplayFrom(x, chunk), x.row.healNextTo, watch, sac))
  }

  /** x is an open replay gap, as it stands, that nobody is healing. */
  predicate IsFreeGap(gaps: GapTable, inFlight: set<Interval>, x: ListedGap) {
    Open(gaps, x.range) && x.row == gaps[x.range] && x.row.mode == Replay && x.range !in inFlight
  }

  /** The free gap with the most recent history: the one a worker takes next. */
  ghost predicate IsTopFreeGap(gaps: GapTable, inFlight: set<Interval>, x: ListedGap) {
    IsFreeGap(gaps, inFlight, x) && forall z: ListedGap :: IsFreeGap(gaps, inFlight, z) ==> z.range.to <= x.range.to
  }

  predicate IsChunkable(x: ListedGap) {
    x.range.from <= x.row.healNextTo
  }

  class Healer {
    const core: Replayer
    const sac: SacOf
    const store: Store
    const chunk: uint32
    ghost const chain: Chain
    var calls: nat
    var verified: bool
    var inFlight: set<Interval>

    ghost predicate Valid()
      reads this, store
    {
      store.Valid() && 1 <= chunk && Reproduces(core, chain) && SameHistory(store.history, chain, sac)
    }

    constructor (core: Replayer, sac: SacOf, store: Store, chunk: uint32, ghost chain: Chain)
      requires store.Valid() && Reproduces(core, chain) && SameHistory(store.history, chain, sac)
      ensures Valid() && this.store == store && this.chain == chain && inFlight == {} && !verified
    {
      this.core, this.sac, this.store, this.chain := core, sac, store, chain;
      this.chunk := if chunk == 0 then DEFAULT_HEAL_CHUNK else chunk;
      calls, verified, inFlight := 0, false, {};
    }

    /** Opens for healing only on a passed comparison. */
    method ProveEquivalence(rpc: Gate.Rpc, bytes: Gate.Core, m: Canonical.Marshal) returns (verdict: Gate.Verdict)
      requires Valid() && Canonical.IsXdr(m) && Gate.NeverEmpty(rpc)
      modifies this`verified
      ensures Valid() && verified == (old(verified) || verdict.Passed?)
      ensures verdict.TooYoung? <==> store.cursor.None? || store.cursor.value.sequence < 3 * Gate.CHECKPOINT_FREQUENCY
      ensures verdict.Passed? ==> SampleProven(store.cursor, rpc, bytes)
      ensures SampleAgrees(store.cursor, rpc, bytes) ==> verdict.Passed?
    {
      var cursor := store.LoadCursor();
      var at := if cursor.Some? then Some(cursor.value.sequence) else None;
      var served, replayed;
      verdict, served, replayed := Gate.VerifyEquivalence(at, rpc, bytes, m);
      if verdict.Passed? {
        verified := true;
      }
    }

    /** Takes the first gap nobody else is healing. */
    method Claim(gaps: seq<ListedGap>) returns (claimed: Option<ListedGap>)
      modifies this`inFlight
      ensures claimed.Some? ==>
        exists i: nat :: FirstFree(gaps, old(inFlight), i) && claimed.value == gaps[i] &&
          inFlight == old(inFlight) + {gaps[i].range}
      ensures claimed.None? ==> (forall x :: x in gaps ==> x.range in inFlight) && inFlight == old(inFlight)
    {
      for i := 0 to |gaps|
        invariant inFlight == old(inFlight)
        invariant forall j :: 0 <= j < i ==> gaps[j].range in inFlight
      {
        if gaps[i].range in inFlight {
          continue;
        }
        inFlight := inFlight + {gaps[i].range};
        assert FirstFree(gaps, old(inFlight), i);
        return Some(gaps[i]);
      }
      return None;
    }

    method Release(range: Interval)
      modifies this`inFlight
      ensures inFlight == old(inFlight) - {range}
    {
      inFlight := inFlight - {range};
    }

    /** Replays [from .. to] ascending: succeeds exactly when the range is valid and every ledger
        comes out numbered as asked and linked to the one before. */
    method ReplayRange(from: uint32, to: uint32, watch: Watch) returns (r: Option<Extracted>)
      requires Reproduces(core, chain)
      modifies this`calls
      ensures r.Some? <==> 1 <= from <= to && Replays(core, old(calls), from, to)
      ensures r.Some? ==> r.value == OfRange(chain, from, to, watch, sac)
    {
      if from == 0 || to < from {
        return None;
      }
      var acc, prevHash := NOTHING, "";
      ghost var first := calls;
      for q := from to to + 1
        invariant calls == first + q - from
        invariant Scanned(acc, chain, from, q - 1, watch, sac)
        invariant Replays(core, first, from, q - 1) && HashBefore(core, first, from, q - from, prevHash)
      {
        var next := ReplayNext(q, prevHash, acc, first, from, watch);
        if next.None? {
          return None;
        }
        acc, prevHash := next.value.0, next.value.1;
      }
      ScannedIsTheYield(acc, chain, from, to, watch, sac);
      return Some(acc);
    }

    /** Replays one more ledger of a range and extracts it. */
    method ReplayNext(q: uint32, prevHash: string, acc: Extracted, ghost first: nat, ghost from: nat, watch: Watch)
        returns (r: Option<(Extracted, string)>)
      requires Reproduces(core, chain) && from <= q && calls == first + q - from
      requires Scanned(acc, chain, from, q - 1, watch, sac)
      requires Replays(core, first, from, q - 1) && HashBefore(core, first, from, q - from, prevHash)
      modifies this`calls
      ensures calls == old(calls) + 1
      ensures r.Some? ==> Replays(core, first, from, q)
      ensures r.Some? ==>
        Scanned(r.value.0, chain, from, q, watch, sac) && HashBefore(core, first, from, q + 1 - from, r.value.1)
      ensures r.None? ==> forall to :: q <= to ==> !Replays(core, first, from, to)
    {
      var lcm := ReplayOne(q, prevHash);
      OneMoreReplayed(core, first, from, q, prevHash);
      if lcm.None? {
        return None;
      }
      var all := ExtractLoop.Accumulate(acc, lcm.value.ledger, watch, sac, chain, from, q);
      return Some((all, lcm.value.hash));
    }

    method ReplayOne(q: uint32, prevHash: string) returns (lcm: Option<Meta>)
      requires Reproduces(core, chain)
      modifies this`calls
      ensures calls == old(calls) + 1
      ensures lcm == if Fits(core(old(calls), q), q, prevHash) then core(old(calls), q) else None
      ensures lcm.Some? ==> lcm.value.ledger == chain(q)
    {
      lcm := core(calls, q);
      assert ReproducesOne(lcm, chain);
      calls := calls + 1;
      if lcm.None? || lcm.value.sequence != q || (prevHash != "" && lcm.value.previousHash != prevHash) {
        return None;
      }
    }

    /** Replays one chunk of a listed gap and commits it with the moved watermark: one legal
        commit of the worker system, or nothing at all. */
    method HealChunk(x: ListedGap, watch: Watch) returns (ok: bool)
      requires Valid() && Inv(store.Model()) && HeldOk(store.Model(), x) && HoldsClampedRows(watch, store.rows)
      modifies this`calls, store`gaps, store`rows, store`records
      ensures Valid() && Inv(store.Model())
      ensures ok <==>
        Open(old(store.gaps), x.range) && Replays(core, old(calls), ReplayFrom(x, chunk), x.row.healNextTo)
      ensures ok ==> CommitsChunk(old(store.Model()), store.Model(), x, chunk)
      ensures ok ==> store.records == old(store.records) + ChunkRows(chain, sac, x, chunk, watch)
      ensures !ok ==> store.Model() == old(store.Model()) && store.records == old(store.records)
    {
      var to := x.row.healNextTo;
      var chunkFrom := x.range.from;
      if to - x.range.from >= chunk {
        chunkFrom := to - chunk + 1;
      }
      var replayed := ReplayRange(chunkFrom, to, watch);
      if replayed.None? {
        return false;
      }
      ok := CommitReplayed(x, chunkFrom, watch, AllRows(replayed.value));
    }

    method CommitReplayed(x: ListedGap, chunkFrom: uint32, watch: Watch, batch: set<Record>) returns (ok: bool)
      requires Valid() && Inv(store.Model()) && HeldOk(store.Model(), x) && HoldsClampedRows(watch, store.rows)
      requires chunkFrom == ReplayFrom(x, chunk) && batch == ChunkRows(chain, sac, x, chunk, watch)
      modifies store`gaps, store`rows, store`records
      ensures Valid() && Inv(store.Model())
      ensures ok <==> Open(old(store.gaps), x.range)
      ensures ok ==>
        CommitsChunk(old(store.Model()), store.Model(), x, chunk) && store.records == old(store.records) + batch
      ensures !ok ==> store.Model() == old(store.Model()) && store.records == old(store.records)
    {
      ghost var before := store.Model();
      ok := store.CommitHealChunk(x.range, chunkFrom - 1, chunkFrom <= x.range.from, batch);
      if ok {
        CommittedChunkKeepsInv(before, store.Model(), store.history, chain, sac, store.records, x, chunk, chunkFrom,
          watch);
      }
    }

    /** Claims the topmost free gap as it stands, or finds that nobody is free. */
    method ClaimTop() returns (claimed: Option<ListedGap>)
      requires Valid() && Inv(store.Model())
      modifies this`inFlight
      ensures claimed.None? ==> inFlight == old(inFlight) && NothingReplays(store.gaps, inFlight, core, calls, chunk)
      ensures claimed.Some? ==>
        inFlight == old(inFlight) + {claimed.value.range} && claimed.value.range !in old(inFlight) &&
        HeldOk(store.Model(), claimed.value) && IsOnlyTop(store.gaps, old(inFlight), claimed.value)
    {
      var gaps := store.ListOpenGaps();
      claimed := Claim(gaps);
      if claimed.None? {
        NobodyIsFree(store.Model(), gaps, inFlight, core, calls, chunk);
      } else {
        ClaimedStands(store.Model(), gaps, old(inFlight), claimed.value);
      }
    }

    /** One turn of a worker: list, claim, heal, release. */
    method Work(watch: Watch) returns (worked: bool)
      requires Valid() && Inv(store.Model()) && HoldsClampedRows(watch, store.rows) && verified
      modifies this`calls, this`inFlight, store`gaps, store`rows, store`records
      ensures Valid() && Inv(store.Model())
      ensures inFlight == old(inFlight)
      ensures TurnTaken(old(store.Model()), store.Model(), old(inFlight), chunk, worked)
      ensures !worked ==>
        store.records == old(store.records) && NothingReplays(store.gaps, inFlight, core, old(calls), chunk)
      ensures HoldsClampedRows(watch, store.rows)
    {
      ghost var before, call := store.Model(), calls;
      var claimed := ClaimTop();
      if claimed.None? {
        return false;
      }
      var x := claimed.value;
      worked := HealChunk(x, watch);
      Release(x.range);
      if worked {
        HealKeepsRowsHeld(before, store.Model(), x, chunk, watch);
      } else {
        OnlyTopFailed(before, inFlight, x, core, call, chunk);
      }
    }

    // --- the whole healer -----------------------------------------------------

    /** Waits for the first gap worth healing, then compares once: the whole sample against what the
        RPC served. */
    method AwaitVerified(rpc: Gate.Rpc, bytes: Gate.Core, m: Canonical.Marshal, turns: nat)
        returns (verdict: Option<Gate.Verdict>)
      requires Valid() && Canonical.IsXdr(m) && Gate.NeverEmpty(rpc) && !verified
      modifies this`verified
      ensures Valid() && verified == (verdict == Some(Gate.Passed))
      ensures 0 < turns ==> (verdict.None? <==> NoReplayWork(store.gaps))
      ensures verdict == Some(Gate.Passed) ==> SampleProven(store.cursor, rpc, bytes)
      ensures verdict.Some? && SampleAgrees(store.cursor, rpc, bytes) ==> verdict.value.Passed?
    {
      for turn := 0 to turns
        invariant !verified
        invariant 0 < turn ==> NoReplayWork(store.gaps)
      {
        var gaps := store.ListOpenGaps();
        assert forall g :: Open(store.gaps, g) && store.gaps[g].mode == Replay ==> ListedGap(g, store.gaps[g]) in gaps;
        assert |gaps| > 0 ==> gaps[0] in gaps;
        if |gaps| > 0 {
          var once := ProveEquivalence(rpc, bytes, m);
          return Some(once);
        }
      }
      return None;
    }

    /** The gate, then one worker turn after another. Without a sample proven equivalent nothing is ever
        committed; with one, the ledger stays honest turn by turn. Where the core replays whatever it is
        asked for, every turn heals a chunk until no replay gap is open, and as many turns as ledgers
        are owed always get there. */
    method Run(rpc: Gate.Rpc, bytes: Gate.Core, m: Canonical.Marshal, watch: Watch, turns: nat)
        returns (verdict: Option<Gate.Verdict>, worked: nat)
      requires Valid() && Canonical.IsXdr(m) && Gate.NeverEmpty(rpc) && !verified
      requires Inv(store.Model()) && HoldsClampedRows(watch, store.rows)
      modifies this`calls, this`verified, this`inFlight, store`gaps, store`rows, store`records
      ensures Valid() && Inv(store.Model()) && inFlight == old(inFlight)
      ensures verdict != Some(Gate.Passed) ==> worked == 0
      ensures verdict == Some(Gate.Passed) ==> SampleProven(store.cursor, rpc, bytes)
      ensures 0 < turns && SampleAgrees(store.cursor, rpc, bytes) && !NoReplayWork(old(store.gaps)) ==>
        verdict == Some(Gate.Passed)
      ensures worked <= turns && OwedCount(store.gaps) + worked <= OwedCount(old(store.gaps))
      ensures verdict == Some(Gate.Passed) && AlwaysReplays(core) && inFlight == {} ==>
        FinishedWork(old(store.gaps), store.gaps, turns, worked)
      ensures verdict == Some(Gate.Passed) && 0 < turns && worked == 0 ==>
        NothingReplays(store.gaps, inFlight, core, old(calls), chunk)
      ensures worked == 0 ==> store.Model() == old(store.Model()) && store.records == old(store.records)
    {
      worked := 0;
      verdict := AwaitVerified(rpc, bytes, m, turns);
      if verdict != Some(Gate.Passed) {
        return;
      }
      worked := WorkFor(watch, turns);
    }

    /** One worker turn after another behind an open gate. */
    method WorkFor(watch: Watch, turns: nat) returns (worked: nat)
      requires Valid() && Inv(store.Model()) && HoldsClampedRows(watch, store.rows) && verified
      modifies this`calls, this`inFlight, store`gaps, store`rows, store`records
      ensures Valid() && Inv(store.Model()) && inFlight == old(inFlight)
      ensures worked == 0 ==> store.Model() == old(store.Model()) && store.records == old(store.records)
      ensures WorkedSoFar(old(store.gaps), store.gaps, inFlight, core, old(calls), chunk, turns, worked)
      ensures AlwaysReplays(core) && inFlight == {} ==> FinishedWork(old(store.gaps), store.gaps, turns, worked)
    {
      worked := 0;
      ghost var was, records, call := store.Model(), store.records, calls;
      for turn := 0 to turns
        invariant Valid() && Inv(store.Model()) && HoldsClampedRows(watch, store.rows) && verified
        invariant inFlight == old(inFlight) && (turn == 0 ==> calls == call)
        invariant worked == 0 ==> store.Model() == was && store.records == records
        invariant WorkedSoFar(was.gaps, store.gaps, inFlight, core, call, chunk, turn, worked)
      {
        ghost var mid, now := store.gaps, calls;
        var healed := Turn(watch);
        OneMoreTurn(was.gaps, mid, store.gaps, inFlight, core, call, now, chunk, turn, worked, healed);
        if healed {
          worked := worked + 1;
        }
      }
      NoDebtNoWork(store.gaps);
    }

    /** One turn, seen by what it leaves to do. */
    method Turn(watch: Watch) returns (healed: bool)
      requires Valid() && Inv(store.Model()) && HoldsClampedRows(watch, store.rows) && verified
      modifies this`calls, this`inFlight, store`gaps, store`rows, store`records
      ensures Valid() && Inv(store.Model()) && inFlight == old(inFlight) && HoldsClampedRows(watch, store.rows)
      ensures !healed ==> store.Model() == old(store.Model()) && store.records == old(store.records)
      ensures !healed ==> NothingReplays(store.gaps, inFlight, core, old(calls), chunk)
      ensures healed ==> OwedCount(store.gaps) < OwedCount(old(store.gaps)) && !NoReplayWork(old(store.gaps))
    {
      ghost var before := store.Model();
      healed := Work(watch);
      if healed {
        TurnLowersDebt(before, store.Model(), inFlight, chunk);
      }
    }
  }

  /** Everything the gate concludes rests on: the cursor is old enough, and the sample behind it was
      replayed and agrees with copies the RPC served. */
  ghost predicate SampleProven(cursor: Option<Cursor>, rpc: Gate.Rpc, bytes: Gate.Core) {
    && cursor.Some? && 3 * Gate.CHECKPOINT_FREQUENCY <= cursor.value.sequence
    && Gate.Proven(rpc, bytes, Gate.SampleStart(cursor.value.sequence))
  }

  /** The replay reproduces whatever copy of the sample the RPC serves, in order. */
  ghost predicate SampleAgrees(cursor: Option<Cursor>, rpc: Gate.Rpc, bytes: Gate.Core) {
    && cursor.Some? && 3 * Gate.CHECKPOINT_FREQUENCY <= cursor.value.sequence
    && Gate.InOrder(rpc) && Gate.AgreesThroughout(rpc, bytes, Gate.SampleStart(cursor.value.sequence))
  }

  ghost predicate NoReplayWork(gaps: GapTable) {
    forall g :: !(Open(gaps, g) && gaps[g].mode == Replay)
  }

  /** Every turn healed a chunk, or no replay gap is open; the latter always when there were as many
      turns as ledgers owed. */
  ghost predicate FinishedWork(before: GapTable, after: GapTable, turns: nat, worked: nat) {
    (worked == turns || NoReplayWork(after)) && (OwedCount(before) <= turns ==> NoReplayWork(after))
  }

  /** Each turn that healed paid off at least one ledger; a turn that did not found nothing to replay. */
  ghost predicate WorkedSoFar(before: GapTable, after: GapTable, inFlight: set<Interval>, core: Replayer, call: nat,
      chunk: uint32, turns: nat, worked: nat)
    requires 1 <= chunk
  {
    && worked <= turns && OwedCount(after) + worked <= OwedCount(before)
    && (0 < turns && worked == 0 ==> NothingReplays(after, inFlight, core, call, chunk))
    && (AlwaysReplays(core) && inFlight == {} ==> worked == turns || NoReplayWork(after))
  }

  lemma OneMoreTurn(before: GapTable, mid: GapTable, after: GapTable, inFlight: set<Interval>, core: Replayer,
      call: nat, now: nat, chunk: uint32, turns: nat, worked: nat, healed: bool)
    requires 1 <= chunk && WorkedSoFar(before, mid, inFlight, core, call, chunk, turns, worked)
    requires (turns == 0 ==> now == call) && Sound(mid)
    requires if healed then OwedCount(after) < OwedCount(mid) && !NoReplayWork(mid)
      else after == mid && NothingReplays(mid, inFlight, core, now, chunk)
    ensures WorkedSoFar(before, after, inFlight, core, call, chunk, turns + 1, if healed then worked + 1 else worked)
  {
    if !healed {
      NothingLeft(mid, inFlight, core, now, chunk);
    }
  }

  /** The core replays every range it is asked for. */
  ghost predicate AlwaysReplays(core: Replayer) {
    forall call, from, to :: Replays(core, call, from, to)
  }

  /** A turn that healed leaves fewer ledgers owed. */
  lemma TurnLowersDebt(s: State, s': State, inFlight: set<Interval>, chunk: uint32)
    requires Inv(s) && 1 <= chunk && TurnTaken(s, s', inFlight, chunk, true)
    ensures OwedCount(s'.gaps) < OwedCount(s.gaps) && !NoReplayWork(s.gaps)
  {
    var x: ListedGap :| IsTopFreeGap(s.gaps, inFlight, x) && CommitsChunk(s, s', x, chunk);
    CommitLowersDebt(s, s', x, chunk);
  }

  /** A commit of a gap as it stands pays off exactly its chunk. */
  lemma CommitLowersDebt(s: State, s': State, x: ListedGap, chunk: uint32)
    requires Sound(s.gaps) && 1 <= chunk && JustListed(s, x) && CommitsChunk(s, s', x, chunk)
    ensures OwedCount(s'.gaps) == OwedCount(s.gaps) - (x.row.healNextTo - ReplayFrom(x, chunk) + 1)
  {
    var from := ReplayFrom(x, chunk);
    HealLowersDebt(s.gaps, x.range, from - 1, from <= x.range.from);
  }

  /** With nobody else healing, a core that replays everything leaves a turn idle only when no replay
      gap is open. */
  lemma NothingLeft(gaps: GapTable, inFlight: set<Interval>, core: Replayer, call: nat, chunk: uint32)
    requires Sound(gaps) && 1 <= chunk && NothingReplays(gaps, inFlight, core, call, chunk)
    ensures AlwaysReplays(core) && inFlight == {} ==> NoReplayWork(gaps)
  {
    if g :| AlwaysReplays(core) && inFlight == {} && Open(gaps, g) && gaps[g].mode == Replay {
      var x := TopFreeGap(gaps, inFlight, ListedGap(g, gaps[g]));
      assert false;
    }
  }

  /** Some free gap is the topmost. */
  lemma TopFreeGap(gaps: GapTable, inFlight: set<Interval>, x: ListedGap) returns (top: ListedGap)
    requires IsFreeGap(gaps, inFlight, x)
    ensures IsTopFreeGap(gaps, inFlight, top)
    decreases MAX_U32 - x.range.to
  {
    if z: ListedGap :| IsFreeGap(gaps, inFlight, z) && x.range.to < z.range.to {
      top := TopFreeGap(gaps, inFlight, z);
    } else {
      top := x;
    }
  }

  lemma NoDebtNoWork(gaps: GapTable)
    requires Sound(gaps)
    ensures OwedCount(gaps) == 0 ==> NoReplayWork(gaps)
  {
    if g :| Open(gaps, g) {
      assert Owes(gaps, g, g.from) && g.from in OwedLedgers(gaps);
    }
  }

  /** A turn that healed committed one chunk of the top free gap; any other changed no table. */
  ghost predicate TurnTaken(s: State, s': State, inFlight: set<Interval>, chunk: uint32, worked: bool)
    requires 1 <= chunk
  {
    if worked then exists x: ListedGap :: IsTopFreeGap(s.gaps, inFlight, x) && CommitsChunk(s, s', x, chunk)
    else s' == s
  }

  /** There is no free gap, or the top one's chunk does not replay. */
  ghost predicate NothingReplays(gaps: GapTable, inFlight: set<Interval>, core: Replayer, call: nat, chunk: uint32)
    requires 1 <= chunk
  {
    forall x: ListedGap :: IsTopFreeGap(gaps, inFlight, x) && IsChunkable(x) ==>
      !Replays(core, call, ReplayFrom(x, chunk), x.row.healNextTo)
  }

  lemma NobodyIsFree(s: State, listed: seq<ListedGap>, inFlight: set<Interval>, core: Replayer, call: nat,
      chunk: uint32)
    requires 1 <= chunk && ListsInOrder(s.gaps, listed) && forall x :: x in listed ==> x.range in inFlight
    ensures NothingReplays(s.gaps, inFlight, core, call, chunk)
  {
    forall x: ListedGap
      ensures !IsTopFreeGap(s.gaps, inFlight, x)
    {
      assert IsFreeGap(s.gaps, inFlight, x) ==> x in listed;
    }
  }

  lemma OnlyTopFailed(s: State, inFlight: set<Interval>, x: ListedGap, core: Replayer, call: nat, chunk: uint32)
    requires 1 <= chunk && IsOnlyTop(s.gaps, inFlight, x) && IsChunkable(x)
    requires !Replays(core, call, ReplayFrom(x, chunk), x.row.healNextTo)
    ensures NothingReplays(s.gaps, inFlight, core, call, chunk)
  {
  }

  /** A heal clamps nobody anew, so a snapshot that held every clamped row still does. */
  lemma HealKeepsRowsHeld(s: State, s': State, x: ListedGap, chunk: uint32, watch: Watch)
    requires 1 <= chunk && Inv(s) && HeldOk(s, x) && CommitsChunk(s, s', x, chunk) && HoldsClampedRows(watch, s.rows)
    ensures HoldsClampedRows(watch, s'.rows)
  {
    var from := ReplayFrom(x, chunk);
    forall c | c in s'.rows && s'.rows[c].clampedAt.Some?
      ensures HoldsRow(watch, c, s'.rows[c])
    {
      HealOnlyLowersWalls(s.rows[c], s'.gaps, x.range, from - 1, from <= x.range.from);
      assert HoldsRow(watch, c, s.rows[c]);
    }
  }

  const DEFAULT_HEAL_CHUNK: uint32 := 100_000

  lemma CommittedChunkKeepsInv(s: State, s': State, history: History, chain: Chain, sac: SacOf, records: set<Record>,
      x: ListedGap, chunk: uint32, from: uint32, watch: Watch)
    requires Inv(s) && 1 <= chunk && HeldOk(s, x) && HoldsClampedRows(watch, s.rows) && SameHistory(history, chain, sac)
    requires ChunkRows(chain, sac, x, chunk, watch) <= records && s'.derived == Backed(history, records)
    requires from == ReplayFrom(x, chunk) && HealStep(s, s', x.range, from - 1, from <= x.range.from)
    ensures CommitsChunk(s, s', x, chunk) && Inv(s')
  {
    ReplayServesClampedRows(s, s', history, chain, sac, records, from, x.row.healNextTo, watch);
    CommitIsALegalHeal(s, s', x, chunk);
    HealKeepsInv(s, s', x.range, TopOf(s, x), from - 1, from <= x.range.from);
  }

  /** Storing a replay for a snapshot that holds every clamped row derives the chunk for each. */
  lemma ReplayServesClampedRows(s: State, s': State, history: History, chain: Chain, sac: SacOf, records: set<Record>,
      from: uint32, to: uint32, watch: Watch)
    requires HoldsClampedRows(watch, s.rows) && SameHistory(history, chain, sac)
    requires AllRows(OfRange(chain, from, to, watch, sac)) <= records && s'.derived == Backed(history, records)
    requires 1 <= from
    ensures forall c :: c in s.rows ==> ServedBy(s, s', c, to, from - 1)
  {
    forall c | c in s.rows
      ensures ServedBy(s, s', c, to, from - 1)
    {
      if s.rows[c].clampedAt.Some? {
        assert HoldsRow(watch, c, s.rows[c]);
        SharedScanIsFaithful(chain, sac, from, to, watch);
        var res := OfRange(chain, from, to, watch, sac);
        FaithfulPart(chain, sac, from, to, MembersOf(watch), res, c, watch[c]);
        PrivateRowsDerive(history, chain, sac, records, from, to, c, watch[c]);
      }
    }
  }
}
