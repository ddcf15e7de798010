// The backfill worker (internal/ingest/backfill.go): one scan per grid cell shared by a
// group of walks, a one-entry scan cache, and one commit per contract.
module BackfillWorker {
  import opened Basics
  import opened GapLedger
  import opened Coverage
  import opened Extract
  import ExtractLoop
  import opened Scan
  import opened Storage
  import opened Walk

  const BACKFILL_BATCH_LIMIT := 200

  /** A closed ledger as a source serves it. */
  datatype Meta = Meta(sequence: nat, hash: string, previousHash: string, ledger: Ledger)

  datatype Fetch = Served(metas: seq<Meta>) | NotYetAvailable | BelowRetention | Unavailable

  datatype ScanError = WaitForTip | CutByRetention | Retry

  /** What the source answers to its n-th request, for a start and a limit. */
  type Source = (nat, int, nat) -> Fetch

  /** A served batch is not empty, not longer than asked, and holds the ledgers it names. */
  ghost predicate Truthful(src: Source, chain: Chain) {
    forall n, start, limit :: TruthfulAnswer(src(n, start, limit), limit, chain)
  }

  ghost predicate TruthfulAnswer(r: Fetch, limit: nat, chain: Chain) {
    r.Served? ==> 0 < |r.metas| <= limit && forall i :: 0 <= i < |r.metas| ==>
      r.metas[i].ledger == chain(r.metas[i].sequence)
  }

  /** Whatever the request, the source serves exactly the ledgers from `oldest` on. */
  ghost predicate Steady(src: Source, lo: int, hi: int, oldest: int) {
    forall n, at :: lo <= at <= hi ==> if at >= oldest then src(n, at, 1).Served? else src(n, at, 1).BelowRetention?
  }

  /** Ledgers from `oldest` on are served in order and linked; anything older is below retention. */
  ghost predicate Answers(src: Source, oldest: int, meta: nat -> Meta) {
    && (forall q: nat :: InChain(meta, q))
    && forall n, start, limit :: AnswersAt(src(n, start, limit), start, limit, oldest, meta)
  }

  ghost predicate InChain(meta: nat -> Meta, q: nat) {
    meta(q).sequence == q && (0 < q ==> meta(q).previousHash == meta(q - 1).hash)
  }

  ghost predicate AnswersAt(r: Fetch, start: int, limit: nat, oldest: int, meta: nat -> Meta) {
    if 0 <= start && oldest <= start then
      0 < limit ==> r.Served? && forall i :: 0 <= i < |r.metas| ==> r.metas[i] == meta(start + i)
    else r.BelowRetention?
  }

  /** Consecutive ledgers from `first` on, each naming the hash before it when there is one to check. */
  ghost predicate Linked(metas: seq<Meta>, first: nat, previous: string) {
    forall i :: 0 <= i < |metas| ==> LinkedAt(metas, first, previous, i)
  }

  ghost predicate LinkedAt(metas: seq<Meta>, first: nat, previous: string, i: nat)
    requires i < |metas|
  {
    var before := if i == 0 then previous else metas[i - 1].hash;
    metas[i].sequence == first + i && (before == "" || metas[i].previousHash == before)
  }

  ghost function LastHash(metas: seq<Meta>, previous: string): string {
    if metas == [] then previous else metas[|metas| - 1].hash
  }

  lemma LinkedConcat(a: seq<Meta>, b: seq<Meta>, first: nat)
    requires Linked(a, first, "") && Linked(b, first + |a|, LastHash(a, ""))
    ensures Linked(a + b, first, "") && LastHash(a + b, "") == LastHash(b, LastHash(a, ""))
  {
    var all := a + b;
    forall i | 0 <= i < |all|
      ensures LinkedAt(all, first, "", i)
    {
      if i < |a| {
        assert LinkedAt(a, first, "", i);
      } else {
        assert LinkedAt(b, first + |a|, LastHash(a, ""), i - |a|);
      }
    }
  }

  lemma AnswersAreLinked(src: Source, oldest: int, meta: nat -> Meta, n: nat, start: nat, limit: nat, previous: string)
    requires Answers(src, oldest, meta) && oldest <= start && 0 < limit
    requires previous == "" || (0 < start && previous == meta(start - 1).hash)
    ensures src(n, start, limit).Served? && Linked(src(n, start, limit).metas, start, previous)
    ensures var metas := src(n, start, limit).metas; metas != [] ==>
      LastHash(metas, previous) == meta(start + |metas| - 1).hash
  {
    assert AnswersAt(src(n, start, limit), start, limit, oldest, meta);
    var metas := src(n, start, limit).metas;
    forall i | 0 <= i < |metas|
      ensures LinkedAt(metas, start, previous, i)
    {
      assert InChain(meta, start + i);
    }
  }

  /** One remembered scan: its range, the members it extracted for, and the result. */
  datatype CacheEntry = CacheEntry(from: uint32, to: uint32, members: Members, res: Extracted)

  /** The last scan covers exactly the range, and every job under exactly its kinds. */
  ghost predicate CacheHit(last: Option<CacheEntry>, from: uint32, to: uint32, jobs: seq<Job>) {
    && last.Some? && last.value.from == from && last.value.to == to
    && forall i :: 0 <= i < |jobs| ==> SameKinds(last.value.members, jobs[i])
  }

  ghost predicate SameKinds(members: Members, j: Job) {
    (if j.contract in members then members[j.contract] else multiset{}) == multiset(j.kinds)
  }

  lemma SameKindsAreScanned(jobs: seq<Job>, members: Members)
    requires forall i :: 0 <= i < |jobs| ==> SameKinds(members, jobs[i])
    ensures AllScanned(jobs, members)
  {
    forall i, k | 0 <= i < |jobs|
      ensures IsMember(members, jobs[i].contract, k) <==> k in jobs[i].kinds
    {
      assert SameKinds(members, jobs[i]);
      assert k in multiset(jobs[i].kinds) <==> k in jobs[i].kinds;
    }
  }

  /** The rows of a result that belong to one contract, whatever their kind. */
  function PartOf(res: Extracted, c: string): set<Row> {
    set r | r in res.events + res.states + res.transfers + res.trustlines + res.movements && r.contract == c
  }

  /** What a private scan of [lo .. hi] stores for one registration. */
  ghost function PrivateRows(chain: Chain, sac: SacOf, lo: nat, hi: int, c: string, kinds: seq<string>): set<Row> {
    set kind, r | kind in kinds && r in PrivateScan(chain, sac, lo, hi, c, kind) :: r
  }

  ghost predicate SameHistory(history: History, chain: Chain, sac: SacOf) {
    forall f :: history(f) == RowsOfFact(chain, sac, f)
  }

  lemma FaithfulPart(chain: Chain, sac: SacOf, lo: nat, hi: int, members: Members, res: Extracted, c: string,
      kinds: seq<string>)
    requires IsContractId(c) && Faithful(chain, sac, lo, hi, members, res)
    requires forall kind :: IsMember(members, c, kind) <==> kind in kinds
    ensures PartOf(res, c) == PrivateRows(chain, sac, lo, hi, c, kinds)
  {
    forall r | r in PartOf(res, c)
      ensures r in PrivateRows(chain, sac, lo, hi, c, kinds)
    {
      var kind :=
        if r in res.events then EVENTS
        else if r in res.states then STATE
        else if r in res.transfers then TRANSFERS
        else if r in res.trustlines then TRUSTLINES
        else MOVEMENTS;
      assert SliceFaithful(chain, sac, lo, hi, members, res, c, kind);
      assert r in Slice(res, c, kind);
    }
    forall r | r in PrivateRows(chain, sac, lo, hi, c, kinds)
      ensures r in PartOf(res, c)
    {
      var kind :| kind in kinds && r in PrivateScan(chain, sac, lo, hi, c, kind);
      assert SliceFaithful(chain, sac, lo, hi, members, res, c, kind);
      assert r in RowsOfKind(res, kind);
    }
  }

  /** Storing a private scan derives every ledger it spans under every kind of the registration. */
  lemma PrivateRowsDerive(history: History, chain: Chain, sac: SacOf, records: set<Record>, lo: nat, hi: int,
      c: string, kinds: seq<string>)
    requires SameHistory(history, chain, sac) && PrivateRows(chain, sac, lo, hi, c, kinds) <= records
    ensures forall kind, l: nat :: kind in kinds && lo <= l <= hi ==> Fact(c, kind, l) in Backed(history, records)
  {
    forall kind, l: nat | kind in kinds && lo <= l <= hi
      ensures Fact(c, kind, l) in Backed(history, records)
    {
      LedgerRowsAreScanned(chain, sac, lo, hi, c, kind, l);
      assert history(Fact(c, kind, l)) == RowsOfFact(chain, sac, Fact(c, kind, l));
    }
  }

  class Backfiller {
    const src: Source
    const sac: SacOf
    const store: Store
    ghost const chain: Chain
    var calls: nat
    var lastScan: Option<CacheEntry>

    /** The wiring, and the remembered scan still being what its range yields. */
    ghost predicate Valid()
      reads this, store
    {
      && store.Valid()
      && Truthful(src, chain)
      && SameHistory(store.history, chain, sac)
      && (lastScan.Some? ==> var e := lastScan.value; Faithful(chain, sac, e.from, e.to, e.members, e.res))
    }

    constructor (src: Source, sac: SacOf, store: Store, ghost chain: Chain)
      requires store.Valid() && Truthful(src, chain) && SameHistory(store.history, chain, sac)
      ensures Valid() && this.store == store && this.chain == chain && this.sac == sac && this.src == src
    {
      this.src, this.sac, this.store, this.chain := src, sac, store, chain;
      calls, lastScan := 0, None;
    }

    /** Asks the source, which may answer differently every time. */
    method GetLedgerBatch(start: int, limit: nat) returns (r: Fetch)
      modifies this`calls
      ensures r == src(old(calls), start, limit)
    {
      r := src(calls, start, limit);
      calls := calls + 1;
    }

    /** Fetches and extracts [from .. to] ascending. It succeeds only on consecutive ledgers that
        link up by hash, and always does when the source serves the range so. */
    method ScanRange(watch: Watch, from: uint32, to: uint32, ghost oldest: int, ghost meta: nat -> Meta)
        returns (r: Result<Extracted, ScanError>, ghost used: seq<Meta>)
      requires Truthful(src, chain) && from <= to
      modifies this`calls
      ensures r.Ok? ==> r.value == OfRange(chain, from, to, watch, sac)
      ensures r.Ok? ==> |used| == to - from + 1 && Linked(used, from, "")
      ensures Answers(src, oldest, meta) ==> r.Ok? == (oldest <= from) && (r.Err? ==> r.error == CutByRetention)
    {
      var acc, prevHash := NOTHING, "";
      var next: int := from;
      used := [];
      while next <= to
        invariant from <= next <= to + 1 && next == from + |used|
        invariant Scanned(acc, chain, from, next - 1, watch, sac)
        invariant Linked(used, from, "") && prevHash == LastHash(used, "")
        invariant Answers(src, oldest, meta) && from < next ==> oldest <= from && prevHash == meta(next - 1).hash
        decreases 1 + to - next
      {
        ghost var call, limit := calls, Min(to - next + 1, BACKFILL_BATCH_LIMIT);
        var batch := GetLedgerBatch(next, Min(to - next + 1, BACKFILL_BATCH_LIMIT));
        if Answers(src, oldest, meta) {
          assert AnswersAt(batch, next, limit, oldest, meta);
          if oldest <= from {
            AnswersAreLinked(src, oldest, meta, call, next, limit, prevHash);
          }
        }
        match batch {
          case NotYetAvailable => return Err(WaitForTip), used;
          case BelowRetention => return Err(CutByRetention), used;
          case Unavailable => return Err(Retry), used;
          case Served(metas) =>
            assert TruthfulAnswer(batch, limit, chain);
            var read := ReadBatch(metas, watch, from, next, prevHash, acc);
            if read.None? {
              return Err(Retry), used;
            }
            LinkedConcat(used, metas, from);
            acc, prevHash := read.value.0, read.value.1;
            used := used + metas;
            next := next + |metas|;
        }
      }
      ScannedIsTheYield(acc, chain, from, to, watch, sac);
      return Ok(acc), used;
    }

    /** Reads one batch, refusing a ledger out of order or a break in the hash chain. */
    method ReadBatch(metas: seq<Meta>, watch: Watch, ghost from: nat, first: nat, previous: string, acc: Extracted)
        returns (r: Option<(Extracted, string)>)
      requires forall i :: 0 <= i < |metas| ==> metas[i].ledger == chain(metas[i].sequence)
      requires from <= first && Scanned(acc, chain, from, first - 1, watch, sac)
      ensures r.Some? <==> Linked(metas, first, previous)
      ensures r.Some? ==> Scanned(r.value.0, chain, from, first + |metas| - 1, watch, sac)
      ensures r.Some? ==> r.value.1 == LastHash(metas, previous)
    {
      var all, prevHash := acc, previous;
      for i := 0 to |metas|
        invariant Scanned(all, chain, from, first + i - 1, watch, sac)
        invariant prevHash == if i == 0 then previous else metas[i - 1].hash
        invariant forall k :: 0 <= k < i ==> LinkedAt(metas, first, previous, k)
      {
        var one := ReadOne(metas[i], watch, from, first + i, prevHash, all);
        if one.None? {
          assert !LinkedAt(metas, first, previous, i);
          return None;
        }
        all, prevHash := one.value, metas[i].hash;
      }
      return Some((all, prevHash));
    }

    method ReadOne(m: Meta, watch: Watch, ghost from: nat, expected: nat, prevHash: string, acc: Extracted)
        returns (r: Option<Extracted>)
      requires m.ledger == chain(m.sequence)
      requires from <= expected && Scanned(acc, chain, from, expected - 1, watch, sac)
      ensures r.Some? <==> m.sequence == expected && (prevHash == "" || m.previousHash == prevHash)
      ensures r.Some? ==> Scanned(r.value, chain, from, expected, watch, sac)
    {
      if m.sequence != expected || (prevHash != "" && m.previousHash != prevHash) {
        return None;
      }
      var all := ExtractLoop.Accumulate(acc, m.ledger, watch, sac, chain, from, expected);
      return Some(all);
    }

    /** Binary search for the oldest ledger of [lo .. hi] the source will actually serve;
        hi + 1 when it serves none of them. */
    method FindWall(lo: uint32, hi: uint32) returns (wall: Option<uint32>)
      requires hi < MAX_U32
      modifies this`calls
      ensures wall.Some? ==> lo <= wall.value <= Max(lo, hi + 1)
      ensures forall oldest :: lo <= hi + 1 && Steady(src, lo, hi, oldest) ==>
        wall == Some(Max(lo, Min(oldest, hi + 1)))
    {
      var a, b := lo, hi;
      while a <= b
        invariant lo <= a && b <= hi && (if lo <= hi then a <= b else a == lo)
        invariant forall oldest :: lo <= hi && Steady(src, lo, hi, oldest) ==>
          a <= Max(lo, Min(oldest, hi + 1)) && (b == hi || Max(lo, Min(oldest, hi + 1)) <= b)
        decreases b - a
      {
        var mid := a + (b - a) / 2;
        var r := GetLedgerBatch(mid, 1);
        match r {
          case Served(_) =>
            if mid == a {
              return Some(mid);
            }
            b := mid;
          case BelowRetention =>
            if mid == b {
              return Some(b + 1);
            }
            a := mid + 1;
          case _ => return None;
        }
      }
      return Some(a);
    }

    // --- the scan cache -------------------------------------------------------

    /** The remembered result, when the range is exactly the last one scanned and every
        requesting contract was part of it with the same kinds. */
    method CachedScan(from: uint32, to: uint32, jobs: seq<Job>) returns (r: Option<Extracted>)
      requires Valid()
      ensures r == if CacheHit(lastScan, from, to, jobs) then Some(lastScan.value.res) else None
      ensures r.Some? ==>
        Faithful(chain, sac, from, to, lastScan.value.members, r.value) && AllScanned(jobs, lastScan.value.members)
    {
      if lastScan.None? || lastScan.value.from != from || lastScan.value.to != to {
        return None;
      }
      var members := lastScan.value.members;
      for i := 0 to |jobs|
        invariant forall k :: 0 <= k < i ==> SameKinds(members, jobs[k])
      {
        if (if jobs[i].contract in members then members[jobs[i].contract] else multiset{}) != multiset(jobs[i].kinds) {
          assert !SameKinds(members, jobs[i]);
          return None;
        }
      }
      SameKindsAreScanned(jobs, members);
      return Some(lastScan.value.res);
    }

    /** Remembers a fresh scan in place of the last one. */
    method RememberScan(from: uint32, to: uint32, watch: Watch, res: Extracted)
      requires Valid() && res == OfRange(chain, from, to, watch, sac)
      modifies this`lastScan
      ensures Valid() && lastScan == Some(CacheEntry(from, to, MembersOf(watch), res))
    {
      SharedScanIsFaithful(chain, sac, from, to, watch);
      lastScan := Some(CacheEntry(from, to, MembersOf(watch), res));
    }

    // --- one group ------------------------------------------------------------

    /** Commits one contract's part of the scan of [lo .. to] and its watermark. */
    method CommitOne(job: Job, next: Backfill, lo: uint32, to: uint32, res: Extracted, ghost members: Members)
        returns (ok: bool)
      requires Valid() && IsContractId(job.contract)
      requires Faithful(chain, sac, lo, to, members, res)
      requires forall k :: IsMember(members, job.contract, k) <==> k in job.kinds
      modifies store`rows, store`records
      ensures Valid() && store.gaps == old(store.gaps)
      ensures ok <==> job.contract in old(store.rows)
      ensures ok ==> ChunkStep(old(store.Model()), store.Model(), job.contract, next)
      ensures ok ==> store.records == old(store.records) + PrivateRows(chain, sac, lo, to, job.contract, job.kinds)
      ensures ok ==> DerivedOver(store.Model(), job.contract, job.kinds, lo, to)
      ensures !ok ==> store.rows == old(store.rows) && store.records == old(store.records)
    {
      FaithfulPart(chain, sac, lo, to, members, res, job.contract, job.kinds);
      ok := store.CommitBackfillChunk(job.contract, next, PartOf(res, job.contract));
      if ok {
        PrivateRowsDerive(store.history, chain, sac, store.records, lo, to, job.contract, job.kinds);
      }
    }

    /** Commits every member of the group on its own; the database refuses the contracts in
        `outage`, and a refused commit leaves that contract alone where it was. */
    method CommitGroup(jobs: seq<Job>, from: uint32, to: uint32, wall: Option<uint32>, outage: set<string>,
        res: Extracted, ghost members: Members) returns (committed: set<string>)
      requires Valid() && Inv(store.Model()) && IsGroup(store.Model(), jobs, from, to)
      requires wall.Some? ==> from < wall.value <= to + 1 && AllPromised(store.Model(), jobs, wall.value)
      requires Faithful(chain, sac, ScannedFrom(from, wall), to, members, res) && AllScanned(jobs, members)
      modifies store`rows, store`records
      ensures Valid() && Inv(store.Model()) && store.gaps == old(store.gaps)
      ensures committed == Advancing(jobs, |jobs|, outage)
      ensures MovedRows(old(store.rows), store.rows, committed, from, wall)
      ensures store.records == old(store.records) + GroupRows(Group(chain, sac, jobs, from, to, wall, outage),
        committed)
    {
      committed := {};
      ghost var group := Group(chain, sac, jobs, from, to, wall, outage);
      ghost var before, stored := store.Model(), store.records;
      StartGroup(group, before);
      for i := 0 to |jobs|
        invariant Valid() && Progress(group, before, store.Model(), i, committed)
        invariant store.records == stored + GroupRows(group, committed)
      {
        committed := NextMember(jobs[i], from, to, wall, outage, res, members, group, before, stored, i, committed);
      }
    }

    /** One member: left alone when the database refuses it, else committed. */
    method NextMember(job: Job, from: uint32, to: uint32, wall: Option<uint32>, outage: set<string>, res: Extracted,
        ghost members: Members, ghost group: Group, ghost before: State, ghost stored: set<Record>, ghost i: nat,
        committed: set<string>) returns (now: set<string>)
      requires Valid() && Progress(group, before, store.Model(), i, committed)
      requires store.records == stored + GroupRows(group, committed)
      requires i < |group.jobs| && job == group.jobs[i]
      requires group == Group(chain, sac, group.jobs, from, to, wall, outage)
      requires Faithful(chain, sac, ScannedFrom(from, wall), to, members, res) && AllScanned(group.jobs, members)
      modifies store`rows, store`records
      ensures Valid() && Progress(group, before, store.Model(), i + 1, now)
      ensures store.records == stored + GroupRows(group, now)
    {
      if job.contract in outage {
        SkipMember(group, before, store.Model(), i, committed);
        return committed;
      }
      AdvanceMember(job, from, to, wall, res, members, group, before, i, committed);
      return committed + {job.contract};
    }

    method AdvanceMember(job: Job, from: uint32, to: uint32, wall: Option<uint32>, res: Extracted,
        ghost members: Members, ghost group: Group, ghost before: State, ghost i: nat, ghost committed: set<string>)
      requires Valid() && Progress(group, before, store.Model(), i, committed)
      requires i < |group.jobs| && job == group.jobs[i] && job.contract !in group.outage
      requires group.from == from && group.to == to && group.wall == wall && group.chain == chain && group.sac == sac
      requires Faithful(chain, sac, ScannedFrom(from, wall), to, members, res) && AllScanned(group.jobs, members)
      modifies store`rows, store`records
      ensures Valid() && Progress(group, before, store.Model(), i + 1, committed + {job.contract})
      ensures GroupRows(group, committed + {job.contract}) == GroupRows(group, committed) + MemberRows(group, job)
      ensures store.records == old(store.records) + MemberRows(group, job)
    {
      ghost var s := store.Model();
      MemberStands(group, before, s, i, committed, members);
      var ok := CommitOne(job, MovedRow(job.row, from, wall), ScannedFrom(from, wall), to, res, members);
      CommitMember(group, before, s, store.Model(), i, committed);
    }

    /** Promises what lies below the wall, one gap per distinct target, before anything is
        clamped; the database refuses the targets in `refused`. */
    method PromiseBelow(jobs: seq<Job>, from: uint32, to: uint32, wall: uint32, refused: set<uint32>) returns (ok: bool)
      requires Valid() && Inv(store.Model()) && IsGroup(store.Model(), jobs, from, to) && from < wall
      modifies store`gaps
      ensures Valid() && Inv(store.Model()) && IsGroup(store.Model(), jobs, from, to)
      ensures ok ==> AllPromised(store.Model(), jobs, wall)
      ensures ok <==> forall i :: 0 <= i < |jobs| ==> jobs[i].row.targetFrom !in refused
    {
      var recorded: set<uint32> := {};
      TargetsBelowWall(store.Model(), jobs, from, to, wall);
      for i := 0 to |jobs|
        invariant Valid() && Inv(store.Model())
        invariant forall k :: 0 <= k < i ==> jobs[k].row.targetFrom in recorded
        invariant forall t :: t in recorded ==> t !in refused
        invariant forall t :: t in recorded ==> OwedOver(store.gaps, t, wall - 1)
      {
        var target := jobs[i].row.targetFrom;
        if target !in recorded {
          if target in refused {
            return false;
          }
          PromiseOne(target, wall);
          recorded := recorded + {target};
        }
      }
      OwedIsPromised(store.Model(), jobs, wall);
      return true;
    }

    method PromiseOne(target: uint32, wall: uint32)
      requires Valid() && Inv(store.Model()) && 1 <= target < wall
      modifies store`gaps
      ensures Valid() && Inv(store.Model())
      ensures OwedOver(store.gaps, target, wall - 1)
      ensures forall lo, hi :: OwedOver(old(store.gaps), lo, hi) ==> OwedOver(store.gaps, lo, hi)
    {
      ghost var before := store.Model();
      var reason := "below source retention during backfill; the archive leg can heal this";
      var done := store.RecordGap(target, wall - 1, reason);
      RecordGapKeepsInv(before, store.Model(), target, wall - 1, reason);
      RecordedOwesTheRange(before.gaps, store.gaps, target, wall - 1, reason);
    }

    /** Scans one grid chunk once for every member and commits each member's own part. The
        jobs `ahead` are extracted for and cached, never committed. When the source serves
        everything from `oldest` on, every member the database takes moves. */
    method ProcessGroup(from: uint32, to: uint32, jobs: seq<Job>, ahead: seq<Job>, outage: set<string>,
        refused: set<uint32>, ghost oldest: int, ghost meta: nat -> Meta)
        returns (worked: bool, committed: set<string>, wall: Option<uint32>)
      requires Valid() && Inv(store.Model()) && IsGroup(store.Model(), jobs, from, to)
      requires DistinctContracts(jobs + ahead)
      modifies this, store`gaps, store`rows, store`records
      ensures Valid() && Inv(store.Model())
      ensures worked <==> committed != {}
      ensures committed == {} || committed == Advancing(jobs, |jobs|, outage)
      ensures wall.Some? ==> from < wall.value <= to + 1
      ensures MovedRows(old(store.rows), store.rows, committed, from, wall)
      ensures store.records == old(store.records) + GroupRows(Group(chain, sac, jobs, from, to, wall, outage),
        committed)
      ensures Answers(src, oldest, meta) && refused == {} ==> committed == Advancing(jobs, |jobs|, outage)
      ensures Answers(src, oldest, meta) && refused == {} ==>
        wall == if old(CacheHit(lastScan, from, to, jobs)) then None else WallOf(from, to, oldest)
      ensures Answers(src, oldest, meta) && oldest <= from && !old(CacheHit(lastScan, from, to, jobs)) ==>
        CacheHit(lastScan, from, to, jobs) && CacheHit(lastScan, from, to, ahead)
    {
      worked, committed, wall := false, {}, None;
      NothingCommitted(chain, sac, jobs, from, to, wall, outage, store.rows);
      var cached := CachedScan(from, to, jobs);
      if cached.Some? {
        committed := CommitGroup(jobs, from, to, None, outage, cached.value, lastScan.value.members);
        return committed != {}, committed, None;
      }
      var watch := WatchOf(jobs + ahead);
      WatchHoldsAll(jobs + ahead);
      var scanned, used := ScanRange(watch, from, to, oldest, meta);
      match scanned {
        case Ok(res) =>
          RememberScan(from, to, watch, res);
          AllAreRemembered(jobs, ahead, watch, lastScan.value);
          SharedScanIsFaithful(chain, sac, from, to, watch);
          WatchScansAll(jobs, jobs + ahead, watch);
          committed := CommitGroup(jobs, from, to, None, outage, res, MembersOf(watch));
          worked := committed != {};
        case Err(CutByRetention) =>
          worked, committed, wall := ProcessClamped(from, to, jobs, outage, refused, oldest, meta);
        case Err(_) =>
      }
    }

    /** Retention cut the chunk: finds the wall, promises everything below it, scans what is
        served above it, and clamps every member there. */
    method ProcessClamped(from: uint32, to: uint32, jobs: seq<Job>, outage: set<string>, refused: set<uint32>,
        ghost oldest: int, ghost meta: nat -> Meta)
        returns (worked: bool, committed: set<string>, wall: Option<uint32>)
      requires Valid() && Inv(store.Model()) && IsGroup(store.Model(), jobs, from, to)
      modifies this`calls, store`gaps, store`rows, store`records
      ensures Valid() && Inv(store.Model())
      ensures worked <==> committed != {}
      ensures committed == {} || committed == Advancing(jobs, |jobs|, outage)
      ensures wall.Some? ==> from < wall.value <= to + 1
      ensures MovedRows(old(store.rows), store.rows, committed, from, wall)
      ensures store.records == old(store.records) + GroupRows(Group(chain, sac, jobs, from, to, wall, outage),
        committed)
      ensures Answers(src, oldest, meta) && from < oldest && refused == {} ==>
        committed == Advancing(jobs, |jobs|, outage) && wall == WallOf(from, to, oldest)
    {
      worked, committed, wall := false, {}, None;
      NothingCommitted(chain, sac, jobs, from, to, wall, outage, store.rows);
      var found := LocateWall(from, to, oldest, meta);
      if found.None? {
        return;
      }
      var w := found.value;
      var promised := PromiseBelow(jobs, from, to, w, refused);
      if promised {
        var clamped;
        clamped, committed := ClampGroup(from, to, jobs, outage, w, oldest, meta);
        worked, wall := committed != {}, if clamped then Some(w) else None;
      }
    }

    /** The wall inside a chunk whose floor is not served. */
    method LocateWall(from: uint32, to: uint32, ghost oldest: int, ghost meta: nat -> Meta)
        returns (wall: Option<uint32>)
      requires from <= to < MAX_U32
      modifies this`calls
      ensures wall.Some? ==> from < wall.value <= to + 1
      ensures Answers(src, oldest, meta) && from < oldest ==> wall == WallOf(from, to, oldest)
    {
      if Answers(src, oldest, meta) {
        AnswersAreSteady(src, from + 1, to, oldest, meta);
      }
      wall := FindWall(from + 1, to);
    }

    /** Scans what is served from the wall up and clamps every member there. */
    method ClampGroup(from: uint32, to: uint32, jobs: seq<Job>, outage: set<string>, wall: uint32,
        ghost oldest: int, ghost meta: nat -> Meta) returns (clamped: bool, committed: set<string>)
      requires Valid() && Inv(store.Model()) && IsGroup(store.Model(), jobs, from, to)
      requires from < wall <= to + 1 && AllPromised(store.Model(), jobs, wall)
      modifies this`calls, store`rows, store`records
      ensures Valid() && Inv(store.Model())
      ensures committed == if clamped then Advancing(jobs, |jobs|, outage) else {}
      ensures MovedRows(old(store.rows), store.rows, committed, from, if clamped then Some(wall) else None)
      ensures var at := if clamped then Some(wall) else None;
        store.records == old(store.records) + GroupRows(Group(chain, sac, jobs, from, to, at, outage), committed)
      ensures Answers(src, oldest, meta) && (wall <= to ==> oldest <= wall) ==> clamped
    {
      clamped, committed := false, {};
      NothingCommitted(chain, sac, jobs, from, to, None, outage, store.rows);
      var watch := WatchOf(jobs);
      WatchHoldsAll(jobs);
      var res := ScanAbove(watch, wall, to, oldest, meta);
      if res.Some? {
        SharedScanIsFaithful(chain, sac, wall, to, watch);
        WatchScansAll(jobs, jobs, watch);
        clamped := true;
        committed := CommitGroup(jobs, from, to, Some(wall), outage, res.value, MembersOf(watch));
      }
    }

    /** What is served from the wall up; nothing when the wall lies above the chunk. */
    method ScanAbove(watch: Watch, wall: uint32, to: uint32, ghost oldest: int, ghost meta: nat -> Meta)
        returns (r: Option<Extracted>)
      requires Truthful(src, chain)
      modifies this`calls
      ensures r.Some? ==> r.value == OfRange(chain, wall, to, watch, sac)
      ensures Answers(src, oldest, meta) && (wall <= to ==> oldest <= wall) ==> r.Some?
    {
      if to < wall {
        return Some(NOTHING);
      }
      var above, used := ScanRange(watch, wall, to, oldest, meta);
      return if above.Ok? then Some(above.value) else None;
    }
  }

  /** Where retention cuts a chunk when everything from `oldest` on is served. */
  ghost function WallOf(from: uint32, to: uint32, oldest: int): Option<uint32>
    requires from <= to < MAX_U32
  {
    var wall: uint32 := Max(from + 1, Min(oldest, to + 1));
    if oldest <= from then None else Some(wall)
  }

  lemma AnswersAreSteady(src: Source, lo: int, hi: int, oldest: int, meta: nat -> Meta)
    requires Answers(src, oldest, meta) && 0 <= lo
    ensures Steady(src, lo, hi, oldest)
  {
    forall n, at | lo <= at <= hi
      ensures if at >= oldest then src(n, at, 1).Served? else src(n, at, 1).BelowRetention?
    {
      assert AnswersAt(src(n, at, 1), at, 1, oldest, meta);
    }
  }

  lemma TargetsBelowWall(s: State, jobs: seq<Job>, from: uint32, to: uint32, wall: uint32)
    requires IsGroup(s, jobs, from, to) && from < wall
    ensures forall i :: 0 <= i < |jobs| ==> 1 <= jobs[i].row.targetFrom < wall
  {
    assert forall i :: 0 <= i < |jobs| ==> JobStands(s, jobs[i], from, to);
  }

  lemma OwedIsPromised(s: State, jobs: seq<Job>, wall: uint32)
    requires 1 <= wall && forall i :: 0 <= i < |jobs| ==> OwedOver(s.gaps, jobs[i].row.targetFrom, wall - 1)
    ensures AllPromised(s, jobs, wall)
  {
  }

  ghost predicate OwedOver(gaps: GapTable, lo: int, hi: int) {
    forall l :: lo <= l <= hi ==> Owed(gaps, l)
  }

  /** The fixed snapshot of a group's registrations. */
  function WatchOf(jobs: seq<Job>): Watch
    decreases |jobs|
  {
    if jobs == [] then map[]
    else WatchOf(jobs[..|jobs| - 1])[jobs[|jobs| - 1].contract := jobs[|jobs| - 1].kinds]
  }

  lemma {:induction false} WatchHoldsAll(jobs: seq<Job>)
    requires DistinctContracts(jobs)
    ensures forall i :: 0 <= i < |jobs| ==>
      jobs[i].contract in WatchOf(jobs) && WatchOf(jobs)[jobs[i].contract] == jobs[i].kinds
    decreases |jobs|
  {
    if jobs != [] {
      WatchHoldsAll(jobs[..|jobs| - 1]);
    }
  }

  /** A scan made for a group and the one behind it answers both from the cache. */
  lemma AllAreRemembered(jobs: seq<Job>, ahead: seq<Job>, watch: Watch, e: CacheEntry)
    requires var all := jobs + ahead;
      forall i :: 0 <= i < |all| ==> all[i].contract in watch && watch[all[i].contract] == all[i].kinds
    requires e.members == MembersOf(watch)
    ensures CacheHit(Some(e), e.from, e.to, jobs) && CacheHit(Some(e), e.from, e.to, ahead)
  {
    var all := jobs + ahead;
    forall i | 0 <= i < |all|
      ensures SameKinds(e.members, all[i])
    {
    }
    assert forall i :: 0 <= i < |jobs| ==> all[i] == jobs[i];
    assert forall i :: 0 <= i < |ahead| ==> all[|jobs| + i] == ahead[i];
  }

  lemma WatchScansAll(jobs: seq<Job>, all: seq<Job>, watch: Watch)
    requires |jobs| <= |all| && all[..|jobs|] == jobs
    requires forall i :: 0 <= i < |all| ==> all[i].contract in watch && watch[all[i].contract] == all[i].kinds
    ensures AllScanned(jobs, MembersOf(watch))
  {
  }

  lemma NothingCommitted(chain: Chain, sac: SacOf, jobs: seq<Job>, from: uint32, to: uint32, wall: Option<uint32>,
      outage: set<string>, rows: BackfillTable)
    requires 1 <= from && (wall.Some? ==> 1 <= wall.value)
    ensures GroupRows(Group(chain, sac, jobs, from, to, wall, outage), {}) == {}
    ensures MovedRows(rows, rows, {}, from, wall)
  {
  }

  /** One group commit: the chain it scanned, its members, range, wall and refused contracts. */
  datatype Group = Group(chain: Chain, sac: SacOf, jobs: seq<Job>, from: uint32, to: uint32, wall: Option<uint32>,
      outage: set<string>)

  ghost function Advancing(jobs: seq<Job>, n: nat, outage: set<string>): set<string>
    requires n <= |jobs|
  {
    set i | 0 <= i < n && jobs[i].contract !in outage :: jobs[i].contract
  }

  /** The first n members were handled; the rest still stand as listed. */
  ghost predicate Progress(g: Group, before: State, s: State, n: nat, committed: set<string>) {
    && n <= |g.jobs| && Inv(s) && s.gaps == before.gaps && 1 <= g.from <= g.to < MAX_U32
    && (g.wall.Some? ==> g.from < g.wall.value <= g.to + 1)
    && committed == Advancing(g.jobs, n, g.outage)
    && MovedRows(before.rows, s.rows, committed, g.from, g.wall)
    && DistinctContracts(g.jobs)
    && forall i :: n <= i < |g.jobs| ==> MemberReady(g, s, i)
  }

  ghost predicate DistinctContracts(jobs: seq<Job>) {
    forall i, j :: 0 <= i < j < |jobs| ==> jobs[i].contract != jobs[j].contract
  }

  lemma StartGroup(g: Group, s: State)
    requires Inv(s) && IsGroup(s, g.jobs, g.from, g.to)
    requires g.wall.Some? ==> g.from < g.wall.value <= g.to + 1 && AllPromised(s, g.jobs, g.wall.value)
    ensures Progress(g, s, s, 0, {}) && GroupRows(g, {}) == {}
  {
  }

  ghost predicate MemberReady(g: Group, s: State, i: nat)
    requires i < |g.jobs|
  {
    && JobStands(s, g.jobs[i], g.from, g.to)
    && (g.wall.Some? ==>
          PromisedOver(s, g.jobs[i].contract, g.jobs[i].row.coveredKinds, g.jobs[i].row.targetFrom, g.wall.value - 1))
  }

  lemma MemberStands(g: Group, before: State, s: State, i: nat, committed: set<string>, members: Members)
    requires Progress(g, before, s, i, committed) && i < |g.jobs| && AllScanned(g.jobs, members)
    ensures JobStands(s, g.jobs[i], g.from, g.to)
    ensures forall k :: IsMember(members, g.jobs[i].contract, k) <==> k in g.jobs[i].kinds
  {
    assert MemberReady(g, s, i);
  }

  lemma SkipMember(g: Group, before: State, s: State, i: nat, committed: set<string>)
    requires Progress(g, before, s, i, committed) && i < |g.jobs| && g.jobs[i].contract in g.outage
    ensures Progress(g, before, s, i + 1, committed)
  {
  }

  /** A member's commit keeps the ledger honest: the scan reached above its watermark, and
      what lies below a wall was promised before. */
  lemma MemberKeepsInv(g: Group, before: State, s: State, s': State, i: nat, committed: set<string>)
    requires Progress(g, before, s, i, committed) && i < |g.jobs|
    requires ChunkStep(s, s', g.jobs[i].contract, MovedRow(g.jobs[i].row, g.from, g.wall))
    requires DerivedOver(s', g.jobs[i].contract, g.jobs[i].kinds, ScannedFrom(g.from, g.wall), g.to)
    ensures Inv(s')
  {
    var j := g.jobs[i];
    assert MemberReady(g, s, i);
    if g.wall.Some? {
      ClampKeepsInv(s, s', j.contract, g.wall.value);
    } else {
      WalkKeepsInv(s, s', j.contract, g.from);
    }
  }

  lemma CommitMember(g: Group, before: State, s: State, s': State, i: nat, committed: set<string>)
    requires Progress(g, before, s, i, committed) && i < |g.jobs| && g.jobs[i].contract !in g.outage
    requires ChunkStep(s, s', g.jobs[i].contract, MovedRow(g.jobs[i].row, g.from, g.wall))
    requires DerivedOver(s', g.jobs[i].contract, g.jobs[i].kinds, ScannedFrom(g.from, g.wall), g.to)
    ensures Progress(g, before, s', i + 1, committed + {g.jobs[i].contract})
    ensures GroupRows(g, committed + {g.jobs[i].contract}) == GroupRows(g, committed) + MemberRows(g, g.jobs[i])
  {
    MemberKeepsInv(g, before, s, s', i, committed);
    assert MemberReady(g, s, i);
    OneMoreAdvancing(g.jobs, i, g.outage);
    forall k | i < k < |g.jobs|
      ensures MemberReady(g, s', k)
    {
      assert MemberReady(g, s, k);
    }
    MemberAddsItsRows(g, i, committed);
  }

  lemma OneMoreAdvancing(jobs: seq<Job>, i: nat, outage: set<string>)
    requires i < |jobs| && jobs[i].contract !in outage && DistinctContracts(jobs)
    ensures Advancing(jobs, i + 1, outage) == Advancing(jobs, i, outage) + {jobs[i].contract}
    ensures jobs[i].contract !in Advancing(jobs, i, outage)
  {
  }

  lemma MemberAddsItsRows(g: Group, i: nat, committed: set<string>)
    requires i < |g.jobs|
    requires DistinctContracts(g.jobs)
    ensures GroupRows(g, committed + {g.jobs[i].contract}) == GroupRows(g, committed) + MemberRows(g, g.jobs[i])
  {
  }

  /** The scan starts at the chunk's floor, or at the wall when retention cut it. */
  function ScannedFrom(from: uint32, wall: Option<uint32>): uint32 {
    if wall.Some? then wall.value else from
  }

  function MovedRow(b: Backfill, from: uint32, wall: Option<uint32>): Backfill
    requires 1 <= from && (wall.Some? ==> 1 <= wall.value)
  {
    if wall.Some? then ClampedAtWall(b, wall.value) else Walked(b, from)
  }

  /** The listed walk is still what the table holds, and its next chunk is [from .. nextTo]
      inside a group scanned up to `to`. */
  ghost predicate JobStands(s: State, j: Job, from: uint32, to: uint32) {
    && j.contract in s.rows && s.rows[j.contract] == j.row && IsContractId(j.contract)
    && !j.row.done && 1 <= j.row.targetFrom <= j.row.nextTo <= to && ChunkFrom(j.row) == from
    && forall k :: k in j.row.coveredKinds ==> k in j.kinds
  }

  ghost predicate IsGroup(s: State, jobs: seq<Job>, from: uint32, to: uint32) {
    && 1 <= from <= to < MAX_U32
    && (forall i :: 0 <= i < |jobs| ==> JobStands(s, jobs[i], from, to))
    && DistinctContracts(jobs)
  }

  /** Everything below the wall is derived or promised for every member. */
  ghost predicate AllPromised(s: State, jobs: seq<Job>, wall: uint32) {
    forall i :: 0 <= i < |jobs| ==>
      PromisedOver(s, jobs[i].contract, jobs[i].row.coveredKinds, jobs[i].row.targetFrom, wall - 1)
  }

  /** Committed members moved to the chunk's floor or the wall; every other row stands. */
  ghost predicate MovedRows(before: BackfillTable, after: BackfillTable, committed: set<string>, from: uint32,
      wall: Option<uint32>)
    requires 1 <= from && (wall.Some? ==> 1 <= wall.value)
  {
    && after.Keys == before.Keys
    && committed <= before.Keys
    && (forall c :: c in committed ==> after[c] == MovedRow(before[c], from, wall))
    && (forall c :: c in before && c !in committed ==> after[c] == before[c])
  }

  /** What one member stores: its private scan of the range the group scanned. */
  ghost function MemberRows(g: Group, j: Job): set<Row> {
    PrivateRows(g.chain, g.sac, ScannedFrom(g.from, g.wall), g.to, j.contract, j.kinds)
  }

  ghost function GroupRows(g: Group, committed: set<string>): set<Row> {
    set j, r | j in g.jobs && j.contract in committed && r in MemberRows(g, j) :: r
  }

  /** The members include every requesting registration, under exactly its kinds. */
  ghost predicate AllScanned(jobs: seq<Job>, members: Members) {
    forall i, k :: 0 <= i < |jobs| ==> (IsMember(members, jobs[i].contract, k) <==> k in jobs[i].kinds)
  }
}
