// The live loop (internal/ingest/loop.go): resume from the persisted cursor, check that
// every ledger extends the one committed before it, commit one ledger at a time.
module LiveLoop {
  import opened Basics
  import opened GapLedger
  import opened Coverage
  import opened Extract
  import ExtractLoop
  import opened Scan
  import opened Storage
  import opened BackfillWorker

  const RESET_SLACK := 17_280

  /** The source's answer to its n-th request. */
  datatype Answer = Closed(meta: Meta) | NotYet | Retained | Failed

  type LiveSource = (nat, uint32) -> Answer

  /** The tip the source names at its n-th request, if it answers. */
  type TipSource = nat -> Option<uint32>

  datatype Outcome = Cancelled | WrongNetwork | NoTip | NetworkReset | BelowWindow | Misnumbered | Divergence

  /** Hashes are never empty, and sequences stay below the last 32-bit number. */
  ghost predicate WellFormedSource(src: LiveSource) {
    forall n, q :: WellFormedAnswer(src(n, q))
  }

  ghost predicate WellFormedAnswer(a: Answer) {
    a.Closed? ==> a.meta.hash != "" && a.meta.sequence < MAX_U32
  }

  ghost predicate ServesChain(src: LiveSource, chain: Chain) {
    forall n, q :: ServesOne(src(n, q), chain)
  }

  ghost predicate ServesOne(a: Answer, chain: Chain) {
    a.Closed? ==> a.meta.ledger == chain(a.meta.sequence)
  }

  // --- the committed chain -----------------------------------------------------

  /** One contiguous ascending run, each ledger naming its predecessor's hash. */
  ghost predicate IsHashChain(log: seq<LedgerRecord>) {
    && (forall i :: 0 <= i < |log| ==> log[i].sequence == log[0].sequence + i < MAX_U32 && log[i].hash != "")
    && (forall i :: 0 < i < |log| ==> log[i].previousHash == log[i - 1].hash)
  }

  ghost predicate CursorNames(cursor: Option<Cursor>, log: seq<LedgerRecord>) {
    if log == [] then cursor.None?
    else cursor == Some(Cursor(log[|log| - 1].sequence, log[|log| - 1].hash))
  }

  /** The ring keeps the newest of the committed ledgers, as they were committed. */
  ghost predicate RingKeeps(hashes: map<uint32, LedgerRecord>, log: seq<LedgerRecord>) {
    if log == [] then hashes == map[]
    else
      && (forall q :: q in hashes <==> log[0].sequence <= q <= Newest(log) && Newest(log) - HASH_RING_SIZE <= q)
      && (forall i :: 0 <= i < |log| && log[i].sequence in hashes ==> hashes[log[i].sequence] == log[i])
  }

  ghost function Newest(log: seq<LedgerRecord>): uint32
    requires log != []
  {
    log[|log| - 1].sequence
  }

  ghost predicate Persisted(cursor: Option<Cursor>, hashes: map<uint32, LedgerRecord>, log: seq<LedgerRecord>) {
    IsHashChain(log) && CursorNames(cursor, log) && RingKeeps(hashes, log)
  }

  /** The ring never holds more than 1001 ledgers. */
  lemma RingIsBounded(hashes: map<uint32, LedgerRecord>, log: seq<LedgerRecord>)
    requires RingKeeps(hashes, log)
    ensures |hashes| <= HASH_RING_SIZE + 1
  {
    if log != [] {
      WindowBound(hashes.Keys, Newest(log) - HASH_RING_SIZE, Newest(log));
    } else {
      assert |hashes| == 0;
    }
  }

  lemma {:induction false} WindowBound(s: set<uint32>, lo: int, hi: int)
    requires lo <= hi + 1 && forall x :: x in s ==> lo <= x <= hi
    ensures |s| <= hi - lo + 1
    decreases hi - lo
  {
    if lo <= hi {
      var top := set x | x in s && x == hi;
      assert |top| <= 1 by {
        if hi in s {
          assert top == {hi};
        } else {
          assert top == {};
        }
      }
      WindowBound(s - top, lo, hi - 1);
      assert s == (s - top) + top;
    }
  }

  /** Where a restart picks up: right behind the last committed ledger, armed with its hash. */
  ghost predicate PicksUp(log: seq<LedgerRecord>, next: int, expectedPrev: string) {
    if log == [] then expectedPrev == ""
    else next == Newest(log) + 1 && expectedPrev == log[|log| - 1].hash
  }

  /** The source answers with a tip, and the last committed ledger lies beyond it by more than the slack. */
  ghost predicate PastSlack(log: seq<LedgerRecord>, latest: Option<uint32>)
    requires log != []
  {
    latest.Some? && Newest(log) > Wrap32(latest.value + RESET_SLACK)
  }

  /** A restart goes on behind what is committed: the network is the configured one, and no tip shows a reset. */
  ghost predicate Resumes(networkOk: bool, log: seq<LedgerRecord>, latest: Option<uint32>) {
    networkOk && log != [] && !PastSlack(log, latest)
  }

  /** Committing a ledger that extends the chain keeps cursor and ring on it. */
  lemma CommitExtendsChain(log: seq<LedgerRecord>, rec: LedgerRecord, cursor: Option<Cursor>,
      hashes: map<uint32, LedgerRecord>, cursor': Option<Cursor>, hashes': map<uint32, LedgerRecord>)
    requires Persisted(cursor, hashes, log) && rec.hash != "" && rec.sequence < MAX_U32
    requires log != [] ==> rec.sequence == Newest(log) + 1 && rec.previousHash == log[|log| - 1].hash
    requires cursor' == Some(Cursor(rec.sequence, rec.hash))
    requires forall q :: q in hashes' <==> (q in hashes || q == rec.sequence) && rec.sequence - HASH_RING_SIZE <= q
    requires forall q :: q in hashes' ==> hashes'[q] == if q in hashes then hashes[q] else rec
    ensures Persisted(cursor', hashes', log + [rec])
  {
  }

  /** Across any runs and restarts the cursor never moves back, and no committed ledger is rewritten. */
  lemma CursorOnlyAdvances(log: seq<LedgerRecord>, later: seq<LedgerRecord>, cursor: Option<Cursor>,
      cursor': Option<Cursor>)
    requires IsHashChain(log) && IsHashChain(later) && log <= later && CursorNames(cursor, log) &&
      CursorNames(cursor', later)
    ensures cursor.Some? ==> cursor'.Some? && cursor.value.sequence <= cursor'.value.sequence
    ensures cursor.Some? && cursor'.Some? && cursor.value.sequence == cursor'.value.sequence ==>
      cursor' == cursor && later == log
  {
  }

  // --- the loop ------------------------------------------------------------------

  /** The snapshot read for a ledger watches every row whose anchor lies below it. */
  ghost predicate CaughtUp(watch: Watch, rows: BackfillTable, anchors: map<string, uint32>, l: nat) {
    forall c :: WatchedPast(watch, rows, anchors, l, c)
  }

  ghost predicate WatchedPast(watch: Watch, rows: BackfillTable, anchors: map<string, uint32>, l: nat, c: string) {
    c in rows && c in anchors && anchors[c] < l ==>
      forall k :: k in rows[c].coveredKinds ==> IsContractId(c) && WatchedFor(watch, c, k)
  }

  /** A ledger is refused when it is not the one asked for or does not extend the chain. */
  function RefusalOf(m: Meta, next: int, expectedPrev: string): Option<Outcome> {
    if m.sequence != next then Some(Misnumbered)
    else if expectedPrev != "" && m.previousHash != expectedPrev then Some(Divergence)
    else None
  }

  predicate StopsIngestion(o: Outcome) {
    o.BelowWindow? || o.Misnumbered? || o.Divergence?
  }

  /** The answers that end ingestion. */
  function StopOf(a: Answer, next: int, expectedPrev: string): (stop: Option<Outcome>)
    ensures stop.Some? ==> StopsIngestion(stop.value)
    ensures a.NotYet? || a.Failed? ==> stop.None?
    ensures stop == Some(BelowWindow) <==> a.Retained?
    ensures stop == Some(Misnumbered) <==> a.Closed? && a.meta.sequence != next
    ensures stop == Some(Divergence) <==>
      a.Closed? && a.meta.sequence == next && expectedPrev != "" && a.meta.previousHash != expectedPrev
  {
    match a
    case Retained => Some(BelowWindow)
    case Closed(m) => RefusalOf(m, next, expectedPrev)
    case _ => None
  }

  /** The source has every ledger of the chain `meta`, linked, up to `top`. */
  ghost predicate Feeds(src: LiveSource, meta: nat -> Meta, top: nat) {
    forall n, q: uint32 :: q <= top ==> FeedsOne(src(n, q), meta, q)
  }

  ghost predicate FeedsOne(a: Answer, meta: nat -> Meta, q: nat) {
    a == Closed(meta(q)) && meta(q).sequence == q && (0 < q ==> meta(q).previousHash == meta(q - 1).hash)
  }

  /** The loop stands where the fed chain continues. */
  ghost predicate OnChain(meta: nat -> Meta, next: int, expectedPrev: string) {
    expectedPrev == "" || (0 < next && expectedPrev == meta(next - 1).hash)
  }

  /** What is committed extends the log, and the loop is armed for the ledger behind it. */
  ghost predicate Following(cursor: Option<Cursor>, hashes: map<uint32, LedgerRecord>, log: seq<LedgerRecord>,
      committed: seq<LedgerRecord>, next: uint32, expectedPrev: string, first: uint32, turns: nat)
  {
    Persisted(cursor, hashes, committed) && log <= committed && PicksUp(committed, next, expectedPrev) &&
      next <= first + turns
  }

  /** The first turns each committed one ledger of the chain, as it was fed. */
  ghost predicate FollowedFor(turns: nat, meta: nat -> Meta, first: uint32, before: nat, next: uint32,
      expectedPrev: string, log: seq<LedgerRecord>)
  {
    && |log| == before + turns && next == first + turns && OnChain(meta, next, expectedPrev)
    && CopiesFeed(log, before, meta, first)
  }

  /** Behind its first `before` ledgers the log holds the fed chain from `first` on, as it was fed. */
  ghost predicate CopiesFeed(log: seq<LedgerRecord>, before: nat, meta: nat -> Meta, first: nat) {
    forall i :: before <= i < |log| ==> CopiesOne(log[i], meta(first + i - before))
  }

  ghost predicate CopiesOne(r: LedgerRecord, m: Meta) {
    r.sequence == m.sequence && r.hash == m.hash && r.previousHash == m.previousHash
  }

  lemma SmoothTurn(src: LiveSource, meta: nat -> Meta, first: uint32, firstPrev: string, polls: nat,
      accepted: nat -> bool, turn: nat, call: nat, next: uint32, expectedPrev: string, before: nat,
      log: seq<LedgerRecord>)
    requires Smooth(src, meta, first, firstPrev, polls, accepted) && turn < polls
    requires FollowedFor(turn, meta, first, before, next, expectedPrev, log)
    ensures var a := src(call, next);
      && a.Closed? && StopOf(a, next, expectedPrev).None? && accepted(turn)
      && FollowedFor(turn + 1, meta, first, before, next + 1, a.meta.hash, log + [RecordOf(a.meta)])
  {
    assert FeedsOne(src(call, next), meta, next);
  }

  /** For `polls` turns from here the source feeds the chain and the database takes every commit. */
  ghost predicate Smooth(src: LiveSource, meta: nat -> Meta, next: uint32, expectedPrev: string, polls: nat,
      accepted: nat -> bool)
  {
    Feeds(src, meta, next + polls) && OnChain(meta, next, expectedPrev) && next + polls < MAX_U32 &&
      forall turn :: accepted(turn)
  }

  class Loop {
    const src: LiveSource
    const tip: TipSource
    const sac: SacOf
    const store: Store
    const startLedger: uint32
    var calls: nat
    var lastKnownTip: uint32

    ghost predicate Valid()
      reads this, store
    {
      store.Valid() && WellFormedSource(src)
    }

    constructor (src: LiveSource, tip: TipSource, sac: SacOf, store: Store, startLedger: uint32)
      requires store.Valid() && WellFormedSource(src)
      ensures Valid() && this.store == store
    {
      this.src, this.tip, this.sac, this.store, this.startLedger := src, tip, sac, store, startLedger;
      calls, lastKnownTip := 0, 0;
    }

    /** Where ingestion starts and which predecessor hash the first ledger must match. */
    method ResumePoint(ghost log: seq<LedgerRecord>) returns (r: Result<(uint32, string), Outcome>)
      requires Valid() && Persisted(store.cursor, store.hashes, log)
      modifies this`calls
      ensures r.Err? ==> r.error in {NoTip, NetworkReset}
      ensures r == Err(NoTip) <==> log == [] && tip(old(calls)).None?
      ensures r == Err(NetworkReset) <==> log != [] && PastSlack(log, tip(old(calls)))
      ensures r.Ok? && log != [] ==> r.value == (Newest(log) + 1, log[|log| - 1].hash)
      ensures r.Ok? && log == [] ==>
        r.value == (if startLedger == 0 then tip(old(calls)).value else startLedger, "")
      ensures r.Ok? ==> PicksUp(log, r.value.0, r.value.1)
    {
      var latest := tip(calls);
      calls := calls + 1;
      var cursor := store.LoadCursor();
      if cursor.None? {
        if latest.None? {
          return Err(NoTip);
        }
        return Ok((if startLedger == 0 then latest.value else startLedger, ""));
      }
      if latest.Some? && cursor.value.sequence > Wrap32(latest.value + RESET_SLACK) {
        return Err(NetworkReset);
      }
      return Ok((cursor.value.sequence + 1, cursor.value.hash));
    }

    /** Drives ingestion for `polls` turns; `watch` and `accepted` say what the registry holds
        and whether the database takes the commit on each turn. However the source answers
        and wherever it stops, what is committed stays one hash chain. */
    method Run(networkOk: bool, polls: nat, watch: nat -> Watch, accepted: nat -> bool, ghost chain: Chain,
        ghost log: seq<LedgerRecord>, ghost meta: nat -> Meta)
        returns (outcome: Outcome, ghost committed: seq<LedgerRecord>, ghost began: Option<(uint32, string)>)
      requires Valid() && Persisted(store.cursor, store.hashes, log)
      modifies this, store`cursor, store`hashes, store`records
      ensures Valid() && Persisted(store.cursor, store.hashes, committed) && log <= committed
      ensures began.Some? ==> PicksUp(log, began.value.0, began.value.1)
      ensures began.None? ==> outcome in {WrongNetwork, NoTip, NetworkReset} && committed == log
      ensures outcome == WrongNetwork <==> !networkOk
      ensures outcome == NoTip <==> networkOk && log == [] && tip(old(calls)).None?
      ensures outcome == NetworkReset <==> networkOk && log != [] && PastSlack(log, tip(old(calls)))
      ensures Resumes(networkOk, log, tip(old(calls))) ==>
        began == Some((Newest(log) + 1, log[|log| - 1].hash))
      ensures began.Some? && Smooth(src, meta, began.value.0, began.value.1, polls, accepted) ==>
        outcome == Cancelled && |committed| == |log| + polls && CopiesFeed(committed, |log|, meta, began.value.0)
      ensures Resumes(networkOk, log, tip(old(calls))) ==>
        Smooth(src, meta, Newest(log) + 1, log[|log| - 1].hash, polls, accepted) ==>
          outcome == Cancelled && |committed| == |log| + polls && CopiesFeed(committed, |log|, meta, Newest(log) + 1)
      ensures KeepsUp(watch, store.rows, store.anchors, FirstAfter(old(store.cursor))) ==>
        Inv(old(store.Model())) && Serves(chain) ==> Inv(store.Model())
    {
      committed, began := log, None;
      if !networkOk {
        return WrongNetwork, committed, began;
      }
      var start := ResumePoint(log);
      if start.Err? {
        return start.error, committed, began;
      }
      began := Some(start.value);
      ghost var trusted := Inv(store.Model()) && Serves(chain) &&
        KeepsUp(watch, store.rows, store.anchors, FirstAfter(store.cursor));
      outcome, committed := Follow(start.value.0, start.value.1, polls, watch, accepted, chain, log, trusted, meta);
    }

    /** Takes one turn after another from where ingestion resumed. */
    method Follow(first: uint32, firstPrev: string, polls: nat, watch: nat -> Watch, accepted: nat -> bool,
        ghost chain: Chain, ghost log: seq<LedgerRecord>, ghost trusted: bool, ghost meta: nat -> Meta)
        returns (outcome: Outcome, ghost committed: seq<LedgerRecord>)
      requires Valid() && Persisted(store.cursor, store.hashes, log) && PicksUp(log, first, firstPrev)
      requires trusted ==> Inv(store.Model()) && Serves(chain) && KeepsUp(watch, store.rows, store.anchors, first)
      modifies this, store`cursor, store`hashes, store`records
      ensures Valid() && Persisted(store.cursor, store.hashes, committed) && log <= committed
      ensures Smooth(src, meta, first, firstPrev, polls, accepted) ==>
        outcome == Cancelled && |committed| == |log| + polls && CopiesFeed(committed, |log|, meta, first)
      ensures outcome.Cancelled? || StopsIngestion(outcome)
      ensures trusted ==> Inv(store.Model())
    {
      committed := log;
      var next: uint32, expectedPrev := first, firstPrev;
      ghost var smooth := Smooth(src, meta, first, firstPrev, polls, accepted);
      for turn := 0 to polls
        invariant Valid() && (trusted ==> Inv(store.Model()) && Serves(chain))
        invariant Following(store.cursor, store.hashes, log, committed, next, expectedPrev, first, turn)
        invariant smooth ==> FollowedFor(turn, meta, first, |log|, next, expectedPrev, committed)
      {
        var stop;
        stop, next, expectedPrev, committed := NextTurn(next, expectedPrev, first, turn, watch, accepted, chain, log,
          committed, trusted, firstPrev, polls, meta, smooth);
        if stop.Some? {
          return stop.value, committed;
        }
      }
      return Cancelled, committed;
    }

    /** One turn of the loop, seen from where ingestion resumed. */
    method NextTurn(next: uint32, expectedPrev: string, ghost first: uint32, turn: nat, watch: nat -> Watch,
        accepted: nat -> bool, ghost chain: Chain, ghost log: seq<LedgerRecord>, ghost before: seq<LedgerRecord>,
        ghost trusted: bool, ghost firstPrev: string, ghost polls: nat, ghost meta: nat -> Meta, ghost smooth: bool)
        returns (stop: Option<Outcome>, now: uint32, prev: string, ghost committed: seq<LedgerRecord>)
      requires Valid() && (trusted ==>
        Inv(store.Model()) && Serves(chain) && KeepsUp(watch, store.rows, store.anchors, first))
      requires Following(store.cursor, store.hashes, log, before, next, expectedPrev, first, turn)
      requires smooth ==> Smooth(src, meta, first, firstPrev, polls, accepted) && turn < polls
      requires smooth ==> FollowedFor(turn, meta, first, |log|, next, expectedPrev, before)
      modifies this, store`cursor, store`hashes, store`records
      ensures Valid() && (trusted ==> Inv(store.Model()) && Serves(chain))
      ensures Following(store.cursor, store.hashes, log, committed, now, prev, first, turn + 1)
      ensures stop.Some? ==> StopsIngestion(stop.value)
      ensures smooth ==> stop.None? && FollowedFor(turn + 1, meta, first, |log|, now, prev, committed)
    {
      if smooth {
        SmoothTurn(src, meta, first, firstPrev, polls, accepted, turn, calls, next, expectedPrev, |log|, before);
      }
      if trusted {
        KeptUpTo(watch, store.rows, store.anchors, first, turn, next);
      }
      stop, now, prev, committed := Turn(next, expectedPrev, watch(turn), accepted(turn), chain, before, trusted);
    }

    /** Asks for the next ledger once and acts on the answer. */
    method Turn(next: uint32, expectedPrev: string, watch: Watch, accepted: bool,
        ghost chain: Chain, ghost log: seq<LedgerRecord>, ghost trusted: bool)
        returns (stop: Option<Outcome>, now: uint32, prev: string, ghost committed: seq<LedgerRecord>)
      requires Valid() && Persisted(store.cursor, store.hashes, log) && PicksUp(log, next, expectedPrev)
      requires trusted ==> Inv(store.Model()) && Serves(chain)
      requires trusted ==> CaughtUp(watch, store.rows, store.anchors, next)
      modifies this, store`cursor, store`hashes, store`records
      ensures Valid() && Persisted(store.cursor, store.hashes, committed) && log <= committed
      ensures PicksUp(committed, now, prev) && now <= next + 1
      ensures stop == StopOf(src(old(calls), next), next, expectedPrev)
      ensures if stop.None? && src(old(calls), next).Closed? && accepted
        then committed == log + [RecordOf(src(old(calls), next).meta)] && now == next + 1 &&
          prev == src(old(calls), next).meta.hash
        else committed == log && now == next && prev == expectedPrev
      ensures trusted ==> Inv(store.Model())
    {
      stop, now, prev, committed := None, next, expectedPrev, log;
      var answer := src(calls, next);
      assert WellFormedAnswer(answer);
      calls := calls + 1;
      match answer {
        case NotYet =>
          MarkTipReached();
        case Retained =>
          stop := Some(BelowWindow);
        case Failed =>
        case Closed(m) =>
          assert trusted ==> ServesOne(answer, chain);
          stop := Take(m, next, expectedPrev, watch, accepted, chain, log, trusted);
          if stop.None? && accepted {
            committed := log + [RecordOf(m)];
            now, prev := next + 1, m.hash;
          }
      }
    }

    /** One closed ledger: refused when it is not the one asked for or does not extend the
        chain, and committed when the database takes it. */
    method Take(m: Meta, next: uint32, expectedPrev: string, watch: Watch, accepted: bool,
        ghost chain: Chain, ghost log: seq<LedgerRecord>, ghost trusted: bool) returns (refusal: Option<Outcome>)
      requires Valid() && Persisted(store.cursor, store.hashes, log) && m.hash != "" && m.sequence < MAX_U32
      requires PicksUp(log, next, expectedPrev)
      requires trusted ==> Inv(store.Model()) && m.ledger == chain(m.sequence) && SameHistory(store.history, chain, sac)
      requires trusted ==> CaughtUp(watch, store.rows, store.anchors, next)
      modifies store`cursor, store`hashes, store`records
      ensures Valid() && (trusted ==> Inv(store.Model()))
      ensures refusal == RefusalOf(m, next, expectedPrev)
      ensures Persisted(store.cursor, store.hashes, if refusal.None? && accepted then log + [RecordOf(m)] else log)
    {
      if m.sequence != next {
        return Some(Misnumbered);
      }
      if expectedPrev != "" && m.previousHash != expectedPrev {
        return Some(Divergence);
      }
      if accepted {
        CommitOne(m, watch, chain, log, trusted);
      }
      return None;
    }

    /** The source serves the chain the facts are about. */
    ghost predicate Serves(chain: Chain)
      reads this, store
    {
      ServesChain(src, chain) && SameHistory(store.history, chain, sac)
    }

    method MarkTipReached()
      modifies this`calls, this`lastKnownTip
      ensures lastKnownTip == if tip(old(calls)).Some? then tip(old(calls)).value else old(lastKnownTip)
    {
      var latest := tip(calls);
      calls := calls + 1;
      if latest.Some? {
        lastKnownTip := latest.value;
      }
    }

    /** Extracts one ledger and commits it; when the source serves the chain and the registry
        caught up, the coverage ledger stays honest. */
    method CommitOne(m: Meta, watch: Watch, ghost chain: Chain, ghost log: seq<LedgerRecord>, ghost trusted: bool)
      requires Valid() && Persisted(store.cursor, store.hashes, log) && m.hash != "" && m.sequence < MAX_U32
      requires log != [] ==> m.sequence == Newest(log) + 1 && m.previousHash == log[|log| - 1].hash
      requires trusted ==> Inv(store.Model()) && m.ledger == chain(m.sequence) && SameHistory(store.history, chain, sac)
      requires trusted ==> CaughtUp(watch, store.rows, store.anchors, m.sequence)
      modifies store`cursor, store`hashes, store`records
      ensures Valid() && Persisted(store.cursor, store.hashes, log + [RecordOf(m)])
      ensures trusted ==> Inv(store.Model())
    {
      ghost var before, cursor, hashes := store.Model(), store.cursor, store.hashes;
      var res := ExtractLoop.Events(m.ledger, watch, sac);
      store.CommitLedger(RecordOf(m), AllRows(res.Value()));
      CommitExtendsChain(log, RecordOf(m), cursor, hashes, store.cursor, store.hashes);
      if trusted {
        LedgerServesRows(before, store.Model(), store.history, chain, sac, store.records, m.sequence, watch);
        LiveKeepsInv(before, store.Model(), m.sequence);
      }
    }
  }

  /** On every turn the registry has caught up with the rows whose anchor lies below the highest
      ledger that turn can ask for. A row still inside its registration margin need not be watched. */
  ghost predicate KeepsUp(watch: nat -> Watch, rows: BackfillTable, anchors: map<string, uint32>, first: nat) {
    forall turn: nat :: CaughtUp(watch(turn), rows, anchors, first + turn)
  }

  lemma KeptUpTo(watch: nat -> Watch, rows: BackfillTable, anchors: map<string, uint32>, first: nat, turn: nat, l: nat)
    requires KeepsUp(watch, rows, anchors, first) && l <= first + turn
    ensures CaughtUp(watch(turn), rows, anchors, l)
  {
    forall c
      ensures WatchedPast(watch(turn), rows, anchors, l, c)
    {
      assert WatchedPast(watch(turn), rows, anchors, first + turn, c);
    }
  }

  /** The first ledger a resumed loop asks for; with no cursor there is no row to catch up with yet. */
  function FirstAfter(cursor: Option<Cursor>): nat {
    if cursor.Some? then cursor.value.sequence + 1 else 0
  }

  function RecordOf(m: Meta): LedgerRecord
    requires m.sequence <= MAX_U32
  {
    LedgerRecord(m.sequence, m.hash, m.previousHash)
  }

  /** Storing a ledger for a snapshot that caught up derives it for every row past its anchor. */
  lemma LedgerServesRows(s: State, s': State, history: History, chain: Chain, sac: SacOf, records: set<Record>,
      l: uint32, watch: Watch)
    requires SameHistory(history, chain, sac) && CaughtUp(watch, s.rows, s.anchors, l) &&
      s'.derived == Backed(history, records)
    requires AllRows(OfLedger(chain(l), watch, sac)) <= records
    ensures LiveServes(s, s', l)
  {
    forall c, k | c in s.rows && c in s.anchors && s.anchors[c] < l && k in s.rows[c].coveredKinds
      ensures Fact(c, k, l) in s'.derived
    {
      assert WatchedPast(watch, s.rows, s.anchors, l, c);
      ExtractionIsLocal(chain(l), watch, sac, c, k);
      var f := Fact(c, k, l);
      assert history(f) == RowsOfFact(chain, sac, f);
    }
  }
}
