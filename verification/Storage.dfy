// The store of internal/store: the tables as mutable fields, each SQL transaction as
// one method. Every method is tied to its step of the coverage ledger.
module Storage {
  import opened Basics
  import opened Ranges
  import opened HealPlan
  import opened GapLedger
  import opened Coverage
  import Extract

  /** One stored row of any derived kind. */
  type Record = Extract.Row

  datatype Cursor = Cursor(sequence: uint32, hash: string)

  datatype LedgerRecord = LedgerRecord(sequence: uint32, hash: string, previousHash: string)

  /** One pending walk with the kinds its registration derives. */
  datatype Job = Job(contract: string, kinds: seq<string>, row: Backfill)

  /** One listed gap, as the healer carries it. */
  datatype ListedGap = ListedGap(range: Interval, row: GapRow)

  const HASH_RING_SIZE := 1000

  /** What the chain holds for every fact: the rows deriving it would store. */
  type History = Fact -> set<Record>

  /** A fact is derived once every row the chain holds for it is stored. */
  ghost function Backed(history: History, records: set<Record>): iset<Fact> {
    iset f: Fact | history(f) <= records
  }

  class Store {
    var gaps: GapTable
    var rows: BackfillTable
    var contracts: map<string, seq<string>>
    var cursor: Option<Cursor>
    var hashes: map<uint32, LedgerRecord>
    var records: set<Record>
    ghost var anchors: map<string, uint32>
    ghost const history: History

    ghost predicate Valid()
      reads this
    {
      Sound(gaps) && anchors.Keys == rows.Keys
    }

    /** The tables as a state of the coverage ledger. */
    ghost function Model(): State
      reads this
    {
      State(gaps, rows, match cursor case None => None case Some(c) => Some(c.sequence), anchors,
        Backed(history, records))
    }

    constructor (ghost history: History)
      ensures Valid() && this.history == history && records == {} && hashes == map[] && cursor == None
      ensures gaps == map[] && rows == map[] && contracts == map[] && anchors == map[]
      ensures Init(Model())
    {
      gaps, rows, contracts, cursor, hashes, records := map[], map[], map[], None, map[], {};
      anchors := map[];
      this.history := history;
    }

    // --- gaps: recording ------------------------------------------------------

    /** Persists an unserved range before it is skipped, minus what open gaps already promise. */
    method RecordGap(from: uint32, to: uint32, reason: string) returns (ok: bool)
      requires Valid() && 1 <= from
      modifies this`gaps
      ensures Valid()
      ensures ok <==> from <= to
      ensures ok ==> RecordGapStep(old(Model()), Model(), from, to, reason)
      ensures !ok ==> gaps == old(gaps)
    {
      if to < from {
        return false;
      }
      ghost var before := gaps;
      gaps := Rewound(gaps, from, to);
      var open := set g | g in gaps && Open(gaps, g) && Overlaps(g, from, to);
      var covered := Sorted(open, (g: Interval) => g.from);
      var holes := UncoveredRanges(from, to, covered);
      HolesAreTheUncovered(before, gaps, from, to, covered, holes);
      InsertHoles(holes, reason);
      FilledIsRecorded(before, gaps, from, to, reason, holes);
      return true;
    }

    /** A hole arrives as a fresh row; a resolved row of the same range reopens instead. */
    method InsertHoles(holes: seq<Interval>, reason: string)
      modifies this`gaps
      ensures IsFilled(old(gaps), gaps, holes, reason)
    {
      for i := 0 to |holes|
        invariant IsFilled(old(gaps), gaps, holes[..i], reason)
      {
        var h := holes[i];
        ghost var was := gaps;
        if h in gaps {
          if gaps[h].resolved {
            gaps := gaps[h := GapRow(reason, h.to, Replay, false)];
          }
        } else {
          gaps := gaps[h := GapRow(reason, h.to, Replay, false)];
        }
        FillOne(old(gaps), was, gaps, holes, i, reason);
      }
      assert holes[..|holes|] == holes;
    }

    // --- gaps: reopening and planning -----------------------------------------

    method ReopenGaps(from: uint32, to: uint32)
      requires Valid()
      modifies this`gaps
      ensures Valid() && gaps == Reopened(old(gaps), from, to)
    {
      ReopenKeepsPromises(gaps, from, to);
      gaps := Reopened(gaps, from, to);
    }

    /** Reconciles the open gaps against a replay plan, from the highest gap down. */
    method PlanHeal(requests: seq<Interval>, padding: uint32)
      requires Valid()
      requires forall i :: 0 <= i < |requests| ==> ValidRequest(requests[i])
      modifies this`gaps, this`rows
      ensures Valid()
      ensures PlanStep(old(Model()), Model(), ReplaySet(requests, padding))
    {
      ghost var before, replay := Model(), ReplaySet(requests, padding);
      var plan := NormalizePlan(requests, padding);
      var open := set g | g in gaps && !gaps[g].resolved;
      var listed := Sorted(open, (g: Interval) => MAX_U32 - g.to);
      ReconciledNothing(before, replay);
      ReconcileGaps(listed, plan, before, replay);
      TakenAll(listed);
      ReconciledIsPlanned(before, gaps, rows, Taken(listed, |listed|), replay);
    }

    method ReconcileGaps(listed: seq<Interval>, plan: seq<Interval>, ghost before: State, ghost replay: iset<int>)
      requires Sound(before.gaps) && Reconciled(before, gaps, rows, {}, replay)
      requires forall g :: g in listed ==> Open(before.gaps, g)
      requires forall i, j :: 0 <= i < j < |listed| ==> listed[i] != listed[j]
      requires Merged(plan) && LedgersOf(plan) == replay
      modifies this`gaps, this`rows
      ensures Reconciled(before, gaps, rows, Taken(listed, |listed|), replay)
    {
      assert Taken(listed, 0) == {};
      for i := 0 to |listed|
        invariant Reconciled(before, gaps, rows, Taken(listed, i), replay)
      {
        OneMoreTaken(listed, i);
        ReconcileGap(listed[i], plan, before, Taken(listed, i), replay);
      }
    }

    /** Leaves a gap whose remainder already is one piece in its own mode; splits any other. */
    method ReconcileGap(g: Interval, plan: seq<Interval>, ghost before: State, ghost done: set<Interval>,
        ghost replay: iset<int>)
      requires Sound(before.gaps) && Open(before.gaps, g) && g !in done
      requires Reconciled(before, gaps, rows, done, replay)
      requires Merged(plan) && LedgersOf(plan) == replay
      modifies this`gaps, this`rows
      ensures Reconciled(before, gaps, rows, done + {g}, replay)
    {
      ghost var midGaps, midRows := gaps, rows;
      NextToReconcile(before, gaps, rows, done, g, replay);
      var pieces := PiecesToSplit(g, plan, replay);
      if pieces.None? {
        SkipReconciles(before, gaps, rows, done, g, replay);
        return;
      }
      SplitGap(g, pieces.value, replay);
      SplitReconciles(before, midGaps, midRows, gaps, rows, done, g, replay);
    }

    /** The pieces of a gap's remainder, unless it is healed through or already one piece in its own mode. */
    method PiecesToSplit(g: Interval, plan: seq<Interval>, ghost replay: iset<int>) returns (pieces: Option<seq<Piece>>)
      requires Sound(gaps) && Open(gaps, g) && Merged(plan) && LedgersOf(plan) == replay
      ensures pieces.None? <==> !IsSplit(gaps, g, replay)
      ensures pieces.Some? ==> Tiles(pieces.value, g.from, gaps[g].healNextTo, replay)
    {
      if gaps[g].healNextTo < g.from {
        return None;
      }
      var cut := Partition(g.from, gaps[g].healNextTo, plan);
      OnePieceMeansAsPlanned(gaps, g, cut, replay);
      if |cut| == 1 && cut[0].mode == gaps[g].mode {
        return None;
      }
      return Some(cut);
    }

    /** Replaces one gap with its pieces and points its clamped rows at the topmost one. */
    method SplitGap(g: Interval, pieces: seq<Piece>, ghost replay: iset<int>)
      requires Sound(gaps) && IsSplit(gaps, g, replay)
      requires Tiles(pieces, g.from, gaps[g].healNextTo, replay)
      modifies this`gaps, this`rows
      ensures IsPlannedOver(old(gaps), gaps, {g}, replay)
      ensures rows == FollowingTop(old(rows), g.to + 1, old(gaps)[g].healNextTo + 1)
    {
      ghost var before := gaps;
      PiecesMeetOnlyResolvedRows(before, g, pieces, replay);
      var reason, top: int := gaps[g].reason, pieces[|pieces| - 1].range.to;
      gaps := gaps - {g};
      InsertPieces(pieces, reason);
      rows := FollowingTop(rows, g.to + 1, top + 1);
      SplitIsPlanned(before, gaps, g, pieces, replay);
    }

    /** A piece arrives as a fresh row; an open row of the same range only changes mode,
        and a resolved one stays as it is. */
    method InsertPieces(pieces: seq<Piece>, reason: string)
      modifies this`gaps
      requires forall i, j :: 0 <= i < j < |pieces| ==> pieces[i].range != pieces[j].range
      ensures HavePieces(old(gaps), gaps, pieces, reason)
    {
      for i := 0 to |pieces|
        invariant HavePieces(old(gaps), gaps, pieces[..i], reason)
      {
        var p := pieces[i];
        ghost var was := gaps;
        if p.range in gaps {
          if !gaps[p.range].resolved {
            gaps := gaps[p.range := gaps[p.range].(mode := p.mode)];
          }
        } else {
          gaps := gaps[p.range := GapRow(reason, p.range.to, p.mode, false)];
        }
        InsertOne(old(gaps), was, gaps, pieces, i, reason);
      }
      assert pieces[..|pieces|] == pieces;
    }

    // --- gaps: healing --------------------------------------------------------

    /** The gaps the healer owns, most recent history first; deferred ones stay declared but unlisted. */
    method ListOpenGaps() returns (out: seq<ListedGap>)
      ensures forall x :: x in out <==> Open(gaps, x.range) && x.row == gaps[x.range] && x.row.mode == Replay
      ensures forall i, j :: 0 <= i < j < |out| ==> out[j].range.to <= out[i].range.to
    {
      var owned := set g | g in gaps && !gaps[g].resolved && gaps[g].mode == Replay;
      var listed := Sorted(owned, (g: Interval) => MAX_U32 - g.to);
      out := [];
      for i := 0 to |listed|
        invariant |out| == i
        invariant forall k :: 0 <= k < i ==>
          out[k].range == listed[k] && listed[k] in gaps && out[k].row == gaps[listed[k]]
      {
        assert listed[i] in listed;
        out := out + [ListedGap(listed[i], gaps[listed[i]])];
      }
      forall x: ListedGap | Open(gaps, x.range) && x.row == gaps[x.range] && x.row.mode == Replay
        ensures x in out
      {
        assert x.range in listed;
        var k :| 0 <= k < |listed| && listed[k] == x.range;
        assert out[k] == x;
      }
      assert forall k :: 0 <= k < |out| ==> out[k].range in listed;
    }

    /** One healed chunk, atomically: its records, the moved watermark, the lowered
        frontiers of the rows clamped at the gap and, on resolution, their handoff. */
    method CommitHealChunk(g: Interval, newNextTo: uint32, resolved: bool, batch: set<Record>) returns (ok: bool)
      requires Valid() && newNextTo <= g.to && (resolved <==> newNextTo < g.from)
      modifies this`gaps, this`rows, this`records
      ensures Valid()
      ensures ok <==> old(Open(gaps, g))
      ensures ok ==> HealStep(old(Model()), Model(), g, newNextTo, resolved) && records == old(records) + batch
      ensures !ok ==> Model() == old(Model()) && records == old(records)
    {
      if !Open(gaps, g) {
        return false;
      }
      AdvancedStaysSound(gaps, g, newNextTo, resolved);
      records := records + batch;
      gaps := Advanced(gaps, g, newNextTo, resolved);
      MoveRows(g, newNextTo, resolved);
      return true;
    }

    /** Drags the rows clamped at the gap down to its new watermark, clears those whose target
        was passed and, on resolution, points each remaining one at the highest open gap
        below, closing the rows no open gap below reaches. */
    method MoveRows(g: Interval, newNextTo: uint32, resolved: bool)
      modifies this`rows
      ensures rows == HealedRows(old(rows), gaps, g, newNextTo, resolved)
    {
      var wall := g.to + 1;
      ghost var before := rows;
      rows := map c | c in rows :: LowerFrontier(rows[c], wall, newNextTo);
      rows := map c | c in rows :: ClearWhenPassed(rows[c], wall, newNextTo);
      ghost var settled := rows;
      assert Passed(before, settled, wall, newNextTo);
      if resolved {
        var highest := HighestOpenBelow(g.from);
        rows := map c | c in rows :: HandTo(rows[c], highest, wall, g.from);
        rows := map c | c in rows :: CloseWhenNothingBelow(rows[c], gaps, wall, g.from);
        HandedOff(before, settled, rows, gaps, g, newNextTo, highest);
      }
    }

    method HighestOpenBelow(floor: uint32) returns (highest: Option<Interval>)
      ensures IsHighest(gaps, floor, highest)
    {
      var below := set d | d in gaps && !gaps[d].resolved && d.to < floor;
      var listed := Sorted(below, (g: Interval) => MAX_U32 - g.to);
      if |listed| == 0 {
        assert forall d :: Open(gaps, d) && d.to < floor ==> d in listed;
        return None;
      }
      assert listed[0] in listed;
      forall h | Open(gaps, h) && h.to < floor
        ensures h.to <= listed[0].to
      {
        assert h in listed;
      }
      return Some(listed[0]);
    }

    // --- registrations and walks ----------------------------------------------

    method UpsertContract(c: string, kinds: seq<string>)
      modifies this`contracts
      ensures contracts == old(contracts)[c := kinds]
    {
      contracts := contracts[c := kinds];
    }

    method DeleteContract(c: string) returns (existed: bool)
      requires Valid()
      modifies this`contracts, this`rows, this`anchors
      ensures Valid() && DeleteStep(old(Model()), Model(), c)
      ensures contracts == old(contracts) - {c} && existed == (c in old(contracts))
    {
      rows := rows - {c};
      anchors := anchors - {c};
      existed := c in contracts;
      contracts := contracts - {c};
    }

    /** Reconciles a contract's target and covered kinds; anything it newly asks for
        hands the open gaps over that history back to the healer. */
    method EnsureBackfill(c: string, targetFrom: uint32, nextTo: uint32, kinds: seq<string>)
      requires Valid()
      modifies this`gaps, this`rows, this`anchors
      ensures Valid() && EnsureStep(old(Model()), Model(), c, targetFrom, nextTo, kinds)
    {
      if c !in rows {
        if targetFrom <= nextTo {
          ReopenGaps(targetFrom, nextTo);
        }
        rows := rows[c := Backfill(targetFrom, nextTo, nextTo < targetFrom, None, kinds)];
        anchors := anchors[c := nextTo];
        return;
      }
      var current := rows[c];
      var older := targetFrom < current.targetFrom;
      var newKinds := !CoversAll(current, kinds);
      var covered := IntersectKinds(current.coveredKinds, kinds);
      var narrowed := |covered| != |current.coveredKinds|;
      if !older && !newKinds && !narrowed {
        assert rows == rows[c := rows[c]];
        return;
      }
      var target := if older then targetFrom else current.targetFrom;
      var next := if newKinds then nextTo else current.nextTo;
      if !older && !newKinds {
        rows := rows[c := current.(coveredKinds := covered)];
        return;
      }
      if targetFrom <= nextTo {
        ReopenGaps(targetFrom, nextTo);
      }
      rows := rows[c := Backfill(target, next, false, None, kinds)];
      if newKinds {
        anchors := anchors[c := nextTo];
      }
    }

    /** Every unfinished walk with its registration. */
    method ListPendingBackfills() returns (jobs: seq<Job>)
      ensures forall j :: j in jobs <==>
        j.contract in rows && j.contract in contracts && !rows[j.contract].done &&
        j == Job(j.contract, contracts[j.contract], rows[j.contract])
      ensures forall i, j :: 0 <= i < j < |jobs| ==> jobs[i].contract != jobs[j].contract
    {
      jobs := [];
      var rest := set c | c in rows && c in contracts && !rows[c].done;
      ghost var pending := rest;
      while rest != {}
        invariant rest <= pending
        invariant forall j :: j in jobs <==>
          j.contract in pending - rest && j == Job(j.contract, contracts[j.contract], rows[j.contract])
        invariant forall i, j :: 0 <= i < j < |jobs| ==> jobs[i].contract != jobs[j].contract
        decreases rest
      {
        var c :| c in rest;
        assert forall i :: 0 <= i < |jobs| ==> jobs[i] in jobs;
        jobs := jobs + [Job(c, contracts[c], rows[c])];
        rest := rest - {c};
      }
    }

    /** One processed chunk, atomically: its records and the moved watermark. */
    method CommitBackfillChunk(c: string, next: Backfill, batch: set<Record>) returns (ok: bool)
      requires Valid()
      modifies this`rows, this`records
      ensures Valid()
      ensures ok <==> c in old(rows)
      ensures ok ==> ChunkStep(old(Model()), Model(), c, next) && records == old(records) + batch
      ensures !ok ==> rows == old(rows) && records == old(records)
    {
      if c !in rows {
        return false;
      }
      records := records + batch;
      rows := rows[c := rows[c].(nextTo := next.nextTo, done := next.done, clampedAt := next.clampedAt)];
      return true;
    }

    // --- live ingestion -------------------------------------------------------

    method LoadCursor() returns (c: Option<Cursor>)
      ensures c == cursor
    {
      c := cursor;
    }

    /** One ledger, atomically: its records, the cursor (which never moves back), and
        the bounded ring of chain hashes. */
    method CommitLedger(rec: LedgerRecord, batch: set<Record>)
      requires Valid()
      modifies this`cursor, this`hashes, this`records
      ensures Valid() && records == old(records) + batch
      ensures cursor == if old(cursor).Some? && rec.sequence <= old(cursor).value.sequence then old(cursor)
                        else Some(Cursor(rec.sequence, rec.hash))
      ensures forall q :: q in hashes <==> (q in old(hashes) || q == rec.sequence) && rec.sequence - HASH_RING_SIZE <= q
      ensures forall q :: q in hashes ==> hashes[q] == if q in old(hashes) then old(hashes)[q] else rec
      ensures (old(cursor).Some? ==> rec.sequence == old(cursor).value.sequence + 1) ==>
        LiveStep(old(Model()), Model(), rec.sequence)
    {
      records := records + batch;
      if cursor.None? || cursor.value.sequence < rec.sequence {
        cursor := Some(Cursor(rec.sequence, rec.hash));
      }
      if rec.sequence !in hashes {
        hashes := hashes[rec.sequence := rec];
      }
      hashes := map q | q in hashes && !(q < rec.sequence - HASH_RING_SIZE) :: hashes[q];
    }
  }

  ghost function Taken(listed: seq<Interval>, n: nat): set<Interval> {
    set i | 0 <= i < n && i < |listed| :: listed[i]
  }

  lemma TakenAll(listed: seq<Interval>)
    ensures forall g :: g in Taken(listed, |listed|) <==> g in listed
  {
  }

  lemma OneMoreTaken(listed: seq<Interval>, n: nat)
    requires n < |listed| && forall i, j :: 0 <= i < j < |listed| ==> listed[i] != listed[j]
    ensures listed[n] !in Taken(listed, n) && Taken(listed, n + 1) == Taken(listed, n) + {listed[n]}
  {
  }

  function HandTo(b: Backfill, highest: Option<Interval>, wall: nat, floor: int): Backfill {
    if b.clampedAt == Some(wall) && b.targetFrom < floor && highest.Some? && highest.value.to >= b.targetFrom
    then b.(clampedAt := Some(highest.value.to + 1)) else b
  }

  ghost predicate IsHighest(gaps: GapTable, floor: int, highest: Option<Interval>) {
    match highest
    case None => forall d :: Open(gaps, d) ==> d.to >= floor
    case Some(d) => IsHighestOpenBelow(gaps, floor, d)
  }

  ghost predicate Passed(before: BackfillTable, after: BackfillTable, wall: nat, newNextTo: uint32) {
    after == map c | c in before :: ClearWhenPassed(LowerFrontier(before[c], wall, newNextTo), wall, newNextTo)
  }

  lemma HandedOff(before: BackfillTable, settled: BackfillTable, after: BackfillTable, gaps: GapTable, g: Interval,
      newNextTo: uint32, highest: Option<Interval>)
    requires Passed(before, settled, g.to + 1, newNextTo) && IsHighest(gaps, g.from, highest)
    requires after.Keys == settled.Keys
    requires forall c :: c in settled ==>
      after[c] == CloseWhenNothingBelow(HandTo(settled[c], highest, g.to + 1, g.from), gaps, g.to + 1, g.from)
    ensures after == HealedRows(before, gaps, g, newNextTo, true)
  {
    HandToIsHandDown(gaps, highest, g.to + 1, g.from);
  }

  lemma HandToIsHandDown(gaps: GapTable, highest: Option<Interval>, wall: nat, floor: int)
    requires IsHighest(gaps, floor, highest)
    ensures forall b :: HandTo(b, highest, wall, floor) == HandDown(b, gaps, wall, floor)
  {
  }

  /** The covered kinds a registration still derives, in stored order. */
  method IntersectKinds(covered: seq<string>, kinds: seq<string>) returns (out: seq<string>)
    ensures out == Intersect(covered, kinds)
  {
    out := [];
    for i := 0 to |covered|
      invariant out == Intersect(covered[..i], kinds)
    {
      IntersectSnoc(covered[..i], covered[i], kinds);
      assert covered[..i + 1] == covered[..i] + [covered[i]];
      if covered[i] in kinds {
        out := out + [covered[i]];
      }
    }
    assert covered[..|covered|] == covered;
  }

  lemma {:induction false} IntersectSnoc(covered: seq<string>, k: string, kinds: seq<string>)
    ensures Intersect(covered + [k], kinds) == Intersect(covered, kinds) + (if k in kinds then [k] else [])
  {
    if covered != [] {
      assert (covered + [k])[1..] == covered[1..] + [k];
      IntersectSnoc(covered[1..], k, kinds);
    }
  }

  function ArrivedRow(before: GapTable, p: Piece, reason: string): GapRow {
    if p.range in before then before[p.range].(mode := p.mode) else GapRow(reason, p.range.to, p.mode, false)
  }

  lemma InsertOne(before: GapTable, was: GapTable, now: GapTable, pieces: seq<Piece>, i: nat, reason: string)
    requires i < |pieces| && HavePieces(before, was, pieces[..i], reason)
    requires forall k :: 0 <= k < i ==> pieces[k].range != pieces[i].range
    requires var p := pieces[i];
      now == if p.range !in was then was[p.range := GapRow(reason, p.range.to, p.mode, false)]
             else if was[p.range].resolved then was
             else was[p.range := was[p.range].(mode := p.mode)]
    ensures HavePieces(before, now, pieces[..i + 1], reason)
  {
    var more := pieces[..i + 1];
    assert more == pieces[..i] + [pieces[i]];
    assert !HasPiece(pieces[..i], pieces[i].range);
    forall r
      ensures PieceInserted(before, now, more, reason, r)
    {
      assert PieceInserted(before, was, pieces[..i], reason, r);
      assert HasPiece(more, r) <==> HasPiece(pieces[..i], r) || r == pieces[i].range;
    }
  }

  /** Insert with conflict handling: fresh ranges arrive, open ones change mode, others stay. */
  ghost predicate HavePieces(before: GapTable, after: GapTable, pieces: seq<Piece>, reason: string) {
    forall r :: PieceInserted(before, after, pieces, reason, r)
  }

  ghost predicate PieceInserted(before: GapTable, after: GapTable, pieces: seq<Piece>, reason: string, r: Interval) {
    if r in before && (before[r].resolved || !HasPiece(pieces, r)) then
      r in after && after[r] == before[r]
    else
      && (r in after <==> HasPiece(pieces, r))
      && (forall p :: p in pieces && p.range == r ==> r in after && after[r] == ArrivedRow(before, p, reason))
  }

  /** The tables after the gaps in `done` were reconciled with the plan. */
  ghost predicate Reconciled(before: State, gaps: GapTable, rows: BackfillTable, done: set<Interval>,
      replay: iset<int>)
  {
    && IsPlannedOver(before.gaps, gaps, done, replay)
    && rows == map c | c in before.rows :: Repointed(before.gaps, done, replay, before.rows[c])
  }

  ghost predicate HasPiece(pieces: seq<Piece>, r: Interval) {
    exists p :: p in pieces && p.range == r
  }

  function FollowingTop(rows: BackfillTable, wall: nat, newWall: nat): BackfillTable {
    map c | c in rows :: FollowTop(rows[c], wall, newWall)
  }

  function FollowTop(b: Backfill, wall: nat, newWall: nat): Backfill {
    if b.clampedAt == Some(wall) then b.(clampedAt := Some(newWall)) else b
  }

  // --- ordering and subtraction ----------------------------------------------

  /** ORDER BY: the elements of a set, ascending by key, each once. */
  method Sorted(s: set<Interval>, key: Interval -> int) returns (out: seq<Interval>)
    ensures forall g :: g in out <==> g in s
    ensures forall i, j :: 0 <= i < j < |out| ==> key(out[i]) <= key(out[j]) && out[i] != out[j]
  {
    out := [];
    var rest := s;
    while rest != {}
      invariant rest <= s
      invariant forall g :: g in out <==> g in s - rest
      invariant forall i, g :: 0 <= i < |out| && g in rest ==> key(out[i]) <= key(g)
      invariant forall i, j :: 0 <= i < j < |out| ==> key(out[i]) <= key(out[j]) && out[i] != out[j]
      decreases |rest|
    {
      var least := LeastExists(rest, key);
      var g :| g in rest && forall h :: h in rest ==> key(g) <= key(h);
      assert g !in out;
      out := out + [g];
      rest := rest - {g};
    }
  }

  lemma {:induction false} LeastExists(s: set<Interval>, key: Interval -> int) returns (least: Interval)
    requires s != {}
    ensures least in s && forall h :: h in s ==> key(least) <= key(h)
    decreases |s|
  {
    least :| least in s;
    if h :| h in s && key(h) < key(least) {
      var lower := set x | x in s && key(x) < key(least);
      assert h in lower && lower < s;
      LessElements(lower, s);
      least := LeastExists(lower, key);
    }
  }

  lemma LessElements(a: set<Interval>, b: set<Interval>)
    requires a < b
    ensures |a| < |b|
  {
    var x :| x in b && x !in a;
    assert a <= b - {x};
    SubsetNotLarger(a, b - {x});
  }

  lemma {:induction false} SubsetNotLarger(a: set<Interval>, b: set<Interval>)
    requires a <= b
    ensures |a| <= |b|
    decreases a
  {
    if a != {} {
      var x :| x in a;
      SubsetNotLarger(a - {x}, b - {x});
    }
  }

  /** The parts of [from .. to] no covering range claims, ascending. `covered` is sorted
      by its lower edge; its ranges may overlap, and inverted ones cover nothing. */
  method UncoveredRanges(from: uint32, to: uint32, covered: seq<Interval>) returns (out: seq<Interval>)
    requires SortedByFrom(covered)
    ensures Separated(out, from, to)
    ensures forall l :: from <= l <= to ==> (Within(out, l) <==> !Within(covered, l))
  {
    out := [];
    var cursor: int := from;
    for i := 0 to |covered|
      invariant Subtracted(out, cursor, covered, i, from, to)
    {
      if cursor > to {
        LaterRangesMissTheHoles(covered, out, i, from, to);
        return;
      }
      out, cursor := SubtractOne(out, cursor, covered, i, from, to);
    }
    assert covered[..|covered|] == covered;
    if cursor <= to {
      WithinSnoc(out, Interval(cursor, to));
      out := out + [Interval(cursor, to)];
    }
  }

  /** Below the cursor the holes are exactly what the first i ranges leave; none of those reaches past it. */
  ghost predicate Subtracted(out: seq<Interval>, cursor: int, covered: seq<Interval>, i: nat, from: int, to: int) {
    && i <= |covered| && from <= cursor
    && Separated(out, from, to)
    && (forall k :: 0 <= k < |out| ==> out[k].to + 1 < cursor)
    && (forall k, j :: 0 <= k < |out| && i <= j < |covered| ==> out[k].to < covered[j].from)
    && (forall l :: from <= l <= to && l < cursor ==> (Within(out, l) <==> !Within(covered[..i], l)))
    && (forall l :: cursor <= l <= to ==> !Within(covered[..i], l))
  }

  /** Takes one more covering range off: a hole up to its lower edge, the cursor past its upper one. */
  method SubtractOne(out: seq<Interval>, cursor: int, covered: seq<Interval>, i: nat, from: uint32, to: uint32)
      returns (holes: seq<Interval>, next: int)
    requires i < |covered| && SortedByFrom(covered) && Subtracted(out, cursor, covered, i, from, to) && cursor <= to
    ensures Subtracted(holes, next, covered, i + 1, from, to)
  {
    var c := covered[i];
    ghost var more := covered[..i + 1];
    assert more == covered[..i] + [c];
    WithinSnoc(covered[..i], c);
    holes, next := out, cursor;
    if c.to < c.from {
      return;
    }
    if c.from > cursor {
      var hole := Interval(cursor, Min(c.from - 1, to));
      WithinSnoc(out, hole);
      holes := out + [hole];
    }
    if c.to + 1 > cursor {
      next := c.to + 1;
    }
  }

  lemma LaterRangesMissTheHoles(covered: seq<Interval>, out: seq<Interval>, i: nat, from: int, to: int)
    requires i <= |covered|
    requires forall k, j :: 0 <= k < |out| && i <= j < |covered| ==> out[k].to < covered[j].from
    requires forall l :: from <= l <= to ==> (Within(out, l) <==> !Within(covered[..i], l))
    ensures forall l :: from <= l <= to ==> (Within(out, l) <==> !Within(covered, l))
  {
  }

  lemma HolesAreTheUncovered(before: GapTable, rewound: GapTable, from: uint32, to: uint32,
      covered: seq<Interval>, holes: seq<Interval>)
    requires rewound == Rewound(before, from, to)
    requires forall g :: g in covered <==> Open(rewound, g) && Overlaps(g, from, to)
    requires Separated(holes, from, to)
    requires forall l :: from <= l <= to ==> (Within(holes, l) <==> !Within(covered, l))
    ensures forall h :: h in holes <==> IsHole(before, from, to, h)
  {
    var p := Outside(OpenCover(before));
    forall l | from <= l <= to
      ensures Within(holes, l) <==> l in p
    {
      if g :| Open(before, g) && g.Has(l) {
        assert Open(rewound, g) && g in covered;
      } else if Within(covered, l) {
        var k :| 0 <= k < |covered| && covered[k].Has(l);
        assert covered[k] in covered && Open(before, covered[k]);
      }
    }
    SeparatedListsRuns(holes, p, from, to);
  }

  lemma FilledIsRecorded(before: GapTable, after: GapTable, from: uint32, to: uint32, reason: string,
      holes: seq<Interval>)
    requires Sound(before) && 1 <= from
    requires forall h :: h in holes <==> IsHole(before, from, to, h)
    requires IsFilled(Rewound(before, from, to), after, holes, reason)
    ensures IsRecorded(before, after, from, to, reason) && Sound(after)
  {
    forall g
      ensures RecordedRow(before, after, from, to, reason, g)
    {
      assert FilledRow(Rewound(before, from, to), after, holes, reason, g);
      if IsHole(before, from, to, g) && Open(before, g) {
        HoleIsNotOpen(before, from, to, g, g, g.from);
      }
    }
    RecordedIsSound(before, after, from, to, reason);
  }

  ghost predicate IsFilled(before: GapTable, after: GapTable, holes: seq<Interval>, reason: string) {
    forall g :: FilledRow(before, after, holes, reason, g)
  }

  ghost predicate FilledRow(before: GapTable, after: GapTable, holes: seq<Interval>, reason: string, g: Interval) {
    if g in holes && !Open(before, g) then g in after && after[g] == GapRow(reason, g.to, Replay, false)
    else if g in before then g in after && after[g] == before[g]
    else g !in after
  }

  lemma FillOne(before: GapTable, was: GapTable, now: GapTable, holes: seq<Interval>, i: nat, reason: string)
    requires i < |holes| && IsFilled(before, was, holes[..i], reason)
    requires now == if Open(was, holes[i]) then was else was[holes[i] := GapRow(reason, holes[i].to, Replay, false)]
    ensures IsFilled(before, now, holes[..i + 1], reason)
  {
    var more := holes[..i + 1];
    assert more == holes[..i] + [holes[i]];
    forall g
      ensures FilledRow(before, now, more, reason, g)
    {
      assert FilledRow(before, was, holes[..i], reason, g);
    }
  }

  // --- what planning gap by gap adds up to -----------------------------------

  lemma ReconciledNothing(before: State, replay: iset<int>)
    ensures Reconciled(before, before.gaps, before.rows, {}, replay)
  {
  }

  lemma NextToReconcile(before: State, gaps: GapTable, rows: BackfillTable, done: set<Interval>, g: Interval,
      replay: iset<int>)
    requires Sound(before.gaps) && Open(before.gaps, g) && g !in done
    requires Reconciled(before, gaps, rows, done, replay)
    ensures Sound(gaps) && g in gaps && gaps[g] == before.gaps[g]
  {
    assert PlannedRow(before.gaps, gaps, done, replay, g);
    PlannedIsSound(before.gaps, gaps, done, replay);
  }

  lemma SkipReconciles(before: State, gaps: GapTable, rows: BackfillTable, done: set<Interval>, g: Interval,
      replay: iset<int>)
    requires Sound(before.gaps) && Open(before.gaps, g) && g !in done && !IsSplit(before.gaps, g, replay)
    requires Reconciled(before, gaps, rows, done, replay)
    ensures Reconciled(before, gaps, rows, done + {g}, replay)
  {
    forall r
      ensures PlannedRow(before.gaps, gaps, done + {g}, replay, r)
    {
      assert PlannedRow(before.gaps, gaps, done, replay, r);
      assert forall h :: Arrives(before.gaps, h, r, done + {g}, replay) <==> Arrives(before.gaps, h, r, done, replay);
    }
    RepointOneMore(before.gaps, done, g, replay);
  }

  lemma SplitReconciles(before: State, midGaps: GapTable, midRows: BackfillTable, gaps: GapTable, rows: BackfillTable,
      done: set<Interval>, g: Interval, replay: iset<int>)
    requires Sound(before.gaps) && IsSplit(before.gaps, g, replay) && g !in done
    requires Reconciled(before, midGaps, midRows, done, replay)
    requires IsPlannedOver(midGaps, gaps, {g}, replay)
    requires rows == FollowingTop(midRows, g.to + 1, before.gaps[g].healNextTo + 1)
    ensures Reconciled(before, gaps, rows, done + {g}, replay)
  {
    PlanOneMore(before.gaps, midGaps, gaps, done, g, replay);
    RepointOneMore(before.gaps, done, g, replay);
  }

  lemma ReconciledIsPlanned(before: State, gaps: GapTable, rows: BackfillTable, done: set<Interval>, replay: iset<int>)
    requires Sound(before.gaps) && Reconciled(before, gaps, rows, done, replay)
    requires forall g :: g in done <==> Open(before.gaps, g)
    ensures PlanStep(before, before.(gaps := gaps, rows := rows), replay) && Sound(gaps) &&
      rows.Keys == before.rows.Keys
  {
    PlannedEveryOpenGap(before.gaps, gaps, done, replay);
    PlannedIsSound(before.gaps, gaps, done, replay);
    RepointedEveryOpenGap(before.gaps, done, replay);
  }

  lemma PlannedEveryOpenGap(before: GapTable, after: GapTable, done: set<Interval>, replay: iset<int>)
    requires IsPlannedOver(before, after, done, replay)
    requires forall g :: g in done <==> Open(before, g)
    ensures IsPlanned(before, after, replay)
  {
    forall r
      ensures PlannedRow(before, after, before.Keys, replay, r)
    {
      assert PlannedRow(before, after, done, replay, r);
      assert forall h :: Arrives(before, h, r, before.Keys, replay) <==> Arrives(before, h, r, done, replay);
    }
  }

  /** Pieces stay inside their gap, so no other open row has the range of one. */
  lemma PiecesMeetOnlyResolvedRows(gaps: GapTable, g: Interval, pieces: seq<Piece>, replay: iset<int>)
    requires Sound(gaps) && Open(gaps, g) && Tiles(pieces, g.from, gaps[g].healNextTo, replay)
    ensures forall p :: p in pieces ==> !Open(gaps - {g}, p.range)
    ensures forall i, j :: 0 <= i < j < |pieces| ==> pieces[i].range != pieces[j].range
    ensures forall p :: p in pieces ==> p.mode == ModeOf(replay, p.range.from)
  {
    TilesAreThePieces(pieces, g.from, gaps[g].healNextTo, replay);
    forall i, j | 0 <= i < j < |pieces|
      ensures pieces[i].range != pieces[j].range
    {
      TilesAscend(pieces, g.from, gaps[g].healNextTo, replay, i, j);
    }
    forall p | p in pieces
      ensures p.mode == ModeOf(replay, p.range.from) && !Open(gaps - {g}, p.range)
    {
      assert p.range.Has(p.range.from);
      if Open(gaps - {g}, p.range) {
        OneOwner(gaps, g, p.range, p.range.from);
      }
    }
  }

  lemma SplitIsPlanned(before: GapTable, after: GapTable, g: Interval, pieces: seq<Piece>, replay: iset<int>)
    requires Sound(before) && IsSplit(before, g, replay) && Tiles(pieces, g.from, before[g].healNextTo, replay)
    requires HavePieces(before - {g}, after, pieces, before[g].reason)
    ensures IsPlannedOver(before, after, {g}, replay)
  {
    TilesAreThePieces(pieces, g.from, before[g].healNextTo, replay);
    PiecesMeetOnlyResolvedRows(before, g, pieces, replay);
    forall r
      ensures PlannedRow(before, after, {g}, replay, r)
    {
      assert PieceInserted(before - {g}, after, pieces, before[g].reason, r);
      assert HasPiece(pieces, r) <==> Arrives(before, g, r, {g}, replay) by {
        assert Piece(r, ModeOf(replay, r.from)) in pieces <==> Arrives(before, g, r, {g}, replay);
      }
    }
  }

  /** Reconciling one more gap re-points exactly the rows clamped at its wall. */
  lemma RepointOneMore(gaps: GapTable, done: set<Interval>, g: Interval, replay: iset<int>)
    requires Sound(gaps) && Open(gaps, g) && g !in done
    ensures forall b :: Repointed(gaps, done + {g}, replay, b) == RepointedNext(gaps, done, g, replay, b)
  {
  }

  ghost function RepointedNext(gaps: GapTable, done: set<Interval>, g: Interval, replay: iset<int>,
      b: Backfill): Backfill
    requires g in gaps
  {
    var r := Repointed(gaps, done, replay, b);
    if IsSplit(gaps, g, replay) then FollowTop(r, g.to + 1, gaps[g].healNextTo + 1) else r
  }

  lemma RepointedEveryOpenGap(gaps: GapTable, done: set<Interval>, replay: iset<int>)
    requires Sound(gaps) && forall g :: g in done <==> Open(gaps, g)
    ensures forall b :: Repointed(gaps, done, replay, b) == Repointed(gaps, gaps.Keys, replay, b)
  {
  }
}
