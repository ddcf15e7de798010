// One round of the backfill worker (internal/ingest/backfill.go): pending walks grouped by
// the grid cell of their next chunk, cells taken from the highest down, and what a whole
// round may do to any walk.
module BackfillRound {
  import opened Basics
  import opened Coverage
  import opened Extract
  import opened Scan
  import opened Storage
  import opened Walk
  import opened BackfillWorker

  /** What the database refuses while one cell is processed: commits of the contracts in
      `outage`, gap records of the targets in `refused`. */
  datatype Faults = Faults(outage: set<string>, refused: set<uint32>)

  /** The walks by the floor of their next chunk, the highest watermark among them, and the floors met. */
  datatype Grouping = Grouping(groups: map<uint32, seq<Job>>, tops: map<uint32, uint32>, order: seq<uint32>)

  /** In one round a walk moves by at most one chunk: it closes empty, walks down to the
      floor of its chunk, or is clamped at a wall above that floor. */
  ghost predicate AtMostOneChunk(b: Backfill, after: Backfill) {
    || after == b
    || (!b.done && b.nextTo < b.targetFrom && after == b.(done := true))
    || (!b.done && 1 <= b.targetFrom <= b.nextTo && after == Walked(b, ChunkFrom(b)))
    || (!b.done && 1 <= b.targetFrom <= b.nextTo && ClampedAbove(b, after))
  }

  ghost predicate ClampedAbove(b: Backfill, after: Backfill)
    requires 1 <= b.targetFrom <= b.nextTo
  {
    exists wall: uint32 :: ChunkFrom(b) < wall && after == ClampedAtWall(b, wall)
  }

  ghost predicate RoundMoved(before: BackfillTable, after: BackfillTable) {
    && after.Keys == before.Keys
    && forall c :: c in before ==> RowMoved(before, after, c)
  }

  ghost predicate RowMoved(before: BackfillTable, after: BackfillTable, c: string)
    requires c in before && c in after
  {
    AtMostOneChunk(before[c], after[c])
  }

  /** Every pending walk belongs to a contract whose registration derives what the walk covers. */
  ghost predicate Registered(rows: BackfillTable, contracts: map<string, seq<string>>) {
    forall c :: c in rows && c in contracts && !rows[c].done ==> RegisteredOne(rows[c], c, contracts[c])
  }

  ghost predicate RegisteredOne(b: Backfill, c: string, kinds: seq<string>) {
    IsContractId(c) && forall k :: k in b.coveredKinds ==> k in kinds
  }

  /** A listed walk that still stands and has a chunk to do. */
  ghost predicate Ready(s: State, j: Job) {
    1 <= j.row.targetFrom <= j.row.nextTo && JobStands(s, j, ChunkFrom(j.row), j.row.nextTo)
  }

  /** The group of one cell: nobody twice, everybody aligned to its floor, one of them at its top. */
  ghost predicate GroupKept(s: State, g: Grouping, f: uint32)
    requires f in g.groups && f in g.tops
  {
    && IsGroup(s, g.groups[f], f, g.tops[f])
    && exists i :: 0 <= i < |g.groups[f]| && g.groups[f][i].row.nextTo == g.tops[f]
  }

  ghost predicate GroupingKept(s: State, g: Grouping, rest: set<uint32>) {
    && g.groups.Keys == g.tops.Keys
    && rest <= g.groups.Keys
    && forall f :: f in rest ==> GroupKept(s, g, f)
  }

  ghost predicate ListsKeys(g: Grouping) {
    && (forall f :: f in g.order <==> f in g.groups)
    && forall i, j :: 0 <= i < j < |g.order| ==> g.order[i] != g.order[j]
  }

  /** A group's scan never leaves its grid cell. */
  lemma GroupScansOneCell(s: State, g: Grouping, f: uint32)
    requires f in g.groups && f in g.tops && GroupKept(s, g, f)
    ensures f <= g.tops[f] < f + BACKFILL_CHUNK_SIZE
    ensures (f - 1) / BACKFILL_CHUNK_SIZE == (g.tops[f] - 1) / BACKFILL_CHUNK_SIZE
  {
  }

  /** Two cells never share a walk. */
  lemma GroupsShareNobody(s: State, g: Grouping, f: uint32, h: uint32, a: nat, b: nat)
    requires f in g.groups && f in g.tops && GroupKept(s, g, f) && h in g.groups && h in g.tops && GroupKept(s, g, h)
    requires f != h && a < |g.groups[f]| && b < |g.groups[h]|
    ensures g.groups[f][a].contract != g.groups[h][b].contract
  {
  }

  /** Puts one walk into the group of its cell. */
  method AddToGroup(g: Grouping, j: Job, ghost s: State) returns (r: Grouping)
    requires GroupingKept(s, g, g.groups.Keys) && ListsKeys(g) && Ready(s, j) && j.row.nextTo < MAX_U32
    requires forall f, i :: f in g.groups && 0 <= i < |g.groups[f]| ==> g.groups[f][i].contract != j.contract
    ensures GroupingKept(s, r, r.groups.Keys) && ListsKeys(r)
    ensures forall f, i :: f in r.groups && 0 <= i < |r.groups[f]| ==>
      r.groups[f][i] == j || (f in g.groups && r.groups[f][i] in g.groups[f])
    ensures IsGrouped(r, j) && forall x :: IsGrouped(g, x) ==> IsGrouped(r, x)
  {
    var from := ChunkFrom(j.row);
    if from in g.groups {
      r := Grouping(g.groups[from := g.groups[from] + [j]], g.tops[from := Max(g.tops[from], j.row.nextTo)], g.order);
      JoinGroup(s, g, r, j);
    } else {
      r := Grouping(g.groups[from := [j]], g.tops[from := j.row.nextTo], g.order + [from]);
      OpenGroup(s, g, r, j);
    }
    GrownKeepsMembers(g, r, from, j);
  }

  lemma OpenGroup(s: State, g: Grouping, r: Grouping, j: Job)
    requires GroupingKept(s, g, g.groups.Keys) && Ready(s, j) && j.row.nextTo < MAX_U32
    requires ChunkFrom(j.row) !in g.groups
    requires var from := ChunkFrom(j.row);
      r == Grouping(g.groups[from := [j]], g.tops[from := j.row.nextTo], g.order + [from])
    ensures GroupingKept(s, r, r.groups.Keys)
  {
    forall f | f in r.groups
      ensures GroupKept(s, r, f)
    {
      if f == ChunkFrom(j.row) {
        assert r.groups[f][0].row.nextTo == r.tops[f];
      } else {
        assert GroupKept(s, g, f);
      }
    }
  }

  ghost predicate IsGrouped(g: Grouping, j: Job) {
    exists f :: f in g.groups && j in g.groups[f]
  }

  lemma GrownKeepsMembers(g: Grouping, r: Grouping, from: uint32, j: Job)
    requires r.groups == g.groups[from := if from in g.groups then g.groups[from] + [j] else [j]]
    ensures IsGrouped(r, j) && forall x :: IsGrouped(g, x) ==> IsGrouped(r, x)
    ensures forall f, i :: f in r.groups && 0 <= i < |r.groups[f]| ==>
      r.groups[f][i] == j || (f in g.groups && r.groups[f][i] in g.groups[f])
  {
    assert j in r.groups[from];
    forall x | IsGrouped(g, x)
      ensures IsGrouped(r, x)
    {
      var f :| f in g.groups && x in g.groups[f];
      assert x in r.groups[f];
    }
  }

  lemma JoinGroup(s: State, g: Grouping, r: Grouping, j: Job)
    requires GroupingKept(s, g, g.groups.Keys) && Ready(s, j) && j.row.nextTo < MAX_U32
    requires ChunkFrom(j.row) in g.groups
    requires var from := ChunkFrom(j.row);
      r == Grouping(g.groups[from := g.groups[from] + [j]], g.tops[from := Max(g.tops[from], j.row.nextTo)], g.order)
    requires forall f, i :: f in g.groups && 0 <= i < |g.groups[f]| ==> g.groups[f][i].contract != j.contract
    ensures GroupingKept(s, r, r.groups.Keys)
  {
    var from := ChunkFrom(j.row);
    var was, now := g.groups[from], r.groups[from];
    assert GroupKept(s, g, from);
    forall i | 0 <= i < |now|
      ensures JobStands(s, now[i], from, r.tops[from])
    {
      if i < |was| {
        assert JobStands(s, was[i], from, g.tops[from]);
      }
    }
    var top :| 0 <= top < |was| && was[top].row.nextTo == g.tops[from];
    assert now[if g.tops[from] >= j.row.nextTo then top else |was|].row.nextTo == r.tops[from];
    forall f | f in r.groups
      ensures GroupKept(s, r, f)
    {
      if f != from {
        assert GroupKept(s, g, f);
      }
    }
  }

  /** sort.Slice over the floors: the same floors, highest first. */
  method HighestFirst(order: seq<uint32>) returns (out: seq<uint32>)
    requires forall i, j :: 0 <= i < j < |order| ==> order[i] != order[j]
    ensures forall f :: f in out <==> f in order
    ensures forall i, j :: 0 <= i < j < |out| ==> out[i] > out[j]
  {
    out := [];
    for n := 0 to |order|
      invariant forall f :: f in out <==> f in order[..n]
      invariant forall i, j :: 0 <= i < j < |out| ==> out[i] > out[j]
    {
      assert order[..n + 1] == order[..n] + [order[n]];
      assert order[n] !in order[..n];
      out := InsertDescending(out, order[n]);
    }
    assert order[..|order|] == order;
  }

  method InsertDescending(s: seq<uint32>, x: uint32) returns (out: seq<uint32>)
    requires (forall i, j :: 0 <= i < j < |s| ==> s[i] > s[j]) && x !in s
    ensures forall f :: f in out <==> f in s || f == x
    ensures forall i, j :: 0 <= i < j < |out| ==> out[i] > out[j]
  {
    var k := 0;
    while k < |s| && s[k] > x
      invariant k <= |s| && forall i :: 0 <= i < k ==> s[i] > x
    {
      k := k + 1;
    }
    InsertedAt(s, x, k);
    out := s[..k] + [x] + s[k..];
  }

  lemma InsertedAt(s: seq<uint32>, x: uint32, k: nat)
    requires k <= |s| && (forall i, j :: 0 <= i < j < |s| ==> s[i] > s[j])
    requires (forall i :: 0 <= i < k ==> s[i] > x) && forall i :: k <= i < |s| ==> s[i] < x
    ensures var out := s[..k] + [x] + s[k..];
      && (forall i, j :: 0 <= i < j < |out| ==> out[i] > out[j])
      && (forall f :: f in out <==> f in s || f == x)
  {
    var out := s[..k] + [x] + s[k..];
    assert forall i :: 0 <= i < |out| ==> out[i] == if i < k then s[i] else if i == k then x else s[i - 1];
    forall f | f in s
      ensures f in out
    {
      var i :| 0 <= i < |s| && s[i] == f;
      assert out[if i < k then i else i + 1] == f;
    }
  }

  /** The jobs as the store listed them. */
  ghost predicate Pending(rows: BackfillTable, jobs: seq<Job>) {
    && DistinctContracts(jobs)
    && forall i :: 0 <= i < |jobs| ==> PendingOne(rows, jobs[i])
  }

  ghost predicate PendingOne(rows: BackfillTable, j: Job) {
    j.contract in rows && rows[j.contract] == j.row && !j.row.done && RegisteredOne(j.row, j.contract, j.kinds)
  }

  /** A walk whose anchor sits below its target closes at birth. */
  method CloseEmpty(b: Backfiller, j: Job, refused: set<string>) returns (ok: bool)
    requires b.Valid() && Inv(b.store.Model()) && PendingOne(b.store.rows, j) && j.row.nextTo < j.row.targetFrom
    modifies b.store`rows, b.store`records
    ensures b.Valid() && Inv(b.store.Model()) && b.store.records == old(b.store.records)
    ensures ok <==> j.contract !in refused
    ensures b.store.rows == if ok then old(b.store.rows)[j.contract := j.row.(done := true)] else old(b.store.rows)
  {
    if j.contract in refused {
      return false;
    }
    ghost var before := b.store.Model();
    assert RowKept(before, j.contract);
    ok := b.store.CommitBackfillChunk(j.contract, j.row.(done := true), {});
    EmptyWalkKeepsInv(before, b.store.Model(), j.contract);
  }

  /** What grouping has done after n jobs: empty walks closed, the others grouped, all untouched otherwise. */
  ghost predicate GroupedSoFar(rows: BackfillTable, s: State, g: Grouping, jobs: seq<Job>, n: nat, worked: bool) {
    && n <= |jobs|
    && GroupingKept(s, g, g.groups.Keys) && ListsKeys(g)
    && RoundMoved(rows, s.rows)
    && (worked <==> s.rows != rows)
    && MembersKept(rows, s, g, jobs, n)
    && (forall i :: n <= i < |jobs| ==> Untouched(rows, s, jobs[i]))
  }

  /** Everybody grouped is one of the first n jobs and stands as listed. */
  ghost predicate MembersKept(rows: BackfillTable, s: State, g: Grouping, jobs: seq<Job>, n: nat)
    requires n <= |jobs|
  {
    forall f, i :: f in g.groups && 0 <= i < |g.groups[f]| ==> MemberKept(rows, s, g.groups[f][i], jobs, n)
  }

  ghost predicate MemberKept(rows: BackfillTable, s: State, j: Job, jobs: seq<Job>, n: nat)
    requires n <= |jobs|
  {
    Untouched(rows, s, j) && exists k :: 0 <= k < n && jobs[k] == j
  }

  ghost predicate Untouched(rows: BackfillTable, s: State, j: Job) {
    j.contract in rows && j.contract in s.rows && rows[j.contract] == j.row == s.rows[j.contract]
  }

  /** None of the first n jobs was passed over: each is grouped, or closed unless the database refused. */
  ghost predicate AllPlaced(rows: BackfillTable, now: BackfillTable, g: Grouping, jobs: seq<Job>, n: nat,
      refused: set<string>)
    requires n <= |jobs|
  {
    forall k :: 0 <= k < n ==> PlacedOne(rows, now, g, jobs[k], refused)
  }

  ghost predicate PlacedOne(rows: BackfillTable, now: BackfillTable, g: Grouping, j: Job, refused: set<string>) {
    IsGrouped(g, j) || ClosedEmpty(rows, now, j.contract) || j.contract in refused
  }

  ghost predicate ClosedEmpty(rows: BackfillTable, now: BackfillTable, c: string) {
    c in rows && c in now && rows[c].nextTo < rows[c].targetFrom && !rows[c].done && now[c] == rows[c].(done := true)
  }

  ghost predicate HasMoved(rows: BackfillTable, now: BackfillTable, c: string) {
    c in rows && c in now && now[c] != rows[c]
  }

  /** Rows that moved already stay where they are. */
  ghost predicate MovedStay(rows: BackfillTable, before: BackfillTable, after: BackfillTable) {
    forall c :: HasMoved(rows, before, c) ==> c in after && after[c] == before[c]
  }

  lemma PlacedOneMore(rows: BackfillTable, now: BackfillTable, now': BackfillTable, g: Grouping, g': Grouping,
      jobs: seq<Job>, n: nat, refused: set<string>)
    requires n < |jobs| && AllPlaced(rows, now, g, jobs, n, refused) && PlacedOne(rows, now', g', jobs[n], refused)
    requires forall x :: IsGrouped(g, x) ==> IsGrouped(g', x)
    requires MovedStay(rows, now, now')
    ensures AllPlaced(rows, now', g', jobs, n + 1, refused)
  {
    forall k | 0 <= k < n
      ensures PlacedOne(rows, now', g', jobs[k], refused)
    {
      assert PlacedOne(rows, now, g, jobs[k], refused);
    }
  }

  method GroupJobs(b: Backfiller, jobs: seq<Job>, refused: set<string>) returns (g: Grouping, worked: bool)
    requires b.Valid() && Inv(b.store.Model()) && Pending(b.store.rows, jobs)
    modifies b.store`rows, b.store`records
    ensures b.Valid() && Inv(b.store.Model())
    ensures GroupedSoFar(old(b.store.rows), b.store.Model(), g, jobs, |jobs|, worked)
    ensures AllPlaced(old(b.store.rows), b.store.rows, g, jobs, |jobs|, refused)
    ensures b.store.records == old(b.store.records)
  {
    g, worked := Grouping(map[], map[], []), false;
    ghost var rows := b.store.rows;
    for n := 0 to |jobs|
      invariant b.Valid() && Inv(b.store.Model())
      invariant GroupedSoFar(rows, b.store.Model(), g, jobs, n, worked)
      invariant AllPlaced(rows, b.store.rows, g, jobs, n, refused) && b.store.records == old(b.store.records)
    {
      NextJobStands(rows, b.store.Model(), g, jobs, n, worked);
      ghost var now, was := b.store.rows, g;
      if jobs[n].row.nextTo < jobs[n].row.targetFrom {
        worked := CloseStep(b, g, jobs, n, refused, worked, rows);
      } else {
        g := GroupStep(b.store.Model(), g, jobs, n, worked, rows);
      }
      PlacedOneMore(rows, now, b.store.rows, was, g, jobs, n, refused);
    }
  }

  method CloseStep(b: Backfiller, ghost g: Grouping, jobs: seq<Job>, n: nat, refused: set<string>, worked: bool,
      ghost rows: BackfillTable) returns (now: bool)
    requires b.Valid() && Inv(b.store.Model()) && n < |jobs| && PendingOne(b.store.rows, jobs[n]) && Pending(rows, jobs)
    requires GroupedSoFar(rows, b.store.Model(), g, jobs, n, worked) && jobs[n].row.nextTo < jobs[n].row.targetFrom
    modifies b.store`rows, b.store`records
    ensures b.Valid() && Inv(b.store.Model())
    ensures GroupedSoFar(rows, b.store.Model(), g, jobs, n + 1, now)
    ensures jobs[n].contract in refused || ClosedEmpty(rows, b.store.rows, jobs[n].contract)
    ensures MovedStay(rows, old(b.store.rows), b.store.rows) && b.store.records == old(b.store.records)
  {
    ghost var before := b.store.Model();
    now := worked;
    var ok := CloseEmpty(b, jobs[n], refused);
    if ok {
      ClosedOne(rows, before, b.store.Model(), g, jobs, n, worked);
      now := true;
    } else {
      LeftOne(rows, before, g, jobs, n, worked);
    }
  }

  method GroupStep(ghost s: State, g: Grouping, jobs: seq<Job>, n: nat, ghost worked: bool, ghost rows: BackfillTable)
      returns (r: Grouping)
    requires Inv(s) && n < |jobs| && Pending(rows, jobs) && GroupedSoFar(rows, s, g, jobs, n, worked)
    requires jobs[n].row.nextTo >= jobs[n].row.targetFrom
    ensures GroupedSoFar(rows, s, r, jobs, n + 1, worked)
    ensures IsGrouped(r, jobs[n]) && forall x :: IsGrouped(g, x) ==> IsGrouped(r, x)
  {
    NextJobStands(rows, s, g, jobs, n, worked);
    r := AddToGroup(g, jobs[n], s);
    GroupedOne(rows, s, g, r, jobs, n, worked);
  }

  lemma NextJobStands(rows: BackfillTable, s: State, g: Grouping, jobs: seq<Job>, n: nat, worked: bool)
    requires n < |jobs| && Pending(rows, jobs) && GroupedSoFar(rows, s, g, jobs, n, worked) && Inv(s)
    ensures PendingOne(s.rows, jobs[n])
    ensures jobs[n].row.nextTo >= jobs[n].row.targetFrom ==> Ready(s, jobs[n]) && jobs[n].row.nextTo < MAX_U32
    ensures GroupingKept(s, g, g.groups.Keys) && ListsKeys(g)
    ensures forall f, i :: f in g.groups && 0 <= i < |g.groups[f]| ==> g.groups[f][i].contract != jobs[n].contract
  {
    assert PendingOne(rows, jobs[n]) && Untouched(rows, s, jobs[n]);
    assert RowKept(s, jobs[n].contract);
    NotGroupedYet(rows, s, g, jobs, n);
  }

  lemma NotGroupedYet(rows: BackfillTable, s: State, g: Grouping, jobs: seq<Job>, n: nat)
    requires n < |jobs| && MembersKept(rows, s, g, jobs, n) && DistinctContracts(jobs)
    ensures forall f, i :: f in g.groups && 0 <= i < |g.groups[f]| ==> g.groups[f][i].contract != jobs[n].contract
  {
  }

  lemma GroupedOne(rows: BackfillTable, s: State, was: Grouping, g: Grouping, jobs: seq<Job>, n: nat, worked: bool)
    requires n < |jobs| && GroupedSoFar(rows, s, was, jobs, n, worked)
    requires GroupingKept(s, g, g.groups.Keys) && ListsKeys(g)
    requires forall f, i :: f in g.groups && 0 <= i < |g.groups[f]| ==>
      g.groups[f][i] == jobs[n] || (f in was.groups && g.groups[f][i] in was.groups[f])
    ensures GroupedSoFar(rows, s, g, jobs, n + 1, worked)
  {
    assert Untouched(rows, s, jobs[n]);
    forall f, i | f in g.groups && 0 <= i < |g.groups[f]|
      ensures MemberKept(rows, s, g.groups[f][i], jobs, n + 1)
    {
      if g.groups[f][i] != jobs[n] {
        var k :| 0 <= k < |was.groups[f]| && was.groups[f][k] == g.groups[f][i];
        assert MemberKept(rows, s, was.groups[f][k], jobs, n);
      }
    }
  }

  lemma LeftOne(rows: BackfillTable, s: State, g: Grouping, jobs: seq<Job>, n: nat, worked: bool)
    requires n < |jobs| && GroupedSoFar(rows, s, g, jobs, n, worked)
    ensures GroupedSoFar(rows, s, g, jobs, n + 1, worked)
  {
  }

  ghost predicate SameRow(s: State, s': State, c: string) {
    c in s.rows ==> c in s'.rows && s'.rows[c] == s.rows[c]
  }

  lemma ClosedOne(rows: BackfillTable, s: State, s': State, g: Grouping, jobs: seq<Job>, n: nat, worked: bool)
    requires n < |jobs| && Pending(rows, jobs) && GroupedSoFar(rows, s, g, jobs, n, worked)
    requires jobs[n].row.nextTo < jobs[n].row.targetFrom
    requires s'.rows == s.rows[jobs[n].contract := jobs[n].row.(done := true)]
    ensures GroupedSoFar(rows, s', g, jobs, n + 1, true)
    ensures ClosedEmpty(rows, s'.rows, jobs[n].contract) && MovedStay(rows, s.rows, s'.rows)
  {
    assert PendingOne(rows, jobs[n]) && Untouched(rows, s, jobs[n]);
    ClosedOneStands(rows, s, s', g, jobs, n);
    ClosedOneMoved(rows, s.rows, s'.rows, jobs[n]);
  }

  lemma ClosedOneStands(rows: BackfillTable, s: State, s': State, g: Grouping, jobs: seq<Job>, n: nat)
    requires n < |jobs| && GroupingKept(s, g, g.groups.Keys) && MembersKept(rows, s, g, jobs, n) &&
      DistinctContracts(jobs)
    requires s'.rows == s.rows[jobs[n].contract := jobs[n].row.(done := true)]
    ensures GroupingKept(s', g, g.groups.Keys) && MembersKept(rows, s', g, jobs, n + 1)
  {
  }

  lemma ClosedOneMoved(rows: BackfillTable, before: BackfillTable, after: BackfillTable, j: Job)
    requires RoundMoved(rows, before) && j.contract in rows && rows[j.contract] == j.row
    requires j.row.nextTo < j.row.targetFrom && !j.row.done && after == before[j.contract := j.row.(done := true)]
    ensures RoundMoved(rows, after) && after != rows
  {
  }

  // --- cell by cell -----------------------------------------------------------

  /** Where the round stands while the cells in `rest` are still to be processed. */
  ghost predicate RoundSoFar(rows: BackfillTable, grouped: State, s: State, g: Grouping, rest: set<uint32>,
      worked: bool)
  {
    && GroupingKept(grouped, g, g.groups.Keys)
    && rest <= g.groups.Keys
    && (forall f :: f in rest ==> CellReady(rows, s, g, f))
    && RoundMoved(rows, s.rows)
    && (worked <==> s.rows != rows)
  }

  /** A cell nobody has touched: its group stands, every member as it was listed. */
  ghost predicate CellReady(rows: BackfillTable, s: State, g: Grouping, f: uint32)
    requires f in g.groups && f in g.tops
  {
    GroupKept(s, g, f) && forall i :: 0 <= i < |g.groups[f]| ==> Untouched(rows, s, g.groups[f][i])
  }

  ghost predicate AreMembers(jobs: seq<Job>, committed: set<string>) {
    forall c :: c in committed ==> exists i :: 0 <= i < |jobs| && jobs[i].contract == c
  }

  /** One cell processed: its committed members moved one chunk, nobody else moved. */
  lemma ProcessedOne(rows: BackfillTable, grouped: State, s: State, s': State, g: Grouping, rest: set<uint32>,
      worked: bool, f: uint32, committed: set<string>, wall: Option<uint32>)
    requires RoundSoFar(rows, grouped, s, g, rest, worked) && f in rest && 1 <= f
    requires wall.Some? ==> f < wall.value
    requires MovedRows(s.rows, s'.rows, committed, f, wall) && AreMembers(g.groups[f], committed)
    ensures RoundSoFar(rows, grouped, s', g, rest - {f}, worked || committed != {})
    ensures MovedStay(rows, s.rows, s'.rows) && forall c :: c in committed ==> HasMoved(rows, s'.rows, c)
  {
    assert CellReady(rows, s, g, f);
    forall h | h in rest - {f}
      ensures CellReady(rows, s', g, h)
    {
      assert CellReady(rows, s, g, h);
      OthersStand(grouped, s, s', g, f, h, committed, wall);
      assert forall i :: 0 <= i < |g.groups[h]| ==>
        Untouched(rows, s, g.groups[h][i]) && SameRow(s, s', g.groups[h][i].contract);
    }
    MembersMoved(rows, s, s', g, f, committed, wall);
    StillMoved(rows, s.rows, s'.rows, committed, worked);
  }

  lemma MembersMoved(rows: BackfillTable, s: State, s': State, g: Grouping, f: uint32, committed: set<string>,
      wall: Option<uint32>)
    requires f in g.groups && f in g.tops && 1 <= f && GroupKept(s, g, f) && (wall.Some? ==> f < wall.value)
    requires forall i :: 0 <= i < |g.groups[f]| ==> Untouched(rows, s, g.groups[f][i])
    requires MovedRows(s.rows, s'.rows, committed, f, wall) && AreMembers(g.groups[f], committed)
    ensures forall c :: c in committed ==>
      c in rows && s.rows[c] == rows[c] && AtMostOneChunk(rows[c], s'.rows[c]) && s'.rows[c] != rows[c]
  {
  }

  lemma StillMoved(rows: BackfillTable, before: BackfillTable, after: BackfillTable, committed: set<string>,
      worked: bool)
    requires RoundMoved(rows, before) && (worked <==> before != rows)
    requires after.Keys == before.Keys && committed <= before.Keys
    requires forall c :: c in before && c !in committed ==> after[c] == before[c]
    requires forall c :: c in committed ==>
      c in rows && before[c] == rows[c] && AtMostOneChunk(rows[c], after[c]) && after[c] != rows[c]
    ensures RoundMoved(rows, after) && (worked || committed != {} <==> after != rows)
  {
  }

  lemma OthersStand(grouped: State, s: State, s': State, g: Grouping, f: uint32, h: uint32, committed: set<string>,
      wall: Option<uint32>)
    requires GroupingKept(grouped, g, g.groups.Keys) && f in g.groups && h in g.groups && f != h && 1 <= f
    requires wall.Some? ==> f < wall.value
    requires GroupKept(s, g, h) && MovedRows(s.rows, s'.rows, committed, f, wall) && AreMembers(g.groups[f], committed)
    ensures GroupKept(s', g, h)
    ensures forall i :: 0 <= i < |g.groups[h]| ==> SameRow(s, s', g.groups[h][i].contract)
  {
  }

  /** A processed member moved, and to the floor of its cell where everything was served. */
  ghost predicate MemberDone(rows: BackfillTable, now: BackfillTable, c: string, f: uint32, oldest: int) {
    HasMoved(rows, now, c) && (oldest <= f && 1 <= f ==> now[c] == Walked(rows[c], f))
  }

  /** Every member of a processed cell is done for this round. */
  ghost predicate CellsMoved(rows: BackfillTable, now: BackfillTable, g: Grouping, rest: set<uint32>, oldest: int) {
    forall f, i :: f in g.groups && f !in rest && 0 <= i < |g.groups[f]| ==>
      MemberDone(rows, now, g.groups[f][i].contract, f, oldest)
  }

  lemma OneMoreCellMoved(rows: BackfillTable, s: State, s': State, g: Grouping, rest: set<uint32>, f: uint32,
      wall: Option<uint32>, oldest: int)
    requires CellsMoved(rows, s.rows, g, rest, oldest) && MovedStay(rows, s.rows, s'.rows)
    requires f in g.groups && f in g.tops && 1 <= f && CellReady(rows, s, g, f) && (wall.Some? ==> f < wall.value)
    requires var all := Advancing(g.groups[f], |g.groups[f]|, {});
      MovedRows(s.rows, s'.rows, all, f, wall) && forall c :: c in all ==> HasMoved(rows, s'.rows, c)
    requires oldest <= f ==> wall.None?
    ensures CellsMoved(rows, s'.rows, g, rest - {f}, oldest)
  {
    forall h, i | h in g.groups && h !in rest - {f} && 0 <= i < |g.groups[h]|
      ensures MemberDone(rows, s'.rows, g.groups[h][i].contract, h, oldest)
    {
      if h == f {
        assert g.groups[h][i].contract in Advancing(g.groups[f], |g.groups[f]|, {});
        assert Untouched(rows, s, g.groups[f][i]);
      } else {
        assert MemberDone(rows, s.rows, g.groups[h][i].contract, h, oldest);
      }
    }
  }

  // --- what a round stores ------------------------------------------------------

  /** Where the scan of a moved walk's chunk began: at its floor, or at the wall that cut it. */
  ghost function FloorOf(b: Backfill, after: Backfill): nat
    requires 1 <= b.targetFrom <= b.nextTo
  {
    if after.clampedAt.Some? then after.clampedAt.value else ChunkFrom(b)
  }

  /** c moved by a chunk scanned up to `top`, which lies in the chunk's own cell. */
  ghost predicate ScannedTo(rows: BackfillTable, now: BackfillTable, c: string, top: uint32) {
    && HasMoved(rows, now, c)
    && 1 <= rows[c].targetFrom <= rows[c].nextTo <= top < ChunkFrom(rows[c]) + BACKFILL_CHUNK_SIZE
  }

  /** r is a row of the private scan of one moved walk's chunk. */
  ghost predicate RowOfAChunk(chain: Chain, sac: SacOf, rows: BackfillTable, now: BackfillTable,
      contracts: map<string, seq<string>>, r: Row)
  {
    exists c, top :: ScannedTo(rows, now, c, top) && RowOfChunk(chain, sac, rows, now, contracts, c, top, r)
  }

  ghost predicate RowOfChunk(chain: Chain, sac: SacOf, rows: BackfillTable, now: BackfillTable,
      contracts: map<string, seq<string>>, c: string, top: uint32, r: Row)
    requires ScannedTo(rows, now, c, top)
  {
    c in contracts && r in PrivateRows(chain, sac, FloorOf(rows[c], now[c]), top, c, contracts[c])
  }

  /** The round stored nothing but rows of private scans of the chunks it moved walks by. */
  ghost predicate StoresOnlyChunks(chain: Chain, sac: SacOf, rows: BackfillTable, now: BackfillTable,
      contracts: map<string, seq<string>>, before: set<Row>, after: set<Row>)
  {
    before <= after && forall r :: r in after && r !in before ==> RowOfAChunk(chain, sac, rows, now, contracts, r)
  }

  /** Every grouped registration is what the registry holds. */
  ghost predicate KindsKnown(g: Grouping, contracts: map<string, seq<string>>) {
    forall f, i :: f in g.groups && 0 <= i < |g.groups[f]| ==>
      g.groups[f][i].contract in contracts && contracts[g.groups[f][i].contract] == g.groups[f][i].kinds
  }

  lemma MovedChunksStay(chain: Chain, sac: SacOf, rows: BackfillTable, now: BackfillTable, now': BackfillTable,
      contracts: map<string, seq<string>>, before: set<Row>, after: set<Row>)
    requires StoresOnlyChunks(chain, sac, rows, now, contracts, before, after) && MovedStay(rows, now, now')
    ensures StoresOnlyChunks(chain, sac, rows, now', contracts, before, after)
  {
    forall r | r in after && r !in before
      ensures RowOfAChunk(chain, sac, rows, now', contracts, r)
    {
      var c, top :| ScannedTo(rows, now, c, top) && RowOfChunk(chain, sac, rows, now, contracts, c, top, r);
      assert ScannedTo(rows, now', c, top) && RowOfChunk(chain, sac, rows, now', contracts, c, top, r);
    }
  }

  /** One cell's rows are rows of its committed members' chunks. */
  lemma CellStoresChunks(chain: Chain, sac: SacOf, rows: BackfillTable, s: State, s': State, g: Grouping, f: uint32,
      contracts: map<string, seq<string>>, outage: set<string>, wall: Option<uint32>, committed: set<string>, r: Row)
    requires f in g.groups && f in g.tops && 1 <= f && CellReady(rows, s, g, f) && KindsKnown(g, contracts)
    requires wall.Some? ==> f < wall.value
    requires MovedRows(s.rows, s'.rows, committed, f, wall) && forall c :: c in committed ==> HasMoved(rows, s'.rows, c)
    requires r in GroupRows(Group(chain, sac, g.groups[f], f, g.tops[f], wall, outage), committed)
    ensures RowOfAChunk(chain, sac, rows, s'.rows, contracts, r)
  {
    var j :| j in g.groups[f] && j.contract in committed &&
      r in PrivateRows(chain, sac, ScannedFrom(f, wall), g.tops[f], j.contract, j.kinds);
    var i :| 0 <= i < |g.groups[f]| && g.groups[f][i] == j;
    assert Untouched(rows, s, g.groups[f][i]) && JobStands(s, g.groups[f][i], f, g.tops[f]);
    GroupScansOneCell(s, g, f);
    assert ScannedTo(rows, s'.rows, j.contract, g.tops[f]);
    assert RowOfChunk(chain, sac, rows, s'.rows, contracts, j.contract, g.tops[f], r);
  }

  /** The walks one cell above, which ask for this exact range next. */
  function Ahead(g: Grouping, from: uint32): seq<Job> {
    var above := Wrap32(from + BACKFILL_CHUNK_SIZE);
    if above in g.groups then g.groups[above] else []
  }

  /** A grouped walk that asks for this grid cell next round is among those extracted for now. */
  lemma WhoComesNextIsAhead(s: State, g: Grouping, from: uint32, j: Job)
    requires GroupingKept(s, g, g.groups.Keys) && IsGrouped(g, j)
    requires 1 <= j.row.targetFrom <= j.row.nextTo && !NextRow(j.row).done
    requires ChunkFrom(NextRow(j.row)) == from && (from - 1) % BACKFILL_CHUNK_SIZE == 0
    ensures j in Ahead(g, from)
  {
    var f :| f in g.groups && j in g.groups[f];
    StandsInItsCell(s, g, f, j);
    NextChunkIsOneCellDown(j.row);
  }

  lemma StandsInItsCell(s: State, g: Grouping, f: uint32, j: Job)
    requires GroupingKept(s, g, g.groups.Keys) && f in g.groups && j in g.groups[f]
    ensures 1 <= j.row.targetFrom <= j.row.nextTo && f == ChunkFrom(j.row)
  {
    assert GroupKept(s, g, f);
    var i :| 0 <= i < |g.groups[f]| && g.groups[f][i] == j;
    assert JobStands(s, g.groups[f][i], f, g.tops[f]);
  }

  lemma AheadIsApart(grouped: State, g: Grouping, from: uint32)
    requires GroupingKept(grouped, g, g.groups.Keys) && from in g.groups
    ensures DistinctContracts(g.groups[from] + Ahead(g, from))
  {
  }

  /** What the world does to one round: whether the walks can be listed, what the database refuses, and
      how long the worker stays alive between cells. */
  datatype Weather = Weather(listed: bool, refusedCloses: set<string>, faults: uint32 -> Faults, alive: nat -> bool)

  ghost predicate Fair(w: Weather) {
    w.listed && w.refusedCloses == {} && (forall f :: w.faults(f) == Faults({}, {})) && forall i :: w.alive(i)
  }

  /** The source serves everything from `oldest` on, and nothing else fails. */
  ghost predicate NothingFails(src: Source, oldest: int, meta: nat -> Meta, w: Weather) {
    Answers(src, oldest, meta) && Fair(w)
  }

  /** The round as it stands for its values: cells to go, rows moved so far, records stored so far. */
  ghost predicate RoundStands(b: Backfiller, r: RoundStart, g: Grouping, rest: set<uint32>, worked: bool)
    reads b, b.store
  {
    && b.Valid() && Inv(b.store.Model()) && KindsKnown(g, r.contracts)
    && RoundSoFar(r.rows, r.grouped, b.store.Model(), g, rest, worked)
    && StoresOnlyChunks(b.chain, b.sac, r.rows, b.store.rows, r.contracts, r.records, b.store.records)
    && MovedStay(r.rows, r.grouped.rows, b.store.rows)
  }

  /** What a round started from. */
  datatype RoundStart = RoundStart(rows: BackfillTable, grouped: State, contracts: map<string, seq<string>>,
      records: set<Row>)

  method ProcessCell(b: Backfiller, g: Grouping, from: uint32, faults: Faults, worked: bool, ghost rest: set<uint32>,
      ghost start: RoundStart, ghost oldest: int, ghost meta: nat -> Meta, ghost smooth: bool) returns (now: bool)
    requires RoundStands(b, start, g, rest, worked) && from in rest
    requires smooth ==> Answers(b.src, oldest, meta) && faults == Faults({}, {})
    requires smooth ==> CellsMoved(start.rows, b.store.rows, g, rest, oldest)
    modifies b, b.store`gaps, b.store`rows, b.store`records
    ensures RoundStands(b, start, g, rest - {from}, now)
    ensures smooth ==> CellsMoved(start.rows, b.store.rows, g, rest - {from}, oldest)
  {
    ghost var before, stored := b.store.Model(), b.store.records;
    assert CellReady(start.rows, before, g, from);
    AheadIsApart(start.grouped, g, from);
    var moved, committed, wall :=
      b.ProcessGroup(from, g.tops[from], g.groups[from], Ahead(g, from), faults.outage, faults.refused, oldest, meta);
    ProcessedOne(start.rows, start.grouped, before, b.store.Model(), g, rest, worked, from, committed, wall);
    CellStored(b.chain, b.sac, start, before, b.store.Model(), g, from, faults.outage, wall, committed, stored,
      b.store.records);
    if smooth {
      OneMoreCellMoved(start.rows, before, b.store.Model(), g, rest, from, wall, oldest);
    }
    return worked || moved;
  }

  lemma CellStored(chain: Chain, sac: SacOf, start: RoundStart, s: State, s': State, g: Grouping, f: uint32,
      outage: set<string>, wall: Option<uint32>, committed: set<string>, before: set<Row>, after: set<Row>)
    requires f in g.groups && f in g.tops && 1 <= f && CellReady(start.rows, s, g, f) && KindsKnown(g, start.contracts)
    requires wall.Some? ==> f < wall.value
    requires MovedRows(s.rows, s'.rows, committed, f, wall) && MovedStay(start.rows, s.rows, s'.rows)
    requires forall c :: c in committed ==> HasMoved(start.rows, s'.rows, c)
    requires StoresOnlyChunks(chain, sac, start.rows, s.rows, start.contracts, start.records, before)
    requires after == before + GroupRows(Group(chain, sac, g.groups[f], f, g.tops[f], wall, outage), committed)
    ensures StoresOnlyChunks(chain, sac, start.rows, s'.rows, start.contracts, start.records, after)
  {
    MovedChunksStay(chain, sac, start.rows, s.rows, s'.rows, start.contracts, start.records, before);
    forall r | r in after && r !in start.records
      ensures RowOfAChunk(chain, sac, start.rows, s'.rows, start.contracts, r)
    {
      if r !in before {
        CellStoresChunks(chain, sac, start.rows, s, s', g, f, start.contracts, outage, wall, committed, r);
      }
    }
  }

  /** Processes the cells one after another while the worker stays alive. */
  method ProcessCells(b: Backfiller, g: Grouping, order: seq<uint32>, w: Weather, worked: bool,
      ghost start: RoundStart, ghost oldest: int, ghost meta: nat -> Meta, ghost smooth: bool)
      returns (now: bool, ghost rest: set<uint32>)
    requires RoundStands(b, start, g, g.groups.Keys, worked)
    requires (forall f :: f in order <==> f in g.groups) && forall i, j :: 0 <= i < j < |order| ==> order[i] > order[j]
    requires smooth ==> NothingFails(b.src, oldest, meta, w)
    modifies b, b.store`gaps, b.store`rows, b.store`records
    ensures RoundStands(b, start, g, rest, now)
    ensures smooth ==> rest == {} && CellsMoved(start.rows, b.store.rows, g, {}, oldest)
  {
    now, rest := worked, g.groups.Keys;
    assert Remaining(order, 0) == g.groups.Keys;
    for i := 0 to |order|
      invariant rest == Remaining(order, i) && RoundStands(b, start, g, rest, now)
      invariant smooth ==> CellsMoved(start.rows, b.store.rows, g, rest, oldest)
    {
      if !w.alive(i) {
        return;
      }
      OneFewer(order, i);
      now := ProcessCell(b, g, order[i], w.faults(order[i]), now, rest, start, oldest, meta, smooth);
      rest := rest - {order[i]};
    }
  }

  /** One round: every pending walk moves by at most one chunk, no other row moves, nothing is stored but
      the private scans of the chunks moved by, and the round reports work exactly when some row moved.
      When nothing fails every pending walk moves, down to the floor of its chunk where it is served. */
  method Round(b: Backfiller, w: Weather, ghost oldest: int, ghost meta: nat -> Meta) returns (worked: bool)
    requires b.Valid() && Inv(b.store.Model()) && Registered(b.store.rows, b.store.contracts)
    modifies b, b.store`gaps, b.store`rows, b.store`records
    ensures b.Valid() && Inv(b.store.Model())
    ensures RoundMoved(old(b.store.rows), b.store.rows)
    ensures worked <==> b.store.rows != old(b.store.rows)
    ensures StoresOnlyChunks(b.chain, b.sac, old(b.store.rows), b.store.rows, b.store.contracts, old(b.store.records),
      b.store.records)
    ensures NothingFails(b.src, oldest, meta, w) ==>
      AllAdvanced(old(b.store.rows), b.store.rows, b.store.contracts, oldest)
  {
    if !w.listed {
      return false;
    }
    var jobs := b.store.ListPendingBackfills();
    ListedArePending(b.store.rows, b.store.contracts, jobs);
    worked := RoundOver(b, jobs, w, oldest, meta);
  }

  method RoundOver(b: Backfiller, jobs: seq<Job>, w: Weather, ghost oldest: int, ghost meta: nat -> Meta)
      returns (worked: bool)
    requires b.Valid() && Inv(b.store.Model()) && Pending(b.store.rows, jobs) &&
      ListsPending(b.store.rows, b.store.contracts, jobs)
    modifies b, b.store`gaps, b.store`rows, b.store`records
    ensures b.Valid() && Inv(b.store.Model())
    ensures RoundMoved(old(b.store.rows), b.store.rows)
    ensures worked <==> b.store.rows != old(b.store.rows)
    ensures StoresOnlyChunks(b.chain, b.sac, old(b.store.rows), b.store.rows, b.store.contracts, old(b.store.records),
      b.store.records)
    ensures NothingFails(b.src, oldest, meta, w) ==>
      AllAdvanced(old(b.store.rows), b.store.rows, b.store.contracts, oldest)
  {
    ghost var rows, records := b.store.rows, b.store.records;
    var g;
    g, worked := GroupJobs(b, jobs, w.refusedCloses);
    ghost var start := RoundStart(rows, b.store.Model(), b.store.contracts, records);
    StartCells(start, g, jobs, worked);
    worked := Cells(b, jobs, g, w, worked, start, oldest, meta);
  }

  /** The second half of a round: the cells, from the highest down. */
  method Cells(b: Backfiller, ghost jobs: seq<Job>, g: Grouping, w: Weather, worked: bool,
      ghost start: RoundStart, ghost oldest: int, ghost meta: nat -> Meta) returns (now: bool)
    requires RoundStands(b, start, g, g.groups.Keys, worked) && ListsKeys(g)
    requires MembersKept(start.rows, start.grouped, g, jobs, |jobs|)
    requires AllPlaced(start.rows, start.grouped.rows, g, jobs, |jobs|, w.refusedCloses)
    requires ListsPending(start.rows, start.contracts, jobs)
    modifies b, b.store`gaps, b.store`rows, b.store`records
    ensures RoundStands(b, start, g, {}, now)
    ensures NothingFails(b.src, oldest, meta, w) ==> AllAdvanced(start.rows, b.store.rows, start.contracts, oldest)
  {
    var order := HighestFirst(g.order);
    ghost var smooth, rest := NothingFails(b.src, oldest, meta, w), {};
    now, rest := ProcessCells(b, g, order, w, worked, start, oldest, meta, smooth);
    if smooth {
      EveryJobMoved(start, b.store.rows, g, jobs, oldest);
    }
  }

  /** Every pending registered walk moved, and one that is served all the way down made its next step. */
  ghost predicate AllAdvanced(before: BackfillTable, after: BackfillTable, contracts: map<string, seq<string>>,
      oldest: int)
  {
    forall c :: c in before && c in contracts && !before[c].done ==> Advances(before, after, c, oldest)
  }

  ghost predicate Advances(before: BackfillTable, after: BackfillTable, c: string, oldest: int)
    requires c in before
  {
    HasMoved(before, after, c) && (oldest <= before[c].targetFrom && 1 <= before[c].targetFrom ==>
      after[c] == NextRow(before[c]))
  }

  /** One failure-free step of a walk that is served all the way: closed when empty, else one chunk down. */
  function NextRow(b: Backfill): Backfill
    requires 1 <= b.targetFrom
  {
    if b.nextTo < b.targetFrom then b.(done := true) else Walked(b, ChunkFrom(b))
  }

  lemma EveryJobMoved(start: RoundStart, now: BackfillTable, g: Grouping, jobs: seq<Job>, oldest: int)
    requires AllPlaced(start.rows, start.grouped.rows, g, jobs, |jobs|, {}) &&
      CellsMoved(start.rows, now, g, {}, oldest)
    requires GroupingKept(start.grouped, g, g.groups.Keys) && MembersKept(start.rows, start.grouped, g, jobs, |jobs|)
    requires MovedStay(start.rows, start.grouped.rows, now)
    requires forall c :: c in start.rows && c in start.contracts && !start.rows[c].done ==>
      Job(c, start.contracts[c], start.rows[c]) in jobs
    ensures AllAdvanced(start.rows, now, start.contracts, oldest)
  {
    forall c | c in start.rows && c in start.contracts && !start.rows[c].done
      ensures Advances(start.rows, now, c, oldest)
    {
      var j := Job(c, start.contracts[c], start.rows[c]);
      var k :| 0 <= k < |jobs| && jobs[k] == j;
      assert PlacedOne(start.rows, start.grouped.rows, g, jobs[k], {});
      if f :| f in g.groups && j in g.groups[f] {
        GroupedJobMoved(start, now, g, f, j, oldest);
      } else {
        assert HasMoved(start.rows, start.grouped.rows, c);
      }
    }
  }

  lemma GroupedJobMoved(start: RoundStart, now: BackfillTable, g: Grouping, f: uint32, j: Job, oldest: int)
    requires CellsMoved(start.rows, now, g, {}, oldest) && GroupingKept(start.grouped, g, g.groups.Keys)
    requires f in g.groups && j in g.groups[f] && j.contract in start.rows && start.rows[j.contract] == j.row
    ensures Advances(start.rows, now, j.contract, oldest)
  {
    var i :| 0 <= i < |g.groups[f]| && g.groups[f][i] == j;
    assert MemberDone(start.rows, now, g.groups[f][i].contract, f, oldest);
    assert GroupKept(start.grouped, g, f) && JobStands(start.grouped, g.groups[f][i], f, g.tops[f]);
  }

  ghost function Remaining(order: seq<uint32>, i: nat): set<uint32> {
    set k | i <= k < |order| :: order[k]
  }

  lemma OneFewer(order: seq<uint32>, i: nat)
    requires i < |order| && forall a, b :: 0 <= a < b < |order| ==> order[a] > order[b]
    ensures order[i] in Remaining(order, i)
    ensures Remaining(order, i + 1) == Remaining(order, i) - {order[i]}
  {
  }

  lemma StartCells(start: RoundStart, g: Grouping, jobs: seq<Job>, worked: bool)
    requires GroupedSoFar(start.rows, start.grouped, g, jobs, |jobs|, worked)
    requires forall j :: j in jobs ==> j.contract in start.contracts && start.contracts[j.contract] == j.kinds
    ensures RoundSoFar(start.rows, start.grouped, start.grouped, g, g.groups.Keys, worked)
    ensures KindsKnown(g, start.contracts) && MovedStay(start.rows, start.grouped.rows, start.grouped.rows)
  {
    forall f | f in g.groups
      ensures CellReady(start.rows, start.grouped, g, f)
    {
      assert GroupKept(start.grouped, g, f);
      assert forall i :: 0 <= i < |g.groups[f]| ==> MemberKept(start.rows, start.grouped, g.groups[f][i], jobs, |jobs|);
    }
    forall f, i | f in g.groups && 0 <= i < |g.groups[f]|
      ensures g.groups[f][i] in jobs
    {
      assert MemberKept(start.rows, start.grouped, g.groups[f][i], jobs, |jobs|);
    }
  }

  /** The store's answer: every unfinished walk with its registration. */
  ghost predicate ListsPending(rows: BackfillTable, contracts: map<string, seq<string>>, jobs: seq<Job>) {
    forall j :: j in jobs <==>
      j.contract in rows && j.contract in contracts && !rows[j.contract].done &&
      j == Job(j.contract, contracts[j.contract], rows[j.contract])
  }

  lemma ListedArePending(rows: BackfillTable, contracts: map<string, seq<string>>, jobs: seq<Job>)
    requires Registered(rows, contracts) && DistinctContracts(jobs) && ListsPending(rows, contracts, jobs)
    ensures Pending(rows, jobs)
  {
  }
}
