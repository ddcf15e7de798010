// The current-state snapshot (internal/store/state.go): ledgers arrive live, backward and
// twice, and every entry still ends up as the last change of its key among all ledgers seen.
module Snapshot {
  import opened Basics

  datatype EntryKey = EntryKey(contract: string, key: string, durability: string)

  datatype StateChange = StateChange(at: EntryKey, changeType: string, post: string, ledger: nat)

  /** One snapshot row; a removed key stays as a tombstone. */
  datatype Entry = Entry(value: Option<string>, deleted: bool, lastLedger: nat)

  type Entries = map<EntryKey, Entry>

  function EntryOf(c: StateChange): Entry {
    var deleted := c.changeType == "removed";
    Entry(if !deleted && c.post != "" then Some(c.post) else None, deleted, c.ledger)
  }

  /** The last change of a key in a list. */
  function LastOf(changes: seq<StateChange>, k: EntryKey): (r: Option<StateChange>)
    ensures r.Some? ==> r.value in changes && r.value.at == k
    ensures r.None? ==> forall c :: c in changes ==> c.at != k
  {
    if changes == [] then None
    else if changes[|changes| - 1].at == k then Some(changes[|changes| - 1])
    else LastOf(changes[..|changes| - 1], k)
  }

  /** The guarded fold: the last change of each key lands unless a newer ledger's is there. */
  ghost predicate IsApplied(before: Entries, after: Entries, changes: seq<StateChange>) {
    forall k :: AppliedAt(before, after, changes, k)
  }

  ghost predicate AppliedAt(before: Entries, after: Entries, changes: seq<StateChange>, k: EntryKey) {
    Lookup(after, k) == AfterChange(Lookup(before, k), LastOf(changes, k))
  }

  function Lookup(entries: Entries, k: EntryKey): Option<Entry> {
    if k in entries then Some(entries[k]) else None
  }

  function AfterChange(before: Option<Entry>, last: Option<StateChange>): Option<Entry> {
    if last.None? || (before.Some? && before.value.lastLedger > last.value.ledger) then before
    else Some(EntryOf(last.value))
  }

  class StateSnapshot {
    var entries: Entries

    constructor ()
      ensures entries == map[]
    {
      entries := map[];
    }

    /** Keeps the last change of each key, then upserts each key once. */
    method ApplyStateEntries(changes: seq<StateChange>)
      modifies this
      ensures IsApplied(old(entries), entries, changes)
    {
      var final: map<EntryKey, StateChange>, order: seq<EntryKey> := map[], [];
      for i := 0 to |changes|
        invariant IsFinal(final, changes[..i]) && entries == old(entries)
        invariant forall k :: k in order <==> k in final
        invariant forall a, b :: 0 <= a < b < |order| ==> order[a] != order[b]
      {
        var c := changes[i];
        FinalOneMore(final, changes, i);
        if c.at !in final {
          order := order + [c.at];
        }
        final := final[c.at := c];
      }
      assert changes[..|changes|] == changes;
      for n := 0 to |order|
        invariant forall k :: Upserted(old(entries), entries, final, order[..n], k)
      {
        var k := order[n];
        ghost var written := order[..n + 1];
        assert written == order[..n] + [k];
        assert k !in order[..n] && k in order;
        ghost var was := entries;
        if k !in entries || entries[k].lastLedger <= final[k].ledger {
          entries := entries[k := EntryOf(final[k])];
        }
        forall x
          ensures Upserted(old(entries), entries, final, written, x)
        {
          assert Upserted(old(entries), was, final, order[..n], x);
        }
      }
      assert order[..|order|] == order;
      forall k
        ensures AppliedAt(old(entries), entries, changes, k)
      {
        assert FinalAt(final, changes, k) && Upserted(old(entries), entries, final, order, k);
      }
    }
  }

  /** The keys written so far hold their guarded upsert; every other entry stands. */
  ghost predicate Upserted(before: Entries, after: Entries, final: map<EntryKey, StateChange>, written: seq<EntryKey>,
      k: EntryKey)
  {
    Lookup(after, k) == AfterChange(Lookup(before, k), if k in written && k in final then Some(final[k]) else None)
  }

  ghost predicate IsFinal(final: map<EntryKey, StateChange>, changes: seq<StateChange>) {
    forall k :: FinalAt(final, changes, k)
  }

  ghost predicate FinalAt(final: map<EntryKey, StateChange>, changes: seq<StateChange>, k: EntryKey) {
    LastOf(changes, k) == if k in final then Some(final[k]) else None
  }

  lemma FinalOneMore(final: map<EntryKey, StateChange>, changes: seq<StateChange>, i: nat)
    requires i < |changes| && IsFinal(final, changes[..i])
    ensures IsFinal(final[changes[i].at := changes[i]], changes[..i + 1])
  {
    var more, now := changes[..i + 1], final[changes[i].at := changes[i]];
    assert more[..i] == changes[..i];
    forall k
      ensures FinalAt(now, more, k)
    {
      assert FinalAt(final, changes[..i], k);
    }
  }

  // --- convergence -----------------------------------------------------------

  /** All changes of each ledger, in chain order. */
  type ChangeHistory = nat -> seq<StateChange>

  ghost predicate Dated(h: ChangeHistory) {
    forall l, c :: c in h(l) ==> c.ledger == l
  }

  function InOrder(h: ChangeHistory, lo: nat, hi: int): seq<StateChange>
    decreases hi - lo
  {
    if hi < lo then [] else InOrder(h, lo, hi - 1) + h(hi)
  }

  /** A batch over [lo .. hi] written for some contracts, in whatever run it comes from. */
  datatype Batch = Batch(lo: nat, hi: int, contracts: set<string>, changes: seq<StateChange>) {
    predicate Spans(k: EntryKey, l: nat) {
      k.contract in contracts && lo <= l <= hi
    }
  }

  /** It holds every change its ledgers make to its contracts, in chain order, and no others. */
  ghost predicate Complete(h: ChangeHistory, b: Batch) {
    b.changes == ChangesFor(InOrder(h, b.lo, b.hi), b.contracts)
  }

  function ChangesFor(changes: seq<StateChange>, contracts: set<string>): seq<StateChange> {
    if changes == [] then []
    else
      var n := |changes| - 1;
      ChangesFor(changes[..n], contracts) + (if changes[n].at.contract in contracts then [changes[n]] else [])
  }

  /** The tables a run of batches goes through, from an empty snapshot on. */
  ghost predicate IsReplay(tables: seq<Entries>, batches: seq<Batch>) {
    && |tables| == |batches| + 1
    && tables[0] == map[]
    && forall i :: 0 <= i < |batches| ==> IsApplied(tables[i], tables[i + 1], batches[i].changes)
  }

  /** Some batch spanned the ledger for the key's contract. */
  ghost predicate Seen(batches: seq<Batch>, k: EntryKey, l: nat) {
    exists i :: 0 <= i < |batches| && batches[i].Spans(k, l)
  }

  /** The entry is the last change of its key among all ledgers seen, and is absent
      exactly when none of them changes the key. */
  ghost predicate IsLatest(h: ChangeHistory, batches: seq<Batch>, k: EntryKey, e: Option<Entry>) {
    match e
    case None => forall l :: Seen(batches, k, l) ==> LastOf(h(l), k).None?
    case Some(entry) =>
      && Seen(batches, k, entry.lastLedger)
      && LastOf(h(entry.lastLedger), k).Some?
      && entry == EntryOf(LastOf(h(entry.lastLedger), k).value)
      && forall l :: Seen(batches, k, l) && entry.lastLedger < l ==> LastOf(h(l), k).None?
  }

  lemma {:induction false} LastOfConcat(a: seq<StateChange>, b: seq<StateChange>, k: EntryKey)
    ensures LastOf(a + b, k) == if LastOf(b, k).Some? then LastOf(b, k) else LastOf(a, k)
    decreases |b|
  {
    if b == [] {
      assert a + b == a;
    } else {
      assert (a + b)[..|a + b| - 1] == a + b[..|b| - 1];
      LastOfConcat(a, b[..|b| - 1], k);
    }
  }

  lemma {:induction false} FilterKeepsLast(changes: seq<StateChange>, contracts: set<string>, k: EntryKey)
    ensures LastOf(ChangesFor(changes, contracts), k) == if k.contract in contracts then LastOf(changes, k) else None
    decreases |changes|
  {
    if changes != [] {
      var n := |changes| - 1;
      FilterKeepsLast(changes[..n], contracts, k);
      var kept := if changes[n].at.contract in contracts then [changes[n]] else [];
      LastOfConcat(ChangesFor(changes[..n], contracts), kept, k);
    }
  }

  /** r is the last change of the key in the highest ledger of [lo .. hi] that changes it. */
  ghost predicate IsLastOver(h: ChangeHistory, lo: nat, hi: int, k: EntryKey, r: Option<StateChange>) {
    match r
    case None => forall l: nat :: lo <= l <= hi ==> LastOf(h(l), k).None?
    case Some(c) =>
      && lo <= c.ledger <= hi && LastOf(h(c.ledger), k) == r
      && forall l: nat :: c.ledger < l <= hi ==> LastOf(h(l), k).None?
  }

  lemma {:induction false} LastOverRange(h: ChangeHistory, lo: nat, hi: int, k: EntryKey)
    requires Dated(h)
    ensures IsLastOver(h, lo, hi, k, LastOf(InOrder(h, lo, hi), k))
    decreases hi - lo
  {
    if lo <= hi {
      LastOverRange(h, lo, hi - 1, k);
      LastOfConcat(InOrder(h, lo, hi - 1), h(hi), k);
      OneMoreLedger(h, lo, hi, k, LastOf(InOrder(h, lo, hi - 1), k));
    }
  }

  lemma OneMoreLedger(h: ChangeHistory, lo: nat, hi: nat, k: EntryKey, before: Option<StateChange>)
    requires Dated(h) && lo <= hi && IsLastOver(h, lo, hi - 1, k, before)
    ensures IsLastOver(h, lo, hi, k, if LastOf(h(hi), k).Some? then LastOf(h(hi), k) else before)
  {
  }

  lemma BatchKeepsLatest(h: ChangeHistory, before: Entries, after: Entries, earlier: seq<Batch>, b: Batch,
      all: seq<Batch>, k: EntryKey)
    requires all == earlier + [b]
    requires Dated(h) && Complete(h, b) && IsApplied(before, after, b.changes)
    requires IsLatest(h, earlier, k, Lookup(before, k))
    ensures IsLatest(h, all, k, Lookup(after, k))
  {
    assert AppliedAt(before, after, b.changes, k);
    FilterKeepsLast(InOrder(h, b.lo, b.hi), b.contracts, k);
    LastOverRange(h, b.lo, b.hi, k);
    SeenOneMore(earlier, b, k);
  }

  lemma SeenOneMore(earlier: seq<Batch>, b: Batch, k: EntryKey)
    ensures forall l :: Seen(earlier + [b], k, l) <==> Seen(earlier, k, l) || b.Spans(k, l)
  {
    var all := earlier + [b];
    forall l
      ensures Seen(all, k, l) <==> Seen(earlier, k, l) || b.Spans(k, l)
    {
      assert all[|earlier|] == b;
      if Seen(earlier, k, l) {
        var i :| 0 <= i < |earlier| && earlier[i].Spans(k, l);
        assert all[i].Spans(k, l);
      }
    }
  }

  /** Whatever order the batches come in and however they overlap or repeat, every entry is
      the last change of its key among all ledgers seen, tombstones included. */
  lemma {:induction false} SnapshotConverges(h: ChangeHistory, tables: seq<Entries>, batches: seq<Batch>, n: nat,
      k: EntryKey)
    requires Dated(h) && IsReplay(tables, batches) && n <= |batches|
    requires forall i :: 0 <= i < |batches| ==> Complete(h, batches[i])
    ensures IsLatest(h, batches[..n], k, Lookup(tables[n], k))
  {
    if n > 0 {
      SnapshotConverges(h, tables, batches, n - 1, k);
      var earlier, all := batches[..n - 1], batches[..n];
      assert all == earlier + [batches[n - 1]];
      BatchKeepsLatest(h, tables[n - 1], tables[n], earlier, batches[n - 1], all, k);
    }
  }

  /** The change at i is the last one of its key in the list. */
  ghost predicate IsFinalChange(changes: seq<StateChange>, i: nat, k: EntryKey) {
    i < |changes| && changes[i].at == k && forall j :: i < j < |changes| ==> changes[j].at != k
  }

  ghost predicate NeverChanged(changes: seq<StateChange>, k: EntryKey) {
    forall c :: c in changes ==> c.at != k
  }

  lemma {:induction false} LastOfStandsLast(changes: seq<StateChange>, k: EntryKey) returns (i: nat)
    requires LastOf(changes, k).Some?
    ensures IsFinalChange(changes, i, k) && changes[i] == LastOf(changes, k).value
    decreases |changes|
  {
    i := |changes| - 1;
    if changes[i].at != k {
      i := LastOfStandsLast(changes[..i], k);
    }
  }

  /** The entry holds what its final change left: a tombstone after a removal, else its value, which a
      change without one leaves empty. */
  ghost predicate Holds(e: Entry, c: StateChange) {
    && e.lastLedger == c.ledger
    && (e.deleted <==> c.changeType == "removed")
    && (e.value.Some? <==> c.changeType != "removed" && c.post != "")
    && (e.value.Some? ==> e.value.value == c.post)
  }

  /** An entry exists exactly when some ledger seen changes its key, and then holds the final change of
      the key in the newest such ledger: a tombstone exactly when that change is a removal. */
  lemma EntryTellsTheNewestChange(h: ChangeHistory, tables: seq<Entries>, batches: seq<Batch>, n: nat, k: EntryKey)
    requires Dated(h) && IsReplay(tables, batches) && n <= |batches|
    requires forall i :: 0 <= i < |batches| ==> Complete(h, batches[i])
    ensures k in tables[n] <==> exists l :: Seen(batches[..n], k, l) && !NeverChanged(h(l), k)
    ensures k in tables[n] ==>
      exists l: nat, i: nat :: Seen(batches[..n], k, l) && IsFinalChange(h(l), i, k) && Holds(tables[n][k], h(l)[i]) &&
        forall m :: Seen(batches[..n], k, m) && l < m ==> NeverChanged(h(m), k)
  {
    SnapshotConverges(h, tables, batches, n, k);
    if k in tables[n] {
      var l := tables[n][k].lastLedger;
      var i := LastOfStandsLast(h(l), k);
      assert !NeverChanged(h(l), k);
      assert IsFinalChange(h(l), i, k) && Holds(tables[n][k], h(l)[i]);
    }
  }

  /** Two runs that saw the same ledgers leave the same snapshot. */
  lemma OrderAndRepetitionDoNotMatter(h: ChangeHistory, tables: seq<Entries>, batches: seq<Batch>,
      tables': seq<Entries>, batches': seq<Batch>)
    requires Dated(h) && IsReplay(tables, batches) && IsReplay(tables', batches')
    requires forall i :: 0 <= i < |batches| ==> Complete(h, batches[i])
    requires forall i :: 0 <= i < |batches'| ==> Complete(h, batches'[i])
    requires forall k, l :: Seen(batches, k, l) <==> Seen(batches', k, l)
    ensures tables[|batches|] == tables'[|batches'|]
  {
    var end, end' := tables[|batches|], tables'[|batches'|];
    assert batches[..|batches|] == batches && batches'[..|batches'|] == batches';
    forall k
      ensures Lookup(end, k) == Lookup(end', k)
    {
      SnapshotConverges(h, tables, batches, |batches|, k);
      SnapshotConverges(h, tables', batches', |batches'|, k);
      LatestIsUnique(h, batches, batches', k, Lookup(end, k), Lookup(end', k));
    }
    SameLookupsSameTable(end, end');
  }

  lemma LatestIsUnique(h: ChangeHistory, batches: seq<Batch>, batches': seq<Batch>, k: EntryKey, e: Option<Entry>,
      e': Option<Entry>)
    requires IsLatest(h, batches, k, e) && IsLatest(h, batches', k, e')
    requires forall l :: Seen(batches, k, l) <==> Seen(batches', k, l)
    ensures e == e'
  {
  }

  lemma SameLookupsSameTable(a: Entries, b: Entries)
    requires forall k :: Lookup(a, k) == Lookup(b, k)
    ensures a == b
  {
    assert forall k :: k in a <==> Lookup(a, k).Some?;
    assert forall k :: k in b <==> Lookup(b, k).Some?;
  }
}
