// What a scan over a range of the chain yields, and why a shared scan holds exactly the
// private scan of every contract it was made for.
module Scan {
  import opened Basics
  import opened Extract

  /** The closed ledgers, by sequence. */
  type Chain = nat -> Ledger

  /** What each ledger yields on its own. */
  type Yield = nat -> Extracted

  function YieldOf(chain: Chain, watch: Watch, sac: SacOf): Yield {
    (l: nat) => OfLedger(chain(l), watch, sac)
  }

  /** The yields of [lo .. hi] joined in ledger order. */
  function Joined(each: Yield, lo: nat, hi: int): Extracted
    decreases hi - lo
  {
    if hi < lo then NOTHING else Join(Joined(each, lo, hi - 1), each(hi))
  }

  /** Everything [lo .. hi] yields for a snapshot. */
  function OfRange(chain: Chain, lo: nat, hi: int, watch: Watch, sac: SacOf): Extracted {
    Joined(YieldOf(chain, watch, sac), lo, hi)
  }

  /** acc is what [lo .. hi] yields. */
  ghost predicate Scanned(acc: Extracted, chain: Chain, lo: nat, hi: int, watch: Watch, sac: SacOf) {
    forall x :: YieldsAll(x, chain, lo, hi, watch, sac) ==> x == acc
  }

  ghost predicate YieldsAll(x: Extracted, chain: Chain, lo: nat, hi: int, watch: Watch, sac: SacOf) {
    x == OfRange(chain, lo, hi, watch, sac)
  }

  lemma ScannedIsTheYield(acc: Extracted, chain: Chain, lo: nat, hi: int, watch: Watch, sac: SacOf)
    ensures Scanned(acc, chain, lo, hi, watch, sac) <==> acc == OfRange(chain, lo, hi, watch, sac)
  {
    assert YieldsAll(OfRange(chain, lo, hi, watch, sac), chain, lo, hi, watch, sac);
  }

  /** Every row of a result, whoever it belongs to. */
  function AllRows(res: Extracted): set<Row> {
    set r | r in res.events + res.states + res.transfers + res.trustlines + res.movements
  }

  /** The rows the chain holds for one contract, kind and ledger. */
  ghost function RowsOfFact(chain: Chain, sac: SacOf, f: Fact): set<Row> {
    set r | r in Slice(OfLedger(chain(f.ledger), Alone(f.contract, f.kind), sac), f.contract, f.kind)
  }

  /** The rows of one kind that a private scan of [lo .. hi] yields for one contract. */
  ghost function PrivateScan(chain: Chain, sac: SacOf, lo: nat, hi: int, c: string, kind: string): seq<Row> {
    Slice(OfRange(chain, lo, hi, Alone(c, kind), sac), c, kind)
  }

  /** The kinds a scan was made for, per contract; order does not matter. */
  type Members = map<string, multiset<string>>

  ghost predicate IsMember(members: Members, c: string, kind: string) {
    c in members && kind in members[c]
  }

  /** The result holds, for every member and kind, its private scan, and nothing for anybody else. */
  ghost predicate Faithful(chain: Chain, sac: SacOf, lo: nat, hi: int, members: Members, res: Extracted) {
    forall c, kind :: IsContractId(c) ==> SliceFaithful(chain, sac, lo, hi, members, res, c, kind)
  }

  ghost predicate SliceFaithful(chain: Chain, sac: SacOf, lo: nat, hi: int, members: Members, res: Extracted,
      c: string, kind: string)
  {
    Slice(res, c, kind) == if IsMember(members, c, kind) then PrivateScan(chain, sac, lo, hi, c, kind) else []
  }

  function MembersOf(watch: Watch): Members {
    map c | c in watch :: multiset(watch[c])
  }

  lemma {:induction false} JoinedSlicesAgree(a: Yield, b: Yield, lo: nat, hi: int, c: string, kind: string)
    requires forall l: nat :: lo <= l <= hi ==> Slice(a(l), c, kind) == Slice(b(l), c, kind)
    ensures Slice(Joined(a, lo, hi), c, kind) == Slice(Joined(b, lo, hi), c, kind)
    decreases hi - lo
  {
    if lo <= hi {
      JoinedSlicesAgree(a, b, lo, hi - 1, c, kind);
      SliceJoin(Joined(a, lo, hi - 1), a(hi), c, kind);
      SliceJoin(Joined(b, lo, hi - 1), b(hi), c, kind);
    }
  }

  lemma {:induction false} JoinedSlicesEmpty(a: Yield, lo: nat, hi: int, c: string, kind: string)
    requires forall l: nat :: lo <= l <= hi ==> Slice(a(l), c, kind) == []
    ensures Slice(Joined(a, lo, hi), c, kind) == []
    decreases hi - lo
  {
    if lo <= hi {
      JoinedSlicesEmpty(a, lo, hi - 1, c, kind);
      SliceJoin(Joined(a, lo, hi - 1), a(hi), c, kind);
    }
  }

  lemma {:induction false} JoinedHoldsEachYield(a: Yield, lo: nat, hi: int, kind: string, l: nat, r: Row)
    requires lo <= l <= hi && r in RowsOfKind(a(l), kind)
    ensures YieldsRow(Joined(a, lo, hi), kind, r)
    decreases hi - lo
  {
    var below := Joined(a, lo, hi - 1);
    if l < hi {
      JoinedHoldsEachYield(a, lo, hi - 1, kind, l, r);
      assert YieldsRow(below, kind, r);
    }
    JoinHoldsBoth(below, a(hi), kind, r);
  }

  ghost predicate YieldsRow(x: Extracted, kind: string, r: Row) {
    r in RowsOfKind(x, kind)
  }

  lemma JoinHoldsBoth(a: Extracted, b: Extracted, kind: string, r: Row)
    ensures YieldsRow(Join(a, b), kind, r) <==> YieldsRow(a, kind, r) || YieldsRow(b, kind, r)
  {
    assert RowsOfKind(Join(a, b), kind) == RowsOfKind(a, kind) + RowsOfKind(b, kind);
  }

  lemma RangeIsLocal(chain: Chain, sac: SacOf, lo: nat, hi: int, watch: Watch, c: string, kind: string)
    requires IsContractId(c) && WatchedFor(watch, c, kind)
    ensures Slice(OfRange(chain, lo, hi, watch, sac), c, kind) == PrivateScan(chain, sac, lo, hi, c, kind)
  {
    var shared, alone := YieldOf(chain, watch, sac), YieldOf(chain, Alone(c, kind), sac);
    forall l: nat | lo <= l <= hi
      ensures Slice(shared(l), c, kind) == Slice(alone(l), c, kind)
    {
      ExtractionIsLocal(chain(l), watch, sac, c, kind);
    }
    JoinedSlicesAgree(shared, alone, lo, hi, c, kind);
  }

  /** The rows one ledger contributes are rows of the private scan over any range around it. */
  lemma LedgerRowsAreScanned(chain: Chain, sac: SacOf, lo: nat, hi: int, c: string, kind: string, l: nat)
    requires lo <= l <= hi
    ensures forall r :: r in RowsOfFact(chain, sac, Fact(c, kind, l)) ==> r in PrivateScan(chain, sac, lo, hi, c, kind)
  {
    var alone := YieldOf(chain, Alone(c, kind), sac);
    assert alone(l) == OfLedger(chain(l), Alone(c, kind), sac);
    forall r | r in RowsOfFact(chain, sac, Fact(c, kind, l))
      ensures r in PrivateScan(chain, sac, lo, hi, c, kind)
    {
      JoinedHoldsEachYield(alone, lo, hi, kind, l, r);
    }
  }

  lemma RangeYieldsOnlyWatched(chain: Chain, sac: SacOf, lo: nat, hi: int, watch: Watch, c: string, kind: string)
    requires !WatchedFor(watch, c, kind)
    ensures Slice(OfRange(chain, lo, hi, watch, sac), c, kind) == []
  {
    var shared := YieldOf(chain, watch, sac);
    forall l: nat | lo <= l <= hi
      ensures Slice(shared(l), c, kind) == []
    {
      LedgerYieldsOnlyWatched(chain(l), watch, sac, c, kind);
    }
    JoinedSlicesEmpty(shared, lo, hi, c, kind);
  }

  /** A shared scan refines private ones: for every contract of its snapshot it holds exactly
      what a scan for that contract alone would, and nothing for any other contract. */
  lemma SharedScanIsFaithful(chain: Chain, sac: SacOf, lo: nat, hi: int, watch: Watch)
    ensures Faithful(chain, sac, lo, hi, MembersOf(watch), OfRange(chain, lo, hi, watch, sac))
  {
    forall c, kind | IsContractId(c)
      ensures SliceFaithful(chain, sac, lo, hi, MembersOf(watch), OfRange(chain, lo, hi, watch, sac), c, kind)
    {
      if WatchedFor(watch, c, kind) {
        RangeIsLocal(chain, sac, lo, hi, watch, c, kind);
      } else {
        RangeYieldsOnlyWatched(chain, sac, lo, hi, watch, c, kind);
      }
    }
  }
}
