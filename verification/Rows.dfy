// Which rows a ledger yields (internal/extract): exactly those its successful transactions' events and
// changes call for, each at its own place, so nothing is lost and nothing invented.
module Rows {
  import opened Basics
  import opened Extract
  import opened Scan
  import opened Decoding

  /** Registrations are for contract addresses. */
  ghost predicate WatchesContracts(watch: Watch) {
    forall id :: id in watch ==> IsContractId(id)
  }

  // --- one event ---------------------------------------------------------------------

  /** The symbol an event of each type opens with. */
  function SymbolOf(t: TransferType): string {
    match t
    case Transfer => "transfer"
    case Mint => "mint"
    case Burn => "burn"
    case Clawback => "clawback"
  }

  /** A contract event with a body this decoder knows, emitted by the contract. */
  predicate Emits(ev: ContractEvent, id: string) {
    ev.isContractType && ev.emitter.Some? && id == ContractId(ev.emitter.value)
  }

  predicate OpensWith(ev: ContractEvent, name: string) {
    ev.body.Some? && ev.body.value.topics != [] && ev.body.value.topics[0] == Sym(name)
  }

  /** The event states the movement d. */
  ghost predicate Moves(ev: ContractEvent, d: Decoded) {
    OpensWith(ev, SymbolOf(d.transferType)) && States(ev.body.value, d.transferType, d)
  }

  /** The row an event owes its watched emitter. */
  ghost predicate IsEventRow(ev: ContractEvent, at: Place, watch: Watch, r: Row) {
    && r.EventRow? && Emits(ev, r.contract) && WatchedFor(watch, r.contract, "events") && ev.body.Some?
    && r.ledger == at.ledger && r.tx == at.tx && r.op == at.op && r.index == at.index && r.raw == ev
    && IsName(ev, r.name)
  }

  /** The name of an event is the symbol it opens with, if it opens with one. */
  ghost predicate IsName(ev: ContractEvent, name: string) {
    if exists n :: OpensWith(ev, n) then OpensWith(ev, name) else name == ""
  }

  lemma NameIsTheOpeningSymbol(ev: ContractEvent, name: string)
    requires ev.body.Some?
    ensures IsName(ev, name) <==> name == NameOf(ev.body.value)
  {
    if ev.body.value.topics != [] && ev.body.value.topics[0].Sym? {
      assert OpensWith(ev, ev.body.value.topics[0].name);
    }
  }

  /** The row a token movement owes its watched emitter. */
  ghost predicate IsTransferRow(ev: ContractEvent, at: Place, watch: Watch, r: Row) {
    && r.TransferRow? && Emits(ev, r.contract) && WatchedFor(watch, r.contract, "transfers")
    && r.ledger == at.ledger && r.tx == at.tx && r.op == at.op && r.index == at.index
    && Moves(ev, r.transfer)
  }

  /** The row a token movement owes a watched party of it, whoever emitted it: the payer's names the
      payee as counterparty, and the payee's the payer. */
  ghost predicate IsMovementRow(ev: ContractEvent, at: Place, watch: Watch, r: Row) {
    && r.MovementRow? && Emits(ev, r.token) && WatchedFor(watch, r.contract, "movements")
    && r.ledger == at.ledger && r.tx == at.tx && r.index == at.index && r.raw == ev
    && exists d :: Moves(ev, d) && IsPartOf(d, r)
  }

  predicate IsPartOf(d: Decoded, r: Row)
    requires r.MovementRow?
  {
    && r.transferType == d.transferType && r.amount == d.amount && r.contract != ""
    && match r.role
       case Sender => r.contract == d.from && r.counterparty == d.to
       case Recipient => r.contract == d.to && r.counterparty == d.from
  }

  lemma SymbolsName(name: string, t: TransferType)
    ensures TransferNamed(name) == Some(t) <==> name == SymbolOf(t)
  {
  }

  lemma MovesWhatIsDecoded(ev: ContractEvent, d: Decoded)
    ensures Moves(ev, d) <==>
      MovementName(ev) == Some(d.transferType) && Decode(ev.body.value, d.transferType) == Some(d)
  {
    if ev.body.Some? && ev.body.value.topics != [] {
      DecodesExactlyWhatIsStated(ev.body.value, d.transferType, d);
      if ev.body.value.topics[0].Sym? {
        SymbolsName(ev.body.value.topics[0].name, d.transferType);
      }
    }
  }

  lemma EventsOfOne(ev: ContractEvent, at: Place, watch: Watch, r: Row)
    ensures r in OfEvent(ev, at, watch, AnyKind(watch, MOVEMENTS)).events <==> IsEventRow(ev, at, watch, r)
  {
    if ev.body.Some? && r.EventRow? {
      NameIsTheOpeningSymbol(ev, r.name);
    }
    if Emits(ev, r.contract) {
      OwnEventPart(ev, r.contract, at, watch, r);
    }
  }

  lemma OwnEventPart(ev: ContractEvent, id: string, at: Place, watch: Watch, r: Row)
    ensures r in EventPart(ev, id, at, watch).events <==>
      WatchedFor(watch, id, "events") && ev.body.Some? &&
      r == EventRow(id, at.ledger, at.tx, at.op, at.index, NameOf(ev.body.value), ev)
  {
  }

  lemma TransfersOfOne(ev: ContractEvent, at: Place, watch: Watch, r: Row)
    ensures r in OfEvent(ev, at, watch, AnyKind(watch, MOVEMENTS)).transfers <==> IsTransferRow(ev, at, watch, r)
  {
    if r.TransferRow? {
      MovesWhatIsDecoded(ev, r.transfer);
    }
    if MovementName(ev).Some? && Decode(ev.body.value, MovementName(ev).value).Some? {
      var d := Decode(ev.body.value, MovementName(ev).value).value;
      MovesWhatIsDecoded(ev, d);
    }
  }

  lemma MovementsOfOne(ev: ContractEvent, at: Place, watch: Watch, r: Row)
    requires WatchesContracts(watch)
    ensures r in OfEvent(ev, at, watch, AnyKind(watch, MOVEMENTS)).movements <==> IsMovementRow(ev, at, watch, r)
  {
    if IsMovementRow(ev, at, watch, r) {
      var d :| Moves(ev, d) && IsPartOf(d, r);
      MovesWhatIsDecoded(ev, d);
      SidesAreParties(ev.body.value, d.transferType, watch, r.contract);
      assert AnyKind(watch, MOVEMENTS);
      PartsOfOne(d, r.token, ev, at, watch, r);
    }
    if r in OfEvent(ev, at, watch, AnyKind(watch, MOVEMENTS)).movements {
      var d := Decode(ev.body.value, MovementName(ev).value).value;
      MovesWhatIsDecoded(ev, d);
      PartsOfOne(d, ContractId(ev.emitter.value), ev, at, watch, r);
    }
  }

  lemma PartsOfOne(d: Decoded, token: string, ev: ContractEvent, at: Place, watch: Watch, r: Row)
    requires WatchesContracts(watch)
    ensures r in MovementsOf(d, token, ev, at, watch) <==>
      && r.MovementRow? && r.token == token && WatchedFor(watch, r.contract, "movements")
      && r.ledger == at.ledger && r.tx == at.tx && r.index == at.index && r.raw == ev && IsPartOf(d, r)
  {
  }

  // --- one change ----------------------------------------------------------------------

  /** The side a change is attributed by: what it left, or what it removed. */
  predicate IsSubject(ch: Change, e: Entry) {
    if ch.post.Some? then ch.post.value == e else ch.pre == Some(e)
  }

  /** A stored side is the value on that side of the change, absent exactly when the side is. */
  predicate IsSide(side: Option<Entry>, stored: Option<ScVal>) {
    if side.None? then stored.None? else side.value.ContractData? && stored == Some(side.value.value)
  }

  /** The row a contract-data change owes its watched owner. */
  ghost predicate IsStateRow(ch: Change, at: Place, watch: Watch, r: Row) {
    && r.StateRow? && ch.entryType.ContractDataEntry? && WatchedFor(watch, r.contract, "state")
    && (exists raw, value :: r.contract == ContractId(raw) &&
          IsSubject(ch, ContractData(Some(raw), r.key, value, r.temporary)))
    && r.changeType == ch.changeType && !ch.changeType.Unsupported?
    && IsSide(ch.pre, r.pre) && IsSide(ch.post, r.post)
    && r.ledger == at.ledger && r.tx == at.tx && r.op == ch.op && r.index == at.index
  }

  lemma StatesOfOne(ch: Change, at: Place, watch: Watch, wants: bool, sac: SacOf, r: Row)
    ensures r in OfChange(ch, at, watch, wants, sac).states <==> IsStateRow(ch, at, watch, r)
  {
  }

  /** A stored side of a trustline change is that side, where it is a trustline. */
  predicate IsLine(side: Option<Entry>, stored: Option<Entry>) {
    if side.Some? && side.value.TrustLine? then stored == side else stored.None?
  }

  /** The row a trustline change owes the watched contract that wraps its asset: its flags are those of
      the newest side there is. */
  ghost predicate IsTrustlineRow(ch: Change, at: Place, watch: Watch, sac: SacOf, r: Row) {
    && r.TrustlineRow? && ch.entryType.TrustlineEntry? && WatchedFor(watch, r.contract, "trustlines")
    && !r.asset.PoolShare? && sac(r.asset) == Some(r.contract)
    && (exists balance, limit, flags :: IsSubject(ch, TrustLine(r.asset, Some(r.account), balance, limit, flags)))
    && r.changeType == ch.changeType && !ch.changeType.Unsupported?
    && IsLine(ch.pre, r.preEntry) && IsLine(ch.post, r.postEntry)
    && (r.postEntry.Some? ==> r.flags == r.postEntry.value.flags)
    && (r.postEntry.None? && r.preEntry.Some? ==> r.flags == r.preEntry.value.flags)
    && r.ledger == at.ledger && r.tx == at.tx && r.op == ch.op && r.index == at.index
  }

  lemma TrustlinesOfOne(ch: Change, at: Place, watch: Watch, sac: SacOf, r: Row)
    ensures r in OfChange(ch, at, watch, AnyKind(watch, TRUSTLINES), sac).trustlines <==>
      IsTrustlineRow(ch, at, watch, sac, r)
  {
    if IsTrustlineRow(ch, at, watch, sac, r) {
      assert AnyKind(watch, TRUSTLINES);
    }
  }

  // --- one ledger -------------------------------------------------------------------------

  /** The events of the first o operations. */
  function EventsBefore(ops: seq<seq<ContractEvent>>, o: nat): nat
    requires o <= |ops|
  {
    if o == 0 then 0 else EventsBefore(ops, o - 1) + |ops[o - 1]|
  }

  /** Operation o holds the event, and `index` events stand before it in the transaction. */
  predicate StandsAt(ops: seq<seq<ContractEvent>>, o: nat, ev: ContractEvent, index: nat) {
    && o < |ops|
    && var before := EventsBefore(ops, o);
    before <= index < before + |ops[o]| && ops[o][index - before] == ev
  }

  predicate Counts(t: Tx) {
    t.Tx? && t.successful
  }

  /** A successful transaction of the ledger holds the event at its place, counted over all operations. */
  ghost predicate HoldsEvent(l: Ledger, ev: ContractEvent, at: Place) {
    && at.ledger == l.sequence && 1 <= at.tx <= |l.txs| && Counts(l.txs[at.tx - 1])
    && l.txs[at.tx - 1].events.Some?
    && StandsAt(l.txs[at.tx - 1].events.value, at.op, ev, at.index)
  }

  /** A successful transaction of the ledger holds the change at its place, counted before any filtering. */
  ghost predicate HoldsChange(l: Ledger, ch: Change, at: Place) {
    && at.ledger == l.sequence && 1 <= at.tx <= |l.txs| && Counts(l.txs[at.tx - 1])
    && l.txs[at.tx - 1].changes.Some?
    && at.op == 0 && at.index < |l.txs[at.tx - 1].changes.value| && l.txs[at.tx - 1].changes.value[at.index] == ch
  }

  /** No two events of a ledger share a place. */
  lemma PlacesTellEventsApart(l: Ledger, ev: ContractEvent, ev': ContractEvent, at: Place, at': Place)
    requires HoldsEvent(l, ev, at) && HoldsEvent(l, ev', at') && at.tx == at'.tx && at.index == at'.index
    ensures ev == ev' && at == at'
  {
    var ops := l.txs[at.tx - 1].events.value;
    if at.op < at'.op {
      EventsBeforeGrow(ops, at.op + 1, at'.op);
    } else if at'.op < at.op {
      EventsBeforeGrow(ops, at'.op + 1, at.op);
    }
  }

  lemma EventsBeforeGrow(ops: seq<seq<ContractEvent>>, o: nat, p: nat)
    requires o <= p <= |ops|
    ensures EventsBefore(ops, o) <= EventsBefore(ops, p)
  {
  }

  lemma {:induction false} EventsBeforeOfPrefix(ops: seq<seq<ContractEvent>>, n: nat, o: nat)
    requires o <= n <= |ops|
    ensures EventsBefore(ops[..n], o) == EventsBefore(ops, o)
  {
    if o > 0 {
      EventsBeforeOfPrefix(ops, n, o - 1);
    }
  }

  lemma {:induction false} PlacedCount(ops: seq<seq<ContractEvent>>, ledger: uint32, tx: nat)
    ensures |Placed(ops, ledger, tx)| == EventsBefore(ops, |ops|)
    decreases |ops|
  {
    if ops != [] {
      var n := |ops| - 1;
      PlacedCount(ops[..n], ledger, tx);
      EventsBeforeOfPrefix(ops, n, n);
    }
  }

  /** Every event is placed behind all before it. */
  lemma {:induction false} EveryEventIsPlaced(ops: seq<seq<ContractEvent>>, ledger: uint32, tx: nat, o: nat, e: nat)
    requires o < |ops| && e < |ops[o]|
    ensures var n := EventsBefore(ops, o) + e;
      n < |Placed(ops, ledger, tx)| && Placed(ops, ledger, tx)[n] == (ops[o][e], Place(ledger, tx, o, n))
    decreases |ops|
  {
    var last := |ops| - 1;
    EventsBeforeOfPrefix(ops, last, o);
    PlacedCount(ops[..last], ledger, tx);
    if o < last {
      EveryEventIsPlaced(ops[..last], ledger, tx, o, e);
    }
  }

  /** Whatever is placed is an event of the transaction. */
  lemma {:induction false} PlacedIsAnEvent(ops: seq<seq<ContractEvent>>, ledger: uint32, tx: nat, n: nat)
      returns (o: nat, e: nat)
    requires n < |Placed(ops, ledger, tx)|
    ensures o < |ops| && e < |ops[o]| && n == EventsBefore(ops, o) + e
    ensures Placed(ops, ledger, tx)[n] == (ops[o][e], Place(ledger, tx, o, n))
    decreases |ops|
  {
    var last := |ops| - 1;
    var before := Placed(ops[..last], ledger, tx);
    PlacedCount(ops[..last], ledger, tx);
    EventsBeforeOfPrefix(ops, last, last);
    if n < |before| {
      o, e := PlacedIsAnEvent(ops[..last], ledger, tx, n);
      EventsBeforeOfPrefix(ops, last, o);
    } else {
      o, e := last, n - |before|;
    }
  }

  /** The event on its own yields the row. */
  ghost predicate EventYields(ev: ContractEvent, at: Place, watch: Watch, kind: string, r: Row) {
    forall x :: IsOfEvent(x, ev, at, watch) ==> YieldsRow(x, kind, r)
  }

  ghost predicate IsOfEvent(x: Extracted, ev: ContractEvent, at: Place, watch: Watch) {
    x == OfEvent(ev, at, watch, AnyKind(watch, MOVEMENTS))
  }

  /** The change on its own yields the row. */
  ghost predicate ChangeYields(ch: Change, at: Place, watch: Watch, sac: SacOf, kind: string, r: Row) {
    forall x :: IsOfChange(x, ch, at, watch, sac) ==> YieldsRow(x, kind, r)
  }

  ghost predicate IsOfChange(x: Extracted, ch: Change, at: Place, watch: Watch, sac: SacOf) {
    x == OfChange(ch, at, watch, AnyKind(watch, TRUSTLINES), sac)
  }

  lemma EventYieldsIff(ev: ContractEvent, at: Place, watch: Watch, kind: string, r: Row)
    ensures EventYields(ev, at, watch, kind, r) <==>
      YieldsRow(OfEvent(ev, at, watch, AnyKind(watch, MOVEMENTS)), kind, r)
  {
    assert IsOfEvent(OfEvent(ev, at, watch, AnyKind(watch, MOVEMENTS)), ev, at, watch);
  }

  lemma {:induction false} YieldedEvent(placed: seq<(ContractEvent, Place)>, watch: Watch, kind: string, r: Row)
      returns (n: nat)
    requires YieldsRow(OfEvents(placed, watch, AnyKind(watch, MOVEMENTS)), kind, r)
    ensures n < |placed| && EventYields(placed[n].0, placed[n].1, watch, kind, r)
    decreases |placed|
  {
    assert placed != [] by {
      assert !YieldsRow(NOTHING, kind, r);
    }
    n := |placed| - 1;
    LastOrBefore(placed, watch, kind, r);
    if !EventYields(placed[n].0, placed[n].1, watch, kind, r) {
      n := YieldedEvent(placed[..n], watch, kind, r);
    }
  }

  lemma {:induction false} EachEventYields(placed: seq<(ContractEvent, Place)>, n: nat, watch: Watch, kind: string,
      r: Row)
    requires n < |placed| && EventYields(placed[n].0, placed[n].1, watch, kind, r)
    ensures YieldsRow(OfEvents(placed, watch, AnyKind(watch, MOVEMENTS)), kind, r)
    decreases |placed|
  {
    LastOrBefore(placed, watch, kind, r);
    if n < |placed| - 1 {
      EachEventYields(placed[..|placed| - 1], n, watch, kind, r);
    }
  }

  lemma LastOrBefore(placed: seq<(ContractEvent, Place)>, watch: Watch, kind: string, r: Row)
    requires placed != []
    ensures var last, wants := |placed| - 1, AnyKind(watch, MOVEMENTS);
      YieldsRow(OfEvents(placed, watch, wants), kind, r) <==>
        YieldsRow(OfEvents(placed[..last], watch, wants), kind, r) ||
        EventYields(placed[last].0, placed[last].1, watch, kind, r)
  {
    var (ev, at) := placed[|placed| - 1];
    EventYieldsIff(ev, at, watch, kind, r);
    JoinHoldsBoth(OfEvents(placed[..|placed| - 1], watch, AnyKind(watch, MOVEMENTS)),
      OfEvent(ev, at, watch, AnyKind(watch, MOVEMENTS)), kind, r);
  }

  lemma {:induction false} YieldedChange(changes: seq<Change>, ledger: uint32, tx: nat, watch: Watch, sac: SacOf,
      kind: string, r: Row) returns (n: nat)
    requires YieldsRow(OfChanges(changes, ledger, tx, watch, AnyKind(watch, TRUSTLINES), sac), kind, r)
    ensures n < |changes| && ChangeYields(changes[n], Place(ledger, tx, 0, n), watch, sac, kind, r)
    decreases |changes|
  {
    assert changes != [] by {
      assert !YieldsRow(NOTHING, kind, r);
    }
    n := |changes| - 1;
    LastChangeOrBefore(changes, ledger, tx, watch, sac, kind, r);
    if !ChangeYields(changes[n], Place(ledger, tx, 0, n), watch, sac, kind, r) {
      n := YieldedChange(changes[..n], ledger, tx, watch, sac, kind, r);
    }
  }

  lemma {:induction false} EachChangeYields(changes: seq<Change>, n: nat, ledger: uint32, tx: nat, watch: Watch,
      sac: SacOf, kind: string, r: Row)
    requires n < |changes| && ChangeYields(changes[n], Place(ledger, tx, 0, n), watch, sac, kind, r)
    ensures YieldsRow(OfChanges(changes, ledger, tx, watch, AnyKind(watch, TRUSTLINES), sac), kind, r)
    decreases |changes|
  {
    LastChangeOrBefore(changes, ledger, tx, watch, sac, kind, r);
    if n < |changes| - 1 {
      EachChangeYields(changes[..|changes| - 1], n, ledger, tx, watch, sac, kind, r);
    }
  }

  lemma LastChangeOrBefore(changes: seq<Change>, ledger: uint32, tx: nat, watch: Watch, sac: SacOf, kind: string,
      r: Row)
    requires changes != []
    ensures var last, wants := |changes| - 1, AnyKind(watch, TRUSTLINES);
      YieldsRow(OfChanges(changes, ledger, tx, watch, wants, sac), kind, r) <==>
        YieldsRow(OfChanges(changes[..last], ledger, tx, watch, wants, sac), kind, r) ||
        ChangeYields(changes[last], Place(ledger, tx, 0, last), watch, sac, kind, r)
  {
    var last, wants := |changes| - 1, AnyKind(watch, TRUSTLINES);
    var one := OfChange(changes[last], Place(ledger, tx, 0, last), watch, wants, sac);
    assert IsOfChange(one, changes[last], Place(ledger, tx, 0, last), watch, sac);
    JoinHoldsBoth(OfChanges(changes[..last], ledger, tx, watch, wants, sac), one, kind, r);
  }

  /** The transaction at i yields the row. */
  ghost predicate TxYields(l: Ledger, i: nat, watch: Watch, sac: SacOf, kind: string, r: Row) {
    i < |l.txs| && forall x :: IsOfTx(x, l.txs[i], l.sequence, i + 1, watch, sac) ==> YieldsRow(x, kind, r)
  }

  ghost predicate IsOfTx(x: Extracted, t: Tx, ledger: uint32, tx: nat, watch: Watch, sac: SacOf) {
    x == OfTx(t, ledger, tx, watch, sac)
  }

  /** The first n transactions yield the row. */
  ghost predicate PrefixYields(l: Ledger, n: nat, watch: Watch, sac: SacOf, kind: string, r: Row) {
    n <= |l.txs| && forall x :: IsOfPrefix(x, l, n, watch, sac) ==> YieldsRow(x, kind, r)
  }

  ghost predicate IsOfPrefix(x: Extracted, l: Ledger, n: nat, watch: Watch, sac: SacOf)
    requires n <= |l.txs|
  {
    x == OfTxs(l.txs[..n], l.sequence, watch, sac)
  }

  lemma PrefixYieldsItsResult(l: Ledger, n: nat, watch: Watch, sac: SacOf, kind: string, r: Row)
    requires n <= |l.txs|
    ensures PrefixYields(l, n, watch, sac, kind, r) <==>
      YieldsRow(OfTxs(l.txs[..n], l.sequence, watch, sac), kind, r)
  {
    assert IsOfPrefix(OfTxs(l.txs[..n], l.sequence, watch, sac), l, n, watch, sac);
  }

  lemma {:induction false} YieldedTx(l: Ledger, n: nat, watch: Watch, sac: SacOf, kind: string, r: Row)
      returns (i: nat)
    requires PrefixYields(l, n, watch, sac, kind, r)
    ensures i < n && TxYields(l, i, watch, sac, kind, r)
  {
    var last := LastTxOrBefore(l, n, watch, sac, kind, r);
    i := n - 1;
    if !last {
      i := YieldedTx(l, n - 1, watch, sac, kind, r);
    }
  }

  lemma LastTxOrBefore(l: Ledger, n: nat, watch: Watch, sac: SacOf, kind: string, r: Row) returns (last: bool)
    requires PrefixYields(l, n, watch, sac, kind, r)
    ensures 0 < n && if last then TxYields(l, n - 1, watch, sac, kind, r)
      else PrefixYields(l, n - 1, watch, sac, kind, r)
  {
    PrefixYieldsItsResult(l, n, watch, sac, kind, r);
    if n > 0 {
      PrefixIsJoined(l, n, watch, sac, kind, r);
      last := TxYields(l, n - 1, watch, sac, kind, r);
    }
  }

  lemma {:induction false} EachTxYields(l: Ledger, i: nat, n: nat, watch: Watch, sac: SacOf, kind: string, r: Row)
    requires i < n <= |l.txs| && TxYields(l, i, watch, sac, kind, r)
    ensures PrefixYields(l, n, watch, sac, kind, r)
  {
    if i < n - 1 {
      EachTxYields(l, i, n - 1, watch, sac, kind, r);
    }
    PrefixIsJoined(l, n, watch, sac, kind, r);
  }

  lemma PrefixIsJoined(l: Ledger, n: nat, watch: Watch, sac: SacOf, kind: string, r: Row)
    requires 0 < n <= |l.txs|
    ensures PrefixYields(l, n, watch, sac, kind, r) <==>
      PrefixYields(l, n - 1, watch, sac, kind, r) || TxYields(l, n - 1, watch, sac, kind, r)
  {
    PrefixYieldsItsResult(l, n, watch, sac, kind, r);
    PrefixYieldsItsResult(l, n - 1, watch, sac, kind, r);
    TxYieldsItsResult(l, n - 1, watch, sac, kind, r);
    assert l.txs[..n][..n - 1] == l.txs[..n - 1];
    var before := OfTxs(l.txs[..n - 1], l.sequence, watch, sac);
    JoinHoldsBoth(before, OfTx(l.txs[n - 1], l.sequence, n, watch, sac), kind, r);
  }

  lemma TxYieldsItsResult(l: Ledger, i: nat, watch: Watch, sac: SacOf, kind: string, r: Row)
    requires i < |l.txs|
    ensures TxYields(l, i, watch, sac, kind, r) <==>
      YieldsRow(OfTx(l.txs[i], l.sequence, i + 1, watch, sac), kind, r)
  {
    assert IsOfTx(OfTx(l.txs[i], l.sequence, i + 1, watch, sac), l.txs[i], l.sequence, i + 1, watch, sac);
  }

  lemma JoinOfThree(a: Extracted, b: Extracted, c: Extracted, kind: string, r: Row)
    requires !YieldsRow(c, kind, r)
    ensures YieldsRow(Join(Join(a, b), c), kind, r) <==> YieldsRow(a, kind, r) || YieldsRow(b, kind, r)
  {
    JoinHoldsBoth(a, b, kind, r);
    JoinHoldsBoth(Join(a, b), c, kind, r);
  }

  /** Only a transaction that succeeded yields rows: those of its events and those of its changes. */
  lemma RowsOfTx(t: Tx, ledger: uint32, tx: nat, watch: Watch, sac: SacOf, kind: string, r: Row)
    ensures YieldsRow(OfTx(t, ledger, tx, watch, sac), kind, r) <==>
      Counts(t) &&
        (YieldsRow(OfTxEvents(t.events, ledger, tx, watch, AnyKind(watch, MOVEMENTS)), kind, r) ||
         YieldsRow(OfTxChanges(t.changes, ledger, tx, watch, AnyKind(watch, TRUSTLINES), sac), kind, r))
  {
    if Counts(t) {
      JoinOfThree(OfTxEvents(t.events, ledger, tx, watch, AnyKind(watch, MOVEMENTS)),
        OfTxChanges(t.changes, ledger, tx, watch, AnyKind(watch, TRUSTLINES), sac),
        Lost(t.events.None? || t.changes.None?), kind, r);
    }
  }

  /** Some event of the ledger yields the row, or some change. */
  ghost predicate AnEventYields(l: Ledger, watch: Watch, kind: string, r: Row) {
    exists ev, at :: HoldsEvent(l, ev, at) && EventYields(ev, at, watch, kind, r)
  }

  ghost predicate AChangeYields(l: Ledger, watch: Watch, sac: SacOf, kind: string, r: Row) {
    exists ch, at :: HoldsChange(l, ch, at) && ChangeYields(ch, at, watch, sac, kind, r)
  }

  ghost predicate EventOfTxYields(l: Ledger, i: nat, watch: Watch, kind: string, r: Row) {
    exists ev, at :: HoldsEvent(l, ev, at) && at.tx == i + 1 && EventYields(ev, at, watch, kind, r)
  }

  ghost predicate ChangeOfTxYields(l: Ledger, i: nat, watch: Watch, sac: SacOf, kind: string, r: Row) {
    exists ch, at :: HoldsChange(l, ch, at) && at.tx == i + 1 && ChangeYields(ch, at, watch, sac, kind, r)
  }

  lemma TxYieldsItsEvents(l: Ledger, i: nat, watch: Watch, kind: string, r: Row)
    requires i < |l.txs| && Counts(l.txs[i])
    ensures YieldsRow(OfTxEvents(l.txs[i].events, l.sequence, i + 1, watch, AnyKind(watch, MOVEMENTS)), kind, r) <==>
      EventOfTxYields(l, i, watch, kind, r)
  {
    if l.txs[i].events.Some? {
      var placed := Placed(l.txs[i].events.value, l.sequence, i + 1);
      if YieldsRow(OfEvents(placed, watch, AnyKind(watch, MOVEMENTS)), kind, r) {
        var n := YieldedEvent(placed, watch, kind, r);
        PlacedIsHeld(l, i, placed, n);
      }
      if ev, at :| HoldsEvent(l, ev, at) && at.tx == i + 1 && EventYields(ev, at, watch, kind, r) {
        HeldIsPlaced(l, i, placed, ev, at);
        EachEventYields(placed, at.index, watch, kind, r);
      }
    } else {
      assert !YieldsRow(NOTHING, kind, r);
    }
  }

  lemma PlacedIsHeld(l: Ledger, i: nat, placed: seq<(ContractEvent, Place)>, n: nat)
    requires i < |l.txs| && Counts(l.txs[i]) && l.txs[i].events.Some?
    requires placed == Placed(l.txs[i].events.value, l.sequence, i + 1) && n < |placed|
    ensures HoldsEvent(l, placed[n].0, placed[n].1) && placed[n].1.tx == i + 1
  {
    var o, e := PlacedIsAnEvent(l.txs[i].events.value, l.sequence, i + 1, n);
  }

  lemma HeldIsPlaced(l: Ledger, i: nat, placed: seq<(ContractEvent, Place)>, ev: ContractEvent, at: Place)
    requires i < |l.txs| && HoldsEvent(l, ev, at) && at.tx == i + 1
    requires placed == Placed(l.txs[i].events.value, l.sequence, i + 1)
    ensures at.index < |placed| && placed[at.index] == (ev, at)
  {
    var ops := l.txs[i].events.value;
    EveryEventIsPlaced(ops, l.sequence, i + 1, at.op, at.index - EventsBefore(ops, at.op));
  }

  lemma TxYieldsItsChanges(l: Ledger, i: nat, watch: Watch, sac: SacOf, kind: string, r: Row)
    requires i < |l.txs| && Counts(l.txs[i])
    ensures YieldsRow(OfTxChanges(l.txs[i].changes, l.sequence, i + 1, watch, AnyKind(watch, TRUSTLINES), sac), kind, r)
      <==> ChangeOfTxYields(l, i, watch, sac, kind, r)
  {
    if l.txs[i].changes.Some? {
      var changes := l.txs[i].changes.value;
      if YieldsRow(OfChanges(changes, l.sequence, i + 1, watch, AnyKind(watch, TRUSTLINES), sac), kind, r) {
        YieldedChangeIsHeld(l, i, changes, watch, sac, kind, r);
      } else if ChangeOfTxYields(l, i, watch, sac, kind, r) {
        HeldChangeYields(l, i, changes, watch, sac, kind, r);
      }
    } else {
      assert !YieldsRow(NOTHING, kind, r);
    }
  }

  lemma YieldedChangeIsHeld(l: Ledger, i: nat, changes: seq<Change>, watch: Watch, sac: SacOf, kind: string, r: Row)
    requires i < |l.txs| && Counts(l.txs[i]) && l.txs[i].changes == Some(changes)
    requires YieldsRow(OfChanges(changes, l.sequence, i + 1, watch, AnyKind(watch, TRUSTLINES), sac), kind, r)
    ensures ChangeOfTxYields(l, i, watch, sac, kind, r)
  {
    var n := YieldedChange(changes, l.sequence, i + 1, watch, sac, kind, r);
    assert HoldsChange(l, changes[n], Place(l.sequence, i + 1, 0, n));
  }

  lemma HeldChangeYields(l: Ledger, i: nat, changes: seq<Change>, watch: Watch, sac: SacOf, kind: string, r: Row)
    requires i < |l.txs| && Counts(l.txs[i]) && l.txs[i].changes == Some(changes)
    requires ChangeOfTxYields(l, i, watch, sac, kind, r)
    ensures YieldsRow(OfChanges(changes, l.sequence, i + 1, watch, AnyKind(watch, TRUSTLINES), sac), kind, r)
  {
    var ch, at :| HoldsChange(l, ch, at) && at.tx == i + 1 && ChangeYields(ch, at, watch, sac, kind, r);
    assert at == Place(l.sequence, i + 1, 0, at.index) && changes[at.index] == ch;
    EachChangeYields(changes, at.index, l.sequence, i + 1, watch, sac, kind, r);
  }

  lemma TxYieldsIff(l: Ledger, i: nat, watch: Watch, sac: SacOf, kind: string, r: Row)
    requires i < |l.txs|
    ensures TxYields(l, i, watch, sac, kind, r) <==>
      EventOfTxYields(l, i, watch, kind, r) || ChangeOfTxYields(l, i, watch, sac, kind, r)
  {
    TxYieldsItsResult(l, i, watch, sac, kind, r);
    RowsOfTx(l.txs[i], l.sequence, i + 1, watch, sac, kind, r);
    if Counts(l.txs[i]) {
      TxYieldsItsEvents(l, i, watch, kind, r);
      TxYieldsItsChanges(l, i, watch, sac, kind, r);
    }
  }

  /** A ledger yields a row exactly when one of its events or changes does. */
  lemma RowsOfLedger(l: Ledger, watch: Watch, sac: SacOf, kind: string, r: Row)
    requires |watch| > 0
    ensures YieldsRow(OfLedger(l, watch, sac), kind, r) <==>
      AnEventYields(l, watch, kind, r) || AChangeYields(l, watch, sac, kind, r)
  {
    assert l.txs[..|l.txs|] == l.txs;
    PrefixYieldsItsResult(l, |l.txs|, watch, sac, kind, r);
    AllTxsYield(l, watch, sac, kind, r);
  }

  lemma AllTxsYield(l: Ledger, watch: Watch, sac: SacOf, kind: string, r: Row)
    ensures PrefixYields(l, |l.txs|, watch, sac, kind, r) <==>
      AnEventYields(l, watch, kind, r) || AChangeYields(l, watch, sac, kind, r)
  {
    if PrefixYields(l, |l.txs|, watch, sac, kind, r) {
      SomethingYields(l, watch, sac, kind, r);
    } else if AnEventYields(l, watch, kind, r) {
      AnEventCarries(l, watch, sac, kind, r);
    } else if AChangeYields(l, watch, sac, kind, r) {
      AChangeCarries(l, watch, sac, kind, r);
    }
  }

  lemma SomethingYields(l: Ledger, watch: Watch, sac: SacOf, kind: string, r: Row)
    requires PrefixYields(l, |l.txs|, watch, sac, kind, r)
    ensures AnEventYields(l, watch, kind, r) || AChangeYields(l, watch, sac, kind, r)
  {
    var i := YieldedTx(l, |l.txs|, watch, sac, kind, r);
    TxYieldsIff(l, i, watch, sac, kind, r);
  }

  lemma AnEventCarries(l: Ledger, watch: Watch, sac: SacOf, kind: string, r: Row)
    requires AnEventYields(l, watch, kind, r)
    ensures PrefixYields(l, |l.txs|, watch, sac, kind, r)
  {
    var ev, at :| HoldsEvent(l, ev, at) && EventYields(ev, at, watch, kind, r);
    assert EventOfTxYields(l, at.tx - 1, watch, kind, r);
    YieldedByTx(l, at.tx - 1, watch, sac, kind, r);
  }

  lemma AChangeCarries(l: Ledger, watch: Watch, sac: SacOf, kind: string, r: Row)
    requires AChangeYields(l, watch, sac, kind, r)
    ensures PrefixYields(l, |l.txs|, watch, sac, kind, r)
  {
    var ch, at :| HoldsChange(l, ch, at) && ChangeYields(ch, at, watch, sac, kind, r);
    assert ChangeOfTxYields(l, at.tx - 1, watch, sac, kind, r);
    YieldedByTx(l, at.tx - 1, watch, sac, kind, r);
  }

  lemma YieldedByTx(l: Ledger, i: nat, watch: Watch, sac: SacOf, kind: string, r: Row)
    requires i < |l.txs| && (EventOfTxYields(l, i, watch, kind, r) || ChangeOfTxYields(l, i, watch, sac, kind, r))
    ensures PrefixYields(l, |l.txs|, watch, sac, kind, r)
  {
    TxYieldsIff(l, i, watch, sac, kind, r);
    EachTxYields(l, i, |l.txs|, watch, sac, kind, r);
  }

  // --- what is counted instead ----------------------------------------------------------------

  /** The transactions among the first n that did not succeed. */
  function FailedAmong(txs: seq<Tx>, n: nat): nat
    requires n <= |txs|
  {
    if n == 0 then 0 else FailedAmong(txs, n - 1) + if txs[n - 1].Tx? && !txs[n - 1].successful then 1 else 0
  }

  /** The transactions among the first n that could not be read, or only in part. */
  function BrokenAmong(txs: seq<Tx>, n: nat): nat
    requires n <= |txs|
  {
    if n == 0 then 0 else BrokenAmong(txs, n - 1) + if IsBroken(txs[n - 1]) then 1 else 0
  }

  predicate IsBroken(t: Tx) {
    t.UnreadableTx? || (t.successful && (t.events.None? || t.changes.None?))
  }

  lemma {:induction false} NoEventCountsTxs(placed: seq<(ContractEvent, Place)>, watch: Watch, wants: bool)
    ensures OfEvents(placed, watch, wants).failedTxs == 0 && OfEvents(placed, watch, wants).suppressedTxs == 0
    decreases |placed|
  {
    if placed != [] {
      NoEventCountsTxs(placed[..|placed| - 1], watch, wants);
    }
  }

  lemma {:induction false} NoChangeCountsTxs(changes: seq<Change>, ledger: uint32, tx: nat, watch: Watch, wants: bool,
      sac: SacOf)
    ensures var x := OfChanges(changes, ledger, tx, watch, wants, sac); x.failedTxs == 0 && x.suppressedTxs == 0
    decreases |changes|
  {
    if changes != [] {
      NoChangeCountsTxs(changes[..|changes| - 1], ledger, tx, watch, wants, sac);
    }
  }

  lemma ItsEventsCountNoTxs(t: Tx, ledger: uint32, tx: nat, watch: Watch, wants: bool)
    requires t.Tx?
    ensures var x := OfTxEvents(t.events, ledger, tx, watch, wants); x.failedTxs == 0 && x.suppressedTxs == 0
  {
    if t.events.Some? {
      NoEventCountsTxs(Placed(t.events.value, ledger, tx), watch, wants);
    }
  }

  lemma ItsChangesCountNoTxs(t: Tx, ledger: uint32, tx: nat, watch: Watch, wants: bool, sac: SacOf)
    requires t.Tx?
    ensures var x := OfTxChanges(t.changes, ledger, tx, watch, wants, sac); x.failedTxs == 0 && x.suppressedTxs == 0
  {
    if t.changes.Some? {
      NoChangeCountsTxs(t.changes.value, ledger, tx, watch, wants, sac);
    }
  }

  lemma JoinCountsTxs(events: Extracted, changes: Extracted, broken: bool)
    requires events.failedTxs == 0 && events.suppressedTxs == 0
    requires changes.failedTxs == 0 && changes.suppressedTxs == 0
    ensures var x := Join(Join(events, changes), Lost(broken));
      x.failedTxs == 0 && x.suppressedTxs == if broken then 1 else 0
  {
  }

  lemma OneTxIsCounted(t: Tx, ledger: uint32, tx: nat, watch: Watch, sac: SacOf)
    ensures var x := OfTx(t, ledger, tx, watch, sac);
      && x.failedTxs == (if t.Tx? && !t.successful then 1 else 0)
      && x.suppressedTxs == (if IsBroken(t) then 1 else 0)
  {
    if Counts(t) {
      var wants, lines := AnyKind(watch, MOVEMENTS), AnyKind(watch, TRUSTLINES);
      ItsEventsCountNoTxs(t, ledger, tx, watch, wants);
      ItsChangesCountNoTxs(t, ledger, tx, watch, lines, sac);
      JoinCountsTxs(OfTxEvents(t.events, ledger, tx, watch, wants),
        OfTxChanges(t.changes, ledger, tx, watch, lines, sac), t.events.None? || t.changes.None?);
    }
  }

  /** A failed transaction is counted as failed, a broken one once as suppressed, and no other. */
  lemma {:induction false} TxsAreCounted(txs: seq<Tx>, n: nat, ledger: uint32, watch: Watch, sac: SacOf)
    requires n <= |txs|
    ensures OfTxs(txs[..n], ledger, watch, sac).failedTxs == FailedAmong(txs, n)
    ensures OfTxs(txs[..n], ledger, watch, sac).suppressedTxs == BrokenAmong(txs, n)
  {
    if n > 0 {
      assert txs[..n][..n - 1] == txs[..n - 1];
      TxsAreCounted(txs, n - 1, ledger, watch, sac);
      OneTxIsCounted(txs[n - 1], ledger, n, watch, sac);
      JoinAdds(OfTxs(txs[..n - 1], ledger, watch, sac), OfTx(txs[n - 1], ledger, n, watch, sac));
      assert OfTxs(txs[..n], ledger, watch, sac) ==
        Join(OfTxs(txs[..n - 1], ledger, watch, sac), OfTx(txs[n - 1], ledger, n, watch, sac));
    }
  }

  lemma JoinAdds(a: Extracted, b: Extracted)
    ensures Join(a, b).failedTxs == a.failedTxs + b.failedTxs
    ensures Join(a, b).suppressedTxs == a.suppressedTxs + b.suppressedTxs
  {
  }

  /** A movement's event that states none: its watched emitter's is counted as a suppressed transfer, and
      one nobody's transfers are watched for as foreign when a watched contract is among its topics. */
  lemma UndecodedIsCounted(ev: ContractEvent, id: string, at: Place, watch: Watch)
    requires Emits(ev, id)
    ensures var x := OfEvent(ev, at, watch, AnyKind(watch, MOVEMENTS));
      && (x.suppressedTransfers == 1 <==> IsUndecoded(ev) && WatchedFor(watch, id, "transfers"))
      && (x.foreignUndecodable == 1 <==>
            IsUndecoded(ev) && !WatchedFor(watch, id, "transfers") && AnyKind(watch, "movements") &&
            Participates(ev.body.value, watch))
      && (x.suppressedEvents == 1 <==> ev.body.None? && WatchedFor(watch, id, "events"))
      && x.suppressedTransfers <= 1 && x.foreignUndecodable <= 1 && x.suppressedEvents <= 1
  {
    UndecodedIsNotDecoded(ev);
  }

  lemma UndecodedIsNotDecoded(ev: ContractEvent)
    ensures IsUndecoded(ev) <==>
      MovementName(ev).Some? && Decode(ev.body.value, MovementName(ev).value).None?
  {
    if MovementName(ev).Some? {
      var t := MovementName(ev).value;
      SymbolsName(ev.body.value.topics[0].name, t);
      assert OpensWith(ev, SymbolOf(t));
      forall d
        ensures Moves(ev, d) <==> Decode(ev.body.value, t) == Some(d)
      {
        MovesWhatIsDecoded(ev, d);
        if Decode(ev.body.value, t) == Some(d) {
          DecodesExactlyWhatIsStated(ev.body.value, t, d);
        }
      }
    } else if t :| OpensWith(ev, SymbolOf(t)) {
      SymbolsName(ev.body.value.topics[0].name, t);
    }
  }

  /** The event opens like a movement and states none. */
  ghost predicate IsUndecoded(ev: ContractEvent) {
    (exists t :: OpensWith(ev, SymbolOf(t))) && forall d :: !Moves(ev, d)
  }

  // --- nothing lost, nothing invented -----------------------------------------------------

  /** What a change yields is no event, transfer or movement. */
  lemma ChangesYieldTheirOwn(r: Row, kind: string)
    requires kind in [EVENTS, TRANSFERS, MOVEMENTS]
    ensures forall ch, at, watch, sac :: !ChangeYields(ch, at, watch, sac, kind, r)
  {
    forall ch, at, watch, sac
      ensures !ChangeYields(ch, at, watch, sac, kind, r)
    {
      assert IsOfChange(OfChange(ch, at, watch, AnyKind(watch, TRUSTLINES), sac), ch, at, watch, sac);
    }
  }

  /** What an event yields is neither a state nor a trustline row. */
  lemma EventsYieldTheirOwn(r: Row, kind: string)
    requires kind in [STATE, TRUSTLINES]
    ensures forall ev, at, watch :: !EventYields(ev, at, watch, kind, r)
  {
    forall ev, at, watch
      ensures !EventYields(ev, at, watch, kind, r)
    {
      assert IsOfEvent(OfEvent(ev, at, watch, AnyKind(watch, MOVEMENTS)), ev, at, watch);
    }
  }

  /** The event rows of a ledger are exactly those its watched contracts' events call for. */
  lemma EventRowsAreTheEvents(l: Ledger, watch: Watch, sac: SacOf, r: Row)
    ensures r in OfLedger(l, watch, sac).events <==>
      exists ev, at :: HoldsEvent(l, ev, at) && IsEventRow(ev, at, watch, r)
  {
    forall ev, at
      ensures EventYields(ev, at, watch, EVENTS, r) <==> IsEventRow(ev, at, watch, r)
    {
      assert IsOfEvent(OfEvent(ev, at, watch, AnyKind(watch, MOVEMENTS)), ev, at, watch);
      EventsOfOne(ev, at, watch, r);
    }
    ChangesYieldTheirOwn(r, EVENTS);
    if |watch| > 0 {
      RowsOfLedger(l, watch, sac, EVENTS, r);
      assert YieldsRow(OfLedger(l, watch, sac), EVENTS, r) <==> r in OfLedger(l, watch, sac).events;
    }
  }

  /** Its transfers are exactly the movements its watched emitters state. */
  lemma TransferRowsAreTheMovements(l: Ledger, watch: Watch, sac: SacOf, r: Row)
    ensures r in OfLedger(l, watch, sac).transfers <==>
      exists ev, at :: HoldsEvent(l, ev, at) && IsTransferRow(ev, at, watch, r)
  {
    forall ev, at
      ensures EventYields(ev, at, watch, TRANSFERS, r) <==> IsTransferRow(ev, at, watch, r)
    {
      assert IsOfEvent(OfEvent(ev, at, watch, AnyKind(watch, MOVEMENTS)), ev, at, watch);
      TransfersOfOne(ev, at, watch, r);
    }
    ChangesYieldTheirOwn(r, TRANSFERS);
    if |watch| > 0 {
      RowsOfLedger(l, watch, sac, TRANSFERS, r);
      assert YieldsRow(OfLedger(l, watch, sac), TRANSFERS, r) <==> r in OfLedger(l, watch, sac).transfers;
    }
  }

  /** Its movements are exactly the watched sides of stated movements, whoever emitted them. */
  lemma MovementRowsAreTheWatchedSides(l: Ledger, watch: Watch, sac: SacOf, r: Row)
    requires WatchesContracts(watch)
    ensures r in OfLedger(l, watch, sac).movements <==>
      exists ev, at :: HoldsEvent(l, ev, at) && IsMovementRow(ev, at, watch, r)
  {
    forall ev, at
      ensures EventYields(ev, at, watch, MOVEMENTS, r) <==> IsMovementRow(ev, at, watch, r)
    {
      assert IsOfEvent(OfEvent(ev, at, watch, AnyKind(watch, MOVEMENTS)), ev, at, watch);
      MovementsOfOne(ev, at, watch, r);
    }
    ChangesYieldTheirOwn(r, MOVEMENTS);
    if |watch| > 0 {
      RowsOfLedger(l, watch, sac, MOVEMENTS, r);
      assert YieldsRow(OfLedger(l, watch, sac), MOVEMENTS, r) <==> r in OfLedger(l, watch, sac).movements;
    }
  }

  /** Its state rows are exactly those its watched contracts' data changes call for. */
  lemma StateRowsAreTheChanges(l: Ledger, watch: Watch, sac: SacOf, r: Row)
    ensures r in OfLedger(l, watch, sac).states <==>
      exists ch, at :: HoldsChange(l, ch, at) && IsStateRow(ch, at, watch, r)
  {
    forall ch, at
      ensures ChangeYields(ch, at, watch, sac, STATE, r) <==> IsStateRow(ch, at, watch, r)
    {
      assert IsOfChange(OfChange(ch, at, watch, AnyKind(watch, TRUSTLINES), sac), ch, at, watch, sac);
      StatesOfOne(ch, at, watch, AnyKind(watch, TRUSTLINES), sac, r);
    }
    EventsYieldTheirOwn(r, STATE);
    if |watch| > 0 {
      RowsOfLedger(l, watch, sac, STATE, r);
      assert YieldsRow(OfLedger(l, watch, sac), STATE, r) <==> r in OfLedger(l, watch, sac).states;
    }
  }

  /** Its trustline rows are exactly those the changes to watched assets call for. */
  lemma TrustlineRowsAreTheChanges(l: Ledger, watch: Watch, sac: SacOf, r: Row)
    ensures r in OfLedger(l, watch, sac).trustlines <==>
      exists ch, at :: HoldsChange(l, ch, at) && IsTrustlineRow(ch, at, watch, sac, r)
  {
    forall ch, at
      ensures ChangeYields(ch, at, watch, sac, TRUSTLINES, r) <==> IsTrustlineRow(ch, at, watch, sac, r)
    {
      assert IsOfChange(OfChange(ch, at, watch, AnyKind(watch, TRUSTLINES), sac), ch, at, watch, sac);
      TrustlinesOfOne(ch, at, watch, sac, r);
    }
    EventsYieldTheirOwn(r, TRUSTLINES);
    if |watch| > 0 {
      RowsOfLedger(l, watch, sac, TRUSTLINES, r);
      assert YieldsRow(OfLedger(l, watch, sac), TRUSTLINES, r) <==> r in OfLedger(l, watch, sac).trustlines;
    }
  }
}
