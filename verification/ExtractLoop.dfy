// The extraction loops: each appends to one shared result in place, and leaves exactly
// what the row-by-row definitions of Extract say.
module ExtractLoop {
  import opened Basics
  import opened Extract
  import opened Scan

  /** The records of one ledger so far, plus the distrust counters. */
  class Result {
    var events: seq<Row>
    var states: seq<Row>
    var transfers: seq<Row>
    var trustlines: seq<Row>
    var movements: seq<Row>
    var failedTxs: nat
    var suppressedTxs: nat
    var suppressedEvents: nat
    var suppressedTransfers: nat
    var suppressedTrustlines: nat
    var foreignUndecodable: nat

    function Value(): Extracted
      reads this
    {
      Extracted(events, states, transfers, trustlines, movements, failedTxs, suppressedTxs, suppressedEvents,
        suppressedTransfers, suppressedTrustlines, foreignUndecodable)
    }

    constructor ()
      ensures Value() == NOTHING
    {
      events, states, transfers, trustlines, movements := [], [], [], [], [];
      failedTxs, suppressedTxs, suppressedEvents := 0, 0, 0;
      suppressedTransfers, suppressedTrustlines, foreignUndecodable := 0, 0, 0;
    }
  }

  /** One event: the emitter's own row, its transfer, and the movements of the watched parties. */
  method ExtractEvent(ev: ContractEvent, at: Place, watch: Watch, wantMovements: bool, res: Result)
    modifies res
    ensures res.Value() == Join(old(res.Value()), OfEvent(ev, at, watch, wantMovements))
  {
    if !ev.isContractType || ev.emitter.None? {
      return;
    }
    var id := ContractId(ev.emitter.value);
    if WatchedFor(watch, id, EVENTS) {
      if ev.body.None? {
        res.suppressedEvents := res.suppressedEvents + 1;
      } else {
        res.events := res.events + [EventRow(id, at.ledger, at.tx, at.op, at.index, NameOf(ev.body.value), ev)];
      }
    }
    ghost var mid := res.Value();
    assert mid == Join(old(res.Value()), EventPart(ev, id, at, watch));
    ExtractMovement(ev, id, at, watch, wantMovements, res);
    JoinAssociates(old(res.Value()), EventPart(ev, id, at, watch), MovementPart(ev, id, at, watch, wantMovements));
  }

  /** Guards run cheapest first: the kinds, then the name, then the parties, then the decoding. */
  method ExtractMovement(ev: ContractEvent, id: string, at: Place, watch: Watch, wantMovements: bool, res: Result)
    modifies res
    ensures res.Value() == Join(old(res.Value()), MovementPart(ev, id, at, watch, wantMovements))
  {
    var emits := WatchedFor(watch, id, TRANSFERS);
    if !emits && !wantMovements {
      return;
    }
    if ev.body.None? || |ev.body.value.topics| == 0 || !ev.body.value.topics[0].Sym? {
      return;
    }
    var name := TransferNamed(ev.body.value.topics[0].name);
    if name.None? {
      return;
    }
    var wants := wantMovements;
    if wants {
      wants := ParticipatesWatched(ev.body.value, watch);
    }
    if !emits && !wants {
      return;
    }
    var t := BuildTransfer(ev.body.value, name.value);
    if t.None? {
      if emits {
        res.suppressedTransfers := res.suppressedTransfers + 1;
      } else {
        res.foreignUndecodable := res.foreignUndecodable + 1;
      }
      return;
    }
    if emits {
      res.transfers := res.transfers + [TransferRow(id, at.ledger, at.tx, at.op, at.index, t.value)];
    }
    if wants {
      res.movements := res.movements + MovementsOf(t.value, id, ev, at, watch);
    }
  }

  lemma JoinAssociates(a: Extracted, b: Extracted, c: Extracted)
    ensures Join(Join(a, b), c) == Join(a, Join(b, c))
  {
  }

  /** The event index runs across every operation, counted before filtering. */
  method TxEvents(read: Option<seq<seq<ContractEvent>>>, ledger: uint32, tx: nat, watch: Watch, wantMovements: bool,
      res: Result)
      returns (ok: bool)
    modifies res
    ensures ok == read.Some?
    ensures res.Value() == Join(old(res.Value()), OfTxEvents(read, ledger, tx, watch, wantMovements))
  {
    if read.None? {
      return false;
    }
    var ops, eventIndex := read.value, 0;
    ghost var start := res.Value();
    NothingYielded(start, watch, wantMovements);
    for op := 0 to |ops|
      invariant eventIndex == |Placed(ops[..op], ledger, tx)|
      invariant Yielded(start, res.Value(), Placed(ops[..op], ledger, tx), watch, wantMovements)
    {
      OpEvents(ops[op], Placed(ops[..op], ledger, tx), start, ledger, tx, op, eventIndex, watch, wantMovements, res);
      eventIndex := eventIndex + |ops[op]|;
      OneMoreOp(ops, op, ledger, tx);
    }
    assert ops[..|ops|] == ops;
    ghost var placed := Placed(ops, ledger, tx);
    assert IsYield(start, Join(start, OfEvents(placed, watch, wantMovements)), placed, watch, wantMovements);
    return true;
  }

  lemma OneMoreOp(ops: seq<seq<ContractEvent>>, op: nat, ledger: uint32, tx: nat)
    requires op < |ops|
    ensures var before := Placed(ops[..op], ledger, tx);
      Placed(ops[..op + 1], ledger, tx) == before + PlacedIn(ops[op], ledger, tx, op, |before|)
  {
    assert ops[..op + 1][..op] == ops[..op];
  }

  /** Appends the rows of one operation's events, numbered from `first` on. */
  method OpEvents(events: seq<ContractEvent>, ghost before: seq<(ContractEvent, Place)>, ghost start: Extracted,
      ledger: uint32, tx: nat, op: nat, first: nat, watch: Watch, wantMovements: bool, res: Result)
    requires Yielded(start, res.Value(), before, watch, wantMovements)
    modifies res
    ensures Yielded(start, res.Value(), before + PlacedIn(events, ledger, tx, op, first), watch, wantMovements)
  {
    assert before + PlacedIn(events[..0], ledger, tx, op, first) == before;
    for i := 0 to |events|
      invariant Yielded(start, res.Value(), before + PlacedIn(events[..i], ledger, tx, op, first), watch, wantMovements)
    {
      ghost var was := res.Value();
      var at := Place(ledger, tx, op, first + i);
      ExtractEvent(events[i], at, watch, wantMovements, res);
      assert before + PlacedIn(events[..i + 1], ledger, tx, op, first) ==
        before + PlacedIn(events[..i], ledger, tx, op, first) + [(events[i], at)];
      OneMoreEvent(start, was, res.Value(), before + PlacedIn(events[..i], ledger, tx, op, first), events[i], at,
        watch, wantMovements);
    }
    assert events[..|events|] == events;
  }

  /** now is start joined with everything the placed events yield. */
  ghost predicate Yielded(start: Extracted, now: Extracted, placed: seq<(ContractEvent, Place)>, watch: Watch,
      wantMovements: bool)
  {
    forall x :: IsYield(start, x, placed, watch, wantMovements) ==> x == now
  }

  ghost predicate IsYield(start: Extracted, x: Extracted, placed: seq<(ContractEvent, Place)>, watch: Watch,
      wantMovements: bool)
  {
    x == Join(start, OfEvents(placed, watch, wantMovements))
  }

  lemma NothingYielded(start: Extracted, watch: Watch, wantMovements: bool)
    ensures Yielded(start, start, [], watch, wantMovements)
  {
  }

  lemma OneMoreEvent(start: Extracted, was: Extracted, now: Extracted, placed: seq<(ContractEvent, Place)>,
      ev: ContractEvent, at: Place, watch: Watch, wantMovements: bool)
    requires Yielded(start, was, placed, watch, wantMovements)
    requires now == Join(was, OfEvent(ev, at, watch, wantMovements))
    ensures Yielded(start, now, placed + [(ev, at)], watch, wantMovements)
  {
    var more := placed + [(ev, at)];
    assert more[..|more| - 1] == placed;
    assert IsYield(start, Join(start, OfEvents(placed, watch, wantMovements)), placed, watch, wantMovements);
    JoinAssociates(start, OfEvents(placed, watch, wantMovements), OfEvent(ev, at, watch, wantMovements));
  }

  method ExtractState(ch: Change, at: Place, watch: Watch, res: Result)
    modifies res
    ensures res.Value() == Join(old(res.Value()), OfState(ch, at, watch))
  {
    var entry := ch.post;
    if entry.None? {
      entry := ch.pre;
    }
    if entry.None? || !entry.value.ContractData? || entry.value.owner.None? {
      return;
    }
    var id := ContractId(entry.value.owner.value);
    if !WatchedFor(watch, id, STATE) {
      return;
    }
    var pre, post := SideValue(ch.pre), SideValue(ch.post);
    if ch.changeType == Unsupported || pre.None? || post.None? {
      res.suppressedEvents := res.suppressedEvents + 1;
      return;
    }
    res.states := res.states + [StateRow(id, at.ledger, at.tx, ch.op, at.index, ch.changeType, entry.value.key,
      entry.value.temporary, pre.value, post.value)];
  }

  method ExtractTrustline(ch: Change, at: Place, watch: Watch, sac: SacOf, res: Result)
    modifies res
    ensures res.Value() == Join(old(res.Value()), OfTrustline(ch, at, watch, sac))
  {
    var entry := ch.post;
    if entry.None? {
      entry := ch.pre;
    }
    if entry.None? || !entry.value.TrustLine? || entry.value.asset.PoolShare? {
      return;
    }
    var id := sac(entry.value.asset);
    if id.None? {
      res.suppressedTrustlines := res.suppressedTrustlines + 1;
      return;
    }
    if !WatchedFor(watch, id.value, TRUSTLINES) {
      return;
    }
    if ch.changeType == Unsupported || entry.value.account.None? {
      res.suppressedTrustlines := res.suppressedTrustlines + 1;
      return;
    }
    var pre, post := TrustlineSide(ch.pre), TrustlineSide(ch.post);
    var flags := if post.Some? then post.value.flags else if pre.Some? then pre.value.flags else 0;
    res.trustlines := res.trustlines + [TrustlineRow(id.value, at.ledger, at.tx, ch.op, at.index, ch.changeType,
      entry.value.account.value, entry.value.asset, pre, post, flags)];
  }

  method TxLedgerChanges(read: Option<seq<Change>>, ledger: uint32, tx: nat, watch: Watch, wantTrustlines: bool,
      sac: SacOf, res: Result)
      returns (ok: bool)
    modifies res
    ensures ok == read.Some?
    ensures res.Value() == Join(old(res.Value()), OfTxChanges(read, ledger, tx, watch, wantTrustlines, sac))
  {
    if read.None? {
      return false;
    }
    var changes := read.value;
    ghost var start := res.Value();
    for i := 0 to |changes|
      invariant res.Value() == Join(start, OfChanges(changes[..i], ledger, tx, watch, wantTrustlines, sac))
    {
      ExtractChange(changes[i], Place(ledger, tx, 0, i), watch, wantTrustlines, sac, res);
      OneMoreChange(start, changes, i, ledger, tx, watch, wantTrustlines, sac);
    }
    assert changes[..|changes|] == changes;
    return true;
  }

  method ExtractChange(ch: Change, at: Place, watch: Watch, wantTrustlines: bool, sac: SacOf, res: Result)
    modifies res
    ensures res.Value() == Join(old(res.Value()), OfChange(ch, at, watch, wantTrustlines, sac))
  {
    match ch.entryType {
      case ContractDataEntry => ExtractState(ch, at, watch, res);
      case TrustlineEntry =>
        if wantTrustlines {
          ExtractTrustline(ch, at, watch, sac, res);
        }
      case OtherEntryType =>
    }
  }

  lemma OneMoreChange(start: Extracted, changes: seq<Change>, i: nat, ledger: uint32, tx: nat, watch: Watch,
      wantTrustlines: bool, sac: SacOf)
    requires i < |changes|
    ensures Join(start, OfChanges(changes[..i + 1], ledger, tx, watch, wantTrustlines, sac)) ==
      Join(Join(start, OfChanges(changes[..i], ledger, tx, watch, wantTrustlines, sac)),
        OfChange(changes[i], Place(ledger, tx, 0, i), watch, wantTrustlines, sac))
  {
    assert changes[..i + 1][..i] == changes[..i];
    JoinAssociates(start, OfChanges(changes[..i], ledger, tx, watch, wantTrustlines, sac),
      OfChange(changes[i], Place(ledger, tx, 0, i), watch, wantTrustlines, sac));
  }

  method ProcessTx(t: Tx, ledger: uint32, tx: nat, watch: Watch, wantMovements: bool, wantTrustlines: bool,
      sac: SacOf, res: Result)
    requires wantMovements == AnyKind(watch, MOVEMENTS) && wantTrustlines == AnyKind(watch, TRUSTLINES)
    modifies res
    ensures res.Value() == Join(old(res.Value()), OfTx(t, ledger, tx, watch, sac))
  {
    if t.UnreadableTx? {
      res.suppressedTxs := res.suppressedTxs + 1;
      return;
    }
    if !t.successful {
      res.failedTxs := res.failedTxs + 1;
      return;
    }
    ghost var start := res.Value();
    var eventsOK := TxEvents(t.events, ledger, tx, watch, wantMovements, res);
    var stateOK := TxLedgerChanges(t.changes, ledger, tx, watch, wantTrustlines, sac, res);
    if !eventsOK || !stateOK {
      res.suppressedTxs := res.suppressedTxs + 1;
    }
    JoinThree(start, OfTxEvents(t.events, ledger, tx, watch, wantMovements),
      OfTxChanges(t.changes, ledger, tx, watch, wantTrustlines, sac), t.events.None? || t.changes.None?);
  }

  lemma JoinThree(start: Extracted, e: Extracted, c: Extracted, broken: bool)
    ensures Join(start, Join(Join(e, c), Lost(broken))) ==
      (var x := Join(Join(start, e), c); x.(suppressedTxs := x.suppressedTxs + if broken then 1 else 0))
  {
  }

  /** Every row a ledger yields for the watched contracts; what the registry makes worth
      doing is decided once per ledger. */
  method Events(l: Ledger, watch: Watch, sac: SacOf) returns (res: Result)
    ensures fresh(res) && res.Value() == OfLedger(l, watch, sac)
  {
    res := new Result();
    if |watch| == 0 {
      return;
    }
    ProcessTxs(l.txs, l.sequence, watch, sac, res);
  }

  method ProcessTxs(txs: seq<Tx>, ledger: uint32, watch: Watch, sac: SacOf, res: Result)
    requires res.Value() == NOTHING
    modifies res
    ensures res.Value() == OfTxs(txs, ledger, watch, sac)
  {
    var wantMovements, wantTrustlines := AnyKind(watch, MOVEMENTS), AnyKind(watch, TRUSTLINES);
    for i := 0 to |txs|
      invariant res.Value() == OfTxs(txs[..i], ledger, watch, sac)
    {
      ProcessTx(txs[i], ledger, i + 1, watch, wantMovements, wantTrustlines, sac, res);
      OneMoreTx(txs, i, ledger, watch, sac);
    }
    assert txs[..|txs|] == txs;
  }

  lemma OneMoreTx(txs: seq<Tx>, i: nat, ledger: uint32, watch: Watch, sac: SacOf)
    requires i < |txs|
    ensures OfTxs(txs[..i + 1], ledger, watch, sac) == Join(OfTxs(txs[..i], ledger, watch, sac),
      OfTx(txs[i], ledger, i + 1, watch, sac))
  {
    var more := txs[..i + 1];
    assert more[..|more| - 1] == txs[..i] && more[|more| - 1] == txs[i];
  }

  /** Appends one more ledger of a range to what the range yielded so far. */
  method Accumulate(acc: Extracted, l: Ledger, watch: Watch, sac: SacOf, ghost chain: Chain, ghost from: nat,
      ghost at: nat)
      returns (all: Extracted)
    requires l == chain(at) && from <= at && Scanned(acc, chain, from, at - 1, watch, sac)
    ensures Scanned(all, chain, from, at, watch, sac)
  {
    ScannedIsTheYield(acc, chain, from, at - 1, watch, sac);
    var res := Events(l, watch, sac);
    all := Join(acc, res.Value());
  }
}
