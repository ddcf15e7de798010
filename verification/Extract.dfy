// Extraction (internal/extract): one closed ledger in, canonical rows out, as filters
// over an abstract list of events and ledger-entry changes. Marshalling is abstracted:
// a value stands for its own encoding, and nothing panics.
module Extract {
  import opened Basics

  // --- what the chain hands over ---------------------------------------------

  datatype Address = Contract(raw: string) | Account(raw: string) | Muxed(raw: string) | Unprintable

  datatype ScVal =
    | Sym(name: string)
    | Str(text: string)
    | Addr(address: Address)
    | I128(amount: int)
    | U64(number: nat)
    | Bytes(bytes: seq<bv8>)
    | Map(entries: Option<seq<(ScVal, ScVal)>>)
    | Other

  datatype Body = Body(topics: seq<ScVal>, data: ScVal)

  /** body is None for an event version this decoder does not know. */
  datatype ContractEvent = ContractEvent(isContractType: bool, emitter: Option<string>, body: Option<Body>)

  datatype ChangeType = Created | Updated | Removed | Restored | Unsupported

  datatype Asset = Native | Credit(code: string, issuer: string) | PoolShare

  datatype Entry =
    | ContractData(owner: Option<string>, key: ScVal, value: ScVal, temporary: bool)
    | TrustLine(asset: Asset, account: Option<string>, balance: int, limit: int, flags: nat)
    | OtherEntry

  datatype EntryType = ContractDataEntry | TrustlineEntry | OtherEntryType

  datatype Change = Change(entryType: EntryType, changeType: ChangeType, op: nat, pre: Option<Entry>,
      post: Option<Entry>)

  /** None for events or changes means the transaction's meta could not be read. */
  datatype Tx =
    | UnreadableTx
    | Tx(successful: bool, events: Option<seq<seq<ContractEvent>>>, changes: Option<seq<Change>>)

  datatype Ledger = Ledger(sequence: uint32, txs: seq<Tx>)

  /** The watched contracts and the kinds each registration derives. */
  type Watch = map<string, seq<string>>

  const EVENTS := "events"
  const STATE := "state"
  const TRANSFERS := "transfers"
  const TRUSTLINES := "trustlines"
  const MOVEMENTS := "movements"

  // --- what extraction produces ----------------------------------------------

  datatype TransferType = Transfer | Mint | Burn | Clawback

  datatype Role = Sender | Recipient

  /** One stored row, attributed to the contract that owns it. */
  datatype Row =
    | EventRow(contract: string, ledger: uint32, tx: nat, op: nat, index: nat, name: string, raw: ContractEvent)
    | TransferRow(contract: string, ledger: uint32, tx: nat, op: nat, index: nat, transfer: Decoded)
    | MovementRow(contract: string, ledger: uint32, tx: nat, index: nat, role: Role, token: string,
        transferType: TransferType, counterparty: string, amount: nat, raw: ContractEvent)
    | StateRow(contract: string, ledger: uint32, tx: nat, op: nat, index: nat, changeType: ChangeType,
        key: ScVal, temporary: bool, pre: Option<ScVal>, post: Option<ScVal>)
    | TrustlineRow(contract: string, ledger: uint32, tx: nat, op: nat, index: nat, changeType: ChangeType,
        account: string, asset: Asset, preEntry: Option<Entry>, postEntry: Option<Entry>, flags: nat)

  /** A token movement as its event states it; an absent side is the empty string. */
  datatype Decoded = Decoded(transferType: TransferType, from: string, to: string, amount: nat,
    muxedId: Option<ScVal>, asset: string)

  datatype Extracted = Extracted(
    events: seq<Row>, states: seq<Row>, transfers: seq<Row>, trustlines: seq<Row>, movements: seq<Row>,
    failedTxs: nat, suppressedTxs: nat, suppressedEvents: nat,
    suppressedTransfers: nat, suppressedTrustlines: nat, foreignUndecodable: nat)

  const NOTHING := Extracted([], [], [], [], [], 0, 0, 0, 0, 0, 0)

  function Join(a: Extracted, b: Extracted): Extracted {
    Extracted(a.events + b.events, a.states + b.states, a.transfers + b.transfers,
      a.trustlines + b.trustlines, a.movements + b.movements,
      a.failedTxs + b.failedTxs, a.suppressedTxs + b.suppressedTxs, a.suppressedEvents + b.suppressedEvents,
      a.suppressedTransfers + b.suppressedTransfers, a.suppressedTrustlines + b.suppressedTrustlines,
      a.foreignUndecodable + b.foreignUndecodable)
  }

  predicate WatchedFor(watch: Watch, id: string, kind: string) {
    id in watch && kind in watch[id]
  }

  predicate AnyKind(watch: Watch, kind: string) {
    exists id :: id in watch && kind in watch[id]
  }

  // --- addresses -------------------------------------------------------------

  /** strkey: a version character, then the payload; only contracts start with C. */
  function StrKey(a: Address): Option<string> {
    match a
    case Contract(raw) => Some(ContractId(raw))
    case Account(raw) => Some("G" + raw)
    case Muxed(raw) => Some("M" + raw)
    case Unprintable => None
  }

  function ContractId(raw: string): string {
    "C" + raw
  }

  predicate IsContractId(id: string) {
    id != "" && id[0] == 'C'
  }

  // --- decoding one token movement -------------------------------------------

  function TransferNamed(name: string): Option<TransferType> {
    if name == "transfer" then Some(Transfer)
    else if name == "mint" then Some(Mint)
    else if name == "burn" then Some(Burn)
    else if name == "clawback" then Some(Clawback)
    else None
  }

  /** Addresses in topic order and the trailing asset string; None when a topic is neither. */
  function ReadTopics(topics: seq<ScVal>): Option<(seq<string>, string)>
    decreases |topics|
  {
    if topics == [] then
      Some(([], ""))
    else
      var last := topics[|topics| - 1];
      match ReadTopics(topics[..|topics| - 1])
      case None => None
      case Some((addrs, asset)) =>
        match last
        case Addr(a) => (match StrKey(a) case None => None case Some(s) => Some((addrs + [s], asset)))
        case Str(text) => Some((addrs, text))
        case _ => None
  }

  /** Which addresses are the two sides, per event name and over both topic generations. */
  function SidesOf(t: TransferType, addrs: seq<string>): Option<(string, string)> {
    match t
    case Transfer => if |addrs| == 2 then Some((addrs[0], addrs[1])) else None
    case Mint => if |addrs| == 0 then None else Some(("", addrs[|addrs| - 1]))
    case Burn => if |addrs| == 0 then None else Some((addrs[0], ""))
    case Clawback => if |addrs| == 0 then None else Some((addrs[|addrs| - 1], ""))
  }

  function MapKey(v: ScVal): Option<string> {
    match v
    case Sym(name) => Some(name)
    case Str(text) => Some(text)
    case _ => None
  }

  /** The amount and the destination muxed id read from the entries so far. */
  function ReadMap(entries: seq<(ScVal, ScVal)>): Option<(Option<nat>, Option<ScVal>)>
    decreases |entries|
  {
    if entries == [] then
      Some((None, None))
    else
      var (k, v) := entries[|entries| - 1];
      match ReadMap(entries[..|entries| - 1])
      case None => None
      case Some((amount, muxed)) =>
        if MapKey(k) == Some("amount") then
          if v.I128? && v.amount >= 0 then Some((Some(v.amount), muxed)) else None
        else if MapKey(k) == Some("to_muxed_id") then
          if v.U64? || v.Bytes? || v.Str? then Some((amount, Some(v))) else None
        else
          None
  }

  /** A bare amount (classic) or a map carrying an amount and a muxed id (unified). */
  function DecodeData(v: ScVal): Option<(nat, Option<ScVal>)> {
    match v
    case I128(amount) => if amount >= 0 then Some((amount, None)) else None
    case Map(Some(entries)) =>
      (match ReadMap(entries)
       case Some((Some(amount), muxed)) => Some((amount, muxed))
       case _ => None)
    case _ => None
  }

  function Decode(body: Body, t: TransferType): Option<Decoded>
    requires body.topics != []
  {
    match ReadTopics(body.topics[1..])
    case None => None
    case Some((addrs, asset)) =>
      match SidesOf(t, addrs)
      case None => None
      case Some((from, to)) =>
        match DecodeData(body.data)
        case None => None
        case Some((amount, muxed)) => Some(Decoded(t, from, to, amount, muxed, asset))
  }

  /** buildTransfer: accumulates addresses and asset over the topics, then maps positions per type. */
  method BuildTransfer(body: Body, t: TransferType) returns (r: Option<Decoded>)
    requires body.topics != []
    ensures r == Decode(body, t)
  {
    var rest := body.topics[1..];
    var addrs: seq<string>, asset := [], "";
    for i := 0 to |rest|
      invariant ReadTopics(rest[..i]) == Some((addrs, asset))
    {
      assert rest[..i + 1][..i] == rest[..i];
      match rest[i] {
        case Addr(a) =>
          if StrKey(a).None? {
            TopicsStayUnread(rest, i + 1);
            return None;
          }
          addrs := addrs + [StrKey(a).value];
        case Str(text) => asset := text;
        case _ =>
          TopicsStayUnread(rest, i + 1);
          return None;
      }
    }
    assert rest[..|rest|] == rest;
    var sides := SidesOf(t, addrs);
    if sides.None? {
      return None;
    }
    var data := DecodeTransferData(body.data);
    if data.None? {
      return None;
    }
    return Some(Decoded(t, sides.value.0, sides.value.1, data.value.0, data.value.1, asset));
  }

  lemma {:induction false} TopicsStayUnread(topics: seq<ScVal>, i: nat)
    requires i <= |topics| && ReadTopics(topics[..i]).None?
    ensures ReadTopics(topics).None?
    decreases |topics| - i
  {
    if i < |topics| {
      assert topics[..i + 1][..i] == topics[..i];
      TopicsStayUnread(topics, i + 1);
    } else {
      assert topics[..i] == topics;
    }
  }

  method DecodeTransferData(v: ScVal) returns (r: Option<(nat, Option<ScVal>)>)
    ensures r == DecodeData(v)
  {
    match v {
      case I128(amount) => return if amount >= 0 then Some((amount, None)) else None;
      case Map(Some(entries)) =>
        var amount: Option<nat>, muxed: Option<ScVal> := None, None;
        for i := 0 to |entries|
          invariant ReadMap(entries[..i]) == Some((amount, muxed))
        {
          assert entries[..i + 1][..i] == entries[..i];
          var (k, val) := entries[i];
          if MapKey(k) == Some("amount") && val.I128? && val.amount >= 0 {
            amount := Some(val.amount);
          } else if MapKey(k) == Some("to_muxed_id") && (val.U64? || val.Bytes? || val.Str?) {
            muxed := Some(val);
          } else {
            EntriesStayUnread(entries, i + 1);
            return None;
          }
        }
        assert entries[..|entries|] == entries;
        return if amount.Some? then Some((amount.value, muxed)) else None;
      case _ => return None;
    }
  }

  lemma {:induction false} EntriesStayUnread(entries: seq<(ScVal, ScVal)>, i: nat)
    requires i <= |entries| && ReadMap(entries[..i]).None?
    ensures ReadMap(entries).None?
    decreases |entries| - i
  {
    if i < |entries| {
      assert entries[..i + 1][..i] == entries[..i];
      EntriesStayUnread(entries, i + 1);
    } else {
      assert entries[..i] == entries;
    }
  }

  /** An address read from the topics stands in one of them. */
  lemma {:induction false} ReadAddressesAreTopics(topics: seq<ScVal>, i: nat)
    requires ReadTopics(topics).Some? && i < |ReadTopics(topics).value.0|
    ensures exists a :: Addr(a) in topics && StrKey(a) == Some(ReadTopics(topics).value.0[i])
    decreases |topics|
  {
    var shorter := topics[..|topics| - 1];
    if i < |ReadTopics(shorter).value.0| {
      ReadAddressesAreTopics(shorter, i);
      var a :| Addr(a) in shorter && StrKey(a) == Some(ReadTopics(shorter).value.0[i]);
      assert Addr(a) in topics;
    } else {
      assert topics[|topics| - 1] in topics;
    }
  }

  /** Both topic generations of a mint or a clawback decode to the same movement: the classic
      admin address is passed over, and a map holding just the amount reads like a bare one. */
  lemma BothGenerationsDecodeAlike(t: TransferType, name: ScVal, admin: Address, party: Address, asset: string,
      amount: nat)
    requires (t.Mint? || t.Clawback?) && StrKey(admin).Some? && StrKey(party).Some?
    ensures var classic := Body([name, Addr(admin), Addr(party), Str(asset)], I128(amount));
      var unified := Body([name, Addr(party), Str(asset)], Map(Some([(Sym("amount"), I128(amount))])));
      && Decode(unified, t) == Decode(classic, t) && Decode(classic, t).Some?
      && Decode(classic, t).value.amount == amount && Decode(classic, t).value.asset == asset
      && (if t.Mint? then Decode(classic, t).value.to else Decode(classic, t).value.from) == StrKey(party).value
  {
    var classic, unified := [name, Addr(admin), Addr(party), Str(asset)], [name, Addr(party), Str(asset)];
    TopicsRead(admin, party, asset);
    assert classic[1..] == [Addr(admin), Addr(party)] + [Str(asset)];
    assert unified[1..] == [Addr(party)] + [Str(asset)];
    AmountRead(amount);
  }

  lemma AmountRead(amount: nat)
    ensures ReadMap([(Sym("amount"), I128(amount))]) == Some((Some(amount), None))
  {
  }

  lemma TopicsRead(admin: Address, party: Address, asset: string)
    requires StrKey(admin).Some? && StrKey(party).Some?
    ensures ReadTopics([Addr(admin), Addr(party)] + [Str(asset)]) ==
      Some(([StrKey(admin).value, StrKey(party).value], asset))
    ensures ReadTopics([Addr(party)] + [Str(asset)]) == Some(([StrKey(party).value], asset))
  {
    FirstAddressRead(admin);
    FirstAddressRead(party);
    AddressRead([Addr(admin)], party);
    assert [Addr(admin)] + [Addr(party)] == [Addr(admin), Addr(party)];
    assert [StrKey(admin).value] + [StrKey(party).value] == [StrKey(admin).value, StrKey(party).value];
    TextRead([Addr(admin), Addr(party)], asset);
    TextRead([Addr(party)], asset);
  }

  lemma FirstAddressRead(a: Address)
    requires StrKey(a).Some?
    ensures ReadTopics([Addr(a)]) == Some(([StrKey(a).value], ""))
  {
    var nothing: seq<ScVal>, nobody: seq<string> := [], [];
    assert nothing + [Addr(a)] == [Addr(a)] && nobody + [StrKey(a).value] == [StrKey(a).value];
    assert ReadTopics(nothing) == Some((nobody, ""));
    AddressRead(nothing, a);
  }

  lemma AddressRead(before: seq<ScVal>, a: Address)
    requires ReadTopics(before).Some? && StrKey(a).Some?
    ensures var (addrs, asset) := ReadTopics(before).value;
      ReadTopics(before + [Addr(a)]) == Some((addrs + [StrKey(a).value], asset))
  {
  }

  lemma TextRead(before: seq<ScVal>, text: string)
    requires ReadTopics(before).Some?
    ensures ReadTopics(before + [Str(text)]) == Some((ReadTopics(before).value.0, text))
  {
  }

  // --- movements -------------------------------------------------------------

  /** Some topic past the name is a contract watched for movements. */
  predicate Participates(body: Body, watch: Watch)
    requires body.topics != []
  {
    exists i :: 0 < i < |body.topics| && IsWatchedParty(body.topics[i], watch)
  }

  predicate IsWatchedParty(topic: ScVal, watch: Watch) {
    topic.Addr? && topic.address.Contract? && WatchedFor(watch, ContractId(topic.address.raw), MOVEMENTS)
  }

  method ParticipatesWatched(body: Body, watch: Watch) returns (r: bool)
    requires body.topics != []
    ensures r == Participates(body, watch)
  {
    for i := 1 to |body.topics|
      invariant forall k :: 0 < k < i ==> !IsWatchedParty(body.topics[k], watch)
    {
      if IsWatchedParty(body.topics[i], watch) {
        return true;
      }
    }
    return false;
  }

  /** Where a row sits in its ledger. */
  datatype Place = Place(ledger: uint32, tx: nat, op: nat, index: nat)

  function MovementFor(owner: string, role: Role, counterparty: string, t: Decoded, token: string,
      raw: ContractEvent, at: Place, watch: Watch): seq<Row>
  {
    if owner == "" || !WatchedFor(watch, owner, MOVEMENTS) then []
    else [MovementRow(owner, at.ledger, at.tx, at.index, role, token, t.transferType, counterparty, t.amount, raw)]
  }

  function MovementsOf(t: Decoded, token: string, raw: ContractEvent, at: Place, watch: Watch): seq<Row> {
    MovementFor(t.from, Sender, t.to, t, token, raw, at, watch) +
    MovementFor(t.to, Recipient, t.from, t, token, raw, at, watch)
  }

  // --- one event -------------------------------------------------------------

  function NameOf(body: Body): string {
    if body.topics != [] && body.topics[0].Sym? then body.topics[0].name else ""
  }

  /** The events row of a watched emitter. */
  function EventPart(ev: ContractEvent, id: string, at: Place, watch: Watch): Extracted {
    if !WatchedFor(watch, id, EVENTS) then NOTHING
    else if ev.body.None? then NOTHING.(suppressedEvents := 1)
    else NOTHING.(events := [EventRow(id, at.ledger, at.tx, at.op, at.index, NameOf(ev.body.value), ev)])
  }

  /** The movement type an event names, when it names one. */
  function MovementName(ev: ContractEvent): Option<TransferType> {
    if ev.body.None? || ev.body.value.topics == [] || !ev.body.value.topics[0].Sym? then None
    else TransferNamed(ev.body.value.topics[0].name)
  }

  /** The transfer of a watched emitter and the movements of watched participants. */
  function MovementPart(ev: ContractEvent, id: string, at: Place, watch: Watch, wantMovements: bool): Extracted {
    var name := MovementName(ev);
    var emits := WatchedFor(watch, id, TRANSFERS);
    if name.None? then NOTHING
    else
      var wants := wantMovements && Participates(ev.body.value, watch);
      if !emits && !wants then NOTHING
      else
        match Decode(ev.body.value, name.value)
        case None =>
          if emits then NOTHING.(suppressedTransfers := 1) else NOTHING.(foreignUndecodable := 1)
        case Some(t) =>
          NOTHING.(
            transfers := if emits then [TransferRow(id, at.ledger, at.tx, at.op, at.index, t)] else [],
            movements := if wants then MovementsOf(t, id, ev, at, watch) else [])
  }

  function OfEvent(ev: ContractEvent, at: Place, watch: Watch, wantMovements: bool): Extracted {
    if !ev.isContractType || ev.emitter.None? then NOTHING
    else
      var id := ContractId(ev.emitter.value);
      Join(EventPart(ev, id, at, watch), MovementPart(ev, id, at, watch, wantMovements))
  }

  // --- one ledger-entry change -----------------------------------------------

  /** The SAC contract id wrapping an asset, when one can be derived. */
  type SacOf = Asset -> Option<string>

  function Attributed(ch: Change): Option<Entry> {
    if ch.post.Some? then ch.post else ch.pre
  }

  /** One side's value; an absent side reads as none, a foreign one is an error. */
  function SideValue(side: Option<Entry>): Option<Option<ScVal>> {
    match side
    case None => Some(None)
    case Some(ContractData(_, _, value, _)) => Some(Some(value))
    case _ => None
  }

  function OfState(ch: Change, at: Place, watch: Watch): Extracted {
    match Attributed(ch)
    case Some(ContractData(Some(raw), key, _, temporary)) =>
      if !WatchedFor(watch, ContractId(raw), STATE) then NOTHING
      else if ch.changeType == Unsupported || SideValue(ch.pre).None? || SideValue(ch.post).None? then
        NOTHING.(suppressedEvents := 1)
      else
        NOTHING.(states := [StateRow(ContractId(raw), at.ledger, at.tx, ch.op, at.index, ch.changeType, key, temporary,
          SideValue(ch.pre).value, SideValue(ch.post).value)])
    case _ => NOTHING
  }

  function TrustlineSide(side: Option<Entry>): Option<Entry> {
    if side.Some? && side.value.TrustLine? then side else None
  }

  function OfTrustline(ch: Change, at: Place, watch: Watch, sac: SacOf): Extracted {
    match Attributed(ch)
    case Some(TrustLine(asset, account, _, _, _)) =>
      if asset.PoolShare? then NOTHING
      else if sac(asset).None? then NOTHING.(suppressedTrustlines := 1)
      else if !WatchedFor(watch, sac(asset).value, TRUSTLINES) then NOTHING
      else if ch.changeType == Unsupported || account.None? then NOTHING.(suppressedTrustlines := 1)
      else
        var pre, post := TrustlineSide(ch.pre), TrustlineSide(ch.post);
        NOTHING.(trustlines := [TrustlineRow(sac(asset).value, at.ledger, at.tx, ch.op, at.index, ch.changeType,
          account.value, asset, pre, post,
          if post.Some? then post.value.flags else if pre.Some? then pre.value.flags else 0)])
    case _ => NOTHING
  }

  function OfChange(ch: Change, at: Place, watch: Watch, wantTrustlines: bool, sac: SacOf): Extracted {
    match ch.entryType
    case ContractDataEntry => OfState(ch, at, watch)
    case TrustlineEntry => if wantTrustlines then OfTrustline(ch, at, watch, sac) else NOTHING
    case OtherEntryType => NOTHING
  }

  // --- one transaction, one ledger -------------------------------------------

  /** The events of one operation, numbered on from `start`. */
  function PlacedIn(events: seq<ContractEvent>, ledger: uint32, tx: nat, op: nat,
      start: nat): seq<(ContractEvent, Place)>
  {
    seq(|events|, i requires 0 <= i < |events| => (events[i], Place(ledger, tx, op, start + i)))
  }

  /** Every event of a transaction with its place; the index runs across operations. */
  function Placed(ops: seq<seq<ContractEvent>>, ledger: uint32, tx: nat): seq<(ContractEvent, Place)>
    decreases |ops|
  {
    if ops == [] then []
    else
      var before := Placed(ops[..|ops| - 1], ledger, tx);
      before + PlacedIn(ops[|ops| - 1], ledger, tx, |ops| - 1, |before|)
  }

  function OfEvents(placed: seq<(ContractEvent, Place)>, watch: Watch, wantMovements: bool): Extracted
    decreases |placed|
  {
    if placed == [] then NOTHING
    else
      var (ev, at) := placed[|placed| - 1];
      Join(OfEvents(placed[..|placed| - 1], watch, wantMovements), OfEvent(ev, at, watch, wantMovements))
  }

  function OfChanges(changes: seq<Change>, ledger: uint32, tx: nat, watch: Watch, wantTrustlines: bool,
      sac: SacOf): Extracted
    decreases |changes|
  {
    if changes == [] then NOTHING
    else
      var n := |changes| - 1;
      Join(OfChanges(changes[..n], ledger, tx, watch, wantTrustlines, sac),
        OfChange(changes[n], Place(ledger, tx, 0, n), watch, wantTrustlines, sac))
  }

  function OfTx(t: Tx, ledger: uint32, tx: nat, watch: Watch, sac: SacOf): Extracted {
    match t
    case UnreadableTx => NOTHING.(suppressedTxs := 1)
    case Tx(successful, events, changes) =>
      if !successful then NOTHING.(failedTxs := 1)
      else
        Join(
          Join(OfTxEvents(events, ledger, tx, watch, AnyKind(watch, MOVEMENTS)),
            OfTxChanges(changes, ledger, tx, watch, AnyKind(watch, TRUSTLINES), sac)),
          Lost(events.None? || changes.None?))
  }

  function OfTxEvents(ops: Option<seq<seq<ContractEvent>>>, ledger: uint32, tx: nat, watch: Watch,
      wantMovements: bool): Extracted
  {
    if ops.None? then NOTHING else OfEvents(Placed(ops.value, ledger, tx), watch, wantMovements)
  }

  function OfTxChanges(changes: Option<seq<Change>>, ledger: uint32, tx: nat, watch: Watch, wantTrustlines: bool,
      sac: SacOf): Extracted
  {
    if changes.None? then NOTHING else OfChanges(changes.value, ledger, tx, watch, wantTrustlines, sac)
  }

  /** One broken transaction is one suppression, however many extractors tripped over it. */
  function Lost(broken: bool): Extracted {
    NOTHING.(suppressedTxs := if broken then 1 else 0)
  }

  function OfTxs(txs: seq<Tx>, ledger: uint32, watch: Watch, sac: SacOf): Extracted
    decreases |txs|
  {
    if txs == [] then NOTHING
    else Join(OfTxs(txs[..|txs| - 1], ledger, watch, sac), OfTx(txs[|txs| - 1], ledger, |txs|, watch, sac))
  }

  /** Everything one ledger yields for the watched contracts. */
  function OfLedger(l: Ledger, watch: Watch, sac: SacOf): Extracted {
    if |watch| == 0 then NOTHING else OfTxs(l.txs, l.sequence, watch, sac)
  }

  // --- locality --------------------------------------------------------------

  function Own(rows: seq<Row>, c: string): (r: seq<Row>)
    ensures forall x :: x in r <==> x in rows && x.contract == c
  {
    if rows == [] then []
    else if rows[|rows| - 1].contract == c then Own(rows[..|rows| - 1], c) + [rows[|rows| - 1]]
    else Own(rows[..|rows| - 1], c)
  }

  function RowsOfKind(x: Extracted, kind: string): seq<Row> {
    if kind == EVENTS then x.events
    else if kind == STATE then x.states
    else if kind == TRANSFERS then x.transfers
    else if kind == TRUSTLINES then x.trustlines
    else if kind == MOVEMENTS then x.movements
    else []
  }

  /** The rows of one kind a result holds for one contract, in order. */
  function Slice(x: Extracted, c: string, kind: string): seq<Row> {
    Own(RowsOfKind(x, kind), c)
  }

  function Alone(c: string, kind: string): Watch {
    map[c := [kind]]
  }

  lemma {:induction false} OwnConcat(a: seq<Row>, b: seq<Row>, c: string)
    ensures Own(a + b, c) == Own(a, c) + Own(b, c)
    decreases |b|
  {
    if b == [] {
      assert a + b == a;
    } else {
      OwnConcat(a, b[..|b| - 1], c);
      assert (a + b)[..|a + b| - 1] == a + b[..|b| - 1];
    }
  }

  lemma SliceJoin(a: Extracted, b: Extracted, c: string, kind: string)
    ensures Slice(Join(a, b), c, kind) == Slice(a, c, kind) + Slice(b, c, kind)
  {
    OwnConcat(RowsOfKind(a, kind), RowsOfKind(b, kind), c);
  }

  /** A side the decoder names is a topic the cheap pre-check looks at: an event that
      moves value of a watched contract is never filtered out before decoding. */
  lemma SidesAreParties(body: Body, t: TransferType, watch: Watch, c: string)
    requires body.topics != [] && Decode(body, t).Some?
    requires Decode(body, t).value.from == c || Decode(body, t).value.to == c
    requires IsContractId(c) && WatchedFor(watch, c, MOVEMENTS)
    ensures Participates(body, watch)
  {
    var topics := body.topics[1..];
    var addrs := ReadTopics(topics).value.0;
    var i :| 0 <= i < |addrs| && addrs[i] == c;
    ReadAddressesAreTopics(topics, i);
    var a :| Addr(a) in topics && StrKey(a) == Some(c);
    var k :| 0 <= k < |topics| && topics[k] == Addr(a);
    assert body.topics[k + 1] == Addr(a);
    assert a.Contract?;
    assert IsWatchedParty(body.topics[k + 1], watch);
  }

  lemma EventIsLocal(ev: ContractEvent, at: Place, watch: Watch, c: string, kind: string)
    requires IsContractId(c) && WatchedFor(watch, c, kind)
    ensures Slice(OfEvent(ev, at, watch, AnyKind(watch, MOVEMENTS)), c, kind) ==
      Slice(OfEvent(ev, at, Alone(c, kind), AnyKind(Alone(c, kind), MOVEMENTS)), c, kind)
  {
    if ev.isContractType && ev.emitter.Some? {
      var id := ContractId(ev.emitter.value);
      TwoParts(ev, id, at, watch, AnyKind(watch, MOVEMENTS), c, kind);
      TwoParts(ev, id, at, Alone(c, kind), AnyKind(Alone(c, kind), MOVEMENTS), c, kind);
      EventPartIsLocal(ev, id, at, watch, c, kind);
      MovementPartIsLocal(ev, id, at, watch, c, kind);
    }
  }

  lemma TwoParts(ev: ContractEvent, id: string, at: Place, watch: Watch, wants: bool, c: string, kind: string)
    requires ev.isContractType && ev.emitter.Some? && id == ContractId(ev.emitter.value)
    ensures Slice(OfEvent(ev, at, watch, wants), c, kind) ==
      Slice(EventPart(ev, id, at, watch), c, kind) + Slice(MovementPart(ev, id, at, watch, wants), c, kind)
  {
    SliceJoin(EventPart(ev, id, at, watch), MovementPart(ev, id, at, watch, wants), c, kind);
  }

  lemma EventPartIsLocal(ev: ContractEvent, id: string, at: Place, watch: Watch, c: string, kind: string)
    requires WatchedFor(watch, c, kind)
    ensures Slice(EventPart(ev, id, at, watch), c, kind) == Slice(EventPart(ev, id, at, Alone(c, kind)), c, kind)
  {
  }

  lemma MovementPartIsLocal(ev: ContractEvent, id: string, at: Place, watch: Watch, c: string, kind: string)
    requires IsContractId(c) && WatchedFor(watch, c, kind)
    ensures Slice(MovementPart(ev, id, at, watch, AnyKind(watch, MOVEMENTS)), c, kind) ==
      Slice(MovementPart(ev, id, at, Alone(c, kind), AnyKind(Alone(c, kind), MOVEMENTS)), c, kind)
  {
    if kind == MOVEMENTS {
      OwnMovements(ev, id, at, watch, c);
      OwnMovements(ev, id, at, Alone(c, MOVEMENTS), c);
      if MovementName(ev).Some? && Decode(ev.body.value, MovementName(ev).value).Some? {
        MovementsAreLocal(Decode(ev.body.value, MovementName(ev).value).value, id, ev, at, watch, c);
      }
    } else {
      OwnTransfers(ev, id, at, watch, AnyKind(watch, MOVEMENTS), c, kind);
      OwnTransfers(ev, id, at, Alone(c, kind), AnyKind(Alone(c, kind), MOVEMENTS), c, kind);
    }
  }

  /** Outside movements, the rows a movement event yields for a watched contract are its own transfer. */
  lemma OwnTransfers(ev: ContractEvent, id: string, at: Place, watch: Watch, wants: bool, c: string, kind: string)
    requires WatchedFor(watch, c, kind) && kind != MOVEMENTS
    ensures Slice(MovementPart(ev, id, at, watch, wants), c, kind) ==
      if kind == TRANSFERS && id == c && MovementName(ev).Some? && Decode(ev.body.value, MovementName(ev).value).Some?
      then [TransferRow(id, at.ledger, at.tx, at.op, at.index, Decode(ev.body.value, MovementName(ev).value).value)]
      else []
  {
    if id != c {
      NoneOwned(RowsOfKind(MovementPart(ev, id, at, watch, wants), kind), c);
    } else if MovementName(ev).Some? && Decode(ev.body.value, MovementName(ev).value).Some? {
      var row := TransferRow(id, at.ledger, at.tx, at.op, at.index,
        Decode(ev.body.value, MovementName(ev).value).value);
      assert Own([row][..0], c) == [];
    }
  }

  /** A watched contract's movements are those of the decoded transfer: the pre-check never
      filters out an event that has one for it. */
  lemma OwnMovements(ev: ContractEvent, id: string, at: Place, watch: Watch, c: string)
    requires IsContractId(c) && WatchedFor(watch, c, MOVEMENTS)
    ensures Own(MovementPart(ev, id, at, watch, AnyKind(watch, MOVEMENTS)).movements, c) ==
      if MovementName(ev).Some? && Decode(ev.body.value, MovementName(ev).value).Some?
      then Own(MovementsOf(Decode(ev.body.value, MovementName(ev).value).value, id, ev, at, watch), c) else []
  {
    assert AnyKind(watch, MOVEMENTS);
    if MovementName(ev).Some? && Decode(ev.body.value, MovementName(ev).value).Some? {
      var t := Decode(ev.body.value, MovementName(ev).value).value;
      if t.from == c || t.to == c {
        SidesAreParties(ev.body.value, MovementName(ev).value, watch, c);
      } else {
        MovementsAreLocal(t, id, ev, at, watch, c);
      }
    }
  }

  lemma MovementsAreLocal(t: Decoded, token: string, raw: ContractEvent, at: Place, watch: Watch, c: string)
    requires WatchedFor(watch, c, MOVEMENTS)
    ensures Own(MovementsOf(t, token, raw, at, watch), c) == Own(MovementsOf(t, token, raw, at, Alone(c, MOVEMENTS)), c)
    ensures t.from != c && t.to != c ==> Own(MovementsOf(t, token, raw, at, watch), c) == []
  {
    var solo := Alone(c, MOVEMENTS);
    OwnConcat(MovementFor(t.from, Sender, t.to, t, token, raw, at, watch),
      MovementFor(t.to, Recipient, t.from, t, token, raw, at, watch), c);
    OwnConcat(MovementFor(t.from, Sender, t.to, t, token, raw, at, solo),
      MovementFor(t.to, Recipient, t.from, t, token, raw, at, solo), c);
    OneSideIsLocal(t.from, Sender, t.to, t, token, raw, at, watch, c);
    OneSideIsLocal(t.to, Recipient, t.from, t, token, raw, at, watch, c);
  }

  lemma OneSideIsLocal(owner: string, role: Role, counterparty: string, t: Decoded, token: string, raw: ContractEvent,
      at: Place, watch: Watch, c: string)
    requires WatchedFor(watch, c, MOVEMENTS)
    ensures Own(MovementFor(owner, role, counterparty, t, token, raw, at, watch), c) ==
      Own(MovementFor(owner, role, counterparty, t, token, raw, at, Alone(c, MOVEMENTS)), c)
    ensures owner != c ==> Own(MovementFor(owner, role, counterparty, t, token, raw, at, watch), c) == []
  {
    if owner == c {
      assert WatchedFor(Alone(c, MOVEMENTS), owner, MOVEMENTS);
    } else {
      NoneOwned(MovementFor(owner, role, counterparty, t, token, raw, at, watch), c);
      NoneOwned(MovementFor(owner, role, counterparty, t, token, raw, at, Alone(c, MOVEMENTS)), c);
    }
  }

  lemma {:induction false} EventsAreLocal(placed: seq<(ContractEvent, Place)>, watch: Watch, c: string, kind: string)
    requires IsContractId(c) && WatchedFor(watch, c, kind)
    ensures Slice(OfEvents(placed, watch, AnyKind(watch, MOVEMENTS)), c, kind) ==
      Slice(OfEvents(placed, Alone(c, kind), AnyKind(Alone(c, kind), MOVEMENTS)), c, kind)
    decreases |placed|
  {
    if placed != [] {
      var rest, solo := placed[..|placed| - 1], Alone(c, kind);
      var (ev, at) := placed[|placed| - 1];
      EventsAreLocal(rest, watch, c, kind);
      EventIsLocal(ev, at, watch, c, kind);
      SliceJoin(OfEvents(rest, watch, AnyKind(watch, MOVEMENTS)), OfEvent(ev, at, watch, AnyKind(watch, MOVEMENTS)),
        c, kind);
      SliceJoin(OfEvents(rest, solo, AnyKind(solo, MOVEMENTS)), OfEvent(ev, at, solo, AnyKind(solo, MOVEMENTS)), c,
        kind);
    }
  }

  lemma ChangeIsLocal(ch: Change, at: Place, watch: Watch, sac: SacOf, c: string, kind: string)
    requires WatchedFor(watch, c, kind)
    ensures Slice(OfChange(ch, at, watch, AnyKind(watch, TRUSTLINES), sac), c, kind) ==
      Slice(OfChange(ch, at, Alone(c, kind), AnyKind(Alone(c, kind), TRUSTLINES), sac), c, kind)
  {
    assert WatchedFor(Alone(c, kind), c, kind);
  }

  lemma {:induction false} ChangesAreLocal(changes: seq<Change>, ledger: uint32, tx: nat, watch: Watch, sac: SacOf,
      c: string, kind: string)
    requires WatchedFor(watch, c, kind)
    ensures Slice(OfChanges(changes, ledger, tx, watch, AnyKind(watch, TRUSTLINES), sac), c, kind) ==
      Slice(OfChanges(changes, ledger, tx, Alone(c, kind), AnyKind(Alone(c, kind), TRUSTLINES), sac), c, kind)
    decreases |changes|
  {
    if changes != [] {
      var n, solo := |changes| - 1, Alone(c, kind);
      var at, wide, narrow := Place(ledger, tx, 0, n), AnyKind(watch, TRUSTLINES), AnyKind(solo, TRUSTLINES);
      ChangesAreLocal(changes[..n], ledger, tx, watch, sac, c, kind);
      ChangeIsLocal(changes[n], at, watch, sac, c, kind);
      SliceJoin(OfChanges(changes[..n], ledger, tx, watch, wide, sac), OfChange(changes[n], at, watch, wide, sac), c,
        kind);
      SliceJoin(OfChanges(changes[..n], ledger, tx, solo, narrow, sac), OfChange(changes[n], at, solo, narrow, sac),
        c, kind);
    }
  }

  lemma TxIsLocal(t: Tx, ledger: uint32, tx: nat, watch: Watch, sac: SacOf, c: string, kind: string)
    requires IsContractId(c) && WatchedFor(watch, c, kind)
    ensures Slice(OfTx(t, ledger, tx, watch, sac), c, kind) == Slice(OfTx(t, ledger, tx, Alone(c, kind), sac), c, kind)
  {
    if t.Tx? && t.successful {
      SliceOfTx(t, ledger, tx, watch, sac, c, kind);
      SliceOfTx(t, ledger, tx, Alone(c, kind), sac, c, kind);
      if t.events.Some? {
        EventsAreLocal(Placed(t.events.value, ledger, tx), watch, c, kind);
      }
      if t.changes.Some? {
        ChangesAreLocal(t.changes.value, ledger, tx, watch, sac, c, kind);
      }
    }
  }

  lemma SliceOfTx(t: Tx, ledger: uint32, tx: nat, w: Watch, sac: SacOf, c: string, kind: string)
    requires t.Tx? && t.successful
    ensures Slice(OfTx(t, ledger, tx, w, sac), c, kind) ==
      Slice(OfTxEvents(t.events, ledger, tx, w, AnyKind(w, MOVEMENTS)), c, kind) +
      Slice(OfTxChanges(t.changes, ledger, tx, w, AnyKind(w, TRUSTLINES), sac), c, kind)
  {
    var e := OfTxEvents(t.events, ledger, tx, w, AnyKind(w, MOVEMENTS));
    var ch := OfTxChanges(t.changes, ledger, tx, w, AnyKind(w, TRUSTLINES), sac);
    SliceJoin(e, ch, c, kind);
    SliceJoin(Join(e, ch), Lost(t.events.None? || t.changes.None?), c, kind);
    LostYieldsNothing(t.events.None? || t.changes.None?, c, kind);
  }

  lemma LostYieldsNothing(broken: bool, c: string, kind: string)
    ensures Slice(Lost(broken), c, kind) == []
  {
  }

  lemma {:induction false} TxsAreLocal(txs: seq<Tx>, ledger: uint32, watch: Watch, sac: SacOf, c: string, kind: string)
    requires IsContractId(c) && WatchedFor(watch, c, kind)
    ensures Slice(OfTxs(txs, ledger, watch, sac), c, kind) == Slice(OfTxs(txs, ledger, Alone(c, kind), sac), c, kind)
    decreases |txs|
  {
    if txs != [] {
      var rest, n, solo := txs[..|txs| - 1], |txs|, Alone(c, kind);
      TxsAreLocal(rest, ledger, watch, sac, c, kind);
      TxIsLocal(txs[n - 1], ledger, n, watch, sac, c, kind);
      SliceJoin(OfTxs(rest, ledger, watch, sac), OfTx(txs[n - 1], ledger, n, watch, sac), c, kind);
      SliceJoin(OfTxs(rest, ledger, solo, sac), OfTx(txs[n - 1], ledger, n, solo, sac), c, kind);
    }
  }

  /** Extraction locality: what a ledger yields for one contract under one kind, in order,
      is the same under every snapshot that watches the contract for the kind as under
      the snapshot that watches nothing else. */
  lemma ExtractionIsLocal(l: Ledger, watch: Watch, sac: SacOf, c: string, kind: string)
    requires IsContractId(c) && WatchedFor(watch, c, kind)
    ensures Slice(OfLedger(l, watch, sac), c, kind) == Slice(OfLedger(l, Alone(c, kind), sac), c, kind)
  {
    assert c in watch && |watch| > 0;
    TxsAreLocal(l.txs, l.sequence, watch, sac, c, kind);
  }

  // --- a snapshot yields nothing for a contract it does not watch for the kind ----

  lemma NoneOwned(rows: seq<Row>, c: string)
    requires forall r :: r in rows ==> r.contract != c
    ensures Own(rows, c) == []
  {
  }

  lemma EventYieldsOnlyWatched(ev: ContractEvent, at: Place, watch: Watch, wants: bool, c: string, kind: string)
    requires !WatchedFor(watch, c, kind)
    ensures Slice(OfEvent(ev, at, watch, wants), c, kind) == []
  {
    if ev.isContractType && ev.emitter.Some? {
      var id := ContractId(ev.emitter.value);
      TwoParts(ev, id, at, watch, wants, c, kind);
      EventPartYieldsOnlyWatched(ev, id, at, watch, c, kind);
      MovementYieldsOnlyWatched(ev, id, at, watch, wants, c, kind);
    }
  }

  lemma EventPartYieldsOnlyWatched(ev: ContractEvent, id: string, at: Place, watch: Watch, c: string, kind: string)
    requires !WatchedFor(watch, c, kind)
    ensures Slice(EventPart(ev, id, at, watch), c, kind) == []
  {
    NoneOwned(RowsOfKind(EventPart(ev, id, at, watch), kind), c);
  }

  lemma MovementYieldsOnlyWatched(ev: ContractEvent, id: string, at: Place, watch: Watch, wants: bool, c: string,
      kind: string)
    requires !WatchedFor(watch, c, kind)
    ensures Slice(MovementPart(ev, id, at, watch, wants), c, kind) == []
  {
    NoneOwned(RowsOfKind(MovementPart(ev, id, at, watch, wants), kind), c);
  }

  lemma ChangeYieldsOnlyWatched(ch: Change, at: Place, watch: Watch, wants: bool, sac: SacOf, c: string, kind: string)
    requires !WatchedFor(watch, c, kind)
    ensures Slice(OfChange(ch, at, watch, wants, sac), c, kind) == []
  {
    NoneOwned(RowsOfKind(OfChange(ch, at, watch, wants, sac), kind), c);
  }

  lemma {:induction false} EventsYieldOnlyWatched(placed: seq<(ContractEvent, Place)>, watch: Watch, wants: bool,
      c: string, kind: string)
    requires !WatchedFor(watch, c, kind)
    ensures Slice(OfEvents(placed, watch, wants), c, kind) == []
    decreases |placed|
  {
    if placed != [] {
      var (ev, at) := placed[|placed| - 1];
      EventsYieldOnlyWatched(placed[..|placed| - 1], watch, wants, c, kind);
      EventYieldsOnlyWatched(ev, at, watch, wants, c, kind);
      SliceJoin(OfEvents(placed[..|placed| - 1], watch, wants), OfEvent(ev, at, watch, wants), c, kind);
    }
  }

  lemma {:induction false} ChangesYieldOnlyWatched(changes: seq<Change>, ledger: uint32, tx: nat, watch: Watch,
      wants: bool, sac: SacOf, c: string, kind: string)
    requires !WatchedFor(watch, c, kind)
    ensures Slice(OfChanges(changes, ledger, tx, watch, wants, sac), c, kind) == []
    decreases |changes|
  {
    if changes != [] {
      var n := |changes| - 1;
      ChangesYieldOnlyWatched(changes[..n], ledger, tx, watch, wants, sac, c, kind);
      ChangeYieldsOnlyWatched(changes[n], Place(ledger, tx, 0, n), watch, wants, sac, c, kind);
      SliceJoin(OfChanges(changes[..n], ledger, tx, watch, wants, sac),
        OfChange(changes[n], Place(ledger, tx, 0, n), watch, wants, sac), c, kind);
    }
  }

  lemma TxYieldsOnlyWatched(t: Tx, ledger: uint32, tx: nat, watch: Watch, sac: SacOf, c: string, kind: string)
    requires !WatchedFor(watch, c, kind)
    ensures Slice(OfTx(t, ledger, tx, watch, sac), c, kind) == []
  {
    if t.Tx? && t.successful {
      SliceOfTx(t, ledger, tx, watch, sac, c, kind);
      if t.events.Some? {
        EventsYieldOnlyWatched(Placed(t.events.value, ledger, tx), watch, AnyKind(watch, MOVEMENTS), c, kind);
      }
      if t.changes.Some? {
        ChangesYieldOnlyWatched(t.changes.value, ledger, tx, watch, AnyKind(watch, TRUSTLINES), sac, c, kind);
      }
    }
  }

  lemma {:induction false} TxsYieldOnlyWatched(txs: seq<Tx>, ledger: uint32, watch: Watch, sac: SacOf, c: string,
      kind: string)
    requires !WatchedFor(watch, c, kind)
    ensures Slice(OfTxs(txs, ledger, watch, sac), c, kind) == []
    decreases |txs|
  {
    if txs != [] {
      var rest, last := txs[..|txs| - 1], txs[|txs| - 1];
      TxsYieldOnlyWatched(rest, ledger, watch, sac, c, kind);
      TxYieldsOnlyWatched(last, ledger, |txs|, watch, sac, c, kind);
      SliceJoin(OfTxs(rest, ledger, watch, sac), OfTx(last, ledger, |txs|, watch, sac), c, kind);
    }
  }

  lemma LedgerYieldsOnlyWatched(l: Ledger, watch: Watch, sac: SacOf, c: string, kind: string)
    requires !WatchedFor(watch, c, kind)
    ensures Slice(OfLedger(l, watch, sac), c, kind) == []
  {
    TxsYieldOnlyWatched(l.txs, l.sequence, watch, sac, c, kind);
  }
}
