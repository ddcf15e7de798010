// What a token movement event says (internal/extract/transfers.go), stated by where things stand
// in it: the decoder reads exactly this, and rejects every other event.
module Decoding {
  import opened Basics
  import opened Extract

  // --- the sides, by where they stand ---------------------------------------------

  /** Topic k, past the name, is the address that reads as `who`. */
  predicate IsParty(topics: seq<ScVal>, k: nat, who: string) {
    0 < k < |topics| && topics[k].Addr? && StrKey(topics[k].address) == Some(who)
  }

  ghost predicate NoPartyBetween(topics: seq<ScVal>, i: nat, j: nat) {
    forall k :: i < k < j && k < |topics| ==> !topics[k].Addr?
  }

  ghost predicate FirstParty(topics: seq<ScVal>, i: nat, who: string) {
    IsParty(topics, i, who) && NoPartyBetween(topics, 0, i)
  }

  ghost predicate LastParty(topics: seq<ScVal>, j: nat, who: string) {
    IsParty(topics, j, who) && NoPartyBetween(topics, j, |topics|)
  }

  ghost predicate PaysBetween(topics: seq<ScVal>, i: nat, j: nat, from: string, to: string) {
    i < j && FirstParty(topics, i, from) && LastParty(topics, j, to) && NoPartyBetween(topics, i, j)
  }

  /** A transfer names exactly two addresses, the payer first; a mint's recipient and a clawback's
      source are the last address, whoever stands before it; a burn's source is the first. */
  ghost predicate Sides(topics: seq<ScVal>, t: TransferType, from: string, to: string) {
    match t
    case Transfer => exists i: nat, j: nat :: PaysBetween(topics, i, j, from, to)
    case Mint => from == "" && exists j: nat :: LastParty(topics, j, to)
    case Burn => to == "" && exists i: nat :: FirstParty(topics, i, from)
    case Clawback => to == "" && exists j: nat :: LastParty(topics, j, from)
  }

  predicate IsReadable(v: ScVal) {
    v.Str? || (v.Addr? && StrKey(v.address).Some?)
  }

  /** The asset is the last string among the topics, empty when there is none. */
  ghost predicate AssetStands(topics: seq<ScVal>, asset: string) {
    if exists k: nat :: 0 < k < |topics| && topics[k].Str? then
      exists k: nat :: 0 < k < |topics| && topics[k] == Str(asset) && forall n :: k < n < |topics| ==> !topics[n].Str?
    else asset == ""
  }

  // --- the payload -------------------------------------------------------------------

  predicate IsKey(k: ScVal, name: string) {
    k == Sym(name) || k == Str(name)
  }

  predicate IsAmountEntry(e: (ScVal, ScVal)) {
    IsKey(e.0, "amount") && e.1.I128? && e.1.amount >= 0
  }

  predicate IsMuxedEntry(e: (ScVal, ScVal)) {
    IsKey(e.0, "to_muxed_id") && (e.1.U64? || e.1.Bytes? || e.1.Str?)
  }

  /** The last amount entry, which must be there. */
  ghost predicate AmountStands(entries: seq<(ScVal, ScVal)>, amount: nat) {
    exists i: nat :: i < |entries| && IsAmountEntry(entries[i]) && entries[i].1.amount == amount &&
      forall j :: i < j < |entries| ==> !IsAmountEntry(entries[j])
  }

  /** The last muxed id entry, if there is one. */
  ghost predicate MuxedStands(entries: seq<(ScVal, ScVal)>, muxed: Option<ScVal>) {
    match muxed
    case None => forall j :: 0 <= j < |entries| ==> !IsMuxedEntry(entries[j])
    case Some(id) =>
      exists i: nat :: i < |entries| && IsMuxedEntry(entries[i]) && entries[i].1 == id &&
        forall j :: i < j < |entries| ==> !IsMuxedEntry(entries[j])
  }

  /** A bare non-negative amount, or a map of nothing but amounts and muxed ids. */
  ghost predicate Carries(data: ScVal, amount: nat, muxed: Option<ScVal>) {
    || (data == I128(amount) && muxed.None?)
    || (data.Map? && data.entries.Some? && OnlyKnownEntries(data.entries.value)
        && AmountStands(data.entries.value, amount) && MuxedStands(data.entries.value, muxed))
  }

  ghost predicate OnlyKnownEntries(entries: seq<(ScVal, ScVal)>) {
    forall i :: 0 <= i < |entries| ==> IsAmountEntry(entries[i]) || IsMuxedEntry(entries[i])
  }

  // --- the whole event -------------------------------------------------------------------

  /** The body states the movement d of type t. */
  ghost predicate States(body: Body, t: TransferType, d: Decoded) {
    && d.transferType == t
    && (forall k :: 0 < k < |body.topics| ==> IsReadable(body.topics[k]))
    && Sides(body.topics, t, d.from, d.to)
    && AssetStands(body.topics, d.asset)
    && Carries(body.data, d.amount, d.muxedId)
  }

  // --- reading the topics ------------------------------------------------------------------

  lemma {:induction false} ReadableIff(topics: seq<ScVal>)
    ensures ReadTopics(topics).Some? <==> forall k :: 0 <= k < |topics| ==> IsReadable(topics[k])
    decreases |topics|
  {
    if topics != [] {
      ReadableIff(topics[..|topics| - 1]);
    }
  }

  /** Where the addresses stand, in order and without gaps. */
  ghost predicate StandAt(topics: seq<ScVal>, addrs: seq<string>, at: seq<nat>) {
    && |at| == |addrs|
    && (forall n :: 0 <= n < |at| ==> at[n] < |topics| && topics[at[n]].Addr?)
    && (forall n :: 0 <= n < |at| ==> StrKey(topics[at[n]].address) == Some(addrs[n]))
    && (forall n, m :: 0 <= n < m < |at| ==> at[n] < at[m])
    && (forall k :: 0 <= k < |topics| && topics[k].Addr? ==> k in at)
  }

  lemma {:induction false} PlacesOf(topics: seq<ScVal>) returns (at: seq<nat>)
    requires ReadTopics(topics).Some?
    ensures StandAt(topics, ReadTopics(topics).value.0, at)
    decreases |topics|
  {
    at := [];
    if topics != [] {
      var n := |topics| - 1;
      at := PlacesOf(topics[..n]);
      OneMorePlace(topics, ReadTopics(topics[..n]).value.0, at);
      if topics[n].Addr? {
        at := at + [n];
      }
    }
  }

  lemma OneMorePlace(topics: seq<ScVal>, addrs: seq<string>, at: seq<nat>)
    requires topics != [] && StandAt(topics[..|topics| - 1], addrs, at)
    ensures var last := topics[|topics| - 1];
      && (!last.Addr? ==> StandAt(topics, addrs, at))
      && (last.Addr? && StrKey(last.address).Some? ==>
            StandAt(topics, addrs + [StrKey(last.address).value], at + [|topics| - 1]))
  {
    var n, shorter := |topics| - 1, topics[..|topics| - 1];
    assert forall k :: 0 <= k < n ==> shorter[k] == topics[k];
    assert forall k :: k in at + [n] <==> k in at || k == n;
  }

  lemma {:induction false} AssetRead(topics: seq<ScVal>)
    requires ReadTopics(topics).Some?
    ensures var asset := ReadTopics(topics).value.1;
      if exists k: nat :: k < |topics| && topics[k].Str? then
        exists k: nat :: k < |topics| && topics[k] == Str(asset) && forall n :: k < n < |topics| ==> !topics[n].Str?
      else asset == ""
    decreases |topics|
  {
    if topics != [] {
      var n := |topics| - 1;
      AssetRead(topics[..n]);
      if topics[n].Str? {
        assert topics[n] == Str(ReadTopics(topics).value.1);
      } else if k: nat :| k < |topics| && topics[k].Str? {
        assert topics[..n][k].Str?;
      }
    }
  }

  /** Read from the topics past the name, the sides are the ones that stand there. */
  lemma SidesAreWhereTheyStand(topics: seq<ScVal>, t: TransferType, addrs: seq<string>, at: seq<nat>, from: string,
      to: string)
    requires topics != [] && StandAt(topics[1..], addrs, at)
    ensures SidesOf(t, addrs) == Some((from, to)) <==> Sides(topics, t, from, to)
  {
    assert forall k :: 0 < k < |topics| ==> topics[1..][k - 1] == topics[k];
    assert forall k :: 0 < k < |topics| && topics[k].Addr? ==> (k - 1) in at;
    if |addrs| > 0 {
      OuterPlaces(topics, addrs, at);
    }
    match t
    case Transfer => TransferSides(topics, addrs, at, from, to);
    case _ =>
  }

  /** The outermost addresses are the first and the last party, and there is no other of either. */
  lemma OuterPlaces(topics: seq<ScVal>, addrs: seq<string>, at: seq<nat>)
    requires topics != [] && |addrs| > 0 && StandAt(topics[1..], addrs, at)
    ensures FirstParty(topics, at[0] + 1, addrs[0]) && LastParty(topics, at[|at| - 1] + 1, addrs[|addrs| - 1])
    ensures forall i: nat, who :: FirstParty(topics, i, who) ==> i == at[0] + 1 && who == addrs[0]
    ensures forall j: nat, who :: LastParty(topics, j, who) ==> j == at[|at| - 1] + 1 && who == addrs[|addrs| - 1]
  {
    var rest := topics[1..];
    assert forall k :: 0 < k < |topics| ==> rest[k - 1] == topics[k];
    forall k | 0 < k < |topics| && topics[k].Addr?
      ensures at[0] + 1 <= k <= at[|at| - 1] + 1
    {
      assert rest[k - 1].Addr? && (k - 1) in at;
    }
    assert rest[at[0]].Addr? && rest[at[|at| - 1]].Addr?;
  }

  lemma TransferSides(topics: seq<ScVal>, addrs: seq<string>, at: seq<nat>, from: string, to: string)
    requires topics != [] && StandAt(topics[1..], addrs, at)
    ensures SidesOf(Transfer, addrs) == Some((from, to)) <==> Sides(topics, Transfer, from, to)
  {
    var rest := topics[1..];
    assert forall k :: 0 < k < |topics| ==> rest[k - 1] == topics[k];
    if |addrs| > 0 {
      OuterPlaces(topics, addrs, at);
    }
    if |addrs| == 2 {
      forall k | at[0] + 1 < k < at[1] + 1
        ensures !topics[k].Addr?
      {
        assert rest[k - 1].Addr? ==> (k - 1) in at;
      }
      assert PaysBetween(topics, at[0] + 1, at[1] + 1, addrs[0], addrs[1]);
    }
    if i: nat, j: nat :| PaysBetween(topics, i, j, from, to) {
      assert rest[i - 1].Addr? && (i - 1) in at && rest[j - 1].Addr? && (j - 1) in at;
    }
  }

  // --- reading the payload --------------------------------------------------------------------

  lemma {:induction false} EntriesRead(entries: seq<(ScVal, ScVal)>)
    ensures ReadMap(entries).Some? <==> OnlyKnownEntries(entries)
    ensures ReadMap(entries).Some? ==>
      var (amount, muxed) := ReadMap(entries).value;
      && (amount.Some? ==> AmountStands(entries, amount.value))
      && (amount.None? ==> forall j :: 0 <= j < |entries| ==> !IsAmountEntry(entries[j]))
      && MuxedStands(entries, muxed)
    decreases |entries|
  {
    if entries != [] {
      var n := |entries| - 1;
      EntriesRead(entries[..n]);
      if ReadMap(entries).Some? {
        OneMoreEntry(entries, n);
      }
    }
  }

  lemma OneMoreEntry(entries: seq<(ScVal, ScVal)>, n: nat)
    requires n == |entries| - 1 && (IsAmountEntry(entries[n]) || IsMuxedEntry(entries[n]))
    ensures forall amount :: AmountStands(entries, amount) <==>
      if IsAmountEntry(entries[n]) then amount == entries[n].1.amount else AmountStands(entries[..n], amount)
    ensures forall muxed :: MuxedStands(entries, muxed) <==>
      if IsMuxedEntry(entries[n]) then muxed == Some(entries[n].1) else MuxedStands(entries[..n], muxed)
  {
    var shorter := entries[..n];
    assert forall i :: 0 <= i < n ==> shorter[i] == entries[i];
  }

  lemma AmountIsUnique(entries: seq<(ScVal, ScVal)>, a: nat, b: nat)
    requires AmountStands(entries, a) && AmountStands(entries, b)
    ensures a == b
  {
  }

  lemma MuxedIsUnique(entries: seq<(ScVal, ScVal)>, a: Option<ScVal>, b: Option<ScVal>)
    requires MuxedStands(entries, a) && MuxedStands(entries, b)
    ensures a == b
  {
  }

  lemma DataIsWhatItCarries(data: ScVal, amount: nat, muxed: Option<ScVal>)
    ensures DecodeData(data) == Some((amount, muxed)) <==> Carries(data, amount, muxed)
  {
    if data.Map? && data.entries.Some? {
      var entries := data.entries.value;
      EntriesRead(entries);
      if Carries(data, amount, muxed) {
        var read := ReadMap(entries).value;
        AmountIsUnique(entries, amount, read.0.value);
        MuxedIsUnique(entries, muxed, read.1);
      }
    }
  }

  // --- the decoder ------------------------------------------------------------------------------

  /** The decoder reads a movement from an event exactly when the event states it. */
  lemma DecodesExactlyWhatIsStated(body: Body, t: TransferType, d: Decoded)
    requires body.topics != []
    ensures Decode(body, t) == Some(d) <==> States(body, t, d)
  {
    var rest := body.topics[1..];
    assert forall k :: 0 < k < |body.topics| ==> rest[k - 1] == body.topics[k];
    ReadableIff(rest);
    assert (forall k :: 0 <= k < |rest| ==> IsReadable(rest[k])) <==>
      forall k :: 0 < k < |body.topics| ==> IsReadable(body.topics[k]);
    if ReadTopics(rest).Some? {
      var at := PlacesOf(rest);
      SidesAreWhereTheyStand(body.topics, t, ReadTopics(rest).value.0, at, d.from, d.to);
      AssetStandsPastTheName(body.topics, d.asset);
      DataIsWhatItCarries(body.data, d.amount, d.muxedId);
    }
  }

  lemma AssetStandsPastTheName(topics: seq<ScVal>, asset: string)
    requires topics != [] && ReadTopics(topics[1..]).Some?
    ensures ReadTopics(topics[1..]).value.1 == asset <==> AssetStands(topics, asset)
  {
    var rest := topics[1..];
    assert forall k :: 0 < k < |topics| ==> rest[k - 1] == topics[k];
    AssetRead(rest);
    if k: nat :| 0 < k < |topics| && topics[k].Str? {
      assert rest[k - 1].Str?;
      var n: nat :| n < |rest| && rest[n] == Str(ReadTopics(rest).value.1) &&
        forall m :: n < m < |rest| ==> !rest[m].Str?;
      assert topics[n + 1] == Str(ReadTopics(rest).value.1);
    } else {
      assert forall k :: 0 <= k < |rest| ==> rest[k] == topics[k + 1];
    }
  }

  // --- on the shapes the network emits ------------------------------------------------------------

  /** The payload of a movement: a bare amount, or a map with the amount and, maybe, a muxed id. */
  predicate IsPayload(data: ScVal, amount: nat, muxed: Option<ScVal>) {
    var entry := (Sym("amount"), I128(amount));
    match muxed
    case None => data == I128(amount) || data == Map(Some([entry]))
    case Some(id) => (id.U64? || id.Bytes? || id.Str?) && data == Map(Some([entry, (Sym("to_muxed_id"), id)]))
  }

  lemma PayloadCarries(data: ScVal, amount: nat, muxed: Option<ScVal>)
    requires IsPayload(data, amount, muxed)
    ensures Carries(data, amount, muxed)
  {
    if data.Map? {
      var entries := data.entries.value;
      assert IsAmountEntry(entries[0]) && !IsMuxedEntry(entries[0]);
      assert |entries| == 2 ==> IsMuxedEntry(entries[1]) && !IsAmountEntry(entries[1]);
      assert AmountStands(entries, amount) && MuxedStands(entries, muxed);
    }
  }

  /** A transfer goes from the first address to the second. */
  lemma TransferPaysTheSecond(name: ScVal, payer: Address, payee: Address, asset: string, data: ScVal, amount: nat,
      muxed: Option<ScVal>)
    requires StrKey(payer).Some? && StrKey(payee).Some? && IsPayload(data, amount, muxed)
    ensures Decode(Body([name, Addr(payer), Addr(payee), Str(asset)], data), Transfer) ==
      Some(Decoded(Transfer, StrKey(payer).value, StrKey(payee).value, amount, muxed, asset))
  {
    var topics := [name, Addr(payer), Addr(payee), Str(asset)];
    PayloadCarries(data, amount, muxed);
    assert FirstParty(topics, 1, StrKey(payer).value) && LastParty(topics, 2, StrKey(payee).value);
    assert PaysBetween(topics, 1, 2, StrKey(payer).value, StrKey(payee).value) && topics[3] == Str(asset);
    DecodesExactlyWhatIsStated(Body(topics, data), Transfer,
      Decoded(Transfer, StrKey(payer).value, StrKey(payee).value, amount, muxed, asset));
  }

  /** A burn takes from its address and pays nobody. */
  lemma BurnPaysNobody(name: ScVal, payer: Address, asset: string, data: ScVal, amount: nat, muxed: Option<ScVal>)
    requires StrKey(payer).Some? && IsPayload(data, amount, muxed)
    ensures Decode(Body([name, Addr(payer), Str(asset)], data), Burn) ==
      Some(Decoded(Burn, StrKey(payer).value, "", amount, muxed, asset))
  {
    var topics := [name, Addr(payer), Str(asset)];
    PayloadCarries(data, amount, muxed);
    assert FirstParty(topics, 1, StrKey(payer).value) && topics[2] == Str(asset);
    DecodesExactlyWhatIsStated(Body(topics, data), Burn,
      Decoded(Burn, StrKey(payer).value, "", amount, muxed, asset));
  }

  /** Where addresses stand past the name. */
  ghost function PartiesOf(topics: seq<ScVal>): set<int> {
    set k | 0 < k < |topics| && topics[k].Addr?
  }

  /** A transfer with any other number of addresses is rejected, whatever else it says. */
  lemma TransferNeedsTwoAddresses(body: Body)
    requires body.topics != []
    ensures Decode(body, Transfer).Some? ==> |PartiesOf(body.topics)| == 2
  {
    if Decode(body, Transfer).Some? {
      var d := Decode(body, Transfer).value;
      DecodesExactlyWhatIsStated(body, Transfer, d);
      var i: nat, j: nat :| PaysBetween(body.topics, i, j, d.from, d.to);
      assert PartiesOf(body.topics) == {i, j};
    }
  }
}
