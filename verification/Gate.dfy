// The equivalence gate of internal/ingest/heal.go: before the first heal, a recent
// checkpoint-aligned sample is replayed and compared with the RPC's copy of it.
module Gate {
  import opened Basics
  import opened Canonical

  const CHECKPOINT_FREQUENCY := 64
  const EQUIVALENCE_SAMPLE := 8

  /** One ledger as a source serves it: what consensus fixed, debug output, and the change
      vectors whose order may differ from run to run. */
  datatype Copy = Copy(sequence: nat, consensus: Bytes, diagnostics: Bytes, vectors: seq<Vector>)

  /** The RPC's answer to its n-th request for a start and a limit. */
  type Rpc = (nat, nat, nat) -> Option<seq<Copy>>

  /** The ledger the replay produces at its n-th request. */
  type Core = (nat, nat) -> Option<Copy>

  datatype Verdict = Passed | TooYoung | SourceFailed | NeverServed(missing: nat) | Diverged(ledger: nat)

  /** A served batch is not empty. */
  ghost predicate NeverEmpty(rpc: Rpc) {
    forall n, start, limit :: AnswersSomething(rpc(n, start, limit))
  }

  ghost predicate AnswersSomething(r: Option<seq<Copy>>) {
    r.Some? ==> r.value != []
  }

  /** Every request is answered with consecutive ledgers from the one asked for. */
  ghost predicate InOrder(rpc: Rpc) {
    forall n, start, limit :: OrderedAnswer(rpc(n, start, limit), start)
  }

  ghost predicate OrderedAnswer(r: Option<seq<Copy>>, start: nat) {
    r.Some? && forall i :: 0 <= i < |r.value| ==> r.value[i].sequence == start + i
  }

  /** The newest checkpoint ledger one full cadence behind the cursor. */
  function CheckpointBehind(cursor: uint32): (cp: uint32)
    requires 3 * CHECKPOINT_FREQUENCY <= cursor
    ensures cp % CHECKPOINT_FREQUENCY == CHECKPOINT_FREQUENCY - 1
    ensures cp + CHECKPOINT_FREQUENCY <= cursor < cp + 2 * CHECKPOINT_FREQUENCY
    ensures EQUIVALENCE_SAMPLE <= cp
  {
    (cursor - CHECKPOINT_FREQUENCY + 1) / CHECKPOINT_FREQUENCY * CHECKPOINT_FREQUENCY - 1
  }

  /** Same consensus data, and vector by vector the same units. */
  ghost predicate Equivalent(a: Copy, b: Copy) {
    && a.sequence == b.sequence && a.consensus == b.consensus && |a.vectors| == |b.vectors|
    && forall i :: 0 <= i < |a.vectors| ==> SameUnits(a.vectors[i], b.vectors[i])
  }

  ghost predicate SameUnits(v: Vector, w: Vector) {
    multiset(UnitsOf(v)) == multiset(UnitsOf(w))
  }

  /** The RPC served the replayed ledger too, and the two copies are equivalent. */
  ghost predicate Agrees(a: Copy, served: map<nat, Copy>) {
    a.sequence in served && Equivalent(a, served[a.sequence])
  }

  ghost predicate IsNormal(a: Copy, m: Marshal, out: Copy) {
    && out.sequence == a.sequence && out.consensus == a.consensus && out.diagnostics == []
    && |out.vectors| == |a.vectors|
    && forall i :: 0 <= i < |a.vectors| ==> IsCanonical(a.vectors[i], m, out.vectors[i])
  }

  /** Drops debug output and puts every change vector in canonical order. */
  method Normalize(a: Copy, m: Marshal) returns (out: Copy)
    requires IsXdr(m)
    ensures IsNormal(a, m, out)
  {
    var vectors := [];
    for i := 0 to |a.vectors|
      invariant |vectors| == i
      invariant forall k :: 0 <= k < i ==> IsCanonical(a.vectors[k], m, vectors[k])
    {
      var v := CanonicalizeChanges(a.vectors[i], m);
      vectors := vectors + [v];
    }
    return Copy(a.sequence, a.consensus, [], vectors);
  }

  /** Comparing normal forms byte by byte decides equivalence. */
  lemma NormalFormsDecide(a: Copy, b: Copy, m: Marshal, na: Copy, nb: Copy)
    requires IsXdr(m) && IsNormal(a, m, na) && IsNormal(b, m, nb)
    ensures na == nb <==> Equivalent(a, b)
  {
    if |a.vectors| == |b.vectors| {
      forall i | 0 <= i < |a.vectors|
        ensures na.vectors[i] == nb.vectors[i] <==> SameUnits(a.vectors[i], b.vectors[i])
      {
        EqualIffSameUnits(a.vectors[i], b.vectors[i], m, na.vectors[i], nb.vectors[i]);
      }
      if Equivalent(a, b) {
        assert na.vectors == nb.vectors;
      }
    }
  }

  ghost predicate Sampled(copies: map<nat, Copy>, from: nat, upTo: int) {
    forall l: nat :: from <= l <= upTo ==> l in copies
  }

  /** The core produces the ledgers of the sample, each equivalent to the RPC's copy. */
  ghost predicate SampleAgrees(core: Core, from: nat, served: map<nat, Copy>) {
    forall i: nat :: i < EQUIVALENCE_SAMPLE ==> AgreesAt(core, from, i, served)
  }

  ghost predicate AgreesAt(core: Core, from: nat, i: nat, served: map<nat, Copy>) {
    var lcm := core(i, from + i);
    lcm.Some? && lcm.value.sequence == from + i && Agrees(lcm.value, served)
  }

  /** The copy stands in one of the RPC's answers. */
  ghost predicate IsServed(rpc: Rpc, c: Copy) {
    exists n, start, limit :: Holds(rpc(n, start, limit), c)
  }

  ghost predicate Holds(answer: Option<seq<Copy>>, c: Copy) {
    answer.Some? && c in answer.value
  }

  /** Every copy was served by the RPC, under the sequence it carries. */
  ghost predicate AllServed(rpc: Rpc, copies: map<nat, Copy>) {
    forall l :: l in copies ==> ServedAt(rpc, copies, l)
  }

  ghost predicate ServedAt(rpc: Rpc, copies: map<nat, Copy>, l: nat)
    requires l in copies
  {
    copies[l].sequence == l && IsServed(rpc, copies[l])
  }

  /** The whole sample was replayed, and each ledger of it agrees with a copy the RPC served. */
  ghost predicate Proven(rpc: Rpc, core: Core, from: nat) {
    exists served :: AllServed(rpc, served) && SampleAgrees(core, from, served)
  }

  /** The whole sample replays, and each ledger of it agrees with whatever copy the RPC serves. */
  ghost predicate AgreesThroughout(rpc: Rpc, core: Core, from: nat) {
    forall i: nat :: i < EQUIVALENCE_SAMPLE ==> AgreesWithAll(rpc, core, from, i)
  }

  ghost predicate AgreesWithAll(rpc: Rpc, core: Core, from: nat, i: nat) {
    var lcm := core(i, from + i);
    && lcm.Some? && lcm.value.sequence == from + i
    && forall c :: IsServed(rpc, c) && c.sequence == from + i ==> Equivalent(lcm.value, c)
  }

  lemma AgreeingCopiesAgree(rpc: Rpc, core: Core, from: nat, served: map<nat, Copy>)
    requires AgreesThroughout(rpc, core, from) && AllServed(rpc, served)
    requires Sampled(served, from, from + EQUIVALENCE_SAMPLE - 1)
    ensures SampleAgrees(core, from, served)
  {
    forall i: nat | i < EQUIVALENCE_SAMPLE
      ensures AgreesAt(core, from, i, served)
    {
      assert AgreesWithAll(rpc, core, from, i);
      assert ServedAt(rpc, served, from + i);
    }
  }

  /** The RPC's copies of the sample, by the sequence each one carries. */
  method FetchSample(rpc: Rpc, from: nat, cp: nat) returns (copies: Option<map<nat, Copy>>)
    requires NeverEmpty(rpc)
    ensures copies.Some? ==> AllServed(rpc, copies.value)
    ensures InOrder(rpc) ==> copies.Some? && Sampled(copies.value, from, cp)
  {
    var served: map<nat, Copy>, calls, next := map[], 0, from;
    while next <= cp
      invariant AllServed(rpc, served) && from <= next
      invariant InOrder(rpc) ==> Sampled(served, from, next - 1)
      decreases 1 + cp - next
    {
      var batch := rpc(calls, next, cp - next + 1);
      assert AnswersSomething(batch) && (InOrder(rpc) ==> OrderedAnswer(batch, next));
      assert forall c :: Holds(batch, c) ==> IsServed(rpc, c);
      calls := calls + 1;
      if batch.None? {
        return None;
      }
      ghost var first := next;
      for i := 0 to |batch.value|
        invariant next == first + i
        invariant AllServed(rpc, served)
        invariant InOrder(rpc) ==> Sampled(served, from, next - 1)
      {
        assert Holds(batch, batch.value[i]);
        served := served[batch.value[i].sequence := batch.value[i]];
        next := next + 1;
      }
    }
    return Some(served);
  }

  /** The first ledger of the sample. */
  function SampleStart(cursor: uint32): (from: uint32)
    requires 3 * CHECKPOINT_FREQUENCY <= cursor
    ensures from + EQUIVALENCE_SAMPLE - 1 == CheckpointBehind(cursor)
  {
    CheckpointBehind(cursor) - EQUIVALENCE_SAMPLE + 1
  }

  /** The gate passes only when the whole sample was served and replayed and every ledger of
      it is the same up to debug output and unit order, and always does when the sample agrees
      with whatever an RPC that answers in order serves; the first other ledger is named. */
  method VerifyEquivalence(cursor: Option<uint32>, rpc: Rpc, core: Core, m: Marshal)
      returns (verdict: Verdict, served: map<nat, Copy>, replayed: seq<Copy>)
    requires IsXdr(m) && NeverEmpty(rpc)
    ensures verdict.TooYoung? <==> cursor.None? || cursor.value < 3 * CHECKPOINT_FREQUENCY
    ensures AllServed(rpc, served)
    ensures !verdict.TooYoung? ==> Compared(core, SampleStart(cursor.value), served, verdict, replayed)
    ensures verdict.Passed? ==> Proven(rpc, core, SampleStart(cursor.value))
    ensures !verdict.TooYoung? && InOrder(rpc) ==>
      (verdict.Passed? <==> SampleAgrees(core, SampleStart(cursor.value), served))
    ensures !verdict.TooYoung? && InOrder(rpc) && AgreesThroughout(rpc, core, SampleStart(cursor.value)) ==>
      verdict.Passed?
  {
    served, replayed := map[], [];
    if cursor.None? || cursor.value < 3 * CHECKPOINT_FREQUENCY {
      return TooYoung, served, replayed;
    }
    var cp, from := CheckpointBehind(cursor.value), SampleStart(cursor.value);
    var sample := FetchSample(rpc, from, cp);
    if sample.None? {
      return SourceFailed, served, replayed;
    }
    served := sample.value;
    verdict, replayed := CompareSample(core, from, served, m);
    if InOrder(rpc) && AgreesThroughout(rpc, core, from) {
      AgreeingCopiesAgree(rpc, core, from, served);
    }
  }

  /** What a verdict says about the ledgers compared so far: all of them agree, but for the one a
      divergence names. */
  ghost predicate Compared(core: Core, from: nat, served: map<nat, Copy>, verdict: Verdict, replayed: seq<Copy>) {
    && |replayed| <= EQUIVALENCE_SAMPLE
    && (forall i :: 0 <= i < |replayed| ==> replayed[i].sequence == from + i)
    && (verdict.Passed? ==> |replayed| == EQUIVALENCE_SAMPLE && SampleAgrees(core, from, served))
    && (verdict.Passed? ==> forall i :: 0 <= i < |replayed| ==> Agrees(replayed[i], served))
    && (verdict.Diverged? ==> replayed != [] && verdict.ledger == from + |replayed| - 1)
    && (verdict.Diverged? ==> verdict.ledger in served && !Agrees(replayed[|replayed| - 1], served))
    && (verdict.Diverged? ==> forall i :: 0 <= i < |replayed| - 1 ==> Agrees(replayed[i], served))
  }

  /** Replays the sample ledger by ledger, up to the first one that does not agree. */
  method CompareSample(core: Core, from: nat, served: map<nat, Copy>, m: Marshal)
      returns (verdict: Verdict, replayed: seq<Copy>)
    requires IsXdr(m)
    ensures !verdict.TooYoung? && Compared(core, from, served, verdict, replayed)
    ensures verdict.Passed? <==> SampleAgrees(core, from, served)
  {
    replayed := [];
    for i := 0 to EQUIVALENCE_SAMPLE
      invariant |replayed| == i
      invariant forall k :: 0 <= k < i ==> replayed[k].sequence == from + k && Agrees(replayed[k], served)
      invariant forall k: nat :: k < i ==> AgreesAt(core, from, k, served)
    {
      var lcm;
      verdict, lcm := CompareOne(core, from, i, served, m);
      if lcm.Some? {
        replayed := replayed + [lcm.value];
      }
      if !verdict.Passed? {
        return;
      }
    }
    verdict := Passed;
  }

  /** Replays one ledger of the sample and compares its normal form with the RPC's copy of it. */
  method CompareOne(core: Core, from: nat, i: nat, served: map<nat, Copy>, m: Marshal)
      returns (verdict: Verdict, lcm: Option<Copy>)
    requires IsXdr(m)
    ensures verdict.Passed? <==> AgreesAt(core, from, i, served)
    ensures !verdict.TooYoung?
    ensures verdict.Passed? || verdict.Diverged? ==>
      lcm == core(i, from + i) && lcm.Some? && lcm.value.sequence == from + i
    ensures verdict.Diverged? ==> verdict.ledger == from + i && from + i in served && !Agrees(lcm.value, served)
    ensures !verdict.Passed? && !verdict.Diverged? ==> lcm.None?
  {
    var seqNo := from + i;
    lcm := core(i, seqNo);
    if lcm.None? || lcm.value.sequence != seqNo {
      return SourceFailed, None;
    }
    if seqNo !in served {
      return NeverServed(seqNo), None;
    }
    var got := Normalize(lcm.value, m);
    var want := Normalize(served[seqNo], m);
    NormalFormsDecide(lcm.value, served[seqNo], m, got, want);
    verdict := if got != want then Diverged(seqNo) else Passed;
  }
}
