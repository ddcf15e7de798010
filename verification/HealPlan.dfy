// The replay-plan pipeline of internal/store/plan.go: what an operator asked to
// replay, normalized into intervals, then cut out of one gap's remainder.
module HealPlan {
  import opened Basics
  import opened Ranges

  datatype Mode = Replay | Deferred

  /** One range of a partitioned gap remainder. */
  datatype Piece = Piece(range: Interval, mode: Mode)

  const CHECKPOINT_FREQUENCY := 64

  // --- what a plan means, ledger by ledger ----------------------------------

  predicate ValidRequest(iv: Interval) {
    1 <= iv.from <= iv.to
  }

  /** l shares a checkpoint with some ledger within padding of the request. */
  predicate Requested(iv: Interval, padding: uint32, l: int) {
    && 1 <= l <= MAX_U32
    && Max(iv.from - padding, 0) / CHECKPOINT_FREQUENCY <= l / CHECKPOINT_FREQUENCY
    && l / CHECKPOINT_FREQUENCY <= (iv.to + padding) / CHECKPOINT_FREQUENCY
  }

  /** The ledgers a list of requests asks to replay, in unbounded arithmetic. */
  ghost function ReplaySet(requests: seq<Interval>, padding: uint32): iset<int> {
    iset l: int | RequestedByAny(requests, padding, l)
  }

  ghost predicate RequestedByAny(requests: seq<Interval>, padding: uint32, l: int) {
    exists i :: 0 <= i < |requests| && Requested(requests[i], padding, l)
  }

  ghost function LedgersOf(plan: seq<Interval>): iset<int> {
    iset l: int | Within(plan, l)
  }

  ghost predicate SortedByFrom(s: seq<Interval>) {
    forall i, j :: 0 <= i < j < |s| ==> s[i].from <= s[j].from
  }

  /** What merging leaves: a hole after every interval, except where one already
      reaches the last 32-bit ledger and the merge test wrapped. */
  ghost predicate Merged(s: seq<Interval>) {
    forall i :: 0 <= i < |s| ==> StandsApart(s, i)
  }

  /** The interval at i begins no later than any behind it, and leaves a hole unless saturated. */
  ghost predicate StandsApart(s: seq<Interval>, i: nat)
    requires i < |s|
  {
    && 1 <= s[i].from <= s[i].to
    && forall j :: i < j < |s| ==> s[i].from <= s[j].from && (s[i].to == MAX_U32 || s[i].to + 1 < s[j].from)
  }

  /** Pieces tile [lo .. hi] end to end, alternate modes, and follow the replay set. */
  ghost predicate Tiles(ps: seq<Piece>, lo: int, hi: int, replay: iset<int>) {
    && 0 < |ps|
    && ps[0].range.from == lo
    && ps[|ps| - 1].range.to == hi
    && (forall i :: 0 <= i < |ps| ==> ps[i].range.from <= ps[i].range.to)
    && (forall i :: 0 < i < |ps| ==> ps[i].range.from == ps[i - 1].range.to + 1)
    && (forall i :: 0 < i < |ps| ==> ps[i].mode != ps[i - 1].mode)
    && (forall i, l :: 0 <= i < |ps| && ps[i].range.Has(l) ==> (ps[i].mode == Replay <==> l in replay))
  }

  // --- normalizePlan ---------------------------------------------------------

  /** Pads one request, then snaps both edges to the enclosing checkpoints,
      saturating at the ends of the 32-bit range. */
  function PadAndSnap(iv: Interval, padding: uint32): (r: Interval)
    requires ValidRequest(iv)
    ensures 1 <= r.from <= r.to
    ensures forall l :: r.Has(l) <==> Requested(iv, padding, l)
  {
    var from := if iv.from > padding then iv.from - padding else 1;
    var to := if iv.to < MAX_U32 - padding then iv.to + padding else MAX_U32;
    var snapped := from - from % CHECKPOINT_FREQUENCY;
    var pad := CHECKPOINT_FREQUENCY - 1 - to % CHECKPOINT_FREQUENCY;
    Interval(if snapped == 0 then 1 else snapped, if to < MAX_U32 - pad then to + pad else MAX_U32)
  }

  method NormalizePlan(requests: seq<Interval>, padding: uint32) returns (plan: seq<Interval>)
    requires forall i :: 0 <= i < |requests| ==> ValidRequest(requests[i])
    ensures Merged(plan)
    ensures LedgersOf(plan) == ReplaySet(requests, padding)
  {
    if |requests| == 0 {
      return [];
    }
    var out := new Interval[|requests|];
    for i := 0 to |requests|
      invariant forall k :: 0 <= k < i ==> out[k] == PadAndSnap(requests[k], padding)
    {
      out[i] := PadAndSnap(requests[i], padding);
    }
    ghost var snapped := out[..];
    SortByFrom(out);
    ghost var sorted := out[..];
    assert forall i :: 0 <= i < |sorted| ==> sorted[i] in snapped;
    var n := MergeInPlace(out);
    plan := out[..n];
    SnappedHoldTheRequests(requests, padding, snapped);
    SameElementsSameLedgers(snapped, sorted);
    SameElementsSameLedgers(sorted, snapped);
    assert LedgersOf(plan) == LedgersOf(sorted);
  }

  lemma SnappedHoldTheRequests(requests: seq<Interval>, padding: uint32, snapped: seq<Interval>)
    requires forall i :: 0 <= i < |requests| ==> ValidRequest(requests[i])
    requires |snapped| == |requests| && forall k :: 0 <= k < |snapped| ==>
      snapped[k] == PadAndSnap(requests[k], padding)
    ensures LedgersOf(snapped) == ReplaySet(requests, padding)
  {
    forall l: int
      ensures l in LedgersOf(snapped) <==> l in ReplaySet(requests, padding)
    {
      if RequestedByAny(requests, padding, l) {
        var k :| 0 <= k < |requests| && Requested(requests[k], padding, l);
        assert snapped[k].Has(l);
      }
    }
  }

  lemma SameElementsSameLedgers(s: seq<Interval>, t: seq<Interval>)
    requires forall x :: x in s ==> x in t
    ensures LedgersOf(s) <= LedgersOf(t)
  {
    forall l | l in LedgersOf(s)
      ensures l in LedgersOf(t)
    {
      var i :| 0 <= i < |s| && s[i].Has(l);
      assert s[i] in t;
    }
  }

  /** sort.Slice by the lower edge: a permutation, ascending, not stable. */
  method SortByFrom(a: array<Interval>)
    modifies a
    ensures SortedByFrom(a[..])
    ensures forall x :: x in a[..] <==> x in old(a[..])
  {
    var i := 0;
    while i < a.Length
      invariant 0 <= i <= a.Length
      invariant forall x, y :: 0 <= x < y < a.Length && x < i ==> a[x].from <= a[y].from
      invariant forall x :: x in a[..] <==> x in old(a[..])
    {
      var least := i;
      for j := i + 1 to a.Length
        invariant i <= least < a.Length
        invariant forall y :: i <= y < j ==> a[least].from <= a[y].from
      {
        if a[j].from < a[least].from {
          least := j;
        }
      }
      Swap(a, i, least);
      i := i + 1;
    }
  }

  method Swap(a: array<Interval>, i: nat, j: nat)
    requires i < a.Length && j < a.Length
    modifies a
    ensures a[..] == old(a[..])[i := old(a[j])][j := old(a[i])]
    ensures forall x :: x in a[..] <==> x in old(a[..])
  {
    a[i], a[j] := a[j], a[i];
    ghost var was, now := old(a[..]), a[..];
    forall x | x in was
      ensures x in now
    {
      var k :| 0 <= k < |was| && was[k] == x;
      assert now[if k == i then j else if k == j then i else k] == x;
    }
    forall x | x in now
      ensures x in was
    {
      var k :| 0 <= k < |now| && now[k] == x;
      assert was[if k == i then j else if k == j then i else k] == x;
    }
  }

  /** Compacts sorted intervals over their own array: `kept` grows behind the reading index. */
  method MergeInPlace(out: array<Interval>) returns (n: nat)
    requires 0 < out.Length
    requires SortedByFrom(out[..])
    requires forall i :: 0 <= i < out.Length ==> 1 <= out[i].from <= out[i].to
    modifies out
    ensures n <= out.Length
    ensures Merged(out[..n])
    ensures forall l :: Within(out[..n], l) <==> Within(old(out[..]), l)
  {
    n := 1;
    ghost var input := out[..];
    assert out[..1] == input[..1];
    for i := 1 to out.Length
      invariant 1 <= n <= i
      invariant out[i..] == input[i..]
      invariant MergedFrom(out[..n], input[..i]) && out[n - 1].from <= input[i - 1].from
    {
      assert out[i] == out[i..][0] == input[i];
      assert out[i + 1..] == out[i..][1..] == input[i + 1..];
      MergeMore(out[..n], input, i);
      ghost var kept := out[..n];
      n := MergeOne(out, n, i);
      assert out[..n] == MergeNext(kept, input[i]);
    }
    assert input[..out.Length] == input;
  }

  /** Folds the interval at index i into the n already kept at the front. */
  method MergeOne(out: array<Interval>, n: nat, i: nat) returns (m: nat)
    requires 0 < n <= i < out.Length
    modifies out
    ensures n <= m <= i + 1
    ensures out[..m] == MergeNext(old(out[..n]), old(out[i]))
    ensures out[i + 1..] == old(out[i + 1..])
  {
    var iv := out[i];
    if iv.from <= Wrap32(out[n - 1].to + 1) {
      if iv.to > out[n - 1].to {
        out[n - 1] := Interval(out[n - 1].from, iv.to);
      }
      m := n;
    } else {
      out[n] := iv;
      m := n + 1;
    }
  }

  /** Merged intervals with exactly the ledgers of the input read so far. */
  ghost predicate MergedFrom(kept: seq<Interval>, input: seq<Interval>) {
    Merged(kept) && forall l :: Within(kept, l) <==> Within(input, l)
  }

  lemma MergeMore(kept: seq<Interval>, input: seq<Interval>, i: nat)
    requires kept != [] && 0 < i < |input|
    requires MergedFrom(kept, input[..i])
    requires kept[|kept| - 1].from <= input[i - 1].from <= input[i].from && 1 <= input[i].from <= input[i].to
    ensures MergedFrom(MergeNext(kept, input[i]), input[..i + 1])
    ensures var r := MergeNext(kept, input[i]); r[|r| - 1].from <= input[i].from
  {
    assert StandsApart(kept, |kept| - 1);
    MergeNextIsMerged(kept, input[i]);
    MergeNextHolds(kept, input[i]);
    assert input[..i + 1] == input[..i] + [input[i]];
    WithinSnoc(input[..i], input[i]);
  }

  /** One merge step: `last.To+1` wraps at the last 32-bit ledger, which leaves
      every interval after a saturated one unmerged. */
  function MergeNext(kept: seq<Interval>, iv: Interval): (r: seq<Interval>)
    requires kept != []
    ensures r != []
  {
    var last := kept[|kept| - 1];
    if iv.from <= Wrap32(last.to + 1) then
      if iv.to > last.to then kept[|kept| - 1 := Interval(last.from, iv.to)] else kept
    else
      kept + [iv]
  }

  lemma MergeNextIsMerged(kept: seq<Interval>, iv: Interval)
    requires kept != [] && Merged(kept) && 1 <= iv.from <= iv.to
    requires kept[|kept| - 1].from <= iv.from
    ensures var r := MergeNext(kept, iv); Merged(r) && r[|r| - 1].from <= iv.from
  {
    var last := kept[|kept| - 1];
    assert StandsApart(kept, |kept| - 1);
    if iv.from <= Wrap32(last.to + 1) {
      GrownIsMerged(kept, Interval(last.from, Max(last.to, iv.to)));
    } else {
      ApartIsMerged(kept, iv);
    }
  }

  lemma MergeNextHolds(kept: seq<Interval>, iv: Interval)
    requires kept != [] && kept[|kept| - 1].from <= iv.from <= iv.to
    requires 1 <= kept[|kept| - 1].from <= kept[|kept| - 1].to
    ensures forall l :: Within(MergeNext(kept, iv), l) <==> Within(kept, l) || iv.Has(l)
  {
    var m := |kept| - 1;
    if iv.from <= Wrap32(kept[m].to + 1) {
      var grown := Interval(kept[m].from, Max(kept[m].to, iv.to));
      assert MergeNext(kept, iv) == kept[m := grown];
      GrownHolds(kept, iv, grown);
    } else {
      WithinSnoc(kept, iv);
    }
  }

  lemma ApartIsMerged(kept: seq<Interval>, iv: Interval)
    requires kept != [] && Merged(kept) && 1 <= iv.from <= iv.to
    requires kept[|kept| - 1].from <= iv.from && iv.from > Wrap32(kept[|kept| - 1].to + 1)
    ensures Merged(kept + [iv])
  {
    var t, m := kept + [iv], |kept| - 1;
    forall i | 0 <= i < |t|
      ensures StandsApart(t, i)
    {
      assert i < |kept| ==> StandsApart(kept, i);
    }
  }

  lemma GrownIsMerged(kept: seq<Interval>, grown: Interval)
    requires kept != [] && Merged(kept)
    requires grown.from == kept[|kept| - 1].from && grown.to >= kept[|kept| - 1].to
    ensures Merged(kept[|kept| - 1 := grown])
  {
    var t := kept[|kept| - 1 := grown];
    forall i | 0 <= i < |t|
      ensures StandsApart(t, i)
    {
      assert StandsApart(kept, i);
    }
  }

  lemma GrownHolds(kept: seq<Interval>, iv: Interval, grown: Interval)
    requires kept != [] && forall l :: grown.Has(l) <==> kept[|kept| - 1].Has(l) || iv.Has(l)
    ensures forall l :: Within(kept[|kept| - 1 := grown], l) <==> Within(kept, l) || iv.Has(l)
  {
    var head, last := kept[..|kept| - 1], kept[|kept| - 1];
    assert kept == head + [last] && kept[|kept| - 1 := grown] == head + [grown];
    WithinSnoc(head, last);
    WithinSnoc(head, grown);
  }

  lemma WithinSnoc(s: seq<Interval>, r: Interval)
    ensures forall l :: Within(s + [r], l) <==> Within(s, l) || r.Has(l)
  {
    forall l
      ensures Within(s + [r], l) <==> Within(s, l) || r.Has(l)
    {
      var t := s + [r];
      assert t[|s|] == r;
      if Within(s, l) {
        var i :| 0 <= i < |s| && s[i].Has(l);
        assert t[i].Has(l);
      }
    }
  }

  // --- partition -------------------------------------------------------------

  method Partition(from: uint32, to: uint32, plan: seq<Interval>) returns (out: seq<Piece>)
    requires from <= to
    requires Merged(plan)
    ensures Tiles(out, from, to, LedgersOf(plan))
  {
    out := [];
    var cur := from;
    var i := 0;
    while i < |plan|
      invariant 0 <= i <= |plan|
      invariant from <= cur <= to
      invariant TilesSoFar(out, from, cur - 1, Replay, LedgersOf(plan))
      invariant out != [] ==> 0 < i && plan[i - 1].to == cur - 1
      invariant forall k :: 0 <= k < i ==> plan[k].to < cur
      decreases |plan| - i
    {
      var iv := plan[i];
      assert StandsApart(plan, i) && (0 < i ==> StandsApart(plan, i - 1));
      if iv.to < cur {
        i := i + 1;
        continue;
      }
      if iv.from > to {
        break;
      }
      var start, end := Max(iv.from, cur), Min(iv.to, to);
      if start > cur {
        NothingPlanned(plan, i, cur, start - 1);
        Append(out, from, Piece(Interval(cur, start - 1), Deferred), LedgersOf(plan));
        out := out + [Piece(Interval(cur, start - 1), Deferred)];
      }
      Append(out, from, Piece(Interval(start, end), Replay), LedgersOf(plan));
      out := out + [Piece(Interval(start, end), Replay)];
      if end == to {
        return;
      }
      cur := end + 1;
      i := i + 1;
    }
    NothingPlanned(plan, i, cur, to);
    Append(out, from, Piece(Interval(cur, to), Deferred), LedgersOf(plan));
    out := out + [Piece(Interval(cur, to), Deferred)];
  }

  /** Tiles up to hi with a last piece of the given mode, or nothing yet. */
  ghost predicate TilesSoFar(ps: seq<Piece>, lo: int, hi: int, last: Mode, replay: iset<int>) {
    if ps == [] then hi == lo - 1 else Tiles(ps, lo, hi, replay) && ps[|ps| - 1].mode == last
  }

  lemma Append(ps: seq<Piece>, lo: int, p: Piece, replay: iset<int>)
    requires p.range.from <= p.range.to
    requires TilesSoFar(ps, lo, p.range.from - 1, if p.mode == Replay then Deferred else Replay, replay)
    requires forall l :: p.range.Has(l) ==> (p.mode == Replay <==> l in replay)
    ensures TilesSoFar(ps + [p], lo, p.range.to, p.mode, replay)
  {
  }

  /** Between the intervals already passed and the next one, nothing is planned. */
  lemma NothingPlanned(plan: seq<Interval>, i: nat, lo: int, hi: int)
    requires Merged(plan) && i <= |plan|
    requires forall k :: 0 <= k < i ==> plan[k].to < lo
    requires i < |plan| ==> hi < plan[i].from
    ensures forall l :: lo <= l <= hi ==> l !in LedgersOf(plan)
  {
    forall l, k | lo <= l <= hi && 0 <= k < |plan|
      ensures !plan[k].Has(l)
    {
      if i < k {
        assert StandsApart(plan, i);
      }
    }
  }

  // --- what the pieces are ---------------------------------------------------

  /** p is a maximal stretch of [lo .. hi] that the plan treats alike. */
  ghost predicate IsPiece(p: Piece, lo: int, hi: int, replay: iset<int>) {
    IsRun(if p.mode == Replay then replay else Outside(replay), lo, hi, p.range)
  }

  ghost function Outside(replay: iset<int>): iset<int> {
    iset l: int | l !in replay
  }

  /** The tiling is the only one: it lists exactly the maximal stretches. */
  lemma TilesAreThePieces(ps: seq<Piece>, lo: int, hi: int, replay: iset<int>)
    requires Tiles(ps, lo, hi, replay)
    ensures forall p :: p in ps <==> IsPiece(p, lo, hi, replay)
  {
    forall i | 0 <= i < |ps|
      ensures lo <= ps[i].range.from && ps[i].range.to <= hi && IsPiece(ps[i], lo, hi, replay)
    {
      TilesAscend(ps, lo, hi, replay, 0, i);
      TilesAscend(ps, lo, hi, replay, i, |ps| - 1);
      if 0 < i {
        assert ps[i - 1].range.Has(ps[i].range.from - 1);
      }
      if i < |ps| - 1 {
        assert ps[i + 1].range.from == ps[i].range.to + 1;
        assert ps[i + 1].range.Has(ps[i].range.to + 1);
      }
    }
    forall p | IsPiece(p, lo, hi, replay)
      ensures p in ps
    {
      var i := PieceAt(ps, lo, hi, replay, p.range.from);
      assert p.range.Has(p.range.from);
      assert p.mode == ps[i].mode;
      var alike := if p.mode == Replay then replay else Outside(replay);
      RunsOverlapOnlyWhenEqual(alike, lo, hi, p.range, ps[i].range, p.range.from);
    }
  }

  lemma TilesAscend(ps: seq<Piece>, lo: int, hi: int, replay: iset<int>, i: nat, j: nat)
    requires Tiles(ps, lo, hi, replay) && i <= j < |ps|
    ensures ps[i].range.from <= ps[j].range.from && ps[i].range.to <= ps[j].range.to
    ensures i < j ==> ps[i].range.to < ps[j].range.from
    decreases j - i
  {
    if i < j {
      TilesAscend(ps, lo, hi, replay, i + 1, j);
      assert ps[i + 1].range.from == ps[i].range.to + 1;
    }
  }

  lemma PieceAt(ps: seq<Piece>, lo: int, hi: int, replay: iset<int>, l: int) returns (i: nat)
    requires Tiles(ps, lo, hi, replay) && lo <= l <= hi
    ensures i < |ps| && ps[i].range.Has(l)
  {
    i := 0;
    while ps[i].range.to < l
      invariant i < |ps| && ps[i].range.from <= l
      decreases |ps| - i
    {
      assert i + 1 < |ps| ==> ps[i + 1].range.from == ps[i].range.to + 1;
      i := i + 1;
    }
  }

  /** Normalizing a normalized plan with no padding asks for the same ledgers. */
  lemma RenormalizingIsIdentity(requests: seq<Interval>, padding: uint32, plan: seq<Interval>)
    requires Merged(plan) && LedgersOf(plan) == ReplaySet(requests, padding)
    ensures ReplaySet(plan, 0) == LedgersOf(plan)
  {
    forall l | l in ReplaySet(plan, 0)
      ensures l in LedgersOf(plan)
    {
      var i :| 0 <= i < |plan| && Requested(plan[i], 0, l);
      assert StandsApart(plan, i);
      var edge := SameCheckpoint(plan[i], l);
      assert edge in LedgersOf(plan);
      var k :| 0 <= k < |requests| && Requested(requests[k], padding, edge);
      assert Requested(requests[k], padding, l);
    }
    forall l | l in LedgersOf(plan)
      ensures l in ReplaySet(plan, 0)
    {
      var i :| 0 <= i < |plan| && plan[i].Has(l);
      assert StandsApart(plan, i) && Requested(plan[i], 0, l);
    }
  }

  /** A ledger an unpadded request covers shares its checkpoint with one of the request's own. */
  lemma SameCheckpoint(iv: Interval, l: int) returns (edge: int)
    requires iv.from <= iv.to && Requested(iv, 0, l)
    ensures iv.Has(edge) && edge / CHECKPOINT_FREQUENCY == l / CHECKPOINT_FREQUENCY
  {
    edge := if l < iv.from then iv.from else if l > iv.to then iv.to else l;
  }
}
