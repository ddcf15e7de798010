// The canonical reordering of the equivalence gate (internal/ingest/heal.go): change
// vectors are cut into units, units are sorted by their encoding, and two vectors come
// out equal exactly when they hold the same units.
module Canonical {
  import opened Basics

  /** XDR's LedgerEntryChangeType, in the order of its discriminants. */
  datatype Kind = Created | Updated | Removed | State | Restored

  function Discriminant(k: Kind): Byte {
    match k
    case Created => 0
    case Updated => 1
    case Removed => 2
    case State => 3
    case Restored => 4
  }

  datatype LedgerEntryChange = LedgerEntryChange(kind: Kind, entry: Bytes)

  type Vector = seq<LedgerEntryChange>

  /** One change, or a STATE with the UPDATED or REMOVED it belongs to. */
  datatype Unit = Lone(first: LedgerEntryChange) | Pair(first: LedgerEntryChange, closing: LedgerEntryChange) {
    predicate Valid() {
      Pair? ==> first.kind.State? && ClosesState(closing)
    }

    function Changes(): Vector {
      match this
      case Lone(c) => [c]
      case Pair(c, d) => [c, d]
    }
  }

  type Marshal = Unit -> Bytes

  predicate ClosesState(c: LedgerEntryChange) {
    c.kind.Updated? || c.kind.Removed?
  }

  /** What XDR guarantees of a marshalled list of changes: different lists differ, and it
      opens with the list's length and the first change's discriminant, four bytes each. */
  ghost predicate IsXdr(m: Marshal) {
    && (forall u: Unit, v: Unit :: u.Valid() && v.Valid() && m(u) == m(v) ==> u == v)
    && (forall u: Unit :: u.Valid() ==> Opens(m(u), if u.Pair? then 2 else 1, Discriminant(u.first.kind)))
  }

  predicate Opens(b: Bytes, length: Byte, discriminant: Byte) {
    |b| >= 8 && b[..8] == [0, 0, 0, length, 0, 0, 0, discriminant]
  }

  // --- units -----------------------------------------------------------------

  /** Cuts a vector into units, first to last. */
  function UnitsOf(v: Vector): seq<Unit>
    decreases |v|
  {
    if v == [] then []
    else if |v| > 1 && v[0].kind.State? && ClosesState(v[1]) then [Pair(v[0], v[1])] + UnitsOf(v[2..])
    else [Lone(v[0])] + UnitsOf(v[1..])
  }

  function Flat(us: seq<Unit>): Vector {
    if us == [] then [] else us[0].Changes() + Flat(us[1..])
  }

  ghost predicate AllValid(us: seq<Unit>) {
    forall u :: u in us ==> u.Valid()
  }

  lemma {:induction false} UnitsMakeUpTheVector(v: Vector)
    ensures Flat(UnitsOf(v)) == v
    ensures AllValid(UnitsOf(v))
    decreases |v|
  {
    if v == [] {
    } else if |v| > 1 && v[0].kind.State? && ClosesState(v[1]) {
      UnitsMakeUpTheVector(v[2..]);
      OneUnitMore(Pair(v[0], v[1]), UnitsOf(v[2..]));
      assert v == [v[0], v[1]] + v[2..];
    } else {
      UnitsMakeUpTheVector(v[1..]);
      OneUnitMore(Lone(v[0]), UnitsOf(v[1..]));
      assert v == [v[0]] + v[1..];
    }
  }

  lemma OneUnitMore(u: Unit, us: seq<Unit>)
    requires u.Valid() && AllValid(us)
    ensures Flat([u] + us) == u.Changes() + Flat(us) && AllValid([u] + us)
  {
    assert ([u] + us)[1..] == us;
  }

  /** No lone STATE stands right before a change that would close it. */
  ghost predicate CutsApart(us: seq<Unit>) {
    forall i :: 0 <= i < |us| - 1 ==> CutsAfter(us, i)
  }

  ghost predicate CutsAfter(us: seq<Unit>, i: nat)
    requires i + 1 < |us|
  {
    us[i].Lone? && us[i].first.kind.State? ==> !ClosesState(us[i + 1].first)
  }

  /** Units that cut apart are found again in the vector they make up. */
  lemma {:induction false} FlatIsCutBack(us: seq<Unit>)
    requires AllValid(us) && CutsApart(us)
    ensures UnitsOf(Flat(us)) == us
  {
    if us != [] {
      var rest, v := us[1..], Flat(us);
      forall i | 0 <= i < |rest| - 1
        ensures CutsAfter(rest, i)
      {
        assert CutsAfter(us, i + 1);
      }
      FlatIsCutBack(rest);
      assert us[0] in us;
      match us[0] {
        case Pair(c, d) =>
          assert v[2..] == Flat(rest);
        case Lone(c) =>
          assert v[1..] == Flat(rest);
          if rest != [] {
            assert v[1] == rest[0].first;
            assert CutsAfter(us, 0);
          }
      }
    }
  }

  /** Units hold the same changes whatever their order. */
  lemma {:induction false} FlatKeepsEveryChange(us: seq<Unit>, vs: seq<Unit>)
    requires multiset(us) == multiset(vs)
    ensures multiset(Flat(us)) == multiset(Flat(vs))
  {
    if us == [] {
      NothingHeld(vs);
    } else {
      assert us[0] in multiset(us);
      var without := TakeOut(vs, us[0]);
      TailHolds(us);
      FlatKeepsEveryChange(us[1..], without);
    }
  }

  lemma NothingHeld(vs: seq<Unit>)
    requires multiset(vs) == multiset{}
    ensures vs == []
  {
    assert |multiset(vs)| == |vs|;
  }

  lemma TailHolds(us: seq<Unit>)
    requires us != []
    ensures multiset(us) == multiset{us[0]} + multiset(us[1..])
    ensures multiset(us[1..]) == multiset(us) - multiset{us[0]}
  {
    assert us == [us[0]] + us[1..];
  }

  /** Takes one occurrence of u out of a list. */
  lemma TakeOut(vs: seq<Unit>, u: Unit) returns (without: seq<Unit>)
    requires u in multiset(vs)
    ensures multiset(without) == multiset(vs) - multiset{u}
    ensures multiset(Flat(vs)) == multiset(u.Changes()) + multiset(Flat(without))
  {
    assert u in vs;
    var k :| 0 <= k < |vs| && vs[k] == u;
    var head, tail := vs[..k], vs[k..];
    assert vs == head + tail;
    without := head + tail[1..];
    UnitsLeft(head, tail);
    ChangesLeft(head, tail);
  }

  lemma UnitsLeft(head: seq<Unit>, tail: seq<Unit>)
    requires tail != []
    ensures multiset(head + tail[1..]) == multiset(head + tail) - multiset{tail[0]}
  {
    TailHolds(tail);
  }

  lemma ChangesLeft(head: seq<Unit>, tail: seq<Unit>)
    requires tail != []
    ensures multiset(Flat(head + tail)) == multiset(tail[0].Changes()) + multiset(Flat(head + tail[1..]))
  {
    FlatConcat(head, tail);
    FlatConcat(head, tail[1..]);
  }

  lemma {:induction false} FlatConcat(us: seq<Unit>, vs: seq<Unit>)
    ensures Flat(us + vs) == Flat(us) + Flat(vs)
  {
    if us == [] {
      assert us + vs == vs;
    } else {
      FlatConcat(us[1..], vs);
      assert (us + vs)[1..] == us[1..] + vs;
      Associates(us[0].Changes(), Flat(us[1..]), Flat(vs));
    }
  }

  lemma Associates<T>(a: seq<T>, b: seq<T>, c: seq<T>)
    ensures (a + b) + c == a + (b + c)
  {
  }

  // --- bytes in order --------------------------------------------------------

  /** bytes.Compare: a stands before b, or they are equal. */
  predicate AtMost(a: Bytes, b: Bytes) {
    a == [] || (b != [] && (a[0] < b[0] || (a[0] == b[0] && AtMost(a[1..], b[1..]))))
  }

  lemma {:induction false} OrderIsTotal(a: Bytes, b: Bytes)
    ensures AtMost(a, b) || AtMost(b, a)
    ensures AtMost(a, b) && AtMost(b, a) ==> a == b
  {
    if a != [] && b != [] {
      OrderIsTotal(a[1..], b[1..]);
      assert a == [a[0]] + a[1..] && b == [b[0]] + b[1..];
    }
  }

  lemma {:induction false} OrderIsTransitive(a: Bytes, b: Bytes, c: Bytes)
    requires AtMost(a, b) && AtMost(b, c)
    ensures AtMost(a, c)
  {
    if a != [] {
      if a[0] == b[0] && b[0] == c[0] {
        OrderIsTransitive(a[1..], b[1..], c[1..]);
      }
    }
  }

  /** Two byte strings are ordered by the first byte in which they differ. */
  lemma {:induction false} FirstDifferenceDecides(a: Bytes, b: Bytes, i: nat)
    requires i < |a| && i < |b| && a[..i] == b[..i] && a[i] < b[i]
    ensures !AtMost(b, a)
  {
    if i > 0 {
      assert a[0] == a[..i][0] == b[..i][0] == b[0];
      assert a[1..][..i - 1] == a[..i][1..] && b[1..][..i - 1] == b[..i][1..];
      FirstDifferenceDecides(a[1..], b[1..], i - 1);
    }
  }

  ghost predicate SortedBy(us: seq<Unit>, m: Marshal) {
    forall i, j :: 0 <= i < j < |us| ==> AtMost(m(us[i]), m(us[j]))
  }

  /** A sorted list is determined by what it holds. */
  lemma {:induction false} SortedListsAgree(us: seq<Unit>, vs: seq<Unit>, m: Marshal)
    requires IsXdr(m) && SortedBy(us, m) && SortedBy(vs, m) && multiset(us) == multiset(vs) && AllValid(us)
    ensures us == vs
  {
    if us == [] {
      NothingHeld(vs);
    } else {
      HeadsAgree(us, vs, m);
      TailsAgree(us, vs);
      SortedListsAgree(us[1..], vs[1..], m);
      assert us == [us[0]] + us[1..] && vs == [vs[0]] + vs[1..];
    }
  }

  lemma TailsAgree(us: seq<Unit>, vs: seq<Unit>)
    requires us != [] && vs != [] && multiset(us) == multiset(vs) && us[0] == vs[0]
    ensures multiset(us[1..]) == multiset(vs[1..])
  {
    TailHolds(us);
    TailHolds(vs);
  }

  lemma HeadsAgree(us: seq<Unit>, vs: seq<Unit>, m: Marshal)
    requires IsXdr(m) && SortedBy(us, m) && SortedBy(vs, m) && multiset(us) == multiset(vs)
    requires AllValid(us) && us != []
    ensures vs != [] && us[0] == vs[0]
  {
    assert |multiset(us)| == |us| && |multiset(vs)| == |vs|;
    assert us[0] in multiset(us) && vs[0] in multiset(vs);
    assert us[0] in vs && vs[0] in us;
    var i :| 0 <= i < |us| && us[i] == vs[0];
    var j :| 0 <= j < |vs| && vs[j] == us[0];
    OrderIsTotal(m(us[0]), m(vs[0]));
  }

  /** Sorting by encoding never puts a closing change right behind a lone STATE: lone changes
      sort before pairs, and among lone ones UPDATED and REMOVED before STATE. */
  lemma SortedUnitsCutApart(us: seq<Unit>, m: Marshal)
    requires IsXdr(m) && SortedBy(us, m) && AllValid(us)
    ensures CutsApart(us)
  {
    forall i | 0 <= i < |us| - 1
      ensures CutsAfter(us, i)
    {
      var a, b := us[i], us[i + 1];
      assert a in us && b in us && a.Valid() && b.Valid();
      if a.Lone? && a.first.kind.State? && ClosesState(b.first) {
        assert m(a)[..8] == [0, 0, 0, 1, 0, 0, 0, 3];
        assert m(b)[..8] == [0, 0, 0, 1, 0, 0, 0, Discriminant(b.first.kind)];
        assert m(a)[..7] == m(a)[..8][..7] == m(b)[..8][..7] == m(b)[..7];
        assert m(a)[7] == m(a)[..8][7] && m(b)[7] == m(b)[..8][7];
        FirstDifferenceDecides(m(b), m(a), 7);
      }
    }
  }

  // --- canonicalizeChanges ----------------------------------------------------

  /** The result lists exactly the units of the vector, in encoding order. */
  ghost predicate IsCanonical(v: Vector, m: Marshal, out: Vector) {
    && multiset(UnitsOf(out)) == multiset(UnitsOf(v))
    && SortedBy(UnitsOf(out), m)
  }

  method CanonicalizeChanges(changes: Vector, m: Marshal) returns (out: Vector)
    requires IsXdr(m)
    ensures IsCanonical(changes, m, out)
  {
    if |changes| < 2 {
      return changes;
    }
    var cut := CutUnits(changes);
    UnitsMakeUpTheVector(changes);
    var units := new Unit[|cut|](k requires 0 <= k < |cut| => cut[k]);
    assert units[..] == cut;
    SortUnits(units, m);
    SortedUnitsAreCanonical(changes, m, units[..]);
    out := Emit(units);
  }

  method Emit(units: array<Unit>) returns (out: Vector)
    ensures out == Flat(units[..])
  {
    out := [];
    for k := 0 to units.Length
      invariant out == Flat(units[..k])
    {
      assert units[..k + 1] == units[..k] + [units[k]];
      FlatConcat(units[..k], [units[k]]);
      out := out + units[k].Changes();
    }
    assert units[..units.Length] == units[..];
  }

  method CutUnits(changes: Vector) returns (cut: seq<Unit>)
    ensures cut == UnitsOf(changes)
  {
    cut := [];
    var i := 0;
    while i < |changes|
      invariant i <= |changes|
      invariant UnitsOf(changes) == cut + UnitsOf(changes[i..])
    {
      ghost var before, rest := cut, changes[i..];
      if changes[i].kind.State? && i + 1 < |changes| && ClosesState(changes[i + 1]) {
        assert rest[2..] == changes[i + 2..];
        Associates(cut, [Pair(changes[i], changes[i + 1])], UnitsOf(rest[2..]));
        cut, i := cut + [Pair(changes[i], changes[i + 1])], i + 2;
      } else {
        assert rest[1..] == changes[i + 1..];
        Associates(cut, [Lone(changes[i])], UnitsOf(rest[1..]));
        cut, i := cut + [Lone(changes[i])], i + 1;
      }
    }
  }

  lemma SortedUnitsAreCanonical(v: Vector, m: Marshal, us: seq<Unit>)
    requires IsXdr(m) && SortedBy(us, m) && multiset(us) == multiset(UnitsOf(v))
    ensures IsCanonical(v, m, Flat(us))
  {
    UnitsMakeUpTheVector(v);
    forall u | u in us
      ensures u.Valid()
    {
      assert u in multiset(us);
      assert u in UnitsOf(v);
    }
    SortedUnitsCutApart(us, m);
    FlatIsCutBack(us);
  }

  /** sort.Slice by encoding: a permutation in byte order. */
  method SortUnits(a: array<Unit>, m: Marshal)
    modifies a
    ensures SortedBy(a[..], m)
    ensures multiset(a[..]) == multiset(old(a[..]))
  {
    for n := 0 to a.Length
      invariant SortedBy(a[..n], m)
      invariant multiset(a[..]) == multiset(old(a[..]))
    {
      Sink(a, n, m);
    }
    assert a[..a.Length] == a[..];
  }

  /** Moves the element at n down to its place among the n sorted ones before it. */
  method Sink(a: array<Unit>, n: nat, m: Marshal)
    requires n < a.Length && SortedBy(a[..n], m)
    modifies a
    ensures SortedBy(a[..n + 1], m)
    ensures multiset(a[..]) == multiset(old(a[..]))
  {
    var k := n;
    while k > 0 && !AtMost(m(a[k - 1]), m(a[k]))
      invariant k <= n
      invariant forall i, j :: 0 <= i < j <= n && j != k ==> AtMost(m(a[i]), m(a[j]))
      invariant multiset(a[..]) == multiset(old(a[..]))
    {
      OrderIsTotal(m(a[k - 1]), m(a[k]));
      SwapWithBefore(a, k);
      k := k - 1;
    }
    forall i | 0 <= i < k
      ensures AtMost(m(a[i]), m(a[k]))
    {
      if i < k - 1 {
        OrderIsTransitive(m(a[i]), m(a[k - 1]), m(a[k]));
      }
    }
  }

  method SwapWithBefore(a: array<Unit>, k: nat)
    requires 0 < k < a.Length
    modifies a
    ensures a[k - 1] == old(a[k]) && a[k] == old(a[k - 1])
    ensures forall i :: 0 <= i < a.Length && i != k - 1 && i != k ==> a[i] == old(a[i])
    ensures multiset(a[..]) == multiset(old(a[..]))
  {
    a[k - 1], a[k] := a[k], a[k - 1];
  }

  // --- what stays together ----------------------------------------------------

  /** A STATE right before its UPDATED or REMOVED is one unit with it. */
  lemma {:induction false} StateAndItsChangeAreAUnit(v: Vector, i: nat)
    requires i + 1 < |v| && v[i].kind.State? && (v[i + 1].kind.Updated? || v[i + 1].kind.Removed?)
    ensures Pair(v[i], v[i + 1]) in UnitsOf(v)
    decreases |v|
  {
    if i > 0 {
      var n := if v[0].kind.State? && ClosesState(v[1]) then 2 else 1;
      StateAndItsChangeAreAUnit(v[n..], i - n);
    }
  }

  lemma {:induction false} PairStandsInFlat(us: seq<Unit>, c: LedgerEntryChange, d: LedgerEntryChange) returns (j: nat)
    requires Pair(c, d) in us
    ensures j + 1 < |Flat(us)| && Flat(us)[j] == c && Flat(us)[j + 1] == d
  {
    if us[0] == Pair(c, d) {
      j := 0;
    } else {
      j := PairStandsInFlat(us[1..], c, d);
      j := j + |us[0].Changes()|;
    }
  }

  /** However the units are reordered, a STATE still stands right before the UPDATED or REMOVED it
      belonged to. */
  lemma CanonicalKeepsStatesWithTheirChanges(v: Vector, m: Marshal, out: Vector, i: nat) returns (j: nat)
    requires IsCanonical(v, m, out)
    requires i + 1 < |v| && v[i].kind.State? && (v[i + 1].kind.Updated? || v[i + 1].kind.Removed?)
    ensures j + 1 < |out| && out[j] == v[i] && out[j + 1] == v[i + 1]
  {
    StateAndItsChangeAreAUnit(v, i);
    assert Pair(v[i], v[i + 1]) in multiset(UnitsOf(v));
    assert Pair(v[i], v[i + 1]) in UnitsOf(out);
    UnitsMakeUpTheVector(out);
    j := PairStandsInFlat(UnitsOf(out), v[i], v[i + 1]);
  }

  // --- what the gate can conclude ---------------------------------------------

  /** The canonical form is a permutation of the vector. */
  lemma CanonicalIsAPermutation(v: Vector, m: Marshal, out: Vector)
    requires IsCanonical(v, m, out)
    ensures multiset(out) == multiset(v)
  {
    UnitsMakeUpTheVector(v);
    UnitsMakeUpTheVector(out);
    FlatKeepsEveryChange(UnitsOf(out), UnitsOf(v));
  }

  /** Every vector has exactly one canonical form. */
  lemma CanonicalIsUnique(v: Vector, w: Vector, m: Marshal, a: Vector, b: Vector)
    requires IsXdr(m) && IsCanonical(v, m, a) && IsCanonical(w, m, b)
    requires multiset(UnitsOf(v)) == multiset(UnitsOf(w))
    ensures a == b
  {
    UnitsMakeUpTheVector(a);
    UnitsMakeUpTheVector(b);
    SortedListsAgree(UnitsOf(a), UnitsOf(b), m);
  }

  /** Two vectors compare equal after canonicalizing exactly when they hold the same units,
      whatever the vectors. */
  lemma EqualIffSameUnits(v: Vector, w: Vector, m: Marshal, a: Vector, b: Vector)
    requires IsXdr(m) && IsCanonical(v, m, a) && IsCanonical(w, m, b)
    ensures a == b <==> multiset(UnitsOf(v)) == multiset(UnitsOf(w))
  {
    if multiset(UnitsOf(v)) == multiset(UnitsOf(w)) {
      CanonicalIsUnique(v, w, m, a, b);
    }
  }

  /** Canonicalizing a canonical vector leaves it as it is. */
  lemma CanonicalizingTwiceIsOnce(v: Vector, m: Marshal, once: Vector, twice: Vector)
    requires IsXdr(m) && IsCanonical(v, m, once) && IsCanonical(once, m, twice)
    ensures twice == once
  {
    CanonicalIsUnique(v, once, m, once, twice);
  }
}
