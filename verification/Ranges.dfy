// Ledger ranges as maximal runs: the common language of RecordGap's holes and
// PlanHeal's pieces.
module Ranges {
  import opened Basics

  /** r is a maximal stretch of [lo .. hi] that lies inside p. */
  ghost predicate IsRun(p: iset<int>, lo: int, hi: int, r: Interval) {
    && lo <= r.from <= r.to <= hi
    && (forall l :: r.Has(l) ==> l in p)
    && (r.from == lo || r.from - 1 !in p)
    && (r.to == hi || r.to + 1 !in p)
  }

  /** Ascending ranges inside [lo .. hi] with at least one ledger between neighbours. */
  ghost predicate Separated(s: seq<Interval>, lo: int, hi: int) {
    && (forall i :: 0 <= i < |s| ==> lo <= s[i].from <= s[i].to <= hi)
    && (forall i, j :: 0 <= i < j < |s| ==> s[i].to + 1 < s[j].from)
  }

  ghost predicate Within(s: seq<Interval>, l: int) {
    exists i :: 0 <= i < |s| && s[i].Has(l)
  }

  /** Two overlapping runs are the same run. */
  lemma RunsOverlapOnlyWhenEqual(p: iset<int>, lo: int, hi: int, r: Interval, q: Interval, l: int)
    requires IsRun(p, lo, hi, r) && IsRun(p, lo, hi, q)
    requires r.Has(l) && q.Has(l)
    ensures r == q
  {
  }

  /** Every ledger of p in [lo .. hi] has its run. */
  lemma RunThrough(p: iset<int>, lo: uint32, hi: uint32, l: int) returns (r: Interval)
    requires lo <= l <= hi && l in p
    ensures IsRun(p, lo, hi, r) && r.Has(l)
  {
    var a, b := l, l;
    while a > lo && a - 1 in p
      invariant lo <= a <= l
      invariant forall x :: a <= x <= l ==> x in p
      decreases a
    {
      a := a - 1;
    }
    while b < hi && b + 1 in p
      invariant l <= b <= hi
      invariant forall x :: a <= x <= b ==> x in p
      decreases hi - b
    {
      b := b + 1;
    }
    r := Interval(a, b);
  }

  /** A separated list holding exactly the ledgers of p lists exactly the maximal runs of p. */
  lemma SeparatedListsRuns(s: seq<Interval>, p: iset<int>, lo: uint32, hi: uint32)
    requires Separated(s, lo, hi)
    requires forall l :: lo <= l <= hi ==> (Within(s, l) <==> l in p)
    ensures forall r :: r in s <==> IsRun(p, lo, hi, r)
  {
    forall r | r in s
      ensures IsRun(p, lo, hi, r)
    {
      var i :| 0 <= i < |s| && s[i] == r;
      forall l | r.Has(l)
        ensures l in p
      {
        assert Within(s, l);
      }
      assert !Within(s, r.from - 1) && !Within(s, r.to + 1) by {
        forall j | 0 <= j < |s|
          ensures !s[j].Has(r.from - 1) && !s[j].Has(r.to + 1)
        {
          assert j < i || j == i || i < j;
        }
      }
    }
    forall r | IsRun(p, lo, hi, r)
      ensures r in s
    {
      assert r.Has(r.from);
      assert Within(s, r.from);
      var j :| 0 <= j < |s| && s[j].Has(r.from);
      assert s[j] in s;
      RunsOverlapOnlyWhenEqual(p, lo, hi, r, s[j], r.from);
    }
  }
}
