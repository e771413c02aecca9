/** Inclusive integer ranges and the sort-then-sweep merge that day 2 and day 5 share:
    after sorting by start, a range that starts at most one past the current range's
    end extends it, and any other range closes it. */
module Intervals {
  import opened Sorting

  /** An inclusive range `lo..=hi`. */
  datatype Range = Range(lo: nat, hi: nat)

  predicate InRange(r: Range, x: int) { r.lo <= x <= r.hi }

  /** Some range of `rs` contains `x`. */
  predicate Covered(rs: seq<Range>, x: int)
  {
    exists r :: r in rs && InRange(r, x)
  }

  predicate AllValid(rs: seq<Range>)
  {
    forall k :: 0 <= k < |rs| ==> rs[k].lo <= rs[k].hi
  }

  /** Each range starts more than one past the end of the one before it, so ranges
      are sorted, pairwise disjoint and never adjacent. */
  predicate Separated(rs: seq<Range>)
  {
    forall k :: 0 < k < |rs| ==> rs[k - 1].hi + 1 < rs[k].lo
  }

  /** The merged form: valid, separated ranges. */
  predicate Normalized(rs: seq<Range>)
  {
    AllValid(rs) && Separated(rs)
  }

  function Lo(r: Range): int { r.lo }

  lemma SeparatedOrdered(rs: seq<Range>, i: nat, j: nat)
    requires Normalized(rs) && i < j < |rs|
    ensures rs[i].hi + 1 < rs[j].lo
    decreases j - i
  {
    if i + 1 < j {
      SeparatedOrdered(rs, i, j - 1);
    }
  }

  /** Sorting by start does not change what is covered. */
  lemma CoveredPermutation(a: seq<Range>, b: seq<Range>)
    requires multiset(a) == multiset(b)
    ensures forall x :: Covered(a, x) <==> Covered(b, x)
  {
    forall x ensures Covered(a, x) <==> Covered(b, x) {
      if Covered(a, x) {
        var r :| r in a && InRange(r, x);
        assert r in multiset(b);
      }
      if Covered(b, x) {
        var r :| r in b && InRange(r, x);
        assert r in multiset(a);
      }
    }
  }

  /** `merge_ranges`: the normalized ranges that cover exactly what the input covers.
      Zero or one range is returned as it is. */
  method MergeRanges(ranges: seq<Range>) returns (merged: seq<Range>)
    requires AllValid(ranges)
    ensures |ranges| <= 1 ==> merged == ranges
    ensures Normalized(merged)
    ensures |merged| <= |ranges|
    ensures forall x :: Covered(merged, x) <==> Covered(ranges, x)
  {
    if |ranges| <= 1 {
      return ranges;
    }
    var sorted := SortBy(ranges, Lo);
    CoveredPermutation(sorted, ranges);
    assert AllValid(sorted) by {
      forall k | 0 <= k < |sorted| ensures sorted[k].lo <= sorted[k].hi {
        assert sorted[k] in multiset(ranges);
      }
    }
    merged := Sweep(sorted);
  }

  /** The sweep over ranges already sorted by start. */
  method Sweep(sorted: seq<Range>) returns (merged: seq<Range>)
    requires |sorted| >= 1 && AllValid(sorted) && SortedBy(sorted, Lo)
    ensures Normalized(merged)
    ensures |merged| <= |sorted|
    ensures forall x :: Covered(merged, x) <==> Covered(sorted, x)
  {
    merged := [];
    var current := sorted[0];
    var i := 1;
    assert sorted[..1] == [current];
    while i < |sorted|
      invariant 1 <= i <= |sorted|
      invariant Normalized(merged + [current])
      invariant |merged| < i
      invariant forall k :: i <= k < |sorted| ==> current.lo <= sorted[k].lo
      invariant forall x :: Covered(merged + [current], x) <==> Covered(sorted[..i], x)
    {
      var next := sorted[i];
      assert sorted[..i + 1] == sorted[..i] + [next];
      CoveredSnoc(sorted[..i], next);
      LaterStarts(sorted, i);
      if next.lo <= current.hi + 1 {
        var grown := if next.hi > current.hi then Range(current.lo, next.hi) else current;
        ExtendLast(merged, current, next, grown);
        current := grown;
      } else {
        CloseLast(merged, current, next);
        merged := merged + [current];
        current := next;
      }
      i := i + 1;
    }
    assert sorted[..i] == sorted;
    merged := merged + [current];
  }

  lemma LaterStarts(sorted: seq<Range>, i: nat)
    requires i < |sorted| && SortedBy(sorted, Lo)
    ensures forall k :: i < k < |sorted| ==> sorted[i].lo <= sorted[k].lo
  {
    forall k | i < k < |sorted| ensures sorted[i].lo <= sorted[k].lo {
      assert Lo(sorted[i]) <= Lo(sorted[k]);
    }
  }

  /** The sweep's "extend" step: a range that overlaps or touches the current one and
      starts no earlier widens it without changing what the whole covers. */
  lemma ExtendLast(merged: seq<Range>, current: Range, next: Range, grown: Range)
    requires Normalized(merged + [current])
    requires current.lo <= next.lo <= current.hi + 1 && next.lo <= next.hi
    requires grown == if next.hi > current.hi then Range(current.lo, next.hi) else current
    ensures Normalized(merged + [grown])
    ensures forall x :: Covered(merged + [grown], x) <==> Covered(merged + [current], x) || InRange(next, x)
  {
    var before, after := merged + [current], merged + [grown];
    assert forall k :: 0 <= k < |merged| ==> before[k] == merged[k] == after[k];
    assert AllValid(after) by {
      forall k | 0 <= k < |after| ensures after[k].lo <= after[k].hi {
        if k < |merged| {
          assert before[k] == after[k];
        }
      }
    }
    assert Separated(after) by {
      forall k | 0 < k < |after| ensures after[k - 1].hi + 1 < after[k].lo {
        assert before[k - 1] == after[k - 1];
        if k < |merged| {
          assert before[k] == after[k];
        } else {
          assert before[k] == current && after[k] == grown;
        }
      }
    }
    forall x ensures Covered(after, x) <==> Covered(before, x) || InRange(next, x) {
      if Covered(after, x) {
        var r :| r in after && InRange(r, x);
        if r == grown && !InRange(current, x) {
          assert InRange(next, x);
        } else if r != grown {
          assert r in before;
        }
      }
      if Covered(before, x) {
        var r :| r in before && InRange(r, x);
        if r == current {
          assert InRange(grown, x) && grown in after;
        } else {
          assert r in after;
        }
      }
      if InRange(next, x) {
        assert InRange(grown, x) && grown in after;
      }
    }
  }

  /** The sweep's "close" step: a range that starts past the current one's end plus one
      begins a new current range. */
  lemma CloseLast(merged: seq<Range>, current: Range, next: Range)
    requires Normalized(merged + [current])
    requires current.hi + 1 < next.lo && next.lo <= next.hi
    ensures Normalized(merged + [current] + [next])
    ensures forall x :: Covered(merged + [current] + [next], x) <==> Covered(merged + [current], x) || InRange(next, x)
  {
    var before, after := merged + [current], merged + [current] + [next];
    assert forall k :: 0 <= k < |before| ==> before[k] == after[k];
    forall x ensures Covered(after, x) <==> Covered(before, x) || InRange(next, x) {
      if Covered(after, x) {
        var r :| r in after && InRange(r, x);
        if r != next {
          assert r in before;
        }
      }
      if Covered(before, x) {
        var r :| r in before && InRange(r, x);
        assert r in after;
      }
      if InRange(next, x) {
        assert next in after;
      }
    }
  }

  /** Covering `rs + [r]` is covering `rs` or lying in `r`. */
  lemma CoveredSnoc(rs: seq<Range>, r: Range)
    ensures forall x :: Covered(rs + [r], x) <==> Covered(rs, x) || InRange(r, x)
  {
    forall x ensures Covered(rs + [r], x) <==> Covered(rs, x) || InRange(r, x) {
      if Covered(rs + [r], x) {
        var q :| q in rs + [r] && InRange(q, x);
        if q != r { assert q in rs; }
      }
      if Covered(rs, x) {
        var q :| q in rs && InRange(q, x);
        assert q in rs + [r];
      }
      if InRange(r, x) {
        assert r in rs + [r];
      }
    }
  }

  // ---------------------------------------------------------------------------
  // Sizes: the total width of the ranges and the size of their union
  // ---------------------------------------------------------------------------

  /** The widths `hi - lo + 1` of the ranges, added up. */
  function Width(rs: seq<Range>): nat
    requires AllValid(rs)
  {
    if rs == [] then 0 else Width(rs[..|rs| - 1]) + (rs[|rs| - 1].hi - rs[|rs| - 1].lo + 1)
  }

  /** How many integers in `[0, n)` some range of `rs` covers: the size of the union
      of the ranges below `n`. */
  ghost function CoverCount(rs: seq<Range>, n: nat): nat
  {
    if n == 0 then 0 else CoverCount(rs, n - 1) + (if Covered(rs, n - 1) then 1 else 0)
  }

  /** One more than the largest end, so that every covered integer lies below it. */
  function Bound(rs: seq<Range>): (b: nat)
    ensures forall k :: 0 <= k < |rs| ==> rs[k].hi < b
  {
    if rs == [] then 0
    else
      var b := Bound(rs[..|rs| - 1]);
      var e := rs[|rs| - 1].hi + 1;
      if e > b then e else b
  }

  /** The size of the union of the ranges. */
  ghost function UnionSize(rs: seq<Range>): nat
  {
    CoverCount(rs, Bound(rs))
  }

  /** Counting only looks at which integers are covered. */
  lemma {:induction false} CoverCountSame(a: seq<Range>, b: seq<Range>, n: nat)
    requires forall x :: 0 <= x < n ==> (Covered(a, x) <==> Covered(b, x))
    ensures CoverCount(a, n) == CoverCount(b, n)
  {
    if n > 0 {
      CoverCountSame(a, b, n - 1);
    }
  }

  /** Past the last covered integer the count stays put. */
  lemma {:induction false} CoverCountGap(rs: seq<Range>, m: nat, n: nat)
    requires m <= n
    requires forall x :: m <= x < n ==> !Covered(rs, x)
    ensures CoverCount(rs, n) == CoverCount(rs, m)
    decreases n - m
  {
    if m < n {
      CoverCountGap(rs, m, n - 1);
    }
  }

  /** Across a run of covered integers the count climbs by one per integer. */
  lemma {:induction false} CoverCountRun(rs: seq<Range>, m: nat, n: nat)
    requires m <= n
    requires forall x :: m <= x < n ==> Covered(rs, x)
    ensures CoverCount(rs, n) == CoverCount(rs, m) + (n - m)
    decreases n - m
  {
    if m < n {
      CoverCountRun(rs, m, n - 1);
    }
  }

  /** Every covered integer lies below the bound. */
  lemma {:induction false} CoveredBelowBound(rs: seq<Range>, x: int)
    requires Covered(rs, x)
    ensures x < Bound(rs)
  {
    var r :| r in rs && InRange(r, x);
    var k :| 0 <= k < |rs| && rs[k] == r;
  }

  /** Nothing past the end of the last of normalized ranges is covered. */
  lemma AboveLast(rs: seq<Range>, x: int)
    requires Normalized(rs) && rs != [] && rs[|rs| - 1].hi < x
    ensures !Covered(rs, x)
  {
    if Covered(rs, x) {
      var r :| r in rs && InRange(r, x);
      var k :| 0 <= k < |rs| && rs[k] == r;
      if k < |rs| - 1 {
        SeparatedOrdered(rs, k, |rs| - 1);
      }
    }
  }

  /** Below the start of the last range only the ranges before it cover anything. */
  lemma {:induction false} BelowLast(rs: seq<Range>, n: nat)
    requires Normalized(rs) && rs != [] && n <= rs[|rs| - 1].lo
    ensures Normalized(rs[..|rs| - 1])
    ensures forall k :: 0 <= k < |rs| - 1 ==> rs[k].hi < rs[|rs| - 1].lo
    ensures CoverCount(rs, n) == CoverCount(rs[..|rs| - 1], n)
  {
    var front, last := rs[..|rs| - 1], rs[|rs| - 1];
    assert rs == front + [last];
    assert forall k :: 0 <= k < |front| ==> front[k] == rs[k];
    forall k | 0 <= k < |front| ensures front[k].hi < last.lo {
      SeparatedOrdered(rs, k, |rs| - 1);
    }
    CoveredSnoc(front, last);
    CoverCountSame(rs, front, n);
  }

  /** For normalized ranges the widths add up to the size of the union: no integer is
      counted twice. */
  lemma {:induction false} WidthIsCoverCount(rs: seq<Range>, n: nat)
    requires Normalized(rs)
    requires forall k :: 0 <= k < |rs| ==> rs[k].hi < n
    ensures Width(rs) == CoverCount(rs, n)
    decreases |rs|
  {
    if rs == [] {
      CoverCountGap(rs, 0, n);
    } else {
      var last := rs[|rs| - 1];
      forall x | last.hi + 1 <= x < n ensures !Covered(rs, x) {
        AboveLast(rs, x);
      }
      CoverCountGap(rs, last.hi + 1, n);
      forall x | last.lo <= x < last.hi + 1 ensures Covered(rs, x) {
        assert InRange(last, x) && last in rs;
      }
      CoverCountRun(rs, last.lo, last.hi + 1);
      BelowLast(rs, last.lo);
      WidthIsCoverCount(rs[..|rs| - 1], last.lo);
    }
  }

  /** The union size of the merged ranges is that of the input ranges. */
  lemma {:induction false} MergedUnionSize(ranges: seq<Range>, merged: seq<Range>)
    requires Normalized(merged)
    requires forall x :: Covered(merged, x) <==> Covered(ranges, x)
    ensures Width(merged) == UnionSize(ranges)
  {
    forall k | 0 <= k < |merged| ensures merged[k].hi < Bound(ranges) {
      assert InRange(merged[k], merged[k].hi) && merged[k] in merged;
      CoveredBelowBound(ranges, merged[k].hi);
    }
    WidthIsCoverCount(merged, Bound(ranges));
    CoverCountSame(merged, ranges, Bound(ranges));
  }
}
