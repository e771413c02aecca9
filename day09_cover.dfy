/** Day 9, part 2: the loop through the red tiles is rasterised on a compressed grid.
    The distinct values `x` and `x + 1` of the tiles' X coordinates cut the plane into
    columns, those of the Y coordinates into rows; a scanline per row collects the
    loop's vertical edges it crosses and its horizontal edges, pairs the crossings
    into spans, merges the spans, and marks the compressed cells they cover as green.
    A 2-D prefix sum over the green cells' areas then tells, for any pair of red tiles,
    whether every tile of their rectangle is green. */
module Day09Cover {
  import opened Common
  import opened Sorting
  import opened Day08
  import opened Day09

  datatype Day09Error =
    | BadInput(cause: ParseError)
    | NeedTwo           // "need at least two red tiles"
    | NeedThree         // "need at least three red tiles to form a loop"
    | OddCrossings      // "scanline intersections not even; loop malformed"

  // ===========================================================================
  // `lower_bound` and the compressed axes
  // ===========================================================================

  /** `lower_bound` (`partition_point(|v| v < t)`): the first index whose value is not
      below `t`. */
  function LowerBound(v: seq<int>, t: int): (r: nat)
    ensures r <= |v|
    ensures forall k :: 0 <= k < r ==> v[k] < t
    ensures r < |v| ==> v[r] >= t
  {
    FirstNotBelow(v, t, 0)
  }

  /** The first index from `i` on whose value is not below `t`. */
  function FirstNotBelow(v: seq<int>, t: int, i: nat): (r: nat)
    requires i <= |v|
    ensures i <= r <= |v|
    ensures forall k :: i <= k < r ==> v[k] < t
    ensures r < |v| ==> v[r] >= t
    decreases |v| - i
  {
    if i == |v| || v[i] >= t then i else FirstNotBelow(v, t, i + 1)
  }

  /** How many values of `v` lie below `t`. */
  function CountBelow(v: seq<int>, t: int): nat
  {
    if v == [] then 0 else CountBelow(v[..|v| - 1], t) + (if v[|v| - 1] < t then 1 else 0)
  }

  /** On a sorted sequence every value from `lower_bound` on is at least `t`, so the
      index is the number of values below `t`. */
  lemma {:induction false} LowerBoundSorted(v: seq<int>, t: int)
    requires SortedBy(v, Identity)
    ensures forall k :: LowerBound(v, t) <= k < |v| ==> v[k] >= t
    ensures LowerBound(v, t) == CountBelow(v, t)
    decreases |v|
  {
    var r := LowerBound(v, t);
    forall k | r <= k < |v| ensures v[k] >= t {
      assert Identity(v[r]) <= Identity(v[k]);
    }
    if v != [] {
      var front := v[..|v| - 1];
      assert SortedBy(front, Identity) by {
        forall i, j | 0 <= i < j < |front| ensures Identity(front[i]) <= Identity(front[j]) {
          assert front[i] == v[i] && front[j] == v[j];
        }
      }
      LowerBoundSorted(front, t);
      if v[|v| - 1] < t {
        assert r == |v|;
        assert LowerBound(front, t) == |front| by {
          LowerBoundFull(front, t);
        }
      } else {
        LowerBoundFront(v, t);
      }
    }
  }

  lemma LowerBoundFull(v: seq<int>, t: int)
    requires forall k :: 0 <= k < |v| ==> v[k] < t
    ensures LowerBound(v, t) == |v|
  {
  }

  /** When the last value is not below `t`, dropping it leaves `lower_bound` alone. */
  lemma LowerBoundFront(v: seq<int>, t: int)
    requires v != [] && v[|v| - 1] >= t && SortedBy(v, Identity)
    ensures LowerBound(v[..|v| - 1], t) == LowerBound(v, t)
  {
    var front := v[..|v| - 1];
    var r, q := LowerBound(v, t), LowerBound(front, t);
    forall k | 0 <= k < |front| ensures front[k] == v[k] { }
  }

  /** On a strictly increasing sequence, index `k` lies between the lower bounds of `lo`
      and `hi` exactly when its value lies in `[lo, hi)`. */
  lemma LowerBoundBetween(v: seq<int>, lo: int, hi: int, k: nat)
    requires StrictlyIncreasing(v) && k < |v|
    ensures LowerBound(v, lo) <= k < LowerBound(v, hi) <==> lo <= v[k] < hi
  {
    StrictSorted(v);
    LowerBoundSorted(v, lo);
    LowerBoundSorted(v, hi);
  }

  /** The lower bound of a value the sequence holds is its index. */
  lemma LowerBoundHit(v: seq<int>, k: nat)
    requires StrictlyIncreasing(v) && k < |v|
    ensures LowerBound(v, v[k]) == k
  {
    StrictSorted(v);
    LowerBoundSorted(v, v[k]);
  }

  lemma StrictSorted(v: seq<int>)
    requires StrictlyIncreasing(v)
    ensures SortedBy(v, Identity)
  {
  }

  /** The X values `x` and `x + 1` of every tile, in tile order, as the solver pushes
      them. */
  function XValues(ps: seq<Tile>): (v: seq<int>)
    ensures |v| == 2 * |ps|
  {
    if ps == [] then [] else XValues(ps[..|ps| - 1]) + [ps[|ps| - 1].x, ps[|ps| - 1].x + 1]
  }

  function YValues(ps: seq<Tile>): (v: seq<int>)
    ensures |v| == 2 * |ps|
  {
    if ps == [] then [] else YValues(ps[..|ps| - 1]) + [ps[|ps| - 1].y, ps[|ps| - 1].y + 1]
  }

  /** The column boundaries: `sort_unstable` and `dedup` of the X values. */
  function Xs(ps: seq<Tile>): seq<int>
  {
    SortedDistinct(XValues(ps))
  }

  function Ys(ps: seq<Tile>): seq<int>
  {
    SortedDistinct(YValues(ps))
  }

  /** Every tile contributes both of its values. */
  lemma {:induction false} ValuesHold(ps: seq<Tile>, k: nat)
    requires k < |ps|
    ensures ps[k].x in XValues(ps) && ps[k].x + 1 in XValues(ps)
    ensures ps[k].y in YValues(ps) && ps[k].y + 1 in YValues(ps)
    decreases |ps|
  {
    var n := |ps|;
    var xv, yv := XValues(ps), YValues(ps);
    if k < n - 1 {
      ValuesHold(ps[..n - 1], k);
      assert ps[..n - 1][k] == ps[k];
      assert forall v :: v in XValues(ps[..n - 1]) ==> v in xv;
      assert forall v :: v in YValues(ps[..n - 1]) ==> v in yv;
    } else {
      assert xv[2 * n - 2] == ps[k].x && xv[2 * n - 1] == ps[k].x + 1;
      assert yv[2 * n - 2] == ps[k].y && yv[2 * n - 1] == ps[k].y + 1;
    }
  }

  /** A boundary value `v` with `v + 1` also a boundary has its index below the last,
      so it starts a compressed column (or row). */
  lemma InnerBoundary(v: seq<int>, t: int)
    requires StrictlyIncreasing(v) && t in v && t + 1 in v
    ensures LowerBound(v, t) < |v| - 1 && v[LowerBound(v, t)] == t
    ensures LowerBound(v, t + 1) == LowerBound(v, t) + 1
  {
    var i :| 0 <= i < |v| && v[i] == t;
    var j :| 0 <= j < |v| && v[j] == t + 1;
    LowerBoundHit(v, i);
    assert i < j;
    assert v[i + 1] > t;
    StrictSorted(v);
    LowerBoundSorted(v, t + 1);
    var r := LowerBound(v, t + 1);
    assert v[i] < t + 1;
  }

  /** A value `t` pushed with `t + 1` starts a compressed cell of the sorted and
      deduplicated axis. */
  lemma AxisCell(values: seq<int>, t: int)
    requires t in values && t + 1 in values
    ensures var v := SortedDistinct(values);
      StrictlyIncreasing(v) && LowerBound(v, t) < |v| - 1 && v[LowerBound(v, t)] == t
      && LowerBound(v, t + 1) == LowerBound(v, t) + 1
  {
    var v := SortedDistinct(values);
    assert t in v && t + 1 in v;
    InnerBoundary(v, t);
  }

  /** The compressed columns seen from one tile: `x` starts column
      `LowerBound(xs, x)`, which ends at `x + 1`. */
  lemma TileColumn(ps: seq<Tile>, k: nat)
    requires k < |ps|
    ensures StrictlyIncreasing(Xs(ps))
    ensures LowerBound(Xs(ps), ps[k].x) < |Xs(ps)| - 1
    ensures Xs(ps)[LowerBound(Xs(ps), ps[k].x)] == ps[k].x
    ensures LowerBound(Xs(ps), ps[k].x + 1) == LowerBound(Xs(ps), ps[k].x) + 1
  {
    ValuesHold(ps, k);
    AxisCell(XValues(ps), ps[k].x);
  }

  /** Likewise the compressed rows. */
  lemma TileRow(ps: seq<Tile>, k: nat)
    requires k < |ps|
    ensures StrictlyIncreasing(Ys(ps))
    ensures LowerBound(Ys(ps), ps[k].y) < |Ys(ps)| - 1
    ensures Ys(ps)[LowerBound(Ys(ps), ps[k].y)] == ps[k].y
    ensures LowerBound(Ys(ps), ps[k].y + 1) == LowerBound(Ys(ps), ps[k].y) + 1
  {
    ValuesHold(ps, k);
    AxisCell(YValues(ps), ps[k].y);
  }

  /** The first loop of `build_coverage`, then the sort and dedup of each axis. */
  method Axes(ps: seq<Tile>) returns (xs: seq<int>, ys: seq<int>)
    ensures xs == Xs(ps) && ys == Ys(ps)
  {
    var xv: seq<int> := [];
    var yv: seq<int> := [];
    for k := 0 to |ps|
      invariant xv == XValues(ps[..k]) && yv == YValues(ps[..k])
    {
      assert ps[..k + 1][..k] == ps[..k];
      xv := xv + [ps[k].x, ps[k].x + 1];
      yv := yv + [ps[k].y, ps[k].y + 1];
    }
    assert ps[..|ps|] == ps;
    xs := SortedDistinct(xv);
    ys := SortedDistinct(yv);
  }

  // ===========================================================================
  // The scanline lists: crossings of vertical edges and horizontal spans per row
  // ===========================================================================

  /** A closed span of X values `[lo, hi]` on one row. */
  datatype Span = Span(lo: int, hi: int)

  function SpanLo(s: Span): int { s.lo }

  function Min(a: int, b: int): int { if a <= b then a else b }
  function Max(a: int, b: int): int { if a <= b then b else a }

  /** Edge `k` of the loop runs from tile `k` to the next one, wrapping. */
  function EdgeEnd(ps: seq<Tile>, k: nat): Tile
    requires k < |ps|
  {
    ps[(k + 1) % |ps|]
  }

  /** Whether edge `k` is vertical and the scanline of row `r` crosses it: the row
      index lies between the lower bounds of the edge's two Y values. */
  predicate Crosses(ps: seq<Tile>, ys: seq<int>, r: int, k: nat)
    requires k < |ps|
  {
    var a, b := ps[k], EdgeEnd(ps, k);
    a.x == b.x && LowerBound(ys, Min(a.y, b.y)) <= r < LowerBound(ys, Max(a.y, b.y))
  }

  /** Whether edge `k` is horizontal and lies on row `r`. */
  predicate LiesOn(ps: seq<Tile>, ys: seq<int>, r: int, k: nat)
    requires k < |ps|
  {
    var a, b := ps[k], EdgeEnd(ps, k);
    a.x != b.x && LowerBound(ys, a.y) == r
  }

  /** The X values of the first `k` edges that the scanline of row `r` crosses, in
      edge order. */
  function CrossRow(ps: seq<Tile>, ys: seq<int>, r: int, k: nat): seq<int>
    requires k <= |ps|
  {
    if k == 0 then []
    else CrossRow(ps, ys, r, k - 1) + (if Crosses(ps, ys, r, k - 1) then [ps[k - 1].x] else [])
  }

  /** The X extents of the first `k` edges that lie on row `r`, in edge order. */
  function SpanRow(ps: seq<Tile>, ys: seq<int>, r: int, k: nat): seq<Span>
    requires k <= |ps|
  {
    if k == 0 then []
    else
      var a, b := ps[k - 1], EdgeEnd(ps, k - 1);
      SpanRow(ps, ys, r, k - 1) + (if LiesOn(ps, ys, r, k - 1) then [Span(Min(a.x, b.x), Max(a.x, b.x))] else [])
  }

  /** On the compressed rows the index test of `Crosses` is the geometric one: the
      edge is vertical and the row's lower boundary lies in `[ylo, yhi)`. */
  lemma CrossesMeaning(ps: seq<Tile>, r: nat, k: nat)
    requires k < |ps| && r < |Ys(ps)|
    ensures var a, b := ps[k], EdgeEnd(ps, k);
      Crosses(ps, Ys(ps), r, k) <==> a.x == b.x && Min(a.y, b.y) <= Ys(ps)[r] < Max(a.y, b.y)
  {
    var a, b := ps[k], EdgeEnd(ps, k);
    LowerBoundBetween(Ys(ps), Min(a.y, b.y), Max(a.y, b.y), r);
  }

  /** Likewise `LiesOn`: the edge is horizontal and its Y value starts row `r`. */
  lemma LiesOnMeaning(ps: seq<Tile>, r: nat, k: nat)
    requires k < |ps| && r < |Ys(ps)|
    ensures var a, b := ps[k], EdgeEnd(ps, k);
      LiesOn(ps, Ys(ps), r, k) <==> a.x != b.x && Ys(ps)[r] == a.y
  {
    TileRow(ps, k);
    LowerBoundHit(Ys(ps), r);
  }

  /** Both ends of every edge are tiles, so the rows the edge touches exist. */
  lemma EdgeRows(ps: seq<Tile>, k: nat)
    requires k < |ps|
    ensures var a, b, ys := ps[k], EdgeEnd(ps, k), Ys(ps);
      LowerBound(ys, Max(a.y, b.y)) < |ys| - 1 && LowerBound(ys, a.y) < |ys| - 1
  {
    TileRow(ps, k);
    TileRow(ps, (k + 1) % |ps|);
  }

  /** Pushes `x` onto the crossing lists of rows `[start, end)` (none when
      `end <= start`). */
  method AddCrossing(crossings: seq<seq<int>>, x: int, start: nat, end: nat)
    returns (c: seq<seq<int>>)
    requires end <= |crossings|
    ensures |c| == |crossings|
    ensures forall r :: 0 <= r < |c| ==> c[r] == crossings[r] + (if start <= r < end then [x] else [])
  {
    c := crossings;
    var y := start;
    while y < end
      invariant start <= y && (y <= end || y == start)
      invariant |c| == |crossings|
      invariant forall r :: 0 <= r < |c| ==> c[r] == crossings[r] + (if start <= r < y then [x] else [])
    {
      c := c[y := c[y] + [x]];
      y := y + 1;
    }
  }

  /** The lists of every row after edge `k` has been taken in. */
  ghost predicate Scanned(ps: seq<Tile>, ys: seq<int>, k: nat, crossings: seq<seq<int>>, spans: seq<seq<Span>>)
    requires k <= |ps|
  {
    |crossings| == |ys| - 1 && |spans| == |ys| - 1
    && forall r :: 0 <= r < |ys| - 1 ==>
      crossings[r] == CrossRow(ps, ys, r, k) && spans[r] == SpanRow(ps, ys, r, k)
  }

  /** One round of the edge loop. */
  method ScanEdge(ps: seq<Tile>, ys: seq<int>, idx: nat, crossings: seq<seq<int>>, spans: seq<seq<Span>>)
    returns (crossings': seq<seq<int>>, spans': seq<seq<Span>>)
    requires idx < |ps| && Scanned(ps, ys, idx, crossings, spans)
    requires LowerBound(ys, Max(ps[idx].y, EdgeEnd(ps, idx).y)) < |ys| - 1
    requires LowerBound(ys, ps[idx].y) < |ys| - 1
    ensures Scanned(ps, ys, idx + 1, crossings', spans')
  {
    var a, b := ps[idx], ps[(idx + 1) % |ps|];
    crossings', spans' := crossings, spans;
    if a.x == b.x {
      var yStart, yEnd := if a.y < b.y then a.y else b.y, if a.y < b.y then b.y else a.y;
      assert yStart == Min(a.y, b.y) && yEnd == Max(a.y, b.y);
      crossings' := AddCrossing(crossings, a.x, LowerBound(ys, yStart), LowerBound(ys, yEnd));
    } else {
      var row := LowerBound(ys, a.y);
      spans' := spans[row := spans[row] + [Span(Min(a.x, b.x), Max(a.x, b.x))]];
    }
    forall r | 0 <= r < |ys| - 1
      ensures crossings'[r] == CrossRow(ps, ys, r, idx + 1) && spans'[r] == SpanRow(ps, ys, r, idx + 1)
    {
      assert CrossRow(ps, ys, r, idx + 1)
        == CrossRow(ps, ys, r, idx) + (if Crosses(ps, ys, r, idx) then [a.x] else []);
    }
  }

  /** The rows every edge touches exist on the compressed axis `ys`. */
  ghost predicate RowsExist(ps: seq<Tile>, ys: seq<int>)
  {
    |ys| >= 2
    && forall k :: 0 <= k < |ps| ==>
      LowerBound(ys, Max(ps[k].y, EdgeEnd(ps, k).y)) < |ys| - 1 && LowerBound(ys, ps[k].y) < |ys| - 1
  }

  lemma AllEdgeRows(ps: seq<Tile>)
    requires |ps| > 0
    ensures RowsExist(ps, Ys(ps))
  {
    TileRow(ps, 0);
    forall k | 0 <= k < |ps|
      ensures LowerBound(Ys(ps), Max(ps[k].y, EdgeEnd(ps, k).y)) < |Ys(ps)| - 1
      ensures LowerBound(Ys(ps), ps[k].y) < |Ys(ps)| - 1
    {
      EdgeRows(ps, k);
    }
  }

  /** The edge loop of `build_coverage`. */
  method Scan(ps: seq<Tile>, ys: seq<int>) returns (crossings: seq<seq<int>>, spans: seq<seq<Span>>)
    requires RowsExist(ps, ys)
    ensures Scanned(ps, ys, |ps|, crossings, spans)
  {
    var height := |ys| - 1;
    crossings := seq(height, _ => []);
    spans := seq(height, _ => []);
    for idx := 0 to |ps|
      invariant Scanned(ps, ys, idx, crossings, spans)
    {
      crossings, spans := ScanEdge(ps, ys, idx, crossings, spans);
    }
  }

  // ===========================================================================
  // Resolving a row into merged spans
  // ===========================================================================

  /** The first `k` pairs `(c[0], c[1]), (c[2], c[3]), ...` of `chunks_exact(2)`. */
  function PairsUpTo(c: seq<int>, k: nat): (r: seq<Span>)
    requires 2 * k <= |c|
    ensures |r| == k
  {
    if k == 0 then [] else PairsUpTo(c, k - 1) + [Span(c[2 * k - 2], c[2 * k - 1])]
  }

  /** All the whole pairs of `c`. */
  function Pairs(c: seq<int>): seq<Span>
  {
    PairsUpTo(c, |c| / 2)
  }

  /** The spans of row `r` before merging: its horizontal edges, then the pairs of its
      sorted crossings. */
  function RowSpans(ps: seq<Tile>, ys: seq<int>, r: int): seq<Span>
  {
    SpanRow(ps, ys, r, |ps|) + Pairs(SortBy(CrossRow(ps, ys, r, |ps|), Identity))
  }

  /** Whether some span of `spans` holds `v`. */
  predicate Covers(spans: seq<Span>, v: int)
  {
    exists s :: s in spans && s.lo <= v <= s.hi
  }

  /** Every span is nonempty. */
  predicate Proper(spans: seq<Span>)
  {
    forall s :: s in spans ==> s.lo <= s.hi
  }

  /** Proper spans in increasing order with a gap of at least one value between any
      two: the merged form, in which no two spans touch. */
  predicate Normalized(spans: seq<Span>)
  {
    Proper(spans) && forall i, j :: 0 <= i < j < |spans| ==> spans[i].hi + 1 < spans[j].lo
  }

  /** Every span ends below `bound`. */
  predicate EndsBelow(spans: seq<Span>, bound: int)
  {
    forall s :: s in spans ==> s.hi < bound
  }

  /** The pairs of a sorted list are proper. */
  lemma {:induction false} PairsProper(c: seq<int>, k: nat)
    requires 2 * k <= |c| && SortedBy(c, Identity)
    ensures Proper(PairsUpTo(c, k))
  {
    if k > 0 {
      PairsProper(c, k - 1);
      assert Identity(c[2 * k - 2]) <= Identity(c[2 * k - 1]);
    }
  }

  /** The pairs keep the bound of their values. */
  lemma {:induction false} PairsEndBelow(c: seq<int>, k: nat, bound: int)
    requires 2 * k <= |c| && forall i :: 0 <= i < |c| ==> c[i] < bound
    ensures EndsBelow(PairsUpTo(c, k), bound)
  {
    if k > 0 {
      PairsEndBelow(c, k - 1, bound);
    }
  }

  lemma {:induction false} SpanRowProper(ps: seq<Tile>, ys: seq<int>, r: nat, k: nat, bound: int)
    requires k <= |ps| && forall i :: 0 <= i < |ps| ==> ps[i].x < bound
    ensures Proper(SpanRow(ps, ys, r, k)) && EndsBelow(SpanRow(ps, ys, r, k), bound)
  {
    if k > 0 {
      SpanRowProper(ps, ys, r, k - 1, bound);
    }
  }

  lemma {:induction false} CrossRowBelow(ps: seq<Tile>, ys: seq<int>, r: nat, k: nat, bound: int)
    requires k <= |ps| && forall i :: 0 <= i < |ps| ==> ps[i].x < bound
    ensures forall i :: 0 <= i < |CrossRow(ps, ys, r, k)| ==> CrossRow(ps, ys, r, k)[i] < bound
  {
    if k > 0 {
      CrossRowBelow(ps, ys, r, k - 1, bound);
    }
  }

  /** Appending a span adds exactly its values to the coverage. */
  lemma CoversAppend(m: seq<Span>, s: Span, v: int)
    ensures Covers(m + [s], v) <==> Covers(m, v) || s.lo <= v <= s.hi
  {
    var m' := m + [s];
    if Covers(m', v) {
      var t :| t in m' && t.lo <= v <= t.hi;
      if t != s {
        assert t in m;
      }
    }
  }

  /** Pairs the sorted crossings onto the row's spans (the `chunks_exact(2)` loop). */
  method PushPairs(rowSpans: seq<Span>, cross: seq<int>) returns (r: seq<Span>)
    ensures r == rowSpans + Pairs(cross)
  {
    r := rowSpans;
    var k := 0;
    while k < |cross| / 2
      invariant k <= |cross| / 2
      invariant r == rowSpans + PairsUpTo(cross, k)
    {
      r := r + [Span(cross[2 * k], cross[2 * k + 1])];
      k := k + 1;
    }
  }

  /** One step of the merge: the state before span `i` is taken in. */
  ghost predicate Merging(sorted: seq<Span>, i: nat, merged: seq<Span>, bound: int)
    requires i <= |sorted|
  {
    Normalized(merged) && EndsBelow(merged, bound)
    && (merged == [] <==> i == 0)
    && (i > 0 ==> merged[|merged| - 1].lo <= sorted[i - 1].lo)
    && forall v :: Covers(merged, v) <==> Covers(sorted[..i], v)
  }

  /** The sweep of `build_coverage` over the spans sorted by start: a span starting
      at most one past the last merged span's end extends it, any other starts a new
      merged span. */
  method MergeSpans(sorted: seq<Span>, ghost bound: int) returns (merged: seq<Span>)
    requires SortedBy(sorted, SpanLo) && Proper(sorted) && EndsBelow(sorted, bound)
    ensures Normalized(merged) && EndsBelow(merged, bound)
    ensures forall v :: Covers(merged, v) <==> Covers(sorted, v)
  {
    merged := [];
    for i := 0 to |sorted|
      invariant Merging(sorted, i, merged, bound)
    {
      merged := MergeStep(sorted, i, merged, bound);
    }
    assert sorted[..|sorted|] == sorted;
  }

  /** The body of the sweep for span `i`. */
  method MergeStep(sorted: seq<Span>, i: nat, merged: seq<Span>, ghost bound: int)
    returns (merged': seq<Span>)
    requires i < |sorted| && SortedBy(sorted, SpanLo) && Proper(sorted) && EndsBelow(sorted, bound)
    requires Merging(sorted, i, merged, bound)
    ensures Merging(sorted, i + 1, merged', bound)
  {
    var s := sorted[i];
    assert sorted[..i + 1] == sorted[..i] + [s];
    forall v ensures Covers(sorted[..i + 1], v) <==> Covers(sorted[..i], v) || s.lo <= v <= s.hi {
      CoversAppend(sorted[..i], s, v);
    }
    if merged != [] && s.lo <= merged[|merged| - 1].hi + 1 {
      var last := merged[|merged| - 1];
      var front := merged[..|merged| - 1];
      assert merged == front + [last];
      assert SpanLo(sorted[i - 1]) <= SpanLo(s);
      var hi := if s.hi > last.hi then s.hi else last.hi;
      merged' := front + [Span(last.lo, hi)];
      forall v ensures Covers(merged', v) <==> Covers(merged, v) || s.lo <= v <= s.hi {
        CoversAppend(front, Span(last.lo, hi), v);
        CoversAppend(front, last, v);
      }
      assert Normalized(merged') by {
        forall a, b | 0 <= a < b < |merged'| ensures merged'[a].hi + 1 < merged'[b].lo {
          assert merged[a] == merged'[a];
          assert merged'[b].lo == merged[b].lo;
        }
      }
    } else {
      merged' := merged + [s];
      forall v ensures Covers(merged', v) <==> Covers(merged, v) || s.lo <= v <= s.hi {
        CoversAppend(merged, s, v);
      }
      assert Normalized(merged') by {
        forall a, b | 0 <= a < b < |merged'| ensures merged'[a].hi + 1 < merged'[b].lo {
          if b == |merged| && a < |merged| - 1 {
            assert merged[a].hi + 1 < merged[|merged| - 1].lo;
          }
        }
      }
    }
  }

  /** Spans, their pairs and their sorted form stay proper and below the bound. */
  lemma RowSpansProper(ps: seq<Tile>, ys: seq<int>, r: nat, bound: int)
    requires forall i :: 0 <= i < |ps| ==> ps[i].x < bound
    ensures Proper(RowSpans(ps, ys, r)) && EndsBelow(RowSpans(ps, ys, r), bound)
  {
    var cross := CrossRow(ps, ys, r, |ps|);
    var sorted := SortBy(cross, Identity);
    CrossRowBelow(ps, ys, r, |ps|, bound);
    forall i | 0 <= i < |sorted| ensures sorted[i] < bound {
      assert sorted[i] in multiset(cross);
    }
    PairsProper(sorted, |sorted| / 2);
    PairsEndBelow(sorted, |sorted| / 2, bound);
    SpanRowProper(ps, ys, r, |ps|, bound);
  }

  /** A row after the merge: the merged form of the row's spans `target`. */
  ghost predicate Resolved(merged: seq<Span>, target: seq<Span>, bound: int)
  {
    Normalized(merged) && EndsBelow(merged, bound)
    && forall v :: Covers(merged, v) <==> Covers(target, v)
  }

  /** The spans of every row before merging. */
  ghost function Targets(ps: seq<Tile>, ys: seq<int>): (t: seq<seq<Span>>)
    requires |ys| >= 1
    ensures |t| == |ys| - 1
  {
    seq(|ys| - 1, r => RowSpans(ps, ys, r))
  }

  /** Whether some row has an odd number of crossings, which the loop rules out. */
  ghost predicate SomeRowOdd(ps: seq<Tile>, ys: seq<int>)
  {
    exists r :: 0 <= r < |ys| - 1 && |CrossRow(ps, ys, r, |ps|)| % 2 != 0
  }

  /** The merge of one row. */
  method ResolveRow(rowSpans: seq<Span>, cross: seq<int>, ghost ps: seq<Tile>, ghost ys: seq<int>,
                    ghost r: nat, ghost bound: int)
    returns (merged: seq<Span>)
    requires rowSpans == SpanRow(ps, ys, r, |ps|) && cross == CrossRow(ps, ys, r, |ps|)
    requires forall i :: 0 <= i < |ps| ==> ps[i].x < bound
    ensures Resolved(merged, RowSpans(ps, ys, r), bound)
  {
    var sortedCross := SortBy(cross, Identity);
    var all := PushPairs(rowSpans, sortedCross);
    assert all == RowSpans(ps, ys, r);
    RowSpansProper(ps, ys, r, bound);
    var sorted := SortBy(all, SpanLo);
    assert forall s :: s in sorted <==> s in all by {
      assert forall s :: s in sorted <==> s in multiset(all);
    }
    merged := MergeSpans(sorted, bound);
  }

  /** The first `y` rows merged, none of them with an odd number of crossings. */
  ghost predicate ResolvedUpTo(crossings: seq<seq<int>>, targets: seq<seq<Span>>, y: nat,
                               merged: seq<seq<Span>>, bound: int)
    requires y <= |crossings| && y <= |targets|
  {
    |merged| == y
    && (forall r :: 0 <= r < y ==> Resolved(merged[r], targets[r], bound))
    && forall r :: 0 <= r < y ==> |crossings[r]| % 2 == 0
  }

  lemma ResolvedStep(crossings: seq<seq<int>>, targets: seq<seq<Span>>, y: nat,
                     merged: seq<seq<Span>>, m: seq<Span>, bound: int)
    requires y < |crossings| && y < |targets|
    requires ResolvedUpTo(crossings, targets, y, merged, bound) && Resolved(m, targets[y], bound)
    requires |crossings[y]| % 2 == 0
    ensures ResolvedUpTo(crossings, targets, y + 1, merged + [m], bound)
  {
    var merged' := merged + [m];
    forall r | 0 <= r < y + 1 ensures Resolved(merged'[r], targets[r], bound) {
      if r < y {
        assert merged'[r] == merged[r];
      }
    }
  }

  /** The row loop of `build_coverage`: give up on the first row with an odd number of
      crossings, otherwise merge every row. */
  method Resolve(crossings: seq<seq<int>>, spans: seq<seq<Span>>, ghost ps: seq<Tile>,
                 ghost ys: seq<int>, ghost targets: seq<seq<Span>>, ghost bound: int)
    returns (res: Result<seq<seq<Span>>, Day09Error>)
    requires Scanned(ps, ys, |ps|, crossings, spans)
    requires |ys| >= 1 && targets == Targets(ps, ys)
    requires forall i :: 0 <= i < |ps| ==> ps[i].x < bound
    ensures res.Err? <==> exists r :: 0 <= r < |crossings| && |crossings[r]| % 2 != 0
    ensures res.Err? ==> res.error == OddCrossings
    ensures res.Ok? ==> ResolvedUpTo(crossings, targets, |crossings|, res.value, bound)
  {
    var merged: seq<seq<Span>> := [];
    for y := 0 to |crossings|
      invariant ResolvedUpTo(crossings, targets, y, merged, bound)
    {
      if |crossings[y]| % 2 != 0 {
        return Err(OddCrossings);
      }
      var m := ResolveRow(spans[y], crossings[y], ps, ys, y, bound);
      ResolvedStep(crossings, targets, y, merged, m, bound);
      merged := merged + [m];
    }
    res := Ok(merged);
  }

  // ===========================================================================
  // The green grid
  // ===========================================================================

  /** Whether span `s` paints column `c`: the column index lies between the lower
      bounds of `s.lo` and `s.hi + 1`. */
  predicate InCell(xs: seq<int>, s: Span, c: int)
  {
    LowerBound(xs, s.lo) <= c < LowerBound(xs, s.hi + 1)
  }

  /** Whether one of the first `k` spans of `m` paints column `c`. */
  predicate Painted(xs: seq<int>, m: seq<Span>, k: nat, c: int)
    requires k <= |m|
  {
    k > 0 && (Painted(xs, m, k - 1, c) || InCell(xs, m[k - 1], c))
  }

  /** On strictly increasing boundaries a column is painted exactly when the value
      that starts it is covered. */
  lemma {:induction false} PaintedMeaning(xs: seq<int>, m: seq<Span>, k: nat, c: nat)
    requires StrictlyIncreasing(xs) && k <= |m| && c < |xs|
    ensures Painted(xs, m, k, c) <==> Covers(m[..k], xs[c])
  {
    if k > 0 {
      PaintedMeaning(xs, m, k - 1, c);
      LowerBoundBetween(xs, m[k - 1].lo, m[k - 1].hi + 1, c);
      assert m[..k] == m[..k - 1] + [m[k - 1]];
      CoversAppend(m[..k - 1], m[k - 1], xs[c]);
    }
  }

  /** An end below the last boundary keeps the painted columns inside the grid. */
  lemma EndInside(xs: seq<int>, hi: int)
    requires |xs| >= 1 && hi < xs[|xs| - 1]
    ensures LowerBound(xs, hi + 1) <= |xs| - 1
  {
  }

  /** Sets the cells `[start, end)` of a row (none when `end <= start`). */
  method PaintRange(row: seq<bool>, start: nat, end: nat) returns (row': seq<bool>)
    requires end <= |row|
    ensures |row'| == |row|
    ensures forall c :: 0 <= c < |row| ==> row'[c] == (row[c] || start <= c < end)
  {
    row' := row;
    var x := start;
    while x < end
      invariant start <= x && (x <= end || x == start)
      invariant |row'| == |row|
      invariant forall c :: 0 <= c < |row| ==> row'[c] == (row[c] || start <= c < x)
    {
      row' := row'[x := true];
      x := x + 1;
    }
  }

  /** Paints one row of the green grid from its merged spans. */
  method PaintRow(xs: seq<int>, m: seq<Span>) returns (row: seq<bool>)
    requires |xs| >= 1 && EndsBelow(m, xs[|xs| - 1])
    ensures |row| == |xs| - 1
    ensures forall c :: 0 <= c < |row| ==> row[c] == Painted(xs, m, |m|, c)
  {
    row := seq(|xs| - 1, _ => false);
    for k := 0 to |m|
      invariant |row| == |xs| - 1
      invariant forall c :: 0 <= c < |row| ==> row[c] == Painted(xs, m, k, c)
    {
      assert m[k] in m;
      EndInside(xs, m[k].hi);
      row := PaintRange(row, LowerBound(xs, m[k].lo), LowerBound(xs, m[k].hi + 1));
    }
  }

  /** The grid of compressed cells whose starting value the row's spans cover. */
  ghost function Grid(xs: seq<int>, targets: seq<seq<Span>>): (g: seq<seq<bool>>)
    requires |xs| >= 1
    ensures |g| == |targets| && forall r :: 0 <= r < |g| ==> |g[r]| == |xs| - 1
  {
    seq(|targets|, r requires 0 <= r < |targets| => seq(|xs| - 1, c requires 0 <= c < |xs| - 1 => Covers(targets[r], xs[c])))
  }

  /** The marking loop of `build_coverage`. */
  method Paint(xs: seq<int>, merged: seq<seq<Span>>, ghost crossings: seq<seq<int>>,
               ghost targets: seq<seq<Span>>)
    returns (green: seq<seq<bool>>)
    requires |xs| >= 1 && StrictlyIncreasing(xs) && |crossings| == |targets| == |merged|
    requires ResolvedUpTo(crossings, targets, |merged|, merged, xs[|xs| - 1])
    ensures green == Grid(xs, targets)
  {
    green := [];
    for y := 0 to |merged|
      invariant |green| == y
      invariant forall r :: 0 <= r < y ==> green[r] == Grid(xs, targets)[r]
    {
      var row := PaintRow(xs, merged[y]);
      forall c | 0 <= c < |row| ensures row[c] == Covers(targets[y], xs[c]) {
        PaintedMeaning(xs, merged[y], |merged[y]|, c);
        assert merged[y][..|merged[y]|] == merged[y];
      }
      green := green + [row];
    }
  }

  // ===========================================================================
  // The prefix sums of the green area
  // ===========================================================================

  /** The grid has one row per compressed row and one column per compressed column. */
  ghost predicate Shape(g: seq<seq<bool>>, xs: seq<int>, ys: seq<int>)
  {
    |xs| >= 1 && |ys| >= 1 && |g| == |ys| - 1 && forall r :: 0 <= r < |g| ==> |g[r]| == |xs| - 1
  }

  /** The area of cell `(r, c)` when it is green, else 0. */
  ghost function CellArea(g: seq<seq<bool>>, xs: seq<int>, ys: seq<int>, r: nat, c: nat): int
    requires Shape(g, xs, ys) && r < |g| && c < |xs| - 1
  {
    if g[r][c] then (xs[c + 1] - xs[c]) * (ys[r + 1] - ys[r]) else 0
  }

  /** The green area of cells `[x0, x1)` of row `r`. */
  ghost function RowSum(g: seq<seq<bool>>, xs: seq<int>, ys: seq<int>, r: nat, x0: nat, x1: nat): int
    requires Shape(g, xs, ys) && r < |g| && x1 < |xs|
    decreases x1
  {
    if x1 <= x0 then 0 else RowSum(g, xs, ys, r, x0, x1 - 1) + CellArea(g, xs, ys, r, x1 - 1)
  }

  /** The green area of rows `[y0, y1)` and columns `[x0, x1)`. */
  ghost function BoxSum(g: seq<seq<bool>>, xs: seq<int>, ys: seq<int>, y0: nat, y1: nat, x0: nat, x1: nat): int
    requires Shape(g, xs, ys) && y1 < |ys| && x1 < |xs|
    decreases y1
  {
    if y1 <= y0 then 0 else BoxSum(g, xs, ys, y0, y1 - 1, x0, x1) + RowSum(g, xs, ys, y1 - 1, x0, x1)
  }

  /** Entry `(y, x)` of the prefix table: the green area of the first `y` rows and `x`
      columns. */
  ghost function Block(g: seq<seq<bool>>, xs: seq<int>, ys: seq<int>, y: nat, x: nat): int
    requires Shape(g, xs, ys) && y < |ys| && x < |xs|
  {
    BoxSum(g, xs, ys, 0, y, 0, x)
  }

  /** The flat index `y * stride + x` of entry `(y, x)` of a table of `rows` rows with
      `stride` entries each, counted out row by row. */
  function Slot(stride: nat, rows: nat, y: nat, x: nat): (i: nat)
    requires y < rows && x < stride
    ensures i < rows * stride
  {
    if y == 0 then x else stride + Slot(stride, rows - 1, y - 1, x)
  }

  /** Entry `(y, x)` lies `x` past the start of row `y`. */
  lemma {:induction false} SlotShift(stride: nat, rows: nat, y: nat, x: nat)
    requires y < rows && x < stride
    ensures Slot(stride, rows, y, x) == Slot(stride, rows, y, 0) + x
  {
    if y > 0 {
      SlotShift(stride, rows - 1, y - 1, x);
    }
  }

  /** Distinct entries have distinct slots. */
  lemma {:induction false} SlotInjective(stride: nat, rows: nat, y: nat, x: nat, y': nat, x': nat)
    requires y < rows && x < stride && y' < rows && x' < stride
    requires Slot(stride, rows, y, x) == Slot(stride, rows, y', x')
    ensures y == y' && x == x'
  {
    if y > 0 && y' > 0 {
      SlotInjective(stride, rows - 1, y - 1, x, y' - 1, x');
    }
  }

  /** The table holds the prefix sums of every finished row, the first `x + 1` entries
      of row `y + 1`, and column 0. */
  ghost predicate Filled(p: seq<int>, g: seq<seq<bool>>, xs: seq<int>, ys: seq<int>, y: nat, x: nat)
    requires Shape(g, xs, ys)
  {
    |p| == |ys| * |xs|
    && forall r, c :: 0 <= r < |ys| && 0 <= c < |xs| && (r <= y || (r == y + 1 && c <= x) || c == 0) ==>
      p[Slot(|xs|, |ys|, r, c)] == Block(g, xs, ys, r, c)
  }

  /** Column 0 of the table is 0. */
  lemma {:induction false} BlockColumnZero(g: seq<seq<bool>>, xs: seq<int>, ys: seq<int>, y: nat)
    requires Shape(g, xs, ys) && y < |ys|
    ensures Block(g, xs, ys, y, 0) == 0
  {
    if y > 0 {
      BlockColumnZero(g, xs, ys, y - 1);
    }
  }

  /** The recurrence of the table: the entry below and to the right adds one cell to
      its two neighbours and takes off their overlap. */
  lemma BlockStep(g: seq<seq<bool>>, xs: seq<int>, ys: seq<int>, y: nat, x: nat)
    requires Shape(g, xs, ys) && y + 1 < |ys| && x + 1 < |xs|
    ensures Block(g, xs, ys, y + 1, x + 1)
      == Block(g, xs, ys, y + 1, x) + Block(g, xs, ys, y, x + 1) - Block(g, xs, ys, y, x)
         + CellArea(g, xs, ys, y, x)
  {
    BoxColumnStep(g, xs, ys, y + 1, x);
  }

  /** Adding a column to a box adds the column's cells. */
  lemma {:induction false} BoxColumnStep(g: seq<seq<bool>>, xs: seq<int>, ys: seq<int>, y: nat, x: nat)
    requires Shape(g, xs, ys) && y < |ys| && x + 1 < |xs|
    ensures BoxSum(g, xs, ys, 0, y, 0, x + 1) == BoxSum(g, xs, ys, 0, y, 0, x)
      + (if y > 0 then BoxSum(g, xs, ys, 0, y - 1, 0, x + 1) - BoxSum(g, xs, ys, 0, y - 1, 0, x) + CellArea(g, xs, ys, y - 1, x) else 0)
    decreases y
  {
  }

  /** Entry `(y + 1, x + 1)` of the table, from the three entries before it. */
  method PrefixCell(p: array<int>, g: seq<seq<bool>>, xs: seq<int>, ys: seq<int>, y: nat, x: nat)
    requires Shape(g, xs, ys) && y + 1 < |ys| && x + 1 < |xs|
    requires Filled(p[..], g, xs, ys, y, x)
    modifies p
    ensures Filled(p[..], g, xs, ys, y, x + 1)
  {
    ghost var before := p[..];
    var stride := |xs|;
    var prevRow := Slot(stride, |ys|, y, 0);
    var curRow := Slot(stride, |ys|, y + 1, 0);
    SlotShift(stride, |ys|, y, x);
    SlotShift(stride, |ys|, y, x + 1);
    SlotShift(stride, |ys|, y + 1, x);
    var dy := ys[y + 1] - ys[y];
    var dx := xs[x + 1] - xs[x];
    var cellArea := if g[y][x] then dx * dy else 0;
    var a := p[curRow + x];
    var b := p[prevRow + x + 1];
    var c := p[prevRow + x];
    BlockStep(g, xs, ys, y, x);
    var at := Slot(stride, |ys|, y + 1, x + 1);
    p[at] := a + b - c + cellArea;
    forall r, c | 0 <= r < |ys| && 0 <= c < |xs| && (r <= y || (r == y + 1 && c <= x + 1) || c == 0)
      ensures p[..][Slot(stride, |ys|, r, c)] == Block(g, xs, ys, r, c)
    {
      if Slot(stride, |ys|, r, c) == at {
        SlotInjective(stride, |ys|, r, c, y + 1, x + 1);
      } else {
        assert p[..][Slot(stride, |ys|, r, c)] == before[Slot(stride, |ys|, r, c)];
      }
    }
  }

  /** Fills row `y + 1` of the table (the inner loop). */
  method PrefixRow(p: array<int>, g: seq<seq<bool>>, xs: seq<int>, ys: seq<int>, y: nat)
    requires Shape(g, xs, ys) && y + 1 < |ys|
    requires Filled(p[..], g, xs, ys, y, 0)
    modifies p
    ensures Filled(p[..], g, xs, ys, y + 1, 0)
  {
    for x := 0 to |xs| - 1
      invariant Filled(p[..], g, xs, ys, y, x)
    {
      PrefixCell(p, g, xs, ys, y, x);
    }
  }

  /** The prefix-sum loop of `build_coverage`: a table of `|ys|` rows of `|xs|` entries
      whose entry `(y, x)` is the green area of the first `y` rows and `x` columns. */
  method PrefixSums(g: seq<seq<bool>>, xs: seq<int>, ys: seq<int>) returns (prefix: seq<int>)
    requires Shape(g, xs, ys)
    ensures Filled(prefix, g, xs, ys, |ys| - 1, 0)
  {
    var p := new int[|ys| * |xs|](_ => 0);
    forall r, c | 0 <= r < |ys| && 0 <= c < |xs| && (r <= 0 || c == 0)
      ensures p[..][Slot(|xs|, |ys|, r, c)] == Block(g, xs, ys, r, c)
    {
      BlockColumnZero(g, xs, ys, r);
    }
    for y := 0 to |ys| - 1
      invariant Filled(p[..], g, xs, ys, y, 0)
    {
      PrefixRow(p, g, xs, ys, y);
    }
    prefix := p[..];
  }

  // ===========================================================================
  // `build_coverage`
  // ===========================================================================

  /** The compressed axes and the prefix table of the green area. */
  datatype Coverage = Coverage(prefix: seq<int>, stride: nat, xs: seq<int>, ys: seq<int>)

  /** The green grid of the loop through `ps`: compressed cell `(r, c)` is green when
      the spans of row `r` cover the value that starts column `c`. */
  ghost function GreenGrid(ps: seq<Tile>): seq<seq<bool>>
    requires |Xs(ps)| >= 1 && |Ys(ps)| >= 1
  {
    Grid(Xs(ps), Targets(ps, Ys(ps)))
  }

  /** `cov` is the coverage of the loop through `ps`: its axes are the compressed axes
      and entry `(y, x)` of its table is the green area of the first `y` rows and `x`
      columns. */
  ghost predicate Covering(ps: seq<Tile>, cov: Coverage)
  {
    cov.xs == Xs(ps) && cov.ys == Ys(ps) && cov.stride == |cov.xs|
    && |cov.xs| >= 1 && |cov.ys| >= 1
    && Shape(GreenGrid(ps), cov.xs, cov.ys)
    && Filled(cov.prefix, GreenGrid(ps), cov.xs, cov.ys, |cov.ys| - 1, 0)
  }

  /** Every tile lies left of the last column boundary. */
  lemma ColumnsBelow(ps: seq<Tile>)
    requires |ps| > 0
    ensures |Xs(ps)| >= 2 && forall i :: 0 <= i < |ps| ==> ps[i].x < Xs(ps)[|Xs(ps)| - 1]
  {
    TileColumn(ps, 0);
    forall i | 0 <= i < |ps| ensures ps[i].x < Xs(ps)[|Xs(ps)| - 1] {
      TileColumn(ps, i);
      var xs := Xs(ps);
      var k := LowerBound(xs, ps[i].x + 1);
      if k < |xs| - 1 {
        assert xs[k] < xs[|xs| - 1];
      }
    }
  }

  /** The rows that the scan finds odd are the rows of the loop with an odd number of
      crossings. */
  lemma OddRows(ps: seq<Tile>, ys: seq<int>, crossings: seq<seq<int>>, spans: seq<seq<Span>>)
    requires Scanned(ps, ys, |ps|, crossings, spans)
    ensures (exists r :: 0 <= r < |crossings| && |crossings[r]| % 2 != 0) <==> SomeRowOdd(ps, ys)
  {
    if SomeRowOdd(ps, ys) {
      var r :| 0 <= r < |ys| - 1 && |CrossRow(ps, ys, r, |ps|)| % 2 != 0;
      assert |crossings[r]| % 2 != 0;
    }
  }

  /** What the compressed axes give the rest of `build_coverage`. */
  ghost predicate Compressed(ps: seq<Tile>, xs: seq<int>, ys: seq<int>)
  {
    RowsExist(ps, ys) && |xs| >= 2 && StrictlyIncreasing(xs)
    && forall i :: 0 <= i < |ps| ==> ps[i].x < xs[|xs| - 1]
  }

  lemma AxesCompressed(ps: seq<Tile>)
    requires |ps| > 0
    ensures Compressed(ps, Xs(ps), Ys(ps))
  {
    AllEdgeRows(ps);
    ColumnsBelow(ps);
    TileColumn(ps, 0);
  }

  /** `build_coverage` after the axes: scan, merge, paint and sum. */
  method Cover(ps: seq<Tile>, xs: seq<int>, ys: seq<int>) returns (r: Result<Coverage, Day09Error>)
    requires Compressed(ps, xs, ys)
    ensures r.Err? <==> SomeRowOdd(ps, ys)
    ensures r.Err? ==> r.error == OddCrossings
    ensures r.Ok? ==> r.value.xs == xs && r.value.ys == ys && r.value.stride == |xs|
    ensures r.Ok? ==> Shape(Grid(xs, Targets(ps, ys)), xs, ys)
    ensures r.Ok? ==> Filled(r.value.prefix, Grid(xs, Targets(ps, ys)), xs, ys, |ys| - 1, 0)
  {
    var crossings, spans := Scan(ps, ys);
    OddRows(ps, ys, crossings, spans);
    ghost var targets := Targets(ps, ys);
    var merged := Resolve(crossings, spans, ps, ys, targets, xs[|xs| - 1]);
    if merged.Err? {
      return Err(OddCrossings);
    }
    var green := Paint(xs, merged.value, crossings, targets);
    var prefix := PrefixSums(green, xs, ys);
    r := Ok(Coverage(prefix, |xs|, xs, ys));
  }

  /** `build_coverage`. */
  method BuildCoverage(ps: seq<Tile>) returns (r: Result<Coverage, Day09Error>)
    ensures |ps| < 3 ==> r == Err(NeedThree)
    ensures |ps| >= 3 ==> (r.Err? <==> SomeRowOdd(ps, Ys(ps)))
    ensures |ps| >= 3 && r.Err? ==> r.error == OddCrossings
    ensures r.Ok? ==> Covering(ps, r.value)
  {
    if |ps| < 3 {
      return Err(NeedThree);
    }
    var xs, ys := Axes(ps);
    AxesCompressed(ps);
    r := Cover(ps, xs, ys);
  }

  // ===========================================================================
  // `max_area_within_green`
  // ===========================================================================

  /** The table has `|ys|` rows of `stride == |xs|` entries. */
  predicate Sized(cov: Coverage)
  {
    cov.stride == |cov.xs| && |cov.prefix| == |cov.ys| * cov.stride
  }

  /** The lower bounds of a tile's values and their successors are table indices. */
  predicate TileIndexed(cov: Coverage, p: Tile)
  {
    LowerBound(cov.xs, p.x) < |cov.xs| && LowerBound(cov.xs, p.x + 1) < |cov.xs|
    && LowerBound(cov.ys, p.y) < |cov.ys| && LowerBound(cov.ys, p.y + 1) < |cov.ys|
  }

  /** What `max_area_within_green` needs of its coverage for its lookups. */
  ghost predicate Usable(ps: seq<Tile>, cov: Coverage)
  {
    Sized(cov) && forall k :: 0 <= k < |ps| ==> TileIndexed(cov, ps[k])
  }

  /** The rectangle of tiles `p` and `q` spans the compressed rows and columns
      `[BoxLo, BoxHi)`. */
  function BoxLo(v: seq<int>, a: int, b: int): nat { LowerBound(v, Min(a, b)) }
  function BoxHi(v: seq<int>, a: int, b: int): nat { LowerBound(v, Max(a, b) + 1) }

  /** The green area of the box of rows `[yLo, yHi)` and columns `[xLo, xHi)`, read
      from the table by inclusion and exclusion. */
  function Corners(cov: Coverage, yLo: nat, yHi: nat, xLo: nat, xHi: nat): int
    requires Sized(cov) && yLo < |cov.ys| && yHi < |cov.ys| && xLo < |cov.xs| && xHi < |cov.xs|
  {
    var rows := |cov.ys|;
    cov.prefix[Slot(cov.stride, rows, yHi, xHi)] + cov.prefix[Slot(cov.stride, rows, yLo, xLo)]
      - cov.prefix[Slot(cov.stride, rows, yLo, xHi)] - cov.prefix[Slot(cov.stride, rows, yHi, xLo)]
  }

  /** The green area of the rectangle of `p` and `q`. */
  function GreenArea(cov: Coverage, p: Tile, q: Tile): int
    requires Sized(cov) && TileIndexed(cov, p) && TileIndexed(cov, q)
  {
    Corners(cov, BoxLo(cov.ys, p.y, q.y), BoxHi(cov.ys, p.y, q.y), BoxLo(cov.xs, p.x, q.x), BoxHi(cov.xs, p.x, q.x))
  }

  /** The choice of `max_area_within_green` between the two tiles' precomputed bounds
      gives the box. */
  lemma BoxChoice(v: seq<int>, a: int, b: int, la: nat, la1: nat, lb: nat, lb1: nat)
    requires la == LowerBound(v, a) && la1 == LowerBound(v, a + 1)
    requires lb == LowerBound(v, b) && lb1 == LowerBound(v, b + 1)
    ensures (if a <= b then la else lb) == BoxLo(v, a, b)
    ensures (if a <= b then lb1 else la1) == BoxHi(v, a, b)
  {
  }

  /** The rectangle of `p` and `q` is green throughout: its green area is its area. */
  predicate Fits(cov: Coverage, p: Tile, q: Tile)
    requires Sized(cov) && TileIndexed(cov, p) && TileIndexed(cov, q)
  {
    GreenArea(cov, p, q) == PairArea(p, q)
  }

  /** Which pairs of tiles fit: entry `[a][b]` says whether tiles `a` and `b` do. */
  ghost function FitTable(ps: seq<Tile>, cov: Coverage): (ok: seq<seq<bool>>)
    requires Usable(ps, cov)
    ensures Square(ok, |ps|)
  {
    seq(|ps|, a requires 0 <= a < |ps| =>
      seq(|ps|, b requires 0 <= b < |ps| => Fits(cov, ps[a], ps[b])))
  }

  ghost predicate Square(ok: seq<seq<bool>>, n: nat)
  {
    |ok| == n && forall a :: 0 <= a < n ==> |ok[a]| == n
  }

  /** Every pair scanned before `(i, j)` that `ok` admits spans at most `m` tiles. */
  ghost predicate OkBounded(ps: seq<Tile>, ok: seq<seq<bool>>, m: nat, i: nat, j: nat)
    requires Square(ok, |ps|)
  {
    forall a, b :: 0 <= a < b < |ps| && Before(a, b, i, j) && ok[a][b] ==> PairArea(ps[a], ps[b]) <= m
  }

  /** `m` is 0 or the area of a pair scanned before `(i, j)` that `ok` admits. */
  ghost predicate OkAttained(ps: seq<Tile>, ok: seq<seq<bool>>, m: nat, i: nat, j: nat)
    requires Square(ok, |ps|)
  {
    m == 0 || exists a, b :: 0 <= a < b < |ps| && Before(a, b, i, j) && ok[a][b] && m == PairArea(ps[a], ps[b])
  }

  /** `m` is the largest area of a fitting pair of `ps`, or 0 without one. */
  ghost predicate FitLargest(ps: seq<Tile>, cov: Coverage, m: nat)
    requires Usable(ps, cov)
  {
    OkBounded(ps, FitTable(ps, cov), m, |ps|, 0) && OkAttained(ps, FitTable(ps, cov), m, |ps|, 0)
  }

  /** `m` is the largest area of a pair scanned before `(i, j)` that `ok` admits, or 0. */
  ghost predicate OkMax(ps: seq<Tile>, ok: seq<seq<bool>>, m: nat, i: nat, j: nat)
    requires Square(ok, |ps|)
  {
    OkBounded(ps, ok, m, i, j) && OkAttained(ps, ok, m, i, j)
  }

  /** What the scan over the pairs works from: the coverage, the table of fitting
      pairs, and each tile's precomputed indices. */
  ghost predicate PairsReady(ps: seq<Tile>, cov: Coverage, indices: seq<TileIndices>, ok: seq<seq<bool>>)
  {
    Usable(ps, cov) && ok == FitTable(ps, cov)
    && |indices| == |ps| && forall k :: 0 <= k < |ps| ==> indices[k] == IndicesOf(cov, ps[k])
  }

  /** The four lower bounds of a tile, as `max_area_within_green` precomputes them. */
  datatype TileIndices = TileIndices(x: nat, x1: nat, y: nat, y1: nat)

  function IndicesOf(cov: Coverage, p: Tile): TileIndices
  {
    TileIndices(LowerBound(cov.xs, p.x), LowerBound(cov.xs, p.x + 1),
                LowerBound(cov.ys, p.y), LowerBound(cov.ys, p.y + 1))
  }

  /** `max_area_within_green`. */
  method MaxAreaWithinGreen(ps: seq<Tile>, cov: Coverage) returns (m: nat)
    requires Usable(ps, cov)
    ensures FitLargest(ps, cov, m)
  {
    ghost var ok := FitTable(ps, cov);
    if |ps| < 2 {
      NoPairs(ps, ok);
      return 0;
    }
    var indices := Indices(ps, cov);
    m := ScanPairs(ps, cov, indices, ok, 0);
    assert OkBounded(ps, ok, m, |ps|, 0);
    assert OkAttained(ps, ok, m, |ps|, 0);
  }

  /** The nested loops over the pairs, starting from the best area `m0` so far. */
  method ScanPairs(ps: seq<Tile>, cov: Coverage, indices: seq<TileIndices>, ghost ok: seq<seq<bool>>, m0: nat)
    returns (m: nat)
    requires PairsReady(ps, cov, indices, ok) && OkMax(ps, ok, m0, 0, 0)
    ensures OkMax(ps, ok, m, |ps|, 0)
  {
    m := m0;
    for i := 0 to |ps|
      invariant OkMax(ps, ok, m, i, 0)
    {
      m := FitRow(ps, cov, indices, i, m, ok);
    }
  }

  /** Without two tiles there is no pair. */
  lemma NoPairs(ps: seq<Tile>, ok: seq<seq<bool>>)
    requires Square(ok, |ps|) && |ps| < 2
    ensures OkBounded(ps, ok, 0, |ps|, 0) && OkAttained(ps, ok, 0, |ps|, 0)
  {
  }

  /** The precomputation loop of `max_area_within_green`. */
  method Indices(ps: seq<Tile>, cov: Coverage) returns (indices: seq<TileIndices>)
    ensures |indices| == |ps| && forall k :: 0 <= k < |ps| ==> indices[k] == IndicesOf(cov, ps[k])
  {
    indices := [];
    for k := 0 to |ps|
      invariant |indices| == k && forall i :: 0 <= i < k ==> indices[i] == IndicesOf(cov, ps[i])
    {
      indices := indices + [IndicesOf(cov, ps[k])];
    }
  }

  /** The pairs `(i, j)` for `j > i` (the inner loop). */
  method FitRow(ps: seq<Tile>, cov: Coverage, indices: seq<TileIndices>, i: nat, m0: nat,
                ghost ok: seq<seq<bool>>)
    returns (m: nat)
    requires PairsReady(ps, cov, indices, ok) && i < |ps| && OkMax(ps, ok, m0, i, 0)
    ensures OkMax(ps, ok, m, i + 1, 0)
  {
    m := m0;
    FitRowStart(ps, ok, m, i);
    var pi, ii := ps[i], indices[i];
    for j := i + 1 to |ps|
      invariant OkMax(ps, ok, m, i, j)
    {
      var pj := ps[j];
      var area := PairArea(pi, pj);
      ghost var before := m;
      if area > m {
        var green := PairGreen(cov, pi, ii, pj, indices[j]);
        assert ok[i][j] == (green == area);
        if green == area {
          m := area;
        }
      }
      FitStep(ps, ok, before, m, i, j);
    }
    FitRowEnd(ps, ok, m, i);
  }

  /** The green area of one pair from the precomputed indices. */
  method PairGreen(cov: Coverage, pi: Tile, ii: TileIndices, pj: Tile, ij: TileIndices) returns (green: int)
    requires Sized(cov) && TileIndexed(cov, pi) && TileIndexed(cov, pj)
    requires ii == IndicesOf(cov, pi) && ij == IndicesOf(cov, pj)
    ensures green == GreenArea(cov, pi, pj)
  {
    BoxChoice(cov.xs, pi.x, pj.x, ii.x, ii.x1, ij.x, ij.x1);
    BoxChoice(cov.ys, pi.y, pj.y, ii.y, ii.y1, ij.y, ij.y1);
    var xLo, xHi := if pi.x <= pj.x then ii.x else ij.x, if pi.x <= pj.x then ij.x1 else ii.x1;
    var yLo, yHi := if pi.y <= pj.y then ii.y else ij.y, if pi.y <= pj.y then ij.y1 else ii.y1;
    green := Corners(cov, yLo, yHi, xLo, xHi);
  }

  lemma FitRowStart(ps: seq<Tile>, ok: seq<seq<bool>>, m: nat, i: nat)
    requires Square(ok, |ps|) && i < |ps|
    ensures OkBounded(ps, ok, m, i, 0) == OkBounded(ps, ok, m, i, i + 1)
    ensures OkAttained(ps, ok, m, i, 0) == OkAttained(ps, ok, m, i, i + 1)
  {
    assert forall a, b :: 0 <= a < b < |ps| ==> (Before(a, b, i, 0) <==> Before(a, b, i, i + 1));
  }

  lemma FitRowEnd(ps: seq<Tile>, ok: seq<seq<bool>>, m: nat, i: nat)
    requires Square(ok, |ps|) && i < |ps|
    ensures OkBounded(ps, ok, m, i, |ps|) == OkBounded(ps, ok, m, i + 1, 0)
    ensures OkAttained(ps, ok, m, i, |ps|) == OkAttained(ps, ok, m, i + 1, 0)
  {
    assert forall a, b :: 0 <= a < b < |ps| ==> (Before(a, b, i, |ps|) <==> Before(a, b, i + 1, 0));
  }

  /** One step of the scan: an admitted pair `(i, j)` larger than the maximum raises it. */
  lemma FitStep(ps: seq<Tile>, ok: seq<seq<bool>>, m: nat, m': nat, i: nat, j: nat)
    requires Square(ok, |ps|) && i < j < |ps|
    requires OkBounded(ps, ok, m, i, j) && OkAttained(ps, ok, m, i, j)
    requires m' == if PairArea(ps[i], ps[j]) > m && ok[i][j] then PairArea(ps[i], ps[j]) else m
    ensures OkBounded(ps, ok, m', i, j + 1) && OkAttained(ps, ok, m', i, j + 1)
  {
    if m' != 0 {
      if m' == m {
        var a, b :| 0 <= a < b < |ps| && Before(a, b, i, j) && ok[a][b] && m == PairArea(ps[a], ps[b]);
        assert Before(a, b, i, j + 1);
      } else {
        assert Before(i, j, i, j + 1);
      }
    }
  }

  /** The coverage `build_coverage` returns is usable for the tiles it was built from. */
  lemma CoveringUsable(ps: seq<Tile>, cov: Coverage)
    requires Covering(ps, cov)
    ensures Usable(ps, cov)
  {
    forall k | 0 <= k < |ps| ensures TileIndexed(cov, ps[k]) {
      TileColumn(ps, k);
      TileRow(ps, k);
    }
  }

  /** A fitting pair is a pair: the part 2 answer never exceeds the part 1 answer. */
  lemma WithinAtMostAny(ps: seq<Tile>, cov: Coverage, m1: nat, m2: nat)
    requires Usable(ps, cov) && Largest(ps, m1) && FitLargest(ps, cov, m2)
    ensures m2 <= m1
  {
    if m2 != 0 {
      var ok := FitTable(ps, cov);
      var a, b :| 0 <= a < b < |ps| && Before(a, b, |ps|, 0) && ok[a][b] && m2 == PairArea(ps[a], ps[b]);
      assert Before(a, b, |ps|, 0);
    }
  }

  // ===========================================================================
  // The entry points
  // ===========================================================================

  /** `part1`. */
  method Part1(s: string) returns (r: Result<nat, Day09Error>)
    ensures Tiles(s).Err? ==> r == Err(BadInput(Tiles(s).error))
    ensures Tiles(s).Ok? && |Tiles(s).value| < 2 ==> r == Err(NeedTwo)
    ensures r.Ok? ==> Tiles(s).Ok? && Largest(Tiles(s).value, r.value)
  {
    var parsed := ParseTiles(s);
    if parsed.Err? {
      return Err(BadInput(parsed.error));
    }
    var ps := parsed.value;
    if |ps| < 2 {
      return Err(NeedTwo);
    }
    var m := MaxAreaAny(ps);
    r := Ok(m);
  }

  /** `part2`. */
  method Part2(s: string) returns (r: Result<nat, Day09Error>)
    ensures Tiles(s).Err? ==> r == Err(BadInput(Tiles(s).error))
    ensures Tiles(s).Ok? && |Tiles(s).value| < 3 ==> r == Err(NeedThree)
    ensures Tiles(s).Ok? && |Tiles(s).value| >= 3 ==>
      (r.Err? <==> SomeRowOdd(Tiles(s).value, Ys(Tiles(s).value)))
    ensures r.Ok? ==> Tiles(s).Ok? && exists cov :: (Covering(Tiles(s).value, cov)
      && Usable(Tiles(s).value, cov) && FitLargest(Tiles(s).value, cov, r.value))
  {
    var parsed := ParseTiles(s);
    if parsed.Err? {
      return Err(BadInput(parsed.error));
    }
    var ps := parsed.value;
    var built := BuildCoverage(ps);
    if built.Err? {
      return Err(built.error);
    }
    CoveringUsable(ps, built.value);
    var m := MaxAreaWithinGreen(ps, built.value);
    r := Ok(m);
  }

  /** `both`: the two parts over one parse. */
  method Both(s: string) returns (r: Result<(nat, nat), Day09Error>)
    ensures Tiles(s).Err? ==> r == Err(BadInput(Tiles(s).error))
    ensures Tiles(s).Ok? && |Tiles(s).value| < 2 ==> r == Err(NeedTwo)
    ensures Tiles(s).Ok? && |Tiles(s).value| == 2 ==> r == Err(NeedThree)
    ensures Tiles(s).Ok? && |Tiles(s).value| >= 3 ==>
      (r.Err? <==> SomeRowOdd(Tiles(s).value, Ys(Tiles(s).value)))
    ensures r.Ok? ==> Tiles(s).Ok? && Largest(Tiles(s).value, r.value.0) && r.value.1 <= r.value.0
    ensures r.Ok? ==> Tiles(s).Ok? && exists cov :: (Covering(Tiles(s).value, cov)
      && Usable(Tiles(s).value, cov) && FitLargest(Tiles(s).value, cov, r.value.1))
  {
    var parsed := ParseTiles(s);
    if parsed.Err? {
      return Err(BadInput(parsed.error));
    }
    var ps := parsed.value;
    if |ps| < 2 {
      return Err(NeedTwo);
    }
    var p1 := MaxAreaAny(ps);
    var built := BuildCoverage(ps);
    if built.Err? {
      return Err(built.error);
    }
    CoveringUsable(ps, built.value);
    var p2 := MaxAreaWithinGreen(ps, built.value);
    WithinAtMostAny(ps, built.value, p1, p2);
    r := Ok((p1, p2));
  }
}
