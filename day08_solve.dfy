/** Day 8, `solve_with_limit`: the pairs of junction boxes are connected in order of
    increasing distance; part one multiplies the three largest circuits after the first
    `limit` pairs, part two multiplies the X coordinates of the pair whose connection
    first leaves a single circuit.  The edges are taken in chunks of growing size, each
    chunk selected and sorted just before it is used, and the main contract says that
    this gives the same answers as connecting all pairs in one nondecreasing order. */
module Day08Solve {
  import opened Common
  import opened Sorting
  import opened Day08
  import opened Day08Edges
  import opened Day08Radix
  import opened Day08Circuits

  datatype SolveError = BadInput(cause: ParseError) | NoPoints | NeverConnected

  /** The pair limit both puzzle parts use. */
  const PAIR_LIMIT: nat := 1000

  /** The first chunk holds at most this many edges. */
  const FIRST_CHUNK: nat := 8192

  // ---------------------------------------------------------------------------
  // The answers, defined on one processing order of the edges
  // ---------------------------------------------------------------------------

  /** The circuits after connecting the ends of `es` one edge after another (an edge
      with an end outside the `n` points, which the solver never sees, is skipped). */
  function Labels(n: nat, es: seq<Edge>): (c: seq<nat>)
    ensures |c| == n
  {
    if es == [] then Start(n)
    else
      var c := Labels(n, es[..|es| - 1]);
      var e := es[|es| - 1];
      if e.a < n && e.b < n then Merge(c, e.a, e.b) else c
  }

  /** The edge whose connection first leaves a single circuit, if there is one in `es`. */
  function Connecting(n: nat, es: seq<Edge>): (r: Option<Edge>)
    ensures r.Some? ==> r.value.a < n && r.value.b < n
  {
    if es == [] then None
    else
      var front, e := es[..|es| - 1], es[|es| - 1];
      var before := Connecting(n, front);
      if before.Some? then before
      else
        var c := Labels(n, front);
        if e.a < n && e.b < n && c[e.a] != c[e.b] && ClassCount(Merge(c, e.a, e.b), n) == 1
        then Some(e)
        else None
  }

  /** Part two's product for the connecting edge: the two X coordinates multiplied on
      64 bits and read as unsigned. */
  function XProduct(points: seq<Point>, c: Option<Edge>): Option<nat>
    requires c.Some? ==> c.value.a < |points| && c.value.b < |points|
  {
    match c
    case None => None
    case Some(e) => Some(Wrap(points[e.a].x * points[e.b].x))
  }

  /** Part one's product of the three largest circuits. */
  function Product(t: Top): nat
  {
    t.first * t.second * t.third
  }

  /** Both answers for the edges taken in the order `order`: part one from the circuits
      after the first `min(limit, |order|)` edges (0 when that is none), part two from
      the connecting edge, an error when no edge connects everything. */
  function Answer(points: seq<Point>, order: seq<Edge>, limit: nat): Result<(nat, nat), SolveError>
  {
    var n := |points|;
    var l := if limit < |order| then limit else |order|;
    var top := if l == 0 then Top(0, 0, 0) else ClassTop(Labels(n, order[..l]));
    match XProduct(points, Connecting(n, order))
    case None => Err(NeverConnected)
    case Some(p2) => Ok((Product(top), p2))
  }

  /** The labels always name representatives. */
  lemma {:induction false} LabelsRepresentatives(n: nat, es: seq<Edge>)
    ensures Representatives(Labels(n, es))
  {
    if es != [] {
      var e := es[|es| - 1];
      LabelsRepresentatives(n, es[..|es| - 1]);
      if e.a < n && e.b < n {
        MergeRepresentatives(Labels(n, es[..|es| - 1]), e.a, e.b);
      }
    }
  }

  /** Once an edge has connected everything, later edges do not change which one it was. */
  lemma {:induction false} ConnectingExtends(n: nat, es: seq<Edge>, more: seq<Edge>)
    requires Connecting(n, es).Some?
    ensures Connecting(n, es + more) == Connecting(n, es)
    decreases |more|
  {
    if more == [] {
      assert es + more == es;
    } else {
      var front := more[..|more| - 1];
      ConnectingExtends(n, es, front);
      assert (es + more)[..|es + more| - 1] == es + front;
    }
  }

  /** The connecting edge is the one at which the count of circuits drops from two to
      one. */
  lemma {:induction false} ConnectingSome(n: nat, es: seq<Edge>)
    requires Connecting(n, es).Some?
    ensures exists k :: (0 <= k < |es| && es[k] == Connecting(n, es).value
      && ClassCount(Labels(n, es[..k]), n) == 2 && ClassCount(Labels(n, es[..k + 1]), n) == 1)
  {
    var front, e := es[..|es| - 1], es[|es| - 1];
    if Connecting(n, front).Some? {
      ConnectingSome(n, front);
      var k :| 0 <= k < |front| && front[k] == Connecting(n, front).value
        && ClassCount(Labels(n, front[..k]), n) == 2 && ClassCount(Labels(n, front[..k + 1]), n) == 1;
      assert front[..k] == es[..k] && front[..k + 1] == es[..k + 1];
    } else {
      var c := Labels(n, front);
      LabelsRepresentatives(n, front);
      MergeClassCount(c, e.a, e.b);
      assert es[..|es| - 1 + 1] == es;
    }
  }

  /** With two or more points and no connecting edge, the points stay in two or more
      circuits. */
  lemma {:induction false} ConnectingNone(n: nat, es: seq<Edge>)
    requires n >= 2 && Connecting(n, es).None?
    ensures ClassCount(Labels(n, es), n) >= 2
  {
    if es == [] {
      ClassCountStart(n, n);
    } else {
      var front, e := es[..|es| - 1], es[|es| - 1];
      ConnectingNone(n, front);
      var c := Labels(n, front);
      if e.a < n && e.b < n && c[e.a] != c[e.b] {
        LabelsRepresentatives(n, front);
        MergeClassCount(c, e.a, e.b);
      }
    }
  }

  // ---------------------------------------------------------------------------
  // Keeping the processed edges in order
  // ---------------------------------------------------------------------------

  /** Every edge before position `k` is no longer than any edge from `k` on. */
  ghost predicate Split(s: seq<Edge>, k: nat)
  {
    k <= |s| && forall i, j :: 0 <= i < k <= j < |s| ==> s[i].dist <= s[j].dist
  }

  /** The edge has two distinct points among `n` for ends and a 64-bit distance. */
  predicate Valid(n: nat, e: Edge)
  {
    e.a < e.b < n && e.dist < U64_LIMIT
  }

  predicate AllValid(n: nat, s: seq<Edge>)
  {
    forall k :: 0 <= k < |s| ==> Valid(n, s[k])
  }

  function DistOf(e: Edge): int
  {
    e.dist
  }

  lemma EdgeListValid(points: seq<Point>)
    ensures AllValid(|points|, EdgeList(points))
  {
    forall k | 0 <= k < |EdgeList(points)| ensures Valid(|points|, EdgeList(points)[k]) {
      EdgeListShape(points, k);
    }
  }

  /** Rearranging edges keeps them valid. */
  lemma ValidPermutation(n: nat, s: seq<Edge>, t: seq<Edge>)
    requires AllValid(n, s) && multiset(s) == multiset(t)
    ensures AllValid(n, t)
  {
    forall k | 0 <= k < |t| ensures Valid(n, t[k]) {
      assert t[k] in multiset(s);
    }
  }

  /** Rearranging the edges from `lo` on keeps them no shorter than those before `lo`. */
  lemma TailAbove(a: seq<Edge>, b: seq<Edge>, lo: nat)
    requires Split(a, lo) && |b| == |a|
    requires b[..lo] == a[..lo] && multiset(b[lo..]) == multiset(a[lo..])
    ensures Split(b, lo)
  {
    forall i, j | 0 <= i < lo <= j < |b| ensures b[i].dist <= b[j].dist {
      assert b[j] == b[lo..][j - lo];
      assert b[j] in multiset(a[lo..]);
      var k :| 0 <= k < |a[lo..]| && a[lo..][k] == b[j];
      assert b[i] == b[..lo][i] == a[..lo][i] == a[i];
      assert a[lo + k] == b[j];
    }
  }

  /** Rearranging the first `take` edges from `lo` keeps them no longer than the rest. */
  lemma HeadBelow(b: seq<Edge>, c: seq<Edge>, lo: nat, take: nat)
    requires lo + take <= |b| == |c|
    requires forall i, j :: lo <= i < lo + take <= j < |b| ==> b[i].dist <= b[j].dist
    requires c[lo + take..] == b[lo + take..] && multiset(c[lo..lo + take]) == multiset(b[lo..lo + take])
    ensures forall i, j :: lo <= i < lo + take <= j < |c| ==> c[i].dist <= c[j].dist
  {
    forall i, j | lo <= i < lo + take <= j < |c| ensures c[i].dist <= c[j].dist {
      assert c[i] == c[lo..lo + take][i - lo];
      assert c[i] in multiset(b[lo..lo + take]);
      var k :| 0 <= k < take && b[lo..lo + take][k] == c[i];
      assert b[lo + k] == c[i];
      assert c[j] == c[lo + take..][j - lo - take] == b[j];
    }
  }

  lemma MultisetThirds(s: seq<Edge>, lo: nat, hi: nat)
    requires lo <= hi <= |s|
    ensures multiset(s[lo..]) == multiset(s[lo..hi]) + multiset(s[hi..])
    ensures multiset(s) == multiset(s[..lo]) + multiset(s[lo..])
  {
    assert s[lo..] == s[lo..hi] + s[hi..];
    assert s == s[..lo] + s[lo..];
  }

  /** One chunk: after the selection and the sort, the sorted prefix has grown by
      `take` edges and the edges are still the same. */
  lemma ChunkStep(a: seq<Edge>, b: seq<Edge>, c: seq<Edge>, lo: nat, take: nat)
    requires lo + take <= |a| && |b| == |a| && |c| == |a|
    requires ByDist(a[..lo]) && Split(a, lo)
    requires b[..lo] == a[..lo] && multiset(b[lo..]) == multiset(a[lo..])
    requires forall i, j :: lo <= i < lo + take <= j < |b| ==> b[i].dist <= b[j].dist
    requires c[..lo] == b[..lo] && c[lo + take..] == b[lo + take..]
    requires multiset(c[lo..lo + take]) == multiset(b[lo..lo + take]) && ByDist(c[lo..lo + take])
    ensures ByDist(c[..lo + take]) && Split(c, lo + take)
    ensures multiset(c) == multiset(a) && c[..lo] == a[..lo]
  {
    TailAbove(a, b, lo);
    HeadBelow(b, c, lo, take);
    MultisetThirds(b, lo, lo + take);
    MultisetThirds(c, lo, lo + take);
    MultisetThirds(a, lo, lo + take);
    TailAbove(b, c, lo);
    var s := c[..lo + take];
    forall i, j | 0 <= i < j < |s| ensures s[i].dist <= s[j].dist {
      if j < lo {
        assert s[i] == a[..lo][i] && s[j] == a[..lo][j];
      } else if i >= lo {
        assert s[i] == c[lo..lo + take][i - lo] && s[j] == c[lo..lo + take][j - lo];
      }
    }
  }

  /** The order that finishes what the solver processed: the edges it used, then the
      others sorted. */
  lemma FinalOrder(s: seq<Edge>, seen: nat, upto: nat)
    requires seen <= upto <= |s| && ByDist(s[..upto]) && Split(s, upto)
    ensures ByDist(s[..seen] + SortBy(s[seen..], DistOf))
  {
    var r := SortBy(s[seen..], DistOf);
    var o := s[..seen] + r;
    forall i, j | 0 <= i < j < |o| ensures o[i].dist <= o[j].dist {
      if j < seen {
        assert o[i] == s[..upto][i] && o[j] == s[..upto][j];
      } else if i < seen {
        assert o[j] == r[j - seen];
        assert o[j] in multiset(s[seen..]);
        var k :| 0 <= k < |s[seen..]| && s[seen..][k] == o[j];
        assert o[i] == s[i] && o[j] == s[seen + k];
        if seen + k < upto {
          assert s[..upto][i] == s[i] && s[..upto][seen + k] == s[seen + k];
        }
      } else {
        assert o[i] == r[i - seen] && o[j] == r[j - seen];
        assert DistOf(r[i - seen]) <= DistOf(r[j - seen]);
      }
    }
  }

  // ---------------------------------------------------------------------------
  // The solver
  // ---------------------------------------------------------------------------

  /** `select_nth_unstable_by(take - 1, by distance)` on the run `edges[lo..]`, as the
      solver relies on it: afterwards the first `take` edges of the run are no longer
      than the others.  It is realised by sorting the whole run, which is one of the
      arrangements the library may produce. */
  method SelectSmallest(edges: array<Edge>, lo: nat, take: nat)
    requires lo + take <= edges.Length
    requires forall k :: lo <= k < edges.Length ==> edges[k].dist < U64_LIMIT
    modifies edges
    ensures edges[..lo] == old(edges[..lo])
    ensures multiset(edges[lo..]) == multiset(old(edges[lo..]))
    ensures multiset(edges[..]) == multiset(old(edges[..]))
    ensures forall i, j :: lo <= i < lo + take <= j < edges.Length ==> edges[i].dist <= edges[j].dist
  {
    ghost var a := edges[..];
    RadixSort(edges, lo, edges.Length);
    MultisetThirds(a, lo, lo);
    MultisetThirds(edges[..], lo, lo);
    assert edges[lo..] == edges[lo..edges.Length];
    assert old(edges[lo..]) == old(edges[lo..edges.Length]);
    forall i, j | lo <= i < lo + take <= j < edges.Length ensures edges[i].dist <= edges[j].dist {
      assert edges[i] == edges[lo..edges.Length][i - lo] && edges[j] == edges[lo..edges.Length][j - lo];
    }
  }

  /** What the solver's union-find state stands for once the edges `used` have been
      taken: the forest and its sizes are the circuits of those edges, `comps` counts
      them, and `part2` holds part two's product once an edge has connected everything. */
  ghost predicate Tracking(points: seq<Point>, used: seq<Edge>, parents: seq<nat>, sizes: seq<nat>,
                           comp: seq<nat>, rank: seq<nat>, comps: nat, part2: Option<nat>)
  {
    Forest(parents, comp, rank) && Sized(sizes, comp)
    && comp == Labels(|points|, used) && comps == ClassCount(comp, |points|)
    && part2 == XProduct(points, Connecting(|points|, used))
  }

  /** Part one's snapshot after `seen` of the edges `es`: taken exactly when `limit`
      edges have been seen, and left at zero when the limit is zero. */
  ghost predicate Snapshot(points: seq<Point>, es: seq<Edge>, seen: nat, limit: nat, done: bool, top: Top)
  {
    seen <= |es| && limit <= |es| && done == (limit == 0 || seen >= limit)
    && (limit == 0 ==> top == Top(0, 0, 0))
    && (0 < limit <= seen ==> top == ClassTop(Labels(|points|, es[..limit])))
  }

  /** The snapshot only looks at the edges already seen. */
  lemma SnapshotFrame(points: seq<Point>, a: seq<Edge>, b: seq<Edge>, seen: nat, limit: nat, done: bool, top: Top)
    requires Snapshot(points, a, seen, limit, done, top) && |b| == |a| && seen <= |a| && b[..seen] == a[..seen]
    ensures Snapshot(points, b, seen, limit, done, top)
  {
    if 0 < limit <= seen {
      assert b[..limit] == b[..seen][..limit] == a[..seen][..limit] == a[..limit];
    }
  }

  /** The edges before `k` are sorted and no longer than any edge from `k` on. */
  ghost predicate SortedUpTo(s: seq<Edge>, k: nat)
  {
    k <= |s| && ByDist(s[..k]) && Split(s, k)
  }

  /** The selection and sort that prepare the chunk `edges[lo..lo + take]`. */
  method PrepareChunk(edges: array<Edge>, lo: nat, take: nat, ghost n: nat)
    requires lo + take <= edges.Length && AllValid(n, edges[..]) && SortedUpTo(edges[..], lo)
    modifies edges
    ensures edges[..lo] == old(edges[..lo]) && multiset(edges[..]) == multiset(old(edges[..]))
    ensures AllValid(n, edges[..]) && SortedUpTo(edges[..], lo + take)
  {
    ghost var a0 := edges[..];
    SelectSmallest(edges, lo, take);
    ghost var b0 := edges[..];
    ValidPermutation(n, a0, b0);
    RadixSort(edges, lo, lo + take);
    ChunkStep(a0, b0, edges[..], lo, take);
    ValidPermutation(n, a0, edges[..]);
  }

  /** The body of the solver's edge loop, without the part-one snapshot: connect the
      ends of `e` and, when that leaves one circuit for the first time, record part
      two's product. */
  method JoinEdge(points: seq<Point>, e: Edge, parents: array<nat>, sizes: array<nat>,
                  ghost used: seq<Edge>, ghost comp: seq<nat>, ghost rank: seq<nat>,
                  comps: nat, part2: Option<nat>)
    returns (ghost comp': seq<nat>, ghost rank': seq<nat>, comps': nat, part2': Option<nat>)
    requires parents != sizes && parents.Length == |points| && e.a < |points| && e.b < |points|
    requires Tracking(points, used, parents[..], sizes[..], comp, rank, comps, part2)
    modifies parents, sizes
    ensures Tracking(points, used + [e], parents[..], sizes[..], comp', rank', comps', part2')
  {
    var n := |points|;
    assert (used + [e])[..|used + [e]| - 1] == used;
    var merged;
    merged, comp', rank' := Union(e.a, e.b, parents, sizes, comp, rank);
    comps', part2' := comps, part2;
    if merged {
      LabelsRepresentatives(n, used);
      MergeClassCount(comp, e.a, e.b);
      comps' := comps - 1;
      if part2.None? && comps' == 1 {
        part2' := Some(Wrap(points[e.a].x * points[e.b].x));
      }
    }
  }

  /** The solver's loop over one selected and sorted chunk `edges[lo..lo + take]`: each
      edge is connected, part one's snapshot is taken when `limit` edges have been seen,
      and the loop stops early once both parts are known.  Returns how many edges have
      been seen in all. */
  method RunChunk(points: seq<Point>, edges: array<Edge>, lo: nat, take: nat, limit: nat,
                  parents: array<nat>, sizes: array<nat>, ghost comp: seq<nat>, ghost rank: seq<nat>,
                  comps: nat, part2: Option<nat>, part1Done: bool, top: Top)
    returns (seen: nat, ghost comp': seq<nat>, ghost rank': seq<nat>, comps': nat,
             part2': Option<nat>, part1Done': bool, top': Top)
    requires parents != sizes && parents.Length == |points| && sizes.Length == |points|
    requires lo + take <= edges.Length && AllValid(|points|, edges[..])
    requires Tracking(points, edges[..lo], parents[..], sizes[..], comp, rank, comps, part2)
    requires Snapshot(points, edges[..], lo, limit, part1Done, top)
    modifies parents, sizes
    ensures lo <= seen <= lo + take
    ensures Tracking(points, edges[..seen], parents[..], sizes[..], comp', rank', comps', part2')
    ensures Snapshot(points, edges[..], seen, limit, part1Done', top')
    ensures seen < lo + take ==> part1Done' && part2'.Some?
  {
    seen, comp', rank', comps', part2', part1Done', top' := lo, comp, rank, comps, part2, part1Done, top;
    var j := 0;
    while j < take
      invariant 0 <= j <= take && seen == lo + j
      invariant Tracking(points, edges[..seen], parents[..], sizes[..], comp', rank', comps', part2')
      invariant Snapshot(points, edges[..], seen, limit, part1Done', top')
    {
      var e := edges[lo + j];
      assert Valid(|points|, edges[..][lo + j]);
      assert edges[..seen + 1] == edges[..seen] + [e];
      comp', rank', comps', part2' := JoinEdge(points, e, parents, sizes, edges[..seen], comp', rank', comps', part2');
      seen := seen + 1;
      if !part1Done' && seen == limit {
        ForestTop(parents[..], sizes[..], comp', rank');
        top' := TopThree(parents, sizes);
        part1Done' := true;
        if part2'.Some? {
          return;
        }
      }
      j := j + 1;
    }
  }

  /** The solver's state between chunks: `es` is the edge array, a permutation of `all`,
      sorted up to `upto`, of which the first `seen` edges have been connected. */
  ghost predicate Progress(points: seq<Point>, all: seq<Edge>, es: seq<Edge>, seen: nat, upto: nat,
                           limit: nat, parents: seq<nat>, sizes: seq<nat>, comp: seq<nat>, rank: seq<nat>,
                           comps: nat, part2: Option<nat>, done: bool, top: Top)
  {
    |es| == |all| && multiset(es) == multiset(all) && AllValid(|points|, es)
    && seen <= upto && SortedUpTo(es, upto)
    && Tracking(points, es[..seen], parents, sizes, comp, rank, comps, part2)
    && Snapshot(points, es, seen, limit, done, top)
  }

  /** The state in which the solver leaves its loop: part one's snapshot is taken, and
      either every edge has been seen or part two is known. */
  ghost predicate Stopped(points: seq<Point>, all: seq<Edge>, es: seq<Edge>, seen: nat, upto: nat,
                          pairLimit: nat, limit: nat, top: Top, part2: Option<nat>)
  {
    |points| > 0 && |es| == |all| && multiset(es) == multiset(all)
    && seen <= upto <= |es| && SortedUpTo(es, upto)
    && limit == (if pairLimit < |es| then pairLimit else |es|)
    && Snapshot(points, es, seen, limit, true, top)
    && part2 == XProduct(points, Connecting(|points|, es[..seen]))
    && (seen == |es| || part2.Some?)
  }

  lemma ProgressStopped(points: seq<Point>, all: seq<Edge>, es: seq<Edge>, seen: nat, upto: nat,
                        pairLimit: nat, limit: nat, parents: seq<nat>, sizes: seq<nat>, comp: seq<nat>,
                        rank: seq<nat>, comps: nat, part2: Option<nat>, top: Top)
    requires Progress(points, all, es, seen, upto, limit, parents, sizes, comp, rank, comps, part2, true, top)
    requires |points| > 0 && limit == (if pairLimit < |es| then pairLimit else |es|)
    requires seen == |es| || part2.Some?
    ensures Stopped(points, all, es, seen, upto, pairLimit, limit, top, part2)
  {
  }

  /** The solver's state before its loop: nothing connected, every point its own circuit. */
  lemma ProgressStart(points: seq<Point>, all: seq<Edge>, limit: nat)
    requires |points| > 0 && AllValid(|points|, all) && limit <= |all|
    ensures Progress(points, all, all, 0, 0, limit, Start(|points|), seq(|points|, _ => 1),
                     Start(|points|), seq(|points|, _ => 0), |points|, None, limit == 0, Top(0, 0, 0))
  {
    var n := |points|;
    ForestStart(n);
    ClassCountStart(n, n);
    assert all[..0] == [];
  }

  /** One round of the solver's loop: select and sort the chunk `edges[lo..lo + take]`,
      then connect its edges. */
  method Round(points: seq<Point>, edges: array<Edge>, lo: nat, take: nat, limit: nat,
               parents: array<nat>, sizes: array<nat>, ghost all: seq<Edge>,
               ghost comp: seq<nat>, ghost rank: seq<nat>, comps: nat, part2: Option<nat>,
               part1Done: bool, top: Top)
    returns (seen: nat, ghost upto: nat, ghost cur: seq<Edge>, ghost comp': seq<nat>, ghost rank': seq<nat>,
             comps': nat, part2': Option<nat>, part1Done': bool, top': Top)
    requires parents != sizes && parents.Length == |points| && sizes.Length == |points|
    requires lo + take <= edges.Length
    requires Progress(points, all, edges[..], lo, lo, limit, parents[..], sizes[..], comp, rank,
                      comps, part2, part1Done, top)
    modifies edges, parents, sizes
    ensures edges[..] == cur && upto == lo + take && lo <= seen <= upto
    ensures Progress(points, all, cur, seen, upto, limit, parents[..], sizes[..], comp', rank',
                     comps', part2', part1Done', top')
    ensures seen < lo + take ==> part1Done' && part2'.Some?
  {
    upto := lo + take;
    ghost var a0 := edges[..];
    PrepareChunk(edges, lo, take, |points|);
    cur := edges[..];
    assert SortedUpTo(cur, upto);
    assert cur[..lo] == a0[..lo];
    SnapshotFrame(points, a0, cur, lo, limit, part1Done, top);
    seen, comp', rank', comps', part2', part1Done', top' :=
      RunChunk(points, edges, lo, take, limit, parents, sizes, comp, rank, comps, part2, part1Done, top);
    assert edges[..] == cur;
  }

  /** What the solver returns after its loop, whichever way the loop ended. */
  lemma Finish(points: seq<Point>, all: seq<Edge>, es: seq<Edge>, seen: nat, upto: nat, pairLimit: nat,
               limit: nat, top: Top, part2: Option<nat>)
    requires Stopped(points, all, es, seen, upto, pairLimit, limit, top, part2)
    ensures multiset(es[..seen] + SortBy(es[seen..], DistOf)) == multiset(all)
    ensures ByDist(es[..seen] + SortBy(es[seen..], DistOf))
    ensures Answer(points, es[..seen] + SortBy(es[seen..], DistOf), pairLimit)
      == match part2 case None => Err(NeverConnected) case Some(p2) => Ok((Product(top), p2))
  {
    FinishOrder(all, es, seen, upto);
    if 0 < limit {
      assert es[..seen][..limit] == es[..limit];
    }
    assert |es[..seen]| + |SortBy(es[seen..], DistOf)| == |es|;
    AnswerOfPrefix(points, es[..seen], SortBy(es[seen..], DistOf), pairLimit, limit, top, part2);
  }

  /** The order the solver has followed: the edges it saw, then the rest by distance. */
  lemma FinishOrder(all: seq<Edge>, es: seq<Edge>, seen: nat, upto: nat)
    requires multiset(es) == multiset(all) && seen <= upto <= |es| && SortedUpTo(es, upto)
    ensures multiset(es[..seen] + SortBy(es[seen..], DistOf)) == multiset(all)
    ensures ByDist(es[..seen] + SortBy(es[seen..], DistOf))
  {
    FinalOrder(es, seen, upto);
    assert es == es[..seen] + es[seen..];
  }

  /** The answers for an order whose first edges `pre` already decided both parts. */
  lemma {:induction false} AnswerOfPrefix(points: seq<Point>, pre: seq<Edge>, rest: seq<Edge>, pairLimit: nat, limit: nat,
                       top: Top, part2: Option<nat>)
    requires limit == (if pairLimit < |pre| + |rest| then pairLimit else |pre| + |rest|)
    requires limit == 0 ==> top == Top(0, 0, 0)
    requires 0 < limit ==> limit <= |pre| && top == ClassTop(Labels(|points|, pre[..limit]))
    requires part2 == XProduct(points, Connecting(|points|, pre))
    requires rest == [] || part2.Some?
    ensures Answer(points, pre + rest, pairLimit)
      == match part2 case None => Err(NeverConnected) case Some(p2) => Ok((Product(top), p2))
  {
    var order := pre + rest;
    if rest == [] {
      assert order == pre;
    } else {
      ConnectingExtends(|points|, pre, rest);
    }
    if 0 < limit {
      assert order[..limit] == pre[..limit];
    }
  }

  /** `solve_with_limit`: the answers are those of connecting all pairs in one
      nondecreasing order of distance, returned as `order`, however the chunks fall. */
  method SolveWithLimit(s: string, pairLimit: nat)
    returns (r: Result<(nat, nat), SolveError>, ghost order: seq<Edge>)
    ensures Points(s).Err? ==> r == Err(BadInput(Points(s).error))
    ensures Points(s).Ok? && |Points(s).value| == 0 ==> r == Err(NoPoints)
    ensures Points(s).Ok? && |Points(s).value| > 0 ==>
      multiset(order) == multiset(EdgeList(Points(s).value)) && ByDist(order)
      && r == Answer(Points(s).value, order, pairLimit)
  {
    var parsed := ParsePoints(s);
    if parsed.Err? {
      return Err(BadInput(parsed.error)), [];
    }
    var points := parsed.value;
    var n := |points|;
    if n == 0 {
      return Err(NoPoints), [];
    }
    r, order := Connect(points, pairLimit);
  }

  /** The solver once the points are read: build the edges, then connect them chunk
      by chunk. */
  method Connect(points: seq<Point>, pairLimit: nat)
    returns (r: Result<(nat, nat), SolveError>, ghost order: seq<Edge>)
    requires |points| > 0
    ensures multiset(order) == multiset(EdgeList(points)) && ByDist(order)
    ensures r == Answer(points, order, pairLimit)
  {
    var n := |points|;
    var edges := BuildEdges(points);
    ghost var all := edges[..];
    EdgeListValid(points);
    var len := edges.Length;
    var limit := if pairLimit < len then pairLimit else len;
    var parents := new nat[n](i => i);
    var sizes := new nat[n](_ => 1);
    assert parents[..] == Start(n) && sizes[..] == seq(n, _ => 1);
    ghost var comp := Start(n);
    ghost var rank := seq(n, _ => 0);
    var comps: nat := n;
    var part1Done := limit == 0;
    var top := Top(0, 0, 0);
    var part2: Option<nat> := None;
    ProgressStart(points, all, limit);
    var processed: nat := 0;
    var seen: nat := 0;
    ghost var sortedTo: nat := 0;
    var chunk := if len < 1 then 1 else if len < FIRST_CHUNK then len else FIRST_CHUNK;
    ghost var cur := edges[..];
    while processed < len
      invariant processed == seen == sortedTo <= len && chunk >= 1 && edges[..] == cur
      invariant Progress(points, all, cur, seen, sortedTo, limit, parents[..], sizes[..], comp, rank,
                         comps, part2, part1Done, top)
    {
      var take := if chunk < len - processed then chunk else len - processed;
      if take == 0 {
        break;
      }
      seen, sortedTo, cur, comp, rank, comps, part2, part1Done, top :=
        Round(points, edges, processed, take, limit, parents, sizes, all, comp, rank, comps, part2, part1Done, top);
      if part1Done && part2.Some? {
        ProgressStopped(points, all, cur, seen, sortedTo, pairLimit, limit, parents[..], sizes[..],
                        comp, rank, comps, part2, top);
        break;
      }
      processed := processed + take;
      var remaining := len - processed;
      if remaining == 0 {
        ProgressStopped(points, all, cur, seen, sortedTo, pairLimit, limit, parents[..], sizes[..],
                        comp, rank, comps, part2, top);
        break;
      }
      chunk := if 2 * chunk < remaining then 2 * chunk else remaining;
    }
    if !part1Done {
      // Every way out of the loop has passed `edges_seen == limit`, so the source's
      // fallback snapshot here never runs.
      assert false;
    }
    var p1 := Product(top);
    Finish(points, all, cur, seen, sortedTo, pairLimit, limit, top, part2);
    order := cur[..seen] + SortBy(cur[seen..], DistOf);
    match part2
    case None =>
      r := Err(NeverConnected);
    case Some(p2) =>
      r := Ok((p1, p2));
  }

  /** `both`: the two answers for the puzzle's pair limit. */
  method Both(s: string) returns (r: Result<(nat, nat), SolveError>, ghost order: seq<Edge>)
    ensures Points(s).Err? ==> r == Err(BadInput(Points(s).error))
    ensures Points(s).Ok? && |Points(s).value| == 0 ==> r == Err(NoPoints)
    ensures Points(s).Ok? && |Points(s).value| > 0 ==>
      multiset(order) == multiset(EdgeList(Points(s).value)) && ByDist(order)
      && r == Answer(Points(s).value, order, PAIR_LIMIT)
  {
    r, order := SolveWithLimit(s, PAIR_LIMIT);
  }

  /** Part 1: the product of the three largest circuits after the first 1000 pairs. */
  method Part1(s: string) returns (r: Result<nat, SolveError>, ghost order: seq<Edge>)
    ensures Points(s).Err? ==> r == Err(BadInput(Points(s).error))
    ensures Points(s).Ok? && |Points(s).value| == 0 ==> r == Err(NoPoints)
    ensures Points(s).Ok? && |Points(s).value| > 0 ==>
      && multiset(order) == multiset(EdgeList(Points(s).value)) && ByDist(order)
      && var a := Answer(Points(s).value, order, PAIR_LIMIT);
         (a.Ok? ==> r == Ok(a.value.0)) && (a.Err? ==> r == Err(a.error))
  {
    var both;
    both, order := Both(s);
    r := if both.Ok? then Ok(both.value.0) else Err(both.error);
  }

  /** Part 2: the X product of the pair that first leaves a single circuit. */
  method Part2(s: string) returns (r: Result<nat, SolveError>, ghost order: seq<Edge>)
    ensures Points(s).Err? ==> r == Err(BadInput(Points(s).error))
    ensures Points(s).Ok? && |Points(s).value| == 0 ==> r == Err(NoPoints)
    ensures Points(s).Ok? && |Points(s).value| > 0 ==>
      && multiset(order) == multiset(EdgeList(Points(s).value)) && ByDist(order)
      && var a := Answer(Points(s).value, order, PAIR_LIMIT);
         (a.Ok? ==> r == Ok(a.value.1)) && (a.Err? ==> r == Err(a.error))
  {
    var both;
    both, order := Both(s);
    r := if both.Ok? then Ok(both.value.1) else Err(both.error);
  }
}
