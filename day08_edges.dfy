/** Day 8, the edge list: every pair of points `a < b` with its squared distance,
    written row by row into one preallocated buffer (`build_edges`). */
module Day08Edges {
  import opened Common
  import Day08

  type Point = Day08.Point

  /** A candidate connection: the squared distance and the two point indices. */
  datatype Edge = Edge(dist: nat, a: nat, b: nat)

  /** The squared distance as the solver stores it: computed on 64-bit integers and
      reinterpreted as unsigned, so it is the true value modulo 2^64. */
  function Dist(p: Point, q: Point): (d: nat)
  {
    var dx, dy, dz := p.x - q.x, p.y - q.y, p.z - q.z;
    Wrap(dx * dx + dy * dy + dz * dz)
  }
  function Wrap(v: int): (d: nat)
    ensures d < U64_LIMIT
    ensures 0 <= v < U64_LIMIT ==> d == v
  { v % U64_LIMIT }

  /** The two ends of an edge, `a < b`. */
  datatype Ends = Ends(a: nat, b: nat)

  predicate InRange(n: nat, ps: seq<Ends>)
  {
    forall k :: 0 <= k < |ps| ==> ps[k].a < ps[k].b < n
  }

  /** The edge between two of the points, with their distance (ends outside the list of
      points, which the edge list never holds, get distance 0). */
  function EdgeOf(points: seq<Point>, p: Ends): Edge
  {
    if p.a < |points| && p.b < |points| then Edge(Dist(points[p.a], points[p.b]), p.a, p.b)
    else Edge(0, p.a, p.b)
  }

  /** The edges of a list of ends, each with its distance. */
  function Attach(points: seq<Point>, ps: seq<Ends>): seq<Edge>
  {
    seq(|ps|, k requires 0 <= k < |ps| => EdgeOf(points, ps[k]))
  }

  /** Row `a` of the list up to (not including) partner `hi`: the ends `(a, j)` for
      `a < j < hi`, in increasing `j`. */
  function RowEnds(a: nat, hi: nat): seq<Ends>
    decreases hi
  {
    if hi <= a + 1 then [] else RowEnds(a, hi - 1) + [Ends(a, hi - 1)]
  }

  /** The rows `0 .. i-1` of `n` points, one after the other. */
  function EndsBefore(n: nat, i: nat): seq<Ends>
    requires i <= n
  {
    if i == 0 then [] else EndsBefore(n, i - 1) + RowEnds(i - 1, n)
  }

  /** Where row `i` starts: the number of pairs whose first index is below `i`. */
  function Offset(n: nat, i: nat): nat
    requires i <= n
  {
    if i == 0 then 0 else Offset(n, i - 1) + (n - i)
  }

  /** Row `i` starts at `i * (2n - i - 1) / 2`. */
  lemma {:induction false} OffsetClosed(n: nat, i: nat)
    requires i <= n
    ensures 2 * Offset(n, i) == i * (2 * n - i - 1)
  {
    if i > 0 {
      OffsetClosed(n, i - 1);
    }
  }

  lemma {:induction false} OffsetMonotone(n: nat, i: nat, j: nat)
    requires i <= j <= n
    ensures Offset(n, i) <= Offset(n, j)
    decreases j - i
  {
    if i < j {
      OffsetMonotone(n, i, j - 1);
    }
  }

  /** Row `a` holds `(a, b)` at position `b - a - 1`, and nothing else. */
  lemma {:induction false} RowEndsAt(a: nat, hi: nat)
    ensures |RowEnds(a, hi)| == if hi <= a + 1 then 0 else hi - a - 1
    ensures forall k :: 0 <= k < |RowEnds(a, hi)| ==> RowEnds(a, hi)[k] == Ends(a, a + 1 + k)
    decreases hi
  {
    if hi > a + 1 {
      RowEndsAt(a, hi - 1);
    }
  }

  lemma {:induction false} EndsBeforeShape(n: nat, i: nat)
    requires i <= n
    ensures |EndsBefore(n, i)| == Offset(n, i)
    ensures InRange(n, EndsBefore(n, i))
    ensures forall k :: 0 <= k < |EndsBefore(n, i)| ==> EndsBefore(n, i)[k].a < i
  {
    if i > 0 {
      EndsBeforeShape(n, i - 1);
      RowEndsAt(i - 1, n);
    }
  }

  /** The rows written so far stay where they are as later rows are appended. */
  lemma {:induction false} EndsBeforePrefix(n: nat, i: nat, j: nat)
    requires i <= j <= n
    ensures |EndsBefore(n, i)| <= |EndsBefore(n, j)|
    ensures EndsBefore(n, j)[..|EndsBefore(n, i)|] == EndsBefore(n, i)
    decreases j - i
  {
    if i < j {
      EndsBeforePrefix(n, i, j - 1);
      var x, y := EndsBefore(n, i), EndsBefore(n, j - 1);
      assert (y + RowEnds(j - 1, n))[..|x|] == y[..|x|];
    }
  }

  /** The ends of all pairs of `n` points, in the order `build_edges` visits them. */
  function AllEnds(n: nat): seq<Ends>
  {
    EndsBefore(n, n)
  }

  /** The whole list `build_edges` writes. */
  function EdgeList(points: seq<Point>): seq<Edge>
  {
    Attach(points, AllEnds(|points|))
  }

  /** `build_edges` writes `n(n-1)/2` edges. */
  lemma EdgeListLength(points: seq<Point>)
    ensures 2 * |EdgeList(points)| == |points| * (|points| - 1)
  {
    EndsBeforeShape(|points|, |points|);
    OffsetClosed(|points|, |points|);
  }

  /** Every pair `a < b` of ends is listed, at index `Offset(n, a) + (b - a - 1)`. */
  lemma {:induction false} AllEndsAt(n: nat, a: nat, b: nat)
    requires a < b < n
    ensures Offset(n, a) + (b - a - 1) < |AllEnds(n)|
    ensures AllEnds(n)[Offset(n, a) + (b - a - 1)] == Ends(a, b)
  {
    var before := EndsBefore(n, a);
    var row := RowEnds(a, n);
    EndsBeforeShape(n, a);
    RowEndsAt(a, n);
    EndsBeforePrefix(n, a + 1, n);
    assert EndsBefore(n, a + 1) == before + row;
    PrefixAt(AllEnds(n), before, row, b - a - 1);
  }

  /** An entry of `y` in a sequence that starts with `x + y`. */
  lemma PrefixAt<T>(all: seq<T>, x: seq<T>, y: seq<T>, k: nat)
    requires |x + y| <= |all| && all[..|x + y|] == x + y && k < |y|
    ensures all[|x| + k] == y[k]
  {
    assert all[..|x + y|][|x| + k] == (x + y)[|x| + k];
  }

  /** Every pair `a < b` of points is in the list, with its distance. */
  lemma EdgeListAt(points: seq<Point>, a: nat, b: nat)
    requires a < b < |points|
    ensures Offset(|points|, a) + (b - a - 1) < |EdgeList(points)|
    ensures EdgeList(points)[Offset(|points|, a) + (b - a - 1)] == Edge(Dist(points[a], points[b]), a, b)
  {
    AllEndsAt(|points|, a, b);
  }

  /** Every entry of the list is a pair `a < b` of points with their distance. */
  lemma EdgeListShape(points: seq<Point>, k: nat)
    requires k < |EdgeList(points)|
    ensures var e := EdgeList(points)[k];
      e.a < e.b < |points| && e.dist == Dist(points[e.a], points[e.b])
  {
    EndsBeforeShape(|points|, |points|);
  }

  /** The pairs are listed in strictly increasing lexicographic order, so none twice. */
  lemma AllEndsIncreasing(n: nat, k: nat, l: nat)
    requires k < l < |AllEnds(n)|
    ensures var p, q := AllEnds(n)[k], AllEnds(n)[l]; p.a < q.a || (p.a == q.a && p.b < q.b)
  {
    EndsIncreasing(n, n, k, l);
  }

  lemma {:induction false} EndsIncreasing(n: nat, i: nat, k: nat, l: nat)
    requires i <= n && k < l < |EndsBefore(n, i)|
    ensures var p, q := EndsBefore(n, i)[k], EndsBefore(n, i)[l];
      p.a < q.a || (p.a == q.a && p.b < q.b)
  {
    var before := EndsBefore(n, i - 1);
    var row := RowEnds(i - 1, n);
    EndsBeforeShape(n, i - 1);
    RowEndsAt(i - 1, n);
    var s := before + row;
    if l < |before| {
      EndsIncreasing(n, i - 1, k, l);
      assert s[k] == before[k] && s[l] == before[l];
    } else if k < |before| {
      assert s[k] == before[k] && s[l] == row[l - |before|];
    } else {
      assert s[k] == row[k - |before|] && s[l] == row[l - |before|];
    }
  }

  lemma AttachSnoc(points: seq<Point>, ps: seq<Ends>, p: Ends)
    ensures Attach(points, ps + [p]) == Attach(points, ps) + [EdgeOf(points, p)]
  {
    assert forall k :: 0 <= k < |ps| ==> (ps + [p])[k] == ps[k];
  }

  /** `n * (n - 1) / 2`, the number of pairs, which is where the last row ends. */
  method PairTotal(n: nat) returns (total: nat)
    requires n >= 1
    ensures total == Offset(n, n)
  {
    OffsetClosed(n, n);
    NatMul(n, n - 1);
    total := n * (n - 1) / 2;
    DivModUnique(n * (n - 1), 2, Offset(n, n), 0);
  }

  /** `build_edges`: fills a buffer of `n(n-1)/2` edges row by row. */
  method BuildEdges(points: seq<Point>) returns (edges: array<Edge>)
    requires |points| >= 1
    ensures fresh(edges)
    ensures edges[..] == EdgeList(points)
  {
    var n := |points|;
    var total := PairTotal(n);
    edges := new Edge[total](_ => Edge(0, 0, 0));
    var idx := 0;
    for i := 0 to n
      invariant idx == Offset(n, i) <= total
      invariant edges[..idx] == Attach(points, EndsBefore(n, i))
    {
      OffsetMonotone(n, i + 1, n);
      idx := FillRow(points, edges, i, idx);
    }
    assert edges[..] == edges[..idx];
  }

  /** The inner loop of `build_edges`: row `i` is written from `idx` on. */
  method FillRow(points: seq<Point>, edges: array<Edge>, i: nat, idx0: nat) returns (idx: nat)
    requires i < |points| && idx0 + (|points| - i - 1) <= edges.Length
    requires edges[..idx0] == Attach(points, EndsBefore(|points|, i))
    modifies edges
    ensures idx == idx0 + (|points| - i - 1)
    ensures edges[..idx] == Attach(points, EndsBefore(|points|, i + 1))
  {
    var n := |points|;
    idx := idx0;
    ghost var before := EndsBefore(n, i);
    RowEndsAt(i, n);
    assert before + RowEnds(i, i + 1) == before;
    for j := i + 1 to n
      invariant idx == idx0 + (j - i - 1)
      invariant edges[..idx] == Attach(points, before + RowEnds(i, j))
    {
      var dist := Dist(points[i], points[j]);
      Put(edges, idx, Edge(dist, i, j));
      RowSnoc(points, before, i, j);
      idx := idx + 1;
    }
  }

  /** Writes `e` at `idx`, right after the entries already written. */
  method Put(edges: array<Edge>, idx: nat, e: Edge)
    requires idx < edges.Length
    modifies edges
    ensures edges[..idx + 1] == old(edges[..idx]) + [e]
  {
    edges[idx] := e;
    assert edges[..idx + 1] == edges[..idx] + [e];
  }

  /** Appending the pair `(i, j)` to row `i` appends its edge to the list. */
  lemma RowSnoc(points: seq<Point>, before: seq<Ends>, i: nat, j: nat)
    requires i < j < |points|
    ensures Attach(points, before + RowEnds(i, j + 1))
      == Attach(points, before + RowEnds(i, j)) + [Edge(Dist(points[i], points[j]), i, j)]
  {
    assert before + RowEnds(i, j + 1) == (before + RowEnds(i, j)) + [Ends(i, j)];
    AttachSnoc(points, before + RowEnds(i, j), Ends(i, j));
  }
}
