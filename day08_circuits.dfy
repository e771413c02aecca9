/** Day 8, the circuits: the union-find forest over the junction boxes (`find` with
    path compression, `union` by size) and `top_three`, the three largest circuit
    sizes.  Besides the parent and size arrays, the proofs track two ghost sequences:
    `comp`, the root of every node, and `rank`, a height that strictly increases along
    every parent link, which is what makes the walks to the root terminate. */
module Day08Circuits {

  // ---------------------------------------------------------------------------
  // Labellings: every node named by the representative of its circuit
  // ---------------------------------------------------------------------------

  /** The number of nodes labelled `v`. */
  function Count(c: seq<nat>, v: nat): nat
  {
    if c == [] then 0 else Count(c[..|c| - 1], v) + (if c[|c| - 1] == v then 1 else 0)
  }

  /** The number of representatives among the first `k` nodes. */
  function ClassCount(c: seq<nat>, k: nat): nat
    requires k <= |c|
  {
    if k == 0 then 0 else ClassCount(c, k - 1) + (if c[k - 1] == k - 1 then 1 else 0)
  }

  /** Every node in a circuit of its own. */
  function Start(n: nat): seq<nat>
  {
    seq(n, i => i)
  }

  /** Label `f` renamed to `t`. */
  function Relabel(c: seq<nat>, f: nat, t: nat): seq<nat>
  {
    seq(|c|, i requires 0 <= i < |c| => if c[i] == f then t else c[i])
  }

  /** Every label is a node that carries its own label. */
  predicate Representatives(c: seq<nat>)
  {
    forall i :: 0 <= i < |c| ==> c[i] < |c| && c[c[i]] == c[i]
  }

  /** The circuit that absorbs the other in `union(a, b)`: the larger, `a`'s on a tie. */
  function Winner(c: seq<nat>, a: nat, b: nat): nat
    requires a < |c| && b < |c|
  {
    if Count(c, c[a]) < Count(c, c[b]) then c[b] else c[a]
  }

  function Loser(c: seq<nat>, a: nat, b: nat): nat
    requires a < |c| && b < |c|
  {
    if Count(c, c[a]) < Count(c, c[b]) then c[a] else c[b]
  }

  /** The circuits after `union(a, b)`: unchanged when `a` and `b` already share one,
      otherwise the smaller circuit takes the larger one's name. */
  function Merge(c: seq<nat>, a: nat, b: nat): seq<nat>
    requires a < |c| && b < |c|
  {
    if c[a] == c[b] then c else Relabel(c, Loser(c, a, b), Winner(c, a, b))
  }

  lemma {:induction false} CountSnoc(c: seq<nat>, x: nat, v: nat)
    ensures Count(c + [x], v) == Count(c, v) + (if x == v then 1 else 0)
  {
    assert (c + [x])[..|c|] == c;
  }

  /** Renaming `f` to `t` moves all of `f`'s nodes to `t` and leaves the rest alone. */
  lemma {:induction false} RelabelCount(c: seq<nat>, f: nat, t: nat, v: nat)
    requires f != t
    ensures Count(Relabel(c, f, t), v)
      == if v == t then Count(c, t) + Count(c, f) else if v == f then 0 else Count(c, v)
  {
    if c != [] {
      var front := c[..|c| - 1];
      RelabelCount(front, f, t, v);
      assert Relabel(c, f, t)[..|c| - 1] == Relabel(front, f, t);
    }
  }

  /** A label no node carries counts zero. */
  lemma {:induction false} CountAbsent(c: seq<nat>, v: nat)
    requires forall i :: 0 <= i < |c| ==> c[i] != v
    ensures Count(c, v) == 0
  {
    if c != [] {
      CountAbsent(c[..|c| - 1], v);
    }
  }

  /** At the start every circuit has one node. */
  lemma {:induction false} CountStart(n: nat, v: nat)
    requires v < n
    ensures Count(Start(n), v) == 1
  {
    if v < n - 1 {
      CountStart(n - 1, v);
    } else {
      CountAbsent(Start(n - 1), v);
    }
    assert Start(n)[..n - 1] == Start(n - 1);
  }

  lemma {:induction false} ClassCountStart(n: nat, k: nat)
    requires k <= n
    ensures ClassCount(Start(n), k) == k
  {
    if k > 0 {
      ClassCountStart(n, k - 1);
    }
  }

  /** Two nodes share a circuit after `union(a, b)` exactly when they shared one before
      or each was in the circuit of `a` or of `b`. */
  lemma MergeJoins(c: seq<nat>, a: nat, b: nat, i: nat, j: nat)
    requires a < |c| && b < |c| && i < |c| && j < |c|
    ensures Merge(c, a, b)[i] == Merge(c, a, b)[j] <==>
      c[i] == c[j] || ((c[i] == c[a] || c[i] == c[b]) && (c[j] == c[a] || c[j] == c[b]))
  {
  }

  lemma MergeRepresentatives(c: seq<nat>, a: nat, b: nat)
    requires Representatives(c) && a < |c| && b < |c|
    ensures Representatives(Merge(c, a, b)) && |Merge(c, a, b)| == |c|
  {
  }

  /** Joining two circuits leaves one representative fewer. */
  lemma {:induction false} MergeClassCount(c: seq<nat>, a: nat, b: nat)
    requires Representatives(c) && a < |c| && b < |c| && c[a] != c[b]
    ensures ClassCount(Merge(c, a, b), |c|) + 1 == ClassCount(c, |c|)
  {
    RelabelClassCount(c, Loser(c, a, b), Winner(c, a, b), |c|);
  }

  lemma {:induction false} RelabelClassCount(c: seq<nat>, f: nat, t: nat, k: nat)
    requires Representatives(c) && f < |c| && t < |c| && f != t && c[f] == f && c[t] == t && k <= |c|
    ensures ClassCount(Relabel(c, f, t), k) + (if f < k then 1 else 0) == ClassCount(c, k)
  {
    if k > 0 {
      RelabelClassCount(c, f, t, k - 1);
    }
  }

  /** With only `r` a representative, the first `k` nodes hold one exactly when `r < k`. */
  lemma {:induction false} ClassCountOnly(c: seq<nat>, r: nat, k: nat)
    requires r < |c| && c[r] == r && k <= |c|
    requires forall i :: 0 <= i < |c| && c[i] == i ==> i == r
    ensures ClassCount(c, k) == if r < k then 1 else 0
  {
    if k > 0 {
      ClassCountOnly(c, r, k - 1);
    }
  }

  lemma {:induction false} ClassCountGrows(c: seq<nat>, k: nat, l: nat)
    requires k <= l <= |c|
    ensures ClassCount(c, k) <= ClassCount(c, l)
    decreases l - k
  {
    if k < l {
      ClassCountGrows(c, k, l - 1);
    }
  }

  /** One circuit means every node carries the same label, and the converse. */
  lemma {:induction false} OneClass(c: seq<nat>)
    requires Representatives(c)
    ensures ClassCount(c, |c|) == 1 <==> |c| > 0 && forall i, j :: 0 <= i < j < |c| ==> c[i] == c[j]
  {
    if |c| > 0 && forall i, j :: 0 <= i < j < |c| ==> c[i] == c[j] {
      var r := c[0];
      forall i | 0 <= i < |c| && c[i] == i ensures i == r {
        if i > 0 {
          assert c[0] == c[i];
        }
      }
      ClassCountOnly(c, r, |c|);
    }
    if ClassCount(c, |c|) == 1 {
      forall i, j | 0 <= i < j < |c| ensures c[i] == c[j] {
        if c[i] != c[j] {
          if c[i] < c[j] {
            TwoClasses(c, c[i], c[j]);
          } else {
            TwoClasses(c, c[j], c[i]);
          }
          assert false;
        }
      }
    }
  }

  /** Two representatives make at least two circuits. */
  lemma {:induction false} TwoClasses(c: seq<nat>, u: nat, v: nat)
    requires u < v < |c| && c[u] == u && c[v] == v
    ensures ClassCount(c, |c|) >= 2
  {
    ClassCountGrows(c, u + 1, v);
    ClassCountGrows(c, v + 1, |c|);
  }

  /** The circuit sizes `Count(c, v)`, summed over the labels below `m`. */
  function SumCounts(c: seq<nat>, m: nat): nat
  {
    if m == 0 then 0 else SumCounts(c, m - 1) + Count(c, m - 1)
  }

  lemma {:induction false} SumCountsSnoc(c: seq<nat>, x: nat, m: nat)
    ensures SumCounts(c + [x], m) == SumCounts(c, m) + (if x < m then 1 else 0)
  {
    if m > 0 {
      SumCountsSnoc(c, x, m - 1);
      CountSnoc(c, x, m - 1);
    }
  }

  /** Every node is counted once: the circuit sizes add up to the number of nodes. */
  lemma {:induction false} CountsTotal(c: seq<nat>, m: nat)
    requires forall i :: 0 <= i < |c| ==> c[i] < m
    ensures SumCounts(c, m) == |c|
  {
    if c == [] {
      SumCountsEmpty(m);
    } else {
      var front := c[..|c| - 1];
      CountsTotal(front, m);
      assert c == front + [c[|c| - 1]];
      SumCountsSnoc(front, c[|c| - 1], m);
    }
  }

  lemma {:induction false} SumCountsEmpty(m: nat)
    ensures SumCounts([], m) == 0
  {
    if m > 0 {
      SumCountsEmpty(m - 1);
    }
  }

  // ---------------------------------------------------------------------------
  // The parent forest
  // ---------------------------------------------------------------------------

  /** Node `i` of the forest: its parent is a node of the same circuit, its circuit's
      representative is a root, a root is its own representative, and the rank rises
      from `i` to its parent and no higher than the root's. */
  ghost predicate Linked(p: seq<nat>, comp: seq<nat>, rank: seq<nat>, i: nat)
    requires |comp| == |p| && |rank| == |p| && i < |p|
  {
    p[i] < |p| && comp[i] < |p| && p[comp[i]] == comp[i] && comp[p[i]] == comp[i]
    && (p[i] == i ==> comp[i] == i)
    && (p[i] != i ==> rank[i] < rank[p[i]])
    && rank[i] <= rank[comp[i]]
  }

  /** `p` is a forest whose roots are the labels of `comp`. */
  ghost predicate Forest(p: seq<nat>, comp: seq<nat>, rank: seq<nat>)
  {
    |comp| == |p| && |rank| == |p| && forall i :: 0 <= i < |p| ==> Linked(p, comp, rank, i)
  }

  /** Every root records the size of its circuit. */
  ghost predicate Sized(sizes: seq<nat>, comp: seq<nat>)
  {
    |sizes| == |comp| && forall r :: 0 <= r < |comp| && comp[r] == r ==> sizes[r] == Count(comp, r)
  }

  /** How far `x` sits below the rank of its root; it shrinks along every parent link. */
  ghost function Height(comp: seq<nat>, rank: seq<nat>, x: nat): nat
  {
    if x < |comp| && x < |rank| && comp[x] < |rank| && rank[x] <= rank[comp[x]]
    then rank[comp[x]] - rank[x] else 0
  }

  /** The root reached by following parents from `x`; it is the label of `x`, so the
      labelling is the one the parent array determines. */
  ghost function Root(p: seq<nat>, comp: seq<nat>, rank: seq<nat>, x: nat): (r: nat)
    requires Forest(p, comp, rank) && x < |p|
    ensures r == comp[x]
    decreases Height(comp, rank, x)
  {
    assert Linked(p, comp, rank, x);
    if p[x] == x then x
    else
      assert Linked(p, comp, rank, p[x]);
      Root(p, comp, rank, p[x])
  }

  /** The nodes the walk from `x` passes before it reaches the root. */
  ghost function Path(p: seq<nat>, comp: seq<nat>, rank: seq<nat>, x: nat): set<nat>
    requires Forest(p, comp, rank) && x < |p|
    decreases Height(comp, rank, x)
  {
    assert Linked(p, comp, rank, x);
    if p[x] == x then {}
    else
      assert Linked(p, comp, rank, p[x]);
      {x} + Path(p, comp, rank, p[x])
  }

  /** The walk stays in the circuit of `x`, passes no root, and climbs in rank. */
  lemma {:induction false} PathFacts(p: seq<nat>, comp: seq<nat>, rank: seq<nat>, x: nat)
    requires Forest(p, comp, rank) && x < |p|
    ensures forall i :: i in Path(p, comp, rank, x) ==>
      i < |p| && comp[i] == comp[x] && p[i] != i && rank[x] <= rank[i]
    decreases Height(comp, rank, x)
  {
    assert Linked(p, comp, rank, x);
    if p[x] != x {
      assert Linked(p, comp, rank, p[x]);
      PathFacts(p, comp, rank, p[x]);
    }
  }

  /** The parents after `find(x)`: every node on the walk points at the root. */
  ghost function Compressed(p: seq<nat>, comp: seq<nat>, rank: seq<nat>, x: nat): seq<nat>
    requires Forest(p, comp, rank) && x < |p|
  {
    Redirected(p, Path(p, comp, rank, x), comp[x])
  }

  function Redirected(p: seq<nat>, nodes: set<nat>, r: nat): seq<nat>
  {
    seq(|p|, i requires 0 <= i < |p| => if i in nodes then r else p[i])
  }

  /** Pointing a non-root node straight at its root keeps the forest. */
  lemma ForestRedirect(p: seq<nat>, comp: seq<nat>, rank: seq<nat>, x: nat)
    requires Forest(p, comp, rank) && x < |p| && p[x] != x
    ensures Forest(p[x := comp[x]], comp, rank)
  {
    assert Linked(p, comp, rank, x);
    assert Linked(p, comp, rank, p[x]);
    var q := p[x := comp[x]];
    forall i | 0 <= i < |p| ensures Linked(q, comp, rank, i) {
      assert Linked(p, comp, rank, i);
      assert Linked(p, comp, rank, comp[i]);
    }
  }

  /** The walk from `x` is `x` followed by the walk from its parent. */
  lemma {:induction false} PathStep(p: seq<nat>, comp: seq<nat>, rank: seq<nat>, x: nat)
    requires Forest(p, comp, rank) && x < |p| && p[x] != x
    ensures p[x] < |p| && comp[p[x]] == comp[x]
    ensures Path(p, comp, rank, x) == {x} + Path(p, comp, rank, p[x])
    ensures x !in Path(p, comp, rank, p[x])
  {
    assert Linked(p, comp, rank, x);
    PathFacts(p, comp, rank, p[x]);
  }

  /** One more node of the walk redirected. */
  lemma RedirectStep(q: seq<nat>, p: seq<nat>, done: set<nat>, x: nat, r: nat)
    requires q == Redirected(p, done, r) && x < |p|
    ensures q[x := r] == Redirected(p, done + {x}, r)
  {
  }

  /** `find`: returns the root of `x` and points every node of the walk at it. */
  method Find(x: nat, parents: array<nat>, ghost comp: seq<nat>, ghost rank: seq<nat>)
    returns (r: nat)
    requires x < parents.Length && Forest(parents[..], comp, rank)
    modifies parents
    ensures r == Root(old(parents[..]), comp, rank, x)
    ensures r == comp[x] && r < parents.Length && parents[r] == r
    ensures parents[..] == Compressed(old(parents[..]), comp, rank, x)
    ensures Forest(parents[..], comp, rank)
    ensures forall i :: 0 <= i < parents.Length ==> parents[i] == old(parents[i]) || parents[i] == comp[i]
  {
    ghost var p0 := parents[..];
    var p: nat := x;
    assert Linked(p0, comp, rank, x);
    while parents[p] != p
      invariant p < parents.Length && comp[p] == comp[x] && rank[p] <= rank[comp[x]]
      decreases Height(comp, rank, p)
    {
      assert Linked(p0, comp, rank, p);
      p := parents[p];
      assert Linked(p0, comp, rank, p);
    }
    assert Linked(p0, comp, rank, p);
    PathFacts(p0, comp, rank, x);
    var cur: nat := x;
    while cur != p
      invariant Forest(parents[..], comp, rank)
      invariant cur < parents.Length && comp[cur] == p
      invariant Path(p0, comp, rank, cur) <= Path(p0, comp, rank, x)
      invariant parents[..] == Redirected(p0, Path(p0, comp, rank, x) - Path(p0, comp, rank, cur), p)
      decreases Height(comp, rank, cur)
    {
      assert Linked(p0, comp, rank, cur);
      assert Linked(parents[..], comp, rank, cur);
      PathStep(p0, comp, rank, cur);
      ghost var before := parents[..];
      var next: nat := parents[cur];
      assert next == p0[cur];
      ForestRedirect(before, comp, rank, cur);
      parents[cur] := p;
      RedirectStep(before, p0, Path(p0, comp, rank, x) - Path(p0, comp, rank, cur), cur, p);
      assert Linked(p0, comp, rank, next);
      assert parents[..] == before[cur := p];
      assert Path(p0, comp, rank, x) - Path(p0, comp, rank, next)
        == (Path(p0, comp, rank, x) - Path(p0, comp, rank, cur)) + {cur};
      cur := next;
    }
    r := p;
  }

  /** Hanging root `f` under root `t` keeps the forest, with `f`'s circuit renamed `t`
      and `t`'s rank raised above `f`'s. */
  lemma LinkForest(p: seq<nat>, comp: seq<nat>, rank: seq<nat>, f: nat, t: nat)
    requires Forest(p, comp, rank) && f < |p| && t < |p| && f != t && p[f] == f && p[t] == t
    ensures Forest(p[f := t], Relabel(comp, f, t),
                   rank[t := if rank[t] > rank[f] then rank[t] else rank[f] + 1])
  {
    assert Linked(p, comp, rank, f) && Linked(p, comp, rank, t);
    var p', comp', rank' := p[f := t], Relabel(comp, f, t),
      rank[t := if rank[t] > rank[f] then rank[t] else rank[f] + 1];
    forall i | 0 <= i < |p| ensures Linked(p', comp', rank', i) {
      assert Linked(p, comp, rank, i);
      assert Linked(p, comp, rank, p[i]);
    }
  }

  /** After the link the new root records the combined size. */
  lemma {:induction false} LinkSized(sizes: seq<nat>, comp: seq<nat>, f: nat, t: nat)
    requires Sized(sizes, comp) && f < |comp| && t < |comp| && f != t && comp[f] == f && comp[t] == t
    ensures Sized(sizes[t := Count(comp, f) + Count(comp, t)], Relabel(comp, f, t))
  {
    var c' := Relabel(comp, f, t);
    forall r | 0 <= r < |c'| && c'[r] == r
      ensures sizes[t := Count(comp, f) + Count(comp, t)][r] == Count(c', r)
    {
      RelabelCount(comp, f, t, r);
    }
  }

  /** The two writes at the end of `union`: the root `f` is hung under the root `t`,
      which records the combined size. */
  method Link(f: nat, t: nat, parents: array<nat>, sizes: array<nat>, ghost comp: seq<nat>, ghost rank: seq<nat>)
    requires parents != sizes && f < parents.Length && t < parents.Length && f != t
    requires Forest(parents[..], comp, rank) && Sized(sizes[..], comp)
    requires parents[f] == f && parents[t] == t
    modifies parents, sizes
    ensures parents[..] == old(parents[..])[f := t]
    ensures sizes[..] == old(sizes[..])[t := old(sizes[f]) + old(sizes[t])]
    ensures Forest(parents[..], Relabel(comp, f, t),
                   rank[t := if rank[t] > rank[f] then rank[t] else rank[f] + 1])
    ensures Sized(sizes[..], Relabel(comp, f, t))
  {
    ghost var p1 := parents[..];
    ghost var s1 := sizes[..];
    assert Linked(p1, comp, rank, f) && Linked(p1, comp, rank, t);
    LinkForest(p1, comp, rank, f, t);
    LinkSized(s1, comp, f, t);
    var sf, st := sizes[f], sizes[t];
    parents[f] := t;
    sizes[t] := sf + st;
    assert parents[..] == p1[f := t];
    assert sizes[..] == s1[t := sf + st];
  }

  /** `union`: joins the circuits of `a` and `b`, the smaller under the larger, and says
      whether they were apart.  Every parent pointer is left alone or pointed at its
      node's root, except that the losing root now points at the winning one. */
  method Union(a: nat, b: nat, parents: array<nat>, sizes: array<nat>,
               ghost comp: seq<nat>, ghost rank: seq<nat>)
    returns (merged: bool, ghost comp': seq<nat>, ghost rank': seq<nat>)
    requires parents != sizes && a < parents.Length && b < parents.Length
    requires Forest(parents[..], comp, rank) && Sized(sizes[..], comp)
    modifies parents, sizes
    ensures comp[a] < parents.Length && comp[b] < parents.Length
    ensures merged <==> comp[a] != comp[b]
    ensures comp' == Merge(comp, a, b)
    ensures Forest(parents[..], comp', rank') && Sized(sizes[..], comp')
    ensures !merged ==> sizes[..] == old(sizes[..])
    ensures merged ==> sizes[..] == old(sizes[..])[Winner(comp, a, b) := Count(comp, comp[a]) + Count(comp, comp[b])]
    ensures merged ==> parents[Loser(comp, a, b)] == Winner(comp, a, b)
    ensures forall i :: 0 <= i < parents.Length && !(merged && i == Loser(comp, a, b)) ==>
      parents[i] == old(parents[i]) || parents[i] == comp[i]
  {
    var ra := Find(a, parents, comp, rank);
    var rb := Find(b, parents, comp, rank);
    assert Linked(parents[..], comp, rank, a) && Linked(parents[..], comp, rank, b);
    if ra == rb {
      return false, comp, rank;
    }
    var sa := sizes[ra];
    var sb := sizes[rb];
    assert Linked(parents[..], comp, rank, ra) && Linked(parents[..], comp, rank, rb);
    if sa < sb {
      ra, rb := rb, ra;
    }
    Link(rb, ra, parents, sizes, comp, rank);
    merged := true;
    comp' := Relabel(comp, rb, ra);
    rank' := rank[ra := if rank[ra] > rank[rb] then rank[ra] else rank[rb] + 1];
  }

  // ---------------------------------------------------------------------------
  // Invariant facts about a forest with sizes
  // ---------------------------------------------------------------------------

  lemma ForestRepresentatives(p: seq<nat>, comp: seq<nat>, rank: seq<nat>)
    requires Forest(p, comp, rank)
    ensures Representatives(comp)
    ensures forall i :: 0 <= i < |p| ==> (p[i] == i <==> comp[i] == i)
  {
    forall i | 0 <= i < |p| ensures comp[i] < |comp| && comp[comp[i]] == comp[i] && (p[i] == i <==> comp[i] == i) {
      assert Linked(p, comp, rank, i);
      assert Linked(p, comp, rank, comp[i]);
    }
  }

  lemma ForestStart(n: nat)
    ensures Forest(Start(n), Start(n), seq(n, _ => 0)) && Sized(seq(n, _ => 1), Start(n))
  {
    forall r | 0 <= r < n ensures Count(Start(n), r) == 1 {
      CountStart(n, r);
    }
  }

  /** The sizes recorded at the roots of the first `k` nodes, added up. */
  function RootSizeSum(p: seq<nat>, sizes: seq<nat>, k: nat): nat
    requires k <= |p| <= |sizes|
  {
    if k == 0 then 0 else RootSizeSum(p, sizes, k - 1) + (if p[k - 1] == k - 1 then sizes[k - 1] else 0)
  }

  /** The root sizes always add up to the number of nodes. */
  lemma {:induction false} RootSizesTotal(p: seq<nat>, sizes: seq<nat>, comp: seq<nat>, rank: seq<nat>)
    requires Forest(p, comp, rank) && Sized(sizes, comp)
    ensures RootSizeSum(p, sizes, |p|) == |p|
  {
    ForestRepresentatives(p, comp, rank);
    RootSizesCounts(p, sizes, comp, rank, |p|);
    CountsTotal(comp, |p|);
  }

  lemma {:induction false} RootSizesCounts(p: seq<nat>, sizes: seq<nat>, comp: seq<nat>, rank: seq<nat>, k: nat)
    requires Forest(p, comp, rank) && Sized(sizes, comp) && Representatives(comp) && k <= |p|
    requires forall i :: 0 <= i < |p| ==> (p[i] == i <==> comp[i] == i)
    ensures RootSizeSum(p, sizes, k) == SumCounts(comp, k)
  {
    if k > 0 {
      RootSizesCounts(p, sizes, comp, rank, k - 1);
      if p[k - 1] != k - 1 {
        CountAbsent(comp, k - 1);
      }
    }
  }

  // ---------------------------------------------------------------------------
  // top_three
  // ---------------------------------------------------------------------------

  /** The three largest sizes, largest first, 0 where there are fewer. */
  datatype Top = Top(first: nat, second: nat, third: nat)

  /** One step of `top_three`: `sz` enters the list if it beats one of the three. */
  function Offer(t: Top, sz: nat): Top
  {
    if sz > t.first then Top(sz, t.first, t.second)
    else if sz > t.second then Top(t.first, sz, t.second)
    else if sz > t.third then Top(t.first, t.second, sz)
    else t
  }

  /** `top_three` over the roots among the first `k` nodes. */
  function TopUpTo(parents: seq<nat>, sizes: seq<nat>, k: nat): Top
    requires k <= |parents| <= |sizes|
  {
    if k == 0 then Top(0, 0, 0)
    else
      var t := TopUpTo(parents, sizes, k - 1);
      if parents[k - 1] == k - 1 then Offer(t, sizes[k - 1]) else t
  }

  predicate Descending(t: Top)
  {
    t.first >= t.second >= t.third
  }

  /** How many of the three are at least `v`. */
  function AtLeast(t: Top, v: nat): nat
  {
    (if t.first >= v then 1 else 0) + (if t.second >= v then 1 else 0) + (if t.third >= v then 1 else 0)
  }

  /** How many roots among the first `k` nodes have size at least `v`. */
  function RootsAtLeast(parents: seq<nat>, sizes: seq<nat>, v: nat, k: nat): nat
    requires k <= |parents| <= |sizes|
  {
    if k == 0 then 0
    else RootsAtLeast(parents, sizes, v, k - 1) + (if parents[k - 1] == k - 1 && sizes[k - 1] >= v then 1 else 0)
  }

  function Min3(x: nat): nat
  {
    if x < 3 then x else 3
  }

  lemma OfferCounts(t: Top, sz: nat, v: nat)
    requires Descending(t) && v >= 1
    ensures Descending(Offer(t, sz))
    ensures AtLeast(Offer(t, sz), v) == Min3(AtLeast(t, v) + if sz >= v then 1 else 0)
  {
  }

  /** The result of `top_three` is descending, and for every size `v >= 1` as many of
      its three entries reach `v` as roots do, up to three: it holds the three largest
      root sizes, padded with 0. */
  lemma {:induction false} TopCounts(parents: seq<nat>, sizes: seq<nat>, k: nat, v: nat)
    requires k <= |parents| <= |sizes| && v >= 1
    ensures Descending(TopUpTo(parents, sizes, k))
    ensures AtLeast(TopUpTo(parents, sizes, k), v) == Min3(RootsAtLeast(parents, sizes, v, k))
  {
    if k > 0 {
      TopCounts(parents, sizes, k - 1, v);
      if parents[k - 1] == k - 1 {
        OfferCounts(TopUpTo(parents, sizes, k - 1), sizes[k - 1], v);
      }
    }
  }

  /** `top_three`. */
  method TopThree(parents: array<nat>, sizes: array<nat>) returns (top: Top)
    requires parents.Length <= sizes.Length
    ensures top == TopUpTo(parents[..], sizes[..], parents.Length)
  {
    top := Top(0, 0, 0);
    for idx := 0 to parents.Length
      invariant top == TopUpTo(parents[..], sizes[..], idx)
    {
      if parents[idx] == idx {
        var sz := sizes[idx];
        if sz > top.first {
          top := Top(sz, top.first, top.second);
        } else if sz > top.second {
          top := Top(top.first, sz, top.second);
        } else if sz > top.third {
          top := Top(top.first, top.second, sz);
        }
      }
    }
  }

  /** The circuit sizes of a labelling, indexed by representative. */
  function Sizes(c: seq<nat>): seq<nat>
  {
    seq(|c|, i requires 0 <= i < |c| => Count(c, i))
  }

  /** The three largest circuits of a labelling. */
  function ClassTop(c: seq<nat>): Top
  {
    TopUpTo(c, Sizes(c), |c|)
  }

  /** `top_three` only looks at which nodes are roots and what size they record. */
  lemma {:induction false} TopAgree(p: seq<nat>, s: seq<nat>, q: seq<nat>, t: seq<nat>, k: nat)
    requires k <= |p| <= |s| && k <= |q| <= |t|
    requires forall i :: 0 <= i < k ==> (p[i] == i <==> q[i] == i)
    requires forall i :: 0 <= i < k && p[i] == i ==> s[i] == t[i]
    ensures TopUpTo(p, s, k) == TopUpTo(q, t, k)
  {
    if k > 0 {
      TopAgree(p, s, q, t, k - 1);
    }
  }

  /** On the forest, `top_three` gives the three largest circuits. */
  lemma {:induction false} ForestTop(p: seq<nat>, sizes: seq<nat>, comp: seq<nat>, rank: seq<nat>)
    requires Forest(p, comp, rank) && Sized(sizes, comp)
    ensures TopUpTo(p, sizes, |p|) == ClassTop(comp)
  {
    ForestRepresentatives(p, comp, rank);
    TopAgree(p, sizes, comp, Sizes(comp), |p|);
  }
}
