/** Day 10, part 2: the search of `solve_joltage` over the free buttons, and the
    solver itself.  The free values range over a box, each between zero and the bound of
    its button; with up to three free buttons the nested loops visit every point of
    the box that could still beat the best total, with more a depth-first search walks
    it, and each point is scored by `eval_fast`. */
module Day10Search {
  import opened Common
  import opened Day10
  import opened Day10Joltage
  import opened Day10Reduce
  import opened Day10Backsub
  import opened Day10Complete
  import Sorting
  import Day10Lights

  // ===========================================================================
  // The box of free values
  // ===========================================================================

  /** Free values between zero and their bounds `mv` (`max_vals`). */
  predicate InBox(fv: seq<int>, mv: seq<nat>)
  {
    |fv| == |mv| && forall i :: 0 <= i < |fv| ==> 0 <= fv[i] <= mv[i]
  }

  /** No point of the box that `Cost` accepts has a total below `best`. */
  ghost predicate Covered(table: seq<BackRow>, mv: seq<nat>, best: int)
    requires Evaluable(table, |mv|)
  {
    forall fv :: InBox(fv, mv) ==> Cost(table, fv).Some? ==> best <= Cost(table, fv).value
  }

  /** `best` is `u32::MAX`, or the total of the point `point` of the box. */
  ghost predicate Found(table: seq<BackRow>, mv: seq<nat>, best: int, point: seq<int>)
    requires Evaluable(table, |mv|)
  {
    best <= Day10Lights.U32_MAX &&
    (best < Day10Lights.U32_MAX ==> InBox(point, mv) && Cost(table, point) == Some(best))
  }

  /** What one call of `eval_fast` tells the search: an answer is the point's total,
      below `best` unless there are no pivot rows; no answer means the point's total,
      if any, does not beat `best`. */
  lemma EvalStep(table: seq<BackRow>, fv: seq<int>, best: int)
    requires Evaluable(table, |fv|)
    ensures EvalFrom(table, fv, Sum(fv), best, 0).Some? ==>
      Cost(table, fv) == EvalFrom(table, fv, Sum(fv), best, 0) && Sum(fv) <= Cost(table, fv).value &&
      (EvalFrom(table, fv, Sum(fv), best, 0).value < best || (|table| == 0 && Cost(table, fv) == Some(Sum(fv))))
    ensures EvalFrom(table, fv, Sum(fv), best, 0).None? ==>
      Cost(table, fv).Some? ==> best <= Cost(table, fv).value
  {
    EvalOutcome(table, fv, Sum(fv), best, 0);
    if Cost(table, fv).Some? {
      OutcomeAtLeast(table, fv, Sum(fv), 0);
    }
  }

  /** A point's total is at least the sum of its free values, so a point whose free
      values already reach `best` cannot beat it. */
  lemma CostAtLeast(table: seq<BackRow>, fv: seq<int>)
    requires Evaluable(table, |fv|) && Cost(table, fv).Some?
    ensures Sum(fv) <= Cost(table, fv).value
  {
    OutcomeAtLeast(table, fv, Sum(fv), 0);
  }

  lemma SumPair(a: int, b: int)
    ensures Sum([a, b]) == a + b
  {
    assert Sum([a]) == a by {
      assert [a][..0] == [];
    }
    assert [a, b][..1] == [a];
    assert Sum([a, b]) == Sum([a]) + b;
  }

  lemma SumTriple(a: int, b: int, c: int)
    ensures Sum([a, b, c]) == a + b + c
  {
    assert [a, b, c][..2] == [a, b];
    SumPair(a, b);
  }

  // ===========================================================================
  // Up to three free buttons
  // ===========================================================================

  /** No free button: the single point is scored once. */
  method Search0(table: seq<BackRow>) returns (best: nat, ghost point: seq<int>)
    requires Evaluable(table, 0)
    ensures Found(table, [], best, point)
    ensures Covered(table, [], best)
  {
    best := Day10Lights.U32_MAX;
    point := [];
    var res := EvalFast([], 0, table, best);
    EvalStep(table, [], best);
    if res.Some? {
      best := res.value;
    }
    forall fv | InBox(fv, []) ensures Cost(table, fv).Some? ==> best <= Cost(table, fv).value {
      assert fv == [];
    }
  }

  /** One free button: `v0` counts up to its bound and stops once it alone reaches
      `best`. */
  method Search1(table: seq<BackRow>, mv: seq<nat>) returns (best: nat, ghost point: seq<int>)
    requires |mv| == 1 && Evaluable(table, 1)
    ensures Found(table, mv, best, point)
    ensures |table| >= 1 ==> Covered(table, mv, best)
  {
    best := Day10Lights.U32_MAX;
    point := [];
    var v0 := 0;
    while v0 <= mv[0]
      invariant v0 <= mv[0] + 1 && Found(table, mv, best, point)
      invariant |table| >= 1 ==> forall a :: 0 <= a < v0 ==> Cost(table, [a]).Some? ==> best <= Cost(table, [a]).value
    {
      if v0 >= best {
        break;
      }
      assert Sum([v0]) == v0;
      var res := EvalFast([v0], v0, table, best);
      EvalStep(table, [v0], best);
      if res.Some? {
        best := res.value;
        point := [v0];
      }
      v0 := v0 + 1;
    }
    if |table| >= 1 {
      forall fv | InBox(fv, mv) ensures Cost(table, fv).Some? ==> best <= Cost(table, fv).value {
        assert fv == [fv[0]];
        if fv[0] >= v0 && Cost(table, fv).Some? {
          CostAtLeast(table, fv);
        }
      }
    }
  }

  /** The inner loop for two free buttons: `v1` counts up to its bound and stops once
      `v0 + v1` reaches `best`. */
  method ScanSecond(table: seq<BackRow>, mv: seq<nat>, v0: int, best0: nat, ghost point0: seq<int>)
    returns (best: nat, ghost point: seq<int>)
    requires |mv| == 2 && Evaluable(table, 2) && 0 <= v0 <= mv[0]
    requires Found(table, mv, best0, point0)
    ensures Found(table, mv, best, point) && best <= best0
    ensures |table| >= 1 ==> forall b :: 0 <= b <= mv[1] ==> Cost(table, [v0, b]).Some? ==> best <= Cost(table, [v0, b]).value
  {
    best, point := best0, point0;
    var v1 := 0;
    while v1 <= mv[1]
      invariant v1 <= mv[1] + 1 && Found(table, mv, best, point) && best <= best0
      invariant |table| >= 1 ==> forall b :: 0 <= b < v1 ==> Cost(table, [v0, b]).Some? ==> best <= Cost(table, [v0, b]).value
    {
      var partial := v0 + v1;
      if partial >= best {
        break;
      }
      SumPair(v0, v1);
      var res := EvalFast([v0, v1], partial, table, best);
      EvalStep(table, [v0, v1], best);
      if res.Some? {
        best := res.value;
        point := [v0, v1];
      }
      v1 := v1 + 1;
    }
    if |table| >= 1 {
      forall b | v1 <= b <= mv[1] && Cost(table, [v0, b]).Some? ensures best <= Cost(table, [v0, b]).value {
        SumPair(v0, b);
        CostAtLeast(table, [v0, b]);
      }
    }
  }

  /** Two free buttons: `v0` stops once it alone reaches `best`. */
  method Search2(table: seq<BackRow>, mv: seq<nat>) returns (best: nat, ghost point: seq<int>)
    requires |mv| == 2 && Evaluable(table, 2)
    ensures Found(table, mv, best, point)
    ensures |table| >= 1 ==> Covered(table, mv, best)
  {
    best := Day10Lights.U32_MAX;
    point := [];
    var v0 := 0;
    while v0 <= mv[0]
      invariant v0 <= mv[0] + 1 && Found(table, mv, best, point)
      invariant |table| >= 1 ==> forall a, b :: 0 <= a < v0 && 0 <= b <= mv[1] ==>
        Cost(table, [a, b]).Some? ==> best <= Cost(table, [a, b]).value
    {
      if v0 >= best {
        break;
      }
      best, point := ScanSecond(table, mv, v0, best, point);
      v0 := v0 + 1;
    }
    if |table| >= 1 {
      forall fv | InBox(fv, mv) ensures Cost(table, fv).Some? ==> best <= Cost(table, fv).value {
        assert fv == [fv[0], fv[1]];
        if fv[0] >= v0 && Cost(table, fv).Some? {
          SumPair(fv[0], fv[1]);
          CostAtLeast(table, fv);
        }
      }
    }
  }

  /** The innermost loop for three free buttons: `v2` runs up to the smaller of its
      bound and `best - (v0 + v1 + 1)`, a limit fixed when the loop starts, and every
      point is scored. */
  method ScanThird(table: seq<BackRow>, mv: seq<nat>, v0: int, v1: int, best0: nat, ghost point0: seq<int>)
    returns (best: nat, ghost point: seq<int>)
    requires |mv| == 3 && Evaluable(table, 3) && 0 <= v0 <= mv[0] && 0 <= v1 <= mv[1]
    requires v0 + v1 < best0 && Found(table, mv, best0, point0)
    ensures Found(table, mv, best, point) && best <= best0
    ensures |table| >= 1 ==> forall c :: 0 <= c <= mv[2] ==> Cost(table, [v0, v1, c]).Some? ==> best <= Cost(table, [v0, v1, c]).value
  {
    best, point := best0, point0;
    var partial01 := v0 + v1;
    var remaining := best - (partial01 + 1);
    var max2Allowed := if remaining < mv[2] then remaining else mv[2];
    var v2 := 0;
    while v2 <= max2Allowed
      invariant v2 <= max2Allowed + 1 && Found(table, mv, best, point) && best <= best0
      invariant |table| >= 1 ==> forall c :: 0 <= c < v2 ==> Cost(table, [v0, v1, c]).Some? ==> best <= Cost(table, [v0, v1, c]).value
    {
      var partial := partial01 + v2;
      SumTriple(v0, v1, v2);
      var res := EvalFast([v0, v1, v2], partial, table, best);
      EvalStep(table, [v0, v1, v2], best);
      if res.Some? {
        best := res.value;
        point := [v0, v1, v2];
      }
      v2 := v2 + 1;
    }
    if |table| >= 1 {
      forall c | v2 <= c <= mv[2] && Cost(table, [v0, v1, c]).Some? ensures best <= Cost(table, [v0, v1, c]).value {
        SumTriple(v0, v1, c);
        CostAtLeast(table, [v0, v1, c]);
      }
    }
  }

  /** The middle loop for three free buttons: `v1` stops once `v0 + v1` reaches
      `best`. */
  method ScanPairs(table: seq<BackRow>, mv: seq<nat>, v0: int, best0: nat, ghost point0: seq<int>)
    returns (best: nat, ghost point: seq<int>)
    requires |mv| == 3 && Evaluable(table, 3) && 0 <= v0 <= mv[0]
    requires Found(table, mv, best0, point0)
    ensures Found(table, mv, best, point) && best <= best0
    ensures |table| >= 1 ==> forall b, c :: 0 <= b <= mv[1] && 0 <= c <= mv[2] ==>
      Cost(table, [v0, b, c]).Some? ==> best <= Cost(table, [v0, b, c]).value
  {
    best, point := best0, point0;
    var v1 := 0;
    while v1 <= mv[1]
      invariant v1 <= mv[1] + 1 && Found(table, mv, best, point) && best <= best0
      invariant |table| >= 1 ==> forall b, c :: 0 <= b < v1 && 0 <= c <= mv[2] ==>
        Cost(table, [v0, b, c]).Some? ==> best <= Cost(table, [v0, b, c]).value
    {
      if v0 + v1 >= best {
        break;
      }
      best, point := ScanThird(table, mv, v0, v1, best, point);
      v1 := v1 + 1;
    }
    if |table| >= 1 {
      forall b, c | v1 <= b <= mv[1] && 0 <= c <= mv[2] && Cost(table, [v0, b, c]).Some?
        ensures best <= Cost(table, [v0, b, c]).value
      {
        SumTriple(v0, b, c);
        CostAtLeast(table, [v0, b, c]);
      }
    }
  }

  /** Three free buttons: `v0` stops once it alone reaches `best`. */
  method Search3(table: seq<BackRow>, mv: seq<nat>) returns (best: nat, ghost point: seq<int>)
    requires |mv| == 3 && Evaluable(table, 3)
    ensures Found(table, mv, best, point)
    ensures |table| >= 1 ==> Covered(table, mv, best)
  {
    best := Day10Lights.U32_MAX;
    point := [];
    var v0 := 0;
    while v0 <= mv[0]
      invariant v0 <= mv[0] + 1 && Found(table, mv, best, point)
      invariant |table| >= 1 ==> forall a, b, c :: 0 <= a < v0 && 0 <= b <= mv[1] && 0 <= c <= mv[2] ==>
        Cost(table, [a, b, c]).Some? ==> best <= Cost(table, [a, b, c]).value
    {
      if v0 >= best {
        break;
      }
      best, point := ScanPairs(table, mv, v0, best, point);
      v0 := v0 + 1;
    }
    if |table| >= 1 {
      forall fv | InBox(fv, mv) ensures Cost(table, fv).Some? ==> best <= Cost(table, fv).value {
        assert fv == [fv[0], fv[1], fv[2]];
        if fv[0] >= v0 && Cost(table, fv).Some? {
          SumTriple(fv[0], fv[1], fv[2]);
          CostAtLeast(table, fv);
        }
      }
    }
  }

  // ===========================================================================
  // Four or more free buttons: the depth-first search
  // ===========================================================================

  /** One more than the largest bound, so a value past its bound is still a digit. */
  const DIGIT_TOP: nat := U16_MAX + 1
  const RADIX: nat := DIGIT_TOP + 2

  /** Where the search stands, as digit `i` of a number in base `RADIX`: for each level
      up to `idx`, how far its value is below `DIGIT_TOP`; the largest digit for the
      levels past `idx`; and last a digit that is zero only when every level is set. */
  function Digit(fv: seq<int>, idx: nat, i: nat): (d: nat)
    ensures d < RADIX
  {
    if i >= |fv| then (if idx >= |fv| then 0 else 1)
    else if i > idx then DIGIT_TOP + 1
    else if 0 <= fv[i] <= DIGIT_TOP then DIGIT_TOP - fv[i]
    else 0
  }

  /** The number whose digits, most significant first, are the first `k` digits of the
      search position (the literal is `RADIX`, which keeps the arithmetic linear). */
  function Rank(fv: seq<int>, idx: nat, k: nat): nat
  {
    if k == 0 then 0 else Rank(fv, idx, k - 1) * 65538 + Digit(fv, idx, k - 1)
  }

  /** Positions whose first `k` digits agree have the same rank there. */
  lemma {:induction false} RankSame(f: seq<int>, i: nat, g: seq<int>, j: nat, k: nat)
    requires forall p :: 0 <= p < k ==> Digit(f, i, p) == Digit(g, j, p)
    ensures Rank(f, i, k) == Rank(g, j, k)
  {
    if k > 0 {
      RankSame(f, i, g, j, k - 1);
    }
  }

  /** Positions compare as their ranks do at the first digit where they differ. */
  lemma {:induction false} RankLess(f: seq<int>, i: nat, g: seq<int>, j: nat, p: nat, k: nat)
    requires p < k
    requires forall q :: 0 <= q < p ==> Digit(f, i, q) == Digit(g, j, q)
    requires Digit(f, i, p) < Digit(g, j, p)
    ensures Rank(f, i, k) < Rank(g, j, k)
  {
    if p == k - 1 {
      RankSame(f, i, g, j, k - 1);
    } else {
      RankLess(f, i, g, j, p, k - 1);
    }
  }

  /** The measure of the search loop. */
  function Measure(fv: seq<int>, idx: nat): nat
  {
    Rank(fv, idx, |fv| + 1)
  }

  /** The state of the depth-first search at level `idx`: every value is between zero
      and one past its bound, the levels above `idx` are within their bounds, and
      `partial_costs` holds their prefix sums. */
  ghost predicate Walk(mv: seq<nat>, fv: seq<int>, pc: seq<nat>, idx: nat)
  {
    |fv| == |mv| && |pc| == |mv| && idx <= |mv| &&
    (forall i :: 0 <= i < |mv| ==> 0 <= fv[i] <= mv[i] + 1) &&
    (forall i :: 0 <= i < idx ==> fv[i] <= mv[i]) &&
    (forall i :: 0 <= i < idx ==> pc[i] == Sum(fv[..i + 1]))
  }

  /** The prefix sums `partial_costs` stay right below `k` when the values there stay. */
  lemma SamePrefixSums(fv: seq<int>, fv': seq<int>, pc: seq<nat>, k: nat)
    requires |fv| == |fv'| && k <= |fv| && |pc| == |fv|
    requires forall i :: 0 <= i < k ==> fv'[i] == fv[i]
    requires forall i :: 0 <= i < k ==> pc[i] == Sum(fv[..i + 1])
    ensures forall i :: 0 <= i < k ==> pc[i] == Sum(fv'[..i + 1])
  {
    forall i | 0 <= i < k ensures pc[i] == Sum(fv'[..i + 1]) {
      assert fv'[..i + 1] == fv[..i + 1];
    }
  }

  /** With every level set, the values are a point of the box and the last prefix sum
      is their sum. */
  lemma WalkLeaf(mv: seq<nat>, fv: seq<int>, pc: seq<nat>)
    requires |mv| >= 1 && Walk(mv, fv, pc, |mv|)
    ensures InBox(fv, mv) && pc[|mv| - 1] == Sum(fv)
  {
    assert fv[..|mv|] == fv;
  }

  /** The sum of the levels above `idx`, `partial` in the search. */
  lemma WalkPartial(mv: seq<nat>, fv: seq<int>, pc: seq<nat>, idx: nat)
    requires Walk(mv, fv, pc, idx) && idx < |mv|
    ensures (if idx == 0 then 0 else pc[idx - 1]) == Sum(fv[..idx])
  {
    if idx == 0 {
      assert fv[..0] == [];
    }
  }

  /** Going back from level `idx` to the one above, whose value goes up by one. */
  lemma BackStep(mv: seq<nat>, fv: seq<int>, pc: seq<nat>, idx: nat)
    requires Walk(mv, fv, pc, idx) && idx >= 1
    requires forall i :: 0 <= i < |mv| ==> mv[i] <= U16_MAX
    ensures Walk(mv, fv[idx - 1 := fv[idx - 1] + 1], pc, idx - 1)
    ensures Measure(fv[idx - 1 := fv[idx - 1] + 1], idx - 1) < Measure(fv, idx)
  {
    var fv' := fv[idx - 1 := fv[idx - 1] + 1];
    SamePrefixSums(fv, fv', pc, idx - 1);
    RankLess(fv', idx - 1, fv, idx, idx - 1, |fv| + 1);
  }

  /** Resetting level `idx`, whose value ran past its limit, and going back. */
  lemma ResetStep(mv: seq<nat>, fv: seq<int>, pc: seq<nat>, idx: nat)
    requires Walk(mv, fv, pc, idx) && 1 <= idx < |mv|
    requires forall i :: 0 <= i < |mv| ==> mv[i] <= U16_MAX
    ensures Walk(mv, fv[idx := 0][idx - 1 := fv[idx - 1] + 1], pc, idx - 1)
    ensures Measure(fv[idx := 0][idx - 1 := fv[idx - 1] + 1], idx - 1) < Measure(fv, idx)
  {
    var fv' := fv[idx := 0][idx - 1 := fv[idx - 1] + 1];
    SamePrefixSums(fv, fv', pc, idx - 1);
    RankLess(fv', idx - 1, fv, idx, idx - 1, |fv| + 1);
  }

  /** Taking the value of level `idx` and going down to the next level. */
  lemma DescendStep(mv: seq<nat>, fv: seq<int>, pc: seq<nat>, idx: nat, partial: nat)
    requires Walk(mv, fv, pc, idx) && idx < |mv| && fv[idx] <= mv[idx]
    requires partial == Sum(fv[..idx])
    requires forall i :: 0 <= i < |mv| ==> mv[i] <= U16_MAX
    ensures fv[idx] >= 0
    ensures Walk(mv, fv, pc[idx := partial + fv[idx]], idx + 1)
    ensures Measure(fv, idx + 1) < Measure(fv, idx)
  {
    assert fv[..idx + 1][..idx] == fv[..idx];
    RankLess(fv, idx + 1, fv, idx, idx + 1, |fv| + 1);
  }

  /** A full set of levels: score it with `eval_fast`, then go back a level. */
  method DeepLeaf(table: seq<BackRow>, mv: seq<nat>, fv: seq<int>, pc: seq<nat>, best: nat, ghost point: seq<int>)
    returns (fv': seq<int>, idx': nat, best': nat, ghost point': seq<int>)
    requires |mv| >= 1 && Evaluable(table, |mv|)
    requires forall i :: 0 <= i < |mv| ==> mv[i] <= U16_MAX
    requires Walk(mv, fv, pc, |mv|) && pc[|mv| - 1] < best
    requires Found(table, mv, best, point)
    ensures Walk(mv, fv', pc, idx') && idx' < |mv|
    ensures Found(table, mv, best', point')
    ensures Measure(fv', idx') < Measure(fv, |mv|)
  {
    best', point' := best, point;
    var partial := pc[|mv| - 1];
    WalkLeaf(mv, fv, pc);
    var res := EvalFast(fv, partial, table, best);
    EvalStep(table, fv, best);
    if res.Some? {
      best' := res.value;
      point' := fv;
    }
    BackStep(mv, fv, pc, |mv|);
    idx' := |mv| - 1;
    fv' := fv[idx' := fv[idx'] + 1];
  }

  /** Level `idx` short of a full set: go back when the levels above already reach
      `best`, reset it and go back when its value ran past both its bound and
      `best - partial - 1`, and otherwise go down a level.  `done` is the `break` at
      the top level. */
  method DeepInner(mv: seq<nat>, fv: seq<int>, pc: seq<nat>, idx: nat, best: nat)
    returns (fv': seq<int>, pc': seq<nat>, idx': nat, done: bool)
    requires forall i :: 0 <= i < |mv| ==> mv[i] <= U16_MAX
    requires Walk(mv, fv, pc, idx) && idx < |mv|
    ensures Walk(mv, fv', pc', idx') && (idx' == |mv| ==> pc'[|mv| - 1] < best)
    ensures !done ==> Measure(fv', idx') < Measure(fv, idx)
  {
    fv', pc', idx', done := fv, pc, idx, false;
    var partial := if idx == 0 then 0 else pc[idx - 1];
    WalkPartial(mv, fv, pc, idx);
    if partial >= best {
      if idx == 0 {
        done := true;
        return;
      }
      BackStep(mv, fv, pc, idx);
      idx' := idx - 1;
      fv' := fv[idx' := fv[idx'] + 1];
    } else {
      var room := best - (partial + 1);
      var maxAllowed := if mv[idx] < room then mv[idx] else room;
      if fv[idx] > maxAllowed {
        if idx == 0 {
          fv' := fv[idx := 0];
          done := true;
          return;
        }
        ResetStep(mv, fv, pc, idx);
        idx' := idx - 1;
        fv' := fv[idx := 0][idx' := fv[idx'] + 1];
      } else {
        DescendStep(mv, fv, pc, idx, partial);
        pc' := pc[idx := partial + fv[idx]];
        idx' := idx + 1;
      }
    }
  }

  /** The depth-first search for four or more free buttons: `DeepLeaf` and `DeepInner`
      its loop. */
  method SearchDeep(table: seq<BackRow>, mv: seq<nat>) returns (best: nat, ghost point: seq<int>)
    requires |mv| >= 1 && Evaluable(table, |mv|)
    requires forall i :: 0 <= i < |mv| ==> mv[i] <= U16_MAX
    ensures Found(table, mv, best, point)
  {
    var nf := |mv|;
    best := Day10Lights.U32_MAX;
    point := [];
    var fv: seq<int> := seq(nf, _ => 0);
    var pc: seq<nat> := seq(nf, _ => 0);
    var idx := 0;
    while true
      invariant Walk(mv, fv, pc, idx) && (idx == nf ==> pc[nf - 1] < best)
      invariant Found(table, mv, best, point)
      decreases Measure(fv, idx)
    {
      if idx == nf {
        fv, idx, best, point := DeepLeaf(table, mv, fv, pc, best, point);
      } else {
        var done;
        fv, pc, idx, done := DeepInner(mv, fv, pc, idx, best);
        if done {
          break;
        }
      }
    }
  }

  // ===========================================================================
  // From the table to the machine
  // ===========================================================================

  /** What `solve_joltage` computes before it searches: the matrix reduced by
      elimination, the free columns sorted by their bounds (`free_cols`, with
      `max_vals` their bounds), `col_to_free`, and the back-substitution table. */
  method Prepare(m: Machine)
    returns (rows: seq<seq<int>>, pivots: seq<nat>, freeCols: seq<nat>, colToFree: seq<nat>,
             bounds: seq<nat>, table: seq<BackRow>, mv: seq<nat>)
    requires Addressed(m) && |m.buttons| <= 16 && m.n <= 16
    ensures Prepared(m, rows, pivots, freeCols, colToFree, bounds, table, mv)
    ensures forall i, j :: 0 <= i < j < |mv| ==> mv[i] <= mv[j]
  {
    rows, pivots, bounds := Reduce(m);
    freeCols, colToFree, table, mv := Arrange(rows, m.n, |m.buttons|, pivots, bounds);
  }

  /** The matrix of the machine, reduced by elimination, and the bound of each button. */
  method Reduce(m: Machine) returns (rows: seq<seq<int>>, pivots: seq<nat>, bounds: seq<nat>)
    requires Addressed(m) && |m.buttons| <= 16 && m.n <= 16
    ensures Shaped(rows) && Reduced(rows, m.n, |m.buttons|, |m.buttons|, pivots) && |bounds| == 16
    ensures SameSolutions(rows, Initial(m), m.n, |m.buttons|)
    ensures forall c :: 0 <= c < |m.buttons| ==> LeastTarget(bounds[c], m.buttons[c], m.joltages) && bounds[c] <= U16_MAX
    ensures |m.buttons| >= 1 && pivots == [] ==> forall r :: 0 <= r < m.n ==> Initial(m)[r][0] == 0
  {
    var mat, bnds := BuildSystem(m);
    pivots := Eliminate(mat, m.n, |m.buttons|);
    rows, bounds := mat[..], bnds[..];
  }

  /** The free columns sorted by their bounds, `col_to_free`, the table and
      `max_vals`. */
  method Arrange(rows: seq<seq<int>>, n: nat, nb: nat, pivots: seq<nat>, bounds: seq<nat>)
    returns (freeCols: seq<nat>, colToFree: seq<nat>, table: seq<BackRow>, mv: seq<nat>)
    requires Shaped(rows) && n <= 16 && nb <= 16 && Reduced(rows, n, nb, nb, pivots) && |bounds| == 16
    requires forall c :: 0 <= c < nb ==> bounds[c] <= U16_MAX
    ensures Tabled(rows, n, nb, pivots, freeCols, colToFree, bounds, table)
    ensures |mv| == |freeCols| && |freeCols| + |pivots| == nb
    ensures forall i :: 0 <= i < |freeCols| ==> freeCols[i] < nb && mv[i] == bounds[freeCols[i]] && mv[i] <= U16_MAX
    ensures forall i, j :: 0 <= i < j < |mv| ==> mv[i] <= mv[j]
    ensures Evaluable(table, |mv|)
  {
    freeCols := SortFree(pivots, nb, bounds);
    mv := seq(|freeCols|, i requires 0 <= i < |freeCols| => bounds[freeCols[i]]);
    FreeCount(pivots, freeCols, nb);
    colToFree := ColToFree(freeCols);
    table := BuildTable(rows, n, nb, pivots, freeCols, colToFree, bounds);
  }

  /** `free_cols`: the columns without a pivot, sorted by their bounds with the stable
      `sort_by_key`, so columns of equal bound stay in increasing order. */
  method SortFree(pivots: seq<nat>, nb: nat, bounds: seq<nat>) returns (freeCols: seq<nat>)
    requires nb <= 16 && |bounds| == 16
    requires forall i :: 0 <= i < |pivots| ==> pivots[i] < nb
    ensures multiset(freeCols) == multiset(NonPivots(pivots, nb))
    ensures forall i :: 0 <= i < |freeCols| ==> freeCols[i] < nb
    ensures forall i, j :: 0 <= i < j < |freeCols| ==> bounds[freeCols[i]] <= bounds[freeCols[j]]
    ensures forall i, j :: 0 <= i < j < |freeCols| && bounds[freeCols[i]] == bounds[freeCols[j]] ==> freeCols[i] < freeCols[j]
  {
    var free := CollectFree(pivots, nb);
    var bs := bounds;
    var key := (c: nat) => if c < |bs| then bs[c] as int else 0;
    var rank := (c: nat) => c as int;
    freeCols := Sorting.SortBy(free, key);
    Sorting.SortByStable(free, key, rank);
    SameMembers(free, freeCols);
    forall i | 0 <= i < |freeCols| ensures freeCols[i] < nb {
      assert freeCols[i] in free;
    }
    forall i, j | 0 <= i < j < |freeCols| ensures bounds[freeCols[i]] <= bounds[freeCols[j]] {
      assert key(freeCols[i]) <= key(freeCols[j]);
    }
    forall i, j | 0 <= i < j < |freeCols| && bounds[freeCols[i]] == bounds[freeCols[j]]
      ensures freeCols[i] < freeCols[j]
    {
      assert key(freeCols[i]) == key(freeCols[j]);
      assert rank(freeCols[i]) < rank(freeCols[j]);
    }
  }

  /** Every button column is either a pivot or free. */
  lemma FreeCount(pivots: seq<nat>, freeCols: seq<nat>, nb: nat)
    requires forall i, j :: 0 <= i < j < |pivots| ==> pivots[i] < pivots[j]
    requires forall i :: 0 <= i < |pivots| ==> pivots[i] < nb
    requires multiset(freeCols) == multiset(NonPivots(pivots, nb))
    ensures |freeCols| + |pivots| == nb
  {
    ColumnsSplit(pivots, freeCols, nb);
    calc {
      |freeCols| + |pivots|;
      |freeCols + pivots|;
      |multiset(freeCols + pivots)|;
      |multiset(Columns(nb))|;
      |Columns(nb)|;
    }
  }

  /** The back-substitution table of a reduced matrix whose free columns are indexed;
      `backsub` never meets an entry outside the pivot and the free columns. */
  method BuildTable(rows: seq<seq<int>>, n: nat, nb: nat, pivots: seq<nat>, freeCols: seq<nat>,
                    colToFree: seq<nat>, bounds: seq<nat>) returns (table: seq<BackRow>)
    requires Shaped(rows) && n <= 16 && nb <= 16 && Reduced(rows, n, nb, nb, pivots)
    requires FreeIndexed(pivots, nb, freeCols, colToFree) && |bounds| == 16
    ensures Tabled(rows, n, nb, pivots, freeCols, colToFree, bounds, table)
    ensures Evaluable(table, |freeCols|)
  {
    SameMembers(NonPivots(pivots, nb), freeCols);
    FreeColumnsFacts(pivots, nb, freeCols, colToFree);
    var built := BuildBacksub(rows, pivots, nb, colToFree, bounds);
    NoStrayEntry(rows, n, nb, pivots, colToFree);
    table := built.value;
    TabledEvaluable(rows, n, nb, pivots, freeCols, colToFree, bounds, table);
  }

  /** A sequence and its sorted copy hold the same columns. */
  lemma SameMembers(free: seq<nat>, sorted: seq<nat>)
    requires multiset(sorted) == multiset(free)
    ensures forall c :: c in sorted <==> c in free
  {
    forall c ensures c in sorted <==> c in free {
      assert c in multiset(sorted) <==> c in multiset(free);
    }
  }

  lemma {:induction false} SumNonNegative(x: seq<int>)
    requires NonNegative(x)
    ensures Sum(x) >= 0
  {
    if x != [] {
      SumNonNegative(x[..|x| - 1]);
    }
  }

  lemma {:induction false} SumBelow(x: seq<int>, hi: int)
    requires forall c :: 0 <= c < |x| ==> x[c] <= hi
    ensures Sum(x) <= |x| * hi
  {
    if x != [] {
      SumBelow(x[..|x| - 1], hi);
    }
  }

  lemma {:induction false} DeliveredZero(buttons: seq<Mask>, x: seq<int>, l: nat, k: nat)
    requires k <= |buttons| && k <= |x| && forall c :: 0 <= c < k ==> x[c] == 0
    ensures Delivered(buttons, x, l, k) == 0
  {
    if k > 0 {
      DeliveredZero(buttons, x, l, k - 1);
    }
  }

  /** Every joltage is zero. */
  predicate AllZero(m: Machine)
  {
    forall l :: 0 <= l < |m.joltages| ==> m.joltages[l] == 0
  }

  /** With every target zero, pressing nothing is the fewest. */
  lemma ZeroJoltages(m: Machine)
    requires Addressed(m) && AllZero(m)
    ensures FewestJolts(m, 0)
  {
    var x: seq<int> := seq(|m.buttons|, _ => 0);
    forall l | 0 <= l < m.n ensures Delivered(m.buttons, x, l, |x|) == m.joltages[l] {
      DeliveredZero(m.buttons, x, l, |x|);
    }
    assert Meets(m, x);
    SumNonNegative(x);
    SumBelow(x, 0);
    forall y | Meets(m, y) ensures 0 <= Sum(y) {
      SumNonNegative(y);
    }
  }

  /** Without buttons a nonzero target of a counter cannot be met. */
  lemma NoButtons(m: Machine)
    requires Addressed(m) && !AllZero(m) && |m.buttons| == 0 && |m.joltages| == m.n
    ensures !Consistent(m)
  {
    var l :| 0 <= l < |m.joltages| && m.joltages[l] != 0;
    forall x ensures !Equations(m, x) {
      if |x| == 0 {
        assert Delivered(m.buttons, x, l, 0) == 0;
      }
    }
  }

  /** The facts `Prepare` establishes, as the lemmas below need them. */
  ghost predicate Prepared(m: Machine, rows: seq<seq<int>>, pivots: seq<nat>, freeCols: seq<nat>, colToFree: seq<nat>,
                           bounds: seq<nat>, table: seq<BackRow>, mv: seq<nat>)
  {
    Addressed(m) && |m.buttons| <= 16 && m.n <= 16 &&
    Tabled(rows, m.n, |m.buttons|, pivots, freeCols, colToFree, bounds, table) &&
    SameSolutions(rows, Initial(m), m.n, |m.buttons|) &&
    (forall c :: 0 <= c < |m.buttons| ==> LeastTarget(bounds[c], m.buttons[c], m.joltages)) &&
    (|m.buttons| >= 1 && pivots == [] ==> forall r :: 0 <= r < m.n ==> Initial(m)[r][0] == 0) &&
    |mv| == |freeCols| && |freeCols| + |pivots| == |m.buttons| &&
    (forall i :: 0 <= i < |freeCols| ==> freeCols[i] < |m.buttons| && mv[i] == bounds[freeCols[i]] && mv[i] <= U16_MAX) &&
    Evaluable(table, |mv|)
  }

  /** A point of the box that `Cost` accepts is a solution of the machine with that
      total, when its equations have any integer solution. */
  lemma Achieved(m: Machine, rows: seq<seq<int>>, pivots: seq<nat>, freeCols: seq<nat>, colToFree: seq<nat>,
                 bounds: seq<nat>, table: seq<BackRow>, mv: seq<nat>, fv: seq<int>)
    requires Prepared(m, rows, pivots, freeCols, colToFree, bounds, table, mv)
    requires Consistent(m) && InBox(fv, mv) && Cost(table, fv).Some?
    ensures exists x :: Meets(m, x) && Sum(x) == Cost(table, fv).value
  {
    var nb := |m.buttons|;
    var y :| Equations(m, y);
    InitialMeaning(m, y);
    ZeroRowsTargets(rows, m.n, nb, pivots, y);
    CostSolution(rows, m.n, nb, pivots, freeCols, colToFree, bounds, table, fv);
    var x := Completion(table, fv, pivots, colToFree, nb);
    InitialMeaning(m, x);
    assert Meets(m, x);
  }

  /** Every solution of a wired machine is a point of the box with its own total, so a
      search that covers the box finds no more than any solution needs; and no
      solution needs `u32::MAX` presses. */
  lemma Optimal(m: Machine, rows: seq<seq<int>>, pivots: seq<nat>, freeCols: seq<nat>, colToFree: seq<nat>,
                bounds: seq<nat>, table: seq<BackRow>, mv: seq<nat>, best: int, x: seq<int>)
    requires Prepared(m, rows, pivots, freeCols, colToFree, bounds, table, mv)
    requires Wired(m) && Covered(table, mv, best) && Meets(m, x)
    ensures best <= Sum(x) < Day10Lights.U32_MAX
  {
    var nb := |m.buttons|;
    InitialMeaning(m, x);
    forall c | 0 <= c < nb ensures x[c] <= bounds[c] && bounds[c] <= U16_MAX {
      BoundSound(m, x, c, bounds[c]);
    }
    SolutionCost(rows, m.n, nb, pivots, freeCols, colToFree, bounds, table, x);
    var fv := Picked(x, freeCols);
    assert InBox(fv, mv);
    SumBelow(x, U16_MAX);
  }

  /** An answer other than `u32::MAX` is the total of a solution. */
  lemma AnswerSound(m: Machine, rows: seq<seq<int>>, pivots: seq<nat>, freeCols: seq<nat>, colToFree: seq<nat>,
                    bounds: seq<nat>, table: seq<BackRow>, mv: seq<nat>, best: int, point: seq<int>)
    requires Prepared(m, rows, pivots, freeCols, colToFree, bounds, table, mv)
    requires Found(table, mv, best, point)
    ensures best != Day10Lights.U32_MAX && Consistent(m) ==> exists x :: Meets(m, x) && Sum(x) == best
  {
    if best != Day10Lights.U32_MAX && Consistent(m) {
      Achieved(m, rows, pivots, freeCols, colToFree, bounds, table, mv, point);
    }
  }

  /** No pivot row at all only when column 0 is empty; a wired machine has a counter on
      its first button. */
  lemma RankPositive(m: Machine, pivots: seq<nat>)
    requires Addressed(m) && 1 <= |m.buttons| <= 16 && m.n <= 16 && Wired(m)
    requires pivots == [] ==> forall r :: 0 <= r < m.n ==> Initial(m)[r][0] == 0
    ensures pivots != []
  {
    var l :| l in m.buttons[0];
    assert Initial(m)[l][0] == 1;
  }

  // ===========================================================================
  // `solve_joltage` and the puzzle
  // ===========================================================================

  /** What `solve_joltage` promises for machine `m`, with `free` its number of free
      buttons: at most `u32::MAX`; 0, the fewest, with every joltage zero; `u32::MAX`
      with no buttons; otherwise `free` buttons without a pivot, at least the buttons
      beyond the rank; any other answer than `u32::MAX` is the total of a solution of
      equations that have an integer solution; and for a machine whose buttons all have
      counters, with a counter for every joltage and at most three free buttons, the
      fewest presses when there is a solution and `u32::MAX` when there is none. */
  ghost predicate JoltageAnswer(m: Machine, r: nat, free: nat)
  {
    r <= Day10Lights.U32_MAX &&
    (AllZero(m) ==> r == 0 && FewestJolts(m, 0)) &&
    (!AllZero(m) && |m.buttons| == 0 ==> r == Day10Lights.U32_MAX) &&
    (!AllZero(m) && |m.buttons| > 0 ==> free <= |m.buttons| <= m.n + free) &&
    (r != Day10Lights.U32_MAX && Consistent(m) ==> exists x :: Meets(m, x) && Sum(x) == r) &&
    (Wired(m) && Consistent(m) && |m.joltages| == m.n && free <= 3 ==>
      (Feasible(m) ==> FewestJolts(m, r)) && (!Feasible(m) ==> r == Day10Lights.U32_MAX))
  }

  /** The search answer `r` over the box, as `solve_joltage`'s answer. */
  lemma Conclude(m: Machine, rows: seq<seq<int>>, pivots: seq<nat>, freeCols: seq<nat>, colToFree: seq<nat>,
                 bounds: seq<nat>, table: seq<BackRow>, mv: seq<nat>, r: nat, point: seq<int>)
    requires Prepared(m, rows, pivots, freeCols, colToFree, bounds, table, mv)
    requires !AllZero(m) && |m.buttons| >= 1
    requires Found(table, mv, r, point)
    requires |mv| <= 3 && |table| >= 1 ==> Covered(table, mv, r)
    ensures JoltageAnswer(m, r, |mv|)
  {
    AnswerSound(m, rows, pivots, freeCols, colToFree, bounds, table, mv, r, point);
    if Wired(m) && Consistent(m) && |mv| <= 3 {
      RankPositive(m, pivots);
      forall x | Meets(m, x) ensures r <= Sum(x) < Day10Lights.U32_MAX {
        Optimal(m, rows, pivots, freeCols, colToFree, bounds, table, mv, r, x);
      }
    }
  }

  /** `solve_joltage`: the matrix, its elimination, the table, and the search that
      suits the number of free buttons. */
  method SolveJoltage(m: Machine) returns (r: nat, free: nat)
    requires Addressed(m) && |m.buttons| <= 16 && m.n <= 16
    ensures JoltageAnswer(m, r, free)
  {
    if AllZero(m) {
      ZeroJoltages(m);
      return 0, 0;
    }
    if |m.buttons| == 0 {
      if |m.joltages| == m.n {
        NoButtons(m);
      }
      return Day10Lights.U32_MAX, 0;
    }
    var rows, pivots, freeCols, colToFree, bounds, table, mv := Prepare(m);
    var numFree := |freeCols|;
    ghost var point: seq<int>;
    if numFree == 0 {
      assert mv == [];
      r, point := Search0(table);
    } else if numFree == 1 {
      r, point := Search1(table, mv);
    } else if numFree == 2 {
      r, point := Search2(table, mv);
    } else if numFree == 3 {
      r, point := Search3(table, mv);
    } else {
      r, point := SearchDeep(table, mv);
    }
    free := numFree;
    Conclude(m, rows, pivots, freeCols, colToFree, bounds, table, mv, r, point);
  }

  /** What `solve_lights` needs of a machine. */
  predicate LightsFit(m: Machine)
  {
    m.n <= 16 && |m.buttons| < 16 && AllSmall(m.buttons)
  }

  /** What `solve_joltage` needs of a machine. */
  predicate JoltsFit(m: Machine)
  {
    Addressed(m) && |m.buttons| <= 16 && m.n <= 16
  }

  /** Each machine of `ms` has its `solve_lights` answer in `rs`, built up one machine
      at a time. */
  ghost predicate LightsEach(ms: seq<Machine>, rs: seq<nat>)
    decreases |ms|
  {
    |rs| == |ms| &&
    (ms != [] ==> LightsEach(ms[..|ms| - 1], rs[..|rs| - 1]) && Day10Lights.LightsAnswer(ms[|ms| - 1], rs[|rs| - 1]))
  }

  /** Each machine of `ms` has its `solve_joltage` answer in `rs`, with `fs` its
      number of free buttons. */
  ghost predicate JoltsEach(ms: seq<Machine>, rs: seq<nat>, fs: seq<nat>)
    decreases |ms|
  {
    |rs| == |ms| == |fs| &&
    (ms != [] ==> JoltsEach(ms[..|ms| - 1], rs[..|rs| - 1], fs[..|fs| - 1]) &&
                  JoltageAnswer(ms[|ms| - 1], rs[|rs| - 1], fs[|fs| - 1]))
  }

  lemma {:induction false} LightsEachAt(ms: seq<Machine>, rs: seq<nat>, k: nat)
    requires LightsEach(ms, rs) && k < |ms|
    ensures Day10Lights.LightsAnswer(ms[k], rs[k])
    decreases |ms|
  {
    if k < |ms| - 1 {
      LightsEachAt(ms[..|ms| - 1], rs[..|rs| - 1], k);
    }
  }

  lemma LightsEachAll(ms: seq<Machine>, rs: seq<nat>)
    requires LightsEach(ms, rs)
    ensures |rs| == |ms| && forall k :: 0 <= k < |ms| ==> Day10Lights.LightsAnswer(ms[k], rs[k])
  {
    forall k | 0 <= k < |ms| ensures Day10Lights.LightsAnswer(ms[k], rs[k]) {
      LightsEachAt(ms, rs, k);
    }
  }

  lemma LightsEachSnoc(ms: seq<Machine>, rs: seq<nat>, k: nat, r: nat)
    requires k < |ms| && LightsEach(ms[..k], rs) && Day10Lights.LightsAnswer(ms[k], r)
    ensures LightsEach(ms[..k + 1], rs + [r])
  {
    assert (rs + [r])[..k] == rs && ms[..k + 1][..k] == ms[..k];
  }

  lemma {:induction false} JoltsEachAt(ms: seq<Machine>, rs: seq<nat>, fs: seq<nat>, k: nat)
    requires JoltsEach(ms, rs, fs) && k < |ms|
    ensures JoltageAnswer(ms[k], rs[k], fs[k])
    decreases |ms|
  {
    if k < |ms| - 1 {
      JoltsEachAt(ms[..|ms| - 1], rs[..|rs| - 1], fs[..|fs| - 1], k);
    }
  }

  lemma JoltsEachAll(ms: seq<Machine>, rs: seq<nat>, fs: seq<nat>)
    requires JoltsEach(ms, rs, fs)
    ensures |rs| == |ms| == |fs| && forall k :: 0 <= k < |ms| ==> JoltageAnswer(ms[k], rs[k], fs[k])
  {
    forall k | 0 <= k < |ms| ensures JoltageAnswer(ms[k], rs[k], fs[k]) {
      JoltsEachAt(ms, rs, fs, k);
    }
  }

  lemma JoltsEachSnoc(ms: seq<Machine>, rs: seq<nat>, fs: seq<nat>, k: nat, r: nat, f: nat)
    requires k < |ms| && JoltsEach(ms[..k], rs, fs) && JoltageAnswer(ms[k], r, f)
    ensures JoltsEach(ms[..k + 1], rs + [r], fs + [f])
  {
    assert (rs + [r])[..k] == rs && (fs + [f])[..k] == fs && ms[..k + 1][..k] == ms[..k];
  }

  lemma SumSnoc(s: seq<nat>, a: nat)
    ensures Sum(s + [a]) == Sum(s) + a
  {
    assert (s + [a])[..|s|] == s;
  }

  /** `part1`: the sum of `solve_lights` over the machines of the input. */
  method Part1(s: string) returns (total: nat, ghost answers: seq<nat>)
    requires forall k :: 0 <= k < |Machines(s)| ==> LightsFit(Machines(s)[k])
    ensures |answers| == |Machines(s)| && total == Sum(answers)
    ensures forall k :: 0 <= k < |answers| ==> Day10Lights.LightsAnswer(Machines(s)[k], answers[k])
  {
    var machines := ParseMachines(s);
    total, answers := 0, [];
    for k := 0 to |machines|
      invariant |answers| == k && total == Sum(answers)
      invariant LightsEach(machines[..k], answers)
    {
      var r := Day10Lights.SolveLights(machines[k]);
      LightsEachSnoc(machines, answers, k, r);
      SumSnoc(answers, r);
      total, answers := total + r, answers + [r];
    }
    assert machines[..|machines|] == machines;
    LightsEachAll(machines, answers);
  }

  /** `part2`: the sum of `solve_joltage` over the machines of the input. */
  method Part2(s: string) returns (total: nat, ghost answers: seq<nat>, ghost frees: seq<nat>)
    requires forall k :: 0 <= k < |Machines(s)| ==> JoltsFit(Machines(s)[k])
    ensures |answers| == |Machines(s)| == |frees| && total == Sum(answers)
    ensures forall k :: 0 <= k < |answers| ==> JoltageAnswer(Machines(s)[k], answers[k], frees[k])
  {
    var machines := ParseMachines(s);
    total, answers, frees := 0, [], [];
    for k := 0 to |machines|
      invariant |answers| == k && total == Sum(answers)
      invariant JoltsEach(machines[..k], answers, frees)
    {
      var r, f := SolveJoltage(machines[k]);
      JoltsEachSnoc(machines, answers, frees, k, r, f);
      SumSnoc(answers, r);
      total, answers, frees := total + r, answers + [r], frees + [f];
    }
    assert machines[..|machines|] == machines;
    JoltsEachAll(machines, answers, frees);
  }

  /** Both answers for one machine, as `both` takes them. */
  method SolvePair(m: Machine) returns (a: nat, b: nat, ghost f: nat)
    requires LightsFit(m) && JoltsFit(m)
    ensures Day10Lights.LightsAnswer(m, a) && JoltageAnswer(m, b, f)
  {
    a := Day10Lights.SolveLights(m);
    b, f := SolveJoltage(m);
  }

  /** `both`: the two sums in one pass over the machines. */
  method Both(s: string) returns (p1: nat, p2: nat, ghost lights: seq<nat>, ghost jolts: seq<nat>, ghost frees: seq<nat>)
    requires forall k :: 0 <= k < |Machines(s)| ==> LightsFit(Machines(s)[k]) && JoltsFit(Machines(s)[k])
    ensures |lights| == |jolts| == |frees| == |Machines(s)|
    ensures p1 == Sum(lights) && p2 == Sum(jolts)
    ensures forall k :: 0 <= k < |lights| ==> Day10Lights.LightsAnswer(Machines(s)[k], lights[k])
    ensures forall k :: 0 <= k < |jolts| ==> JoltageAnswer(Machines(s)[k], jolts[k], frees[k])
  {
    var machines := ParseMachines(s);
    p1, p2, lights, jolts, frees := 0, 0, [], [], [];
    for k := 0 to |machines|
      invariant |lights| == k == |jolts| && p1 == Sum(lights) && p2 == Sum(jolts)
      invariant LightsEach(machines[..k], lights)
      invariant JoltsEach(machines[..k], jolts, frees)
    {
      var a, b, f := SolvePair(machines[k]);
      LightsEachSnoc(machines, lights, k, a);
      JoltsEachSnoc(machines, jolts, frees, k, b, f);
      SumSnoc(lights, a);
      SumSnoc(jolts, b);
      p1, p2, lights, jolts, frees := p1 + a, p2 + b, lights + [a], jolts + [b], frees + [f];
    }
    assert machines[..|machines|] == machines;
    LightsEachAll(machines, lights);
    JoltsEachAll(machines, jolts, frees);
  }
}
