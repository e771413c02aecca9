/** Day 10, part 2: what `solve_joltage` derives from the reduced matrix before it
    searches.  The columns without a pivot are the free buttons; each pivot row becomes
    a back-substitution entry giving its pivot button's presses from the free ones, and
    `eval_fast` turns values of the free buttons into a total, or into nothing when a
    pivot button would need a fractional, negative or too large count. */
module Day10Backsub {
  import opened Common
  import opened Day10Joltage
  import opened Day10Reduce

  /** `u8::MAX`: what `col_to_free` holds for a column that is not free. */
  const NO_FREE: nat := 0xFF

  /** One term of a back-substitution row: a free variable's index and its coefficient. */
  datatype Term = Term(free: nat, coeff: int)

  /** A pivot row as `solve_joltage` stores it: the pivot, the target column, the bound of
      the pivot button and the terms of the free buttons in column order. */
  datatype BackRow = BackRow(pivot: int, rhs: int, bound: int, terms: seq<Term>)

  // ===========================================================================
  // Evaluation
  // ===========================================================================

  /** Every pivot is nonzero and every term names one of the first `k` free values. */
  predicate Evaluable(table: seq<BackRow>, k: nat)
  {
    forall r :: 0 <= r < |table| ==> table[r].pivot != 0 && forall i :: 0 <= i < |table[r].terms| ==> table[r].terms[i].free < k
  }

  /** The sum of `coeff * fv[free]` over the terms. */
  function TermSum(terms: seq<Term>, fv: seq<int>): int
    requires forall i :: 0 <= i < |terms| ==> terms[i].free < |fv|
  {
    if terms == [] then 0
    else TermSum(terms[..|terms| - 1], fv) + terms[|terms| - 1].coeff * fv[terms[|terms| - 1].free]
  }

  /** The presses of the row's pivot button: the number that times the pivot gives
      `rhs` minus the free terms, and nothing when there is no such integer. */
  function PivotValue(b: BackRow, fv: seq<int>): (v: Option<int>)
    requires b.pivot != 0 && forall i :: 0 <= i < |b.terms| ==> b.terms[i].free < |fv|
    ensures v.Some? ==> b.pivot * v.value == b.rhs - TermSum(b.terms, fv)
    ensures v.None? ==> !Divides(Abs(b.pivot), b.rhs - TermSum(b.terms, fv))
  {
    var sum := b.rhs - TermSum(b.terms, fv);
    if b.pivot == 1 then Some(sum)
    else if b.pivot == -1 then Some(-sum)
    else if Rem(sum, b.pivot) != 0 then
      RemZero(sum, b.pivot);
      None
    else
      QuotExact(sum, b.pivot);
      Some(Quot(sum, b.pivot))
  }

  /** Row by row from `r`: add each pivot button's presses to `total`, failing when one
      has none, is negative or exceeds its bound. */
  function Outcome(table: seq<BackRow>, fv: seq<int>, total: int, r: nat): Option<int>
    requires Evaluable(table, |fv|)
    decreases |table| - r
  {
    if r >= |table| then Some(total)
    else match PivotValue(table[r], fv)
      case None => None
      case Some(v) => if v < 0 || v > table[r].bound then None else Outcome(table, fv, total + v, r + 1)
  }

  /** The total presses the free values `fv` lead to: theirs and the pivot buttons'. */
  function Cost(table: seq<BackRow>, fv: seq<int>): Option<int>
    requires Evaluable(table, |fv|)
  {
    Outcome(table, fv, Sum(fv), 0)
  }

  /** `eval_fast` from row `r` on: `Outcome`, and also failing as soon as the running
      total reaches `best`. */
  function EvalFrom(table: seq<BackRow>, fv: seq<int>, total: int, best: int, r: nat): Option<int>
    requires Evaluable(table, |fv|)
    decreases |table| - r
  {
    if r >= |table| then Some(total)
    else match PivotValue(table[r], fv)
      case None => None
      case Some(v) =>
        if v < 0 || v > table[r].bound then None
        else if total + v >= best then None
        else EvalFrom(table, fv, total + v, best, r + 1)
  }

  /** A total grows by at most the bounds of the rows left. */
  lemma {:induction false} OutcomeBound(table: seq<BackRow>, fv: seq<int>, total: int, r: nat)
    requires Evaluable(table, |fv|) && Outcome(table, fv, total, r).Some? && r <= |table|
    requires forall q :: 0 <= q < |table| ==> table[q].bound <= U16_MAX
    ensures Outcome(table, fv, total, r).value <= total + (|table| - r) * U16_MAX
    decreases |table| - r
  {
    if r < |table| {
      var v := PivotValue(table[r], fv).value;
      OutcomeBound(table, fv, total + v, r + 1);
    }
  }

  /** `eval_fast` is `Outcome` cut off at `best`, except that with no pivot rows at all
      it returns the free total without comparing it with `best`. */
  lemma {:induction false} EvalOutcome(table: seq<BackRow>, fv: seq<int>, total: int, best: int, r: nat)
    requires Evaluable(table, |fv|) && r <= |table|
    ensures EvalFrom(table, fv, total, best, r) ==
      if r == |table| then Some(total)
      else if Outcome(table, fv, total, r).Some? && Outcome(table, fv, total, r).value < best then Outcome(table, fv, total, r)
      else None
    decreases |table| - r
  {
    if r < |table| && PivotValue(table[r], fv).Some? {
      var v := PivotValue(table[r], fv).value;
      if 0 <= v <= table[r].bound {
        EvalOutcome(table, fv, total + v, best, r + 1);
        if r + 1 < |table| && Outcome(table, fv, total + v, r + 1).Some? {
          OutcomeAtLeast(table, fv, total + v, r + 1);
        }
      }
    }
  }

  /** A total only grows. */
  lemma {:induction false} OutcomeAtLeast(table: seq<BackRow>, fv: seq<int>, total: int, r: nat)
    requires Evaluable(table, |fv|) && Outcome(table, fv, total, r).Some?
    ensures total <= Outcome(table, fv, total, r).value
    decreases |table| - r
  {
    if r < |table| {
      var v := PivotValue(table[r], fv).value;
      OutcomeAtLeast(table, fv, total + v, r + 1);
    }
  }

  /** `eval_fast`: for each pivot row, `rhs` minus the free terms, divided by the pivot
      (negated for `-1`, exactly otherwise); nothing when that fails, is negative or
      exceeds the bound, or when the running total reaches `best`. */
  method EvalFast(fv: seq<int>, totalFree: int, table: seq<BackRow>, best: int) returns (res: Option<int>)
    requires Evaluable(table, |fv|)
    ensures res == EvalFrom(table, fv, totalFree, best, 0)
  {
    var total := totalFree;
    for r := 0 to |table|
      invariant EvalFrom(table, fv, totalFree, best, 0) == EvalFrom(table, fv, total, best, r)
    {
      var b := table[r];
      var sum := b.rhs;
      for i := 0 to |b.terms|
        invariant sum == b.rhs - TermSum(b.terms[..i], fv)
      {
        assert b.terms[..i + 1][..i] == b.terms[..i];
        sum := sum - b.terms[i].coeff * fv[b.terms[i].free];
      }
      assert b.terms[..|b.terms|] == b.terms;
      var val;
      if b.pivot == 1 {
        val := sum;
      } else if b.pivot == -1 {
        val := -sum;
      } else {
        if Rem(sum, b.pivot) != 0 {
          return None;
        }
        val := Quot(sum, b.pivot);
      }
      if val < 0 || val > b.bound {
        return None;
      }
      total := total + val;
      if total >= best {
        return None;
      }
    }
    return Some(total);
  }

  // ===========================================================================
  // The free columns
  // ===========================================================================

  /** The button columns below `k` that hold no pivot, in increasing order. */
  function NonPivots(pivots: seq<nat>, k: nat): (cs: seq<nat>)
    ensures forall c: nat :: c in cs <==> c < k && c !in pivots
    ensures forall i, j :: 0 <= i < j < |cs| ==> cs[i] < cs[j]
    ensures forall i :: 0 <= i < |cs| ==> cs[i] < k
  {
    if k == 0 then []
    else NonPivots(pivots, k - 1) + (if k - 1 in pivots then [] else [k - 1])
  }

  /** `is_pivot`, then the loop over the button columns collecting those that are not
      pivots. */
  method CollectFree(pivots: seq<nat>, nb: nat) returns (free: seq<nat>)
    requires nb <= 16 && forall q :: 0 <= q < |pivots| ==> pivots[q] < 16
    ensures free == NonPivots(pivots, nb)
  {
    var isPivot := new bool[16](_ => false);
    for r := 0 to |pivots|
      invariant forall c :: 0 <= c < 16 ==> (isPivot[c] <==> c in pivots[..r])
    {
      assert pivots[..r + 1] == pivots[..r] + [pivots[r]];
      isPivot[pivots[r]] := true;
    }
    assert pivots[..|pivots|] == pivots;
    free := [];
    for col := 0 to nb
      invariant free == NonPivots(pivots, col)
    {
      if !isPivot[col] {
        free := free + [col];
      }
    }
  }

  /** `col_to_free`: the index of each free column among `free_cols`, and `u8::MAX`
      elsewhere. */
  method ColToFree(freeCols: seq<nat>) returns (colToFree: seq<nat>)
    requires |freeCols| <= 16 && forall i :: 0 <= i < |freeCols| ==> freeCols[i] < 16
    ensures |colToFree| == 16
    ensures forall c :: 0 <= c < 16 && c in freeCols ==> colToFree[c] < |freeCols| && freeCols[colToFree[c]] == c
    ensures forall c :: 0 <= c < 16 && c !in freeCols ==> colToFree[c] == NO_FREE
  {
    var arr := new nat[16](_ => NO_FREE);
    for idx := 0 to |freeCols|
      invariant forall c :: 0 <= c < 16 && c in freeCols[..idx] ==> arr[c] < idx && freeCols[arr[c]] == c
      invariant forall c :: 0 <= c < 16 && c !in freeCols[..idx] ==> arr[c] == NO_FREE
    {
      assert freeCols[..idx + 1] == freeCols[..idx] + [freeCols[idx]];
      arr[freeCols[idx]] := idx;
    }
    assert freeCols[..|freeCols|] == freeCols;
    colToFree := arr[..];
  }

  // ===========================================================================
  // The back-substitution table
  // ===========================================================================

  /** The terms of `row` over the columns below `k`: each nonzero entry off the pivot
      column, with the free index `col_to_free` gives its column. */
  function TermsOf(row: seq<int>, pc: nat, colToFree: seq<nat>, k: nat): seq<Term>
    requires k <= |row| && k <= |colToFree|
  {
    if k == 0 then []
    else
      var t := if k - 1 != pc && row[k - 1] != 0 then [Term(colToFree[k - 1], row[k - 1])] else [];
      TermsOf(row, pc, colToFree, k - 1) + t
  }

  /** The loop over the button columns of one pivot row; it gives up, as `solve_joltage`
      does by returning `u32::MAX`, on a nonzero entry in a column that is neither the
      pivot's nor free. */
  method BackRowFor(row: seq<int>, pc: nat, nb: nat, colToFree: seq<nat>, bound: int) returns (b: Option<BackRow>)
    requires |row| == WIDTH && nb <= 16 && |colToFree| == 16 && pc < nb
    ensures b.None? <==> exists c :: 0 <= c < nb && c != pc && row[c] != 0 && colToFree[c] == NO_FREE
    ensures b.Some? ==> b.value == BackRow(row[pc], row[nb], bound, TermsOf(row, pc, colToFree, nb))
  {
    var terms := [];
    for c := 0 to nb
      invariant terms == TermsOf(row, pc, colToFree, c)
      invariant forall k :: 0 <= k < c && k != pc && row[k] != 0 ==> colToFree[k] != NO_FREE
    {
      if c != pc && row[c] != 0 {
        var freeIdx := colToFree[c];
        if freeIdx == NO_FREE {
          return None;
        }
        terms := terms + [Term(freeIdx, row[c])];
      }
    }
    return Some(BackRow(row[pc], row[nb], bound, terms));
  }

  /** The row of the table for pivot row `r`. */
  function BackRowOf(rows: seq<seq<int>>, pivots: seq<nat>, nb: nat, colToFree: seq<nat>, bounds: seq<nat>, r: nat): BackRow
    requires Shaped(rows) && r < |pivots| <= 16 && nb <= 16 && |colToFree| == 16 && |bounds| == 16
    requires pivots[r] < nb
  {
    BackRow(rows[r][pivots[r]], rows[r][nb], bounds[pivots[r]], TermsOf(rows[r], pivots[r], colToFree, nb))
  }

  /** The loop `for r in 0..rank` filling `backsub`. */
  method BuildBacksub(rows: seq<seq<int>>, pivots: seq<nat>, nb: nat, colToFree: seq<nat>, bounds: seq<nat>)
    returns (table: Option<seq<BackRow>>)
    requires Shaped(rows) && |pivots| <= 16 && nb <= 16 && |colToFree| == 16 && |bounds| == 16
    requires forall q :: 0 <= q < |pivots| ==> pivots[q] < nb
    ensures table.None? <==> exists r, c :: 0 <= r < |pivots| && 0 <= c < nb && c != pivots[r] && rows[r][c] != 0 && colToFree[c] == NO_FREE
    ensures table.Some? ==> |table.value| == |pivots|
    ensures table.Some? ==> forall r :: 0 <= r < |pivots| ==> table.value[r] == BackRowOf(rows, pivots, nb, colToFree, bounds, r)
  {
    var t := [];
    for r := 0 to |pivots|
      invariant |t| == r
      invariant forall q :: 0 <= q < r ==> t[q] == BackRowOf(rows, pivots, nb, colToFree, bounds, q)
      invariant forall q, c :: 0 <= q < r && 0 <= c < nb && c != pivots[q] && rows[q][c] != 0 ==> colToFree[c] != NO_FREE
    {
      var b := BackRowFor(rows[r], pivots[r], nb, colToFree, bounds[pivots[r]]);
      if b.None? {
        return None;
      }
      t := t + [b.value];
    }
    return Some(t);
  }

  /** In reduced form a nonzero entry off the pivot is in a column without a pivot,
      which is free: the early return of the table loop never happens. */
  lemma NoStrayEntry(rows: seq<seq<int>>, n: nat, nb: nat, pivots: seq<nat>, colToFree: seq<nat>)
    requires Shaped(rows) && n <= 16 && nb < WIDTH && Reduced(rows, n, nb, nb, pivots) && |colToFree| == 16
    requires forall c :: 0 <= c < 16 && c !in NonPivots(pivots, nb) ==> colToFree[c] == NO_FREE
    requires forall c :: 0 <= c < 16 && c in NonPivots(pivots, nb) ==> colToFree[c] != NO_FREE
    ensures !exists r, c :: 0 <= r < |pivots| && 0 <= c < nb && c != pivots[r] && rows[r][c] != 0 && colToFree[c] == NO_FREE
  {
    forall r, c | 0 <= r < |pivots| && 0 <= c < nb && c != pivots[r] && colToFree[c] == NO_FREE
      ensures rows[r][c] == 0
    {
      assert c !in NonPivots(pivots, nb);
      var q :| 0 <= q < |pivots| && pivots[q] == c;
    }
  }
}
