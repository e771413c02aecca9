/** Day 10, part 2: what the back-substitution table means.  Values of the free buttons
    that `Cost` accepts complete, with the pivot buttons' counts it computes, to a
    solution of the reduced matrix with that many presses in all; and every
    non-negative solution within the bounds is found this way from its own free
    values. */
module Day10Complete {
  import opened Common
  import opened Day10Joltage
  import opened Day10Reduce
  import opened Day10Backsub

  // ===========================================================================
  // Sums over columns
  // ===========================================================================

  /** The sum of `x` over the columns `idx` (a column past the end counts nothing). */
  function SumAt(x: seq<int>, idx: seq<nat>): int
  {
    if idx == [] then 0 else (if idx[0] < |x| then x[idx[0]] else 0) + SumAt(x, idx[1..])
  }

  /** The entries of `x` at the columns `idx`, in that order. */
  function Picked(x: seq<int>, idx: seq<nat>): (p: seq<int>)
    requires forall i :: 0 <= i < |idx| ==> idx[i] < |x|
    ensures |p| == |idx| && forall i :: 0 <= i < |idx| ==> p[i] == x[idx[i]]
  {
    seq(|idx|, i requires 0 <= i < |idx| => x[idx[i]])
  }

  /** `0, 1, …, k - 1`. */
  function Columns(k: nat): (cs: seq<nat>)
    ensures |cs| == k && forall i :: 0 <= i < k ==> cs[i] == i
  {
    seq(k, i requires 0 <= i < k => i)
  }

  lemma {:induction false} SumAtAppend(x: seq<int>, a: seq<nat>, b: seq<nat>)
    ensures SumAt(x, a + b) == SumAt(x, a) + SumAt(x, b)
  {
    if a == [] {
      assert a + b == b;
    } else {
      assert (a + b)[1..] == a[1..] + b;
      SumAtAppend(x, a[1..], b);
    }
  }

  /** `b` without its entry at `j`. */
  function Without(b: seq<nat>, j: nat): (r: seq<nat>)
    requires j < |b|
    ensures |r| == |b| - 1
  {
    b[..j] + b[j + 1..]
  }

  /** Taking one column out of the sum. */
  lemma {:induction false} SumAtRemove(x: seq<int>, b: seq<nat>, j: nat)
    requires j < |b|
    ensures SumAt(x, b) == (if b[j] < |x| then x[b[j]] else 0) + SumAt(x, Without(b, j))
  {
    if j == 0 {
      assert Without(b, 0) == b[1..];
    } else {
      SumAtRemove(x, b[1..], j - 1);
      assert Without(b, j) == [b[0]] + Without(b[1..], j - 1);
      assert (Without(b, j))[1..] == Without(b[1..], j - 1);
    }
  }

  lemma MultisetWithout(b: seq<nat>, j: nat)
    requires j < |b|
    ensures multiset(Without(b, j)) == multiset(b) - multiset{b[j]}
  {
    var front, back := b[..j], b[j + 1..];
    assert b == front + ([b[j]] + back);
    assert multiset(b) == multiset(front) + multiset{b[j]} + multiset(back);
  }

  /** The sum over columns does not depend on their order. */
  lemma {:induction false} SumAtPerm(x: seq<int>, a: seq<nat>, b: seq<nat>)
    requires multiset(a) == multiset(b)
    ensures SumAt(x, a) == SumAt(x, b)
    decreases |a|
  {
    if a == [] {
      assert |b| == |multiset(b)| == 0;
    } else {
      var v := a[0];
      assert v in multiset(b) by {
        assert v in a;
      }
      var j :| 0 <= j < |b| && b[j] == v;
      var rest := Without(b, j);
      SumAtRemove(x, b, j);
      MultisetWithout(b, j);
      assert a == [v] + a[1..];
      assert multiset(a[1..]) == multiset(rest);
      SumAtPerm(x, a[1..], rest);
    }
  }

  /** Summing over all columns in order is `Sum`. */
  lemma {:induction false} SumAtColumns(x: seq<int>, k: nat)
    requires k <= |x|
    ensures SumAt(x, Columns(k)) == Sum(x[..k])
  {
    if k > 0 {
      assert Columns(k) == Columns(k - 1) + [k - 1];
      SumAtAppend(x, Columns(k - 1), [k - 1]);
      SumAtColumns(x, k - 1);
      assert x[..k][..k - 1] == x[..k - 1];
    }
  }

  /** Summing the entries of `x` at the columns `idx` is summing over those columns. */
  lemma {:induction false} SumPicked(x: seq<int>, idx: seq<nat>, fv: seq<int>)
    requires |fv| == |idx| && forall i :: 0 <= i < |idx| ==> idx[i] < |x| && fv[i] == x[idx[i]]
    ensures Sum(fv) == SumAt(x, idx)
    decreases |idx|
  {
    if idx != [] {
      var k := |idx| - 1;
      assert idx == idx[..k] + [idx[k]];
      SumPicked(x, idx[..k], fv[..k]);
      SumAtAppend(x, idx[..k], [idx[k]]);
    }
  }

  /** In a strictly increasing sequence every element occurs once. */
  lemma {:induction false} IncreasingCount(s: seq<nat>, v: nat)
    requires forall i, j :: 0 <= i < j < |s| ==> s[i] < s[j]
    ensures multiset(s)[v] == if v in s then 1 else 0
    decreases |s|
  {
    if s != [] {
      var k := |s| - 1;
      var init := s[..k];
      assert s == init + [s[k]];
      IncreasingCount(init, v);
      assert s[k] !in init;
      assert multiset(s) == multiset(init) + multiset{s[k]};
    }
  }

  /** A sequence whose elements occur at most once has no repeated entry. */
  lemma NoRepeat(s: seq<nat>, i: nat, j: nat)
    requires (forall v: nat :: multiset(s)[v] <= 1) && i < j < |s|
    ensures s[i] != s[j]
  {
    var front, back := s[..j], s[j..];
    assert s == front + back;
    assert front[i] == s[i] && back[0] == s[j];
    assert s[i] in front && s[j] in back;
    assert multiset(s) == multiset(front) + multiset(back);
    assert multiset(front)[s[i]] >= 1 && multiset(back)[s[j]] >= 1;
    assert multiset(s)[s[i]] == multiset(front)[s[i]] + multiset(back)[s[i]];
  }

  /** The free columns and the pivot columns together are every button column once. */
  lemma ColumnsSplit(pivots: seq<nat>, freeCols: seq<nat>, nb: nat)
    requires forall i, j :: 0 <= i < j < |pivots| ==> pivots[i] < pivots[j]
    requires forall i :: 0 <= i < |pivots| ==> pivots[i] < nb
    requires multiset(freeCols) == multiset(NonPivots(pivots, nb))
    ensures multiset(freeCols + pivots) == multiset(Columns(nb))
  {
    var np := NonPivots(pivots, nb);
    assert multiset(freeCols + pivots) == multiset(np) + multiset(pivots);
    forall v: nat
      ensures multiset(freeCols + pivots)[v] == multiset(Columns(nb))[v]
    {
      IncreasingCount(np, v);
      IncreasingCount(pivots, v);
      IncreasingCount(Columns(nb), v);
      assert v in Columns(nb) <==> v < nb by {
        if v < nb {
          assert Columns(nb)[v] == v;
        }
      }
    }
  }

  /** The presses split into the free buttons' and the pivot buttons'. */
  lemma SumSplit(x: seq<int>, freeCols: seq<nat>, pivots: seq<nat>, fv: seq<int>)
    requires forall i, j :: 0 <= i < j < |pivots| ==> pivots[i] < pivots[j]
    requires forall i :: 0 <= i < |pivots| ==> pivots[i] < |x|
    requires multiset(freeCols) == multiset(NonPivots(pivots, |x|))
    requires |fv| == |freeCols| && forall i :: 0 <= i < |freeCols| ==> freeCols[i] < |x| && fv[i] == x[freeCols[i]]
    ensures Sum(fv) + SumAt(x, pivots) == Sum(x)
  {
    ColumnsSplit(pivots, freeCols, |x|);
    SumPicked(x, freeCols, fv);
    SumAtAppend(x, freeCols, pivots);
    SumAtAll(x, freeCols + pivots);
  }

  /** Summing over every column once, in any order, is `Sum`. */
  lemma SumAtAll(x: seq<int>, idx: seq<nat>)
    requires multiset(idx) == multiset(Columns(|x|))
    ensures forall i :: 0 <= i < |idx| ==> idx[i] < |x|
    ensures SumAt(x, idx) == Sum(x)
  {
    forall i | 0 <= i < |idx|
      ensures idx[i] < |x|
    {
      assert idx[i] in multiset(Columns(|x|));
    }
    SumAtPerm(x, idx, Columns(|x|));
    SumAtColumns(x, |x|);
    assert x[..|x|] == x;
  }

  // ===========================================================================
  // The table and the reduced matrix
  // ===========================================================================

  /** `freeCols` holds the button columns without a pivot, in some order, and
      `colToFree` maps each of them back to its place there and every other column to
      `u8::MAX`. */
  ghost predicate FreeIndexed(pivots: seq<nat>, nb: nat, freeCols: seq<nat>, colToFree: seq<nat>)
  {
    multiset(freeCols) == multiset(NonPivots(pivots, nb)) && |colToFree| == 16 &&
    (forall c :: 0 <= c < 16 && c in freeCols ==> colToFree[c] < |freeCols| && freeCols[colToFree[c]] == c) &&
    (forall c :: 0 <= c < 16 && c !in freeCols ==> colToFree[c] == NO_FREE)
  }

  /** How the table comes from the reduced matrix: row `r` of the table is pivot row
      `r`, read through `colToFree`. */
  ghost predicate Tabled(rows: seq<seq<int>>, n: nat, nb: nat, pivots: seq<nat>, freeCols: seq<nat>,
                         colToFree: seq<nat>, bounds: seq<nat>, table: seq<BackRow>)
  {
    Shaped(rows) && n <= 16 && nb <= 16 && Reduced(rows, n, nb, nb, pivots) &&
    FreeIndexed(pivots, nb, freeCols, colToFree) && |bounds| == 16 && |table| == |pivots| &&
    forall r :: 0 <= r < |pivots| ==> table[r] == BackRowOf(rows, pivots, nb, colToFree, bounds, r)
  }

  /** The free columns are the button columns without a pivot, each once, and
      `colToFree` gives each its own place. */
  lemma FreeColumnsFacts(pivots: seq<nat>, nb: nat, freeCols: seq<nat>, colToFree: seq<nat>)
    requires nb <= 16 && FreeIndexed(pivots, nb, freeCols, colToFree)
    ensures forall c: nat :: c in freeCols <==> c < nb && c !in pivots
    ensures forall i :: 0 <= i < |freeCols| ==> freeCols[i] < nb && colToFree[freeCols[i]] == i
    ensures |freeCols| <= 16
  {
    var np := NonPivots(pivots, nb);
    forall c: nat
      ensures c in freeCols <==> c < nb && c !in pivots
    {
      assert c in freeCols <==> c in multiset(freeCols);
      assert c in np <==> c in multiset(np);
    }
    forall v: nat
      ensures multiset(freeCols)[v] <= 1
    {
      IncreasingCount(np, v);
    }
    forall i | 0 <= i < |freeCols|
      ensures freeCols[i] < nb && colToFree[freeCols[i]] == i
    {
      var c := freeCols[i];
      assert c in freeCols;
      var k := colToFree[c];
      if k < i {
        NoRepeat(freeCols, k, i);
      } else if k > i {
        NoRepeat(freeCols, i, k);
      }
    }
    assert |freeCols| == |multiset(np)| == |np|;
    NonPivotsLength(pivots, nb);
  }

  lemma {:induction false} NonPivotsLength(pivots: seq<nat>, k: nat)
    ensures |NonPivots(pivots, k)| <= k
  {
    if k > 0 {
      var prev := NonPivots(pivots, k - 1);
      var tail: seq<nat> := if k - 1 in pivots then [] else [k - 1];
      assert NonPivots(pivots, k) == prev + tail;
      NonPivotsLength(pivots, k - 1);
    }
  }

  /** Every term's free index is below `bound` when the columns it comes from are. */
  lemma {:induction false} TermsOfFree(row: seq<int>, pc: nat, colToFree: seq<nat>, k: nat, bound: nat)
    requires k <= |row| && k <= |colToFree|
    requires forall c :: 0 <= c < k && c != pc && row[c] != 0 ==> colToFree[c] < bound
    ensures forall i :: 0 <= i < |TermsOf(row, pc, colToFree, k)| ==> TermsOf(row, pc, colToFree, k)[i].free < bound
  {
    if k > 0 {
      TermsOfFree(row, pc, colToFree, k - 1, bound);
    }
  }

  /** The row's product with `x` is its pivot term plus the free terms, when `fv` holds
      `x`'s value for each free column the terms read. */
  lemma {:induction false} TermsOfDot(row: seq<int>, pc: nat, colToFree: seq<nat>, fv: seq<int>, x: seq<int>, k: nat)
    requires k <= |row| && k <= |colToFree| && k <= |x| && pc < |row| && pc < |x|
    requires forall c :: 0 <= c < k && c != pc && row[c] != 0 ==> colToFree[c] < |fv| && fv[colToFree[c]] == x[c]
    ensures forall i :: 0 <= i < |TermsOf(row, pc, colToFree, k)| ==> TermsOf(row, pc, colToFree, k)[i].free < |fv|
    ensures Dot(row, x, k) == (if pc < k then row[pc] * x[pc] else 0) + TermSum(TermsOf(row, pc, colToFree, k), fv)
  {
    TermsOfFree(row, pc, colToFree, k, |fv|);
    if k > 0 {
      TermsOfDot(row, pc, colToFree, fv, x, k - 1);
      var t := TermsOf(row, pc, colToFree, k - 1);
      if k - 1 != pc && row[k - 1] != 0 {
        var t1 := t + [Term(colToFree[k - 1], row[k - 1])];
        assert TermsOf(row, pc, colToFree, k) == t1;
        assert t1[..|t|] == t;
      } else {
        assert TermsOf(row, pc, colToFree, k) == t;
      }
    }
  }

  /** A nonzero entry off the pivot of a pivot row lies in a free column. */
  lemma OffPivotFree(rows: seq<seq<int>>, n: nat, nb: nat, pivots: seq<nat>, freeCols: seq<nat>,
                     colToFree: seq<nat>, r: nat, c: nat)
    requires Shaped(rows) && n <= 16 && nb <= 16 && Reduced(rows, n, nb, nb, pivots)
    requires FreeIndexed(pivots, nb, freeCols, colToFree)
    requires r < |pivots| && c < nb && c != pivots[r] && rows[r][c] != 0
    ensures colToFree[c] < |freeCols| && freeCols[colToFree[c]] == c
  {
    forall q | 0 <= q < |pivots|
      ensures pivots[q] != c
    {
      if q != r {
        assert rows[r][pivots[q]] == 0;
      }
    }
    assert c !in pivots;
    assert c in NonPivots(pivots, nb);
    assert c in multiset(NonPivots(pivots, nb));
    assert c in freeCols;
  }

  /** A pivot row's product with `x` is its pivot term plus its free terms read from
      `fv`, when `fv` holds `x`'s values at the free columns. */
  lemma RowTerms(rows: seq<seq<int>>, n: nat, nb: nat, pivots: seq<nat>, freeCols: seq<nat>,
                 colToFree: seq<nat>, bounds: seq<nat>, table: seq<BackRow>, q: nat, fv: seq<int>, x: seq<int>)
    requires Tabled(rows, n, nb, pivots, freeCols, colToFree, bounds, table)
    requires q < |pivots| && |x| == nb && |fv| == |freeCols|
    requires forall i :: 0 <= i < |freeCols| ==> freeCols[i] < nb && fv[i] == x[freeCols[i]]
    ensures table[q].pivot != 0 && forall i :: 0 <= i < |table[q].terms| ==> table[q].terms[i].free < |fv|
    ensures Dot(rows[q], x, nb) == table[q].pivot * x[pivots[q]] + TermSum(table[q].terms, fv)
    ensures table[q].rhs == rows[q][nb]
  {
    var row, pc := rows[q], pivots[q];
    forall c | 0 <= c < nb && c != pc && row[c] != 0
      ensures colToFree[c] < |fv| && fv[colToFree[c]] == x[c]
    {
      OffPivotFree(rows, n, nb, pivots, freeCols, colToFree, q, c);
    }
    TermsOfDot(row, pc, colToFree, fv, x, nb);
  }

  /** The table can be evaluated on values for the free columns. */
  lemma TabledEvaluable(rows: seq<seq<int>>, n: nat, nb: nat, pivots: seq<nat>, freeCols: seq<nat>,
                        colToFree: seq<nat>, bounds: seq<nat>, table: seq<BackRow>)
    requires Tabled(rows, n, nb, pivots, freeCols, colToFree, bounds, table)
    ensures Evaluable(table, |freeCols|)
  {
    forall r | 0 <= r < |table|
      ensures table[r].pivot != 0
      ensures forall i :: 0 <= i < |table[r].terms| ==> table[r].terms[i].free < |freeCols|
    {
      forall c | 0 <= c < nb && c != pivots[r] && rows[r][c] != 0
        ensures colToFree[c] < |freeCols|
      {
        OffPivotFree(rows, n, nb, pivots, freeCols, colToFree, r, c);
      }
      TermsOfFree(rows[r], pivots[r], colToFree, nb, |freeCols|);
    }
  }

  /** A number divides its own multiples, whatever its sign. */
  lemma AbsDivides(p: int, v: int)
    requires p != 0
    ensures Divides(Abs(p), p * v)
  {
    if p < 0 {
      assert p * v == Abs(p) * -v;
      DividesMultiple(Abs(p), -v);
    } else {
      DividesMultiple(p, v);
    }
  }

  lemma MulCancel(p: int, u: int, v: int)
    requires p != 0 && p * u == p * v
    ensures u == v
  {
    assert p * (u - v) == p * u - p * v;
    MulZero(p, u - v);
  }

  /** The pivot value of a row is the one that times the pivot gives the rest. */
  lemma PivotOfSolution(b: BackRow, fv: seq<int>, v: int)
    requires b.pivot != 0 && forall i :: 0 <= i < |b.terms| ==> b.terms[i].free < |fv|
    requires b.pivot * v == b.rhs - TermSum(b.terms, fv)
    ensures PivotValue(b, fv) == Some(v)
  {
    AbsDivides(b.pivot, v);
    var pv := PivotValue(b, fv);
    assert pv.Some?;
    MulCancel(b.pivot, pv.value, v);
  }

  lemma {:induction false} DotZero(row: seq<int>, x: seq<int>, k: nat)
    requires k <= |row| && k <= |x| && forall c :: 0 <= c < k ==> row[c] == 0
    ensures Dot(row, x, k) == 0
  {
    if k > 0 {
      DotZero(row, x, k - 1);
    }
  }

  /** When the rows have any solution, the rows past the pivots, which are zero in
      every button column, have a zero target. */
  lemma ZeroRowsTargets(rows: seq<seq<int>>, n: nat, nb: nat, pivots: seq<nat>, y: seq<int>)
    requires Shaped(rows) && n <= 16 && nb < WIDTH && Reduced(rows, n, nb, nb, pivots)
    requires |y| == nb && Satisfies(rows, n, nb, y)
    ensures forall r :: |pivots| <= r < n ==> rows[r][nb] == 0
  {
    forall r | |pivots| <= r < n
      ensures rows[r][nb] == 0
    {
      DotZero(rows[r], y, nb);
    }
  }

  /** From row `r` on, rows whose pivot value is `x`'s at the pivot column evaluate to
      `total` plus `x` over those columns. */
  lemma {:induction false} OutcomeOfSolution(table: seq<BackRow>, fv: seq<int>, x: seq<int>, pivots: seq<nat>, total: int, r: nat)
    requires Evaluable(table, |fv|) && |table| == |pivots| && r <= |table|
    requires forall q :: 0 <= q < |pivots| ==> pivots[q] < |x|
    requires forall q :: 0 <= q < |table| ==> PivotValue(table[q], fv) == Some(x[pivots[q]])
    requires forall q :: 0 <= q < |table| ==> 0 <= x[pivots[q]] <= table[q].bound
    ensures Outcome(table, fv, total, r) == Some(total + SumAt(x, pivots[r..]))
    decreases |table| - r
  {
    if r < |table| {
      OutcomeOfSolution(table, fv, x, pivots, total + x[pivots[r]], r + 1);
      assert pivots[r..][1..] == pivots[r + 1..];
    }
  }

  /** Where `Outcome` succeeds every row from `r` on has a pivot value within its
      bound. */
  lemma {:induction false} OutcomeRows(table: seq<BackRow>, fv: seq<int>, total: int, r: nat)
    requires Evaluable(table, |fv|) && Outcome(table, fv, total, r).Some?
    ensures forall q :: r <= q < |table| ==>
      PivotValue(table[q], fv).Some? && 0 <= PivotValue(table[q], fv).value <= table[q].bound
    decreases |table| - r
  {
    if r < |table| {
      OutcomeRows(table, fv, total + PivotValue(table[r], fv).value, r + 1);
    }
  }

  /** The presses of every button when the free ones take the values `fv`: those, and
      the pivot values of the table's rows for the pivot columns. */
  function Completion(table: seq<BackRow>, fv: seq<int>, pivots: seq<nat>, colToFree: seq<nat>, nb: nat): (x: seq<int>)
    requires Evaluable(table, |fv|) && nb <= |colToFree| && |table| == |pivots|
    ensures |x| == nb
  {
    seq(nb, c requires 0 <= c < nb =>
      if colToFree[c] < |fv| then fv[colToFree[c]]
      else
        var q := Find(pivots, c);
        if q < |table| && PivotValue(table[q], fv).Some? then PivotValue(table[q], fv).value else 0)
  }

  /** The first place of `c` in `s`, or `|s|`. */
  function Find(s: seq<nat>, c: nat): (i: nat)
    ensures i <= |s| && (i < |s| ==> s[i] == c) && (c in s ==> i < |s|)
  {
    if s == [] then 0 else if s[0] == c then 0 else 1 + Find(s[1..], c)
  }

  /** `OutcomeOfSolution` from the first row: `Cost` adds the pivot columns' values to
      the free ones. */
  lemma CostOfRows(table: seq<BackRow>, fv: seq<int>, x: seq<int>, pivots: seq<nat>, total: int)
    requires Evaluable(table, |fv|) && |table| == |pivots|
    requires forall q :: 0 <= q < |pivots| ==> pivots[q] < |x|
    requires forall q :: 0 <= q < |table| ==> PivotValue(table[q], fv) == Some(x[pivots[q]])
    requires forall q :: 0 <= q < |table| ==> 0 <= x[pivots[q]] <= table[q].bound
    requires total == Sum(fv) + SumAt(x, pivots)
    ensures Cost(table, fv) == Some(total)
  {
    assert pivots[0..] == pivots;
    OutcomeOfSolution(table, fv, x, pivots, Sum(fv), 0);
    assert Outcome(table, fv, Sum(fv), 0) == Some(total);
  }

  /** When every row's pivot value is `x`'s at its pivot column and within its bound,
      `Cost` at `x`'s free values is `x`'s total. */
  lemma CostOfPivots(table: seq<BackRow>, x: seq<int>, pivots: seq<nat>, freeCols: seq<nat>, fv: seq<int>)
    requires forall i, j :: 0 <= i < j < |pivots| ==> pivots[i] < pivots[j]
    requires forall q :: 0 <= q < |pivots| ==> pivots[q] < |x|
    requires multiset(freeCols) == multiset(NonPivots(pivots, |x|))
    requires |fv| == |freeCols| && forall i :: 0 <= i < |freeCols| ==> freeCols[i] < |x| && fv[i] == x[freeCols[i]]
    requires Evaluable(table, |fv|) && |table| == |pivots|
    requires forall q :: 0 <= q < |table| ==> PivotValue(table[q], fv) == Some(x[pivots[q]])
    requires forall q :: 0 <= q < |table| ==> 0 <= x[pivots[q]] <= table[q].bound
    ensures Cost(table, fv) == Some(Sum(x))
  {
    SumSplit(x, freeCols, pivots, fv);
    CostOfRows(table, fv, x, pivots, Sum(x));
  }

  /** Every non-negative solution of the reduced rows within the bounds is accepted by
      `Cost` at its own free values, with its own total. */
  lemma SolutionCost(rows: seq<seq<int>>, n: nat, nb: nat, pivots: seq<nat>, freeCols: seq<nat>,
                     colToFree: seq<nat>, bounds: seq<nat>, table: seq<BackRow>, x: seq<int>)
    requires Tabled(rows, n, nb, pivots, freeCols, colToFree, bounds, table)
    requires |x| == nb && NonNegative(x) && Satisfies(rows, n, nb, x)
    requires forall c :: 0 <= c < nb ==> x[c] <= bounds[c]
    ensures forall i :: 0 <= i < |freeCols| ==> freeCols[i] < nb
    ensures Evaluable(table, |freeCols|)
    ensures Cost(table, Picked(x, freeCols)) == Some(Sum(x))
  {
    FreeColumnsFacts(pivots, nb, freeCols, colToFree);
    TabledEvaluable(rows, n, nb, pivots, freeCols, colToFree, bounds, table);
    var fv := Picked(x, freeCols);
    forall q | 0 <= q < |table|
      ensures PivotValue(table[q], fv) == Some(x[pivots[q]])
      ensures 0 <= x[pivots[q]] <= table[q].bound
    {
      RowTerms(rows, n, nb, pivots, freeCols, colToFree, bounds, table, q, fv, x);
      assert Holds(rows[q], x, nb);
      PivotOfSolution(table[q], fv, x[pivots[q]]);
    }
    CostOfPivots(table, x, pivots, freeCols, fv);
  }

  /** The completion keeps the free values and takes each pivot row's value at its
      pivot column. */
  lemma CompletionFacts(rows: seq<seq<int>>, n: nat, nb: nat, pivots: seq<nat>, freeCols: seq<nat>,
                        colToFree: seq<nat>, bounds: seq<nat>, table: seq<BackRow>, fv: seq<int>)
    requires Tabled(rows, n, nb, pivots, freeCols, colToFree, bounds, table)
    requires |fv| == |freeCols| && Evaluable(table, |fv|)
    ensures forall i :: 0 <= i < |freeCols| ==> freeCols[i] < nb
    ensures forall i :: 0 <= i < |freeCols| ==> Completion(table, fv, pivots, colToFree, nb)[freeCols[i]] == fv[i]
    ensures forall q :: 0 <= q < |pivots| ==> PivotValue(table[q], fv).Some? ==>
      Completion(table, fv, pivots, colToFree, nb)[pivots[q]] == PivotValue(table[q], fv).value
    ensures forall c :: 0 <= c < nb ==> c in freeCols || c in pivots
  {
    FreeColumnsFacts(pivots, nb, freeCols, colToFree);
    var x := Completion(table, fv, pivots, colToFree, nb);
    forall q | 0 <= q < |pivots| && PivotValue(table[q], fv).Some?
      ensures x[pivots[q]] == PivotValue(table[q], fv).value
    {
      assert pivots[q] !in freeCols;
      var i := Find(pivots, pivots[q]);
      assert i == q;
    }
  }

  /** The completion of free values that `Cost` accepts takes at each pivot column a
      value its row accepts. */
  lemma CompletionPivots(rows: seq<seq<int>>, n: nat, nb: nat, pivots: seq<nat>, freeCols: seq<nat>,
                         colToFree: seq<nat>, bounds: seq<nat>, table: seq<BackRow>, fv: seq<int>)
    requires Tabled(rows, n, nb, pivots, freeCols, colToFree, bounds, table)
    requires |fv| == |freeCols| && Evaluable(table, |fv|) && Cost(table, fv).Some?
    ensures forall q :: 0 <= q < |pivots| ==>
      PivotValue(table[q], fv) == Some(Completion(table, fv, pivots, colToFree, nb)[pivots[q]])
    ensures forall q :: 0 <= q < |pivots| ==>
      0 <= Completion(table, fv, pivots, colToFree, nb)[pivots[q]] <= table[q].bound
  {
    CompletionFacts(rows, n, nb, pivots, freeCols, colToFree, bounds, table, fv);
    OutcomeRows(table, fv, Sum(fv), 0);
  }

  /** The completion of non-negative free values that `Cost` accepts is non-negative. */
  lemma CompletionNonNegative(rows: seq<seq<int>>, n: nat, nb: nat, pivots: seq<nat>, freeCols: seq<nat>,
                              colToFree: seq<nat>, bounds: seq<nat>, table: seq<BackRow>, fv: seq<int>)
    requires Tabled(rows, n, nb, pivots, freeCols, colToFree, bounds, table)
    requires |fv| == |freeCols| && NonNegative(fv)
    requires Evaluable(table, |fv|) && Cost(table, fv).Some?
    ensures NonNegative(Completion(table, fv, pivots, colToFree, nb))
  {
    var x := Completion(table, fv, pivots, colToFree, nb);
    CompletionPivots(rows, n, nb, pivots, freeCols, colToFree, bounds, table, fv);
    CompletionFacts(rows, n, nb, pivots, freeCols, colToFree, bounds, table, fv);
    forall c | 0 <= c < nb
      ensures x[c] >= 0
    {
      if c in freeCols {
        var i :| 0 <= i < |freeCols| && freeCols[i] == c;
      } else {
        var q :| 0 <= q < |pivots| && pivots[q] == c;
      }
    }
  }

  /** The completion of free values that `Cost` accepts meets every pivot row. */
  lemma CompletionHolds(rows: seq<seq<int>>, n: nat, nb: nat, pivots: seq<nat>, freeCols: seq<nat>,
                        colToFree: seq<nat>, bounds: seq<nat>, table: seq<BackRow>, fv: seq<int>)
    requires Tabled(rows, n, nb, pivots, freeCols, colToFree, bounds, table)
    requires |fv| == |freeCols| && Evaluable(table, |fv|) && Cost(table, fv).Some?
    ensures forall r :: 0 <= r < |pivots| ==> Holds(rows[r], Completion(table, fv, pivots, colToFree, nb), nb)
  {
    var x := Completion(table, fv, pivots, colToFree, nb);
    CompletionPivots(rows, n, nb, pivots, freeCols, colToFree, bounds, table, fv);
    CompletionFacts(rows, n, nb, pivots, freeCols, colToFree, bounds, table, fv);
    forall r | 0 <= r < |pivots|
      ensures Holds(rows[r], x, nb)
    {
      RowTerms(rows, n, nb, pivots, freeCols, colToFree, bounds, table, r, fv, x);
    }
  }

  /** Free values that `Cost` accepts complete to a non-negative solution of the reduced
      rows with those free values and that total, when the rows past the pivots have a
      zero target. */
  lemma CostSolution(rows: seq<seq<int>>, n: nat, nb: nat, pivots: seq<nat>, freeCols: seq<nat>,
                     colToFree: seq<nat>, bounds: seq<nat>, table: seq<BackRow>, fv: seq<int>)
    requires Tabled(rows, n, nb, pivots, freeCols, colToFree, bounds, table)
    requires |fv| == |freeCols| && NonNegative(fv)
    requires Evaluable(table, |fv|) && Cost(table, fv).Some?
    requires forall r :: |pivots| <= r < n ==> rows[r][nb] == 0
    ensures NonNegative(Completion(table, fv, pivots, colToFree, nb))
    ensures Satisfies(rows, n, nb, Completion(table, fv, pivots, colToFree, nb))
    ensures Sum(Completion(table, fv, pivots, colToFree, nb)) == Cost(table, fv).value
  {
    var x := Completion(table, fv, pivots, colToFree, nb);
    CompletionPivots(rows, n, nb, pivots, freeCols, colToFree, bounds, table, fv);
    CompletionNonNegative(rows, n, nb, pivots, freeCols, colToFree, bounds, table, fv);
    CompletionHolds(rows, n, nb, pivots, freeCols, colToFree, bounds, table, fv);
    CompletionFacts(rows, n, nb, pivots, freeCols, colToFree, bounds, table, fv);
    forall r | |pivots| <= r < n
      ensures Holds(rows[r], x, nb)
    {
      DotZero(rows[r], x, nb);
    }
    CostOfPivots(table, x, pivots, freeCols, fv);
  }
}
