/** Day 10, part 2: the fraction-free Gaussian elimination of `solve_joltage`.  For each
    button column in turn it looks for a row at or below the next pivot row with a
    nonzero entry, swaps it up, and clears that column from every other of the first `n`
    rows by `row * pivot - factor * pivot_row`, dividing each changed row by the gcd of
    its entries.  The result has the same solutions as the matrix it starts from and is
    in reduced echelon form. */
module Day10Reduce {
  import opened Common
  import opened Day10Joltage

  // ===========================================================================
  // Row operations
  // ===========================================================================

  /** `row * a - b * prow` over the button columns and the target column. */
  function Lin(row: seq<int>, prow: seq<int>, a: int, b: int, nb: nat): (r: seq<int>)
    requires |row| == WIDTH && |prow| == WIDTH && nb < WIDTH
    ensures |r| == WIDTH
  {
    seq(WIDTH, c requires 0 <= c < WIDTH => if c <= nb then row[c] * a - b * prow[c] else row[c])
  }

  /** `row / g` over the button columns and the target column, truncating. */
  function Scale(row: seq<int>, g: int, nb: nat): (r: seq<int>)
    requires |row| == WIDTH && nb < WIDTH && g >= 1
    ensures |r| == WIDTH
  {
    seq(WIDTH, c requires 0 <= c < WIDTH => if c <= nb then Quot(row[c], g) else row[c])
  }

  /** `e` divides the first `k` entries of `row`. */
  ghost predicate CommonDivisor(e: int, row: seq<int>, k: nat)
    requires k <= |row|
  {
    e >= 1 && forall c :: 0 <= c < k ==> Divides(e, row[c])
  }

  /** `g` is what the gcd loop holds after the first `k` entries: zero while they are
      all zero, and otherwise their greatest common divisor. */
  ghost predicate GcdOfPrefix(g: int, row: seq<int>, k: nat)
    requires k <= |row|
  {
    if g == 0 then forall c :: 0 <= c < k ==> row[c] == 0
    else CommonDivisor(g, row, k) && forall e :: CommonDivisor(e, row, k) ==> Divides(e, g)
  }

  /** The only common divisor of a row's entries is one. */
  ghost predicate Primitive(row: seq<int>, k: nat)
    requires k <= |row|
  {
    forall e :: CommonDivisor(e, row, k) ==> e == 1
  }

  /** One entry of a combination row. */
  function Entry(r: int, p: int, a: int, b: int): int { r * a - b * p }

  lemma LinTerm(r: int, p: int, a: int, b: int, x: int)
    ensures Entry(r, p, a, b) * x == a * (r * x) - b * (p * x)
  {
    assert Entry(r, p, a, b) * x == (r * a) * x - (b * p) * x;
    assert (r * a) * x == a * (r * x);
    assert (b * p) * x == b * (p * x);
  }

  lemma MulNonzero(a: int, b: int)
    requires a != 0 && b != 0
    ensures a * b != 0
  {
    if a > 0 && b > 0 {
      NatMul(a - 1, b); assert a * b == (a - 1) * b + b;
    } else if a > 0 {
      NatMul(a - 1, -b); assert a * b == -((a - 1) * (-b) + (-b));
    } else if b > 0 {
      NatMul(-a - 1, b); assert a * b == -((-a - 1) * b + b);
    } else {
      NatMul(-a - 1, -b); assert a * b == (-a - 1) * (-b) + (-b);
    }
  }

  lemma MulZero(a: int, d: int)
    requires a != 0 && a * d == 0
    ensures d == 0
  {
    if d != 0 {
      MulNonzero(a, d);
    }
  }

  /** The matrix times presses of a combination row is the same combination of the
      two rows' products. */
  lemma {:induction false} DotLin(row: seq<int>, prow: seq<int>, a: int, b: int, nb: nat, x: seq<int>, k: nat)
    requires |row| == WIDTH && |prow| == WIDTH && nb < WIDTH && k <= nb <= |x|
    ensures Dot(Lin(row, prow, a, b, nb), x, k) == a * Dot(row, x, k) - b * Dot(prow, x, k)
  {
    if k > 0 {
      DotLin(row, prow, a, b, nb, x, k - 1);
      var l := Lin(row, prow, a, b, nb);
      assert l[k - 1] == Entry(row[k - 1], prow[k - 1], a, b);
      LinTerm(row[k - 1], prow[k - 1], a, b, x[k - 1]);
      var d, e := Dot(row, x, k - 1), Dot(prow, x, k - 1);
      var u, v := row[k - 1] * x[k - 1], prow[k - 1] * x[k - 1];
      assert a * d - b * e + (a * u - b * v) == a * (d + u) - b * (e + v) by {
        MulAdd(a, d, u);
        MulAdd(b, e, v);
      }
    }
  }

  /** Dividing out a common divisor divides the product by it. */
  lemma {:induction false} DotScale(row: seq<int>, g: int, nb: nat, x: seq<int>, k: nat)
    requires |row| == WIDTH && nb < WIDTH && k <= nb <= |x| && CommonDivisor(g, row, nb + 1)
    ensures Dot(row, x, k) == g * Dot(Scale(row, g, nb), x, k)
  {
    if k > 0 {
      DotScale(row, g, nb, x, k - 1);
      var s := Scale(row, g, nb);
      var q := Quot(row[k - 1], g);
      assert s[k - 1] == q;
      RemZero(row[k - 1], g);
      QuotExact(row[k - 1], g);
      var d := Dot(s, x, k - 1);
      assert row[k - 1] * x[k - 1] == g * (q * x[k - 1]) by {
        MulAssoc(g, q, x[k - 1]);
      }
      MulAdd(g, d, q * x[k - 1]);
    }
  }

  /** Division by one changes nothing. */
  lemma ScaleOne(row: seq<int>, nb: nat)
    requires |row| == WIDTH && nb < WIDTH
    ensures Scale(row, 1, nb) == row
  {
    forall c | 0 <= c < WIDTH
      ensures Scale(row, 1, nb)[c] == row[c]
    {
      if c <= nb {
        RemOfMultiple(1, row[c]);
      }
    }
  }

  /** What clearing column `col` of `row` against the pivot row `prow` keeps: the
      entry in column `col` becomes zero, a button column where the pivot row is zero
      stays zero or nonzero, and, for presses that meet the pivot row's equation, the
      new equation holds exactly when the old one did. */
  ghost predicate RowStep(out: seq<int>, row: seq<int>, prow: seq<int>, col: nat, nb: nat)
    requires |out| == WIDTH && |row| == WIDTH && |prow| == WIDTH && col < nb < WIDTH
  {
    out[col] == 0 &&
    (forall c :: 0 <= c < nb && prow[c] == 0 ==> (out[c] == 0 <==> row[c] == 0)) &&
    (forall x: seq<int> :: |x| == nb && Holds(prow, x, nb) ==> (Holds(out, x, nb) <==> Holds(row, x, nb)))
  }

  /** A row already zero in column `col` is left as it is. */
  lemma RowStepSame(row: seq<int>, prow: seq<int>, col: nat, nb: nat)
    requires |row| == WIDTH && |prow| == WIDTH && col < nb < WIDTH && row[col] == 0
    ensures RowStep(row, row, prow, col, nb)
  {
  }

  /** For presses meeting the pivot row, the combination row holds exactly when the
      row does. */
  lemma LinHolds(row: seq<int>, prow: seq<int>, col: nat, nb: nat, x: seq<int>)
    requires |row| == WIDTH && |prow| == WIDTH && col < nb < WIDTH && prow[col] != 0
    requires |x| == nb && Holds(prow, x, nb)
    ensures Holds(Lin(row, prow, prow[col], row[col], nb), x, nb) <==> Holds(row, x, nb)
  {
    var a, b := prow[col], row[col];
    var l := Lin(row, prow, a, b, nb);
    DotLin(row, prow, a, b, nb, x, nb);
    var d, t, e, u := Dot(row, x, nb), row[nb], Dot(prow, x, nb), prow[nb];
    assert e == u;
    assert l[nb] == t * a - b * u;
    assert Dot(l, x, nb) == a * d - b * e;
    assert Dot(l, x, nb) - l[nb] == a * (d - t) by {
      assert a * d - b * e - (t * a - b * u) == a * d - t * a;
    }
    if Dot(l, x, nb) == l[nb] {
      MulZero(a, d - t);
    }
  }

  /** The combination row meets the three conditions. */
  lemma LinStep(row: seq<int>, prow: seq<int>, col: nat, nb: nat)
    requires |row| == WIDTH && |prow| == WIDTH && col < nb < WIDTH && prow[col] != 0
    ensures RowStep(Lin(row, prow, prow[col], row[col], nb), row, prow, col, nb)
  {
    var a, b := prow[col], row[col];
    var l := Lin(row, prow, a, b, nb);
    assert l[col] == row[col] * a - b * prow[col] == 0;
    forall c | 0 <= c < nb && prow[c] == 0
      ensures l[c] == 0 <==> row[c] == 0
    {
      assert l[c] == row[c] * a;
      if row[c] != 0 {
        MulNonzero(row[c], a);
      }
    }
    forall x: seq<int> | |x| == nb && Holds(prow, x, nb)
      ensures Holds(l, x, nb) <==> Holds(row, x, nb)
    {
      LinHolds(row, prow, col, nb, x);
    }
  }

  /** Dividing a row by a common divisor of its entries keeps the three conditions. */
  lemma ScaleStep(l: seq<int>, row: seq<int>, prow: seq<int>, g: int, col: nat, nb: nat)
    requires |l| == WIDTH && |row| == WIDTH && |prow| == WIDTH && col < nb < WIDTH
    requires CommonDivisor(g, l, nb + 1) && RowStep(l, row, prow, col, nb)
    ensures RowStep(Scale(l, g, nb), row, prow, col, nb)
  {
    var s := Scale(l, g, nb);
    forall c | 0 <= c <= nb
      ensures l[c] == g * s[c]
    {
      RemZero(l[c], g);
      QuotExact(l[c], g);
    }
    forall c | 0 <= c <= nb
      ensures s[c] == 0 <==> l[c] == 0
    {
      if s[c] != 0 {
        MulNonzero(g, s[c]);
      }
    }
    forall x: seq<int> | |x| == nb && Holds(prow, x, nb)
      ensures Holds(s, x, nb) <==> Holds(l, x, nb)
    {
      DotScale(l, g, nb, x, nb);
      var d, t := Dot(s, x, nb), s[nb];
      assert Dot(l, x, nb) - l[nb] == g * d - g * t == g * (d - t);
      if Dot(l, x, nb) == l[nb] {
        MulZero(g, d - t);
      }
    }
  }

  /** One more entry for the gcd loop: `g = gcd(g, |v|)` with `v` nonzero. */
  lemma GcdStep(g: int, g1: int, row: seq<int>, k: nat)
    requires k < |row| && row[k] != 0 && g >= 0 && GcdOfPrefix(g, row, k)
    requires g1 >= 1 && Divides(g1, g) && Divides(g1, Abs(row[k]))
    requires forall d :: Divides(d, g) && Divides(d, Abs(row[k])) ==> Divides(d, g1)
    ensures GcdOfPrefix(g1, row, k + 1)
  {
    DividesAbs(g1, row[k]);
    forall c | 0 <= c < k + 1
      ensures Divides(g1, row[c])
    {
      if c < k && g != 0 {
        DividesTransitive(g1, g, row[c]);
      }
    }
    forall e | CommonDivisor(e, row, k + 1)
      ensures Divides(e, g1)
    {
      assert CommonDivisor(e, row, k);
      DividesAbs(e, row[k]);
    }
  }

  /** Zero entries leave the gcd as it is. */
  lemma GcdSkip(g: int, row: seq<int>, k: nat)
    requires k < |row| && row[k] == 0 && g >= 0 && GcdOfPrefix(g, row, k)
    ensures GcdOfPrefix(g, row, k + 1)
  {
    if g != 0 {
      forall e | CommonDivisor(e, row, k + 1)
        ensures Divides(e, g)
      {
        assert CommonDivisor(e, row, k);
      }
    }
  }

  /** A row whose entries have gcd one is primitive. */
  lemma PrimitiveOne(row: seq<int>, k: nat, m: nat)
    requires m <= |row| && k <= m && GcdOfPrefix(1, row, k)
    ensures Primitive(row, m)
  {
    forall e | CommonDivisor(e, row, m)
      ensures e == 1
    {
      assert CommonDivisor(e, row, k);
      DivisorBound(e, 1);
    }
  }

  /** A row divided by the gcd of its entries is primitive. */
  lemma PrimitiveScaled(l: seq<int>, g: int, nb: nat, m: nat)
    requires |l| == WIDTH && nb < WIDTH && m == nb + 1 && g > 1 && GcdOfPrefix(g, l, m)
    ensures Primitive(Scale(l, g, nb), m)
  {
    var s := Scale(l, g, nb);
    forall e | CommonDivisor(e, s, m)
      ensures e == 1
    {
      forall c | 0 <= c <= nb
        ensures Divides(e * g, l[c])
      {
        RemZero(l[c], g);
        QuotExact(l[c], g);
        var k := s[c] / e;
        assert s[c] == e * k;
        assert l[c] == (e * g) * k by {
          MulAssoc(e, g, k);
        }
        NatMul(e - 1, g);
        assert e * g == (e - 1) * g + g;
        DividesMultiple(e * g, k);
      }
      assert CommonDivisor(e * g, l, nb + 1);
      DivisorBound(e * g, g);
      FactorAtMostOne(e, g);
    }
  }

  lemma FactorAtMostOne(e: int, g: int)
    requires e >= 1 && g >= 1 && e * g <= g
    ensures e == 1
  {
    NatMul(e - 1, g - 1);
    assert (e - 1) * g == (e - 1) * (g - 1) + (e - 1);
  }

  /** The loop `for c in 0..=num_buttons` forming `row * pivot_val - factor * pivot_row`,
      where `factor` is the row's entry in column `col`. */
  method Combine(row: seq<int>, prow: seq<int>, col: nat, nb: nat) returns (out: seq<int>)
    requires |row| == WIDTH && |prow| == WIDTH && col < nb < WIDTH
    ensures out == Lin(row, prow, prow[col], row[col], nb)
  {
    var pivotVal, factor := prow[col], row[col];
    out := row;
    for c := 0 to nb + 1
      invariant |out| == WIDTH
      invariant forall k :: 0 <= k < WIDTH ==> out[k] == if k < c then row[k] * pivotVal - factor * prow[k] else row[k]
    {
      out := out[c := out[c] * pivotVal - factor * prow[c]];
    }
  }

  /** The gcd of the row's nonzero magnitudes over columns `0..=num_buttons`, stopping
      as soon as it is one: zero for a zero row, one for a primitive row, and otherwise
      the greatest common divisor of the entries. */
  method RowGcd(row: seq<int>, nb: nat) returns (g: int)
    requires |row| == WIDTH && nb < WIDTH
    ensures g >= 0
    ensures g != 1 ==> GcdOfPrefix(g, row, nb + 1)
    ensures g == 1 ==> Primitive(row, nb + 1)
  {
    g := 0;
    var c := 0;
    while c <= nb && g != 1
      invariant c <= nb + 1 && g >= 0 && GcdOfPrefix(g, row, c)
    {
      var v := Abs(row[c]);
      if v != 0 {
        var g1 := Gcd(g, v);
        GcdStep(g, g1, row, c);
        g := g1;
      } else {
        GcdSkip(g, row, c);
      }
      c := c + 1;
    }
    if g == 1 {
      PrimitiveOne(row, c, nb + 1);
    }
  }

  /** `mat[r][c] /= g` for `c in 0..=num_buttons`. */
  method DivideRow(row: seq<int>, g: int, nb: nat) returns (out: seq<int>)
    requires |row| == WIDTH && nb < WIDTH && g >= 1
    ensures out == Scale(row, g, nb)
  {
    out := row;
    for k := 0 to nb + 1
      invariant |out| == WIDTH
      invariant forall j :: 0 <= j < WIDTH ==> out[j] == if j < k then Quot(row[j], g) else row[j]
    {
      out := out[k := Quot(out[k], g)];
    }
  }

  /** The row `r` of the loop `for r in 0..n` in `solve_joltage`, when it is not the
      pivot row and its entry in column `col` is nonzero: the combination with the
      pivot row, then the division by the gcd of its entries when that is more than one.
      The result is the combination divided by `d`, a common divisor of its entries,
      clears column `col` as `RowStep` says, and is primitive unless it is all zero. */
  method ReduceRow(row: seq<int>, prow: seq<int>, col: nat, nb: nat) returns (out: seq<int>, ghost d: int)
    requires |row| == WIDTH && |prow| == WIDTH && col < nb < WIDTH && prow[col] != 0
    ensures d >= 1 && CommonDivisor(d, Lin(row, prow, prow[col], row[col], nb), nb + 1)
    ensures out == Scale(Lin(row, prow, prow[col], row[col], nb), d, nb)
    ensures RowStep(out, row, prow, col, nb)
    ensures (exists c :: 0 <= c <= nb && Lin(row, prow, prow[col], row[col], nb)[c] != 0) ==> Primitive(out, nb + 1)
  {
    var l := Combine(row, prow, col, nb);
    LinStep(row, prow, col, nb);
    var g := RowGcd(l, nb);
    if g > 1 {
      out := DivideRow(l, g, nb);
      d := g;
      ScaleStep(l, row, prow, g, col, nb);
      PrimitiveScaled(l, g, nb, nb + 1);
    } else {
      out := l;
      d := 1;
      ScaleOne(l, nb);
      assert CommonDivisor(1, l, nb + 1);
    }
  }

  // ===========================================================================
  // The matrix
  // ===========================================================================

  /** `mat.swap(i, j)`. */
  function Swap(rows: seq<seq<int>>, i: nat, j: nat): (s: seq<seq<int>>)
    requires i < |rows| && j < |rows|
    ensures |s| == |rows|
  {
    rows[i := rows[j]][j := rows[i]]
  }

  lemma SameSolutionsTrans(a: seq<seq<int>>, b: seq<seq<int>>, c: seq<seq<int>>, n: nat, nb: nat)
    requires Shaped(a) && Shaped(b) && Shaped(c) && n <= 16 && nb < WIDTH
    requires SameSolutions(a, b, n, nb) && SameSolutions(b, c, n, nb)
    ensures SameSolutions(a, c, n, nb)
  {
  }

  /** Swapping two of the first `n` rows keeps the solutions. */
  lemma SwapSolutions(rows: seq<seq<int>>, i: nat, j: nat, n: nat, nb: nat)
    requires Shaped(rows) && i < n && j < n && n <= 16 && nb < WIDTH
    ensures Shaped(Swap(rows, i, j)) && SameSolutions(Swap(rows, i, j), rows, n, nb)
  {
    var s := Swap(rows, i, j);
    forall x: seq<int> | |x| == nb
      ensures Satisfies(s, n, nb, x) <==> Satisfies(rows, n, nb, x)
    {
      if Satisfies(rows, n, nb, x) {
        forall r | 0 <= r < n
          ensures Holds(s[r], x, nb)
        {
          assert s[r] == rows[if r == j then i else if r == i then j else r];
        }
      }
      if Satisfies(s, n, nb, x) {
        forall r | 0 <= r < n
          ensures Holds(rows[r], x, nb)
        {
          assert rows[r] == s[if r == j then i else if r == i then j else r];
        }
      }
    }
  }

  /** Clearing a column against the pivot row `p`, row by row, keeps the solutions. */
  lemma ClearSolutions(rows: seq<seq<int>>, rows0: seq<seq<int>>, n: nat, nb: nat, p: nat, col: nat)
    requires Shaped(rows) && Shaped(rows0) && p < n <= 16 && col < nb < WIDTH
    requires rows[p] == rows0[p]
    requires forall r :: 0 <= r < n && r != p ==> RowStep(rows[r], rows0[r], rows0[p], col, nb)
    ensures SameSolutions(rows, rows0, n, nb)
  {
    forall x: seq<int> | |x| == nb
      ensures Satisfies(rows, n, nb, x) <==> Satisfies(rows0, n, nb, x)
    {
      if Satisfies(rows, n, nb, x) || Satisfies(rows0, n, nb, x) {
        assert Holds(rows0[p], x, nb);
        forall r | 0 <= r < n && r != p
          ensures Holds(rows[r], x, nb) <==> Holds(rows0[r], x, nb)
        {
          assert RowStep(rows[r], rows0[r], rows0[p], col, nb);
        }
      }
    }
  }

  /** Reduced echelon form over the columns before `col`: row `q` below `|pcs|` has a
      nonzero pivot in column `pcs[q]`, the pivot columns increase, every other of the
      first `n` rows is zero in a pivot column, and the rows from `|pcs|` on are zero in
      every column before `col`. */
  predicate Reduced(rows: seq<seq<int>>, n: nat, nb: nat, col: nat, pcs: seq<nat>)
    requires Shaped(rows) && n <= 16 && nb < WIDTH
  {
    |pcs| <= n && col <= nb &&
    (forall q :: 0 <= q < |pcs| ==> pcs[q] < col) &&
    (forall q1, q2 :: 0 <= q1 < q2 < |pcs| ==> pcs[q1] < pcs[q2]) &&
    (forall q :: 0 <= q < |pcs| ==> rows[q][pcs[q]] != 0) &&
    (forall q, r :: 0 <= q < |pcs| && 0 <= r < n && r != q ==> rows[r][pcs[q]] == 0) &&
    (forall r, c :: |pcs| <= r < n && 0 <= c < col ==> rows[r][c] == 0)
  }

  /** A column with no nonzero entry at or below the next pivot row gets no pivot. */
  lemma ReducedSkip(rows: seq<seq<int>>, n: nat, nb: nat, col: nat, pcs: seq<nat>)
    requires Shaped(rows) && n <= 16 && col < nb < WIDTH && Reduced(rows, n, nb, col, pcs)
    requires forall r :: |pcs| <= r < n ==> rows[r][col] == 0
    ensures Reduced(rows, n, nb, col + 1, pcs)
  {
  }

  /** Swapping the pivot into row `|pcs|` keeps the form. */
  lemma ReducedSwap(rows: seq<seq<int>>, n: nat, nb: nat, col: nat, pcs: seq<nat>, pr: nat)
    requires Shaped(rows) && n <= 16 && nb < WIDTH && Reduced(rows, n, nb, col, pcs)
    requires |pcs| <= pr < n
    ensures Shaped(Swap(rows, |pcs|, pr)) && Reduced(Swap(rows, |pcs|, pr), n, nb, col, pcs)
  {
    var p, s := |pcs|, Swap(rows, |pcs|, pr);
    forall q, r | 0 <= q < p && 0 <= r < n && r != q
      ensures s[r][pcs[q]] == 0
    {
      assert s[r] == rows[if r == pr then p else if r == p then pr else r];
    }
    forall r, c | p <= r < n && 0 <= c < col
      ensures s[r][c] == 0
    {
      assert s[r] == rows[if r == pr then p else if r == p then pr else r];
    }
  }

  /** The old pivots stay pivots: nonzero in their rows, zero in every other row. */
  lemma PivotsKept(rows: seq<seq<int>>, rows0: seq<seq<int>>, n: nat, nb: nat, col: nat, pcs: seq<nat>)
    requires Shaped(rows) && Shaped(rows0) && n <= 16 && col < nb < WIDTH
    requires Reduced(rows0, n, nb, col, pcs) && |pcs| < n && rows0[|pcs|][col] != 0
    requires rows[|pcs|] == rows0[|pcs|]
    requires forall r :: 0 <= r < n && r != |pcs| ==> RowStep(rows[r], rows0[r], rows0[|pcs|], col, nb)
    ensures forall q :: 0 <= q < |pcs| ==> rows[q][pcs[q]] != 0
    ensures forall q, r :: 0 <= q < |pcs| && 0 <= r < n && r != q ==> rows[r][pcs[q]] == 0
  {
    var p := |pcs|;
    forall q | 0 <= q < p
      ensures rows[q][pcs[q]] != 0
    {
      assert RowStep(rows[q], rows0[q], rows0[p], col, nb);
    }
    forall q, r | 0 <= q < p && 0 <= r < n && r != q
      ensures rows[r][pcs[q]] == 0
    {
      if r != p {
        assert RowStep(rows[r], rows0[r], rows0[p], col, nb);
      }
    }
  }

  /** Column `col` is cleared outside the pivot row, and the rows below it stay zero
      in the columns before. */
  lemma ColumnCleared(rows: seq<seq<int>>, rows0: seq<seq<int>>, n: nat, nb: nat, col: nat, pcs: seq<nat>)
    requires Shaped(rows) && Shaped(rows0) && n <= 16 && col < nb < WIDTH
    requires Reduced(rows0, n, nb, col, pcs) && |pcs| < n
    requires forall r :: 0 <= r < n && r != |pcs| ==> RowStep(rows[r], rows0[r], rows0[|pcs|], col, nb)
    ensures forall r :: 0 <= r < n && r != |pcs| ==> rows[r][col] == 0
    ensures forall r, c :: |pcs| + 1 <= r < n && 0 <= c <= col ==> rows[r][c] == 0
  {
    var p := |pcs|;
    forall r | 0 <= r < n && r != p
      ensures rows[r][col] == 0
    {
      assert RowStep(rows[r], rows0[r], rows0[p], col, nb);
    }
    forall r, c | p + 1 <= r < n && 0 <= c < col
      ensures rows[r][c] == 0
    {
      assert RowStep(rows[r], rows0[r], rows0[p], col, nb);
    }
  }

  /** Clearing column `col` against the pivot row `|pcs|` adds `col` to the pivots. */
  lemma ReducedPivot(rows: seq<seq<int>>, rows0: seq<seq<int>>, n: nat, nb: nat, col: nat, pcs: seq<nat>)
    requires Shaped(rows) && Shaped(rows0) && n <= 16 && col < nb < WIDTH
    requires Reduced(rows0, n, nb, col, pcs) && |pcs| < n && rows0[|pcs|][col] != 0
    requires rows[|pcs|] == rows0[|pcs|]
    requires forall r :: 0 <= r < n && r != |pcs| ==> RowStep(rows[r], rows0[r], rows0[|pcs|], col, nb)
    ensures Reduced(rows, n, nb, col + 1, pcs + [col])
  {
    PivotsKept(rows, rows0, n, nb, col, pcs);
    ColumnCleared(rows, rows0, n, nb, col, pcs);
    var pcs1 := pcs + [col];
    assert forall q :: 0 <= q < |pcs1| ==> rows[q][pcs1[q]] != 0;
    assert forall q, r :: 0 <= q < |pcs1| && 0 <= r < n && r != q ==> rows[r][pcs1[q]] == 0;
  }

  /** The search `for r in pivot_row..n` for the first row with a nonzero entry in
      column `col`. */
  method FindPivot(mat: array<seq<int>>, p: nat, n: nat, col: nat) returns (found: Option<nat>)
    requires mat.Length == 16 && Shaped(mat[..]) && n <= 16 && col < WIDTH
    ensures found.Some? ==> p <= found.value < n && mat[found.value][col] != 0
    ensures found.Some? ==> forall r :: p <= r < found.value ==> mat[r][col] == 0
    ensures found.None? ==> forall r :: p <= r < n ==> mat[r][col] == 0
  {
    found := None;
    var r := p;
    while r < n
      invariant p <= r && (p <= n ==> r <= n)
      invariant forall k :: p <= k < r && k < 16 ==> mat[k][col] == 0
    {
      assert mat[r] == mat[..][r];
      if mat[r][col] != 0 {
        found := Some(r);
        return;
      }
      r := r + 1;
    }
  }

  /** The pass over the button columns in row `r`, except the pivot row, of the first
      `n` rows. */
  method ClearColumn(mat: array<seq<int>>, n: nat, nb: nat, p: nat, col: nat)
    requires mat.Length == 16 && Shaped(mat[..]) && p < n <= 16 && col < nb < WIDTH
    requires mat[p][col] != 0
    modifies mat
    ensures Shaped(mat[..])
    ensures forall r :: 0 <= r < 16 && (n <= r || r == p) ==> mat[r] == old(mat[r])
    ensures forall r :: 0 <= r < n && r != p ==> RowStep(mat[r], old(mat[r]), old(mat[p]), col, nb)
  {
    ghost var rows0 := mat[..];
    for r := 0 to n
      invariant Shaped(mat[..])
      invariant forall k :: 0 <= k < 16 && (r <= k || k == p) ==> mat[k] == rows0[k]
      invariant forall k :: 0 <= k < r && k != p ==> RowStep(mat[k], rows0[k], rows0[p], col, nb)
    {
      assert mat[r] == rows0[r] && mat[p] == rows0[p];
      if r != p {
        if mat[r][col] != 0 {
          var out, d := ReduceRow(mat[r], mat[p], col, nb);
          mat[r] := out;
        } else {
          RowStepSame(mat[r], mat[p], col, nb);
        }
      }
    }
  }

  /** The elimination loop `for col in 0..num_buttons` of `solve_joltage`; `pivots` is
      `pivot_col_for_row[..rank]`.  The matrix ends in reduced echelon form with the
      same solutions among its first `n` rows as it started with. */
  method Eliminate(mat: array<seq<int>>, n: nat, nb: nat) returns (pivots: seq<nat>)
    requires mat.Length == 16 && Shaped(mat[..]) && n <= 16 && nb < WIDTH
    modifies mat
    ensures Shaped(mat[..]) && Reduced(mat[..], n, nb, nb, pivots)
    ensures SameSolutions(mat[..], old(mat[..]), n, nb)
    ensures nb >= 1 && pivots == [] ==> forall r :: 0 <= r < n ==> old(mat[..])[r][0] == 0
  {
    ghost var rows0 := mat[..];
    pivots := [];
    for col := 0 to nb
      invariant Shaped(mat[..]) && Reduced(mat[..], n, nb, col, pivots)
      invariant SameSolutions(mat[..], rows0, n, nb)
      invariant col == 0 ==> mat[..] == rows0
      invariant col >= 1 && pivots == [] ==> forall r :: 0 <= r < n ==> rows0[r][0] == 0
    {
      var p := |pivots|;
      var found := FindPivot(mat, p, n, col);
      if found.None? {
        ReducedSkip(mat[..], n, nb, col, pivots);
        continue;
      }
      var pr := found.value;
      ghost var before := mat[..];
      var t := mat[p];
      mat[p] := mat[pr];
      mat[pr] := t;
      assert mat[..] == Swap(before, p, pr);
      SwapSolutions(before, p, pr, n, nb);
      ReducedSwap(before, n, nb, col, pivots, pr);
      SameSolutionsTrans(mat[..], before, rows0, n, nb);
      ghost var swapped := mat[..];
      ClearColumn(mat, n, nb, p, col);
      ClearSolutions(mat[..], swapped, n, nb, p, col);
      ReducedPivot(mat[..], swapped, n, nb, col, pivots);
      SameSolutionsTrans(mat[..], swapped, rows0, n, nb);
      pivots := pivots + [col];
    }
  }
}
