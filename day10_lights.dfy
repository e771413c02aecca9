/** Day 10, part 1: the fewest presses that set the lights, found by Gaussian elimination
    over GF(2).  A set of buttons stands for one press of each: pressing a button twice
    undoes the first press, so a light ends up on exactly when an odd number of the pressed
    buttons are wired to it. */
module Day10Lights {
  import opened Common
  import opened Day10

  /** `u32::MAX`, the answer for a machine that has lights to turn on but no buttons. */
  const U32_MAX: nat := 0xFFFF_FFFF

  // ===========================================================================
  // Sets of buttons
  // ===========================================================================

  /** The first `b` buttons. */
  function Range(b: nat): (r: set<nat>)
    ensures forall c: nat :: c in r <==> c < b
  {
    if b == 0 then {} else Range(b - 1) + {b - 1}
  }

  lemma {:induction false} RangeCard(b: nat)
    ensures |Range(b)| == b
  {
    if b > 0 {
      RangeCard(b - 1);
      var r := Range(b - 1);
      assert Range(b) == r + {b - 1};
      assert b - 1 !in r;
      DisjointCard(r, {b - 1});
    }
  }

  /** A subset is no larger than the set. */
  lemma SubsetCard(a: set<nat>, b: set<nat>)
    requires a <= b
    ensures |a| <= |b|
  {
    assert b == a + (b - a);
    assert a * (b - a) == {};
  }

  /** Every button of `x` is one of the first `b`. */
  predicate Within(x: set<nat>, b: nat)
  {
    forall c :: c in x ==> c < b
  }

  lemma WithinCard(x: set<nat>, b: nat)
    requires Within(x, b)
    ensures |x| <= b
  {
    RangeCard(b);
    assert x <= Range(b);
    SubsetCard(x, Range(b));
  }

  predicate Odd(k: nat)
  {
    k % 2 == 1
  }

  /** `^` on masks. */
  function Xor(a: Mask, b: Mask): Mask
  {
    (a - b) + (b - a)
  }

  /** The parity of the pressed buttons in a row that is the sum of two rows is the sum of
      their parities. */
  lemma ParityOfXor(a: Mask, p: Mask, x: set<nat>)
    ensures Odd(|Xor(a, p) * x|) <==> (Odd(|a * x|) != Odd(|p * x|))
  {
    var ax, px := a * x, p * x;
    assert Xor(a, p) * x == Xor(ax, px);
    XorCard(ax, px);
    OddSplit(|Xor(ax, px)|, |ax|, |px|, |ax * px|);
  }

  lemma XorCard(a: set<nat>, b: set<nat>)
    ensures |Xor(a, b)| + 2 * |a * b| == |a| + |b|
  {
    DisjointCard(a - b, b - a);
    assert a == (a - b) + a * b;
    DisjointCard(a - b, a * b);
    assert b == (b - a) + a * b;
    DisjointCard(b - a, a * b);
  }

  /** The size of a union of disjoint sets. */
  lemma DisjointCard(a: set<nat>, b: set<nat>)
    requires a * b == {}
    ensures |a + b| == |a| + |b|
  {
  }

  lemma OddSplit(s: nat, a: nat, b: nat, both: nat)
    requires s + 2 * both == a + b
    ensures Odd(s) <==> (Odd(a) != Odd(b))
  {
  }

  /** The distinct values of a sequence. */
  function Elems(s: seq<nat>): set<nat>
  {
    set c | c in s
  }

  /** Strictly increasing. */
  predicate Ascending(s: seq<nat>)
  {
    forall i, j :: 0 <= i < j < |s| ==> s[i] < s[j]
  }

  lemma {:induction false} AscendingCard(s: seq<nat>)
    requires Ascending(s)
    ensures |Elems(s)| == |s|
  {
    if s != [] {
      var init := s[..|s| - 1];
      AscendingCard(init);
      assert Elems(s) == Elems(init) + {s[|s| - 1]};
      assert s[|s| - 1] !in Elems(init);
    }
  }

  /** `trailing_zeros` of a non-zero `u16`: its lowest set bit. */
  function TrailingZeros(m: Mask): (k: nat)
    requires Small(m) && m != {}
    ensures k in m && forall j :: j in m ==> k <= j
  {
    LowestFrom(m, 0)
  }

  function LowestFrom(m: Mask, i: nat): (k: nat)
    requires Small(m) && m != {} && forall j :: j in m ==> i <= j
    ensures k in m && forall j :: j in m ==> k <= j
    decreases 16 - i
  {
    if i in m then i
    else
      assert i < 16 by {
        var j :| j in m;
      }
      LowestFrom(m, i + 1)
  }

  // ===========================================================================
  // The problem
  // ===========================================================================

  /** The buttons wired to light `l`. */
  function Wires(buttons: seq<Mask>, l: nat): set<nat>
  {
    set b: nat | b < |buttons| && l in buttons[b]
  }

  /** Pressing each button of `x` once leaves exactly the target lights on. */
  ghost predicate Presses(m: Machine, x: set<nat>)
  {
    Within(x, |m.buttons|)
      && forall l :: 0 <= l < m.n ==> (l in m.target <==> Odd(|Wires(m.buttons, l) * x|))
  }

  ghost predicate Solvable(m: Machine)
  {
    exists x :: Presses(m, x)
  }

  /** `k` presses suffice and no fewer do. */
  ghost predicate Fewest(m: Machine, k: nat)
  {
    (exists x :: Presses(m, x) && |x| == k) && forall x :: Presses(m, x) ==> k <= |x|
  }

  /** The fewest presses of a solvable machine. */
  ghost function MinPresses(m: Machine): (k: nat)
    requires Solvable(m)
    ensures Fewest(m, k)
  {
    FewestExists(m, |PressesWitness(m)|);
    var k :| Fewest(m, k); k
  }

  ghost function PressesWitness(m: Machine): (x: set<nat>)
    requires Solvable(m)
    ensures Presses(m, x)
  {
    var x :| Presses(m, x); x
  }

  /** A machine solvable in `j` presses or fewer has a fewest number of presses. */
  lemma {:induction false} FewestExists(m: Machine, j: nat)
    requires exists x :: Presses(m, x) && |x| <= j
    ensures exists k :: Fewest(m, k)
    decreases j
  {
    if j > 0 && exists x :: Presses(m, x) && |x| <= j - 1 {
      FewestExists(m, j - 1);
    } else {
      var x :| Presses(m, x) && |x| <= j;
      assert Fewest(m, |x|);
    }
  }

  /** The fewest number is unique. */
  lemma FewestUnique(m: Machine, j: nat, k: nat)
    requires Fewest(m, j) && Fewest(m, k)
    ensures j == k
  {
    var x :| Presses(m, x) && |x| == j;
    var y :| Presses(m, y) && |y| == k;
  }

  /** With no lights to turn on, pressing nothing is best. */
  lemma NothingToToggle(m: Machine)
    requires m.target == {}
    ensures Solvable(m) && Fewest(m, 0)
  {
    var none: set<nat> := {};
    forall l | 0 <= l < m.n
      ensures l in m.target <==> Odd(|Wires(m.buttons, l) * none|)
    {
      assert Wires(m.buttons, l) * none == {};
    }
    assert Presses(m, none);
  }

  /** With lights to turn on among the first `n` and no buttons, nothing works. */
  lemma NoButtonsUnsolvable(m: Machine)
    requires |m.buttons| == 0 && exists l :: 0 <= l < m.n && l in m.target
    ensures !Solvable(m)
  {
    var l :| 0 <= l < m.n && l in m.target;
    forall x
      ensures !Odd(|Wires(m.buttons, l) * x|)
    {
      assert Wires(m.buttons, l) == {};
    }
  }

  // ===========================================================================
  // Systems of parity equations
  // ===========================================================================

  /** `mat` as first built: row `l` holds the buttons wired to light `l`. */
  function Matrix(buttons: seq<Mask>): (rows: seq<Mask>)
    ensures |rows| == 16
  {
    seq(16, l requires 0 <= l => Wires(buttons, l))
  }

  /** `x` satisfies the first `n` rows: row `l` has an odd number of pressed buttons exactly
      when bit `l` of `t` is set. */
  ghost predicate Solves(rows: seq<Mask>, t: Mask, n: nat, x: set<nat>)
    requires n <= |rows|
  {
    forall l :: 0 <= l < n ==> (l in t <==> Odd(|rows[l] * x|))
  }

  /** Two systems with the same solutions among the first `b` buttons. */
  ghost predicate Equivalent(m: seq<Mask>, t: Mask, m0: seq<Mask>, t0: Mask, n: nat, b: nat)
    requires n <= |m| && n <= |m0|
  {
    forall x :: Within(x, b) ==> (Solves(m, t, n, x) <==> Solves(m0, t0, n, x))
  }

  /** The system as first built is the machine's problem. */
  lemma MatrixSolves(m: Machine, x: set<nat>)
    requires m.n <= 16
    ensures Presses(m, x) <==> Within(x, |m.buttons|) && Solves(Matrix(m.buttons), m.target, m.n, x)
  {
  }

  /** `mat.swap(a, b)`. */
  function SwapRows(m: seq<Mask>, a: nat, b: nat): (s: seq<Mask>)
    requires a < |m| && b < |m|
    ensures |s| == |m|
  {
    m[a := m[b]][b := m[a]]
  }

  /** The swap of bits `a` and `b` of the target. */
  function SwapBits(t: Mask, a: nat, b: nat): (s: Mask)
    ensures forall l :: l in s <==> if l == a then b in t else if l == b then a in t else l in t
  {
    (t - {a, b}) + (if b in t then {a} else {}) + (if a in t then {b} else {})
  }

  lemma SwapSolves(m: seq<Mask>, t: Mask, n: nat, a: nat, b: nat, x: set<nat>)
    requires a < n && b < n && n <= |m|
    ensures Solves(SwapRows(m, a, b), SwapBits(t, a, b), n, x) <==> Solves(m, t, n, x)
  {
    var s, u := SwapRows(m, a, b), SwapBits(t, a, b);
    if Solves(m, t, n, x) {
      forall l | 0 <= l < n
        ensures l in u <==> Odd(|s[l] * x|)
      {
        if l == a {
          assert s[l] == m[b];
        } else if l == b {
          assert s[l] == m[a];
        }
      }
    }
    if Solves(s, u, n, x) {
      forall l | 0 <= l < n
        ensures l in t <==> Odd(|m[l] * x|)
      {
        if l == a {
          assert s[b] == m[a];
        } else if l == b {
          assert s[a] == m[b];
        } else {
          assert s[l] == m[l];
        }
      }
    }
  }

  /** The rows below `hi` other than the pivot row `p` that contain column `col`, after
      each had the pivot row added to it. */
  function XorRows(m: seq<Mask>, p: nat, col: nat, hi: nat): (s: seq<Mask>)
    requires p < |m| && hi <= |m|
    ensures |s| == |m|
  {
    seq(|m|, r requires 0 <= r < |m| => if r < hi && r != p && col in m[r] then Xor(m[r], m[p]) else m[r])
  }

  /** The target after the same row additions: bit `q` of each changed row becomes the sum
      of its own bit and the pivot row's bit. */
  function XorBits(m: seq<Mask>, t: Mask, p: nat, col: nat, hi: nat): Mask
    requires hi <= |m|
  {
    if hi == 0 then t
    else
      var u := XorBits(m, t, p, col, hi - 1);
      var q := hi - 1;
      if q != p && col in m[q] then
        (if (q in u) != (p in u) then u + {q} else u - {q})
      else u
  }

  lemma {:induction false} XorBitsMeaning(m: seq<Mask>, t: Mask, p: nat, col: nat, hi: nat)
    requires hi <= |m|
    ensures forall l: nat :: l in XorBits(m, t, p, col, hi) <==>
      if l < hi && l != p && col in m[l] then (l in t) != (p in t) else l in t
  {
    if hi > 0 {
      XorBitsMeaning(m, t, p, col, hi - 1);
    }
  }

  lemma XorSolves(m: seq<Mask>, t: Mask, n: nat, p: nat, col: nat, x: set<nat>)
    requires p < n <= |m|
    ensures Solves(XorRows(m, p, col, n), XorBits(m, t, p, col, n), n, x) <==> Solves(m, t, n, x)
  {
    var s, u := XorRows(m, p, col, n), XorBits(m, t, p, col, n);
    XorBitsMeaning(m, t, p, col, n);
    assert s[p] == m[p];
    forall l | 0 <= l < n && l != p && col in m[l]
      ensures Odd(|s[l] * x|) <==> (Odd(|m[l] * x|) != Odd(|m[p] * x|))
    {
      ParityOfXor(m[l], m[p], x);
    }
    if Solves(m, t, n, x) {
      forall l | 0 <= l < n
        ensures l in u <==> Odd(|s[l] * x|)
      {
        assert p in t <==> Odd(|m[p] * x|);
      }
    }
    if Solves(s, u, n, x) {
      forall l | 0 <= l < n
        ensures l in t <==> Odd(|m[l] * x|)
      {
        assert p in u <==> Odd(|s[p] * x|);
      }
    }
  }

  /** A pivot step keeps the solutions: swap the pivot row up, then add it to the others. */
  lemma PivotEquivalent(m: seq<Mask>, t: Mask, p: nat, prow: nat, col: nat,
                        m0: seq<Mask>, t0: Mask, n: nat, b: nat)
    requires p < n && prow < n && n <= |m| && n <= |m0| && Equivalent(m, t, m0, t0, n, b)
    ensures var s := SwapRows(m, p, prow);
      Equivalent(XorRows(s, p, col, n), XorBits(s, SwapBits(t, p, prow), p, col, n), m0, t0, n, b)
  {
    var s := SwapRows(m, p, prow);
    forall x | Within(x, b)
      ensures Solves(XorRows(s, p, col, n), XorBits(s, SwapBits(t, p, prow), p, col, n), n, x)
          <==> Solves(m0, t0, n, x)
    {
      XorSolves(s, SwapBits(t, p, prow), n, p, col, x);
      SwapSolves(m, t, n, p, prow, x);
    }
  }

  // ===========================================================================
  // Echelon form
  // ===========================================================================

  /** Rows below `n` use only the first `b` buttons. */
  predicate Narrow(m: seq<Mask>, n: nat, b: nat)
    requires n <= |m|
  {
    forall r, c :: 0 <= r < n && c in m[r] ==> c < b
  }

  /** `pc` lists the pivot columns of the first `|pc|` rows in increasing order; each is the
      lowest column of its row and appears in no other row. */
  predicate Pivots(m: seq<Mask>, n: nat, pc: seq<nat>)
    requires |pc| <= n <= |m|
  {
    Ascending(pc)
      && (forall r :: 0 <= r < |pc| ==> pc[r] in m[r])
      && (forall r, c :: 0 <= r < |pc| && c in m[r] ==> pc[r] <= c)
      && (forall r, q :: 0 <= r < |pc| && 0 <= q < n && q != r ==> pc[r] !in m[q])
  }

  /** The rows from `rank` on have no column below `col`. */
  predicate Cleared(m: seq<Mask>, n: nat, rank: nat, col: nat)
    requires n <= |m|
  {
    forall q, c :: rank <= q < n && c in m[q] ==> col <= c
  }

  /** The matrix once the columns below `col` are eliminated, with pivots `pc`. */
  predicate Echelon(m: seq<Mask>, n: nat, b: nat, col: nat, pc: seq<nat>)
  {
    n <= |m| && |pc| <= n && |pc| <= col <= b
      && Narrow(m, n, b) && Pivots(m, n, pc) && Cleared(m, n, |pc|, col)
      && forall r :: 0 <= r < |pc| ==> pc[r] < col
  }

  lemma MatrixEchelon(buttons: seq<Mask>, n: nat)
    requires n <= 16
    ensures Echelon(Matrix(buttons), n, |buttons|, 0, [])
  {
  }

  /** A column with no pivot row left is passed over. */
  lemma NoPivotStep(m: seq<Mask>, n: nat, b: nat, col: nat, pc: seq<nat>)
    requires Echelon(m, n, b, col, pc) && col < b
    requires forall q :: |pc| <= q < n ==> col !in m[q]
    ensures Echelon(m, n, b, col + 1, pc)
  {
  }

  /** Swapping two rows at or below the pivot rows keeps the form. */
  lemma SwapEchelon(m: seq<Mask>, n: nat, b: nat, col: nat, pc: seq<nat>, prow: nat)
    requires Echelon(m, n, b, col, pc) && |pc| <= prow < n
    ensures Echelon(SwapRows(m, |pc|, prow), n, b, col, pc)
  {
    var s := SwapRows(m, |pc|, prow);
    forall q | 0 <= q < |m|
      ensures s[q] == if q == |pc| then m[prow] else if q == prow then m[|pc|] else m[q]
    {
    }
  }

  /** Adding the pivot row to every other row holding `col` makes `col` a pivot. */
  lemma XorEchelon(m: seq<Mask>, n: nat, b: nat, col: nat, pc: seq<nat>)
    requires Echelon(m, n, b, col, pc) && |pc| < n && col < b && col in m[|pc|]
    ensures Echelon(XorRows(m, |pc|, col, n), n, b, col + 1, pc + [col])
  {
    var p := |pc|;
    var s, pc' := XorRows(m, p, col, n), pc + [col];
    assert s[p] == m[p];
    forall q | 0 <= q < n && q != p
      ensures col !in s[q] && (forall c :: c in s[q] ==> c in m[q] || c in m[p])
      ensures forall c :: c in m[q] && c !in m[p] ==> c in s[q]
    {
    }
    assert Ascending(pc');
    forall r | 0 <= r < |pc'|
      ensures pc'[r] in s[r]
    {
      if r < p {
        assert pc[r] !in m[p];
      }
    }
    forall r, c | 0 <= r < |pc'| && c in s[r]
      ensures pc'[r] <= c
    {
      if r < p {
        assert c in m[r] || c in m[p];
      }
    }
    forall r, q | 0 <= r < |pc'| && 0 <= q < n && q != r
      ensures pc'[r] !in s[q]
    {
      if r < p && q != p {
        assert pc[r] !in m[q] && pc[r] !in m[p];
      }
    }
    assert Pivots(s, n, pc');
    forall q, c | p + 1 <= q < n && c in s[q]
      ensures col + 1 <= c
    {
      assert c in m[q] || c in m[p];
    }
  }

  /** A finished elimination: the rows below the pivot rows are empty. */
  lemma EchelonEmptyRows(m: seq<Mask>, n: nat, b: nat, pc: seq<nat>, q: nat)
    requires Echelon(m, n, b, b, pc) && |pc| <= q < n
    ensures m[q] == {}
  {
    if c :| c in m[q] {
      assert false;
    }
  }

  // ===========================================================================
  // The building blocks of `solve_lights`
  // ===========================================================================

  /** `mat[light] |= 1 << btn_idx` for each light of each button. */
  method BuildMatrix(buttons: seq<Mask>) returns (mat: array<Mask>)
    requires AllSmall(buttons)
    ensures fresh(mat) && mat[..] == Matrix(buttons)
  {
    mat := new Mask[16](_ => {});
    for idx := 0 to |buttons|
      invariant mat.Length == 16
      invariant forall l :: 0 <= l < 16 ==> mat[l] == Wires(buttons[..idx], l)
    {
      AddButton(mat, buttons[idx], idx);
      forall l | 0 <= l < 16
        ensures Wires(buttons[..idx + 1], l) == Wires(buttons[..idx], l) + (if l in buttons[idx] then {idx} else {})
      {
        assert forall c :: 0 <= c < idx ==> buttons[..idx + 1][c] == buttons[..idx][c];
      }
    }
    assert buttons[..|buttons|] == buttons;
  }

  /** The loop over the lights of button `idx`, lowest first: each gets the button's bit. */
  method AddButton(mat: array<Mask>, button: Mask, idx: nat)
    requires mat.Length == 16 && Small(button)
    modifies mat
    ensures forall l :: 0 <= l < 16 ==> mat[l] == old(mat[l]) + (if l in button then {idx} else {})
  {
    var bits := button;
    while bits != {}
      invariant bits <= button
      invariant forall l :: 0 <= l < 16 ==> mat[l] == old(mat[l]) + (if l in button - bits then {idx} else {})
      decreases |bits|
    {
      var light := TrailingZeros(bits);
      mat[light] := mat[light] + {idx};
      bits := bits - {light};
    }
  }

  /** The first row from `rank` up to `n` holding `col`, or `n` when there is none. */
  method FindPivot(mat: array<Mask>, rank: nat, n: nat, col: nat) returns (prow: nat)
    requires rank <= n <= mat.Length
    ensures rank <= prow <= n
    ensures prow < n ==> col in mat[prow]
    ensures forall q :: rank <= q < prow ==> col !in mat[q]
  {
    prow := rank;
    while prow < n && col !in mat[prow]
      invariant rank <= prow <= n
      invariant forall q :: rank <= q < prow ==> col !in mat[q]
    {
      prow := prow + 1;
    }
  }

  /** The elimination loop over the columns: it leaves the matrix in echelon form with the
      same solutions, with `rank` pivot rows whose columns make up `pivotMask`. */
  method Eliminate(mat: array<Mask>, target: Mask, n: nat, b: nat)
      returns (t: Mask, pivotMask: Mask, rank: nat, ghost pc: seq<nat>)
    requires mat.Length == 16 && n <= 16 && Echelon(mat[..], n, b, 0, [])
    modifies mat
    ensures Echelon(mat[..], n, b, b, pc) && rank == |pc|
    ensures Equivalent(mat[..], t, old(mat[..]), target, n, b)
    ensures rank <= n && rank <= b && pivotMask == Elems(pc) && |pivotMask| == rank
  {
    ghost var m0 := mat[..];
    t, pivotMask, rank, pc := target, {}, 0, [];
    for col := 0 to b
      invariant Echelon(mat[..], n, b, col, pc) && rank == |pc|
      invariant Equivalent(mat[..], t, m0, target, n, b)
      invariant pivotMask == Elems(pc)
    {
      var prow := FindPivot(mat, rank, n, col);
      if prow == n {
        NoPivotStep(mat[..], n, b, col, pc);
        continue;
      }
      ghost var before, tb := mat[..], t;
      t := PivotOn(mat, t, rank, prow, col, n);
      SwapEchelon(before, n, b, col, pc, prow);
      XorEchelon(SwapRows(before, rank, prow), n, b, col, pc);
      PivotEquivalent(before, tb, rank, prow, col, m0, target, n, b);
      pivotMask := pivotMask + {col};
      assert Elems(pc + [col]) == Elems(pc) + {col};
      pc, rank := pc + [col], rank + 1;
    }
    AscendingCard(pc);
  }

  /** One pivot step: swap row `prow` up to `rank`, swapping the target bits with it, then
      add the pivot row to every other row that holds `col`. */
  method PivotOn(mat: array<Mask>, t0: Mask, rank: nat, prow: nat, col: nat, n: nat) returns (t: Mask)
    requires rank < n <= mat.Length && prow < n
    modifies mat
    ensures mat[..] == XorRows(SwapRows(old(mat[..]), rank, prow), rank, col, n)
    ensures t == XorBits(SwapRows(old(mat[..]), rank, prow), SwapBits(t0, rank, prow), rank, col, n)
  {
    mat[rank], mat[prow] := mat[prow], mat[rank];
    t := SwapBits(t0, rank, prow);
    ghost var swapped, ts := mat[..], t;
    assert swapped == SwapRows(old(mat[..]), rank, prow);
    var pivotRow := mat[rank];
    for row := 0 to n
      invariant mat[..] == XorRows(swapped, rank, col, row)
      invariant t == XorBits(swapped, ts, rank, col, row)
    {
      if row != rank && col in mat[row] {
        mat[row] := Xor(mat[row], pivotRow);
        t := if (row in t) != (rank in t) then t + {row} else t - {row};
      }
      assert mat[..] == XorRows(swapped, rank, col, row + 1);
    }
  }

  /** The columns that are not pivots, in increasing order: `free_cols[..free_count]`. */
  method FreeColumns(pivotMask: Mask, b: nat) returns (freeCols: array<nat>, count: nat)
    requires b <= 16
    ensures fresh(freeCols) && freeCols.Length == 16 && count <= b
    ensures Ascending(freeCols[..count])
    ensures forall c: nat :: c in freeCols[..count] <==> c < b && c !in pivotMask
  {
    var freeMask := Range(b) - pivotMask;
    freeCols := new nat[16](_ => 0);
    count := 0;
    for col := 0 to b
      invariant count <= col
      invariant Ascending(freeCols[..count]) && forall i :: 0 <= i < count ==> freeCols[i] < col
      invariant forall c: nat :: c in freeCols[..count] <==> c < col && c !in pivotMask
    {
      assert col in freeMask <==> col !in pivotMask;
      if col in freeMask {
        freeCols[count] := col;
        count := count + 1;
        assert freeCols[..count] == freeCols[..count - 1] + [col];
      }
    }
  }

  /** `pivot_cols[row]` is the lowest column of each pivot row and `other_masks[row]` the
      rest of the row. */
  method PivotRows(mat: array<Mask>, rank: nat) returns (pivotCols: array<nat>, others: array<Mask>)
    requires rank <= mat.Length == 16
    requires forall r :: 0 <= r < rank ==> mat[r] != {} && Small(mat[r])
    ensures fresh(pivotCols) && fresh(others) && pivotCols.Length == 16 && others.Length == 16
    ensures forall r :: 0 <= r < rank ==>
      pivotCols[r] in mat[r] && (forall c :: c in mat[r] ==> pivotCols[r] <= c)
        && others[r] == mat[r] - {pivotCols[r]}
  {
    pivotCols := new nat[16](_ => 0);
    others := new Mask[16](_ => {});
    for row := 0 to rank
      invariant forall r :: 0 <= r < row ==>
        pivotCols[r] in mat[r] && (forall c :: c in mat[r] ==> pivotCols[r] <= c)
          && others[r] == mat[r] - {pivotCols[r]}
    {
      var pc := TrailingZeros(mat[row]);
      pivotCols[row] := pc;
      others[row] := mat[row] - {pc};
    }
  }

  // ===========================================================================
  // The search over the free columns
  // ===========================================================================

  /** Bit `i` of `v`: `(v >> i) & 1 == 1`. */
  predicate TestBit(v: nat, i: nat)
  {
    (v / Pow2(i)) % 2 == 1
  }

  /** The free columns chosen by the first `i` bits of `v`. */
  function Chosen(fcs: seq<nat>, v: nat, i: nat): set<nat>
    requires i <= |fcs|
  {
    if i == 0 then {} else Chosen(fcs, v, i - 1) + (if TestBit(v, i - 1) then {fcs[i - 1]} else {})
  }

  /** Whether the pivot of row `r` must be pressed so that the row comes out right. */
  predicate Flip(t: Mask, others: seq<Mask>, r: nat, sol: set<nat>)
    requires r < |others|
  {
    (r in t) != Odd(|others[r] * sol|)
  }

  /** Back substitution over the rows below `row`, from the highest down, as the loop does
      it: each row reads the presses decided so far. */
  function BackFrom(t: Mask, pcs: seq<nat>, others: seq<Mask>, sol: set<nat>, row: nat): set<nat>
    requires row <= |pcs| == |others|
    decreases row
  {
    if row == 0 then sol
    else BackFrom(t, pcs, others, if Flip(t, others, row - 1, sol) then sol + {pcs[row - 1]} else sol, row - 1)
  }

  /** The candidate for the free bits `v`. */
  function Candidate(t: Mask, fcs: seq<nat>, pcs: seq<nat>, others: seq<Mask>, v: nat): set<nat>
    requires |pcs| == |others|
  {
    BackFrom(t, pcs, others, Chosen(fcs, v, |fcs|), |pcs|)
  }

  /** The popcounts of the candidates for the free bits below `v`. */
  function Costs(t: Mask, fcs: seq<nat>, pcs: seq<nat>, others: seq<Mask>, v: nat): (cs: seq<nat>)
    requires |pcs| == |others|
    ensures |cs| == v
  {
    seq(v, w requires 0 <= w => |Candidate(t, fcs, pcs, others, w)|)
  }

  /** `if cost < best { best = cost }` over `costs`, from `u32::MAX`. */
  function Least(costs: seq<nat>): nat
  {
    if costs == [] then U32_MAX
    else
      var best := Least(costs[..|costs| - 1]);
      var cost := costs[|costs| - 1];
      if cost < best then cost else best
  }

  /** The running minimum is attained and is a lower bound. */
  lemma {:induction false} LeastMeaning(costs: seq<nat>)
    requires forall i :: 0 <= i < |costs| ==> costs[i] < U32_MAX
    ensures forall i :: 0 <= i < |costs| ==> Least(costs) <= costs[i]
    ensures costs != [] ==> exists i :: 0 <= i < |costs| && Least(costs) == costs[i]
  {
    if costs != [] {
      var init := costs[..|costs| - 1];
      LeastMeaning(init);
      assert forall i :: 0 <= i < |init| ==> init[i] == costs[i];
      var best, cost := Least(init), costs[|costs| - 1];
      assert Least(costs) == if cost < best then cost else best;
      if cost >= best {
        var i :| 0 <= i < |init| && best == init[i];
        assert Least(costs) == costs[i];
      }
    }
  }

  /** The solution for the free bits `free_bits`: the chosen free columns first. */
  method FreeChoice(fcs: seq<nat>, v: nat) returns (sol: set<nat>)
    ensures sol == Chosen(fcs, v, |fcs|)
  {
    sol := {};
    for i := 0 to |fcs|
      invariant sol == Chosen(fcs, v, i)
    {
      if (v / Pow2(i)) % 2 == 1 {
        sol := sol + {fcs[i]};
      }
    }
  }

  /** The back substitution loop, from the last pivot row to the first. */
  method BackSubstitute(t: Mask, pcs: seq<nat>, others: seq<Mask>, free: set<nat>) returns (sol: set<nat>)
    requires |pcs| == |others|
    ensures sol == BackFrom(t, pcs, others, free, |pcs|)
  {
    sol := free;
    var row: nat := |pcs|;
    while row > 0
      invariant row <= |pcs| && BackFrom(t, pcs, others, sol, row) == BackFrom(t, pcs, others, free, |pcs|)
      decreases row
    {
      row := row - 1;
      var rhs := row in t;
      var parity := Odd(|others[row] * sol|);
      if rhs != parity {
        sol := sol + {pcs[row]};
      }
    }
  }

  /** The loop over all `2^num_free` settings of the free columns. */
  method Cheapest(t: Mask, fcs: seq<nat>, pcs: seq<nat>, others: seq<Mask>) returns (best: nat)
    requires |pcs| == |others|
    ensures best == Least(Costs(t, fcs, pcs, others, Pow2(|fcs|)))
  {
    best := U32_MAX;
    for v := 0 to Pow2(|fcs|)
      invariant best == Least(Costs(t, fcs, pcs, others, v))
    {
      var sol := FreeChoice(fcs, v);
      sol := BackSubstitute(t, pcs, others, sol);
      var cost := |sol|;
      assert Costs(t, fcs, pcs, others, v + 1)[..v] == Costs(t, fcs, pcs, others, v);
      if cost < best {
        best := cost;
      }
    }
  }

  // ===========================================================================
  // Why the search finds the fewest presses
  // ===========================================================================

  lemma {:induction false} Pow2Add(a: nat, b: nat)
    ensures Pow2(a + b) == Pow2(a) * Pow2(b)
    decreases b
  {
    if b > 0 {
      Pow2Add(a, b - 1);
      MulAssoc(2, Pow2(a), Pow2(b - 1));
    }
  }

  /** Adding a multiple of `2^k` leaves the bits below `k` alone. */
  lemma BitLow(a: nat, c: nat, k: nat, i: nat)
    requires i < k
    ensures TestBit(a + c * Pow2(k), i) <==> TestBit(a, i)
  {
    var p, q := Pow2(i), Pow2(k - i - 1);
    assert Pow2(k) == p * (2 * q) by {
      Pow2Add(i, k - i);
    }
    EvenShift(a, c, p, q);
  }

  /** The arithmetic of `BitLow`, with the powers of two named. */
  lemma EvenShift(a: nat, c: nat, p: nat, q: nat)
    requires p > 0
    ensures ((a + c * (p * (2 * q))) / p) % 2 == (a / p) % 2
  {
    var z := c * q;
    assert c * (p * (2 * q)) == p * (2 * z);
    var d := a / p;
    assert a == p * d + a % p;
    MulAdd(p, d, 2 * z);
    DivModUnique(a + p * (2 * z), p, d + 2 * z, a % p);
    ModAddMultiple(d, z, 2);
  }

  /** Below `2^k`, adding `c * 2^k` puts `c`'s low bit at bit `k`. */
  lemma BitTop(a: nat, c: nat, k: nat)
    requires a < Pow2(k)
    ensures TestBit(a + c * Pow2(k), k) <==> c % 2 == 1
  {
    DivModUnique(a + c * Pow2(k), Pow2(k), c, a);
  }

  /** The bits of the value of a mask are the mask's elements. */
  lemma ValueBits(m: Mask, k: nat)
    ensures forall i: nat :: i < k ==> (TestBit(ValueBelow(m, k), i) <==> i in m)
  {
    forall i: nat | i < k
      ensures TestBit(ValueBelow(m, k), i) <==> i in m
    {
      ValueBit(m, k, i);
    }
  }

  lemma {:induction false} ValueBit(m: Mask, k: nat, i: nat)
    requires i < k
    ensures TestBit(ValueBelow(m, k), i) <==> i in m
  {
    var a := ValueBelow(m, k - 1);
    var c := if k - 1 in m then 1 else 0;
    assert ValueBelow(m, k) == a + c * Pow2(k - 1) by {
      if k - 1 in m {
        assert ValueBelow(m, k) == a + Pow2(k - 1);
      } else {
        assert ValueBelow(m, k) == a;
      }
    }
    if i < k - 1 {
      BitLow(a, c, k - 1, i);
      ValueBit(m, k - 1, i);
    } else {
      BitTop(a, c, k - 1);
    }
  }

  lemma {:induction false} ChosenMeaning(fcs: seq<nat>, v: nat, i: nat)
    requires i <= |fcs|
    ensures forall c :: c in Chosen(fcs, v, i) <==> exists j :: 0 <= j < i && fcs[j] == c && TestBit(v, j)
  {
    if i > 0 {
      ChosenMeaning(fcs, v, i - 1);
    }
  }

  /** Every set of free columns is chosen by some setting of the free bits. */
  lemma EveryChoice(fcs: seq<nat>, f: set<nat>) returns (v: nat)
    requires forall c :: c in f ==> c in fcs
    ensures v < Pow2(|fcs|) && Chosen(fcs, v, |fcs|) == f
  {
    var k := |fcs|;
    var idx := set i: nat | i < k && fcs[i] in f;
    v := ValueBelow(idx, k);
    ValueBits(idx, k);
    ChosenMeaning(fcs, v, k);
    forall c | c in f
      ensures c in Chosen(fcs, v, k)
    {
      var j :| 0 <= j < k && fcs[j] == c;
      assert TestBit(v, j);
    }
  }

  /** The pivot columns added by back substitution, read off the free presses `f`. */
  function Filled(t: Mask, pcs: seq<nat>, others: seq<Mask>, f: set<nat>, hi: nat): set<nat>
    requires hi <= |pcs| == |others|
  {
    set r | 0 <= r < hi && Flip(t, others, r, f) :: pcs[r]
  }

  /** No row's other columns are pivot columns. */
  predicate Separate(pcs: seq<nat>, others: seq<Mask>)
  {
    forall r, q :: 0 <= r < |others| && 0 <= q < |pcs| ==> pcs[q] !in others[r]
  }

  /** The loop's order does not matter: a row's other columns are free, so the pivots set
      so far do not change its parity. */
  lemma {:induction false} BackFromMeaning(t: Mask, pcs: seq<nat>, others: seq<Mask>, f: set<nat>,
                                           sol: set<nat>, row: nat)
    requires row <= |pcs| == |others| && Separate(pcs, others)
    requires f <= sol && sol - f <= Elems(pcs)
    ensures BackFrom(t, pcs, others, sol, row) == sol + Filled(t, pcs, others, f, row)
    decreases row
  {
    if row > 0 {
      var r := row - 1;
      FreeRow(pcs, others, r, f, sol);
      var sol' := if Flip(t, others, r, sol) then sol + {pcs[r]} else sol;
      BackFromMeaning(t, pcs, others, f, sol', r);
      FilledSnoc(t, pcs, others, f, r);
    }
  }

  /** One more row adds its pivot exactly when it flips. */
  lemma FilledSnoc(t: Mask, pcs: seq<nat>, others: seq<Mask>, f: set<nat>, r: nat)
    requires r < |pcs| == |others|
    ensures Filled(t, pcs, others, f, r + 1) == Filled(t, pcs, others, f, r) + (if Flip(t, others, r, f) then {pcs[r]} else {})
  {
    var below := Filled(t, pcs, others, f, r);
    var extra: set<nat> := if Flip(t, others, r, f) then {pcs[r]} else {};
    forall c | c in Filled(t, pcs, others, f, r + 1) ensures c in below + extra {
      var i :| 0 <= i < r + 1 && Flip(t, others, i, f) && pcs[i] == c;
      if i < r {
        assert c in below;
      }
    }
    forall c | c in below + extra ensures c in Filled(t, pcs, others, f, r + 1) {
      if c in below {
        var i :| 0 <= i < r && Flip(t, others, i, f) && pcs[i] == c;
      }
    }
  }

  /** A row's other columns see only the free presses. */
  lemma FreeRow(pcs: seq<nat>, others: seq<Mask>, r: nat, f: set<nat>, sol: set<nat>)
    requires r < |others| && Separate(pcs, others) && f <= sol && sol - f <= Elems(pcs)
    ensures others[r] * sol == others[r] * f
  {
    forall c | c in others[r] * sol
      ensures c in f
    {
      assert c !in pcs by {
        forall q | 0 <= q < |pcs|
          ensures pcs[q] != c
        {
          assert pcs[q] !in others[r];
        }
      }
      assert c !in Elems(pcs);
      assert c !in sol - f;
    }
  }

  /** What the elimination and the tables leave for the search. */
  ghost predicate Reduced(m: Machine, e: seq<Mask>, t: Mask, pc: seq<nat>, fcs: seq<nat>, others: seq<Mask>)
  {
    m.n <= 16 && |m.buttons| < 16 && |e| == 16 && Echelon(e, m.n, |m.buttons|, |m.buttons|, pc)
      && Equivalent(e, t, Matrix(m.buttons), m.target, m.n, |m.buttons|)
      && Ascending(fcs) && (forall c: nat :: c in fcs <==> c < |m.buttons| && c !in pc)
      && |others| == |pc| && forall r :: 0 <= r < |pc| ==> others[r] == e[r] - {pc[r]}
  }

  lemma ReducedSeparate(m: Machine, e: seq<Mask>, t: Mask, pc: seq<nat>, fcs: seq<nat>, others: seq<Mask>)
    requires Reduced(m, e, t, pc, fcs, others)
    ensures Separate(pc, others)
    ensures forall r, c :: 0 <= r < |others| && c in others[r] ==> c in fcs
  {
    forall r, c | 0 <= r < |others| && c in others[r]
      ensures c in fcs
    {
      assert c in e[r] && c < |m.buttons|;
    }
  }

  /** The row of pivot `r` reads its free columns and its pivot. */
  lemma PivotRowParity(m: Machine, e: seq<Mask>, t: Mask, pc: seq<nat>, fcs: seq<nat>, others: seq<Mask>,
                       f: set<nat>, x: set<nat>, r: nat)
    requires Reduced(m, e, t, pc, fcs, others) && 0 <= r < |pc|
    requires forall c :: c in f ==> c in fcs
    requires x * Elems(fcs) == f
    ensures Odd(|e[r] * x|) <==> (Odd(|others[r] * f|) != (pc[r] in x))
  {
    ReducedSeparate(m, e, t, pc, fcs, others);
    assert e[r] == others[r] + {pc[r]};
    assert others[r] <= Elems(fcs);
    RowParity(e[r], others[r], pc[r], Elems(fcs), f, x);
  }

  /** A row made of free columns `o` and one more column `p`. */
  lemma RowParity(row: Mask, o: Mask, p: nat, free: set<nat>, f: set<nat>, x: set<nat>)
    requires row == o + {p} && p !in o && o <= free && x * free == f
    ensures Odd(|row * x|) <==> (Odd(|o * f|) != (p in x))
  {
    assert o * x == o * f by {
      forall c | c in o * x
        ensures c in f
      {
        assert c in x * free;
      }
    }
    if p in x {
      assert row * x == (o * x) + {p};
      DisjointCard(o * x, {p});
    } else {
      assert row * x == o * x;
    }
  }

  /** Back substitution from free presses gives presses that satisfy every pivot row. */
  lemma CandidateSolvesPivots(m: Machine, e: seq<Mask>, t: Mask, pc: seq<nat>, fcs: seq<nat>,
                              others: seq<Mask>, f: set<nat>)
    requires Reduced(m, e, t, pc, fcs, others)
    requires forall c :: c in f ==> c in fcs
    ensures var x := f + Filled(t, pc, others, f, |pc|);
      Within(x, |m.buttons|) && forall r :: 0 <= r < |pc| ==> (r in t <==> Odd(|e[r] * x|))
  {
    var x := f + Filled(t, pc, others, f, |pc|);
    assert x * Elems(fcs) == f by {
      forall c | c in x * Elems(fcs)
        ensures c in f
      {
      }
    }
    forall r | 0 <= r < |pc|
      ensures r in t <==> Odd(|e[r] * x|)
    {
      CandidateRow(m, e, t, pc, fcs, others, f, r);
    }
    forall c | c in x
      ensures c < |m.buttons|
    {
      if c !in f {
        var r :| 0 <= r < |pc| && Flip(t, others, r, f) && pc[r] == c;
      }
    }
  }

  /** Row `r` of the back substitution from the free presses `f`. */
  lemma CandidateRow(m: Machine, e: seq<Mask>, t: Mask, pc: seq<nat>, fcs: seq<nat>,
                     others: seq<Mask>, f: set<nat>, r: nat)
    requires Reduced(m, e, t, pc, fcs, others) && 0 <= r < |pc|
    requires forall c :: c in f ==> c in fcs
    ensures var x := f + Filled(t, pc, others, f, |pc|);
      r in t <==> Odd(|e[r] * x|)
  {
    var x := f + Filled(t, pc, others, f, |pc|);
    assert x * Elems(fcs) == f;
    PivotRowParity(m, e, t, pc, fcs, others, f, x, r);
    assert pc[r] in x <==> Flip(t, others, r, f) by {
      if pc[r] in x && pc[r] !in f {
        var q :| 0 <= q < |pc| && Flip(t, others, q, f) && pc[q] == pc[r];
      }
    }
  }

  /** Presses that satisfy every pivot row are the back substitution of their free part. */
  lemma SolutionIsCandidate(m: Machine, e: seq<Mask>, t: Mask, pc: seq<nat>, fcs: seq<nat>,
                            others: seq<Mask>, x: set<nat>)
    requires Reduced(m, e, t, pc, fcs, others) && Within(x, |m.buttons|)
    requires forall r :: 0 <= r < |pc| ==> (r in t <==> Odd(|e[r] * x|))
    ensures var f := x * Elems(fcs);
      (forall c :: c in f ==> c in fcs) && x == f + Filled(t, pc, others, f, |pc|)
  {
    var f := x * Elems(fcs);
    forall c | c in x
      ensures c in f + Filled(t, pc, others, f, |pc|)
    {
      if c !in f {
        assert c in pc;
        var r :| 0 <= r < |pc| && pc[r] == c;
        PivotRowParity(m, e, t, pc, fcs, others, f, x, r);
      }
    }
    forall c | c in Filled(t, pc, others, f, |pc|)
      ensures c in x
    {
      var r :| 0 <= r < |pc| && Flip(t, others, r, f) && pc[r] == c;
      PivotRowParity(m, e, t, pc, fcs, others, f, x, r);
    }
  }

  /** A candidate is back substitution from its chosen free columns. */
  lemma CandidateFilled(m: Machine, e: seq<Mask>, t: Mask, pc: seq<nat>, fcs: seq<nat>,
                        others: seq<Mask>, v: nat)
    requires Reduced(m, e, t, pc, fcs, others)
    ensures var f := Chosen(fcs, v, |fcs|);
      (forall c :: c in f ==> c in fcs) && Candidate(t, fcs, pc, others, v) == f + Filled(t, pc, others, f, |pc|)
  {
    var f := Chosen(fcs, v, |fcs|);
    ChosenMeaning(fcs, v, |fcs|);
    ReducedSeparate(m, e, t, pc, fcs, others);
    BackFromMeaning(t, pc, others, f, f, |pc|);
  }

  /** In a solvable machine the empty rows ask for nothing. */
  lemma QuietRows(m: Machine, e: seq<Mask>, t: Mask, pc: seq<nat>, fcs: seq<nat>, others: seq<Mask>)
    requires Reduced(m, e, t, pc, fcs, others) && Solvable(m)
    ensures forall q :: |pc| <= q < m.n ==> q !in t && e[q] == {}
  {
    var x := PressesWitness(m);
    MatrixSolves(m, x);
    forall q | |pc| <= q < m.n
      ensures q !in t && e[q] == {}
    {
      EchelonEmptyRows(e, m.n, |m.buttons|, pc, q);
      assert e[q] * x == {};
    }
  }

  /** Every candidate of a solvable machine turns on exactly the target lights. */
  lemma CandidatePresses(m: Machine, e: seq<Mask>, t: Mask, pc: seq<nat>, fcs: seq<nat>,
                         others: seq<Mask>, v: nat)
    requires Reduced(m, e, t, pc, fcs, others) && Solvable(m)
    ensures Presses(m, Candidate(t, fcs, pc, others, v))
  {
    var f := Chosen(fcs, v, |fcs|);
    CandidateFilled(m, e, t, pc, fcs, others, v);
    CandidateSolvesPivots(m, e, t, pc, fcs, others, f);
    QuietRows(m, e, t, pc, fcs, others);
    var x := Candidate(t, fcs, pc, others, v);
    forall q | |pc| <= q < m.n
      ensures q in t <==> Odd(|e[q] * x|)
    {
      assert e[q] * x == {};
    }
    assert Solves(e, t, m.n, x);
    MatrixSolves(m, x);
  }

  /** Every set of presses that works is a candidate. */
  lemma PressesAreCandidates(m: Machine, e: seq<Mask>, t: Mask, pc: seq<nat>, fcs: seq<nat>,
                             others: seq<Mask>, x: set<nat>) returns (v: nat)
    requires Reduced(m, e, t, pc, fcs, others) && Presses(m, x)
    ensures v < Pow2(|fcs|) && Candidate(t, fcs, pc, others, v) == x
  {
    MatrixSolves(m, x);
    assert Solves(e, t, m.n, x);
    SolutionIsCandidate(m, e, t, pc, fcs, others, x);
    var f := x * Elems(fcs);
    v := EveryChoice(fcs, f);
    CandidateFilled(m, e, t, pc, fcs, others, v);
  }

  /** The search of a solvable machine finds the fewest presses. */
  lemma SearchIsFewest(m: Machine, e: seq<Mask>, t: Mask, pc: seq<nat>, fcs: seq<nat>, others: seq<Mask>)
    requires Reduced(m, e, t, pc, fcs, others) && Solvable(m)
    ensures Fewest(m, Least(Costs(t, fcs, pc, others, Pow2(|fcs|))))
  {
    var cs := Costs(t, fcs, pc, others, Pow2(|fcs|));
    var best := Least(cs);
    CandidatesBounded(m, e, t, pc, fcs, others);
    LeastMeaning(cs);
    var w :| 0 <= w < Pow2(|fcs|) && best == cs[w];
    CandidatePresses(m, e, t, pc, fcs, others, w);
    forall x | Presses(m, x)
      ensures best <= |x|
    {
      var v := PressesAreCandidates(m, e, t, pc, fcs, others, x);
      assert best <= cs[v];
    }
  }

  /** No candidate has more presses than there are buttons. */
  lemma CandidatesBounded(m: Machine, e: seq<Mask>, t: Mask, pc: seq<nat>, fcs: seq<nat>, others: seq<Mask>)
    requires Reduced(m, e, t, pc, fcs, others)
    ensures forall w :: 0 <= w < Pow2(|fcs|) ==> |Candidate(t, fcs, pc, others, w)| <= |m.buttons|
  {
    forall w | 0 <= w < Pow2(|fcs|)
      ensures |Candidate(t, fcs, pc, others, w)| <= |m.buttons|
    {
      var f := Chosen(fcs, w, |fcs|);
      CandidateFilled(m, e, t, pc, fcs, others, w);
      CandidateSolvesPivots(m, e, t, pc, fcs, others, f);
      WithinCard(Candidate(t, fcs, pc, others, w), |m.buttons|);
    }
  }

  /** Whatever the machine, the search answers at most the number of buttons. */
  lemma SearchBound(m: Machine, e: seq<Mask>, t: Mask, pc: seq<nat>, fcs: seq<nat>, others: seq<Mask>)
    requires Reduced(m, e, t, pc, fcs, others)
    ensures Least(Costs(t, fcs, pc, others, Pow2(|fcs|))) <= |m.buttons|
  {
    var cs := Costs(t, fcs, pc, others, Pow2(|fcs|));
    CandidatesBounded(m, e, t, pc, fcs, others);
    LeastMeaning(cs);
    var w :| 0 <= w < Pow2(|fcs|) && Least(cs) == cs[w];
  }

  /** The tables built after the elimination are the ones the search needs. */
  lemma TablesReduced(m: Machine, e: seq<Mask>, t: Mask, pc: seq<nat>, pivotMask: Mask,
                      fc: seq<nat>, count: nat, pcols: seq<nat>, os: seq<Mask>)
    requires m.n <= 16 && 0 < |m.buttons| < 16 && |e| == 16 && |fc| == 16 && |pcols| == 16 && |os| == 16
    requires Echelon(e, m.n, |m.buttons|, |m.buttons|, pc)
    requires Equivalent(e, t, Matrix(m.buttons), m.target, m.n, |m.buttons|)
    requires pivotMask == Elems(pc) && |pivotMask| == |pc| && count <= |m.buttons|
    requires Ascending(fc[..count]) && forall c: nat :: c in fc[..count] <==> c < |m.buttons| && c !in pivotMask
    requires forall r :: 0 <= r < |pc| ==>
      pcols[r] in e[r] && (forall c :: c in e[r] ==> pcols[r] <= c) && os[r] == e[r] - {pcols[r]}
    ensures count == |m.buttons| - |pc| && pcols[..|pc|] == pc
    ensures Reduced(m, e, t, pc, fc[..count], os[..|pc|])
  {
    var b, rank := |m.buttons|, |pc|;
    forall r | 0 <= r < rank
      ensures pcols[r] == pc[r]
    {
      assert pc[r] <= pcols[r] && pcols[r] <= pc[r];
    }
    assert pcols[..rank] == pc;
    RangeCard(b);
    AscendingCard(fc[..count]);
    assert Elems(fc[..count]) == Range(b) - pivotMask;
    assert Range(b) == (Range(b) - pivotMask) + pivotMask;
  }

  // ===========================================================================
  // `solve_lights`
  // ===========================================================================

  /** What `solve_lights` promises: 0 with nothing to turn on, `u32::MAX` with no
      buttons, otherwise no more presses than buttons, and the fewest presses whenever
      some presses work. */
  ghost predicate LightsAnswer(m: Machine, r: nat)
  {
    (m.target == {} ==> r == 0) &&
    (m.target != {} && |m.buttons| == 0 ==> r == U32_MAX) &&
    (m.target != {} && |m.buttons| > 0 ==> r <= |m.buttons|) &&
    ((m.target == {} || |m.buttons| > 0) && Solvable(m) ==> r == MinPresses(m))
  }

  /** `solve_lights`. */
  method SolveLights(m: Machine) returns (r: nat)
    requires m.n <= 16 && |m.buttons| < 16 && AllSmall(m.buttons)
    ensures LightsAnswer(m, r)
  {
    if m.target == {} {
      NothingToToggle(m);
      FewestUnique(m, 0, MinPresses(m));
      return 0;
    }
    var b := |m.buttons|;
    if b == 0 {
      return U32_MAX;
    }
    var mat := BuildMatrix(m.buttons);
    MatrixEchelon(m.buttons, m.n);
    var t, pivotMask, rank, pc := Eliminate(mat, m.target, m.n, b);
    var freeCols, count := FreeColumns(pivotMask, b);
    var pivotCols, others := PivotRows(mat, rank);
    var numFree := b - rank;
    ghost var e, fcAll, pcAll, osAll := mat[..], freeCols[..], pivotCols[..], others[..];
    TablesReduced(m, e, t, pc, pivotMask, fcAll, count, pcAll, osAll);
    var fcs, pcs, os := freeCols[..numFree], pivotCols[..rank], others[..rank];
    assert fcs == fcAll[..count] && pcs == pcAll[..|pc|] == pc && os == osAll[..|pc|];
    r := Cheapest(t, fcs, pcs, os);
    CheapestAnswers(m, e, t, pc, fcs, os, r);
  }

  /** The cheapest cost over the free columns of a reduced system answers the machine. */
  lemma CheapestAnswers(m: Machine, e: seq<Mask>, t: Mask, pc: seq<nat>, fcs: seq<nat>, os: seq<Mask>, r: nat)
    requires m.target != {} && |m.buttons| > 0
    requires Reduced(m, e, t, pc, fcs, os) && r == Least(Costs(t, fcs, pc, os, Pow2(|fcs|)))
    ensures LightsAnswer(m, r)
  {
    SearchBound(m, e, t, pc, fcs, os);
    if Solvable(m) {
      SearchIsFewest(m, e, t, pc, fcs, os);
      FewestUnique(m, r, MinPresses(m));
    }
  }
}
