/** Day 10, part 2: the fewest presses that bring every joltage counter to its target.
    Pressing button `c` adds one to each counter it is wired to, so a press count per
    button is a solution when, for each of the first `n` counters, the presses of the
    buttons wired to it add up to its target.  The solver writes these equations as an
    integer matrix, brings it to reduced echelon form by fraction-free elimination, and
    then searches the values of the free buttons. */
module Day10Joltage {
  import opened Common
  import opened Day10
  import Day10Lights

  /** `u16::MAX`, the bound of a button before any counter is looked at. */
  const U16_MAX: nat := 0xFFFF
  /** The matrix has one column per button (at most 16) and the targets after them. */
  const WIDTH: nat := 17

  // ===========================================================================
  // Rust's truncating `/` and `%` on `i32`, and divisibility
  // ===========================================================================

  function Abs(a: int): nat { if a < 0 then -a else a }

  /** `a / b`: the quotient rounded toward zero. */
  function Quot(a: int, b: int): int
    requires b != 0
  {
    var q := Abs(a) / Abs(b);
    if (a >= 0) == (b > 0) then q else -q
  }

  /** `a % b`: the remainder takes the sign of `a`. */
  function Rem(a: int, b: int): int
    requires b != 0
  {
    if a >= 0 then Abs(a) % Abs(b) else -(Abs(a) % Abs(b))
  }

  /** Truncating division rebuilds the dividend, and the remainder is smaller than the
      divisor. */
  lemma QuotRem(a: int, b: int)
    requires b != 0
    ensures a == b * Quot(a, b) + Rem(a, b)
    ensures Abs(Rem(a, b)) < Abs(b)
  {
    var q, r := Abs(a) / Abs(b), Abs(a) % Abs(b);
    assert Abs(a) == Abs(b) * q + r;
    if b < 0 {
      assert Abs(b) * q == b * (-q);
    }
  }

  /** `d` divides `x`. */
  predicate Divides(d: int, x: int)
  {
    d >= 1 && x % d == 0
  }

  lemma DividesMultiple(d: int, k: int)
    requires d >= 1
    ensures Divides(d, d * k)
  {
    DivModUnique(d * k, d, k, 0);
  }

  /** A multiple of `d` is `d` times its quotient. */
  lemma DividesQuotient(d: int, x: int)
    requires Divides(d, x)
    ensures x == d * (x / d)
  {
  }

  /** Divisibility is kept by integer combinations. */
  lemma DividesCombination(d: int, x: int, y: int, p: int, q: int)
    requires Divides(d, x) && Divides(d, y)
    ensures Divides(d, p * x + q * y)
  {
    var i, j := x / d, y / d;
    assert x == d * i && y == d * j;
    assert p * x + q * y == d * (p * i + q * j) by {
      assert p * (d * i) == d * (p * i);
      assert q * (d * j) == d * (q * j);
    }
    DividesMultiple(d, p * i + q * j);
  }

  lemma DividesTransitive(d: int, e: int, x: int)
    requires Divides(d, e) && Divides(e, x)
    ensures Divides(d, x)
  {
    var i, j := e / d, x / e;
    assert e == d * i && x == e * j;
    assert x == d * (i * j);
    DividesMultiple(d, i * j);
  }

  lemma DividesAbs(d: int, x: int)
    requires d >= 1
    ensures Divides(d, x) <==> Divides(d, Abs(x))
  {
    if Divides(d, x) {
      DividesCombination(d, x, x, -1, 0);
    }
    if Divides(d, Abs(x)) {
      DividesCombination(d, Abs(x), Abs(x), -1, 0);
    }
  }

  lemma DividesSelf(x: int)
    requires x != 0
    ensures Divides(Abs(x), x)
  {
    DividesMultiple(Abs(x), if x < 0 then -1 else 1);
  }

  /** Dividing an exact multiple by truncation gives the factor back. */
  lemma QuotExact(x: int, d: int)
    requires d != 0 && Rem(x, d) == 0
    ensures x == d * Quot(x, d)
  {
    QuotRem(x, d);
  }

  /** A remainder of zero is divisibility by the divisor's magnitude. */
  lemma RemZero(x: int, d: int)
    requires d != 0
    ensures Rem(x, d) == 0 <==> Divides(Abs(d), x)
  {
    DividesAbs(Abs(d), x);
  }

  /** The product of a nonzero divisor and a factor leaves no remainder. */
  lemma RemOfMultiple(d: int, k: int)
    requires d != 0
    ensures Rem(d * k, d) == 0 && Quot(d * k, d) == k
  {
    var x := d * k;
    assert Abs(x) == Abs(d) * Abs(k);
    DivModUnique(Abs(x), Abs(d), Abs(k), 0);
  }

  /** The step of Euclid's loop keeps the common divisors. */
  lemma EuclidStep(a: int, b: int, d: int)
    requires b != 0 && d >= 1
    ensures Divides(d, a) && Divides(d, b) <==> Divides(d, b) && Divides(d, Rem(a, b))
  {
    QuotRem(a, b);
    var q, r := Quot(a, b), Rem(a, b);
    if Divides(d, a) && Divides(d, b) {
      DividesCombination(d, a, b, 1, -q);
      assert 1 * a + (-q) * b == r;
    }
    if Divides(d, b) && Divides(d, r) {
      DividesCombination(d, b, r, q, 1);
      assert q * b + 1 * r == a;
    }
  }

  /** A divisor of a nonzero number is no larger than its magnitude. */
  lemma DivisorBound(d: int, x: int)
    requires Divides(d, x) && x != 0
    ensures d <= Abs(x)
  {
    DividesAbs(d, x);
    var k := Abs(x) / d;
    assert Abs(x) == d * k;
    assert k >= 1;
    assert d * k == d + d * (k - 1);
    NatMul(d, k - 1);
  }

  /** `gcd`: Euclid's algorithm on truncating remainders, then `a.abs().max(1)`. */
  method Gcd(a0: int, b0: int) returns (g: int)
    ensures g >= 1 && Divides(g, a0) && Divides(g, b0)
    ensures (a0 != 0 || b0 != 0) ==> forall d :: Divides(d, a0) && Divides(d, b0) ==> Divides(d, g)
  {
    var a, b := a0, b0;
    while b != 0
      invariant forall d :: d >= 1 ==> (Divides(d, a) && Divides(d, b) <==> Divides(d, a0) && Divides(d, b0))
      invariant (a0 != 0 || b0 != 0) ==> a != 0 || b != 0
      decreases Abs(b)
    {
      var t := b;
      QuotRem(a, b);
      forall d | d >= 1
        ensures Divides(d, a) && Divides(d, b) <==> Divides(d, b) && Divides(d, Rem(a, b))
      {
        EuclidStep(a, b, d);
      }
      b := Rem(a, b);
      a := t;
    }
    assert Divides(1, 0) && Divides(1, a0) && Divides(1, b0);
    g := if Abs(a) > 1 then Abs(a) else 1;
    if a != 0 {
      DividesSelf(a);
      assert Divides(Abs(a), 0);
      forall d | Divides(d, a0) && Divides(d, b0)
        ensures Divides(d, g)
      {
        assert Divides(d, a);
        DividesAbs(d, a);
      }
    }
  }

  // ===========================================================================
  // The equations
  // ===========================================================================

  /** What the presses `x` of the first `k` buttons add to counter `l`. */
  function Delivered(buttons: seq<Mask>, x: seq<int>, l: nat, k: nat): int
    requires k <= |buttons| && k <= |x|
  {
    if k == 0 then 0
    else Delivered(buttons, x, l, k - 1) + (if l in buttons[k - 1] then x[k - 1] else 0)
  }

  /** The presses `x` bring each of the first `n` counters to its target. */
  ghost predicate Equations(m: Machine, x: seq<int>)
  {
    |x| == |m.buttons| &&
    forall l :: 0 <= l < m.n ==> l < |m.joltages| && Delivered(m.buttons, x, l, |x|) == m.joltages[l]
  }

  predicate NonNegative(x: seq<int>)
  {
    forall c :: 0 <= c < |x| ==> x[c] >= 0
  }

  /** A solution: a press count per button that meets every target. */
  ghost predicate Meets(m: Machine, x: seq<int>)
  {
    Equations(m, x) && NonNegative(x)
  }

  ghost predicate Feasible(m: Machine)
  {
    exists x :: Meets(m, x)
  }

  /** The equations have an integer solution, negative counts allowed. */
  ghost predicate Consistent(m: Machine)
  {
    exists x :: Equations(m, x)
  }

  /** `k` presses in all is the fewest any solution needs. */
  ghost predicate FewestJolts(m: Machine, k: nat)
  {
    (exists x :: Meets(m, x) && Sum(x) == k) && forall x :: Meets(m, x) ==> k <= Sum(x)
  }

  /** The counters of every button are among the first `n`, and no button is empty. */
  predicate Wired(m: Machine)
  {
    forall c :: 0 <= c < |m.buttons| ==> m.buttons[c] != {} && forall l :: l in m.buttons[c] ==> l < m.n
  }

  /** What the unchecked reads of `solve_joltage` need: every counter a button names has
      a target. */
  predicate Addressed(m: Machine)
  {
    AllSmall(m.buttons) && m.n <= |m.joltages| &&
    forall c, l :: 0 <= c < |m.buttons| && l in m.buttons[c] ==> l < |m.joltages|
  }

  /** A counter gets at least the presses of each button wired to it. */
  lemma {:induction false} DeliveredBelow(buttons: seq<Mask>, x: seq<int>, l: nat, k: nat, c: nat)
    requires k <= |buttons| && k <= |x| && NonNegative(x) && c < k && l in buttons[c]
    ensures x[c] <= Delivered(buttons, x, l, k)
  {
    if c < k - 1 {
      DeliveredBelow(buttons, x, l, k - 1, c);
    } else {
      DeliveredNonNegative(buttons, x, l, k - 1);
    }
  }

  lemma {:induction false} DeliveredNonNegative(buttons: seq<Mask>, x: seq<int>, l: nat, k: nat)
    requires k <= |buttons| && k <= |x| && NonNegative(x)
    ensures Delivered(buttons, x, l, k) >= 0
  {
    if k > 0 {
      DeliveredNonNegative(buttons, x, l, k - 1);
    }
  }

  // ===========================================================================
  // Bounds
  // ===========================================================================

  /** `v` is `bounds[c]`: the smallest target among the counters in `lights`, or
      `u16::MAX` when there are none. */
  predicate LeastTarget(v: nat, lights: set<nat>, joltages: seq<U16>)
    requires forall l :: l in lights ==> l < |joltages|
  {
    (forall l :: l in lights ==> v <= joltages[l]) &&
    (if lights == {} then v == U16_MAX else exists l :: l in lights && v == joltages[l])
  }

  /** No solution presses a button more often than the target of any of its counters. */
  lemma BoundSound(m: Machine, x: seq<int>, c: nat, v: nat)
    requires Meets(m, x) && Wired(m) && Addressed(m) && c < |m.buttons|
    requires LeastTarget(v, m.buttons[c], m.joltages)
    ensures x[c] <= v
  {
    var l :| l in m.buttons[c] && v == m.joltages[l];
    DeliveredBelow(m.buttons, x, l, |x|, c);
  }

  // ===========================================================================
  // The matrix
  // ===========================================================================

  /** Rows of `WIDTH` entries; the matrix has 16 of them. */
  predicate Shaped(rows: seq<seq<int>>)
  {
    |rows| == 16 && forall r :: 0 <= r < 16 ==> |rows[r]| == WIDTH
  }

  /** The first `k` terms of row times presses. */
  function Dot(row: seq<int>, x: seq<int>, k: nat): int
    requires k <= |row| && k <= |x|
  {
    if k == 0 then 0 else Dot(row, x, k - 1) + row[k - 1] * x[k - 1]
  }

  /** The equation of `row`: its first `nb` columns times the presses give its last. */
  ghost predicate Holds(row: seq<int>, x: seq<int>, nb: nat)
    requires nb < |row| && nb <= |x|
  {
    Dot(row, x, nb) == row[nb]
  }

  /** The presses `x` satisfy the first `n` rows. */
  ghost predicate Satisfies(rows: seq<seq<int>>, n: nat, nb: nat, x: seq<int>)
    requires Shaped(rows) && n <= 16 && nb < WIDTH && |x| == nb
  {
    forall r :: 0 <= r < n ==> Holds(rows[r], x, nb)
  }

  /** Two matrices whose first `n` rows have the same solutions. */
  ghost predicate SameSolutions(rows: seq<seq<int>>, rows0: seq<seq<int>>, n: nat, nb: nat)
    requires Shaped(rows) && Shaped(rows0) && n <= 16 && nb < WIDTH
  {
    forall x: seq<int> :: |x| == nb ==> (Satisfies(rows, n, nb, x) <==> Satisfies(rows0, n, nb, x))
  }

  /** Row `l` once the buttons below `k` are entered: a one where button `c` is wired to
      counter `l`. */
  function Wiring(buttons: seq<Mask>, l: nat, k: nat): (row: seq<int>)
    requires k <= |buttons|
    ensures |row| == WIDTH
  {
    seq(WIDTH, c requires 0 <= c < WIDTH => if c < k && l in buttons[c] then 1 else 0)
  }

  /** The matrix `solve_joltage` builds: the wiring, and the target of counter `l` in the
      column after the buttons of each of the first `n` rows. */
  function Initial(m: Machine): (rows: seq<seq<int>>)
    requires |m.buttons| < WIDTH && m.n <= |m.joltages|
    ensures Shaped(rows)
  {
    var nb := |m.buttons|;
    seq(16, l requires 0 <= l < 16 =>
      var w := Wiring(m.buttons, l, nb);
      if l < m.n then w[nb := m.joltages[l]] else w)
  }

  lemma {:induction false} WiringDot(m: Machine, l: nat, x: seq<int>, k: nat)
    requires |m.buttons| < WIDTH && m.n <= |m.joltages| && l < 16
    requires k <= |m.buttons| == |x|
    ensures Dot(Initial(m)[l], x, k) == Delivered(m.buttons, x, l, k)
  {
    if k > 0 {
      WiringDot(m, l, x, k - 1);
    }
  }

  /** The first `n` rows of the built matrix are the machine's equations. */
  lemma InitialMeaning(m: Machine, x: seq<int>)
    requires |m.buttons| < WIDTH && m.n <= 16 && m.n <= |m.joltages| && |x| == |m.buttons|
    ensures Satisfies(Initial(m), m.n, |m.buttons|, x) <==> Equations(m, x)
  {
    forall l | 0 <= l < m.n
      ensures Holds(Initial(m)[l], x, |m.buttons|) <==> Delivered(m.buttons, x, l, |x|) == m.joltages[l]
    {
      WiringDot(m, l, x, |x|);
    }
  }

  /** The rows below 16 once the buttons below `k` are entered. */
  function WiredRows(buttons: seq<Mask>, k: nat): (rows: seq<seq<int>>)
    requires k <= |buttons|
    ensures Shaped(rows)
  {
    seq(16, l requires 0 <= l < 16 => Wiring(buttons, l, k))
  }

  /** `rows` is `rows0` with a one in column `col` of each row in `lights`. */
  ghost predicate Entered(rows: seq<seq<int>>, rows0: seq<seq<int>>, lights: set<nat>, col: nat)
    requires Shaped(rows0) && col < WIDTH
  {
    |rows| == 16 && forall r :: 0 <= r < 16 ==> rows[r] == if r in lights then rows0[r][col := 1] else rows0[r]
  }

  lemma EnterStep(rows: seq<seq<int>>, rows0: seq<seq<int>>, lights: set<nat>, col: nat, row: nat)
    requires Shaped(rows0) && col < WIDTH && Entered(rows, rows0, lights, col) && row < 16 && row !in lights
    ensures Entered(rows[row := rows[row][col := 1]], rows0, lights + {row}, col)
  {
  }

  /** Entering button `col` into the rows of the buttons before it. */
  lemma EnterColumn(buttons: seq<Mask>, rows: seq<seq<int>>, col: nat)
    requires col < |buttons| && col < WIDTH && Entered(rows, WiredRows(buttons, col), buttons[col], col)
    ensures rows == WiredRows(buttons, col + 1)
  {
    forall r | 0 <= r < 16
      ensures rows[r] == Wiring(buttons, r, col + 1)
    {
      if r in buttons[col] {
        assert Wiring(buttons, r, col)[col := 1] == Wiring(buttons, r, col + 1);
      } else {
        assert Wiring(buttons, r, col) == Wiring(buttons, r, col + 1);
      }
    }
  }

  /** `bounds[col] = bounds[col].min(target)` for one more counter. */
  lemma LeastStep(v: nat, lights: set<nat>, joltages: seq<U16>, row: nat)
    requires forall l :: l in lights ==> l < |joltages|
    requires row < |joltages| && LeastTarget(v, lights, joltages)
    ensures LeastTarget(if joltages[row] < v then joltages[row] else v, lights + {row}, joltages)
  {
  }

  /** The state of the loop over the counters of button `col` once it has visited
      `lights`: those rows carry a one in column `col`, and `least` is the smallest of
      their targets. */
  ghost predicate Scanned(rows: seq<seq<int>>, rows0: seq<seq<int>>, least: nat, lights: set<nat>, col: nat, joltages: seq<U16>)
    requires Shaped(rows0) && col < WIDTH
  {
    (forall l :: l in lights ==> l < |joltages|) &&
    Entered(rows, rows0, lights, col) && LeastTarget(least, lights, joltages)
  }

  lemma ScanStep(rows: seq<seq<int>>, rows0: seq<seq<int>>, least: nat, lights: set<nat>, col: nat, joltages: seq<U16>, row: nat)
    requires Shaped(rows0) && col < WIDTH && row < 16 && row < |joltages| && row !in lights
    requires Scanned(rows, rows0, least, lights, col, joltages)
    ensures Scanned(rows[row := rows[row][col := 1]], rows0, if joltages[row] < least then joltages[row] else least, lights + {row}, col, joltages)
  {
    EnterStep(rows, rows0, lights, col, row);
    LeastStep(least, lights, joltages, row);
  }

  /** The loop over the counters of button `col`, lowest first: each row gets a one in
      column `col`, and `least`, which becomes `bounds[col]`, the smallest of their
      targets (`bounds[col]` starts at `u16::MAX`, so the running minimum is kept in
      a local). */
  method EnterButton(mat: array<seq<int>>, m: Machine, col: nat) returns (least: nat)
    requires mat.Length == 16
    requires Addressed(m) && col < |m.buttons| && col < 16
    requires Shaped(mat[..])
    modifies mat
    ensures Scanned(mat[..], old(mat[..]), least, m.buttons[col], col, m.joltages)
  {
    ghost var rows0 := mat[..];
    var button := m.buttons[col];
    assert Small(button) && forall l :: l in button ==> l < |m.joltages|;
    least := U16_MAX;
    var bits := button;
    while bits != {}
      invariant bits <= button
      invariant Scanned(mat[..], rows0, least, button - bits, col, m.joltages)
      decreases |bits|
    {
      var row := Day10Lights.TrailingZeros(bits);
      ScanStep(mat[..], rows0, least, button - bits, col, m.joltages, row);
      var j := m.joltages[row];
      if j < least {
        least := j;
      }
      mat[row] := mat[row][col := 1];
      assert (button - bits) + {row} == button - (bits - {row});
      bits := bits - {row};
    }
    assert button - bits == button;
  }

  /** The column after the buttons of each of the first `n` rows gets that counter's
      target. */
  method EnterTargets(mat: array<seq<int>>, m: Machine)
    requires Addressed(m) && |m.buttons| <= 16 && m.n <= 16
    requires mat.Length == 16 && mat[..] == WiredRows(m.buttons, |m.buttons|)
    modifies mat
    ensures mat[..] == Initial(m)
  {
    var nb := |m.buttons|;
    var jolts := m.joltages;
    ghost var init := Initial(m);
    for row := 0 to m.n
      invariant forall r :: 0 <= r < 16 ==> mat[r] == if r < row then init[r] else Wiring(m.buttons, r, nb)
    {
      mat[row] := mat[row][nb := jolts[row]];
    }
    assert forall r :: 0 <= r < 16 ==> mat[..][r] == init[r];
  }

  /** The matrix and the bounds, as `solve_joltage` fills them before eliminating. */
  method BuildSystem(m: Machine) returns (mat: array<seq<int>>, bounds: array<nat>)
    requires Addressed(m) && |m.buttons| <= 16 && m.n <= 16
    ensures fresh(mat) && fresh(bounds) && mat.Length == 16 && bounds.Length == 16
    ensures mat[..] == Initial(m)
    ensures forall c :: 0 <= c < |m.buttons| ==> LeastTarget(bounds[c], m.buttons[c], m.joltages)
  {
    var nb := |m.buttons|;
    bounds := new nat[16](_ => U16_MAX);
    mat := new seq<int>[16](_ => seq(WIDTH, _ => 0));
    assert forall r :: 0 <= r < 16 ==> mat[..][r] == WiredRows(m.buttons, 0)[r];
    for col := 0 to nb
      invariant mat[..] == WiredRows(m.buttons, col)
      invariant forall c :: 0 <= c < col ==> LeastTarget(bounds[c], m.buttons[c], m.joltages)
    {
      var least := EnterButton(mat, m, col);
      EnterColumn(m.buttons, mat[..], col);
      bounds[col] := least;
    }
    EnterTargets(mat, m);
  }
}
