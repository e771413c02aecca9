/** Words that are one block written several times over, and the facts about them that
    let day 2 enumerate each such number exactly once: every power has a unique
    primitive root, and a block of `d` digits written `m` times is the number
    `block * Rep(d, m)`. */
module Repetition {
  import opened Common

  /** `w` written `m` times. */
  function Repeat(w: string, m: nat): (z: string)
    ensures |z| == |w| * m
  {
    if m == 0 then [] else Repeat(w, m - 1) + w
  }

  lemma {:induction false} RepeatAt(w: string, m: nat, i: nat)
    requires |w| >= 1 && i < |w| * m
    ensures Repeat(w, m)[i] == w[i % |w|]
  {
    var prev := Repeat(w, m - 1);
    if i < |prev| {
      RepeatAt(w, m - 1, i);
    } else {
      DivModUnique(i, |w|, m - 1, i - |prev|);
    }
  }

  /** `z` is its first `d` characters written `|z| / d` times. */
  predicate IsPowerOf(z: string, d: nat)
  {
    1 <= d <= |z| && |z| % d == 0 && z == Repeat(z[..d], |z| / d)
  }

  /** No shorter block repeats to give `w`. */
  predicate Primitive(w: string)
  {
    |w| >= 1 && forall d :: 1 <= d < |w| ==> !IsPowerOf(w, d)
  }

  /** Every position agrees with the position `i % d` of the first block. */
  predicate PeriodicMod(z: string, d: nat)
    requires d >= 1
  {
    forall i :: 0 <= i < |z| ==> z[i] == z[i % d]
  }

  lemma PowerIsPeriodic(z: string, d: nat)
    requires IsPowerOf(z, d)
    ensures PeriodicMod(z, d)
  {
    forall i | 0 <= i < |z| ensures z[i] == z[i % d] {
      RepeatAt(z[..d], |z| / d, i);
    }
  }

  lemma PeriodicIsPower(z: string, d: nat)
    requires 1 <= d <= |z| && |z| % d == 0 && PeriodicMod(z, d)
    ensures IsPowerOf(z, d)
  {
    var r := Repeat(z[..d], |z| / d);
    assert |r| == |z| by { DivModUnique(|z|, d, |z| / d, 0); }
    forall i | 0 <= i < |z| ensures r[i] == z[i] {
      RepeatAt(z[..d], |z| / d, i);
    }
  }

  // ---------------------------------------------------------------------------
  // Periods and the primitive root
  // ---------------------------------------------------------------------------

  /** Each position from `d` on repeats the one `d` before it. */
  predicate LocalPeriod(z: string, d: nat)
  {
    forall i :: d <= i < |z| ==> z[i] == z[i - d]
  }

  /** `i + t` taken cyclically in a word of length `n` (for `t <= n`). */
  function Shift(i: nat, t: nat, n: nat): nat
  {
    if i + t < n then i + t else i + t - n
  }

  /** Rotating `z` by `t` positions leaves it unchanged. */
  predicate CyclicPeriod(z: string, t: nat)
    requires t <= |z|
  {
    forall i :: 0 <= i < |z| ==> Shift(i, t, |z|) < |z| && z[i] == z[Shift(i, t, |z|)]
  }

  lemma {:induction false} LocalRepeated(z: string, d: nat, j: nat, k: nat)
    requires LocalPeriod(z, d) && j + d * k < |z|
    ensures z[j + d * k] == z[j]
  {
    if k > 0 {
      assert j + d * k - d == j + d * (k - 1);
      LocalRepeated(z, d, j, k - 1);
    }
  }

  lemma PowerIsLocal(z: string, d: nat)
    requires IsPowerOf(z, d)
    ensures LocalPeriod(z, d)
  {
    var w, m := z[..d], |z| / d;
    RepeatAppend(w, 1, m - 1);
    RepeatAppend(w, m - 1, 1);
    assert Repeat(w, 1) == w;
    var r := Repeat(w, m - 1);
    assert z == w + r && z == r + w;
    forall i | d <= i < |z| ensures z[i] == z[i - d] {
      assert z[i] == (w + r)[i] == r[i - d];
      assert z[i - d] == (r + w)[i - d] == r[i - d];
    }
  }

  lemma BlockFits(g: nat, k: nat)
    requires k >= 1
    ensures g <= g * k
  {
    assert g * k == g * (k - 1) + g;
  }

  lemma SplitLast(u: string, n: nat)
    requires n <= |u|
    ensures u == u[..n] + u[n..]
  {
  }

  /** A word of `c` blocks of length `g` with period `g` is its first block `c` times. */
  lemma {:induction false} LocalIsRepeat(u: string, g: nat, c: nat)
    requires g >= 1 && c >= 1 && |u| == g * c && LocalPeriod(u, g)
    ensures u == Repeat(u[..g], c)
  {
    var w := u[..g];
    if c == 1 {
      assert u == w;
      assert Repeat(w, 1) == Repeat(w, 0) + w;
    } else {
      var n := g * (c - 1);
      LastBlock(u, g, c);
      BlockFits(g, c - 1);
      var front := u[..n];
      PrefixLocal(u, g, n);
      LocalIsRepeat(front, g, c - 1);
      assert front[..g] == w;
      SplitLast(u, n);
    }
  }

  /** A word with period `g` made of `c` whole blocks is a power at block length `g`. */
  lemma LocalIsPower(u: string, g: nat, c: nat)
    requires g >= 1 && c >= 1 && |u| == g * c && LocalPeriod(u, g)
    ensures IsPowerOf(u, g)
  {
    LocalIsRepeat(u, g, c);
    DivModUnique(|u|, g, c, 0);
    assert g <= |u| by { assert g * c == g * (c - 1) + g; }
  }

  lemma LocalMultiple(z: string, d: nat, k: nat)
    requires LocalPeriod(z, d)
    ensures LocalPeriod(z, d * k)
  {
    forall i | d * k <= i < |z| ensures z[i] == z[i - d * k] {
      LocalRepeated(z, d, i - d * k, k);
    }
  }

  /** A power at block length `d` is also one at any multiple of `d` that divides its
      length. */
  lemma PowerOfMultiple(z: string, d: nat, k: nat, c: nat)
    requires IsPowerOf(z, d) && k >= 1 && c >= 1 && |z| == (d * k) * c
    ensures IsPowerOf(z, d * k)
  {
    PowerIsLocal(z, d);
    LocalMultiple(z, d, k);
    LocalIsPower(z, d * k, c);
  }

  lemma PrefixLocal(u: string, g: nat, n: nat)
    requires LocalPeriod(u, g) && n <= |u|
    ensures LocalPeriod(u[..n], g)
  {
  }

  lemma LastBlock(u: string, g: nat, c: nat)
    requires g >= 1 && c >= 1 && |u| == g * c && LocalPeriod(u, g)
    ensures g * (c - 1) + g == |u| && u[g * (c - 1)..] == u[..g]
  {
    var n := g * (c - 1);
    assert n + g == |u|;
    forall i | 0 <= i < g ensures u[n..][i] == u[..g][i] {
      LocalRepeated(u, g, i, c - 1);
    }
  }

  lemma LocalIsCyclic(z: string, d: nat, c: nat)
    requires 1 <= d && 1 <= c && |z| == d * c && LocalPeriod(z, d)
    ensures d <= |z| && CyclicPeriod(z, d)
  {
    var n := |z|;
    assert d <= n by { assert d * c == d * (c - 1) + d; }
    forall i | 0 <= i < n ensures Shift(i, d, n) < n && z[i] == z[Shift(i, d, n)] {
      if i + d >= n {
        var j := i + d - n;
        assert i == j + d * (c - 1) by { assert d * c == d * (c - 1) + d; }
        LocalRepeated(z, d, j, c - 1);
      }
    }
  }

  lemma CyclicIsLocal(z: string, d: nat)
    requires d <= |z| && CyclicPeriod(z, d)
    ensures LocalPeriod(z, d)
  {
    forall i | d <= i < |z| ensures z[i] == z[i - d] {
      assert Shift(i - d, d, |z|) == i;
    }
  }

  /** The difference of two cyclic periods is one. */
  lemma CyclicDifference(z: string, p: nat, q: nat)
    requires q < p <= |z| && CyclicPeriod(z, p) && CyclicPeriod(z, q)
    ensures CyclicPeriod(z, p - q)
  {
    var n, t := |z|, p - q;
    forall i | 0 <= i < n ensures Shift(i, t, n) < n && z[i] == z[Shift(i, t, n)] {
      var j := Shift(i, t, n);
      assert Shift(j, q, n) == Shift(i, p, n);
    }
  }

  /** Greatest common divisor by repeated subtraction. */
  function Gcd(p: nat, q: nat): (g: nat)
    requires p >= 1 && q >= 1
    ensures 1 <= g <= p && g <= q
    decreases p + q
  {
    if p == q then p else if p > q then Gcd(p - q, q) else Gcd(p, q - p)
  }

  /** The cofactors of the greatest common divisor. */
  lemma {:induction false} GcdCofactors(p: nat, q: nat) returns (a: nat, b: nat)
    requires p >= 1 && q >= 1
    ensures p == Gcd(p, q) * a && q == Gcd(p, q) * b
    decreases p + q
  {
    var g := Gcd(p, q);
    if p == q {
      a, b := 1, 1;
    } else if p > q {
      var a', b' := GcdCofactors(p - q, q);
      a, b := a' + b', b';
      MulAdd(g, a', b');
    } else {
      var a', b' := GcdCofactors(p, q - p);
      a, b := a', a' + b';
      MulAdd(g, a', b');
    }
  }

  lemma {:induction false} GcdCyclic(z: string, p: nat, q: nat)
    requires 1 <= p <= |z| && 1 <= q <= |z| && CyclicPeriod(z, p) && CyclicPeriod(z, q)
    ensures CyclicPeriod(z, Gcd(p, q))
    decreases p + q
  {
    if p > q {
      CyclicDifference(z, p, q);
      GcdCyclic(z, p - q, q);
    } else if p < q {
      CyclicDifference(z, q, p);
      GcdCyclic(z, p, q - p);
    }
  }

  /** A power of `z` at block length `d` has `|z| = d * c` for its count `c`. */
  lemma PowerCount(z: string, d: nat)
    requires IsPowerOf(z, d)
    ensures |z| == d * (|z| / d)
  {
  }

  /** A word has one primitive root: two primitive blocks that both repeat to `z` have
      the same length, hence are equal. */
  lemma PrimitiveRootUnique(z: string, p: nat, q: nat)
    requires IsPowerOf(z, p) && IsPowerOf(z, q)
    requires Primitive(z[..p]) && Primitive(z[..q])
    ensures p == q
  {
    PowerIsLocal(z, p);
    PowerIsLocal(z, q);
    LocalIsCyclic(z, p, |z| / p);
    LocalIsCyclic(z, q, |z| / q);
    GcdCyclic(z, p, q);
    var g := Gcd(p, q);
    var a, b := GcdCofactors(p, q);
    CyclicIsLocal(z, g);
    RootOfPrefix(z, g, p, a);
    RootOfPrefix(z, g, q, b);
  }

  /** If `z` has period `g`, and `g` repeated `a` times is the length `p` of a primitive
      prefix, then `g = p`. */
  lemma RootOfPrefix(z: string, g: nat, p: nat, a: nat)
    requires 1 <= g && p == g * a && p <= |z| && LocalPeriod(z, g) && Primitive(z[..p])
    ensures g == p
  {
    var u := z[..p];
    assert LocalPeriod(u, g);
    LocalIsRepeat(u, g, a);
    assert u[..g] == z[..g];
    if g < p {
      DivModUnique(p, g, a, 0);
      assert IsPowerOf(u, g);
      assert false;
    }
  }

  /** The shortest block length at which `z` is a power; its block is primitive. */
  function RootLength(z: string): (d: nat)
    requires |z| >= 1
    ensures IsPowerOf(z, d)
    ensures forall e :: 1 <= e < d ==> !IsPowerOf(z, e)
  {
    PowerOfItself(z);
    SearchRoot(z, 1)
  }

  lemma PowerOfItself(z: string)
    requires |z| >= 1
    ensures IsPowerOf(z, |z|)
  {
    assert Repeat(z, 1) == z;
  }

  function SearchRoot(z: string, d: nat): (r: nat)
    requires 1 <= d <= |z| && IsPowerOf(z, |z|)
    ensures d <= r && IsPowerOf(z, r)
    ensures forall e :: d <= e < r ==> !IsPowerOf(z, e)
    decreases |z| - d
  {
    if IsPowerOf(z, d) then d else SearchRoot(z, d + 1)
  }

  /** Writing `u` `a` times and that `b` times is writing `u` `a * b` times. */
  lemma {:induction false} RepeatRepeat(u: string, a: nat, b: nat)
    ensures Repeat(Repeat(u, a), b) == Repeat(u, a * b)
  {
    if b > 0 {
      RepeatRepeat(u, a, b - 1);
      NatMul(a, b - 1);
      RepeatAppend(u, a * (b - 1), a);
      MulAdd(a, b - 1, 1);
    }
  }

  lemma {:induction false} RepeatAppend(u: string, a: nat, b: nat)
    ensures Repeat(u, a) + Repeat(u, b) == Repeat(u, a + b)
  {
    if b > 0 {
      RepeatAppend(u, a, b - 1);
      assert Repeat(u, a) + Repeat(u, b) == (Repeat(u, a) + Repeat(u, b - 1)) + u;
    } else {
      assert Repeat(u, a) + [] == Repeat(u, a);
    }
  }

  lemma {:induction false} RepeatPrefix(u: string, a: nat)
    requires a >= 1
    ensures Repeat(u, a)[..|u|] == u
  {
    RepeatAppend(u, 1, a - 1);
    assert Repeat(u, 1) == u;
  }

  /** The first block of the shortest power is primitive. */
  lemma RootPrimitive(z: string)
    requires |z| >= 1
    ensures Primitive(z[..RootLength(z)])
  {
    var d := RootLength(z);
    var u := z[..d];
    forall e | 1 <= e < d ensures !IsPowerOf(u, e) {
      if IsPowerOf(u, e) {
        var v := u[..e];
        assert v == z[..e];
        NatDiv(d, e);
        NatDiv(|z|, d);
        var k: nat, c: nat := d / e, |z| / d;
        PowerCount(u, e);
        PowerCount(z, d);
        RepeatRepeat(v, k, c);
        NatMul(k, c);
        MulAssoc(e, k, c);
        DivModUnique(|z|, e, k * c, 0);
        assert IsPowerOf(z, e);
        assert false;
      }
    }
  }

  // ---------------------------------------------------------------------------
  // The numbers behind repeated digit blocks
  // ---------------------------------------------------------------------------

  /** The multiplier that writes a `d`-digit block `m` times: 1 + 10^d + ... + 10^(d(m-1)). */
  function Rep(d: nat, m: nat): (r: nat)
    ensures m >= 1 ==> r >= 1
  {
    if m == 0 then 0 else Rep(d, m - 1) * Pow10(d) + 1
  }

  /** `Rep(d, m) = (10^(dm) - 1) / (10^d - 1)`, the factor the source computes. */
  lemma {:induction false} RepClosedForm(d: nat, m: nat)
    ensures (Pow10(d) - 1) * Rep(d, m) == Pow10(d * m) - 1
  {
    if m > 0 {
      RepClosedForm(d, m - 1);
      NatMul(d, m - 1);
      Pow10Add(d * (m - 1), d);
      MulAdd(d, m - 1, 1);
      RepStepAlgebra(Pow10(d), Rep(d, m - 1), Pow10(d * (m - 1)));
    }
  }

  lemma RepStepAlgebra(p: int, r: int, q: int)
    requires (p - 1) * r == q - 1
    ensures (p - 1) * (r * p + 1) == q * p - 1
  {
    assert (p - 1) * (r * p + 1) == ((p - 1) * r) * p + (p - 1);
  }

  lemma MulStep(v: int, r: int, p: int)
    ensures (v * r) * p + v == v * (r * p + 1)
  {
  }

  /** The value of a digit block written `m` times. */
  lemma {:induction false} RepeatValue(w: string, m: nat)
    requires AllDigits(w)
    ensures AllDigits(Repeat(w, m))
    ensures DecimalValue(Repeat(w, m)) == DecimalValue(w) * Rep(|w|, m)
  {
    if m > 0 {
      RepeatValue(w, m - 1);
      DecimalValueAppend(Repeat(w, m - 1), w);
      MulStep(DecimalValue(w), Rep(|w|, m - 1), Pow10(|w|));
    } else {
      assert Repeat(w, 0) == [];
    }
  }

  /** A number is a block of exactly `d` digits (no leading zero) times `Rep(d, m)`, for
      `m >= 2`, exactly when its decimal form is its first `d` digits written `m` times. */
  lemma {:induction false} BlockTimesRep(x: nat, d: nat, m: nat, b: nat)
    requires d >= 1 && m >= 2 && Pow10(d - 1) <= b < Pow10(d) && x == b * Rep(d, m)
    ensures |Decimal(x)| == d * m && IsPowerOf(Decimal(x), d)
    ensures DecimalValue(Decimal(x)[..d]) == b
  {
    var w := Decimal(b);
    DecimalLengthUnique(b, d);
    DecimalValueOfDecimal(b);
    RepeatValue(w, m);
    var z := Repeat(w, m);
    RepeatPrefix(w, m);
    assert z[0] == w[0];
    if d == 1 {
      assert b >= 1;
      assert w == [DigitChar(b)];
    }
    assert Canonical(z);
    DecimalOfDecimalValue(z);
    assert Decimal(x) == z;
    DivModUnique(|z|, d, m, 0);
  }

  lemma PowerIsBlockTimesRep(x: nat, d: nat)
    requires 1 <= d < |Decimal(x)| && IsPowerOf(Decimal(x), d)
    ensures var b := DecimalValue(Decimal(x)[..d]);
      Pow10(d - 1) <= b < Pow10(d) && x == b * Rep(d, |Decimal(x)| / d)
  {
    var z := Decimal(x);
    var w := z[..d];
    NatDiv(|z|, d);
    var m: nat := |z| / d;
    assert Canonical(w) by { assert w[0] == z[0]; }
    DecimalOfDecimalValue(w);
    var b := DecimalValue(w);
    assert Pow10(d - 1) <= b < Pow10(d) by {
      DecimalLength(b);
      if d > 1 {
        LeadingDigitPositive(w);
      }
    }
    RepeatValue(w, m);
    assert z == Repeat(w, m);
    DecimalValueOfDecimal(x);
    assert x == b * Rep(d, m);
  }
}
