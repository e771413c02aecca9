/** Day 2, the arithmetic half: the sum of the "invalid" IDs (numbers whose decimal form
    is one block of digits written several times) inside the merged ranges, computed
    per block length and repeat count as `block * Rep(d, m)` for every block in range,
    with each number counted once, at its primitive root. */
module Day02Solve {
  import opened Common
  import opened Intervals
  import opened Repetition
  import opened Day02

  // ---------------------------------------------------------------------------
  // What is being summed
  // ---------------------------------------------------------------------------

  /** Part 1 counts a block written exactly twice; part 2 a block written twice or more. */
  datatype Rule = Twice | AtLeastTwice

  /** `x` is an invalid ID under `rule`. */
  predicate Invalid(rule: Rule, x: nat)
  {
    var z := Decimal(x);
    match rule
    case Twice => |z| % 2 == 0 && IsPowerOf(z, |z| / 2)
    case AtLeastTwice => exists d :: 1 <= d < |z| && IsPowerOf(z, d)
  }

  function Term(rule: Rule, x: nat): nat
  {
    if Invalid(rule, x) then x else 0
  }

  /** The invalid IDs in `lo..=hi`, summed. */
  function RangeTotal(rule: Rule, lo: nat, hi: int): nat
    decreases hi - lo
  {
    if hi < lo then 0 else RangeTotal(rule, lo, hi - 1) + Term(rule, hi)
  }

  /** The invalid IDs of every range, each range summed on its own. */
  function InvalidSum(rule: Rule, rs: seq<Range>): nat
  {
    if rs == [] then 0
    else InvalidSum(rule, rs[..|rs| - 1]) + RangeTotal(rule, rs[|rs| - 1].lo, rs[|rs| - 1].hi)
  }

  /** The invalid IDs below `n` that some range of `rs` covers, each counted once. */
  ghost function CoveredSum(rule: Rule, rs: seq<Range>, n: nat): nat
  {
    if n == 0 then 0
    else CoveredSum(rule, rs, n - 1) + (if Covered(rs, n - 1) then Term(rule, n - 1) else 0)
  }

  lemma {:induction false} Pow10Positive(d: nat)
    requires d >= 1
    ensures Pow10(d) >= 10
  {
    Pow10Monotone(1, d);
  }

  // ---------------------------------------------------------------------------
  // `sum_range`
  // ---------------------------------------------------------------------------

  /** The reference sum `lo + (lo + 1) + ... + hi`. */
  function SumInts(lo: int, hi: int): int
    decreases hi - lo
  {
    if hi < lo then 0 else SumInts(lo, hi - 1) + hi
  }

  /** `sum_range`: the count of `lo..=hi` times `lo + hi`, halved. */
  function SumRange(lo: nat, hi: nat): (s: nat)
    requires lo <= hi
    ensures s == SumInts(lo, hi)
  {
    Gauss(lo, hi);
    (hi - lo + 1) * (lo + hi) / 2
  }

  lemma {:induction false} Gauss(lo: int, hi: int)
    requires lo <= hi + 1
    ensures 2 * SumInts(lo, hi) == (hi - lo + 1) * (lo + hi)
    decreases hi - lo
  {
    if lo <= hi {
      Gauss(lo, hi - 1);
      assert (hi - lo + 1) * (lo + hi) == (hi - lo) * (lo + hi - 1) + 2 * hi;
    }
  }

  // ---------------------------------------------------------------------------
  // Repeat factors, `decompose_block` and `has_double_representation`
  // ---------------------------------------------------------------------------

  /** `(10^total - 1) / (10^d - 1)`, the multiplier the source reads off its power table. */
  function RepFactor(total: nat, d: nat): int
    requires d >= 1
  {
    Pow10Positive(d);
    var num, den := Pow10(total) - 1, Pow10(d) - 1;
    num / den
  }

  lemma {:induction false} RepFactorIsRep(d: nat, m: nat)
    requires d >= 1
    ensures RepFactor(d * m, d) == Rep(d, m)
  {
    Pow10Positive(d);
    RepClosedForm(d, m);
    DivModUnique(Pow10(d * m) - 1, Pow10(d) - 1, Rep(d, m), 0);
  }

  /** A block of `e` digits (no leading zero) after dividing `b` by the factor for `e`-digit
      blocks up to length `total`. */
  predicate SplitsInto(b: nat, total: nat, e: nat)
    requires e >= 1
  {
    var f := RepFactor(total, e);
    f > 0 && b % f == 0 && Pow10(e - 1) <= b / f <= Pow10(e) - 1
  }

  /** The search of `decompose_block` from sub-block length `e` on. */
  function DecomposeFrom(b: nat, len: nat, e: nat): (r: Option<(nat, nat)>)
    requires e >= 1
    ensures r.Some? ==> e <= r.value.0 < len && r.value.1 == len / r.value.0
    ensures r.Some? ==> |Decimal(b)| == len && IsPowerOf(Decimal(b), r.value.0)
    ensures |Decimal(b)| == len && r.None? ==> forall f :: e <= f < len ==> !IsPowerOf(Decimal(b), f)
    decreases len - e
  {
    if e >= len then None
    else if len % e == 0 && len / e >= 2 && SplitsInto(b, len, e) then
      SplitMeansPower(b, len, e);
      Some((e, len / e))
    else
      NoSplitMeansNoPower(b, len, e);
      DecomposeFrom(b, len, e + 1)
  }

  /** `decompose_block`: some shorter block length `d` dividing `len` at which `b` is a
      `d`-digit block written `len / d` times, or `None` when the `len`-digit block `b` is
      primitive. */
  function DecomposeBlock(b: nat, len: nat): (r: Option<(nat, nat)>)
    ensures r.Some? ==> 1 <= r.value.0 < len && r.value.1 == len / r.value.0
    ensures r.Some? ==> |Decimal(b)| == len && IsPowerOf(Decimal(b), r.value.0)
    ensures |Decimal(b)| == len ==> (r.None? <==> Primitive(Decimal(b)))
  {
    DecomposeFrom(b, len, 1)
  }

  lemma {:induction false} SplitMeansPower(b: nat, len: nat, e: nat)
    requires 1 <= e < len && len % e == 0 && len / e >= 2 && SplitsInto(b, len, e)
    ensures |Decimal(b)| == len && IsPowerOf(Decimal(b), e)
  {
    var k := len / e;
    assert len == e * k by { DivModUnique(len, e, k, 0); }
    PowerFromSplit(b, len, e, k);
  }

  /** Splitting `b` into `k >= 2` blocks of `e` digits makes it an `e`-digit block
      written `k` times. */
  lemma {:induction false} PowerFromSplit(b: nat, len: nat, e: nat, k: nat)
    requires e >= 1 && k >= 2 && len == e * k && SplitsInto(b, len, e)
    ensures |Decimal(b)| == len && IsPowerOf(Decimal(b), e)
  {
    var f := Rep(e, k);
    assert RepFactor(len, e) == f by { RepFactorIsRep(e, k); }
    var c := b / f;
    assert b == c * f by { ExactQuotient(b, f); }
    BlockTimesRep(b, e, k, c);
  }

  lemma DivExact(a: int, f: int, b: int)
    requires f >= 1 && a == b * f
    ensures a % f == 0 && a / f == b
  {
    DivModUnique(a, f, b, 0);
  }

  lemma ExactQuotient(a: int, f: int)
    requires f >= 1 && a % f == 0
    ensures a == (a / f) * f
  {
  }

  lemma {:induction false} NoSplitMeansNoPower(b: nat, len: nat, e: nat)
    requires 1 <= e < len
    requires !(len % e == 0 && len / e >= 2 && SplitsInto(b, len, e))
    ensures |Decimal(b)| == len ==> !IsPowerOf(Decimal(b), e)
  {
    if |Decimal(b)| == len && IsPowerOf(Decimal(b), e) {
      PowerMeansSplit(b, len, e);
    }
  }

  lemma {:induction false} PowerMeansSplit(b: nat, len: nat, e: nat)
    requires 1 <= e < len && |Decimal(b)| == len && IsPowerOf(Decimal(b), e)
    ensures len % e == 0 && len / e >= 2 && SplitsInto(b, len, e)
  {
    var k := len / e;
    assert len == e * k by { PowerCount(Decimal(b), e); }
    assert k >= 2 by { FactorAtLeastTwo(e, k); }
    var c := DecimalValue(Decimal(b)[..e]);
    assert Pow10(e - 1) <= c < Pow10(e) && b == c * Rep(e, k) by { PowerIsBlockTimesRep(b, e); }
    assert RepFactor(len, e) == Rep(e, k) by { RepFactorIsRep(e, k); }
    SplitsFromFactor(b, len, e, c, Rep(e, k));
  }

  lemma MulGrows(d: nat, m: nat)
    requires d >= 1 && m >= 2
    ensures d < d * m
  {
    assert d * m == d + d * (m - 1);
  }

  lemma FactorAtLeastTwo(e: nat, k: nat)
    requires 1 <= e < e * k
    ensures k >= 2
  {
  }

  lemma SplitsFromFactor(b: nat, len: nat, e: nat, c: nat, f: nat)
    requires e >= 1 && f >= 1 && f == RepFactor(len, e) && b == c * f
    requires Pow10(e - 1) <= c < Pow10(e)
    ensures SplitsInto(b, len, e)
  {
    DivModUnique(b, f, c, 0);
  }

  /** `has_double_representation`: `c` has `len` digits and its decimal form is its first
      half written twice. */
  function HasDoubleRepresentation(c: nat, len: nat): (r: bool)
    requires len >= 1
    ensures r <==> len % 2 == 0 && |Decimal(c)| == len && IsPowerOf(Decimal(c), len / 2)
  {
    if len % 2 != 0 then false
    else
      var half := len / 2;
      assert half >= 1;
      if SplitsInto(c, len, half) then
        DoubleMeansPower(c, len);
        true
      else
        NoDoubleMeansNoPower(c, len);
        false
  }

  lemma {:induction false} DoubleMeansPower(c: nat, len: nat)
    requires len >= 2 && len % 2 == 0 && SplitsInto(c, len, len / 2)
    ensures |Decimal(c)| == len && IsPowerOf(Decimal(c), len / 2)
  {
    PowerFromSplit(c, len, len / 2, 2);
  }

  lemma {:induction false} NoDoubleMeansNoPower(c: nat, len: nat)
    requires len >= 2 && len % 2 == 0 && !SplitsInto(c, len, len / 2)
    ensures !(|Decimal(c)| == len && IsPowerOf(Decimal(c), len / 2))
  {
    if |Decimal(c)| == len && IsPowerOf(Decimal(c), len / 2) {
      PowerMeansDouble(c, len);
    }
  }

  lemma {:induction false} PowerMeansDouble(c: nat, len: nat)
    requires len >= 2 && len % 2 == 0 && |Decimal(c)| == len && IsPowerOf(Decimal(c), len / 2)
    ensures SplitsInto(c, len, len / 2)
  {
    var half := len / 2;
    assert len == half * 2;
    PowerIsBlockTimesRep(c, half);
    DivModUnique(len, half, 2, 0);
    var h := DecimalValue(Decimal(c)[..half]);
    assert RepFactor(len, half) == Rep(half, 2) by { RepFactorIsRep(half, 2); }
    SplitsFromFactor(c, len, half, h, Rep(half, 2));
  }

  // ---------------------------------------------------------------------------
  // Division facts
  // ---------------------------------------------------------------------------

  /** The smallest `q` with `q * f >= a`, written as the source writes it. */
  function CeilDiv(a: nat, f: nat): int
    requires f >= 1
  {
    if a % f == 0 then a / f else a / f + 1
  }

  lemma MulCancel(f: int, a: int, b: int)
    requires f >= 1
    ensures f * a < f * b ==> a < b
    ensures f * a <= f * b ==> a <= b
  {
    if b < a {
      MulGap(f, b, a);
    }
  }

  lemma DivMonotone(a: int, b: int, f: int)
    requires f >= 1 && a <= b
    ensures a / f <= b / f
  {
    var qa, qb := a / f, b / f;
    assert f * qa <= a && b < f * qb + f;
    if qb < qa {
      MulGap(f, qb, qa);
    }
  }

  /** Below `a`, every multiple of `f` has quotient below `CeilDiv(a, f)`. */
  lemma FloorBelowCeil(h: int, a: nat, f: nat)
    requires f >= 1 && h < a
    ensures h / f < CeilDiv(a, f)
  {
    var q, c := h / f, CeilDiv(a, f);
    assert f * q <= h;
    assert a <= f * c by {
      if a % f != 0 {
        assert f * c == f * (a / f) + f;
      }
    }
    MulCancel(f, q, c);
  }

  /** A multiple `h` of `f` at or above `a` has quotient at least `CeilDiv(a, f)`. */
  lemma CeilBelowMultiple(a: nat, h: int, f: nat)
    requires f >= 1 && a <= h && h % f == 0
    ensures CeilDiv(a, f) <= h / f
  {
    var q := h / f;
    assert h == f * q;
    var p := a / f;
    assert f * p <= a;
    MulCancel(f, p, q);
    if a % f == 0 {
      assert a == f * p;
    } else {
      assert f * p < a;
    }
  }

  /** Stepping `h` down by one changes the quotient by `f` only across a multiple. */
  lemma DivStep(h: int, f: nat)
    requires f >= 1
    ensures h % f != 0 ==> (h - 1) / f == h / f
    ensures h % f == 0 ==> (h - 1) / f == h / f - 1 && h == (h / f) * f
  {
    var q, r := h / f, h % f;
    if r != 0 {
      DivModUnique(h - 1, f, q, r - 1);
    } else {
      DivModUnique(h - 1, f, q - 1, f - 1);
    }
  }

  // ---------------------------------------------------------------------------
  // The loop's accounting
  // ---------------------------------------------------------------------------

  /** The loop keeps block `b` of `d` digits written `m` times: the block is primitive
      and, for part 1, the candidate is also some block written exactly twice. */
  function Keep(rule: Rule, d: nat, m: nat, b: nat): bool
    requires d >= 1 && m >= 1
  {
    DecomposeBlock(b, d).None? && (rule == AtLeastTwice || HasDoubleRepresentation(b * Rep(d, m), d * m))
  }

  /** The first and last `d`-digit block whose candidate lies in `lo..=hi`. */
  function BLo(d: nat, m: nat, lo: nat): (b: int)
    requires d >= 1 && m >= 1
    ensures b >= Pow10(d - 1)
  {
    var c := CeilDiv(lo, Rep(d, m));
    if c < Pow10(d - 1) then Pow10(d - 1) else c
  }

  function BHi(d: nat, m: nat, hi: int): int
    requires d >= 1 && m >= 1
  {
    var c := hi / Rep(d, m);
    if c < Pow10(d) - 1 then c else Pow10(d) - 1
  }

  /** The candidates `b * Rep(d, m)` of kept blocks `b` in `lo..=hi`. */
  function BlockSum(rule: Rule, d: nat, m: nat, lo: nat, hi: int): nat
    requires d >= 1 && m >= 1
    decreases hi - lo
  {
    if hi < lo then 0
    else BlockSum(rule, d, m, lo, hi - 1) + (if Keep(rule, d, m, hi) then hi * Rep(d, m) else 0)
  }

  /** What block length `d` and repeat count `m` contribute for range `r`. */
  function RangeBlock(rule: Rule, d: nat, m: nat, r: Range): nat
    requires d >= 1 && m >= 1
  {
    BlockSum(rule, d, m, BLo(d, m, r.lo), BHi(d, m, r.hi))
  }

  function RangeSum(rule: Rule, d: nat, m: nat, rs: seq<Range>): nat
    requires d >= 1 && m >= 1
  {
    if rs == [] then 0 else RangeSum(rule, d, m, rs[..|rs| - 1]) + RangeBlock(rule, d, m, rs[|rs| - 1])
  }

  /** The (block length, repeat count) pairs the loops visit for `max_digits = D`, in
      visiting order. */
  function RowPairs(d: nat, mMax: nat): seq<(nat, nat)>
  {
    if mMax < 2 then [] else RowPairs(d, mMax - 1) + [(d, mMax)]
  }

  function PairsUpTo(d: nat, digits: nat): seq<(nat, nat)>
  {
    if d == 0 then [] else PairsUpTo(d - 1, digits) + RowPairs(d, digits / d)
  }

  predicate ValidPairs(ps: seq<(nat, nat)>)
  {
    forall k :: 0 <= k < |ps| ==> ps[k].0 >= 1 && ps[k].1 >= 2
  }

  function PairsSum(rule: Rule, ps: seq<(nat, nat)>, rs: seq<Range>): nat
    requires ValidPairs(ps)
  {
    if ps == [] then 0
    else
      var p := ps[|ps| - 1];
      PairsSum(rule, ps[..|ps| - 1], rs) + RangeSum(rule, p.0, p.1, rs)
  }

  /** `x` is the candidate of a kept block of `d` digits written `m` times. */
  predicate Hit(rule: Rule, d: nat, m: nat, x: nat)
    requires d >= 1 && m >= 1
  {
    var f := Rep(d, m);
    x % f == 0 && Pow10(d - 1) <= x / f < Pow10(d) && Keep(rule, d, m, x / f)
  }

  function HitSum(rule: Rule, d: nat, m: nat, lo: nat, hi: int): nat
    requires d >= 1 && m >= 1
    decreases hi - lo
  {
    if hi < lo then 0 else HitSum(rule, d, m, lo, hi - 1) + (if Hit(rule, d, m, hi) then hi else 0)
  }

  /** Summing kept blocks is summing their candidates: the candidates of `d`-digit blocks
      in `BLo..=BHi` are exactly the hits in `lo..=hi`. */
  lemma {:induction false} BlocksAreHits(rule: Rule, d: nat, m: nat, lo: nat, hi: int)
    requires d >= 1 && m >= 1 && hi >= -1
    ensures BlockSum(rule, d, m, BLo(d, m, lo), BHi(d, m, hi)) == HitSum(rule, d, m, lo, hi)
    decreases hi + 1
  {
    var f := Rep(d, m);
    var bl := BLo(d, m, lo);
    if hi < lo {
      FloorBelowCeil(hi, lo, f);
    } else {
      BlocksAreHits(rule, d, m, lo, hi - 1);
      var q := hi / f;
      if hi % f == 0 && Pow10(d - 1) <= q <= Pow10(d) - 1 {
        BlockAtHit(rule, d, m, lo, hi);
      } else {
        NoBlockAtHit(rule, d, m, lo, hi);
      }
    }
  }

  /** Step of `BlocksAreHits` at a multiple of the repeat factor whose block has `d`
      digits: that block's candidate is `hi` itself. */
  lemma BlockAtHit(rule: Rule, d: nat, m: nat, lo: nat, hi: int)
    requires d >= 1 && m >= 1 && lo <= hi
    requires BlockSum(rule, d, m, BLo(d, m, lo), BHi(d, m, hi - 1)) == HitSum(rule, d, m, lo, hi - 1)
    requires var f := Rep(d, m); hi % f == 0 && Pow10(d - 1) <= hi / f <= Pow10(d) - 1
    ensures BlockSum(rule, d, m, BLo(d, m, lo), BHi(d, m, hi)) == HitSum(rule, d, m, lo, hi)
  {
    var f := Rep(d, m);
    var bl := BLo(d, m, lo);
    var q := hi / f;
    DivStep(hi, f);
    CeilBelowMultiple(lo, hi, f);
    assert BHi(d, m, hi) == q && BHi(d, m, hi - 1) == q - 1 && bl <= q;
    assert hi == q * f;
    assert Hit(rule, d, m, hi) == Keep(rule, d, m, q);
    assert BlockSum(rule, d, m, bl, q) == BlockSum(rule, d, m, bl, q - 1) + (if Keep(rule, d, m, q) then hi else 0);
  }

  /** Step of `BlocksAreHits` anywhere else: `hi` is no hit and the block range is
      unchanged, or empty on both sides. */
  lemma NoBlockAtHit(rule: Rule, d: nat, m: nat, lo: nat, hi: int)
    requires d >= 1 && m >= 1 && lo <= hi
    requires BlockSum(rule, d, m, BLo(d, m, lo), BHi(d, m, hi - 1)) == HitSum(rule, d, m, lo, hi - 1)
    requires var f := Rep(d, m); !(hi % f == 0 && Pow10(d - 1) <= hi / f <= Pow10(d) - 1)
    ensures BlockSum(rule, d, m, BLo(d, m, lo), BHi(d, m, hi)) == HitSum(rule, d, m, lo, hi)
  {
    var f := Rep(d, m);
    var bl := BLo(d, m, lo);
    var q := hi / f;
    DivStep(hi, f);
    assert !Hit(rule, d, m, hi);
    assert HitSum(rule, d, m, lo, hi) == HitSum(rule, d, m, lo, hi - 1);
    if hi % f == 0 && q < Pow10(d - 1) {
      assert BHi(d, m, hi) < bl && BHi(d, m, hi - 1) < bl;
    } else {
      assert BHi(d, m, hi) == BHi(d, m, hi - 1);
    }
  }

  // ---------------------------------------------------------------------------
  // Each invalid ID is hit exactly once
  // ---------------------------------------------------------------------------

  /** The first `d` digits of a canonical `z` are the decimal form of their value. */
  lemma PrefixIsDecimal(z: string, d: nat)
    requires Canonical(z) && 1 <= d < |z|
    ensures Decimal(DecimalValue(z[..d])) == z[..d]
  {
    assert Canonical(z[..d]) by { assert z[..d][0] == z[0]; }
    DecimalOfDecimalValue(z[..d]);
  }

  lemma {:induction false} DecimalIsCanonical(x: nat)
    ensures Canonical(Decimal(x))
  {
  }

  /** A hit is the candidate of the primitive root of its decimal form. */
  lemma {:induction false} HitMeansRoot(rule: Rule, d: nat, m: nat, x: nat)
    requires d >= 1 && m >= 2 && Hit(rule, d, m, x)
    ensures |Decimal(x)| == d * m && d < d * m && IsPowerOf(Decimal(x), d)
    ensures d == RootLength(Decimal(x))
  {
    var z := Decimal(x);
    var f := Rep(d, m);
    var b := x / f;
    assert x == b * f && Pow10(d - 1) <= b < Pow10(d) && DecomposeBlock(b, d).None? by {
      ExactQuotient(x, f);
    }
    assert |z| == d * m && IsPowerOf(z, d) && DecimalValue(z[..d]) == b by {
      BlockTimesRep(x, d, m, b);
    }
    MulGrows(d, m);
    assert Decimal(b) == z[..d] by {
      DecimalIsCanonical(x);
      PrefixIsDecimal(z, d);
    }
    assert Primitive(z[..d]) by { DecimalLengthUnique(b, d); }
    RootPrimitive(z);
    PrimitiveRootUnique(z, d, RootLength(z));
  }

  /** An ID of the AtLeastTwice kind is hit at its primitive root. */
  lemma {:induction false} RootHits(x: nat)
    requires Invalid(AtLeastTwice, x)
    ensures var z := Decimal(x); var r := RootLength(z);
      r < |z| && |z| == r * (|z| / r) && |z| / r >= 2 && Hit(AtLeastTwice, r, |z| / r, x)
  {
    var z := Decimal(x);
    var r := RootLength(z);
    RootShorter(x);
    NatDiv(|z|, r);
    var k := |z| / r;
    assert |z| == r * k by { PowerCount(z, r); }
    assert k >= 2 by { FactorAtLeastTwo(r, k); }
    var b := DecimalValue(z[..r]);
    RootBlock(x, r, k);
    HitAt(x, r, k, b);
  }

  lemma {:induction false} RootShorter(x: nat)
    requires Invalid(AtLeastTwice, x)
    ensures RootLength(Decimal(x)) < |Decimal(x)|
  {
    var z := Decimal(x);
    var d :| 1 <= d < |z| && IsPowerOf(z, d);
    assert RootLength(z) <= d;
  }

  lemma {:induction false} RootBlock(x: nat, r: nat, k: nat)
    requires 1 <= r < |Decimal(x)| && IsPowerOf(Decimal(x), r) && k == |Decimal(x)| / r
    ensures var b := DecimalValue(Decimal(x)[..r]); Pow10(r - 1) <= b < Pow10(r) && x == b * Rep(r, k)
  {
    PowerIsBlockTimesRep(x, r);
  }

  lemma {:induction false} HitAt(x: nat, r: nat, k: nat, b: nat)
    requires r >= 1 && k >= 2 && |Decimal(x)| == r * k && 1 <= r < |Decimal(x)|
    requires Pow10(r - 1) <= b < Pow10(r) && x == b * Rep(r, k) && b == DecimalValue(Decimal(x)[..r])
    requires RootLength(Decimal(x)) == r
    ensures Hit(AtLeastTwice, r, k, x)
  {
    var z := Decimal(x);
    var f := Rep(r, k);
    DivExact(x, f, b);
    assert Decimal(b) == z[..r] by {
      DecimalIsCanonical(x);
      PrefixIsDecimal(z, r);
    }
    assert Primitive(z[..r]) by { RootPrimitive(z); }
    assert DecomposeBlock(b, r).None? by { DecimalLengthUnique(b, r); }
  }

  /** A length that factors as `d * m` with `d` the root has just that `m`. */
  lemma CofactorUnique(d: nat, m: nat, k: nat)
    requires d >= 1 && d * m == d * k
    ensures m == k
  {
    MulCancel(d, m, k);
    MulCancel(d, k, m);
  }

  /** Hitting, for `m >= 2`: the ID is invalid, `d` is the length of its primitive root and
      `d * m` the length of its decimal form. */
  lemma {:induction false} HitIff(rule: Rule, d: nat, m: nat, x: nat)
    requires d >= 1 && m >= 2
    ensures Hit(rule, d, m, x) <==>
      Invalid(rule, x) && d == RootLength(Decimal(x)) && d * m == |Decimal(x)|
  {
    var z := Decimal(x);
    if Hit(rule, d, m, x) {
      HitMeansRoot(rule, d, m, x);
      if rule == Twice {
        var f := Rep(d, m);
        assert x / f * f == x by { ExactQuotient(x, f); }
        assert HasDoubleRepresentation(x, d * m);
      }
    }
    if Invalid(rule, x) && d == RootLength(z) && d * m == |z| {
      if rule == Twice {
        assert 1 <= |z| / 2 < |z|;
        assert Invalid(AtLeastTwice, x);
      }
      RootHits(x);
      CofactorUnique(d, m, |z| / d);
      if rule == Twice {
        var f := Rep(d, m);
        assert x / f * f == x by { ExactQuotient(x, f); }
        assert HasDoubleRepresentation(x, d * m);
      }
    }
  }

  // ---------------------------------------------------------------------------
  // The visited pairs
  // ---------------------------------------------------------------------------

  predicate Distinct<T(==)>(s: seq<T>)
  {
    forall i, j :: 0 <= i < j < |s| ==> s[i] != s[j]
  }

  lemma {:induction false} RowMembers(d: nat, mMax: nat)
    requires d >= 1
    ensures ValidPairs(RowPairs(d, mMax)) && Distinct(RowPairs(d, mMax))
    ensures forall p :: p in RowPairs(d, mMax) <==> p.0 == d && 2 <= p.1 <= mMax
    ensures forall k :: 0 <= k < |RowPairs(d, mMax)| ==> RowPairs(d, mMax)[k].1 <= mMax
  {
    if mMax >= 2 {
      RowMembers(d, mMax - 1);
    }
  }

  lemma {:induction false} RowValid(d: nat, mMax: nat)
    requires d >= 1
    ensures ValidPairs(RowPairs(d, mMax))
  {
    if mMax >= 2 {
      RowValid(d, mMax - 1);
    }
  }

  /** The loops visit each pair `(d, m)` with `d <= dMax` and `2 <= m <= digits / d` once. */
  lemma {:induction false} PairsMembers(dMax: nat, digits: nat)
    ensures ValidPairs(PairsUpTo(dMax, digits)) && Distinct(PairsUpTo(dMax, digits))
    ensures forall p :: p in PairsUpTo(dMax, digits) <==> 1 <= p.0 <= dMax && 2 <= p.1 <= digits / p.0
    ensures forall k :: 0 <= k < |PairsUpTo(dMax, digits)| ==> PairsUpTo(dMax, digits)[k].0 <= dMax
  {
    if dMax > 0 {
      var front, row := PairsUpTo(dMax - 1, digits), RowPairs(dMax, digits / dMax);
      PairsMembers(dMax - 1, digits);
      RowMembers(dMax, digits / dMax);
      var all := front + row;
      assert all == PairsUpTo(dMax, digits);
      forall i, j | 0 <= i < j < |all| ensures all[i] != all[j] {
        if j >= |front| && i < |front| {
          assert all[i] == front[i] && all[j] == row[j - |front|];
          assert row[j - |front|] in row;
        } else if i >= |front| {
          assert all[i] == row[i - |front|] && all[j] == row[j - |front|];
        }
      }
    }
  }

  // ---------------------------------------------------------------------------
  // Exchanging the order of summation
  // ---------------------------------------------------------------------------

  /** The hits of `x` over the pairs `ps`, summed. */
  function HitTotal(rule: Rule, ps: seq<(nat, nat)>, x: nat): nat
    requires ValidPairs(ps)
  {
    if ps == [] then 0
    else
      var p := ps[|ps| - 1];
      HitTotal(rule, ps[..|ps| - 1], x) + (if Hit(rule, p.0, p.1, x) then x else 0)
  }

  lemma {:induction false} HitTotalNone(rule: Rule, ps: seq<(nat, nat)>, x: nat)
    requires ValidPairs(ps)
    requires forall k :: 0 <= k < |ps| ==> !Hit(rule, ps[k].0, ps[k].1, x)
    ensures HitTotal(rule, ps, x) == 0
  {
    if ps != [] {
      HitTotalNone(rule, ps[..|ps| - 1], x);
    }
  }

  lemma {:induction false} HitTotalOne(rule: Rule, ps: seq<(nat, nat)>, x: nat, p0: (nat, nat))
    requires ValidPairs(ps) && Distinct(ps) && p0.0 >= 1 && p0.1 >= 2 && Hit(rule, p0.0, p0.1, x)
    requires forall k :: 0 <= k < |ps| ==> Hit(rule, ps[k].0, ps[k].1, x) ==> ps[k] == p0
    ensures HitTotal(rule, ps, x) == if p0 in ps then x else 0
  {
    if ps != [] {
      var front := ps[..|ps| - 1];
      HitTotalOne(rule, front, x, p0);
      if ps[|ps| - 1] == p0 {
        assert p0 !in front by {
          forall k | 0 <= k < |front| ensures front[k] != p0 {
            assert front[k] == ps[k];
          }
        }
      } else {
        assert ps == front + [ps[|ps| - 1]];
      }
    }
  }

  /** Over all visited pairs, an ID below `10^digits` is hit once if it is invalid and
      never otherwise. */
  lemma {:induction false} HitTotalIsTerm(rule: Rule, digits: nat, x: nat)
    requires digits >= 1 && x < Pow10(digits)
    ensures ValidPairs(PairsUpTo(digits, digits))
    ensures HitTotal(rule, PairsUpTo(digits, digits), x) == Term(rule, x)
  {
    var ps := PairsUpTo(digits, digits);
    PairsMembers(digits, digits);
    var z := Decimal(x);
    forall k | 0 <= k < |ps| ensures Hit(rule, ps[k].0, ps[k].1, x) ==> Invalid(rule, x) {
      HitIff(rule, ps[k].0, ps[k].1, x);
    }
    if Invalid(rule, x) {
      if rule == Twice {
        assert 1 <= |z| / 2 < |z|;
      }
      assert Invalid(AtLeastTwice, x);
      RootHits(x);
      var r := RootLength(z);
      var p0 := (r, |z| / r);
      HitIff(rule, r, |z| / r, x);
      assert |z| <= digits by { DigitsBelow(x, digits); }
      assert p0 in ps by { QuotientBound(r, |z| / r, digits); }
      forall k | 0 <= k < |ps| ensures Hit(rule, ps[k].0, ps[k].1, x) ==> ps[k] == p0 {
        if Hit(rule, ps[k].0, ps[k].1, x) {
          HitIff(rule, ps[k].0, ps[k].1, x);
          CofactorUnique(r, ps[k].1, |z| / r);
        }
      }
      HitTotalOne(rule, ps, x, p0);
    } else {
      HitTotalNone(rule, ps, x);
    }
  }

  lemma {:induction false} DigitsBelow(x: nat, digits: nat)
    requires digits >= 1 && x < Pow10(digits)
    ensures |Decimal(x)| <= digits
  {
    DecimalLength(x);
    if |Decimal(x)| > digits {
      assert x >= 10;
      Pow10Monotone(digits, |Decimal(x)| - 1);
    }
  }

  lemma QuotientBound(d: nat, m: nat, n: nat)
    requires d >= 1 && m >= 1 && d * m <= n
    ensures d <= n && m <= n / d
  {
    NatDiv(n, d);
    var q := n / d;
    assert n == d * q + n % d;
    MulCancel(d, m, q + 1);
    assert d * (q + 1) == d * q + d;
    assert d <= d * m;
  }

  function PairsBlock(rule: Rule, ps: seq<(nat, nat)>, r: Range): nat
    requires ValidPairs(ps)
  {
    if ps == [] then 0
    else
      var p := ps[|ps| - 1];
      PairsBlock(rule, ps[..|ps| - 1], r) + RangeBlock(rule, p.0, p.1, r)
  }

  function PairsHit(rule: Rule, ps: seq<(nat, nat)>, lo: nat, hi: int): nat
    requires ValidPairs(ps)
  {
    if ps == [] then 0
    else
      var p := ps[|ps| - 1];
      PairsHit(rule, ps[..|ps| - 1], lo, hi) + HitSum(rule, p.0, p.1, lo, hi)
  }

  function XTotal(rule: Rule, ps: seq<(nat, nat)>, lo: nat, hi: int): nat
    requires ValidPairs(ps)
    decreases hi - lo
  {
    if hi < lo then 0 else XTotal(rule, ps, lo, hi - 1) + HitTotal(rule, ps, hi)
  }

  lemma {:induction false} PairsSumEmpty(rule: Rule, ps: seq<(nat, nat)>)
    requires ValidPairs(ps)
    ensures PairsSum(rule, ps, []) == 0
  {
    if ps != [] {
      PairsSumEmpty(rule, ps[..|ps| - 1]);
    }
  }

  lemma {:induction false} PairsSumSnoc(rule: Rule, ps: seq<(nat, nat)>, rs: seq<Range>, r: Range)
    requires ValidPairs(ps)
    ensures PairsSum(rule, ps, rs + [r]) == PairsSum(rule, ps, rs) + PairsBlock(rule, ps, r)
  {
    if ps != [] {
      var p := ps[|ps| - 1];
      PairsSumSnoc(rule, ps[..|ps| - 1], rs, r);
      assert (rs + [r])[..|rs|] == rs;
      assert RangeSum(rule, p.0, p.1, rs + [r]) == RangeSum(rule, p.0, p.1, rs) + RangeBlock(rule, p.0, p.1, r);
    }
  }

  lemma {:induction false} PairsBlockIsHit(rule: Rule, ps: seq<(nat, nat)>, r: Range)
    requires ValidPairs(ps)
    ensures PairsBlock(rule, ps, r) == PairsHit(rule, ps, r.lo, r.hi)
  {
    if ps != [] {
      var p := ps[|ps| - 1];
      PairsBlockIsHit(rule, ps[..|ps| - 1], r);
      BlocksAreHits(rule, p.0, p.1, r.lo, r.hi);
    }
  }

  lemma {:induction false} PairsHitEmpty(rule: Rule, ps: seq<(nat, nat)>, lo: nat, hi: int)
    requires ValidPairs(ps) && hi < lo
    ensures PairsHit(rule, ps, lo, hi) == 0
  {
    if ps != [] {
      PairsHitEmpty(rule, ps[..|ps| - 1], lo, hi);
    }
  }

  lemma {:induction false} PairsHitStep(rule: Rule, ps: seq<(nat, nat)>, lo: nat, hi: int)
    requires ValidPairs(ps) && lo <= hi
    ensures PairsHit(rule, ps, lo, hi) == PairsHit(rule, ps, lo, hi - 1) + HitTotal(rule, ps, hi)
  {
    if ps != [] {
      PairsHitStep(rule, ps[..|ps| - 1], lo, hi);
    }
  }

  /** Summing over pairs, then IDs, is summing over IDs, then pairs. */
  lemma {:induction false} PairsHitIsTotal(rule: Rule, ps: seq<(nat, nat)>, lo: nat, hi: int)
    requires ValidPairs(ps)
    ensures PairsHit(rule, ps, lo, hi) == XTotal(rule, ps, lo, hi)
    decreases hi - lo
  {
    if hi < lo {
      PairsHitEmpty(rule, ps, lo, hi);
    } else {
      PairsHitIsTotal(rule, ps, lo, hi - 1);
      PairsHitStep(rule, ps, lo, hi);
    }
  }

  lemma {:induction false} XTotalIsRangeTotal(rule: Rule, digits: nat, lo: nat, hi: int)
    requires digits >= 1 && hi < Pow10(digits)
    ensures ValidPairs(PairsUpTo(digits, digits))
    ensures XTotal(rule, PairsUpTo(digits, digits), lo, hi) == RangeTotal(rule, lo, hi)
    decreases hi - lo
  {
    PairsValid(digits);
    if hi >= lo {
      var ps := PairsUpTo(digits, digits);
      XTotalIsRangeTotal(rule, digits, lo, hi - 1);
      HitTotalIsTerm(rule, digits, hi);
      assert XTotal(rule, ps, lo, hi) == XTotal(rule, ps, lo, hi - 1) + HitTotal(rule, ps, hi);
      assert RangeTotal(rule, lo, hi) == RangeTotal(rule, lo, hi - 1) + Term(rule, hi);
    }
  }

  lemma PairsValid(digits: nat)
    ensures ValidPairs(PairsUpTo(digits, digits))
  {
    PairsMembers(digits, digits);
  }

  /** The loops' total over all visited pairs is the sum of the invalid IDs of every
      range, when every range ends below `10^digits`. */
  lemma {:induction false} PairsSumIsInvalidSum(rule: Rule, digits: nat, rs: seq<Range>)
    requires digits >= 1 && forall k :: 0 <= k < |rs| ==> rs[k].hi < Pow10(digits)
    ensures ValidPairs(PairsUpTo(digits, digits))
    ensures PairsSum(rule, PairsUpTo(digits, digits), rs) == InvalidSum(rule, rs)
  {
    var ps := PairsUpTo(digits, digits);
    PairsMembers(digits, digits);
    if rs == [] {
      PairsSumEmpty(rule, ps);
    } else {
      var front, r := rs[..|rs| - 1], rs[|rs| - 1];
      assert rs == front + [r];
      PairsSumIsInvalidSum(rule, digits, front);
      PairsSumSnoc(rule, ps, front, r);
      PairsBlockIsHit(rule, ps, r);
      PairsHitIsTotal(rule, ps, r.lo, r.hi);
      XTotalIsRangeTotal(rule, digits, r.lo, r.hi);
    }
  }

  // ---------------------------------------------------------------------------
  // One-digit blocks, which the source sums in closed form
  // ---------------------------------------------------------------------------

  /** Every one-digit block is primitive, and its candidate is a block written exactly
      twice just when the repeat count is even. */
  lemma KeepOneDigit(m: nat, b: nat)
    requires m >= 2 && 1 <= b <= 9
    ensures Keep(AtLeastTwice, 1, m, b)
    ensures Keep(Twice, 1, m, b) <==> m % 2 == 0
  {
    assert DecomposeBlock(b, 1).None?;
    var x := b * Rep(1, m);
    BlockTimesRep(x, 1, m, b);
    var z := Decimal(x);
    if m % 2 == 0 {
      PowerOfMultiple(z, 1, m / 2, 2);
    }
  }

  lemma Distribute(r: int, a: int, h: int)
    ensures r * (a + h) == r * a + h * r
  { }

  lemma {:induction false} BlockSumAll(rule: Rule, d: nat, m: nat, lo: nat, hi: int)
    requires d >= 1 && m >= 1
    requires forall b :: lo <= b <= hi ==> Keep(rule, d, m, b)
    ensures BlockSum(rule, d, m, lo, hi) == Rep(d, m) * SumInts(lo, hi)
    decreases hi - lo
  {
    if lo <= hi {
      BlockSumAll(rule, d, m, lo, hi - 1);
      Distribute(Rep(d, m), SumInts(lo, hi - 1), hi);
    }
  }

  lemma {:induction false} BlockSumNone(rule: Rule, d: nat, m: nat, lo: nat, hi: int)
    requires d >= 1 && m >= 1
    requires forall b :: lo <= b <= hi ==> !Keep(rule, d, m, b)
    ensures BlockSum(rule, d, m, lo, hi) == 0
    decreases hi - lo
  {
    if lo <= hi {
      BlockSumNone(rule, d, m, lo, hi - 1);
    }
  }

  // ---------------------------------------------------------------------------
  // `sums_for_ranges`
  // ---------------------------------------------------------------------------

  /** The largest range end. */
  function MaxEnd(rs: seq<Range>): (e: nat)
    requires |rs| >= 1
    ensures forall k :: 0 <= k < |rs| ==> rs[k].hi <= e
    ensures exists k :: 0 <= k < |rs| && rs[k].hi == e
  {
    if |rs| == 1 then rs[0].hi
    else
      var e := MaxEnd(rs[..|rs| - 1]);
      if e < rs[|rs| - 1].hi then rs[|rs| - 1].hi else e
  }

  /** The inner loop over the blocks `bLo..=bHi` of `d` digits written `m` times. */
  method BlockRun(d: nat, m: nat, repFactor: nat, totalLen: nat, bLo: nat, bHi: nat)
    returns (add1: nat, add2: nat)
    requires d >= 1 && m >= 2 && repFactor == Rep(d, m) && totalLen == d * m && bLo <= bHi
    ensures add1 == BlockSum(Twice, d, m, bLo, bHi)
    ensures add2 == BlockSum(AtLeastTwice, d, m, bLo, bHi)
  {
    add1, add2 := 0, 0;
    var block := bLo;
    while block <= bHi
      invariant bLo <= block <= bHi + 1
      invariant add1 == BlockSum(Twice, d, m, bLo, block - 1)
      invariant add2 == BlockSum(AtLeastTwice, d, m, bLo, block - 1)
    {
      NatMul(block, repFactor);
      var candidate := block * repFactor;
      var isFundamental := DecomposeBlock(block, d).None?;
      if isFundamental {
        add2 := add2 + candidate;
        if HasDoubleRepresentation(candidate, totalLen) {
          add1 := add1 + candidate;
        }
      }
      block := block + 1;
    }
  }

  /** What one range contributes for block length `d` and repeat count `m`. */
  method RangePass(d: nat, m: nat, repFactor: nat, totalLen: nat, blockMin: nat, blockMax: nat,
                   r: Range, maxEnd: nat)
    returns (add1: nat, add2: nat)
    requires d >= 1 && m >= 2 && repFactor == Rep(d, m) && totalLen == d * m
    requires blockMin == Pow10(d - 1) && r.hi <= maxEnd
    requires blockMax == if maxEnd / repFactor < Pow10(d) - 1 then maxEnd / repFactor else Pow10(d) - 1
    ensures add1 == RangeBlock(Twice, d, m, r)
    ensures add2 == RangeBlock(AtLeastTwice, d, m, r)
  {
    NatDiv(r.lo, repFactor);
    NatDiv(r.hi, repFactor);
    var div, rem := r.lo / repFactor, r.lo % repFactor;
    var bLo: nat := if rem == 0 then div else div + 1;
    var bHi: nat := r.hi / repFactor;
    bLo := if bLo < blockMin then blockMin else bLo;
    bHi := if bHi < blockMax then bHi else blockMax;
    DivMonotone(r.hi, maxEnd, repFactor);
    assert bLo == BLo(d, m, r.lo) && bHi == BHi(d, m, r.hi);
    if bLo > bHi {
      add1, add2 := 0, 0;
    } else if d == 1 {
      assert Pow10(1) == 10 && totalLen == m;
      forall b | bLo <= b <= bHi ensures Keep(AtLeastTwice, 1, m, b) && (Keep(Twice, 1, m, b) <==> m % 2 == 0) {
        KeepOneDigit(m, b);
      }
      BlockSumAll(AtLeastTwice, 1, m, bLo, bHi);
      var sum := SumRange(bLo, bHi);
      NatMul(repFactor, sum);
      var s := repFactor * sum;
      add2 := s;
      if m == 2 {
        add1 := s;
        BlockSumAll(Twice, 1, m, bLo, bHi);
      } else if totalLen % 2 == 0 {
        add1 := s;
        BlockSumAll(Twice, 1, m, bLo, bHi);
      } else {
        add1 := 0;
        BlockSumNone(Twice, 1, m, bLo, bHi);
      }
    } else {
      add1, add2 := BlockRun(d, m, repFactor, totalLen, bLo, bHi);
    }
  }

  /** The loop over the ranges for one block length and repeat count. */
  method RangesPass(d: nat, m: nat, repFactor: nat, totalLen: nat, blockMin: nat, blockMax: nat,
                    ranges: seq<Range>, maxEnd: nat)
    returns (add1: nat, add2: nat)
    requires d >= 1 && m >= 2 && repFactor == Rep(d, m) && totalLen == d * m
    requires blockMin == Pow10(d - 1) && forall k :: 0 <= k < |ranges| ==> ranges[k].hi <= maxEnd
    requires blockMax == if maxEnd / repFactor < Pow10(d) - 1 then maxEnd / repFactor else Pow10(d) - 1
    ensures add1 == RangeSum(Twice, d, m, ranges)
    ensures add2 == RangeSum(AtLeastTwice, d, m, ranges)
  {
    add1, add2 := 0, 0;
    var j := 0;
    while j < |ranges|
      invariant 0 <= j <= |ranges|
      invariant add1 == RangeSum(Twice, d, m, ranges[..j])
      invariant add2 == RangeSum(AtLeastTwice, d, m, ranges[..j])
    {
      var s1, s2 := RangePass(d, m, repFactor, totalLen, blockMin, blockMax, ranges[j], maxEnd);
      assert ranges[..j + 1][..j] == ranges[..j];
      add1, add2 := add1 + s1, add2 + s2;
      j := j + 1;
    }
    assert ranges[..j] == ranges;
  }

  /** When even the largest range end is below the smallest candidate, no range has a
      block in it. */
  lemma {:induction false} RangeSumZero(rule: Rule, d: nat, m: nat, rs: seq<Range>, maxEnd: nat)
    requires d >= 1 && m >= 1 && maxEnd / Rep(d, m) < Pow10(d - 1)
    requires forall k :: 0 <= k < |rs| ==> rs[k].hi <= maxEnd
    ensures RangeSum(rule, d, m, rs) == 0
  {
    if rs != [] {
      RangeSumZero(rule, d, m, rs[..|rs| - 1], maxEnd);
      DivMonotone(rs[|rs| - 1].hi, maxEnd, Rep(d, m));
    }
  }

  /** One repeat count of one block length: skipped when even the largest range end is
      below the candidate of the smallest block, otherwise summed over the ranges. */
  method RepeatStep(blockLen: nat, repeats: nat, ranges: seq<Range>, maxEnd: nat)
    returns (add1: nat, add2: nat)
    requires blockLen >= 1 && repeats >= 2
    requires forall k :: 0 <= k < |ranges| ==> ranges[k].hi <= maxEnd
    ensures add1 == RangeSum(Twice, blockLen, repeats, ranges)
    ensures add2 == RangeSum(AtLeastTwice, blockLen, repeats, ranges)
  {
    Pow10Positive(blockLen);
    var blockMin := Pow10(blockLen - 1);
    var blockMaxPossible: nat := Pow10(blockLen) - 1;
    NatMul(blockLen, repeats);
    var totalLen := blockLen * repeats;
    RepFactorIsRep(blockLen, repeats);
    var repFactor := RepFactor(totalLen, blockLen);
    NatDiv(maxEnd, repFactor);
    var cap: nat := maxEnd / repFactor;
    if cap < blockMin {
      RangeSumZero(Twice, blockLen, repeats, ranges, maxEnd);
      RangeSumZero(AtLeastTwice, blockLen, repeats, ranges, maxEnd);
      add1, add2 := 0, 0;
    } else {
      var blockMax := if cap < blockMaxPossible then cap else blockMaxPossible;
      add1, add2 := RangesPass(blockLen, repeats, repFactor, totalLen, blockMin, blockMax, ranges, maxEnd);
    }
  }

  /** The loop over repeat counts for one block length. */
  method RepeatsPass(blockLen: nat, maxDigits: nat, ranges: seq<Range>, maxEnd: nat)
    returns (add1: nat, add2: nat)
    requires blockLen >= 1 && forall k :: 0 <= k < |ranges| ==> ranges[k].hi <= maxEnd
    ensures ValidPairs(RowPairs(blockLen, maxDigits / blockLen))
    ensures add1 == PairsSum(Twice, RowPairs(blockLen, maxDigits / blockLen), ranges)
    ensures add2 == PairsSum(AtLeastTwice, RowPairs(blockLen, maxDigits / blockLen), ranges)
  {
    NatDiv(maxDigits, blockLen);
    var maxRepeats: nat := maxDigits / blockLen;
    RowValid(blockLen, maxRepeats);
    add1, add2 := 0, 0;
    if maxRepeats < 2 {
      return;
    }
    var repeats := 2;
    while repeats <= maxRepeats
      invariant 2 <= repeats <= maxRepeats + 1
      invariant ValidPairs(RowPairs(blockLen, repeats - 1))
      invariant add1 == PairsSum(Twice, RowPairs(blockLen, repeats - 1), ranges)
      invariant add2 == PairsSum(AtLeastTwice, RowPairs(blockLen, repeats - 1), ranges)
    {
      RowValid(blockLen, repeats);
      var s1, s2 := RepeatStep(blockLen, repeats, ranges, maxEnd);
      add1, add2 := add1 + s1, add2 + s2;
      repeats := repeats + 1;
    }
  }

  lemma ValidConcat(ps: seq<(nat, nat)>, qs: seq<(nat, nat)>)
    requires ValidPairs(ps) && ValidPairs(qs)
    ensures ValidPairs(ps + qs)
  {
    forall k | 0 <= k < |ps + qs| ensures (ps + qs)[k].0 >= 1 && (ps + qs)[k].1 >= 2 {
      if k < |ps| {
        assert (ps + qs)[k] == ps[k];
      } else {
        assert (ps + qs)[k] == qs[k - |ps|];
      }
    }
  }

  lemma {:induction false} PairsSumConcat(rule: Rule, ps: seq<(nat, nat)>, qs: seq<(nat, nat)>, rs: seq<Range>)
    requires ValidPairs(ps) && ValidPairs(qs)
    ensures ValidPairs(ps + qs)
    ensures PairsSum(rule, ps + qs, rs) == PairsSum(rule, ps, rs) + PairsSum(rule, qs, rs)
    decreases |qs|
  {
    ValidConcat(ps, qs);
    if qs == [] {
      assert ps + qs == ps;
    } else {
      var front, last := qs[..|qs| - 1], qs[|qs| - 1];
      assert ValidPairs(front);
      PairsSumConcat(rule, ps, front, rs);
      var whole := ps + qs;
      assert whole[..|whole| - 1] == ps + front && whole[|whole| - 1] == last;
      assert PairsSum(rule, whole, rs) == PairsSum(rule, ps + front, rs) + RangeSum(rule, last.0, last.1, rs);
      assert PairsSum(rule, qs, rs) == PairsSum(rule, front, rs) + RangeSum(rule, last.0, last.1, rs);
    }
  }

  /** The block-length loop of `sums_for_ranges` for a given `max_digits`: every pair
      `(d, m)` with `d * m <= maxDigits`, in visiting order. */
  method SumsUpTo(ranges: seq<Range>, maxEnd: nat, maxDigits: nat) returns (part1: nat, part2: nat)
    requires forall k :: 0 <= k < |ranges| ==> ranges[k].hi <= maxEnd
    ensures ValidPairs(PairsUpTo(maxDigits, maxDigits))
    ensures part1 == PairsSum(Twice, PairsUpTo(maxDigits, maxDigits), ranges)
    ensures part2 == PairsSum(AtLeastTwice, PairsUpTo(maxDigits, maxDigits), ranges)
  {
    part1, part2 := 0, 0;
    var blockLen := 1;
    while blockLen <= maxDigits
      invariant 1 <= blockLen <= maxDigits + 1
      invariant ValidPairs(PairsUpTo(blockLen - 1, maxDigits))
      invariant part1 == PairsSum(Twice, PairsUpTo(blockLen - 1, maxDigits), ranges)
      invariant part2 == PairsSum(AtLeastTwice, PairsUpTo(blockLen - 1, maxDigits), ranges)
    {
      part1, part2 := BlockLenPass(blockLen, maxDigits, ranges, maxEnd, part1, part2);
      blockLen := blockLen + 1;
    }
  }

  /** One pass of the block-length loop: the row of pairs `(blockLen, m)` added on. */
  method BlockLenPass(blockLen: nat, maxDigits: nat, ranges: seq<Range>, maxEnd: nat, part1: nat, part2: nat)
    returns (next1: nat, next2: nat)
    requires blockLen >= 1 && forall k :: 0 <= k < |ranges| ==> ranges[k].hi <= maxEnd
    requires ValidPairs(PairsUpTo(blockLen - 1, maxDigits))
    requires part1 == PairsSum(Twice, PairsUpTo(blockLen - 1, maxDigits), ranges)
    requires part2 == PairsSum(AtLeastTwice, PairsUpTo(blockLen - 1, maxDigits), ranges)
    ensures ValidPairs(PairsUpTo(blockLen, maxDigits))
    ensures next1 == PairsSum(Twice, PairsUpTo(blockLen, maxDigits), ranges)
    ensures next2 == PairsSum(AtLeastTwice, PairsUpTo(blockLen, maxDigits), ranges)
  {
    var s1, s2 := RepeatsPass(blockLen, maxDigits, ranges, maxEnd);
    var row := RowPairs(blockLen, maxDigits / blockLen);
    PairsSumConcat(Twice, PairsUpTo(blockLen - 1, maxDigits), row, ranges);
    PairsSumConcat(AtLeastTwice, PairsUpTo(blockLen - 1, maxDigits), row, ranges);
    next1, next2 := part1 + s1, part2 + s2;
  }

  /** `sums_for_ranges` with `max_digits` the true digit count of the largest end: the
      sums of the part 1 and part 2 invalid IDs over the ranges, each range on its own. */
  method SumsForRanges(ranges: seq<Range>) returns (part1: nat, part2: nat)
    requires |ranges| >= 1
    ensures part1 == InvalidSum(Twice, ranges)
    ensures part2 == InvalidSum(AtLeastTwice, ranges)
  {
    var maxEnd := MaxEnd(ranges);
    var maxDigits := DigitLen(maxEnd);
    part1, part2 := SumsUpTo(ranges, maxEnd, maxDigits);
    PairsSumIsInvalidSum(Twice, maxDigits, ranges);
    PairsSumIsInvalidSum(AtLeastTwice, maxDigits, ranges);
  }

  /** `sums_for_ranges` as written, with `max_digits = digit_len(max_end)`, which is 19
      for every end from 10^19 up: the pairs with `d * m = 20` are never visited. */
  method SumsForRangesAsWritten(ranges: seq<Range>) returns (part1: nat, part2: nat)
    requires |ranges| >= 1
    ensures MaxEnd(ranges) < Pow10(19) ==> part1 == InvalidSum(Twice, ranges) && part2 == InvalidSum(AtLeastTwice, ranges)
    ensures ValidPairs(PairsUpTo(19, 19))
    ensures MaxEnd(ranges) >= Pow10(19) ==> part1 == PairsSum(Twice, PairsUpTo(19, 19), ranges)
    ensures MaxEnd(ranges) >= Pow10(19) ==> part2 == PairsSum(AtLeastTwice, PairsUpTo(19, 19), ranges)
  {
    var maxEnd := MaxEnd(ranges);
    var maxDigits := DigitLenAsWritten(maxEnd);
    part1, part2 := SumsUpTo(ranges, maxEnd, maxDigits);
    PairsMembers(19, 19);
    if maxEnd < Pow10(19) {
      DigitLenAsWrittenCorrect(maxEnd);
      PairsSumIsInvalidSum(Twice, maxDigits, ranges);
      PairsSumIsInvalidSum(AtLeastTwice, maxDigits, ranges);
    } else {
      TableSearchAbove(maxEnd, 1);
    }
  }

  /** 10^19 and 10^20 written out. */
  lemma Pow10Value19()
    ensures Pow10(19) == 10000000000000000000 && Pow10(20) == 100000000000000000000
  {
    assert Pow10(4) == 10000;
    Pow10Add(4, 4);
    Pow10Add(8, 8);
    Pow10Add(16, 3);
    Pow10Add(16, 4);
  }

  /** A visited pair writes at most `n` digits. */
  lemma CofactorAtMost(d: nat, m: nat, n: nat)
    requires d >= 1 && m <= n / d
    ensures d * m <= n
  {
    NatDiv(n, d);
    assert n == d * (n / d) + n % d;
    MulMonotone(d, m, n / d);
  }

  lemma MulMonotone(d: nat, a: nat, b: nat)
    requires a <= b
    ensures d * a <= d * b
  {
  }

  /** 10000000001000000000 is the block 1000000000 written twice. */
  lemma TwentyDigitIdInvalid(x: nat)
    requires x == 10000000001000000000
    ensures Invalid(Twice, x) && Invalid(AtLeastTwice, x)
  {
    var w := TwentyDigitSplit(x);
    var z := Decimal(x);
    assert z[..10] == w;
    assert Repeat(w, 2) == Repeat(w, 1) + w;
    assert Repeat(w, 1) == Repeat(w, 0) + w;
    assert IsPowerOf(z, 10);
    assert |z| / 2 == 10;
  }

  /** The decimal form of 10000000001000000000 is that of 1000000000 twice. */
  lemma TwentyDigitSplit(x: nat) returns (w: string)
    requires x == 10000000001000000000
    ensures |w| == 10 && Decimal(x) == w + w
  {
    var b := Pow10(9);
    Pow10Value19();
    assert b == 1000000000 by {
      assert Pow10(3) == 1000;
      Pow10Add(3, 3);
      Pow10Add(6, 3);
    }
    w := Decimal(b);
    assert |w| == 10 by {
      DecimalLengthUnique(b, 10);
    }
    DecimalValueAppend(w, w);
    DecimalValueOfDecimal(b);
    assert DecimalValue(w + w) == x;
    DecimalOfDecimalValue(w + w);
  }

  /** The twenty-digit ID 10000000001000000000, the block 1000000000 written twice, is
      invalid under both rules, yet no pair the as-written loops visit reaches it: its
      one-ID range sums to 0 there and to the ID itself in the corrected count. */
  lemma {:induction false} TwentyDigitIdMissed(x: nat, r: Range, digits: nat)
    requires x == 10000000001000000000 && r == Range(x, x) && digits == 19
    ensures ValidPairs(PairsUpTo(digits, digits))
    ensures x < U64_LIMIT && MaxEnd([r]) >= Pow10(digits) && DigitLenAsWritten(x) == digits
    ensures PairsSum(Twice, PairsUpTo(digits, digits), [r]) == 0
    ensures PairsSum(AtLeastTwice, PairsUpTo(digits, digits), [r]) == 0
    ensures InvalidSum(Twice, [r]) == x && InvalidSum(AtLeastTwice, [r]) == x
  {
    Pow10Value19();
    assert U64_LIMIT == 18446744073709551616;
    TableSearchAbove(x, 1);
    assert |Decimal(x)| == 20 by {
      DecimalLength(x);
      DecimalLengthUnique(x, 20);
    }
    PairsMembers(digits, digits);
    NoShortPairHits(Twice, x, digits);
    NoShortPairHits(AtLeastTwice, x, digits);
    NoHitSumsToZero(Twice, PairsUpTo(digits, digits), r);
    NoHitSumsToZero(AtLeastTwice, PairsUpTo(digits, digits), r);
    TwentyDigitIdInvalid(x);
    assert InvalidSum(Twice, [r]) == RangeTotal(Twice, x, x);
    assert InvalidSum(AtLeastTwice, [r]) == RangeTotal(AtLeastTwice, x, x);
  }

  /** An ID longer than `digits` is hit by no pair visited for `max_digits = digits`. */
  lemma {:induction false} NoShortPairHits(rule: Rule, x: nat, digits: nat)
    requires |Decimal(x)| > digits
    ensures ValidPairs(PairsUpTo(digits, digits))
    ensures forall k :: 0 <= k < |PairsUpTo(digits, digits)| ==>
      !Hit(rule, PairsUpTo(digits, digits)[k].0, PairsUpTo(digits, digits)[k].1, x)
  {
    var ps := PairsUpTo(digits, digits);
    PairsMembers(digits, digits);
    forall k | 0 <= k < |ps| ensures !Hit(rule, ps[k].0, ps[k].1, x) {
      var d, m := ps[k].0, ps[k].1;
      assert ps[k] in ps;
      HitIff(rule, d, m, x);
      CofactorAtMost(d, m, digits);
    }
  }

  /** A one-ID range that no pair hits sums to 0. */
  lemma {:induction false} NoHitSumsToZero(rule: Rule, ps: seq<(nat, nat)>, r: Range)
    requires ValidPairs(ps) && r.lo == r.hi
    requires forall k :: 0 <= k < |ps| ==> !Hit(rule, ps[k].0, ps[k].1, r.lo)
    ensures PairsSum(rule, ps, [r]) == 0
  {
    assert [r] == [] + [r];
    PairsSumSnoc(rule, ps, [], r);
    PairsSumEmpty(rule, ps);
    PairsBlockIsHit(rule, ps, r);
    PairsHitIsTotal(rule, ps, r.lo, r.hi);
    HitTotalNone(rule, ps, r.lo);
  }


  // ---------------------------------------------------------------------------
  // Summing per merged range is summing over the covered numbers
  // ---------------------------------------------------------------------------

  /** A range on its own covers exactly its own numbers. */
  lemma CoveredSingle(r: Range)
    ensures forall x :: Covered([r], x) <==> InRange(r, x)
  {
    forall x ensures Covered([r], x) <==> InRange(r, x) {
      if InRange(r, x) {
        assert r in [r];
      }
    }
  }

  lemma {:induction false} CoveredSumNone(rule: Rule, n: nat)
    ensures CoveredSum(rule, [], n) == 0
  {
    if n > 0 {
      CoveredSumNone(rule, n - 1);
    }
  }

  /** The covered sum below `n` for one range is the range's own total, cut at `n - 1`. */
  lemma {:induction false} CoveredSumSingle(rule: Rule, r: Range, n: nat)
    ensures CoveredSum(rule, [r], n) == RangeTotal(rule, r.lo, if n - 1 < r.hi then n - 1 else r.hi)
  {
    if n > 0 {
      CoveredSumSingle(rule, r, n - 1);
      CoveredSingle(r);
    }
  }

  /** Covered sums add over a final range that lies after everything else. */
  lemma {:induction false} CoveredSumDisjoint(rule: Rule, a: seq<Range>, r: Range, n: nat)
    requires forall x :: Covered(a, x) ==> x < r.lo
    ensures CoveredSum(rule, a + [r], n) == CoveredSum(rule, a, n) + CoveredSum(rule, [r], n)
  {
    if n > 0 {
      CoveredSumDisjoint(rule, a, r, n - 1);
      CoveredSnoc(a, r);
      CoveredSingle(r);
    }
  }

  /** Two lists of ranges covering the same numbers have the same covered sum. */
  lemma {:induction false} CoveredSumSame(rule: Rule, a: seq<Range>, b: seq<Range>, n: nat)
    requires forall x :: Covered(a, x) <==> Covered(b, x)
    ensures CoveredSum(rule, a, n) == CoveredSum(rule, b, n)
  {
    if n > 0 {
      CoveredSumSame(rule, a, b, n - 1);
    }
  }

  /** In merged ranges, everything before the last range ends before it starts. */
  lemma LaterRangeAfter(rs: seq<Range>, front: seq<Range>, r: Range)
    requires Normalized(rs) && rs == front + [r]
    ensures forall x :: Covered(front, x) ==> x < r.lo
  {
    forall x | Covered(front, x) ensures x < r.lo {
      var q :| q in front && InRange(q, x);
      var k :| 0 <= k < |front| && front[k] == q;
      SeparatedOrdered(rs, k, |rs| - 1);
    }
  }

  /** Over merged ranges, summing each range on its own counts every covered number once. */
  lemma {:induction false} InvalidSumIsCoveredSum(rule: Rule, rs: seq<Range>, n: nat)
    requires Normalized(rs) && forall k :: 0 <= k < |rs| ==> rs[k].hi < n
    ensures InvalidSum(rule, rs) == CoveredSum(rule, rs, n)
    decreases |rs|
  {
    if rs == [] {
      CoveredSumNone(rule, n);
    } else {
      var front, r := rs[..|rs| - 1], rs[|rs| - 1];
      assert Normalized(front);
      InvalidSumIsCoveredSum(rule, front, n);
      assert rs == front + [r];
      LaterRangeAfter(rs, front, r);
      CoveredSumDisjoint(rule, front, r, n);
      CoveredSumSingle(rule, r, n);
      assert CoveredSum(rule, [r], n) == RangeTotal(rule, r.lo, r.hi);
    }
  }

  // ---------------------------------------------------------------------------
  // `part1`, `part2`, `both`
  // ---------------------------------------------------------------------------

  /** The parsed ranges merged, as every entry point does first; a parse error is passed on. */
  method ParseAndMerge(input: string) returns (result: Result<seq<Range>, ParseError>)
    ensures ParseSpec(input).Err? <==> result.Err?
    ensures result.Err? ==> result.error == ParseSpec(input).error
    ensures result.Ok? ==> Normalized(result.value)
    ensures result.Ok? ==> forall k :: 0 <= k < |result.value| ==> result.value[k].hi < U64_LIMIT
    ensures result.Ok? ==> forall x :: Covered(result.value, x) <==> Covered(ParseSpec(input).value, x)
  {
    var parsed := ParseRanges(input);
    if parsed.Err? {
      return Err(parsed.error);
    }
    ParsedRangesValid(input, 0);
    var ranges := parsed.value;
    assert AllValid(ranges) by {
      forall k | 0 <= k < |ranges| ensures ranges[k].lo <= ranges[k].hi {
        assert ranges[k] in ranges;
      }
    }
    var merged := MergeRanges(ranges);
    forall k | 0 <= k < |merged| ensures merged[k].hi < U64_LIMIT {
      var x := merged[k].hi;
      assert merged[k] in merged && InRange(merged[k], x);
      assert Covered(ranges, x);
      var q :| q in ranges && InRange(q, x);
    }
    return Ok(merged);
  }

  /** The two sums for the merged form of `input`, zero when no range is left. */
  method Sums(merged: seq<Range>) returns (part1: nat, part2: nat)
    requires Normalized(merged) && forall k :: 0 <= k < |merged| ==> merged[k].hi < U64_LIMIT
    ensures part1 == CoveredSum(Twice, merged, U64_LIMIT)
    ensures part2 == CoveredSum(AtLeastTwice, merged, U64_LIMIT)
  {
    InvalidSumIsCoveredSum(Twice, merged, U64_LIMIT);
    InvalidSumIsCoveredSum(AtLeastTwice, merged, U64_LIMIT);
    if merged == [] {
      part1, part2 := 0, 0;
    } else {
      part1, part2 := SumsForRanges(merged);
    }
  }

  /** `both`: the sums of the part 1 and part 2 invalid IDs, each ID covered by some range
      counted once, or the parse error. */
  method Both(input: string) returns (result: Result<(nat, nat), ParseError>)
    ensures ParseSpec(input).Err? ==> result == Err(ParseSpec(input).error)
    ensures ParseSpec(input).Ok? ==> result == Ok((CoveredSum(Twice, ParseSpec(input).value, U64_LIMIT),
                                                   CoveredSum(AtLeastTwice, ParseSpec(input).value, U64_LIMIT)))
  {
    var merged := ParseAndMerge(input);
    if merged.Err? {
      return Err(merged.error);
    }
    var part1, part2 := Sums(merged.value);
    CoveredSumSame(Twice, merged.value, ParseSpec(input).value, U64_LIMIT);
    CoveredSumSame(AtLeastTwice, merged.value, ParseSpec(input).value, U64_LIMIT);
    return Ok((part1, part2));
  }

  /** `part1`: the sum of the IDs that are one block written exactly twice. */
  method Part1(input: string) returns (result: Result<nat, ParseError>)
    ensures ParseSpec(input).Err? ==> result == Err(ParseSpec(input).error)
    ensures ParseSpec(input).Ok? ==> result == Ok(CoveredSum(Twice, ParseSpec(input).value, U64_LIMIT))
  {
    var merged := ParseAndMerge(input);
    if merged.Err? {
      return Err(merged.error);
    }
    var part1, _ := Sums(merged.value);
    CoveredSumSame(Twice, merged.value, ParseSpec(input).value, U64_LIMIT);
    return Ok(part1);
  }

  /** `part2`: the sum of the IDs that are one block written at least twice. */
  method Part2(input: string) returns (result: Result<nat, ParseError>)
    ensures ParseSpec(input).Err? ==> result == Err(ParseSpec(input).error)
    ensures ParseSpec(input).Ok? ==> result == Ok(CoveredSum(AtLeastTwice, ParseSpec(input).value, U64_LIMIT))
  {
    var merged := ParseAndMerge(input);
    if merged.Err? {
      return Err(merged.error);
    }
    var _, part2 := Sums(merged.value);
    CoveredSumSame(AtLeastTwice, merged.value, ParseSpec(input).value, U64_LIMIT);
    return Ok(part2);
  }
}
