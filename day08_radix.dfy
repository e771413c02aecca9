/** Day 8, `radix_sort_edges`: an LSD radix sort of a run of edges on their 64-bit
    distance, as four stable counting passes over 16-bit digits that alternate between
    the edges and a scratch buffer of the same length. */
module Day08Radix {
  import opened Common
  import opened Day08Edges

  const RADIX: nat := 65536

  /** Nondecreasing distance. */
  predicate ByDist(s: seq<Edge>)
  {
    forall i, j :: 0 <= i < j < |s| ==> s[i].dist <= s[j].dist
  }

  /** Nondecreasing in the distance's low part, `dist % m`. */
  predicate SortedLow(s: seq<Edge>, m: nat)
    requires m >= 1
  {
    forall i, j :: 0 <= i < j < |s| ==> s[i].dist % m <= s[j].dist % m
  }

  /** The 16-bit digit `(dist >> shift) & 0xFFFF`, written with the place value
      `m = 2^shift`. */
  function Digit(e: Edge, m: nat): (d: nat)
    requires m >= 1
    ensures d < RADIX
  {
    (e.dist / m) % RADIX
  }

  /** The key a pass sorts on: the digit at place `m`. */
  function DigitKey(m: nat): Edge -> nat
    requires m >= 1
  {
    e => Digit(e, m)
  }

  /** The entries among the first `k` of `s` whose key is `d`, in their order in `s`. */
  function Bucket(s: seq<Edge>, key: Edge -> nat, d: nat, k: nat): seq<Edge>
    requires k <= |s|
  {
    if k == 0 then []
    else Bucket(s, key, d, k - 1) + (if key(s[k - 1]) == d then [s[k - 1]] else [])
  }

  /** The buckets of the keys below `d`, one after the other. */
  function Buckets(s: seq<Edge>, key: Edge -> nat, d: nat, k: nat): seq<Edge>
    requires k <= |s|
  {
    if d == 0 then [] else Buckets(s, key, d - 1, k) + Bucket(s, key, d - 1, k)
  }

  /** What one counting pass leaves in its destination: `s` stably ordered by digit. */
  function Pass(s: seq<Edge>, m: nat): seq<Edge>
    requires m >= 1
  {
    Buckets(s, DigitKey(m), RADIX, |s|)
  }

  // ---------------------------------------------------------------------------
  // A pass is a permutation
  // ---------------------------------------------------------------------------

  lemma {:induction false} BucketsEmpty(s: seq<Edge>, key: Edge -> nat, d: nat)
    ensures Buckets(s, key, d, 0) == []
  {
    if d > 0 {
      BucketsEmpty(s, key, d - 1);
    }
  }

  /** Taking in entry `k` leaves the buckets below `d` alone when its key is `d` or
      more. */
  lemma {:induction false} BucketsStepAbove(s: seq<Edge>, key: Edge -> nat, d: nat, k: nat)
    requires k < |s| && key(s[k]) >= d
    ensures Buckets(s, key, d, k + 1) == Buckets(s, key, d, k)
  {
    if d > 0 {
      BucketsStepAbove(s, key, d - 1, k);
      BucketSame(s, key, d - 1, k);
    }
  }

  /** Taking in entry `k` adds it to the buckets below `d` when its key is below `d`. */
  lemma {:induction false} BucketsStep(s: seq<Edge>, key: Edge -> nat, d: nat, k: nat)
    requires k < |s| && key(s[k]) < d
    ensures multiset(Buckets(s, key, d, k + 1)) == multiset(Buckets(s, key, d, k)) + multiset{s[k]}
    decreases d, 1
  {
    if key(s[k]) < d - 1 {
      BucketsStepBelow(s, key, d, k);
    } else {
      BucketsStepAt(s, key, d, k);
    }
  }

  /** The inductive case: entry `k` goes into one of the buckets below `d - 1`. */
  lemma {:induction false} BucketsStepBelow(s: seq<Edge>, key: Edge -> nat, d: nat, k: nat)
    requires k < |s| && key(s[k]) < d - 1
    ensures multiset(Buckets(s, key, d, k + 1)) == multiset(Buckets(s, key, d, k)) + multiset{s[k]}
    decreases d, 0
  {
    BucketsStep(s, key, d - 1, k);
    BucketSame(s, key, d - 1, k);
    AddToFront(Buckets(s, key, d, k), Buckets(s, key, d, k + 1), Buckets(s, key, d - 1, k),
               Buckets(s, key, d - 1, k + 1), Bucket(s, key, d - 1, k), s[k]);
  }

  /** Entry `k` does not join the bucket of another key. */
  lemma BucketSame(s: seq<Edge>, key: Edge -> nat, c: nat, k: nat)
    requires k < |s| && key(s[k]) != c
    ensures Bucket(s, key, c, k + 1) == Bucket(s, key, c, k)
  {
    assert Bucket(s, key, c, k + 1) == Bucket(s, key, c, k) + [];
  }

  /** The base case: entry `k` goes into bucket `d - 1`, at its end. */
  lemma BucketsStepAt(s: seq<Edge>, key: Edge -> nat, d: nat, k: nat)
    requires k < |s| && key(s[k]) == d - 1 && d >= 1
    ensures Buckets(s, key, d, k + 1) == Buckets(s, key, d, k) + [s[k]]
  {
    BucketsStepAbove(s, key, d - 1, k);
    assert Bucket(s, key, d - 1, k + 1) == Bucket(s, key, d - 1, k) + [s[k]];
    SnocJoin(Buckets(s, key, d, k), Buckets(s, key, d, k + 1), Buckets(s, key, d - 1, k),
             Bucket(s, key, d - 1, k), Bucket(s, key, d - 1, k + 1), s[k]);
  }

  lemma SnocJoin<T>(all: seq<T>, all': seq<T>, a: seq<T>, b: seq<T>, b': seq<T>, e: T)
    requires all == a + b && all' == a + b' && b' == b + [e]
    ensures all' == all + [e]
  {
  }

  lemma AddToFront<T>(all: seq<T>, all': seq<T>, a: seq<T>, a': seq<T>, b: seq<T>, e: T)
    requires all == a + b && all' == a' + b
    requires multiset(a') == multiset(a) + multiset{e}
    ensures multiset(all') == multiset(all) + multiset{e}
  {
  }

  /** Every one of the first `k` entries, keyed below `d`, lands in one of the buckets
      below `d`. */
  lemma {:induction false} BucketsPermutation(s: seq<Edge>, key: Edge -> nat, d: nat, k: nat)
    requires k <= |s| && forall i :: 0 <= i < |s| ==> key(s[i]) < d
    ensures multiset(Buckets(s, key, d, k)) == multiset(s[..k])
  {
    if k == 0 {
      BucketsEmpty(s, key, d);
    } else {
      BucketsPermutation(s, key, d, k - 1);
      BucketsStep(s, key, d, k - 1);
      PermutationSnoc(Buckets(s, key, d, k - 1), Buckets(s, key, d, k), s, k);
    }
  }

  lemma PermutationSnoc<T>(x: seq<T>, x': seq<T>, s: seq<T>, k: nat)
    requires 0 < k <= |s| && multiset(x) == multiset(s[..k - 1])
    requires multiset(x') == multiset(x) + multiset{s[k - 1]}
    ensures multiset(x') == multiset(s[..k])
  {
    assert s[..k] == s[..k - 1] + [s[k - 1]];
  }

  /** A counting pass neither loses nor duplicates an edge. */
  lemma PassPermutation(s: seq<Edge>, m: nat)
    requires m >= 1
    ensures multiset(Pass(s, m)) == multiset(s)
    ensures |Pass(s, m)| == |s|
  {
    BucketsPermutation(s, DigitKey(m), RADIX, |s|);
    assert s[..|s|] == s;
    assert |multiset(Pass(s, m))| == |multiset(s)|;
  }

  // ---------------------------------------------------------------------------
  // A pass extends the sorted low part by one digit
  // ---------------------------------------------------------------------------

  /** A bucket holds entries among the first `k` with key `d`. */
  lemma {:induction false} BucketMembers(s: seq<Edge>, key: Edge -> nat, d: nat, k: nat)
    requires k <= |s|
    ensures multiset(Bucket(s, key, d, k)) <= multiset(s[..k])
    ensures forall t :: 0 <= t < |Bucket(s, key, d, k)| ==> key(Bucket(s, key, d, k)[t]) == d
  {
    if k > 0 {
      BucketMembers(s, key, d, k - 1);
      assert s[..k] == s[..k - 1] + [s[k - 1]];
    }
  }

  /** Appending an entry that is not below any entry of `b` keeps `b` sorted. */
  lemma SortedSnoc(b: seq<Edge>, e: Edge, low: nat)
    requires low >= 1 && SortedLow(b, low)
    requires forall t :: 0 <= t < |b| ==> b[t].dist % low <= e.dist % low
    ensures SortedLow(b + [e], low)
  {
    var r := b + [e];
    forall i, j | 0 <= i < j < |r| ensures r[i].dist % low <= r[j].dist % low {
      assert r[i] == b[i];
      if j < |b| {
        assert r[j] == b[j];
      }
    }
  }

  /** In a sorted sequence, entries drawn from before position `k` are not above entry
      `k`. */
  lemma BelowEntry(s: seq<Edge>, b: seq<Edge>, k: nat, low: nat)
    requires low >= 1 && k < |s| && SortedLow(s, low) && multiset(b) <= multiset(s[..k])
    ensures forall t :: 0 <= t < |b| ==> b[t].dist % low <= s[k].dist % low
  {
    forall t | 0 <= t < |b| ensures b[t].dist % low <= s[k].dist % low {
      assert b[t] in multiset(s[..k]);
      var q :| 0 <= q < k && s[..k][q] == b[t];
    }
  }

  /** A bucket keeps the order of `s`, so it inherits `s`'s sorted low part. */
  lemma {:induction false} BucketSorted(s: seq<Edge>, key: Edge -> nat, d: nat, k: nat, low: nat)
    requires k <= |s| && low >= 1 && SortedLow(s, low)
    ensures SortedLow(Bucket(s, key, d, k), low)
  {
    if k > 0 {
      BucketSorted(s, key, d, k - 1, low);
      if key(s[k - 1]) == d {
        BucketGrowsSorted(s, key, d, k - 1, low);
      } else {
        assert Bucket(s, key, d, k) == Bucket(s, key, d, k - 1) + [];
      }
    }
  }

  lemma BucketGrowsSorted(s: seq<Edge>, key: Edge -> nat, d: nat, k: nat, low: nat)
    requires k < |s| && low >= 1 && SortedLow(s, low) && key(s[k]) == d
    requires SortedLow(Bucket(s, key, d, k), low)
    ensures SortedLow(Bucket(s, key, d, k + 1), low)
  {
    BucketMembers(s, key, d, k);
    BelowEntry(s, Bucket(s, key, d, k), k, low);
    SortedSnoc(Bucket(s, key, d, k), s[k], low);
  }

  /** The low part at place `m * RADIX` is the digit at place `m` above the low part at
      place `m`. */
  lemma KeySplit(k: nat, m: nat)
    requires m >= 1
    ensures k % (m * RADIX) == Digit(Edge(k, 0, 0), m) * m + k % m
  {
    var q, r := k / m, k % m;
    var q2, dg := q / RADIX, q % RADIX;
    assert k == m * q + r;
    assert q == RADIX * q2 + dg;
    assert k == (m * RADIX) * q2 + (dg * m + r) by {
      calc {
        k;
        m * q + r;
        m * (RADIX * q2 + dg) + r;
        { MulAdd(m, RADIX * q2, dg); }
        m * (RADIX * q2) + m * dg + r;
        { MulAssoc(m, RADIX, q2); }
        (m * RADIX) * q2 + (dg * m + r);
      }
    }
    assert dg * m + r < m * RADIX by {
      MulGap(m, dg, RADIX);
    }
    NatMul(dg, m);
    DivModUnique(k, m * RADIX, q2, dg * m + r);
  }

  /** Two entries in digit order: the one with the smaller digit has the smaller low
      part at the next place, whatever their low parts at this one. */
  lemma DigitOrder(x: Edge, y: Edge, m: nat)
    requires m >= 1 && Digit(x, m) < Digit(y, m)
    ensures x.dist % (m * RADIX) < y.dist % (m * RADIX)
  {
    KeySplit(x.dist, m);
    KeySplit(y.dist, m);
    MulGap(m, Digit(x, m), Digit(y, m));
    assert Digit(Edge(x.dist, 0, 0), m) == Digit(x, m);
    assert Digit(Edge(y.dist, 0, 0), m) == Digit(y, m);
  }

  /** Two entries with the same digit compare at the next place as at this one. */
  lemma DigitSame(x: Edge, y: Edge, m: nat)
    requires m >= 1 && Digit(x, m) == Digit(y, m) && x.dist % m <= y.dist % m
    ensures x.dist % (m * RADIX) <= y.dist % (m * RADIX)
  {
    KeySplit(x.dist, m);
    KeySplit(y.dist, m);
    assert Digit(Edge(x.dist, 0, 0), m) == Digit(x, m);
    assert Digit(Edge(y.dist, 0, 0), m) == Digit(y, m);
  }

  /** Sorted at the next place: entries with digits below `d`, sorted at the next place,
      followed by entries with digit `d`, sorted at this place. */
  lemma JoinSorted(x: seq<Edge>, y: seq<Edge>, key: Edge -> nat, m: nat, hi: nat, d: nat)
    requires m >= 1 && hi == m * RADIX && key == DigitKey(m) && SortedLow(x, hi) && SortedLow(y, m)
    requires forall k :: 0 <= k < |x| ==> key(x[k]) < d
    requires forall k :: 0 <= k < |y| ==> key(y[k]) == d
    ensures SortedLow(x + y, hi)
  {
    var r := x + y;
    forall i, j | 0 <= i < j < |r| ensures r[i].dist % (m * RADIX) <= r[j].dist % (m * RADIX) {
      if j < |x| {
        assert r[i] == x[i] && r[j] == x[j];
      } else if i < |x| {
        JoinAcross(x, y, key, m, d, i, j - |x|);
      } else {
        assert r[i] == y[i - |x|] && r[j] == y[j - |x|];
        DigitSame(r[i], r[j], m);
      }
    }
  }

  lemma JoinAcross(x: seq<Edge>, y: seq<Edge>, key: Edge -> nat, m: nat, d: nat, i: nat, j: nat)
    requires m >= 1 && key == DigitKey(m) && i < |x| && j < |y| && key(x[i]) < d && key(y[j]) == d
    ensures x[i].dist % (m * RADIX) < y[j].dist % (m * RADIX)
    ensures (x + y)[i] == x[i] && (x + y)[|x| + j] == y[j]
  {
    DigitOrder(x[i], y[j], m);
  }

  /** Entries keyed below `d`, then entries keyed `d`: all keyed below `d + 1`. */
  lemma JoinBelow(x: seq<Edge>, y: seq<Edge>, key: Edge -> nat, d: nat)
    requires forall k :: 0 <= k < |x| ==> key(x[k]) < d
    requires forall k :: 0 <= k < |y| ==> key(y[k]) == d
    ensures forall k :: 0 <= k < |x + y| ==> key((x + y)[k]) < d + 1
  {
    var r := x + y;
    forall k | 0 <= k < |r| ensures key(r[k]) < d + 1 {
      if k < |x| {
        assert r[k] == x[k];
      } else {
        assert r[k] == y[k - |x|];
      }
    }
  }

  lemma {:induction false} BucketsSorted(s: seq<Edge>, key: Edge -> nat, m: nat, hi: nat, d: nat)
    requires m >= 1 && hi == m * RADIX && key == DigitKey(m) && SortedLow(s, m)
    ensures hi >= 1 && SortedLow(Buckets(s, key, d, |s|), hi)
    ensures forall k :: 0 <= k < |Buckets(s, key, d, |s|)| ==> key(Buckets(s, key, d, |s|)[k]) < d
  {
    if d > 0 {
      BucketsSorted(s, key, m, hi, d - 1);
      BucketMembers(s, key, d - 1, |s|);
      BucketSorted(s, key, d - 1, |s|, m);
      var x, y := Buckets(s, key, d - 1, |s|), Bucket(s, key, d - 1, |s|);
      JoinSorted(x, y, key, m, hi, d - 1);
      JoinBelow(x, y, key, d - 1);
    }
  }

  /** The LSD step: a pass over a sequence sorted below place `m` leaves it sorted below
      place `m * RADIX`. */
  lemma PassSorted(s: seq<Edge>, m: nat)
    requires m >= 1 && SortedLow(s, m)
    ensures SortedLow(Pass(s, m), m * RADIX)
  {
    BucketsSorted(s, DigitKey(m), m, m * RADIX, RADIX);
  }

  // ---------------------------------------------------------------------------
  // Where the scatter loop puts each entry
  // ---------------------------------------------------------------------------

  lemma {:induction false} BucketsGrow(s: seq<Edge>, key: Edge -> nat, c: nat, d: nat)
    requires c <= d
    ensures |Buckets(s, key, c, |s|)| <= |Buckets(s, key, d, |s|)|
    decreases d - c
  {
    if c < d {
      BucketsGrow(s, key, c, d - 1);
    }
  }

  /** A bucket of the first `k` entries is a prefix of the bucket of the first `k'`. */
  lemma {:induction false} BucketPrefix(s: seq<Edge>, key: Edge -> nat, d: nat, k: nat, k': nat)
    requires k <= k' <= |s|
    ensures |Bucket(s, key, d, k)| <= |Bucket(s, key, d, k')|
    ensures Bucket(s, key, d, k')[..|Bucket(s, key, d, k)|] == Bucket(s, key, d, k)
    decreases k' - k
  {
    if k < k' {
      BucketPrefix(s, key, d, k, k' - 1);
      var b, extra := Bucket(s, key, d, k' - 1), if key(s[k' - 1]) == d then [s[k' - 1]] else [];
      assert (b + extra)[..|Bucket(s, key, d, k)|] == b[..|Bucket(s, key, d, k)|];
    }
  }

  /** The scatter loop's picture after `k` entries: each bucket's share of the first `k`
      entries sits, in order, at the start of that bucket's slot. */
  ghost predicate Placed(r: seq<Edge>, s: seq<Edge>, key: Edge -> nat, k: nat)
    requires k <= |s|
  {
    forall d, t :: 0 <= d < RADIX && 0 <= t < |Bucket(s, key, d, k)| ==> PlacedAt(r, s, key, k, d, t)
  }

  /** Entry `t` of bucket `d`'s share of the first `k` entries sits at offset `t` of
      that bucket's slot. */
  ghost predicate PlacedAt(r: seq<Edge>, s: seq<Edge>, key: Edge -> nat, k: nat, d: nat, t: nat)
    requires k <= |s|
  {
    t < |Bucket(s, key, d, k)| && |Buckets(s, key, d, |s|)| + t < |r|
    && r[|Buckets(s, key, d, |s|)| + t] == Bucket(s, key, d, k)[t]
  }

  /** Where entry `k` goes: its bucket's slot start plus the entries of that bucket
      already placed. */
  lemma {:induction false} SlotBound(s: seq<Edge>, key: Edge -> nat, k: nat)
    requires k < |s| && forall i :: 0 <= i < |s| ==> key(s[i]) < RADIX
    ensures key(s[k]) < RADIX
    ensures |Buckets(s, key, key(s[k]), |s|)| + |Bucket(s, key, key(s[k]), k)|
      < |Buckets(s, key, key(s[k]) + 1, |s|)| <= |s|
  {
    var d := key(s[k]);
    assert Bucket(s, key, d, k + 1) == Bucket(s, key, d, k) + [s[k]];
    BucketPrefix(s, key, d, k + 1, |s|);
    BucketsGrow(s, key, d + 1, RADIX);
    BucketsPermutation(s, key, RADIX, |s|);
    assert s[..|s|] == s;
    assert |multiset(Buckets(s, key, RADIX, |s|))| == |multiset(s)|;
  }

  /** One entry of the picture after `k + 1` entries. */
  lemma PlacedEntry(r: seq<Edge>, s: seq<Edge>, key: Edge -> nat, k: nat, pos: nat, d: nat, t: nat)
    requires k < |s| && |r| == |s| && Placed(r, s, key, k) && key(s[k]) < RADIX
    requires pos == |Buckets(s, key, key(s[k]), |s|)| + |Bucket(s, key, key(s[k]), k)|
    requires pos < |Buckets(s, key, key(s[k]) + 1, |s|)| <= |s|
    requires d < RADIX && t < |Bucket(s, key, d, k + 1)|
    ensures PlacedAt(r[pos := s[k]], s, key, k + 1, d, t)
  {
    if d == key(s[k]) && t == |Bucket(s, key, d, k)| {
      PlacedNew(r, s, key, k, pos, d, t);
    } else {
      assert t < |Bucket(s, key, d, k)|;
      SlotApart(s, key, k, pos, d, t);
      PlacedOld(r, s, key, k, pos, d, t);
    }
  }

  /** The entry just written: the last of its bucket's share so far. */
  lemma PlacedNew(r: seq<Edge>, s: seq<Edge>, key: Edge -> nat, k: nat, pos: nat, d: nat, t: nat)
    requires k < |s| && |r| == |s| && d == key(s[k]) && t == |Bucket(s, key, d, k)|
    requires pos == |Buckets(s, key, d, |s|)| + t && pos < |s|
    ensures |Buckets(s, key, d, |s|)| + t < |r|
    ensures r[pos := s[k]][|Buckets(s, key, d, |s|)| + t] == Bucket(s, key, d, k + 1)[t]
  {
  }

  /** An entry written earlier, which the new write does not touch. */
  lemma PlacedOld(r: seq<Edge>, s: seq<Edge>, key: Edge -> nat, k: nat, pos: nat, d: nat, t: nat)
    requires k < |s| && Placed(r, s, key, k) && d < RADIX && t < |Bucket(s, key, d, k)|
    requires pos < |r| && pos != |Buckets(s, key, d, |s|)| + t
    ensures |Buckets(s, key, d, |s|)| + t < |r|
    ensures r[pos := s[k]][|Buckets(s, key, d, |s|)| + t] == Bucket(s, key, d, k + 1)[t]
  {
    assert PlacedAt(r, s, key, k, d, t);
    var q := |Buckets(s, key, d, |s|)| + t;
    OverwriteElsewhere(r, pos, s[k], q, Bucket(s, key, d, k), Bucket(s, key, d, k + 1), t);
  }

  lemma OverwriteElsewhere<T>(r: seq<T>, pos: nat, e: T, q: nat, b0: seq<T>, b1: seq<T>, t: nat)
    requires q < |r| && pos < |r| && t < |b0| && r[q] == b0[t] && pos != q
    requires b1 == b0 + [e] || b1 == b0 + []
    ensures r[pos := e][q] == b1[t]
  {
  }

  /** The slot of an entry written earlier is not where the next entry goes. */
  lemma {:induction false} SlotApart(s: seq<Edge>, key: Edge -> nat, k: nat, pos: nat, d: nat, t: nat)
    requires k < |s| && key(s[k]) < RADIX && d < RADIX
    requires pos == |Buckets(s, key, key(s[k]), |s|)| + |Bucket(s, key, key(s[k]), k)|
    requires pos < |Buckets(s, key, key(s[k]) + 1, |s|)|
    requires t < |Bucket(s, key, d, k)|
    ensures pos != |Buckets(s, key, d, |s|)| + t
  {
    var d0 := key(s[k]);
    BucketPrefix(s, key, d, k, |s|);
    SlotOrder(s, key, d, d0);
    Apart(|Buckets(s, key, d, |s|)|, |Buckets(s, key, d + 1, |s|)|, |Buckets(s, key, d0, |s|)|,
          |Buckets(s, key, d0 + 1, |s|)|, |Bucket(s, key, d, k)|, |Bucket(s, key, d, |s|)|,
          |Bucket(s, key, d0, k)|, d, d0, t, pos);
  }

  /** The slots of two different keys do not overlap. */
  lemma SlotOrder(s: seq<Edge>, key: Edge -> nat, d: nat, d0: nat)
    ensures d < d0 ==> |Buckets(s, key, d + 1, |s|)| <= |Buckets(s, key, d0, |s|)|
    ensures d > d0 ==> |Buckets(s, key, d0 + 1, |s|)| <= |Buckets(s, key, d, |s|)|
  {
    if d < d0 {
      BucketsGrow(s, key, d + 1, d0);
    } else if d > d0 {
      BucketsGrow(s, key, d0 + 1, d);
    }
  }

  lemma Apart(pd: nat, pd1: nat, pd0: nat, pd01: nat, bk: nat, bs: nat, bk0: nat,
              d: nat, d0: nat, t: nat, pos: nat)
    requires pd1 == pd + bs && bk <= bs && t < bk
    requires pos == pd0 + bk0 && pos < pd01
    requires d < d0 ==> pd1 <= pd0
    requires d > d0 ==> pd01 <= pd
    requires d == d0 ==> pd == pd0 && bk == bk0
    ensures pos != pd + t
  {
  }

  lemma {:induction false} PlacedStep(r: seq<Edge>, s: seq<Edge>, key: Edge -> nat, k: nat, pos: nat)
    requires k < |s| && |r| == |s| && Placed(r, s, key, k)
    requires forall i :: 0 <= i < |s| ==> key(s[i]) < RADIX
    requires pos == |Buckets(s, key, key(s[k]), |s|)| + |Bucket(s, key, key(s[k]), k)|
    ensures pos < |r| && Placed(r[pos := s[k]], s, key, k + 1)
  {
    SlotBound(s, key, k);
    PlacedMoves(r, s, key, k, pos);
  }

  lemma {:induction false} PlacedMoves(r: seq<Edge>, s: seq<Edge>, key: Edge -> nat, k: nat, pos: nat)
    requires k < |s| && |r| == |s| && Placed(r, s, key, k) && key(s[k]) < RADIX
    requires pos == |Buckets(s, key, key(s[k]), |s|)| + |Bucket(s, key, key(s[k]), k)|
    requires pos < |Buckets(s, key, key(s[k]) + 1, |s|)| <= |s|
    ensures pos < |r| && Placed(r[pos := s[k]], s, key, k + 1)
  {
    var r', k' := r[pos := s[k]], k + 1;
    forall d, t | 0 <= d < RADIX && 0 <= t < |Bucket(s, key, d, k')|
      ensures PlacedAt(r', s, key, k', d, t)
    {
      PlacedEntry(r, s, key, k, pos, d, t);
    }
  }

  /** After the last entry, the destination is exactly the pass's result. */
  lemma Assemble(r: seq<Edge>, s: seq<Edge>, m: nat)
    requires m >= 1 && |r| == |s| && Placed(r, s, DigitKey(m), |s|)
    ensures r == Pass(s, m)
  {
    PassPermutation(s, m);
    forall c | 0 <= c < RADIX ensures SlotHolds(r, s, DigitKey(m), c) {
      PlacedSlot(r, s, DigitKey(m), c);
    }
    AssembleBelow(r, s, DigitKey(m), RADIX);
    assert r[..|r|] == r;
  }

  /** Slot `c` of `r` holds bucket `c` of `s`. */
  ghost predicate SlotHolds(r: seq<Edge>, s: seq<Edge>, key: Edge -> nat, c: nat)
  {
    var lo, n := |Buckets(s, key, c, |s|)|, |Bucket(s, key, c, |s|)|;
    lo + n <= |r| && r[lo..lo + n] == Bucket(s, key, c, |s|)
  }

  /** Once every entry is placed, slot `c` holds bucket `c`. */
  lemma {:induction false} PlacedSlot(r: seq<Edge>, s: seq<Edge>, key: Edge -> nat, c: nat)
    requires |r| == |s| && |Buckets(s, key, RADIX, |s|)| == |s| && c < RADIX
    requires Placed(r, s, key, |s|)
    ensures SlotHolds(r, s, key, c)
  {
    var lo, b := |Buckets(s, key, c, |s|)|, Bucket(s, key, c, |s|);
    assert |Buckets(s, key, c + 1, |s|)| == lo + |b|;
    BucketsGrow(s, key, c + 1, RADIX);
    forall t | 0 <= t < |b| ensures r[lo..lo + |b|][t] == b[t] {
      assert PlacedAt(r, s, key, |s|, c, t);
    }
    assert r[lo..lo + |b|] == b;
  }

  lemma {:induction false} AssembleBelow(r: seq<Edge>, s: seq<Edge>, key: Edge -> nat, d: nat)
    requires d <= RADIX
    requires forall c :: 0 <= c < RADIX ==> SlotHolds(r, s, key, c)
    ensures |Buckets(s, key, d, |s|)| <= |r| && r[..|Buckets(s, key, d, |s|)|] == Buckets(s, key, d, |s|)
  {
    if d > 0 {
      AssembleBelow(r, s, key, d - 1);
      AssembleStep(r, s, key, d);
    }
  }

  /** Slot `d - 1` extends the assembled prefix of the first `d - 1` buckets by one. */
  lemma AssembleStep(r: seq<Edge>, s: seq<Edge>, key: Edge -> nat, d: nat)
    requires 0 < d && SlotHolds(r, s, key, d - 1)
    requires |Buckets(s, key, d - 1, |s|)| <= |r| && r[..|Buckets(s, key, d - 1, |s|)|] == Buckets(s, key, d - 1, |s|)
    ensures |Buckets(s, key, d, |s|)| <= |r| && r[..|Buckets(s, key, d, |s|)|] == Buckets(s, key, d, |s|)
  {
    var x, y := Buckets(s, key, d - 1, |s|), Bucket(s, key, d - 1, |s|);
    AssembleJoin(r, x, y, Buckets(s, key, d, |s|));
  }

  /** `r` starts with `x + y` when it starts with `x` and holds `y` right after. */
  lemma AssembleJoin(r: seq<Edge>, x: seq<Edge>, y: seq<Edge>, all: seq<Edge>)
    requires all == x + y
    requires |x| + |y| <= |r| && r[..|x|] == x && r[|x|..|x| + |y|] == y
    ensures |all| <= |r| && r[..|all|] == all
  {
    assert r[..|x + y|] == r[..|x|] + r[|x|..|x| + |y|];
  }

  // ---------------------------------------------------------------------------
  // The sort
  // ---------------------------------------------------------------------------

  /** One counting pass of `radix_sort_edges`: clear the counts, count the digits of
      `src`, turn the counts into slot starts, and scatter `src` into `dst`. */
  method CountingPass(src: array<Edge>, sLo: nat, dst: array<Edge>, dLo: nat, len: nat, m: nat,
                      counts: array<nat>, offsets: array<nat>)
    requires src != dst && counts != offsets && m >= 1
    requires counts.Length == RADIX && offsets.Length == RADIX
    requires sLo + len <= src.Length && dLo + len <= dst.Length
    modifies dst, counts, offsets
    ensures dst[..dLo] == old(dst[..dLo]) && dst[dLo + len..] == old(dst[dLo + len..])
    ensures dst[dLo..dLo + len] == Pass(src[sLo..sLo + len], m)
  {
    CountDigits(src, sLo, len, m, counts);
    PrefixSums(src[sLo..sLo + len], DigitKey(m), counts, offsets);
    Scatter(src, sLo, dst, dLo, len, m, offsets);
  }

  /** The counting loop: `counts[d]` ends as the size of bucket `d`. */
  method CountDigits(src: array<Edge>, sLo: nat, len: nat, m: nat, counts: array<nat>)
    requires m >= 1 && counts.Length == RADIX && sLo + len <= src.Length
    modifies counts
    ensures forall d :: 0 <= d < RADIX ==>
      counts[d] == |Bucket(src[sLo..sLo + len], DigitKey(m), d, len)|
  {
    ghost var s := src[sLo..sLo + len];
    ghost var key := DigitKey(m);
    forall d | 0 <= d < RADIX {
      counts[d] := 0;
    }
    for k := 0 to len
      invariant forall d :: 0 <= d < RADIX ==> counts[d] == |Bucket(s, key, d, k)|
    {
      var d := Digit(src[sLo + k], m);
      assert key(s[k]) == d;
      counts[d] := counts[d] + 1;
    }
    assert s == src[sLo..sLo + len] && key == DigitKey(m);
  }

  /** The prefix-sum loop: `offsets[d]` ends as where bucket `d` starts. */
  method PrefixSums(ghost s: seq<Edge>, ghost key: Edge -> nat, counts: array<nat>, offsets: array<nat>)
    requires counts != offsets && counts.Length == RADIX && offsets.Length == RADIX
    requires forall d :: 0 <= d < RADIX ==> counts[d] == |Bucket(s, key, d, |s|)|
    modifies offsets
    ensures forall d :: 0 <= d < RADIX ==> offsets[d] == |Buckets(s, key, d, |s|)|
  {
    var sum := 0;
    for i := 0 to RADIX
      invariant sum == |Buckets(s, key, i, |s|)|
      invariant forall d :: 0 <= d < i ==> offsets[d] == |Buckets(s, key, d, |s|)|
    {
      offsets[i] := sum;
      sum := sum + counts[i];
    }
  }

  /** The scatter loop: each entry goes to the next free place of its bucket's slot. */
  method Scatter(src: array<Edge>, sLo: nat, dst: array<Edge>, dLo: nat, len: nat, m: nat,
                 offsets: array<nat>)
    requires src != dst && m >= 1 && offsets.Length == RADIX
    requires sLo + len <= src.Length && dLo + len <= dst.Length
    requires forall d :: 0 <= d < RADIX ==>
      offsets[d] == |Buckets(src[sLo..sLo + len], DigitKey(m), d, len)|
    modifies dst, offsets
    ensures dst[..dLo] == old(dst[..dLo]) && dst[dLo + len..] == old(dst[dLo + len..])
    ensures dst[dLo..dLo + len] == Pass(src[sLo..sLo + len], m)
  {
    ghost var s := src[sLo..sLo + len];
    ghost var key := DigitKey(m);
    ghost var outside := (dst[..dLo], dst[dLo + len..]);
    DigitKeyBound(s, m);
    ScatterStart(dst[dLo..dLo + len], offsets[..], s, key);
    for k := 0 to len
      invariant Scattering(dst[dLo..dLo + len], offsets[..], s, key, k)
      invariant (dst[..dLo], dst[dLo + len..]) == outside
    {
      ScatterStep(src, sLo, dst, dLo, len, m, offsets, s, k);
    }
    Assemble(dst[dLo..dLo + len], s, m);
  }

  lemma {:induction false} ScatterStart(r: seq<Edge>, offs: seq<nat>, s: seq<Edge>, key: Edge -> nat)
    requires |r| == |s| && |offs| == RADIX
    requires forall d :: 0 <= d < RADIX ==> offs[d] == |Buckets(s, key, d, |s|)|
    ensures Scattering(r, offs, s, key, 0)
  {
    assert forall d :: Bucket(s, key, d, 0) == [];
  }

  /** The scatter loop's state after `k` entries: the picture, and each bucket's next
      free place. */
  ghost predicate Scattering(r: seq<Edge>, offs: seq<nat>, s: seq<Edge>, key: Edge -> nat, k: nat)
  {
    k <= |s| && |r| == |s| && |offs| == RADIX && Placed(r, s, key, k) &&
    forall d :: 0 <= d < RADIX ==> offs[d] == |Buckets(s, key, d, |s|)| + |Bucket(s, key, d, k)|
  }

  lemma DigitKeyBound(s: seq<Edge>, m: nat)
    requires m >= 1
    ensures forall i :: 0 <= i < |s| ==> DigitKey(m)(s[i]) < RADIX
  {
  }

  /** One step of the scatter loop: entry `k` is written at its bucket's next free
      place, which then moves on by one. */
  method ScatterStep(src: array<Edge>, sLo: nat, dst: array<Edge>, dLo: nat, len: nat, m: nat,
                     offsets: array<nat>, ghost s: seq<Edge>, k: nat)
    requires src != dst && m >= 1
    requires sLo + len <= src.Length && dLo + len <= dst.Length && s == src[sLo..sLo + len] && k < len
    requires forall i :: 0 <= i < |s| ==> DigitKey(m)(s[i]) < RADIX
    requires Scattering(dst[dLo..dLo + len], offsets[..], s, DigitKey(m), k)
    modifies dst, offsets
    ensures Scattering(dst[dLo..dLo + len], offsets[..], s, DigitKey(m), k + 1)
    ensures dst[..dLo] == old(dst[..dLo]) && dst[dLo + len..] == old(dst[dLo + len..])
  {
    ghost var key := DigitKey(m);
    var e := src[sLo + k];
    var d := Digit(e, m);
    assert key(s[k]) == d;
    assert offsets[d] == offsets[..][d];
    var pos := offsets[d];
    WriteEntry(dst, dLo, len, s, key, k, e, pos);
    offsets[d] := pos + 1;
    CountStep(s, key, k);
    forall d' | 0 <= d' < RADIX
      ensures offsets[..][d'] == |Buckets(s, key, d', |s|)| + |Bucket(s, key, d', k + 1)|
    {
      assert offsets[..][d'] == offsets[d'];
    }
  }

  /** Taking in entry `k` grows its own bucket by one and no other. */
  lemma {:induction false} CountStep(s: seq<Edge>, key: Edge -> nat, k: nat)
    requires k < |s|
    ensures forall d ::
      |Bucket(s, key, d, k + 1)| == |Bucket(s, key, d, k)| + (if key(s[k]) == d then 1 else 0)
  {
  }

  /** The write of one scatter step keeps the picture, one entry further. */
  method WriteEntry(dst: array<Edge>, dLo: nat, len: nat, ghost s: seq<Edge>, ghost key: Edge -> nat,
                    k: nat, e: Edge, pos: nat)
    requires dLo + len <= dst.Length && |s| == len && k < len && e == s[k]
    requires forall i :: 0 <= i < |s| ==> key(s[i]) < RADIX
    requires Placed(dst[dLo..dLo + len], s, key, k)
    requires pos == |Buckets(s, key, key(s[k]), len)| + |Bucket(s, key, key(s[k]), k)|
    modifies dst
    ensures pos < len
    ensures dst[..dLo] == old(dst[..dLo]) && dst[dLo + len..] == old(dst[dLo + len..])
    ensures Placed(dst[dLo..dLo + len], s, key, k + 1)
  {
    PlacedStep(dst[dLo..dLo + len], s, key, k, pos);
    ghost var before := dst[dLo..dLo + len];
    dst[dLo + pos] := e;
    assert dst[dLo..dLo + len] == before[pos := e];
  }

  function RadixPower(k: nat): nat
  {
    if k == 0 then 1 else RADIX * RadixPower(k - 1)
  }

  /** Sorted below place 2^64 means sorted, for 64-bit distances. */
  lemma SortedFull(s: seq<Edge>)
    requires SortedLow(s, U64_LIMIT)
    requires forall k :: 0 <= k < |s| ==> s[k].dist < U64_LIMIT
    ensures ByDist(s)
  {
  }

  /** What the passes so far have achieved: the same edges, sorted below place `m`. */
  ghost predicate Progress(cur: seq<Edge>, input: seq<Edge>, m: nat)
  {
    m >= 1 && multiset(cur) == multiset(input) && SortedLow(cur, m)
  }

  /** One more pass sorts one more digit. */
  lemma ProgressStep(prev: seq<Edge>, input: seq<Edge>, m: nat)
    requires Progress(prev, input, m)
    ensures Progress(Pass(prev, m), input, m * RADIX)
  {
    PassPermutation(prev, m);
    PassSorted(prev, m);
  }

  /** After four passes the edges are sorted. */
  lemma ProgressDone(cur: seq<Edge>, input: seq<Edge>)
    requires Progress(cur, input, U64_LIMIT)
    requires forall k :: 0 <= k < |input| ==> input[k].dist < U64_LIMIT
    ensures ByDist(cur)
  {
    forall k | 0 <= k < |cur| ensures cur[k].dist < U64_LIMIT {
      assert cur[k] in multiset(input);
    }
    SortedFull(cur);
  }

  /** One pass of the loop in `radix_sort_edges`: from the edges into the buffer, or
      back, whichever holds the current order. */
  method RadixRound(edges: array<Edge>, lo: nat, hi: nat, buf: array<Edge>, counts: array<nat>,
                    offsets: array<nat>, inBuf: bool, m: nat, ghost prev: seq<Edge>)
    returns (ghost cur: seq<Edge>)
    requires lo <= hi <= edges.Length && buf.Length == hi - lo && m >= 1
    requires edges != buf && counts != offsets && counts.Length == RADIX && offsets.Length == RADIX
    requires prev == if inBuf then buf[..] else edges[lo..hi]
    modifies edges, buf, counts, offsets
    ensures cur == Pass(prev, m)
    ensures cur == if inBuf then edges[lo..hi] else buf[..]
    ensures edges[..lo] == old(edges[..lo]) && edges[hi..] == old(edges[hi..])
  {
    var len := hi - lo;
    if inBuf {
      assert buf[0..len] == prev;
      CountingPass(buf, 0, edges, lo, len, m, counts, offsets);
      cur := edges[lo..hi];
    } else {
      assert edges[lo..lo + len] == prev;
      CountingPass(edges, lo, buf, 0, len, m, counts, offsets);
      assert buf[..] == buf[0..len];
      cur := buf[..];
    }
  }

  /** `radix_sort_edges` on `edges[lo..hi]`. */
  method RadixSort(edges: array<Edge>, lo: nat, hi: nat)
    requires lo <= hi <= edges.Length
    requires forall k :: lo <= k < hi ==> edges[k].dist < U64_LIMIT
    modifies edges
    ensures edges[..lo] == old(edges[..lo]) && edges[hi..] == old(edges[hi..])
    ensures multiset(edges[lo..hi]) == multiset(old(edges[lo..hi]))
    ensures ByDist(edges[lo..hi])
  {
    var len := hi - lo;
    if len <= 1 {
      return;
    }
    var buf := new Edge[len](_ => Edge(0, 0, 0));
    var counts := new nat[RADIX](_ => 0);
    var offsets := new nat[RADIX](_ => 0);
    var inBuf := false;
    var shift := 0;
    var m := 1;
    ghost var passes := 0;
    ghost var input := edges[lo..hi];
    ghost var outside := (edges[..lo], edges[hi..]);
    ghost var cur := input;
    while shift < 64
      invariant shift == 16 * passes && passes <= 4 && m == RadixPower(passes)
      invariant inBuf == (passes == 1 || passes == 3)
      invariant cur == if inBuf then buf[..] else edges[lo..hi]
      invariant (edges[..lo], edges[hi..]) == outside
      invariant Progress(cur, input, m)
    {
      ProgressStep(cur, input, m);
      cur := RadixRound(edges, lo, hi, buf, counts, offsets, inBuf, m, cur);
      inBuf := !inBuf;
      shift := shift + 16;
      m := m * RADIX;
      passes := passes + 1;
    }
    assert !inBuf && m == U64_LIMIT;
    ProgressDone(cur, input);
  }
}
