/** Day 3: from each line of digits pick K of them, in order, so that they spell the
    largest K-digit number.  The source does this with a monotonic stack of digits and
    a budget of `|line| - K` removals; the model proves that the greedy stack always
    yields the largest pick. */
module Day03 {
  import opened Common

  const PART2_DIGITS: nat := 12
  /** Capacity of the fixed digit buffer of the source's `DigitStack`. */
  const STACK_CAP: nat := 128

  /** The two failures a line can raise; the source renders them as messages that
      name the 1-based line number, here kept as the 0-based `line` index. */
  datatype LineError =
    | TooShort(line: nat, need: nat, found: nat)
    | NonDigit(line: nat, byte: char)

  // ---------------------------------------------------------------------------
  // Picks: K positions of a line, strictly increasing
  // ---------------------------------------------------------------------------

  predicate Increasing(t: seq<nat>)
  {
    forall a, b :: 0 <= a < b < |t| ==> t[a] < t[b]
  }

  /** `t` chooses positions of a line of length `n`, in order. */
  predicate IsPick(t: seq<nat>, n: nat)
  {
    Increasing(t) && forall j :: 0 <= j < |t| ==> t[j] < n
  }

  /** The characters of `s` at the positions `t`. */
  function Pick(s: string, t: seq<nat>): (p: string)
    requires forall j :: 0 <= j < |t| ==> t[j] < |s|
    ensures |p| == |t|
    ensures forall j :: 0 <= j < |t| ==> p[j] == s[t[j]]
  {
    seq(|t|, j requires 0 <= j < |t| => s[t[j]])
  }

  /** Positions of an increasing sequence are at least as far apart as their indices. */
  lemma {:induction false} IncreasingSpread(t: seq<nat>, a: nat, b: nat)
    requires Increasing(t) && a <= b < |t|
    ensures t[a] + (b - a) <= t[b]
    decreases b - a
  {
    if a < b {
      IncreasingSpread(t, a + 1, b);
    }
  }

  // ---------------------------------------------------------------------------
  // The greedy stack, as a function of the line
  // ---------------------------------------------------------------------------

  /** The pops one incoming digit `c` causes on the first `m` entries of a stack of
      positions of `s`: while budget `r` remains and the top entry holds a smaller
      digit, drop it and spend one unit.  The result is the entries left and the
      budget left. */
  function PopCount(s: string, st: seq<nat>, m: nat, r: nat, c: char): (res: (nat, nat))
    requires m <= |st| && forall j :: 0 <= j < |st| ==> st[j] < |s|
    ensures res.0 <= m && res.1 <= r && r - res.1 == m - res.0
    ensures forall j :: res.0 <= j < m ==> s[st[j]] < c
    ensures res.1 == 0 || res.0 == 0 || c <= s[st[res.0 - 1]]
    decreases m
  {
    if r > 0 && m > 0 && s[st[m - 1]] < c then PopCount(s, st, m - 1, r - 1, c)
    else (m, r)
  }

  /** One character of the scan: the pops that position `p` causes, then `p` pushed. */
  function Step(s: string, st: seq<nat>, r: nat, p: nat): (res: (seq<nat>, nat))
    requires p < |s| && forall j :: 0 <= j < |st| ==> st[j] < |s|
    ensures 1 <= |res.0| <= |st| + 1 && res.0[|res.0| - 1] == p
    ensures forall j {:trigger res.0[j]} :: 0 <= j < |res.0| - 1 ==> res.0[j] == st[j]
    ensures res.1 <= r && r - res.1 == |st| + 1 - |res.0|
  {
    var popped := PopCount(s, st, |st|, r, s[p]);
    (st[..popped.0] + [p], popped.1)
  }

  /** The stack (as positions of `s`) and the remaining removal budget once the scan,
      now at position `i` with stack `st` and budget `r`, has read the rest of `s`.
      Every digit read is either on the stack or was paid for out of the budget, so
      the final stack holds `K` entries plus whatever budget is left. */
  function ScanFrom(s: string, K: nat, i: nat, st: seq<nat>, r: nat): (res: (seq<nat>, nat))
    requires K <= |s| && i <= |s| && forall j :: 0 <= j < |st| ==> st[j] < |s|
    requires |st| + (|s| - K) == i + r
    ensures |res.0| == K + res.1 && res.1 <= r
    ensures forall j :: 0 <= j < |res.0| ==> res.0[j] < |s|
    decreases |s| - i
  {
    if i == |s| then (st, r)
    else
      var next := Step(s, st, r, i);
      ScanFrom(s, K, i + 1, next.0, next.1)
  }

  /** One step of the scan: reading position `i` and going on from there. */
  lemma ScanFromStep(s: string, K: nat, i: nat, st: seq<nat>, r: nat)
    requires K <= |s| && i < |s| && forall j :: 0 <= j < |st| ==> st[j] < |s|
    requires |st| + (|s| - K) == i + r
    ensures ScanFrom(s, K, i, st, r) == ScanFrom(s, K, i + 1, Step(s, st, r, i).0, Step(s, st, r, i).1)
  {
  }

  /** The positions kept once the whole line is scanned: the stack trimmed to K. */
  function Kept(s: string, K: nat): (t: seq<nat>)
    requires K <= |s|
    ensures |t| == K && forall j :: 0 <= j < K ==> t[j] < |s|
  {
    ScanFrom(s, K, 0, [], |s| - K).0[..K]
  }

  /** The K digits the source's stack spells out at the end. */
  function Greedy(s: string, K: nat): (g: string)
    requires K <= |s|
    ensures |g| == K && (AllDigits(s) ==> AllDigits(g))
  {
    Pick(s, Kept(s, K))
  }

  // ---------------------------------------------------------------------------
  // Invariants of the scan
  // ---------------------------------------------------------------------------

  /** Every position strictly between `lo` and `hi` holds a digit smaller than `c`. */
  predicate SmallerBetween(s: string, lo: int, hi: nat, c: char)
    requires hi <= |s|
  {
    forall q :: 0 <= q && lo < q < hi ==> s[q] < c
  }

  /** Every position after `lo`, before `i`, at which a K-digit pick could still place
      its `j`-th digit holds a digit no larger than `c`. */
  predicate NoLargerInWindow(s: string, K: nat, j: nat, lo: int, i: nat, c: char)
    requires i <= |s|
  {
    forall q :: 0 <= q && lo < q < i && q + K <= |s| + j ==> s[q] <= c
  }

  /** The stack entry below entry `j`, or -1 for the bottom one. */
  function Below(st: seq<nat>, j: nat): int
    requires j < |st|
  {
    if j == 0 then -1 else st[j - 1]
  }

  /** Every position skipped just below a stack entry holds a smaller digit than it. */
  predicate GapsBelow(s: string, st: seq<nat>)
    requires forall j :: 0 <= j < |st| ==> st[j] < |s|
  {
    forall j {:trigger Below(st, j)} :: 0 <= j < |st| ==> SmallerBetween(s, Below(st, j), st[j], s[st[j]])
  }

  /** Every digit read after stack entry `j`, up to the last position at which a K-digit
      pick could still place its `j`-th digit, is no larger than that entry. */
  predicate RightBounded(s: string, K: nat, st: seq<nat>, i: nat)
    requires i <= |s| && forall j :: 0 <= j < |st| ==> st[j] < |s|
  {
    forall j :: 0 <= j < |st| ==> NoLargerInWindow(s, K, j, st[j], i, s[st[j]])
  }

  predicate NonIncreasing(s: string, st: seq<nat>)
    requires forall j :: 0 <= j < |st| ==> st[j] < |s|
  {
    forall a, b :: 0 <= a < b < |st| ==> s[st[b]] <= s[st[a]]
  }

  lemma {:induction false} StepIncreasing(s: string, st: seq<nat>, r: nat, p: nat)
    requires p < |s| && Increasing(st) && forall j :: 0 <= j < |st| ==> st[j] < p
    ensures Increasing(Step(s, st, r, p).0)
  {
    var st' := Step(s, st, r, p).0;
    forall a, b | 0 <= a < b < |st'| ensures st'[a] < st'[b] {
      assert st'[a] == st[a];
      if b < |st'| - 1 {
        assert st'[b] == st[b];
      }
    }
  }

  lemma {:induction false} StepNonIncreasing(s: string, st: seq<nat>, r: nat, p: nat)
    requires p < |s| && forall j :: 0 <= j < |st| ==> st[j] < |s|
    requires r > 0 ==> NonIncreasing(s, st)
    ensures Step(s, st, r, p).1 > 0 ==> NonIncreasing(s, Step(s, st, r, p).0)
  {
    var popped := PopCount(s, st, |st|, r, s[p]);
    var m := popped.0;
    var st' := st[..m] + [p];
    assert Step(s, st, r, p) == (st', popped.1);
    if popped.1 > 0 {
      forall a, b | 0 <= a < b < |st'| ensures s[st'[b]] <= s[st'[a]] {
        assert st'[a] == st[a];
        if b < m {
          assert st'[b] == st[b];
        } else {
          assert s[st'[b]] == s[p] <= s[st[m - 1]];
        }
      }
    }
  }

  /** A position between two stack entries lies in the gap below some later entry. */
  lemma {:induction false} GapOwner(st: seq<nat>, m: nat, q: nat) returns (x: nat)
    requires Increasing(st) && m < |st|
    requires (m == 0 || st[m - 1] < q) && q <= st[|st| - 1]
    ensures m <= x < |st| && q <= st[x] && (x == 0 || st[x - 1] < q)
    decreases |st| - m
  {
    if q <= st[m] {
      x := m;
    } else {
      x := GapOwner(st, m + 1, q);
    }
  }

  /** After popping the entries from `m` on, all smaller than `s[p]`, every position
      between the entry left below and `p` holds a smaller digit than `s[p]`: it was
      popped, or skipped below an entry that was popped. */
  lemma {:induction false} GapBelowPushed(s: string, st: seq<nat>, m: nat, p: nat)
    requires p < |s| && m < |st| && Increasing(st)
    requires forall j :: 0 <= j < |st| ==> st[j] < p
    requires st[|st| - 1] + 1 == p
    requires GapsBelow(s, st)
    requires forall j :: m <= j < |st| ==> s[st[j]] < s[p]
    ensures SmallerBetween(s, Below(st, m), p, s[p])
  {
    forall q | 0 <= q && Below(st, m) < q < p ensures s[q] < s[p] {
      var x := GapOwner(st, m, q);
      assert Below(st, x) < q;
      assert SmallerBetween(s, Below(st, x), st[x], s[st[x]]);
      assert s[st[x]] < s[p];
    }
  }

  /** Pushing `p` after popping the entries from `m` on, all smaller than `s[p]`, keeps
      every gap below its entry. */
  lemma {:induction false} GapsPush(s: string, st: seq<nat>, m: nat, p: nat)
    requires p < |s| && m <= |st| && Increasing(st)
    requires forall j :: 0 <= j < |st| ==> st[j] < p
    requires |st| > 0 ==> st[|st| - 1] + 1 == p
    requires |st| == 0 ==> p == 0
    requires GapsBelow(s, st)
    requires forall j :: m <= j < |st| ==> s[st[j]] < s[p]
    ensures GapsBelow(s, st[..m] + [p])
  {
    var st' := st[..m] + [p];
    if m < |st| {
      GapBelowPushed(s, st, m, p);
    }
    forall j | 0 <= j < |st'| ensures SmallerBetween(s, Below(st', j), st'[j], s[st'[j]]) {
      if j < m {
        assert st'[j] == st[j] && Below(st', j) == Below(st, j);
      } else {
        assert st'[j] == p && j == m;
        if m < |st| {
          assert Below(st', j) == Below(st, m);
        } else {
          // nothing lies between the previous top and p
          assert Below(st', j) + 1 == p;
        }
      }
    }
  }

  lemma {:induction false} StepGaps(s: string, st: seq<nat>, r: nat, p: nat)
    requires p < |s| && Increasing(st)
    requires forall j :: 0 <= j < |st| ==> st[j] < p
    requires |st| > 0 ==> st[|st| - 1] + 1 == p
    requires |st| == 0 ==> p == 0
    requires GapsBelow(s, st)
    ensures GapsBelow(s, Step(s, st, r, p).0)
  {
    var popped := PopCount(s, st, |st|, r, s[p]);
    var m := popped.0;
    assert Step(s, st, r, p).0 == st[..m] + [p];
    GapsPush(s, st, m, p);
  }

  /** Pushing `p` keeps the right bound: either the budget is spent, so every earlier
      entry's window closes before `p`, or the pops stopped at an entry no smaller than
      `s[p]` on a stack whose digits do not increase. */
  lemma {:induction false} RightPush(s: string, K: nat, st: seq<nat>, m: nat, p: nat, r: nat)
    requires p < |s| && K <= |s| && m <= |st|
    requires forall j :: 0 <= j < |st| ==> st[j] < p
    requires RightBounded(s, K, st, p)
    requires r == 0 ==> m + (|s| - K) == p
    requires r > 0 ==> NonIncreasing(s, st) && (m == 0 || s[p] <= s[st[m - 1]])
    ensures RightBounded(s, K, st[..m] + [p], p + 1)
  {
    var st' := st[..m] + [p];
    forall j | 0 <= j < |st'| ensures NoLargerInWindow(s, K, j, st'[j], p + 1, s[st'[j]]) {
      if j < m {
        assert st'[j] == st[j];
        assert NoLargerInWindow(s, K, j, st[j], p, s[st[j]]);
        if p + K <= |s| + j {
          // the budget is left: the pops stopped at a digit no smaller than s[p]
          assert r > 0;
          assert s[st[m - 1]] <= s[st[j]];
        }
      }
    }
  }

  lemma {:induction false} StepRightBounded(s: string, K: nat, st: seq<nat>, r: nat, p: nat)
    requires p < |s| && K <= |s|
    requires forall j :: 0 <= j < |st| ==> st[j] < p
    requires RightBounded(s, K, st, p)
    requires r > 0 ==> NonIncreasing(s, st)
    requires |st| + (|s| - K) == p + r
    ensures RightBounded(s, K, Step(s, st, r, p).0, p + 1)
  {
    var popped := PopCount(s, st, |st|, r, s[p]);
    var m := popped.0;
    assert Step(s, st, r, p) == (st[..m] + [p], popped.1);
    RightPush(s, K, st, m, p, popped.1);
  }

  /** What holds of the stack `st` and budget `r` after the first `i` characters. */
  predicate Inv(s: string, K: nat, i: nat, st: seq<nat>, r: nat)
  {
    && K <= |s| && i <= |s| && r <= |s| - K && |st| + (|s| - K) == i + r
    && (forall j :: 0 <= j < |st| ==> st[j] < i)
    && Increasing(st)
    && (i > 0 ==> |st| > 0 && st[|st| - 1] + 1 == i)
    && (i == 0 ==> |st| == 0)
    && (r > 0 ==> NonIncreasing(s, st))
    && GapsBelow(s, st)
    && RightBounded(s, K, st, i)
  }

  /** The invariant holds at the start and survives every character. */
  lemma {:induction false} StepInv(s: string, K: nat, i: nat, st: seq<nat>, r: nat)
    requires Inv(s, K, i, st, r) && i < |s|
    ensures Inv(s, K, i + 1, Step(s, st, r, i).0, Step(s, st, r, i).1)
  {
    var next := Step(s, st, r, i);
    StepIncreasing(s, st, r, i);
    StepNonIncreasing(s, st, r, i);
    StepGaps(s, st, r, i);
    StepRightBounded(s, K, st, r, i);
    assert forall j :: 0 <= j < |next.0| ==> next.0[j] < i + 1;
  }

  /** Trimming the final stack to K entries keeps the window property. */
  lemma {:induction false} TrimWindowed(s: string, K: nat, st: seq<nat>, r: nat)
    requires Inv(s, K, |s|, st, r)
    ensures Windowed(s, K, st[..K])
  {
    var kept := st[..K];
    assert forall j :: 0 <= j < K ==> kept[j] == st[j];
    forall j | 0 <= j < K
      ensures SmallerBetween(s, Below(kept, j), kept[j], s[kept[j]])
      ensures NoLargerInWindow(s, K, j, kept[j], |s|, s[kept[j]])
    {
      assert Below(kept, j) == Below(st, j);
    }
  }

  /** The stack the scan ends with, trimmed to K, is windowed. */
  lemma {:induction false} ScanWindowed(s: string, K: nat, i: nat, st: seq<nat>, r: nat)
    requires Inv(s, K, i, st, r)
    ensures Windowed(s, K, ScanFrom(s, K, i, st, r).0[..K])
    decreases |s| - i
  {
    if i == |s| {
      assert ScanFrom(s, K, i, st, r) == (st, r);
      TrimWindowed(s, K, st, r);
    } else {
      var next := Step(s, st, r, i);
      StepInv(s, K, i, st, r);
      assert ScanFrom(s, K, i, st, r) == ScanFrom(s, K, i + 1, next.0, next.1);
      ScanWindowed(s, K, i + 1, next.0, next.1);
    }
  }

  // ---------------------------------------------------------------------------
  // The greedy pick is the largest
  // ---------------------------------------------------------------------------

  /** Equal-length digit strings compare by their first difference. */
  lemma {:induction false} FirstDifference(a: string, b: string, x: nat)
    requires AllDigits(a) && AllDigits(b) && |a| == |b| && x < |a|
    requires forall y :: 0 <= y < x ==> a[y] == b[y]
    requires a[x] < b[x]
    ensures DecimalValue(a) < DecimalValue(b)
    decreases |a|
  {
    var n := |a|;
    var a', b' := a[..n - 1], b[..n - 1];
    assert DecimalValue(a) == DecimalValue(a') * 10 + DigitValue(a[n - 1]);
    assert DecimalValue(b) == DecimalValue(b') * 10 + DigitValue(b[n - 1]);
    if x == n - 1 {
      assert a' == b';
    } else {
      FirstDifference(a', b', x);
    }
  }

  /** The positions `kept` satisfy the window property the scan establishes: each
      entry beats everything skipped in front of it and ties or beats everything after
      it up to the last position a K-digit pick could still use. */
  predicate Windowed(s: string, K: nat, kept: seq<nat>)
  {
    && |kept| == K && IsPick(kept, |s|)
    && GapsBelow(s, kept) && RightBounded(s, K, kept, |s|)
  }

  /** Position `j` of a pick that agrees with a windowed `kept` before `j`, and is not
      behind it there, holds no larger digit than `kept[j]`, and a smaller one when it
      lies in front of `kept[j]`. */
  lemma PickDigitBounded(s: string, K: nat, kept: seq<nat>, t: seq<nat>, j: nat)
    requires AllDigits(s) && Windowed(s, K, kept)
    requires |t| == K && IsPick(t, |s|) && j < K
    requires j > 0 ==> kept[j - 1] <= t[j - 1]
    ensures s[t[j]] <= s[kept[j]]
    ensures t[j] < kept[j] ==> s[t[j]] < s[kept[j]]
  {
    IncreasingSpread(t, j, K - 1);
    assert j == 0 || t[j - 1] < t[j];
    if t[j] < kept[j] {
      // t[j] is skipped below kept[j]
      assert Below(kept, j) < t[j];
      assert SmallerBetween(s, Below(kept, j), kept[j], s[kept[j]]);
    } else if kept[j] < t[j] {
      // t[j] comes after kept[j], inside its window
      assert t[j] + K <= |s| + j;
      assert NoLargerInWindow(s, K, j, kept[j], |s|, s[kept[j]]);
    }
  }

  /** A scan that has read the whole line leaves `Kept` at the bottom of its stack. */
  lemma {:induction false} KeptIsScanned(s: string, K: nat, st: seq<nat>, r: nat)
    requires K <= |s| && (st, r) == ScanFrom(s, K, 0, [], |s| - K)
    ensures |st| == K + r && st[..K] == Kept(s, K)
  {
  }

  /** Any pick agreeing with a windowed `kept` on its first `j` digits, and not behind
      it in position, is no larger in value. */
  lemma {:induction false} WindowedBeatsPick(s: string, K: nat, kept: seq<nat>, t: seq<nat>, j: nat)
    requires AllDigits(s) && Windowed(s, K, kept)
    requires |t| == K && IsPick(t, |s|) && j <= K
    requires forall y :: 0 <= y < j ==> s[t[y]] == s[kept[y]]
    requires j > 0 ==> kept[j - 1] <= t[j - 1]
    ensures DecimalValue(Pick(s, t)) <= DecimalValue(Pick(s, kept))
    decreases K - j
  {
    var a, b := Pick(s, t), Pick(s, kept);
    if j == K {
      assert a == b;
    } else {
      PickDigitBounded(s, K, kept, t, j);
      if s[t[j]] < s[kept[j]] {
        FirstDifference(a, b, j);
      } else {
        WindowedBeatsPick(s, K, kept, t, j + 1);
      }
    }
  }

  /** The greedy stack's K digits form the largest number spelled by any K digits of
      the line taken in order, and they are themselves such a pick. */
  lemma GreedyIsLargest(s: string, K: nat)
    requires AllDigits(s) && K <= |s|
    ensures AllDigits(Greedy(s, K))
    ensures exists t :: |t| == K && IsPick(t, |s|) && Greedy(s, K) == Pick(s, t)
    ensures forall t :: |t| == K && IsPick(t, |s|) ==> DecimalValue(Pick(s, t)) <= DecimalValue(Greedy(s, K))
  {
    ScanWindowed(s, K, 0, [], |s| - K);
    var kept := Kept(s, K);
    assert Greedy(s, K) == Pick(s, kept);
    forall t | |t| == K && IsPick(t, |s|)
      ensures DecimalValue(Pick(s, t)) <= DecimalValue(Greedy(s, K))
    {
      WindowedBeatsPick(s, K, kept, t, 0);
    }
  }

  // ---------------------------------------------------------------------------
  // A line that never rises fills the stack: the fixed buffer overflows
  // ---------------------------------------------------------------------------

  /** The positions `0, 1, ..., i - 1`. */
  function Upto(i: nat): (t: seq<nat>)
    ensures |t| == i && forall j :: 0 <= j < i ==> t[j] == j
  {
    seq(i, j => j)
  }

  /** One more position at the end. */
  lemma UptoSnoc(n: nat)
    ensures Upto(n) + [n] == Upto(n + 1)
  {
    assert forall j | 0 <= j <= n :: (Upto(n) + [n])[j] == j;
  }

  /** On a line of one repeated digit, reading position `p` pops nothing. */
  lemma FlatStep(s: string, r: nat, p: nat)
    requires p < |s| && forall a :: 0 <= a < |s| ==> s[a] == s[0]
    ensures Step(s, Upto(p), r, p) == (Upto(p + 1), r)
  {
    var st := Upto(p);
    assert PopCount(s, st, |st|, r, s[p]) == (|st|, r);
    assert st[..|st|] == st;
    UptoSnoc(p);
  }

  /** On a line of one repeated digit nothing is ever popped: after `i` characters the
      stack holds all of them and the budget is untouched. */
  lemma {:induction false} FlatLineKeepsAll(s: string, K: nat, i: nat)
    requires K <= |s| && i <= |s| && forall a :: 0 <= a < |s| ==> s[a] == s[0]
    ensures ScanFrom(s, K, i, Upto(i), |s| - K) == ScanFrom(s, K, 0, [], |s| - K)
  {
    if i > 0 {
      FlatLineKeepsAll(s, K, i - 1);
      FlatScanStep(s, K, i - 1);
    } else {
      assert Upto(0) == [];
    }
  }

  /** On a line of one repeated digit, scanning on from position `p` with all of the
      first `p` positions kept is scanning on from `p + 1` with all of the first `p + 1`. */
  lemma FlatScanStep(s: string, K: nat, p: nat)
    requires K <= |s| && p < |s| && forall a :: 0 <= a < |s| ==> s[a] == s[0]
    ensures ScanFrom(s, K, p, Upto(p), |s| - K) == ScanFrom(s, K, p + 1, Upto(p + 1), |s| - K)
  {
    FlatStep(s, |s| - K, p);
    ScanFromStep(s, K, p, Upto(p), |s| - K);
  }

  /** A line of 129 nines drives the stack to `STACK_CAP` entries with a digit still to
      push, so the source's next write lands one past its fixed `STACK_CAP`-digit buffer
      (`DigitStack.Push` needs `len < buf.Length`). */
  lemma FixedBufferOverflows()
    ensures var s := seq(STACK_CAP + 1, _ => '9');
      && AllDigits(s)
      && ScanFrom(s, 2, STACK_CAP, Upto(STACK_CAP), |s| - 2) == ScanFrom(s, 2, 0, [], |s| - 2)
      && |Upto(STACK_CAP)| == STACK_CAP < |s|
      && Step(s, Upto(STACK_CAP), |s| - 2, STACK_CAP) == (Upto(STACK_CAP + 1), |s| - 2)
  {
    var s := seq(STACK_CAP + 1, _ => '9');
    FlatLineKeepsAll(s, 2, STACK_CAP);
    FlatStep(s, |s| - 2, STACK_CAP);
  }

  // ---------------------------------------------------------------------------
  // The digit stack
  // ---------------------------------------------------------------------------

  /** The source's reusable stack of digits: a buffer and the number of entries in use. */
  class DigitStack {
    var buf: array<int>
    var len: nat

    /** An empty stack over a zeroed buffer of `STACK_CAP` digits. */
    constructor ()
      ensures fresh(buf) && buf.Length == STACK_CAP && len == 0
      ensures forall j :: 0 <= j < buf.Length ==> buf[j] == 0
    {
      buf := new int[STACK_CAP](_ => 0);
      len := 0;
    }

    method Reset()
      modifies this
      ensures len == 0 && buf == old(buf)
    {
      len := 0;
    }

    /** Makes room for `n` digits.  The source keeps the buffer at `STACK_CAP`, which a
        line of more than `STACK_CAP` digits can overflow (see `FixedBufferOverflows`). */
    method Reserve(n: nat)
      modifies this
      ensures n <= buf.Length && len == old(len)
      ensures buf == old(buf) || fresh(buf)
    {
      if buf.Length < n {
        buf := new int[n];
      }
    }

    /** The entries are the digits of `s` at the positions `st`, bottom first. */
    ghost predicate Holds(s: string, st: seq<nat>)
      reads this, buf
    {
      && len == |st| <= buf.Length
      && forall j :: 0 <= j < |st| ==> st[j] < |s| && IsDigit(s[st[j]]) && buf[j] == DigitValue(s[st[j]])
    }

    /** The pops the digit `d`, found at position `p` of `s`, causes: while budget
        remains and the top digit is smaller than `d`, drop it and spend one unit.  The
        ghost sequence `st` names the positions of `s` the entries came from. */
    method PopSmaller(d: int, remove: nat, ghost s: string, ghost st: seq<nat>, ghost p: nat)
      returns (remove': nat)
      requires p < |s| && IsDigit(s[p]) && d == DigitValue(s[p])
      requires Holds(s, st)
      modifies this
      ensures (len, remove') == PopCount(s, st, |st|, remove, s[p])
      ensures buf == old(buf)
    {
      remove' := remove;
      while remove' > 0 && len > 0 && buf[len - 1] < d
        invariant len <= |st| && buf == old(buf)
        invariant PopCount(s, st, len, remove', s[p]) == PopCount(s, st, |st|, remove, s[p])
      {
        assert s[st[len - 1]] < s[p];
        len := len - 1;
        remove' := remove' - 1;
      }
    }

    /** Reads the digit `d` found at position `p` of `s`: the pops it causes, then `d`
        pushed on top. */
    method Push(d: int, remove: nat, ghost s: string, ghost st: seq<nat>, ghost p: nat)
      returns (remove': nat, ghost st': seq<nat>)
      requires p < |s| && IsDigit(s[p]) && d == DigitValue(s[p])
      requires Holds(s, st) && len < buf.Length
      modifies this, buf
      ensures (st', remove') == Step(s, st, remove, p)
      ensures buf == old(buf) && Holds(s, st')
    {
      remove' := PopSmaller(d, remove, s, st, p);
      st' := st[..len] + [p];
      buf[len] := d;
      len := len + 1;
    }

    /** The final trim: the top `n` entries, the budget never spent, are dropped. */
    method Trim(n: nat, ghost s: string, ghost st: seq<nat>)
      requires Holds(s, st) && n <= |st|
      modifies this
      ensures buf == old(buf) && Holds(s, st[..|st| - n])
    {
      len := len - n;
    }

    /** The stack is the scan of `s` for `K` digits, `p` positions in, with budget `r`
        left, on its way to the final state `goal`. */
    ghost predicate Scanning(s: string, K: nat, p: nat, st: seq<nat>, r: nat, goal: (seq<nat>, nat))
      reads this, buf
    {
      && Holds(s, st) && K <= |s| <= buf.Length && p <= |s| && r <= |s| - K
      && |st| + (|s| - K) == p + r
      && ScanFrom(s, K, p, st, r) == goal
    }

    /** `Push`, seen as one step of the scan towards `goal`. */
    method ReadDigit(d: int, remove: nat, ghost s: string, ghost K: nat, ghost st: seq<nat>, ghost p: nat,
                     ghost goal: (seq<nat>, nat))
      returns (remove': nat, ghost st': seq<nat>)
      requires p < |s| && IsDigit(s[p]) && d == DigitValue(s[p])
      requires Scanning(s, K, p, st, remove, goal)
      modifies this, buf
      ensures buf == old(buf) && Scanning(s, K, p + 1, st', remove', goal)
    {
      ScanFromStep(s, K, p, st, remove);
      remove', st' := Push(d, remove, s, st, p);
    }
  }

  // ---------------------------------------------------------------------------
  // One line
  // ---------------------------------------------------------------------------

  /** The answer for one line when K digits are picked: too short, a non-digit (the
      first one, as the scan meets it), or the value of the greedy pick. */
  function LinePick(line: string, idx: nat, K: nat): Result<nat, LineError>
  {
    if |line| < K then Err(TooShort(idx, K, |line|))
    else
      var k := FirstNonDigit(line, 0);
      if k < |line| then Err(NonDigit(idx, line[k]))
      else Ok(DecimalValue(Greedy(line, K)))
  }

  /** What `LinePick` means: a line fails exactly when it is too short or holds a
      non-digit, and otherwise yields the largest value of any K of its digits taken
      in order. */
  lemma LinePickIsLargest(line: string, idx: nat, K: nat)
    ensures LinePick(line, idx, K).Ok? <==> K <= |line| && AllDigits(line)
    ensures |line| < K ==> LinePick(line, idx, K) == Err(TooShort(idx, K, |line|))
    ensures K <= |line| && !AllDigits(line) ==>
      exists j :: 0 <= j < |line| && !IsDigit(line[j]) && AllDigits(line[..j])
        && LinePick(line, idx, K) == Err(NonDigit(idx, line[j]))
    ensures LinePick(line, idx, K).Ok? ==>
      && (exists t :: |t| == K && IsPick(t, |line|) && LinePick(line, idx, K).value == DecimalValue(Pick(line, t)))
      && (forall t :: |t| == K && IsPick(t, |line|) ==> DecimalValue(Pick(line, t)) <= LinePick(line, idx, K).value)
  {
    if K <= |line| {
      var k := FirstNonDigit(line, 0);
      if k < |line| {
        assert AllDigits(line[..k]);
      } else {
        GreedyIsLargest(line, K);
      }
    }
  }

  /** The value of a digit string read from the left, one digit at a time. */
  lemma DecimalValueStep(g: string, x: nat)
    requires AllDigits(g) && x < |g|
    ensures AllDigits(g[..x]) && AllDigits(g[..x + 1])
    ensures DecimalValue(g[..x + 1]) == DecimalValue(g[..x]) * 10 + DigitValue(g[x])
  {
    assert g[..x + 1][..x] == g[..x];
  }

  /** The number the stack's entries spell, bottom digit first: the digits of `s` at
      the positions `kept`. */
  method ReadValue(stack: DigitStack, ghost s: string, ghost kept: seq<nat>) returns (value: nat)
    requires stack.Holds(s, kept)
    ensures AllDigits(Pick(s, kept)) && value == DecimalValue(Pick(s, kept))
  {
    ghost var g := Pick(s, kept);
    value := 0;
    var x := 0;
    while x < stack.len
      invariant x <= stack.len
      invariant value == DecimalValue(g[..x])
    {
      DecimalValueStep(g, x);
      value := value * 10 + stack.buf[x];
      x := x + 1;
    }
    assert g[..x] == g;
  }

  /** The number a stack of two entries spells, read directly. */
  method ReadTwo(stack: DigitStack, ghost s: string, ghost kept: seq<nat>) returns (value: nat)
    requires stack.Holds(s, kept) && |kept| == 2
    ensures AllDigits(Pick(s, kept)) && value == DecimalValue(Pick(s, kept))
  {
    ghost var g := Pick(s, kept);
    TwoDigitValue(g);
    value := stack.buf[0] * 10 + stack.buf[1];
  }

  /** Feeds the digits of `line` to the stack, stopping at the first non-digit; a
      line read to its end leaves the stack and the budget where the scan ends. */
  method Feed(line: string, K: nat, stack: DigitStack) returns (k: nat, remove: nat, ghost st: seq<nat>)
    requires K <= |line| <= stack.buf.Length && stack.len == 0
    modifies stack, stack.buf
    ensures stack.buf == old(stack.buf) && k == FirstNonDigit(line, 0)
    ensures k == |line| ==> stack.Holds(line, st) && |st| == K + remove && st[..K] == Kept(line, K)
  {
    remove := |line| - K;
    st := [];
    k := 0;
    ghost var goal := ScanFrom(line, K, 0, [], |line| - K);
    while k < |line|
      invariant k <= |line| && stack.buf == old(stack.buf)
      invariant stack.Scanning(line, K, k, st, remove, goal)
      invariant AllDigits(line[..k])
    {
      var b := line[k];
      if !IsDigit(b) {
        FirstNonDigitAt(line, 0, k);
        return;
      }
      AllDigitsSnoc(line, k);
      remove, st := stack.ReadDigit(DigitValue(b), remove, line, K, st, k, goal);
      k := k + 1;
    }
    FirstNonDigitAt(line, 0, k);
    KeptIsScanned(line, K, st, remove);
  }

  /** Runs the stack over one line (the source's `max_number_from_line_pick`). */
  method MaxNumberFromLinePick(line: string, lineIdx: nat, K: nat, stack: DigitStack)
    returns (r: Result<nat, LineError>)
    modifies stack, stack.buf
    ensures r == LinePick(line, lineIdx, K)
    ensures stack.buf == old(stack.buf) || fresh(stack.buf)
  {
    if |line| < K {
      return Err(TooShort(lineIdx, K, |line|));
    }
    stack.Reset();
    stack.Reserve(|line|);
    var k, remove, st := Feed(line, K, stack);
    if k < |line| {
      return Err(NonDigit(lineIdx, line[k]));
    }
    stack.Trim(remove, line, st);
    ghost var kept := st[..K];
    var value := ReadValue(stack, line, kept);
    return Ok(value);
  }

  // ---------------------------------------------------------------------------
  // Both picks at once (the source's `max_numbers_from_line`)
  // ---------------------------------------------------------------------------

  /** Both answers for one line: it must hold 2 characters and then `PART2_DIGITS`
      (so the shorter requirement is reported first), and then only digits. */
  function LineBoth(line: string, idx: nat): Result<(nat, nat), LineError>
  {
    if |line| < 2 then Err(TooShort(idx, 2, |line|))
    else if |line| < PART2_DIGITS then Err(TooShort(idx, PART2_DIGITS, |line|))
    else
      var v2 :- LinePick(line, idx, 2);
      var v12 :- LinePick(line, idx, PART2_DIGITS);
      Ok((v2, v12))
  }

  /** A line passes both picks exactly when it passes the longer one, and then it
      yields both picks' values; a failure is the longer pick's failure, except that a
      line of under 2 characters is reported against 2. */
  lemma LineBothIsPicks(line: string, idx: nat)
    ensures LineBoth(line, idx).Ok? <==> LinePick(line, idx, PART2_DIGITS).Ok?
    ensures LineBoth(line, idx).Ok? ==>
      LineBoth(line, idx).value == (LinePick(line, idx, 2).value, LinePick(line, idx, PART2_DIGITS).value)
    ensures 2 <= |line| ==> LineBoth(line, idx).Err? ==>
      LineBoth(line, idx).error == LinePick(line, idx, PART2_DIGITS).error
    ensures |line| < 2 ==> LineBoth(line, idx) == Err(TooShort(idx, 2, |line|))
  {
    LinePickIsLargest(line, idx, 2);
    LinePickIsLargest(line, idx, PART2_DIGITS);
  }

  /** A line of 2 to 11 digits has an answer for two picks, yet the single pass over
      both parts rejects it. */
  lemma BothRejectsShortLines(line: string, idx: nat)
    requires AllDigits(line) && 2 <= |line| < PART2_DIGITS
    ensures LinePick(line, idx, 2).Ok?
    ensures LineBoth(line, idx) == Err(TooShort(idx, PART2_DIGITS, |line|))
  {
    LinePickIsLargest(line, idx, 2);
  }

  /** The value of a two-digit string. */
  lemma {:induction false} TwoDigitValue(g: string)
    requires AllDigits(g) && |g| == 2
    ensures DecimalValue(g) == DigitValue(g[0]) * 10 + DigitValue(g[1])
  {
    assert g[..1][..0] == [];
    assert DecimalValue(g[..1]) == DigitValue(g[0]);
    assert DecimalValue(g) == DecimalValue(g[..1]) * 10 + DigitValue(g[1]);
  }

  /** A line of at least `PART2_DIGITS` digits passes both picks. */
  lemma {:induction false} LineBothOk(line: string, idx: nat)
    requires PART2_DIGITS <= |line| && FirstNonDigit(line, 0) == |line|
    ensures AllDigits(line) && AllDigits(Greedy(line, 2)) && AllDigits(Greedy(line, PART2_DIGITS))
    ensures LineBoth(line, idx) == Ok((DecimalValue(Greedy(line, 2)), DecimalValue(Greedy(line, PART2_DIGITS))))
  {
    GreedyIsLargest(line, 2);
    GreedyIsLargest(line, PART2_DIGITS);
  }

  /** One digit pushed onto both stacks. */
  method ReadBoth(d: int, stack2: DigitStack, stack12: DigitStack, remove2: nat, remove12: nat, ghost line: string,
                  ghost st2: seq<nat>, ghost st12: seq<nat>, ghost k: nat, ghost goal2: (seq<nat>, nat),
                  ghost goal12: (seq<nat>, nat))
    returns (remove2': nat, remove12': nat, ghost st2': seq<nat>, ghost st12': seq<nat>)
    requires stack2 != stack12 && stack2.buf != stack12.buf
    requires k < |line| && IsDigit(line[k]) && d == DigitValue(line[k])
    requires stack2.Scanning(line, 2, k, st2, remove2, goal2)
    requires stack12.Scanning(line, PART2_DIGITS, k, st12, remove12, goal12)
    modifies stack2, stack2.buf, stack12, stack12.buf
    ensures stack2.buf == old(stack2.buf) && stack12.buf == old(stack12.buf)
    ensures stack2.Scanning(line, 2, k + 1, st2', remove2', goal2)
    ensures stack12.Scanning(line, PART2_DIGITS, k + 1, st12', remove12', goal12)
  {
    remove2', st2' := stack2.ReadDigit(d, remove2, line, 2, st2, k, goal2);
    remove12', st12' := stack12.ReadDigit(d, remove12, line, PART2_DIGITS, st12, k, goal12);
  }

  method FeedBoth(line: string, stack2: DigitStack, stack12: DigitStack)
    returns (k: nat, remove2: nat, remove12: nat, ghost st2: seq<nat>, ghost st12: seq<nat>)
    requires stack2 != stack12 && stack2.buf != stack12.buf
    requires PART2_DIGITS <= |line| <= stack2.buf.Length && |line| <= stack12.buf.Length
    requires stack2.len == 0 && stack12.len == 0
    modifies stack2, stack2.buf, stack12, stack12.buf
    ensures stack2.buf == old(stack2.buf) && stack12.buf == old(stack12.buf)
    ensures k == FirstNonDigit(line, 0)
    ensures k == |line| ==> stack2.Holds(line, st2) && |st2| == 2 + remove2 && st2[..2] == Kept(line, 2)
    ensures k == |line| ==>
      stack12.Holds(line, st12) && |st12| == PART2_DIGITS + remove12 && st12[..PART2_DIGITS] == Kept(line, PART2_DIGITS)
  {
    remove2, remove12 := |line| - 2, |line| - PART2_DIGITS;
    st2, st12 := [], [];
    k := 0;
    ghost var goal2 := ScanFrom(line, 2, 0, [], |line| - 2);
    ghost var goal12 := ScanFrom(line, PART2_DIGITS, 0, [], |line| - PART2_DIGITS);
    while k < |line| && IsDigit(line[k])
      invariant k <= |line| && stack2.buf == old(stack2.buf) && stack12.buf == old(stack12.buf)
      invariant stack2.Scanning(line, 2, k, st2, remove2, goal2)
      invariant stack12.Scanning(line, PART2_DIGITS, k, st12, remove12, goal12)
      invariant AllDigits(line[..k])
    {
      AllDigitsSnoc(line, k);
      remove2, remove12, st2, st12 := ReadBoth(DigitValue(line[k]), stack2, stack12, remove2, remove12, line, st2, st12, k, goal2, goal12);
      k := k + 1;
    }
    FirstNonDigitAt(line, 0, k);
    if k == |line| {
      KeptIsScanned(line, 2, st2, remove2);
      KeptIsScanned(line, PART2_DIGITS, st12, remove12);
    }
  }

  /** Runs both stacks over one line (the source's `max_numbers_from_line`). */
  method MaxNumbersFromLine(line: string, lineIdx: nat, stack2: DigitStack, stack12: DigitStack)
    returns (r: Result<(nat, nat), LineError>)
    requires stack2 != stack12 && stack2.buf != stack12.buf
    modifies stack2, stack2.buf, stack12, stack12.buf
    ensures r == LineBoth(line, lineIdx)
    ensures stack2.buf == old(stack2.buf) || fresh(stack2.buf)
    ensures stack12.buf == old(stack12.buf) || fresh(stack12.buf)
    ensures stack2.buf != stack12.buf
  {
    if |line| < 2 {
      return Err(TooShort(lineIdx, 2, |line|));
    }
    if |line| < PART2_DIGITS {
      return Err(TooShort(lineIdx, PART2_DIGITS, |line|));
    }
    stack2.Reset();
    stack12.Reset();
    stack2.Reserve(|line|);
    stack12.Reserve(|line|);
    var k, remove2, remove12, st2, st12 := FeedBoth(line, stack2, stack12);
    if k < |line| {
      return Err(NonDigit(lineIdx, line[k]));
    }
    stack2.Trim(remove2, line, st2);
    stack12.Trim(remove12, line, st12);
    var value2 := ReadTwo(stack2, line, st2[..2]);
    var value12 := ReadValue(stack12, line, st12[..PART2_DIGITS]);
    LineBothOk(line, lineIdx);
    return Ok((value2, value12));
  }

  // ---------------------------------------------------------------------------
  // The input: lines, their answers and the totals
  // ---------------------------------------------------------------------------

  /** The lines the source's byte scan visits from `start` on: the pieces between
      `\n`s, each with one trailing `\r` dropped, and after the last `\n` a final piece
      when any input is left. */
  function RecordsFrom(s: string, start: nat): (ls: seq<string>)
    requires start <= |s|
    ensures start == |s| <==> ls == []
    decreases |s| - start
  {
    if start == |s| then []
    else
      var k := IndexOf(s, '\n', start);
      if k == |s| then [StripCR(s[start..])]
      else [StripCR(s[start..k])] + RecordsFrom(s, k + 1)
  }

  /** The total of the K-digit answers over the lines `ls`, the first numbered `idx`;
      empty lines are skipped but still numbered, and the first failing line's error
      is the answer. */
  function SumPicks(ls: seq<string>, idx: nat, K: nat): Result<nat, LineError>
    decreases |ls|
  {
    if ls == [] then Ok(0)
    else if ls[0] == [] then SumPicks(ls[1..], idx + 1, K)
    else
      var v :- LinePick(ls[0], idx, K);
      var rest :- SumPicks(ls[1..], idx + 1, K);
      Ok(v + rest)
  }

  /** The answer of a part that picks K digits per line. */
  function SolvePick(s: string, K: nat): Result<nat, LineError>
  {
    SumPicks(RecordsFrom(s, 0), 0, K)
  }

  /** Adds a running total to an answer; a failure stays as it is. */
  function AddTo(total: nat, r: Result<nat, LineError>): (r': Result<nat, LineError>)
    ensures r'.Err? <==> r.Err?
  {
    if r.Ok? then Ok(total + r.value) else r
  }

  /** Whether line `i` of `ls` (numbered `idx + i`) is non-empty and fails. */
  predicate FailsAt(ls: seq<string>, idx: nat, K: nat, i: nat)
    requires i < |ls|
  {
    ls[i] != [] && LinePick(ls[i], idx + i, K).Err?
  }

  /** Line `i` of `ls` is line `i - 1` of its tail. */
  lemma FailsAtTail(ls: seq<string>, idx: nat, K: nat)
    requires ls != []
    ensures forall i :: 1 <= i < |ls| ==> FailsAt(ls, idx, K, i) == FailsAt(ls[1..], idx + 1, K, i - 1)
  {
    forall i | 1 <= i < |ls|
      ensures FailsAt(ls, idx, K, i) == FailsAt(ls[1..], idx + 1, K, i - 1)
    {
      assert ls[i] == ls[1..][i - 1];
    }
  }

  /** Past a line that does not fail, the total fails exactly when the rest does, and
      with the same error. */
  lemma SumPicksPastOk(ls: seq<string>, idx: nat, K: nat)
    requires ls != [] && !FailsAt(ls, idx, K, 0)
    ensures SumPicks(ls, idx, K).Err? <==> SumPicks(ls[1..], idx + 1, K).Err?
    ensures SumPicks(ls, idx, K).Err? ==> SumPicks(ls, idx, K).error == SumPicks(ls[1..], idx + 1, K).error
  {
    if ls[0] == [] {
      assert SumPicks(ls, idx, K) == SumPicks(ls[1..], idx + 1, K);
    } else {
      SumPicksKeep(ls, idx, K);
    }
  }

  /** A non-empty line that does not fail adds its value to the rest's total. */
  lemma SumPicksKeep(ls: seq<string>, idx: nat, K: nat)
    requires ls != [] && ls[0] != [] && LinePick(ls[0], idx, K).Ok?
    ensures SumPicks(ls, idx, K) == AddTo(LinePick(ls[0], idx, K).value, SumPicks(ls[1..], idx + 1, K))
  {
  }

  /** A total that has an answer had no failing line. */
  lemma {:induction false} SumPicksOkNoFailure(ls: seq<string>, idx: nat, K: nat)
    ensures SumPicks(ls, idx, K).Ok? ==> forall i :: 0 <= i < |ls| ==> !FailsAt(ls, idx, K, i)
    decreases |ls|
  {
    if ls != [] && SumPicks(ls, idx, K).Ok? {
      var tl := ls[1..];
      SumPicksOkNoFailure(tl, idx + 1, K);
      FailsAtTail(ls, idx, K);
      if !FailsAt(ls, idx, K, 0) {
        SumPicksPastOk(ls, idx, K);
      }
    }
  }

  /** A failing total carries the error of its first failing line. */
  lemma {:induction false} SumPicksFirstFailure(ls: seq<string>, idx: nat, K: nat)
    ensures SumPicks(ls, idx, K).Err? ==>
      exists i :: 0 <= i < |ls| && FailsAt(ls, idx, K, i)
        && LinePick(ls[i], idx + i, K).error == SumPicks(ls, idx, K).error
        && forall i' :: 0 <= i' < i ==> !FailsAt(ls, idx, K, i')
    decreases |ls|
  {
    if ls != [] && SumPicks(ls, idx, K).Err? {
      if FailsAt(ls, idx, K, 0) {
        assert SumPicks(ls, idx, K) == Err(LinePick(ls[0], idx, K).error);
      } else {
        var tl, idx1 := ls[1..], idx + 1;
        SumPicksFirstFailure(tl, idx1, K);
        FailsAtTail(ls, idx, K);
        SumPicksPastOk(ls, idx, K);
        var i :| 0 <= i < |tl| && FailsAt(tl, idx1, K, i)
          && LinePick(tl[i], idx1 + i, K).error == SumPicks(tl, idx1, K).error
          && forall i' :: 0 <= i' < i ==> !FailsAt(tl, idx1, K, i');
        assert FailsAt(ls, idx, K, i + 1) && ls[i + 1] == tl[i];
      }
    }
  }

  /** The total fails exactly when some non-empty line fails, and then with the error
      of the first one. */
  lemma {:induction false} SumPicksFails(ls: seq<string>, idx: nat, K: nat)
    ensures SumPicks(ls, idx, K).Err? <==> exists i :: 0 <= i < |ls| && FailsAt(ls, idx, K, i)
    ensures SumPicks(ls, idx, K).Err? ==>
      exists i :: 0 <= i < |ls| && FailsAt(ls, idx, K, i)
        && LinePick(ls[i], idx + i, K).error == SumPicks(ls, idx, K).error
        && forall i' :: 0 <= i' < i ==> !FailsAt(ls, idx, K, i')
  {
    SumPicksOkNoFailure(ls, idx, K);
    SumPicksFirstFailure(ls, idx, K);
  }

  /** The total of both answers over the lines `ls`, the pass of the source's `both`. */
  function SumBoth(ls: seq<string>, idx: nat): Result<(nat, nat), LineError>
    decreases |ls|
  {
    if ls == [] then Ok((0, 0))
    else if ls[0] == [] then SumBoth(ls[1..], idx + 1)
    else
      var v :- LineBoth(ls[0], idx);
      var rest :- SumBoth(ls[1..], idx + 1);
      Ok((v.0 + rest.0, v.1 + rest.1))
  }

  /** The answer of the single pass over both parts. */
  function SolveBoth(s: string): Result<(nat, nat), LineError>
  {
    SumBoth(RecordsFrom(s, 0), 0)
  }

  /** Adds running totals to a pair of answers; a failure stays as it is. */
  function AddPair(t: (nat, nat), r: Result<(nat, nat), LineError>): (r': Result<(nat, nat), LineError>)
    ensures r'.Err? <==> r.Err?
  {
    if r.Ok? then Ok((t.0 + r.value.0, t.1 + r.value.1)) else r
  }

  /** The single pass answers what the two parts answer, and succeeds exactly when the
      second part does. */
  lemma {:induction false} SumBothIsParts(ls: seq<string>, idx: nat)
    ensures SumBoth(ls, idx).Ok? <==> SumPicks(ls, idx, PART2_DIGITS).Ok?
    ensures SumBoth(ls, idx).Ok? ==>
      SumPicks(ls, idx, 2).Ok? && SumBoth(ls, idx).value == (SumPicks(ls, idx, 2).value, SumPicks(ls, idx, PART2_DIGITS).value)
    decreases |ls|
  {
    if ls != [] {
      SumBothIsParts(ls[1..], idx + 1);
      if ls[0] != [] {
        LineBothIsPicks(ls[0], idx);
      }
    }
  }

  /** The same for whole inputs. */
  lemma BothIsParts(s: string)
    ensures SolveBoth(s).Ok? <==> SolvePick(s, PART2_DIGITS).Ok?
    ensures SolveBoth(s).Ok? ==> SolvePick(s, 2).Ok? && SolveBoth(s).value == (SolvePick(s, 2).value, SolvePick(s, PART2_DIGITS).value)
  {
    SumBothIsParts(RecordsFrom(s, 0), 0);
  }

  /** The line starting at `start` ends at the `\n` found at `idx`. */
  lemma {:induction false} RecordsStep(s: string, start: nat, idx: nat)
    requires start <= idx < |s| && s[idx] == '\n' && idx <= IndexOf(s, '\n', start)
    ensures RecordsFrom(s, start) == [StripCR(s[start..idx])] + RecordsFrom(s, idx + 1)
  {
  }

  /** The input ends, with no `\n`, inside the line starting at `start`. */
  lemma {:induction false} RecordsLast(s: string, start: nat)
    requires start < |s| && IndexOf(s, '\n', start) == |s|
    ensures RecordsFrom(s, start) == [StripCR(s[start..|s|])]
  {
    assert s[start..] == s[start..|s|];
  }

  /** An empty line in front of `rest` leaves the running total as it is. */
  lemma {:induction false} SumPicksSkip(total: nat, line: string, rest: seq<string>, idx: nat, K: nat)
    requires line == []
    ensures AddTo(total, SumPicks([line] + rest, idx, K)) == AddTo(total, SumPicks(rest, idx + 1, K))
  {
    assert ([line] + rest)[1..] == rest;
  }

  /** A failing line in front of `rest` is the failure of the total. */
  lemma {:induction false} SumPicksFail(line: string, rest: seq<string>, idx: nat, K: nat)
    requires line != [] && LinePick(line, idx, K).Err?
    ensures SumPicks([line] + rest, idx, K) == LinePick(line, idx, K)
  {
  }

  /** An empty line in front of `rest` leaves the pair of totals as it is. */
  lemma {:induction false} SumBothSkip(t: (nat, nat), line: string, rest: seq<string>, idx: nat)
    requires line == []
    ensures AddPair(t, SumBoth([line] + rest, idx)) == AddPair(t, SumBoth(rest, idx + 1))
  {
    assert ([line] + rest)[1..] == rest;
  }

  /** A failing line in front of `rest` is the failure of the pair of totals. */
  lemma {:induction false} SumBothFail(line: string, rest: seq<string>, idx: nat)
    requires line != [] && LineBoth(line, idx).Err?
    ensures SumBoth([line] + rest, idx) == LineBoth(line, idx)
  {
  }

  /** The line from `start` up to `end`, a `\r` just before `end` dropped. */
  method CutLine(s: string, start: nat, end: nat) returns (line: string)
    requires start <= end <= |s|
    ensures line == StripCR(s[start..end])
  {
    if end > start && s[end - 1] == '\r' {
      line := s[start..end - 1];
    } else {
      line := s[start..end];
    }
  }

  /** The scan of `solve_single_pick` so far: `total` over the lines before `start`,
      which add up to `goal` with the answer for the lines from `start` on. */
  ghost predicate PickPending(s: string, K: nat, start: nat, lineIdx: nat, total: nat, goal: Result<nat, LineError>)
  {
    start <= |s| && AddTo(total, SumPicks(RecordsFrom(s, start), lineIdx, K)) == goal
  }

  /** `PickPending`, with the scan at `idx` still inside the line starting at `start`. */
  ghost predicate PickScan(s: string, K: nat, start: nat, idx: nat, lineIdx: nat, total: nat, goal: Result<nat, LineError>)
  {
    start <= idx <= |s| && idx <= IndexOf(s, '\n', start) && PickPending(s, K, start, lineIdx, total, goal)
  }

  /** A byte other than `\n` keeps the scan inside the line. */
  lemma PickScanOn(s: string, K: nat, start: nat, idx: nat, lineIdx: nat, total: nat, goal: Result<nat, LineError>)
    requires PickScan(s, K, start, idx, lineIdx, total, goal) && idx < |s| && s[idx] != '\n'
    ensures PickScan(s, K, start, idx + 1, lineIdx, total, goal)
  {
  }

  /** An empty line ending at the `\n` at `idx` moves the scan on with the same total. */
  lemma {:induction false} PickNextEmpty(s: string, K: nat, start: nat, idx: nat, lineIdx: nat, total: nat, goal: Result<nat, LineError>)
    requires PickPending(s, K, start, lineIdx, total, goal)
    requires start <= idx < |s| && s[idx] == '\n' && idx <= IndexOf(s, '\n', start)
    requires StripCR(s[start..idx]) == []
    ensures PickPending(s, K, idx + 1, lineIdx + 1, total, goal)
  {
    RecordsStep(s, start, idx);
    SumPicksSkip(total, [], RecordsFrom(s, idx + 1), lineIdx, K);
  }

  /** A line with an answer, ending at the `\n` at `idx`, adds that answer to the total. */
  lemma {:induction false} PickNextOk(s: string, K: nat, start: nat, idx: nat, lineIdx: nat, total: nat, v: nat, goal: Result<nat, LineError>)
    requires PickPending(s, K, start, lineIdx, total, goal)
    requires start <= idx < |s| && s[idx] == '\n' && idx <= IndexOf(s, '\n', start)
    requires StripCR(s[start..idx]) != [] && LinePick(StripCR(s[start..idx]), lineIdx, K) == Ok(v)
    ensures PickPending(s, K, idx + 1, lineIdx + 1, total + v, goal)
  {
    RecordsStep(s, start, idx);
    PickCarry(total, v, RecordsFrom(s, start), StripCR(s[start..idx]), RecordsFrom(s, idx + 1), lineIdx, K, goal);
  }

  /** A line with the answer `v` in front of `rest` moves `v` into the running total. */
  lemma PickCarry(total: nat, v: nat, all: seq<string>, line: string, rest: seq<string>, idx: nat, K: nat,
                  goal: Result<nat, LineError>)
    requires all == [line] + rest && line != [] && LinePick(line, idx, K) == Ok(v)
    requires AddTo(total, SumPicks(all, idx, K)) == goal
    ensures AddTo(total + v, SumPicks(rest, idx + 1, K)) == goal
  {
    assert all[1..] == rest;
  }

  /** A failing line ending at the `\n` at `idx`: its failure is the scan's answer. */
  lemma {:induction false} PickNextErr(s: string, K: nat, start: nat, idx: nat, lineIdx: nat, total: nat, goal: Result<nat, LineError>)
    requires PickPending(s, K, start, lineIdx, total, goal)
    requires start <= idx < |s| && s[idx] == '\n' && idx <= IndexOf(s, '\n', start)
    requires StripCR(s[start..idx]) != [] && LinePick(StripCR(s[start..idx]), lineIdx, K).Err?
    ensures goal == LinePick(StripCR(s[start..idx]), lineIdx, K)
  {
    RecordsStep(s, start, idx);
    SumPicksFail(StripCR(s[start..idx]), RecordsFrom(s, idx + 1), lineIdx, K);
  }

  /** No final line, or an empty one: the total is the answer. */
  lemma {:induction false} PickLastNone(s: string, K: nat, start: nat, lineIdx: nat, total: nat, goal: Result<nat, LineError>)
    requires PickPending(s, K, start, lineIdx, total, goal) && IndexOf(s, '\n', start) == |s|
    requires start < |s| ==> StripCR(s[start..|s|]) == []
    ensures goal == Ok(total)
  {
    if start < |s| {
      RecordsLast(s, start);
      SumPicksSkip(total, [], [], lineIdx, K);
      assert [StripCR(s[start..|s|])] + [] == [StripCR(s[start..|s|])];
    }
  }

  /** A final line with the answer `v`: it completes the total. */
  lemma {:induction false} PickLastOk(s: string, K: nat, start: nat, lineIdx: nat, total: nat, v: nat, goal: Result<nat, LineError>)
    requires PickPending(s, K, start, lineIdx, total, goal) && IndexOf(s, '\n', start) == |s|
    requires start < |s| && StripCR(s[start..|s|]) != [] && LinePick(StripCR(s[start..|s|]), lineIdx, K) == Ok(v)
    ensures goal == Ok(total + v)
  {
    var line := StripCR(s[start..|s|]);
    RecordsLast(s, start);
    assert [line] + [] == [line];
    PickCarry(total, v, [line], line, [], lineIdx, K, goal);
  }

  /** A failing final line: its failure is the answer. */
  lemma {:induction false} PickLastErr(s: string, K: nat, start: nat, lineIdx: nat, total: nat, goal: Result<nat, LineError>)
    requires PickPending(s, K, start, lineIdx, total, goal) && IndexOf(s, '\n', start) == |s|
    requires start < |s| && StripCR(s[start..|s|]) != [] && LinePick(StripCR(s[start..|s|]), lineIdx, K).Err?
    ensures goal == LinePick(StripCR(s[start..|s|]), lineIdx, K)
  {
    var line := StripCR(s[start..|s|]);
    RecordsLast(s, start);
    assert [line] + [] == [line];
    SumPicksFail(line, [], lineIdx, K);
  }

  /** The line ending at the `\n` at `idx`, answered with `stack` and added to the
      running total; a failing line's error is the scan's answer. */
  method EndLine(s: string, K: nat, start: nat, idx: nat, lineIdx: nat, total: nat, stack: DigitStack,
                 ghost goal: Result<nat, LineError>)
    returns (res: Result<nat, LineError>)
    requires PickScan(s, K, start, idx, lineIdx, total, goal) && idx < |s| && s[idx] == '\n'
    modifies stack, stack.buf
    ensures stack.buf == old(stack.buf) || fresh(stack.buf)
    ensures res.Ok? ==> PickScan(s, K, idx + 1, idx + 1, lineIdx + 1, res.value, goal)
    ensures res.Err? ==> goal == res
  {
    var line := CutLine(s, start, idx);
    if line == [] {
      PickNextEmpty(s, K, start, idx, lineIdx, total, goal);
      return Ok(total);
    }
    res := AddLine(s, K, start, idx, lineIdx, total, line, stack, goal);
  }

  /** The non-empty line ending at the `\n` at `idx`, answered and added to the total. */
  method AddLine(s: string, K: nat, start: nat, idx: nat, lineIdx: nat, total: nat, line: string, stack: DigitStack,
                 ghost goal: Result<nat, LineError>)
    returns (res: Result<nat, LineError>)
    requires PickPending(s, K, start, lineIdx, total, goal)
    requires start <= idx < |s| && s[idx] == '\n' && idx <= IndexOf(s, '\n', start)
    requires line == StripCR(s[start..idx]) && line != []
    modifies stack, stack.buf
    ensures stack.buf == old(stack.buf) || fresh(stack.buf)
    ensures res.Ok? ==> PickPending(s, K, idx + 1, lineIdx + 1, res.value, goal)
    ensures res.Err? ==> goal == res
  {
    var r := MaxNumberFromLinePick(line, lineIdx, K, stack);
    if r.Err? {
      PickNextErr(s, K, start, idx, lineIdx, total, goal);
      return r;
    }
    var v := r.value;
    PickNextOk(s, K, start, idx, lineIdx, total, v, goal);
    var t := total + v;
    res := Ok(t);
  }

  /** The input after its last `\n`: a final line, when there is one, answered and
      added; this settles the scan's answer. */
  method EndInput(s: string, K: nat, start: nat, lineIdx: nat, total: nat, stack: DigitStack,
                  ghost goal: Result<nat, LineError>)
    returns (res: Result<nat, LineError>)
    requires PickScan(s, K, start, |s|, lineIdx, total, goal)
    modifies stack, stack.buf
    ensures res == goal
  {
    if start < |s| {
      var line := CutLine(s, start, |s|);
      if line != [] {
        var r := MaxNumberFromLinePick(line, lineIdx, K, stack);
        if r.Err? {
          PickLastErr(s, K, start, lineIdx, total, goal);
          return r;
        }
        var v := r.value;
        PickLastOk(s, K, start, lineIdx, total, v, goal);
        var t := total + v;
        return Ok(t);
      }
    }
    PickLastNone(s, K, start, lineIdx, total, goal);
    return Ok(total);
  }

  /** The source's `solve_single_pick`: scans the bytes, answering each non-empty
      line as it ends and adding up the answers. */
  method SolveSinglePick(s: string, K: nat) returns (r: Result<nat, LineError>)
    ensures r == SolvePick(s, K)
  {
    var total: nat := 0;
    var stack := new DigitStack();
    var lineIdx: nat := 0;
    var start: nat := 0;
    var idx := 0;
    ghost var goal := SolvePick(s, K);
    while idx < |s|
      invariant PickScan(s, K, start, idx, lineIdx, total, goal) && fresh(stack.buf)
    {
      if s[idx] == '\n' {
        var res := EndLine(s, K, start, idx, lineIdx, total, stack, goal);
        if res.Err? {
          return res;
        }
        total := res.value;
        lineIdx, start := lineIdx + 1, idx + 1;
      } else {
        PickScanOn(s, K, start, idx, lineIdx, total, goal);
      }
      idx := idx + 1;
    }
    r := EndInput(s, K, start, lineIdx, total, stack, goal);
  }

  /** The source's `part1`: two digits per line. */
  method Part1(s: string) returns (r: Result<nat, LineError>)
    ensures r == SolvePick(s, 2)
  {
    r := SolveSinglePick(s, 2);
  }

  /** The source's `part2`: `PART2_DIGITS` digits per line. */
  method Part2(s: string) returns (r: Result<nat, LineError>)
    ensures r == SolvePick(s, PART2_DIGITS)
  {
    r := SolveSinglePick(s, PART2_DIGITS);
  }

  /** The scan of `both` so far, as `PickPending` for the pair of totals. */
  ghost predicate BothPending(s: string, start: nat, lineIdx: nat, t: (nat, nat), goal: Result<(nat, nat), LineError>)
  {
    start <= |s| && AddPair(t, SumBoth(RecordsFrom(s, start), lineIdx)) == goal
  }

  /** `PickScan` for the pair of totals. */
  ghost predicate BothScan(s: string, start: nat, idx: nat, lineIdx: nat, t: (nat, nat), goal: Result<(nat, nat), LineError>)
  {
    start <= idx <= |s| && idx <= IndexOf(s, '\n', start) && BothPending(s, start, lineIdx, t, goal)
  }

  /** Before the first character nothing is summed and the whole answer is pending. */
  lemma BothScanStart(s: string)
    ensures BothScan(s, 0, 0, 0, (0, 0), SolveBoth(s))
  {
    var rest := SumBoth(RecordsFrom(s, 0), 0);
    assert AddPair((0, 0), rest) == rest;
  }

  /** `PickScanOn` for the pair of totals. */
  lemma BothScanOn(s: string, start: nat, idx: nat, lineIdx: nat, t: (nat, nat), goal: Result<(nat, nat), LineError>)
    requires BothScan(s, start, idx, lineIdx, t, goal) && idx < |s| && s[idx] != '\n'
    ensures BothScan(s, start, idx + 1, lineIdx, t, goal)
  {
  }

  /** `PickNextEmpty` for the pair of totals. */
  lemma {:induction false} BothNextEmpty(s: string, start: nat, idx: nat, lineIdx: nat, t: (nat, nat), goal: Result<(nat, nat), LineError>)
    requires BothPending(s, start, lineIdx, t, goal)
    requires start <= idx < |s| && s[idx] == '\n' && idx <= IndexOf(s, '\n', start)
    requires StripCR(s[start..idx]) == []
    ensures BothPending(s, idx + 1, lineIdx + 1, t, goal)
  {
    RecordsStep(s, start, idx);
    SumBothSkip(t, [], RecordsFrom(s, idx + 1), lineIdx);
  }

  /** `PickNextOk` for the pair of totals. */
  lemma {:induction false} BothNextOk(s: string, start: nat, idx: nat, lineIdx: nat, t: (nat, nat), v: (nat, nat),
                   goal: Result<(nat, nat), LineError>)
    requires BothPending(s, start, lineIdx, t, goal)
    requires start <= idx < |s| && s[idx] == '\n' && idx <= IndexOf(s, '\n', start)
    requires StripCR(s[start..idx]) != [] && LineBoth(StripCR(s[start..idx]), lineIdx) == Ok(v)
    ensures BothPending(s, idx + 1, lineIdx + 1, (t.0 + v.0, t.1 + v.1), goal)
  {
    RecordsStep(s, start, idx);
    BothCarry(t, v, RecordsFrom(s, start), StripCR(s[start..idx]), RecordsFrom(s, idx + 1), lineIdx, goal);
  }

  /** A line with the answers `v` in front of `rest` moves them into the totals. */
  lemma BothCarry(t: (nat, nat), v: (nat, nat), all: seq<string>, line: string, rest: seq<string>, idx: nat,
                  goal: Result<(nat, nat), LineError>)
    requires all == [line] + rest && line != [] && LineBoth(line, idx) == Ok(v)
    requires AddPair(t, SumBoth(all, idx)) == goal
    ensures AddPair((t.0 + v.0, t.1 + v.1), SumBoth(rest, idx + 1)) == goal
  {
    assert all[1..] == rest;
  }

  /** `PickNextErr` for the pair of totals. */
  lemma {:induction false} BothNextErr(s: string, start: nat, idx: nat, lineIdx: nat, t: (nat, nat), goal: Result<(nat, nat), LineError>)
    requires BothPending(s, start, lineIdx, t, goal)
    requires start <= idx < |s| && s[idx] == '\n' && idx <= IndexOf(s, '\n', start)
    requires StripCR(s[start..idx]) != [] && LineBoth(StripCR(s[start..idx]), lineIdx).Err?
    ensures goal == LineBoth(StripCR(s[start..idx]), lineIdx)
  {
    RecordsStep(s, start, idx);
    SumBothFail(StripCR(s[start..idx]), RecordsFrom(s, idx + 1), lineIdx);
  }

  /** No final line, or an empty one: the totals are the answer. */
  lemma {:induction false} BothLastNone(s: string, start: nat, lineIdx: nat, t: (nat, nat), goal: Result<(nat, nat), LineError>)
    requires BothPending(s, start, lineIdx, t, goal) && IndexOf(s, '\n', start) == |s|
    requires start < |s| ==> StripCR(s[start..|s|]) == []
    ensures goal == Ok(t)
  {
    if start < |s| {
      RecordsLast(s, start);
      SumBothSkip(t, [], [], lineIdx);
      assert [StripCR(s[start..|s|])] + [] == [StripCR(s[start..|s|])];
    }
  }

  /** A final line with the answers `v`: they complete the totals. */
  lemma {:induction false} BothLastOk(s: string, start: nat, lineIdx: nat, t: (nat, nat), v: (nat, nat), goal: Result<(nat, nat), LineError>)
    requires BothPending(s, start, lineIdx, t, goal) && IndexOf(s, '\n', start) == |s|
    requires start < |s| && StripCR(s[start..|s|]) != [] && LineBoth(StripCR(s[start..|s|]), lineIdx) == Ok(v)
    ensures goal == Ok((t.0 + v.0, t.1 + v.1))
  {
    var line := StripCR(s[start..|s|]);
    RecordsLast(s, start);
    assert [line] + [] == [line];
    BothCarry(t, v, [line], line, [], lineIdx, goal);
  }

  /** A failing final line: its failure is the answer. */
  lemma {:induction false} BothLastErr(s: string, start: nat, lineIdx: nat, t: (nat, nat), goal: Result<(nat, nat), LineError>)
    requires BothPending(s, start, lineIdx, t, goal) && IndexOf(s, '\n', start) == |s|
    requires start < |s| && StripCR(s[start..|s|]) != [] && LineBoth(StripCR(s[start..|s|]), lineIdx).Err?
    ensures goal == LineBoth(StripCR(s[start..|s|]), lineIdx)
  {
    var line := StripCR(s[start..|s|]);
    RecordsLast(s, start);
    assert [line] + [] == [line];
    SumBothFail(line, [], lineIdx);
  }

  /** `EndLine` for the two stacks of `both`. */
  method EndLineBoth(s: string, start: nat, idx: nat, lineIdx: nat, t: (nat, nat),
                     stack2: DigitStack, stack12: DigitStack, ghost goal: Result<(nat, nat), LineError>)
    returns (res: Result<(nat, nat), LineError>)
    requires BothScan(s, start, idx, lineIdx, t, goal) && idx < |s| && s[idx] == '\n'
    requires stack2 != stack12 && stack2.buf != stack12.buf
    modifies stack2, stack2.buf, stack12, stack12.buf
    ensures stack2.buf == old(stack2.buf) || fresh(stack2.buf)
    ensures stack12.buf == old(stack12.buf) || fresh(stack12.buf)
    ensures stack2.buf != stack12.buf
    ensures res.Ok? ==> BothScan(s, idx + 1, idx + 1, lineIdx + 1, res.value, goal)
    ensures res.Err? ==> goal == res
  {
    var line := CutLine(s, start, idx);
    if line == [] {
      BothNextEmpty(s, start, idx, lineIdx, t, goal);
      return Ok(t);
    }
    res := AddLineBoth(s, start, idx, lineIdx, t, line, stack2, stack12, goal);
  }

  /** The non-empty line ending at the `\n` at `idx`, answered and added to the totals. */
  method AddLineBoth(s: string, start: nat, idx: nat, lineIdx: nat, t: (nat, nat), line: string,
                     stack2: DigitStack, stack12: DigitStack, ghost goal: Result<(nat, nat), LineError>)
    returns (res: Result<(nat, nat), LineError>)
    requires BothPending(s, start, lineIdx, t, goal)
    requires start <= idx < |s| && s[idx] == '\n' && idx <= IndexOf(s, '\n', start)
    requires line == StripCR(s[start..idx]) && line != []
    requires stack2 != stack12 && stack2.buf != stack12.buf
    modifies stack2, stack2.buf, stack12, stack12.buf
    ensures stack2.buf == old(stack2.buf) || fresh(stack2.buf)
    ensures stack12.buf == old(stack12.buf) || fresh(stack12.buf)
    ensures stack2.buf != stack12.buf
    ensures res.Ok? ==> BothPending(s, idx + 1, lineIdx + 1, res.value, goal)
    ensures res.Err? ==> goal == res
  {
    var r := MaxNumbersFromLine(line, lineIdx, stack2, stack12);
    if r.Err? {
      BothNextErr(s, start, idx, lineIdx, t, goal);
      return r;
    }
    var v := r.value;
    BothNextOk(s, start, idx, lineIdx, t, v, goal);
    var t' := (t.0 + v.0, t.1 + v.1);
    res := Ok(t');
  }

  /** `EndInput` for the two stacks of `both`. */
  method EndInputBoth(s: string, start: nat, lineIdx: nat, t: (nat, nat),
                      stack2: DigitStack, stack12: DigitStack, ghost goal: Result<(nat, nat), LineError>)
    returns (res: Result<(nat, nat), LineError>)
    requires BothScan(s, start, |s|, lineIdx, t, goal)
    requires stack2 != stack12 && stack2.buf != stack12.buf
    modifies stack2, stack2.buf, stack12, stack12.buf
    ensures res == goal
  {
    if start < |s| {
      var line := CutLine(s, start, |s|);
      if line != [] {
        var r := MaxNumbersFromLine(line, lineIdx, stack2, stack12);
        if r.Err? {
          BothLastErr(s, start, lineIdx, t, goal);
          return r;
        }
        var v := r.value;
        BothLastOk(s, start, lineIdx, t, v, goal);
        var t' := (t.0 + v.0, t.1 + v.1);
        return Ok(t');
      }
    }
    BothLastNone(s, start, lineIdx, t, goal);
    return Ok(t);
  }

  /** The source's `both`: one scan feeding both stacks. */
  method Both(s: string) returns (r: Result<(nat, nat), LineError>)
    ensures r == SolveBoth(s)
  {
    var totals: (nat, nat) := (0, 0);
    var stack2 := new DigitStack();
    var stack12 := new DigitStack();
    var lineIdx: nat := 0;
    var start: nat := 0;
    var idx := 0;
    ghost var goal := SolveBoth(s);
    BothScanStart(s);
    while idx < |s|
      invariant BothScan(s, start, idx, lineIdx, totals, goal)
      invariant fresh(stack2.buf) && fresh(stack12.buf) && stack2.buf != stack12.buf
    {
      if s[idx] == '\n' {
        var res := EndLineBoth(s, start, idx, lineIdx, totals, stack2, stack12, goal);
        if res.Err? {
          return res;
        }
        totals := res.value;
        lineIdx, start := lineIdx + 1, idx + 1;
      } else {
        BothScanOn(s, start, idx, lineIdx, totals, goal);
      }
      idx := idx + 1;
    }
    r := EndInputBoth(s, start, lineIdx, totals, stack2, stack12, goal);
  }
}
