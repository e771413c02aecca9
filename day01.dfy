/** Day 1: a dial numbered 0..99 that starts at 50 and is turned by a list of
    rotations `L<n>` / `R<n>`, one per line.  Part 1 counts the rotations that leave the
    dial on 0; part 2 counts every click, during or at the end of a rotation, at which
    the dial reads 0. */
module Day01 {
  import opened Common

  const START: nat := 50

  /** One input record: the direction byte and the characters after it up to the end
      of the line (a carriage return among them is skipped by the distance folds). */
  datatype Rotation = Rotation(dir: char, body: string)

  /** The byte `c - '0'` in u8 arithmetic (it wraps for bytes below '0'). */
  function ByteDigit(c: char): (d: nat)
    ensures d < 256
    ensures IsDigit(c) ==> d == DigitValue(c)
  {
    (c as int - '0' as int) % 256
  }

  /** The distance reduced mod 100 digit by digit, as both parts accumulate it; every
      byte but a carriage return is folded in as a digit. */
  function DistMod(t: string): (d: nat)
    ensures d < 100
  {
    if t == [] then 0
    else if t[|t| - 1] == '\r' then DistMod(t[..|t| - 1])
    else (DistMod(t[..|t| - 1]) * 10 + ByteDigit(t[|t| - 1])) % 100
  }

  /** The full distance, as part 2 accumulates it. */
  function DistFull(t: string): nat
  {
    if t == [] then 0
    else if t[|t| - 1] == '\r' then DistFull(t[..|t| - 1])
    else DistFull(t[..|t| - 1]) * 10 + ByteDigit(t[|t| - 1])
  }

  lemma {:induction false} DistModIsDistFullMod100(t: string)
    ensures DistMod(t) == DistFull(t) % 100
  {
    if t != [] {
      var p := t[..|t| - 1];
      DistModIsDistFullMod100(p);
      var q := DistFull(p);
      if t[|t| - 1] != '\r' {
        var d := ByteDigit(t[|t| - 1]);
        assert q * 10 + d == ((q % 100) * 10 + d) + 100 * (10 * (q / 100));
        ModAddMultiple((q % 100) * 10 + d, 10 * (q / 100), 100);
      }
    }
  }

  lemma {:induction false} DistFullOfDigits(t: string)
    requires AllDigits(t)
    ensures DistFull(t) == DecimalValue(t)
  {
    if t != [] {
      DistFullOfDigits(t[..|t| - 1]);
    }
  }

  /** The records the scanner sees, starting at index `i`: blank lines and stray
      carriage returns are skipped, each other line is one rotation. */
  function RotationsFrom(s: string, i: nat): seq<Rotation>
    requires i <= |s|
    decreases |s| - i
  {
    if i == |s| then []
    else if s[i] == '\n' || s[i] == '\r' then RotationsFrom(s, i + 1)
    else
      var k := IndexOf(s, '\n', i + 1);
      [Rotation(s[i], s[i + 1..k])] + RotationsFrom(s, if k < |s| then k + 1 else k)
  }

  function Rotations(s: string): seq<Rotation> { RotationsFrom(s, 0) }

  /** The dial after one rotation, computed as the source does it (offset by 100, then
      subtract 200 or 100); `R` turns up, `L` turns down, any other byte leaves it. */
  function Turn(pos: nat, dir: char, d: nat): (r: nat)
    requires pos < 100 && d < 100
    ensures r < 100
    ensures r == if dir == 'R' then (pos + d) % 100 else if dir == 'L' then (pos - d) % 100 else pos
  {
    var add := if dir == 'R' then d else 0;
    var sub := if dir == 'L' then d else 0;
    var p := pos + add + 100 - sub;
    if p >= 200 then p - 200 else if p >= 100 then p - 100 else p
  }

  /** Number of rotations in `rs`, started at `pos`, that end on 0. */
  function Landings(rs: seq<Rotation>, pos: nat): nat
    requires pos < 100
  {
    if rs == [] then 0
    else
      var p := Turn(pos, rs[0].dir, DistMod(rs[0].body));
      (if p == 0 then 1 else 0) + Landings(rs[1..], p)
  }

  /** The first click count at which a rotation from `pos` reads 0.  Any direction
      other than `R` is counted as if it were `L`. */
  function FirstHit(pos: nat, dir: char): (f: nat)
    requires pos < 100
    ensures 1 <= f <= 100
  {
    if dir == 'R' then (if pos == 0 then 100 else 100 - pos)
    else (if pos == 0 then 100 else pos)
  }

  /** The closed form part 2 adds for one rotation of `dist` clicks. */
  function ZeroPasses(pos: nat, dir: char, dist: nat): nat
    requires pos < 100
  {
    var f := FirstHit(pos, dir);
    if dist >= f then 1 + (dist - f) / 100 else 0
  }

  /** Where the dial stands after `k` single clicks from `pos`. */
  function Click(pos: nat, dir: char, k: nat): int
  {
    if dir == 'R' then (pos + k) % 100 else (pos - k) % 100
  }

  /** Reference count: the clicks k in 1..dist at which the dial reads 0. */
  function ZeroClicks(pos: nat, dir: char, dist: nat): nat
  {
    if dist == 0 then 0 else ZeroClicks(pos, dir, dist - 1) + (if Click(pos, dir, dist) == 0 then 1 else 0)
  }

  lemma ClickZeroIffFirstHit(pos: nat, dir: char, k: nat)
    requires pos < 100 && k >= 1
    ensures Click(pos, dir, k) == 0 <==> k >= FirstHit(pos, dir) && (k - FirstHit(pos, dir)) % 100 == 0
  {
    var f := FirstHit(pos, dir);
    // `start` reaches 0 after f clicks; the dial after k clicks is `start` moved by k - f.
    var start := if dir == 'R' then pos + f else pos - f;
    var at := if dir == 'R' then pos + k else pos - k;
    assert start % 100 == 0;
    assert Click(pos, dir, k) == at % 100;
    var d := if dir == 'R' then k - f else f - k;
    assert at == start + d;
    if Click(pos, dir, k) == 0 {
      DivModUnique(at, 100, at / 100, 0);
      DivModUnique(start, 100, start / 100, 0);
      assert d == 100 * (at / 100 - start / 100);
      ModAddMultiple(0, at / 100 - start / 100, 100);
      assert d % 100 == 0;
      assert (k - f) % 100 == 0 by {
        ModAddMultiple(0, if dir == 'R' then at / 100 - start / 100 else start / 100 - at / 100, 100);
      }
      assert k >= f;
    }
    if k >= f && (k - f) % 100 == 0 {
      var q := (k - f) / 100;
      assert k - f == 100 * q;
      ModAddMultiple(start, if dir == 'R' then q else -q, 100);
    }
  }

  /** The closed form of part 2 counts exactly the clicks that land on 0. */
  lemma {:induction false} ZeroPassesCountsZeroClicks(pos: nat, dir: char, dist: nat)
    requires pos < 100
    ensures ZeroPasses(pos, dir, dist) == ZeroClicks(pos, dir, dist)
  {
    if dist > 0 {
      ZeroPassesCountsZeroClicks(pos, dir, dist - 1);
      ClickZeroIffFirstHit(pos, dir, dist);
      var f := FirstHit(pos, dir);
      if dist - 1 >= f {
        var q := (dist - 1 - f) / 100;
        var m := (dist - 1 - f) % 100;
        assert dist - f == 100 * q + m + 1;
        if m == 99 {
          assert (dist - f) / 100 == q + 1 && (dist - f) % 100 == 0;
        } else {
          assert (dist - f) / 100 == q && (dist - f) % 100 == m + 1;
        }
      }
    }
  }

  /** The sum part 2 accumulates over `rs`, started at `pos`. */
  function Passes(rs: seq<Rotation>, pos: nat): nat
    requires pos < 100
  {
    if rs == [] then 0
    else
      ZeroPasses(pos, rs[0].dir, DistFull(rs[0].body))
      + Passes(rs[1..], Turn(pos, rs[0].dir, DistMod(rs[0].body)))
  }

  function Part1Spec(s: string): nat { Landings(Rotations(s), START) }

  function Part2Spec(s: string): nat { Passes(Rotations(s), START) }

  /** Part 2 counts every click at which the dial reads 0 when each rotation is applied
      in turn; the dial itself moves by the full distance mod 100. */
  lemma {:induction false} PassesCountClicks(rs: seq<Rotation>, pos: nat)
    requires pos < 100
    ensures Passes(rs, pos) == AllZeroClicks(rs, pos)
  {
    if rs != [] {
      ZeroPassesCountsZeroClicks(pos, rs[0].dir, DistFull(rs[0].body));
      DistModIsDistFullMod100(rs[0].body);
      PassesCountClicks(rs[1..], Turn(pos, rs[0].dir, DistMod(rs[0].body)));
    }
  }

  /** Reference for part 2: clicks counted one at a time, rotation by rotation. */
  function AllZeroClicks(rs: seq<Rotation>, pos: nat): nat
    requires pos < 100
  {
    if rs == [] then 0
    else
      ZeroClicks(pos, rs[0].dir, DistFull(rs[0].body))
      + AllZeroClicks(rs[1..], Turn(pos, rs[0].dir, DistFull(rs[0].body) % 100))
  }

  /** Blank lines and stray carriage returns before a record contribute no rotation. */
  lemma {:induction false} BlankLinesSkipped(s: string, i: nat)
    requires i < |s| && (s[i] == '\n' || s[i] == '\r')
    ensures RotationsFrom(s, i) == RotationsFrom(s, i + 1)
  {
  }

  /** Every rotation the scanner records comes from a non-blank line: its direction is
      neither `\n` nor `\r`, and its body holds no line break. */
  lemma {:induction false} RotationsWellFormed(s: string, i: nat)
    requires i <= |s|
    ensures forall r :: r in RotationsFrom(s, i) ==> r.dir != '\n' && r.dir != '\r' && '\n' !in r.body
    decreases |s| - i
  {
    if i < |s| {
      if s[i] == '\n' || s[i] == '\r' {
        RotationsWellFormed(s, i + 1);
      } else {
        var k := IndexOf(s, '\n', i + 1);
        RotationsWellFormed(s, if k < |s| then k + 1 else k);
        assert '\n' !in s[i + 1..k];
      }
    }
  }

  /** The accumulators after the scanner has read `s[lo..hi]`, indexed into `s` itself. */
  function ScannedMod(s: string, lo: nat, hi: nat): nat
    requires lo <= hi <= |s|
    decreases hi
  {
    if hi == lo then 0
    else if s[hi - 1] == '\r' then ScannedMod(s, lo, hi - 1)
    else (ScannedMod(s, lo, hi - 1) * 10 + ByteDigit(s[hi - 1])) % 100
  }

  function ScannedFull(s: string, lo: nat, hi: nat): nat
    requires lo <= hi <= |s|
    decreases hi
  {
    if hi == lo then 0
    else if s[hi - 1] == '\r' then ScannedFull(s, lo, hi - 1)
    else ScannedFull(s, lo, hi - 1) * 10 + ByteDigit(s[hi - 1])
  }

  lemma {:induction false} ScannedIsDist(s: string, lo: nat, hi: nat)
    requires lo <= hi <= |s|
    ensures ScannedMod(s, lo, hi) == DistMod(s[lo..hi])
    ensures ScannedFull(s, lo, hi) == DistFull(s[lo..hi])
    decreases hi
  {
    if hi > lo {
      ScannedIsDist(s, lo, hi - 1);
      assert s[lo..hi][..hi - 1 - lo] == s[lo..hi - 1];
    }
  }


  /** Scans one rotation record starting at `idx` (its direction byte) and returns
      the direction, both distance accumulators and the index after the line. */
  method ScanRecord(s: string, start: nat) returns (dir: char, distMod: nat, distFull: nat, next: nat)
    requires start < |s| && s[start] != '\n' && s[start] != '\r'
    ensures var k := IndexOf(s, '\n', start + 1);
      && dir == s[start]
      && distMod == DistMod(s[start + 1..k])
      && distFull == DistFull(s[start + 1..k])
      && next == (if k < |s| then k + 1 else k)
      && RotationsFrom(s, start) == [Rotation(dir, s[start + 1..k])] + RotationsFrom(s, next)
  {
    dir := s[start];
    var idx := start + 1;
    distMod, distFull := 0, 0;
    while idx < |s| && s[idx] != '\n'
      invariant start + 1 <= idx <= |s|
      invariant forall j :: start + 1 <= j < idx ==> s[j] != '\n'
      invariant distMod == ScannedMod(s, start + 1, idx)
      invariant distFull == ScannedFull(s, start + 1, idx)
    {
      var b := s[idx];
      if b != '\r' {
        distMod := (distMod * 10 + ByteDigit(b)) % 100;
        distFull := distFull * 10 + ByteDigit(b);
      }
      idx := idx + 1;
    }
    IndexOfAt(s, '\n', start + 1, idx);
    ScannedIsDist(s, start + 1, idx);
    next := if idx < |s| then idx + 1 else idx;
    RecordAt(s, start, idx, next);
  }

  lemma {:induction false} RecordAt(s: string, start: nat, k: nat, next: nat)
    requires start < |s| && s[start] != '\n' && s[start] != '\r'
    requires k == IndexOf(s, '\n', start + 1) && next == (if k < |s| then k + 1 else k)
    ensures RotationsFrom(s, start) == [Rotation(s[start], s[start + 1..k])] + RotationsFrom(s, next)
  {
  }

  /** The loop over blank lines before a record: they contribute no rotation. */
  method SkipBlanks(s: string, i: nat) returns (k: nat)
    requires i <= |s|
    ensures i <= k <= |s| && (k < |s| ==> s[k] != '\n' && s[k] != '\r')
    ensures RotationsFrom(s, k) == RotationsFrom(s, i)
  {
    k := i;
    while k < |s| && (s[k] == '\n' || s[k] == '\r')
      invariant i <= k <= |s| && RotationsFrom(s, k) == RotationsFrom(s, i)
    {
      BlankLinesSkipped(s, k);
      k := k + 1;
    }
  }

  /** Part 1: the number of rotations that leave the dial on 0. */
  method Part1(s: string) returns (zeroHits: nat)
    ensures zeroHits == Landings(Rotations(s), START)
  {
    var idx := 0;
    var position := START;
    zeroHits := 0;
    while idx < |s|
      invariant idx <= |s| && position < 100
      invariant zeroHits + Landings(RotationsFrom(s, idx), position) == Landings(Rotations(s), START)
      decreases |s| - idx
    {
      idx := SkipBlanks(s, idx);
      if idx >= |s| {
        break;
      }
      var dir, dist, _, next := ScanRecord(s, idx);
      ghost var rest := RotationsFrom(s, next);
      ghost var body := s[idx + 1..IndexOf(s, '\n', idx + 1)];
      assert ([Rotation(dir, body)] + rest)[0] == Rotation(dir, body) && ([Rotation(dir, body)] + rest)[1..] == rest;
      idx := next;
      position := Turn(position, dir, dist);
      zeroHits := zeroHits + (if position == 0 then 1 else 0);
    }
  }

  /** Part 2: the number of clicks, during or at the end of a rotation, that land on 0. */
  method Part2(s: string) returns (zeroHits: nat)
    ensures zeroHits == Passes(Rotations(s), START)
    ensures zeroHits == AllZeroClicks(Rotations(s), START)
  {
    var idx := 0;
    var position := START;
    zeroHits := 0;
    while idx < |s|
      invariant idx <= |s| && position < 100
      invariant zeroHits + Passes(RotationsFrom(s, idx), position) == Passes(Rotations(s), START)
      decreases |s| - idx
    {
      idx := SkipBlanks(s, idx);
      if idx >= |s| {
        break;
      }
      var dir, distMod, distFull, next := ScanRecord(s, idx);
      idx := next;
      var firstHit := if dir == 'R' then (if position == 0 then 100 else 100 - position)
                      else (if position == 0 then 100 else position);
      if distFull >= firstHit {
        NatDiv(distFull - firstHit, 100);
        zeroHits := zeroHits + 1 + (distFull - firstHit) / 100;
      }
      position := Turn(position, dir, distMod);
    }
    PassesCountClicks(Rotations(s), START);
  }
}
