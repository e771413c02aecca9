/** Day 2: a comma-separated list of inclusive ID ranges `a-b`.  Part 1 sums the IDs in
    the ranges whose decimal form is some block of digits written twice; part 2 those
    whose decimal form is a block written two or more times. */
module Day02 {
  import opened Common
  import opened Intervals

  // ---------------------------------------------------------------------------
  // Counting digits
  // ---------------------------------------------------------------------------

  /** `digit_len` as written: the first `i` in 1..19 with `n < 10^i`, and 19 when there
      is none (the power table stops at 10^19). */
  function DigitLenAsWritten(n: nat): nat
  {
    TableSearch(n, 1)
  }

  function TableSearch(n: nat, i: nat): (r: nat)
    requires 1 <= i <= 20
    ensures i <= r <= 19 || (i == 20 && r == 19)
    decreases 20 - i
  {
    if i == 20 then 19 else if n < Pow10(i) then i else TableSearch(n, i + 1)
  }

  /** The number of decimal digits of `n` (1 for 0), which is what `digit_len` is for. */
  function DigitLen(n: nat): (d: nat)
    ensures d >= 1 && n < Pow10(d)
    ensures n >= 10 ==> Pow10(d - 1) <= n
  {
    DecimalLength(n);
    |Decimal(n)|
  }

  lemma {:induction false} TableSearchFinds(n: nat, i: nat)
    requires 1 <= i <= 19 && n < Pow10(19) && (i == 1 || Pow10(i - 1) <= n)
    ensures TableSearch(n, i) == DigitLen(n)
    decreases 20 - i
  {
    if n < Pow10(i) {
      DecimalLengthUnique(n, i);
      assert TableSearch(n, i) == i;
    } else {
      assert i < 19;
      assert TableSearch(n, i) == TableSearch(n, i + 1);
      TableSearchFinds(n, i + 1);
    }
  }

  /** Below 10^19 the table search counts digits correctly. */
  lemma DigitLenAsWrittenCorrect(n: nat)
    requires n < Pow10(19)
    ensures DigitLenAsWritten(n) == DigitLen(n)
  {
    TableSearchFinds(n, 1);
  }

  /** A 20-digit `u64` (any value from 10^19 up) is reported as having 19 digits. */
  lemma DigitLenAsWrittenShort()
    ensures Pow10(19) < U64_LIMIT
    ensures DigitLenAsWritten(Pow10(19)) == 19
    ensures DigitLen(Pow10(19)) == 20
  {
    var n := Pow10(19);
    Pow10Add(10, 9);
    assert Pow10(9) == 1_000_000_000 by {
      assert Pow10(3) == 1000;
      Pow10Add(3, 3);
      Pow10Add(6, 3);
    }
    assert Pow10(10) == 10_000_000_000;
    TableSearchAbove(n, 1);
    DecimalLengthUnique(n, 20);
  }

  lemma {:induction false} TableSearchAbove(n: nat, i: nat)
    requires 1 <= i <= 20 && n >= Pow10(19)
    ensures TableSearch(n, i) == 19
    decreases 20 - i
  {
    if i < 20 {
      Pow10Monotone(i, 19);
      assert !(n < Pow10(i));
      TableSearchAbove(n, i + 1);
    }
  }

  // ---------------------------------------------------------------------------
  // Parsing
  // ---------------------------------------------------------------------------

  datatype Field = StartField | EndField

  datatype ParseError =
    | InvalidChar(field: Field, c: char)
    | Overflow(field: Field)
    | Missing(field: Field)
    | StartExceedsEnd(start: nat, end: nat)

  /** Bytes skipped between ranges. */
  predicate IsSeparator(c: char) { c == ',' || c == '\n' || c == '\r' || c == ' ' }

  /** Bytes that end a range's end number. */
  predicate IsTerminator(c: char) { c == ',' || c == '\n' || c == '\r' }

  function SkipSeparators(s: string, i: nat): (j: nat)
    requires i <= |s|
    ensures i <= j <= |s|
    ensures j < |s| ==> !IsSeparator(s[j])
    ensures forall k :: i <= k < j ==> IsSeparator(s[k])
    decreases |s| - i
  {
    if i == |s| || !IsSeparator(s[i]) then i else SkipSeparators(s, i + 1)
  }

  function NextTerminator(s: string, i: nat): (j: nat)
    requires i <= |s|
    ensures i <= j <= |s|
    ensures j < |s| ==> IsTerminator(s[j])
    ensures forall k :: i <= k < j ==> !IsTerminator(s[k])
    decreases |s| - i
  {
    if i == |s| || IsTerminator(s[i]) then i else NextTerminator(s, i + 1)
  }

  /** Reading `s[lo..hi]` into one number of `field`, left to right, with the checked
      `u64` arithmetic of the source: a non-digit or a value of 2^64 or more stops the
      read with an error, and the end field passes over spaces.  The flag says whether
      a digit was seen. */
  function Accumulate(s: string, field: Field, lo: nat, hi: nat): Result<(nat, bool), ParseError>
    requires lo <= hi <= |s|
    decreases hi
  {
    if hi == lo then Ok((0, false))
    else
      var prev := Accumulate(s, field, lo, hi - 1);
      var c := s[hi - 1];
      if prev.Err? then prev
      else if field == EndField && c == ' ' then prev
      else if !IsDigit(c) then Err(InvalidChar(field, c))
      else if prev.value.0 * 10 + DigitValue(c) >= U64_LIMIT then Err(Overflow(field))
      else Ok((prev.value.0 * 10 + DigitValue(c), true))
  }

  /** The range whose start digit is at `j`, and the index after its terminator. */
  function Record(s: string, j: nat): (r: Result<(Range, nat), ParseError>)
    requires j < |s|
    ensures r.Ok? ==> j < r.value.1 <= |s|
  {
    var k := IndexOf(s, '-', j);
    var start :- Accumulate(s, StartField, j, k);
    if !start.1 then Err(Missing(StartField))
    else
      var e0 := if k < |s| then k + 1 else k;
      var e := NextTerminator(s, e0);
      var end :- Accumulate(s, EndField, e0, e);
      if !end.1 then Err(Missing(EndField))
      else if start.0 > end.0 then Err(StartExceedsEnd(start.0, end.0))
      else Ok((Range(start.0, end.0), if e < |s| then e + 1 else e))
  }

  /** The ranges of `s[i..]`, or the first error met scanning it left to right. */
  function RangesFrom(s: string, i: nat): Result<seq<Range>, ParseError>
    requires i <= |s|
    decreases |s| - i
  {
    var j := SkipSeparators(s, i);
    if j == |s| then Ok([])
    else
      var rec :- Record(s, j);
      var rest :- RangesFrom(s, rec.1);
      Ok([rec.0] + rest)
  }

  function ParseSpec(s: string): Result<seq<Range>, ParseError> { RangesFrom(s, 0) }

  /** `acc` followed by the ranges of `r`, or `r`'s error. */
  function Prefixed(acc: seq<Range>, r: Result<seq<Range>, ParseError>): Result<seq<Range>, ParseError>
  {
    if r.Ok? then Ok(acc + r.value) else r
  }

  lemma {:induction false} AccumulateErrorStays(s: string, field: Field, lo: nat, mid: nat, hi: nat)
    requires lo <= mid <= hi <= |s| && Accumulate(s, field, lo, mid).Err?
    ensures Accumulate(s, field, lo, hi) == Accumulate(s, field, lo, mid)
    decreases hi - mid
  {
    if mid < hi {
      AccumulateErrorStays(s, field, lo, mid, hi - 1);
    }
  }

  lemma SkipOne(s: string, i: nat)
    requires i < |s| && IsSeparator(s[i])
    ensures RangesFrom(s, i) == RangesFrom(s, i + 1)
  {
  }

  lemma {:induction false} RecordError(s: string, j: nat, e: ParseError)
    requires j < |s| && SkipSeparators(s, j) == j && Record(s, j) == Err(e)
    ensures RangesFrom(s, j) == Err(e)
  {
  }

  lemma {:induction false} RecordStep(s: string, j: nat, acc: seq<Range>, r: Range, next: nat)
    requires j < |s| && SkipSeparators(s, j) == j && Record(s, j) == Ok((r, next))
    ensures Prefixed(acc, RangesFrom(s, j)) == Prefixed(acc + [r], RangesFrom(s, next))
  {
    var rest := RangesFrom(s, next);
    if rest.Ok? {
      assert acc + ([r] + rest.value) == (acc + [r]) + rest.value;
    }
  }

  lemma {:induction false} NextTerminatorAt(s: string, i: nat, k: nat)
    requires i <= k <= |s|
    requires forall j :: i <= j < k ==> !IsTerminator(s[j])
    requires k == |s| || IsTerminator(s[k])
    ensures NextTerminator(s, i) == k
    decreases k - i
  {
    if i < k { NextTerminatorAt(s, i + 1, k); }
  }

  /** `parse_ranges`. */
  method ParseRanges(s: string) returns (result: Result<seq<Range>, ParseError>)
    ensures result == ParseSpec(s)
  {
    var ranges: seq<Range> := [];
    var i := 0;
    assert Prefixed(ranges, RangesFrom(s, 0)) == RangesFrom(s, 0) by {
      if RangesFrom(s, 0).Ok? { assert [] + RangesFrom(s, 0).value == RangesFrom(s, 0).value; }
    }
    while i < |s|
      invariant i <= |s|
      invariant ParseSpec(s) == Prefixed(ranges, RangesFrom(s, i))
      decreases |s| - i
    {
      while i < |s| && IsSeparator(s[i])
        invariant i <= |s|
        invariant ParseSpec(s) == Prefixed(ranges, RangesFrom(s, i))
      {
        SkipOne(s, i);
        i := i + 1;
      }
      if i >= |s| {
        break;
      }
      var j := i;
      var rec;
      rec, i := ScanRange(s, j);
      if rec.Err? {
        RecordError(s, j, rec.error);
        return Err(rec.error);
      }
      RecordStep(s, j, ranges, rec.value, i);
      ranges := ranges + [rec.value];
    }
    assert ranges + [] == ranges;
    return Ok(ranges);
  }

  /** One range starting at `j`: the start digits up to `-`, then the end digits up to
      a terminator, as the source's two inner loops read them. */
  method ScanRange(s: string, j: nat) returns (rec: Result<Range, ParseError>, next: nat)
    requires j < |s|
    ensures Record(s, j).Err? <==> rec.Err?
    ensures rec.Err? ==> rec.error == Record(s, j).error
    ensures rec.Ok? ==> Record(s, j) == Ok((rec.value, next))
  {
    var start, k := ScanStart(s, j);
    if start.Err? {
      return Err(start.error), 0;
    }
    if !start.value.1 {
      return Err(Missing(StartField)), 0;
    }
    var e0 := if k < |s| then k + 1 else k;
    var end, e := ScanEnd(s, e0);
    if end.Err? {
      return Err(end.error), 0;
    }
    if !end.value.1 {
      return Err(Missing(EndField)), 0;
    }
    if start.value.0 > end.value.0 {
      return Err(StartExceedsEnd(start.value.0, end.value.0)), 0;
    }
    next := if e < |s| then e + 1 else e;
    rec := Ok(Range(start.value.0, end.value.0));
  }

  /** The start loop: digits up to the first `-` (or the end of the input). */
  method ScanStart(s: string, j: nat) returns (acc: Result<(nat, bool), ParseError>, k: nat)
    requires j <= |s|
    ensures k == IndexOf(s, '-', j)
    ensures acc == Accumulate(s, StartField, j, k)
  {
    var i := j;
    var start := 0;
    var foundDigit := false;
    while i < |s| && s[i] != '-'
      invariant j <= i <= |s|
      invariant forall q :: j <= q < i ==> s[q] != '-'
      invariant Accumulate(s, StartField, j, i) == Ok((start, foundDigit))
    {
      var b := s[i];
      if !IsDigit(b) || start * 10 + DigitValue(b) >= U64_LIMIT {
        IndexOfAfter(s, j, i + 1);
        k := IndexOf(s, '-', j);
        AccumulateErrorStays(s, StartField, j, i + 1, k);
        return if !IsDigit(b) then Err(InvalidChar(StartField, b)) else Err(Overflow(StartField)), k;
      }
      foundDigit := true;
      start := start * 10 + DigitValue(b);
      i := i + 1;
    }
    IndexOfAt(s, '-', j, i);
    return Ok((start, foundDigit)), i;
  }

  /** The end loop: digits and spaces up to the next `,`, `\n` or `\r`. */
  method ScanEnd(s: string, e0: nat) returns (acc: Result<(nat, bool), ParseError>, e: nat)
    requires e0 <= |s|
    ensures e == NextTerminator(s, e0)
    ensures acc == Accumulate(s, EndField, e0, e)
  {
    var i := e0;
    var end := 0;
    var foundEnd := false;
    while i < |s| && !IsTerminator(s[i])
      invariant e0 <= i <= |s|
      invariant forall q :: e0 <= q < i ==> !IsTerminator(s[q])
      invariant Accumulate(s, EndField, e0, i) == Ok((end, foundEnd))
    {
      var b := s[i];
      if b != ' ' {
        if !IsDigit(b) || end * 10 + DigitValue(b) >= U64_LIMIT {
          NextTerminatorAfter(s, e0, i + 1);
          e := NextTerminator(s, e0);
          AccumulateErrorStays(s, EndField, e0, i + 1, e);
          return if !IsDigit(b) then Err(InvalidChar(EndField, b)) else Err(Overflow(EndField)), e;
        }
        foundEnd := true;
        end := end * 10 + DigitValue(b);
      }
      i := i + 1;
    }
    NextTerminatorAt(s, e0, i);
    return Ok((end, foundEnd)), i;
  }

  lemma {:induction false} IndexOfAfter(s: string, j: nat, m: nat)
    requires j <= m <= |s| && forall q :: j <= q < m - 1 ==> s[q] != '-'
    requires m >= j + 1 && s[m - 1] != '-'
    ensures m <= IndexOf(s, '-', j)
    decreases m - j
  {
    if j + 1 < m {
      IndexOfAfter(s, j + 1, m);
    }
  }

  lemma {:induction false} NextTerminatorAfter(s: string, j: nat, m: nat)
    requires j <= m <= |s| && forall q :: j <= q < m - 1 ==> !IsTerminator(s[q])
    requires m >= j + 1 && !IsTerminator(s[m - 1])
    ensures m <= NextTerminator(s, j)
    decreases m - j
  {
    if j + 1 < m {
      NextTerminatorAfter(s, j + 1, m);
    }
  }

  // ---------------------------------------------------------------------------
  // What the parser accepts
  // ---------------------------------------------------------------------------

  lemma {:induction false} AccumulateBound(s: string, field: Field, lo: nat, hi: nat)
    requires lo <= hi <= |s| && Accumulate(s, field, lo, hi).Ok?
    ensures Accumulate(s, field, lo, hi).value.0 < U64_LIMIT
    decreases hi
  {
    if hi > lo {
      AccumulateBound(s, field, lo, hi - 1);
    }
  }

  /** Every parsed range is a valid `u64` range: `lo <= hi < 2^64`. */
  lemma {:induction false} ParsedRangesValid(s: string, i: nat)
    requires i <= |s| && RangesFrom(s, i).Ok?
    ensures forall r :: r in RangesFrom(s, i).value ==> r.lo <= r.hi < U64_LIMIT
    decreases |s| - i
  {
    var j := SkipSeparators(s, i);
    if j < |s| {
      var rec := Record(s, j).value;
      var k := IndexOf(s, '-', j);
      var e0 := if k < |s| then k + 1 else k;
      AccumulateBound(s, EndField, e0, NextTerminator(s, e0));
      ParsedRangesValid(s, rec.1);
    }
  }

  /** The text `lo-hi,` of one range. */
  function Item(r: Range): string
  {
    Decimal(r.lo) + "-" + Decimal(r.hi) + ","
  }

  /** The items of the ranges, in turn. */
  function Format(rs: seq<Range>): string
  {
    if rs == [] then [] else Item(rs[0]) + Format(rs[1..])
  }

  lemma {:induction false} AccumulateDecimal(s: string, field: Field, lo: nat, n: nat)
    requires At(s, lo, Decimal(n)) && n < U64_LIMIT
    ensures Accumulate(s, field, lo, lo + |Decimal(n)|) == Ok((n, true))
  {
    var d := Decimal(n);
    var m := |d|;
    var c := s[lo + m - 1];
    assert c == d[m - 1] by {
      assert s[lo + (m - 1)] == d[m - 1];
    }
    var before: nat;
    if n < 10 {
      before := 0;
      assert c == DigitChar(n);
      assert Accumulate(s, field, lo, lo) == Ok((0, false));
    } else {
      var p := Decimal(n / 10);
      before := n / 10;
      assert d == p + [DigitChar(n % 10)];
      assert c == DigitChar(n % 10);
      AtConcat(s, lo, p, [DigitChar(n % 10)]);
      AccumulateDecimal(s, field, lo, n / 10);
    }
    assert Accumulate(s, field, lo, lo + m - 1).Ok? && Accumulate(s, field, lo, lo + m - 1).value.0 == before;
    assert IsDigit(c) && DigitValue(c) == n % 10 && before * 10 + n % 10 == n;
  }

  lemma RecordFromParts(s: string, i: nat, k: nat, e: nat, lo: nat, hi: nat)
    requires i < k < e < |s| && IndexOf(s, '-', i) == k && NextTerminator(s, k + 1) == e
    requires Accumulate(s, StartField, i, k) == Ok((lo, true))
    requires Accumulate(s, EndField, k + 1, e) == Ok((hi, true))
    requires lo <= hi
    ensures Record(s, i) == Ok((Range(lo, hi), e + 1))
  {
  }

  lemma {:induction false} RangesStep(s: string, i: nat, r: Range, next: nat, rest: seq<Range>)
    requires i < |s| && SkipSeparators(s, i) == i
    requires Record(s, i) == Ok((r, next)) && RangesFrom(s, next) == Ok(rest)
    ensures RangesFrom(s, i) == Ok([r] + rest)
  {
  }

  /** A formatted start `lo-` at `i`. */
  lemma {:induction false} StartOfFormat(s: string, i: nat, lo: nat)
    requires lo < U64_LIMIT && At(s, i, Decimal(lo)) && At(s, i + |Decimal(lo)|, "-")
    ensures IsDigit(s[i])
    ensures IndexOf(s, '-', i) == i + |Decimal(lo)|
    ensures Accumulate(s, StartField, i, i + |Decimal(lo)|) == Ok((lo, true))
  {
    var a := Decimal(lo);
    var k := i + |a|;
    assert s[k + 0] == "-"[0];
    assert s[i + 0] == a[0];
    forall q | i <= q < k ensures s[q] != '-' {
      assert s[i + (q - i)] == a[q - i];
    }
    IndexOfAt(s, '-', i, k);
    AccumulateDecimal(s, StartField, i, lo);
  }

  /** A formatted end `hi,` at `e0`. */
  lemma {:induction false} EndOfFormat(s: string, e0: nat, hi: nat)
    requires hi < U64_LIMIT && At(s, e0, Decimal(hi)) && At(s, e0 + |Decimal(hi)|, ",")
    ensures e0 + |Decimal(hi)| < |s|
    ensures NextTerminator(s, e0) == e0 + |Decimal(hi)|
    ensures Accumulate(s, EndField, e0, e0 + |Decimal(hi)|) == Ok((hi, true))
  {
    var b := Decimal(hi);
    var e := e0 + |b|;
    assert s[e + 0] == ","[0];
    forall q | e0 <= q < e ensures !IsTerminator(s[q]) {
      assert s[e0 + (q - e0)] == b[q - e0];
    }
    NextTerminatorAt(s, e0, e);
    AccumulateDecimal(s, EndField, e0, hi);
  }

  /** The four pieces of an item at `i`. */
  lemma ItemParts(s: string, i: nat, r: Range)
    requires At(s, i, Item(r))
    ensures var a, b := Decimal(r.lo), Decimal(r.hi);
      && At(s, i, a) && At(s, i + |a|, "-")
      && At(s, i + |a| + 1, b) && At(s, i + |a| + 1 + |b|, ",")
  {
    var a, b := Decimal(r.lo), Decimal(r.hi);
    AtConcat(s, i, a + "-" + b, ",");
    AtConcat(s, i, a + "-", b);
    AtConcat(s, i, a, "-");
  }

  /** One formatted range `lo-hi,` at `i` is read back as that range. */
  lemma {:induction false} RecordOfFormat(s: string, i: nat, r: Range)
    requires r.lo <= r.hi < U64_LIMIT && At(s, i, Item(r))
    ensures SkipSeparators(s, i) == i
    ensures Record(s, i) == Ok((r, i + |Item(r)|))
  {
    ItemParts(s, i, r);
    var k := i + |Decimal(r.lo)|;
    StartOfFormat(s, i, r.lo);
    EndOfFormat(s, k + 1, r.hi);
    RecordFromParts(s, i, k, k + 1 + |Decimal(r.hi)|, r.lo, r.hi);
  }

  /** Formatting valid ranges and parsing the text gives the same ranges back. */
  lemma {:induction false} ParseFormat(s: string, i: nat, rs: seq<Range>)
    requires At(s, i, Format(rs)) && i + |Format(rs)| == |s|
    requires forall r :: r in rs ==> r.lo <= r.hi < U64_LIMIT
    ensures RangesFrom(s, i) == Ok(rs)
    decreases rs
  {
    if rs == [] {
      assert i == |s|;
    } else {
      var item, rest := Item(rs[0]), Format(rs[1..]);
      var next: nat := i + |item|;
      AtConcat(s, i, item, rest);
      RecordOfFormat(s, i, rs[0]);
      assert Record(s, i) == Ok((rs[0], next));
      ParseFormat(s, next, rs[1..]);
      assert RangesFrom(s, next) == Ok(rs[1..]);
      RangesStep(s, i, rs[0], next, rs[1..]);
      assert rs == [rs[0]] + rs[1..];
    }
  }

  /** The round trip on whole inputs. */
  lemma {:induction false} ParseOfFormat(rs: seq<Range>)
    requires forall r :: r in rs ==> r.lo <= r.hi < U64_LIMIT
    ensures ParseSpec(Format(rs)) == Ok(rs)
  {
    var s := Format(rs);
    assert At(s, 0, s) by {
      forall q | 0 <= q < |s| ensures s[0 + q] == s[q] { }
    }
    ParseFormat(s, 0, rs);
  }
}
