/** Day 5: a list of inclusive ID ranges, a blank line, then a list of ingredient IDs.
    Part 1 counts the IDs that some range contains, Part 2 the size of the union of
    the ranges.  The ranges are merged into sorted, separated ranges first, and an ID
    is looked up by a binary search over their starts. */
module Day05 {
  import opened Common
  import opened Intervals

  /** The failures the parsers report; `line` is the 1-based line number the source
      prints. */
  datatype ParseError =
    | MissingHyphen(line: nat)
    | MissingNumber(line: nat)
    | InvalidChar(ch: char, line: nat)
    | StartExceedsEnd(start: nat, end: nat, line: nat)
    | NoRanges
    | NoIds

  /** What `parse_input` returns: the ranges in input order and the IDs in input order. */
  datatype Inventory = Inventory(ranges: seq<Range>, ids: seq<nat>)

  // ---------------------------------------------------------------------------
  // Lines
  // ---------------------------------------------------------------------------

  /** The lines both parsers visit: the text between `\n` bytes, a final (possibly
      empty) line after the last one included, each with one trailing `\r` dropped. */
  function Pieces(s: string): (ls: seq<string>)
    ensures |ls| >= 1
    decreases |s|
  {
    var k := IndexOf(s, '\n', 0);
    if k == |s| then [StripCR(s)] else [StripCR(s[..k])] + Pieces(s[k + 1..])
  }

  /** The lines after the one that ends at `i` (a `\n` or the end of the input). */
  function After(s: string, i: nat): seq<string>
    requires i <= |s|
  {
    if i == |s| then [] else Pieces(s[i + 1..])
  }

  /** The line that ends at `i` starts the suffix from `start`. */
  lemma PiecesAt(s: string, start: nat, i: nat)
    requires start <= i <= |s| && (i == |s| || s[i] == '\n')
    requires forall j :: start <= j < i ==> s[j] != '\n'
    ensures Pieces(s[start..]) == [StripCR(s[start..i])] + After(s, i)
  {
    var t := s[start..];
    IndexOfAt(t, '\n', 0, i - start);
    assert t[..i - start] == s[start..i];
    if i < |s| {
      assert t[i - start + 1..] == s[i + 1..];
    } else {
      assert t == s[start..i];
      assert [StripCR(t)] + [] == [StripCR(t)];
    }
  }

  /** A line written out with its `\n` comes back as one piece. */
  lemma {:induction false} PiecesCons(x: string, rest: string)
    requires '\n' !in x
    ensures Pieces(x + "\n" + rest) == [StripCR(x)] + Pieces(rest)
  {
    var s := x + "\n" + rest;
    assert forall j :: 0 <= j < |x| ==> s[j] == x[j];
    IndexOfAt(s, '\n', 0, |x|);
    assert s[..|x|] == x;
    assert s[|x| + 1..] == rest;
  }

  // ---------------------------------------------------------------------------
  // `parse_number`
  // ---------------------------------------------------------------------------

  /** The digit loop of `parse_number` from byte `i` on, with `v` the value of the
      bytes before `i`: the first non-digit byte stops it with an error. */
  function Digits(b: string, i: nat, v: nat, lineIdx: nat): Result<nat, ParseError>
    requires i <= |b|
    decreases |b| - i
  {
    if i == |b| then Ok(v)
    else if !IsDigit(b[i]) then Err(InvalidChar(b[i], lineIdx + 1))
    else Digits(b, i + 1, v * 10 + DigitValue(b[i]), lineIdx)
  }

  /** The digit loop computes the decimal value, or fails at the first non-digit. */
  lemma {:induction false} DigitsMeaning(b: string, i: nat, lineIdx: nat)
    requires i <= |b| && AllDigits(b[..i])
    ensures Digits(b, i, DecimalValue(b[..i]), lineIdx) ==
      if AllDigits(b) then Ok(DecimalValue(b)) else Err(InvalidChar(b[FirstNonDigit(b, i)], lineIdx + 1))
    decreases |b| - i
  {
    if i == |b| {
      assert b[..i] == b;
    } else if IsDigit(b[i]) {
      assert b[..i + 1][..i] == b[..i];
      DigitsMeaning(b, i + 1, lineIdx);
    } else {
      assert !AllDigits(b);
    }
  }

  /** `parse_number` on the bytes `b` of line `lineIdx` (0-based): an empty slice is
      an error, and otherwise the digit loop decides. */
  function Number(b: string, lineIdx: nat): Result<nat, ParseError>
  {
    if b == [] then Err(MissingNumber(lineIdx + 1)) else Digits(b, 0, 0, lineIdx)
  }

  /** What `parse_number` answers: the decimal value of a non-empty run of digits; an
      empty slice and the first non-digit byte are the errors. */
  lemma {:induction false} NumberMeaning(b: string, lineIdx: nat)
    ensures Number(b, lineIdx).Ok? <==> b != [] && AllDigits(b)
    ensures Number(b, lineIdx).Ok? ==> Number(b, lineIdx).value == DecimalValue(b)
    ensures b == [] ==> Number(b, lineIdx) == Err(MissingNumber(lineIdx + 1))
    ensures b != [] && !AllDigits(b) ==> Number(b, lineIdx) == Err(InvalidChar(b[FirstNonDigit(b, 0)], lineIdx + 1))
  {
    if b != [] {
      assert b[..0] == [];
      DigitsMeaning(b, 0, lineIdx);
    }
  }

  /** Reading back a printed number gives the number. */
  lemma {:induction false} NumberOfDecimal(n: nat, lineIdx: nat)
    ensures Number(Decimal(n), lineIdx) == Ok(n)
  {
    DecimalValueOfDecimal(n);
    NumberMeaning(Decimal(n), lineIdx);
  }

  /** `parse_number`: the source's loop, accumulating `v * 10 + d`. */
  method ParseNumber(b: string, lineIdx: nat) returns (r: Result<nat, ParseError>)
    ensures r == Number(b, lineIdx)
  {
    if |b| == 0 {
      return Err(MissingNumber(lineIdx + 1));
    }
    var value: nat := 0;
    var i := 0;
    while i < |b|
      invariant i <= |b| && Digits(b, i, value, lineIdx) == Digits(b, 0, 0, lineIdx)
    {
      if !IsDigit(b[i]) {
        return Err(InvalidChar(b[i], lineIdx + 1));
      }
      value := value * 10 + DigitValue(b[i]);
      i := i + 1;
    }
    return Ok(value);
  }

  // ---------------------------------------------------------------------------
  // A range line
  // ---------------------------------------------------------------------------

  /** The numbers on both sides of the hyphen at `h`; the start may not exceed the end. */
  function RangeParts(line: string, h: nat, lineIdx: nat): (r: Result<Range, ParseError>)
    requires h < |line|
    ensures r.Ok? ==> r.value.lo <= r.value.hi
  {
    var lo :- Number(line[..h], lineIdx);
    var hi :- Number(line[h + 1..], lineIdx);
    if lo > hi then Err(StartExceedsEnd(lo, hi, lineIdx + 1)) else Ok(Range(lo, hi))
  }

  /** The search for the hyphen from byte `j` on, then the two numbers around it. */
  function RangeFrom(line: string, j: nat, lineIdx: nat): (r: Result<Range, ParseError>)
    requires j <= |line|
    ensures r.Ok? ==> r.value.lo <= r.value.hi
    decreases |line| - j
  {
    if j == |line| then Err(MissingHyphen(lineIdx + 1))
    else if line[j] == '-' then RangeParts(line, j, lineIdx)
    else RangeFrom(line, j + 1, lineIdx)
  }

  /** A range line: the text before the first `-` and the text after it are numbers,
      and the start may not exceed the end. */
  function RangeOf(line: string, lineIdx: nat): (r: Result<Range, ParseError>)
    ensures r.Ok? ==> r.value.lo <= r.value.hi
  {
    RangeFrom(line, 0, lineIdx)
  }

  lemma {:induction false} RangeFromHyphen(line: string, j: nat, lineIdx: nat)
    requires j <= |line|
    ensures var h := IndexOf(line, '-', j);
      RangeFrom(line, j, lineIdx) == if h == |line| then Err(MissingHyphen(lineIdx + 1)) else RangeParts(line, h, lineIdx)
    decreases |line| - j
  {
    if j < |line| && line[j] != '-' {
      RangeFromHyphen(line, j + 1, lineIdx);
    }
  }

  /** The range line is split at its first hyphen; a line without one is an error. */
  lemma {:induction false} RangeOfHyphen(line: string, lineIdx: nat)
    ensures '-' !in line ==> RangeOf(line, lineIdx) == Err(MissingHyphen(lineIdx + 1))
    ensures var h := IndexOf(line, '-', 0);
      RangeOf(line, lineIdx) == if h == |line| then Err(MissingHyphen(lineIdx + 1)) else RangeParts(line, h, lineIdx)
  {
    RangeFromHyphen(line, 0, lineIdx);
  }

  /** A range printed as `lo-hi`. */
  function RangeText(r: Range): string
  {
    Decimal(r.lo) + "-" + Decimal(r.hi)
  }

  lemma {:induction false} DecimalNoSigns(n: nat)
    ensures '-' !in Decimal(n) && '\n' !in Decimal(n) && '\r' !in Decimal(n)
  {
    var d := Decimal(n);
    forall j | 0 <= j < |d| ensures d[j] != '-' && d[j] != '\n' && d[j] != '\r' {
      assert IsDigit(d[j]);
    }
  }

  /** A printed range reads back as itself. */
  lemma RangeOfText(r: Range, lineIdx: nat)
    requires r.lo <= r.hi
    ensures RangeOf(RangeText(r), lineIdx) == Ok(r)
    ensures RangeText(r) != [] && '\n' !in RangeText(r) && StripCR(RangeText(r)) == RangeText(r)
  {
    var a, b := Decimal(r.lo), Decimal(r.hi);
    var line := RangeText(r);
    DecimalNoSigns(r.lo);
    DecimalNoSigns(r.hi);
    assert forall j :: 0 <= j < |a| ==> line[j] == a[j];
    assert line[|a|] == '-';
    IndexOfAt(line, '-', 0, |a|);
    RangeOfHyphen(line, lineIdx);
    assert line[..|a|] == a;
    assert line[|a| + 1..] == b;
    NumberOfDecimal(r.lo, lineIdx);
    NumberOfDecimal(r.hi, lineIdx);
    assert line[|line| - 1] == b[|b| - 1];
    assert '\n' !in line by {
      forall j | 0 <= j < |line| ensures line[j] != '\n' {
        if j < |a| { assert line[j] == a[j]; }
        else if j > |a| { assert line[j] == b[j - |a| - 1]; }
      }
    }
  }

  /** The line handling both parsers share: parse a range
      line. */
  method ParseRangeLine(line: string, lineIdx: nat) returns (r: Result<Range, ParseError>)
    ensures r == RangeOf(line, lineIdx)
  {
    RangeOfHyphen(line, lineIdx);
    var hyphen := IndexOf(line, '-', 0);
    if hyphen == |line| {
      return Err(MissingHyphen(lineIdx + 1));
    }
    var lo :- ParseNumber(line[..hyphen], lineIdx);
    var hi :- ParseNumber(line[hyphen + 1..], lineIdx);
    if lo > hi {
      return Err(StartExceedsEnd(lo, hi, lineIdx + 1));
    }
    return Ok(Range(lo, hi));
  }

  // ---------------------------------------------------------------------------
  // `parse_input` and `parse_ranges` as functions of the lines
  // ---------------------------------------------------------------------------

  /** `parse_input` from line `lineIdx` on: every blank line switches to IDs (and
      stays switched), a non-blank line is a range before the switch and an ID after
      it, and the first bad line is the answer. */
  function InventoryFrom(ls: seq<string>, lineIdx: nat, inIds: bool, acc: Inventory): (r: Result<Inventory, ParseError>)
    ensures r.Ok? && !inIds ==> |r.value.ranges| >= |acc.ranges|
    ensures r.Ok? && inIds ==> r.value.ranges == acc.ranges
    decreases |ls|
  {
    if ls == [] then Ok(acc)
    else if ls[0] == [] then InventoryFrom(ls[1..], lineIdx + 1, true, acc)
    else if !inIds then
      var range :- RangeOf(ls[0], lineIdx);
      InventoryFrom(ls[1..], lineIdx + 1, false, acc.(ranges := acc.ranges + [range]))
    else
      var id :- Number(ls[0], lineIdx);
      InventoryFrom(ls[1..], lineIdx + 1, true, acc.(ids := acc.ids + [id]))
  }

  /** `parse_input`: the ranges and IDs of the whole input, each list non-empty. */
  function InputOf(s: string): Result<Inventory, ParseError>
  {
    var inv :- InventoryFrom(Pieces(s), 0, false, Inventory([], []));
    if inv.ranges == [] then Err(NoRanges)
    else if inv.ids == [] then Err(NoIds)
    else Ok(inv)
  }

  /** `parse_ranges` from line `lineIdx` on: range lines until the first blank line
      (or the end), the first bad line being the answer. */
  function RangesFrom(ls: seq<string>, lineIdx: nat, acc: seq<Range>): Result<seq<Range>, ParseError>
    decreases |ls|
  {
    if ls == [] || ls[0] == [] then Ok(acc)
    else
      var range :- RangeOf(ls[0], lineIdx);
      RangesFrom(ls[1..], lineIdx + 1, acc + [range])
  }

  /** `parse_ranges`: the ranges before the first blank line, at least one. */
  function RangesOf(s: string): Result<seq<Range>, ParseError>
  {
    var rs :- RangesFrom(Pieces(s), 0, []);
    if rs == [] then Err(NoRanges) else Ok(rs)
  }

  /** Every range the parsers accept has its start at most its end. */
  lemma {:induction false} RangesFromValid(ls: seq<string>, lineIdx: nat, acc: seq<Range>)
    requires AllValid(acc) && RangesFrom(ls, lineIdx, acc).Ok?
    ensures AllValid(RangesFrom(ls, lineIdx, acc).value)
    decreases |ls|
  {
    if ls != [] && ls[0] != [] {
      var range := RangeOf(ls[0], lineIdx).value;
      RangesFromValid(ls[1..], lineIdx + 1, acc + [range]);
    }
  }

  lemma {:induction false} InventoryFromValid(ls: seq<string>, lineIdx: nat, inIds: bool, acc: Inventory)
    requires AllValid(acc.ranges) && InventoryFrom(ls, lineIdx, inIds, acc).Ok?
    ensures AllValid(InventoryFrom(ls, lineIdx, inIds, acc).value.ranges)
    decreases |ls|
  {
    if ls != [] {
      if ls[0] == [] {
        InventoryFromValid(ls[1..], lineIdx + 1, true, acc);
      } else if !inIds {
        var range := RangeOf(ls[0], lineIdx).value;
        InventoryFromValid(ls[1..], lineIdx + 1, false, acc.(ranges := acc.ranges + [range]));
      } else {
        var id := Number(ls[0], lineIdx).value;
        InventoryFromValid(ls[1..], lineIdx + 1, true, acc.(ids := acc.ids + [id]));
      }
    }
  }

  /** A successful `parse_input` yields at least one range and one ID, every range
      with its start at most its end. */
  lemma InputValid(s: string)
    requires InputOf(s).Ok?
    ensures AllValid(InputOf(s).value.ranges)
    ensures InputOf(s).value.ranges != [] && InputOf(s).value.ids != []
  {
    InventoryFromValid(Pieces(s), 0, false, Inventory([], []));
  }

  lemma RangesValid(s: string)
    requires RangesOf(s).Ok?
    ensures AllValid(RangesOf(s).value) && RangesOf(s).value != []
  {
    RangesFromValid(Pieces(s), 0, []);
  }

  /** Before the blank line both parsers read the same ranges, so where `parse_input`
      succeeds `parse_ranges` succeeds with the same ranges. */
  lemma {:induction false} RangesAgree(ls: seq<string>, lineIdx: nat, acc: seq<Range>, ids: seq<nat>)
    requires InventoryFrom(ls, lineIdx, false, Inventory(acc, ids)).Ok?
    ensures RangesFrom(ls, lineIdx, acc) == Ok(InventoryFrom(ls, lineIdx, false, Inventory(acc, ids)).value.ranges)
    decreases |ls|
  {
    if ls != [] && ls[0] != [] {
      var range := RangeOf(ls[0], lineIdx).value;
      RangesAgree(ls[1..], lineIdx + 1, acc + [range], ids);
    }
  }

  /** Part 2 reads the ranges Part 1 reads. */
  lemma InputRanges(s: string)
    requires InputOf(s).Ok?
    ensures RangesOf(s) == Ok(InputOf(s).value.ranges)
  {
    RangesAgree(Pieces(s), 0, [], []);
  }

  // ---------------------------------------------------------------------------
  // The printed form, and the round trip through `parse_input`
  // ---------------------------------------------------------------------------

  function RangesText(rs: seq<Range>): string
  {
    if rs == [] then "" else (RangeText(rs[0]) + "\n") + RangesText(rs[1..])
  }

  function IdsText(ids: seq<nat>): string
  {
    if ids == [] then "" else (Decimal(ids[0]) + "\n") + IdsText(ids[1..])
  }

  /** The puzzle's input format: one `lo-hi` line per range, a blank line, one line per
      ID, each line ended by `\n`. */
  function InventoryText(inv: Inventory): string
  {
    RangesText(inv.ranges) + ("\n" + IdsText(inv.ids))
  }

  /** The lines of the printed ranges. */
  function RangeLines(rs: seq<Range>): (ls: seq<string>)
    ensures |ls| == |rs|
  {
    if rs == [] then [] else [RangeText(rs[0])] + RangeLines(rs[1..])
  }

  /** The lines of the printed IDs. */
  function IdLines(ids: seq<nat>): (ls: seq<string>)
    ensures |ls| == |ids|
  {
    if ids == [] then [] else [Decimal(ids[0])] + IdLines(ids[1..])
  }

  lemma {:induction false} PiecesOfRanges(rs: seq<Range>, rest: string)
    requires AllValid(rs)
    ensures Pieces(RangesText(rs) + rest) == RangeLines(rs) + Pieces(rest)
    decreases |rs|
  {
    if rs == [] {
      assert RangesText(rs) + rest == rest;
      assert RangeLines(rs) + Pieces(rest) == Pieces(rest);
    } else {
      AllValidTail(rs);
      PiecesOfRanges(rs[1..], rest);
      PiecesOfRange(rs, rest);
    }
  }

  lemma {:induction false} PiecesOfRange(rs: seq<Range>, rest: string)
    requires AllValid(rs) && rs != []
    requires Pieces(RangesText(rs[1..]) + rest) == RangeLines(rs[1..]) + Pieces(rest)
    ensures Pieces(RangesText(rs) + rest) == RangeLines(rs) + Pieces(rest)
  {
    var line := RangeText(rs[0]);
    var tail := RangesText(rs[1..]) + rest;
    var s := RangesText(rs) + rest;
    assert RangesText(rs) == (line + "\n") + RangesText(rs[1..]);
    AppendAssoc(line + "\n", RangesText(rs[1..]), rest);
    RangeOfText(rs[0], 0);
    PiecesCons(line, tail);
    assert Pieces(s) == [line] + Pieces(tail);
    assert RangeLines(rs) == [line] + RangeLines(rs[1..]);
    ConsAppend(line, RangeLines(rs[1..]), Pieces(rest));
  }

  lemma {:induction false} PiecesOfIds(ids: seq<nat>, rest: string)
    ensures Pieces(IdsText(ids) + rest) == IdLines(ids) + Pieces(rest)
    decreases |ids|
  {
    if ids == [] {
      assert IdsText(ids) + rest == rest;
      assert IdLines(ids) + Pieces(rest) == Pieces(rest);
    } else {
      PiecesOfIds(ids[1..], rest);
      PiecesOfId(ids, rest);
    }
  }

  lemma {:induction false} PiecesOfId(ids: seq<nat>, rest: string)
    requires ids != []
    requires Pieces(IdsText(ids[1..]) + rest) == IdLines(ids[1..]) + Pieces(rest)
    ensures Pieces(IdsText(ids) + rest) == IdLines(ids) + Pieces(rest)
  {
    var line := Decimal(ids[0]);
    var tail := IdsText(ids[1..]) + rest;
    var s := IdsText(ids) + rest;
    assert IdsText(ids) == (line + "\n") + IdsText(ids[1..]);
    AppendAssoc(line + "\n", IdsText(ids[1..]), rest);
    DecimalNoSigns(ids[0]);
    assert line[|line| - 1] != '\r';
    PiecesCons(line, tail);
    assert Pieces(s) == [line] + Pieces(tail);
    assert IdLines(ids) == [line] + IdLines(ids[1..]);
    ConsAppend(line, IdLines(ids[1..]), Pieces(rest));
  }

  lemma AllValidTail(rs: seq<Range>)
    requires AllValid(rs) && rs != []
    ensures AllValid(rs[1..])
  {
    forall k | 0 <= k < |rs| - 1 ensures rs[1..][k].lo <= rs[1..][k].hi {
      assert rs[1..][k] == rs[k + 1];
    }
  }

  /** Reading a range line before the blank line. */
  lemma {:induction false} ReadRangeLine(line: string, rest: seq<string>, lineIdx: nat, acc: seq<Range>, r: Range)
    requires line != [] && RangeOf(line, lineIdx) == Ok(r)
    ensures InventoryFrom([line] + rest, lineIdx, false, Inventory(acc, [])) ==
            InventoryFrom(rest, lineIdx + 1, false, Inventory(acc + [r], []))
  {
    var ls := [line] + rest;
    assert ls[0] == line && ls[1..] == rest;
  }

  lemma {:induction false} ReadRangeText(r: Range, rest: seq<string>, lineIdx: nat, acc: seq<Range>)
    requires r.lo <= r.hi
    ensures InventoryFrom([RangeText(r)] + rest, lineIdx, false, Inventory(acc, [])) ==
            InventoryFrom(rest, lineIdx + 1, false, Inventory(acc + [r], []))
  {
    RangeOfText(r, lineIdx);
    ReadRangeLine(RangeText(r), rest, lineIdx, acc, r);
  }

  /** Reading an ID line after the blank line. */
  lemma {:induction false} ReadIdLine(line: string, rest: seq<string>, lineIdx: nat, rs: seq<Range>, acc: seq<nat>, id: nat)
    requires line != [] && Number(line, lineIdx) == Ok(id)
    ensures InventoryFrom([line] + rest, lineIdx, true, Inventory(rs, acc)) ==
            InventoryFrom(rest, lineIdx + 1, true, Inventory(rs, acc + [id]))
  {
    var ls := [line] + rest;
    assert ls[0] == line && ls[1..] == rest;
  }

  /** The first of several printed ranges is read and pushed. */
  lemma {:induction false} ReadFirstRange(rs: seq<Range>, ls: seq<string>, lineIdx: nat, acc: seq<Range>)
    requires rs != [] && rs[0].lo <= rs[0].hi
    ensures InventoryFrom(RangeLines(rs) + ls, lineIdx, false, Inventory(acc, [])) ==
            InventoryFrom(RangeLines(rs[1..]) + ls, lineIdx + 1, false, Inventory(acc + [rs[0]], []))
  {
    var line := RangeText(rs[0]);
    var more := RangeLines(rs[1..]);
    assert RangeLines(rs) == [line] + more;
    ConsAppend(line, more, ls);
    ReadRangeText(rs[0], more + ls, lineIdx, acc);
  }

  /** Printed ranges before the blank line are read back in order. */
  lemma {:induction false} ReadRanges(rs: seq<Range>, ls: seq<string>, lineIdx: nat, acc: seq<Range>)
    requires AllValid(rs)
    ensures InventoryFrom(RangeLines(rs) + ls, lineIdx, false, Inventory(acc, [])) ==
            InventoryFrom(ls, lineIdx + |rs|, false, Inventory(acc + rs, []))
    decreases |rs|
  {
    if rs == [] {
      assert RangeLines(rs) + ls == ls;
      assert acc + rs == acc;
    } else {
      ReadFirstRange(rs, ls, lineIdx, acc);
      AllValidTail(rs);
      ReadRanges(rs[1..], ls, lineIdx + 1, acc + [rs[0]]);
      AppendAssoc(acc, [rs[0]], rs[1..]);
      assert [rs[0]] + rs[1..] == rs;
    }
  }

  lemma {:induction false} ReadIds(ids: seq<nat>, ls: seq<string>, lineIdx: nat, rs: seq<Range>, acc: seq<nat>)
    ensures InventoryFrom(IdLines(ids) + ls, lineIdx, true, Inventory(rs, acc)) ==
            InventoryFrom(ls, lineIdx + |ids|, true, Inventory(rs, acc + ids))
    decreases |ids|
  {
    if ids == [] {
      assert IdLines(ids) + ls == ls;
      assert acc + ids == acc;
    } else {
      var line := Decimal(ids[0]);
      var more := IdLines(ids[1..]);
      assert IdLines(ids) == [line] + more;
      ConsAppend(line, more, ls);
      NumberOfDecimal(ids[0], lineIdx);
      ReadIdLine(line, more + ls, lineIdx, rs, acc, ids[0]);
      ReadIds(ids[1..], ls, lineIdx + 1, rs, acc + [ids[0]]);
      AppendAssoc(acc, [ids[0]], ids[1..]);
      assert [ids[0]] + ids[1..] == ids;
    }
  }

  lemma PiecesEmpty()
    ensures Pieces([]) == [[]]
  {
  }

  /** The lines of the ID section of a printed inventory, blank line first. */
  lemma {:induction false} IdSectionPieces(ids: seq<nat>)
    ensures Pieces("\n" + IdsText(ids)) == [[]] + (IdLines(ids) + [[]])
  {
    var text := IdsText(ids);
    PiecesCons([], text);
    assert [] + "\n" + text == "\n" + text;
    PiecesOfIds(ids, []);
    assert text + [] == text;
    PiecesEmpty();
  }

  /** The lines of a printed inventory. */
  lemma InventoryPieces(inv: Inventory)
    requires AllValid(inv.ranges)
    ensures Pieces(InventoryText(inv)) == RangeLines(inv.ranges) + ([[]] + (IdLines(inv.ids) + [[]]))
  {
    var tail := "\n" + IdsText(inv.ids);
    PiecesOfRanges(inv.ranges, tail);
    IdSectionPieces(inv.ids);
  }

  /** Printing an inventory of at least one valid range and at least one ID and
      parsing it back gives the same inventory, and Part 2's parser reads the same
      ranges. */
  lemma InputRoundTrip(inv: Inventory)
    requires AllValid(inv.ranges) && inv.ranges != [] && inv.ids != []
    ensures InputOf(InventoryText(inv)) == Ok(inv)
    ensures RangesOf(InventoryText(inv)) == Ok(inv.ranges)
  {
    var s := InventoryText(inv);
    InventoryPieces(inv);
    var tail := [[]] + (IdLines(inv.ids) + [[]]);
    ReadRanges(inv.ranges, tail, 0, []);
    assert [] + inv.ranges == inv.ranges;
    var k := |inv.ranges|;
    assert tail[0] == [] && tail[1..] == IdLines(inv.ids) + [[]];
    ReadIds(inv.ids, [[]], k + 1, inv.ranges, []);
    assert [] + inv.ids == inv.ids;
    var l: seq<string> := [[]];
    assert l[0] == [] && l[1..] == [];
    assert InventoryFrom([[]], k + 1 + |inv.ids|, true, inv) == Ok(inv);
    InputRanges(s);
  }

  // ---------------------------------------------------------------------------
  // The parsers' byte loops
  // ---------------------------------------------------------------------------

  /** One line of `parse_input`: a blank line switches to IDs; a range line and an ID
      line are parsed and pushed. */
  method InputLine(line: string, lineIdx: nat, inIds: bool, inv: Inventory, ghost rest: seq<string>)
    returns (r: Result<Inventory, ParseError>, inIds': bool)
    ensures r.Err? ==> InventoryFrom([line] + rest, lineIdx, inIds, inv) == Err(r.error)
    ensures r.Ok? ==> InventoryFrom([line] + rest, lineIdx, inIds, inv) == InventoryFrom(rest, lineIdx + 1, inIds', r.value)
  {
    var ls := [line] + rest;
    assert ls[0] == line && ls[1..] == rest;
    if |line| == 0 {
      return Ok(inv), true;
    }
    if !inIds {
      var range := ParseRangeLine(line, lineIdx);
      if range.Err? {
        return Err(range.error), inIds;
      }
      return Ok(inv.(ranges := inv.ranges + [range.value])), inIds;
    }
    var id := ParseNumber(line, lineIdx);
    if id.Err? {
      return Err(id.error), inIds;
    }
    return Ok(inv.(ids := inv.ids + [id.value])), inIds;
  }

  /** The line ending at `i` (exclusive) with a `\r` before it, as the source trims it. */
  method LineAt(s: string, start: nat, i: nat) returns (line: string)
    requires start <= i <= |s|
    ensures line == StripCR(s[start..i])
  {
    var end := i;
    if end > start && s[end - 1] == '\r' {
      end := end - 1;
    }
    line := s[start..end];
  }

  /** Bytes `start..i` hold no line break. */
  ghost predicate InLine(s: string, start: nat, i: nat)
  {
    start <= i <= |s| && forall j :: start <= j < i ==> s[j] != '\n'
  }

  /** The state of `parse_input`'s loop before byte `i`: the lines not yet handled are
      those from `start`, and with them the loop's state gives `goal`.  Once the last
      line is handled (`i == |s| + 1`) the state is the answer. */
  ghost predicate InputLoop(s: string, i: nat, start: nat, lineIdx: nat, inIds: bool, inv: Inventory,
                            goal: Result<Inventory, ParseError>)
  {
    if i <= |s| then InLine(s, start, i) && InventoryFrom(Pieces(s[start..]), lineIdx, inIds, inv) == goal
    else i == |s| + 1 && goal == Ok(inv)
  }

  /** After the line ending at `i`, the loop goes on from the next byte. */
  lemma {:induction false} InputNext(s: string, i: nat, lineIdx: nat, inIds: bool, inv: Inventory,
                  goal: Result<Inventory, ParseError>)
    requires i <= |s| && InventoryFrom(After(s, i), lineIdx, inIds, inv) == goal
    ensures InputLoop(s, i + 1, i + 1, lineIdx, inIds, inv, goal)
  {
  }

  /** `parse_input` at the end of a line. */
  method InputLineEnd(s: string, i: nat, start: nat, lineIdx: nat, inIds: bool, inv: Inventory,
                      ghost goal: Result<Inventory, ParseError>)
    returns (err: Option<ParseError>, lineIdx': nat, inIds': bool, inv': Inventory)
    requires i <= |s| && (i == |s| || s[i] == '\n') && InputLoop(s, i, start, lineIdx, inIds, inv, goal)
    ensures err.Some? ==> goal == Err(err.value)
    ensures err.None? ==> InputLoop(s, i + 1, i + 1, lineIdx', inIds', inv', goal)
  {
    var line := LineAt(s, start, i);
    PiecesAt(s, start, i);
    var res, next := InputLine(line, lineIdx, inIds, inv, After(s, i));
    if res.Err? {
      return Some(res.error), lineIdx, inIds, inv;
    }
    InputNext(s, i, lineIdx + 1, next, res.value, goal);
    return None, lineIdx + 1, next, res.value;
  }

  /** One byte of `parse_input`'s loop; `err` is the failure that ends the parse. */
  method InputStep(s: string, i: nat, start: nat, lineIdx: nat, inIds: bool, inv: Inventory,
                   ghost goal: Result<Inventory, ParseError>)
    returns (err: Option<ParseError>, start': nat, lineIdx': nat, inIds': bool, inv': Inventory)
    requires i <= |s| && InputLoop(s, i, start, lineIdx, inIds, inv, goal)
    ensures err.Some? ==> goal == Err(err.value)
    ensures err.None? ==> InputLoop(s, i + 1, start', lineIdx', inIds', inv', goal)
  {
    if i < |s| && s[i] != '\n' {
      return None, start, lineIdx, inIds, inv;
    }
    err, lineIdx', inIds', inv' := InputLineEnd(s, i, start, lineIdx, inIds, inv, goal);
    start' := i + 1;
  }

  /** `parse_input`: the source's byte loop, which ends a line at each `\n` and at the
      end of the input. */
  method ParseInput(s: string) returns (r: Result<Inventory, ParseError>)
    ensures r == InputOf(s)
  {
    ghost var goal := InventoryFrom(Pieces(s), 0, false, Inventory([], []));
    var inv := Inventory([], []);
    var lineStart, lineIdx, inIds := 0, 0, false;
    var i := 0;
    assert s[0..] == s;
    while i <= |s|
      invariant InputLoop(s, i, lineStart, lineIdx, inIds, inv, goal)
      decreases |s| + 1 - i
    {
      var err;
      err, lineStart, lineIdx, inIds, inv := InputStep(s, i, lineStart, lineIdx, inIds, inv, goal);
      if err.Some? {
        return Err(err.value);
      }
      i := i + 1;
    }
    if |inv.ranges| == 0 {
      return Err(NoRanges);
    }
    if |inv.ids| == 0 {
      return Err(NoIds);
    }
    return Ok(inv);
  }

  /** One line of `parse_ranges`: `stop` at a blank line, else parse and push. */
  method RangesLine(line: string, lineIdx: nat, ranges: seq<Range>, ghost rest: seq<string>)
    returns (r: Result<seq<Range>, ParseError>, stop: bool)
    ensures stop ==> r == Ok(ranges) && RangesFrom([line] + rest, lineIdx, ranges) == Ok(ranges)
    ensures !stop && r.Err? ==> RangesFrom([line] + rest, lineIdx, ranges) == Err(r.error)
    ensures !stop && r.Ok? ==> RangesFrom([line] + rest, lineIdx, ranges) == RangesFrom(rest, lineIdx + 1, r.value)
  {
    var ls := [line] + rest;
    assert ls[0] == line && ls[1..] == rest;
    if |line| == 0 {
      return Ok(ranges), true;
    }
    var range := ParseRangeLine(line, lineIdx);
    if range.Err? {
      return Err(range.error), false;
    }
    return Ok(ranges + [range.value]), false;
  }

  /** The state of `parse_ranges`' loop, as for `parse_input`. */
  ghost predicate RangesLoop(s: string, i: nat, start: nat, lineIdx: nat, ranges: seq<Range>,
                             goal: Result<seq<Range>, ParseError>)
  {
    if i <= |s| then InLine(s, start, i) && RangesFrom(Pieces(s[start..]), lineIdx, ranges) == goal
    else i == |s| + 1 && goal == Ok(ranges)
  }

  /** After the line ending at `i`, the loop goes on from the next byte. */
  lemma {:induction false} RangesNext(s: string, i: nat, lineIdx: nat, ranges: seq<Range>,
                   goal: Result<seq<Range>, ParseError>)
    requires i <= |s| && RangesFrom(After(s, i), lineIdx, ranges) == goal
    ensures RangesLoop(s, i + 1, i + 1, lineIdx, ranges, goal)
  {
  }

  /** `parse_ranges` at the end of a line; `done` ends the loop at a blank line with
      the ranges gathered so far the answer. */
  method RangesLineEnd(s: string, i: nat, start: nat, lineIdx: nat, ranges: seq<Range>,
                       ghost goal: Result<seq<Range>, ParseError>)
    returns (err: Option<ParseError>, done: bool, lineIdx': nat, ranges': seq<Range>)
    requires i <= |s| && (i == |s| || s[i] == '\n') && RangesLoop(s, i, start, lineIdx, ranges, goal)
    ensures err.Some? ==> goal == Err(err.value)
    ensures err.None? && done ==> goal == Ok(ranges')
    ensures err.None? && !done ==> RangesLoop(s, i + 1, i + 1, lineIdx', ranges', goal)
  {
    var line := LineAt(s, start, i);
    PiecesAt(s, start, i);
    var res, stop := RangesLine(line, lineIdx, ranges, After(s, i));
    if res.Err? {
      return Some(res.error), false, lineIdx, ranges;
    }
    if stop {
      return None, true, lineIdx, ranges;
    }
    RangesNext(s, i, lineIdx + 1, res.value, goal);
    return None, false, lineIdx + 1, res.value;
  }

  /** One byte of `parse_ranges`' loop. */
  method RangesStep(s: string, i: nat, start: nat, lineIdx: nat, ranges: seq<Range>,
                    ghost goal: Result<seq<Range>, ParseError>)
    returns (err: Option<ParseError>, done: bool, start': nat, lineIdx': nat, ranges': seq<Range>)
    requires i <= |s| && RangesLoop(s, i, start, lineIdx, ranges, goal)
    ensures err.Some? ==> goal == Err(err.value)
    ensures err.None? && done ==> goal == Ok(ranges')
    ensures err.None? && !done ==> RangesLoop(s, i + 1, start', lineIdx', ranges', goal)
  {
    if i < |s| && s[i] != '\n' {
      return None, false, start, lineIdx, ranges;
    }
    err, done, lineIdx', ranges' := RangesLineEnd(s, i, start, lineIdx, ranges, goal);
    start' := i + 1;
  }

  /** `parse_ranges`: the same byte loop, stopping at the first blank line. */
  method ParseRanges(s: string) returns (r: Result<seq<Range>, ParseError>)
    ensures r == RangesOf(s)
  {
    ghost var goal := RangesFrom(Pieces(s), 0, []);
    var ranges: seq<Range> := [];
    var lineStart, lineIdx := 0, 0;
    var i := 0;
    assert s[0..] == s;
    while i <= |s|
      invariant RangesLoop(s, i, lineStart, lineIdx, ranges, goal)
      decreases |s| + 1 - i
    {
      var err, done;
      err, done, lineStart, lineIdx, ranges := RangesStep(s, i, lineStart, lineIdx, ranges, goal);
      if err.Some? {
        return Err(err.value);
      }
      if done {
        break;
      }
      i := i + 1;
    }
    if |ranges| == 0 {
      return Err(NoRanges);
    }
    return Ok(ranges);
  }

  // ---------------------------------------------------------------------------
  // `is_fresh`
  // ---------------------------------------------------------------------------

  /** `partition_point` with the predicate `start <= id`: the length of the longest
      prefix of ranges that start at or before `id`.  On ranges sorted by start this
      is the one index the binary search can return. */
  function PartitionPoint(rs: seq<Range>, id: nat): (k: nat)
    ensures k <= |rs|
    ensures forall j :: 0 <= j < k ==> rs[j].lo <= id
    ensures k < |rs| ==> id < rs[k].lo
  {
    if rs == [] || id < rs[0].lo then 0
    else
      var k := PartitionPoint(rs[1..], id);
      assert forall j :: 1 <= j < k + 1 ==> rs[j] == rs[1..][j - 1];
      k + 1
  }

  /** `is_fresh`: the last range starting at or before `id` ends at or after it. */
  function IsFresh(id: nat, rs: seq<Range>): bool
  {
    var k := PartitionPoint(rs, id);
    k > 0 && id <= rs[k - 1].hi
  }

  /** On merged ranges the lookup finds exactly the covered IDs. */
  lemma FreshIffCovered(id: nat, rs: seq<Range>)
    requires Normalized(rs)
    ensures IsFresh(id, rs) <==> Covered(rs, id)
  {
    var k := PartitionPoint(rs, id);
    if IsFresh(id, rs) {
      assert rs[k - 1] in rs && InRange(rs[k - 1], id);
    }
    if Covered(rs, id) {
      var r :| r in rs && InRange(r, id);
      var j :| 0 <= j < |rs| && rs[j] == r;
      if j + 1 < k {
        SeparatedOrdered(rs, j, k - 1);
        assert false;
      } else if j == k {
        assert false;
      } else if j > k {
        SeparatedOrdered(rs, k, j);
        assert false;
      }
    }
  }

  // ---------------------------------------------------------------------------
  // The answers
  // ---------------------------------------------------------------------------

  /** How many of `ids` (with repeats) the lookup reports fresh. */
  function FreshCount(ids: seq<nat>, rs: seq<Range>): nat
  {
    if ids == [] then 0
    else FreshCount(ids[..|ids| - 1], rs) + (if IsFresh(ids[|ids| - 1], rs) then 1 else 0)
  }

  /** How many of `ids` (with repeats) some range of `rs` contains. */
  function CoveredCount(ids: seq<nat>, rs: seq<Range>): nat
  {
    if ids == [] then 0
    else CoveredCount(ids[..|ids| - 1], rs) + (if Covered(rs, ids[|ids| - 1]) then 1 else 0)
  }

  /** Counting fresh IDs over the merged ranges counts the IDs the input ranges
      contain. */
  lemma {:induction false} FreshCountIsCovered(ids: seq<nat>, merged: seq<Range>, ranges: seq<Range>)
    requires Normalized(merged)
    requires forall x :: Covered(merged, x) <==> Covered(ranges, x)
    ensures FreshCount(ids, merged) == CoveredCount(ids, ranges)
  {
    if ids != [] {
      FreshCountIsCovered(ids[..|ids| - 1], merged, ranges);
      FreshIffCovered(ids[|ids| - 1], merged);
    }
  }

  /** Part 1's loop: one lookup per ID. */
  method CountFresh(ids: seq<nat>, merged: seq<Range>) returns (found: nat)
    ensures found == FreshCount(ids, merged)
  {
    found := 0;
    var i := 0;
    while i < |ids|
      invariant i <= |ids| && found == FreshCount(ids[..i], merged)
    {
      assert ids[..i + 1][..i] == ids[..i];
      found := found + (if IsFresh(ids[i], merged) then 1 else 0);
      i := i + 1;
    }
    assert ids[..i] == ids;
  }

  /** Part 2's loop: the widths of the merged ranges, added up. */
  method SumWidths(merged: seq<Range>) returns (total: nat)
    requires AllValid(merged)
    ensures total == Width(merged)
  {
    total := 0;
    var i := 0;
    while i < |merged|
      invariant i <= |merged| && AllValid(merged[..i]) && total == Width(merged[..i])
    {
      assert merged[..i + 1][..i] == merged[..i];
      total := total + (merged[i].hi - merged[i].lo + 1);
      i := i + 1;
    }
    assert merged[..i] == merged;
  }

  /** `part1`: the number of IDs (with repeats) that some range contains. */
  method Part1(s: string) returns (r: Result<nat, ParseError>)
    ensures InputOf(s).Err? ==> r == Err(InputOf(s).error)
    ensures InputOf(s).Ok? ==> r == Ok(CoveredCount(InputOf(s).value.ids, InputOf(s).value.ranges))
  {
    var inv :- ParseInput(s);
    InputValid(s);
    var merged := MergeRanges(inv.ranges);
    var found := CountFresh(inv.ids, merged);
    FreshCountIsCovered(inv.ids, merged, inv.ranges);
    return Ok(found);
  }

  /** `part2`: the size of the union of the ranges before the first blank line. */
  method Part2(s: string) returns (r: Result<nat, ParseError>)
    ensures RangesOf(s).Err? ==> r == Err(RangesOf(s).error)
    ensures RangesOf(s).Ok? ==> r == Ok(UnionSize(RangesOf(s).value))
  {
    var ranges :- ParseRanges(s);
    RangesValid(s);
    var merged := MergeRanges(ranges);
    var total := SumWidths(merged);
    MergedUnionSize(ranges, merged);
    return Ok(total);
  }

  /** `both`: both answers from one parse and one merge. */
  method Both(s: string) returns (r: Result<(nat, nat), ParseError>)
    ensures InputOf(s).Err? ==> r == Err(InputOf(s).error)
    ensures InputOf(s).Ok? ==>
      r == Ok((CoveredCount(InputOf(s).value.ids, InputOf(s).value.ranges), UnionSize(InputOf(s).value.ranges)))
  {
    var inv :- ParseInput(s);
    InputValid(s);
    var merged := MergeRanges(inv.ranges);
    var found := CountFresh(inv.ids, merged);
    FreshCountIsCovered(inv.ids, merged, inv.ranges);
    var total := SumWidths(merged);
    MergedUnionSize(inv.ranges, merged);
    return Ok((found, total));
  }
}
