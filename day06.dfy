/** Day 6: a worksheet of math problems written in columns.  The last line holds one
    operator per problem; the lines above hold the operands.  Problems are the maximal
    runs of columns that are not blank in every line.  Part 1 reads each operand
    across its row; Part 2 reads one operand per column, from the rightmost column to
    the leftmost, with the digits of each column taken from the top down. */
module Day06 {
  import opened Common

  datatype SheetError =
    | TooFewLines
    | EmptyInput
    | NoProblems
    | MultipleOperators(problem: nat)
    | MissingOperator(problem: nat)
    | MissingNumber(problem: nat, row: nat)
    | NonDigitInRow(ch: char, problem: nat, row: nat)
    | NonDigitInColumn(ch: char, problem: nat, row: nat, col: nat)

  /** The padded lines of the worksheet and their common width. */
  datatype Sheet = Sheet(lines: seq<string>, width: nat)

  /** The columns of one problem, `start` inclusive and `end` exclusive. */
  datatype Segment = Segment(start: nat, end: nat)

  /** The Part 1 (row-wise) and Part 2 (column-wise) answers. */
  datatype Totals = Totals(byRow: nat, byCol: nat)

  /** Every line is `w` characters wide. */
  predicate Rect(lines: seq<string>, w: nat)
  {
    forall r :: 0 <= r < |lines| ==> |lines[r]| == w
  }

  // ---------------------------------------------------------------------------
  // `parse_lines`
  // ---------------------------------------------------------------------------

  /** `trim_end_matches('\r')`: every trailing carriage return goes. */
  function TrimCRs(line: string): (t: string)
    ensures |t| <= |line| && t == line[..|t|]
    ensures t == [] || t[|t| - 1] != '\r'
    ensures forall i :: |t| <= i < |line| ==> line[i] == '\r'
  {
    if line != [] && line[|line| - 1] == '\r' then TrimCRs(line[..|line| - 1]) else line
  }

  function TrimAll(ls: seq<string>): (r: seq<string>)
    ensures |r| == |ls| && forall k :: 0 <= k < |ls| ==> r[k] == TrimCRs(ls[k])
  {
    if ls == [] then [] else [TrimCRs(ls[0])] + TrimAll(ls[1..])
  }

  /** `lines.iter().map(len).max().unwrap_or(0)`. */
  function MaxLen(ls: seq<string>): (m: nat)
    ensures forall k :: 0 <= k < |ls| ==> |ls[k]| <= m
    ensures ls == [] ==> m == 0
    ensures ls != [] ==> exists k :: 0 <= k < |ls| && |ls[k]| == m
  {
    if ls == [] then 0
    else
      var m := MaxLen(ls[..|ls| - 1]);
      assert forall k :: 0 <= k < |ls| - 1 ==> ls[..|ls| - 1][k] == ls[k];
      if |ls[|ls| - 1]| > m then |ls[|ls| - 1]| else m
  }

  /** `n` spaces. */
  function Spaces(n: nat): (s: string)
    ensures |s| == n && forall i :: 0 <= i < n ==> s[i] == ' '
  {
    seq(n, _ => ' ')
  }

  /** `line.resize(w, b' ')` on a line no longer than `w`. */
  function Pad(line: string, w: nat): string
    requires |line| <= w
  {
    line + Spaces(w - |line|)
  }

  /** Every line padded to width `w`. */
  function PadAll(ls: seq<string>, w: nat): (r: seq<string>)
    requires forall k :: 0 <= k < |ls| ==> |ls[k]| <= w
    ensures |r| == |ls| && forall k :: 0 <= k < |ls| ==> r[k] == Pad(ls[k], w)
  {
    if ls == [] then [] else [Pad(ls[0], w)] + PadAll(ls[1..], w)
  }

  /** The checks and the padding of `parse_lines` on the trimmed lines. */
  function SheetFrom(ls: seq<string>): (r: Result<Sheet, SheetError>)
    ensures r.Ok? ==> |r.value.lines| >= 2 && r.value.width > 0 && Rect(r.value.lines, r.value.width)
  {
    if |ls| < 2 then Err(TooFewLines)
    else
      var w := MaxLen(ls);
      if w == 0 then Err(EmptyInput) else Ok(Sheet(PadAll(ls, w), w))
  }

  /** `parse_lines`: the lines as `str::lines` gives them, each with its trailing
      carriage returns dropped, then padded with spaces to the widest one. */
  function SheetOf(s: string): (r: Result<Sheet, SheetError>)
    ensures r.Ok? ==> |r.value.lines| >= 2 && r.value.width > 0 && Rect(r.value.lines, r.value.width)
  {
    SheetFrom(TrimAll(Lines(s)))
  }

  /** What `parse_lines` promises on the trimmed lines `ls`: fewer than two lines,
      and lines that are all empty, are the errors. */
  lemma SheetErrors(ls: seq<string>)
    ensures SheetFrom(ls) == Err(TooFewLines) <==> |ls| < 2
    ensures SheetFrom(ls) == Err(EmptyInput) <==> |ls| >= 2 && forall k :: 0 <= k < |ls| ==> ls[k] == []
  {
    if |ls| >= 2 && MaxLen(ls) > 0 {
      var k :| 0 <= k < |ls| && |ls[k]| == MaxLen(ls);
      assert ls[k] != [];
    }
  }

  /** Otherwise every line keeps its text and is padded with spaces to the width of
      the widest line. */
  lemma SheetShape(ls: seq<string>, sheet: Sheet)
    requires SheetFrom(ls) == Ok(sheet)
    ensures |sheet.lines| == |ls|
    ensures forall k :: 0 <= k < |ls| ==> |ls[k]| <= sheet.width && sheet.lines[k][..|ls[k]|] == ls[k]
    ensures forall k, c :: 0 <= k < |ls| && |ls[k]| <= c < sheet.width ==> sheet.lines[k][c] == ' '
    ensures exists k :: 0 <= k < |ls| && |ls[k]| == sheet.width
  {
    forall k | 0 <= k < |ls| ensures sheet.lines[k][..|ls[k]|] == ls[k] {
      assert sheet.lines[k] == ls[k] + Spaces(sheet.width - |ls[k]|);
    }
  }

  /** The in-place `resize` of every short line. */
  method PadLines(ls: seq<string>, width: nat) returns (lines: seq<string>)
    requires forall k :: 0 <= k < |ls| ==> |ls[k]| <= width
    ensures lines == PadAll(ls, width)
  {
    lines := ls;
    var k := 0;
    while k < |lines|
      invariant 0 <= k <= |lines| == |ls|
      invariant forall j :: 0 <= j < k ==> lines[j] == Pad(ls[j], width)
      invariant forall j :: k <= j < |lines| ==> lines[j] == ls[j]
    {
      if |lines[k]| < width {
        lines := lines[k := Pad(lines[k], width)];
      } else {
        assert lines[k] + Spaces(0) == lines[k];
      }
      k := k + 1;
    }
  }

  /** `parse_lines`. */
  method ParseLines(s: string) returns (r: Result<Sheet, SheetError>)
    ensures r == SheetOf(s)
  {
    var lines := TrimAll(Lines(s));
    var height := |lines|;
    if height < 2 {
      return Err(TooFewLines);
    }
    var width := MaxLen(lines);
    if width == 0 {
      return Err(EmptyInput);
    }
    lines := PadLines(lines, width);
    return Ok(Sheet(lines, width));
  }

  // ---------------------------------------------------------------------------
  // `find_segments`
  // ---------------------------------------------------------------------------

  /** Column `c` is a space in the first `n` lines. */
  predicate BlankAbove(lines: seq<string>, n: nat, c: nat)
    requires n <= |lines| && forall r :: 0 <= r < |lines| ==> c < |lines[r]|
  {
    forall r :: 0 <= r < n ==> lines[r][c] == ' '
  }

  /** Which columns are blank in every line. */
  function BlankColumns(lines: seq<string>, w: nat): (b: seq<bool>)
    requires Rect(lines, w)
    ensures |b| == w && forall c :: 0 <= c < w ==> (b[c] <==> BlankAbove(lines, |lines|, c))
  {
    seq(w, c requires 0 <= c < w => BlankAbove(lines, |lines|, c))
  }

  /** The segment scan of `find_segments` from column `col` on: `inSeg` says that a
      run of non-blank columns began at `start`. */
  function RunsFrom(blank: seq<bool>, col: nat, inSeg: bool, start: nat): seq<Segment>
    requires col <= |blank|
    decreases |blank| - col
  {
    if col == |blank| then (if inSeg then [Segment(start, col)] else [])
    else if blank[col] then (if inSeg then [Segment(start, col)] else []) + RunsFrom(blank, col + 1, false, start)
    else if inSeg then RunsFrom(blank, col + 1, true, start)
    else RunsFrom(blank, col + 1, true, col)
  }

  function Segments(blank: seq<bool>): seq<Segment>
  {
    RunsFrom(blank, 0, false, 0)
  }

  /** `find_segments`: the problems' column runs, or an error when there are none. */
  function SegmentsOf(lines: seq<string>, w: nat): Result<seq<Segment>, SheetError>
    requires Rect(lines, w)
  {
    var segs := Segments(BlankColumns(lines, w));
    if segs == [] then Err(NoProblems) else Ok(segs)
  }

  /** `s` is a maximal run of non-blank columns. */
  predicate MaximalRun(blank: seq<bool>, s: Segment)
  {
    s.start < s.end <= |blank| &&
    (s.start == 0 || blank[s.start - 1]) && (s.end == |blank| || blank[s.end]) &&
    forall c :: s.start <= c < s.end ==> !blank[c]
  }

  /** Each segment ends before the next one starts. */
  predicate Ascending(segs: seq<Segment>)
  {
    forall i :: 0 <= i < |segs| - 1 ==> segs[i].end < segs[i + 1].start
  }

  /** Column `c` lies in one of the segments. */
  predicate InSome(segs: seq<Segment>, c: nat)
  {
    exists i :: 0 <= i < |segs| && segs[i].start <= c < segs[i].end
  }

  /** The scan's state at `col`: a run in progress is non-blank from `start` and
      starts after a blank column, and otherwise the previous column is blank. */
  predicate ScanState(blank: seq<bool>, col: nat, inSeg: bool, start: nat)
  {
    col <= |blank| &&
    if inSeg then start < col && (start == 0 || blank[start - 1]) && forall c :: start <= c < col ==> !blank[c]
    else col == 0 || blank[col - 1]
  }

  /** `segs` are maximal runs that start at `lo` or later. */
  predicate RunsFromLo(blank: seq<bool>, segs: seq<Segment>, lo: nat)
  {
    forall i :: 0 <= i < |segs| ==> MaximalRun(blank, segs[i]) && lo <= segs[i].start
  }

  lemma {:induction false} ScanRuns(blank: seq<bool>, col: nat, inSeg: bool, start: nat)
    requires ScanState(blank, col, inSeg, start)
    ensures RunsFromLo(blank, RunsFrom(blank, col, inSeg, start), if inSeg then start else col)
    decreases |blank| - col
  {
    if col == |blank| {
    } else if blank[col] {
      var rest := RunsFrom(blank, col + 1, false, start);
      ScanRuns(blank, col + 1, false, start);
      if inSeg {
        var segs := [Segment(start, col)] + rest;
        assert forall i :: 0 <= i < |rest| ==> segs[i + 1] == rest[i];
        assert MaximalRun(blank, segs[0]);
      } else {
        assert [] + rest == rest;
      }
    } else if inSeg {
      ScanRuns(blank, col + 1, true, start);
    } else {
      ScanRuns(blank, col + 1, true, col);
    }
  }

  lemma {:induction false} ScanAscending(blank: seq<bool>, col: nat, inSeg: bool, start: nat)
    requires ScanState(blank, col, inSeg, start)
    ensures Ascending(RunsFrom(blank, col, inSeg, start))
    decreases |blank| - col
  {
    if col == |blank| {
    } else if blank[col] {
      var rest := RunsFrom(blank, col + 1, false, start);
      ScanAscending(blank, col + 1, false, start);
      if inSeg {
        ScanRuns(blank, col + 1, false, start);
        AscendingCons(Segment(start, col), rest);
      } else {
        assert [] + rest == rest;
      }
    } else if inSeg {
      ScanAscending(blank, col + 1, true, start);
    } else {
      ScanAscending(blank, col + 1, true, col);
    }
  }

  lemma AscendingCons(seg: Segment, rest: seq<Segment>)
    requires Ascending(rest) && (rest == [] || seg.end < rest[0].start)
    ensures Ascending([seg] + rest)
  {
    var segs := [seg] + rest;
    assert forall i :: 0 <= i < |rest| ==> segs[i + 1] == rest[i];
  }

  lemma {:induction false} ScanCovers(blank: seq<bool>, col: nat, inSeg: bool, start: nat, c: nat)
    requires ScanState(blank, col, inSeg, start)
    requires (if inSeg then start else col) <= c < |blank| && !blank[c]
    ensures InSome(RunsFrom(blank, col, inSeg, start), c)
    decreases |blank| - col
  {
    var segs := RunsFrom(blank, col, inSeg, start);
    if col == |blank| {
      assert segs[0].start <= c < segs[0].end;
    } else if blank[col] {
      var rest := RunsFrom(blank, col + 1, false, start);
      if inSeg && c < col {
        assert segs[0].start <= c < segs[0].end;
      } else {
        ScanCovers(blank, col + 1, false, start, c);
        var i :| 0 <= i < |rest| && rest[i].start <= c < rest[i].end;
        if inSeg {
          assert segs[i + 1] == rest[i];
        } else {
          assert segs == rest;
        }
      }
    } else if inSeg {
      ScanCovers(blank, col + 1, true, start, c);
    } else {
      ScanCovers(blank, col + 1, true, col, c);
    }
  }

  /** What `find_segments` promises: the segments are the maximal runs of non-blank
      columns, in ascending order, and every non-blank column is in one of them. */
  lemma SegmentsMaximal(blank: seq<bool>)
    ensures forall i :: 0 <= i < |Segments(blank)| ==> MaximalRun(blank, Segments(blank)[i])
    ensures Ascending(Segments(blank))
    ensures forall c :: 0 <= c < |blank| && !blank[c] ==> InSome(Segments(blank), c)
    ensures Segments(blank) == [] <==> forall c :: 0 <= c < |blank| ==> blank[c]
  {
    ScanRuns(blank, 0, false, 0);
    ScanAscending(blank, 0, false, 0);
    forall c | 0 <= c < |blank| && !blank[c] ensures InSome(Segments(blank), c) {
      ScanCovers(blank, 0, false, 0, c);
    }
    if Segments(blank) != [] {
      assert MaximalRun(blank, Segments(blank)[0]);
      var c := Segments(blank)[0].start;
      assert !blank[c];
    }
  }

  /** The first loop of `find_segments`: clear `blank[c]` at every non-space. */
  method BlankScan(lines: seq<string>, width: nat) returns (blank: array<bool>)
    requires Rect(lines, width)
    ensures fresh(blank) && blank[..] == BlankColumns(lines, width)
  {
    blank := new bool[width](_ => true);
    var r := 0;
    while r < |lines|
      invariant 0 <= r <= |lines| && blank.Length == width
      invariant forall c :: 0 <= c < width ==> (blank[c] <==> BlankAbove(lines, r, c))
    {
      var col := 0;
      while col < width
        invariant 0 <= col <= width
        invariant forall c :: 0 <= c < col ==> (blank[c] <==> BlankAbove(lines, r + 1, c))
        invariant forall c :: col <= c < width ==> (blank[c] <==> BlankAbove(lines, r, c))
      {
        if lines[r][col] != ' ' {
          blank[col] := false;
        }
        col := col + 1;
      }
      r := r + 1;
    }
  }

  /** `find_segments`. */
  method FindSegments(lines: seq<string>, width: nat) returns (r: Result<seq<Segment>, SheetError>)
    requires Rect(lines, width)
    ensures r == SegmentsOf(lines, width)
  {
    var blank := BlankScan(lines, width);
    ghost var b := blank[..];
    var segments: seq<Segment> := [];
    var inSegment := false;
    var start := 0;
    var col := 0;
    while col < width
      invariant 0 <= col <= width && blank[..] == b
      invariant segments + RunsFrom(b, col, inSegment, start) == Segments(b)
    {
      if blank[col] {
        if inSegment {
          AppendAssoc(segments, [Segment(start, col)], RunsFrom(b, col + 1, false, start));
          segments := segments + [Segment(start, col)];
          inSegment := false;
        } else {
          assert [] + RunsFrom(b, col + 1, false, start) == RunsFrom(b, col + 1, false, start);
        }
      } else if !inSegment {
        start := col;
        inSegment := true;
      }
      col := col + 1;
    }
    if inSegment {
      segments := segments + [Segment(start, width)];
    } else {
      assert segments + [] == segments;
    }
    if |segments| == 0 {
      return Err(NoProblems);
    }
    return Ok(segments);
  }

  // ---------------------------------------------------------------------------
  // `operator_for_segment`
  // ---------------------------------------------------------------------------

  /** The columns of `line[start..end]` that hold something other than a space. */
  function Marks(line: string, start: nat, end: nat): (m: seq<nat>)
    requires start <= end <= |line|
    ensures forall i :: 0 <= i < |m| ==> start <= m[i] < end
    decreases end - start
  {
    if end == start then [] else Marks(line, start, end - 1) + (if line[end - 1] != ' ' then [end - 1] else [])
  }

  /** The marks are exactly the non-space columns, in increasing order. */
  lemma {:induction false} MarksMeaning(line: string, start: nat, end: nat)
    requires start <= end <= |line|
    ensures var m := Marks(line, start, end);
      (forall i :: 0 <= i < |m| ==> line[m[i]] != ' ') &&
      (forall i, j :: 0 <= i < j < |m| ==> m[i] < m[j]) &&
      (forall p :: start <= p < end && line[p] != ' ' ==> p in m)
    decreases end - start
  {
    if end > start {
      MarksMeaning(line, start, end - 1);
    }
  }

  lemma {:induction false} MarksGrow(line: string, start: nat, mid: nat, end: nat)
    requires start <= mid <= end <= |line|
    ensures |Marks(line, start, mid)| <= |Marks(line, start, end)|
    decreases end - mid
  {
    if mid < end {
      MarksGrow(line, start, mid, end - 1);
    }
  }

  /** `operator_for_segment`: the one non-space character of the operator line within
      the segment; none and more than one are errors. */
  function OperatorOf(line: string, start: nat, end: nat, problem: nat): Result<char, SheetError>
    requires start <= end <= |line|
  {
    var m := Marks(line, start, end);
    if m == [] then Err(MissingOperator(problem))
    else if |m| > 1 then Err(MultipleOperators(problem))
    else Ok(line[m[0]])
  }

  /** The operator is the character at the only non-space column; a segment of spaces
      has no operator, and two non-spaces are one too many. */
  lemma OperatorOfMeaning(line: string, start: nat, end: nat, problem: nat, p: nat)
    requires start <= end <= |line|
    ensures OperatorOf(line, start, end, problem) == Err(MissingOperator(problem)) <==>
      forall q :: start <= q < end ==> line[q] == ' '
    ensures start <= p < end && line[p] != ' ' ==>
      (OperatorOf(line, start, end, problem) == Ok(line[p]) <==>
       forall q :: start <= q < end && q != p ==> line[q] == ' ')
  {
    MarksMeaning(line, start, end);
    var m := Marks(line, start, end);
    if m != [] {
      assert line[m[0]] != ' ';
    }
    if start <= p < end && line[p] != ' ' {
      assert p in m;
      if |m| > 1 {
        var q := if m[0] == p then m[1] else m[0];
        assert q != p && line[q] != ' ';
      }
    }
  }

  /** `operator_for_segment`. */
  method OperatorForSegment(opLine: string, start: nat, end: nat, problem: nat) returns (r: Result<char, SheetError>)
    requires start <= end <= |opLine|
    ensures r == OperatorOf(opLine, start, end, problem)
  {
    var op: Option<char> := None;
    var col := start;
    while col < end
      invariant start <= col <= end
      invariant |Marks(opLine, start, col)| <= 1
      invariant op == if Marks(opLine, start, col) == [] then None else Some(opLine[Marks(opLine, start, col)[0]])
    {
      var ch := opLine[col];
      if ch != ' ' {
        if op.Some? {
          MarksGrow(opLine, start, col + 1, end);
          return Err(MultipleOperators(problem));
        }
        op := Some(ch);
      }
      col := col + 1;
    }
    if op.None? {
      return Err(MissingOperator(problem));
    }
    return Ok(op.value);
  }

  // ---------------------------------------------------------------------------
  // `parse_row_number`
  // ---------------------------------------------------------------------------

  /** Skip the spaces of `line[lo..end]` from the left. */
  function LeftEdge(line: string, lo: nat, end: nat): (k: nat)
    requires lo <= end <= |line|
    ensures lo <= k <= end && (k < end ==> line[k] != ' ')
    ensures forall j :: lo <= j < k ==> line[j] == ' '
    decreases end - lo
  {
    if lo < end && line[lo] == ' ' then LeftEdge(line, lo + 1, end) else lo
  }

  /** Skip the spaces of `line[lo..hi]` from the right. */
  function RightEdge(line: string, lo: nat, hi: nat): (k: nat)
    requires lo <= hi <= |line|
    ensures lo <= k <= hi && (k > lo ==> line[k - 1] != ' ')
    ensures forall j :: k <= j < hi ==> line[j] == ' '
  {
    if hi > lo && line[hi - 1] == ' ' then RightEdge(line, lo, hi - 1) else hi
  }

  /** `parse_row_number`: the segment of a row with the spaces on both sides removed
      is a non-empty run of digits, read as a decimal number. */
  function RowNumber(line: string, start: nat, end: nat, problem: nat, row: nat): Result<nat, SheetError>
    requires start <= end <= |line|
  {
    var lo := LeftEdge(line, start, end);
    var hi := RightEdge(line, lo, end);
    if lo == hi then Err(MissingNumber(problem, row))
    else
      var t := line[lo..hi];
      if AllDigits(t) then Ok(DecimalValue(t))
      else Err(NonDigitInRow(t[FirstNonDigit(t, 0)], problem, row))
  }

  /** A number written with spaces around it reads back as itself. */
  lemma {:induction false} RowNumberOfPadded(a: nat, n: nat, b: nat, problem: nat, row: nat)
    ensures var line := Spaces(a) + Decimal(n) + Spaces(b);
      RowNumber(line, 0, |line|, problem, row) == Ok(n)
  {
    var d := Decimal(n);
    var line := Spaces(a) + d + Spaces(b);
    assert forall j :: 0 <= j < |d| ==> line[a + j] == d[j] && IsDigit(d[j]);
    assert LeftEdge(line, 0, |line|) == a by {
      LeftEdgeAt(line, 0, |line|, a);
    }
    assert RightEdge(line, a, |line|) == a + |d| by {
      RightEdgeAt(line, a, |line|, a + |d|);
    }
    assert line[a..a + |d|] == d;
    DecimalValueOfDecimal(n);
    assert RowNumber(line, 0, |line|, problem, row) == Ok(DecimalValue(d));
  }

  lemma {:induction false} LeftEdgeAt(line: string, lo: nat, end: nat, k: nat)
    requires lo <= k < end <= |line| && line[k] != ' '
    requires forall j :: lo <= j < k ==> line[j] == ' '
    ensures LeftEdge(line, lo, end) == k
    decreases k - lo
  {
    if lo < k {
      LeftEdgeAt(line, lo + 1, end, k);
    }
  }

  lemma {:induction false} RightEdgeAt(line: string, lo: nat, hi: nat, k: nat)
    requires lo < k <= hi <= |line| && line[k - 1] != ' '
    requires forall j :: k <= j < hi ==> line[j] == ' '
    ensures RightEdge(line, lo, hi) == k
    decreases hi - k
  {
    if k < hi {
      RightEdgeAt(line, lo, hi - 1, k);
    }
  }

  /** A row number that parses leaves only spaces and digits in its segment. */
  lemma RowDigitsOnly(line: string, start: nat, end: nat, problem: nat, row: nat, c: nat)
    requires start <= c < end <= |line| && RowNumber(line, start, end, problem, row).Ok?
    ensures line[c] == ' ' || IsDigit(line[c])
  {
    var lo := LeftEdge(line, start, end);
    var hi := RightEdge(line, lo, end);
    if lo <= c < hi {
      assert line[lo..hi][c - lo] == line[c];
    }
  }

  /** The digit loop of `parse_row_number` over `line[lo..hi]`. */
  method DigitRun(line: string, lo: nat, hi: nat, problem: nat, row: nat) returns (r: Result<nat, SheetError>)
    requires lo < hi <= |line|
    ensures var t := line[lo..hi];
      r == if AllDigits(t) then Ok(DecimalValue(t)) else Err(NonDigitInRow(t[FirstNonDigit(t, 0)], problem, row))
  {
    ghost var t := line[lo..hi];
    var value: nat := 0;
    var idx := lo;
    while idx < hi
      invariant lo <= idx <= hi
      invariant AllDigits(t[..idx - lo]) && value == DecimalValue(t[..idx - lo])
    {
      var b := line[idx];
      assert b == t[idx - lo];
      if !IsDigit(b) {
        FirstNonDigitAt(t, 0, idx - lo);
        return Err(NonDigitInRow(b, problem, row));
      }
      AllDigitsSnoc(t, idx - lo);
      assert t[..idx - lo + 1][..idx - lo] == t[..idx - lo];
      value := value * 10 + DigitValue(b);
      idx := idx + 1;
    }
    assert t[..hi - lo] == t;
    return Ok(value);
  }

  /** `parse_row_number`. */
  method ParseRowNumber(line: string, start: nat, end: nat, problem: nat, row: nat) returns (r: Result<nat, SheetError>)
    requires start <= end <= |line|
    ensures r == RowNumber(line, start, end, problem, row)
  {
    var lo := start;
    while lo < end && line[lo] == ' '
      invariant start <= lo <= end
      invariant LeftEdge(line, lo, end) == LeftEdge(line, start, end)
    {
      lo := lo + 1;
    }
    var hi := end;
    while hi > lo && line[hi - 1] == ' '
      invariant lo <= hi <= end
      invariant RightEdge(line, lo, hi) == RightEdge(line, lo, end)
    {
      hi := hi - 1;
    }
    if lo == hi {
      return Err(MissingNumber(problem, row));
    }
    r := DigitRun(line, lo, hi, problem, row);
  }

  // ---------------------------------------------------------------------------
  // A column of Part 2
  // ---------------------------------------------------------------------------

  /** The rows above `n` whose column `col` holds something other than a space, top
      first. */
  function ColumnRows(lines: seq<string>, w: nat, col: nat, n: nat): (rows: seq<nat>)
    requires Rect(lines, w) && col < w && n <= |lines|
    ensures forall i :: 0 <= i < |rows| ==> rows[i] < n
  {
    if n == 0 then [] else ColumnRows(lines, w, col, n - 1) + (if lines[n - 1][col] != ' ' then [n - 1] else [])
  }

  /** The characters of column `col` in those rows: the digits of the column's number. */
  function ColumnText(lines: seq<string>, w: nat, col: nat, n: nat): (t: string)
    requires Rect(lines, w) && col < w && n <= |lines|
    ensures |t| == |ColumnRows(lines, w, col, n)|
  {
    if n == 0 then [] else ColumnText(lines, w, col, n - 1) + (if lines[n - 1][col] != ' ' then [lines[n - 1][col]] else [])
  }

  /** Part 2's reading of column `col` over the operand rows above `n`: the digits
      top to bottom with spaces skipped make the number, a column of spaces has none,
      and the first other character is an error at its row. */
  function ColumnNumber(lines: seq<string>, w: nat, col: nat, n: nat, problem: nat): Result<Option<nat>, SheetError>
    requires Rect(lines, w) && col < w && n <= |lines|
  {
    var t := ColumnText(lines, w, col, n);
    if !AllDigits(t) then
      var k := FirstNonDigit(t, 0);
      Err(NonDigitInColumn(t[k], problem, ColumnRows(lines, w, col, n)[k] + 1, col + 1))
    else if t == [] then Ok(None)
    else Ok(Some(DecimalValue(t)))
  }

  /** The same reading row by row, as the loop does it: a space is skipped, a digit
      extends the number, and any other character stops the reading at its row. */
  function ColumnScan(lines: seq<string>, w: nat, col: nat, n: nat, problem: nat): Result<Option<nat>, SheetError>
    requires Rect(lines, w) && col < w && n <= |lines|
  {
    if n == 0 then Ok(None)
    else
      var prev :- ColumnScan(lines, w, col, n - 1, problem);
      var ch := lines[n - 1][col];
      if ch == ' ' then Ok(prev)
      else if !IsDigit(ch) then Err(NonDigitInColumn(ch, problem, n, col + 1))
      else Ok(Some((if prev.Some? then prev.value else 0) * 10 + DigitValue(ch)))
  }

  /** The rows above `m` start those above `n`. */
  lemma {:induction false} RowsPrefix(lines: seq<string>, w: nat, col: nat, m: nat, n: nat)
    requires Rect(lines, w) && col < w && m <= n <= |lines|
    ensures var rm, rn := ColumnRows(lines, w, col, m), ColumnRows(lines, w, col, n);
      |rm| <= |rn| && rn[..|rm|] == rm
    decreases n - m
  {
    if m < n {
      RowsPrefix(lines, w, col, m, n - 1);
      var rm, rn1 := ColumnRows(lines, w, col, m), ColumnRows(lines, w, col, n - 1);
      assert ColumnRows(lines, w, col, n)[..|rm|] == rn1[..|rm|];
    }
  }

  /** The text above `m` starts the text above `n`. */
  lemma {:induction false} TextPrefix(lines: seq<string>, w: nat, col: nat, m: nat, n: nat)
    requires Rect(lines, w) && col < w && m <= n <= |lines|
    ensures var tm, tn := ColumnText(lines, w, col, m), ColumnText(lines, w, col, n);
      |tm| <= |tn| && tn[..|tm|] == tm
    decreases n - m
  {
    if m < n {
      TextPrefix(lines, w, col, m, n - 1);
      var tm, tn1 := ColumnText(lines, w, col, m), ColumnText(lines, w, col, n - 1);
      assert ColumnText(lines, w, col, n)[..|tm|] == tn1[..|tm|];
    }
  }

  /** A space leaves the column's text as it is. */
  lemma ColumnSpace(lines: seq<string>, w: nat, col: nat, row: nat)
    requires Rect(lines, w) && col < w && row < |lines| && lines[row][col] == ' '
    ensures ColumnText(lines, w, col, row + 1) == ColumnText(lines, w, col, row)
  {
    assert ColumnText(lines, w, col, row + 1) == ColumnText(lines, w, col, row) + [];
  }

  /** A digit is the next one of the column's number. */
  lemma ColumnDigit(lines: seq<string>, w: nat, col: nat, row: nat)
    requires Rect(lines, w) && col < w && row < |lines| && IsDigit(lines[row][col])
    requires AllDigits(ColumnText(lines, w, col, row))
    ensures var t, t1 := ColumnText(lines, w, col, row), ColumnText(lines, w, col, row + 1);
      AllDigits(t1) && t1 != [] && DecimalValue(t1) == DecimalValue(t) * 10 + DigitValue(lines[row][col])
  {
    var t, t1 := ColumnText(lines, w, col, row), ColumnText(lines, w, col, row + 1);
    assert t1 == t + [lines[row][col]];
    assert t1[..|t|] == t;
  }

  /** Any other character is the column's error. */
  lemma {:induction false} ColumnBad(lines: seq<string>, w: nat, col: nat, row: nat, n: nat, problem: nat)
    requires Rect(lines, w) && col < w && row < n <= |lines|
    requires lines[row][col] != ' ' && !IsDigit(lines[row][col])
    requires AllDigits(ColumnText(lines, w, col, row))
    ensures ColumnNumber(lines, w, col, n, problem) == Err(NonDigitInColumn(lines[row][col], problem, row + 1, col + 1))
  {
    var ch := lines[row][col];
    var t, tr := ColumnText(lines, w, col, n), ColumnText(lines, w, col, row);
    var k := |tr|;
    BadAt(lines, w, col, row, n);
    FirstNonDigitAt(t, 0, k);
  }

  lemma {:induction false} BadAt(lines: seq<string>, w: nat, col: nat, row: nat, n: nat)
    requires Rect(lines, w) && col < w && row < n <= |lines| && lines[row][col] != ' '
    ensures var t, tr := ColumnText(lines, w, col, n), ColumnText(lines, w, col, row);
      |tr| < |t| && t[..|tr|] == tr && t[|tr|] == lines[row][col] &&
      ColumnRows(lines, w, col, n)[|tr|] == row
  {
    TextAt(lines, w, col, row, n);
    RowAt(lines, w, col, row, n);
  }

  lemma {:induction false} TextAt(lines: seq<string>, w: nat, col: nat, row: nat, n: nat)
    requires Rect(lines, w) && col < w && row < n <= |lines| && lines[row][col] != ' '
    ensures var t, tr := ColumnText(lines, w, col, n), ColumnText(lines, w, col, row);
      |tr| < |t| && t[..|tr|] == tr && t[|tr|] == lines[row][col]
  {
    var tr, tr1 := ColumnText(lines, w, col, row), ColumnText(lines, w, col, row + 1);
    assert tr1 == tr + [lines[row][col]];
    TextPrefix(lines, w, col, row + 1, n);
    var t := ColumnText(lines, w, col, n);
    assert t[..|tr1|][..|tr|] == t[..|tr|];
    assert t[|tr|] == t[..|tr1|][|tr|];
  }

  lemma {:induction false} RowAt(lines: seq<string>, w: nat, col: nat, row: nat, n: nat)
    requires Rect(lines, w) && col < w && row < n <= |lines| && lines[row][col] != ' '
    ensures |ColumnRows(lines, w, col, row)| < |ColumnRows(lines, w, col, n)|
    ensures ColumnRows(lines, w, col, n)[|ColumnRows(lines, w, col, row)|] == row
  {
    var rr, rr1 := ColumnRows(lines, w, col, row), ColumnRows(lines, w, col, row + 1);
    assert rr1 == rr + [row];
    RowsPrefix(lines, w, col, row + 1, n);
    var rn := ColumnRows(lines, w, col, n);
    assert rn[|rr|] == rn[..|rr1|][|rr|];
  }

  /** An error above row `n - 1` is the error of the reading above `n`. */
  lemma NumberKeepsError(lines: seq<string>, w: nat, col: nat, n: nat, problem: nat)
    requires Rect(lines, w) && col < w && 0 < n <= |lines| && !AllDigits(ColumnText(lines, w, col, n - 1))
    ensures ColumnNumber(lines, w, col, n, problem) == ColumnNumber(lines, w, col, n - 1, problem)
  {
    var t, t1 := ColumnText(lines, w, col, n - 1), ColumnText(lines, w, col, n);
    TextPrefix(lines, w, col, n - 1, n);
    RowsPrefix(lines, w, col, n - 1, n);
    var k := FirstNonDigit(t, 0);
    assert t1[k] == t1[..|t|][k];
    assert ColumnRows(lines, w, col, n)[k] == ColumnRows(lines, w, col, n)[..|t|][k];
    forall j | 0 <= j < k ensures IsDigit(t1[j]) {
      assert t1[j] == t1[..|t|][j];
    }
    FirstNonDigitAt(t1, 0, k);
  }

  /** One row of the reading while the text so far is all digits. */
  lemma ScanTextStep(lines: seq<string>, w: nat, col: nat, n: nat, problem: nat)
    requires Rect(lines, w) && col < w && 0 < n <= |lines|
    requires var t := ColumnText(lines, w, col, n - 1);
      AllDigits(t) && ColumnScan(lines, w, col, n - 1, problem) == Ok(if t == [] then None else Some(DecimalValue(t)))
    ensures var t := ColumnText(lines, w, col, n);
      AllDigits(t) ==> ColumnScan(lines, w, col, n, problem) == Ok(if t == [] then None else Some(DecimalValue(t)))
    ensures !AllDigits(ColumnText(lines, w, col, n)) ==> ColumnScan(lines, w, col, n, problem) == ColumnNumber(lines, w, col, n, problem)
  {
    var ch := lines[n - 1][col];
    if ch == ' ' {
      ColumnSpace(lines, w, col, n - 1);
    } else if IsDigit(ch) {
      ColumnDigit(lines, w, col, n - 1);
    } else {
      ColumnBad(lines, w, col, n - 1, n, problem);
    }
  }

  /** One row of the reading once the text has gone wrong. */
  lemma ScanErrorStep(lines: seq<string>, w: nat, col: nat, n: nat, problem: nat)
    requires Rect(lines, w) && col < w && 0 < n <= |lines|
    requires !AllDigits(ColumnText(lines, w, col, n - 1))
    requires ColumnScan(lines, w, col, n - 1, problem) == ColumnNumber(lines, w, col, n - 1, problem)
    ensures !AllDigits(ColumnText(lines, w, col, n))
    ensures ColumnScan(lines, w, col, n, problem) == ColumnNumber(lines, w, col, n, problem)
  {
    NumberKeepsError(lines, w, col, n, problem);
    TextPrefix(lines, w, col, n - 1, n);
    var t := ColumnText(lines, w, col, n - 1);
    var k := FirstNonDigit(t, 0);
    assert ColumnText(lines, w, col, n)[k] == t[k];
  }

  /** What the row-by-row reading gives above `n`: while the text read so far is all
      digits, the number it spells (none for a column of spaces); after that, the
      column's error. */
  lemma {:induction false} ScanText(lines: seq<string>, w: nat, col: nat, n: nat, problem: nat)
    requires Rect(lines, w) && col < w && n <= |lines|
    ensures var t := ColumnText(lines, w, col, n);
      AllDigits(t) ==> ColumnScan(lines, w, col, n, problem) == Ok(if t == [] then None else Some(DecimalValue(t)))
    ensures !AllDigits(ColumnText(lines, w, col, n)) ==> ColumnScan(lines, w, col, n, problem) == ColumnNumber(lines, w, col, n, problem)
  {
    if n > 0 {
      ScanText(lines, w, col, n - 1, problem);
      if AllDigits(ColumnText(lines, w, col, n - 1)) {
        ScanTextStep(lines, w, col, n, problem);
      } else {
        ScanErrorStep(lines, w, col, n, problem);
      }
    }
  }

  /** The row-by-row reading agrees with the column's reference reading. */
  lemma {:induction false} ScanIsNumber(lines: seq<string>, w: nat, col: nat, n: nat, problem: nat)
    requires Rect(lines, w) && col < w && n <= |lines|
    ensures ColumnScan(lines, w, col, n, problem) == ColumnNumber(lines, w, col, n, problem)
  {
    ScanText(lines, w, col, n, problem);
  }

  lemma {:induction false} ScanErr(lines: seq<string>, w: nat, col: nat, m: nat, n: nat, problem: nat, e: SheetError)
    requires Rect(lines, w) && col < w && m <= n <= |lines| && ColumnScan(lines, w, col, m, problem) == Err(e)
    ensures ColumnScan(lines, w, col, n, problem) == Err(e)
    decreases n - m
  {
    if m < n {
      ScanErr(lines, w, col, m, n - 1, problem, e);
    }
  }

  lemma {:induction false} ScanStops(lines: seq<string>, w: nat, col: nat, row: nat, n: nat, problem: nat)
    requires Rect(lines, w) && col < w && row < n <= |lines| && ColumnScan(lines, w, col, row, problem).Ok?
    requires lines[row][col] != ' ' && !IsDigit(lines[row][col])
    ensures ColumnScan(lines, w, col, n, problem) == Err(NonDigitInColumn(lines[row][col], problem, row + 1, col + 1))
  {
    ScanErr(lines, w, col, row + 1, n, problem, NonDigitInColumn(lines[row][col], problem, row + 1, col + 1));
  }

  lemma ScanNext(lines: seq<string>, w: nat, col: nat, row: nat, problem: nat, found: bool, value: nat)
    requires Rect(lines, w) && col < w && row < |lines|
    requires ColumnScan(lines, w, col, row, problem) == Ok(if found then Some(value) else None)
    requires !found ==> value == 0
    ensures var ch := lines[row][col];
      (ch == ' ' ==> ColumnScan(lines, w, col, row + 1, problem) == Ok(if found then Some(value) else None)) &&
      (IsDigit(ch) ==> ColumnScan(lines, w, col, row + 1, problem) == Ok(Some(value * 10 + DigitValue(ch))))
  {
  }

  /** The inner loop of Part 2 for column `col`. */
  method ColumnValue(lines: seq<string>, w: nat, col: nat, opRow: nat, problem: nat)
    returns (r: Result<Option<nat>, SheetError>)
    requires Rect(lines, w) && col < w && opRow <= |lines|
    ensures r == ColumnScan(lines, w, col, opRow, problem)
  {
    var value: nat := 0;
    var found := false;
    var row := 0;
    while row < opRow
      invariant 0 <= row <= opRow
      invariant ColumnScan(lines, w, col, row, problem) == Ok(if found then Some(value) else None)
      invariant !found ==> value == 0
    {
      var ch := lines[row][col];
      ScanNext(lines, w, col, row, problem, found, value);
      if ch == ' ' {
      } else if !IsDigit(ch) {
        ScanStops(lines, w, col, row, opRow, problem);
        return Err(NonDigitInColumn(ch, problem, row + 1, col + 1));
      } else {
        value := value * 10 + DigitValue(ch);
        found := true;
      }
      row := row + 1;
    }
    if found {
      return Ok(Some(value));
    }
    return Ok(None);
  }

  // ---------------------------------------------------------------------------
  // One problem, and `both`
  // ---------------------------------------------------------------------------

  /** The segment lies within the width. */
  predicate Fits(seg: Segment, w: nat) { seg.start <= seg.end <= w }

  /** `+` adds the operands up from 0; any other operator multiplies them from 1. */
  function Combine(op: char, vs: seq<nat>): nat
  {
    if vs == [] then (if op == '+' then 0 else 1)
    else
      var c := Combine(op, vs[..|vs| - 1]);
      if op == '+' then c + vs[|vs| - 1] else c * vs[|vs| - 1]
  }

  /** The operator's meaning: the sum or the product of the operands. */
  lemma {:induction false} CombineMeaning(op: char, vs: seq<nat>)
    ensures Combine(op, vs) == if op == '+' then Sum(vs) else Product(vs)
  {
    if vs != [] {
      CombineMeaning(op, vs[..|vs| - 1]);
    }
  }

  /** Part 1's operands: the numbers of the first `n` rows, the first bad row's error
      otherwise. */
  function RowValues(lines: seq<string>, w: nat, seg: Segment, problem: nat, n: nat): Result<seq<nat>, SheetError>
    requires Rect(lines, w) && Fits(seg, w) && n <= |lines|
  {
    if n == 0 then Ok([])
    else
      var vs :- RowValues(lines, w, seg, problem, n - 1);
      var v :- RowNumber(lines[n - 1], seg.start, seg.end, problem, n);
      Ok(vs + [v])
  }

  /** Part 2's operands: the numbers of the columns `c` up to `hi` (exclusive), read
      right to left, with the columns of spaces skipped. */
  function ColValues(lines: seq<string>, w: nat, c: nat, hi: nat, n: nat, problem: nat): Result<seq<nat>, SheetError>
    requires Rect(lines, w) && c <= hi <= w && n <= |lines|
    decreases hi - c
  {
    if c == hi then Ok([])
    else
      var vs :- ColValues(lines, w, c + 1, hi, n, problem);
      var x :- ColumnScan(lines, w, c, n, problem);
      Ok(if x.Some? then vs + [x.value] else vs)
  }

  /** One problem: its operator first, then its rows, then its columns. */
  function ProblemOf(lines: seq<string>, w: nat, seg: Segment, problem: nat): Result<Totals, SheetError>
    requires Rect(lines, w) && |lines| >= 1 && Fits(seg, w)
  {
    var opRow := |lines| - 1;
    var op :- OperatorOf(lines[opRow], seg.start, seg.end, problem);
    var rv :- RowValues(lines, w, seg, problem, opRow);
    var cv :- ColValues(lines, w, seg.start, seg.end, opRow, problem);
    Ok(Totals(Combine(op, rv), Combine(op, cv)))
  }

  /** Every problem's outcome, in order, numbered from 1. */
  function ProblemsOf(lines: seq<string>, w: nat, segs: seq<Segment>): (ps: seq<Result<Totals, SheetError>>)
    requires Rect(lines, w) && |lines| >= 1 && forall i :: 0 <= i < |segs| ==> Fits(segs[i], w)
    ensures |ps| == |segs| && forall i :: 0 <= i < |segs| ==> ps[i] == ProblemOf(lines, w, segs[i], i + 1)
  {
    seq(|segs|, i requires 0 <= i < |segs| => ProblemOf(lines, w, segs[i], i + 1))
  }

  /** The sums over the first `k` outcomes; the first failing problem is the error. */
  function Sums(ps: seq<Result<Totals, SheetError>>, k: nat): Result<Totals, SheetError>
    requires k <= |ps|
  {
    if k == 0 then Ok(Totals(0, 0))
    else
      var before :- Sums(ps, k - 1);
      var p :- ps[k - 1];
      Ok(Totals(before.byRow + p.byRow, before.byCol + p.byCol))
  }

  /** The segments of a padded sheet fit within its width. */
  lemma SegmentsFit(lines: seq<string>, w: nat)
    requires Rect(lines, w)
    ensures SegmentsOf(lines, w).Ok? ==> forall i :: 0 <= i < |SegmentsOf(lines, w).value| ==> Fits(SegmentsOf(lines, w).value[i], w)
  {
    SegmentsMaximal(BlankColumns(lines, w));
  }

  /** The sums over all problems of a padded sheet. */
  function SheetTotals(lines: seq<string>, w: nat): Result<Totals, SheetError>
    requires Rect(lines, w) && |lines| >= 1
  {
    var segs :- SegmentsOf(lines, w);
    SegmentsFit(lines, w);
    Sums(ProblemsOf(lines, w, segs), |segs|)
  }

  /** `both`: the sums of Part 1's and Part 2's answers over all problems. */
  function Solve(s: string): Result<Totals, SheetError>
  {
    var sheet :- SheetOf(s);
    SheetTotals(sheet.lines, sheet.width)
  }

  // ---------------------------------------------------------------------------
  // The column error cannot happen
  // ---------------------------------------------------------------------------

  lemma {:induction false} RowValuesRows(lines: seq<string>, w: nat, seg: Segment, problem: nat, n: nat, r: nat)
    requires Rect(lines, w) && Fits(seg, w) && r < n <= |lines| && RowValues(lines, w, seg, problem, n).Ok?
    ensures RowNumber(lines[r], seg.start, seg.end, problem, r + 1).Ok?
    decreases n
  {
    if r < n - 1 {
      RowValuesRows(lines, w, seg, problem, n - 1, r);
    }
  }

  lemma {:induction false} ColumnTextDigits(lines: seq<string>, w: nat, col: nat, n: nat)
    requires Rect(lines, w) && col < w && n <= |lines|
    requires forall r :: 0 <= r < n ==> lines[r][col] == ' ' || IsDigit(lines[r][col])
    ensures AllDigits(ColumnText(lines, w, col, n))
  {
    if n > 0 {
      ColumnTextDigits(lines, w, col, n - 1);
    }
  }

  lemma {:induction false} ColumnAllDigits(lines: seq<string>, w: nat, seg: Segment, n: nat, problem: nat, c: nat)
    requires Rect(lines, w) && Fits(seg, w) && n <= |lines| && RowValues(lines, w, seg, problem, n).Ok?
    requires seg.start <= c < seg.end
    ensures AllDigits(ColumnText(lines, w, c, n))
  {
    forall r | 0 <= r < n ensures lines[r][c] == ' ' || IsDigit(lines[r][c]) {
      RowValuesRows(lines, w, seg, problem, n, r);
      RowDigitsOnly(lines[r], seg.start, seg.end, problem, r + 1, c);
    }
    ColumnTextDigits(lines, w, c, n);
  }

  lemma {:induction false} ColumnDigitsOk(lines: seq<string>, w: nat, col: nat, n: nat, problem: nat)
    requires Rect(lines, w) && col < w && n <= |lines| && AllDigits(ColumnText(lines, w, col, n))
    ensures ColumnScan(lines, w, col, n, problem).Ok?
  {
    ScanText(lines, w, col, n, problem);
  }

  lemma ColValuesStep(lines: seq<string>, w: nat, c: nat, hi: nat, n: nat, problem: nat)
    requires Rect(lines, w) && c < hi <= w && n <= |lines|
    requires ColValues(lines, w, c + 1, hi, n, problem).Ok? && ColumnScan(lines, w, c, n, problem).Ok?
    ensures ColValues(lines, w, c, hi, n, problem).Ok?
  {
  }

  lemma ColumnsStep(lines: seq<string>, w: nat, seg: Segment, n: nat, problem: nat, c: nat)
    requires Rect(lines, w) && Fits(seg, w) && n <= |lines| && seg.start <= c < seg.end
    requires RowValues(lines, w, seg, problem, n).Ok? && ColValues(lines, w, c + 1, seg.end, n, problem).Ok?
    ensures ColValues(lines, w, c, seg.end, n, problem).Ok?
  {
    ColumnAllDigits(lines, w, seg, n, problem, c);
    ColumnDigitsOk(lines, w, c, n, problem);
    ColValuesStep(lines, w, c, seg.end, n, problem);
  }

  /** Once every operand row of a problem parses, reading its columns cannot fail:
      the row parse has already turned away every character other than spaces and
      digits, so the column reader's own non-digit error is never reached. */
  lemma {:induction false} ColumnsNeverFail(lines: seq<string>, w: nat, seg: Segment, n: nat, problem: nat, c: nat)
    requires Rect(lines, w) && Fits(seg, w) && n <= |lines| && seg.start <= c <= seg.end
    requires RowValues(lines, w, seg, problem, n).Ok?
    ensures ColValues(lines, w, c, seg.end, n, problem).Ok?
    decreases seg.end - c
  {
    if c < seg.end {
      ColumnsNeverFail(lines, w, seg, n, problem, c + 1);
      ColumnsStep(lines, w, seg, n, problem, c);
    }
  }

  // ---------------------------------------------------------------------------
  // Errors stop the fold
  // ---------------------------------------------------------------------------

  lemma {:induction false} CombineSnoc(op: char, vs: seq<nat>, x: nat)
    ensures Combine(op, vs + [x]) == if op == '+' then Combine(op, vs) + x else Combine(op, vs) * x
  {
    assert (vs + [x])[..|vs|] == vs;
  }

  lemma RowValuesErrStep(lines: seq<string>, w: nat, seg: Segment, problem: nat, n: nat, e: SheetError)
    requires Rect(lines, w) && Fits(seg, w) && 0 < n <= |lines| && RowValues(lines, w, seg, problem, n - 1) == Err(e)
    ensures RowValues(lines, w, seg, problem, n) == Err(e)
  {
  }

  /** A row that fails to parse is the error of the whole row reading. */
  lemma {:induction false} RowValuesErr(lines: seq<string>, w: nat, seg: Segment, problem: nat, m: nat, n: nat, e: SheetError)
    requires Rect(lines, w) && Fits(seg, w) && m <= n <= |lines| && RowValues(lines, w, seg, problem, m) == Err(e)
    ensures RowValues(lines, w, seg, problem, n) == Err(e)
    decreases n - m
  {
    if m < n {
      RowValuesErr(lines, w, seg, problem, m, n - 1, e);
      RowValuesErrStep(lines, w, seg, problem, n, e);
    }
  }

  lemma ColValuesErrStep(lines: seq<string>, w: nat, c: nat, hi: nat, n: nat, problem: nat, e: SheetError)
    requires Rect(lines, w) && c < hi <= w && n <= |lines| && ColValues(lines, w, c + 1, hi, n, problem) == Err(e)
    ensures ColValues(lines, w, c, hi, n, problem) == Err(e)
  {
  }

  /** A column that fails to read is the error of the whole column reading. */
  lemma {:induction false} ColValuesErr(lines: seq<string>, w: nat, c: nat, d: nat, hi: nat, n: nat, problem: nat, e: SheetError)
    requires Rect(lines, w) && c <= d <= hi <= w && n <= |lines| && ColValues(lines, w, d, hi, n, problem) == Err(e)
    ensures ColValues(lines, w, c, hi, n, problem) == Err(e)
    decreases d - c
  {
    if c < d {
      ColValuesErr(lines, w, c + 1, d, hi, n, problem, e);
      ColValuesErrStep(lines, w, c, hi, n, problem, e);
    }
  }

  /** A problem that fails is the error of the whole sheet. */
  lemma {:induction false} SumsErr(ps: seq<Result<Totals, SheetError>>, m: nat, n: nat, e: SheetError)
    requires m <= n <= |ps| && Sums(ps, m) == Err(e)
    ensures Sums(ps, n) == Err(e)
    decreases n - m
  {
    if m < n {
      SumsErr(ps, m, n - 1, e);
    }
  }

  // ---------------------------------------------------------------------------
  // The loops of `both`
  // ---------------------------------------------------------------------------

  lemma RowNext(lines: seq<string>, w: nat, seg: Segment, problem: nat, n: nat, vs: seq<nat>, v: nat)
    requires Rect(lines, w) && Fits(seg, w) && n < |lines|
    requires RowValues(lines, w, seg, problem, n) == Ok(vs)
    requires RowNumber(lines[n], seg.start, seg.end, problem, n + 1) == Ok(v)
    ensures RowValues(lines, w, seg, problem, n + 1) == Ok(vs + [v])
  {
  }

  lemma ColNext(lines: seq<string>, w: nat, c: nat, hi: nat, n: nat, problem: nat, vs: seq<nat>, x: Result<Option<nat>, SheetError>)
    requires Rect(lines, w) && 0 < c <= hi <= w && n <= |lines|
    requires ColValues(lines, w, c, hi, n, problem) == Ok(vs)
    requires ColumnScan(lines, w, c - 1, n, problem) == x && x.Ok?
    ensures ColValues(lines, w, c - 1, hi, n, problem) == Ok(if x.value.Some? then vs + [x.value.value] else vs)
  {
  }

  lemma SumsNext(ps: seq<Result<Totals, SheetError>>, k: nat, before: Totals)
    requires k < |ps| && Sums(ps, k) == Ok(before) && ps[k].Ok?
    ensures Sums(ps, k + 1) == Ok(Totals(before.byRow + ps[k].value.byRow, before.byCol + ps[k].value.byCol))
  {
  }

  lemma ColFail(lines: seq<string>, w: nat, c: nat, hi: nat, n: nat, problem: nat, vs: seq<nat>, x: Result<Option<nat>, SheetError>)
    requires Rect(lines, w) && 0 < c <= hi <= w && n <= |lines|
    requires ColValues(lines, w, c, hi, n, problem) == Ok(vs)
    requires ColumnScan(lines, w, c - 1, n, problem) == x && x.Err?
    ensures ColValues(lines, w, c - 1, hi, n, problem) == Err(x.error)
  {
  }

  lemma {:induction false} ColStop(lines: seq<string>, w: nat, lo: nat, c: nat, hi: nat, n: nat, problem: nat, vs: seq<nat>, x: Result<Option<nat>, SheetError>)
    requires Rect(lines, w) && lo < c <= hi <= w && n <= |lines|
    requires ColValues(lines, w, c, hi, n, problem) == Ok(vs)
    requires ColumnScan(lines, w, c - 1, n, problem) == x && x.Err?
    ensures ColValues(lines, w, lo, hi, n, problem) == Err(x.error)
  {
    ColFail(lines, w, c, hi, n, problem, vs, x);
    ColValuesErr(lines, w, lo, c - 1, hi, n, problem, x.error);
  }

  /** Part 1's fold of one problem: each operand row in turn, stopping at the first
      row that does not parse. */
  method RowResult(lines: seq<string>, w: nat, seg: Segment, problem: nat, op: char) returns (r: Result<nat, SheetError>)
    requires Rect(lines, w) && |lines| >= 1 && Fits(seg, w)
    ensures var rv := RowValues(lines, w, seg, problem, |lines| - 1);
      (rv.Ok? ==> r == Ok(Combine(op, rv.value))) && (rv.Err? ==> r == Err(rv.error))
  {
    var opRow := |lines| - 1;
    var acc: nat := if op == '+' then 0 else 1;
    ghost var vs: seq<nat> := [];
    var row := 0;
    while row < opRow
      invariant row <= opRow
      invariant RowValues(lines, w, seg, problem, row) == Ok(vs)
      invariant acc == Combine(op, vs)
    {
      var v := ParseRowNumber(lines[row], seg.start, seg.end, problem, row + 1);
      if v.Err? {
        RowValuesErr(lines, w, seg, problem, row + 1, opRow, v.error);
        return Err(v.error);
      }
      RowNext(lines, w, seg, problem, row, vs, v.value);
      CombineSnoc(op, vs, v.value);
      acc := if op == '+' then acc + v.value else acc * v.value;
      vs := vs + [v.value];
      row := row + 1;
    }
    return Ok(acc);
  }

  /** Part 2's fold of one problem: its columns right to left, each read top to
      bottom, with the blank ones skipped. */
  method ColResult(lines: seq<string>, w: nat, seg: Segment, problem: nat, op: char) returns (r: Result<nat, SheetError>)
    requires Rect(lines, w) && |lines| >= 1 && Fits(seg, w)
    ensures var cv := ColValues(lines, w, seg.start, seg.end, |lines| - 1, problem);
      (cv.Ok? ==> r == Ok(Combine(op, cv.value))) && (cv.Err? ==> r == Err(cv.error))
  {
    var opRow := |lines| - 1;
    var acc: nat := if op == '+' then 0 else 1;
    ghost var vs: seq<nat> := [];
    var col := seg.end;
    while col > seg.start
      invariant seg.start <= col <= seg.end
      invariant ColValues(lines, w, col, seg.end, opRow, problem) == Ok(vs)
      invariant acc == Combine(op, vs)
    {
      var x := ColumnValue(lines, w, col - 1, opRow, problem);
      if x.Err? {
        ColStop(lines, w, seg.start, col, seg.end, opRow, problem, vs, x);
        return Err(x.error);
      }
      ColNext(lines, w, col, seg.end, opRow, problem, vs, x);
      if x.value.Some? {
        CombineSnoc(op, vs, x.value.value);
        acc := if op == '+' then acc + x.value.value else acc * x.value.value;
        vs := vs + [x.value.value];
      }
      col := col - 1;
    }
    return Ok(acc);
  }

  /** One problem of `both`: the operator, then the row fold, then the column fold. */
  method ProblemResult(lines: seq<string>, w: nat, seg: Segment, problem: nat) returns (r: Result<Totals, SheetError>)
    requires Rect(lines, w) && |lines| >= 1 && Fits(seg, w)
    ensures r == ProblemOf(lines, w, seg, problem)
  {
    var op := OperatorForSegment(lines[|lines| - 1], seg.start, seg.end, problem);
    if op.Err? {
      return Err(op.error);
    }
    var byRow := RowResult(lines, w, seg, problem, op.value);
    if byRow.Err? {
      return Err(byRow.error);
    }
    var byCol := ColResult(lines, w, seg, problem, op.value);
    if byCol.Err? {
      return Err(byCol.error);
    }
    return Ok(Totals(byRow.value, byCol.value));
  }

  /** The `i`-th outcome. */
  function At(ps: seq<Result<Totals, SheetError>>, i: nat): Result<Totals, SheetError>
    requires i < |ps|
  {
    ps[i]
  }

  /** `ps` holds the outcome of every problem, in order. */
  predicate Outcomes(lines: seq<string>, w: nat, segs: seq<Segment>, ps: seq<Result<Totals, SheetError>>)
    requires Rect(lines, w) && |lines| >= 1 && forall i :: 0 <= i < |segs| ==> Fits(segs[i], w)
  {
    |ps| == |segs| && forall i {:trigger At(ps, i)} :: 0 <= i < |segs| ==> At(ps, i) == ProblemOf(lines, w, segs[i], i + 1)
  }

  lemma ProblemsOutcomes(lines: seq<string>, w: nat, segs: seq<Segment>)
    requires Rect(lines, w) && |lines| >= 1 && forall i :: 0 <= i < |segs| ==> Fits(segs[i], w)
    ensures Outcomes(lines, w, segs, ProblemsOf(lines, w, segs))
  {
  }

  /** The outcome of problem `k + 1`. */
  method ProblemAt(lines: seq<string>, width: nat, segments: seq<Segment>, k: nat, ghost ps: seq<Result<Totals, SheetError>>)
    returns (p: Result<Totals, SheetError>)
    requires Rect(lines, width) && |lines| >= 1 && forall i :: 0 <= i < |segments| ==> Fits(segments[i], width)
    requires Outcomes(lines, width, segments, ps) && k < |segments|
    ensures p == ps[k]
  {
    p := ProblemResult(lines, width, segments[k], k + 1);
    assert At(ps, k) == ps[k];
  }

  /** The problem loop of `both`: every problem in order, numbered from 1. */
  method SumProblems(lines: seq<string>, width: nat, segments: seq<Segment>, ghost ps: seq<Result<Totals, SheetError>>)
    returns (r: Result<Totals, SheetError>)
    requires Rect(lines, width) && |lines| >= 1 && forall i :: 0 <= i < |segments| ==> Fits(segments[i], width)
    requires Outcomes(lines, width, segments, ps)
    ensures r == Sums(ps, |segments|)
  {
    var total := Totals(0, 0);
    var k := 0;
    while k < |segments|
      invariant k <= |segments|
      invariant Sums(ps, k) == Ok(total)
    {
      var p := ProblemAt(lines, width, segments, k, ps);
      if p.Err? {
        SumsErr(ps, k + 1, |segments|, p.error);
        return Err(p.error);
      }
      SumsNext(ps, k, total);
      total := Totals(total.byRow + p.value.byRow, total.byCol + p.value.byCol);
      k := k + 1;
    }
    return Ok(total);
  }

  /** `both`: parse, segment, and sum the two answers of every problem. */
  method Both(s: string) returns (r: Result<Totals, SheetError>)
    ensures r == Solve(s)
  {
    var sheet := ParseLines(s);
    if sheet.Err? {
      return Err(sheet.error);
    }
    var lines, width := sheet.value.lines, sheet.value.width;
    var segs := FindSegments(lines, width);
    if segs.Err? {
      return Err(segs.error);
    }
    SegmentsFit(lines, width);
    ProblemsOutcomes(lines, width, segs.value);
    r := SumProblems(lines, width, segs.value, ProblemsOf(lines, width, segs.value));
  }

  /** Part 1: the sum of the row-wise answers. */
  method Part1(s: string) returns (r: Result<nat, SheetError>)
    ensures Solve(s).Ok? ==> r == Ok(Solve(s).value.byRow)
    ensures Solve(s).Err? ==> r == Err(Solve(s).error)
  {
    var b := Both(s);
    if b.Err? {
      return Err(b.error);
    }
    return Ok(b.value.byRow);
  }

  /** Part 2: the sum of the column-wise answers. */
  method Part2(s: string) returns (r: Result<nat, SheetError>)
    ensures Solve(s).Ok? ==> r == Ok(Solve(s).value.byCol)
    ensures Solve(s).Err? ==> r == Err(Solve(s).error)
  {
    var b := Both(s);
    if b.Err? {
      return Err(b.error);
    }
    return Ok(b.value.byCol);
  }
}
