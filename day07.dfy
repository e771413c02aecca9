// Day 7: beams of tachyons fall from `S` through a grid; a splitter `^` sends each beam
// one column to the left and one to the right. Part 1 counts the splitters that are hit,
// part 2 counts the timelines, every split turning one timeline into two.

module Day07 {
  import opened Common

  // ---------------------------------------------------------------------------
  // parse_grid
  // ---------------------------------------------------------------------------

  /** The ways `parse_grid` rejects its input; line and column numbers are 1-based. */
  datatype GridError =
    | EmptyLine(line: nat)
    | WidthMismatch(line: nat, width: nat, expected: nat)
    | MultipleStarts(line: nat, col: nat)
    | MissingStart

  /** Where `S` was seen so far (`start_row`, `start_col`). */
  datatype Start = NoStart | StartAt(row: nat, col: nat)

  /** The rows read so far and the start seen among them. */
  datatype Scan = Scan(rows: seq<string>, start: Start)

  /** A parsed grid: its rows and the (0-based) position of `S`. */
  datatype Grid = Grid(rows: seq<string>, startRow: nat, startCol: nat)

  /** `rows` are all `w` wide. */
  predicate Rectangular(rows: seq<string>, w: nat)
  {
    forall r :: 0 <= r < |rows| ==> |rows[r]| == w
  }

  /** What `simulate` relies on: at least one row, all of one width, `S` inside the grid. */
  predicate GridShape(g: Grid)
  {
    && g.startRow < |g.rows|
    && Rectangular(g.rows, |g.rows[0]|)
    && g.startCol < |g.rows[0]|
  }

  /** The scan keeps the shape `simulate` relies on: rows of one non-zero width, `S` inside. */
  predicate Shaped(sc: Scan)
  {
    && (sc.rows != [] ==> |sc.rows[0]| > 0 && Rectangular(sc.rows, |sc.rows[0]|))
    && (sc.start.StartAt? ==> sc.start.row < |sc.rows| && sc.start.col < |sc.rows[sc.start.row]|)
  }

  /** The body of the line loop of `parse_grid`: row `bytes` read from line number `line`. */
  function Feed(sc: Scan, bytes: string, line: nat): (r: Result<Scan, GridError>)
    requires line >= 1
    ensures r.Ok? ==> |r.value.rows| == |sc.rows| + 1
    ensures r.Ok? && Shaped(sc) && |sc.rows| == line - 1 ==> Shaped(r.value)
  {
    if bytes == [] then Err(EmptyLine(line))
    else if sc.rows != [] && |bytes| != |sc.rows[0]| then Err(WidthMismatch(line, |bytes|, |sc.rows[0]|))
    else
      var p := IndexOf(bytes, 'S', 0);
      if p < |bytes| && sc.start.StartAt? then Err(MultipleStarts(line, p + 1))
      else Ok(Scan(sc.rows + [bytes], if p < |bytes| then StartAt(line - 1, p) else sc.start))
  }

  /** `parse_grid` over the first `n` lines of the input. */
  function GridScan(rs: seq<string>, n: nat): (r: Result<Scan, GridError>)
    requires n <= |rs|
    ensures r.Ok? ==> |r.value.rows| == n && Shaped(r.value)
  {
    if n == 0 then Ok(Scan([], NoStart))
    else
      var sc :- GridScan(rs, n - 1);
      Feed(sc, rs[n - 1], n)
  }

  /** `parse_grid`. */
  function ParseGrid(input: string): (r: Result<Grid, GridError>)
    ensures r.Ok? ==> GridShape(r.value)
  {
    var rs := RowsOf(Lines(input));
    var sc :- GridScan(rs, |rs|);
    if sc.start.NoStart? then Err(MissingStart) else Ok(Grid(sc.rows, sc.start.row, sc.start.col))
  }

  /** The rows `parse_grid` makes of the lines: each without one further trailing `\r`. */
  function RowsOf(ls: seq<string>): (rs: seq<string>)
    ensures |rs| == |ls| && forall i :: 0 <= i < |ls| ==> rs[i] == StripCR(ls[i])
  {
    seq(|ls|, i requires 0 <= i < |ls| => StripCR(ls[i]))
  }

  /** Some row among the first `n` holds an `S`. */
  ghost predicate HasStart(rs: seq<string>, n: nat)
    requires n <= |rs|
    decreases n
  {
    n > 0 && (HasStart(rs, n - 1) || 'S' in rs[n - 1])
  }

  /** The first `n` rows agree, row by row: each non-empty, as wide as the first, and holding no
      `S` once an earlier row held one. */
  ghost predicate Agree(rs: seq<string>, n: nat)
    requires n <= |rs|
    decreases n
  {
    n == 0 || (Agree(rs, n - 1) && rs[n - 1] != [] && |rs[n - 1]| == |rs[0]| && !('S' in rs[n - 1] && HasStart(rs, n - 1)))
  }

  /** The first `n` rows are non-empty, all as wide as the first, and at most one holds an `S`. */
  ghost predicate RowsAgree(rs: seq<string>, n: nat)
    requires n <= |rs|
  {
    && (forall i :: 0 <= i < n ==> rs[i] != [])
    && (forall i :: 0 <= i < n ==> |rs[i]| == |rs[0]|)
    && (forall i, j :: 0 <= i < j < n && 'S' in rs[i] ==> 'S' !in rs[j])
  }

  lemma {:induction false} HasStartMeaning(rs: seq<string>, n: nat)
    requires n <= |rs|
    ensures HasStart(rs, n) <==> exists i :: 0 <= i < n && 'S' in rs[i]
  {
    if n > 0 {
      HasStartMeaning(rs, n - 1);
      if 'S' in rs[n - 1] {
        assert 0 <= n - 1 < n && 'S' in rs[n - 1];
      }
    }
  }

  /** One more row agrees with those before it when it is non-empty, as wide as the first and,
      if it holds an `S`, no row before it does. */
  lemma AgreeSnoc(rs: seq<string>, n: nat)
    requires n < |rs|
    ensures RowsAgree(rs, n + 1) <==>
      && RowsAgree(rs, n)
      && rs[n] != []
      && |rs[n]| == |rs[0]|
      && ('S' in rs[n] ==> forall i :: 0 <= i < n ==> 'S' !in rs[i])
  {
    if RowsAgree(rs, n + 1) {
      forall i | 0 <= i < n && 'S' in rs[n] ensures 'S' !in rs[i] {
        assert i < n;
      }
    }
  }

  /** The row-by-row rule is the pairwise one. */
  lemma {:induction false} AgreeMeaning(rs: seq<string>, n: nat)
    requires n <= |rs|
    ensures Agree(rs, n) <==> RowsAgree(rs, n)
  {
    if n > 0 {
      AgreeMeaning(rs, n - 1);
      HasStartMeaning(rs, n - 1);
      AgreeSnoc(rs, n - 1);
    }
  }

  /** `sc` holds the first `n` rows, and its start is the first `S` of the row holding one. */
  ghost predicate Describes(rs: seq<string>, n: nat, sc: Scan)
    requires n <= |rs|
  {
    && sc.rows == rs[..n]
    && (sc.start.NoStart? <==> !HasStart(rs, n))
    && (sc.start.StartAt? ==>
          && sc.start.row < n
          && sc.start.col < |rs[sc.start.row]|
          && rs[sc.start.row][sc.start.col] == 'S'
          && 'S' !in rs[sc.start.row][..sc.start.col])
  }

  /** An `S` leaves `IndexOf` short of the end, and no `S` takes it to the end. */
  lemma {:induction false} StartFound(s: string)
    ensures IndexOf(s, 'S', 0) < |s| <==> 'S' in s
    ensures IndexOf(s, 'S', 0) < |s| ==> s[IndexOf(s, 'S', 0)] == 'S' && 'S' !in s[..IndexOf(s, 'S', 0)]
  {
    var p := IndexOf(s, 'S', 0);
    if p < |s| {
      assert s[p] == 'S';
      forall j | 0 <= j < p ensures s[..p][j] != 'S' {
        assert s[..p][j] == s[j];
      }
    } else {
      forall j | 0 <= j < |s| ensures s[j] != 'S' { }
    }
  }

  /** A line is accepted exactly when it is non-empty, as wide as the rows before it, and holds
      no `S` once one was seen; it is then appended, and its first `S` becomes the start. */
  lemma {:induction false} FeedMeaning(sc: Scan, bytes: string, line: nat)
    requires line >= 1
    ensures Feed(sc, bytes, line).Ok? <==>
      bytes != [] && (sc.rows != [] ==> |bytes| == |sc.rows[0]|) && !(sc.start.StartAt? && 'S' in bytes)
    ensures Feed(sc, bytes, line).Ok? ==>
      && Feed(sc, bytes, line).value.rows == sc.rows + [bytes]
      && ('S' !in bytes ==> Feed(sc, bytes, line).value.start == sc.start)
      && ('S' in bytes ==> Feed(sc, bytes, line).value.start == StartAt(line - 1, IndexOf(bytes, 'S', 0)))
  {
    StartFound(bytes);
  }

  /** The errors of one line, in terms of the scan before it. */
  lemma FeedErrors(sc: Scan, bytes: string, line: nat, e: GridError)
    requires line >= 1
    requires Feed(sc, bytes, line) == Err(e)
    ensures !e.MissingStart? && e.line == line
    ensures e.EmptyLine? ==> bytes == []
    ensures e.WidthMismatch? ==>
      bytes != [] && sc.rows != [] && e.width == |bytes| != e.expected && e.expected == |sc.rows[0]|
    ensures e.MultipleStarts? ==>
      && bytes != [] && (sc.rows != [] ==> |bytes| == |sc.rows[0]|) && sc.start.StartAt?
      && 1 <= e.col <= |bytes| && bytes[e.col - 1] == 'S' && 'S' !in bytes[..e.col - 1]
  {
    StartFound(bytes);
  }

  /** The scan after one more accepted line describes one more row. */
  lemma DescribesSnoc(rs: seq<string>, n: nat, sc: Scan, line: nat)
    requires n < |rs| && line == n + 1 && Describes(rs, n, sc)
    requires Feed(sc, rs[n], line).Ok?
    ensures Describes(rs, n + 1, Feed(sc, rs[n], line).value)
  {
    FeedMeaning(sc, rs[n], line);
    StartFound(rs[n]);
    assert rs[..n] + [rs[n]] == rs[..n + 1];
  }

  /** The scan of `n + 1` lines: line `n + 1` joins the rows exactly when it agrees with those before it. */
  lemma ScanStep(rs: seq<string>, n: nat, sc: Scan)
    requires n < |rs|
    requires GridScan(rs, n) == Ok(sc) && Describes(rs, n, sc) && Agree(rs, n)
    ensures GridScan(rs, n + 1).Ok? <==> Agree(rs, n + 1)
    ensures GridScan(rs, n + 1).Ok? ==> Describes(rs, n + 1, GridScan(rs, n + 1).value)
  {
    assert GridScan(rs, n + 1) == Feed(sc, rs[n], n + 1);
    FeedMeaning(sc, rs[n], n + 1);
    if n > 0 {
      assert sc.rows[0] == rs[0];
    }
    if Feed(sc, rs[n], n + 1).Ok? {
      DescribesSnoc(rs, n, sc, n + 1);
    }
  }

  /** `parse_grid` keeps reading exactly while the rows agree, and then holds those rows and the
      first `S`. */
  lemma {:induction false} ScanMeaning(rs: seq<string>, n: nat)
    requires n <= |rs|
    ensures GridScan(rs, n).Ok? <==> Agree(rs, n)
    ensures GridScan(rs, n).Ok? ==> Describes(rs, n, GridScan(rs, n).value)
  {
    if n > 0 {
      ScanMeaning(rs, n - 1);
      var prev := GridScan(rs, n - 1);
      if prev.Ok? {
        ScanStep(rs, n - 1, prev.value);
      }
    }
  }

  /** The rows form a grid: they agree and one of them holds an `S`. */
  ghost predicate WellFormed(rs: seq<string>)
  {
    RowsAgree(rs, |rs|) && exists i :: 0 <= i < |rs| && 'S' in rs[i]
  }

  /** In rows that agree, the one row holding an `S` is the only one. */
  lemma OnlyStartRow(rs: seq<string>, r: nat)
    requires RowsAgree(rs, |rs|) && r < |rs| && 'S' in rs[r]
    ensures forall i :: 0 <= i < |rs| && i != r ==> 'S' !in rs[i]
  {
  }

  /** `parse_grid` accepts exactly the inputs whose rows are well formed, and then returns those
      rows and the position of the first `S` of the one row that has one. */
  lemma {:induction false} ParseGridMeaning(input: string)
    ensures ParseGrid(input).Ok? <==> WellFormed(RowsOf(Lines(input)))
    ensures ParseGrid(input).Ok? ==>
      var g := ParseGrid(input).value;
      && g.rows == RowsOf(Lines(input))
      && g.rows[g.startRow][g.startCol] == 'S'
      && 'S' !in g.rows[g.startRow][..g.startCol]
      && (forall i :: 0 <= i < |g.rows| && i != g.startRow ==> 'S' !in g.rows[i])
  {
    var rs := RowsOf(Lines(input));
    ScanMeaning(rs, |rs|);
    AgreeMeaning(rs, |rs|);
    HasStartMeaning(rs, |rs|);
    assert rs[..|rs|] == rs;
    if GridScan(rs, |rs|).Ok? {
      var sc := GridScan(rs, |rs|).value;
      if sc.start.StartAt? {
        OnlyStartRow(rs, sc.start.row);
      }
    }
  }

  /** A scan that failed stays failed with the same error. */
  lemma {:induction false} ScanErr(rs: seq<string>, m: nat, n: nat, e: GridError)
    requires m <= n <= |rs|
    requires GridScan(rs, m) == Err(e)
    ensures GridScan(rs, n) == Err(e)
    decreases n - m
  {
    if m < n {
      assert GridScan(rs, m + 1) == Err(e);
      ScanErr(rs, m + 1, n, e);
    }
  }

  /** What makes line `k` (1-based) the first line that breaks the rules with error `e`. */
  ghost predicate Breaks(rs: seq<string>, k: nat, e: GridError)
    requires 1 <= k <= |rs|
  {
    var b := rs[k - 1];
    && (e.EmptyLine? ==> b == [])
    && (e.WidthMismatch? ==> k >= 2 && b != [] && e.width == |b| != e.expected && e.expected == |rs[0]|)
    && (e.MultipleStarts? ==>
          && b != [] && |b| == |rs[0]| && 1 <= e.col <= |b| && b[e.col - 1] == 'S' && 'S' !in b[..e.col - 1]
          && exists i :: 0 <= i < k - 1 && 'S' in rs[i])
  }

  /** The error of the last line, when the lines before it were accepted. */
  lemma ScanLast(rs: seq<string>, n: nat, sc: Scan, e: GridError)
    requires 0 < n <= |rs|
    requires Describes(rs, n - 1, sc) && Feed(sc, rs[n - 1], n) == Err(e)
    ensures !e.MissingStart? && e.line == n && Breaks(rs, n, e)
  {
    FeedErrors(sc, rs[n - 1], n, e);
    HasStartMeaning(rs, n - 1);
    if n >= 2 {
      assert sc.rows[0] == rs[0];
    }
  }

  /** Each error of the scan names the first line that breaks the rules, and what it breaks. */
  lemma {:induction false} ScanErrorMeaning(rs: seq<string>, n: nat, e: GridError)
    requires n <= |rs|
    requires GridScan(rs, n) == Err(e)
    ensures !e.MissingStart? && 1 <= e.line <= n && Agree(rs, e.line - 1) && Breaks(rs, e.line, e)
  {
    var prev := GridScan(rs, n - 1);
    if prev.Err? {
      ScanErrorMeaning(rs, n - 1, prev.error);
    } else {
      ScanMeaning(rs, n - 1);
      assert Feed(prev.value, rs[n - 1], n) == Err(e);
      ScanLast(rs, n, prev.value, e);
    }
  }

  /** `parse_grid` reports `MissingStart` exactly when the rows agree and none holds an `S`. */
  lemma {:induction false} ParseGridMissing(input: string)
    ensures var rs := RowsOf(Lines(input));
      ParseGrid(input) == Err(MissingStart) <==> RowsAgree(rs, |rs|) && forall i :: 0 <= i < |rs| ==> 'S' !in rs[i]
  {
    var rs := RowsOf(Lines(input));
    ScanMeaning(rs, |rs|);
    AgreeMeaning(rs, |rs|);
    HasStartMeaning(rs, |rs|);
    assert rs[..|rs|] == rs;
    if GridScan(rs, |rs|).Err? {
      ScanErrorMeaning(rs, |rs|, GridScan(rs, |rs|).error);
    }
  }

  /** Any other error of `parse_grid` names the first line that breaks the rules: the rows before
      it agree (row by row, which `AgreeMeaning` shows is the pairwise rule), and it is empty, or of another width than the first, or holds an `S` (the first
      at the column named) after an earlier row did. */
  lemma {:induction false} ParseGridErrors(input: string, e: GridError)
    requires ParseGrid(input) == Err(e) && !e.MissingStart?
    ensures var rs := RowsOf(Lines(input));
      1 <= e.line <= |rs| && Agree(rs, e.line - 1) && Breaks(rs, e.line, e)
  {
    var rs := RowsOf(Lines(input));
    assert GridScan(rs, |rs|) == Err(e);
    ScanErrorMeaning(rs, |rs|, e);
  }

  /** The scan of one more line, as the loop body computes it. */
  lemma ScanNext(rs: seq<string>, i: nat, rows: seq<string>, start: Start, rows': seq<string>, start': Start)
    requires i < |rs| && GridScan(rs, i) == Ok(Scan(rows, start))
    requires Feed(Scan(rows, start), rs[i], i + 1) == Ok(Scan(rows', start'))
    ensures GridScan(rs, i + 1) == Ok(Scan(rows', start'))
  {
  }

  /** A line the loop body rejects ends the whole scan with its error. */
  lemma {:induction false} ScanStops(rs: seq<string>, i: nat, sc: Scan, e: GridError)
    requires i < |rs| && GridScan(rs, i) == Ok(sc)
    requires Feed(sc, rs[i], i + 1) == Err(e)
    ensures GridScan(rs, |rs|) == Err(e)
  {
    assert GridScan(rs, i + 1) == Err(e);
    ScanErr(rs, i + 1, |rs|, e);
  }

  /** `parse_grid`: the rows and the start, or the first error. */
  method ParseGridInput(input: string) returns (r: Result<Grid, GridError>)
    ensures r == ParseGrid(input)
  {
    var sc := ScanLines(Lines(input));
    if sc.Err? {
      return Err(sc.error);
    }
    if sc.value.start.NoStart? {
      return Err(MissingStart);
    }
    return Ok(Grid(sc.value.rows, sc.value.start.row, sc.value.start.col));
  }

  /** The line loop of `parse_grid`, one line after another. */
  method ScanLines(ls: seq<string>) returns (r: Result<Scan, GridError>)
    ensures r == GridScan(RowsOf(ls), |RowsOf(ls)|)
  {
    ghost var rs := RowsOf(ls);
    var rows: seq<string> := [];
    var expected: Option<nat> := None;
    var start: Start := NoStart;
    var i := 0;
    while i < |ls|
      invariant 0 <= i <= |ls|
      invariant GridScan(rs, i) == Ok(Scan(rows, start))
      invariant expected == if rows == [] then None else Some(|rows[0]|)
    {
      var next, expected' := FeedLine(rows, start, expected, ls[i], i + 1);
      if next.Err? {
        ScanStops(rs, i, Scan(rows, start), next.error);
        return Err(next.error);
      }
      ScanNext(rs, i, rows, start, next.value.rows, next.value.start);
      rows, start, expected := next.value.rows, next.value.start, expected';
      i := i + 1;
    }
    return Ok(Scan(rows, start));
  }

  /** The body of the line loop for line number `n`: strip a trailing `\r`, then reject an
      empty line, a width other than the first row's, or a second `S`; otherwise keep the
      row, note the width of the first row, and record where the `S` is. */
  method FeedLine(rows: seq<string>, start: Start, expected: Option<nat>, line: string, n: nat)
    returns (r: Result<Scan, GridError>, expected': Option<nat>)
    requires n >= 1 && expected == if rows == [] then None else Some(|rows[0]|)
    ensures r == Feed(Scan(rows, start), StripCR(line), n)
    ensures r.Ok? ==> expected' == Some(|r.value.rows[0]|)
  {
    var bytes := line;
    if |bytes| > 0 && bytes[|bytes| - 1] == '\r' {
      bytes := bytes[..|bytes| - 1];
    }
    expected' := expected;
    if |bytes| == 0 {
      return Err(EmptyLine(n)), expected';
    }
    if expected.Some? {
      if |bytes| != expected.value {
        return Err(WidthMismatch(n, |bytes|, expected.value)), expected';
      }
    } else {
      expected' := Some(|bytes|);
    }
    var pos := IndexOf(bytes, 'S', 0);
    var start' := start;
    if pos < |bytes| {
      if start.StartAt? {
        return Err(MultipleStarts(n, pos + 1)), expected';
      }
      start' := StartAt(n - 1, pos);
    }
    r := Ok(Scan(rows + [bytes], start'));
    assert r.value.rows[0] == (if rows == [] then bytes else rows[0]);
  }

  // ---------------------------------------------------------------------------
  // One row of simulate
  // ---------------------------------------------------------------------------

  /** What the column loop of `simulate` produces for one row: the counts for the row below,
      the splitters hit and the timelines added. */
  datatype Tally = Tally(next: seq<nat>, hits: nat, added: nat)

  /** `w` cleared counts. */
  function Zeros(w: nat): (z: seq<nat>)
    ensures |z| == w && forall j :: 0 <= j < w ==> z[j] == 0
  {
    seq(w, _ => 0)
  }

  /** `s[j] += count`, when `j` is a column of `s`. */
  function AddAt(s: seq<nat>, j: int, count: nat): (t: seq<nat>)
    ensures |t| == |s|
    ensures forall k :: 0 <= k < |s| ==> t[k] == s[k] + (if k == j then count else 0)
  {
    if 0 <= j < |s| then s[j := s[j] + count] else s
  }

  /** Column `c` of the inner loop of `simulate`: a nonzero count on a splitter goes to both
      neighbours in the grid, counts one splitter hit and adds as many timelines; on any other
      cell it goes straight down. */
  function Col(line: string, cur: seq<nat>, c: nat, t: Tally): (t': Tally)
    requires |line| == |cur| && c < |cur| && |t.next| == |cur|
    ensures |t'.next| == |cur|
  {
    var count := cur[c];
    if count == 0 then t
    else if line[c] == '^' then Tally(AddAt(AddAt(t.next, c - 1, count), c + 1, count), t.hits + 1, t.added + count)
    else Tally(AddAt(t.next, c, count), t.hits, t.added)
  }

  /** The column loop of `simulate` over columns `0..n` of `line`, arriving counts `cur`, from
      cleared `next_counts`. */
  function StepUpTo(line: string, cur: seq<nat>, n: nat): (t: Tally)
    requires |line| == |cur| && n <= |cur|
    ensures |t.next| == |cur|
  {
    if n == 0 then Tally(Zeros(|cur|), 0, 0) else Col(line, cur, n - 1, StepUpTo(line, cur, n - 1))
  }

  /** One row of `simulate`. */
  function Step(line: string, cur: seq<nat>): Tally
    requires |line| == |cur|
  {
    StepUpTo(line, cur, |cur|)
  }

  /** The count that reaches column `j` below `line`, from the sources among columns `0..n`:
      straight down from a cell that is no splitter, and from a splitter on either side. */
  function ArriveFrom(line: string, cur: seq<nat>, n: nat, j: nat): nat
    requires |line| == |cur| && n <= |cur| && j < |cur|
  {
    (if j < n && line[j] != '^' then cur[j] else 0)
    + (if 0 < j <= n && line[j - 1] == '^' then cur[j - 1] else 0)
    + (if j + 1 < n && line[j + 1] == '^' then cur[j + 1] else 0)
  }

  /** The counts of the row below `line`, column by column. */
  function Arrival(line: string, cur: seq<nat>): (a: seq<nat>)
    requires |line| == |cur|
    ensures |a| == |cur|
  {
    seq(|cur|, j requires 0 <= j < |cur| => ArriveFrom(line, cur, |cur|, j))
  }

  /** The counts that arrive at the splitters of `line` (a zero count elsewhere). */
  function Masked(line: string, cur: seq<nat>): (m: seq<nat>)
    requires |line| == |cur|
    ensures |m| == |cur|
  {
    seq(|cur|, c requires 0 <= c < |cur| => if line[c] == '^' then cur[c] else 0)
  }

  /** The splitters among columns `0..n` that a nonzero count reaches. */
  ghost function HitCols(line: string, cur: seq<nat>, n: nat): set<nat>
    requires |line| == |cur| && n <= |cur|
  {
    set c: nat | c < n && line[c] == '^' && cur[c] > 0
  }

  /** The counts a splitter in the first or the last column throws off the grid, among
      columns `0..n`. */
  function LostUpTo(line: string, cur: seq<nat>, n: nat): nat
    requires |line| == |cur| && n <= |cur|
  {
    (if 0 < n && line[0] == '^' then cur[0] else 0)
    + (if 0 < n == |cur| && line[n - 1] == '^' then cur[n - 1] else 0)
  }

  /** The counts the splitters of a whole row throw off the two side walls. */
  function EdgeLoss(line: string, cur: seq<nat>): nat
    requires |line| == |cur|
  {
    LostUpTo(line, cur, |cur|)
  }

  /** Column `c` adds to the next counts exactly what it sends down. */
  lemma ColNext(line: string, cur: seq<nat>, c: nat, t: Tally)
    requires |line| == |cur| && c < |cur| && |t.next| == |cur|
    requires forall j :: 0 <= j < |cur| ==> t.next[j] == ArriveFrom(line, cur, c, j)
    ensures forall j :: 0 <= j < |cur| ==> Col(line, cur, c, t).next[j] == ArriveFrom(line, cur, c + 1, j)
  {
  }

  /** The next counts after columns `0..n` are the counts those columns send down. */
  lemma {:induction false} StepNext(line: string, cur: seq<nat>, n: nat)
    requires |line| == |cur| && n <= |cur|
    ensures forall j :: 0 <= j < |cur| ==> StepUpTo(line, cur, n).next[j] == ArriveFrom(line, cur, n, j)
  {
    if n > 0 {
      StepNext(line, cur, n - 1);
      ColNext(line, cur, n - 1, StepUpTo(line, cur, n - 1));
    }
  }

  /** The splitters counted after columns `0..n` are the splitters among them reached by a beam. */
  lemma {:induction false} StepHits(line: string, cur: seq<nat>, n: nat)
    requires |line| == |cur| && n <= |cur|
    ensures StepUpTo(line, cur, n).hits == |HitCols(line, cur, n)|
  {
    if n > 0 {
      StepHits(line, cur, n - 1);
      var c := n - 1;
      if line[c] == '^' && cur[c] > 0 {
        assert HitCols(line, cur, n) == HitCols(line, cur, n - 1) + {c};
      } else {
        assert HitCols(line, cur, n) == HitCols(line, cur, n - 1);
      }
    }
  }

  /** The prefix sums of a sequence grow by its next element. */
  lemma SumPrefix(s: seq<int>, n: nat)
    requires 0 < n <= |s|
    ensures Sum(s[..n]) == Sum(s[..n - 1]) + s[n - 1]
  {
    assert s[..n][..n - 1] == s[..n - 1];
  }

  /** The timelines added after columns `0..n` are the counts arriving at splitters among them. */
  lemma {:induction false} StepAdded(line: string, cur: seq<nat>, n: nat)
    requires |line| == |cur| && n <= |cur|
    ensures StepUpTo(line, cur, n).added == Sum(Masked(line, cur)[..n])
  {
    if n > 0 {
      StepAdded(line, cur, n - 1);
      SumPrefix(Masked(line, cur), n);
    }
  }

  /** Adding to one element adds to the sum. */
  lemma {:induction false} SumAddAt(s: seq<nat>, j: int, count: nat)
    ensures Sum(AddAt(s, j, count)) == Sum(s) + (if 0 <= j < |s| then count else 0)
    decreases |s|
  {
    if s != [] {
      var t := AddAt(s, j, count);
      assert t[..|t| - 1] == AddAt(s[..|s| - 1], j, count);
      SumAddAt(s[..|s| - 1], j, count);
    }
  }

  lemma {:induction false} SumZeros(w: nat)
    ensures Sum(Zeros(w)) == 0
  {
    if w > 0 {
      assert Zeros(w)[..w - 1] == Zeros(w - 1);
      SumZeros(w - 1);
    }
  }

  /** Column `c` sends its count down once, or twice from a splitter, less what leaves the grid. */
  lemma ColConserves(line: string, cur: seq<nat>, c: nat, t: Tally)
    requires |line| == |cur| && c < |cur| && |t.next| == |cur|
    ensures Sum(Col(line, cur, c, t).next) + LostUpTo(line, cur, c + 1)
         == Sum(t.next) + LostUpTo(line, cur, c) + cur[c] + Col(line, cur, c, t).added - t.added
  {
    var count := cur[c];
    if count != 0 {
      if line[c] == '^' {
        SumAddAt(t.next, c - 1, count);
        SumAddAt(AddAt(t.next, c - 1, count), c + 1, count);
      } else {
        SumAddAt(t.next, c, count);
      }
    }
  }

  /** No beam is lost inside a row: what goes down plus what leaves through the side walls is
      what arrived plus one extra beam per split. */
  lemma {:induction false} StepConserves(line: string, cur: seq<nat>, n: nat)
    requires |line| == |cur| && n <= |cur|
    ensures Sum(StepUpTo(line, cur, n).next) + LostUpTo(line, cur, n) == Sum(cur[..n]) + StepUpTo(line, cur, n).added
  {
    if n == 0 {
      SumZeros(|cur|);
    } else {
      StepConserves(line, cur, n - 1);
      SumPrefix(cur, n);
      ColConserves(line, cur, n - 1, StepUpTo(line, cur, n - 1));
    }
  }

  /** One row of `simulate` against its reference: the counts below are those sent down, the
      splitters hit are those a beam reaches, the timelines added are the counts arriving at
      splitters, and beams are conserved. */
  lemma {:induction false} StepMeaning(line: string, cur: seq<nat>)
    requires |line| == |cur|
    ensures Step(line, cur).next == Arrival(line, cur)
    ensures Step(line, cur).hits == |HitCols(line, cur, |cur|)|
    ensures Step(line, cur).added == Sum(Masked(line, cur))
    ensures Sum(Step(line, cur).next) + EdgeLoss(line, cur) == Sum(cur) + Step(line, cur).added
  {
    StepNext(line, cur, |cur|);
    StepHits(line, cur, |cur|);
    StepAdded(line, cur, |cur|);
    StepConserves(line, cur, |cur|);
    assert Masked(line, cur)[..|cur|] == Masked(line, cur);
    assert cur[..|cur|] == cur;
  }

  // ---------------------------------------------------------------------------
  // simulate
  // ---------------------------------------------------------------------------

  /** The state of `simulate` between rows: `current_counts`, `splitters_hit`, `timelines`. */
  datatype Beams = Beams(counts: seq<nat>, hits: nat, timelines: nat)

  /** `simulate` over rows `lo..n`, from the state `init`. */
  function Run(rows: seq<string>, w: nat, lo: nat, n: nat, init: Beams): (b: Beams)
    requires Rectangular(rows, w) && lo <= n <= |rows| && |init.counts| == w
    ensures |b.counts| == w
    decreases n - lo
  {
    if n == lo then init
    else
      var b := Run(rows, w, lo, n - 1, init);
      var t := Step(rows[n - 1], b.counts);
      Beams(t.next, b.hits + t.hits, b.timelines + t.added)
  }

  /** A single beam at column `c`. */
  function Unit(w: nat, c: nat): (u: seq<nat>)
    requires c < w
    ensures |u| == w
  {
    Zeros(w)[c := 1]
  }

  /** The state in which `simulate` starts: one beam below `S`, no split, one timeline. */
  function Initial(g: Grid): (b: Beams)
    requires GridShape(g)
    ensures |b.counts| == |g.rows[0]|
  {
    Beams(Unit(|g.rows[0]|, g.startCol), 0, 1)
  }

  /** `simulate` on a parsed grid: the rows below `S`, one after another. */
  function Simulate(g: Grid): (b: Beams)
    requires GridShape(g)
    ensures |b.counts| == |g.rows[0]|
  {
    Run(g.rows, |g.rows[0]|, g.startRow + 1, |g.rows|, Initial(g))
  }

  /** The answers of both parts before any line is split: splitters hit, timelines. */
  datatype Answer = Answer(splits: nat, timelines: nat)

  /** `simulate` on the input: part 1 is the splits, part 2 the timelines. */
  function Solve(input: string): Result<Answer, GridError>
  {
    var g :- ParseGrid(input);
    var b := Simulate(g);
    Ok(Answer(b.hits, b.timelines))
  }

  /** The `^` cells of rows `lo..n` that a nonzero count reaches, as (row, column). */
  ghost function HitCells(rows: seq<string>, w: nat, lo: nat, n: nat, init: Beams): set<(nat, nat)>
    requires Rectangular(rows, w) && lo <= n <= |rows| && |init.counts| == w
  {
    set r: nat, c: nat | lo <= r < n && c < w && rows[r][c] == '^' && Run(rows, w, lo, r, init).counts[c] > 0 :: (r, c)
  }

  /** The cells of row `r` at the columns `cs`. */
  ghost function RowCells(r: nat, cs: set<nat>): set<(nat, nat)>
  {
    set c | c in cs :: (r, c)
  }

  lemma {:induction false} RowCellsSize(r: nat, cs: set<nat>)
    ensures |RowCells(r, cs)| == |cs|
    decreases |cs|
  {
    if cs != {} {
      var c :| c in cs;
      assert RowCells(r, cs) == RowCells(r, cs - {c}) + {(r, c)};
      RowCellsSize(r, cs - {c});
    }
  }

  /** The hit cells of rows `lo..n + 1` are those of rows `lo..n` and the hit splitters of row `n`. */
  lemma HitCellsSnoc(rows: seq<string>, w: nat, lo: nat, n: nat, init: Beams)
    requires Rectangular(rows, w) && lo <= n < |rows| && |init.counts| == w
    ensures HitCells(rows, w, lo, n + 1, init)
         == HitCells(rows, w, lo, n, init) + RowCells(n, HitCols(rows[n], Run(rows, w, lo, n, init).counts, w))
    ensures HitCells(rows, w, lo, n, init) * RowCells(n, HitCols(rows[n], Run(rows, w, lo, n, init).counts, w)) == {}
  {
    var cs := HitCols(rows[n], Run(rows, w, lo, n, init).counts, w);
    forall p | p in HitCells(rows, w, lo, n + 1, init)
      ensures p in HitCells(rows, w, lo, n, init) + RowCells(n, cs)
    {
      if p.0 == n {
        assert p.1 in cs;
      }
    }
    forall p | p in RowCells(n, cs) ensures p !in HitCells(rows, w, lo, n, init) && p in HitCells(rows, w, lo, n + 1, init) {
      var c :| c in cs && p == (n, c);
    }
  }

  lemma DisjointSize<T>(a: set<T>, b: set<T>)
    requires a * b == {}
    ensures |a + b| == |a| + |b|
  {
  }

  /** Row `n` adds its hit splitters to the hit cells. */
  lemma HitsStep(rows: seq<string>, w: nat, lo: nat, n: nat, init: Beams)
    requires Rectangular(rows, w) && lo <= n < |rows| && |init.counts| == w
    ensures |HitCells(rows, w, lo, n + 1, init)|
         == |HitCells(rows, w, lo, n, init)| + Step(rows[n], Run(rows, w, lo, n, init).counts).hits
  {
    var b := Run(rows, w, lo, n, init);
    var cs := HitCols(rows[n], b.counts, w);
    StepHits(rows[n], b.counts, w);
    HitCellsSnoc(rows, w, lo, n, init);
    RowCellsSize(n, cs);
    DisjointSize(HitCells(rows, w, lo, n, init), RowCells(n, cs));
  }

  /** `splitters_hit` grows by one for every (row, `^` cell) a nonzero count reaches. */
  lemma {:induction false} RunHits(rows: seq<string>, w: nat, lo: nat, n: nat, init: Beams)
    requires Rectangular(rows, w) && lo <= n <= |rows| && |init.counts| == w
    ensures Run(rows, w, lo, n, init).hits == init.hits + |HitCells(rows, w, lo, n, init)|
    decreases n - lo
  {
    if n > lo {
      RunHits(rows, w, lo, n - 1, init);
      RunHitsStep(rows, w, lo, n - 1, init);
    } else {
      assert HitCells(rows, w, lo, n, init) == {};
    }
  }

  /** One more row keeps the splitter count equal to the number of cells hit. */
  lemma RunHitsStep(rows: seq<string>, w: nat, lo: nat, n: nat, init: Beams)
    requires Rectangular(rows, w) && lo <= n < |rows| && |init.counts| == w
    requires Run(rows, w, lo, n, init).hits == init.hits + |HitCells(rows, w, lo, n, init)|
    ensures Run(rows, w, lo, n + 1, init).hits == init.hits + |HitCells(rows, w, lo, n + 1, init)|
  {
    var b := Run(rows, w, lo, n, init);
    assert Run(rows, w, lo, n + 1, init).hits == b.hits + Step(rows[n], b.counts).hits;
    HitsStep(rows, w, lo, n, init);
  }

  /** The counts that arrive at the splitters of rows `lo..n`, added up. */
  ghost function SplitterArrivals(rows: seq<string>, w: nat, lo: nat, n: nat, init: Beams): int
    requires Rectangular(rows, w) && lo <= n <= |rows| && |init.counts| == w
    decreases n - lo
  {
    if n == lo then 0
    else SplitterArrivals(rows, w, lo, n - 1, init) + Sum(Masked(rows[n - 1], Run(rows, w, lo, n - 1, init).counts))
  }

  /** The counts thrown off the side walls by the splitters of rows `lo..n`. */
  ghost function WallLosses(rows: seq<string>, w: nat, lo: nat, n: nat, init: Beams): nat
    requires Rectangular(rows, w) && lo <= n <= |rows| && |init.counts| == w
    decreases n - lo
  {
    if n == lo then 0
    else WallLosses(rows, w, lo, n - 1, init) + EdgeLoss(rows[n - 1], Run(rows, w, lo, n - 1, init).counts)
  }

  /** `timelines` grows by the counts arriving at splitters, and every timeline is a beam that
      is still falling or one that left through a side wall. */
  lemma {:induction false} RunTimelines(rows: seq<string>, w: nat, lo: nat, n: nat, init: Beams)
    requires Rectangular(rows, w) && lo <= n <= |rows| && |init.counts| == w
    ensures Run(rows, w, lo, n, init).timelines == init.timelines + SplitterArrivals(rows, w, lo, n, init)
    ensures Sum(Run(rows, w, lo, n, init).counts) + WallLosses(rows, w, lo, n, init)
         == Sum(init.counts) + SplitterArrivals(rows, w, lo, n, init)
    decreases n - lo
  {
    if n > lo {
      RunTimelines(rows, w, lo, n - 1, init);
      StepMeaning(rows[n - 1], Run(rows, w, lo, n - 1, init).counts);
    }
  }

  /** `simulate` reads only the rows below `S`. */
  lemma {:induction false} RunReadsRows(rows: seq<string>, rows': seq<string>, w: nat, lo: nat, n: nat, init: Beams)
    requires Rectangular(rows, w) && Rectangular(rows', w) && lo <= n <= |rows| && n <= |rows'| && |init.counts| == w
    requires forall r :: lo <= r < n ==> rows[r] == rows'[r]
    ensures Run(rows, w, lo, n, init) == Run(rows', w, lo, n, init)
    decreases n - lo
  {
    if n > lo {
      RunReadsRows(rows, rows', w, lo, n - 1, init);
    }
  }

  lemma {:induction false} SumUnit(w: nat, c: nat)
    requires c < w
    ensures Sum(Unit(w, c)) == 1
  {
    SumZeros(w);
    assert Unit(w, c) == AddAt(Zeros(w), c, 1);
    SumAddAt(Zeros(w), c, 1);
  }

  /** The properties `simulate` promises: the splits are the (row, `^`) cells a beam reaches below
      `S`; the timelines are one plus the counts arriving at splitters, and equal the beams that
      leave the bottom row plus those that leave through a side wall. */
  lemma SimulateMeaning(g: Grid)
    requires GridShape(g)
    ensures var w, lo := |g.rows[0]|, g.startRow + 1;
      && Simulate(g).hits == |HitCells(g.rows, w, lo, |g.rows|, Initial(g))|
      && Simulate(g).timelines == 1 + SplitterArrivals(g.rows, w, lo, |g.rows|, Initial(g))
      && Simulate(g).timelines == Sum(Simulate(g).counts) + WallLosses(g.rows, w, lo, |g.rows|, Initial(g))
  {
    var w, lo := |g.rows[0]|, g.startRow + 1;
    RunHits(g.rows, w, lo, |g.rows|, Initial(g));
    RunTimelines(g.rows, w, lo, |g.rows|, Initial(g));
    SumUnit(w, g.startCol);
  }

  /** The rows above `S`, and the row of `S` itself, play no part in `simulate`. */
  lemma SimulateIgnoresAbove(g: Grid, rows': seq<string>)
    requires GridShape(g)
    requires |rows'| == |g.rows| && rows'[g.startRow + 1..] == g.rows[g.startRow + 1..]
    requires Rectangular(rows', |g.rows[0]|) && |rows'[0]| == |g.rows[0]|
    ensures Simulate(Grid(rows', g.startRow, g.startCol)) == Simulate(g)
  {
    var lo := g.startRow + 1;
    forall r | lo <= r < |g.rows| ensures g.rows[r] == rows'[r] {
      assert g.rows[r] == g.rows[lo..][r - lo];
      assert rows'[r] == rows'[lo..][r - lo];
    }
    RunReadsRows(g.rows, rows', |g.rows[0]|, lo, |g.rows|, Initial(g));
  }

  // ---------------------------------------------------------------------------
  // The count buffers
  // ---------------------------------------------------------------------------

  /** Column `col` of the inner loop: the count in `current` moves into `next`. */
  method Spread(line: string, current: array<nat>, next: array<nat>, col: nat, hits0: nat, timelines0: nat, ghost t: Tally)
    returns (hits: nat, timelines: nat)
    requires current != next && current.Length == next.Length == |line| && col < |line|
    requires next[..] == t.next
    modifies next
    ensures next[..] == Col(line, current[..], col, t).next
    ensures hits == hits0 + Col(line, current[..], col, t).hits - t.hits
    ensures timelines == timelines0 + Col(line, current[..], col, t).added - t.added
  {
    hits, timelines := hits0, timelines0;
    var count := current[col];
    if count == 0 {
      return;
    }
    var width := next.Length;
    if line[col] == '^' {
      hits := hits + 1;
      timelines := timelines + count;
      if col > 0 {
        next[col - 1] := next[col - 1] + count;
      }
      if col + 1 < width {
        next[col + 1] := next[col + 1] + count;
      }
    } else {
      next[col] := next[col] + count;
    }
  }

  /** One row of `simulate`: clear `next`, then move every count of `current` into it. */
  method StepRow(line: string, current: array<nat>, next: array<nat>, hits0: nat, timelines0: nat)
    returns (hits: nat, timelines: nat)
    requires current != next && current.Length == next.Length == |line|
    modifies next
    ensures next[..] == Step(line, current[..]).next
    ensures hits == hits0 + Step(line, current[..]).hits
    ensures timelines == timelines0 + Step(line, current[..]).added
  {
    var j := 0;
    while j < next.Length
      invariant 0 <= j <= next.Length
      invariant forall k :: 0 <= k < j ==> next[k] == 0
    {
      next[j] := 0;
      j := j + 1;
    }
    assert next[..] == Zeros(next.Length);
    hits, timelines := hits0, timelines0;
    var col := 0;
    while col < current.Length
      invariant 0 <= col <= current.Length
      invariant next[..] == StepUpTo(line, current[..], col).next
      invariant hits == hits0 + StepUpTo(line, current[..], col).hits
      invariant timelines == timelines0 + StepUpTo(line, current[..], col).added
    {
      hits, timelines := Spread(line, current, next, col, hits, timelines, StepUpTo(line, current[..], col));
      col := col + 1;
    }
  }

  /** `simulate`: the two count buffers, swapped after every row below `S`. */
  method SimulateRows(g: Grid) returns (a: Answer)
    requires GridShape(g)
    ensures a == Answer(Simulate(g).hits, Simulate(g).timelines)
  {
    var rows := g.rows;
    var width := |rows[0]|;
    var current := new nat[width](_ => 0);
    var next := new nat[width](_ => 0);
    current[g.startCol] := 1;
    assert current[..] == Unit(width, g.startCol);
    var hits: nat := 0;
    var timelines: nat := 1;
    var r := g.startRow + 1;
    while r < |rows|
      invariant g.startRow + 1 <= r <= |rows|
      invariant fresh(current) && fresh(next)
      invariant current != next && current.Length == width && next.Length == width
      invariant current[..] == Run(rows, width, g.startRow + 1, r, Initial(g)).counts
      invariant hits == Run(rows, width, g.startRow + 1, r, Initial(g)).hits
      invariant timelines == Run(rows, width, g.startRow + 1, r, Initial(g)).timelines
    {
      hits, timelines := StepRow(rows[r], current, next, hits, timelines);
      current, next := next, current;
      r := r + 1;
    }
    return Answer(hits, timelines);
  }

  /** `simulate` on the input. */
  method SimulateInput(input: string) returns (r: Result<Answer, GridError>)
    ensures r == Solve(input)
  {
    var g :- ParseGridInput(input);
    var a := SimulateRows(g);
    return Ok(a);
  }

  /** Both parts in one pass. */
  method Both(input: string) returns (r: Result<Answer, GridError>)
    ensures r == Solve(input)
  {
    r := SimulateInput(input);
  }

  /** Part 1: the splitters hit. */
  method Part1(input: string) returns (r: Result<nat, GridError>)
    ensures Solve(input).Ok? ==> r == Ok(Solve(input).value.splits)
    ensures Solve(input).Err? ==> r == Err(Solve(input).error)
  {
    var s := SimulateInput(input);
    if s.Err? {
      return Err(s.error);
    }
    return Ok(s.value.splits);
  }

  /** Part 2: the timelines. */
  method Part2(input: string) returns (r: Result<nat, GridError>)
    ensures Solve(input).Ok? ==> r == Ok(Solve(input).value.timelines)
    ensures Solve(input).Err? ==> r == Err(Solve(input).error)
  {
    var s := SimulateInput(input);
    if s.Err? {
      return Err(s.error);
    }
    return Ok(s.value.timelines);
  }
}
