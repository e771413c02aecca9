/** Day 4: a rectangular grid of paper rolls (`@`) and empty floor (`.`).  A roll is
    accessible when fewer than four of its eight neighbours are rolls.  Part 1 counts
    the accessible rolls; part 2 keeps removing accessible rolls, which may make their
    neighbours accessible, and counts how many are removed in the end. */
module Day04 {
  import opened Common

  // ---------------------------------------------------------------------------
  // Parsing
  // ---------------------------------------------------------------------------

  /** The parsed grid: `data[r * width + c]` is true when row `r`, column `c` holds a
      roll (the source stores 1 for a roll and 0 for floor). */
  datatype Grid = Grid(data: seq<bool>, width: nat, height: nat)

  /** Why a grid was rejected.  Line, column and row numbers are 1-based, as printed. */
  datatype GridError =
    | InvalidChar(ch: char, line: nat, column: nat)
    | InconsistentWidth(expected: nat, found: nat, row: nat)
    | EmptyInput

  /** The scanner's state between two bytes: the cells read so far, the width fixed by
      the first non-empty row (0 while there is none), the number of finished rows and
      the number of cells in the current row. */
  datatype Scan = Scan(data: seq<bool>, width: nat, height: nat, col: nat)

  const START_SCAN := Scan([], 0, 0, 0)

  /** One byte of input.  A newline ends a non-empty row, whose length must agree with
      the first row's; a carriage return is ignored; `.` and `@` are cells. */
  function ScanByte(st: Scan, b: char): Result<Scan, GridError>
  {
    if b == '\n' then
      if st.col == 0 then Ok(st)
      else if st.width == 0 then Ok(Scan(st.data, st.col, st.height + 1, 0))
      else if st.col != st.width then Err(InconsistentWidth(st.width, st.col, st.height + 1))
      else Ok(Scan(st.data, st.width, st.height + 1, 0))
    else if b == '\r' then Ok(st)
    else if b == '.' then Ok(Scan(st.data + [false], st.width, st.height, st.col + 1))
    else if b == '@' then Ok(Scan(st.data + [true], st.width, st.height, st.col + 1))
    else Err(InvalidChar(b, st.height + 1, st.col + 1))
  }

  /** The scanner run over `s[i..]`, stopping at the first error. */
  function ScanFrom(s: string, i: nat, st: Scan): Result<Scan, GridError>
    requires i <= |s|
    decreases |s| - i
  {
    if i == |s| then Ok(st)
    else
      match ScanByte(st, s[i])
      case Err(e) => Err(e)
      case Ok(st') => ScanFrom(s, i + 1, st')
  }

  /** End of input: an unterminated last row counts like a terminated one, and a grid
      without cells is rejected. */
  function Finish(st: Scan): Result<Grid, GridError>
  {
    var fin :=
      if st.col == 0 then Ok(st)
      else if st.width == 0 then Ok(Scan(st.data, st.col, st.height + 1, 0))
      else if st.col != st.width then Err(InconsistentWidth(st.width, st.col, st.height + 1))
      else Ok(Scan(st.data, st.width, st.height + 1, 0));
    if fin.Err? then Err(fin.error)
    else if fin.value.width == 0 || fin.value.height == 0 then Err(EmptyInput)
    else Ok(Grid(fin.value.data, fin.value.width, fin.value.height))
  }

  /** What `parse_grid` returns for the input `s`. */
  function ParseSpec(s: string): Result<Grid, GridError>
  {
    var st :- ScanFrom(s, 0, START_SCAN);
    Finish(st)
  }

  predicate IsCellChar(b: char) { b == '.' || b == '@' }

  predicate IsGridChar(b: char) { b == '\n' || b == '\r' || IsCellChar(b) }

  /** The cells of `s` in reading order, whatever the row structure: the reference the
      parsed data is compared with. */
  function Cells(s: string): seq<bool>
  {
    if s == [] then []
    else Cells(s[..|s| - 1]) + (if IsCellChar(s[|s| - 1]) then [s[|s| - 1] == '@'] else [])
  }

  /** A grid whose cells fill exactly `height` rows of `width`. */
  predicate WellFormed(g: Grid)
  {
    g.width > 0 && g.height > 0 && |g.data| == g.width * g.height
  }

  /** What a scan state knows about the bytes `s[..i]` it has read. */
  predicate Scanned(s: string, i: nat, st: Scan)
    requires i <= |s|
  {
    && st.data == Cells(s[..i])
    && |st.data| == st.width * st.height + st.col
    && (st.width == 0 <==> st.height == 0)
    && (forall j :: 0 <= j < i ==> IsGridChar(s[j]))
  }

  lemma CellsSnoc(s: string, i: nat)
    requires i < |s|
    ensures Cells(s[..i + 1]) == Cells(s[..i]) + (if IsCellChar(s[i]) then [s[i] == '@'] else [])
  {
    assert s[..i + 1][..i] == s[..i];
  }

  lemma RowAdded(w: nat, h: nat)
    ensures w * (h + 1) == w * h + w
  {
  }

  lemma {:induction false} ScanByteKeeps(s: string, i: nat, st: Scan)
    requires i < |s| && Scanned(s, i, st) && ScanByte(st, s[i]).Ok?
    ensures Scanned(s, i + 1, ScanByte(st, s[i]).value)
  {
    CellsSnoc(s, i);
    RowAdded(st.width, st.height);
    var b := s[i];
    if b == '\n' || b == '\r' {
    } else if b == '.' || b == '@' {
    } else {
      assert false;
    }
  }

  lemma {:induction false} ScanFromKeeps(s: string, i: nat, st: Scan)
    requires i <= |s| && Scanned(s, i, st) && ScanFrom(s, i, st).Ok?
    ensures Scanned(s, |s|, ScanFrom(s, i, st).value)
    decreases |s| - i
  {
    if i < |s| {
      ScanByteKeeps(s, i, st);
      ScanFromKeeps(s, i + 1, ScanByte(st, s[i]).value);
    }
  }

  /** The scanner fails only on a bad byte or a row of the wrong width. */
  lemma {:induction false} ScanFromFails(s: string, i: nat, st: Scan)
    requires i <= |s| && ScanFrom(s, i, st).Err?
    ensures !ScanFrom(s, i, st).error.EmptyInput?
    decreases |s| - i
  {
    if i < |s| && ScanByte(st, s[i]).Ok? {
      ScanFromFails(s, i + 1, ScanByte(st, s[i]).value);
    }
  }

  /** Bytes that are all line breaks leave a scanner at the start of a row unchanged. */
  lemma {:induction false} ScanBreaks(s: string, i: nat, st: Scan)
    requires i <= |s| && st.col == 0
    requires forall j :: i <= j < |s| ==> s[j] == '\n' || s[j] == '\r'
    ensures ScanFrom(s, i, st) == Ok(st)
    decreases |s| - i
  {
    if i < |s| {
      ScanBreaks(s, i + 1, st);
    }
  }

  lemma {:induction false} CellsOfBreaks(s: string)
    requires forall j :: 0 <= j < |s| ==> IsGridChar(s[j])
    ensures Cells(s) == [] <==> forall j :: 0 <= j < |s| ==> s[j] == '\n' || s[j] == '\r'
  {
    if s != [] {
      var p := s[..|s| - 1];
      CellsOfBreaks(p);
      assert forall j :: 0 <= j < |p| ==> p[j] == s[j];
    }
  }

  /** A parsed grid is well formed, holds every cell of the input in reading order, and
      comes from an input made of grid characters only. */
  lemma {:induction false} ParseShape(s: string)
    requires ParseSpec(s).Ok?
    ensures WellFormed(ParseSpec(s).value)
    ensures ParseSpec(s).value.data == Cells(s)
    ensures forall j :: 0 <= j < |s| ==> IsGridChar(s[j])
  {
    assert s[..0] == [];
    ScanFromKeeps(s, 0, START_SCAN);
    var st := ScanFrom(s, 0, START_SCAN).value;
    assert s[..|s|] == s;
    FinishShape(st);
  }

  lemma FinishShape(st: Scan)
    requires |st.data| == st.width * st.height + st.col && (st.width == 0 <==> st.height == 0)
    requires Finish(st).Ok?
    ensures WellFormed(Finish(st).value) && Finish(st).value.data == st.data
  {
    RowAdded(st.width, st.height);
  }

  /** Any byte outside `.`, `@`, `\r`, `\n` makes the parse fail. */
  lemma ParseRejectsStrangeBytes(s: string, j: nat)
    requires j < |s| && !IsGridChar(s[j])
    ensures ParseSpec(s).Err?
  {
    if ParseSpec(s).Ok? {
      ParseShape(s);
    }
  }

  /** The parse reports an empty input exactly when the input is nothing but line
      breaks. */
  lemma ParseEmpty(s: string)
    ensures ParseSpec(s) == Err(EmptyInput) <==> forall j :: 0 <= j < |s| ==> s[j] == '\n' || s[j] == '\r'
  {
    if forall j :: 0 <= j < |s| ==> s[j] == '\n' || s[j] == '\r' {
      ScanBreaks(s, 0, START_SCAN);
      assert Finish(START_SCAN) == Err(EmptyInput);
    }
    var sc := ScanFrom(s, 0, START_SCAN);
    if sc.Ok? {
      assert s[..0] == [];
      ScanFromKeeps(s, 0, START_SCAN);
      assert s[..|s|] == s;
      CellsOfBreaks(s);
      var st := sc.value;
      assert ParseSpec(s) == Finish(st);
      if Finish(st) == Err(EmptyInput) {
        assert st.col == 0 && st.width == 0;
        assert st.data == [];
      }
    } else {
      ScanFromFails(s, 0, START_SCAN);
    }
  }

  /** `parse_grid`: one pass over the bytes, then the unterminated last row. */
  method ParseGrid(s: string) returns (r: Result<Grid, GridError>)
    ensures r == ParseSpec(s)
  {
    var data: seq<bool> := [];
    var width, height, col := 0, 0, 0;
    var i := 0;
    while i < |s|
      invariant i <= |s|
      invariant ScanFrom(s, i, Scan(data, width, height, col)) == ScanFrom(s, 0, START_SCAN)
    {
      var b := s[i];
      if b == '\n' {
        if col != 0 {
          if width == 0 {
            width := col;
          } else if col != width {
            return Err(InconsistentWidth(width, col, height + 1));
          }
          height, col := height + 1, 0;
        }
      } else if b == '\r' {
      } else if b == '.' {
        data, col := data + [false], col + 1;
      } else if b == '@' {
        data, col := data + [true], col + 1;
      } else {
        return Err(InvalidChar(b, height + 1, col + 1));
      }
      i := i + 1;
    }
    if col > 0 {
      if width == 0 {
        width := col;
      } else if col != width {
        return Err(InconsistentWidth(width, col, height + 1));
      }
      height := height + 1;
    }
    if width == 0 || height == 0 {
      return Err(EmptyInput);
    }
    return Ok(Grid(data, width, height));
  }

  // ---------------------------------------------------------------------------
  // Neighbour counts
  // ---------------------------------------------------------------------------

  function Bit(b: bool): (v: nat)
    ensures v <= 1
  {
    if b then 1 else 0
  }

  /** 1 when position (`r`, `c`) lies inside the `w` by `h` grid `m` and holds a roll. */
  function Live(m: seq<bool>, w: nat, h: nat, r: int, c: int): (v: nat)
    ensures v <= 1
  {
    if 0 <= r < h && 0 <= c < w && r * w + c < |m| then Bit(m[r * w + c]) else 0
  }

  /** The number of rolls among the eight positions around (`r`, `c`) that lie inside
      the grid. */
  function Count(m: seq<bool>, w: nat, h: nat, r: int, c: int): (n: nat)
    ensures n <= 8
  {
    LiveAround(m, w, h, r, c, |NEIGHBOURS|)
  }

  /** The eight (row, column) offsets of the surrounding positions. */
  const NEIGHBOURS: seq<(int, int)> := [(-1, -1), (-1, 0), (-1, 1), (0, -1), (0, 1), (1, -1), (1, 0), (1, 1)]

  /** The rolls at the first `k` offsets of `NEIGHBOURS` from (`r`, `c`). */
  function LiveAround(m: seq<bool>, w: nat, h: nat, r: int, c: int, k: nat): (n: nat)
    requires k <= |NEIGHBOURS|
    ensures n <= k
  {
    if k == 0 then 0
    else LiveAround(m, w, h, r, c, k - 1) + Live(m, w, h, r + NEIGHBOURS[k - 1].0, c + NEIGHBOURS[k - 1].1)
  }

  /** `Count` term by term. */
  lemma CountTerms(m: seq<bool>, w: nat, h: nat, r: int, c: int)
    ensures Count(m, w, h, r, c) ==
      Live(m, w, h, r - 1, c - 1) + Live(m, w, h, r - 1, c) + Live(m, w, h, r - 1, c + 1)
      + Live(m, w, h, r, c - 1) + Live(m, w, h, r, c + 1)
      + Live(m, w, h, r + 1, c - 1) + Live(m, w, h, r + 1, c) + Live(m, w, h, r + 1, c + 1)
  {
    assert LiveAround(m, w, h, r, c, 1) == Live(m, w, h, r - 1, c - 1);
    assert LiveAround(m, w, h, r, c, 2) == LiveAround(m, w, h, r, c, 1) + Live(m, w, h, r - 1, c);
    assert LiveAround(m, w, h, r, c, 3) == LiveAround(m, w, h, r, c, 2) + Live(m, w, h, r - 1, c + 1);
    assert LiveAround(m, w, h, r, c, 4) == LiveAround(m, w, h, r, c, 3) + Live(m, w, h, r, c - 1);
    assert LiveAround(m, w, h, r, c, 5) == LiveAround(m, w, h, r, c, 4) + Live(m, w, h, r, c + 1);
    assert LiveAround(m, w, h, r, c, 6) == LiveAround(m, w, h, r, c, 5) + Live(m, w, h, r + 1, c - 1);
    assert LiveAround(m, w, h, r, c, 7) == LiveAround(m, w, h, r, c, 6) + Live(m, w, h, r + 1, c);
    assert LiveAround(m, w, h, r, c, 8) == LiveAround(m, w, h, r, c, 7) + Live(m, w, h, r + 1, c + 1);
  }

  /** `Count` for the cell at index `i` of the row-major layout. */
  function CountAt(m: seq<bool>, w: nat, h: nat, i: nat): (n: nat)
    requires w > 0
    ensures n <= 8
  {
    Count(m, w, h, i / w, i % w)
  }

  /** What `neighbor_counts` stores at index `i`: the neighbour count of a roll, 0 for
      floor. */
  function NeighborCount(m: seq<bool>, w: nat, h: nat, i: nat): (n: nat)
    requires w > 0 && i < |m|
    ensures n <= 8
    ensures m[i] ==> n == CountAt(m, w, h, i)
    ensures !m[i] ==> n == 0
  {
    if m[i] then CountAt(m, w, h, i) else 0
  }

  lemma CellBound(r: nat, c: nat, w: nat, h: nat)
    requires r < h && c < w
    ensures r * w + c < w * h
  {
    MulGap(w, r, h);
  }

  lemma RowShift(r: int, w: int)
    ensures (r - 1) * w == r * w - w && (r + 1) * w == r * w + w
  {
  }

  /** An in-grid position holds what the flat layout stores at its index. */
  lemma LiveAt(m: seq<bool>, w: nat, h: nat, r: nat, c: nat, idx: int)
    requires |m| == w * h && r < h && c < w && idx == r * w + c
    ensures 0 <= idx < |m| && Live(m, w, h, r, c) == Bit(m[idx])
  {
    CellBound(r, c, w, h);
  }

  /** The row above and the row below, in the flat layout. */
  lemma RowNeighbours(r: nat, w: nat, c: nat, idx: int)
    requires idx == r * w + c
    ensures r > 0 ==> idx - w == (r - 1) * w + c
    ensures idx + w == (r + 1) * w + c
  {
    RowShift(r, w);
  }

  /** The eight terms of `Count`, read off the flat layout as `neighbor_counts` does. */
  method TotalAt(data: seq<bool>, w: nat, h: nat, r: nat, c: nat) returns (total: nat)
    requires |data| == w * h && r < h && c < w
    ensures total == Count(data, w, h, r, c)
  {
    var idx := r * w + c;
    RowNeighbours(r, w, c, idx);
    total := 0;
    if c > 0 {
      LiveAt(data, w, h, r, c - 1, idx - 1);
      total := total + Bit(data[idx - 1]);
    }
    if c + 1 < w {
      LiveAt(data, w, h, r, c + 1, idx + 1);
      total := total + Bit(data[idx + 1]);
    }
    assert total == Live(data, w, h, r, c - 1) + Live(data, w, h, r, c + 1);
    ghost var side := total;
    if r > 0 {
      var up := idx - w;
      LiveAt(data, w, h, r - 1, c, up);
      total := total + Bit(data[up]);
      if c > 0 {
        LiveAt(data, w, h, r - 1, c - 1, up - 1);
        total := total + Bit(data[up - 1]);
      }
      if c + 1 < w {
        LiveAt(data, w, h, r - 1, c + 1, up + 1);
        total := total + Bit(data[up + 1]);
      }
    }
    assert total == side + Live(data, w, h, r - 1, c - 1) + Live(data, w, h, r - 1, c)
      + Live(data, w, h, r - 1, c + 1);
    ghost var above := total;
    if r + 1 < h {
      var down := idx + w;
      LiveAt(data, w, h, r + 1, c, down);
      total := total + Bit(data[down]);
      if c > 0 {
        LiveAt(data, w, h, r + 1, c - 1, down - 1);
        total := total + Bit(data[down - 1]);
      }
      if c + 1 < w {
        LiveAt(data, w, h, r + 1, c + 1, down + 1);
        total := total + Bit(data[down + 1]);
      }
    }
    assert total == above + Live(data, w, h, r + 1, c - 1) + Live(data, w, h, r + 1, c)
      + Live(data, w, h, r + 1, c + 1);
    CountTerms(data, w, h, r, c);
  }

  /** The first `n` entries of `counts` are the neighbour counts, the rest are 0. */
  ghost predicate CountsUpTo(counts: seq<int>, g: Grid, n: nat)
    requires g.width > 0 && |counts| == |g.data|
  {
    && (forall i :: 0 <= i < n && i < |counts| ==> counts[i] == NeighborCount(g.data, g.width, g.height, i))
    && (forall i :: n <= i < |counts| ==> counts[i] == 0)
  }

  /** The count of the cell at row `r`, column `c` written, as `neighbor_counts` does. */
  method CountCell(g: Grid, counts: array<int>, r: nat, c: nat, base: nat)
    requires WellFormed(g) && counts.Length == |g.data| && r < g.height && c < g.width
    requires base == r * g.width && CountsUpTo(counts[..], g, base + c)
    modifies counts
    ensures CountsUpTo(counts[..], g, base + c + 1)
  {
    var w, h, data := g.width, g.height, g.data;
    CellBound(r, c, w, h);
    var idx := base + c;
    DivModUnique(idx, w, r, c);
    if data[idx] {
      var total := TotalAt(data, w, h, r, c);
      counts[idx] := total;
    }
  }

  /** `neighbor_counts`: row by row, the neighbour count of every roll. */
  method NeighborCounts(g: Grid) returns (counts: array<int>)
    requires WellFormed(g)
    ensures fresh(counts) && counts.Length == |g.data|
    ensures forall i :: 0 <= i < |g.data| ==> counts[i] == NeighborCount(g.data, g.width, g.height, i)
  {
    var w, h := g.width, g.height;
    counts := new int[|g.data|](_ => 0);
    var r, base := 0, 0;
    while r < h
      invariant r <= h && base == r * w
      invariant CountsUpTo(counts[..], g, base)
    {
      var c := 0;
      while c < w
        invariant c <= w
        invariant CountsUpTo(counts[..], g, base + c)
      {
        CountCell(g, counts, r, c, base);
        c := c + 1;
      }
      RowShift(r + 1, w);
      r, base := r + 1, base + w;
    }
    assert base == |g.data|;
    assert forall i :: 0 <= i < |g.data| ==> counts[..][i] == counts[i];
  }

  // ---------------------------------------------------------------------------
  // Sets of rolls as masks over the grid
  // ---------------------------------------------------------------------------

  /** The number of rolls in a mask. */
  function Rolls(m: seq<bool>): (n: nat)
    ensures n <= |m|
  {
    if m == [] then 0 else Rolls(m[..|m| - 1]) + Bit(m[|m| - 1])
  }

  /** Every roll of `a` is a roll of `b`. */
  predicate Sub(a: seq<bool>, b: seq<bool>)
  {
    |a| == |b| && forall i :: 0 <= i < |a| ==> a[i] ==> b[i]
  }

  /** No roll of `m` is accessible: each has at least four rolls around it. */
  predicate Stable(m: seq<bool>, w: nat, h: nat)
    requires w > 0
  {
    forall i :: 0 <= i < |m| && m[i] ==> CountAt(m, w, h, i) >= 4
  }

  /** The accessible rolls of `m`. */
  function AccessibleMask(m: seq<bool>, w: nat, h: nat): (a: seq<bool>)
    requires w > 0
    ensures |a| == |m|
  {
    seq(|m|, i requires 0 <= i < |m| => m[i] && CountAt(m, w, h, i) < 4)
  }

  /** The rolls of `m` that are not accessible: `m` after removing every accessible roll
      at once. */
  function PeelOnce(m: seq<bool>, w: nat, h: nat): (p: seq<bool>)
    requires w > 0
    ensures |p| == |m|
  {
    seq(|m|, i requires 0 <= i < |m| => m[i] && CountAt(m, w, h, i) >= 4)
  }

  /** Part 1's answer for a grid: the number of accessible rolls. */
  function Accessible(g: Grid): nat
    requires g.width > 0
  {
    Rolls(AccessibleMask(g.data, g.width, g.height))
  }

  lemma {:induction false} RollsAll(m: seq<bool>)
    ensures Rolls(m) == 0 <==> forall i :: 0 <= i < |m| ==> !m[i]
    ensures Rolls(m) == |m| <==> forall i :: 0 <= i < |m| ==> m[i]
  {
    if m != [] {
      var p := m[..|m| - 1];
      RollsAll(p);
      assert forall i :: 0 <= i < |p| ==> p[i] == m[i];
    }
  }

  /** Clearing one roll lowers the count by one. */
  lemma {:induction false} RollsClear(m: seq<bool>, i: nat)
    requires i < |m| && m[i]
    ensures Rolls(m[i := false]) == Rolls(m) - 1
  {
    var m' := m[i := false];
    var n := |m| - 1;
    if i < n {
      RollsClear(m[..n], i);
      assert m'[..n] == m[..n][i := false];
    } else {
      assert m'[..n] == m[..n];
    }
  }

  /** A sub-mask has no more rolls, and strictly fewer unless it is the same mask. */
  lemma {:induction false} RollsSub(a: seq<bool>, b: seq<bool>)
    requires Sub(a, b)
    ensures Rolls(a) <= Rolls(b)
    ensures a != b ==> Rolls(a) < Rolls(b)
  {
    if a != [] {
      var n := |a| - 1;
      RollsSub(a[..n], b[..n]);
      if a[..n] == b[..n] && a[n] == b[n] {
        assert a == a[..n] + [a[n]] && b == b[..n] + [b[n]];
      }
    }
  }

  /** Rolls split into two disjoint masks are counted by the two. */
  lemma {:induction false} RollsSplit(u: seq<bool>, a: seq<bool>, b: seq<bool>)
    requires |a| == |u| && |b| == |u|
    requires forall i :: 0 <= i < |u| ==> u[i] == (a[i] || b[i]) && !(a[i] && b[i])
    ensures Rolls(u) == Rolls(a) + Rolls(b)
  {
    if u != [] {
      var n := |u| - 1;
      RollsSplit(u[..n], a[..n], b[..n]);
    }
  }

  lemma SubAntisym(a: seq<bool>, b: seq<bool>)
    requires Sub(a, b) && Sub(b, a)
    ensures a == b
  {
    assert forall i :: 0 <= i < |a| ==> a[i] == b[i];
  }

  lemma LiveMono(a: seq<bool>, b: seq<bool>, w: nat, h: nat, r: int, c: int)
    requires Sub(a, b)
    ensures Live(a, w, h, r, c) <= Live(b, w, h, r, c)
  {
  }

  /** Fewer rolls around a position in a sub-mask. */
  lemma CountMono(a: seq<bool>, b: seq<bool>, w: nat, h: nat, i: nat)
    requires w > 0 && Sub(a, b)
    ensures CountAt(a, w, h, i) <= CountAt(b, w, h, i)
  {
    CountPosMono(a, b, w, h, i / w, i % w);
  }

  lemma CountPosMono(a: seq<bool>, b: seq<bool>, w: nat, h: nat, r: int, c: int)
    requires Sub(a, b)
    ensures Count(a, w, h, r, c) <= Count(b, w, h, r, c)
  {
    CountTerms(a, w, h, r, c);
    CountTerms(b, w, h, r, c);
    LiveMono(a, b, w, h, r - 1, c - 1);
    LiveMono(a, b, w, h, r - 1, c);
    LiveMono(a, b, w, h, r - 1, c + 1);
    LiveMono(a, b, w, h, r, c - 1);
    LiveMono(a, b, w, h, r, c + 1);
    LiveMono(a, b, w, h, r + 1, c - 1);
    LiveMono(a, b, w, h, r + 1, c);
    LiveMono(a, b, w, h, r + 1, c + 1);
  }

  /** A stable sub-mask of `m` keeps all its rolls when `m`'s accessible rolls go. */
  lemma PeelKeeps(m: seq<bool>, s: seq<bool>, w: nat, h: nat)
    requires w > 0 && Sub(s, m) && Stable(s, w, h)
    ensures Sub(s, PeelOnce(m, w, h))
  {
    forall i | 0 <= i < |s| && s[i]
      ensures PeelOnce(m, w, h)[i]
    {
      CountMono(s, m, w, h, i);
    }
  }

  /** The rolls that survive repeated removal of accessible rolls: peel until nothing
      is accessible. */
  ghost function Core(m: seq<bool>, w: nat, h: nat): (k: seq<bool>)
    requires w > 0
    ensures |k| == |m|
    decreases Rolls(m)
  {
    var p := PeelOnce(m, w, h);
    if p == m then m
    else
      RollsSub(p, m);
      Core(p, w, h)
  }

  /** The core is a stable sub-mask. */
  lemma {:induction false} CoreStable(m: seq<bool>, w: nat, h: nat)
    requires w > 0
    ensures Sub(Core(m, w, h), m) && Stable(Core(m, w, h), w, h)
    decreases Rolls(m)
  {
    var p := PeelOnce(m, w, h);
    if p == m {
      forall i | 0 <= i < |m| && m[i]
        ensures CountAt(m, w, h, i) >= 4
      {
        assert p[i];
      }
    } else {
      RollsSub(p, m);
      CoreStable(p, w, h);
    }
  }

  /** Every stable sub-mask of `m` lies inside the core: the core is the largest stable
      sub-mask, whatever order the rolls are removed in. */
  lemma {:induction false} CoreKeeps(m: seq<bool>, s: seq<bool>, w: nat, h: nat)
    requires w > 0 && Sub(s, m) && Stable(s, w, h)
    ensures Sub(s, Core(m, w, h))
    decreases Rolls(m)
  {
    var p := PeelOnce(m, w, h);
    if p != m {
      PeelKeeps(m, s, w, h);
      RollsSub(p, m);
      CoreKeeps(p, s, w, h);
    }
  }

  /** Part 2's answer for a grid: the number of rolls not in the core. */
  ghost function Removable(g: Grid): nat
    requires g.width > 0
  {
    CoreStable(g.data, g.width, g.height);
    RollsSub(Core(g.data, g.width, g.height), g.data);
    Rolls(g.data) - Rolls(Core(g.data, g.width, g.height))
  }

  /** Every roll accessible at the start is removed in the end, so part 2 is at least
      part 1. */
  lemma AccessibleRemovable(g: Grid)
    requires g.width > 0
    ensures Accessible(g) <= Removable(g)
  {
    var m, w, h := g.data, g.width, g.height;
    RollsSplit(m, PeelOnce(m, w, h), AccessibleMask(m, w, h));
    CoreStable(m, w, h);
    PeelKeeps(m, Core(m, w, h), w, h);
    RollsSub(Core(m, w, h), PeelOnce(m, w, h));
  }

  /** Nothing is removed exactly when nothing is accessible, which is when the grid is
      already stable. */
  lemma NothingAccessible(g: Grid)
    requires g.width > 0
    ensures Accessible(g) == 0 <==> Stable(g.data, g.width, g.height)
    ensures Removable(g) == 0 <==> Stable(g.data, g.width, g.height)
  {
    var m, w, h := g.data, g.width, g.height;
    var a := AccessibleMask(m, w, h);
    RollsAll(a);
    assert Accessible(g) == Rolls(a);
    assert forall i :: 0 <= i < |m| ==> (a[i] <==> m[i] && CountAt(m, w, h, i) < 4);
    if Stable(m, w, h) {
      assert PeelOnce(m, w, h) == m;
      assert Core(m, w, h) == m;
    }
    CoreStable(m, w, h);
    RollsSub(Core(m, w, h), m);
  }

  // ---------------------------------------------------------------------------
  // Removing one roll
  // ---------------------------------------------------------------------------

  /** Cell `j` is one of the eight neighbours of cell `i`. */
  predicate Adjacent(w: nat, j: nat, i: nat)
    requires w > 0
  {
    j != i && -1 <= j / w - i / w <= 1 && -1 <= j % w - i % w <= 1
  }

  lemma RowOf(i: nat, w: nat, h: nat)
    requires w > 0 && i < w * h
    ensures i / w < h && i == (i / w) * w + i % w
  {
    if i / w >= h {
      if i / w > h {
        MulGap(w, h, i / w);
      }
      assert false;
    }
  }

  /** Clearing the roll at (`r`, `c`) changes what that position, and only it, holds. */
  lemma FlatInjective(w: nat, r1: nat, c1: nat, r2: nat, c2: nat)
    requires c1 < w && c2 < w && r1 * w + c1 == r2 * w + c2
    ensures r1 == r2 && c1 == c2
  {
    DivModUnique(r1 * w + c1, w, r1, c1);
    DivModUnique(r2 * w + c2, w, r2, c2);
  }

  lemma LiveClear(m: seq<bool>, w: nat, h: nat, idx: nat, r: nat, c: nat, rr: int, cc: int)
    requires |m| == w * h && idx < |m| && r < h && c < w && idx == r * w + c && m[idx]
    ensures Live(m[idx := false], w, h, rr, cc) == Live(m, w, h, rr, cc) - (if rr == r && cc == c then 1 else 0)
  {
    if 0 <= rr < h && 0 <= cc < w {
      var k := rr * w + cc;
      LiveAt(m, w, h, rr, cc, k);
      LiveAt(m[idx := false], w, h, rr, cc, k);
      if k == idx {
        FlatInjective(w, rr, cc, r, c);
      }
    }
  }

  /** How many of the eight positions around (`rr`, `cc`) are (`r`, `c`). */
  function Hits(r: int, c: int, rr: int, cc: int): (n: nat)
    ensures n == if -1 <= rr - r <= 1 && -1 <= cc - c <= 1 && (rr != r || cc != c) then 1 else 0
  {
    Bit(rr - 1 == r && cc - 1 == c) + Bit(rr - 1 == r && cc == c) + Bit(rr - 1 == r && cc + 1 == c)
    + Bit(rr == r && cc - 1 == c) + Bit(rr == r && cc + 1 == c)
    + Bit(rr + 1 == r && cc - 1 == c) + Bit(rr + 1 == r && cc == c) + Bit(rr + 1 == r && cc + 1 == c)
  }

  lemma CountClear(m: seq<bool>, w: nat, h: nat, idx: nat, r: nat, c: nat, rr: int, cc: int)
    requires |m| == w * h && idx < |m| && r < h && c < w && idx == r * w + c && m[idx]
    ensures Count(m[idx := false], w, h, rr, cc) == Count(m, w, h, rr, cc) - Hits(r, c, rr, cc)
  {
    CountTerms(m, w, h, rr, cc);
    CountTerms(m[idx := false], w, h, rr, cc);
    LiveClear(m, w, h, idx, r, c, rr - 1, cc - 1);
    LiveClear(m, w, h, idx, r, c, rr - 1, cc);
    LiveClear(m, w, h, idx, r, c, rr - 1, cc + 1);
    LiveClear(m, w, h, idx, r, c, rr, cc - 1);
    LiveClear(m, w, h, idx, r, c, rr, cc + 1);
    LiveClear(m, w, h, idx, r, c, rr + 1, cc - 1);
    LiveClear(m, w, h, idx, r, c, rr + 1, cc);
    LiveClear(m, w, h, idx, r, c, rr + 1, cc + 1);
  }

  /** Removing a roll lowers the count of each of its neighbours by one and leaves
      every other count alone. */
  lemma RemovalCount(m: seq<bool>, w: nat, h: nat, idx: nat, j: nat)
    requires w > 0 && |m| == w * h && idx < |m| && m[idx] && j < |m|
    ensures CountAt(m[idx := false], w, h, j) == CountAt(m, w, h, j) - (if Adjacent(w, j, idx) then 1 else 0)
  {
    RowOf(idx, w, h);
    RowOf(j, w, h);
    NatDiv(idx, w);
    NatDiv(j, w);
    var r: nat, c: nat := idx / w, idx % w;
    var rj: nat, cj: nat := j / w, j % w;
    CountClear(m, w, h, idx, r, c, rj, cj);
    AdjacentHits(w, h, idx, r, c, j, rj, cj);
  }

  /** `Adjacent` on flat indices is `Hits` on their positions. */
  lemma AdjacentHits(w: nat, h: nat, idx: nat, r: nat, c: nat, j: nat, rj: nat, cj: nat)
    requires w > 0 && r == idx / w && c == idx % w && rj == j / w && cj == j % w
    requires idx == r * w + c && j == rj * w + cj
    ensures Adjacent(w, j, idx) <==> Hits(r, c, rj, cj) == 1
  {
    if rj == r && cj == c {
      assert j == idx;
    }
  }

  /** The cells `update_neighbors` visits to the left of `idx`, which sits at row
      `r`, column `c`. */
  function AroundLeft(w: nat, h: nat, idx: nat, r: nat, c: nat): set<int>
  {
    if c > 0 then {idx - 1} + (if r > 0 then {idx - w - 1} else {}) + (if r + 1 < h then {idx + w - 1} else {})
    else {}
  }

  /** The cells it visits to the right. */
  function AroundRight(w: nat, h: nat, idx: nat, r: nat, c: nat): set<int>
  {
    if c + 1 < w then {idx + 1} + (if r > 0 then {idx - w + 1} else {}) + (if r + 1 < h then {idx + w + 1} else {})
    else {}
  }

  /** The cells it visits straight above and below. */
  function AroundVertical(w: nat, h: nat, idx: nat, r: nat): set<int>
  {
    (if r > 0 then {idx - w} else {}) + (if r + 1 < h then {idx + w} else {})
  }

  /** All the cells `update_neighbors` visits around `idx`, by the same guards. */
  function Around(w: nat, h: nat, idx: nat, r: nat, c: nat): set<int>
  {
    AroundLeft(w, h, idx, r, c) + AroundRight(w, h, idx, r, c) + AroundVertical(w, h, idx, r)
  }

  /** The cell `dr` rows and `dc` columns away from (`r`, `c`), in the flat layout. */
  function Shifted(w: nat, r: nat, c: nat, dr: int, dc: int): int
  {
    r * w + c + (if dr < 0 then -(w as int) else if dr > 0 then w as int else 0) + dc
  }

  lemma OffsetCell(w: nat, h: nat, r: nat, c: nat, dr: int, dc: int)
    requires w > 0 && r < h && c < w && -1 <= dr <= 1 && -1 <= dc <= 1
    requires 0 <= r + dr < h && 0 <= c + dc < w
    ensures 0 <= Shifted(w, r, c, dr, dc) < w * h
    ensures Shifted(w, r, c, dr, dc) / w == r + dr && Shifted(w, r, c, dr, dc) % w == c + dc
  {
    RowShift(r, w);
    CellBound(r + dr, c + dc, w, h);
    DivModUnique(Shifted(w, r, c, dr, dc), w, r + dr, c + dc);
  }

  /** A cell shifted by one of the eight offsets, when inside the grid, is adjacent. */
  lemma OffsetAdjacent(w: nat, h: nat, idx: nat, r: nat, c: nat, dr: int, dc: int)
    requires w > 0 && r < h && c < w && idx == r * w + c
    requires -1 <= dr <= 1 && -1 <= dc <= 1 && (dr != 0 || dc != 0)
    requires 0 <= r + dr < h && 0 <= c + dc < w
    ensures 0 <= Shifted(w, r, c, dr, dc) < w * h && Adjacent(w, Shifted(w, r, c, dr, dc), idx)
  {
    DivModUnique(idx, w, r, c);
    OffsetCell(w, h, r, c, dr, dc);
  }

  /** A visited cell is the cell at one of the eight offsets from `idx`. */
  lemma AroundOffset(w: nat, h: nat, idx: nat, r: nat, c: nat, j: int) returns (dr: int, dc: int)
    requires w > 0 && r < h && c < w && idx == r * w + c && j in Around(w, h, idx, r, c)
    ensures -1 <= dr <= 1 && -1 <= dc <= 1 && (dr != 0 || dc != 0)
    ensures 0 <= r + dr < h && 0 <= c + dc < w && j == Shifted(w, r, c, dr, dc)
  {
    if c > 0 && j == idx - 1 { dr, dc := 0, -1; }
    else if c > 0 && r > 0 && j == idx - w - 1 { dr, dc := -1, -1; }
    else if c > 0 && r + 1 < h && j == idx + w - 1 { dr, dc := 1, -1; }
    else if c + 1 < w && j == idx + 1 { dr, dc := 0, 1; }
    else if c + 1 < w && r > 0 && j == idx - w + 1 { dr, dc := -1, 1; }
    else if c + 1 < w && r + 1 < h && j == idx + w + 1 { dr, dc := 1, 1; }
    else if r > 0 && j == idx - w { dr, dc := -1, 0; }
    else { dr, dc := 1, 0; }
  }

  lemma AroundAdjacent(w: nat, h: nat, idx: nat, r: nat, c: nat, j: int)
    requires w > 0 && r < h && c < w && idx == r * w + c && j in Around(w, h, idx, r, c)
    ensures 0 <= j < w * h && Adjacent(w, j, idx)
  {
    var dr, dc := AroundOffset(w, h, idx, r, c, j);
    OffsetAdjacent(w, h, idx, r, c, dr, dc);
  }

  /** An adjacent cell is the cell at some offset from `idx`. */
  lemma AdjacentOffset(w: nat, h: nat, idx: nat, r: nat, c: nat, j: nat) returns (dr: int, dc: int)
    requires w > 0 && r < h && c < w && idx == r * w + c && j < w * h && Adjacent(w, j, idx)
    ensures -1 <= dr <= 1 && -1 <= dc <= 1 && (dr != 0 || dc != 0)
    ensures 0 <= r + dr < h && 0 <= c + dc < w && j == Shifted(w, r, c, dr, dc)
  {
    DivModUnique(idx, w, r, c);
    RowOf(j, w, h);
    var rj, cj := j / w, j % w;
    dr, dc := rj - r, cj - c;
    ShiftedAt(w, r, c, rj, cj, j);
  }

  lemma ShiftedAt(w: nat, r: nat, c: nat, rj: nat, cj: nat, j: int)
    requires j == rj * w + cj && -1 <= rj - r <= 1
    ensures j == Shifted(w, r, c, rj - r, cj - c)
  {
    RowShift(r, w);
  }

  lemma {:induction false} AdjacentAround(w: nat, h: nat, idx: nat, r: nat, c: nat, j: nat)
    requires w > 0 && r < h && c < w && idx == r * w + c && j < w * h && Adjacent(w, j, idx)
    ensures j in Around(w, h, idx, r, c)
  {
    var dr, dc := AdjacentOffset(w, h, idx, r, c, j);
  }

  /** The cells `update_neighbors` visits are exactly the neighbours of `idx`. */
  lemma AroundIsAdjacent(w: nat, h: nat, idx: nat, r: nat, c: nat, j: int)
    requires w > 0 && r < h && c < w && idx == r * w + c
    ensures j in Around(w, h, idx, r, c) <==> 0 <= j < w * h && Adjacent(w, j, idx)
  {
    if j in Around(w, h, idx, r, c) {
      AroundAdjacent(w, h, idx, r, c, j);
    }
    if 0 <= j < w * h && Adjacent(w, j, idx) {
      AdjacentAround(w, h, idx, r, c, j);
    }
  }

  /** A neighbour's count after `push_neighbor`: decremented when it is a roll whose
      count is positive. */
  function Dec(live: bool, v: int): int
  {
    if live && v > 0 then v - 1 else v
  }

  /** Progress through the neighbours of a removed roll: the cells in `seen` have had
      their counts (which were `k0`) decremented, and the queue has grown from `base` by
      the rolls among them whose count was 4. */
  ghost predicate Visited(k0: seq<int>, cells: seq<bool>, counts: seq<int>, base: seq<nat>, q: seq<nat>, seen: set<int>)
  {
    && |k0| == |cells| && |counts| == |cells| && |base| <= |q| && q[..|base|] == base
    && (forall j :: 0 <= j < |counts| ==> counts[j] == if j in seen then Dec(cells[j], k0[j]) else k0[j])
    && (forall x :: x in q[|base|..] <==> x in seen && 0 <= x < |cells| && cells[x] && k0[x] == 4)
  }

  lemma VisitStep(k0: seq<int>, cells: seq<bool>, c1: seq<int>, c2: seq<int>, base: seq<nat>,
                  q1: seq<nat>, q2: seq<nat>, seen: set<int>, n: nat)
    requires n < |cells| && n !in seen && Visited(k0, cells, c1, base, q1, seen)
    requires c2 == c1[n := Dec(cells[n], c1[n])]
    requires q2 == if cells[n] && c2[n] == 3 then q1 + [n] else q1
    ensures Visited(k0, cells, c2, base, q2, seen + {n})
  {
    if cells[n] && c2[n] == 3 {
      assert q2[|base|..] == q1[|base|..] + [n];
      assert q2[..|base|] == q1[..|base|];
    }
  }

  /** The `push_neighbor` closure of `update_neighbors`, on cell `n`. */
  method PushNeighbor(n: nat, cells: array<bool>, counts: array<int>, queue: seq<nat>,
                      ghost k0: seq<int>, ghost base: seq<nat>, ghost seen: set<int>) returns (q: seq<nat>)
    requires n < cells.Length && cells.Length == counts.Length
    requires n !in seen && Visited(k0, cells[..], counts[..], base, queue, seen)
    modifies counts
    ensures counts[..] == old(counts[..])[n := Dec(cells[n], old(counts[n]))]
    ensures q == if cells[n] && counts[n] == 3 then queue + [n] else queue
    ensures |q| <= |queue| + 1
    ensures Visited(k0, cells[..], counts[..], base, q, seen + {n})
  {
    q := queue;
    if cells[n] {
      if counts[n] > 0 {
        counts[n] := counts[n] - 1;
      }
      if counts[n] == 3 {
        q := queue + [n];
      }
    }
    VisitStep(k0, cells[..], old(counts[..]), counts[..], base, queue, q, seen, n);
  }

  lemma NeighbourBounds(w: nat, h: nat, idx: nat, r: nat, c: nat)
    requires r < h && c < w && idx == r * w + c
    ensures r > 0 ==> idx >= w + c
    ensures r + 1 < h ==> idx + w + (w - c) <= w * h
    ensures idx + (w - c) <= w * h
  {
    RowShift(r, w);
    RowShift(r + 1, w);
    MulGap(w, r, h);
    if r + 1 < h {
      MulGap(w, r + 1, h);
    }
  }

  /** The grid facts the three visiting blocks of `update_neighbors` share. */
  predicate Centre(w: nat, h: nat, idx: nat, r: nat, c: nat, n: nat)
  {
    && w > 0 && r < h && c < w && idx == r * w + c && n == w * h
    && (r > 0 ==> idx >= w + c) && (r + 1 < h ==> idx + w + (w - c) <= n) && idx + (w - c) <= n
  }

  /** The `c > 0` block of `update_neighbors`. */
  method VisitLeft(idx: nat, w: nat, h: nat, r: nat, c: nat, cells: array<bool>, counts: array<int>,
                   queue: seq<nat>, ghost k0: seq<int>, ghost base: seq<nat>) returns (q: seq<nat>)
    requires Centre(w, h, idx, r, c, cells.Length) && counts.Length == cells.Length
    requires Visited(k0, cells[..], counts[..], base, queue, {})
    modifies counts
    ensures |q| <= |queue| + 3
    ensures Visited(k0, cells[..], counts[..], base, q, AroundLeft(w, h, idx, r, c))
  {
    q := queue;
    if c > 0 {
      q := PushNeighbor(idx - 1, cells, counts, q, k0, base, {});
      ghost var seen: set<int> := {} + {idx - 1};
      if r > 0 {
        q := PushNeighbor(idx - w - 1, cells, counts, q, k0, base, seen);
        seen := seen + {idx - w - 1};
      }
      if r + 1 < h {
        q := PushNeighbor(idx + w - 1, cells, counts, q, k0, base, seen);
        seen := seen + {idx + w - 1};
      }
      assert seen == AroundLeft(w, h, idx, r, c);
    }
  }

  /** The `c + 1 < w` block of `update_neighbors`. */
  method VisitRight(idx: nat, w: nat, h: nat, r: nat, c: nat, cells: array<bool>, counts: array<int>,
                    queue: seq<nat>, ghost k0: seq<int>, ghost base: seq<nat>) returns (q: seq<nat>)
    requires Centre(w, h, idx, r, c, cells.Length) && counts.Length == cells.Length
    requires Visited(k0, cells[..], counts[..], base, queue, AroundLeft(w, h, idx, r, c))
    modifies counts
    ensures |q| <= |queue| + 3
    ensures Visited(k0, cells[..], counts[..], base, q, AroundLeft(w, h, idx, r, c) + AroundRight(w, h, idx, r, c))
  {
    q := queue;
    ghost var left := AroundLeft(w, h, idx, r, c);
    if c + 1 < w {
      RightFresh(w, h, idx, r, c);
      q := PushNeighbor(idx + 1, cells, counts, q, k0, base, left);
      ghost var s1 := left + {idx + 1};
      ghost var s2 := s1 + (if r > 0 then {idx - w + 1} else {});
      if r > 0 {
        q := PushNeighbor(idx - w + 1, cells, counts, q, k0, base, s1);
      }
      if r + 1 < h {
        q := PushNeighbor(idx + w + 1, cells, counts, q, k0, base, s2);
      }
      UnionRegroup(left, {idx + 1}, if r > 0 then {idx - w + 1} else {}, if r + 1 < h then {idx + w + 1} else {});
    } else {
      assert left + {} == left;
    }
  }

  lemma UnionRegroup(a: set<int>, x: set<int>, y: set<int>, z: set<int>)
    ensures a + x + y + z == a + (x + y + z)
  {
  }

  /** The cells straight above and below are not among those to the left or right. */
  lemma VerticalFresh(w: nat, h: nat, idx: nat, r: nat, c: nat)
    requires w > 0 && c < w
    ensures idx - w !in AroundLeft(w, h, idx, r, c) + AroundRight(w, h, idx, r, c)
    ensures idx + w !in AroundLeft(w, h, idx, r, c) + AroundRight(w, h, idx, r, c) + (if r > 0 then {idx - w} else {})
  {
  }

  /** The cells to the right are not among those to the left. */
  lemma RightFresh(w: nat, h: nat, idx: nat, r: nat, c: nat)
    requires w > 0 && c < w && c + 1 < w
    ensures idx + 1 !in AroundLeft(w, h, idx, r, c)
    ensures idx - w + 1 !in AroundLeft(w, h, idx, r, c) + {idx + 1}
    ensures idx + w + 1 !in AroundLeft(w, h, idx, r, c) + {idx + 1} + (if r > 0 then {idx - w + 1} else {})
  {
  }

  /** The visit straight above, in `update_neighbors`. */
  method VisitAbove(idx: nat, w: nat, h: nat, r: nat, c: nat, cells: array<bool>, counts: array<int>,
                    queue: seq<nat>, ghost k0: seq<int>, ghost base: seq<nat>, ghost seen: set<int>)
    returns (q: seq<nat>)
    requires Centre(w, h, idx, r, c, cells.Length) && counts.Length == cells.Length
    requires seen == AroundLeft(w, h, idx, r, c) + AroundRight(w, h, idx, r, c)
    requires Visited(k0, cells[..], counts[..], base, queue, seen)
    modifies counts
    ensures |q| <= |queue| + 1
    ensures Visited(k0, cells[..], counts[..], base, q, seen + (if r > 0 then {idx - w} else {}))
  {
    q := queue;
    if r > 0 {
      VerticalFresh(w, h, idx, r, c);
      q := PushNeighbor(idx - w, cells, counts, q, k0, base, seen);
    } else {
      assert seen + {} == seen;
    }
  }

  /** The visit straight below, the last one of `update_neighbors`. */
  method VisitBelow(idx: nat, w: nat, h: nat, r: nat, c: nat, cells: array<bool>, counts: array<int>,
                    queue: seq<nat>, ghost k0: seq<int>, ghost base: seq<nat>, ghost seen: set<int>)
    returns (q: seq<nat>)
    requires Centre(w, h, idx, r, c, cells.Length) && counts.Length == cells.Length
    requires seen == AroundLeft(w, h, idx, r, c) + AroundRight(w, h, idx, r, c) + (if r > 0 then {idx - w} else {})
    requires Visited(k0, cells[..], counts[..], base, queue, seen)
    modifies counts
    ensures |q| <= |queue| + 1
    ensures Visited(k0, cells[..], counts[..], base, q, Around(w, h, idx, r, c))
  {
    q := queue;
    if r + 1 < h {
      VerticalFresh(w, h, idx, r, c);
      q := PushNeighbor(idx + w, cells, counts, q, k0, base, seen);
      assert seen + {idx + w} == Around(w, h, idx, r, c);
    } else {
      assert seen == Around(w, h, idx, r, c);
    }
  }

  /** `update_neighbors`: after the roll at `idx` has been removed, the count of each
      neighbouring roll drops by one, and a neighbour whose count drops from 4 to 3 is
      queued. */
  method UpdateNeighbors(idx: nat, w: nat, h: nat, cells: array<bool>, counts: array<int>, queue: seq<nat>)
    returns (q: seq<nat>)
    requires w > 0 && cells.Length == w * h && counts.Length == w * h && idx < w * h
    modifies counts
    ensures forall j :: 0 <= j < counts.Length ==>
      counts[j] == if Adjacent(w, j, idx) then Dec(cells[j], old(counts[j])) else old(counts[j])
    ensures |queue| <= |q| <= |queue| + 8 && q[..|queue|] == queue
    ensures forall x :: x in q[|queue|..] <==>
      0 <= x < cells.Length && Adjacent(w, x, idx) && cells[x] && old(counts[x]) == 4
  {
    var r := idx / w;
    RowOf(idx, w, h);
    var c := idx - r * w;
    NeighbourBounds(w, h, idx, r, c);
    ghost var k0 := counts[..];
    assert queue[..|queue|] == queue;
    q := VisitLeft(idx, w, h, r, c, cells, counts, queue, k0, queue);
    q := VisitRight(idx, w, h, r, c, cells, counts, q, k0, queue);
    ghost var seen := AroundLeft(w, h, idx, r, c) + AroundRight(w, h, idx, r, c);
    q := VisitAbove(idx, w, h, r, c, cells, counts, q, k0, queue, seen);
    seen := seen + (if r > 0 then {idx - w} else {});
    q := VisitBelow(idx, w, h, r, c, cells, counts, q, k0, queue, seen);
    forall j | 0 <= j < w * h
      ensures j in Around(w, h, idx, r, c) <==> Adjacent(w, j, idx)
    {
      AroundIsAdjacent(w, h, idx, r, c, j);
    }
    forall x | x in Around(w, h, idx, r, c)
      ensures 0 <= x < w * h
    {
      AroundIsAdjacent(w, h, idx, r, c, x);
    }
  }

  // ---------------------------------------------------------------------------
  // The removal loop
  // ---------------------------------------------------------------------------

  /** Every remaining roll's count is its number of remaining neighbouring rolls. */
  ghost predicate Tracks(g: Grid, cells: seq<bool>, counts: seq<int>)
    requires g.width > 0
  {
    |cells| == |g.data| && |counts| == |g.data|
    && forall i :: 0 <= i < |cells| && cells[i] ==> counts[i] == CountAt(cells, g.width, g.height, i)
  }

  /** Every remaining roll whose count is below 4 waits in the queue from `head` on. */
  ghost predicate Queued(cells: seq<bool>, counts: seq<int>, queue: seq<nat>, head: nat)
    requires |counts| == |cells| && head <= |queue|
  {
    forall i :: 0 <= i < |cells| && cells[i] && counts[i] < 4 ==> i in queue[head..]
  }

  /** No roll of a stable sub-mask of the grid has been removed. */
  ghost predicate KeepsStable(g: Grid, cells: seq<bool>)
    requires g.width > 0
  {
    forall s :: Sub(s, g.data) && Stable(s, g.width, g.height) ==> Sub(s, cells)
  }

  /** The invariant of the removal loop of `both`. */
  ghost predicate Peeling(g: Grid, cells: seq<bool>, counts: seq<int>, queue: seq<nat>, head: nat, removed: nat)
  {
    && WellFormed(g) && Tracks(g, cells, counts) && head <= |queue|
    && (forall k :: 0 <= k < |queue| ==> queue[k] < |g.data|)
    && Queued(cells, counts, queue, head)
    && Sub(cells, g.data) && removed + Rolls(cells) == Rolls(g.data)
    && KeepsStable(g, cells)
  }

  /** A queued cell that is no longer a roll, or no longer has fewer than four
      neighbouring rolls, is passed over. */
  lemma SkipStep(g: Grid, cells: seq<bool>, counts: seq<int>, queue: seq<nat>, head: nat, removed: nat)
    requires Peeling(g, cells, counts, queue, head, removed) && head < |queue|
    requires !cells[queue[head]] || counts[queue[head]] >= 4
    ensures Peeling(g, cells, counts, queue, head + 1, removed)
  {
    assert queue[head..] == [queue[head]] + queue[head + 1..];
  }

  /** After a removal, the counts of the remaining rolls are right again. */
  lemma TracksAfter(g: Grid, c0: seq<bool>, k0: seq<int>, idx: nat, c1: seq<bool>, k1: seq<int>)
    requires WellFormed(g) && Tracks(g, c0, k0) && idx < |c0| && c0[idx] && c1 == c0[idx := false]
    requires |k1| == |k0|
    requires forall j :: 0 <= j < |k1| ==> k1[j] == if Adjacent(g.width, j, idx) then Dec(c1[j], k0[j]) else k0[j]
    ensures Tracks(g, c1, k1)
  {
    forall i | 0 <= i < |c1| && c1[i]
      ensures k1[i] == CountAt(c1, g.width, g.height, i)
    {
      RemovalCount(c0, g.width, g.height, idx, i);
    }
  }

  /** After a removal, every remaining roll below 4 is still, or newly, queued. */
  lemma QueuedAfter(g: Grid, c0: seq<bool>, k0: seq<int>, q0: seq<nat>, head: nat, idx: nat,
                    c1: seq<bool>, k1: seq<int>, q1: seq<nat>)
    requires WellFormed(g) && Tracks(g, c0, k0) && head < |q0| && idx == q0[head]
    requires Queued(c0, k0, q0, head) && idx < |c0| && c0[idx] && c1 == c0[idx := false]
    requires Tracks(g, c1, k1)
    requires forall j :: 0 <= j < |k1| ==> k1[j] == if Adjacent(g.width, j, idx) then Dec(c1[j], k0[j]) else k0[j]
    requires |q0| <= |q1| && q1[..|q0|] == q0
    requires forall x :: x in q1[|q0|..] <==> 0 <= x < |c1| && Adjacent(g.width, x, idx) && c1[x] && k0[x] == 4
    ensures Queued(c1, k1, q1, head + 1)
  {
    assert q0[head..] == [q0[head]] + q0[head + 1..];
    assert q1[head + 1..] == q0[head + 1..] + q1[|q0|..];
    forall i | 0 <= i < |c1| && c1[i] && k1[i] < 4
      ensures i in q1[head + 1..]
    {
      if Adjacent(g.width, i, idx) && k0[i] >= 4 {
        assert k0[i] == 4;
        assert i in q1[|q0|..];
      } else {
        assert i in q0[head..];
      }
    }
  }

  /** A roll with fewer than four neighbouring rolls belongs to no stable sub-mask, so
      removing it keeps every stable sub-mask. */
  lemma KeepsAfter(g: Grid, c0: seq<bool>, k0: seq<int>, idx: nat, c1: seq<bool>)
    requires WellFormed(g) && Tracks(g, c0, k0) && KeepsStable(g, c0)
    requires idx < |c0| && c0[idx] && k0[idx] < 4 && c1 == c0[idx := false]
    ensures KeepsStable(g, c1)
  {
    forall s | Sub(s, g.data) && Stable(s, g.width, g.height)
      ensures Sub(s, c1)
    {
      CountMono(s, c0, g.width, g.height, idx);
    }
  }

  /** Removing the roll at the head of the queue keeps the loop invariant. */
  lemma RemoveStep(g: Grid, c0: seq<bool>, k0: seq<int>, q0: seq<nat>, head: nat, removed: nat,
                   c1: seq<bool>, k1: seq<int>, q1: seq<nat>)
    requires Peeling(g, c0, k0, q0, head, removed) && head < |q0|
    requires c0[q0[head]] && k0[q0[head]] < 4 && c1 == c0[q0[head] := false]
    requires |k1| == |k0|
    requires forall j :: 0 <= j < |k1| ==>
      k1[j] == if Adjacent(g.width, j, q0[head]) then Dec(c1[j], k0[j]) else k0[j]
    requires |q0| <= |q1| && q1[..|q0|] == q0
    requires forall x :: x in q1[|q0|..] <==>
      0 <= x < |c1| && Adjacent(g.width, x, q0[head]) && c1[x] && k0[x] == 4
    ensures Peeling(g, c1, k1, q1, head + 1, removed + 1)
  {
    var idx := q0[head];
    TracksAfter(g, c0, k0, idx, c1, k1);
    QueuedAfter(g, c0, k0, q0, head, idx, c1, k1, q1);
    KeepsAfter(g, c0, k0, idx, c1);
    RollsClear(c0, idx);
    forall k | 0 <= k < |q1|
      ensures q1[k] < |g.data|
    {
      if k >= |q0| {
        assert q1[k] in q1[|q0|..];
      } else {
        assert q1[k] == q0[k];
      }
    }
  }

  /** When the queue is used up, the remaining rolls are the core. */
  lemma PeelingDone(g: Grid, cells: seq<bool>, counts: seq<int>, queue: seq<nat>, removed: nat)
    requires Peeling(g, cells, counts, queue, |queue|, removed)
    ensures cells == Core(g.data, g.width, g.height)
    ensures removed == Removable(g)
  {
    var w, h := g.width, g.height;
    assert Stable(cells, w, h) by {
      forall i | 0 <= i < |cells| && cells[i]
        ensures CountAt(cells, w, h, i) >= 4
      {
        assert queue[|queue|..] == [];
      }
    }
    CoreStable(g.data, w, h);
    CoreKeeps(g.data, cells, w, h);
    SubAntisym(cells, Core(g.data, w, h));
  }

  /** The state right after the counting pass: nothing removed, and the queue holds
      every accessible roll. */
  lemma PeelingStart(g: Grid, counts: seq<int>, queue: seq<nat>)
    requires WellFormed(g) && |counts| == |g.data|
    requires forall i :: 0 <= i < |g.data| ==> counts[i] == NeighborCount(g.data, g.width, g.height, i)
    requires forall k :: 0 <= k < |queue| ==> queue[k] < |g.data|
    requires forall i :: 0 <= i < |g.data| && g.data[i] && counts[i] < 4 ==> i in queue
    ensures Peeling(g, g.data, counts, queue, 0, 0)
  {
    assert queue[0..] == queue;
  }

  /** The first pass of `both` after `idx` cells: `accessible` counts the accessible
      rolls so far and the queue holds exactly them. */
  ghost predicate Enqueued(g: Grid, counts: seq<int>, queue: seq<nat>, idx: nat, accessible: nat)
    requires WellFormed(g)
  {
    && idx <= |g.data| && |counts| == |g.data|
    && accessible == Rolls(AccessibleMask(g.data, g.width, g.height)[..idx])
    && (forall k :: 0 <= k < |queue| ==> queue[k] < idx)
    && (forall i :: 0 <= i < idx && g.data[i] && counts[i] < 4 ==> i in queue)
  }

  lemma EnqueueStep(g: Grid, counts: seq<int>, queue: seq<nat>, idx: nat, accessible: nat,
                    queue': seq<nat>, accessible': nat)
    requires WellFormed(g) && Enqueued(g, counts, queue, idx, accessible) && idx < |g.data|
    requires forall i :: 0 <= i < |g.data| ==> counts[i] == NeighborCount(g.data, g.width, g.height, i)
    requires g.data[idx] && counts[idx] < 4 ==> queue' == queue + [idx] && accessible' == accessible + 1
    requires !(g.data[idx] && counts[idx] < 4) ==> queue' == queue && accessible' == accessible
    ensures Enqueued(g, counts, queue', idx + 1, accessible')
  {
    var acc := AccessibleMask(g.data, g.width, g.height);
    assert acc[..idx + 1] == acc[..idx] + [acc[idx]];
  }

  /** The first pass of `both`: count the accessible rolls and queue each of them. */
  method QueueAccessible(g: Grid, cells: array<bool>, counts: array<int>) returns (accessible: nat, queue: seq<nat>)
    requires WellFormed(g) && cells[..] == g.data && counts.Length == |g.data|
    requires forall i :: 0 <= i < |g.data| ==> counts[i] == NeighborCount(g.data, g.width, g.height, i)
    ensures accessible == Accessible(g)
    ensures Peeling(g, cells[..], counts[..], queue, 0, 0)
  {
    queue := [];
    accessible := 0;
    var idx := 0;
    while idx < |g.data|
      invariant Enqueued(g, counts[..], queue, idx, accessible)
    {
      var queue', accessible' := queue, accessible;
      if cells[idx] && counts[idx] < 4 {
        accessible' := accessible + 1;
        queue' := queue + [idx];
      }
      EnqueueStep(g, counts[..], queue, idx, accessible, queue', accessible');
      queue, accessible := queue', accessible';
      idx := idx + 1;
    }
    ghost var acc := AccessibleMask(g.data, g.width, g.height);
    assert acc[..|g.data|] == acc;
    PeelingStart(g, counts[..], queue);
  }

  /** The worklist loop of `both`: pop a queued cell, skip it unless it is still an
      accessible roll, otherwise remove it and update its neighbours. */
  method DrainQueue(g: Grid, cells: array<bool>, counts: array<int>, queue: seq<nat>) returns (removed: nat)
    requires Peeling(g, cells[..], counts[..], queue, 0, 0)
    modifies cells, counts
    ensures cells[..] == Core(g.data, g.width, g.height)
    ensures removed == Removable(g)
  {
    var w, h := g.width, g.height;
    var queue := queue;
    var head := 0;
    removed := 0;
    while head < |queue|
      invariant Peeling(g, cells[..], counts[..], queue, head, removed)
      decreases 8 * Rolls(cells[..]) + |queue| - head
    {
      var idx := queue[head];
      head := head + 1;
      if !cells[idx] || counts[idx] >= 4 {
        SkipStep(g, cells[..], counts[..], queue, head - 1, removed);
        continue;
      }
      ghost var c0, k0, q0 := cells[..], counts[..], queue;
      cells[idx] := false;
      removed := removed + 1;
      queue := UpdateNeighbors(idx, w, h, cells, counts, queue);
      RemoveStep(g, c0, k0, q0, head - 1, removed - 1, cells[..], counts[..], queue);
    }
    PeelingDone(g, cells[..], counts[..], queue, removed);
  }

  /** `both`: part 1's count of accessible rolls, then the number of rolls removed by
      the worklist loop, which is the number of rolls outside the core. */
  method Both(s: string) returns (r: Result<(nat, nat), GridError>)
    ensures ParseSpec(s).Err? ==> r == Err(ParseSpec(s).error)
    ensures ParseSpec(s).Ok? ==> r == Ok((Accessible(ParseSpec(s).value), Removable(ParseSpec(s).value)))
  {
    var g :- ParseGrid(s);
    ParseShape(s);
    var counts := NeighborCounts(g);
    var cells := new bool[|g.data|](i requires 0 <= i < |g.data| => g.data[i]);
    var accessible, queue := QueueAccessible(g, cells, counts);
    var removed := DrainQueue(g, cells, counts, queue);
    return Ok((accessible, removed));
  }

  /** `solve_part1`: the number of accessible rolls. */
  method SolvePart1(s: string) returns (r: Result<nat, GridError>)
    ensures ParseSpec(s).Err? ==> r == Err(ParseSpec(s).error)
    ensures ParseSpec(s).Ok? ==> r == Ok(Accessible(ParseSpec(s).value))
  {
    var g :- ParseGrid(s);
    ParseShape(s);
    var counts := NeighborCounts(g);
    ghost var acc := AccessibleMask(g.data, g.width, g.height);
    var n := 0;
    var i := 0;
    while i < |g.data|
      invariant i <= |g.data| && n == Rolls(acc[..i])
    {
      assert acc[..i + 1] == acc[..i] + [acc[i]];
      if g.data[i] && counts[i] < 4 {
        n := n + 1;
      }
      i := i + 1;
    }
    assert acc[..|g.data|] == acc;
    return Ok(n);
  }

  /** Part 1: the rolls reachable from outside the stack, those with fewer than four
      neighbouring rolls. */
  method Part1(s: string) returns (r: Result<nat, GridError>)
    ensures ParseSpec(s).Err? ==> r == Err(ParseSpec(s).error)
    ensures ParseSpec(s).Ok? ==> r == Ok(Accessible(ParseSpec(s).value))
  {
    r := SolvePart1(s);
  }

  /** Part 2: the number of rolls removed in the end. */
  method Part2(s: string) returns (r: Result<nat, GridError>)
    ensures ParseSpec(s).Err? ==> r == Err(ParseSpec(s).error)
    ensures ParseSpec(s).Ok? ==> r == Ok(Removable(ParseSpec(s).value))
  {
    var both := Both(s);
    if both.Err? {
      return Err(both.error);
    }
    var (_, removed) := both.value;
    return Ok(removed);
  }
}
