/** Day 8: junction boxes in 3-D space are wired together closest pair first.  The
    solver lists every pair of points with its squared distance, sorts that list in
    growing chunks (a selection of the smallest edges, then an LSD radix sort on the
    64-bit distance), and feeds the edges in order to a union-find forest with path
    compression and union by size.  Part 1 multiplies the three largest circuit sizes
    after the first `limit` edges, part 2 multiplies the X coordinates of the two boxes
    joined by the edge that makes the whole forest one circuit. */
module Day08 {
  import opened Common
  import opened Sorting

  // ===========================================================================
  // Parsing `x,y,z` lines
  // ===========================================================================

  datatype Point = Point(x: int, y: int, z: int)

  datatype ParseError =
    | UnexpectedEnd            // "unexpected end of input"
    | ExpectedDigit(found: char) // "expected digit, found '…'"
    | InvalidFormat            // "invalid input format": a missing ','

  /** A number read by `parse_int` and the index just after it. */
  datatype Num = Num(value: int, next: nat)

  /** A point read from one line and the index where the next line starts. */
  datatype Parsed = Parsed(point: Point, next: nat)

  predicate IsBreak(c: char) { c == '\n' || c == '\r' }

  /** The digit loop of `parse_int`: from index `k` with `val` read so far, it takes
      digits while they last. */
  function ReadDigits(s: string, k: nat, val: nat): (r: Num)
    requires k <= |s|
    ensures k <= r.next <= |s| && r.value >= 0
    ensures k < |s| && IsDigit(s[k]) ==> k < r.next
    decreases |s| - k
  {
    if k < |s| && IsDigit(s[k]) then ReadDigits(s, k + 1, val * 10 + DigitValue(s[k]))
    else Num(val, k)
  }

  /** `parse_int`: an optional '-', then at least one digit. */
  function ParseInt(s: string, i: nat): (r: Result<Num, ParseError>)
    requires i <= |s|
    ensures r.Ok? ==> i < r.value.next <= |s|
  {
    if i >= |s| then Err(UnexpectedEnd)
    else
      var neg := s[i] == '-';
      var j := if neg then i + 1 else i;
      if j >= |s| then Err(UnexpectedEnd)
      else if !IsDigit(s[j]) then Err(ExpectedDigit(s[j]))
      else
        var n := ReadDigits(s, j, 0);
        Ok(Num(if neg then -n.value else n.value, n.next))
  }

  /** `expect_char`: the character at `i` must be `c`; the index moves past it. */
  function ExpectChar(s: string, i: nat, c: char): Result<nat, ParseError>
  {
    if i >= |s| || s[i] != c then Err(InvalidFormat) else Ok(i + 1)
  }

  /** The first index at or after `i` that holds neither '\n' nor '\r'. */
  function SkipBreaks(s: string, i: nat): (k: nat)
    requires i <= |s|
    ensures i <= k <= |s|
    ensures k < |s| ==> !IsBreak(s[k])
    decreases |s| - i
  {
    if i < |s| && IsBreak(s[i]) then SkipBreaks(s, i + 1) else i
  }

  /** Where the line holding index `i` ends: just past its '\n', its '\r', or its
      "\r\n"; anything else before the terminator is passed over. */
  function LineEnd(s: string, i: nat): (k: nat)
    requires i <= |s|
    ensures i <= k <= |s|
    decreases |s| - i
  {
    if i >= |s| then i
    else if s[i] == '\n' then i + 1
    else if s[i] == '\r' then (if i + 1 < |s| && s[i + 1] == '\n' then i + 2 else i + 1)
    else LineEnd(s, i + 1)
  }

  /** One line: three integers separated by ',', then the rest of the line. */
  function ParseLine(s: string, j: nat): (r: Result<Parsed, ParseError>)
    requires j <= |s|
    ensures r.Ok? ==> j < r.value.next <= |s|
  {
    var x :- ParseInt(s, j);
    var c1 :- ExpectChar(s, x.next, ',');
    var y :- ParseInt(s, c1);
    var c2 :- ExpectChar(s, y.next, ',');
    var z :- ParseInt(s, c2);
    Ok(Parsed(Point(x.value, y.value, z.value), LineEnd(s, z.next)))
  }

  /** `parse_points` from index `i`, with the points read so far in `acc`. */
  function PointsFrom(s: string, i: nat, acc: seq<Point>): Result<seq<Point>, ParseError>
    requires i <= |s|
    decreases |s| - i
  {
    var j := SkipBreaks(s, i);
    if j >= |s| then Ok(acc)
    else
      match ParseLine(s, j)
      case Err(e) => Err(e)
      case Ok(line) => PointsFrom(s, line.next, acc + [line.point])
  }

  function Points(s: string): Result<seq<Point>, ParseError>
  {
    PointsFrom(s, 0, [])
  }

  // ---------------------------------------------------------------------------
  // The parser methods
  // ---------------------------------------------------------------------------

  method ParseIntAt(s: string, i: nat) returns (r: Result<Num, ParseError>)
    requires i <= |s|
    ensures r == ParseInt(s, i)
  {
    if i >= |s| { return Err(UnexpectedEnd); }
    var idx := i;
    var neg := false;
    var b := s[idx];
    if b == '-' {
      neg := true;
      idx := idx + 1;
      if idx >= |s| { return Err(UnexpectedEnd); }
      b := s[idx];
    }
    if !IsDigit(b) { return Err(ExpectedDigit(b)); }
    ghost var goal := ReadDigits(s, idx, 0);
    var val: nat := 0;
    while idx < |s| && IsDigit(s[idx])
      invariant idx <= |s| && ReadDigits(s, idx, val) == goal
      decreases |s| - idx
    {
      val := val * 10 + DigitValue(s[idx]);
      idx := idx + 1;
    }
    var v: int := val;
    r := Ok(Num(if neg then -v else v, idx));
  }

  method SkipBreaksFrom(s: string, i: nat) returns (k: nat)
    requires i <= |s|
    ensures k == SkipBreaks(s, i)
  {
    k := i;
    while k < |s| && IsBreak(s[k])
      invariant i <= k <= |s| && SkipBreaks(s, k) == SkipBreaks(s, i)
      decreases |s| - k
    {
      k := k + 1;
    }
  }

  /** The loop after the third number: it passes over the rest of the line and its
      terminator. */
  method SkipLine(s: string, i: nat) returns (k: nat)
    requires i <= |s|
    ensures k == LineEnd(s, i)
  {
    k := i;
    while k < |s|
      invariant i <= k <= |s| && LineEnd(s, k) == LineEnd(s, i)
      decreases |s| - k
    {
      var b := s[k];
      k := k + 1;
      if b == '\n' { return; }
      if b == '\r' {
        if k < |s| && s[k] == '\n' { k := k + 1; }
        return;
      }
    }
  }

  method ParsePoints(s: string) returns (r: Result<seq<Point>, ParseError>)
    ensures r == Points(s)
  {
    var idx := 0;
    var points: seq<Point> := [];
    while idx < |s|
      invariant idx <= |s|
      invariant PointsFrom(s, idx, points) == Points(s)
      decreases |s| - idx
    {
      idx := SkipBreaksFrom(s, idx);
      if idx >= |s| { break; }
      var line := ParseLineAt(s, idx);
      if line.Err? { return Err(line.error); }
      var p := line.value;
      idx := p.next;
      points := points + [p.point];
    }
    r := Ok(points);
  }

  method ParseLineAt(s: string, j: nat) returns (r: Result<Parsed, ParseError>)
    requires j <= |s|
    ensures r == ParseLine(s, j)
  {
    var x := ParseIntAt(s, j);
    if x.Err? { return Err(x.error); }
    var xn := x.value;
    if xn.next >= |s| || s[xn.next] != ',' { return Err(InvalidFormat); }
    var y := ParseIntAt(s, xn.next + 1);
    if y.Err? { return Err(y.error); }
    var yn := y.value;
    if yn.next >= |s| || s[yn.next] != ',' { return Err(InvalidFormat); }
    var z := ParseIntAt(s, yn.next + 1);
    if z.Err? { return Err(z.error); }
    var zn := z.value;
    var k := SkipLine(s, zn.next);
    r := Ok(Parsed(Point(xn.value, yn.value, zn.value), k));
  }

  // ---------------------------------------------------------------------------
  // What the parser accepts: written-out points, read back
  // ---------------------------------------------------------------------------

  /** A coordinate as the input may write it: an optional '-' and one or more digits
      (leading zeros allowed). */
  datatype Coord = Coord(neg: bool, digits: string)

  predicate GoodCoord(c: Coord)
  {
    c.digits != [] && AllDigits(c.digits)
  }

  function CoordText(c: Coord): string
  {
    (if c.neg then "-" else "") + c.digits
  }

  function CoordValue(c: Coord): int
    requires GoodCoord(c)
  {
    var v: int := DecimalValue(c.digits);
    if c.neg then -v else v
  }

  /** A line of input: a run of blank lines (any mix of '\n' and '\r'), or three
      coordinates followed by text the parser passes over and a "\n" or "\r\n". */
  datatype Row = Gap(breaks: string) | Data(x: Coord, y: Coord, z: Coord, rest: string, crlf: bool)

  predicate GoodRow(row: Row)
  {
    match row
    case Gap(b) => forall q :: 0 <= q < |b| ==> IsBreak(b[q])
    case Data(x, y, z, t, _) =>
      GoodCoord(x) && GoodCoord(y) && GoodCoord(z)
      && (forall q :: 0 <= q < |t| ==> !IsBreak(t[q])) && (t == [] || !IsDigit(t[0]))
  }

  function RowText(row: Row): string
  {
    match row
    case Gap(b) => b
    case Data(x, y, z, t, crlf) =>
      CoordText(x) + ("," + (CoordText(y) + ("," + (CoordText(z) + (t + (if crlf then "\r\n" else "\n"))))))
  }

  function PointOf(row: Row): Point
    requires row.Data? && GoodRow(row)
  {
    Point(CoordValue(row.x), CoordValue(row.y), CoordValue(row.z))
  }

  function Render(rows: seq<Row>): string
  {
    if rows == [] then "" else RowText(rows[0]) + Render(rows[1..])
  }

  predicate GoodRows(rows: seq<Row>)
  {
    forall k :: 0 <= k < |rows| ==> GoodRow(rows[k])
  }

  function DataOf(rows: seq<Row>): seq<Point>
    requires GoodRows(rows)
  {
    if rows == [] then []
    else (if rows[0].Data? then [PointOf(rows[0])] else []) + DataOf(rows[1..])
  }

  /** Reading a written coordinate gives its value, when no digit follows it. */
  lemma ReadCoord(s: string, i: nat, c: Coord)
    requires GoodCoord(c) && At(s, i, CoordText(c))
    requires i + |CoordText(c)| == |s| || !IsDigit(s[i + |CoordText(c)|])
    ensures ParseInt(s, i) == Ok(Num(CoordValue(c), i + |CoordText(c)|))
  {
    var d := c.digits;
    var j := if c.neg then i + 1 else i;
    if c.neg {
      AtConcat(s, i, "-", d);
      assert s[i + 0] == "-"[0];
    } else {
      assert CoordText(c) == d;
      assert s[i + 0] == d[0];
    }
    assert s[j + 0] == d[0];
    ReadNumber(s, j, d);
    ParseIntSteps(s, i, c.neg);
  }

  /** `parse_int` once the sign has been read and a digit follows. */
  lemma {:induction false} ParseIntSteps(s: string, i: nat, neg: bool)
    requires i < |s| && (s[i] == '-') == neg
    requires var j := if neg then i + 1 else i; j < |s| && IsDigit(s[j])
    ensures var j := if neg then i + 1 else i; var n := ReadDigits(s, j, 0);
      ParseInt(s, i) == Ok(Num(if neg then -n.value else n.value, n.next))
  {
  }

  /** The digit loop over a whole written number. */
  lemma {:induction false} ReadNumber(s: string, j: nat, d: string)
    requires AllDigits(d) && At(s, j, d)
    requires j + |d| == |s| || !IsDigit(s[j + |d|])
    ensures ReadDigits(s, j, 0) == Num(DecimalValue(d), j + |d|)
  {
    ReadDecimal(s, j, d, 0);
    assert d[..0] == [] && d[..|d|] == d;
  }

  /** The digit loop over a written number, from its `q`-th digit on. */
  lemma {:induction false} ReadDecimal(s: string, j: nat, d: string, q: nat)
    requires AllDigits(d) && At(s, j, d) && q <= |d|
    requires j + |d| == |s| || !IsDigit(s[j + |d|])
    ensures ReadDigits(s, j + q, DecimalValue(d[..q])) == Num(DecimalValue(d[..|d|]), j + |d|)
    decreases |d| - q
  {
    if q < |d| {
      assert s[j + q] == d[q];
      assert d[..q + 1][..q] == d[..q];
      ReadDecimal(s, j, d, q + 1);
    }
  }

  /** A written coordinate followed by ',' is read back, and the next coordinate is
      looked for after the ','. */
  lemma ReadField(s: string, i: nat, c: Coord, rest: string, a: nat)
    requires GoodCoord(c) && At(s, i, CoordText(c) + ("," + rest)) && a == i + |CoordText(c)|
    ensures a < |s| && s[a] == ',' && ParseInt(s, i) == Ok(Num(CoordValue(c), a)) && At(s, a + 1, rest)
  {
    AtConcat(s, i, CoordText(c), "," + rest);
    AtConcat(s, a, ",", rest);
    assert s[a + 0] == ","[0];
    ReadCoord(s, i, c);
  }

  /** Where a line ends, when its remaining text `t` holds no break. */
  lemma {:induction false} LineEndOver(s: string, c: nat, t: string, eol: string)
    requires eol == "\n" || eol == "\r\n"
    requires (forall q :: 0 <= q < |t| ==> !IsBreak(t[q])) && At(s, c, t + eol)
    ensures LineEnd(s, c) == c + |t| + |eol|
    decreases |t|
  {
    AtConcat(s, c, t, eol);
    if t != [] {
      assert s[c] == t[0];
      assert At(s, c + 1, t[1..] + eol) by {
        forall q | 0 <= q < |t[1..] + eol| ensures s[c + 1 + q] == (t[1..] + eol)[q] {
          assert (t + eol)[q + 1] == (t[1..] + eol)[q];
        }
      }
      LineEndOver(s, c + 1, t[1..], eol);
    } else {
      assert t + eol == eol;
      assert s[c] == eol[0];
      if eol == "\r\n" { assert s[c + 1] == eol[1]; }
    }
  }

  /** A written data line is read back as its point, and the next line starts right
      after its terminator. */
  lemma ReadLine(s: string, i: nat, row: Row)
    requires row.Data? && GoodRow(row) && At(s, i, RowText(row))
    ensures ParseLine(s, i) == Ok(Parsed(PointOf(row), i + |RowText(row)|))
  {
    var t := row.rest;
    var eol := if row.crlf then "\r\n" else "\n";
    var xs, ys, zs := CoordText(row.x), CoordText(row.y), CoordText(row.z);
    var te := t + eol;
    var a := i + |xs|;
    var b := a + 1 + |ys|;
    var c := b + 1 + |zs|;
    ReadField(s, i, row.x, ys + ("," + (zs + te)), a);
    ReadField(s, a + 1, row.y, zs + te, b);
    AtConcat(s, b + 1, zs, te);
    assert s[c + 0] == te[0];
    ReadCoord(s, b + 1, row.z);
    LineEndOver(s, c, t, eol);
    LineOf(s, i, CoordValue(row.x), CoordValue(row.y), CoordValue(row.z), a, b, c);
  }

  lemma {:induction false} LineOf(s: string, i: nat, x: int, y: int, z: int, a: nat, b: nat, c: nat)
    requires i <= |s| && a < |s| && b < |s| && s[a] == ',' && s[b] == ','
    requires ParseInt(s, i) == Ok(Num(x, a)) && ParseInt(s, a + 1) == Ok(Num(y, b))
    requires ParseInt(s, b + 1) == Ok(Num(z, c))
    ensures ParseLine(s, i) == Ok(Parsed(Point(x, y, z), LineEnd(s, c)))
  {
  }

  /** A run of blank lines changes nothing about where the next line is looked for. */
  lemma SkipGap(s: string, i: nat, b: string)
    requires At(s, i, b) && forall q :: 0 <= q < |b| ==> IsBreak(b[q])
    ensures SkipBreaks(s, i) == SkipBreaks(s, i + |b|)
    decreases |b|
  {
    if b != [] {
      assert s[i] == b[0];
      assert At(s, i + 1, b[1..]) by {
        forall q | 0 <= q < |b| - 1 ensures s[i + 1 + q] == b[1..][q] {
          assert s[i + (q + 1)] == b[q + 1];
        }
      }
      SkipGap(s, i + 1, b[1..]);
    }
  }

  /** `s` holds the written rows from index `i` to its end. */
  predicate Written(s: string, i: nat, rows: seq<Row>)
    decreases |rows|
  {
    if rows == [] then i == |s|
    else Holds(s, i, RowText(rows[0])) && Written(s, i + |RowText(rows[0])|, rows[1..])
  }

  /** `At`, one character at a time. */
  predicate Holds(s: string, i: nat, t: string)
    decreases |t|
  {
    if t == [] then i <= |s| else i < |s| && s[i] == t[0] && Holds(s, i + 1, t[1..])
  }

  lemma {:induction false} HoldsAt(s: string, i: nat, t: string)
    requires Holds(s, i, t)
    ensures At(s, i, t)
    decreases |t|
  {
    if t != [] {
      HoldsAt(s, i + 1, t[1..]);
      forall q | 0 <= q < |t| ensures s[i + q] == t[q] {
        if q > 0 { assert s[i + 1 + (q - 1)] == t[1..][q - 1]; }
      }
    }
  }

  lemma {:induction false} AtHolds(s: string, i: nat, t: string)
    requires At(s, i, t)
    ensures Holds(s, i, t)
    decreases |t|
  {
    if t != [] {
      assert s[i + 0] == t[0];
      assert At(s, i + 1, t[1..]) by {
        forall q | 0 <= q < |t| - 1 ensures s[i + 1 + q] == t[1..][q] {
          assert s[i + (q + 1)] == t[q + 1];
        }
      }
      AtHolds(s, i + 1, t[1..]);
    }
  }

  lemma {:induction false} WrittenSuffix(s: string, i: nat, rows: seq<Row>)
    requires i <= |s| && s[i..] == Render(rows)
    ensures Written(s, i, rows)
    decreases |rows|
  {
    if rows != [] {
      var x := RowText(rows[0]);
      SplitSuffix(s, i, x, Render(rows[1..]));
      AtHolds(s, i, x);
      WrittenSuffix(s, i + |x|, rows[1..]);
    }
  }

  /** A suffix `x + y` of `s`: `x` is at `i`, and `y` is what follows it. */
  lemma SplitSuffix(s: string, i: nat, x: string, y: string)
    requires i <= |s| && s[i..] == x + y
    ensures At(s, i, x) && i + |x| <= |s| && s[i + |x|..] == y
  {
    forall q | 0 <= q < |x| ensures s[i + q] == x[q] {
      assert s[i..][q] == (x + y)[q];
    }
    assert s[i + |x|..] == s[i..][|x|..];
  }

  lemma {:induction false} RenderFrom(s: string, i: nat, rows: seq<Row>, acc: seq<Point>)
    requires GoodRows(rows) && Written(s, i, rows)
    ensures PointsFrom(s, i, acc) == Ok(acc + DataOf(rows))
    decreases |rows|
  {
    if rows == [] {
      PointsFromEnd(s, i, acc);
      assert acc + DataOf(rows) == acc;
    } else {
      var row := rows[0];
      var rest := rows[1..];
      var more := DataOf([row]);
      RowStep(s, i, row, acc);
      RenderFrom(s, i + |RowText(row)|, rest, acc + more);
      DataOfCons(rows);
      JoinPoints(PointsFrom(s, i, acc), PointsFrom(s, i + |RowText(row)|, acc + more),
                 acc, more, DataOf(rest), DataOf(rows));
    }
  }

  lemma JoinPoints(p: Result<seq<Point>, ParseError>, q: Result<seq<Point>, ParseError>,
                   acc: seq<Point>, more: seq<Point>, rest: seq<Point>, all: seq<Point>)
    requires p == q && q == Ok(acc + more + rest) && all == more + rest
    ensures p == Ok(acc + all)
  {
    assert acc + more + rest == acc + all;
  }

  lemma {:induction false} DataOfCons(rows: seq<Row>)
    requires rows != [] && GoodRows(rows)
    ensures GoodRows(rows[1..]) && DataOf(rows) == DataOf([rows[0]]) + DataOf(rows[1..])
  {
    assert GoodRows(rows[1..]) by {
      forall k | 0 <= k < |rows| - 1 ensures GoodRow(rows[1..][k]) {
        assert rows[1..][k] == rows[k + 1];
      }
    }
    assert [rows[0]][1..] == [];
  }

  /** Reading over one row. */
  lemma RowStep(s: string, i: nat, row: Row, acc: seq<Point>)
    requires GoodRow(row) && Holds(s, i, RowText(row))
    ensures GoodRows([row]) && i + |RowText(row)| <= |s|
    ensures PointsFrom(s, i, acc) == PointsFrom(s, i + |RowText(row)|, acc + DataOf([row]))
  {
    assert GoodRows([row]);
    if row.Gap? {
      GapStep(s, i, row, acc);
    } else {
      DataStep(s, i, row, acc);
    }
  }

  /** Reading over a run of blank lines. */
  lemma GapStep(s: string, i: nat, row: Row, acc: seq<Point>)
    requires row.Gap? && GoodRow(row) && Holds(s, i, RowText(row))
    ensures GoodRows([row]) && i + |RowText(row)| <= |s|
    ensures PointsFrom(s, i, acc) == PointsFrom(s, i + |RowText(row)|, acc + DataOf([row]))
  {
    var b := row.breaks;
    assert GoodRows([row]);
    assert [row][1..] == [];
    assert acc + DataOf([row]) == acc;
    HoldsAt(s, i, b);
    SkipGap(s, i, b);
    PointsFromSkip(s, i, i + |b|, acc);
  }

  /** Reading over one written data line. */
  lemma DataStep(s: string, i: nat, row: Row, acc: seq<Point>)
    requires row.Data? && GoodRow(row) && Holds(s, i, RowText(row))
    ensures GoodRows([row]) && i + |RowText(row)| <= |s|
    ensures PointsFrom(s, i, acc) == PointsFrom(s, i + |RowText(row)|, acc + DataOf([row]))
  {
    assert GoodRows([row]);
    assert [row][1..] == [];
    assert DataOf([row]) == [PointOf(row)] + [] == [PointOf(row)];
    HoldsAt(s, i, RowText(row));
    var n := i + |RowText(row)|;
    assert s[i + 0] == RowText(row)[0];
    ReadLine(s, i, row);
    PointsFromLine(s, i, acc, PointOf(row), n);
  }

  lemma {:induction false} PointsFromEnd(s: string, i: nat, acc: seq<Point>)
    requires i == |s|
    ensures PointsFrom(s, i, acc).Ok? && PointsFrom(s, i, acc).value == acc
  {
  }

  lemma {:induction false} PointsFromSkip(s: string, i: nat, n: nat, acc: seq<Point>)
    requires i <= n <= |s| && SkipBreaks(s, i) == SkipBreaks(s, n)
    ensures PointsFrom(s, i, acc) == PointsFrom(s, n, acc)
  {
  }

  lemma {:induction false} PointsFromLine(s: string, i: nat, acc: seq<Point>, p: Point, n: nat)
    requires i < |s| && !IsBreak(s[i]) && ParseLine(s, i) == Ok(Parsed(p, n))
    ensures PointsFrom(s, i, acc) == PointsFrom(s, n, acc + [p])
  {
  }

  /** Points written one per line, with "\n" or "\r\n" endings, blank lines anywhere,
      optional '-' signs, leading zeros and ignored text after the third number, are read
      back in order. */
  lemma {:induction false} PointsOfRender(rows: seq<Row>)
    requires GoodRows(rows)
    ensures Points(Render(rows)) == Ok(DataOf(rows))
  {
    var s := Render(rows);
    WrittenSuffix(s, 0, rows);
    RenderFrom(s, 0, rows, []);
    assert [] + DataOf(rows) == DataOf(rows);
    assert Points(s) == PointsFrom(s, 0, []);
  }

  /** A first number that is not followed by ',' is "invalid input format". */
  lemma MissingComma(c: Coord, rest: string)
    requires GoodCoord(c) && (rest == [] || (rest[0] != ',' && !IsDigit(rest[0])))
    ensures Points(CoordText(c) + rest) == Err(InvalidFormat)
  {
    var s := CoordText(c) + rest;
    assert At(s, 0, CoordText(c));
    assert s[0] == CoordText(c)[0];
    if !c.neg { assert CoordText(c) == c.digits; }
    assert SkipBreaks(s, 0) == 0;
    ReadCoord(s, 0, c);
  }
}
