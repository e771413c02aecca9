/** Day 9: red tiles given as `x,y` lines mark the corners of a rectilinear loop.  Part
    1 is the largest axis-aligned rectangle with two red tiles at opposite corners;
    part 2 the largest such rectangle whose tiles all lie on or inside the loop.  This
    module reads the tiles and scans all pairs for part 1.  The number reader and the
    line skipping are the same code as day 8's and are taken from that module. */
module Day09 {
  import opened Common
  import opened Day08

  // ===========================================================================
  // Parsing `x,y` lines
  // ===========================================================================

  datatype Tile = Tile(x: int, y: int)

  /** A tile read from one line and the index where the next line starts. */
  datatype ParsedTile = ParsedTile(tile: Tile, next: nat)

  /** One line: two integers separated by ',', then the rest of the line. */
  function ParseTileLine(s: string, j: nat): (r: Result<ParsedTile, ParseError>)
    requires j <= |s|
    ensures r.Ok? ==> j < r.value.next <= |s|
  {
    var x :- ParseInt(s, j);
    var c :- ExpectChar(s, x.next, ',');
    var y :- ParseInt(s, c);
    Ok(ParsedTile(Tile(x.value, y.value), LineEnd(s, y.next)))
  }

  /** `parse_points` from index `i`, with the tiles read so far in `acc`. */
  function TilesFrom(s: string, i: nat, acc: seq<Tile>): Result<seq<Tile>, ParseError>
    requires i <= |s|
    decreases |s| - i
  {
    var j := SkipBreaks(s, i);
    if j >= |s| then Ok(acc)
    else
      match ParseTileLine(s, j)
      case Err(e) => Err(e)
      case Ok(line) => TilesFrom(s, line.next, acc + [line.tile])
  }

  function Tiles(s: string): Result<seq<Tile>, ParseError>
  {
    TilesFrom(s, 0, [])
  }

  /** `parse_points`. */
  method ParseTiles(s: string) returns (r: Result<seq<Tile>, ParseError>)
    ensures r == Tiles(s)
  {
    var idx := 0;
    var tiles: seq<Tile> := [];
    while idx < |s|
      invariant idx <= |s|
      invariant TilesFrom(s, idx, tiles) == Tiles(s)
      decreases |s| - idx
    {
      idx := SkipBreaksFrom(s, idx);
      if idx >= |s| { break; }
      var line := ParseTileLineAt(s, idx);
      if line.Err? { return Err(line.error); }
      var t := line.value;
      idx := t.next;
      tiles := tiles + [t.tile];
    }
    r := Ok(tiles);
  }

  method ParseTileLineAt(s: string, j: nat) returns (r: Result<ParsedTile, ParseError>)
    requires j <= |s|
    ensures r == ParseTileLine(s, j)
  {
    var x := ParseIntAt(s, j);
    if x.Err? { return Err(x.error); }
    var xn := x.value;
    if xn.next >= |s| || s[xn.next] != ',' { return Err(InvalidFormat); }
    var y := ParseIntAt(s, xn.next + 1);
    if y.Err? { return Err(y.error); }
    var yn := y.value;
    var k := SkipLine(s, yn.next);
    r := Ok(ParsedTile(Tile(xn.value, yn.value), k));
  }

  // ---------------------------------------------------------------------------
  // What the parser accepts: written-out tiles, read back
  // ---------------------------------------------------------------------------

  /** A line of input: a run of blank lines, or two coordinates followed by text the
      parser passes over and a "\n" or "\r\n". */
  datatype Line = Blank(breaks: string) | Pair(x: Coord, y: Coord, rest: string, crlf: bool)

  predicate GoodLine(line: Line)
  {
    match line
    case Blank(b) => forall q :: 0 <= q < |b| ==> IsBreak(b[q])
    case Pair(x, y, t, _) =>
      GoodCoord(x) && GoodCoord(y)
      && (forall q :: 0 <= q < |t| ==> !IsBreak(t[q])) && (t == [] || !IsDigit(t[0]))
  }

  function LineText(line: Line): string
  {
    match line
    case Blank(b) => b
    case Pair(x, y, t, crlf) => CoordText(x) + ("," + (CoordText(y) + (t + (if crlf then "\r\n" else "\n"))))
  }

  function TileOf(line: Line): Tile
    requires line.Pair? && GoodLine(line)
  {
    Tile(CoordValue(line.x), CoordValue(line.y))
  }

  function Text(lines: seq<Line>): string
  {
    if lines == [] then "" else LineText(lines[0]) + Text(lines[1..])
  }

  predicate GoodLines(lines: seq<Line>)
  {
    forall k :: 0 <= k < |lines| ==> GoodLine(lines[k])
  }

  function TilesOf(lines: seq<Line>): seq<Tile>
    requires GoodLines(lines)
  {
    if lines == [] then []
    else (if lines[0].Pair? then [TileOf(lines[0])] else []) + TilesOf(lines[1..])
  }

  /** A written tile line is read back as its tile, and the next line starts right
      after its terminator. */
  lemma ReadTileLine(s: string, i: nat, line: Line)
    requires line.Pair? && GoodLine(line) && At(s, i, LineText(line))
    ensures ParseTileLine(s, i) == Ok(ParsedTile(TileOf(line), i + |LineText(line)|))
  {
    var t := line.rest;
    var eol := if line.crlf then "\r\n" else "\n";
    var xs, ys := CoordText(line.x), CoordText(line.y);
    var te := t + eol;
    var a := i + |xs|;
    var b := a + 1 + |ys|;
    ReadField(s, i, line.x, ys + te, a);
    AtConcat(s, a + 1, ys, te);
    assert s[b + 0] == te[0];
    ReadCoord(s, a + 1, line.y);
    LineEndOver(s, b, t, eol);
    TileLineOf(s, i, CoordValue(line.x), CoordValue(line.y), a, b);
  }

  lemma {:induction false} TileLineOf(s: string, i: nat, x: int, y: int, a: nat, b: nat)
    requires i <= |s| && a < |s| && s[a] == ','
    requires ParseInt(s, i) == Ok(Num(x, a)) && ParseInt(s, a + 1) == Ok(Num(y, b))
    ensures ParseTileLine(s, i) == Ok(ParsedTile(Tile(x, y), LineEnd(s, b)))
  {
  }

  /** `s` holds the written lines from index `i` to its end. */
  predicate WrittenLines(s: string, i: nat, lines: seq<Line>)
    decreases |lines|
  {
    if lines == [] then i == |s|
    else Holds(s, i, LineText(lines[0])) && WrittenLines(s, i + |LineText(lines[0])|, lines[1..])
  }

  lemma {:induction false} WrittenLinesSuffix(s: string, i: nat, lines: seq<Line>)
    requires i <= |s| && s[i..] == Text(lines)
    ensures WrittenLines(s, i, lines)
    decreases |lines|
  {
    if lines != [] {
      var x := LineText(lines[0]);
      SplitSuffix(s, i, x, Text(lines[1..]));
      AtHolds(s, i, x);
      WrittenLinesSuffix(s, i + |x|, lines[1..]);
    }
  }

  lemma {:induction false} TextFrom(s: string, i: nat, lines: seq<Line>, acc: seq<Tile>)
    requires GoodLines(lines) && WrittenLines(s, i, lines)
    ensures TilesFrom(s, i, acc) == Ok(acc + TilesOf(lines))
    decreases |lines|
  {
    if lines == [] {
      assert acc + TilesOf(lines) == acc;
    } else {
      var line := lines[0];
      var rest := lines[1..];
      var more := TilesOf([line]);
      LineStep(s, i, line, acc);
      TextFrom(s, i + |LineText(line)|, rest, acc + more);
      TilesOfCons(lines);
      JoinTiles(TilesFrom(s, i, acc), TilesFrom(s, i + |LineText(line)|, acc + more),
                acc, more, TilesOf(rest), TilesOf(lines));
    }
  }

  lemma JoinTiles(p: Result<seq<Tile>, ParseError>, q: Result<seq<Tile>, ParseError>,
                  acc: seq<Tile>, more: seq<Tile>, rest: seq<Tile>, all: seq<Tile>)
    requires p == q && q == Ok(acc + more + rest) && all == more + rest
    ensures p == Ok(acc + all)
  {
    assert acc + more + rest == acc + all;
  }

  lemma {:induction false} TilesOfCons(lines: seq<Line>)
    requires lines != [] && GoodLines(lines)
    ensures GoodLines(lines[1..]) && TilesOf(lines) == TilesOf([lines[0]]) + TilesOf(lines[1..])
  {
    assert GoodLines(lines[1..]) by {
      forall k | 0 <= k < |lines| - 1 ensures GoodLine(lines[1..][k]) {
        assert lines[1..][k] == lines[k + 1];
      }
    }
    assert [lines[0]][1..] == [];
  }

  /** Reading over one line. */
  lemma LineStep(s: string, i: nat, line: Line, acc: seq<Tile>)
    requires GoodLine(line) && Holds(s, i, LineText(line))
    ensures GoodLines([line]) && i + |LineText(line)| <= |s|
    ensures TilesFrom(s, i, acc) == TilesFrom(s, i + |LineText(line)|, acc + TilesOf([line]))
  {
    assert GoodLines([line]);
    assert [line][1..] == [];
    HoldsAt(s, i, LineText(line));
    if line.Blank? {
      assert acc + TilesOf([line]) == acc;
      BlankStep(s, i, line.breaks, acc);
    } else {
      assert TilesOf([line]) == [TileOf(line)] + [] == [TileOf(line)];
      PairStep(s, i, line, acc);
    }
  }

  lemma BlankStep(s: string, i: nat, b: string, acc: seq<Tile>)
    requires GoodLine(Blank(b)) && At(s, i, LineText(Blank(b)))
    ensures TilesFrom(s, i, acc) == TilesFrom(s, i + |LineText(Blank(b))|, acc)
  {
    SkipGap(s, i, b);
    TilesFromSkip(s, i, i + |b|, acc);
  }

  lemma PairStep(s: string, i: nat, line: Line, acc: seq<Tile>)
    requires line.Pair? && GoodLine(line) && At(s, i, LineText(line))
    ensures TilesFrom(s, i, acc) == TilesFrom(s, i + |LineText(line)|, acc + [TileOf(line)])
  {
    assert s[i + 0] == LineText(line)[0];
    ReadTileLine(s, i, line);
    TilesFromLine(s, i, acc, TileOf(line), i + |LineText(line)|);
  }

  lemma {:induction false} TilesFromSkip(s: string, i: nat, n: nat, acc: seq<Tile>)
    requires i <= n <= |s| && SkipBreaks(s, i) == SkipBreaks(s, n)
    ensures TilesFrom(s, i, acc) == TilesFrom(s, n, acc)
  {
  }

  lemma {:induction false} TilesFromLine(s: string, i: nat, acc: seq<Tile>, t: Tile, n: nat)
    requires i < |s| && !IsBreak(s[i]) && ParseTileLine(s, i) == Ok(ParsedTile(t, n))
    ensures TilesFrom(s, i, acc) == TilesFrom(s, n, acc + [t])
  {
  }

  /** Tiles written one per line, with "\n" or "\r\n" endings, blank lines anywhere,
      optional '-' signs, leading zeros and ignored text after the second number, are
      read back in order. */
  lemma {:induction false} TilesOfText(lines: seq<Line>)
    requires GoodLines(lines)
    ensures Tiles(Text(lines)) == Ok(TilesOf(lines))
  {
    var s := Text(lines);
    WrittenLinesSuffix(s, 0, lines);
    TextFrom(s, 0, lines, []);
    assert [] + TilesOf(lines) == TilesOf(lines);
  }

  /** The CRLF-and-blank-line example: "1,2\r\n\r\n-3,4\n" is read as (1,2), (-3,4). */
  lemma CrlfExample(s: string)
    requires s == "1,2\r\n\r\n-3,4\n"
    ensures Tiles(s) == Ok([Tile(1, 2), Tile(-3, 4)])
  {
    var lines := [Pair(Coord(false, "1"), Coord(false, "2"), "", true), Blank("\r\n"),
                  Pair(Coord(true, "3"), Coord(false, "4"), "", false)];
    assert DecimalValue("1") == 1 && DecimalValue("2") == 2;
    assert DecimalValue("3") == 3 && DecimalValue("4") == 4;
    assert GoodLines(lines);
    assert Text(lines) == s;
    assert TileOf(lines[0]) == Tile(1, 2) && TileOf(lines[2]) == Tile(-3, 4);
    assert lines[2..][1..] == [];
    assert TilesOf(lines[2..]) == [Tile(-3, 4)];
    assert lines[1..][1..] == lines[2..];
    assert TilesOf(lines[1..]) == [Tile(-3, 4)];
    assert TilesOf(lines) == [Tile(1, 2)] + [Tile(-3, 4)];
    TilesOfText(lines);
    assert [Tile(1, 2)] + [Tile(-3, 4)] == [Tile(1, 2), Tile(-3, 4)];
  }

  // ===========================================================================
  // Part 1: the largest rectangle over all pairs
  // ===========================================================================

  function Abs(v: int): nat { if v < 0 then -v else v }

  /** The number of tiles in the rectangle with corners `p` and `q`. */
  function PairArea(p: Tile, q: Tile): nat
  {
    (Abs(p.x - q.x) + 1) * (Abs(p.y - q.y) + 1)
  }

  /** The pair `(a, b)` comes before `(i, j)` in the scan order of the nested loops. */
  predicate Before(a: int, b: int, i: int, j: int)
  {
    a < i || (a == i && b < j)
  }

  /** Every pair scanned before `(i, j)` spans at most `m` tiles. */
  ghost predicate Bounded(ps: seq<Tile>, m: nat, i: nat, j: nat)
  {
    forall a, b :: 0 <= a < b < |ps| && Before(a, b, i, j) ==> PairArea(ps[a], ps[b]) <= m
  }

  /** `m` is 0 or the area of a pair scanned before `(i, j)`. */
  ghost predicate Attained(ps: seq<Tile>, m: nat, i: nat, j: nat)
  {
    m == 0 || exists a, b :: 0 <= a < b < |ps| && Before(a, b, i, j) && m == PairArea(ps[a], ps[b])
  }

  /** `m` is the largest pair area of `ps`, or 0 without a pair. */
  ghost predicate Largest(ps: seq<Tile>, m: nat)
  {
    Bounded(ps, m, |ps|, 0) && Attained(ps, m, |ps|, 0)
  }

  /** `max_area_any`. */
  method MaxAreaAny(ps: seq<Tile>) returns (m: nat)
    ensures Largest(ps, m)
  {
    var n := |ps|;
    if n < 2 {
      return 0;
    }
    m := 0;
    for i := 0 to n
      invariant Bounded(ps, m, i, 0) && Attained(ps, m, i, 0)
    {
      m := ScanRow(ps, i, m);
    }
  }

  /** The inner loop of `max_area_any`: the pairs `(i, j)` for `j > i`. */
  method ScanRow(ps: seq<Tile>, i: nat, m0: nat) returns (m: nat)
    requires i < |ps| && Bounded(ps, m0, i, 0) && Attained(ps, m0, i, 0)
    ensures Bounded(ps, m, i + 1, 0) && Attained(ps, m, i + 1, 0)
  {
    m := m0;
    ScanRowStart(ps, m, i);
    for j := i + 1 to |ps|
      invariant Bounded(ps, m, i, j) && Attained(ps, m, i, j)
    {
      var area := PairArea(ps[i], ps[j]);
      ghost var before := m;
      if area > m {
        m := area;
      }
      ScanStep(ps, before, m, i, j);
    }
    ScanRowEnd(ps, m, i);
  }

  /** Scanning the pairs of `i` starts at `(i, i + 1)`: nothing lies between. */
  lemma ScanRowStart(ps: seq<Tile>, m: nat, i: nat)
    requires i < |ps|
    ensures Bounded(ps, m, i, 0) == Bounded(ps, m, i, i + 1)
    ensures Attained(ps, m, i, 0) == Attained(ps, m, i, i + 1)
  {
    assert forall a, b :: 0 <= a < b < |ps| ==> (Before(a, b, i, 0) <==> Before(a, b, i, i + 1));
  }

  /** After the pairs of `i` come those of `i + 1`. */
  lemma ScanRowEnd(ps: seq<Tile>, m: nat, i: nat)
    requires i < |ps|
    ensures Bounded(ps, m, i, |ps|) == Bounded(ps, m, i + 1, 0)
    ensures Attained(ps, m, i, |ps|) == Attained(ps, m, i + 1, 0)
  {
    assert forall a, b :: 0 <= a < b < |ps| ==> (Before(a, b, i, |ps|) <==> Before(a, b, i + 1, 0));
  }

  /** One step of the scan: the pair `(i, j)` raises the maximum to its area if larger. */
  lemma ScanStep(ps: seq<Tile>, m: nat, m': nat, i: nat, j: nat)
    requires i < j < |ps| && Bounded(ps, m, i, j) && Attained(ps, m, i, j)
    requires m' == if PairArea(ps[i], ps[j]) > m then PairArea(ps[i], ps[j]) else m
    ensures Bounded(ps, m', i, j + 1) && Attained(ps, m', i, j + 1)
  {
    if m' != 0 {
      if m' == m {
        var a, b :| 0 <= a < b < |ps| && Before(a, b, i, j) && m == PairArea(ps[a], ps[b]);
        assert Before(a, b, i, j + 1);
      } else {
        assert Before(i, j, i, j + 1);
      }
    }
  }

  /** A pair area is always at least 1, so the largest one is 0 only without a pair. */
  lemma LargestPositive(ps: seq<Tile>, m: nat)
    requires Largest(ps, m) && |ps| >= 2
    ensures m >= 1 && exists a, b :: 0 <= a < b < |ps| && m == PairArea(ps[a], ps[b])
  {
    assert PairArea(ps[0], ps[1]) <= m;
  }
}
