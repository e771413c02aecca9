/** Day 9, part 2: what the prefix-table test of `max_area_within_green` means. Four
    entries of the table give the green area of a box of compressed cells; since
    every cell has a positive area, that green area equals the box's full area
    exactly when every cell of the box is green, and the full area of the box of two
    red tiles is the area of their rectangle. */
module Day09Fits {
  import opened Common
  import opened Sorting
  import opened Day09
  import opened Day09Cover

  /** Every compressed cell of rows `[y0, y1)` and columns `[x0, x1)` is green. */
  ghost predicate AllGreen(g: seq<seq<bool>>, xs: seq<int>, ys: seq<int>, y0: nat, y1: nat, x0: nat, x1: nat)
    requires Shape(g, xs, ys) && y1 < |ys| && x1 < |xs|
  {
    forall r, c :: y0 <= r < y1 && x0 <= c < x1 ==> g[r][c]
  }

  // ---------------------------------------------------------------------------
  // Boxes from four table entries
  // ---------------------------------------------------------------------------

  /** A row's cells `[x0, x2)` are those of `[x0, x1)` and then `[x1, x2)`. */
  lemma {:induction false} RowSplit(g: seq<seq<bool>>, xs: seq<int>, ys: seq<int>, r: nat, x0: nat, x1: nat, x2: nat)
    requires Shape(g, xs, ys) && r < |g| && x0 <= x1 <= x2 < |xs|
    ensures RowSum(g, xs, ys, r, x0, x2) == RowSum(g, xs, ys, r, x0, x1) + RowSum(g, xs, ys, r, x1, x2)
    decreases x2
  {
    if x1 < x2 {
      RowSplit(g, xs, ys, r, x0, x1, x2 - 1);
    }
  }

  /** A box's columns `[x0, x2)` are those of `[x0, x1)` and then `[x1, x2)`. */
  lemma {:induction false} BoxColumns(g: seq<seq<bool>>, xs: seq<int>, ys: seq<int>, y0: nat, y1: nat,
                                      x0: nat, x1: nat, x2: nat)
    requires Shape(g, xs, ys) && y1 < |ys| && x0 <= x1 <= x2 < |xs|
    ensures BoxSum(g, xs, ys, y0, y1, x0, x2) == BoxSum(g, xs, ys, y0, y1, x0, x1) + BoxSum(g, xs, ys, y0, y1, x1, x2)
    decreases y1
  {
    if y0 < y1 {
      BoxColumns(g, xs, ys, y0, y1 - 1, x0, x1, x2);
      RowSplit(g, xs, ys, y1 - 1, x0, x1, x2);
    }
  }

  /** A box's rows `[y0, y2)` are those of `[y0, y1)` and then `[y1, y2)`. */
  lemma {:induction false} BoxRows(g: seq<seq<bool>>, xs: seq<int>, ys: seq<int>, y0: nat, y1: nat, y2: nat,
                                   x0: nat, x1: nat)
    requires Shape(g, xs, ys) && y0 <= y1 <= y2 < |ys| && x1 < |xs|
    ensures BoxSum(g, xs, ys, y0, y2, x0, x1) == BoxSum(g, xs, ys, y0, y1, x0, x1) + BoxSum(g, xs, ys, y1, y2, x0, x1)
    decreases y2
  {
    if y1 < y2 {
      BoxRows(g, xs, ys, y0, y1, y2 - 1, x0, x1);
    }
  }

  /** Inclusion and exclusion: the box of rows `[yLo, yHi)` and columns `[xLo, xHi)`
      from the four prefix blocks at its corners. */
  lemma {:induction false} BoxOfBlocks(g: seq<seq<bool>>, xs: seq<int>, ys: seq<int>, yLo: nat, yHi: nat, xLo: nat, xHi: nat)
    requires Shape(g, xs, ys) && yLo <= yHi < |ys| && xLo <= xHi < |xs|
    ensures BoxSum(g, xs, ys, yLo, yHi, xLo, xHi)
      == Block(g, xs, ys, yHi, xHi) + Block(g, xs, ys, yLo, xLo) - Block(g, xs, ys, yLo, xHi) - Block(g, xs, ys, yHi, xLo)
  {
    BoxColumns(g, xs, ys, 0, yHi, 0, xLo, xHi);
    BoxColumns(g, xs, ys, 0, yLo, 0, xLo, xHi);
    BoxRows(g, xs, ys, 0, yLo, yHi, xLo, xHi);
  }

  // ---------------------------------------------------------------------------
  // Green area against full area
  // ---------------------------------------------------------------------------

  /** The area of rows `[y0, y1)` and columns `[x0, x1)`, green or not. */
  function FullArea(xs: seq<int>, ys: seq<int>, y0: nat, y1: nat, x0: nat, x1: nat): int
    requires y0 <= y1 < |ys| && x0 <= x1 < |xs|
  {
    (xs[x1] - xs[x0]) * (ys[y1] - ys[y0])
  }

  lemma PositiveArea(w: int, h: int)
    requires w > 0 && h > 0
    ensures w * h > 0
  {
  }

  /** A row's green area is at most its full area, and equal to it exactly when every
      cell is green. */
  lemma {:induction false} RowFull(g: seq<seq<bool>>, xs: seq<int>, ys: seq<int>, r: nat, x0: nat, x1: nat)
    requires Shape(g, xs, ys) && StrictlyIncreasing(xs) && StrictlyIncreasing(ys)
    requires r < |g| && x0 <= x1 < |xs|
    ensures RowSum(g, xs, ys, r, x0, x1) <= (xs[x1] - xs[x0]) * (ys[r + 1] - ys[r])
    ensures RowSum(g, xs, ys, r, x0, x1) == (xs[x1] - xs[x0]) * (ys[r + 1] - ys[r])
      <==> forall c :: x0 <= c < x1 ==> g[r][c]
    decreases x1
  {
    if x0 < x1 {
      RowFull(g, xs, ys, r, x0, x1 - 1);
      var h := ys[r + 1] - ys[r];
      var w := xs[x1] - xs[x1 - 1];
      PositiveArea(w, h);
      MulAdd(h, xs[x1 - 1] - xs[x0], w);
      if forall c :: x0 <= c < x1 ==> g[r][c] {
        assert forall c :: x0 <= c < x1 - 1 ==> g[r][c];
      } else {
        var c :| x0 <= c < x1 && !g[r][c];
        if c < x1 - 1 {
          assert !(forall c :: x0 <= c < x1 - 1 ==> g[r][c]);
        }
      }
    }
  }

  /** A box's green area is at most its full area, and equal to it exactly when every
      cell is green. */
  lemma {:induction false} BoxFull(g: seq<seq<bool>>, xs: seq<int>, ys: seq<int>, y0: nat, y1: nat, x0: nat, x1: nat)
    requires Shape(g, xs, ys) && StrictlyIncreasing(xs) && StrictlyIncreasing(ys)
    requires y0 <= y1 < |ys| && x0 <= x1 < |xs|
    ensures BoxSum(g, xs, ys, y0, y1, x0, x1) <= FullArea(xs, ys, y0, y1, x0, x1)
    ensures BoxSum(g, xs, ys, y0, y1, x0, x1) == FullArea(xs, ys, y0, y1, x0, x1)
      <==> AllGreen(g, xs, ys, y0, y1, x0, x1)
    decreases y1
  {
    if y0 < y1 {
      BoxFull(g, xs, ys, y0, y1 - 1, x0, x1);
      RowFull(g, xs, ys, y1 - 1, x0, x1);
      var w := xs[x1] - xs[x0];
      MulAdd(w, ys[y1 - 1] - ys[y0], ys[y1] - ys[y1 - 1]);
      var last := y1 - 1;
      if AllGreen(g, xs, ys, y0, y1, x0, x1) {
        assert AllGreen(g, xs, ys, y0, last, x0, x1);
        assert forall c :: x0 <= c < x1 ==> g[last][c];
      } else {
        var r, c :| y0 <= r < y1 && x0 <= c < x1 && !g[r][c];
        if r < last {
          assert !AllGreen(g, xs, ys, y0, last, x0, x1);
        } else {
          assert !(forall c :: x0 <= c < x1 ==> g[last][c]);
        }
      }
    }
  }

  // ---------------------------------------------------------------------------
  // The box of two red tiles
  // ---------------------------------------------------------------------------

  /** `s` starts a compressed cell of the axis `v` and `s + 1` is a boundary of it. */
  predicate Boundary(v: seq<int>, s: int)
  {
    LowerBound(v, s + 1) < |v| && v[LowerBound(v, s)] == s && v[LowerBound(v, s + 1)] == s + 1
  }

  /** Both values of tile `k` start a compressed cell of their axis. */
  lemma TileBoundaries(ps: seq<Tile>, k: nat)
    requires k < |ps|
    ensures StrictlyIncreasing(Xs(ps)) && Boundary(Xs(ps), ps[k].x)
    ensures StrictlyIncreasing(Ys(ps)) && Boundary(Ys(ps), ps[k].y)
  {
    TileColumn(ps, k);
    TileRow(ps, k);
    ValuesHold(ps, k);
    AxisEnd(Xs(ps), ps[k].x + 1);
    AxisEnd(Ys(ps), ps[k].y + 1);
  }

  /** The lower bound of a boundary value is where it stands. */
  lemma AxisEnd(v: seq<int>, t: int)
    requires StrictlyIncreasing(v) && t in v
    ensures LowerBound(v, t) < |v| && v[LowerBound(v, t)] == t
  {
    var j :| 0 <= j < |v| && v[j] == t;
    LowerBoundHit(v, j);
  }

  /** On one axis, the box of values `s` and `t` runs over the boundaries from the
      smaller value to one past the larger. */
  lemma AxisBox(v: seq<int>, s: int, t: int)
    requires StrictlyIncreasing(v) && Boundary(v, s) && Boundary(v, t)
    ensures BoxLo(v, s, t) <= BoxHi(v, s, t) < |v|
    ensures v[BoxHi(v, s, t)] - v[BoxLo(v, s, t)] == Abs(s - t) + 1
  {
    StrictSorted(v);
    LowerBoundSorted(v, Min(s, t));
    var lo, hi := BoxLo(v, s, t), BoxHi(v, s, t);
    if s <= t {
      assert lo == LowerBound(v, s) && hi == LowerBound(v, t + 1);
      assert v[hi] - v[lo] == t + 1 - s;
    } else {
      assert lo == LowerBound(v, t) && hi == LowerBound(v, s + 1);
      assert v[hi] - v[lo] == s + 1 - t;
    }
  }

  /** The box of tiles `p` and `q` has the full area of their rectangle. */
  lemma PairBox(p: Tile, q: Tile, xs: seq<int>, ys: seq<int>)
    requires StrictlyIncreasing(xs) && Boundary(xs, p.x) && Boundary(xs, q.x)
    requires StrictlyIncreasing(ys) && Boundary(ys, p.y) && Boundary(ys, q.y)
    ensures BoxLo(xs, p.x, q.x) <= BoxHi(xs, p.x, q.x) < |xs| && BoxLo(ys, p.y, q.y) <= BoxHi(ys, p.y, q.y) < |ys|
    ensures FullArea(xs, ys, BoxLo(ys, p.y, q.y), BoxHi(ys, p.y, q.y), BoxLo(xs, p.x, q.x), BoxHi(xs, p.x, q.x))
      == PairArea(p, q)
  {
    AxisBox(xs, p.x, q.x);
    AxisBox(ys, p.y, q.y);
    SidesArea(p, q, xs[BoxHi(xs, p.x, q.x)] - xs[BoxLo(xs, p.x, q.x)], ys[BoxHi(ys, p.y, q.y)] - ys[BoxLo(ys, p.y, q.y)]);
  }

  lemma SidesArea(p: Tile, q: Tile, w: int, h: int)
    requires w == Abs(p.x - q.x) + 1 && h == Abs(p.y - q.y) + 1
    ensures w * h == PairArea(p, q)
  {
  }

  /** The test on the table of a coverage whose entries are the prefix blocks of `g`:
      the green area of the box of `p` and `q` is their rectangle's area exactly when
      every cell of the box is green. */
  lemma BoxFits(cov: Coverage, g: seq<seq<bool>>, p: Tile, q: Tile)
    requires Sized(cov) && Shape(g, cov.xs, cov.ys) && Filled(cov.prefix, g, cov.xs, cov.ys, |cov.ys| - 1, 0)
    requires StrictlyIncreasing(cov.xs) && Boundary(cov.xs, p.x) && Boundary(cov.xs, q.x)
    requires StrictlyIncreasing(cov.ys) && Boundary(cov.ys, p.y) && Boundary(cov.ys, q.y)
    ensures TileIndexed(cov, p) && TileIndexed(cov, q)
    ensures var xs, ys := cov.xs, cov.ys;
      GreenArea(cov, p, q) == PairArea(p, q) <==>
        AllGreen(g, xs, ys, BoxLo(ys, p.y, q.y), BoxHi(ys, p.y, q.y), BoxLo(xs, p.x, q.x), BoxHi(xs, p.x, q.x))
  {
    var xs, ys := cov.xs, cov.ys;
    PairBox(p, q, xs, ys);
    var yLo, yHi, xLo, xHi := BoxLo(ys, p.y, q.y), BoxHi(ys, p.y, q.y), BoxLo(xs, p.x, q.x), BoxHi(xs, p.x, q.x);
    CornersBox(cov, g, yLo, yHi, xLo, xHi);
    assert GreenArea(cov, p, q) == BoxSum(g, xs, ys, yLo, yHi, xLo, xHi);
    BoxFull(g, xs, ys, yLo, yHi, xLo, xHi);
  }

  /** The four lookups of `max_area_within_green` give the green area of the box. */
  lemma {:induction false} CornersBox(cov: Coverage, g: seq<seq<bool>>, yLo: nat, yHi: nat, xLo: nat, xHi: nat)
    requires Sized(cov) && Shape(g, cov.xs, cov.ys) && Filled(cov.prefix, g, cov.xs, cov.ys, |cov.ys| - 1, 0)
    requires yLo <= yHi < |cov.ys| && xLo <= xHi < |cov.xs|
    ensures Corners(cov, yLo, yHi, xLo, xHi) == BoxSum(g, cov.xs, cov.ys, yLo, yHi, xLo, xHi)
  {
    BoxOfBlocks(g, cov.xs, cov.ys, yLo, yHi, xLo, xHi);
  }

  /** What the test of `max_area_within_green` means: the rectangle of red tiles `a`
      and `b` fits when, and only when, every compressed cell of its box is green. */
  lemma FitsMeaning(ps: seq<Tile>, cov: Coverage, a: nat, b: nat)
    requires Covering(ps, cov) && a < |ps| && b < |ps|
    ensures Usable(ps, cov)
    ensures var xs, ys, p, q := cov.xs, cov.ys, ps[a], ps[b];
      Fits(cov, p, q) <==>
        AllGreen(GreenGrid(ps), xs, ys, BoxLo(ys, p.y, q.y), BoxHi(ys, p.y, q.y), BoxLo(xs, p.x, q.x), BoxHi(xs, p.x, q.x))
  {
    CoveringUsable(ps, cov);
    TileBoundaries(ps, a);
    TileBoundaries(ps, b);
    BoxFits(cov, GreenGrid(ps), ps[a], ps[b]);
  }
}
