/** Day 12, placements: every way to put one orientation of a shape on a `w` by `h`
    board, as a mask of the board cells it covers.  Board cell `(row, col)` is bit
    `row * w + col`, held in word `bit / 64` at position `bit % 64`. */
module Day12Place {
  import opened Common
  import opened Day12Grid
  import opened Day12Bits
  import opened Day12Pack

  /** The board bit that cell `c` of an orientation lands on when the orientation's
      top-left corner is at column `x` and row `y` of a board `w` columns wide. */
  function CellIndex(c: Cell, x: nat, y: nat, w: nat): nat
  {
    RowStart(y + c.0, w) + x + c.1
  }

  /** `r * w`, the first bit of board row `r`, as repeated addition. */
  function RowStart(r: nat, w: nat): nat
  {
    if r == 0 then 0 else RowStart(r - 1, w) + w
  }

  lemma {:induction false} RowStartProduct(r: nat, w: nat)
    ensures RowStart(r, w) == r * w
  {
    if r > 0 {
      RowStartProduct(r - 1, w);
    }
  }

  /** A later row starts at least a row's width further on. */
  lemma {:induction false} RowStartGap(r: nat, s: nat, w: nat)
    requires r < s
    ensures RowStart(r, w) + w <= RowStart(s, w)
    decreases s
  {
    if r < s - 1 {
      RowStartGap(r, s - 1, w);
    }
  }

  /** Every cell of the orientation lies within its width and height. */
  predicate Framed(o: Orientation)
  {
    forall i :: 0 <= i < |o.cells| ==> o.cells[i].0 < o.height && o.cells[i].1 < o.width
  }

  /** The orientation, placed with its corner at `(x, y)`, stays on the board. */
  predicate OnBoardAt(o: Orientation, x: nat, y: nat, w: nat, h: nat)
  {
    x + o.width <= w && y + o.height <= h
  }

  /** A placed orientation's cells land below `w * h`, and so within `words` words when
      those hold the board. */
  lemma IndicesBelow(o: Orientation, x: nat, y: nat, w: nat, h: nat, words: nat)
    requires Framed(o) && OnBoardAt(o, x, y, w, h) && w * h <= 64 * words
    ensures forall i :: 0 <= i < |o.cells| ==> CellIndex(o.cells[i], x, y, w) < w * h <= 64 * words
  {
    forall i | 0 <= i < |o.cells| ensures CellIndex(o.cells[i], x, y, w) < w * h {
      IndexBelow(o.cells[i], x, y, w, h, o.width, o.height);
    }
  }

  lemma IndexBelow(c: Cell, x: nat, y: nat, w: nat, h: nat, ow: nat, oh: nat)
    requires c.0 < oh && c.1 < ow && x + ow <= w && y + oh <= h
    ensures CellIndex(c, x, y, w) < w * h
  {
    RowStartGap(y + c.0, h, w);
    RowStartProduct(h, w);
  }

  /** Cells in reading order land on increasing bits, as long as no cell runs past the
      right edge. */
  lemma IndexOrder(p: Cell, q: Cell, x: nat, y: nat, w: nat)
    requires Before(p, q) && x + p.1 < w && x + q.1 < w
    ensures CellIndex(p, x, y, w) < CellIndex(q, x, y, w)
  {
    if p.0 < q.0 {
      RowStartGap(y + p.0, y + q.0, w);
    }
  }

  // ---------------------------------------------------------------------------
  // One mask
  // ---------------------------------------------------------------------------

  /** The mask of `cells` placed at `(x, y)`: starts from `words` zero words and sets
      one bit per cell, in order.  A bit past the last word is where the source would
      panic; it is skipped here, and never arises for a placement on the board. */
  function MaskOf(cells: seq<Cell>, x: nat, y: nat, w: nat, words: nat): (m: Mask)
    ensures |m| == words
    decreases |cells|
  {
    if cells == [] then Zeros(words)
    else
      var m := MaskOf(cells[..|cells| - 1], x, y, w, words);
      var idx := CellIndex(cells[|cells| - 1], x, y, w);
      if idx < 64 * words then SetBit(m, idx) else m
  }

  /** The bits the cells land on. */
  ghost function Landing(cells: seq<Cell>, x: nat, y: nat, w: nat): set<nat>
  {
    set c | c in cells :: CellIndex(c, x, y, w)
  }

  /** A mask covers exactly the bits its cells land on. */
  lemma {:induction false} MaskCells(cells: seq<Cell>, x: nat, y: nat, w: nat, words: nat)
    requires forall i :: 0 <= i < |cells| ==> CellIndex(cells[i], x, y, w) < 64 * words
    ensures Bits(MaskOf(cells, x, y, w, words)) == Landing(cells, x, y, w)
    decreases |cells|
  {
    if cells == [] {
      ZerosEmpty(words);
    } else {
      var front, last := cells[..|cells| - 1], cells[|cells| - 1];
      MaskCells(front, x, y, w, words);
      SetBitBits(MaskOf(front, x, y, w, words), CellIndex(last, x, y, w));
      LandingSnoc(cells, x, y, w);
    }
  }

  lemma LandingSnoc(cells: seq<Cell>, x: nat, y: nat, w: nat)
    requires cells != []
    ensures Landing(cells, x, y, w) == Landing(cells[..|cells| - 1], x, y, w) + {CellIndex(cells[|cells| - 1], x, y, w)}
  {
    var front := cells[..|cells| - 1];
    assert cells == front + [cells[|cells| - 1]];
  }

  /** Cells in reading order, none past the right edge, land on as many bits as there
      are cells. */
  lemma {:induction false} LandingSize(cells: seq<Cell>, x: nat, y: nat, w: nat)
    requires ReadingOrder(cells) && forall i :: 0 <= i < |cells| ==> x + cells[i].1 < w
    ensures |Landing(cells, x, y, w)| == |cells|
    decreases |cells|
  {
    if cells != [] {
      var front, last := cells[..|cells| - 1], cells[|cells| - 1];
      assert ReadingOrder(front);
      LandingSize(front, x, y, w);
      LandingSnoc(cells, x, y, w);
      forall c | c in front ensures CellIndex(c, x, y, w) < CellIndex(last, x, y, w) {
        var i :| 0 <= i < |front| && front[i] == c;
        assert Before(cells[i], cells[|cells| - 1]);
        IndexOrder(c, last, x, y, w);
      }
    }
  }

  /** `build_placements`' innermost loop: a fresh zeroed mask gets one bit set per cell. */
  method BuildMask(cells: seq<Cell>, x: nat, y: nat, w: nat, words: nat) returns (m: Mask)
    requires forall i :: 0 <= i < |cells| ==> CellIndex(cells[i], x, y, w) < 64 * words
    ensures m == MaskOf(cells, x, y, w, words)
  {
    var mask := new bv64[words](_ => 0);
    assert mask[..] == Zeros(words);
    for j := 0 to |cells|
      invariant mask[..] == MaskOf(cells[..j], x, y, w, words)
    {
      var idx := CellIndex(cells[j], x, y, w);
      assert cells[..j + 1][..j] == cells[..j];
      mask[idx / 64] := Union(mask[idx / 64], BitAt(idx % 64));
    }
    assert cells[..|cells|] == cells;
    m := mask[..];
  }

  // ---------------------------------------------------------------------------
  // All placements of a shape
  // ---------------------------------------------------------------------------

  /** The placement of orientation `o` with its corner at `(x, y)`. */
  function Placed(o: Orientation, x: nat, y: nat, w: nat, words: nat, area: nat): Placement
  {
    Placement(MaskOf(o.cells, x, y, w, words), area)
  }

  /** The corners `(y, 0) .. (y, n - 1)` of one row, left to right.  A corner is
      written (row, column), like a cell. */
  function RowCorners(y: nat, n: nat): (r: seq<Cell>)
    ensures |r| == n
  {
    if n == 0 then [] else RowCorners(y, n - 1) + [(y, n - 1)]
  }

  lemma {:induction false} RowCornersAt(y: nat, n: nat)
    ensures forall i :: 0 <= i < n ==> RowCorners(y, n)[i] == (y, i)
    decreases n
  {
    if n > 0 {
      RowCornersAt(y, n - 1);
    }
  }

  /** The corners of rows `0 .. m - 1`, each with columns `0 .. c - 1`, top to bottom. */
  function GridCorners(m: nat, c: nat): seq<Cell>
  {
    if m == 0 then [] else GridCorners(m - 1, c) + RowCorners(m - 1, c)
  }

  /** The corners `build_placements` tries for one orientation, in the order it tries
      them: none when the orientation is wider or taller than the board. */
  function Corners(o: Orientation, w: nat, h: nat): seq<Cell>
  {
    if o.width > w || o.height > h then []
    else GridCorners(h - o.height + 1, w - o.width + 1)
  }

  /** The placements of `o` at the corners `cs`, in order. */
  function PlaceAll(o: Orientation, cs: seq<Cell>, w: nat, words: nat, area: nat): (r: seq<Placement>)
    ensures |r| == |cs|
    decreases |cs|
  {
    if cs == [] then []
    else
      var c := cs[|cs| - 1];
      PlaceAll(o, cs[..|cs| - 1], w, words, area) + [Placed(o, c.1, c.0, w, words, area)]
  }

  lemma {:induction false} PlaceSnoc(o: Orientation, cs: seq<Cell>, c: Cell, w: nat, words: nat, area: nat)
    ensures PlaceAll(o, cs + [c], w, words, area) == PlaceAll(o, cs, w, words, area) + [Placed(o, c.1, c.0, w, words, area)]
  {
    assert (cs + [c])[..|cs|] == cs;
  }

  /** Every position of one orientation. */
  function OrientationPlacements(o: Orientation, w: nat, h: nat, words: nat, area: nat): seq<Placement>
  {
    PlaceAll(o, Corners(o, w, h), w, words, area)
  }

  /** Every orientation bounded by its own width and height. */
  predicate AllFramed(os: seq<Orientation>)
  {
    forall k :: 0 <= k < |os| ==> Framed(os[k])
  }

  /** `build_placements`: the positions of each orientation in turn. */
  function ShapePlacements(os: seq<Orientation>, w: nat, h: nat, words: nat, area: nat): seq<Placement>
    decreases |os|
  {
    if os == [] then []
    else
      var front := os[..|os| - 1];
      ShapePlacements(front, w, h, words, area) + OrientationPlacements(os[|os| - 1], w, h, words, area)
  }

  /** `build_placements`. */
  method BuildPlacements(shape: Shape, w: nat, h: nat, words: nat) returns (pls: seq<Placement>)
    requires AllFramed(shape.orientations) && w * h <= 64 * words
    ensures pls == ShapePlacements(shape.orientations, w, h, words, shape.area)
  {
    var os := shape.orientations;
    pls := [];
    for i := 0 to |os|
      invariant AllFramed(os[..i])
      invariant pls == ShapePlacements(os[..i], w, h, words, shape.area)
    {
      var o := os[i];
      assert os[..i + 1][..i] == os[..i];
      if o.width <= w && o.height <= h {
        pls := AddRows(pls, o, w, h, words, shape.area);
      }
    }
    assert os[..|os|] == os;
  }

  /** The loop over corner rows of `build_placements`. */
  method AddRows(before: seq<Placement>, o: Orientation, w: nat, h: nat, words: nat, area: nat)
    returns (pls: seq<Placement>)
    requires Framed(o) && o.width <= w && o.height <= h && w * h <= 64 * words
    ensures pls == before + OrientationPlacements(o, w, h, words, area)
  {
    var c := w - o.width + 1;
    pls := before;
    ghost var cs: seq<Cell> := [];
    for y := 0 to h - o.height + 1
      invariant cs == GridCorners(y, c)
      invariant pls == before + PlaceAll(o, cs, w, words, area)
    {
      assert y + o.height <= h;
      pls, cs := AddRow(pls, o, y, w, h, words, area, before, cs);
      assert cs == GridCorners(y + 1, c);
    }
    assert cs == Corners(o, w, h);
  }

  /** The loop over corner columns of `build_placements`, extending the placements
      `before` and those at the corners `done` to the corners `cs` of one more row. */
  method AddRow(pls0: seq<Placement>, o: Orientation, y: nat, w: nat, h: nat, words: nat, area: nat,
                ghost before: seq<Placement>, ghost done: seq<Cell>)
    returns (pls: seq<Placement>, ghost cs: seq<Cell>)
    requires Framed(o) && o.width <= w && y + o.height <= h && w * h <= 64 * words
    requires pls0 == before + PlaceAll(o, done, w, words, area)
    ensures cs == done + RowCorners(y, w - o.width + 1)
    ensures pls == before + PlaceAll(o, cs, w, words, area)
  {
    pls, cs := pls0, done;
    assert done + RowCorners(y, 0) == done;
    for x := 0 to w - o.width + 1
      invariant cs == done + RowCorners(y, x)
      invariant pls == before + PlaceAll(o, cs, w, words, area)
    {
      PlaceSnoc(o, cs, (y, x), w, words, area);
      var p := PlaceOne(o, x, y, w, h, words, area);
      pls := pls + [p];
      assert done + RowCorners(y, x + 1) == cs + [(y, x)];
      cs := cs + [(y, x)];
    }
  }

  /** The body of `build_placements`' column loop: the mask of one corner. */
  method PlaceOne(o: Orientation, x: nat, y: nat, w: nat, h: nat, words: nat, area: nat) returns (p: Placement)
    requires Framed(o) && OnBoardAt(o, x, y, w, h) && w * h <= 64 * words
    ensures p == Placed(o, x, y, w, words, area)
  {
    IndicesBelow(o, x, y, w, h, words);
    var mask := BuildMask(o.cells, x, y, w, words);
    p := Placement(mask, area);
  }

  // ---------------------------------------------------------------------------
  // What the placements are
  // ---------------------------------------------------------------------------

  /** The corners tried for an orientation are exactly those that keep it on the board,
      in reading order, so each is tried once. */
  lemma CornersMeaning(o: Orientation, w: nat, h: nat)
    ensures forall q :: q in Corners(o, w, h) <==> OnBoardAt(o, q.1, q.0, w, h)
    ensures ReadingOrder(Corners(o, w, h))
  {
    if o.width <= w && o.height <= h {
      GridCornersMeaning(h - o.height + 1, w - o.width + 1);
    }
  }

  lemma {:induction false} GridCornersMeaning(m: nat, c: nat)
    ensures forall q :: q in GridCorners(m, c) <==> q.0 < m && q.1 < c
    ensures ReadingOrder(GridCorners(m, c))
  {
    GridCornersMember(m, c);
    GridCornersOrder(m, c);
  }

  lemma {:induction false} GridCornersMember(m: nat, c: nat)
    ensures forall q :: q in GridCorners(m, c) <==> q.0 < m && q.1 < c
    decreases m
  {
    if m > 0 {
      GridCornersMember(m - 1, c);
      var a, b := GridCorners(m - 1, c), RowCorners(m - 1, c);
      RowCornersAt(m - 1, c);
      forall q: Cell | q.0 < m && q.1 < c ensures q in a + b {
        if q.0 == m - 1 {
          assert b[q.1] == q;
        }
      }
    }
  }

  lemma {:induction false} GridCornersOrder(m: nat, c: nat)
    ensures ReadingOrder(GridCorners(m, c))
    decreases m
  {
    if m > 0 {
      GridCornersOrder(m - 1, c);
      GridCornersMember(m - 1, c);
      var a := GridCorners(m - 1, c);
      forall i | 0 <= i < |a| ensures a[i].0 < m - 1 {
        assert a[i] in a;
      }
      RowCornersAt(m - 1, c);
      JoinOrdered(a, RowCorners(m - 1, c), m - 1);
    }
  }

  /** Cells of rows above `r` followed by cells of row `r` left to right are in reading
      order. */
  lemma JoinOrdered(a: seq<Cell>, b: seq<Cell>, r: nat)
    requires ReadingOrder(a) && forall i :: 0 <= i < |a| ==> a[i].0 < r
    requires forall j :: 0 <= j < |b| ==> b[j] == (r, j)
    ensures ReadingOrder(a + b)
  {
    var ab := a + b;
    forall i, j | 0 <= i < j < |ab| ensures Before(ab[i], ab[j]) {
      if j < |a| {
        assert ab[i] == a[i] && ab[j] == a[j];
      } else if i >= |a| {
        assert ab[i] == b[i - |a|] && ab[j] == b[j - |a|];
      } else {
        assert ab[i] == a[i] && ab[j] == b[j - |a|];
      }
    }
  }

  /** Every placement at the corners `cs` is the orientation at one of them ... */
  lemma {:induction false} PlaceFrom(o: Orientation, cs: seq<Cell>, w: nat, words: nat, area: nat, p: Placement)
    returns (i: nat)
    requires p in PlaceAll(o, cs, w, words, area)
    ensures i < |cs| && p == Placed(o, cs[i].1, cs[i].0, w, words, area)
    decreases |cs|
  {
    var front := cs[..|cs| - 1];
    if p in PlaceAll(o, front, w, words, area) {
      i := PlaceFrom(o, front, w, words, area, p);
      assert front[i] == cs[i];
    } else {
      i := |cs| - 1;
    }
  }

  /** ... and the orientation at each of them is among those placements. */
  lemma {:induction false} PlaceAt(o: Orientation, cs: seq<Cell>, w: nat, words: nat, area: nat, i: nat)
    requires i < |cs|
    ensures Placed(o, cs[i].1, cs[i].0, w, words, area) in PlaceAll(o, cs, w, words, area)
    decreases |cs|
  {
    var front := cs[..|cs| - 1];
    if i < |cs| - 1 {
      assert front[i] == cs[i];
      PlaceAt(o, front, w, words, area, i);
    }
  }

  /** Every placement `build_placements` yields is one of the shape's orientations at a
      corner that keeps it on the board ... */
  lemma {:induction false} ShapeFrom(os: seq<Orientation>, w: nat, h: nat, words: nat, area: nat, p: Placement)
    returns (k: nat, x: nat, y: nat)
    requires p in ShapePlacements(os, w, h, words, area)
    ensures k < |os| && OnBoardAt(os[k], x, y, w, h) && p == Placed(os[k], x, y, w, words, area)
    decreases |os|
  {
    var front, last := os[..|os| - 1], os[|os| - 1];
    if p in ShapePlacements(front, w, h, words, area) {
      k, x, y := ShapeFrom(front, w, h, words, area, p);
      assert front[k] == os[k];
    } else {
      var cs := Corners(last, w, h);
      var i := PlaceFrom(last, cs, w, words, area, p);
      CornersMeaning(last, w, h);
      assert cs[i] in cs;
      k, x, y := |os| - 1, cs[i].1, cs[i].0;
    }
  }

  /** ... and every orientation at every such corner is among them. */
  lemma {:induction false} ShapeAt(os: seq<Orientation>, w: nat, h: nat, words: nat, area: nat, k: nat, x: nat, y: nat)
    requires k < |os| && OnBoardAt(os[k], x, y, w, h)
    ensures Placed(os[k], x, y, w, words, area) in ShapePlacements(os, w, h, words, area)
    decreases |os|
  {
    var front, last := os[..|os| - 1], os[|os| - 1];
    if k < |os| - 1 {
      assert front[k] == os[k];
      ShapeAt(front, w, h, words, area, k, x, y);
    } else {
      var cs := Corners(last, w, h);
      CornersMeaning(last, w, h);
      assert (y, x) in cs;
      var i :| 0 <= i < |cs| && cs[i] == (y, x);
      PlaceAt(last, cs, w, words, area, i);
    }
  }

  /** A placed orientation whose cells are in reading order covers exactly as many
      board cells as it has cells, all of them on the board. */
  lemma AtFits(o: Orientation, x: nat, y: nat, w: nat, h: nat, words: nat, area: nat)
    requires Framed(o) && OnBoardAt(o, x, y, w, h) && w * h <= 64 * words
    requires ReadingOrder(o.cells) && |o.cells| == area
    ensures var p := Placed(o, x, y, w, words, area);
      && |p.mask| == words && Bits(p.mask) == Landing(o.cells, x, y, w)
      && OnBoard(Bits(p.mask), w * h) && |Bits(p.mask)| == p.cells == area
  {
    IndicesBelow(o, x, y, w, h, words);
    MaskCells(o.cells, x, y, w, words);
    LandingSize(o.cells, x, y, w);
    forall b | b in Landing(o.cells, x, y, w) ensures b < w * h {
      var c :| c in o.cells && b == CellIndex(c, x, y, w);
      var i :| 0 <= i < |o.cells| && o.cells[i] == c;
    }
  }

  /** What reading a shape guarantees: at least one cell and one orientation, the
      recorded largest width and height, and every orientation has exactly the shape's
      cells, in reading order, inside its box. */
  predicate WellFormed(s: Shape)
  {
    && s.area >= 1
    && |s.orientations| >= 1
    && s.maxWidth == MaxWidth(s.orientations) && s.maxHeight == MaxHeight(s.orientations)
    && AllFramed(s.orientations)
    && forall k :: 0 <= k < |s.orientations| ==>
         ReadingOrder(s.orientations[k].cells) && |s.orientations[k].cells| == s.area
  }

  lemma ParsedWellFormed(lines: seq<string>)
    requires ShapeOf(lines).Ok?
    ensures WellFormed(ShapeOf(lines).value)
  {
    ShapeMeaning(lines);
    var grid := GridOf(lines, |lines[0]|).value;
    OrientationsMeaning(grid);
    var os := Orientations(grid);
    forall k | 0 <= k < |os| ensures Framed(os[k]) {
      forall i | 0 <= i < |os[k].cells| ensures os[k].cells[i].0 < os[k].height && os[k].cells[i].1 < os[k].width {
        assert os[k].cells[i] in os[k].cells;
      }
    }
  }

  /** Every placement of a well-formed shape lies on the board and covers as many cells
      as the shape's area, which is what it records. */
  lemma {:induction false} PlacementFits(s: Shape, w: nat, h: nat, words: nat, pls: seq<Placement>, j: nat)
    requires WellFormed(s) && w * h <= 64 * words
    requires pls == ShapePlacements(s.orientations, w, h, words, s.area) && j < |pls|
    ensures |pls[j].mask| == words && OnBoard(Bits(pls[j].mask), w * h) && |Bits(pls[j].mask)| == pls[j].cells == s.area
  {
    var os := s.orientations;
    var k, x, y := ShapeFrom(os, w, h, words, s.area, pls[j]);
    AtFits(os[k], x, y, w, h, words, s.area);
  }
}
