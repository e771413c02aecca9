/** Day 12, shapes: a present is a small grid of `#`/`.` cells.  Each shape is tried in
    the eight orientations of its grid (four quarter turns, each also mirrored), every
    orientation is trimmed to its bounding box, and orientations with the same `/`-joined
    encoding are kept once. */
module Day12Grid {
  import opened Common

  /** `grid[r][c]` is `true` for a filled cell. */
  type Grid = seq<seq<bool>>

  /** A (row, column) position. */
  type Cell = (nat, nat)

  /** What the grid operations index: rows exist, and none is shorter than the first
      (whose length they take as the width). */
  predicate Wide(g: Grid)
  {
    |g| >= 1 && forall r :: 0 <= r < |g| ==> |g[r]| >= |g[0]|
  }

  predicate Rectangular(g: Grid)
  {
    |g| >= 1 && forall r :: 0 <= r < |g| ==> |g[r]| == |g[0]|
  }

  /** The filled cells, as (row, column) pairs. */
  function Cells(g: Grid): set<Cell>
  {
    set r: nat, c: nat | r < |g| && c < |g[r]| && g[r][c] :: (r, c)
  }

  // ---------------------------------------------------------------------------
  // Mirroring
  // ---------------------------------------------------------------------------

  function FlipRow(row: seq<bool>): (f: seq<bool>)
    ensures |f| == |row|
  {
    seq(|row|, i requires 0 <= i < |row| => row[|row| - 1 - i])
  }

  /** `flip_horizontal`: every row reversed. */
  function Flip(g: Grid): (f: Grid)
    ensures |f| == |g| && forall r :: 0 <= r < |g| ==> |f[r]| == |g[r]|
  {
    seq(|g|, r requires 0 <= r < |g| => FlipRow(g[r]))
  }

  /** Mirroring twice gives the grid back. */
  lemma FlipFlip(g: Grid)
    ensures Flip(Flip(g)) == g
  {
    forall r | 0 <= r < |g| ensures Flip(Flip(g))[r] == g[r] {
      assert FlipRow(FlipRow(g[r])) == g[r];
    }
  }

  /** A filled cell `(r, c)` moves to `(r, w - 1 - c)`, and no other cell is filled. */
  lemma FlipCells(g: Grid)
    ensures forall r: nat, c: nat :: (r, c) in Cells(Flip(g)) ==> r < |g| && c < |g[r]| && (r, |g[r]| - 1 - c) in Cells(g)
    ensures forall r: nat, c: nat :: r < |g| && c < |g[r]| && (r, |g[r]| - 1 - c) in Cells(g) ==> (r, c) in Cells(Flip(g))
  {
    forall r: nat, c: nat | (r, c) in Cells(Flip(g)) ensures r < |g| && c < |g[r]| && (r, |g[r]| - 1 - c) in Cells(g) {
      InCells(Flip(g), r, c);
      InCells(g, r, |g[r]| - 1 - c);
    }
    forall r: nat, c: nat | r < |g| && c < |g[r]| && (r, |g[r]| - 1 - c) in Cells(g) ensures (r, c) in Cells(Flip(g)) {
      InCells(Flip(g), r, c);
      InCells(g, r, |g[r]| - 1 - c);
    }
  }

  /** Mirroring keeps the number of filled cells. */
  lemma FlipCount(g: Grid)
    ensures |Cells(Flip(g))| == |Cells(g)|
  {
    forall p | p in Cells(g) ensures Mirror(g, p) in Cells(Flip(g)) && Mirror(g, Mirror(g, p)) == p {
      MirrorOut(g, p);
    }
    forall q | q in Cells(Flip(g)) ensures Mirror(g, q) in Cells(g) && Mirror(g, Mirror(g, q)) == q {
      MirrorIn(g, q);
    }
    SameSize(Cells(g), Cells(Flip(g)), p => Mirror(g, p), p => Mirror(g, p));
  }

  /** Where mirroring takes cell `p` of `g`. */
  function Mirror(g: Grid, p: Cell): Cell
  {
    (p.0, if p.0 < |g| && p.1 < |g[p.0]| then |g[p.0]| - 1 - p.1 else 0)
  }

  lemma MirrorOut(g: Grid, p: Cell)
    requires p in Cells(g)
    ensures Mirror(g, p) in Cells(Flip(g)) && Mirror(g, Mirror(g, p)) == p
  {
    InCells(g, p.0, p.1);
    InCells(Flip(g), p.0, |g[p.0]| - 1 - p.1);
  }

  lemma MirrorIn(g: Grid, q: Cell)
    requires q in Cells(Flip(g))
    ensures Mirror(g, q) in Cells(g) && Mirror(g, Mirror(g, q)) == q
  {
    InCells(Flip(g), q.0, q.1);
    InCells(g, q.0, |g[q.0]| - 1 - q.1);
  }

  // ---------------------------------------------------------------------------
  // Quarter turns
  // ---------------------------------------------------------------------------

  /** A clockwise quarter turn: the result has one row per column of `g`, and
      `out[c][h - 1 - r] == g[r][c]`. */
  function Rotated(g: Grid): (out: Grid)
    requires Wide(g)
  {
    seq(|g[0]|, c requires 0 <= c < |g[0]| =>
      seq(|g|, j requires 0 <= j < |g| => g[|g| - 1 - j][c]))
  }

  /** A turn swaps the dimensions of a rectangle. */
  lemma RotatedShape(g: Grid)
    requires Rectangular(g) && |g[0]| >= 1
    ensures Rectangular(Rotated(g)) && |Rotated(g)| == |g[0]| && |Rotated(g)[0]| == |g|
  {
  }

  /** Four turns give the rectangle back. */
  lemma RotateFour(g: Grid)
    requires Rectangular(g) && |g[0]| >= 1
    ensures Rectangular(Rotated(Rotated(g))) && |Rotated(Rotated(g))[0]| >= 1
    ensures Rotated(Rotated(Rotated(Rotated(g)))) == g
  {
    var g1 := Rotated(g);
    RotatedShape(g);
    var g2 := Rotated(g1);
    RotatedShape(g1);
    var g3 := Rotated(g2);
    RotatedShape(g2);
    var g4 := Rotated(g3);
    RotatedShape(g3);
    var h, w := |g|, |g[0]|;
    forall r, c | 0 <= r < h && 0 <= c < w ensures g4[r][c] == g[r][c] {
      calc {
        g4[r][c];
        g3[w - 1 - c][r];
        g2[h - 1 - r][w - 1 - c];
        g1[c][h - 1 - r];
        g[r][c];
      }
    }
    forall r | 0 <= r < h ensures g4[r] == g[r] {
    }
  }

  /** A filled cell `(r, c)` moves to `(c, h - 1 - r)`, and no other cell is filled. */
  lemma RotatedCells(g: Grid)
    requires Rectangular(g)
    ensures forall r: nat, c: nat :: (r, c) in Cells(g) ==> (c, |g| - 1 - r) in Cells(Rotated(g))
    ensures forall c: nat, j: nat :: (c, j) in Cells(Rotated(g)) ==> j < |g| && (|g| - 1 - j, c) in Cells(g)
  {
    forall r: nat, c: nat | (r, c) in Cells(g) ensures (c, |g| - 1 - r) in Cells(Rotated(g)) {
      InCells(g, r, c);
      InCells(Rotated(g), c, |g| - 1 - r);
    }
    forall c: nat, j: nat | (c, j) in Cells(Rotated(g)) ensures j < |g| && (|g| - 1 - j, c) in Cells(g) {
      InCells(Rotated(g), c, j);
      InCells(g, |g| - 1 - j, c);
    }
  }

  /** Turning keeps the number of filled cells. */
  lemma RotatedCount(g: Grid)
    requires Rectangular(g)
    ensures |Cells(Rotated(g))| == |Cells(g)|
  {
    RotatedCells(g);
    var h := |g|;
    var f := (p: Cell) => (p.1, if p.0 < h then h - 1 - p.0 else 0);
    var back := (q: Cell) => (if q.1 < h then h - 1 - q.1 else 0, q.0);
    forall p | p in Cells(g) ensures f(p) in Cells(Rotated(g)) && back(f(p)) == p {
      InCells(g, p.0, p.1);
    }
    SameSize(Cells(g), Cells(Rotated(g)), f, back);
  }

  /** `rotate`: a fresh grid of `w` rows of `h` cells, filled cell by cell. */
  method Rotate(g: Grid) returns (out: Grid)
    requires Wide(g)
    ensures out == Rotated(g)
  {
    var h, w := |g|, |g[0]|;
    out := seq(w, _ => seq(h, _ => false));
    for r := 0 to h
      invariant |out| == w && forall c :: 0 <= c < w ==> |out[c]| == h
      invariant forall c, j :: 0 <= c < w && 0 <= j < h ==>
                  out[c][j] == (if h - 1 - j < r then g[h - 1 - j][c] else false)
    {
      for c := 0 to w
        invariant |out| == w && forall c' :: 0 <= c' < w ==> |out[c']| == h
        invariant forall c', j :: 0 <= c' < w && 0 <= j < h ==>
                    out[c'][j] == (if h - 1 - j < r || (h - 1 - j == r && c' < c) then g[h - 1 - j][c'] else false)
      {
        out := out[c := out[c][h - 1 - r := g[r][c]]];
      }
    }
    forall c | 0 <= c < w ensures out[c] == Rotated(g)[c] {
    }
  }

  // ---------------------------------------------------------------------------
  // Trimming to the bounding box
  // ---------------------------------------------------------------------------

  predicate EmptyRow(row: seq<bool>)
  {
    forall i :: 0 <= i < |row| ==> !row[i]
  }

  /** Column `c` has no filled cell in rows `top .. bottom - 1`. */
  predicate EmptyColumn(g: Grid, top: nat, bottom: nat, c: nat)
    requires Wide(g) && top <= bottom <= |g| && c < |g[0]|
  {
    forall r :: top <= r < bottom ==> !g[r][c]
  }

  /** The first row at or after `top` that is not empty (or `|g|`). */
  function TopFrom(g: Grid, top: nat): nat
    requires top <= |g|
    decreases |g| - top
  {
    if top < |g| && EmptyRow(g[top]) then TopFrom(g, top + 1) else top
  }

  /** One past the last non-empty row before `bottom`, no lower than `top`. */
  function BottomFrom(g: Grid, top: nat, bottom: nat): nat
    requires top <= bottom <= |g|
    decreases bottom
  {
    if bottom > top && EmptyRow(g[bottom - 1]) then BottomFrom(g, top, bottom - 1) else bottom
  }

  /** The first column at or after `left` with a filled cell among the kept rows. */
  function LeftFrom(g: Grid, top: nat, bottom: nat, left: nat): nat
    requires Wide(g) && top <= bottom <= |g| && left <= |g[0]|
    decreases |g[0]| - left
  {
    if left < |g[0]| && EmptyColumn(g, top, bottom, left) then LeftFrom(g, top, bottom, left + 1) else left
  }

  /** One past the last column before `right` with a filled cell among the kept rows. */
  function RightFrom(g: Grid, top: nat, bottom: nat, left: nat, right: nat): nat
    requires Wide(g) && top <= bottom <= |g| && left <= right <= |g[0]|
    decreases right
  {
    if right > left && EmptyColumn(g, top, bottom, right - 1) then RightFrom(g, top, bottom, left, right - 1)
    else right
  }

  /** The four borders `trim_grid` settles on. */
  datatype Box = Box(top: nat, bottom: nat, left: nat, right: nat)

  function BoxOf(g: Grid): (b: Box)
    requires Wide(g)
    ensures b.top <= b.bottom <= |g| && b.left <= b.right <= |g[0]|
  {
    var top := TopFrom(g, 0);
    BoundsOfTop(g, 0);
    var bottom := BottomFrom(g, top, |g|);
    BoundsOfBottom(g, top, |g|);
    var left := LeftFrom(g, top, bottom, 0);
    BoundsOfLeft(g, top, bottom, 0);
    var right := RightFrom(g, top, bottom, left, |g[0]|);
    BoundsOfRight(g, top, bottom, left, |g[0]|);
    Box(top, bottom, left, right)
  }

  /** The rows `top .. bottom - 1`, each cut to the columns `left .. right - 1`. */
  function Window(g: Grid, b: Box): (w: Grid)
    requires Wide(g) && b.top <= b.bottom <= |g| && b.left <= b.right <= |g[0]|
    ensures |w| == b.bottom - b.top
  {
    seq(b.bottom - b.top, i requires 0 <= i < b.bottom - b.top => g[b.top + i][b.left..b.right])
  }

  function Trimmed(g: Grid): Grid
    requires Wide(g)
  {
    Window(g, BoxOf(g))
  }

  lemma {:induction false} BoundsOfTop(g: Grid, top: nat)
    requires top <= |g|
    ensures top <= TopFrom(g, top) <= |g|
    ensures forall r :: top <= r < TopFrom(g, top) ==> EmptyRow(g[r])
    ensures TopFrom(g, top) < |g| ==> !EmptyRow(g[TopFrom(g, top)])
    decreases |g| - top
  {
    if top < |g| && EmptyRow(g[top]) {
      BoundsOfTop(g, top + 1);
    }
  }

  lemma {:induction false} BoundsOfBottom(g: Grid, top: nat, bottom: nat)
    requires top <= bottom <= |g|
    ensures top <= BottomFrom(g, top, bottom) <= bottom
    ensures forall r :: BottomFrom(g, top, bottom) <= r < bottom ==> EmptyRow(g[r])
    ensures BottomFrom(g, top, bottom) > top ==> !EmptyRow(g[BottomFrom(g, top, bottom) - 1])
    decreases bottom
  {
    if bottom > top && EmptyRow(g[bottom - 1]) {
      BoundsOfBottom(g, top, bottom - 1);
    }
  }

  lemma {:induction false} BoundsOfLeft(g: Grid, top: nat, bottom: nat, left: nat)
    requires Wide(g) && top <= bottom <= |g| && left <= |g[0]|
    ensures left <= LeftFrom(g, top, bottom, left) <= |g[0]|
    ensures forall c :: left <= c < LeftFrom(g, top, bottom, left) ==> EmptyColumn(g, top, bottom, c)
    ensures LeftFrom(g, top, bottom, left) < |g[0]| ==> !EmptyColumn(g, top, bottom, LeftFrom(g, top, bottom, left))
    decreases |g[0]| - left
  {
    if left < |g[0]| && EmptyColumn(g, top, bottom, left) {
      BoundsOfLeft(g, top, bottom, left + 1);
    }
  }

  lemma {:induction false} BoundsOfRight(g: Grid, top: nat, bottom: nat, left: nat, right: nat)
    requires Wide(g) && top <= bottom <= |g| && left <= right <= |g[0]|
    ensures left <= RightFrom(g, top, bottom, left, right) <= right
    ensures forall c :: RightFrom(g, top, bottom, left, right) <= c < right ==> EmptyColumn(g, top, bottom, c)
    ensures RightFrom(g, top, bottom, left, right) > left ==>
              !EmptyColumn(g, top, bottom, RightFrom(g, top, bottom, left, right) - 1)
    decreases right
  {
    if right > left && EmptyColumn(g, top, bottom, right - 1) {
      BoundsOfRight(g, top, bottom, left, right - 1);
    }
  }

  /** Only empty border rows and columns go: on a rectangle every filled cell lies in
      the box, and the box is tight, so each of its four borders holds a filled cell. */
  lemma TrimMeaning(g: Grid)
    requires Rectangular(g)
    ensures var b := BoxOf(g);
      && (forall p :: p in Cells(g) ==> b.top <= p.0 < b.bottom && b.left <= p.1 < b.right)
      && (Cells(g) != {} ==> b.top < b.bottom && b.left < b.right)
      && (Cells(g) != {} ==> !EmptyRow(g[b.top]) && !EmptyRow(g[b.bottom - 1]))
      && (Cells(g) != {} ==> !EmptyColumn(g, b.top, b.bottom, b.left) && !EmptyColumn(g, b.top, b.bottom, b.right - 1))
  {
    var b := BoxOf(g);
    BoundsOfTop(g, 0);
    BoundsOfBottom(g, b.top, |g|);
    BoundsOfLeft(g, b.top, b.bottom, 0);
    BoundsOfRight(g, b.top, b.bottom, b.left, |g[0]|);
    forall p | p in Cells(g) ensures b.top <= p.0 < b.bottom && b.left <= p.1 < b.right {
      assert !EmptyRow(g[p.0]);
      assert !EmptyColumn(g, b.top, b.bottom, p.1);
    }
  }

  /** Trimming moves every filled cell up by `top` and left by `left` and loses none. */
  lemma TrimmedCells(g: Grid)
    requires Rectangular(g)
    ensures Cells(Trimmed(g)) == Translate(Cells(g), BoxOf(g).top, BoxOf(g).left)
    ensures |Cells(Trimmed(g))| == |Cells(g)|
  {
    var b := BoxOf(g);
    TrimMeaning(g);
    var t := Trimmed(g);
    forall i, j | 0 <= i < |t| && 0 <= j < |t[i]|
      ensures i + b.top < |g| && j + b.left < |g[i + b.top]| && t[i][j] == g[i + b.top][j + b.left]
    {
    }
    ShiftedCells(g, t, b.top, b.left);
  }

  /** A grid `t` that shows `g` from row `dr` and column `dc` on, and misses none of its
      filled cells, has exactly `g`'s filled cells, moved. */
  lemma ShiftedCells(g: Grid, t: Grid, dr: nat, dc: nat)
    requires forall i, j :: 0 <= i < |t| && 0 <= j < |t[i]| ==>
               i + dr < |g| && j + dc < |g[i + dr]| && t[i][j] == g[i + dr][j + dc]
    requires forall p :: p in Cells(g) ==> dr <= p.0 < dr + |t| && dc <= p.1 && p.1 - dc < |t[p.0 - dr]|
    ensures Cells(t) == Translate(Cells(g), dr, dc) && |Cells(t)| == |Cells(g)|
  {
    forall q | q in Cells(t) ensures q in Translate(Cells(g), dr, dc) {
      InCells(t, q.0, q.1);
      InCells(g, q.0 + dr, q.1 + dc);
    }
    forall q | q in Translate(Cells(g), dr, dc) ensures q in Cells(t) {
      var p :| p in Cells(g) && p.0 >= dr && p.1 >= dc && q == (p.0 - dr, p.1 - dc);
      InCells(g, p.0, p.1);
      InCells(t, q.0, q.1);
    }
    TranslateSize(Cells(g), dr, dc);
  }

  /** The cells of `s` moved up by `dr` and left by `dc`. */
  function Translate(s: set<Cell>, dr: nat, dc: nat): set<Cell>
  {
    set p | p in s && p.0 >= dr && p.1 >= dc :: (p.0 - dr, p.1 - dc)
  }

  lemma TranslateSize(s: set<Cell>, dr: nat, dc: nat)
    requires forall p :: p in s ==> p.0 >= dr && p.1 >= dc
    ensures |Translate(s, dr, dc)| == |s|
  {
    var f := (p: Cell) => (if p.0 >= dr then p.0 - dr else 0, if p.1 >= dc then p.1 - dc else 0);
    var back := (q: Cell) => (q.0 + dr, q.1 + dc);
    forall q | q in Translate(s, dr, dc) ensures back(q) in s && f(back(q)) == q {
      var p :| p in s && p.0 >= dr && p.1 >= dc && q == (p.0 - dr, p.1 - dc);
      assert back(q) == p;
    }
    SameSize(s, Translate(s, dr, dc), f, back);
  }

  lemma InCells(g: Grid, r: nat, c: nat)
    ensures (r, c) in Cells(g) <==> r < |g| && c < |g[r]| && g[r][c]
  {
  }

  /** The trimmed grid of a rectangle with a filled cell is a rectangle of the box's
      size. */
  lemma TrimmedShape(g: Grid)
    requires Rectangular(g) && Cells(g) != {}
    ensures var b := BoxOf(g);
      Rectangular(Trimmed(g)) && |Trimmed(g)| == b.bottom - b.top && |Trimmed(g)[0]| == b.right - b.left
      && b.right - b.left >= 1
  {
    TrimMeaning(g);
  }

  /** Whether column `c` is empty in rows `top .. bottom - 1`, scanning down. */
  method ColumnEmpty(g: Grid, top: nat, bottom: nat, c: nat) returns (empty: bool)
    requires Wide(g) && top <= bottom <= |g| && c < |g[0]|
    ensures empty == EmptyColumn(g, top, bottom, c)
  {
    empty := true;
    var r := top;
    while r < bottom
      invariant top <= r <= bottom
      invariant empty ==> forall r' :: top <= r' < r ==> !g[r'][c]
      invariant !empty ==> !EmptyColumn(g, top, bottom, c)
      decreases bottom - r, empty
    {
      if g[r][c] {
        empty := false;
        break;
      }
      r := r + 1;
    }
  }

  /** `trim_grid`: move each of the four borders inwards past empty rows and columns,
      then copy the box. */
  method Trim(g: Grid) returns (out: Grid)
    requires Wide(g)
    ensures out == Trimmed(g)
  {
    var top := FindTop(g);
    var bottom := FindBottom(g, top);
    var left := FindLeft(g, top, bottom);
    var right := FindRight(g, top, bottom, left);
    out := [];
    for r := top to bottom
      invariant out == Window(g, Box(top, r, left, right))
    {
      out := out + [g[r][left..right]];
    }
  }

  method FindTop(g: Grid) returns (top: nat)
    requires Wide(g)
    ensures top == TopFrom(g, 0) && top <= |g|
  {
    top := 0;
    while top < |g| && EmptyRowScan(g[top])
      invariant top <= |g| && TopFrom(g, top) == TopFrom(g, 0)
    {
      top := top + 1;
    }
  }

  method FindBottom(g: Grid, top: nat) returns (bottom: nat)
    requires Wide(g) && top <= |g|
    ensures bottom == BottomFrom(g, top, |g|) && top <= bottom <= |g|
  {
    bottom := |g|;
    while bottom > top && EmptyRowScan(g[bottom - 1])
      invariant top <= bottom <= |g| && BottomFrom(g, top, bottom) == BottomFrom(g, top, |g|)
    {
      bottom := bottom - 1;
    }
  }

  method FindLeft(g: Grid, top: nat, bottom: nat) returns (left: nat)
    requires Wide(g) && top <= bottom <= |g|
    ensures left == LeftFrom(g, top, bottom, 0) && left <= |g[0]|
  {
    left := 0;
    while left < |g[0]|
      invariant left <= |g[0]| && LeftFrom(g, top, bottom, left) == LeftFrom(g, top, bottom, 0)
    {
      var empty := ColumnEmpty(g, top, bottom, left);
      if !empty {
        break;
      }
      left := left + 1;
    }
  }

  method FindRight(g: Grid, top: nat, bottom: nat, left: nat) returns (right: nat)
    requires Wide(g) && top <= bottom <= |g| && left <= |g[0]|
    ensures right == RightFrom(g, top, bottom, left, |g[0]|) && left <= right <= |g[0]|
  {
    right := |g[0]|;
    while right > left
      invariant left <= right <= |g[0]|
      invariant RightFrom(g, top, bottom, left, right) == RightFrom(g, top, bottom, left, |g[0]|)
    {
      var empty := ColumnEmpty(g, top, bottom, right - 1);
      if !empty {
        break;
      }
      right := right - 1;
    }
  }

  /** `row.iter().all(|&v| !v)`. */
  function EmptyRowScan(row: seq<bool>): (e: bool)
    ensures e == EmptyRow(row)
    decreases |row|
  {
    if row == [] then true else !row[0] && EmptyRowScan(row[1..])
  }

  // ---------------------------------------------------------------------------
  // Encoding
  // ---------------------------------------------------------------------------

  function EncodeRow(row: seq<bool>): (s: string)
    ensures |s| == |row| && '/' !in s
  {
    seq(|row|, i requires 0 <= i < |row| => if row[i] then '#' else '.')
  }

  /** `encode_grid`: rows of `#` and `.`, joined by `/`. */
  function Encode(g: Grid): string
    decreases |g|
  {
    if g == [] then ""
    else if |g| == 1 then EncodeRow(g[0])
    else EncodeRow(g[0]) + "/" + Encode(g[1..])
  }

  function DecodeRow(s: string): (row: seq<bool>)
    ensures |row| == |s|
  {
    seq(|s|, i requires 0 <= i < |s| => s[i] == '#')
  }

  /** Reads an encoding back: split at `/`, `#` is filled. */
  function Decode(s: string): Grid
  {
    var parts := Split(s, '/');
    seq(|parts|, k requires 0 <= k < |parts| => DecodeRow(parts[k]))
  }

  lemma {:induction false} SplitEncoding(g: Grid)
    requires |g| >= 1
    ensures Split(Encode(g), '/') == seq(|g|, k requires 0 <= k < |g| => EncodeRow(g[k]))
    decreases |g|
  {
    var first := EncodeRow(g[0]);
    if |g| == 1 {
      IndexOfAt(first, '/', 0, |first|);
    } else {
      var rest := Encode(g[1..]);
      var s := first + "/" + rest;
      IndexOfAt(s, '/', 0, |first|);
      assert s[..|first|] == first && s[|first| + 1..] == rest;
      SplitEncoding(g[1..]);
    }
  }

  /** Decoding an encoding gives the grid back: distinct non-empty grids have distinct
      encodings, so deduplicating by encoding is deduplicating the grids. */
  lemma {:induction false} EncodeDecode(g: Grid)
    requires |g| >= 1
    ensures Decode(Encode(g)) == g
  {
    SplitEncoding(g);
    forall k | 0 <= k < |g| ensures DecodeRow(EncodeRow(g[k])) == g[k] {
    }
  }

  lemma {:induction false} EncodeInjective(a: Grid, b: Grid)
    requires |a| >= 1 && |b| >= 1 && Encode(a) == Encode(b)
    ensures a == b
  {
    EncodeDecode(a);
    EncodeDecode(b);
  }

  // ---------------------------------------------------------------------------
  // Cell lists
  // ---------------------------------------------------------------------------

  /** The filled cells of row `r`, left to right. */
  function RowCells(r: nat, row: seq<bool>): seq<Cell>
    decreases |row|
  {
    if row == [] then []
    else
      var last: Cell := (r, |row| - 1);
      RowCells(r, row[..|row| - 1]) + (if row[|row| - 1] then [last] else [])
  }

  /** The filled cells, row by row. */
  function CellList(g: Grid): seq<Cell>
    decreases |g|
  {
    if g == [] then [] else CellList(g[..|g| - 1]) + RowCells(|g| - 1, g[|g| - 1])
  }

  /** `p` comes before `q` in reading order. */
  predicate Before(p: Cell, q: Cell)
  {
    p.0 < q.0 || (p.0 == q.0 && p.1 < q.1)
  }

  predicate ReadingOrder(cs: seq<Cell>)
  {
    forall i, j :: 0 <= i < j < |cs| ==> Before(cs[i], cs[j])
  }

  lemma {:induction false} RowCellsMeaning(r: nat, row: seq<bool>)
    ensures forall p :: p in RowCells(r, row) <==> p.0 == r && p.1 < |row| && row[p.1]
    ensures ReadingOrder(RowCells(r, row))
    decreases |row|
  {
    if row != [] {
      var front := row[..|row| - 1];
      RowCellsMeaning(r, front);
      var last: Cell := (r, |row| - 1);
      var a: seq<Cell>, b: seq<Cell> := RowCells(r, front), (if row[|row| - 1] then [last] else []);
      assert RowCells(r, row) == a + b;
      forall p: Cell ensures p in a + b <==> p.0 == r && p.1 < |row| && row[p.1] {
        if p.0 == r && p.1 < |front| {
          assert row[p.1] == front[p.1];
        }
      }
      forall i, j | 0 <= i < j < |a + b| ensures Before((a + b)[i], (a + b)[j]) {
        if j >= |a| {
          assert (a + b)[i] in a;
        }
      }
    }
  }

  /** The list holds each filled cell exactly once, in reading order. */
  lemma {:induction false} CellListMeaning(g: Grid)
    ensures forall p :: p in CellList(g) <==> p in Cells(g)
    ensures ReadingOrder(CellList(g))
    decreases |g|
  {
    if g != [] {
      var front := g[..|g| - 1];
      var r := |g| - 1;
      CellListMeaning(front);
      RowCellsMeaning(r, g[r]);
      var a, b := CellList(front), RowCells(r, g[r]);
      forall p: Cell ensures p in a + b <==> p in Cells(g) {
        InCells(g, p.0, p.1);
        InCells(front, p.0, p.1);
        if p.0 < r {
          assert front[p.0] == g[p.0];
        }
      }
      forall i, j | 0 <= i < j < |a + b| ensures Before((a + b)[i], (a + b)[j]) {
        if i < |a| && j >= |a| {
          assert (a + b)[i] in a && (a + b)[j] in b;
          InCells(front, (a + b)[i].0, (a + b)[i].1);
        }
      }
    }
  }

  /** So the number of listed cells is the number of filled cells. */
  lemma {:induction false} CellListSize(g: Grid)
    ensures |CellList(g)| == |Cells(g)|
  {
    CellListMeaning(g);
    OrderedSize(CellList(g));
    assert (set p | p in CellList(g)) == Cells(g);
  }

  /** A list in reading order has no repeats, so its elements are as many as its length. */
  lemma {:induction false} OrderedSize(cs: seq<Cell>)
    requires ReadingOrder(cs)
    ensures |set p | p in cs| == |cs|
    decreases |cs|
  {
    if cs != [] {
      var front := cs[..|cs| - 1];
      OrderedSize(front);
      var last := cs[|cs| - 1];
      assert (set p | p in cs) == (set p | p in front) + {last};
      forall i | 0 <= i < |front| ensures front[i] != last {
        assert Before(cs[i], cs[|cs| - 1]);
      }
      assert last !in front;
    }
  }

  /** Collects the filled cells of a trimmed grid, row by row. */
  method CollectCells(g: Grid) returns (cells: seq<Cell>)
    ensures cells == CellList(g)
  {
    cells := [];
    for r := 0 to |g|
      invariant cells == CellList(g[..r])
    {
      assert g[..r + 1][..r] == g[..r];
      var row := g[r];
      var rowCells: seq<Cell> := [];
      for c := 0 to |row|
        invariant rowCells == RowCells(r, row[..c])
      {
        assert row[..c + 1][..c] == row[..c];
        if row[c] {
          rowCells := rowCells + [(r, c)];
        }
      }
      assert row[..|row|] == row;
      cells := cells + rowCells;
    }
    assert g[..|g|] == g;
  }

  // ---------------------------------------------------------------------------
  // Orientations
  // ---------------------------------------------------------------------------

  /** One placement shape of a present: its filled cells relative to the top-left corner
      of its box, and the box's size. */
  datatype Orientation = Orientation(cells: seq<Cell>, width: nat, height: nat)

  /** A shape: its number of filled cells, its distinct orientations and the largest
      width and height among them. */
  datatype Shape = Shape(area: nat, orientations: seq<Orientation>, maxWidth: nat, maxHeight: nat)

  /** `i` quarter turns. */
  function Turned(g: Grid, i: nat): (t: Grid)
    requires Rectangular(g) && |g[0]| >= 1
    ensures Rectangular(t) && |t[0]| >= 1
    decreases i
  {
    if i == 0 then g
    else
      var prev := Turned(g, i - 1);
      RotatedShape(prev);
      Rotated(prev)
  }

  /** The `k`-th grid `parse_shape` looks at: turn `k / 2` times, and mirror odd ones. */
  function VariantAt(g: Grid, k: nat): (v: Grid)
    requires Rectangular(g) && |g[0]| >= 1
    ensures Rectangular(v) && |v[0]| >= 1
  {
    if k % 2 == 1 then Flip(Turned(g, k / 2)) else Turned(g, k / 2)
  }

  /** The eight trimmed variants, in the order they are considered. */
  function Candidates(g: Grid): (cs: seq<Grid>)
    requires Rectangular(g) && |g[0]| >= 1
    ensures |cs| == 8
  {
    seq(8, k requires 0 <= k < 8 => Trimmed(VariantAt(g, k)))
  }

  function Encodings(kept: seq<Grid>): set<string>
  {
    set x | x in kept :: Encode(x)
  }

  /** One step of the `seen`-set deduplication. */
  function Keep(kept: seq<Grid>, t: Grid): seq<Grid>
  {
    if Encode(t) in Encodings(kept) then kept else kept + [t]
  }

  /** The first grid of each encoding, in order. */
  function Distinct(ts: seq<Grid>): seq<Grid>
    decreases |ts|
  {
    if ts == [] then [] else Keep(Distinct(ts[..|ts| - 1]), ts[|ts| - 1])
  }

  function OrientationOf(t: Grid): Orientation
  {
    Orientation(CellList(t), if |t| > 0 then |t[0]| else 0, |t|)
  }

  function Orientations(g: Grid): (os: seq<Orientation>)
    requires Rectangular(g) && |g[0]| >= 1
  {
    var kept := Distinct(Candidates(g));
    seq(|kept|, k requires 0 <= k < |kept| => OrientationOf(kept[k]))
  }

  function MaxWidth(os: seq<Orientation>): nat
    decreases |os|
  {
    if os == [] then 0 else Max(MaxWidth(os[..|os| - 1]), os[|os| - 1].width)
  }

  function MaxHeight(os: seq<Orientation>): nat
    decreases |os|
  {
    if os == [] then 0 else Max(MaxHeight(os[..|os| - 1]), os[|os| - 1].height)
  }

  function Max(a: nat, b: nat): nat { if a >= b then a else b }

  /** The widest orientation's width: no orientation is wider, and one is this wide. */
  lemma {:induction false} MaxWidthMeaning(os: seq<Orientation>)
    ensures forall k :: 0 <= k < |os| ==> os[k].width <= MaxWidth(os)
    ensures os != [] ==> exists k :: 0 <= k < |os| && os[k].width == MaxWidth(os)
    decreases |os|
  {
    if os != [] {
      var front := os[..|os| - 1];
      MaxWidthMeaning(front);
      assert forall k :: 0 <= k < |front| ==> front[k] == os[k];
      if front != [] && MaxWidth(front) >= os[|os| - 1].width {
        var k :| 0 <= k < |front| && front[k].width == MaxWidth(front);
        assert os[k].width == MaxWidth(os);
      }
    }
  }

  lemma {:induction false} MaxHeightMeaning(os: seq<Orientation>)
    ensures forall k :: 0 <= k < |os| ==> os[k].height <= MaxHeight(os)
    ensures os != [] ==> exists k :: 0 <= k < |os| && os[k].height == MaxHeight(os)
    decreases |os|
  {
    if os != [] {
      var front := os[..|os| - 1];
      MaxHeightMeaning(front);
      assert forall k :: 0 <= k < |front| ==> front[k] == os[k];
      if front != [] && MaxHeight(front) >= os[|os| - 1].height {
        var k :| 0 <= k < |front| && front[k].height == MaxHeight(front);
        assert os[k].height == MaxHeight(os);
      }
    }
  }

  /** Deduplication keeps only input grids, keeps one grid of every input encoding, and
      keeps no encoding twice. */
  lemma {:induction false} DistinctMeaning(ts: seq<Grid>)
    ensures forall x :: x in Distinct(ts) ==> x in ts
    ensures forall t :: t in ts ==> Encode(t) in Encodings(Distinct(ts))
    ensures forall i, j :: 0 <= i < j < |Distinct(ts)| ==> Encode(Distinct(ts)[i]) != Encode(Distinct(ts)[j])
    ensures ts != [] ==> Distinct(ts) != []
    ensures |Distinct(ts)| <= |ts|
    decreases |ts|
  {
    if ts != [] {
      var front, last := ts[..|ts| - 1], ts[|ts| - 1];
      DistinctMeaning(front);
      var kept := Distinct(front);
      assert ts == front + [last];
      if Encode(last) !in Encodings(kept) {
        var all := kept + [last];
        forall i, j | 0 <= i < j < |all| ensures Encode(all[i]) != Encode(all[j]) {
          if j == |kept| {
            assert all[i] in kept;
          } else {
            assert all[i] == kept[i] && all[j] == kept[j];
          }
        }
        forall t | t in ts ensures Encode(t) in Encodings(all) {
          if t != last {
            assert t in front;
          }
        }
      }
    }
  }

  /** What the orientations of a shape with a filled cell are: between one and eight of
      them, no two alike, every variant among them, and each one a rectangle holding
      exactly the shape's number of filled cells, in reading order. */
  lemma OrientationsMeaning(g: Grid)
    requires Rectangular(g) && |g[0]| >= 1 && Cells(g) != {}
    ensures var os := Orientations(g);
      && 1 <= |os| <= 8
      && (forall k :: 0 <= k < |os| ==> |os[k].cells| == |Cells(g)| && ReadingOrder(os[k].cells))
      && (forall k :: 0 <= k < |os| ==> os[k].width >= 1 && os[k].height >= 1)
      && (forall k, p :: 0 <= k < |os| && p in os[k].cells ==> p.0 < os[k].height && p.1 < os[k].width)
    ensures forall i, j :: 0 <= i < j < |Distinct(Candidates(g))| ==> Distinct(Candidates(g))[i] != Distinct(Candidates(g))[j]
    ensures forall t :: t in Candidates(g) ==> t in Distinct(Candidates(g))
  {
    var kept := Distinct(Candidates(g));
    KeptFacts(g);
    KeptDistinct(g);
    AllKept(g);
    var os := Orientations(g);
    forall k | 0 <= k < |os|
      ensures |os[k].cells| == |Cells(g)| && ReadingOrder(os[k].cells)
      ensures os[k].width >= 1 && os[k].height >= 1
      ensures forall p :: p in os[k].cells ==> p.0 < os[k].height && p.1 < os[k].width
    {
      OrientationFacts(g, kept[k]);
    }
  }

  lemma AllCandidateFacts(g: Grid)
    requires Rectangular(g) && |g[0]| >= 1 && Cells(g) != {}
    ensures forall t :: t in Candidates(g) ==> CandidateFacts(g, t)
  {
    var cs := Candidates(g);
    forall k | 0 <= k < 8 ensures CandidateFacts(g, cs[k]) {
      CandidateCells(g, k);
    }
  }

  lemma KeptFacts(g: Grid)
    requires Rectangular(g) && |g[0]| >= 1 && Cells(g) != {}
    ensures forall k :: 0 <= k < |Distinct(Candidates(g))| ==> CandidateFacts(g, Distinct(Candidates(g))[k])
    ensures 1 <= |Distinct(Candidates(g))| <= 8
  {
    var cs := Candidates(g);
    var kept := Distinct(cs);
    DistinctMeaning(cs);
    AllCandidateFacts(g);
    forall k | 0 <= k < |kept| ensures CandidateFacts(g, kept[k]) {
      assert kept[k] in cs;
    }
  }

  lemma KeptDistinct(g: Grid)
    requires Rectangular(g) && |g[0]| >= 1
    ensures forall i, j :: 0 <= i < j < |Distinct(Candidates(g))| ==> Distinct(Candidates(g))[i] != Distinct(Candidates(g))[j]
  {
    DistinctMeaning(Candidates(g));
  }

  lemma AllKept(g: Grid)
    requires Rectangular(g) && |g[0]| >= 1 && Cells(g) != {}
    ensures forall t :: t in Candidates(g) ==> t in Distinct(Candidates(g))
  {
    var cs := Candidates(g);
    var kept := Distinct(cs);
    DistinctMeaning(cs);
    AllCandidateFacts(g);
    forall t | t in cs ensures t in kept {
      var x :| x in kept && Encode(x) == Encode(t);
      assert CandidateFacts(g, x) && CandidateFacts(g, t);
      EncodeInjective(x, t);
    }
  }

  /** What each trimmed variant is: a rectangle with all of `g`'s filled cells. */
  ghost predicate CandidateFacts(g: Grid, t: Grid)
  {
    Rectangular(t) && |t[0]| >= 1 && |Cells(t)| == |Cells(g)|
  }

  lemma OrientationFacts(g: Grid, t: Grid)
    requires CandidateFacts(g, t)
    ensures var o := OrientationOf(t);
      && |o.cells| == |Cells(g)| && ReadingOrder(o.cells)
      && o.width >= 1 && o.height >= 1
      && (forall p :: p in o.cells ==> p.0 < o.height && p.1 < o.width)
  {
    CellListSize(t);
    CellListMeaning(t);
    forall p | p in CellList(t) ensures p.0 < |t| && p.1 < |t[0]| {
      InCells(t, p.0, p.1);
    }
  }

  lemma CandidateCells(g: Grid, k: nat)
    requires Rectangular(g) && |g[0]| >= 1 && Cells(g) != {} && k < 8
    ensures CandidateFacts(g, Candidates(g)[k])
  {
    TurnedCount(g, k / 2);
    var v := VariantAt(g, k);
    if k % 2 == 1 {
      FlipCount(Turned(g, k / 2));
    }
    assert |Cells(v)| == |Cells(g)|;
    TrimmedCells(v);
    TrimmedShape(v);
  }

  lemma {:induction false} TurnedCount(g: Grid, i: nat)
    requires Rectangular(g) && |g[0]| >= 1
    ensures |Cells(Turned(g, i))| == |Cells(g)|
    decreases i
  {
    if i > 0 {
      TurnedCount(g, i - 1);
      RotatedCount(Turned(g, i - 1));
    }
  }

  // ---------------------------------------------------------------------------
  // Reading a shape
  // ---------------------------------------------------------------------------

  datatype ShapeError =
    | EmptyRows
    | InconsistentWidths
    | InvalidCharacter(c: char)
    | NoFilledCells
    | NoOrientations

  /** One row: `#` is filled, `.` is empty, and the first other character is an error. */
  function RowOf(line: string): Result<seq<bool>, ShapeError>
    decreases |line|
  {
    if line == [] then Ok([])
    else
      match RowOf(line[..|line| - 1])
      case Err(e) => Err(e)
      case Ok(row) =>
        var ch := line[|line| - 1];
        if ch == '#' then Ok(row + [true])
        else if ch == '.' then Ok(row + [false])
        else Err(InvalidCharacter(ch))
  }

  /** The rows, each checked for its length before its characters, first error wins. */
  function GridOf(lines: seq<string>, width: nat): Result<Grid, ShapeError>
    decreases |lines|
  {
    if lines == [] then Ok([])
    else
      match GridOf(lines[..|lines| - 1], width)
      case Err(e) => Err(e)
      case Ok(rows) =>
        var line := lines[|lines| - 1];
        if |line| != width then Err(InconsistentWidths)
        else
          match RowOf(line)
          case Err(e) => Err(e)
          case Ok(row) => Ok(rows + [row])
  }

  /** `parse_shape`. */
  function ShapeOf(lines: seq<string>): Result<Shape, ShapeError>
  {
    var width := if |lines| > 0 then |lines[0]| else 0;
    if width == 0 then Err(EmptyRows)
    else
      match GridOf(lines, width)
      case Err(e) => Err(e)
      case Ok(grid) =>
        var area := |CellList(grid)|;
        if area == 0 then Err(NoFilledCells)
        else
          GridShape(lines, width);
          var os := Orientations(grid);
          if os == [] then Err(NoOrientations)
          else Ok(Shape(area, os, MaxWidth(os), MaxHeight(os)))
  }

  lemma {:induction false} RowMeaning(line: string)
    ensures RowOf(line).Ok? <==> forall j :: 0 <= j < |line| ==> line[j] == '#' || line[j] == '.'
    ensures RowOf(line).Ok? ==> |RowOf(line).value| == |line|
                                && forall j :: 0 <= j < |line| ==> RowOf(line).value[j] == (line[j] == '#')
    ensures RowOf(line).Err? ==> exists j :: 0 <= j < |line| && RowOf(line).error == InvalidCharacter(line[j])
                                           && line[j] != '#' && line[j] != '.'
    decreases |line|
  {
    if line != [] {
      var front := line[..|line| - 1];
      RowMeaning(front);
      assert forall j :: 0 <= j < |front| ==> front[j] == line[j];
    }
  }

  /** The rows are accepted exactly when every line has the width and holds only `#` and
      `.`; the grid then has one row per line, filled where the line has `#`. */
  lemma {:induction false} GridMeaning(lines: seq<string>, width: nat)
    ensures GridOf(lines, width).Ok? <==>
              forall i :: 0 <= i < |lines| ==> |lines[i]| == width && RowOf(lines[i]).Ok?
    ensures GridOf(lines, width).Ok? ==>
              |GridOf(lines, width).value| == |lines|
              && forall i :: 0 <= i < |lines| ==> GridOf(lines, width).value[i] == RowOf(lines[i]).value
    ensures GridOf(lines, width).Err? ==>
              || GridOf(lines, width).error == InconsistentWidths
              || exists i :: 0 <= i < |lines| && RowOf(lines[i]).Err? && GridOf(lines, width).error == RowOf(lines[i]).error
    decreases |lines|
  {
    if lines != [] {
      var front := lines[..|lines| - 1];
      GridMeaning(front, width);
      assert forall i :: 0 <= i < |front| ==> front[i] == lines[i];
    }
  }

  /** An accepted grid is a rectangle of the first line's width. */
  lemma {:induction false} GridShape(lines: seq<string>, width: nat)
    requires |lines| >= 1 && width >= 1 && GridOf(lines, width).Ok?
    ensures Rectangular(GridOf(lines, width).value) && |GridOf(lines, width).value[0]| == width
  {
    GridMeaning(lines, width);
    forall i | 0 <= i < |lines| ensures |RowOf(lines[i]).value| == width {
      RowMeaning(lines[i]);
    }
  }

  /** A shape is rejected for empty rows exactly when there is no first line or it is
      empty; an accepted shape's area is its number of `#` cells, at least one, and it
      never lacks an orientation. */
  lemma {:induction false} ShapeMeaning(lines: seq<string>)
    ensures ShapeOf(lines) == Err(EmptyRows) <==> lines == [] || lines[0] == []
    ensures ShapeOf(lines).Ok? ==>
              |lines| > 0 && GridOf(lines, |lines[0]|).Ok? &&
              var grid := GridOf(lines, |lines[0]|).value;
              && Rectangular(grid) && |grid[0]| >= 1
              && ShapeOf(lines).value.area == |Cells(grid)| >= 1
              && ShapeOf(lines).value.orientations == Orientations(grid)
    ensures ShapeOf(lines) != Err(NoOrientations)
  {
    if |lines| > 0 && |lines[0]| > 0 {
      var width := |lines[0]|;
      if GridOf(lines, width).Ok? {
        GridShape(lines, width);
        ShapeFromGrid(lines, width, GridOf(lines, width).value);
      } else {
        RowErrors(lines, width);
      }
    }
  }

  lemma {:induction false} ShapeFromGrid(lines: seq<string>, width: nat, grid: Grid)
    requires |lines| > 0 && width == |lines[0]| >= 1 && GridOf(lines, width) == Ok(grid)
    requires Rectangular(grid) && |grid[0]| >= 1
    ensures ShapeOf(lines) != Err(EmptyRows) && ShapeOf(lines) != Err(NoOrientations)
    ensures ShapeOf(lines).Ok? ==> ShapeOf(lines).value.area == |Cells(grid)| >= 1
                                   && ShapeOf(lines).value.orientations == Orientations(grid)
  {
    CellListSize(grid);
    if Cells(grid) != {} {
      OrientationsMeaning(grid);
    }
  }

  lemma {:induction false} RowErrors(lines: seq<string>, width: nat)
    requires GridOf(lines, width).Err?
    ensures GridOf(lines, width).error != EmptyRows && GridOf(lines, width).error != NoOrientations
  {
    GridMeaning(lines, width);
    if GridOf(lines, width).error != InconsistentWidths {
      var i :| 0 <= i < |lines| && RowOf(lines[i]).Err? && GridOf(lines, width).error == RowOf(lines[i]).error;
      RowMeaning(lines[i]);
    }
  }

  /** `parse_shape`: read the rows counting `#`, then collect the orientations. */
  method ParseShape(lines: seq<string>) returns (r: Result<Shape, ShapeError>)
    ensures r == ShapeOf(lines)
  {
    var width := if |lines| > 0 then |lines[0]| else 0;
    if width == 0 {
      return Err(EmptyRows);
    }
    var grid, area := ReadGrid(lines, width);
    if grid.Err? {
      return Err(grid.error);
    }
    if area == 0 {
      return Err(NoFilledCells);
    }
    GridShape(lines, width);
    var orientations, maxWidth, maxHeight := CollectOrientations(grid.value);
    if orientations == [] {
      return Err(NoOrientations);
    }
    r := Ok(Shape(area, orientations, maxWidth, maxHeight));
  }

  /** The row loop of `parse_shape`, with `area` counting the `#` characters. */
  method ReadGrid(lines: seq<string>, width: nat) returns (r: Result<Grid, ShapeError>, area: nat)
    ensures r == GridOf(lines, width)
    ensures r.Ok? ==> area == |CellList(r.value)|
  {
    var grid: Grid := [];
    area := 0;
    for i := 0 to |lines|
      invariant GridOf(lines[..i], width) == Ok(grid) && area == |CellList(grid)|
    {
      assert lines[..i + 1][..i] == lines[..i];
      var line := lines[i];
      if |line| != width {
        GridFails(lines, width, i + 1);
        return Err(InconsistentWidths), area;
      }
      var row: seq<bool> := [];
      var rowArea := 0;
      for c := 0 to |line|
        invariant RowOf(line[..c]) == Ok(row) && rowArea == |RowCells(|grid|, row)|
      {
        assert line[..c + 1][..c] == line[..c];
        var ch := line[c];
        if ch == '#' {
          assert RowCells(|grid|, row + [true])[..] == RowCells(|grid|, row) + [(|grid|, |row|)] by {
            assert (row + [true])[..|row|] == row;
          }
          row := row + [true];
          rowArea := rowArea + 1;
        } else if ch == '.' {
          assert RowCells(|grid|, row + [false]) == RowCells(|grid|, row) by {
            assert (row + [false])[..|row|] == row;
          }
          row := row + [false];
        } else {
          RowFails(line, c + 1);
          GridFails(lines, width, i + 1);
          return Err(InvalidCharacter(ch)), area;
        }
      }
      assert line[..|line|] == line;
      assert CellList(grid + [row]) == CellList(grid) + RowCells(|grid|, row) by {
        assert (grid + [row])[..|grid|] == grid;
      }
      grid := grid + [row];
      area := area + rowArea;
    }
    assert lines[..|lines|] == lines;
    r := Ok(grid);
  }

  /** A row error in the first `k` characters is the row's error. */
  lemma {:induction false} RowFails(line: string, k: nat)
    requires k <= |line| && RowOf(line[..k]).Err?
    ensures RowOf(line) == RowOf(line[..k])
    decreases |line| - k
  {
    if k < |line| {
      assert line[..k + 1][..k] == line[..k];
      RowFails(line, k + 1);
    } else {
      assert line[..k] == line;
    }
  }

  /** A grid error in the first `k` lines is the grid's error. */
  lemma {:induction false} GridFails(lines: seq<string>, width: nat, k: nat)
    requires k <= |lines| && GridOf(lines[..k], width).Err?
    ensures GridOf(lines, width) == GridOf(lines[..k], width)
    decreases |lines| - k
  {
    if k < |lines| {
      assert lines[..k + 1][..k] == lines[..k];
      GridFails(lines, width, k + 1);
    } else {
      assert lines[..k] == lines;
    }
  }

  /** The orientation loop of `parse_shape`: four turns, each tried as is and mirrored,
      trimmed, and kept when its encoding is new. */
  method CollectOrientations(grid: Grid) returns (orientations: seq<Orientation>, maxWidth: nat, maxHeight: nat)
    requires Rectangular(grid) && |grid[0]| >= 1
    ensures orientations == Orientations(grid)
    ensures maxWidth == MaxWidth(orientations) && maxHeight == MaxHeight(orientations)
  {
    ghost var kept: seq<Grid> := [];
    var seen: set<string> := {};
    orientations, maxWidth, maxHeight := [], 0, 0;
    var current := grid;
    ghost var n := 0;
    for i := 0 to 4
      invariant current == Turned(grid, i) && n == 2 * i
      invariant Built(grid, n, kept, seen, orientations, maxWidth, maxHeight)
    {
      kept, seen, orientations, maxWidth, maxHeight :=
        TryTurn(grid, current, i, kept, seen, orientations, maxWidth, maxHeight);
      n := n + 2;
      RotatedShape(current);
      current := Rotate(current);
    }
    BuiltAll(grid, kept, seen, orientations, maxWidth, maxHeight);
  }

  /** The inner loop: the turn as is, then mirrored. */
  method TryTurn(grid: Grid, current: Grid, i: nat, ghost kept: seq<Grid>, seen: set<string>,
                 orientations: seq<Orientation>, maxWidth: nat, maxHeight: nat)
    returns (ghost kept': seq<Grid>, seen': set<string>, orientations': seq<Orientation>, maxWidth': nat, maxHeight': nat)
    requires Rectangular(grid) && |grid[0]| >= 1 && i < 4 && current == Turned(grid, i)
    requires Built(grid, 2 * i, kept, seen, orientations, maxWidth, maxHeight)
    ensures Built(grid, 2 * i + 2, kept', seen', orientations', maxWidth', maxHeight')
  {
    kept', seen', orientations', maxWidth', maxHeight' := kept, seen, orientations, maxWidth, maxHeight;
    for flip := 0 to 2
      invariant Built(grid, 2 * i + flip, kept', seen', orientations', maxWidth', maxHeight')
    {
      kept', seen', orientations', maxWidth', maxHeight' :=
        TryVariant(grid, current, i, flip, kept', seen', orientations', maxWidth', maxHeight');
    }
  }

  /** One pass of the inner loop: mirror when `flip` is 1, trim, and consider. */
  method TryVariant(grid: Grid, current: Grid, i: nat, flip: nat, ghost kept: seq<Grid>, seen: set<string>,
                    orientations: seq<Orientation>, maxWidth: nat, maxHeight: nat)
    returns (ghost kept': seq<Grid>, seen': set<string>, orientations': seq<Orientation>, maxWidth': nat, maxHeight': nat)
    requires Rectangular(grid) && |grid[0]| >= 1 && i < 4 && flip < 2 && current == Turned(grid, i)
    requires Built(grid, 2 * i + flip, kept, seen, orientations, maxWidth, maxHeight)
    ensures Built(grid, 2 * i + flip + 1, kept', seen', orientations', maxWidth', maxHeight')
  {
    ghost var cs := Candidates(grid);
    var variant := if flip == 1 then Flip(current) else current;
    CandidateAt(grid, i, flip);
    var trimmed := Trim(variant);
    TakeSnoc(cs, 2 * i + flip);
    kept', seen', orientations', maxWidth', maxHeight' :=
      Consider(trimmed, kept, seen, orientations, maxWidth, maxHeight, cs[..2 * i + flip]);
  }

  /** Candidate `2 i + flip` is turn `i`, mirrored when `flip` is 1, then trimmed. */
  lemma {:induction false} CandidateAt(g: Grid, i: nat, flip: nat)
    requires Rectangular(g) && |g[0]| >= 1 && i < 4 && flip < 2
    ensures var t := Turned(g, i);
      Candidates(g)[2 * i + flip] == Trimmed(if flip == 1 then Flip(t) else t)
  {
    var k := 2 * i + flip;
    assert k / 2 == i && k % 2 == flip;
  }

  ghost predicate Built(grid: Grid, n: nat, kept: seq<Grid>, seen: set<string>, orientations: seq<Orientation>,
                        maxWidth: nat, maxHeight: nat)
  {
    Rectangular(grid) && |grid[0]| >= 1 && n <= 8
    && Collected(Candidates(grid)[..n], kept, seen, orientations, maxWidth, maxHeight)
  }

  lemma {:induction false} BuiltAll(grid: Grid, kept: seq<Grid>, seen: set<string>, orientations: seq<Orientation>,
                 maxWidth: nat, maxHeight: nat)
    requires Built(grid, 8, kept, seen, orientations, maxWidth, maxHeight)
    ensures orientations == Orientations(grid)
    ensures maxWidth == MaxWidth(orientations) && maxHeight == MaxHeight(orientations)
  {
    assert Candidates(grid)[..8] == Candidates(grid);
  }

  /** The state of the orientation loop after the candidates `done`. */
  ghost predicate Collected(done: seq<Grid>, kept: seq<Grid>, seen: set<string>, orientations: seq<Orientation>,
                            maxWidth: nat, maxHeight: nat)
  {
    && kept == Distinct(done) && seen == Encodings(kept)
    && orientations == seq(|kept|, k requires 0 <= k < |kept| => OrientationOf(kept[k]))
    && maxWidth == MaxWidth(orientations) && maxHeight == MaxHeight(orientations)
  }

  /** One candidate: record it when its encoding has not been seen. */
  method Consider(trimmed: Grid, ghost kept: seq<Grid>, seen: set<string>, orientations: seq<Orientation>,
                  maxWidth: nat, maxHeight: nat, ghost done: seq<Grid>)
    returns (ghost kept': seq<Grid>, seen': set<string>, orientations': seq<Orientation>, maxWidth': nat, maxHeight': nat)
    requires Collected(done, kept, seen, orientations, maxWidth, maxHeight)
    ensures Collected(done + [trimmed], kept', seen', orientations', maxWidth', maxHeight')
  {
    assert (done + [trimmed])[..|done|] == done;
    var encoded := Encode(trimmed);
    kept', seen', orientations', maxWidth', maxHeight' := kept, seen, orientations, maxWidth, maxHeight;
    if encoded !in seen {
      seen' := seen + {encoded};
      var height := |trimmed|;
      var width := if |trimmed| > 0 then |trimmed[0]| else 0;
      var cells := CollectCells(trimmed);
      maxWidth' := Max(maxWidth, width);
      maxHeight' := Max(maxHeight, height);
      orientations' := orientations + [Orientation(cells, width, height)];
      kept' := kept + [trimmed];
      assert Encodings(kept') == Encodings(kept) + {encoded};
      assert orientations'[..|orientations|] == orientations;
    }
  }

  // ---------------------------------------------------------------------------
  // Counting through a bijection
  // ---------------------------------------------------------------------------

  function MapSet(s: set<Cell>, f: Cell -> Cell): set<Cell>
  {
    set p | p in s :: f(p)
  }

  /** `f` maps `a` onto `b` and `back` maps `b` onto `a`, each undoing the other. */
  lemma SameSize(a: set<Cell>, b: set<Cell>, f: Cell -> Cell, back: Cell -> Cell)
    requires forall p :: p in a ==> f(p) in b && back(f(p)) == p
    requires forall q :: q in b ==> back(q) in a && f(back(q)) == q
    ensures |a| == |b|
  {
    forall q | q in b ensures q in MapSet(a, f) {
      assert f(back(q)) == q;
    }
    assert b == MapSet(a, f);
    ImageSize(a, f, back);
  }

  /** `back` undoes `f` on `s`, so `f` is one-to-one there. */
  ghost predicate Undoes(s: set<Cell>, f: Cell -> Cell, back: Cell -> Cell)
  {
    forall p :: p in s ==> back(f(p)) == p
  }

  /** A one-to-one image has as many elements as the set it comes from. */
  lemma {:induction false} ImageSize(s: set<Cell>, f: Cell -> Cell, back: Cell -> Cell)
    requires Undoes(s, f, back)
    ensures |MapSet(s, f)| == |s|
    decreases |s|
  {
    if s != {} {
      var p :| p in s;
      var rest := s - {p};
      ImageSize(rest, f, back);
      assert MapSet(s, f) == MapSet(rest, f) + {f(p)};
      assert f(p) !in MapSet(rest, f);
    }
  }
}
