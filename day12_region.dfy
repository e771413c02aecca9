/** Day 12, one region: the placements every shape has on its board, what it means
    for the region's presents to pack, and why the slot shortcut of `can_fit` is
    sound: when there are no more presents than boxes of the largest shape's size fit
    on the board, putting each present in a box of its own packs them all. */
module Day12Region {
  import opened Common
  import opened Day12Grid
  import opened Day12Bits
  import opened Day12Pack
  import opened Day12Place

  /** A region: the board's size and how many presents of each shape it must hold. */
  datatype Region = Region(width: nat, height: nat, counts: seq<nat>)

  // ---------------------------------------------------------------------------
  // What a region asks for
  // ---------------------------------------------------------------------------

  /** The 64-bit words a board of `board` cells needs. */
  function WordCount(board: nat): nat
  {
    (board + 63) / 64
  }

  lemma WordCountHolds(board: nat)
    ensures board <= 64 * WordCount(board) < board + 64
  {
  }

  /** The placements of every shape on a `w` by `h` board, shape by shape. */
  function AllPlacements(shapes: seq<Shape>, w: nat, h: nat): (pls: seq<seq<Placement>>)
    ensures |pls| == |shapes|
  {
    seq(|shapes|, i requires 0 <= i < |shapes| =>
      ShapePlacements(shapes[i].orientations, w, h, WordCount(w * h), shapes[i].area))
  }

  /** The area of every shape. */
  function Areas(shapes: seq<Shape>): (areas: seq<nat>)
    ensures |areas| == |shapes|
  {
    seq(|shapes|, i requires 0 <= i < |shapes| => shapes[i].area)
  }

  predicate AllWellFormed(shapes: seq<Shape>)
  {
    forall i :: 0 <= i < |shapes| ==> WellFormed(shapes[i])
  }

  /** The presents `counts` asks for can all be put down at once: each as one of its
      shape's placements in `pls`, no two sharing a cell. */
  ghost predicate PackableIn(counts: seq<nat>, pls: seq<seq<Placement>>)
  {
    exists picks :: Packing(picks, counts, pls, {})
  }

  /** The region's presents can all be put on its board at once. */
  ghost predicate Packable(w: nat, h: nat, shapes: seq<Shape>, counts: seq<nat>)
  {
    PackableIn(counts, AllPlacements(shapes, w, h))
  }

  /** The placements of well-formed shapes lie on the board, cover their shape's area
      and have the board's word count. */
  lemma AllFit(shapes: seq<Shape>, w: nat, h: nat, pls: seq<seq<Placement>>, areas: seq<nat>)
    requires AllWellFormed(shapes) && pls == AllPlacements(shapes, w, h) && areas == Areas(shapes)
    ensures Fits(pls, areas, w * h) && Positive(areas)
    ensures forall i, k :: 0 <= i < |pls| && 0 <= k < |pls[i]| ==> |pls[i][k].mask| == WordCount(w * h)
  {
    var words: nat := WordCount(w * h);
    WordCountHolds(w * h);
    forall i: nat, k: nat | i < |pls| && k < |pls[i]|
      ensures && |pls[i][k].mask| == words
              && OnBoard(Bits(pls[i][k].mask), w * h)
              && |Bits(pls[i][k].mask)| == pls[i][k].cells
              && i < |areas| && pls[i][k].cells == areas[i]
    {
      PlacementFits(shapes[i], w, h, words, pls[i], k);
    }
  }

  lemma AreasPositive(shapes: seq<Shape>)
    requires AllWellFormed(shapes)
    ensures Positive(Areas(shapes))
  {
  }

  // ---------------------------------------------------------------------------
  // The slot shortcut
  // ---------------------------------------------------------------------------

  /** Board bit `k` lies in the box with row `s.0` and column `s.1` when the board is
      cut into boxes `maxW` wide and `maxH` tall. */
  ghost predicate InSlot(k: nat, s: Cell, w: nat, maxW: nat, maxH: nat)
  {
    w > 0 && maxW > 0 && maxH > 0 && (k / w) / maxH == s.0 && (k % w) / maxW == s.1
  }

  /** Every cell of the pick's placement lies in box `s`. */
  ghost predicate PickInSlot(p: Pick, pls: seq<seq<Placement>>, s: Cell, w: nat, maxW: nat, maxH: nat)
  {
    && p.shape < |pls| && p.index < |pls[p.shape]|
    && forall k :: k in Bits(pls[p.shape][p.index].mask) ==> InSlot(k, s, w, maxW, maxH)
  }

  /** Picks in pairwise different boxes, none of which meets `used`, pack. */
  lemma {:induction false} BoxedPacks(picks: seq<Pick>, pls: seq<seq<Placement>>, used: set<nat>, slots: seq<Cell>,
                                      w: nat, maxW: nat, maxH: nat)
    requires |slots| == |picks|
    requires forall t :: 0 <= t < |picks| ==> PickInSlot(picks[t], pls, slots[t], w, maxW, maxH)
    requires forall t, u :: 0 <= t < u < |slots| ==> slots[t] != slots[u]
    requires forall k, t :: k in used && 0 <= t < |slots| ==> !InSlot(k, slots[t], w, maxW, maxH)
    ensures Packs(picks, pls, used)
    decreases |picks|
  {
    if picks != [] {
      var p := picks[0];
      assert PickInSlot(p, pls, slots[0], w, maxW, maxH);
      var m := Bits(pls[p.shape][p.index].mask);
      assert m * used == {} by {
        forall k | k in m ensures k !in used {
          assert InSlot(k, slots[0], w, maxW, maxH);
        }
      }
      var rest, others := picks[1..], slots[1..];
      forall t | 0 <= t < |rest| ensures PickInSlot(rest[t], pls, others[t], w, maxW, maxH) {
        assert rest[t] == picks[t + 1] && others[t] == slots[t + 1];
      }
      forall k, t | k in used + m && 0 <= t < |others| ensures !InSlot(k, others[t], w, maxW, maxH) {
        assert others[t] == slots[t + 1];
        if k in m {
          assert InSlot(k, slots[0], w, maxW, maxH);
        }
      }
      BoxedPacks(rest, pls, used + m, others, w, maxW, maxH);
    }
  }

  /** `q < n / m` leaves room for a whole box of size `m` after `q` of them. */
  lemma BoxRoom(q: nat, m: nat, n: nat)
    requires m >= 1 && q < n / m
    ensures q * m + m <= n
  {
    assert n == m * (n / m) + n % m;
    MulGap(m, q, n / m);
  }

  /** A cell of an orientation placed at the corner of box `s` lies in that box, when the
      orientation fits a box and the box lies on the board. */
  lemma CellInSlot(o: Orientation, s: Cell, w: nat, maxW: nat, maxH: nat, c: Cell)
    requires Framed(o) && c in o.cells && o.width <= maxW && o.height <= maxH
    requires maxW >= 1 && maxH >= 1 && s.1 * maxW + maxW <= w
    ensures InSlot(CellIndex(c, s.1 * maxW, s.0 * maxH, w), s, w, maxW, maxH)
  {
    var x, y := s.1 * maxW, s.0 * maxH;
    var i :| 0 <= i < |o.cells| && o.cells[i] == c;
    var row, col := y + c.0, x + c.1;
    RowStartProduct(row, w);
    var k := CellIndex(c, x, y, w);
    assert k == w * row + col;
    DivModUnique(k, w, row, col);
    DivModUnique(row, maxH, s.0, c.0);
    DivModUnique(col, maxW, s.1, c.1);
  }

  /** The placement of shape `i`'s first orientation at the corner of box `s`. */
  lemma SlotPlacement(shapes: seq<Shape>, w: nat, h: nat, maxW: nat, maxH: nat, pls: seq<seq<Placement>>,
                      i: nat, s: Cell) returns (k: nat)
    requires AllWellFormed(shapes) && pls == AllPlacements(shapes, w, h) && i < |shapes|
    requires maxW >= 1 && maxH >= 1 && shapes[i].maxWidth <= maxW && shapes[i].maxHeight <= maxH
    requires s.0 < h / maxH && s.1 < w / maxW
    ensures PickInSlot(Pick(i, k), pls, s, w, maxW, maxH)
  {
    var shape := shapes[i];
    var os, words := shape.orientations, WordCount(w * h);
    assert WellFormed(shape);
    var o := os[0];
    MaxWidthMeaning(os);
    MaxHeightMeaning(os);
    var x, y := s.1 * maxW, s.0 * maxH;
    BoxRoom(s.1, maxW, w);
    BoxRoom(s.0, maxH, h);
    assert OnBoardAt(o, x, y, w, h);
    ShapeAt(os, w, h, words, shape.area, 0, x, y);
    var p := Placed(o, x, y, w, words, shape.area);
    k :| 0 <= k < |pls[i]| && pls[i][k] == p;
    WordCountHolds(w * h);
    AtFits(o, x, y, w, h, words, shape.area);
    LandingInSlot(o, s, w, maxW, maxH);
  }

  /** Every bit an orientation lands on at the corner of box `s` lies in that box. */
  lemma LandingInSlot(o: Orientation, s: Cell, w: nat, maxW: nat, maxH: nat)
    requires Framed(o) && o.width <= maxW && o.height <= maxH
    requires maxW >= 1 && maxH >= 1 && s.1 * maxW + maxW <= w
    ensures forall b :: b in Landing(o.cells, s.1 * maxW, s.0 * maxH, w) ==> InSlot(b, s, w, maxW, maxH)
  {
    forall b | b in Landing(o.cells, s.1 * maxW, s.0 * maxH, w) ensures InSlot(b, s, w, maxW, maxH) {
      var c :| c in o.cells && b == CellIndex(c, s.1 * maxW, s.0 * maxH, w);
      CellInSlot(o, s, w, maxW, maxH, c);
    }
  }

  /** `counts[j]` copies of shape `base + j`, shape after shape. */
  function PresentsFrom(counts: seq<nat>, base: nat): (r: seq<nat>)
    ensures |r| == Total(counts)
    ensures forall t :: 0 <= t < |r| ==> base <= r[t] < base + |counts|
  {
    if counts == [] then [] else seq(counts[0], _ => base) + PresentsFrom(counts[1..], base + 1)
  }

  /** How often `i` occurs in `s`. */
  function Occurrences(s: seq<nat>, i: nat): nat
  {
    if s == [] then 0 else (if s[0] == i then 1 else 0) + Occurrences(s[1..], i)
  }

  lemma {:induction false} OccurrencesAppend(a: seq<nat>, b: seq<nat>, i: nat)
    ensures Occurrences(a + b, i) == Occurrences(a, i) + Occurrences(b, i)
    decreases |a|
  {
    if a != [] {
      assert (a + b)[0] == a[0] && (a + b)[1..] == a[1..] + b;
      OccurrencesAppend(a[1..], b, i);
    } else {
      assert a + b == b;
    }
  }

  lemma {:induction false} OccurrencesRepeat(n: nat, v: nat, i: nat)
    ensures Occurrences(seq(n, _ => v), i) == if v == i then n else 0
  {
    if n > 0 {
      assert seq(n, _ => v)[1..] == seq(n - 1, _ => v);
      OccurrencesRepeat(n - 1, v, i);
    }
  }

  /** Each shape occurs as often among the presents as the region asks for. */
  lemma {:induction false} PresentsCount(counts: seq<nat>, base: nat, i: nat)
    ensures Occurrences(PresentsFrom(counts, base), i) == if base <= i < base + |counts| then counts[i - base] else 0
    decreases |counts|
  {
    if counts != [] {
      OccurrencesAppend(seq(counts[0], _ => base), PresentsFrom(counts[1..], base + 1), i);
      OccurrencesRepeat(counts[0], base, i);
      PresentsCount(counts[1..], base + 1, i);
    }
  }

  /** Picks that follow the presents one for one count the same shapes. */
  lemma {:induction false} PickCounts(picks: seq<Pick>, presents: seq<nat>, i: nat)
    requires |picks| == |presents| && forall t :: 0 <= t < |picks| ==> picks[t].shape == presents[t]
    ensures Count(picks, i) == Occurrences(presents, i)
    decreases |picks|
  {
    if picks != [] {
      PickCounts(picks[1..], presents[1..], i);
    }
  }

  /** `GridCorners(m, c)` holds `m * c` corners. */
  lemma {:induction false} GridCornersSize(m: nat, c: nat)
    ensures |GridCorners(m, c)| == RowStart(m, c)
  {
    if m > 0 {
      GridCornersSize(m - 1, c);
    }
  }

  /** One pick per present, each in the box of the same position among `slots`. */
  lemma SlotPicks(shapes: seq<Shape>, w: nat, h: nat, maxW: nat, maxH: nat, pls: seq<seq<Placement>>,
                  presents: seq<nat>, slots: seq<Cell>) returns (picks: seq<Pick>)
    requires AllWellFormed(shapes) && pls == AllPlacements(shapes, w, h) && maxW >= 1 && maxH >= 1
    requires forall i :: 0 <= i < |shapes| ==> shapes[i].maxWidth <= maxW && shapes[i].maxHeight <= maxH
    requires |slots| == |presents| && forall t :: 0 <= t < |presents| ==> presents[t] < |shapes|
    requires forall t :: 0 <= t < |slots| ==> slots[t].0 < h / maxH && slots[t].1 < w / maxW
    ensures |picks| == |presents|
    ensures forall t :: 0 <= t < |picks| ==> picks[t].shape == presents[t]
    ensures forall t :: 0 <= t < |picks| ==> PickInSlot(picks[t], pls, slots[t], w, maxW, maxH)
  {
    picks := [];
    for t := 0 to |presents|
      invariant |picks| == t
      invariant forall u :: 0 <= u < t ==> picks[u].shape == presents[u]
      invariant forall u :: 0 <= u < t ==> PickInSlot(picks[u], pls, slots[u], w, maxW, maxH)
    {
      var k := SlotPlacement(shapes, w, h, maxW, maxH, pls, presents[t], slots[t]);
      var picks' := picks + [Pick(presents[t], k)];
      forall u | 0 <= u < t + 1
        ensures picks'[u].shape == presents[u] && PickInSlot(picks'[u], pls, slots[u], w, maxW, maxH)
      {
        if u < t {
          assert picks'[u] == picks[u];
        }
      }
      picks := picks';
    }
  }

  /** The first `n` boxes in reading order are distinct boxes of the board. */
  lemma FirstSlots(rows: nat, cols: nat, n: nat) returns (slots: seq<Cell>)
    requires n <= cols * rows
    ensures |slots| == n
    ensures forall t :: 0 <= t < n ==> slots[t].0 < rows && slots[t].1 < cols
    ensures forall t, u :: 0 <= t < u < n ==> slots[t] != slots[u]
  {
    var all := GridCorners(rows, cols);
    GridCornersSize(rows, cols);
    RowStartProduct(rows, cols);
    assert rows * cols == cols * rows;
    GridCornersMeaning(rows, cols);
    slots := all[..n];
    forall t | 0 <= t < n ensures slots[t].0 < rows && slots[t].1 < cols {
      assert slots[t] == all[t] && all[t] in all;
    }
    forall t, u | 0 <= t < u < n ensures slots[t] != slots[u] {
      assert slots[t] == all[t] && slots[u] == all[u];
      assert Before(all[t], all[u]);
    }
  }

  /** The slot shortcut is sound: no more presents than boxes of the largest size means
      each present goes into a box of its own, in its shape's first orientation. */
  lemma {:induction false} SlotsSuffice(shapes: seq<Shape>, w: nat, h: nat, counts: seq<nat>, maxW: nat, maxH: nat)
    requires AllWellFormed(shapes) && |counts| == |shapes| && maxW >= 1 && maxH >= 1
    requires forall i :: 0 <= i < |shapes| ==> shapes[i].maxWidth <= maxW && shapes[i].maxHeight <= maxH
    requires Total(counts) <= (w / maxW) * (h / maxH)
    ensures Packable(w, h, shapes, counts)
  {
    var pls := AllPlacements(shapes, w, h);
    var presents := PresentsFrom(counts, 0);
    NatDiv(h, maxH);
    NatDiv(w, maxW);
    var slots := FirstSlots(h / maxH, w / maxW, |presents|);
    var picks := SlotPicks(shapes, w, h, maxW, maxH, pls, presents, slots);
    SlotPacking(picks, presents, slots, counts, pls, w, maxW, maxH);
  }

  /** Picks for the presents, in boxes of their own, pack them all. */
  lemma {:induction false} SlotPacking(picks: seq<Pick>, presents: seq<nat>, slots: seq<Cell>, counts: seq<nat>,
                    pls: seq<seq<Placement>>, w: nat, maxW: nat, maxH: nat)
    requires presents == PresentsFrom(counts, 0) && |slots| == |picks| == |presents|
    requires forall t :: 0 <= t < |picks| ==> picks[t].shape == presents[t]
    requires forall t :: 0 <= t < |picks| ==> PickInSlot(picks[t], pls, slots[t], w, maxW, maxH)
    requires forall t, u :: 0 <= t < u < |slots| ==> slots[t] != slots[u]
    ensures PackableIn(counts, pls)
  {
    BoxedPacks(picks, pls, {}, slots, w, maxW, maxH);
    SlotCounts(picks, presents, counts);
    assert Packing(picks, counts, pls, {});
  }

  /** Picks that follow the presents pick each shape as often as the region asks. */
  lemma {:induction false} SlotCounts(picks: seq<Pick>, presents: seq<nat>, counts: seq<nat>)
    requires presents == PresentsFrom(counts, 0) && |picks| == |presents|
    requires forall t :: 0 <= t < |picks| ==> picks[t].shape == presents[t]
    ensures forall t :: 0 <= t < |picks| ==> picks[t].shape < |counts|
    ensures forall i :: 0 <= i < |counts| ==> Count(picks, i) == counts[i]
  {
    forall i | 0 <= i < |counts| ensures Count(picks, i) == counts[i] {
      SlotCount(picks, presents, counts, i);
    }
  }

  lemma {:induction false} SlotCount(picks: seq<Pick>, presents: seq<nat>, counts: seq<nat>, i: nat)
    requires presents == PresentsFrom(counts, 0) && |picks| == |presents| && i < |counts|
    requires forall t :: 0 <= t < |picks| ==> picks[t].shape == presents[t]
    ensures Count(picks, i) == counts[i]
  {
    PickCounts(picks, presents, i);
    PresentsCount(counts, 0, i);
  }
}
