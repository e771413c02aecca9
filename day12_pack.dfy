/** Day 12, packing: a depth-first search that places the requested presents one at a
    time, always on the first shape of a fixed order that still has presents left, and
    backs out of a placement that leads nowhere.  The board is a bit mask
    (`Day12Bits`), and every candidate position of a shape is a precomputed mask. */
module Day12Pack {
  import opened Common
  import opened Day12Bits

  /** One position of a shape on the board: the cells it covers, and how many. */
  datatype Placement = Placement(mask: Mask, cells: nat)

  // ---------------------------------------------------------------------------
  // Counts and areas
  // ---------------------------------------------------------------------------

  /** The number of presents still to place. */
  function Total(counts: seq<nat>): nat
  {
    if counts == [] then 0 else counts[0] + Total(counts[1..])
  }

  /** `Σ area · count` over the shapes and counts taken side by side (the shorter list
      decides, as `zip` does). */
  function Demand(counts: seq<nat>, areas: seq<nat>): nat
  {
    if counts == [] || areas == [] then 0
    else counts[0] * areas[0] + Demand(counts[1..], areas[1..])
  }

  /** `usize::saturating_sub`. */
  function SatSub(a: nat, b: nat): (r: nat)
    ensures r == if a >= b then a - b else 0
  {
    if a >= b then a - b else 0
  }

  lemma {:induction false} TotalDecrement(counts: seq<nat>, idx: nat)
    requires idx < |counts| && counts[idx] > 0
    ensures Total(counts[idx := counts[idx] - 1]) + 1 == Total(counts)
  {
    var rest := counts[idx := counts[idx] - 1];
    if idx > 0 {
      assert rest[1..] == counts[1..][idx - 1 := counts[idx] - 1];
      TotalDecrement(counts[1..], idx - 1);
    } else {
      assert rest[1..] == counts[1..];
    }
  }

  /** Placing one present of shape `idx` lowers the demand by that shape's area. */
  lemma {:induction false} DemandDecrement(counts: seq<nat>, areas: seq<nat>, idx: nat)
    requires idx < |counts| && idx < |areas| && counts[idx] > 0
    ensures Demand(counts[idx := counts[idx] - 1], areas) + areas[idx] == Demand(counts, areas)
  {
    var rest := counts[idx := counts[idx] - 1];
    if idx > 0 {
      assert rest[1..] == counts[1..][idx - 1 := counts[idx] - 1];
      DemandDecrement(counts[1..], areas[1..], idx - 1);
    } else {
      assert rest[1..] == counts[1..];
      assert (counts[0] - 1) * areas[0] + areas[0] == counts[0] * areas[0];
    }
  }

  /** The counts after one present of shape `idx` is placed. */
  function Decremented(counts: seq<nat>, areas: seq<nat>, idx: nat): (rest: seq<nat>)
    requires idx < |counts| && idx < |areas| && counts[idx] > 0
    ensures rest == counts[idx := counts[idx] - 1]
    ensures Demand(rest, areas) + areas[idx] == Demand(counts, areas) && Total(rest) + 1 == Total(counts)
  {
    DemandDecrement(counts, areas, idx);
    TotalDecrement(counts, idx);
    counts[idx := counts[idx] - 1]
  }

  /** Every area is at least one. */
  predicate Positive(areas: seq<nat>)
  {
    forall i :: 0 <= i < |areas| ==> areas[i] >= 1
  }

  /** With areas of at least one, no demand means no presents. */
  lemma {:induction false} NoDemand(counts: seq<nat>, areas: seq<nat>)
    requires |counts| == |areas| && Positive(areas)
    ensures Demand(counts, areas) == 0 <==> forall i :: 0 <= i < |counts| ==> counts[i] == 0
  {
    if counts != [] {
      NoDemand(counts[1..], areas[1..]);
      assert Positive(areas[1..]);
      assert forall i :: 0 <= i < |counts[1..]| ==> counts[1..][i] == counts[i + 1];
      if Demand(counts, areas) == 0 {
        assert counts[0] * areas[0] == 0;
        forall i | 1 <= i < |counts| ensures counts[i] == 0 {
          assert counts[i] == counts[1..][i - 1];
        }
      }
    }
  }

  // ---------------------------------------------------------------------------
  // The next shape to place
  // ---------------------------------------------------------------------------

  /** The search's inputs fit together: one count, one list of placements and one area
      per shape, an order of shape indices, and masks of the board's word count. */
  predicate Shaped(counts: seq<nat>, order: seq<nat>, pls: seq<seq<Placement>>, areas: seq<nat>, words: nat)
  {
    && |counts| == |pls| == |areas|
    && (forall k :: 0 <= k < |order| ==> order[k] < |counts|)
    && (forall i, k :: 0 <= i < |pls| && 0 <= k < |pls[i]| ==> |pls[i][k].mask| == words)
  }

  /** The first shape of `order` that still has presents to place. */
  function FirstPending(counts: seq<nat>, order: seq<nat>): (r: Option<nat>)
    requires forall k :: 0 <= k < |order| ==> order[k] < |counts|
    ensures r.Some? ==> r.value < |counts| && counts[r.value] > 0
  {
    if order == [] then None
    else if counts[order[0]] > 0 then Some(order[0])
    else FirstPending(counts, order[1..])
  }

  /** `FirstPending` finds the earliest entry of `order` with a positive count, and
      finds nothing exactly when every entry's count is zero. */
  lemma {:induction false} FirstPendingMeaning(counts: seq<nat>, order: seq<nat>)
    requires forall k :: 0 <= k < |order| ==> order[k] < |counts|
    ensures FirstPending(counts, order).Some? ==>
      exists k :: 0 <= k < |order| && order[k] == FirstPending(counts, order).value &&
        forall j :: 0 <= j < k ==> counts[order[j]] == 0
    ensures FirstPending(counts, order).None? <==> forall k :: 0 <= k < |order| ==> counts[order[k]] == 0
  {
    if order != [] && counts[order[0]] == 0 {
      var tail := order[1..];
      FirstPendingMeaning(counts, tail);
      if FirstPending(counts, tail).Some? {
        var k :| 0 <= k < |tail| && tail[k] == FirstPending(counts, tail).value &&
          forall j :: 0 <= j < k ==> counts[tail[j]] == 0;
        assert order[k + 1] == tail[k];
        forall j | 0 <= j < k + 1 ensures counts[order[j]] == 0 {
          if j > 0 {
            assert order[j] == tail[j - 1];
          }
        }
      } else {
        forall k | 0 <= k < |order| ensures counts[order[k]] == 0 {
          if k > 0 {
            assert order[k] == tail[k - 1];
          }
        }
      }
    }
  }

  /** The loop of `dfs_pack` that picks the shape to place. */
  method FindPending(counts: array<nat>, order: seq<nat>) returns (r: Option<nat>)
    requires forall k :: 0 <= k < |order| ==> order[k] < counts.Length
    ensures r == FirstPending(counts[..], order)
  {
    for k := 0 to |order|
      invariant FirstPending(counts[..], order) == FirstPending(counts[..], order[k..])
    {
      if counts[order[k]] > 0 {
        return Some(order[k]);
      }
      assert order[k..][1..] == order[k + 1..];
    }
    assert order[|order|..] == [];
    return None;
  }

  // ---------------------------------------------------------------------------
  // The search
  // ---------------------------------------------------------------------------

  /** What `dfs_pack` answers, from the counts still to place, the occupied words and
      the number of occupied cells.  It succeeds once nothing remains, gives up when the
      remaining area exceeds the free cells, succeeds when no shape of `order` has
      presents left, and otherwise tries the first pending shape's placements in turn. */
  function Search(counts: seq<nat>, order: seq<nat>, pls: seq<seq<Placement>>, occ: Mask,
                  occCells: nat, remaining: nat, board: nat, areas: seq<nat>): bool
    requires Shaped(counts, order, pls, areas, |occ|) && remaining == Demand(counts, areas)
    decreases Total(counts), 1, 0
  {
    if remaining == 0 then true
    else if remaining > SatSub(board, occCells) then false
    else
      match FirstPending(counts, order)
      case None => true
      case Some(idx) => TryFrom(counts, order, pls, occ, occCells, remaining, board, areas, idx, 0)
  }

  /** The placements of shape `idx` from the `k`-th on: one that overlaps the occupied
      cells is skipped; otherwise it is placed and the search goes on, and on failure the
      next placement is tried. */
  function TryFrom(counts: seq<nat>, order: seq<nat>, pls: seq<seq<Placement>>, occ: Mask,
                   occCells: nat, remaining: nat, board: nat, areas: seq<nat>, idx: nat, k: nat): bool
    requires Shaped(counts, order, pls, areas, |occ|) && remaining == Demand(counts, areas)
    requires idx < |counts| && counts[idx] > 0 && k <= |pls[idx]|
    decreases Total(counts), 0, |pls[idx]| - k
  {
    if k == |pls[idx]| then false
    else
      var p := pls[idx][k];
      if Overlaps(p.mask, occ) then
        TryFrom(counts, order, pls, occ, occCells, remaining, board, areas, idx, k + 1)
      else
        Search(Decremented(counts, areas, idx), order, pls, OrWords(occ, p.mask), occCells + p.cells, remaining - areas[idx], board, areas)
        || TryFrom(counts, order, pls, occ, occCells, remaining, board, areas, idx, k + 1)
  }

  /** `dfs_pack`: searches with the counts and the occupied words held in place (two
      distinct buffers, as two `&mut` borrows are).  On failure both are as they were; on
      success they hold the finished packing. */
  method DfsPack(counts: array<nat>, order: seq<nat>, pls: seq<seq<Placement>>, occupied: array<bv64>,
                 occCells: nat, remaining: nat, board: nat, areas: seq<nat>) returns (found: bool)
    requires Shaped(counts[..], order, pls, areas, occupied.Length) && remaining == Demand(counts[..], areas)
    requires counts as object != occupied as object
    modifies counts, occupied
    ensures found == Search(old(counts[..]), order, pls, old(occupied[..]), occCells, remaining, board, areas)
    ensures !found ==> counts[..] == old(counts[..]) && occupied[..] == old(occupied[..])
    decreases Total(counts[..]), 1
  {
    if remaining == 0 {
      return true;
    }
    if remaining > SatSub(board, occCells) {
      return false;
    }
    var pending := FindPending(counts, order);
    if pending.None? {
      return true;
    }
    var idx := pending.value;
    var shapeArea := areas[idx];
    ghost var c0, o0 := counts[..], occupied[..];
    for k := 0 to |pls[idx]|
      invariant counts[..] == c0 && occupied[..] == o0
      invariant Search(c0, order, pls, o0, occCells, remaining, board, areas) ==
                TryFrom(c0, order, pls, o0, occCells, remaining, board, areas, idx, k)
    {
      var p := pls[idx][k];
      if !Overlaps(p.mask, occupied[..]) {
        found := Place(counts, order, pls, occupied, occCells, remaining, board, areas, idx, p);
        if found {
          return;
        }
      }
    }
    return false;
  }

  /** One turn of the placement loop of `dfs_pack`: places `p`, searches on, and takes
      the placement back when the search fails. */
  method Place(counts: array<nat>, order: seq<nat>, pls: seq<seq<Placement>>, occupied: array<bv64>,
               occCells: nat, remaining: nat, board: nat, areas: seq<nat>, idx: nat, p: Placement)
    returns (found: bool)
    requires Shaped(counts[..], order, pls, areas, occupied.Length) && remaining == Demand(counts[..], areas)
    requires idx < counts.Length && counts[idx] > 0 && |p.mask| == occupied.Length
    requires !Overlaps(p.mask, occupied[..]) && counts as object != occupied as object
    modifies counts, occupied
    ensures found == Search(Decremented(old(counts[..]), areas, idx), order, pls, OrWords(old(occupied[..]), p.mask), occCells + p.cells,
                      remaining - areas[idx], board, areas)
    ensures !found ==> counts[..] == old(counts[..]) && occupied[..] == old(occupied[..])
    decreases Total(counts[..]), 0
  {
    ghost var c0, o0 := counts[..], occupied[..];
    ghost var rest := Decremented(c0, areas, idx);
    ApplyMask(occupied, p.mask);
    assert counts[..] == c0;
    counts[idx] := counts[idx] - 1;
    assert counts[..] == rest;
    found := DfsPack(counts, order, pls, occupied, occCells + p.cells, remaining - areas[idx], board, areas);
    if !found {
      counts[idx] := counts[idx] + 1;
      assert counts[..] == c0;
      RemoveMask(occupied, p.mask);
      XorRestores(o0, p.mask);
    }
  }

  // ---------------------------------------------------------------------------
  // What the search decides
  // ---------------------------------------------------------------------------

  /** A chosen placement: the shape and the position in that shape's list. */
  datatype Pick = Pick(shape: nat, index: nat)

  /** Every pick names an existing placement, and each one's cells are disjoint from
      `used` and from the cells of the picks before it. */
  ghost predicate Packs(picks: seq<Pick>, pls: seq<seq<Placement>>, used: set<nat>)
    decreases |picks|
  {
    picks == [] ||
    (var p := picks[0];
     && p.shape < |pls| && p.index < |pls[p.shape]|
     && var m := Bits(pls[p.shape][p.index].mask);
     && m * used == {}
     && Packs(picks[1..], pls, used + m))
  }

  /** How many picks are of shape `i`. */
  function Count(picks: seq<Pick>, i: nat): nat
  {
    if picks == [] then 0 else (if picks[0].shape == i then 1 else 0) + Count(picks[1..], i)
  }

  /** `picks` places exactly `counts[i]` presents of each shape `i`, without two of them
      or any of them and `used` sharing a cell. */
  ghost predicate Packing(picks: seq<Pick>, counts: seq<nat>, pls: seq<seq<Placement>>, used: set<nat>)
  {
    && Packs(picks, pls, used)
    && (forall t :: 0 <= t < |picks| ==> picks[t].shape < |counts|)
    && (forall i :: 0 <= i < |counts| ==> Count(picks, i) == counts[i])
  }

  /** Every shape index appears in `order`. */
  predicate Covers(order: seq<nat>, n: nat)
  {
    forall i :: 0 <= i < n ==> i in order
  }

  lemma EmptyPacking(counts: seq<nat>, pls: seq<seq<Placement>>, used: set<nat>)
    requires forall i :: 0 <= i < |counts| ==> counts[i] == 0
    ensures Packing([], counts, pls, used)
  {
  }

  /** When every shape is in `order` and every area is positive, a successful search
      has found a packing of all the presents into the free cells. */
  lemma {:induction false} SearchSound(counts: seq<nat>, order: seq<nat>, pls: seq<seq<Placement>>, occ: Mask,
                                       occCells: nat, remaining: nat, board: nat, areas: seq<nat>)
    returns (picks: seq<Pick>)
    requires Shaped(counts, order, pls, areas, |occ|) && remaining == Demand(counts, areas)
    requires Covers(order, |counts|) && Positive(areas)
    requires Search(counts, order, pls, occ, occCells, remaining, board, areas)
    ensures Packing(picks, counts, pls, Bits(occ))
    decreases Total(counts), 1, 0
  {
    if remaining == 0 {
      NoDemand(counts, areas);
      picks := [];
    } else {
      FirstPendingMeaning(counts, order);
      match FirstPending(counts, order)
      case None =>
        forall i | 0 <= i < |counts| ensures counts[i] == 0 {
          assert i in order;
          var k :| 0 <= k < |order| && order[k] == i;
        }
        picks := [];
      case Some(idx) =>
        picks := TryFromSound(counts, order, pls, occ, occCells, remaining, board, areas, idx, 0);
    }
  }

  lemma {:induction false} TryFromSound(counts: seq<nat>, order: seq<nat>, pls: seq<seq<Placement>>, occ: Mask,
                                        occCells: nat, remaining: nat, board: nat, areas: seq<nat>, idx: nat, k: nat)
    returns (picks: seq<Pick>)
    requires Shaped(counts, order, pls, areas, |occ|) && remaining == Demand(counts, areas)
    requires Covers(order, |counts|) && Positive(areas)
    requires idx < |counts| && counts[idx] > 0 && k <= |pls[idx]|
    requires TryFrom(counts, order, pls, occ, occCells, remaining, board, areas, idx, k)
    ensures Packing(picks, counts, pls, Bits(occ))
    decreases Total(counts), 0, |pls[idx]| - k
  {
    var p := pls[idx][k];
    var rest := Decremented(counts, areas, idx);
    var next := OrWords(occ, p.mask);
    if !Overlaps(p.mask, occ) && Search(rest, order, pls, next, occCells + p.cells, remaining - areas[idx], board, areas) {
      var tail := SearchSound(rest, order, pls, next, occCells + p.cells, remaining - areas[idx], board, areas);
      OverlapsMeaning(p.mask, occ);
      OrBits(occ, p.mask);
      picks := [Pick(idx, k)] + tail;
      assert picks[1..] == tail;
      forall i | 0 <= i < |counts| ensures Count(picks, i) == counts[i] {
        assert Count(tail, i) == rest[i];
      }
    } else {
      picks := TryFromSound(counts, order, pls, occ, occCells, remaining, board, areas, idx, k + 1);
    }
  }

  /** Every cell of `s` is one of the `n` cells of the board. */
  ghost predicate OnBoard(s: set<nat>, n: nat)
  {
    forall i :: i in s ==> i < n
  }

  /** A set of board cells has at most as many elements as the board. */
  lemma {:induction false} OnBoardSize(s: set<nat>, n: nat)
    requires OnBoard(s, n)
    ensures |s| <= n
  {
    if n > 0 {
      OnBoardSize(s - {n - 1}, n - 1);
    } else {
      assert s == {};
    }
  }

  /** Every placement lies on the board and covers exactly its shape's area. */
  ghost predicate Fits(pls: seq<seq<Placement>>, areas: seq<nat>, board: nat)
  {
    forall i, k :: 0 <= i < |pls| && 0 <= k < |pls[i]| ==>
      && OnBoard(Bits(pls[i][k].mask), board)
      && |Bits(pls[i][k].mask)| == pls[i][k].cells
      && i < |areas| && pls[i][k].cells == areas[i]
  }

  /** The summed area of the picked shapes. */
  function PickArea(picks: seq<Pick>, areas: seq<nat>): nat
  {
    if picks == [] then 0
    else (if picks[0].shape < |areas| then areas[picks[0].shape] else 0) + PickArea(picks[1..], areas)
  }

  /** Picks that fit on the board beside `used` cover no more than the board. */
  lemma {:induction false} PackedArea(picks: seq<Pick>, pls: seq<seq<Placement>>, areas: seq<nat>, board: nat, used: set<nat>)
    requires Packs(picks, pls, used) && Fits(pls, areas, board) && OnBoard(used, board)
    ensures |used| + PickArea(picks, areas) <= board
    decreases |picks|
  {
    if picks == [] {
      OnBoardSize(used, board);
    } else {
      var p := picks[0];
      var m := Bits(pls[p.shape][p.index].mask);
      assert OnBoard(used + m, board);
      assert |m * used| == 0;
      PackedArea(picks[1..], pls, areas, board, used + m);
    }
  }

  /** The picked area is the demand of the counts the picks meet. */
  lemma {:induction false} PickDemand(picks: seq<Pick>, counts: seq<nat>, areas: seq<nat>)
    requires |counts| == |areas|
    requires forall t :: 0 <= t < |picks| ==> picks[t].shape < |counts|
    requires forall i :: 0 <= i < |counts| ==> Count(picks, i) == counts[i]
    ensures PickArea(picks, areas) == Demand(counts, areas)
    decreases |picks|
  {
    if picks == [] {
      ZeroDemand(counts, areas);
    } else {
      var s := picks[0].shape;
      assert Count(picks, s) >= 1;
      var rest := Decremented(counts, areas, s);
      forall i | 0 <= i < |counts| ensures Count(picks[1..], i) == rest[i] {
      }
      forall t | 0 <= t < |picks[1..]| ensures picks[1..][t].shape < |counts| {
        assert picks[1..][t] == picks[t + 1];
      }
      PickDemand(picks[1..], rest, areas);
    }
  }

  lemma {:induction false} ZeroDemand(counts: seq<nat>, areas: seq<nat>)
    requires forall i :: 0 <= i < |counts| ==> counts[i] == 0
    ensures Demand(counts, areas) == 0
  {
    if counts != [] && areas != [] {
      assert forall i :: 0 <= i < |counts[1..]| ==> counts[1..][i] == counts[i + 1];
      ZeroDemand(counts[1..], areas[1..]);
    }
  }

  /** Some pick is of shape `i` when the count of `i` is positive. */
  lemma {:induction false} FindPick(picks: seq<Pick>, i: nat) returns (t: nat)
    requires Count(picks, i) > 0
    ensures t < |picks| && picks[t].shape == i
    decreases |picks|
  {
    if picks[0].shape == i {
      t := 0;
    } else {
      var u := FindPick(picks[1..], i);
      t := u + 1;
    }
  }

  /** The picks without the `t`-th. */
  function Remove(picks: seq<Pick>, t: nat): (r: seq<Pick>)
    requires t < |picks|
    ensures |r| == |picks| - 1
    ensures forall u :: 0 <= u < |r| ==> r[u] == if u < t then picks[u] else picks[u + 1]
  {
    picks[..t] + picks[t + 1..]
  }

  lemma {:induction false} CountRemove(picks: seq<Pick>, t: nat, i: nat)
    requires t < |picks|
    ensures Count(Remove(picks, t), i) + (if picks[t].shape == i then 1 else 0) == Count(picks, i)
    decreases |picks|
  {
    if t > 0 {
      CountRemove(picks[1..], t - 1, i);
      assert Remove(picks, t) == [picks[0]] + Remove(picks[1..], t - 1);
      assert Remove(picks, t)[1..] == Remove(picks[1..], t - 1);
    } else {
      assert Remove(picks, 0) == picks[1..];
    }
  }

  /** Any pick of a packing can go first: its cells are free, and the others pack beside
      them. */
  lemma {:induction false} PacksRemove(picks: seq<Pick>, pls: seq<seq<Placement>>, used: set<nat>, t: nat)
    requires Packs(picks, pls, used) && t < |picks|
    ensures var p := picks[t];
      && p.shape < |pls| && p.index < |pls[p.shape]|
      && var m := Bits(pls[p.shape][p.index].mask);
      && m * used == {}
      && Packs(Remove(picks, t), pls, used + m)
    decreases |picks|
  {
    if t > 0 {
      var p0 := picks[0];
      var m0 := Bits(pls[p0.shape][p0.index].mask);
      PacksRemove(picks[1..], pls, used + m0, t - 1);
      var p := picks[t];
      var m := Bits(pls[p.shape][p.index].mask);
      assert picks[1..][t - 1] == p;
      var r := Remove(picks, t);
      assert r == [p0] + Remove(picks[1..], t - 1);
      assert r[1..] == Remove(picks[1..], t - 1);
      assert used + m + m0 == used + m0 + m;
    } else {
      assert Remove(picks, 0) == picks[1..];
    }
  }

  /** A placement that leads to success makes every earlier start succeed. */
  lemma {:induction false} TryFromBack(counts: seq<nat>, order: seq<nat>, pls: seq<seq<Placement>>, occ: Mask,
                                       occCells: nat, remaining: nat, board: nat, areas: seq<nat>, idx: nat, j: nat, k: nat)
    requires Shaped(counts, order, pls, areas, |occ|) && remaining == Demand(counts, areas)
    requires idx < |counts| && counts[idx] > 0 && j <= k <= |pls[idx]|
    requires TryFrom(counts, order, pls, occ, occCells, remaining, board, areas, idx, k)
    ensures TryFrom(counts, order, pls, occ, occCells, remaining, board, areas, idx, j)
    decreases k - j
  {
    if j < k {
      TryFromBack(counts, order, pls, occ, occCells, remaining, board, areas, idx, j + 1, k);
    }
  }

  /** The search finds a packing whenever one exists: placements lie on the board and
      cover their shape's area, and the occupied cells are counted and on the board. */
  lemma {:induction false} SearchComplete(counts: seq<nat>, order: seq<nat>, pls: seq<seq<Placement>>, occ: Mask,
                                          occCells: nat, remaining: nat, board: nat, areas: seq<nat>, picks: seq<Pick>)
    requires Shaped(counts, order, pls, areas, |occ|) && remaining == Demand(counts, areas)
    requires Fits(pls, areas, board) && OnBoard(Bits(occ), board) && occCells == |Bits(occ)|
    requires Packing(picks, counts, pls, Bits(occ))
    ensures Search(counts, order, pls, occ, occCells, remaining, board, areas)
    decreases Total(counts), 1
  {
    if remaining > 0 {
      PackedArea(picks, pls, areas, board, Bits(occ));
      PickDemand(picks, counts, areas);
      match FirstPending(counts, order)
      case None =>
      case Some(idx) =>
        TryComplete(counts, order, pls, occ, occCells, remaining, board, areas, picks, idx);
    }
  }

  lemma {:induction false} TryComplete(counts: seq<nat>, order: seq<nat>, pls: seq<seq<Placement>>, occ: Mask,
                                       occCells: nat, remaining: nat, board: nat, areas: seq<nat>, picks: seq<Pick>, idx: nat)
    requires Shaped(counts, order, pls, areas, |occ|) && remaining == Demand(counts, areas)
    requires Fits(pls, areas, board) && OnBoard(Bits(occ), board) && occCells == |Bits(occ)|
    requires Packing(picks, counts, pls, Bits(occ))
    requires idx < |counts| && counts[idx] > 0
    ensures TryFrom(counts, order, pls, occ, occCells, remaining, board, areas, idx, 0)
    decreases Total(counts), 0, 1
  {
    var t := FindPick(picks, idx);
    var k := picks[t].index;
    var others := RestPacking(counts, pls, occ, areas, board, picks, t);
    var p := pls[idx][k];
    var rest := Decremented(counts, areas, idx);
    var next, left := OrWords(occ, p.mask), remaining - areas[idx];
    StepComplete(counts, order, pls, occ, occCells, remaining, board, areas, idx, k, p, rest, next, left, others);
    TryFromBack(counts, order, pls, occ, occCells, remaining, board, areas, idx, 0, k);
  }

  /** A free placement beside which the other presents pack makes its start succeed. */
  lemma {:induction false} StepComplete(counts: seq<nat>, order: seq<nat>, pls: seq<seq<Placement>>, occ: Mask,
                                        occCells: nat, remaining: nat, board: nat, areas: seq<nat>, idx: nat, k: nat,
                                        p: Placement, rest: seq<nat>, next: Mask, left: nat, others: seq<Pick>)
    requires Shaped(counts, order, pls, areas, |occ|) && remaining == Demand(counts, areas)
    requires idx < |counts| && counts[idx] > 0 && k < |pls[idx]| && p == pls[idx][k]
    requires rest == Decremented(counts, areas, idx) && next == OrWords(occ, p.mask)
    requires left + areas[idx] == remaining && !Overlaps(p.mask, occ)
    requires Fits(pls, areas, board) && OnBoard(Bits(next), board) && occCells + p.cells == |Bits(next)|
    requires Packing(others, rest, pls, Bits(next))
    ensures TryFrom(counts, order, pls, occ, occCells, remaining, board, areas, idx, k)
    decreases Total(counts), 0, 0
  {
    SearchComplete(rest, order, pls, next, occCells + p.cells, left, board, areas, others);
    TryAt(counts, order, pls, occ, occCells, remaining, board, areas, idx, k, p, rest, next, left);
  }

  /** A free placement after which the search succeeds makes its start succeed. */
  lemma TryAt(counts: seq<nat>, order: seq<nat>, pls: seq<seq<Placement>>, occ: Mask,
              occCells: nat, remaining: nat, board: nat, areas: seq<nat>, idx: nat, k: nat,
              p: Placement, rest: seq<nat>, next: Mask, left: nat)
    requires Shaped(counts, order, pls, areas, |occ|) && remaining == Demand(counts, areas)
    requires idx < |counts| && counts[idx] > 0 && k < |pls[idx]| && p == pls[idx][k]
    requires rest == Decremented(counts, areas, idx) && next == OrWords(occ, p.mask)
    requires left + areas[idx] == remaining && !Overlaps(p.mask, occ)
    requires Search(rest, order, pls, next, occCells + p.cells, left, board, areas)
    ensures TryFrom(counts, order, pls, occ, occCells, remaining, board, areas, idx, k)
  {
  }

  /** Placing the `t`-th pick first leaves a packing of the other presents, beside the
      cells now occupied. */
  lemma RestPacking(counts: seq<nat>, pls: seq<seq<Placement>>, occ: Mask, areas: seq<nat>, board: nat, picks: seq<Pick>, t: nat)
    returns (others: seq<Pick>)
    requires |counts| == |pls| == |areas|
    requires forall i, k :: 0 <= i < |pls| && 0 <= k < |pls[i]| ==> |pls[i][k].mask| == |occ|
    requires Fits(pls, areas, board) && OnBoard(Bits(occ), board)
    requires Packing(picks, counts, pls, Bits(occ)) && t < |picks|
    ensures var q := picks[t];
      && q.shape < |pls| && q.index < |pls[q.shape]| && counts[q.shape] > 0
      && var p := pls[q.shape][q.index];
      && !Overlaps(p.mask, occ)
      && OnBoard(Bits(OrWords(occ, p.mask)), board)
      && |Bits(OrWords(occ, p.mask))| == |Bits(occ)| + p.cells
      && Packing(others, Decremented(counts, areas, q.shape), pls, Bits(OrWords(occ, p.mask)))
  {
    var q := picks[t];
    PacksRemove(picks, pls, Bits(occ), t);
    CountRemove(picks, t, q.shape);
    var p := pls[q.shape][q.index];
    PlacedCells(pls, areas, board, occ, q.shape, q.index);
    others := Remove(picks, t);
    OthersCounted(counts, areas, picks, t);
  }

  /** A placement disjoint from the occupied cells adds its own cells to them. */
  lemma PlacedCells(pls: seq<seq<Placement>>, areas: seq<nat>, board: nat, occ: Mask, i: nat, k: nat)
    requires i < |pls| && k < |pls[i]| && |pls[i][k].mask| == |occ|
    requires Fits(pls, areas, board) && OnBoard(Bits(occ), board)
    requires Bits(pls[i][k].mask) * Bits(occ) == {}
    ensures var p := pls[i][k];
      && !Overlaps(p.mask, occ)
      && Bits(OrWords(occ, p.mask)) == Bits(occ) + Bits(p.mask)
      && OnBoard(Bits(OrWords(occ, p.mask)), board)
      && |Bits(OrWords(occ, p.mask))| == |Bits(occ)| + p.cells
  {
    var p := pls[i][k];
    OverlapsMeaning(p.mask, occ);
    OrBits(occ, p.mask);
  }

  /** The picks without the `t`-th meet the counts with one fewer of its shape. */
  lemma {:induction false} OthersCounted(counts: seq<nat>, areas: seq<nat>, picks: seq<Pick>, t: nat)
    requires |counts| == |areas| && t < |picks|
    requires forall u :: 0 <= u < |picks| ==> picks[u].shape < |counts|
    requires forall i :: 0 <= i < |counts| ==> Count(picks, i) == counts[i]
    ensures counts[picks[t].shape] > 0
    ensures var rest := Decremented(counts, areas, picks[t].shape);
      && (forall u :: 0 <= u < |Remove(picks, t)| ==> Remove(picks, t)[u].shape < |rest|)
      && (forall i :: 0 <= i < |rest| ==> Count(Remove(picks, t), i) == rest[i])
  {
    var s := picks[t].shape;
    CountRemove(picks, t, s);
    var rest := Decremented(counts, areas, s);
    forall i | 0 <= i < |rest| ensures Count(Remove(picks, t), i) == rest[i] {
      CountRemove(picks, t, i);
    }
  }
}
