/** Day 12: which regions under the tree can hold their presents.  A region is a
    `width` by `height` board and a count of presents per shape; it passes when every
    present can be put down as one of its shape's orientations, on the board, with no
    two presents sharing a cell. */
module Day12 {
  import opened Common
  import opened Sorting
  import opened Day12Grid
  import opened Day12Bits
  import opened Day12Pack
  import opened Day12Place
  import opened Day12Region
  import opened Day12Parse

  /** Every pick of a packing names an existing placement. */
  lemma {:induction false} PicksExist(picks: seq<Pick>, pls: seq<seq<Placement>>, used: set<nat>, t: nat)
    requires Packs(picks, pls, used) && t < |picks|
    ensures picks[t].shape < |pls| && picks[t].index < |pls[picks[t].shape]|
    decreases t
  {
    if t > 0 {
      var p := picks[0];
      PicksExist(picks[1..], pls, used + Bits(pls[p.shape][p.index].mask), t - 1);
    }
  }

  /** A present whose shape has no placement cannot be packed. */
  lemma Unplaceable(counts: seq<nat>, pls: seq<seq<Placement>>, idx: nat)
    requires idx < |counts| && counts[idx] > 0 && idx < |pls| && pls[idx] == []
    ensures !PackableIn(counts, pls)
  {
    if PackableIn(counts, pls) {
      var picks :| Packing(picks, counts, pls, {});
      var t := FindPick(picks, idx);
      PicksExist(picks, pls, {}, t);
    }
  }

  /** A present demand larger than the board cannot be packed. */
  lemma {:induction false} TooLarge(counts: seq<nat>, pls: seq<seq<Placement>>, areas: seq<nat>, board: nat)
    requires |counts| == |areas| && Fits(pls, areas, board)
    requires Demand(counts, areas) > board
    ensures !PackableIn(counts, pls)
  {
    if PackableIn(counts, pls) {
      var picks :| Packing(picks, counts, pls, {});
      PackedArea(picks, pls, areas, board, {});
      PickDemand(picks, counts, areas);
    }
  }

  /** With nothing to place the region trivially passes. */
  lemma NothingToPlace(counts: seq<nat>, pls: seq<seq<Placement>>)
    requires forall i :: 0 <= i < |counts| ==> counts[i] == 0
    ensures PackableIn(counts, pls)
  {
    EmptyPacking(counts, pls, {});
  }

  // ---------------------------------------------------------------------------
  // `can_fit_exact`
  // ---------------------------------------------------------------------------

  /** The number of placements of shape `i`. */
  function PlacementCount(pls: seq<seq<Placement>>, i: nat): int
  {
    if i < |pls| then |pls[i]| else 0
  }

  /** `(0..n).collect()`. */
  function Ids(n: nat): (ids: seq<nat>)
    ensures |ids| == n && forall i :: 0 <= i < n ==> ids[i] == i
  {
    seq(n, i => i)
  }

  /** Every element of a permutation of `0..n` is below `n`, and every index below `n`
      is one of its elements. */
  lemma PermutedIds(order: seq<nat>, n: nat)
    requires multiset(order) == multiset(Ids(n))
    ensures forall k :: 0 <= k < |order| ==> order[k] < n
    ensures Covers(order, n)
  {
    var ids := Ids(n);
    forall k | 0 <= k < |order| ensures order[k] < n {
      assert order[k] in multiset(order);
      assert order[k] in multiset(ids);
      var j :| 0 <= j < |ids| && ids[j] == order[k];
    }
    forall i | 0 <= i < n ensures i in order {
      assert ids[i] == i;
      assert i in multiset(ids);
      assert i in multiset(order);
    }
  }

  /** The shapes in order of their number of placements (`sort_by_key`). */
  function SearchOrder(pls: seq<seq<Placement>>): (order: seq<nat>)
    ensures forall k :: 0 <= k < |order| ==> order[k] < |pls|
    ensures Covers(order, |pls|)
  {
    var order := SortBy(Ids(|pls|), i => PlacementCount(pls, i));
    PermutedIds(order, |pls|);
    order
  }

  /** The placements of one more shape extend the placements of those before it. */
  lemma {:induction false} AllPlacementsSnoc(shapes: seq<Shape>, w: nat, h: nat, i: nat, list: seq<Placement>)
    requires i < |shapes|
    requires list == ShapePlacements(shapes[i].orientations, w, h, WordCount(w * h), shapes[i].area)
    ensures AllPlacements(shapes[..i + 1], w, h) == AllPlacements(shapes[..i], w, h) + [list]
    ensures Areas(shapes[..i + 1]) == Areas(shapes[..i]) + [shapes[i].area]
  {
  }

  /** The placements of every shape, built shape by shape. */
  method BuildAll(shapes: seq<Shape>, w: nat, h: nat, words: nat) returns (pls: seq<seq<Placement>>, areas: seq<nat>)
    requires AllWellFormed(shapes) && words == WordCount(w * h)
    ensures pls == AllPlacements(shapes, w, h) && areas == Areas(shapes)
  {
    WordCountHolds(w * h);
    pls, areas := [], [];
    for i := 0 to |shapes|
      invariant pls == AllPlacements(shapes[..i], w, h) && areas == Areas(shapes[..i])
    {
      var list := BuildPlacements(shapes[i], w, h, words);
      AllPlacementsSnoc(shapes, w, h, i, list);
      pls := pls + [list];
      areas := areas + [shapes[i].area];
    }
    assert shapes[..|shapes|] == shapes;
  }

  /** The first shape that has presents to place but no placement. */
  method FindUnplaceable(counts: seq<nat>, pls: seq<seq<Placement>>) returns (r: Option<nat>)
    requires |counts| <= |pls|
    ensures r.Some? ==> r.value < |counts| && counts[r.value] > 0 && pls[r.value] == []
    ensures r.None? ==> forall i :: 0 <= i < |counts| && counts[i] > 0 ==> pls[i] != []
  {
    for idx := 0 to |counts|
      invariant forall i :: 0 <= i < idx && counts[i] > 0 ==> pls[i] != []
    {
      if counts[idx] > 0 && pls[idx] == [] {
        return Some(idx);
      }
    }
    return None;
  }

  /** The search from an empty board decides whether the presents pack. */
  lemma {:induction false} SearchDecides(counts: seq<nat>, order: seq<nat>, pls: seq<seq<Placement>>, areas: seq<nat>,
                      board: nat, words: nat, totalArea: nat)
    requires Shaped(counts, order, pls, areas, words) && Covers(order, |counts|)
    requires Fits(pls, areas, board) && Positive(areas) && totalArea == Demand(counts, areas)
    ensures Search(counts, order, pls, Zeros(words), 0, totalArea, board, areas) <==> PackableIn(counts, pls)
  {
    ZerosEmpty(words);
    if Search(counts, order, pls, Zeros(words), 0, totalArea, board, areas) {
      var picks := SearchSound(counts, order, pls, Zeros(words), 0, totalArea, board, areas);
    }
    if PackableIn(counts, pls) {
      var picks :| Packing(picks, counts, pls, {});
      SearchComplete(counts, order, pls, Zeros(words), 0, totalArea, board, areas, picks);
    }
  }

  /** `can_fit_exact`: build every shape's placements, give up at once when a needed
      shape has none, and otherwise search shapes in order of fewest placements. */
  method CanFitExact(w: nat, h: nat, shapes: seq<Shape>, counts: seq<nat>, totalArea: nat) returns (ok: bool)
    requires |counts| == |shapes| && AllWellFormed(shapes)
    requires totalArea == Demand(counts, Areas(shapes))
    ensures ok <==> Packable(w, h, shapes, counts)
  {
    var board := w * h;
    if totalArea == 0 {
      AreasPositive(shapes);
      NoDemand(counts, Areas(shapes));
      NothingToPlace(counts, AllPlacements(shapes, w, h));
      return true;
    }
    var words := (board + 63) / 64;
    var pls, areas := BuildAll(shapes, w, h, words);
    AllFit(shapes, w, h, pls, areas);
    ok := SearchPlacements(counts, pls, areas, board, words, totalArea);
  }

  /** The part of `can_fit_exact` after the placements are built. */
  method SearchPlacements(counts: seq<nat>, pls: seq<seq<Placement>>, areas: seq<nat>, board: nat, words: nat,
                          totalArea: nat) returns (ok: bool)
    requires |counts| == |pls| == |areas| && Fits(pls, areas, board) && Positive(areas)
    requires forall i, k :: 0 <= i < |pls| && 0 <= k < |pls[i]| ==> |pls[i][k].mask| == words
    requires totalArea == Demand(counts, areas)
    ensures ok <==> PackableIn(counts, pls)
  {
    var missing := FindUnplaceable(counts, pls);
    if missing.Some? {
      Unplaceable(counts, pls, missing.value);
      return false;
    }
    var order := SearchOrder(pls);
    SearchDecides(counts, order, pls, areas, board, words, totalArea);
    var left := new nat[|counts|](i requires 0 <= i < |counts| => counts[i]);
    var occupied := new bv64[words](_ => 0);
    assert left[..] == counts;
    assert occupied[..] == Zeros(words);
    ok := DfsPack(left, order, pls, occupied, 0, totalArea, board, areas);
  }

  // ---------------------------------------------------------------------------
  // `max_shape_dims` and `can_fit`
  // ---------------------------------------------------------------------------

  /** The largest `max_width` and `max_height` over the shapes, from `(0, 0)`. */
  function MaxDims(shapes: seq<Shape>): (nat, nat)
  {
    if shapes == [] then (0, 0)
    else
      var d := MaxDims(shapes[..|shapes| - 1]);
      var last := shapes[|shapes| - 1];
      (Max(d.0, last.maxWidth), Max(d.1, last.maxHeight))
  }

  /** `MaxDims` bounds every shape and is reached by one, so for well-formed shapes it
      is at least one in each direction. */
  lemma {:induction false} MaxDimsMeaning(shapes: seq<Shape>)
    ensures forall i :: 0 <= i < |shapes| ==>
      shapes[i].maxWidth <= MaxDims(shapes).0 && shapes[i].maxHeight <= MaxDims(shapes).1
    ensures shapes != [] ==>
      (exists i :: 0 <= i < |shapes| && shapes[i].maxWidth == MaxDims(shapes).0) &&
      (exists i :: 0 <= i < |shapes| && shapes[i].maxHeight == MaxDims(shapes).1)
    decreases |shapes|
  {
    if shapes != [] {
      var front := shapes[..|shapes| - 1];
      MaxDimsMeaning(front);
      assert forall i :: 0 <= i < |front| ==> front[i] == shapes[i];
      var n := |shapes| - 1;
      if front != [] && MaxDims(front).0 >= shapes[n].maxWidth {
        var i :| 0 <= i < |front| && front[i].maxWidth == MaxDims(front).0;
        assert shapes[i].maxWidth == MaxDims(shapes).0;
      } else {
        assert shapes[n].maxWidth == MaxDims(shapes).0;
      }
      if front != [] && MaxDims(front).1 >= shapes[n].maxHeight {
        var i :| 0 <= i < |front| && front[i].maxHeight == MaxDims(front).1;
        assert shapes[i].maxHeight == MaxDims(shapes).1;
      } else {
        assert shapes[n].maxHeight == MaxDims(shapes).1;
      }
    }
  }

  /** A well-formed shape is at least one cell wide and tall. */
  lemma ShapeExtent(s: Shape)
    requires WellFormed(s)
    ensures s.maxWidth >= 1 && s.maxHeight >= 1
  {
    var o := s.orientations[0];
    MaxWidthMeaning(s.orientations);
    MaxHeightMeaning(s.orientations);
    assert o.cells[0].0 < o.height && o.cells[0].1 < o.width;
  }

  /** Over well-formed shapes, `MaxDims` is at least one in both directions and bounds
      every shape. */
  lemma {:induction false} DimsFit(shapes: seq<Shape>)
    requires AllWellFormed(shapes) && shapes != []
    ensures MaxDims(shapes).0 >= 1 && MaxDims(shapes).1 >= 1
    ensures forall i :: 0 <= i < |shapes| ==>
      shapes[i].maxWidth <= MaxDims(shapes).0 && shapes[i].maxHeight <= MaxDims(shapes).1
  {
    MaxDimsMeaning(shapes);
    var i :| 0 <= i < |shapes| && shapes[i].maxWidth == MaxDims(shapes).0;
    var j :| 0 <= j < |shapes| && shapes[j].maxHeight == MaxDims(shapes).1;
    ShapeExtent(shapes[i]);
    ShapeExtent(shapes[j]);
  }

  /** No presents at all is the same as a zero count for every shape. */
  lemma {:induction false} TotalZero(counts: seq<nat>)
    ensures Total(counts) == 0 <==> forall i :: 0 <= i < |counts| ==> counts[i] == 0
  {
    if counts != [] {
      TotalZero(counts[1..]);
      assert forall i :: 0 <= i < |counts[1..]| ==> counts[1..][i] == counts[i + 1];
    }
  }

  /** `can_fit`: too much area fails, nothing to place passes, no more presents than
      boxes of the largest shape's size passes, and otherwise the exact search decides. */
  method CanFit(region: Region, shapes: seq<Shape>, maxW: nat, maxH: nat) returns (ok: bool)
    requires AllWellFormed(shapes) && shapes != [] && |region.counts| == |shapes|
    requires (maxW, maxH) == MaxDims(shapes)
    ensures ok <==> Packable(region.width, region.height, shapes, region.counts)
  {
    var w, h, counts := region.width, region.height, region.counts;
    var totalArea := Demand(counts, Areas(shapes));
    var board := w * h;
    if totalArea > board {
      AllFit(shapes, w, h, AllPlacements(shapes, w, h), Areas(shapes));
      TooLarge(counts, AllPlacements(shapes, w, h), Areas(shapes), board);
      return false;
    }
    var totalShapes := Total(counts);
    if totalShapes == 0 {
      TotalZero(counts);
      NothingToPlace(counts, AllPlacements(shapes, w, h));
      return true;
    }
    DimsFit(shapes);
    var slots := (w / maxW) * (h / maxH);
    if totalShapes <= slots {
      SlotsSuffice(shapes, w, h, counts, maxW, maxH);
      return true;
    }
    ok := CanFitExact(w, h, shapes, counts, totalArea);
  }

  // ---------------------------------------------------------------------------
  // Part 1
  // ---------------------------------------------------------------------------

  /** How many of the regions can hold their presents. */
  ghost function Passing(shapes: seq<Shape>, regions: seq<Region>): (n: nat)
    ensures n <= |regions|
  {
    if regions == [] then 0
    else
      var last := regions[|regions| - 1];
      Passing(shapes, regions[..|regions| - 1])
        + (if Packable(last.width, last.height, shapes, last.counts) then 1 else 0)
  }

  /** Counting one more region adds 1 exactly when it can hold its presents. */
  lemma PassingStep(shapes: seq<Shape>, regions: seq<Region>, k: nat)
    requires k < |regions|
    ensures Passing(shapes, regions[..k + 1])
              == Passing(shapes, regions[..k])
                 + (if Packable(regions[k].width, regions[k].height, shapes, regions[k].counts) then 1 else 0)
  {
    assert regions[..k + 1][..k] == regions[..k];
  }

  /** `part1`: a parse error, or the number of regions that can hold their presents.
      The source answers 0 when there are no shapes; a successful parse always has one
      (`ParseMeaning`), so that branch is not modelled. */
  method Part1(input: string) returns (r: Result<nat, ParseError>)
    ensures Parse(input).Err? ==> r == Err(Parse(input).error)
    ensures Parse(input).Ok? ==> r == Ok(Passing(Parse(input).value.0, Parse(input).value.1))
  {
    var parsed := ParseInput(input);
    if parsed.Err? {
      return Err(parsed.error);
    }
    ParseMeaning(input);
    var ok := CountPassing(parsed.value.0, parsed.value.1);
    return Ok(ok);
  }

  /** The loop of `part1` over the parsed regions. */
  method CountPassing(shapes: seq<Shape>, regions: seq<Region>) returns (ok: nat)
    requires AllWellFormed(shapes) && |shapes| >= 1
    requires forall k :: 0 <= k < |regions| ==> |regions[k].counts| == |shapes|
    ensures ok == Passing(shapes, regions)
  {
    var dims := MaxDims(shapes);
    ok := 0;
    for k := 0 to |regions|
      invariant ok == Passing(shapes, regions[..k])
    {
      var fits := CanFit(regions[k], shapes, dims.0, dims.1);
      PassingStep(shapes, regions, k);
      if fits {
        ok := ok + 1;
      }
    }
    assert regions[..|regions|] == regions;
  }
}
