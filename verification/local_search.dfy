/** `simple_pack_with_steps` of `local_search_algorithm.py`: items are taken in order; each
    unplaced one goes to the first candidate position, at the height of the items under its
    footprint, in the first rotation that fits the bin and overlaps no item packed so far.
    Candidate positions are skipped only when they lie at or beyond the far walls, so the
    near walls are respected only as long as no extent is negative. */
module LocalSearch {
  import opened Wrappers
  import opened Rows

  datatype Bin = Bin(l: int, w: int, h: int)

  /** How many rotation ids are tried: two with the axis locked, six otherwise. */
  function MaxRotations(lockAxis: bool): nat
  {
    if lockAxis then 2 else 6
  }

  /** `positions_to_try`: the corner, then for each packed item the cells right of it, behind
      it and at its far corner. */
  function PositionsToTry(packed: seq<Row>, lockAxis: bool): (ps: seq<(int, int)>)
    ensures |ps| == 1 + 3 * |packed|
    ensures ps[0] == (0, 0)
  {
    if |packed| == 0 then [(0, 0)]
    else
      var n := |packed| - 1;
      var p := packed[n];
      var d := Extent(p, lockAxis);
      assert forall k :: 0 <= k < n ==> packed[..n][k] == packed[k];
      PositionsToTry(packed[..n], lockAxis) + [(p.x + d.l, p.y), (p.x, p.y + d.w), (p.x + d.l, p.y + d.w)]
  }

  /** After the corner come, for the `k`-th packed item, the cells right of it, behind it and
      at its far corner, measured with its rotated extent. */
  lemma {:induction false} PositionsNextToPacked(packed: seq<Row>, lockAxis: bool, k: nat)
    requires k < |packed|
    ensures var ps := PositionsToTry(packed, lockAxis);
            var d := Extent(packed[k], lockAxis);
            && ps[1 + 3 * k] == (packed[k].x + d.l, packed[k].y)
            && ps[2 + 3 * k] == (packed[k].x, packed[k].y + d.w)
            && ps[3 + 3 * k] == (packed[k].x + d.l, packed[k].y + d.w)
  {
    var n := |packed| - 1;
    if k < n {
      PositionsNextToPacked(packed[..n], lockAxis, k);
      assert packed[..n][k] == packed[k];
    }
  }

  /** The footprint of `item` at (`px`, `py`), taken UNROTATED as the source does, meets the
      rotated footprint of the packed row `p`. */
  predicate UnderFootprint(item: Row, px: int, py: int, p: Row, lockAxis: bool)
  {
    var d := Extent(p, lockAxis);
    px < p.x + d.l && px + item.l > p.x && py < p.y + d.w && py + item.w > p.y
  }

  /** `pos_z`: the highest top among the packed rows under the footprint, and 0 on the floor. */
  function RestingHeight(item: Row, px: int, py: int, packed: seq<Row>, lockAxis: bool): (z: int)
    ensures z >= 0
    ensures forall k :: 0 <= k < |packed| && UnderFootprint(item, px, py, packed[k], lockAxis) ==>
              z >= packed[k].z + Extent(packed[k], lockAxis).h
  {
    if |packed| == 0 then 0
    else
      var n := |packed| - 1;
      var z := RestingHeight(item, px, py, packed[..n], lockAxis);
      var p := packed[n];
      assert forall k :: 0 <= k < n ==> packed[..n][k] == packed[k];
      if UnderFootprint(item, px, py, p, lockAxis) && p.z + Extent(p, lockAxis).h > z
      then p.z + Extent(p, lockAxis).h else z
  }

  /** The box of extent `d` at (`px`, `py`, `pz`) stays under the far walls and the lid. */
  predicate FitsBin(px: int, py: int, pz: int, d: Dims, bin: Bin)
  {
    px + d.l <= bin.l && py + d.w <= bin.w && pz + d.h <= bin.h
  }

  /** The box overlaps none of the packed rows. */
  predicate Clear(b: Box, packed: seq<Row>, lockAxis: bool)
  {
    forall k :: 0 <= k < |packed| ==> !Overlap(b, BoxOf(packed[k], lockAxis))
  }

  /** The first rotation id from `r` on that fits the bin and is clear of the packed rows. */
  function FirstRotation(item: Row, px: int, py: int, pz: int, packed: seq<Row>, bin: Bin, lockAxis: bool, r: nat): (found: Option<nat>)
    requires r <= MaxRotations(lockAxis)
    ensures found.Some? ==>
              var d := Rotate(Dims(item.l, item.w, item.h), found.value, lockAxis);
              && r <= found.value < MaxRotations(lockAxis)
              && FitsBin(px, py, pz, d, bin) && Clear(Box(px, py, pz, d.l, d.w, d.h), packed, lockAxis)
    ensures found.None? ==> forall k :: r <= k < MaxRotations(lockAxis) ==>
              var d := Rotate(Dims(item.l, item.w, item.h), k, lockAxis);
              !(FitsBin(px, py, pz, d, bin) && Clear(Box(px, py, pz, d.l, d.w, d.h), packed, lockAxis))
    decreases MaxRotations(lockAxis) - r
  {
    if r == MaxRotations(lockAxis) then None
    else
      var d := Rotate(Dims(item.l, item.w, item.h), r, lockAxis);
      if FitsBin(px, py, pz, d, bin) && Clear(Box(px, py, pz, d.l, d.w, d.h), packed, lockAxis) then Some(r)
      else FirstRotation(item, px, py, pz, packed, bin, lockAxis, r + 1)
  }

  /** A candidate position the loop passes over: at or beyond a far wall. */
  predicate Skipped(px: int, py: int, bin: Bin)
  {
    px >= bin.l || py >= bin.w
  }

  /** Where a placed row stands in the bin: corner before the far walls and not below the floor,
      the rotated box under the far walls and the lid. */
  predicate Placement(p: Row, bin: Bin, lockAxis: bool)
  {
    var d := Extent(p, lockAxis);
    && p.x < bin.l && p.y < bin.w && p.z >= 0
    && FitsBin(p.x, p.y, p.z, d, bin)
    && 0 <= p.rotation < MaxRotations(lockAxis)
  }

  /** The first candidate from index `j` on where the item can go, as the placed row. */
  function TryPositions(item: Row, ps: seq<(int, int)>, j: nat, packed: seq<Row>, bin: Bin, lockAxis: bool): (placed: Option<Row>)
    requires j <= |ps|
    ensures placed.Some? ==>
              && SameItem(placed.value, item)
              && (placed.value.x, placed.value.y) in ps[j..]
              && Placement(placed.value, bin, lockAxis)
              && Clear(BoxOf(placed.value, lockAxis), packed, lockAxis)
    ensures placed.None? ==> forall i :: j <= i < |ps| && !Skipped(ps[i].0, ps[i].1, bin) ==>
              FirstRotation(item, ps[i].0, ps[i].1, RestingHeight(item, ps[i].0, ps[i].1, packed, lockAxis), packed, bin, lockAxis, 0).None?
    decreases |ps| - j
  {
    if j == |ps| then None
    else
      var (px, py) := ps[j];
      if Skipped(px, py, bin) then TryPositions(item, ps, j + 1, packed, bin, lockAxis)
      else
        var pz := RestingHeight(item, px, py, packed, lockAxis);
        match FirstRotation(item, px, py, pz, packed, bin, lockAxis, 0)
        case Some(r) => Some(PlaceAt(item, px, py, pz, r))
        case None => TryPositions(item, ps, j + 1, packed, bin, lockAxis)
  }

  /** At candidate `q` no rotation works at the resting height, or the loop passes over it. */
  predicate NoFitAt(item: Row, q: (int, int), packed: seq<Row>, bin: Bin, lockAxis: bool)
  {
    !Skipped(q.0, q.1, bin) ==>
      FirstRotation(item, q.0, q.1, RestingHeight(item, q.0, q.1, packed, lockAxis), packed, bin, lockAxis, 0).None?
  }

  /** `p` stands at a candidate the loop tries, at the resting height there, in the first
      rotation that works. */
  predicate FitsAt(item: Row, p: Row, packed: seq<Row>, bin: Bin, lockAxis: bool)
  {
    && !Skipped(p.x, p.y, bin)
    && p.z == RestingHeight(item, p.x, p.y, packed, lockAxis)
    && p.rotation >= 0 && FirstRotation(item, p.x, p.y, p.z, packed, bin, lockAxis, 0) == Some(p.rotation as nat)
  }

  /** The placement found is the first candidate, in order, where some rotation works at the
      resting height, in the first such rotation. */
  lemma {:induction false} TryPositionsTakesFirstFit(item: Row, ps: seq<(int, int)>, j: nat, packed: seq<Row>, bin: Bin, lockAxis: bool)
    requires j <= |ps|
    requires TryPositions(item, ps, j, packed, bin, lockAxis).Some?
    ensures var p := TryPositions(item, ps, j, packed, bin, lockAxis).value;
            exists i :: j <= i < |ps| && ps[i] == (p.x, p.y) && FitsAt(item, p, packed, bin, lockAxis)
              && forall i' :: j <= i' < i ==> NoFitAt(item, ps[i'], packed, bin, lockAxis)
    decreases |ps| - j
  {
    var (px, py) := ps[j];
    var p := TryPositions(item, ps, j, packed, bin, lockAxis).value;
    if Skipped(px, py, bin) || FirstRotation(item, px, py, RestingHeight(item, px, py, packed, lockAxis), packed, bin, lockAxis, 0).None? {
      assert NoFitAt(item, ps[j], packed, bin, lockAxis);
      TryPositionsTakesFirstFit(item, ps, j + 1, packed, bin, lockAxis);
      assert TryPositions(item, ps, j + 1, packed, bin, lockAxis).value == p;
      var i :| j + 1 <= i < |ps| && ps[i] == (p.x, p.y) && FitsAt(item, p, packed, bin, lockAxis)
               && forall i' :: j + 1 <= i' < i ==> NoFitAt(item, ps[i'], packed, bin, lockAxis);
      assert forall i' :: j <= i' < i ==> NoFitAt(item, ps[i'], packed, bin, lockAxis);
    } else {
      assert ps[j] == (p.x, p.y) && FitsAt(item, p, packed, bin, lockAxis);
    }
  }

  /** One entry of `steps`: the item placed, where and how, and every item packed so far. */
  datatype PackStep = PackStep(itemId: int, position: Pos, rotation: int, packedItems: seq<Row>)

  /** The loop's state: the array being filled in, the copies of the packed rows in packing
      order, and the recorded steps. */
  datatype PackState = PackState(rows: seq<Row>, packed: seq<Row>, steps: seq<PackStep>)

  /** The step recorded when the `k`-th of the packed items was placed. */
  function StepFor(packed: seq<Row>, k: nat): (step: PackStep)
    requires k < |packed|
    ensures |step.packedItems| == k + 1 && step.packedItems[k] == packed[k]
  {
    PackStep(packed[k].id, Pos(packed[k].x, packed[k].y, packed[k].z), packed[k].rotation, packed[..k + 1])
  }

  /** One turn of the loop for `item`. An item is packed exactly when it was unplaced and some
      candidate position admits it; then it is placed in the bin, clear of the packed items, at
      one of the candidates, and (with `save_steps`) a step records it. */
  function Advance(st: PackState, item: Row, bin: Bin, lockAxis: bool, saveSteps: bool): (st': PackState)
    ensures |st'.rows| == |st.rows| + 1 && st'.rows[..|st.rows|] == st.rows
    ensures SameItem(st'.rows[|st.rows|], item)
    ensures |st'.packed| == |st.packed| ==>
              && st'.packed == st.packed && st'.rows[|st.rows|] == item && st'.steps == st.steps
              && (item.x < 0 ==> TryPositions(item, PositionsToTry(st.packed, lockAxis), 0, st.packed, bin, lockAxis).None?)
    ensures |st'.packed| != |st.packed| ==>
              var p := st'.rows[|st.rows|];
              && item.x < 0
              && (p.x, p.y) in PositionsToTry(st.packed, lockAxis)
              && st'.packed == st.packed + [p]
              && Placement(p, bin, lockAxis) && Clear(BoxOf(p, lockAxis), st.packed, lockAxis)
              && st'.steps == if saveSteps then st.steps + [StepFor(st'.packed, |st.packed|)] else st.steps
  {
    if item.x >= 0 then st.(rows := st.rows + [item])
    else
      match TryPositions(item, PositionsToTry(st.packed, lockAxis), 0, st.packed, bin, lockAxis)
      case None => st.(rows := st.rows + [item])
      case Some(p) =>
        var packed := st.packed + [p];
        PackState(st.rows + [p], packed, if saveSteps then st.steps + [StepFor(packed, |st.packed|)] else st.steps)
  }

  /** The state after the first `n` items. */
  function PackPrefix(items: seq<Row>, n: nat, bin: Bin, lockAxis: bool, saveSteps: bool): (st: PackState)
    requires n <= |items|
    ensures |st.rows| == n
    ensures forall k :: 0 <= k < n ==> SameItem(st.rows[k], items[k])
    ensures forall k :: 0 <= k < n && items[k].x >= 0 ==> st.rows[k] == items[k]
  {
    if n == 0 then PackState([], [], [])
    else
      var st := PackPrefix(items, n - 1, bin, lockAxis, saveSteps);
      var st' := Advance(st, items[n - 1], bin, lockAxis, saveSteps);
      AdvanceAppendsRow(st, items[n - 1], bin, lockAxis, saveSteps);
      st'
  }

  /** A turn appends one row, the item itself unless the turn places it. */
  lemma AdvanceAppendsRow(st: PackState, item: Row, bin: Bin, lockAxis: bool, saveSteps: bool)
    ensures var st' := Advance(st, item, bin, lockAxis, saveSteps);
            && st'.rows == st.rows + [st'.rows[|st.rows|]]
            && (item.x >= 0 ==> st'.rows[|st.rows|] == item)
  {
  }

  /** The rows at or after the near walls, in order: the packed result. */
  function PackedRows(rows: seq<Row>): (r: seq<Row>)
    ensures forall k :: 0 <= k < |r| ==> r[k].x >= 0
    ensures multiset(r) <= multiset(rows)
  {
    if |rows| == 0 then []
    else
      var n := |rows| - 1;
      assert rows == rows[..n] + [rows[n]];
      PackedRows(rows[..n]) + (if rows[n].x >= 0 then [rows[n]] else [])
  }

  /** The rows with a negative x, in order: the leftover result. */
  function LeftoverRows(rows: seq<Row>): (r: seq<Row>)
    ensures forall k :: 0 <= k < |r| ==> r[k].x < 0
    ensures multiset(PackedRows(rows)) + multiset(r) == multiset(rows)
  {
    if |rows| == 0 then []
    else
      var n := |rows| - 1;
      assert rows == rows[..n] + [rows[n]];
      assert PackedRows(rows) == PackedRows(rows[..n]) + (if rows[n].x >= 0 then [rows[n]] else []);
      var left := LeftoverRows(rows[..n]);
      SplitStep(PackedRows(rows[..n]), left, rows[..n], rows[n], rows[n].x >= 0);
      left + (if rows[n].x < 0 then [rows[n]] else [])
  }

  /** Sending one more element to one of two parts keeps them a split of the whole. */
  lemma SplitStep<T>(a: seq<T>, b: seq<T>, whole: seq<T>, e: T, toA: bool)
    requires multiset(a) + multiset(b) == multiset(whole)
    ensures multiset(a + (if toA then [e] else [])) + multiset(b + (if toA then [] else [e])) == multiset(whole + [e])
  {
  }

  /** `simple_pack_with_steps(items, bin_l, bin_w, bin_h, lock_axis, save_steps)`: the rows
      split into packed and leftover, and the steps. Together the two parts hold every row of
      the filled-in array, each the same item as the input row it came from. */
  function PackWithSteps(items: seq<Row>, bin: Bin, lockAxis: bool, saveSteps: bool): (r: (seq<Row>, seq<Row>, seq<PackStep>))
    ensures |r.0| + |r.1| == |items|
    ensures forall k :: 0 <= k < |r.0| ==> r.0[k].x >= 0
    ensures forall k :: 0 <= k < |r.1| ==> r.1[k].x < 0
    ensures !saveSteps ==> r.2 == []
  {
    var st := PackPrefix(items, |items|, bin, lockAxis, saveSteps);
    PackedOrLeftover(st.rows);
    NoStepsUnlessSaved(items, |items|, bin, lockAxis, saveSteps);
    (PackedRows(st.rows), LeftoverRows(st.rows), st.steps)
  }

  /** Lengths follow from the multiset split. */
  lemma PackedOrLeftover(rows: seq<Row>)
    ensures |PackedRows(rows)| + |LeftoverRows(rows)| == |rows|
  {
    assert |multiset(PackedRows(rows)) + multiset(LeftoverRows(rows))| == |multiset(rows)|;
  }

  lemma {:induction false} NoStepsUnlessSaved(items: seq<Row>, n: nat, bin: Bin, lockAxis: bool, saveSteps: bool)
    requires n <= |items|
    ensures !saveSteps ==> PackPrefix(items, n, bin, lockAxis, saveSteps).steps == []
  {
    if n > 0 {
      NoStepsUnlessSaved(items, n - 1, bin, lockAxis, saveSteps);
    }
  }

  // ---------------------------------------------------------------------------------------
  // What the loop guarantees
  // ---------------------------------------------------------------------------------------

  /** No two of the rows overlap. */
  predicate PairwiseDisjoint(rows: seq<Row>, lockAxis: bool)
  {
    forall a, b :: 0 <= a < b < |rows| ==> !Overlap(BoxOf(rows[a], lockAxis), BoxOf(rows[b], lockAxis))
  }

  /** The packed items are pairwise disjoint and each stands in the bin. */
  predicate WellPacked(packed: seq<Row>, bin: Bin, lockAxis: bool)
  {
    PairwiseDisjoint(packed, lockAxis) && forall k :: 0 <= k < |packed| ==> Placement(packed[k], bin, lockAxis)
  }

  lemma AdvanceKeepsWellPacked(st: PackState, item: Row, bin: Bin, lockAxis: bool, saveSteps: bool)
    requires WellPacked(st.packed, bin, lockAxis)
    ensures WellPacked(Advance(st, item, bin, lockAxis, saveSteps).packed, bin, lockAxis)
  {
    var st' := Advance(st, item, bin, lockAxis, saveSteps);
    if |st'.packed| != |st.packed| {
      var p := st'.rows[|st.rows|];
      forall a, b | 0 <= a < b < |st'.packed|
        ensures !Overlap(BoxOf(st'.packed[a], lockAxis), BoxOf(st'.packed[b], lockAxis))
      {
        if b == |st.packed| {
          assert !Overlap(BoxOf(p, lockAxis), BoxOf(st.packed[a], lockAxis));
        } else {
          assert st'.packed[a] == st.packed[a] && st'.packed[b] == st.packed[b];
        }
      }
    }
  }

  /** The items packed in a run never overlap one another, and each stands in the bin as
      `Placement` says. */
  lemma {:induction false} PackedAreDisjointAndPlaced(items: seq<Row>, n: nat, bin: Bin, lockAxis: bool, saveSteps: bool)
    requires n <= |items|
    ensures WellPacked(PackPrefix(items, n, bin, lockAxis, saveSteps).packed, bin, lockAxis)
  {
    if n > 0 {
      PackedAreDisjointAndPlaced(items, n - 1, bin, lockAxis, saveSteps);
      AdvanceKeepsWellPacked(PackPrefix(items, n - 1, bin, lockAxis, saveSteps), items[n - 1], bin, lockAxis, saveSteps);
    }
  }

  /** One step per packed item, step `k` recording the `k`-th. */
  predicate StepsRecordPacking(st: PackState)
  {
    |st.steps| == |st.packed| && forall k :: 0 <= k < |st.steps| ==> st.steps[k] == StepFor(st.packed, k)
  }

  lemma AdvanceKeepsStepRecord(st: PackState, item: Row, bin: Bin, lockAxis: bool)
    requires StepsRecordPacking(st)
    ensures StepsRecordPacking(Advance(st, item, bin, lockAxis, true))
  {
    var st' := Advance(st, item, bin, lockAxis, true);
    if |st'.packed| != |st.packed| {
      var p := st'.rows[|st.rows|];
      forall k | 0 <= k < |st'.steps|
        ensures st'.steps[k] == StepFor(st'.packed, k)
      {
        if k < |st.steps| {
          assert st'.packed[..k + 1] == (st.packed + [p])[..k + 1] == st.packed[..k + 1];
          assert st'.steps[k] == st.steps[k];
        }
      }
    }
  }

  /** With `save_steps`, there is one step per packed item: step `k` places the `k`-th packed
      item and lists the first `k + 1` packed items, in packing order. */
  lemma {:induction false} OneStepPerPackedItem(items: seq<Row>, n: nat, bin: Bin, lockAxis: bool)
    requires n <= |items|
    ensures var st := PackPrefix(items, n, bin, lockAxis, true);
            && |st.steps| == |st.packed|
            && forall k :: 0 <= k < |st.steps| ==> st.steps[k] == StepFor(st.packed, k)
  {
    if n > 0 {
      OneStepPerPackedItem(items, n - 1, bin, lockAxis);
      AdvanceKeepsStepRecord(PackPrefix(items, n - 1, bin, lockAxis, true), items[n - 1], bin, lockAxis);
    }
  }

  /** No extent of the row is negative. */
  predicate NonNegativeExtent(r: Row)
  {
    r.l >= 0 && r.w >= 0 && r.h >= 0
  }

  /** Turning a box with non-negative extents keeps them non-negative. */
  lemma RotatedExtentNonNegative(r: Row, lockAxis: bool)
    requires NonNegativeExtent(r)
    ensures var d := Extent(r, lockAxis); d.l >= 0 && d.w >= 0 && d.h >= 0
  {
    RotationPermutes(Dims(r.l, r.w, r.h), r.rotation, lockAxis);
    var d := Extent(r, lockAxis);
    assert d.l in multiset{r.l, r.w, r.h} && d.w in multiset{r.l, r.w, r.h} && d.h in multiset{r.l, r.w, r.h};
  }

  /** Every packed item is at or after the near walls and has no negative extent. */
  predicate AtNearWalls(packed: seq<Row>)
  {
    forall k :: 0 <= k < |packed| ==> packed[k].x >= 0 && packed[k].y >= 0 && NonNegativeExtent(packed[k])
  }

  /** Every position is at or after the near walls. */
  predicate CellsAtNearWalls(ps: seq<(int, int)>)
  {
    forall j :: 0 <= j < |ps| ==> ps[j].0 >= 0 && ps[j].1 >= 0
  }

  /** Next to such packed items every candidate position is at or after the near walls. */
  lemma {:induction false} CandidatesAtNearWalls(packed: seq<Row>, lockAxis: bool)
    requires AtNearWalls(packed)
    ensures CellsAtNearWalls(PositionsToTry(packed, lockAxis))
  {
    if |packed| > 0 {
      var n := |packed| - 1;
      CandidatesAtNearWalls(packed[..n], lockAxis);
      RotatedExtentNonNegative(packed[n], lockAxis);
      var d := Extent(packed[n], lockAxis);
      var p := packed[n];
      var ps, prev := PositionsToTry(packed, lockAxis), PositionsToTry(packed[..n], lockAxis);
      assert ps == prev + [(p.x + d.l, p.y), (p.x, p.y + d.w), (p.x + d.l, p.y + d.w)];
      forall j | 0 <= j < |ps|
        ensures ps[j].0 >= 0 && ps[j].1 >= 0
      {
        assert p.x >= 0 && p.y >= 0 && d.l >= 0 && d.w >= 0;
        if j < |prev| {
          assert ps[j] == prev[j];
        } else {
          assert ps[j] == [(p.x + d.l, p.y), (p.x, p.y + d.w), (p.x + d.l, p.y + d.w)][j - |prev|];
        }
      }
    }
  }

  lemma AdvanceKeepsNearWalls(st: PackState, item: Row, bin: Bin, lockAxis: bool, saveSteps: bool)
    requires AtNearWalls(st.packed) && NonNegativeExtent(item)
    ensures AtNearWalls(Advance(st, item, bin, lockAxis, saveSteps).packed)
  {
    var st' := Advance(st, item, bin, lockAxis, saveSteps);
    if |st'.packed| != |st.packed| {
      CandidatesAtNearWalls(st.packed, lockAxis);
      var ps := PositionsToTry(st.packed, lockAxis);
      var p := st'.rows[|st.rows|];
      var j :| 0 <= j < |ps| && ps[j] == (p.x, p.y);
      assert ps[j].0 >= 0 && ps[j].1 >= 0;
      assert NonNegativeExtent(p);
      forall k | 0 <= k < |st'.packed|
        ensures st'.packed[k].x >= 0 && st'.packed[k].y >= 0 && NonNegativeExtent(st'.packed[k])
      {
        if k < |st.packed| {
          assert st'.packed[k] == st.packed[k];
        } else {
          assert st'.packed[k] == p;
        }
      }
    }
  }

  /** With no negative extent among the input rows, every item packed in the run stands at or
      after the near walls, so it is reported as packed. */
  lemma {:induction false} PackedAtNearWalls(items: seq<Row>, n: nat, bin: Bin, lockAxis: bool, saveSteps: bool)
    requires n <= |items|
    requires forall k :: 0 <= k < |items| ==> NonNegativeExtent(items[k])
    ensures AtNearWalls(PackPrefix(items, n, bin, lockAxis, saveSteps).packed)
  {
    if n > 0 {
      PackedAtNearWalls(items, n - 1, bin, lockAxis, saveSteps);
      AdvanceKeepsNearWalls(PackPrefix(items, n - 1, bin, lockAxis, saveSteps), items[n - 1], bin, lockAxis, saveSteps);
    }
  }

  lemma AdvanceKeepsPackedRows(st: PackState, item: Row, bin: Bin, lockAxis: bool, saveSteps: bool)
    requires PackedRows(st.rows) == st.packed
    requires item.x < 0 && AtNearWalls(Advance(st, item, bin, lockAxis, saveSteps).packed)
    ensures var st' := Advance(st, item, bin, lockAxis, saveSteps);
            PackedRows(st'.rows) == st'.packed
  {
    var st' := Advance(st, item, bin, lockAxis, saveSteps);
    var n := |st.rows|;
    assert st'.rows[..n] == st.rows;
    assert PackedRows(st'.rows) == PackedRows(st.rows) + (if st'.rows[n].x >= 0 then [st'.rows[n]] else []);
    if |st'.packed| != |st.packed| {
      assert st'.packed[|st.packed|] == st'.rows[n];
    }
  }

  /** When every input row is unplaced and no extent is negative (as the server's callers
      arrange for sensible input), the packed result is exactly the list of items packed in the
      run, in packing order, so it agrees with the steps. */
  lemma {:induction false} PackedResultIsPackingOrder(items: seq<Row>, n: nat, bin: Bin, lockAxis: bool, saveSteps: bool)
    requires n <= |items|
    requires forall k :: 0 <= k < |items| ==> items[k].x < 0 && NonNegativeExtent(items[k])
    ensures var st := PackPrefix(items, n, bin, lockAxis, saveSteps);
            PackedRows(st.rows) == st.packed
  {
    if n > 0 {
      PackedResultIsPackingOrder(items, n - 1, bin, lockAxis, saveSteps);
      PackedAtNearWalls(items, n, bin, lockAxis, saveSteps);
      AdvanceKeepsPackedRows(PackPrefix(items, n - 1, bin, lockAxis, saveSteps), items[n - 1], bin, lockAxis, saveSteps);
    }
  }

  /** For unplaced input rows with no negative extent, the packed result is pairwise disjoint
      and in the bin, and with `save_steps` the steps record exactly its items, one per step,
      in order. */
  lemma PackWithStepsSound(items: seq<Row>, bin: Bin, lockAxis: bool, saveSteps: bool)
    requires forall k :: 0 <= k < |items| ==> items[k].x < 0 && NonNegativeExtent(items[k])
    ensures var r := PackWithSteps(items, bin, lockAxis, saveSteps);
            && WellPacked(r.0, bin, lockAxis)
            && (saveSteps ==> |r.2| == |r.0| && forall k :: 0 <= k < |r.2| ==> r.2[k] == StepFor(r.0, k))
  {
    PackedResultIsPackingOrder(items, |items|, bin, lockAxis, saveSteps);
    PackedAreDisjointAndPlaced(items, |items|, bin, lockAxis, saveSteps);
    if saveSteps {
      OneStepPerPackedItem(items, |items|, bin, lockAxis);
    }
  }
}
