/** The height map of `local_search_algorithm.py` (`bin_state`): for every floor cell of the
    bin, the height of the top of whatever was placed over it last, with NumPy's slicing and
    indexing rules; the placement constraints that read it; and the candidate positions next to
    placed items. */
module HeightMap {
  import opened Wrappers
  import opened Rows

  /** `bin_state`: `grid[i][j]` is the height over cell (i, j), for `i < binL` and `j < binW`. */
  type Grid = seq<seq<int>>

  predicate Shaped(g: Grid, binL: nat, binW: nat)
  {
    |g| == binL && forall i :: 0 <= i < binL ==> |g[i]| == binW
  }

  /** A slice bound `a` on an axis of length `n`, as NumPy normalises it: a negative bound
      counts from the end, and the result is clamped to `[0, n]`. */
  function SliceIndex(a: int, n: nat): (r: nat)
    ensures r <= n
    ensures 0 <= a <= n ==> r == a
    ensures a > n ==> r == n
    ensures a + n < 0 ==> r == 0
  {
    if a < 0 then (if a + n < 0 then 0 else a + n) else if a > n then n else a
  }

  /** Cell (i, j) is in the slice `grid[px:px+l, py:py+w]` for the row's rotated extent. */
  predicate Covers(r: Row, lockAxis: bool, i: int, j: int, binL: nat, binW: nat)
  {
    var d := Extent(r, lockAxis);
    && SliceIndex(r.x, binL) <= i < SliceIndex(r.x + d.l, binL)
    && SliceIndex(r.y, binW) <= j < SliceIndex(r.y + d.w, binW)
  }

  /** For a footprint that lies inside the floor, the slice is exactly the footprint. */
  lemma CoversInsideFloor(r: Row, lockAxis: bool, i: int, j: int, binL: nat, binW: nat)
    requires var d := Extent(r, lockAxis);
             0 <= r.x <= r.x + d.l <= binL && 0 <= r.y <= r.y + d.w <= binW
    ensures Covers(r, lockAxis, i, j, binL, binW) <==>
              var d := Extent(r, lockAxis);
              r.x <= i < r.x + d.l && r.y <= j < r.y + d.w
  {
  }

  /** `np.zeros((bin_l, bin_w))`. */
  function Zeros(binL: nat, binW: nat): (g: Grid)
    ensures Shaped(g, binL, binW)
    ensures forall i, j :: 0 <= i < binL && 0 <= j < binW ==> g[i][j] == 0
  {
    seq(binL, _ => seq(binW, _ => 0))
  }

  /** `update_bin_state(bin_state, item, lock_axis)`: the cells of the item's footprint slice
      take the height of the item's top, `z + h`; every other cell keeps its height. */
  function UpdateBinState(g: Grid, binL: nat, binW: nat, r: Row, lockAxis: bool): (g': Grid)
    requires Shaped(g, binL, binW)
    ensures Shaped(g', binL, binW)
    ensures forall i, j :: 0 <= i < binL && 0 <= j < binW && Covers(r, lockAxis, i, j, binL, binW) ==>
              g'[i][j] == r.z + Extent(r, lockAxis).h
    ensures forall i, j :: 0 <= i < binL && 0 <= j < binW && !Covers(r, lockAxis, i, j, binL, binW) ==>
              g'[i][j] == g[i][j]
  {
    var top := r.z + Extent(r, lockAxis).h;
    seq(binL, i requires 0 <= i < binL =>
      seq(binW, j requires 0 <= j < binW => if Covers(r, lockAxis, i, j, binL, binW) then top else g[i][j]))
  }

  /** `create_bin_state(bin_l, bin_w, packed_items, lock_axis)`: a zero map, updated by every
      row in order except the rows not placed (negative x). A missing array is the empty one. */
  function CreateBinState(binL: nat, binW: nat, rows: seq<Row>, lockAxis: bool): (g: Grid)
    ensures Shaped(g, binL, binW)
  {
    if |rows| == 0 then Zeros(binL, binW)
    else
      var n := |rows| - 1;
      var g := CreateBinState(binL, binW, rows[..n], lockAxis);
      if rows[n].x < 0 then g else UpdateBinState(g, binL, binW, rows[n], lockAxis)
  }

  /** Row `k` is placed and its footprint covers cell (i, j). */
  predicate PlacedOver(rows: seq<Row>, k: int, lockAxis: bool, i: int, j: int, binL: nat, binW: nat)
    requires 0 <= k < |rows|
  {
    rows[k].x >= 0 && Covers(rows[k], lockAxis, i, j, binL, binW)
  }

  /** A cell no placed row covers keeps height 0. */
  lemma {:induction false} UncoveredCellIsFloor(binL: nat, binW: nat, rows: seq<Row>, lockAxis: bool, i: int, j: int)
    requires 0 <= i < binL && 0 <= j < binW
    requires forall k :: 0 <= k < |rows| ==> !PlacedOver(rows, k, lockAxis, i, j, binL, binW)
    ensures CreateBinState(binL, binW, rows, lockAxis)[i][j] == 0
  {
    if |rows| > 0 {
      var n := |rows| - 1;
      var init := rows[..n];
      assert forall k :: 0 <= k < n ==> (PlacedOver(init, k, lockAxis, i, j, binL, binW) <==> PlacedOver(rows, k, lockAxis, i, j, binL, binW));
      UncoveredCellIsFloor(binL, binW, init, lockAxis, i, j);
      assert !PlacedOver(rows, n, lockAxis, i, j, binL, binW);
      var g := CreateBinState(binL, binW, init, lockAxis);
      assert CreateBinState(binL, binW, rows, lockAxis) == if rows[n].x < 0 then g else UpdateBinState(g, binL, binW, rows[n], lockAxis);
    }
  }

  /** The height of a cell is the top of the last placed row over it: later rows overwrite
      earlier ones, whatever their heights. */
  lemma {:induction false} HeightIsLastTop(binL: nat, binW: nat, rows: seq<Row>, lockAxis: bool, i: int, j: int, k: nat)
    requires 0 <= i < binL && 0 <= j < binW
    requires k < |rows| && PlacedOver(rows, k, lockAxis, i, j, binL, binW)
    requires forall k' :: k < k' < |rows| ==> !PlacedOver(rows, k', lockAxis, i, j, binL, binW)
    ensures CreateBinState(binL, binW, rows, lockAxis)[i][j] == rows[k].z + Extent(rows[k], lockAxis).h
  {
    var n := |rows| - 1;
    var init := rows[..n];
    if k < n {
      assert forall k' :: 0 <= k' < n ==> (PlacedOver(init, k', lockAxis, i, j, binL, binW) <==> PlacedOver(rows, k', lockAxis, i, j, binL, binW));
      HeightIsLastTop(binL, binW, init, lockAxis, i, j, k);
      assert !PlacedOver(rows, n, lockAxis, i, j, binL, binW);
    }
    var g := CreateBinState(binL, binW, init, lockAxis);
    assert CreateBinState(binL, binW, rows, lockAxis) == if rows[n].x < 0 then g else UpdateBinState(g, binL, binW, rows[n], lockAxis);
  }

  // ---------------------------------------------------------------------------------------
  // Placement constraints
  // ---------------------------------------------------------------------------------------

  /** The rotated footprint at (`px`, `py`) lies on the floor `[0, binL) x [0, binW)`. */
  predicate FootprintOnFloor(px: int, py: int, d: Dims, binL: nat, binW: nat)
  {
    px >= 0 && py >= 0 && px + d.l <= binL && py + d.w <= binW
  }

  /** `constraint_within_bin(pos_x, pos_y, rotation_id, item, bin_state, bin_h, lock_axis)`:
      the footprint is on the floor and the item, resting at the height of cell
      (`px`, `py`), stays under the lid. Reading that cell raises `IndexError` (`None`) when a
      footprint of no length or width sits on the far edge. */
  function WithinBin(px: int, py: int, rotationId: int, item: Row, g: Grid, binL: nat, binW: nat,
                     binH: int, lockAxis: bool): (r: Option<bool>)
    requires Shaped(g, binL, binW)
    ensures r.None? <==> FootprintOnFloor(px, py, Rotate(Dims(item.l, item.w, item.h), rotationId, lockAxis), binL, binW)
                         && !(px < binL && py < binW)
    ensures r == Some(true) <==>
              var d := Rotate(Dims(item.l, item.w, item.h), rotationId, lockAxis);
              && FootprintOnFloor(px, py, d, binL, binW) && px < binL && py < binW
              && g[px][py] + d.h <= binH
  {
    var d := Rotate(Dims(item.l, item.w, item.h), rotationId, lockAxis);
    if !FootprintOnFloor(px, py, d, binL, binW) then Some(false)
    else if !(px < binL && py < binW) then None
    else Some(g[px][py] + d.h <= binH)
  }

  /** An item of positive length and width never reaches the `IndexError`, and then fits
      exactly when its footprint is on the floor and its top stays under the lid. */
  lemma WithinBinOfProperItem(px: int, py: int, rotationId: int, item: Row, g: Grid, binL: nat, binW: nat,
                              binH: int, lockAxis: bool)
    requires Shaped(g, binL, binW)
    requires item.l > 0 && item.w > 0 && item.h > 0
    ensures var r := WithinBin(px, py, rotationId, item, g, binL, binW, binH, lockAxis);
            var d := Rotate(Dims(item.l, item.w, item.h), rotationId, lockAxis);
            && r.Some?
            && (r.value <==> FootprintOnFloor(px, py, d, binL, binW) && g[px][py] + d.h <= binH)
  {
    var d := Rotate(Dims(item.l, item.w, item.h), rotationId, lockAxis);
    assert d.l > 0 && d.w > 0 by {
      RotationPermutes(Dims(item.l, item.w, item.h), rotationId, lockAxis);
      assert d.l in multiset{item.l, item.w, item.h} && d.w in multiset{item.l, item.w, item.h};
    }
  }

  /** Every cell of the footprint slice has height `level`. */
  predicate FlatAt(g: Grid, binL: nat, binW: nat, px: int, py: int, d: Dims, level: int)
    requires Shaped(g, binL, binW)
  {
    forall i, j :: SliceIndex(px, binL) <= i < SliceIndex(px + d.l, binL) && SliceIndex(py, binW) <= j < SliceIndex(py + d.w, binW) ==>
      g[i][j] == level
  }

  /** `constraint_has_support(pos_x, pos_y, item, rotation_id, bin_state, lock_axis)`: the
      footprint is on the floor and every cell under it has the height of cell (`px`, `py`),
      so the item rests flat. Reading that cell raises `IndexError` (`None`) as in `WithinBin`. */
  function HasSupport(px: int, py: int, item: Row, rotationId: int, g: Grid, binL: nat, binW: nat,
                      lockAxis: bool): (r: Option<bool>)
    requires Shaped(g, binL, binW)
    ensures r.None? <==> FootprintOnFloor(px, py, Rotate(Dims(item.l, item.w, item.h), rotationId, lockAxis), binL, binW)
                         && !(px < binL && py < binW)
    ensures r == Some(true) <==>
              var d := Rotate(Dims(item.l, item.w, item.h), rotationId, lockAxis);
              && FootprintOnFloor(px, py, d, binL, binW) && px < binL && py < binW
              && FlatAt(g, binL, binW, px, py, d, g[px][py])
  {
    var d := Rotate(Dims(item.l, item.w, item.h), rotationId, lockAxis);
    if !FootprintOnFloor(px, py, d, binL, binW) then Some(false)
    else if !(px < binL && py < binW) then None
    else Some(FlatAt(g, binL, binW, px, py, d, g[px][py]))
  }

  /** Right after a row updates the map, its own footprint reads as flat at the row's top:
      the same row, turned the same way, has support at its own corner. */
  lemma SupportOnOwnTop(g: Grid, binL: nat, binW: nat, r: Row, lockAxis: bool)
    requires Shaped(g, binL, binW)
    requires FootprintOnFloor(r.x, r.y, Extent(r, lockAxis), binL, binW)
    requires Extent(r, lockAxis).l > 0 && Extent(r, lockAxis).w > 0
    ensures var g' := UpdateBinState(g, binL, binW, r, lockAxis);
            && g'[r.x][r.y] == r.z + Extent(r, lockAxis).h
            && HasSupport(r.x, r.y, r, r.rotation, g', binL, binW, lockAxis) == Some(true)
  {
    var g' := UpdateBinState(g, binL, binW, r, lockAxis);
    var d := Extent(r, lockAxis);
    assert Covers(r, lockAxis, r.x, r.y, binL, binW);
    forall i, j | SliceIndex(r.x, binL) <= i < SliceIndex(r.x + d.l, binL) && SliceIndex(r.y, binW) <= j < SliceIndex(r.y + d.w, binW)
      ensures g'[i][j] == g'[r.x][r.y]
    {
      assert Covers(r, lockAxis, i, j, binL, binW);
    }
    assert FlatAt(g', binL, binW, r.x, r.y, d, g'[r.x][r.y]);
  }

  /** `constraint_no_overlap(pos_x, pos_y, pos_z, l0, w0, h0, rotation_id, placed_items,
      lock_axis)`: the rotated box at the position overlaps none of the rows placed with all
      three coordinates non-negative; other rows are ignored. */
  function NoOverlap(p: Pos, d: Dims, rotationId: int, placed: seq<Row>, lockAxis: bool): (ok: bool)
    ensures ok <==> forall k :: 0 <= k < |placed| && Counted(placed[k]) ==>
                      !Overlap(BoxAt(p, Rotate(d, rotationId, lockAxis)), BoxOf(placed[k], lockAxis))
  {
    if |placed| == 0 then true
    else
      var n := |placed| - 1;
      NoOverlap(p, d, rotationId, placed[..n], lockAxis) &&
      (!Counted(placed[n]) || !Overlap(BoxAt(p, Rotate(d, rotationId, lockAxis)), BoxOf(placed[n], lockAxis)))
  }

  /** A placed row `constraint_no_overlap` takes into account. */
  predicate Counted(r: Row)
  {
    r.x >= 0 && r.y >= 0 && r.z >= 0
  }

  function BoxAt(p: Pos, d: Dims): Box
  {
    Box(p.x, p.y, p.z, d.l, d.w, d.h)
  }

  // ---------------------------------------------------------------------------------------
  // Candidate positions
  // ---------------------------------------------------------------------------------------

  /** The three floor positions next to a placed row: right of it, behind it, and at its far
      corner. */
  function Neighbours(r: Row, lockAxis: bool): (ps: seq<Pos>)
    ensures |ps| == 3
    ensures forall k :: 0 <= k < 3 ==> ps[k].z == 0
  {
    var d := Extent(r, lockAxis);
    [Pos(r.x + d.l, r.y, 0), Pos(r.x, r.y + d.w, 0), Pos(r.x + d.l, r.y + d.w, 0)]
  }

  predicate OnFloor(p: Pos, binL: nat, binW: nat)
  {
    0 <= p.x < binL && 0 <= p.y < binW
  }

  /** The positions `get_possible_bin_positions` collects before removing duplicates: the
      origin, then each placed row's neighbours that lie on the floor. */
  function RawPositions(rows: seq<Row>, binL: nat, binW: nat, lockAxis: bool): (ps: seq<Pos>)
    ensures |ps| > 0 && ps[0] == Pos(0, 0, 0)
    ensures forall k :: 0 < k < |ps| ==> OnFloor(ps[k], binL, binW) && ps[k].z == 0
  {
    if |rows| == 0 then [Pos(0, 0, 0)]
    else
      var n := |rows| - 1;
      var init := RawPositions(rows[..n], binL, binW, lockAxis);
      var tail := if rows[n].x < 0 then [] else Keep(Neighbours(rows[n], lockAxis), binL, binW);
      assert forall k :: 0 <= k < |tail| ==> OnFloor(tail[k], binL, binW) && tail[k].z == 0 by {
        forall k | 0 <= k < |tail|
          ensures OnFloor(tail[k], binL, binW) && tail[k].z == 0
        {
          assert tail[k] in tail;
          var ns := Neighbours(rows[n], lockAxis);
          assert tail[k] in ns;
          var c :| 0 <= c < 3 && ns[c] == tail[k];
        }
      }
      init + tail
  }

  /** Every on-floor neighbour of a placed row is collected. */
  lemma {:induction false} NeighboursCollected(rows: seq<Row>, binL: nat, binW: nat, lockAxis: bool, k: nat, c: nat)
    requires k < |rows| && rows[k].x >= 0 && c < 3 && OnFloor(Neighbours(rows[k], lockAxis)[c], binL, binW)
    ensures Neighbours(rows[k], lockAxis)[c] in RawPositions(rows, binL, binW, lockAxis)
  {
    var n := |rows| - 1;
    var init := rows[..n];
    var ns := Neighbours(rows[k], lockAxis);
    var before := RawPositions(init, binL, binW, lockAxis);
    var tail := if rows[n].x < 0 then [] else Keep(Neighbours(rows[n], lockAxis), binL, binW);
    assert RawPositions(rows, binL, binW, lockAxis) == before + tail;
    if k < n {
      assert init[k] == rows[k];
      NeighboursCollected(init, binL, binW, lockAxis, k, c);
      assert ns[c] in before;
    } else {
      assert ns[c] in ns;
      assert ns[c] in tail;
    }
  }

  /** The positions of `ps` that lie on the floor, in order. */
  function Keep(ps: seq<Pos>, binL: nat, binW: nat): (r: seq<Pos>)
    ensures forall p :: p in r <==> p in ps && OnFloor(p, binL, binW)
  {
    if |ps| == 0 then []
    else
      var n := |ps| - 1;
      assert forall p :: p in ps <==> p in ps[..n] || p == ps[n];
      Keep(ps[..n], binL, binW) + (if OnFloor(ps[n], binL, binW) then [ps[n]] else [])
  }

  /** Positions with the same floor cell. */
  predicate SameCell(p: Pos, q: Pos)
  {
    p.x == q.x && p.y == q.y
  }

  /** Some position of `r` has the floor cell of `p`. */
  predicate CellListed(r: seq<Pos>, p: Pos)
  {
    exists k :: 0 <= k < |r| && SameCell(r[k], p)
  }

  /** The first position of each floor cell, in order: the duplicate removal of
      `get_possible_bin_positions`, which compares x and y only. */
  function FirstPerCell(ps: seq<Pos>): (r: seq<Pos>)
    ensures |ps| > 0 ==> |r| > 0 && r[0] == ps[0]
    ensures forall k :: 0 <= k < |r| ==> r[k] in ps
    ensures forall a, b :: 0 <= a < b < |r| ==> !SameCell(r[a], r[b])
  {
    if |ps| == 0 then []
    else
      var n := |ps| - 1;
      var init := FirstPerCell(ps[..n]);
      assert forall k :: 0 <= k < |init| ==> init[k] in ps;
      if CellListed(init, ps[n]) then init else init + [ps[n]]
  }

  /** Every cell of `ps` is listed after duplicate removal. */
  lemma {:induction false} EveryCellKept(ps: seq<Pos>, p: Pos)
    requires p in ps
    ensures CellListed(FirstPerCell(ps), p)
  {
    var n := |ps| - 1;
    var init := FirstPerCell(ps[..n]);
    var r := FirstPerCell(ps);
    if p in ps[..n] {
      EveryCellKept(ps[..n], p);
      var k :| 0 <= k < |init| && SameCell(init[k], p);
      assert r[k] == init[k];
    } else {
      assert p == ps[n];
      if !CellListed(init, p) {
        assert r[|init|] == p;
      }
    }
  }

  /** `get_possible_bin_positions(packed_items, bin_state, bin_h, lock_axis)`: the origin comes
      first; every other position is a floor cell, and all are at height 0; no two share a
      floor cell. */
  function PossiblePositions(rows: seq<Row>, binL: nat, binW: nat, lockAxis: bool): (r: seq<Pos>)
    ensures |r| > 0 && r[0] == Pos(0, 0, 0)
    ensures forall k :: 0 < k < |r| ==> OnFloor(r[k], binL, binW)
    ensures forall k :: 0 <= k < |r| ==> r[k].z == 0
    ensures forall a, b :: 0 <= a < b < |r| ==> !SameCell(r[a], r[b])
  {
    var raw := RawPositions(rows, binL, binW, lockAxis);
    var r := FirstPerCell(raw);
    forall k | 0 < k < |r| ensures OnFloor(r[k], binL, binW) && r[k].z == 0 {
      assert !SameCell(r[0], r[k]);
      var m :| 0 <= m < |raw| && raw[m] == r[k];
    }
    r
  }

  /** Every on-floor neighbour of every placed row has its floor cell among the positions. */
  lemma PossiblePositionsComplete(rows: seq<Row>, binL: nat, binW: nat, lockAxis: bool, k: nat, c: nat)
    requires k < |rows| && rows[k].x >= 0 && c < 3 && OnFloor(Neighbours(rows[k], lockAxis)[c], binL, binW)
    ensures CellListed(PossiblePositions(rows, binL, binW, lockAxis), Neighbours(rows[k], lockAxis)[c])
  {
    NeighboursCollected(rows, binL, binW, lockAxis, k, c);
    EveryCellKept(RawPositions(rows, binL, binW, lockAxis), Neighbours(rows[k], lockAxis)[c]);
  }
}
