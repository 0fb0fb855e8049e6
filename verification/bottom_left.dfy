/** `PackingAlgorithm` of `packing_algorithm.py`: the simple bottom-left-fill packer. Items
    are never rotated; an item goes to the first candidate corner, in bottom-left-front
    order, where it stays under the bin's upper bounds and clear of every placed item. The
    30-second timeout reads the clock and is left out: the model runs to the end. */
module BottomLeft {
  import opened Wrappers
  import opened Json
  import opened Rows
  import LocalSearch
  import Service

  /** The row has been placed: the packer marks unplaced rows with x = -1. */
  predicate Placed(r: Row)
  {
    r.x != -1
  }

  /** The box a row occupies, unrotated. */
  function BoxAt(r: Row, p: Pos): Box
  {
    Box(p.x, p.y, p.z, r.l, r.w, r.h)
  }

  /** The box a placed row occupies. */
  function PlacedBox(r: Row): Box
  {
    BoxAt(r, Pos(r.x, r.y, r.z))
  }

  // ---------------------------------------------------------------------------------------
  // `insert_pq`
  // ---------------------------------------------------------------------------------------

  /** The rows are in non-decreasing order of z. */
  predicate SortedByZ(pq: seq<Row>)
  {
    forall a, b :: 0 <= a < b < |pq| ==> pq[a].z <= pq[b].z
  }

  /** `searchsorted(zs, z)` on a z-sorted queue: the first index whose z is not below `z`. */
  function SearchLeft(pq: seq<Row>, z: int): (k: nat)
    requires SortedByZ(pq)
    ensures k <= |pq|
    ensures forall a :: 0 <= a < k ==> pq[a].z < z
    ensures forall a :: k <= a < |pq| ==> z <= pq[a].z
  {
    if |pq| == 0 || z <= pq[0].z then 0 else 1 + SearchLeft(pq[1..], z)
  }

  /** Putting `item` at index `k` of a z-sorted queue, with smaller z before and no smaller z
      after, keeps the queue sorted. */
  lemma InsertAtKeepsOrder(pq: seq<Row>, item: Row, k: nat)
    requires SortedByZ(pq) && k <= |pq|
    requires forall a :: 0 <= a < k ==> pq[a].z < item.z
    requires forall a :: k <= a < |pq| ==> item.z <= pq[a].z
    ensures SortedByZ(pq[..k] + [item] + pq[k..])
  {
    var r := pq[..k] + [item] + pq[k..];
    assert forall a :: 0 <= a < |r| ==> r[a] == if a < k then pq[a] else if a == k then item else pq[a - 1];
  }

  /** Putting `item` at index `k` adds it to the queue and leaves the rest in place. */
  lemma InsertAtAddsItem(pq: seq<Row>, item: Row, k: nat)
    requires k <= |pq|
    ensures var r := pq[..k] + [item] + pq[k..];
            && multiset(r) == multiset(pq) + multiset{item}
            && r[k] == item && r[..k] + r[k + 1..] == pq
  {
    var r := pq[..k] + [item] + pq[k..];
    assert r[..k] == pq[..k];
    assert r[k + 1..] == pq[k..];
    assert pq == pq[..k] + pq[k..];
  }

  /** `insert_pq(pq, item)`: the item goes in before every row of equal or greater z. */
  function InsertPq(pq: seq<Row>, item: Row): (r: seq<Row>)
    requires SortedByZ(pq)
    ensures |r| == |pq| + 1 && SortedByZ(r)
    ensures multiset(r) == multiset(pq) + multiset{item}
    ensures exists k :: 0 <= k < |r| && r[k] == item && r[..k] + r[k + 1..] == pq
                        && forall a :: k < a < |r| ==> item.z <= r[a].z
  {
    var k := SearchLeft(pq, item.z);
    InsertAtKeepsOrder(pq, item, k);
    InsertAtAddsItem(pq, item, k);
    pq[..k] + [item] + pq[k..]
  }

  // ---------------------------------------------------------------------------------------
  // `can_place_item`
  // ---------------------------------------------------------------------------------------

  /** The item at `p` stays under the bin's upper bounds; lower bounds are not checked here. */
  predicate UnderUpperBounds(item: Row, p: Pos, bin: LocalSearch.Bin)
  {
    p.x + item.l <= bin.l && p.y + item.w <= bin.w && p.z + item.h <= bin.h
  }

  /** Some placed row from index `j` on overlaps the item at `p`. */
  function OverlapsFrom(item: Row, p: Pos, rows: seq<Row>, j: nat): (b: bool)
    requires j <= |rows|
    ensures b <==> exists k :: j <= k < |rows| && Placed(rows[k]) && Overlap(BoxAt(item, p), PlacedBox(rows[k]))
    decreases |rows| - j
  {
    if j == |rows| then false
    else if Placed(rows[j]) && Overlap(BoxAt(item, p), PlacedBox(rows[j])) then true
    else OverlapsFrom(item, p, rows, j + 1)
  }

  /** `can_place_item(item, position, placed_items)`. */
  function CanPlaceItem(item: Row, p: Pos, rows: seq<Row>, bin: LocalSearch.Bin): (b: bool)
    ensures b <==> UnderUpperBounds(item, p, bin)
                   && forall k :: 0 <= k < |rows| && Placed(rows[k]) ==> !Overlap(BoxAt(item, p), PlacedBox(rows[k]))
  {
    UnderUpperBounds(item, p, bin) && !OverlapsFrom(item, p, rows, 0)
  }

  // ---------------------------------------------------------------------------------------
  // `find_placement_positions`
  // ---------------------------------------------------------------------------------------

  /** The corners next to a placed row: to its right, behind it and on top of it. */
  function CornersOf(r: Row): seq<Pos>
  {
    [Pos(r.x + r.l, r.y, r.z), Pos(r.x, r.y + r.w, r.z), Pos(r.x, r.y, r.z + r.h)]
  }

  /** The origin, then the corners of each placed row in row order. */
  function Candidates(rows: seq<Row>): (cs: seq<Pos>)
    ensures |cs| > 0 && cs[0] == Pos(0, 0, 0)
  {
    if |rows| == 0 then [Pos(0, 0, 0)]
    else
      var n := |rows| - 1;
      Candidates(rows[..n]) + (if Placed(rows[n]) then CornersOf(rows[n]) else [])
  }

  /** A candidate is the origin or a corner of a placed row, and every such corner is one. */
  lemma {:induction false} CandidatesAreCorners(rows: seq<Row>, c: Pos)
    ensures c in Candidates(rows) <==>
              c == Pos(0, 0, 0) || exists k :: 0 <= k < |rows| && Placed(rows[k]) && c in CornersOf(rows[k])
  {
    if |rows| > 0 {
      var n := |rows| - 1;
      CandidatesAreCorners(rows[..n], c);
      if c in Candidates(rows[..n]) && c != Pos(0, 0, 0) {
        var k :| 0 <= k < n && Placed(rows[..n][k]) && c in CornersOf(rows[..n][k]);
        assert rows[k] == rows[..n][k];
      }
      if exists k :: 0 <= k < |rows| && Placed(rows[k]) && c in CornersOf(rows[k]) {
        var k :| 0 <= k < |rows| && Placed(rows[k]) && c in CornersOf(rows[k]);
        if k < n {
          assert rows[..n][k] == rows[k];
        }
      }
    }
  }

  /** The position lies in the bin: `0 <= coordinate < side` on every axis. */
  predicate InBin(p: Pos, bin: LocalSearch.Bin)
  {
    0 <= p.x < bin.l && 0 <= p.y < bin.w && 0 <= p.z < bin.h
  }

  /** No position occurs twice. */
  predicate Distinct(ps: seq<Pos>)
  {
    forall a, b :: 0 <= a < b < |ps| ==> ps[a] != ps[b]
  }

  /** The candidates in the bin, each once, in order of first occurrence. */
  function UniqueInBin(cs: seq<Pos>, bin: LocalSearch.Bin): (us: seq<Pos>)
    ensures Distinct(us)
    ensures forall p :: p in us <==> p in cs && InBin(p, bin)
  {
    if |cs| == 0 then []
    else
      var n := |cs| - 1;
      var us := UniqueInBin(cs[..n], bin);
      assert forall p :: p in cs <==> p in cs[..n] || p == cs[n] by {
        assert cs == cs[..n] + [cs[n]];
      }
      if InBin(cs[n], bin) && cs[n] !in us then us + [cs[n]] else us
  }

  /** Bottom-left-front order: by z, then y, then x. */
  predicate Before(a: Pos, b: Pos)
  {
    a.z < b.z || (a.z == b.z && (a.y < b.y || (a.y == b.y && a.x < b.x)))
  }

  /** Every position comes strictly before every later one. */
  predicate StrictlySorted(ps: seq<Pos>)
  {
    forall a, b :: 0 <= a < b < |ps| ==> Before(ps[a], ps[b])
  }

  /** `p` placed in a sorted sequence that does not hold it. */
  function Insert(p: Pos, ps: seq<Pos>): (r: seq<Pos>)
    requires StrictlySorted(ps) && p !in ps
    ensures |r| == |ps| + 1 && StrictlySorted(r)
    ensures forall q :: q in r <==> q in ps || q == p
  {
    if |ps| == 0 then [p]
    else if Before(p, ps[0]) then
      assert forall b :: 0 <= b < |ps| ==> Before(p, ps[b]);
      [p] + ps
    else
      var rest := Insert(p, ps[1..]);
      assert Before(ps[0], p);
      assert forall b :: 0 <= b < |rest| ==> Before(ps[0], rest[b]) by {
        forall b | 0 <= b < |rest|
          ensures Before(ps[0], rest[b])
        {
          assert rest[b] in ps[1..] || rest[b] == p;
        }
      }
      [ps[0]] + rest
  }

  /** `sort(key=lambda pos: (pos[2], pos[1], pos[0]))` on distinct positions. */
  function SortPositions(ps: seq<Pos>): (r: seq<Pos>)
    requires Distinct(ps)
    ensures |r| == |ps| && StrictlySorted(r)
    ensures forall q :: q in r <==> q in ps
  {
    if |ps| == 0 then []
    else
      var n := |ps| - 1;
      assert forall q :: q in ps <==> q in ps[..n] || q == ps[n] by {
        assert ps == ps[..n] + [ps[n]];
      }
      Insert(ps[n], SortPositions(ps[..n]))
  }

  /** How many positions are tried at most. */
  const MaxPositions := 50

  /** `find_placement_positions(placed_items)`. */
  function FindPlacementPositions(rows: seq<Row>, bin: LocalSearch.Bin): (ps: seq<Pos>)
    ensures |ps| <= MaxPositions
    ensures StrictlySorted(ps)
    ensures forall p :: p in ps ==> InBin(p, bin) && p in Candidates(rows)
    ensures Distinct(ps)
  {
    var sorted := SortPositions(UniqueInBin(Candidates(rows), bin));
    var ps := if |sorted| <= MaxPositions then sorted else sorted[..MaxPositions];
    SortedIsDistinct(ps);
    ps
  }

  /** Strictly sorted positions are distinct. */
  lemma SortedIsDistinct(ps: seq<Pos>)
    requires StrictlySorted(ps)
    ensures Distinct(ps)
  {
  }

  /** Only when 50 positions come before it is a candidate in the bin not tried. */
  lemma PositionsAreTheFirstFifty(rows: seq<Row>, bin: LocalSearch.Bin, c: Pos)
    requires c in Candidates(rows) && InBin(c, bin)
    ensures var ps := FindPlacementPositions(rows, bin);
            c in ps || (|ps| == MaxPositions && forall k :: 0 <= k < |ps| ==> Before(ps[k], c))
  {
    var sorted := SortPositions(UniqueInBin(Candidates(rows), bin));
    var j :| 0 <= j < |sorted| && sorted[j] == c;
    if |sorted| > MaxPositions && j >= MaxPositions {
      var ps := sorted[..MaxPositions];
      assert forall k :: 0 <= k < |ps| ==> ps[k] == sorted[k];
    } else if |sorted| > MaxPositions {
      assert sorted[..MaxPositions][j] == c;
    }
  }

  // ---------------------------------------------------------------------------------------
  // `simple_packing_algorithm` and `_get_current_state`
  // ---------------------------------------------------------------------------------------

  /** The first of `ps`, from index `j` on, where the item can go. */
  function FirstFit(item: Row, ps: seq<Pos>, j: nat, rows: seq<Row>, bin: LocalSearch.Bin): (r: Option<Pos>)
    requires j <= |ps|
    ensures r.Some? ==> r.value in ps[j..] && CanPlaceItem(item, r.value, rows, bin)
    ensures r.Some? ==> exists k :: j <= k < |ps| && ps[k] == r.value && forall a :: j <= a < k ==> !CanPlaceItem(item, ps[a], rows, bin)
    ensures r.None? <==> forall k :: j <= k < |ps| ==> !CanPlaceItem(item, ps[k], rows, bin)
    decreases |ps| - j
  {
    if j == |ps| then None
    else if CanPlaceItem(item, ps[j], rows, bin) then Some(ps[j])
    else FirstFit(item, ps, j + 1, rows, bin)
  }

  /** In positions sorted bottom-left-front, the first fitting one has no fitting position
      before it in (z, y, x) order. */
  lemma FirstFitIsFirst(item: Row, ps: seq<Pos>, rows: seq<Row>, bin: LocalSearch.Bin)
    requires StrictlySorted(ps) && FirstFit(item, ps, 0, rows, bin).Some?
    ensures var p := FirstFit(item, ps, 0, rows, bin).value;
            forall a :: 0 <= a < |ps| && Before(ps[a], p) ==> !CanPlaceItem(item, ps[a], rows, bin)
  {
    var p := FirstFit(item, ps, 0, rows, bin).value;
    var k :| 0 <= k < |ps| && ps[k] == p && forall a :: 0 <= a < k ==> !CanPlaceItem(item, ps[a], rows, bin);
    assert forall a :: 0 <= a < |ps| && Before(ps[a], ps[k]) ==> a < k;
  }

  /** The placed rows among the first `upTo`, in row order. */
  function CurrentState(rows: seq<Row>, upTo: nat): (placed: seq<Row>)
    requires upTo <= |rows|
    ensures forall r :: r in placed <==> r in rows[..upTo] && Placed(r)
  {
    if upTo == 0 then []
    else
      var n := upTo - 1;
      assert rows[..upTo] == rows[..n] + [rows[n]];
      CurrentState(rows, n) + (if Placed(rows[n]) then [rows[n]] else [])
  }

  /** One entry of `packing_steps`. */
  datatype Step = Step(stepNumber: int, itemId: int, position: Pos, dims: Dims, placedSoFar: seq<Row>)

  /** The array being packed and the steps recorded so far. */
  datatype Packing = Packing(rows: seq<Row>, steps: seq<Step>)

  /** One turn of the loop, for row `i`: a row already placed is skipped; otherwise it moves
      to the first position, in (z, y, x) order, where it fits, and the step is recorded, or,
      when it fits nowhere, it stays unplaced. */
  function Advance(st: Packing, i: nat, bin: LocalSearch.Bin): (st': Packing)
    requires i < |st.rows|
    ensures Placed(st.rows[i]) ==> st' == st
    ensures |st'.rows| == |st.rows|
    ensures !Placed(st.rows[i]) && st'.rows[i] == st.rows[i] ==>
              var ps := FindPlacementPositions(st.rows, bin);
              forall a :: 0 <= a < |ps| ==> !CanPlaceItem(st.rows[i], ps[a], st.rows, bin)
    ensures st'.rows[i] != st.rows[i] ==>
              var ps := FindPlacementPositions(st.rows, bin);
              var p := Pos(st'.rows[i].x, st'.rows[i].y, st'.rows[i].z);
              forall a :: 0 <= a < |ps| && Before(ps[a], p) ==> !CanPlaceItem(st.rows[i], ps[a], st.rows, bin)
    ensures forall k :: 0 <= k < |st.rows| && k != i ==> st'.rows[k] == st.rows[k]
    ensures SameItem(st'.rows[i], st.rows[i]) && st'.rows[i].rotation == st.rows[i].rotation
    ensures st'.steps == st.steps <==> st'.rows[i] == st.rows[i]
    ensures st'.rows[i] != st.rows[i] ==>
              && !Placed(st.rows[i])
              && var p := Pos(st'.rows[i].x, st'.rows[i].y, st'.rows[i].z);
              && p in FindPlacementPositions(st.rows, bin)
              && CanPlaceItem(st.rows[i], p, st.rows, bin)
              && st'.steps == st.steps + [Step(|st.steps| + 1, st.rows[i].id, p, Dims(st.rows[i].l, st.rows[i].w, st.rows[i].h),
                                               CurrentState(st'.rows, i + 1))]
  {
    var item := st.rows[i];
    if Placed(item) then st
    else
      var ps := FindPlacementPositions(st.rows, bin);
      match FirstFit(item, ps, 0, st.rows, bin)
      case None => st
      case Some(p) =>
        assert InBin(p, bin);
        FirstFitIsFirst(item, ps, st.rows, bin);
        var rows' := st.rows[i := PlaceAt(item, p.x, p.y, p.z, item.rotation)];
        var step := Step(|st.steps| + 1, item.id, p, Dims(item.l, item.w, item.h), CurrentState(rows', i + 1));
        Packing(rows', st.steps + [step])
  }

  /** The loop from row `i` to the last row. It keeps the placed rows disjoint and in the
      bin, and the steps numbered one per placed row. */
  function Run(st: Packing, i: nat, bin: LocalSearch.Bin): (st': Packing)
    requires i <= |st.rows|
    ensures |st'.rows| == |st.rows|
    ensures forall k :: 0 <= k < |st.rows| ==> SameItem(st'.rows[k], st.rows[k])
    ensures WellPlaced(st.rows, bin) ==> WellPlaced(st'.rows, bin)
    ensures StepsNumbered(st) ==> StepsNumbered(st')
    decreases |st.rows| - i
  {
    if i == |st.rows| then st
    else
      var next := Advance(st, i, bin);
      AdvanceKeepsWellPlaced(st, i, bin, next);
      AdvanceKeepsStepsNumbered(st, i, bin, next);
      Run(next, i + 1, bin)
  }

  /** `simple_packing_algorithm(items)`: the loop over every row, with no steps recorded yet. */
  function SimplePacking(items: seq<Row>, bin: LocalSearch.Bin): (st: Packing)
    ensures |st.rows| == |items|
  {
    Run(Packing(items, []), 0, bin)
  }

  /** The placed rows stand in the bin and no two of them overlap. */
  predicate WellPlaced(rows: seq<Row>, bin: LocalSearch.Bin)
  {
    && (forall k :: 0 <= k < |rows| && Placed(rows[k]) ==>
          InBin(Pos(rows[k].x, rows[k].y, rows[k].z), bin) && UnderUpperBounds(rows[k], Pos(rows[k].x, rows[k].y, rows[k].z), bin))
    && (forall a, b :: 0 <= a < |rows| && 0 <= b < |rows| && a != b && Placed(rows[a]) && Placed(rows[b]) ==>
          !Overlap(PlacedBox(rows[a]), PlacedBox(rows[b])))
  }

  /** One turn of the loop keeps the placed rows disjoint and in the bin. */
  lemma AdvanceKeepsWellPlaced(st: Packing, i: nat, bin: LocalSearch.Bin, st': Packing)
    requires i < |st.rows| && st' == Advance(st, i, bin)
    ensures WellPlaced(st.rows, bin) ==> WellPlaced(st'.rows, bin)
  {
    if WellPlaced(st.rows, bin) && st'.rows[i] != st.rows[i] {
      var r := st'.rows[i];
      var p := Pos(r.x, r.y, r.z);
      assert PlacedBox(r) == BoxAt(st.rows[i], p);
      forall a, b | 0 <= a < |st'.rows| && 0 <= b < |st'.rows| && a != b && Placed(st'.rows[a]) && Placed(st'.rows[b])
        ensures !Overlap(PlacedBox(st'.rows[a]), PlacedBox(st'.rows[b]))
      {
        if a == i {
          assert st'.rows[b] == st.rows[b];
        } else if b == i {
          assert st'.rows[a] == st.rows[a];
        }
      }
    }
  }

  /** Rows none of which is placed are trivially well placed. */
  lemma UnplacedRowsAreWellPlaced(rows: seq<Row>, bin: LocalSearch.Bin)
    requires forall k :: 0 <= k < |rows| ==> !Placed(rows[k])
    ensures WellPlaced(rows, bin)
  {
  }

  /** Packing rows none of which is placed yet, as `create_items_array` makes them, leaves the
      placed rows pairwise disjoint and in the bin. */
  lemma PlacedRowsAreDisjointAndInBin(items: seq<Row>, bin: LocalSearch.Bin)
    requires forall k :: 0 <= k < |items| ==> !Placed(items[k])
    ensures WellPlaced(SimplePacking(items, bin).rows, bin)
  {
    UnplacedRowsAreWellPlaced(items, bin);
  }

  /** The number of placed rows. */
  function PlacedCount(rows: seq<Row>): nat
  {
    if |rows| == 0 then 0 else PlacedCount(rows[..|rows| - 1]) + (if Placed(rows[|rows| - 1]) then 1 else 0)
  }

  /** Changing one row changes the count by that row's contribution only. */
  lemma {:induction false} PlacedCountUpdate(rows: seq<Row>, i: nat, r: Row)
    requires i < |rows|
    ensures PlacedCount(rows[i := r]) + (if Placed(rows[i]) then 1 else 0) == PlacedCount(rows) + (if Placed(r) then 1 else 0)
  {
    var n := |rows| - 1;
    if i < n {
      PlacedCountUpdate(rows[..n], i, r);
      assert rows[i := r][..n] == rows[..n][i := r];
    } else {
      assert rows[i := r][..n] == rows[..n];
    }
  }

  /** The steps are numbered 1, 2, … in order, one per placed row. */
  predicate StepsNumbered(st: Packing)
  {
    |st.steps| == PlacedCount(st.rows) && forall k :: 0 <= k < |st.steps| ==> st.steps[k].stepNumber == k + 1
  }

  /** One turn of the loop keeps the steps numbered, one per placed row. */
  lemma AdvanceKeepsStepsNumbered(st: Packing, i: nat, bin: LocalSearch.Bin, st': Packing)
    requires i < |st.rows| && st' == Advance(st, i, bin)
    ensures StepsNumbered(st) ==> StepsNumbered(st')
  {
    if st'.rows[i] != st.rows[i] {
      assert st'.rows == st.rows[i := st'.rows[i]];
      PlacedCountUpdate(st.rows, i, st'.rows[i]);
    } else {
      assert st'.rows == st.rows;
    }
  }

  /** From rows none of which is placed, the run records one step per row it places, with
      step numbers 1, 2, … in order. */
  lemma OneNumberedStepPerPlacedRow(items: seq<Row>, bin: LocalSearch.Bin)
    requires forall k :: 0 <= k < |items| ==> !Placed(items[k])
    ensures StepsNumbered(SimplePacking(items, bin))
  {
    NoneCounted(items);
  }

  /** Rows none of which is placed count zero. */
  lemma {:induction false} NoneCounted(rows: seq<Row>)
    requires forall k :: 0 <= k < |rows| ==> !Placed(rows[k])
    ensures PlacedCount(rows) == 0
  {
    if |rows| > 0 {
      NoneCounted(rows[..|rows| - 1]);
    }
  }

  // ---------------------------------------------------------------------------------------
  // `pack_items`
  // ---------------------------------------------------------------------------------------

  /** The placed rows in row order. */
  function PlacedList(rows: seq<Row>): seq<Row>
  {
    if |rows| == 0 then []
    else
      var n := |rows| - 1;
      PlacedList(rows[..n]) + (if Placed(rows[n]) then [rows[n]] else [])
  }

  /** The indices of the placed rows, in row order. */
  function PlacedIndices(rows: seq<Row>): seq<nat>
  {
    if |rows| == 0 then []
    else
      var n := |rows| - 1;
      PlacedIndices(rows[..n]) + (if Placed(rows[n]) then [n] else [])
  }

  /** Where each entry of `PlacedList(rows)` comes from: increasing indices of placed rows. */
  lemma {:induction false} PlacedListIndices(rows: seq<Row>)
    ensures |PlacedIndices(rows)| == |PlacedList(rows)|
    ensures var idx := PlacedIndices(rows);
            forall k :: 0 <= k < |idx| ==> idx[k] < |rows| && PlacedList(rows)[k] == rows[idx[k]] && Placed(rows[idx[k]])
    ensures var idx := PlacedIndices(rows);
            forall a, b :: 0 <= a < b < |idx| ==> idx[a] < idx[b]
  {
    if |rows| > 0 {
      var n := |rows| - 1;
      PlacedListIndices(rows[..n]);
      var head := PlacedIndices(rows[..n]);
      var init := PlacedList(rows[..n]);
      assert forall k :: 0 <= k < |head| ==> head[k] < n && init[k] == rows[head[k]] && Placed(rows[head[k]]);
      if Placed(rows[n]) {
        assert PlacedList(rows) == init + [rows[n]];
        assert PlacedIndices(rows) == head + [n];
      } else {
        assert PlacedList(rows) == init;
        assert PlacedIndices(rows) == head;
      }
    }
  }

  /** The rows left unplaced, in row order, as leftover entries. */
  function UnplacedList(rows: seq<Row>): seq<Row>
  {
    if |rows| == 0 then []
    else
      var n := |rows| - 1;
      UnplacedList(rows[..n]) + (if Placed(rows[n]) then [] else [rows[n]])
  }

  /** Every row is either placed or left over. */
  lemma {:induction false} PlacedAndUnplacedPartition(rows: seq<Row>)
    ensures multiset(PlacedList(rows)) + multiset(UnplacedList(rows)) == multiset(rows)
  {
    if |rows| > 0 {
      var n := |rows| - 1;
      var init := rows[..n];
      PlacedAndUnplacedPartition(init);
      assert multiset(rows) == multiset(init) + multiset{rows[n]} by {
        assert rows == init + [rows[n]];
      }
      if Placed(rows[n]) {
        assert PlacedList(rows) == PlacedList(init) + [rows[n]];
        assert UnplacedList(rows) == UnplacedList(init);
      } else {
        assert PlacedList(rows) == PlacedList(init);
        assert UnplacedList(rows) == UnplacedList(init) + [rows[n]];
      }
    }
  }

  /** The placed list holds as many rows as are placed. */
  lemma {:induction false} PlacedListCountsPlaced(rows: seq<Row>)
    ensures |PlacedList(rows)| == PlacedCount(rows)
  {
    if |rows| > 0 {
      PlacedListCountsPlaced(rows[..|rows| - 1]);
    }
  }

  datatype PackItemsReply =
    | Done(placed: seq<Row>, leftover: seq<Service.Leftover>, steps: seq<Step>, bin: LocalSearch.Bin, utilization: real)
    | NoItemsToPack
    | PackingError

  /** `len(placed_items) / len(items) * 100`: a share of the item count. */
  function CountRatio(part: nat, total: nat): (u: real)
    requires 0 < total
    ensures u * total as real == 100.0 * part as real
    ensures part <= total ==> 0.0 <= u <= 100.0
  {
    (part as real) / (total as real) * 100.0
  }

  /** The reply for a non-empty item array: placed and leftover items after the run, its
      steps, the bin, and the share of items placed. */
  function Respond(items: seq<Row>, bin: LocalSearch.Bin): (reply: PackItemsReply)
    requires |items| > 0
    ensures reply.Done? && reply.bin == bin
    ensures |reply.placed| + |reply.leftover| == |items|
    ensures reply.utilization == CountRatio(|reply.placed|, |items|)
  {
    var st := SimplePacking(items, bin);
    var placed := PlacedList(st.rows);
    var unplaced := UnplacedList(st.rows);
    PlacedAndUnplacedPartition(st.rows);
    assert |placed| + |unplaced| == |items| by {
      assert |multiset(placed)| + |multiset(unplaced)| == |multiset(st.rows)|;
    }
    Done(placed, Service.LeftoverList(unplaced), st.steps, bin, CountRatio(|placed|, |items|))
  }

  /** `pack_items(items_data)`. */
  function PackItems(itemsData: seq<Value>, bin: LocalSearch.Bin): (reply: PackItemsReply)
    ensures |itemsData| == 0 <==> reply.NoItemsToPack?
    ensures reply.PackingError? <==> |itemsData| > 0 && Service.CreateItemsArray(itemsData).None?
    ensures reply.Done? ==>
              && |reply.placed| + |reply.leftover| == |itemsData|
              && reply.utilization == CountRatio(|reply.placed|, |itemsData|)
              && reply.bin == bin
  {
    if |itemsData| == 0 then NoItemsToPack
    else
      match Service.CreateItemsArray(itemsData)
      case None => PackingError
      case Some(items) => Respond(items, bin)
  }

  /** The placed list of well-placed rows keeps their placement: each entry in the bin, no
      two overlapping. */
  lemma PlacedListIsWellPlaced(rows: seq<Row>, bin: LocalSearch.Bin)
    requires WellPlaced(rows, bin)
    ensures var placed := PlacedList(rows);
            && (forall k :: 0 <= k < |placed| ==> InBin(Pos(placed[k].x, placed[k].y, placed[k].z), bin)
                                                   && UnderUpperBounds(placed[k], Pos(placed[k].x, placed[k].y, placed[k].z), bin))
            && (forall a, b :: 0 <= a < b < |placed| ==> !Overlap(PlacedBox(placed[a]), PlacedBox(placed[b])))
  {
    var placed := PlacedList(rows);
    var idx := PlacedIndices(rows);
    PlacedListIndices(rows);
    forall a, b | 0 <= a < b < |placed|
      ensures !Overlap(PlacedBox(placed[a]), PlacedBox(placed[b]))
    {
      assert placed[a] == rows[idx[a]] && placed[b] == rows[idx[b]];
    }
    forall k | 0 <= k < |placed|
      ensures InBin(Pos(placed[k].x, placed[k].y, placed[k].z), bin)
    {
      assert placed[k] == rows[idx[k]];
    }
  }

  /** From rows none of which is placed, the reply's placed items are disjoint and in the
      bin, and its steps are numbered 1, 2, … one per placed item. */
  lemma RespondIsSound(items: seq<Row>, bin: LocalSearch.Bin)
    requires |items| > 0 && forall k :: 0 <= k < |items| ==> !Placed(items[k])
    ensures var r := Respond(items, bin);
            && (forall k :: 0 <= k < |r.placed| ==> InBin(Pos(r.placed[k].x, r.placed[k].y, r.placed[k].z), bin)
                                                     && UnderUpperBounds(r.placed[k], Pos(r.placed[k].x, r.placed[k].y, r.placed[k].z), bin))
            && (forall a, b :: 0 <= a < b < |r.placed| ==> !Overlap(PlacedBox(r.placed[a]), PlacedBox(r.placed[b])))
            && |r.steps| == |r.placed|
            && forall k :: 0 <= k < |r.steps| ==> r.steps[k].stepNumber == k + 1
  {
    var st := SimplePacking(items, bin);
    PlacedRowsAreDisjointAndInBin(items, bin);
    OneNumberedStepPerPlacedRow(items, bin);
    PlacedListCountsPlaced(st.rows);
    PlacedListIsWellPlaced(st.rows, bin);
    assert Respond(items, bin).placed == PlacedList(st.rows) && Respond(items, bin).steps == st.steps;
  }

  /** The reply to a request that packs: placed items disjoint, in the bin and under its upper
      bounds, steps numbered 1, 2, … one per placed item. */
  lemma PackItemsIsSound(itemsData: seq<Value>, bin: LocalSearch.Bin)
    requires PackItems(itemsData, bin).Done?
    ensures var r := PackItems(itemsData, bin);
            && (forall k :: 0 <= k < |r.placed| ==> InBin(Pos(r.placed[k].x, r.placed[k].y, r.placed[k].z), bin)
                                                     && UnderUpperBounds(r.placed[k], Pos(r.placed[k].x, r.placed[k].y, r.placed[k].z), bin))
            && (forall a, b :: 0 <= a < b < |r.placed| ==> !Overlap(PlacedBox(r.placed[a]), PlacedBox(r.placed[b])))
            && |r.steps| == |r.placed|
            && forall k :: 0 <= k < |r.steps| ==> r.steps[k].stepNumber == k + 1
  {
    var items := Service.CreateItemsArray(itemsData).value;
    forall k | 0 <= k < |items|
      ensures !Placed(items[k])
    {
      assert Service.FormRow(itemsData[k]) == Some(items[k]);
    }
    RespondIsSound(items, bin);
  }

  /** Utilization counts items, not volume: when every item is placed it is 100, however much
      of the bin they fill. */
  lemma UtilizationCountsItems(itemsData: seq<Value>, bin: LocalSearch.Bin)
    requires PackItems(itemsData, bin).Done? && |PackItems(itemsData, bin).leftover| == 0
    ensures PackItems(itemsData, bin).utilization == 100.0
  {
    var r := PackItems(itemsData, bin);
    assert |r.placed| == |itemsData|;
    WholeCountIsHundred(|itemsData|);
  }

  lemma WholeCountIsHundred(n: nat)
    requires n > 0
    ensures CountRatio(n, n) == 100.0
  {
    assert (n as real) / (n as real) == 1.0;
  }
}
