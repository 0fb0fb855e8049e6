/** The nine-column item row both Python packers work on, box rotation, and the half-open box
    overlap test. A row whose x is negative has not been placed. Column values are unbounded
    integers here; the arrays' 32-bit wrap-around is not modelled. */
module Rows {

  /** One row of the item array: position, rotation id, unrotated extent, id and request id. */
  datatype Row = Row(x: int, y: int, z: int, rotation: int, l: int, w: int, h: int, id: int, requestId: int)

  /** A row as read from the form or the JSON file: not placed, rotation 0. */
  function Unplaced(l: int, w: int, h: int, id: int, requestId: int): (r: Row)
    ensures r.x == r.y == r.z == -1 && r.rotation == 0
    ensures r.l == l && r.w == w && r.h == h && r.id == id && r.requestId == requestId
  {
    Row(-1, -1, -1, 0, l, w, h, id, requestId)
  }

  /** The same item moved to (`x`, `y`, `z`) with rotation `rotation`. */
  function PlaceAt(r: Row, x: int, y: int, z: int, rotation: int): (p: Row)
    ensures (p.x, p.y, p.z, p.rotation) == (x, y, z, rotation)
    ensures SameItem(p, r)
  {
    r.(x := x, y := y, z := z, rotation := rotation)
  }

  /** Two rows describe the same item (extent and ids), wherever either is placed. */
  predicate SameItem(a: Row, b: Row)
  {
    a.l == b.l && a.w == b.w && a.h == b.h && a.id == b.id && a.requestId == b.requestId
  }

  datatype Dims = Dims(l: int, w: int, h: int)

  /** A candidate position in the bin. */
  datatype Pos = Pos(x: int, y: int, z: int)

  /** `get_rotation_by_id(l0, w0, h0, rotation_id, lock_axis)`. With the axis locked only id 1
      turns the item (swapping length and width); otherwise ids 0 to 5 pick one of the six
      orders of the three extents. Any other id leaves the item as it is. */
  function Rotate(d: Dims, rotationId: int, lockAxis: bool): (r: Dims)
    ensures lockAxis ==> r.h == d.h
    ensures lockAxis ==> r == (if rotationId == 1 then Dims(d.w, d.l, d.h) else d)
    ensures !(0 <= rotationId < 6) ==> r == d
  {
    if lockAxis then
      if rotationId == 0 then d
      else if rotationId == 1 then Dims(d.w, d.l, d.h)
      else d
    else
      var rotations := [Dims(d.l, d.w, d.h), Dims(d.w, d.l, d.h), Dims(d.l, d.h, d.w),
                        Dims(d.w, d.h, d.l), Dims(d.h, d.w, d.l), Dims(d.h, d.l, d.w)];
      if 0 <= rotationId < |rotations| then rotations[rotationId] else d
  }

  /** Every rotation reorders the three extents. */
  lemma RotationPermutes(d: Dims, rotationId: int, lockAxis: bool)
    ensures var r := Rotate(d, rotationId, lockAxis);
            multiset{r.l, r.w, r.h} == multiset{d.l, d.w, d.h}
  {
    var r := Rotate(d, rotationId, lockAxis);
    ThreeOrders(d.l, d.w, d.h);
    if lockAxis || !(0 <= rotationId < 6) || rotationId <= 1 {
      assert r == d || r == Dims(d.w, d.l, d.h);
    } else if rotationId == 2 {
      assert r == Dims(d.l, d.h, d.w);
    } else if rotationId == 3 {
      assert r == Dims(d.w, d.h, d.l);
    } else if rotationId == 4 {
      assert r == Dims(d.h, d.w, d.l);
    } else {
      assert r == Dims(d.h, d.l, d.w);
    }
  }

  /** The six orders of three values hold the same values. */
  lemma ThreeOrders(a: int, b: int, c: int)
    ensures multiset{b, a, c} == multiset{a, b, c}
    ensures multiset{a, c, b} == multiset{a, b, c}
    ensures multiset{b, c, a} == multiset{a, b, c}
    ensures multiset{c, b, a} == multiset{a, b, c}
    ensures multiset{c, a, b} == multiset{a, b, c}
  {
    SwapFirst(a, b, c);
    SwapLast(a, b, c);
    SwapLast(b, a, c);
    SwapFirst(b, c, a);
    SwapFirst(a, c, b);
  }

  lemma SwapFirst(a: int, b: int, c: int)
    ensures multiset{b, a, c} == multiset{a, b, c}
  {
  }

  lemma SwapLast(a: int, b: int, c: int)
    ensures multiset{a, c, b} == multiset{a, b, c}
  {
  }

  /** Every rotation keeps the item's volume. */
  lemma RotationKeepsVolume(d: Dims, rotationId: int, lockAxis: bool)
    ensures var r := Rotate(d, rotationId, lockAxis);
            r.l * r.w * r.h == d.l * d.w * d.h
  {
    VolumeOfReorder(d.l, d.w, d.h);
    if !lockAxis && 0 <= rotationId < 6 {
      assert rotationId == 0 || rotationId == 1 || rotationId == 2 || rotationId == 3 || rotationId == 4 || rotationId == 5;
    }
  }

  /** The product of three extents does not depend on their order. */
  lemma VolumeOfReorder(a: int, b: int, c: int)
    ensures a * b * c == b * a * c == a * c * b == b * c * a == c * b * a == c * a * b
  {
  }

  /** Without the lock, every order of the three extents is reached by one of the ids 0 to 5:
      every orientation of the box is available. */
  lemma {:induction false} FreeRotationsAreAllOrders(d: Dims, target: Dims)
    requires multiset{target.l, target.w, target.h} == multiset{d.l, d.w, d.h}
    ensures exists id :: 0 <= id < 6 && Rotate(d, id, false) == target
  {
    var ms := multiset{d.l, d.w, d.h};
    assert target.l in ms && target.w in ms && target.h in ms;
    if target == Dims(d.l, d.w, d.h) {
      assert Rotate(d, 0, false) == target;
    } else if target == Dims(d.w, d.l, d.h) {
      assert Rotate(d, 1, false) == target;
    } else if target == Dims(d.l, d.h, d.w) {
      assert Rotate(d, 2, false) == target;
    } else if target == Dims(d.w, d.h, d.l) {
      assert Rotate(d, 3, false) == target;
    } else if target == Dims(d.h, d.w, d.l) {
      assert Rotate(d, 4, false) == target;
    } else {
      assert target == Dims(d.h, d.l, d.w) by {
        ThirdOfMultiset(d, target);
      }
      assert Rotate(d, 5, false) == target;
    }
  }

  /** A triple equal to `d` as a multiset but none of its first five orders is the sixth. */
  lemma ThirdOfMultiset(d: Dims, t: Dims)
    requires multiset{t.l, t.w, t.h} == multiset{d.l, d.w, d.h}
    requires t != Dims(d.l, d.w, d.h) && t != Dims(d.w, d.l, d.h) && t != Dims(d.l, d.h, d.w)
    requires t != Dims(d.w, d.h, d.l) && t != Dims(d.h, d.w, d.l)
    ensures t == Dims(d.h, d.l, d.w)
  {
    var ms := multiset{d.l, d.w, d.h};
    assert ms[t.l] >= 1 && ms[t.w] >= 1 && ms[t.h] >= 1;
    assert multiset{t.l, t.w, t.h}[t.l] == ms[t.l];
    assert multiset{t.l, t.w, t.h}[t.w] == ms[t.w];
    assert multiset{t.l, t.w, t.h}[t.h] == ms[t.h];
    assert multiset{t.l, t.w, t.h}[d.l] == ms[d.l];
    assert multiset{t.l, t.w, t.h}[d.w] == ms[d.w];
    assert multiset{t.l, t.w, t.h}[d.h] == ms[d.h];
  }

  /** The extent of a row as it stands in the bin: its unrotated extent turned by its rotation. */
  function Extent(r: Row, lockAxis: bool): Dims
  {
    Rotate(Dims(r.l, r.w, r.h), r.rotation, lockAxis)
  }

  /** A box: corner and extent. It occupies the half-open cells `[x, x + l) x [y, y + w) x [z, z + h)`. */
  datatype Box = Box(x: int, y: int, z: int, l: int, w: int, h: int)

  /** The box a placed row occupies. */
  function BoxOf(r: Row, lockAxis: bool): (b: Box)
    ensures (b.x, b.y, b.z) == (r.x, r.y, r.z)
  {
    var d := Extent(r, lockAxis);
    Box(r.x, r.y, r.z, d.l, d.w, d.h)
  }

  /** `is_overlap(...)`: the boxes are not separated along any axis. Boxes that only touch do
      not overlap. */
  predicate Overlap(a: Box, b: Box)
  {
    !(a.x + a.l <= b.x || b.x + b.l <= a.x ||
      a.y + a.w <= b.y || b.y + b.w <= a.y ||
      a.z + a.h <= b.z || b.z + b.h <= a.z)
  }

  /** The point lies in the half-open box. */
  predicate Inside(px: int, py: int, pz: int, b: Box)
  {
    b.x <= px < b.x + b.l && b.y <= py < b.y + b.w && b.z <= pz < b.z + b.h
  }

  /** Boxes with positive extents overlap exactly when some cell lies in both; in particular
      boxes that share only a face do not overlap. */
  lemma OverlapIffSharedCell(a: Box, b: Box)
    requires a.l > 0 && a.w > 0 && a.h > 0 && b.l > 0 && b.w > 0 && b.h > 0
    ensures Overlap(a, b) <==> exists px, py, pz :: Inside(px, py, pz, a) && Inside(px, py, pz, b)
  {
    if Overlap(a, b) {
      var px := if a.x < b.x then b.x else a.x;
      var py := if a.y < b.y then b.y else a.y;
      var pz := if a.z < b.z then b.z else a.z;
      assert Inside(px, py, pz, a) && Inside(px, py, pz, b);
    }
  }
}
