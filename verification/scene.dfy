/** The geometry `VisualizationEngine` hands to the plotting library: the wire-frame outline
    of the bin, the triangulated box of each item, and the colour each item is drawn in.
    Coordinates are integers, as the packers produce them. */
module Scene {
  import opened Wrappers
  import opened Json
  import Lcg

  datatype Point = Point(x: int, y: int, z: int)

  /** A box extent: `length` along x, `width` along y, `height` along z. */
  datatype Size = Size(length: int, width: int, height: int)

  /** The eight corners of the box at `o` with extent `s`, in the order both the outline and
      the mesh list them: the bottom face counter-clockwise from `o`, then the top face. */
  function BoxCorners(o: Point, s: Size): (cs: seq<Point>)
    ensures |cs| == 8
    ensures forall i :: 0 <= i < 8 ==> IsCornerOf(cs[i], o, s)
    ensures forall i :: 0 <= i < 4 ==> cs[i].z == o.z && cs[i + 4] == cs[i].(z := o.z + s.height)
  {
    var l := o.x + s.length;
    var w := o.y + s.width;
    var h := o.z + s.height;
    [Point(o.x, o.y, o.z), Point(l, o.y, o.z), Point(l, w, o.z), Point(o.x, w, o.z),
     Point(o.x, o.y, h), Point(l, o.y, h), Point(l, w, h), Point(o.x, w, h)]
  }

  /** `p` is one of the corners of the box at `o` with extent `s`. */
  predicate IsCornerOf(p: Point, o: Point, s: Size)
  {
    && (p.x == o.x || p.x == o.x + s.length)
    && (p.y == o.y || p.y == o.y + s.width)
    && (p.z == o.z || p.z == o.z + s.height)
  }

  /** Every corner of the box is listed, so the eight points are exactly its corners. */
  lemma BoxCornersAreAllCorners(o: Point, s: Size, p: Point)
    requires IsCornerOf(p, o, s)
    ensures p in BoxCorners(o, s)
  {
    var cs := BoxCorners(o, s);
    var l := o.x + s.length;
    var w := o.y + s.width;
    var h := o.z + s.height;
    var base := if p.x == o.x && p.y == o.y then 0
                else if p.x == l && p.y == o.y then 1
                else if p.x == l && p.y == w then 2
                else 3;
    var i := if p.z == o.z then base else base + 4;
    assert cs[i] == p;
  }

  /** Two points joined by an edge of an axis-aligned box: they differ along exactly one axis. */
  predicate AxisNeighbours(p: Point, q: Point)
  {
    if p.x != q.x then p.y == q.y && p.z == q.z
    else if p.y != q.y then p.z == q.z
    else p.z != q.z
  }

  // ---------------------------------------------------------------------------------------
  // The bin outline
  // ---------------------------------------------------------------------------------------

  /** The twelve edges of `createWarehouseOutline`, as pairs of corner indices: the bottom
      face, the top face, then the four verticals. */
  function Edge(k: nat): (e: (nat, nat))
    requires k < 12
    ensures e.0 < 8 && e.1 < 8
  {
    [(0, 1), (1, 2), (2, 3), (3, 0), (4, 5), (5, 6), (6, 7), (7, 4), (0, 4), (1, 5), (2, 6), (3, 7)][k]
  }

  /** A `scatter3d` line trace: three parallel coordinate lists in which `None` (`null`) breaks
      the line. */
  datatype Lines = Lines(x: seq<Option<int>>, y: seq<Option<int>>, z: seq<Option<int>>)

  /** The trace drawing segment `k` from `a[k]` to `b[k]`, each segment followed by a break. */
  function Segments(a: seq<Point>, b: seq<Point>): (r: Lines)
    requires |a| == |b|
    ensures |r.x| == |r.y| == |r.z| == 3 * |a|
    ensures forall k :: 0 <= k < |a| ==>
              && r.x[3 * k] == Some(a[k].x) && r.y[3 * k] == Some(a[k].y) && r.z[3 * k] == Some(a[k].z)
              && r.x[3 * k + 1] == Some(b[k].x) && r.y[3 * k + 1] == Some(b[k].y) && r.z[3 * k + 1] == Some(b[k].z)
              && r.x[3 * k + 2].None? && r.y[3 * k + 2].None? && r.z[3 * k + 2].None?
  {
    if |a| == 0 then Lines([], [], [])
    else
      var n := |a| - 1;
      var r := Segments(a[..n], b[..n]);
      Lines(r.x + [Some(a[n].x), Some(b[n].x), None],
            r.y + [Some(a[n].y), Some(b[n].y), None],
            r.z + [Some(a[n].z), Some(b[n].z), None])
  }

  /** The point at which segment `k` of a trace starts (`end` = false) or ends. */
  function Endpoint(t: Lines, k: nat, end: bool): Point
    requires |t.x| == |t.y| == |t.z| && 3 * k + 2 < |t.x|
    requires t.x[3 * k].Some? && t.y[3 * k].Some? && t.z[3 * k].Some?
    requires t.x[3 * k + 1].Some? && t.y[3 * k + 1].Some? && t.z[3 * k + 1].Some?
  {
    var i := if end then 3 * k + 1 else 3 * k;
    Point(t.x[i].value, t.y[i].value, t.z[i].value)
  }

  /** The corners the outline edges start (`end` = false) or end at, edge by edge. */
  function EdgePoints(cs: seq<Point>, end: bool): (r: seq<Point>)
    requires |cs| == 8
    ensures |r| == 12
    ensures forall k :: 0 <= k < 12 ==> r[k] == cs[if end then Edge(k).1 else Edge(k).0]
  {
    seq(12, k requires 0 <= k < 12 => cs[if end then Edge(k).1 else Edge(k).0])
  }

  /** `createWarehouseOutline()` for a bin of extent `bin`: 12 segments, 36 entries per axis,
      every third one a break, every segment running between two corners of the bin. */
  function WarehouseOutline(bin: Size): (r: Lines)
    ensures |r.x| == |r.y| == |r.z| == 36
    ensures forall k :: 0 <= k < 12 ==>
              && r.x[3 * k].Some? && r.y[3 * k].Some? && r.z[3 * k].Some?
              && r.x[3 * k + 1].Some? && r.y[3 * k + 1].Some? && r.z[3 * k + 1].Some?
              && r.x[3 * k + 2].None? && r.y[3 * k + 2].None? && r.z[3 * k + 2].None?
    ensures forall k :: 0 <= k < 12 ==>
              && IsCornerOf(Endpoint(r, k, false), Point(0, 0, 0), bin)
              && IsCornerOf(Endpoint(r, k, true), Point(0, 0, 0), bin)
  {
    var cs := BoxCorners(Point(0, 0, 0), bin);
    Segments(EdgePoints(cs, false), EdgePoints(cs, true))
  }

  /** Segment `k` of the outline joins the corners the `k`-th edge names. */
  lemma OutlineSegment(bin: Size, k: nat)
    requires k < 12
    ensures var cs := BoxCorners(Point(0, 0, 0), bin);
            && Endpoint(WarehouseOutline(bin), k, false) == cs[Edge(k).0]
            && Endpoint(WarehouseOutline(bin), k, true) == cs[Edge(k).1]
  {
    var cs := BoxCorners(Point(0, 0, 0), bin);
    assert WarehouseOutline(bin) == Segments(EdgePoints(cs, false), EdgePoints(cs, true));
  }

  /** In a box of positive extent, corners `i` and `j` of the corner list differ along exactly
      one axis precisely when the outline has an edge between them. */
  lemma NeighbourCornersShareEdge(s: Size, i: nat, j: nat)
    requires s.length > 0 && s.width > 0 && s.height > 0
    requires i < 8 && j < 8
    ensures AxisNeighbours(BoxCorners(Point(0, 0, 0), s)[i], BoxCorners(Point(0, 0, 0), s)[j]) <==>
              Edge(EdgeBetween(i, j)) in {(i, j), (j, i)}
  {
    NeighboursDifferInOneSide(Point(0, 0, 0), s, i, j);
    EdgesJoinOneSideApart(i, j);
  }

  /** Whether corner `v` of the corner list lies on the high side of the box across `axis`:
      corners 1, 2, 5, 6 along x, corners 2, 3, 6, 7 along y and the top four along z. */
  predicate HighSide(v: nat, axis: nat)
  {
    if axis == 0 then v % 4 == 1 || v % 4 == 2
    else if axis == 1 then v % 4 == 2 || v % 4 == 3
    else v >= 4
  }

  /** Corners `i` and `j` sit on different sides across exactly one axis. */
  predicate OneSideApart(i: nat, j: nat)
  {
    (if HighSide(i, 0) != HighSide(j, 0) then 1 else 0)
    + (if HighSide(i, 1) != HighSide(j, 1) then 1 else 0)
    + (if HighSide(i, 2) != HighSide(j, 2) then 1 else 0) == 1
  }

  /** Each coordinate of corner `v` is the level of the face on the side `HighSide` names. */
  lemma CornerCoord(o: Point, s: Size, v: nat, axis: nat)
    requires v < 8 && axis < 3
    ensures Coord(BoxCorners(o, s)[v], axis) == FaceLevel(o, s, axis, HighSide(v, axis))
  {
    assert v == 0 || v == 1 || v == 2 || v == 3 || v == 4 || v == 5 || v == 6 || v == 7;
  }

  /** In a box of positive extent two corners are axis neighbours exactly when they sit on
      different sides across one axis only. */
  lemma NeighboursDifferInOneSide(o: Point, s: Size, i: nat, j: nat)
    requires s.length > 0 && s.width > 0 && s.height > 0
    requires i < 8 && j < 8
    ensures AxisNeighbours(BoxCorners(o, s)[i], BoxCorners(o, s)[j]) <==> OneSideApart(i, j)
  {
    var cs := BoxCorners(o, s);
    CornerCoord(o, s, i, 0);
    CornerCoord(o, s, i, 1);
    CornerCoord(o, s, i, 2);
    CornerCoord(o, s, j, 0);
    CornerCoord(o, s, j, 1);
    CornerCoord(o, s, j, 2);
    assert cs[i].x != cs[j].x <==> HighSide(i, 0) != HighSide(j, 0);
    assert cs[i].y != cs[j].y <==> HighSide(i, 1) != HighSide(j, 1);
    assert cs[i].z != cs[j].z <==> HighSide(i, 2) != HighSide(j, 2);
  }

  /** The outline's edges join exactly the corner pairs one side apart. */
  lemma EdgesJoinOneSideApart(i: nat, j: nat)
    requires i < 8 && j < 8
    ensures OneSideApart(i, j) <==> Edge(EdgeBetween(i, j)) in {(i, j), (j, i)}
  {
    assert i == 0 || i == 1 || i == 2 || i == 3 || i == 4 || i == 5 || i == 6 || i == 7;
    assert j == 0 || j == 1 || j == 2 || j == 3 || j == 4 || j == 5 || j == 6 || j == 7;
  }

  /** For a bin of positive extent, the outline draws precisely the edges of the bin: every
      segment joins two corners along one axis, and every such pair of corners is joined by a
      segment. */
  lemma OutlineDrawsBinEdges(bin: Size)
    requires bin.length > 0 && bin.width > 0 && bin.height > 0
    ensures var t := WarehouseOutline(bin);
            forall k :: 0 <= k < 12 ==> AxisNeighbours(Endpoint(t, k, false), Endpoint(t, k, true))
    ensures var t := WarehouseOutline(bin);
            forall p, q :: IsCornerOf(p, Point(0, 0, 0), bin) && IsCornerOf(q, Point(0, 0, 0), bin) && AxisNeighbours(p, q) ==>
              exists k :: 0 <= k < 12 && {Endpoint(t, k, false), Endpoint(t, k, true)} == {p, q}
  {
    forall k | 0 <= k < 12 {
      SegmentJoinsNeighbours(bin, k);
    }
    forall p, q | IsCornerOf(p, Point(0, 0, 0), bin) && IsCornerOf(q, Point(0, 0, 0), bin) && AxisNeighbours(p, q) {
      NeighboursAreJoined(bin, p, q);
    }
  }

  /** Segment `k` of the outline joins two corners along one axis. */
  lemma SegmentJoinsNeighbours(bin: Size, k: nat)
    requires bin.length > 0 && bin.width > 0 && bin.height > 0 && k < 12
    ensures var t := WarehouseOutline(bin);
            AxisNeighbours(Endpoint(t, k, false), Endpoint(t, k, true))
  {
    OutlineSegment(bin, k);
    EdgeIsOneSideApart(k);
    NeighboursDifferInOneSide(Point(0, 0, 0), bin, Edge(k).0, Edge(k).1);
  }

  /** Every outline edge joins two corners one side apart. */
  lemma EdgeIsOneSideApart(k: nat)
    requires k < 12
    ensures OneSideApart(Edge(k).0, Edge(k).1)
  {
    assert k == 0 || k == 1 || k == 2 || k == 3 || k == 4 || k == 5 || k == 6 || k == 7 || k == 8 || k == 9 || k == 10 || k == 11;
  }

  /** Two corners along one axis are joined by some segment of the outline. */
  lemma NeighboursAreJoined(bin: Size, p: Point, q: Point)
    requires bin.length > 0 && bin.width > 0 && bin.height > 0
    requires IsCornerOf(p, Point(0, 0, 0), bin) && IsCornerOf(q, Point(0, 0, 0), bin) && AxisNeighbours(p, q)
    ensures var t := WarehouseOutline(bin);
            exists k :: 0 <= k < 12 && {Endpoint(t, k, false), Endpoint(t, k, true)} == {p, q}
  {
    var o := Point(0, 0, 0);
    var t := WarehouseOutline(bin);
    var cs := BoxCorners(o, bin);
    BoxCornersAreAllCorners(o, bin, p);
    BoxCornersAreAllCorners(o, bin, q);
    var i :| 0 <= i < 8 && cs[i] == p;
    var j :| 0 <= j < 8 && cs[j] == q;
    var k := EdgeBetween(i, j);
    NeighboursDifferInOneSide(o, bin, i, j);
    EdgesJoinOneSideApart(i, j);
    OutlineSegment(bin, k);
    var a, b := Endpoint(t, k, false), Endpoint(t, k, true);
    assert a == cs[Edge(k).0] && b == cs[Edge(k).1];
    if Edge(k) == (i, j) {
      assert a == p && b == q;
    } else {
      assert Edge(k) == (j, i);
      assert a == q && b == p;
    }
    SamePair(a, b, p, q);
  }

  lemma SamePair<T>(a: T, b: T, p: T, q: T)
    requires (a == p && b == q) || (a == q && b == p)
    ensures {a, b} == {p, q}
  {
  }

  /** The outline edge joining corners `i` and `j` of the corner list, when they are joined. */
  function EdgeBetween(i: nat, j: nat): (k: nat)
    requires i < 8 && j < 8
    ensures k < 12
  {
    var e := if i < j then (i, j) else (j, i);
    if e == (0, 1) then 0 else if e == (1, 2) then 1 else if e == (2, 3) then 2 else if e == (0, 3) then 3
    else if e == (4, 5) then 4 else if e == (5, 6) then 5 else if e == (6, 7) then 6 else if e == (4, 7) then 7
    else if e == (0, 4) then 8 else if e == (1, 5) then 9 else if e == (2, 6) then 10 else 11
  }

  // ---------------------------------------------------------------------------------------
  // The engine's state and the colour palette
  // ---------------------------------------------------------------------------------------

  /** What `VisualizationEngine` keeps between calls: the colour palette and the bin size. */
  datatype Engine = Engine(palette: seq<Value>, binSize: Size)

  /** The palette is never empty, so every colour lookup by a non-negative index succeeds. */
  predicate Valid(e: Engine)
  {
    |e.palette| > 0
  }

  /** The constructor's fifteen colours (the tenth and the fourteenth coincide) and a 10x10x10 bin. */
  function InitialEngine(): (e: Engine)
    ensures Valid(e) && |e.palette| == 15
    ensures e.binSize == Size(10, 10, 10)
  {
    Engine([JStr("#FF6B6B"), JStr("#4ECDC4"), JStr("#45B7D1"), JStr("#96CEB4"), JStr("#FFEAA7"),
            JStr("#DDA0DD"), JStr("#98D8C8"), JStr("#F7DC6F"), JStr("#BB8FCE"), JStr("#85C1E9"),
            JStr("#F8C471"), JStr("#82E0AA"), JStr("#F1948A"), JStr("#85C1E9"), JStr("#F4D03F")],
           Size(10, 10, 10))
  }

  /** `getBinSize()`: a copy of the stored size. */
  function GetBinSize(e: Engine): Size
  {
    e.binSize
  }

  /** `setBinSize(binSize)`: later reads see exactly the given size; the palette is untouched. */
  function SetBinSize(e: Engine, size: Size): (r: Engine)
    ensures GetBinSize(r) == size
    ensures r.palette == e.palette
    ensures Valid(e) ==> Valid(r)
  {
    e.(binSize := size)
  }

  /** `setColorPalette(colors)`: a non-empty array replaces the palette; anything else is
      ignored. The palette therefore stays non-empty. */
  function SetColorPalette(e: Engine, colors: Value): (r: Engine)
    ensures colors.JArr? && |colors.elems| > 0 ==> r.palette == colors.elems
    ensures !(colors.JArr? && |colors.elems| > 0) ==> r == e
    ensures r.binSize == e.binSize
    ensures Valid(e) ==> Valid(r)
  {
    if colors.JArr? && |colors.elems| > 0 then e.(palette := colors.elems) else e
  }

  /** `getItemColor(index)`: the palette entry at `index % n` with JavaScript's remainder. A
      negative index that is not a multiple of `n` gives a negative remainder and so
      `undefined` (`None`); a non-negative index always gets a colour of the palette. */
  function GetItemColor(e: Engine, index: int): (r: Option<Value>)
    requires Valid(e)
    ensures index >= 0 ==> r == Some(e.palette[index % |e.palette|])
    ensures r.None? <==> index < 0 && index % |e.palette| != 0
    ensures r.Some? ==> r.value in e.palette
  {
    var i := Lcg.JsRem(index, |e.palette|);
    NegModZero(index, |e.palette|);
    if i < 0 then None else Some(e.palette[i])
  }

  /** Colours repeat with the palette's length. */
  lemma ColorsCycle(e: Engine, index: nat)
    requires Valid(e)
    ensures GetItemColor(e, index + |e.palette|) == GetItemColor(e, index)
  {
    var n := |e.palette|;
    ModUnique(index + n, n, index / n + 1, index % n);
  }

  /** The remainder is determined by any decomposition `x == q * n + r` with `0 <= r < n`. */
  lemma ModUnique(x: int, n: int, q: int, r: int)
    requires n > 0 && 0 <= r < n && x == q * n + r
    ensures x % n == r && x / n == q
  {
    var q', r' := x / n, x % n;
    assert (q - q') * n == r' - r;
    if q > q' {
      MulAtLeast(q - q', n);
    } else if q < q' {
      MulAtLeast(q' - q, n);
    }
  }

  lemma MulAtLeast(a: int, n: int)
    requires a >= 1 && n >= 0
    ensures a * n >= n
  {
    var b := a - 1;
    assert a * n == b * n + n;
    assert b * n >= 0;
  }

  /** `-x` is a multiple of `n` exactly when `x` is. */
  lemma NegModZero(x: int, n: int)
    requires n > 0
    ensures (-x) % n == 0 <==> x % n == 0
  {
    var q, r := x / n, x % n;
    if r == 0 {
      ModUnique(-x, n, -q, 0);
    } else {
      ModUnique(-x, n, -q - 1, n - r);
    }
  }

  // ---------------------------------------------------------------------------------------
  // The item mesh
  // ---------------------------------------------------------------------------------------

  /** The fields of an item `createItemMesh` reads: a missing coordinate (`None`) defaults to 0. */
  datatype MeshItem = MeshItem(x: Option<int>, y: Option<int>, z: Option<int>, length: int, width: int, height: int)

  function Origin(item: MeshItem): Point
  {
    Point(item.x.GetOr(0), item.y.GetOr(0), item.z.GetOr(0))
  }

  function Extent(item: MeshItem): Size
  {
    Size(item.length, item.width, item.height)
  }

  /** A `mesh3d` trace: vertex coordinates and, triangle by triangle, three vertex indices. */
  datatype Mesh = Mesh(x: seq<int>, y: seq<int>, z: seq<int>, i: seq<nat>, j: seq<nat>, k: seq<nat>, color: Value)

  /** The twelve triangles of `createItemMesh`, two per face of the box: bottom, top, front,
      back, left, right. */
  function Triangle(t: nat): (f: (nat, nat, nat))
    requires t < 12
    ensures f.0 < 8 && f.1 < 8 && f.2 < 8
  {
    [(0, 1, 2), (0, 2, 3), (4, 7, 6), (4, 6, 5), (0, 4, 5), (0, 5, 1),
     (2, 6, 7), (2, 7, 3), (0, 3, 7), (0, 7, 4), (1, 5, 6), (1, 6, 2)][t]
  }

  function Vertex(m: Mesh, v: nat): Point
    requires v < |m.x| && v < |m.y| && v < |m.z|
  {
    Point(m.x[v], m.y[v], m.z[v])
  }

  /** `createItemMesh(item, colorIndex)` without its hover text: eight vertices, each a corner
      of the item's box, twelve triangles over them, and the palette colour of `colorIndex`. */
  function ItemMesh(e: Engine, item: MeshItem, colorIndex: nat): (m: Mesh)
    requires Valid(e)
    ensures |m.x| == |m.y| == |m.z| == 8
    ensures |m.i| == |m.j| == |m.k| == 12
    ensures forall t :: 0 <= t < 12 ==> m.i[t] < 8 && m.j[t] < 8 && m.k[t] < 8
    ensures forall v :: 0 <= v < 8 ==> IsCornerOf(Vertex(m, v), Origin(item), Extent(item))
    ensures GetItemColor(e, colorIndex) == Some(m.color)
  {
    var cs := BoxCorners(Origin(item), Extent(item));
    Mesh(seq(8, v requires 0 <= v < 8 => cs[v].x),
         seq(8, v requires 0 <= v < 8 => cs[v].y),
         seq(8, v requires 0 <= v < 8 => cs[v].z),
         seq(12, t requires 0 <= t < 12 => Triangle(t).0),
         seq(12, t requires 0 <= t < 12 => Triangle(t).1),
         seq(12, t requires 0 <= t < 12 => Triangle(t).2),
         e.palette[colorIndex % |e.palette|])
  }

  /** The mesh's vertices are the corners of the box listed in the outline's order, so every
      corner of the item's box is a vertex. */
  lemma MeshVerticesAreBoxCorners(e: Engine, item: MeshItem, colorIndex: nat, p: Point)
    requires Valid(e)
    requires IsCornerOf(p, Origin(item), Extent(item))
    ensures var m := ItemMesh(e, item, colorIndex);
            exists v :: 0 <= v < 8 && Vertex(m, v) == p
  {
    var m := ItemMesh(e, item, colorIndex);
    var cs := BoxCorners(Origin(item), Extent(item));
    BoxCornersAreAllCorners(Origin(item), Extent(item), p);
    var v :| 0 <= v < 8 && cs[v] == p;
    assert Vertex(m, v) == p;
  }

  /** Coordinate `axis` (0 = x, 1 = y, 2 = z) of a point. */
  function Coord(p: Point, axis: nat): int
  {
    if axis == 0 then p.x else if axis == 1 then p.y else p.z
  }

  /** The level of the low (`hi` = false) or high face of the box across `axis`. */
  function FaceLevel(o: Point, s: Size, axis: nat, hi: bool): int
  {
    var ext := if axis == 0 then s.length else if axis == 1 then s.width else s.height;
    if hi then Coord(o, axis) + ext else Coord(o, axis)
  }

  /** Triangle `t` of mesh `m` lies in the face of the box at `o` with extent `s` across
      `axis` on side `hi`. */
  predicate TriangleOnFace(m: Mesh, t: nat, o: Point, s: Size, axis: nat, hi: bool)
    requires t < 12 && |m.x| == |m.y| == |m.z| == 8
  {
    var (a, b, c) := Triangle(t);
    && Coord(Vertex(m, a), axis) == FaceLevel(o, s, axis, hi)
    && Coord(Vertex(m, b), axis) == FaceLevel(o, s, axis, hi)
    && Coord(Vertex(m, c), axis) == FaceLevel(o, s, axis, hi)
  }

  /** Triangle `t` has three distinct corners. */
  predicate NonDegenerate(t: nat)
    requires t < 12
  {
    Triangle(t).0 != Triangle(t).1 && Triangle(t).1 != Triangle(t).2 && Triangle(t).0 != Triangle(t).2
  }

  /** Each triangle of the mesh has three distinct corners lying on one face of the item's box. */
  lemma TrianglesLieOnFaces(e: Engine, item: MeshItem, colorIndex: nat, t: nat)
    requires Valid(e) && t < 12
    ensures NonDegenerate(t)
    ensures exists axis: nat, hi: bool :: axis < 3 && TriangleOnFace(ItemMesh(e, item, colorIndex), t, Origin(item), Extent(item), axis, hi)
  {
    var m := ItemMesh(e, item, colorIndex);
    var o, s := Origin(item), Extent(item);
    var cs := BoxCorners(o, s);
    assert forall v :: 0 <= v < 8 ==> Vertex(m, v) == cs[v];
    var axis, hi := FaceAxis(t), FaceIsHigh(t);
    TriangleSides(t);
    var (a, b, c) := Triangle(t);
    CornerCoord(o, s, a, axis);
    CornerCoord(o, s, b, axis);
    CornerCoord(o, s, c, axis);
    assert TriangleOnFace(m, t, o, s, axis, hi);
  }

  /** The axis across which lies the face of triangle `t`. Triangles 2f and 2f + 1 cover face
      f: bottom, top, front, back, left, right. */
  function FaceAxis(t: nat): nat
  {
    var f := t / 2;
    if f < 2 then 2 else if f < 4 then 1 else 0
  }

  /** Whether triangle `t` lies on the high side of `FaceAxis(t)`. */
  function FaceIsHigh(t: nat): bool
  {
    t / 2 % 2 == 1
  }

  /** Triangle `t` has three distinct corners, all on the side `FaceIsHigh(t)` across `FaceAxis(t)`. */
  lemma TriangleSides(t: nat)
    requires t < 12
    ensures FaceAxis(t) < 3 && NonDegenerate(t)
    ensures var axis, hi := FaceAxis(t), FaceIsHigh(t);
            HighSide(Triangle(t).0, axis) == hi && HighSide(Triangle(t).1, axis) == hi && HighSide(Triangle(t).2, axis) == hi
  {
    assert t == 0 || t == 1 || t == 2 || t == 3 || t == 4 || t == 5 || t == 6 || t == 7 || t == 8 || t == 9 || t == 10 || t == 11;
  }

  /** On a box with no flat side, every corner of every face belongs to a triangle lying in
      that face; with the previous lemma, the twelve triangles tile the box's surface. */
  lemma FacesAreCovered(e: Engine, item: MeshItem, colorIndex: nat, axis: nat, hi: bool, v: nat)
    requires Valid(e)
    requires item.length != 0 && item.width != 0 && item.height != 0
    requires axis < 3 && v < 8
    requires Coord(Vertex(ItemMesh(e, item, colorIndex), v), axis) == FaceLevel(Origin(item), Extent(item), axis, hi)
    ensures exists t :: 0 <= t < 12 && v in {Triangle(t).0, Triangle(t).1, Triangle(t).2}
                        && TriangleOnFace(ItemMesh(e, item, colorIndex), t, Origin(item), Extent(item), axis, hi)
  {
    var m := ItemMesh(e, item, colorIndex);
    var o, s := Origin(item), Extent(item);
    var cs := BoxCorners(o, s);
    assert forall w :: 0 <= w < 8 ==> Vertex(m, w) == cs[w];
    CornerCoord(o, s, v, axis);
    assert HighSide(v, axis) == hi;
    var t := FaceTriangle(axis, hi, v);
    FaceTriangleCovers(axis, hi, v);
    CornerCoord(o, s, Triangle(t).0, axis);
    CornerCoord(o, s, Triangle(t).1, axis);
    CornerCoord(o, s, Triangle(t).2, axis);
    assert TriangleOnFace(m, t, o, s, axis, hi);
  }

  /** For a corner on side `hi` across `axis`, `FaceTriangle` picks a triangle through it whose
      corners all lie on that side. */
  lemma FaceTriangleCovers(axis: nat, hi: bool, v: nat)
    requires axis < 3 && v < 8 && HighSide(v, axis) == hi
    ensures var t := FaceTriangle(axis, hi, v);
            && v in {Triangle(t).0, Triangle(t).1, Triangle(t).2}
            && HighSide(Triangle(t).0, axis) == hi && HighSide(Triangle(t).1, axis) == hi && HighSide(Triangle(t).2, axis) == hi
  {
    assert v == 0 || v == 1 || v == 2 || v == 3 || v == 4 || v == 5 || v == 6 || v == 7;
    assert axis == 0 || axis == 1 || axis == 2;
  }

  /** The triangle of face (`axis`, `hi`) that uses corner `v`, for the corners in that face. */
  function FaceTriangle(axis: nat, hi: bool, v: nat): (t: nat)
    requires axis < 3 && v < 8
    ensures t < 12
  {
    var f := if axis == 2 then (if hi then 1 else 0) else if axis == 1 then (if hi then 3 else 2) else (if hi then 5 else 4);
    var first := Triangle(2 * f);
    if v == first.0 || v == first.1 || v == first.2 then 2 * f else 2 * f + 1
  }
}
