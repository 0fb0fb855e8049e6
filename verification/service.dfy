/** `LocalSearchPackingAlgorithm` of `local_search_algorithm.py`: reading the request's items
    into rows, running the packer with the axis locked, and shaping the result. A `None`
    stands for the exception the server turns into a 500 reply. The packing time and the
    snapshot's timestamp come from the clock and are left out. */
module Service {
  import opened Wrappers
  import opened Json
  import opened Rows
  import LocalSearch

  /** `int(item[key])`. */
  function IntField(item: Value, key: string): Option<int>
  {
    match PySubscript(item, key)
    case None => None
    case Some(v) => PyInt(v)
  }

  /** `int(item.get('request_id', item['id']))`: the default is evaluated first, so an item
      without an id fails even when it has a request id. */
  function RequestIdField(item: Value): (r: Option<int>)
    ensures PySubscript(item, "id").None? ==> r.None?
    ensures PySubscript(item, "id").Some? && PySubscript(item, "request_id").None? ==> r == IntField(item, "id")
  {
    match PySubscript(item, "id")
    case None => None
    case Some(id) =>
      match PyGet(item, "request_id", id)
      case None => None
      case Some(v) => PyInt(v)
  }

  /** A dictionary holding the integer `v` under `key` converts it back. */
  lemma IntFieldOfInt(item: Value, key: string, v: int)
    requires item.JObj? && Lookup(item.fields, key) == Some(JInt(v))
    ensures IntField(item, key) == Some(v)
  {
  }

  /** With integer `id` and `request_id` fields, the request id is read as given. */
  lemma RequestIdOfInts(item: Value, id: int, rid: int)
    requires item.JObj? && Lookup(item.fields, "id") == Some(JInt(id)) && Lookup(item.fields, "request_id") == Some(JInt(rid))
    ensures RequestIdField(item) == Some(rid)
  {
  }

  /** The unplaced row read from fields `kl`, `kw`, `kh`, `id` and `request_id`. */
  function RowOf(item: Value, kl: string, kw: string, kh: string): Option<Row>
  {
    match (IntField(item, kl), IntField(item, kw), IntField(item, kh), IntField(item, "id"), RequestIdField(item))
    case (Some(l), Some(w), Some(h), Some(id), Some(rid)) => Some(Unplaced(l, w, h, id, rid))
    case _ => None
  }

  /** One item of the form: `{"length", "width", "height", "id", "request_id"}`. */
  function FormRow(item: Value): Option<Row>
  {
    RowOf(item, "length", "width", "height")
  }

  /** A dictionary holding integer `length`, `width`, `height` and `id` fields reads as the
      unplaced row with those extents and id; its request id is the `request_id` field, or
      the id when that field is absent. Other fields and the order of keys do not matter. */
  lemma FormRowReadsIntFields(item: Value, r: Row)
    requires item.JObj?
    requires Lookup(item.fields, "length") == Some(JInt(r.l)) && Lookup(item.fields, "width") == Some(JInt(r.w))
    requires Lookup(item.fields, "height") == Some(JInt(r.h)) && Lookup(item.fields, "id") == Some(JInt(r.id))
    requires Lookup(item.fields, "request_id") == Some(JInt(r.requestId))
          || (Lookup(item.fields, "request_id").None? && r.requestId == r.id)
    ensures FormRow(item) == Some(Unplaced(r.l, r.w, r.h, r.id, r.requestId))
  {
    IntFieldOfInt(item, "length", r.l);
    IntFieldOfInt(item, "width", r.w);
    IntFieldOfInt(item, "height", r.h);
    IntFieldOfInt(item, "id", r.id);
    if Lookup(item.fields, "request_id").Some? {
      RequestIdOfInts(item, r.id, r.requestId);
    }
  }

  /** All the values, when none is missing; the first missing one stops the loop that
      reads them. */
  function Collect<T>(opts: seq<Option<T>>): (r: Option<seq<T>>)
    ensures r.Some? <==> forall k :: 0 <= k < |opts| ==> opts[k].Some?
    ensures r.Some? ==> |r.value| == |opts| && forall k :: 0 <= k < |opts| ==> opts[k] == Some(r.value[k])
  {
    if |opts| == 0 then Some([])
    else
      var n := |opts| - 1;
      assert forall k :: 0 <= k < n ==> opts[..n][k] == opts[k];
      match Collect(opts[..n])
      case None => None
      case Some(vs) =>
        match opts[n]
        case None => None
        case Some(v) =>
          assert forall k :: 0 <= k < n ==> (vs + [v])[k] == vs[k];
          Some(vs + [v])
  }

  /** `create_items_array(items_data)`: one unplaced row per item, in order; any item that
      lacks a field or holds a value `int()` refuses makes the whole call fail. */
  function CreateItemsArray(items: seq<Value>): (r: Option<seq<Row>>)
    ensures r.Some? <==> forall k :: 0 <= k < |items| ==> FormRow(items[k]).Some?
    ensures r.Some? ==> |r.value| == |items| && forall k :: 0 <= k < |items| ==> FormRow(items[k]) == Some(r.value[k])
  {
    var opts := seq(|items|, k requires 0 <= k < |items| => FormRow(items[k]));
    assert forall k :: 0 <= k < |items| ==> opts[k] == FormRow(items[k]);
    Collect(opts)
  }

  /** `item_type.get('quantity', 1)` as `range()` takes it: an integer (booleans count as 0 and 1);
      anything else is the `TypeError` of `range`. */
  function Quantity(itemType: Value): (q: Option<int>)
    ensures itemType.JObj? && Lookup(itemType.fields, "quantity").None? ==> q == Some(1)
  {
    match PyGet(itemType, "quantity", JInt(1))
    case Some(JInt(i)) => Some(i)
    case Some(JBool(b)) => Some(if b then 1 else 0)
    case _ => None
  }

  /** `n` copies of `r`. */
  function Repeat(r: Row, n: nat): (s: seq<Row>)
    ensures |s| == n && forall k :: 0 <= k < n ==> s[k] == r
  {
    if n == 0 then [] else Repeat(r, n - 1) + [r]
  }

  /** The rows of one item type of the L/W/H format: as many copies as `range(quantity)` runs.
      The fields are read inside the loop, so a type with no copies is never read. */
  function ExpandType(itemType: Value): (r: Option<seq<Row>>)
    ensures r.Some? ==> Quantity(itemType).Some? && |r.value| == Copies(Quantity(itemType).value)
    ensures r.Some? && |r.value| > 0 ==> RowOf(itemType, "L", "W", "H") == Some(r.value[0]) && r.value == Repeat(r.value[0], |r.value|)
  {
    match Quantity(itemType)
    case None => None
    case Some(q) =>
      if q <= 0 then Some([])
      else
        match RowOf(itemType, "L", "W", "H")
        case None => None
        case Some(row) => Some(Repeat(row, q))
  }

  /** How many times `range(q)` runs. */
  function Copies(q: int): nat
  {
    if q <= 0 then 0 else q
  }

  /** The number of rows the L/W/H item types expand to, when each quantity is readable. */
  function TotalCopies(types: seq<Value>): int
  {
    if |types| == 0 then 0
    else
      var n := |types| - 1;
      TotalCopies(types[..n]) + match Quantity(types[n]) case Some(q) => Copies(q) case None => 0
  }

  /** The groups joined in order. */
  function Concat(groups: seq<seq<Row>>): seq<Row>
  {
    if |groups| == 0 then [] else Concat(groups[..|groups| - 1]) + groups[|groups| - 1]
  }

  /** Joined expansions have as many rows as the item types' quantities say. */
  lemma {:induction false} ConcatOfExpansions(types: seq<Value>, groups: seq<seq<Row>>)
    requires |groups| == |types|
    requires forall k :: 0 <= k < |types| ==> Quantity(types[k]).Some? && |groups[k]| == Copies(Quantity(types[k]).value)
    ensures |Concat(groups)| == TotalCopies(types)
  {
    if |types| > 0 {
      var n := |types| - 1;
      var ts, gs := types[..n], groups[..n];
      forall k | 0 <= k < n
        ensures Quantity(ts[k]).Some? && |gs[k]| == Copies(Quantity(ts[k]).value)
      {
        assert ts[k] == types[k] && gs[k] == groups[k];
      }
      ConcatOfExpansions(ts, gs);
      assert Concat(groups) == Concat(gs) + groups[n];
      assert TotalCopies(types) == TotalCopies(ts) + Copies(Quantity(types[n]).value);
    }
  }

  /** `create_items_from_json_new_format(items_data)`: the item types expanded in order; any
      type whose quantity `range()` refuses, or that has copies but lacks a field or holds a
      value `int()` refuses, makes the whole call fail. */
  function CreateItemsFromJsonNewFormat(types: seq<Value>): (r: Option<seq<Row>>)
    ensures r.Some? <==> forall k :: 0 <= k < |types| ==> ExpandType(types[k]).Some?
    ensures r.Some? ==> |r.value| == TotalCopies(types)
  {
    var opts := seq(|types|, k requires 0 <= k < |types| => ExpandType(types[k]));
    assert forall k :: 0 <= k < |types| ==> opts[k] == ExpandType(types[k]);
    match Collect(opts)
    case None => None
    case Some(groups) =>
      assert forall k :: 0 <= k < |types| ==> ExpandType(types[k]) == Some(groups[k]);
      ConcatOfExpansions(types, groups);
      Some(Concat(groups))
  }

  /** An item type with integer `L`, `W`, `H`, `id` and `quantity` fields, `quantity`
      positive, expands to `quantity` copies of the unplaced row with those extents; the
      request id is the `request_id` field, or the id when that field is absent. */
  lemma ExpandTypeReadsIntFields(itemType: Value, r: Row, quantity: nat)
    requires itemType.JObj? && quantity > 0
    requires Lookup(itemType.fields, "L") == Some(JInt(r.l)) && Lookup(itemType.fields, "W") == Some(JInt(r.w))
    requires Lookup(itemType.fields, "H") == Some(JInt(r.h)) && Lookup(itemType.fields, "id") == Some(JInt(r.id))
    requires Lookup(itemType.fields, "request_id") == Some(JInt(r.requestId))
          || (Lookup(itemType.fields, "request_id").None? && r.requestId == r.id)
    requires Lookup(itemType.fields, "quantity") == Some(JInt(quantity))
    ensures ExpandType(itemType) == Some(Repeat(Unplaced(r.l, r.w, r.h, r.id, r.requestId), quantity))
  {
    QuantityOfInt(itemType, quantity);
    IntFieldOfInt(itemType, "L", r.l);
    IntFieldOfInt(itemType, "W", r.w);
    IntFieldOfInt(itemType, "H", r.h);
    IntFieldOfInt(itemType, "id", r.id);
    if Lookup(itemType.fields, "request_id").Some? {
      RequestIdOfInts(itemType, r.id, r.requestId);
    }
    assert RowOf(itemType, "L", "W", "H") == Some(Unplaced(r.l, r.w, r.h, r.id, r.requestId));
  }

  /** An integer quantity is read as given. */
  lemma QuantityOfInt(item: Value, q: int)
    requires item.JObj? && Lookup(item.fields, "quantity") == Some(JInt(q))
    ensures Quantity(item) == Some(q)
  {
  }

  /** A quantity of zero or less expands to nothing, whatever else the item type holds. */
  lemma ExpandTypeOfNoCopies(itemType: Value, q: int)
    requires Quantity(itemType) == Some(q) && q <= 0
    ensures ExpandType(itemType) == Some([])
  {
  }

  /** A leftover entry: the item without position or rotation. */
  datatype Leftover = Leftover(id: int, requestId: int, length: int, width: int, height: int)

  function LeftoverOf(r: Row): (e: Leftover)
    ensures (e.id, e.requestId, e.length, e.width, e.height) == (r.id, r.requestId, r.l, r.w, r.h)
  {
    Leftover(r.id, r.requestId, r.l, r.w, r.h)
  }

  function LeftoverList(rows: seq<Row>): (r: seq<Leftover>)
    ensures |r| == |rows| && forall k :: 0 <= k < |rows| ==> r[k] == LeftoverOf(rows[k])
  {
    if |rows| == 0 then [] else LeftoverList(rows[..|rows| - 1]) + [LeftoverOf(rows[|rows| - 1])]
  }

  /** One entry of `packing_steps`: a placement, or the final snapshot of the L/W/H format,
      holding the packed and leftover rows either as the packer's arrays or as lists. */
  datatype StepEntry =
    | Placed(step: LocalSearch.PackStep)
    | SnapshotArrays(packed: seq<Row>, leftover: seq<Row>)
    | SnapshotLists(packed: seq<Row>, leftover: seq<Row>)

  /** The packer's arrays are not JSON values: a reply holding one cannot be serialised. */
  predicate Serialisable(steps: seq<StepEntry>)
  {
    forall k :: 0 <= k < |steps| ==> !steps[k].SnapshotArrays?
  }

  datatype PackResult = PackResult(packedItems: seq<Row>, leftoverItems: seq<Leftover>, bin: LocalSearch.Bin,
                                   utilization: real, packingSteps: seq<StepEntry>)

  /** The sum of the packed items' volumes, from their unrotated extents. */
  function VolumeSum(packed: seq<Row>): int
  {
    if |packed| == 0 then 0 else VolumeSum(packed[..|packed| - 1]) + packed[|packed| - 1].l * packed[|packed| - 1].w * packed[|packed| - 1].h
  }

  /** The sum of the volumes the packed items occupy as they stand. */
  function OccupiedVolume(packed: seq<Row>, lockAxis: bool): int
  {
    if |packed| == 0 then 0
    else
      var d := Extent(packed[|packed| - 1], lockAxis);
      OccupiedVolume(packed[..|packed| - 1], lockAxis) + d.l * d.w * d.h
  }

  /** Volumes taken from the unrotated extents are the volumes the items occupy. */
  lemma {:induction false} VolumeSumIsOccupied(packed: seq<Row>, lockAxis: bool)
    ensures VolumeSum(packed) == OccupiedVolume(packed, lockAxis)
  {
    if |packed| > 0 {
      var p := packed[|packed| - 1];
      VolumeSumIsOccupied(packed[..|packed| - 1], lockAxis);
      RotationKeepsVolume(Dims(p.l, p.w, p.h), p.rotation, lockAxis);
    }
  }

  /** `_calculate_utilization`: packed volume over bin volume, in percent; 0 with nothing packed
      or a bin without volume. Exact division stands for the float one. */
  function Utilization(packed: seq<Row>, bin: LocalSearch.Bin): (u: real)
    ensures |packed| == 0 ==> u == 0.0
    ensures bin.l * bin.w * bin.h > 0 && |packed| > 0 ==> u * (bin.l * bin.w * bin.h) as real == 100.0 * VolumeSum(packed) as real
  {
    var binVolume := bin.l * bin.w * bin.h;
    if |packed| == 0 then 0.0
    else if binVolume > 0 then VolumeSum(packed) as real / binVolume as real * 100.0
    else 0.0
  }

  /** The result of a run over the rows: packed items in packing order, leftovers, and the
      placement steps when asked for. */
  function ShapeResult(rows: seq<Row>, bin: LocalSearch.Bin, saveSteps: bool): (r: PackResult)
    ensures |r.packedItems| + |r.leftoverItems| == |rows|
    ensures r.bin == bin
    ensures !saveSteps ==> r.packingSteps == []
    ensures saveSteps ==> |r.packingSteps| == |LocalSearch.PackWithSteps(rows, bin, true, saveSteps).2|
    ensures Serialisable(r.packingSteps)
  {
    var (packed, leftover, steps) := LocalSearch.PackWithSteps(rows, bin, true, saveSteps);
    var entries := seq(|steps|, k requires 0 <= k < |steps| => Placed(steps[k]));
    PackResult(packed, LeftoverList(leftover), bin, Utilization(packed, bin), if saveSteps then entries else [])
  }

  /** `pack(items_data, algorithm_steps)`: the form's items packed with the axis locked. */
  function Pack(bin: LocalSearch.Bin, items: seq<Value>, saveSteps: bool): (r: Option<PackResult>)
    ensures r.Some? <==> CreateItemsArray(items).Some?
    ensures r.Some? ==> |r.value.packedItems| + |r.value.leftoverItems| == |items| && Serialisable(r.value.packingSteps)
  {
    match CreateItemsArray(items)
    case None => None
    case Some(rows) => Some(ShapeResult(rows, bin, saveSteps))
  }

  /** The two ways the L/W/H format can end its step list. */
  datatype Snapshot = AsArrays | AsLists

  /** `pack_json_format(items_data, algorithm_steps)` with the final snapshot in the given
      form: no items give the empty result; otherwise the run's result, with the snapshot of
      the packed and leftover rows appended to the steps when they are asked for. */
  function PackJsonFormatWith(bin: LocalSearch.Bin, types: seq<Value>, saveSteps: bool, snapshot: Snapshot): (r: Option<PackResult>)
    ensures r.Some? <==> CreateItemsFromJsonNewFormat(types).Some?
    ensures r.Some? ==> |r.value.packedItems| + |r.value.leftoverItems| == TotalCopies(types)
    ensures r.Some? && !saveSteps ==> r.value.packingSteps == []
    ensures r.Some? && TotalCopies(types) == 0 ==> r.value == PackResult([], [], bin, 0.0, [])
    ensures r.Some? && saveSteps && TotalCopies(types) > 0 ==>
              && |r.value.packingSteps| > 0 && Serialisable(r.value.packingSteps[..|r.value.packingSteps| - 1])
              && (if snapshot == AsArrays then r.value.packingSteps[|r.value.packingSteps| - 1].SnapshotArrays?
                  else r.value.packingSteps[|r.value.packingSteps| - 1].SnapshotLists?)
  {
    match CreateItemsFromJsonNewFormat(types)
    case None => None
    case Some(rows) =>
      if |rows| == 0 then Some(PackResult([], [], bin, 0.0, []))
      else
        var r := ShapeResult(rows, bin, saveSteps);
        var (packed, leftover, _) := LocalSearch.PackWithSteps(rows, bin, true, saveSteps);
        var last := if snapshot == AsArrays then SnapshotArrays(packed, leftover) else SnapshotLists(packed, leftover);
        Some(if saveSteps then r.(packingSteps := r.packingSteps + [last]) else r)
  }

  /** The code as written: the snapshot holds the packer's arrays. */
  function PackJsonFormatAsWritten(bin: LocalSearch.Bin, types: seq<Value>, saveSteps: bool): (r: Option<PackResult>)
    ensures r.Some? && saveSteps && TotalCopies(types) > 0 ==> !Serialisable(r.value.packingSteps)
  {
    PackJsonFormatWith(bin, types, saveSteps, AsArrays)
  }

  /** The evidently intended code: the snapshot holds lists, so the reply always serialises. */
  function PackJsonFormat(bin: LocalSearch.Bin, types: seq<Value>, saveSteps: bool): (r: Option<PackResult>)
    ensures r.Some? ==> Serialisable(r.value.packingSteps)
    ensures r.Some? && saveSteps && TotalCopies(types) > 0 ==>
              |r.value.packingSteps| > 0 && r.value.packingSteps[|r.value.packingSteps| - 1].SnapshotLists?
  {
    PackJsonFormatWith(bin, types, saveSteps, AsLists)
  }

  /** For form items with no negative extent, the reply's packed items are pairwise disjoint
      and in the bin, and with `algorithm_steps` each step places the next of them and lists
      the ones placed so far. */
  lemma PackIsSound(bin: LocalSearch.Bin, items: seq<Value>, saveSteps: bool)
    requires CreateItemsArray(items).Some?
    requires forall k :: 0 <= k < |items| ==> LocalSearch.NonNegativeExtent(CreateItemsArray(items).value[k])
    ensures var r := Pack(bin, items, saveSteps).value;
            && LocalSearch.WellPacked(r.packedItems, bin, true)
            && (saveSteps ==>
                  && |r.packingSteps| == |r.packedItems|
                  && forall k :: 0 <= k < |r.packingSteps| ==> r.packingSteps[k] == Placed(LocalSearch.StepFor(r.packedItems, k)))
  {
    var rows := CreateItemsArray(items).value;
    LocalSearch.PackWithStepsSound(rows, bin, true, saveSteps);
  }
}
