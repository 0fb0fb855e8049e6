/** The browser-side item registry (`ItemManager`): a list of items, a counter handing out
    item ids, and the input document last loaded. Every operation is a pure function from
    the old registry to the new one plus what the JavaScript method returns or throws. */
module ItemRegistry {
  import opened Wrappers
  import opened Items
  import opened Grouping

  /** One record of a bulk-load document. Every field may be absent (`None`); a number field
      that is `0` is treated as absent wherever the source reads it with `||`. */
  datatype ItemRecord = ItemRecord(
    length: Option<int>, L: Option<int>,
    width: Option<int>, W: Option<int>,
    height: Option<int>, H: Option<int>,
    requestId: Option<int>, id: Option<int>,
    quantity: Option<int>,
    numberAxis: Option<int>, numAxis: Option<int>)

  /** A bulk-load document `{items: [...]}`; `items` is `None` when the key is missing or
      does not hold an array. */
  datatype BulkInput = BulkInput(items: Option<seq<ItemRecord>>)

  datatype Registry = Registry(items: seq<Item>, nextItemId: int, originalInput: Option<BulkInput>)

  datatype AddError = FieldsRequired | NotPositive | DuplicateRequestId(requestId: int)

  datatype LoadError = ItemsArrayRequired | InvalidItem(index: nat)

  datatype LoadOutcome = Loaded(itemsAdded: nat, totalItems: nat) | LoadFailed(error: LoadError)

  /** The record a bulk load accepts, after the field-spelling fallbacks and defaults. */
  datatype Spec = Spec(length: int, width: int, height: int, requestId: int, quantity: int, numberAxis: int)

  /** The registry right after construction. */
  function Initial(): (r: Registry)
    ensures r.items == [] && r.nextItemId == 1 && r.originalInput == None
  {
    Registry([], 1, None)
  }

  /** Item ids handed out so far are all below the counter, so none is ever handed out twice. */
  predicate IdsBelowCounter(reg: Registry)
  {
    forall i :: 0 <= i < |reg.items| ==> reg.items[i].id < reg.nextItemId
  }

  /** `quantity` copies of one request, numbered from `nextId` on; none when `quantity < 1`. */
  function Expand(nextId: int, quantity: int, length: int, width: int, height: int, requestId: int, numberAxis: int): (r: seq<Item>)
    ensures |r| == if quantity > 0 then quantity else 0
    ensures forall i :: 0 <= i < |r| ==> r[i] == Item(nextId + i, length, width, height, requestId, numberAxis)
    decreases quantity
  {
    if quantity <= 0 then []
    else [Item(nextId, length, width, height, requestId, numberAxis)]
         + Expand(nextId + 1, quantity - 1, length, width, height, requestId, numberAxis)
  }

  // ---- addItem ----

  /** `addItem(length, width, height, id, numberAxis, quantity)`. The numeric arguments are
      the results of parsing form fields, so `None` stands for `NaN`. */
  function AddItem(reg: Registry, length: Option<int>, width: Option<int>, height: Option<int>,
                   id: Option<int>, numberAxis: int, quantity: Option<int>): (r: (Registry, Result<seq<Item>, AddError>))
    ensures r.1 == Err(FieldsRequired) <==>
              !(Truthy(length) && Truthy(width) && Truthy(height) && Truthy(id) && Truthy(quantity))
    ensures r.1 == Err(NotPositive) <==>
              Truthy(length) && Truthy(width) && Truthy(height) && Truthy(id) && Truthy(quantity)
              && (length.value < 1 || width.value < 1 || height.value < 1 || id.value < 1 || quantity.value < 1)
    ensures r.1.Err? && r.1.error.DuplicateRequestId? <==>
              Truthy(length) && Truthy(width) && Truthy(height) && Truthy(id) && Truthy(quantity)
              && length.value >= 1 && width.value >= 1 && height.value >= 1 && id.value >= 1 && quantity.value >= 1
              && id.value in RequestIds(reg.items)
    ensures r.1.Err? ==> r.0 == reg
    ensures r.1.Ok? ==>
              var added := r.1.value;
              && |added| == quantity.value
              && r.0.items == reg.items + added
              && r.0.nextItemId == reg.nextItemId + quantity.value
              && r.0.originalInput == reg.originalInput
              && forall i :: 0 <= i < |added| ==>
                   added[i] == Item(reg.nextItemId + i, length.value, width.value, height.value, id.value, numberAxis)
  {
    if !(Truthy(length) && Truthy(width) && Truthy(height) && Truthy(id) && Truthy(quantity)) then
      (reg, Err(FieldsRequired))
    else if length.value < 1 || width.value < 1 || height.value < 1 || id.value < 1 || quantity.value < 1 then
      (reg, Err(NotPositive))
    else if exists i :: 0 <= i < |reg.items| && reg.items[i].requestId == id.value then
      (reg, Err(DuplicateRequestId(id.value)))
    else
      var added := Expand(reg.nextItemId, quantity.value, length.value, width.value, height.value, id.value, numberAxis);
      (Registry(reg.items + added, reg.nextItemId + quantity.value, reg.originalInput), Ok(added))
  }

  // ---- removeItem / removeItemGroup ----

  /** The items whose id is not `id`, in their original order. */
  function WithoutId(items: seq<Item>, id: int): (r: seq<Item>)
    ensures forall x :: x in r <==> x in items && x.id != id
    ensures |r| <= |items|
  {
    if |items| == 0 then []
    else
      var last := items[|items| - 1];
      WithoutId(items[..|items| - 1], id) + (if last.id != id then [last] else [])
  }

  lemma {:induction false} WithoutIdShrinks(items: seq<Item>, id: int)
    ensures |WithoutId(items, id)| < |items| <==> exists i :: 0 <= i < |items| && items[i].id == id
  {
    if |items| > 0 {
      var prefix := items[..|items| - 1];
      WithoutIdShrinks(prefix, id);
      if exists i :: 0 <= i < |prefix| && prefix[i].id == id {
        var i :| 0 <= i < |prefix| && prefix[i].id == id;
        assert items[i].id == id;
      }
    }
  }

  /** What a removal filters out: one item id, or every item of one request. */
  datatype Drop = ById(id: int) | ByRequest(requestId: int)

  /** The filter's test: whether `x` survives the removal. */
  predicate Keeps(d: Drop, x: Item)
  {
    match d
    case ById(id) => x.id != id
    case ByRequest(requestId) => x.requestId != requestId
  }

  /** `r` is what `Array.filter` gives: `f` lists, in increasing order, exactly the indices of
      the items the test keeps, and `r` holds those items in that order. */
  predicate OrderedFilter(r: seq<Item>, items: seq<Item>, d: Drop, f: seq<nat>)
  {
    && |f| == |r|
    && (forall k :: 0 <= k < |f| ==> f[k] < |items| && Keeps(d, items[f[k]]) && r[k] == items[f[k]])
    && (forall a, b :: 0 <= a < b < |f| ==> f[a] < f[b])
    && (forall i :: 0 <= i < |items| && Keeps(d, items[i]) ==> i in f)
  }

  /** The indices of the items the test keeps, in increasing order. */
  function KeptIndices(items: seq<Item>, d: Drop): seq<nat>
  {
    if |items| == 0 then []
    else
      var n := |items| - 1;
      KeptIndices(items[..n], d) + (if Keeps(d, items[n]) then [n] else [])
  }

  /** Filtering one more item extends the filter of the items before it. */
  lemma OrderedFilterStep(items: seq<Item>, d: Drop, r: seq<Item>, f: seq<nat>)
    requires |items| > 0
    requires OrderedFilter(r, items[..|items| - 1], d, f)
    ensures var n := |items| - 1;
            OrderedFilter(r + (if Keeps(d, items[n]) then [items[n]] else []), items,
                          d, f + (if Keeps(d, items[n]) then [n] else []))
  {
    var n := |items| - 1;
    var r' := r + (if Keeps(d, items[n]) then [items[n]] else []);
    var f' := f + (if Keeps(d, items[n]) then [n] else []);
    forall k | 0 <= k < |f'| ensures f'[k] < |items| && Keeps(d, items[f'[k]]) && r'[k] == items[f'[k]] {
      if k < |f| {
        assert items[..n][f[k]] == items[f[k]];
      }
    }
    forall i | 0 <= i < |items| && Keeps(d, items[i]) ensures i in f' {
      if i < n {
        assert items[..n][i] == items[i];
        assert i in f;
      } else {
        assert f'[|f|] == i;
      }
    }
  }

  /** `WithoutId` is the `Array.filter` of the items whose id differs. */
  lemma {:induction false} WithoutIdInOrder(items: seq<Item>, id: int)
    ensures OrderedFilter(WithoutId(items, id), items, ById(id), KeptIndices(items, ById(id)))
  {
    if |items| > 0 {
      WithoutIdInOrder(items[..|items| - 1], id);
      OrderedFilterStep(items, ById(id), WithoutId(items[..|items| - 1], id), KeptIndices(items[..|items| - 1], ById(id)));
    }
  }

  /** `WithoutRequest` is the `Array.filter` of the items of other requests. */
  lemma {:induction false} WithoutRequestInOrder(items: seq<Item>, requestId: int)
    ensures OrderedFilter(WithoutRequest(items, requestId), items, ByRequest(requestId), KeptIndices(items, ByRequest(requestId)))
  {
    if |items| > 0 {
      WithoutRequestInOrder(items[..|items| - 1], requestId);
      OrderedFilterStep(items, ByRequest(requestId), WithoutRequest(items[..|items| - 1], requestId),
                        KeptIndices(items[..|items| - 1], ByRequest(requestId)));
    }
  }

  /** `removeItem(id)`: the registry without that item, and whether one was removed. */
  function RemoveItem(reg: Registry, id: int): (r: (Registry, bool))
    ensures forall x :: x in r.0.items <==> x in reg.items && x.id != id
    ensures OrderedFilter(r.0.items, reg.items, ById(id), KeptIndices(reg.items, ById(id)))
    ensures r.1 <==> exists i :: 0 <= i < |reg.items| && reg.items[i].id == id
    ensures r.0.nextItemId == reg.nextItemId && r.0.originalInput == reg.originalInput
  {
    var kept := WithoutId(reg.items, id);
    WithoutIdShrinks(reg.items, id);
    WithoutIdInOrder(reg.items, id);
    (reg.(items := kept), |reg.items| > |kept|)
  }

  /** The items whose request id is not `requestId`, in their original order. */
  function WithoutRequest(items: seq<Item>, requestId: int): (r: seq<Item>)
    ensures forall x :: x in r <==> x in items && x.requestId != requestId
  {
    if |items| == 0 then []
    else
      var last := items[|items| - 1];
      WithoutRequest(items[..|items| - 1], requestId) + (if last.requestId != requestId then [last] else [])
  }

  /** Removing a group keeps every other group's count, and the removed count is the group's. */
  lemma {:induction false} WithoutRequestCounts(items: seq<Item>, requestId: int, k: int)
    ensures Count(WithoutRequest(items, requestId), k) == if k == requestId then 0 else Count(items, k)
    ensures |WithoutRequest(items, requestId)| + Count(items, requestId) == |items|
  {
    if |items| > 0 {
      var prefix := items[..|items| - 1];
      var last := items[|items| - 1];
      WithoutRequestCounts(prefix, requestId, k);
      CountAppend(WithoutRequest(prefix, requestId), if last.requestId != requestId then [last] else [], k);
      CountAppend(WithoutRequest(prefix, requestId), if last.requestId != requestId then [last] else [], requestId);
      assert Count([last], k) == if last.requestId == k then 1 else 0 by {
        assert [last][..0] == [];
      }
    }
  }

  /** Removing a request id no item carries changes nothing. */
  lemma {:induction false} WithoutAbsentRequest(items: seq<Item>, requestId: int)
    requires forall i :: 0 <= i < |items| ==> items[i].requestId != requestId
    ensures WithoutRequest(items, requestId) == items
  {
    if |items| > 0 {
      var prefix := items[..|items| - 1];
      assert forall i :: 0 <= i < |prefix| ==> prefix[i] == items[i];
      WithoutAbsentRequest(prefix, requestId);
      PrefixAndLast(items);
    }
  }

  lemma {:induction false} WithoutOnlyRequest(items: seq<Item>, requestId: int)
    requires forall i :: 0 <= i < |items| ==> items[i].requestId == requestId
    ensures WithoutRequest(items, requestId) == []
  {
    if |items| > 0 {
      var prefix := items[..|items| - 1];
      assert forall i :: 0 <= i < |prefix| ==> prefix[i] == items[i];
      WithoutOnlyRequest(prefix, requestId);
    }
  }

  lemma {:induction false} WithoutRequestAppend(a: seq<Item>, b: seq<Item>, requestId: int)
    ensures WithoutRequest(a + b, requestId) == WithoutRequest(a, requestId) + WithoutRequest(b, requestId)
  {
    if |b| == 0 {
      assert a + b == a;
    } else {
      assert (a + b)[..|a + b| - 1] == a + b[..|b| - 1];
      WithoutRequestAppend(a, b[..|b| - 1], requestId);
    }
  }

  /** `removeItemGroup(requestId)`: always succeeds and reports how many items it removed. */
  function RemoveGroup(reg: Registry, requestId: int): (r: (Registry, nat))
    ensures r.1 == Count(reg.items, requestId)
    ensures r.1 == 0 <==> requestId !in RequestIds(reg.items)
    ensures forall x :: x in r.0.items <==> x in reg.items && x.requestId != requestId
    ensures OrderedFilter(r.0.items, reg.items, ByRequest(requestId), KeptIndices(reg.items, ByRequest(requestId)))
    ensures |r.0.items| + r.1 == |reg.items|
    ensures forall k :: k != requestId ==> Count(r.0.items, k) == Count(reg.items, k)
    ensures r.0.nextItemId == reg.nextItemId && r.0.originalInput == reg.originalInput
  {
    var kept := WithoutRequest(reg.items, requestId);
    WithoutRequestInOrder(reg.items, requestId);
    WithoutRequestCounts(reg.items, requestId, requestId);
    CountPositive(reg.items, requestId);
    forall k | k != requestId ensures Count(kept, k) == Count(reg.items, k) {
      WithoutRequestCounts(reg.items, requestId, k);
    }
    (reg.(items := kept), Count(reg.items, requestId))
  }

  /** Adding a request group and then removing it restores the item list. */
  lemma AddThenRemoveGroup(reg: Registry, length: Option<int>, width: Option<int>, height: Option<int>,
                           id: Option<int>, numberAxis: int, quantity: Option<int>)
    requires AddItem(reg, length, width, height, id, numberAxis, quantity).1.Ok?
    ensures RemoveGroup(AddItem(reg, length, width, height, id, numberAxis, quantity).0, id.value).0.items == reg.items
  {
    var r := AddItem(reg, length, width, height, id, numberAxis, quantity);
    var added := r.1.value;
    assert r.0.items == reg.items + added;
    assert id.value !in RequestIds(reg.items);
    WithoutRequestAppend(reg.items, added, id.value);
    WithoutAbsentRequest(reg.items, id.value);
    WithoutOnlyRequest(added, id.value);
    assert reg.items + [] == reg.items;
  }

  // ---- clearItems / updateNextItemId ----

  /** `clearItems()`: the counter is kept, so ids are never handed out twice. */
  function Clear(reg: Registry): (r: Registry)
    ensures r.items == [] && r.originalInput == None
    ensures r.nextItemId == reg.nextItemId
  {
    Registry([], reg.nextItemId, None)
  }

  /** `updateNextItemId(id)`: the counter only moves up. */
  function UpdateNextItemId(reg: Registry, id: int): (r: Registry)
    ensures r.nextItemId >= reg.nextItemId && r.nextItemId >= id
    ensures r.nextItemId == reg.nextItemId || r.nextItemId == id
    ensures r.items == reg.items && r.originalInput == reg.originalInput
  {
    if id > reg.nextItemId then reg.(nextItemId := id) else reg
  }

  // ---- validateItemsAgainstBin ----

  /** The items with some dimension strictly larger than the bin's, in order. */
  function OversizedItems(items: seq<Item>, bin: BinSize): (r: seq<Item>)
    ensures forall x :: x in r <==> x in items && Oversized(x, bin)
  {
    if |items| == 0 then []
    else
      var last := items[|items| - 1];
      OversizedItems(items[..|items| - 1], bin) + (if Oversized(last, bin) then [last] else [])
  }

  /** `validateItemsAgainstBin(binSize)`: reports without changing the registry. */
  function ValidateItemsAgainstBin(reg: Registry, bin: BinSize): (r: (bool, seq<Item>))
    ensures forall x :: x in r.1 <==> x in reg.items && Oversized(x, bin)
    ensures r.0 <==> forall i :: 0 <= i < |reg.items| ==> !Oversized(reg.items[i], bin)
    ensures r.0 <==> |r.1| == 0
  {
    var over := OversizedItems(reg.items, bin);
    assert (forall i :: 0 <= i < |reg.items| ==> !Oversized(reg.items[i], bin)) ==> |over| == 0 by {
      if |over| > 0 {
        assert over[0] in over;
      }
    }
    (|over| == 0, over)
  }

  // ---- loadFromJson ----

  /** The record after the field-spelling fallbacks, or `None` when the record is rejected. */
  function ParseRecord(rec: ItemRecord): (r: Option<Spec>)
    ensures r.Some? <==>
              (Truthy(rec.length) || Truthy(rec.L)) && (Truthy(rec.width) || Truthy(rec.W))
              && (Truthy(rec.height) || Truthy(rec.H)) && (rec.requestId.Some? || rec.id.Some?)
    ensures r.Some? ==>
              && r.value.length != 0 && r.value.width != 0 && r.value.height != 0
              && r.value.requestId == (if rec.requestId.Some? then rec.requestId.value else rec.id.value)
              && r.value.quantity == (if Truthy(rec.quantity) then rec.quantity.value else 1)
              && r.value.numberAxis == (if Truthy(rec.numberAxis) then rec.numberAxis.value
                                        else if Truthy(rec.numAxis) then rec.numAxis.value else 2)
  {
    var length := if Truthy(rec.length) then rec.length else rec.L;
    var width := if Truthy(rec.width) then rec.width else rec.W;
    var height := if Truthy(rec.height) then rec.height else rec.H;
    var requestId := if rec.requestId.Some? then rec.requestId else rec.id;
    if !Truthy(length) || !Truthy(width) || !Truthy(height) || requestId.None? then None
    else Some(Spec(length.value, width.value, height.value, requestId.value,
                   OrElse(rec.quantity, 1), OrElse(rec.numberAxis, OrElse(rec.numAxis, 2))))
  }

  /** The accepted records before the first rejected one. */
  function ValidPrefix(recs: seq<ItemRecord>): seq<Spec>
  {
    if |recs| == 0 then []
    else match ParseRecord(recs[0])
      case None => []
      case Some(spec) => [spec] + ValidPrefix(recs[1..])
  }

  /** The items the accepted records expand to, numbered consecutively from `nextId`. */
  function Expansion(nextId: int, specs: seq<Spec>): (r: seq<Item>)
    decreases |specs|
  {
    if |specs| == 0 then []
    else
      var s := specs[0];
      var block := Expand(nextId, s.quantity, s.length, s.width, s.height, s.requestId, s.numberAxis);
      block + Expansion(nextId + |block|, specs[1..])
  }

  lemma {:induction false} ExpansionIds(nextId: int, specs: seq<Spec>)
    ensures forall i :: 0 <= i < |Expansion(nextId, specs)| ==> Expansion(nextId, specs)[i].id == nextId + i
    decreases |specs|
  {
    if |specs| > 0 {
      var s := specs[0];
      var block := Expand(nextId, s.quantity, s.length, s.width, s.height, s.requestId, s.numberAxis);
      var rest := Expansion(nextId + |block|, specs[1..]);
      ExpansionIds(nextId + |block|, specs[1..]);
      var r := Expansion(nextId, specs);
      assert r == block + rest;
      forall i | 0 <= i < |r| ensures r[i].id == nextId + i {
        if i >= |block| {
          assert r[i] == rest[i - |block|];
          assert rest[i - |block|].id == nextId + |block| + (i - |block|);
        } else {
          assert r[i] == block[i];
          assert block[i] == Item(nextId + i, s.length, s.width, s.height, s.requestId, s.numberAxis);
        }
      }
    }
  }

  /** The `forEach` over the records: each accepted record is expanded onto the registry,
      and the first rejected one stops the load with its index, keeping what came before. */
  function LoadRecords(reg: Registry, recs: seq<ItemRecord>): (r: (Registry, Option<nat>))
    ensures r.0.items == reg.items + Expansion(reg.nextItemId, ValidPrefix(recs))
    ensures r.0.nextItemId == reg.nextItemId + (|r.0.items| - |reg.items|)
    ensures r.0.originalInput == reg.originalInput
    decreases |recs|
  {
    if |recs| == 0 then (reg, None)
    else match ParseRecord(recs[0])
      case None => (reg, Some(0))
      case Some(s) =>
        var block := Expand(reg.nextItemId, s.quantity, s.length, s.width, s.height, s.requestId, s.numberAxis);
        var next := Registry(reg.items + block, reg.nextItemId + |block|, reg.originalInput);
        var rest := LoadRecords(next, recs[1..]);
        var later := Expansion(next.nextItemId, ValidPrefix(recs[1..]));
        assert ValidPrefix(recs) == [s] + ValidPrefix(recs[1..]);
        assert Expansion(reg.nextItemId, ValidPrefix(recs)) == block + later;
        assert rest.0.items == reg.items + (block + later);
        (rest.0, if rest.1.Some? then Some(rest.1.value + 1) else None)
  }

  /** The load stops exactly at the first rejected record, having accepted every record
      before it. */
  lemma LoadRecordsOutcome(reg: Registry, recs: seq<ItemRecord>)
    ensures var r := LoadRecords(reg, recs);
            && (r.1.None? <==> forall j :: 0 <= j < |recs| ==> ParseRecord(recs[j]).Some?)
            && (r.1.Some? ==>
                  && r.1.value < |recs| && ParseRecord(recs[r.1.value]).None?
                  && |ValidPrefix(recs)| == r.1.value)
  {
    LoadRecordsCompletes(reg, recs);
    LoadRecordsStops(reg, recs);
  }

  /** The load runs to the end exactly when every record is accepted. */
  lemma {:induction false} LoadRecordsCompletes(reg: Registry, recs: seq<ItemRecord>)
    ensures LoadRecords(reg, recs).1.None? <==> forall j :: 0 <= j < |recs| ==> ParseRecord(recs[j]).Some?
    decreases |recs|
  {
    if |recs| == 0 {
    } else if ParseRecord(recs[0]).None? {
      assert LoadRecords(reg, recs).1 == Some(0);
    } else {
      var s := ParseRecord(recs[0]).value;
      var block := Expand(reg.nextItemId, s.quantity, s.length, s.width, s.height, s.requestId, s.numberAxis);
      var next := Registry(reg.items + block, reg.nextItemId + |block|, reg.originalInput);
      assert LoadRecords(reg, recs).1.None? == LoadRecords(next, recs[1..]).1.None?;
      LoadRecordsCompletes(next, recs[1..]);
      assert forall j :: 1 <= j < |recs| ==> recs[j] == recs[1..][j - 1];
    }
  }

  /** A load that stops names a rejected record, and every record before it was accepted. */
  lemma {:induction false} LoadRecordsStops(reg: Registry, recs: seq<ItemRecord>)
    ensures var r := LoadRecords(reg, recs);
            r.1.Some? ==>
              && r.1.value < |recs| && ParseRecord(recs[r.1.value]).None?
              && |ValidPrefix(recs)| == r.1.value
    decreases |recs|
  {
    if |recs| == 0 {
    } else if ParseRecord(recs[0]).None? {
      assert LoadRecords(reg, recs).1 == Some(0);
      assert ValidPrefix(recs) == [];
    } else {
      var s := ParseRecord(recs[0]).value;
      var block := Expand(reg.nextItemId, s.quantity, s.length, s.width, s.height, s.requestId, s.numberAxis);
      var next := Registry(reg.items + block, reg.nextItemId + |block|, reg.originalInput);
      var rest := LoadRecords(next, recs[1..]).1;
      assert LoadRecords(reg, recs).1 == if rest.Some? then Some(rest.value + 1) else None;
      LoadRecordsStops(next, recs[1..]);
      assert ValidPrefix(recs) == [s] + ValidPrefix(recs[1..]);
    }
  }

  /** `loadFromJson(jsonData)`: clears, remembers the document, then loads its records. */
  function LoadFromJson(reg: Registry, input: BulkInput): (r: (Registry, LoadOutcome))
    ensures r.0.originalInput == Some(input)
    ensures input.items.None? ==> r == (Clear(reg).(originalInput := Some(input)), LoadFailed(ItemsArrayRequired))
    ensures input.items.Some? ==>
              && r.0.items == Expansion(reg.nextItemId, ValidPrefix(input.items.value))
              && r.0.nextItemId == reg.nextItemId + |r.0.items|
              && (r.1.Loaded? <==> forall j :: 0 <= j < |input.items.value| ==> ParseRecord(input.items.value[j]).Some?)
              && (r.1.Loaded? ==> r.1.itemsAdded == r.1.totalItems == |r.0.items|)
              && (r.1.LoadFailed? ==> r.1.error.InvalidItem? && r.1.error.index < |input.items.value|
                                      && ParseRecord(input.items.value[r.1.error.index]).None?)
  {
    var cleared := Clear(reg).(originalInput := Some(input));
    match input.items
    case None => (cleared, LoadFailed(ItemsArrayRequired))
    case Some(recs) =>
      LoadRecordsOutcome(cleared, recs);
      var (loaded, failedAt) := LoadRecords(cleared, recs);
      if failedAt.Some? then (loaded, LoadFailed(InvalidItem(failedAt.value)))
      else (loaded, Loaded(|loaded.items|, |loaded.items|))
  }

  lemma AddItemKeepsIdsBelowCounter(reg: Registry, length: Option<int>, width: Option<int>, height: Option<int>,
                                    id: Option<int>, numberAxis: int, quantity: Option<int>)
    requires IdsBelowCounter(reg)
    ensures IdsBelowCounter(AddItem(reg, length, width, height, id, numberAxis, quantity).0)
  {
    var r := AddItem(reg, length, width, height, id, numberAxis, quantity);
    if r.1.Ok? {
      forall i | 0 <= i < |r.0.items| ensures r.0.items[i].id < r.0.nextItemId {
        if i >= |reg.items| {
          assert r.0.items[i] == r.1.value[i - |reg.items|];
        }
      }
    }
  }

  lemma RemovalKeepsIdsBelowCounter(reg: Registry, id: int, requestId: int)
    requires IdsBelowCounter(reg)
    ensures IdsBelowCounter(RemoveItem(reg, id).0)
    ensures IdsBelowCounter(RemoveGroup(reg, requestId).0)
  {
    FilterKeepsIdsBelowCounter(reg, RemoveItem(reg, id).0, ById(id));
    FilterKeepsIdsBelowCounter(reg, RemoveGroup(reg, requestId).0, ByRequest(requestId));
  }

  lemma FilterKeepsIdsBelowCounter(reg: Registry, reg': Registry, d: Drop)
    requires IdsBelowCounter(reg) && reg'.nextItemId == reg.nextItemId
    requires OrderedFilter(reg'.items, reg.items, d, KeptIndices(reg.items, d))
    ensures IdsBelowCounter(reg')
  {
    var f := KeptIndices(reg.items, d);
    forall i | 0 <= i < |reg'.items| ensures reg'.items[i].id < reg'.nextItemId {
      assert reg'.items[i] == reg.items[f[i]];
    }
  }

  lemma LoadKeepsIdsBelowCounter(reg: Registry, input: BulkInput)
    ensures IdsBelowCounter(LoadFromJson(reg, input).0)
  {
    if input.items.Some? {
      var r := LoadFromJson(reg, input).0;
      ExpansionIds(reg.nextItemId, ValidPrefix(input.items.value));
      assert forall i :: 0 <= i < |r.items| ==> r.items[i].id == reg.nextItemId + i;
    }
  }

  /** Every operation keeps all item ids below the counter, so no id is handed out twice. */
  lemma OperationsKeepIdsBelowCounter(reg: Registry, input: BulkInput, id: int, requestId: int, n: int,
                                      length: Option<int>, width: Option<int>, height: Option<int>,
                                      rid: Option<int>, numberAxis: int, quantity: Option<int>)
    requires IdsBelowCounter(reg)
    ensures IdsBelowCounter(AddItem(reg, length, width, height, rid, numberAxis, quantity).0)
    ensures IdsBelowCounter(RemoveItem(reg, id).0)
    ensures IdsBelowCounter(RemoveGroup(reg, requestId).0)
    ensures IdsBelowCounter(Clear(reg))
    ensures IdsBelowCounter(UpdateNextItemId(reg, n))
    ensures IdsBelowCounter(LoadFromJson(reg, input).0)
  {
    AddItemKeepsIdsBelowCounter(reg, length, width, height, rid, numberAxis, quantity);
    RemovalKeepsIdsBelowCounter(reg, id, requestId);
    LoadKeepsIdsBelowCounter(reg, input);
  }

  // ---- getGroupedItems / exportToJson ----

  /** One exported entry: the group's dimensions, request id and count. */
  function ExportRecord(g: Group): ItemRecord
  {
    ItemRecord(Some(g.length), None, Some(g.width), None, Some(g.height), None,
               Some(g.requestId), None, Some(g.count), Some(g.numberAxis), None)
  }

  function ExportRecords(gs: seq<Group>): (r: seq<ItemRecord>)
    ensures |r| == |gs|
    ensures forall i :: 0 <= i < |gs| ==> r[i] == ExportRecord(gs[i])
  {
    if |gs| == 0 then [] else [ExportRecord(gs[0])] + ExportRecords(gs[1..])
  }

  /** `exportToJson()`: one entry per group, whose quantity is the group's item count. */
  function ExportToJson(reg: Registry): (r: BulkInput)
    ensures r.items.Some?
    ensures |r.items.value| == |GroupedView(reg.items)|
    ensures forall i :: 0 <= i < |r.items.value| ==>
              var e := r.items.value[i];
              && e.requestId.Some? && e.requestId.value in RequestIds(reg.items)
              && e.quantity == Some(Count(reg.items, e.requestId.value))
    ensures forall k :: k in RequestIds(reg.items) ==>
              exists i :: 0 <= i < |r.items.value| && r.items.value[i].requestId == Some(k)
  {
    GroupedViewContents(reg.items);
    GroupedViewCovers(reg.items);
    BulkInput(Some(ExportRecords(GroupedView(reg.items))))
  }
}
