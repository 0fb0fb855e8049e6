/** Exporting the registry (`exportToJson`) and loading the exported document back
    (`loadFromJson`) reproduces the grouped view, provided no exported field is a falsy `0`. */
module ItemRoundTrip {
  import opened Wrappers
  import opened Items
  import opened Grouping
  import opened ItemRegistry

  /** Items whose exported fields survive the `||` fallbacks of a reload. */
  predicate Loadable(items: seq<Item>)
  {
    forall i :: 0 <= i < |items| ==>
      items[i].length != 0 && items[i].width != 0 && items[i].height != 0 && items[i].numberAxis != 0
  }

  function Ids(gs: seq<Group>): (r: seq<int>)
    ensures |r| == |gs| && forall i :: 0 <= i < |gs| ==> r[i] == gs[i].requestId
  {
    if |gs| == 0 then [] else [gs[0].requestId] + Ids(gs[1..])
  }

  function SpecOf(g: Group): Spec
  {
    Spec(g.length, g.width, g.height, g.requestId, g.count, g.numberAxis)
  }

  function SpecsOf(gs: seq<Group>): (r: seq<Spec>)
    ensures |r| == |gs| && forall i :: 0 <= i < |gs| ==> r[i] == SpecOf(gs[i])
  {
    if |gs| == 0 then [] else [SpecOf(gs[0])] + SpecsOf(gs[1..])
  }

  /** The object after inserting the groups `gs`, in order, as fresh keys. */
  function Extend(acc: Acc, gs: seq<Group>): Acc
    decreases |gs|
  {
    if |gs| == 0 then acc
    else Extend(Acc(acc.order + [gs[0].requestId], acc.groups[gs[0].requestId := gs[0]]), gs[1..])
  }

  predicate DistinctIds(gs: seq<Group>)
  {
    forall i, j :: 0 <= i < j < |gs| ==> gs[i].requestId != gs[j].requestId
  }

  lemma DistinctIdsTail(gs: seq<Group>)
    requires DistinctIds(gs) && |gs| > 0
    ensures DistinctIds(gs[1..])
    ensures forall i :: 0 <= i < |gs[1..]| ==> gs[1..][i].requestId != gs[0].requestId
  {
    assert forall i :: 0 <= i < |gs[1..]| ==> gs[1..][i] == gs[i + 1];
  }

  /** A run of items of one new request id adds one group counting the whole run. */
  lemma {:induction false} AccumulateBlock(prefix: seq<Item>, block: seq<Item>, g: Group)
    requires |block| >= 1
    requires forall i :: 0 <= i < |block| ==>
               && block[i].requestId == g.requestId && block[i].length == g.length && block[i].width == g.width
               && block[i].height == g.height && block[i].numberAxis == g.numberAxis
    requires g.requestId !in Accumulate(prefix).groups
    ensures Accumulate(prefix + block) ==
              Acc(Accumulate(prefix).order + [g.requestId],
                  Accumulate(prefix).groups[g.requestId := g.(count := |block|)])
  {
    var n := |block| - 1;
    assert (prefix + block)[..|prefix + block| - 1] == prefix + block[..n];
    assert (prefix + block)[|prefix + block| - 1] == block[n];
    if n == 0 {
      assert prefix + block[..n] == prefix;
    } else {
      AccumulateBlock(prefix, block[..n], g);
    }
  }

  lemma ExpansionSplit(nextId: int, gs: seq<Group>)
    requires |gs| > 0
    ensures var g := gs[0];
            var block := Expand(nextId, g.count, g.length, g.width, g.height, g.requestId, g.numberAxis);
            Expansion(nextId, SpecsOf(gs)) == block + Expansion(nextId + |block|, SpecsOf(gs[1..]))
  {
    assert SpecsOf(gs)[1..] == SpecsOf(gs[1..]);
  }

  lemma AppendAssoc<T>(a: seq<T>, b: seq<T>, c: seq<T>, bc: seq<T>)
    requires bc == b + c
    ensures a + bc == (a + b) + c
  {
  }

  /** Accumulating the expansion of fresh, non-empty groups inserts exactly those groups. */
  lemma {:induction false} AccumulateExpansion(prefix: seq<Item>, nextId: int, gs: seq<Group>)
    requires forall i :: 0 <= i < |gs| ==> gs[i].count >= 1 && gs[i].requestId !in Accumulate(prefix).groups
    requires DistinctIds(gs)
    ensures Accumulate(prefix + Expansion(nextId, SpecsOf(gs))) == Extend(Accumulate(prefix), gs)
    decreases |gs|
  {
    if |gs| == 0 {
      assert prefix + [] == prefix;
    } else {
      var g := gs[0];
      var block := Expand(nextId, g.count, g.length, g.width, g.height, g.requestId, g.numberAxis);
      var rest := Expansion(nextId + |block|, SpecsOf(gs[1..]));
      var acc := Accumulate(prefix);
      AccumulateBlock(prefix, block, g);
      assert g.(count := |block|) == g;
      DistinctIdsTail(gs);
      assert forall i :: 0 <= i < |gs[1..]| ==> gs[1..][i] == gs[i + 1];
      calc {
        Accumulate(prefix + Expansion(nextId, SpecsOf(gs)));
        == { ExpansionSplit(nextId, gs); AppendAssoc(prefix, block, rest, Expansion(nextId, SpecsOf(gs))); }
        Accumulate((prefix + block) + rest);
        == { AccumulateExpansion(prefix + block, nextId + |block|, gs[1..]); }
        Extend(Accumulate(prefix + block), gs[1..]);
        ==
        Extend(Acc(acc.order + [g.requestId], acc.groups[g.requestId := g]), gs[1..]);
      }
    }
  }

  lemma {:induction false} ExtendOrder(acc: Acc, gs: seq<Group>)
    ensures Extend(acc, gs).order == acc.order + Ids(gs)
    decreases |gs|
  {
    if |gs| > 0 {
      var next := Acc(acc.order + [gs[0].requestId], acc.groups[gs[0].requestId := gs[0]]);
      ExtendOrder(next, gs[1..]);
      assert Ids(gs) == [gs[0].requestId] + Ids(gs[1..]);
    }
  }

  lemma {:induction false} ExtendFrame(acc: Acc, gs: seq<Group>, k: int)
    requires k in acc.groups
    requires forall i :: 0 <= i < |gs| ==> gs[i].requestId != k
    ensures k in Extend(acc, gs).groups && Extend(acc, gs).groups[k] == acc.groups[k]
    decreases |gs|
  {
    if |gs| > 0 {
      var next := Acc(acc.order + [gs[0].requestId], acc.groups[gs[0].requestId := gs[0]]);
      assert forall i :: 0 <= i < |gs[1..]| ==> gs[1..][i] == gs[i + 1];
      ExtendFrame(next, gs[1..], k);
    }
  }

  lemma {:induction false} ExtendGroups(acc: Acc, gs: seq<Group>)
    requires DistinctIds(gs)
    ensures forall i :: 0 <= i < |gs| ==>
              gs[i].requestId in Extend(acc, gs).groups && Extend(acc, gs).groups[gs[i].requestId] == gs[i]
    decreases |gs|
  {
    if |gs| > 0 {
      var next := Acc(acc.order + [gs[0].requestId], acc.groups[gs[0].requestId := gs[0]]);
      DistinctIdsTail(gs);
      ExtendGroups(next, gs[1..]);
      ExtendFrame(next, gs[1..], gs[0].requestId);
      forall i | 0 < i < |gs|
        ensures gs[i].requestId in Extend(acc, gs).groups && Extend(acc, gs).groups[gs[i].requestId] == gs[i]
      {
        assert gs[i] == gs[1..][i - 1];
      }
    }
  }

  lemma {:induction false} ValidPrefixOfExport(gs: seq<Group>)
    requires forall i :: 0 <= i < |gs| ==> ParseRecord(ExportRecord(gs[i])) == Some(SpecOf(gs[i]))
    ensures ValidPrefix(ExportRecords(gs)) == SpecsOf(gs)
  {
    if |gs| > 0 {
      assert ExportRecords(gs)[1..] == ExportRecords(gs[1..]);
      assert forall i :: 0 <= i < |gs[1..]| ==> gs[1..][i] == gs[i + 1];
      ValidPrefixOfExport(gs[1..]);
    }
  }

  /** The facts about the grouped view of loadable items that a reload relies on. */
  lemma ExportedGroups(items: seq<Item>)
    requires Loadable(items)
    ensures var gs := GroupedView(items);
            && DistinctIds(gs)
            && InPropertyOrder(Ids(gs))
            && TotalCount(gs) == |items|
            && forall i :: 0 <= i < |gs| ==>
                 gs[i].count >= 1 && ParseRecord(ExportRecord(gs[i])) == Some(SpecOf(gs[i]))
  {
    var gs := GroupedView(items);
    GroupedViewOrder(items);
    assert DistinctIds(gs);
    var ids := Ids(gs);
    assert InPropertyOrder(ids) by {
      assert forall i :: 0 <= i < |gs| ==> ids[i] == gs[i].requestId;
    }
    GroupedViewTotal(items);
    forall i | 0 <= i < |gs|
      ensures gs[i].count >= 1 && ParseRecord(ExportRecord(gs[i])) == Some(SpecOf(gs[i]))
    {
      ExportedGroupParses(items, i);
    }
  }

  /** Each group of loadable items is non-empty, and its exported record parses back. */
  lemma ExportedGroupParses(items: seq<Item>, i: int)
    requires Loadable(items) && 0 <= i < |GroupedView(items)|
    ensures var g := GroupedView(items)[i];
            g.count >= 1 && ParseRecord(ExportRecord(g)) == Some(SpecOf(g))
  {
    var g := GroupedView(items)[i];
    GroupedViewContents(items);
    CountPositive(items, g.requestId);
    var first := FirstIndex(items, g.requestId);
    assert items[first].length != 0 && items[first].numberAxis != 0;
  }

  /** The total of the counts is the number of items the expansion produces. */
  lemma {:induction false} ExpansionLength(nextId: int, gs: seq<Group>)
    ensures |Expansion(nextId, SpecsOf(gs))| == TotalCount(gs)
    decreases |gs|
  {
    if |gs| > 0 {
      var g := gs[0];
      var block := Expand(nextId, g.count, g.length, g.width, g.height, g.requestId, g.numberAxis);
      ExpansionSplit(nextId, gs);
      ExpansionLength(nextId + |block|, gs[1..]);
    }
  }

  lemma GroupsAtOfExtend(gs: seq<Group>, groups: map<int, Group>)
    requires forall i :: 0 <= i < |gs| ==> gs[i].requestId in groups && groups[gs[i].requestId] == gs[i]
    ensures AllIn(Ids(gs), groups) && GroupsAt(Ids(gs), groups) == gs
  {
  }

  /** Reloading the export of loadable items accepts every record and expands each group. */
  lemma LoadOfExport(reg: Registry, other: Registry)
    requires Loadable(reg.items)
    ensures var r := LoadFromJson(other, ExportToJson(reg));
            && r.1.Loaded?
            && r.0.items == Expansion(other.nextItemId, SpecsOf(GroupedView(reg.items)))
  {
    var gs := GroupedView(reg.items);
    ExportedGroups(reg.items);
    ValidPrefixOfExport(gs);
    var recs := ExportRecords(gs);
    assert ExportToJson(reg).items == Some(recs);
    assert forall j :: 0 <= j < |recs| ==> ParseRecord(recs[j]).Some?;
  }

  /** Grouping the expansion of a grouped view gives the grouped view back. */
  lemma GroupedViewOfExpansion(items: seq<Item>, nextId: int)
    requires Loadable(items)
    ensures var gs := GroupedView(items);
            GroupedView(Expansion(nextId, SpecsOf(gs))) == gs && |Expansion(nextId, SpecsOf(gs))| == |items|
  {
    var gs := GroupedView(items);
    ExportedGroups(items);
    var loaded := Expansion(nextId, SpecsOf(gs));
    ExpansionLength(nextId, gs);
    AccumulateExpansion([], nextId, gs);
    assert [] + loaded == loaded;
    var acc := Extend(Acc([], map[]), gs);
    ExtendOrder(Acc([], map[]), gs);
    ExtendGroups(Acc([], map[]), gs);
    assert acc.order == Ids(gs);
    PropertyOrderOfOrdered(Ids(gs));
    GroupsAtOfExtend(gs, acc.groups);
  }

  /** Reloading an export succeeds, loads as many items as the registry held, and gives back
      the same grouped view: same request ids in the same order, same counts, same
      dimensions and axis counts. */
  lemma ExportThenLoad(reg: Registry, other: Registry)
    requires Loadable(reg.items)
    ensures var r := LoadFromJson(other, ExportToJson(reg));
            && r.1.Loaded?
            && r.1.totalItems == |reg.items|
            && GroupedView(r.0.items) == GroupedView(reg.items)
  {
    LoadOfExport(reg, other);
    GroupedViewOfExpansion(reg.items, other.nextItemId);
  }
}
