/** Grouping of items by request id into a JavaScript object keyed by request id, as both
    `ItemManager.getGroupedItems` and `DataExporter.groupItemsByRequestId` build it, and the
    order in which `Object.values` then lists the groups: keys that are array indices
    (0 .. 2^32-2) in ascending numeric order, then every other key in insertion order. */
module Grouping {
  import opened Items

  const MaxArrayIndex: int := 4294967294

  predicate IsArrayIndexKey(k: int)
  {
    0 <= k <= MaxArrayIndex
  }

  /** One group: its request id, how many items it holds, and the dimensions and axis count
      of the first item that created it. */
  datatype Group = Group(requestId: int, count: nat, length: int, width: int, height: int, numberAxis: int)

  /** The object under construction: keys in insertion order and the group under each key. */
  datatype Acc = Acc(order: seq<int>, groups: map<int, Group>)

  predicate Distinct(s: seq<int>)
  {
    forall i, j :: 0 <= i < j < |s| ==> s[i] != s[j]
  }

  predicate AllIn(keys: seq<int>, groups: map<int, Group>)
  {
    forall i :: 0 <= i < |keys| ==> keys[i] in groups
  }

  lemma DistinctTail(s: seq<int>)
    requires Distinct(s) && |s| > 0
    ensures Distinct(s[1..]) && s[0] !in s[1..]
  {
    forall i, j | 0 <= i < j < |s[1..]| ensures s[1..][i] != s[1..][j] {
      assert s[1..][i] == s[i + 1] && s[1..][j] == s[j + 1];
    }
    forall i | 0 <= i < |s[1..]| ensures s[1..][i] != s[0] {
      assert s[1..][i] == s[i + 1];
    }
  }

  /** One iteration of the `forEach`: create the group on first sight, then count the item. */
  function AddToGroups(acc: Acc, item: Item): Acc
  {
    var k := item.requestId;
    if k in acc.groups then
      Acc(acc.order, acc.groups[k := acc.groups[k].(count := acc.groups[k].count + 1)])
    else
      Acc(acc.order + [k], acc.groups[k := Group(k, 1, item.length, item.width, item.height, item.numberAxis)])
  }

  /** The object after the `forEach` over `items`. */
  function Accumulate(items: seq<Item>): Acc
  {
    if |items| == 0 then Acc([], map[])
    else AddToGroups(Accumulate(items[..|items| - 1]), items[|items| - 1])
  }

  /** Sum of the counts of the groups listed in `keys`. */
  function SumCounts(keys: seq<int>, groups: map<int, Group>): nat
    requires AllIn(keys, groups)
  {
    if |keys| == 0 then 0 else groups[keys[0]].count + SumCounts(keys[1..], groups)
  }

  lemma {:induction false} SumCountsBump(keys: seq<int>, groups: map<int, Group>, k: int)
    requires AllIn(keys, groups)
    requires Distinct(keys) && k in keys
    ensures var g := groups[k := groups[k].(count := groups[k].count + 1)];
            AllIn(keys, g) && SumCounts(keys, g) == SumCounts(keys, groups) + 1
  {
    var g := groups[k := groups[k].(count := groups[k].count + 1)];
    DistinctTail(keys);
    if keys[0] != k {
      SumCountsBump(keys[1..], groups, k);
    } else {
      SumCountsFrame(keys[1..], groups, g);
    }
  }

  /** The sum only looks at the keys it lists. */
  lemma {:induction false} SumCountsFrame(keys: seq<int>, m1: map<int, Group>, m2: map<int, Group>)
    requires AllIn(keys, m1) && AllIn(keys, m2)
    requires forall i :: 0 <= i < |keys| ==> m1[keys[i]] == m2[keys[i]]
    ensures SumCounts(keys, m1) == SumCounts(keys, m2)
  {
    if |keys| > 0 {
      SumCountsFrame(keys[1..], m1, m2);
    }
  }

  lemma {:induction false} SumCountsAppend(a: seq<int>, b: seq<int>, groups: map<int, Group>)
    requires AllIn(a, groups) && AllIn(b, groups)
    ensures AllIn(a + b, groups)
    ensures SumCounts(a + b, groups) == SumCounts(a, groups) + SumCounts(b, groups)
  {
    if |a| == 0 {
      assert a + b == b;
    } else {
      assert (a + b)[1..] == a[1..] + b;
      SumCountsAppend(a[1..], b, groups);
    }
  }

  lemma AllInByMembership(keys: seq<int>, groups: map<int, Group>)
    requires forall k :: k in keys ==> k in groups
    ensures AllIn(keys, groups)
  {
    forall i | 0 <= i < |keys| ensures keys[i] in groups {
      var k := keys[i];
      assert k in keys;
    }
  }

  lemma AllInSlices(b: seq<int>, j: int, groups: map<int, Group>)
    requires AllIn(b, groups) && 0 <= j < |b|
    ensures AllIn(b[..j], groups) && AllIn(b[j + 1..], groups) && AllIn([b[j]] + b[j + 1..], groups)
  {
    var c := b[j + 1..];
    forall i | 0 <= i < |c| ensures c[i] in groups {
      assert c[i] == b[j + 1 + i];
    }
  }

  /** Taking the j-th key out of the list takes its count out of the sum. */
  lemma SumCountsRemove(b: seq<int>, j: int, groups: map<int, Group>)
    requires AllIn(b, groups) && 0 <= j < |b|
    ensures AllIn(b[..j] + b[j + 1..], groups)
    ensures SumCounts(b, groups) == groups[b[j]].count + SumCounts(b[..j] + b[j + 1..], groups)
  {
    AllInSlices(b, j, groups);
    SumCountsAppend(b[..j], [b[j]] + b[j + 1..], groups);
    SumCountsAppend(b[..j], b[j + 1..], groups);
    assert ([b[j]] + b[j + 1..])[1..] == b[j + 1..];
    assert b[..j] + ([b[j]] + b[j + 1..]) == b;
  }

  lemma MultisetRemove(b: seq<int>, j: int)
    requires 0 <= j < |b|
    ensures multiset(b[..j] + b[j + 1..]) == multiset(b) - multiset{b[j]}
  {
    assert b == b[..j] + [b[j]] + b[j + 1..];
  }

  lemma MultisetTail(a: seq<int>)
    requires 0 < |a|
    ensures multiset(a[1..]) == multiset(a) - multiset{a[0]}
  {
    assert a == [a[0]] + a[1..];
  }

  lemma AllInPermutation(a: seq<int>, b: seq<int>, groups: map<int, Group>)
    requires multiset(a) == multiset(b) && AllIn(a, groups)
    ensures AllIn(b, groups)
  {
    forall i | 0 <= i < |b| ensures b[i] in groups {
      assert b[i] in multiset(b);
      assert b[i] in multiset(a);
      var j :| 0 <= j < |a| && a[j] == b[i];
    }
  }

  /** The sum of counts does not depend on the order the keys are listed in. */
  lemma {:induction false} SumCountsPermutation(a: seq<int>, b: seq<int>, groups: map<int, Group>)
    requires multiset(a) == multiset(b)
    requires AllIn(a, groups)
    ensures AllIn(b, groups)
    ensures SumCounts(a, groups) == SumCounts(b, groups)
  {
    AllInPermutation(a, b, groups);
    if |a| > 0 {
      assert a[0] in multiset(b);
      var j :| 0 <= j < |b| && b[j] == a[0];
      MatchFirst(a, b, j, groups);
      SumCountsPermutation(a[1..], b[..j] + b[j + 1..], groups);
    }
  }

  /** Matching the first key of `a` with an equal key of `b` leaves two shorter lists that are
      still permutations of each other, each sum losing the same count. */
  lemma MatchFirst(a: seq<int>, b: seq<int>, j: int, groups: map<int, Group>)
    requires multiset(a) == multiset(b) && AllIn(a, groups) && AllIn(b, groups)
    requires |a| > 0 && 0 <= j < |b| && b[j] == a[0]
    ensures var b' := b[..j] + b[j + 1..];
            && multiset(a[1..]) == multiset(b')
            && AllIn(a[1..], groups) && AllIn(b', groups)
            && SumCounts(a, groups) - SumCounts(a[1..], groups) == SumCounts(b, groups) - SumCounts(b', groups)
  {
    var b' := b[..j] + b[j + 1..];
    assert multiset(a[1..]) == multiset(b') by {
      MultisetRemove(b, j);
      MultisetTail(a);
      assert multiset(a[1..]) == multiset(a) - multiset{a[0]};
      assert multiset(b') == multiset(b) - multiset{a[0]};
    }
    AllInSlices(a, 0, groups);
    SumCountsRemove(b, j, groups);
  }

  // ---- What the forEach computes ----

  lemma {:induction false} AccumulateKeys(items: seq<Item>)
    ensures var acc := Accumulate(items);
            && acc.groups.Keys == RequestIds(items)
            && (forall k :: k in acc.order <==> k in RequestIds(items))
            && Distinct(acc.order)
  {
    if |items| > 0 {
      var prefix := items[..|items| - 1];
      AccumulateKeys(prefix);
      assert RequestIds(items) == RequestIds(prefix) + {items[|items| - 1].requestId};
      AddKeepsKeys(Accumulate(prefix), items[|items| - 1], RequestIds(prefix));
    }
  }

  /** One iteration keeps the insertion order a duplicate-free list of exactly the keys. */
  lemma AddKeepsKeys(acc: Acc, item: Item, keys: set<int>)
    requires acc.groups.Keys == keys && (forall k :: k in acc.order <==> k in keys) && Distinct(acc.order)
    ensures var acc' := AddToGroups(acc, item);
            && acc'.groups.Keys == keys + {item.requestId}
            && (forall k :: k in acc'.order <==> k in keys + {item.requestId})
            && Distinct(acc'.order)
  {
  }

  /** The group of request id `k` holds `k`, the number of items with that id, and the
      dimensions of the first such item. */
  lemma {:induction false} AccumulateGroup(items: seq<Item>, k: int)
    requires k in Accumulate(items).groups
    ensures k in RequestIds(items)
    ensures var g := Accumulate(items).groups[k];
            && g.requestId == k
            && g.count == Count(items, k)
            && var first := items[FirstIndex(items, k)];
               g.length == first.length && g.width == first.width
               && g.height == first.height && g.numberAxis == first.numberAxis
  {
    AccumulateKeys(items);
    var n := |items| - 1;
    var prefix := items[..n];
    AccumulateKeys(prefix);
    if k in Accumulate(prefix).groups {
      AccumulateGroup(prefix, k);
      assert FirstIndex(items, k) == FirstIndex(prefix, k);
    } else {
      assert k !in RequestIds(prefix);
      assert Count(prefix, k) == 0 by {
        if Count(prefix, k) != 0 { CountPositive(prefix, k); }
      }
      assert FirstIndex(items, k) == n;
    }
  }

  lemma AccumulateGroups(items: seq<Item>)
    ensures var acc := Accumulate(items);
            forall k :: k in acc.groups ==>
              var g := acc.groups[k];
              && k in RequestIds(items)
              && g.requestId == k
              && g.count == Count(items, k)
              && var first := items[FirstIndex(items, k)];
                 g.length == first.length && g.width == first.width
                 && g.height == first.height && g.numberAxis == first.numberAxis
  {
    forall k | k in Accumulate(items).groups {
      AccumulateGroup(items, k);
    }
  }

  /** Adding one item to a well-formed object raises the sum of counts by one. */
  lemma AddToGroupsSum(acc: Acc, item: Item)
    requires Distinct(acc.order) && AllIn(acc.order, acc.groups)
    requires forall k :: k in acc.groups ==> k in acc.order
    ensures var acc' := AddToGroups(acc, item);
            AllIn(acc'.order, acc'.groups) && SumCounts(acc'.order, acc'.groups) == SumCounts(acc.order, acc.groups) + 1
  {
    var k := item.requestId;
    var acc' := AddToGroups(acc, item);
    if k in acc.groups {
      SumCountsBump(acc.order, acc.groups, k);
    } else {
      assert AllIn(acc.order, acc'.groups);
      assert AllIn([k], acc'.groups);
      SumCountsAppend(acc.order, [k], acc'.groups);
      SumCountsFrame(acc.order, acc.groups, acc'.groups);
    }
  }

  lemma {:induction false} AccumulateSum(items: seq<Item>)
    ensures AllIn(Accumulate(items).order, Accumulate(items).groups)
    ensures SumCounts(Accumulate(items).order, Accumulate(items).groups) == |items|
  {
    if |items| > 0 {
      var prefix := items[..|items| - 1];
      AccumulateSum(prefix);
      AccumulateKeys(prefix);
      AddToGroupsSum(Accumulate(prefix), items[|items| - 1]);
    }
  }

  // ---- Property order of the keys ----

  function IndexKeys(s: seq<int>): (r: seq<int>)
    ensures forall x :: x in r <==> x in s && IsArrayIndexKey(x)
  {
    if |s| == 0 then []
    else (if IsArrayIndexKey(s[0]) then [s[0]] else []) + IndexKeys(s[1..])
  }

  function OtherKeys(s: seq<int>): (r: seq<int>)
    ensures forall x :: x in r <==> x in s && !IsArrayIndexKey(x)
  {
    if |s| == 0 then []
    else (if IsArrayIndexKey(s[0]) then [] else [s[0]]) + OtherKeys(s[1..])
  }

  predicate StrictlyAscending(s: seq<int>)
  {
    forall i, j :: 0 <= i < j < |s| ==> s[i] < s[j]
  }

  function InsertAscending(x: int, s: seq<int>): (r: seq<int>)
    ensures forall y :: y in r <==> y == x || y in s
  {
    if |s| == 0 then [x]
    else if x <= s[0] then [x] + s
    else [s[0]] + InsertAscending(x, s[1..])
  }

  lemma {:induction false} InsertAscendingMultiset(x: int, s: seq<int>)
    ensures multiset(InsertAscending(x, s)) == multiset(s) + multiset{x}
  {
    if |s| > 0 && x > s[0] {
      InsertAscendingMultiset(x, s[1..]);
      assert s == [s[0]] + s[1..];
    }
  }

  lemma {:induction false} InsertAscendingSorted(x: int, s: seq<int>)
    requires StrictlyAscending(s) && x !in s
    ensures StrictlyAscending(InsertAscending(x, s))
  {
    if |s| > 0 && x > s[0] {
      InsertAscendingSorted(x, s[1..]);
      var tail := InsertAscending(x, s[1..]);
      forall y | y in tail ensures s[0] < y {
        if y != x {
          var i :| 0 <= i < |s[1..]| && s[1..][i] == y;
          assert s[i + 1] == y;
        }
      }
      var r := [s[0]] + tail;
      forall i, j | 0 <= i < j < |r| ensures r[i] < r[j] {
        if i == 0 { assert r[j] in tail; }
        else { assert r[i] == tail[i - 1] && r[j] == tail[j - 1]; }
      }
    }
  }

  function SortAscending(s: seq<int>): (r: seq<int>)
    ensures forall y :: y in r <==> y in s
  {
    if |s| == 0 then [] else InsertAscending(s[0], SortAscending(s[1..]))
  }

  lemma {:induction false} SortAscendingMultiset(s: seq<int>)
    ensures multiset(SortAscending(s)) == multiset(s)
  {
    if |s| > 0 {
      SortAscendingMultiset(s[1..]);
      InsertAscendingMultiset(s[0], SortAscending(s[1..]));
      assert s == [s[0]] + s[1..];
    }
  }

  lemma {:induction false} SortAscendingSorted(s: seq<int>)
    requires Distinct(s)
    ensures StrictlyAscending(SortAscending(s))
  {
    if |s| > 0 {
      DistinctTail(s);
      SortAscendingSorted(s[1..]);
      InsertAscendingSorted(s[0], SortAscending(s[1..]));
    }
  }

  /** The key order `Object.keys`/`Object.values` reports for keys inserted in order `s`. */
  function PropertyOrder(s: seq<int>): seq<int>
  {
    SortAscending(IndexKeys(s)) + OtherKeys(s)
  }

  lemma {:induction false} SplitPermutation(s: seq<int>)
    ensures multiset(IndexKeys(s)) + multiset(OtherKeys(s)) == multiset(s)
  {
    if |s| > 0 {
      SplitPermutation(s[1..]);
      assert s == [s[0]] + s[1..];
    }
  }

  lemma {:induction false} FilterKeepsDistinct(s: seq<int>)
    requires Distinct(s)
    ensures Distinct(IndexKeys(s)) && Distinct(OtherKeys(s))
  {
    if |s| > 0 {
      DistinctTail(s);
      FilterKeepsDistinct(s[1..]);
    }
  }

  lemma PropertyOrderMultiset(s: seq<int>)
    ensures multiset(PropertyOrder(s)) == multiset(s)
  {
    SplitPermutation(s);
    SortAscendingMultiset(IndexKeys(s));
  }

  /** Index keys come first, ascending; the other keys follow. */
  lemma PropertyOrderShape(s: seq<int>)
    requires Distinct(s)
    ensures var p := PropertyOrder(s);
            && (forall i, j :: 0 <= i < j < |p| && IsArrayIndexKey(p[i]) && IsArrayIndexKey(p[j]) ==> p[i] < p[j])
            && (forall i, j :: 0 <= i < j < |p| && IsArrayIndexKey(p[j]) ==> IsArrayIndexKey(p[i]))
  {
    var p := PropertyOrder(s);
    var a := SortAscending(IndexKeys(s));
    var b := OtherKeys(s);
    FilterKeepsDistinct(s);
    SortAscendingSorted(IndexKeys(s));
    assert forall i :: 0 <= i < |a| ==> p[i] == a[i] && a[i] in a;
    assert forall j :: |a| <= j < |p| ==> p[j] == b[j - |a|] && b[j - |a|] in b;
  }

  lemma PropertyOrderDistinct(s: seq<int>)
    requires Distinct(s)
    ensures Distinct(PropertyOrder(s))
  {
    var p := PropertyOrder(s);
    var a := SortAscending(IndexKeys(s));
    var b := OtherKeys(s);
    FilterKeepsDistinct(s);
    SortAscendingSorted(IndexKeys(s));
    assert forall i :: 0 <= i < |a| ==> p[i] == a[i] && a[i] in a;
    assert forall j :: |a| <= j < |p| ==> p[j] == b[j - |a|] && b[j - |a|] in b;
    forall i, j | 0 <= i < j < |p| ensures p[i] != p[j] {
      if i >= |a| {
        assert p[i] == b[i - |a|] && p[j] == b[j - |a|];
      }
    }
  }

  /** Index keys first and ascending, other keys after them. */
  predicate InPropertyOrder(s: seq<int>)
  {
    && (forall i, j :: 0 <= i < j < |s| && IsArrayIndexKey(s[j]) ==> IsArrayIndexKey(s[i]))
    && (forall i, j :: 0 <= i < j < |s| && IsArrayIndexKey(s[i]) && IsArrayIndexKey(s[j]) ==> s[i] < s[j])
  }

  lemma {:induction false} OtherKeysOfPlain(s: seq<int>)
    requires forall i :: 0 <= i < |s| ==> !IsArrayIndexKey(s[i])
    ensures IndexKeys(s) == [] && OtherKeys(s) == s
  {
    if |s| > 0 {
      assert forall i :: 0 <= i < |s[1..]| ==> s[1..][i] == s[i + 1];
      OtherKeysOfPlain(s[1..]);
      assert s == [s[0]] + s[1..];
    }
  }

  lemma OrderedTail(s: seq<int>)
    requires InPropertyOrder(s) && |s| > 0
    ensures InPropertyOrder(s[1..])
  {
    var tail := s[1..];
    assert forall i :: 0 <= i < |tail| ==> tail[i] == s[i + 1];
  }

  lemma IndexHeadBelow(s: seq<int>)
    requires InPropertyOrder(s) && |s| > 0 && IsArrayIndexKey(s[0])
    ensures forall y :: y in IndexKeys(s[1..]) ==> s[0] < y
  {
    forall y | y in IndexKeys(s[1..]) ensures s[0] < y {
      var j :| 0 <= j < |s[1..]| && s[1..][j] == y;
      assert s[j + 1] == y;
    }
  }

  lemma InsertBelowAll(x: int, t: seq<int>)
    requires forall y :: y in t ==> x < y
    ensures InsertAscending(x, t) == [x] + t
  {
    if |t| > 0 {
      assert t[0] in t;
    }
  }

  lemma PlainHead(s: seq<int>)
    requires InPropertyOrder(s) && |s| > 0 && !IsArrayIndexKey(s[0])
    ensures PropertyOrder(s) == s
  {
    assert forall i :: 0 <= i < |s| ==> !IsArrayIndexKey(s[i]);
    OtherKeysOfPlain(s);
  }

  lemma IndexKeysCons(x: int, t: seq<int>)
    requires IsArrayIndexKey(x)
    ensures IndexKeys([x] + t) == [x] + IndexKeys(t) && OtherKeys([x] + t) == OtherKeys(t)
  {
    assert ([x] + t)[1..] == t;
  }

  lemma SortAscendingCons(x: int, t: seq<int>)
    ensures SortAscending([x] + t) == InsertAscending(x, SortAscending(t))
  {
    assert ([x] + t)[1..] == t;
  }

  lemma IndexHead(x: int, tail: seq<int>)
    requires IsArrayIndexKey(x)
    requires forall y :: y in SortAscending(IndexKeys(tail)) ==> x < y
    requires PropertyOrder(tail) == tail
    ensures PropertyOrder([x] + tail) == [x] + tail
  {
    var it := IndexKeys(tail);
    IndexKeysCons(x, tail);
    SortAscendingCons(x, it);
    InsertBelowAll(x, SortAscending(it));
    var a := SortAscending(it);
    var b := OtherKeys(tail);
    assert a + b == tail;
    assert PropertyOrder([x] + tail) == ([x] + a) + b;
    ConsAppend(x, a, b);
  }

  lemma ConsAppend(x: int, a: seq<int>, b: seq<int>)
    ensures ([x] + a) + b == [x] + (a + b)
  {
  }

  /** Listing keys that are already in property order reproduces them. */
  lemma {:induction false} PropertyOrderOfOrdered(s: seq<int>)
    requires InPropertyOrder(s)
    ensures PropertyOrder(s) == s
  {
    if |s| > 0 {
      OrderedTail(s);
      PropertyOrderOfOrdered(s[1..]);
      if IsArrayIndexKey(s[0]) {
        IndexHeadBelow(s);
        IndexHead(s[0], s[1..]);
        assert s == [s[0]] + s[1..];
      } else {
        PlainHead(s);
      }
    }
  }

  // ---- The grouped view ----

  function GroupsAt(keys: seq<int>, groups: map<int, Group>): (r: seq<Group>)
    requires AllIn(keys, groups)
    ensures |r| == |keys|
    ensures forall i :: 0 <= i < |keys| ==> r[i] == groups[keys[i]]
  {
    if |keys| == 0 then [] else [groups[keys[0]]] + GroupsAt(keys[1..], groups)
  }

  function TotalCount(gs: seq<Group>): nat
  {
    if |gs| == 0 then 0 else gs[0].count + TotalCount(gs[1..])
  }

  lemma {:induction false} TotalCountOfGroupsAt(keys: seq<int>, groups: map<int, Group>)
    requires AllIn(keys, groups)
    ensures TotalCount(GroupsAt(keys, groups)) == SumCounts(keys, groups)
  {
    if |keys| > 0 {
      TotalCountOfGroupsAt(keys[1..], groups);
      assert GroupsAt(keys, groups)[1..] == GroupsAt(keys[1..], groups);
    }
  }

  lemma ViewKeys(items: seq<Item>)
    ensures var acc := Accumulate(items);
            && Distinct(acc.order)
            && AllIn(acc.order, acc.groups)
            && AllIn(PropertyOrder(acc.order), acc.groups)
  {
    var acc := Accumulate(items);
    AccumulateKeys(items);
    AllInByMembership(acc.order, acc.groups);
    PropertyOrderMultiset(acc.order);
    var p := PropertyOrder(acc.order);
    forall i | 0 <= i < |p| ensures p[i] in acc.groups {
      assert p[i] in multiset(p);
      assert p[i] in multiset(acc.order);
    }
  }

  /** `Object.values(groupItems(items))`: the groups in property order. */
  function GroupedView(items: seq<Item>): seq<Group>
  {
    var acc := Accumulate(items);
    ViewKeys(items);
    GroupsAt(PropertyOrder(acc.order), acc.groups)
  }

  /** The i-th group of the view is the group of the i-th key in property order. */
  lemma GroupedViewAt(items: seq<Item>)
    ensures var acc := Accumulate(items);
            var p := PropertyOrder(acc.order);
            var gs := GroupedView(items);
            && |gs| == |p|
            && forall i :: 0 <= i < |gs| ==> p[i] in acc.groups && gs[i] == acc.groups[p[i]] && gs[i].requestId == p[i]
  {
    var acc := Accumulate(items);
    ViewKeys(items);
    AccumulateGroups(items);
  }

  /** Every group of the view counts exactly the items with its request id and carries the
      dimensions of the first such item in insertion order. */
  lemma GroupedViewContents(items: seq<Item>)
    ensures var gs := GroupedView(items);
            forall i :: 0 <= i < |gs| ==>
              var g := gs[i];
              && g.requestId in RequestIds(items)
              && g.count == Count(items, g.requestId)
              && var first := items[FirstIndex(items, g.requestId)];
                 g.length == first.length && g.width == first.width
                 && g.height == first.height && g.numberAxis == first.numberAxis
  {
    var acc := Accumulate(items);
    var p := PropertyOrder(acc.order);
    var gs := GroupedView(items);
    GroupedViewAt(items);
    forall i | 0 <= i < |gs|
      ensures gs[i].requestId in RequestIds(items)
      ensures gs[i].count == Count(items, gs[i].requestId)
      ensures var first := items[FirstIndex(items, gs[i].requestId)];
              gs[i].length == first.length && gs[i].width == first.width
              && gs[i].height == first.height && gs[i].numberAxis == first.numberAxis
    {
      AccumulateGroup(items, p[i]);
    }
  }

  /** Every request id has a group in the view. */
  lemma GroupedViewCovers(items: seq<Item>)
    ensures var gs := GroupedView(items);
            forall k :: k in RequestIds(items) ==> exists i :: 0 <= i < |gs| && gs[i].requestId == k
  {
    var acc := Accumulate(items);
    var p := PropertyOrder(acc.order);
    var gs := GroupedView(items);
    GroupedViewAt(items);
    AccumulateKeys(items);
    PropertyOrderMultiset(acc.order);
    forall k | k in RequestIds(items) ensures exists i :: 0 <= i < |gs| && gs[i].requestId == k {
      assert k in multiset(acc.order);
      assert k in multiset(p);
      var i :| 0 <= i < |p| && p[i] == k;
      assert gs[i].requestId == k;
    }
  }

  /** No request id has two groups; index-like request ids come first, in ascending order. */
  lemma GroupedViewOrder(items: seq<Item>)
    ensures var gs := GroupedView(items);
            && (forall i, j :: 0 <= i < j < |gs| ==> gs[i].requestId != gs[j].requestId)
            && (forall i, j :: 0 <= i < j < |gs| && IsArrayIndexKey(gs[i].requestId) && IsArrayIndexKey(gs[j].requestId)
                  ==> gs[i].requestId < gs[j].requestId)
            && (forall i, j :: 0 <= i < j < |gs| && IsArrayIndexKey(gs[j].requestId) ==> IsArrayIndexKey(gs[i].requestId))
  {
    var acc := Accumulate(items);
    GroupedViewAt(items);
    AccumulateKeys(items);
    PropertyOrderDistinct(acc.order);
    PropertyOrderShape(acc.order);
  }

  /** The group counts add up to the number of items. */
  lemma GroupedViewTotal(items: seq<Item>)
    ensures TotalCount(GroupedView(items)) == |items|
  {
    var acc := Accumulate(items);
    ViewKeys(items);
    AccumulateSum(items);
    PropertyOrderMultiset(acc.order);
    SumCountsPermutation(acc.order, PropertyOrder(acc.order), acc.groups);
    TotalCountOfGroupsAt(PropertyOrder(acc.order), acc.groups);
  }
}
