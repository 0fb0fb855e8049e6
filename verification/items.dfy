/** The browser-side item record, one instance of a request group, and the bin size. */
module Items {

  /** `{id, length, width, height, request_id, number_axis}` as ItemManager stores it. */
  datatype Item = Item(id: int, length: int, width: int, height: int, requestId: int, numberAxis: int)

  datatype BinSize = BinSize(length: int, width: int, height: int)

  function RequestIds(items: seq<Item>): (ids: set<int>)
    ensures forall i :: 0 <= i < |items| ==> items[i].requestId in ids
    ensures forall k :: k in ids ==> exists i :: 0 <= i < |items| && items[i].requestId == k
  {
    if |items| == 0 then {} else RequestIds(items[..|items| - 1]) + {items[|items| - 1].requestId}
  }

  /** Number of items whose request id is `k`. */
  function Count(items: seq<Item>, k: int): nat
  {
    if |items| == 0 then 0
    else Count(items[..|items| - 1], k) + (if items[|items| - 1].requestId == k then 1 else 0)
  }

  lemma {:induction false} CountPositive(items: seq<Item>, k: int)
    ensures k in RequestIds(items) <==> Count(items, k) > 0
  {
    if |items| > 0 {
      CountPositive(items[..|items| - 1], k);
    }
  }

  lemma {:induction false} CountAppend(a: seq<Item>, b: seq<Item>, k: int)
    ensures Count(a + b, k) == Count(a, k) + Count(b, k)
  {
    if |b| > 0 {
      assert (a + b)[..|a + b| - 1] == a + b[..|b| - 1];
      CountAppend(a, b[..|b| - 1], k);
    } else {
      assert a + b == a;
    }
  }

  lemma {:induction false} RequestIdsAppend(a: seq<Item>, b: seq<Item>)
    ensures RequestIds(a + b) == RequestIds(a) + RequestIds(b)
  {
    if |b| > 0 {
      assert (a + b)[..|a + b| - 1] == a + b[..|b| - 1];
      RequestIdsAppend(a, b[..|b| - 1]);
    } else {
      assert a + b == a;
    }
  }

  /** Index of the first item (in insertion order) whose request id is `k`. */
  function FirstIndex(items: seq<Item>, k: int): (i: nat)
    requires k in RequestIds(items)
    ensures i < |items| && items[i].requestId == k
    ensures forall j :: 0 <= j < i ==> items[j].requestId != k
  {
    var n := |items| - 1;
    if k in RequestIds(items[..n]) then FirstIndex(items[..n], k) else n
  }

  /** `length > bin.length || width > bin.width || height > bin.height`: no rotation is tried. */
  predicate Oversized(item: Item, bin: BinSize)
  {
    item.length > bin.length || item.width > bin.width || item.height > bin.height
  }

  /** A non-empty sequence is its prefix followed by its last element. */
  lemma PrefixAndLast<T>(s: seq<T>)
    requires |s| > 0
    ensures s == s[..|s| - 1] + [s[|s| - 1]]
  {
  }
}
