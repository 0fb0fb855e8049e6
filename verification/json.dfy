/** A JSON value as the browser and the Flask server see it, with the two languages'
    rules for truthiness, property access, membership and integer conversion.
    An object keeps its fields in document order, and its keys are taken to be distinct (for
    a repeated key, `Lookup` finds the first value). `JsKeys` lists the keys as JavaScript's
    `Object.keys` does: array indices first, ascending, then the rest in document order. */
module Json {
  import opened Wrappers
  import Text

  datatype Value =
    | JNull
    | JBool(b: bool)
    | JInt(i: int)
    | JFloat(r: real)
    | JStr(s: string)
    | JArr(elems: seq<Value>)
    | JObj(fields: seq<(string, Value)>)

  /** JavaScript truthiness (`if (v)`, `!v`, `a || b`). Arrays and objects are always truthy. */
  predicate JsTruthy(v: Value)
  {
    match v
    case JNull => false
    case JBool(b) => b
    case JInt(i) => i != 0
    case JFloat(r) => r != 0.0
    case JStr(s) => s != ""
    case JArr(_) => true
    case JObj(_) => true
  }

  /** Python truthiness (`if not data`): empty lists and dicts are falsy too. */
  predicate PyTruthy(v: Value)
  {
    match v
    case JArr(e) => |e| > 0
    case JObj(f) => |f| > 0
    case _ => JsTruthy(v)
  }

  /** `typeof v === 'object' && v !== null` (arrays included). */
  predicate IsJsObject(v: Value)
  {
    v.JArr? || v.JObj?
  }

  predicate IsNumber(v: Value)
  {
    v.JInt? || v.JFloat?
  }

  function NumValue(v: Value): real
    requires IsNumber(v)
  {
    if v.JInt? then v.i as real else v.r
  }

  function Keys(fields: seq<(string, Value)>): (ks: seq<string>)
    ensures |ks| == |fields|
    ensures forall i :: 0 <= i < |fields| ==> ks[i] == fields[i].0
  {
    if |fields| == 0 then [] else [fields[0].0] + Keys(fields[1..])
  }

  /** The value stored under `key` (the first occurrence), or `None`. Python's `json` and
      `JSON.parse` keep the last value of a repeated key; see the distinct-keys note above. */
  function Lookup(fields: seq<(string, Value)>, key: string): (r: Option<Value>)
    ensures r.Some? <==> key in Keys(fields)
    ensures r.Some? ==> (key, r.value) in fields
  {
    if |fields| == 0 then None
    else if fields[0].0 == key then Some(fields[0].1)
    else Lookup(fields[1..], key)
  }

  /** A key whose earlier fields all carry other keys is found at its own position. */
  lemma {:induction false} LookupAt(fields: seq<(string, Value)>, i: nat)
    requires i < |fields|
    requires forall j :: 0 <= j < i ==> fields[j].0 != fields[i].0
    ensures Lookup(fields, fields[i].0) == Some(fields[i].1)
  {
    if i > 0 {
      LookupAt(fields[1..], i - 1);
    }
  }

  /** JavaScript property read `v.key` on a non-null value; `None` is `undefined`.
      Strings and arrays expose `length`. The source throws on `null`, which callers check first. */
  function JsGet(v: Value, key: string): Option<Value>
  {
    match v
    case JObj(f) => Lookup(f, key)
    case JStr(s) => if key == "length" then Some(JInt(|s|)) else None
    case JArr(e) => if key == "length" then Some(JInt(|e|)) else None
    case _ => None
  }

  /** `key in v` in JavaScript, for an object or array: its own keys, which for an array are
      the indices and `length`. Keys inherited from the prototype are not modelled. */
  predicate JsHas(v: Value, key: string)
    requires IsJsObject(v)
  {
    if v.JObj? then key in Keys(v.fields) else key == "length" || key in ArrayKeys(|v.elems|)
  }

  /** `Object.keys` of an array of length `n`: "0", "1", ..., in order. */
  function ArrayKeys(n: nat): (ks: seq<string>)
    ensures |ks| == n
    ensures forall i :: 0 <= i < n ==> ks[i] == Text.NatToString(i)
  {
    if n == 0 then [] else ArrayKeys(n - 1) + [Text.NatToString(n - 1)]
  }

  /** `Object.keys(v)` (and the order of `Object.entries(v)`) of an object or array: an
      object's keys in property order, an array's indices ascending. */
  function JsKeys(v: Value): seq<string>
    requires IsJsObject(v)
  {
    if v.JObj? then PropertyOrder(Keys(v.fields)) else ArrayKeys(|v.elems|)
  }

  // ---- property order (section 10.1.11.1 of ECMA-262, OrdinaryOwnPropertyKeys) ----

  /** An array index: the canonical decimal form of an integer below 2^32 - 1. */
  predicate IsIndexKey(k: string)
  {
    && |k| >= 1 && Text.AllDigits(k) && (|k| == 1 || k[0] != '0')
    && Text.DigitsValue(k) < 0xFFFF_FFFF
  }

  /** The numeric value of an index key; other keys rank 0 but are never compared. */
  function IndexValue(k: string): nat
  {
    if IsIndexKey(k) then Text.DigitsValue(k) else 0
  }

  /** The index keys of `ks`, in insertion order. */
  function IndexKeys(ks: seq<string>): (r: seq<string>)
    ensures forall i :: 0 <= i < |r| ==> IsIndexKey(r[i])
  {
    if |ks| == 0 then []
    else (if IsIndexKey(ks[0]) then [ks[0]] else []) + IndexKeys(ks[1..])
  }

  /** The other keys of `ks`, in insertion order. */
  function OtherKeys(ks: seq<string>): (r: seq<string>)
    ensures forall i :: 0 <= i < |r| ==> !IsIndexKey(r[i])
  {
    if |ks| == 0 then []
    else (if IsIndexKey(ks[0]) then [] else [ks[0]]) + OtherKeys(ks[1..])
  }

  predicate AscendingIndices(s: seq<string>)
  {
    forall i, j :: 0 <= i < j < |s| ==> IndexValue(s[i]) <= IndexValue(s[j])
  }

  /** `k` placed in a list of keys before the first key of larger or equal value. */
  function InsertByIndex(k: string, s: seq<string>): (r: seq<string>)
    ensures multiset(r) == multiset(s) + multiset{k}
  {
    if |s| == 0 || IndexValue(k) <= IndexValue(s[0]) then [k] + s
    else
      assert s == [s[0]] + s[1..];
      [s[0]] + InsertByIndex(k, s[1..])
  }

  /** The keys of `s` in ascending order of value, equal values keeping their order. */
  function SortByIndex(s: seq<string>): (r: seq<string>)
    ensures multiset(r) == multiset(s)
  {
    if |s| == 0 then []
    else
      assert s == [s[0]] + s[1..];
      InsertByIndex(s[0], SortByIndex(s[1..]))
  }

  /** Every key of `s` has at least the value `v`. */
  predicate AllAtLeast(s: seq<string>, v: nat)
  {
    forall i :: 0 <= i < |s| ==> v <= IndexValue(s[i])
  }

  lemma AllAtLeastMultiset(s: seq<string>, t: seq<string>, v: nat)
    requires AllAtLeast(s, v) && multiset(t) <= multiset(s)
    ensures AllAtLeast(t, v)
  {
    forall i | 0 <= i < |t| ensures v <= IndexValue(t[i]) {
      assert t[i] in multiset(s);
    }
  }

  lemma AscendingCons(x: string, t: seq<string>)
    requires AscendingIndices(t) && AllAtLeast(t, IndexValue(x))
    ensures AscendingIndices([x] + t)
  {
    var r := [x] + t;
    assert forall j :: 1 <= j < |r| ==> r[j] == t[j - 1];
  }

  lemma AscendingTail(s: seq<string>)
    requires AscendingIndices(s) && |s| > 0
    ensures AscendingIndices(s[1..]) && AllAtLeast(s[1..], IndexValue(s[0]))
  {
    assert forall j :: 0 <= j < |s[1..]| ==> s[1..][j] == s[j + 1];
  }

  /** Insertion keeps a list ascending. */
  lemma {:induction false} InsertByIndexAscending(k: string, s: seq<string>)
    requires AscendingIndices(s)
    ensures AscendingIndices(InsertByIndex(k, s))
  {
    if |s| == 0 {
    } else if IndexValue(k) <= IndexValue(s[0]) {
      AllAtLeastMultiset([s[0]] + s[1..], s, IndexValue(k)) by {
        AscendingTail(s);
        assert s == [s[0]] + s[1..];
      }
      AscendingCons(k, s);
    } else {
      AscendingTail(s);
      var t := InsertByIndex(k, s[1..]);
      InsertByIndexAscending(k, s[1..]);
      assert AllAtLeast([k] + s[1..], IndexValue(s[0])) by {
        assert forall j :: 1 <= j < |s| ==> ([k] + s[1..])[j] == s[1..][j - 1];
      }
      AllAtLeastMultiset([k] + s[1..], t, IndexValue(s[0]));
      AscendingCons(s[0], t);
    }
  }

  /** Sorting gives an ascending list. */
  lemma {:induction false} SortByIndexAscending(s: seq<string>)
    ensures AscendingIndices(SortByIndex(s))
  {
    if |s| > 0 {
      SortByIndexAscending(s[1..]);
      InsertByIndexAscending(s[0], SortByIndex(s[1..]));
    }
  }

  /** Keys inserted in order `ks` as `Object.keys` lists them: the index keys first in
      ascending numeric order, then the other keys in insertion order. */
  function PropertyOrder(ks: seq<string>): seq<string>
  {
    SortByIndex(IndexKeys(ks)) + OtherKeys(ks)
  }

  /** Index keys first, ascending; other keys after them. */
  predicate InPropertyOrder(s: seq<string>)
  {
    && (forall i, j :: 0 <= i < j < |s| && IsIndexKey(s[j]) ==> IsIndexKey(s[i]))
    && (forall i, j :: 0 <= i < j < |s| && IsIndexKey(s[j]) ==> IndexValue(s[i]) <= IndexValue(s[j]))
  }

  lemma {:induction false} SplitKeys(ks: seq<string>)
    ensures multiset(IndexKeys(ks)) + multiset(OtherKeys(ks)) == multiset(ks)
  {
    if |ks| > 0 {
      SplitKeys(ks[1..]);
      assert ks == [ks[0]] + ks[1..];
    }
  }

  /** Property order lists the same keys, each as often, with index keys first and ascending. */
  lemma PropertyOrderShape(ks: seq<string>)
    ensures multiset(PropertyOrder(ks)) == multiset(ks)
    ensures InPropertyOrder(PropertyOrder(ks))
  {
    SplitKeys(ks);
    var a := SortByIndex(IndexKeys(ks));
    SortByIndexAscending(IndexKeys(ks));
    SortedIndexKeys(ks);
    OrderedAppend(a, OtherKeys(ks));
  }

  lemma SortedIndexKeys(ks: seq<string>)
    ensures forall i :: 0 <= i < |SortByIndex(IndexKeys(ks))| ==> IsIndexKey(SortByIndex(IndexKeys(ks))[i])
  {
    var a := SortByIndex(IndexKeys(ks));
    forall i | 0 <= i < |a| ensures IsIndexKey(a[i]) {
      assert a[i] in multiset(IndexKeys(ks));
    }
  }

  /** Ascending index keys followed by other keys are in property order. */
  lemma OrderedAppend(a: seq<string>, b: seq<string>)
    requires forall i :: 0 <= i < |a| ==> IsIndexKey(a[i])
    requires AscendingIndices(a)
    requires forall i :: 0 <= i < |b| ==> !IsIndexKey(b[i])
    ensures InPropertyOrder(a + b)
  {
    var p := a + b;
    assert forall j :: 0 <= j < |a| ==> p[j] == a[j];
    assert forall j :: |a| <= j < |p| ==> p[j] == b[j - |a|];
  }

  /** Property order has exactly the keys it was given. */
  lemma PropertyOrderMembers(ks: seq<string>)
    ensures |PropertyOrder(ks)| == |ks|
    ensures forall k :: k in PropertyOrder(ks) <==> k in ks
  {
    PropertyOrderShape(ks);
    var p := PropertyOrder(ks);
    assert forall k :: k in p <==> k in multiset(p);
    assert forall k :: k in ks <==> k in multiset(ks);
  }

  /** Keys none of which is an index key keep their insertion order. */
  lemma {:induction false} PropertyOrderOfPlain(ks: seq<string>)
    requires forall i :: 0 <= i < |ks| ==> !IsIndexKey(ks[i])
    ensures PropertyOrder(ks) == ks
  {
    PlainKeys(ks);
  }

  /** Keys already in property order are listed as they are: `Object.keys` of an object
      built from another object's `Object.keys` keeps that order. */
  lemma {:induction false} PropertyOrderOfOrdered(s: seq<string>)
    requires InPropertyOrder(s)
    ensures PropertyOrder(s) == s
  {
    if |s| > 0 {
      OrderedTail(s);
      PropertyOrderOfOrdered(s[1..]);
      if IsIndexKey(s[0]) {
        IndexKeysOfTail(s);
        IndexHead(s[0], s[1..]);
        assert s == [s[0]] + s[1..];
      } else {
        PlainHead(s);
      }
    }
  }

  lemma OrderedTail(s: seq<string>)
    requires InPropertyOrder(s) && |s| > 0
    ensures InPropertyOrder(s[1..])
  {
    var t := s[1..];
    assert forall j :: 0 <= j < |t| ==> t[j] == s[j + 1];
  }

  lemma PlainHead(s: seq<string>)
    requires InPropertyOrder(s) && |s| > 0 && !IsIndexKey(s[0])
    ensures PropertyOrder(s) == s
  {
    assert forall i :: 0 <= i < |s| ==> !IsIndexKey(s[i]);
    PlainKeys(s);
  }

  /** After an index key, the index keys of the rest have at least its value. */
  lemma IndexKeysOfTail(s: seq<string>)
    requires InPropertyOrder(s) && |s| > 0 && IsIndexKey(s[0])
    ensures AllAtLeast(IndexKeys(s[1..]), IndexValue(s[0]))
  {
    var t := s[1..];
    var it := IndexKeys(t);
    SplitKeys(t);
    forall i | 0 <= i < |it| ensures IndexValue(s[0]) <= IndexValue(it[i]) {
      assert it[i] in multiset(t);
      var j :| 0 <= j < |t| && t[j] == it[i];
      assert s[j + 1] == it[i];
    }
  }

  lemma IndexHead(x: string, t: seq<string>)
    requires IsIndexKey(x) && AllAtLeast(IndexKeys(t), IndexValue(x))
    requires PropertyOrder(t) == t
    ensures PropertyOrder([x] + t) == [x] + t
  {
    var it := IndexKeys(t);
    var a := SortByIndex(it);
    SplitCons(x, t);
    SortCons(x, it);
    AllAtLeastMultiset(it, a, IndexValue(x));
    InsertBelowAll(x, a);
    ConsAppend(x, a, OtherKeys(t));
  }

  lemma SplitCons(x: string, t: seq<string>)
    requires IsIndexKey(x)
    ensures IndexKeys([x] + t) == [x] + IndexKeys(t) && OtherKeys([x] + t) == OtherKeys(t)
  {
    assert ([x] + t)[1..] == t;
  }

  lemma SortCons(x: string, t: seq<string>)
    ensures SortByIndex([x] + t) == InsertByIndex(x, SortByIndex(t))
  {
    assert ([x] + t)[1..] == t;
  }

  lemma InsertBelowAll(x: string, a: seq<string>)
    requires AllAtLeast(a, IndexValue(x))
    ensures InsertByIndex(x, a) == [x] + a
  {
  }

  lemma ConsAppend(x: string, a: seq<string>, b: seq<string>)
    ensures ([x] + a) + b == [x] + (a + b)
  {
  }

  lemma {:induction false} PlainKeys(ks: seq<string>)
    requires forall i :: 0 <= i < |ks| ==> !IsIndexKey(ks[i])
    ensures IndexKeys(ks) == [] && OtherKeys(ks) == ks
  {
    if |ks| > 0 {
      assert forall i :: 0 <= i < |ks[1..]| ==> ks[1..][i] == ks[i + 1];
      PlainKeys(ks[1..]);
      assert ks == [ks[0]] + ks[1..];
    }
  }

  /** JavaScript `===` for the values a JSON document can hold. Two arrays or objects are
      never taken to be the same reference. */
  predicate StrictEquals(a: Value, b: Value)
  {
    if IsNumber(a) && IsNumber(b) then NumValue(a) == NumValue(b)
    else match (a, b)
      case (JNull, JNull) => true
      case (JBool(x), JBool(y)) => x == y
      case (JStr(x), JStr(y)) => x == y
      case _ => false
  }

  /** `SameValueZero`, the equality of a `Set`, on possibly-`undefined` values (`None`). */
  predicate SameValueZero(a: Option<Value>, b: Option<Value>)
  {
    (a.None? && b.None?) || (a.Some? && b.Some? && StrictEquals(a.value, b.value))
  }

  /** `[...new Set(vs)]`: each value is added unless the set already holds one that is the
      same, so the result keeps first occurrences in order. */
  function SetValues(vs: seq<Option<Value>>): (r: seq<Option<Value>>)
    ensures |r| <= |vs|
    ensures |vs| > 0 ==> |r| > 0
    ensures forall x :: x in r ==> x in vs
    ensures forall i, j :: 0 <= i < j < |r| ==> !SameValueZero(r[i], r[j])
    ensures forall i :: 0 <= i < |vs| ==> exists j :: 0 <= j < |r| && (r[j] == vs[i] || SameValueZero(r[j], vs[i]))
  {
    if |vs| == 0 then []
    else
      var n := |vs| - 1;
      var init := SetValues(vs[..n]);
      var present := exists j :: 0 <= j < |init| && SameValueZero(init[j], vs[n]);
      var r := if present then init else init + [vs[n]];
      assert forall i :: 0 <= i < |init| ==> r[i] == init[i];
      assert forall i :: 0 <= i < n ==> vs[..n][i] == vs[i];
      assert exists j :: 0 <= j < |r| && (r[j] == vs[n] || SameValueZero(r[j], vs[n])) by {
        if !present {
          assert r[|init|] == vs[n];
        }
      }
      r
  }

  /** Values that are the same under `SameValueZero` as one and the same value are the same
      as each other. */
  lemma SameValueZeroTransitive(a: Option<Value>, b: Option<Value>, c: Option<Value>)
    requires SameValueZero(a, b) && SameValueZero(b, c)
    ensures SameValueZero(a, c)
  {
  }

  /** `vs[i]` is the first value of its kind: no earlier value is the same under `SameValueZero`. */
  predicate NewAt(vs: seq<Option<Value>>, i: nat)
    requires i < |vs|
  {
    forall k :: 0 <= k < i ==> !SameValueZero(vs[k], vs[i])
  }

  /** The positions of the first occurrences, in increasing order. */
  function FirstIndices(vs: seq<Option<Value>>): seq<nat>
  {
    if |vs| == 0 then []
    else
      var n := |vs| - 1;
      FirstIndices(vs[..n]) + (if NewAt(vs, n) then [n] else [])
  }

  /** `r` lists the first occurrences of `vs` in order: `f` holds, increasing, exactly the
      positions where a new value appears, and `r` holds the values found there. */
  predicate FirstOccurrences(r: seq<Option<Value>>, vs: seq<Option<Value>>, f: seq<nat>)
  {
    && |f| == |r|
    && (forall j :: 0 <= j < |f| ==> f[j] < |vs| && NewAt(vs, f[j]) && r[j] == vs[f[j]])
    && (forall a, b :: 0 <= a < b < |f| ==> f[a] < f[b])
    && (forall i :: 0 <= i < |vs| && NewAt(vs, i) ==> i in f)
  }

  /** `[...new Set(vs)]` is the list of first occurrences of `vs`, in order. */
  lemma {:induction false} SetValuesKeepsFirstOccurrences(vs: seq<Option<Value>>)
    ensures FirstOccurrences(SetValues(vs), vs, FirstIndices(vs))
  {
    if |vs| > 0 {
      var n := |vs| - 1;
      SetValuesKeepsFirstOccurrences(vs[..n]);
      SeenIffRepeated(vs);
      ExtendFirstOccurrences(SetValues(vs[..n]), vs, FirstIndices(vs[..n]));
    }
  }

  /** Whether `vs[i]` is new does not depend on what comes after it. */
  lemma NewAtPrefix(vs: seq<Option<Value>>, n: nat, i: nat)
    requires i < n <= |vs|
    ensures NewAt(vs[..n], i) <==> NewAt(vs, i)
  {
    assert forall k :: 0 <= k < i ==> vs[..n][k] == vs[k];
  }

  /** The set built from the earlier values already holds one the same as the last value
      exactly when the last value is not new. */
  lemma SeenIffRepeated(vs: seq<Option<Value>>)
    requires |vs| > 0
    requires FirstOccurrences(SetValues(vs[..|vs| - 1]), vs[..|vs| - 1], FirstIndices(vs[..|vs| - 1]))
    ensures var n := |vs| - 1;
            var init := SetValues(vs[..n]);
            (exists j :: 0 <= j < |init| && SameValueZero(init[j], vs[n])) <==> !NewAt(vs, n)
  {
    var n := |vs| - 1;
    var init := SetValues(vs[..n]);
    if exists j :: 0 <= j < |init| && SameValueZero(init[j], vs[n]) {
      var j :| 0 <= j < |init| && SameValueZero(init[j], vs[n]);
      SeenIsRepeated(vs, j);
    } else if !NewAt(vs, n) {
      var k :| 0 <= k < n && SameValueZero(vs[k], vs[n]);
      assert vs[..n][k] == vs[k];
      var j := RepeatedIsSeen(vs[..n], vs[n], k);
    }
  }

  /** An earlier value the set holds that is the same as the last value makes the last value
      not new. */
  lemma SeenIsRepeated(vs: seq<Option<Value>>, j: nat)
    requires |vs| > 0
    requires FirstOccurrences(SetValues(vs[..|vs| - 1]), vs[..|vs| - 1], FirstIndices(vs[..|vs| - 1]))
    requires j < |SetValues(vs[..|vs| - 1])| && SameValueZero(SetValues(vs[..|vs| - 1])[j], vs[|vs| - 1])
    ensures !NewAt(vs, |vs| - 1)
  {
    var n := |vs| - 1;
    var f0 := FirstIndices(vs[..n]);
    assert vs[..n][f0[j]] == vs[f0[j]];
  }

  /** A value the same as one of `pre` is the same as some value of `[...new Set(pre)]`. */
  lemma RepeatedIsSeen(pre: seq<Option<Value>>, last: Option<Value>, k: nat) returns (j: nat)
    requires k < |pre| && SameValueZero(pre[k], last)
    ensures j < |SetValues(pre)| && SameValueZero(SetValues(pre)[j], last)
  {
    j := SetValuesCovers(pre, k);
    var x := SetValues(pre)[j];
    if x != pre[k] {
      SameValueZeroTransitive(x, pre[k], last);
    }
  }

  /** Every input value has one the same in `[...new Set(vs)]`. */
  lemma SetValuesCovers(vs: seq<Option<Value>>, i: nat) returns (j: nat)
    requires i < |vs|
    ensures j < |SetValues(vs)| && (SetValues(vs)[j] == vs[i] || SameValueZero(SetValues(vs)[j], vs[i]))
  {
    var r := SetValues(vs);
    j :| 0 <= j < |r| && (r[j] == vs[i] || SameValueZero(r[j], vs[i]));
  }

  /** The first occurrences of the earlier values, and the last value when it is new, are the
      first occurrences of all the values. */
  lemma ExtendFirstOccurrences(init: seq<Option<Value>>, vs: seq<Option<Value>>, f0: seq<nat>)
    requires |vs| > 0
    requires FirstOccurrences(init, vs[..|vs| - 1], f0)
    ensures var n := |vs| - 1;
            FirstOccurrences(init + (if NewAt(vs, n) then [vs[n]] else []), vs, f0 + (if NewAt(vs, n) then [n] else []))
  {
    var n := |vs| - 1;
    var r := init + (if NewAt(vs, n) then [vs[n]] else []);
    var f := f0 + (if NewAt(vs, n) then [n] else []);
    forall j | 0 <= j < |f| ensures f[j] < |vs| && NewAt(vs, f[j]) && r[j] == vs[f[j]] {
      if j < |f0| {
        NewAtPrefix(vs, n, f0[j]);
        assert vs[..n][f0[j]] == vs[f0[j]];
      }
    }
    forall i | 0 <= i < |vs| && NewAt(vs, i) ensures i in f {
      if i < n {
        NewAtPrefix(vs, n, i);
        assert i in f0;
      } else {
        assert f[|f0|] == i;
      }
    }
  }

  /** Python `key in container`: dict keys, list elements equal to the string, substring of a
      string; `None` is the `TypeError` raised for any other container. */
  function PyIn(key: string, container: Value): Option<bool>
  {
    match container
    case JObj(f) => Some(key in Keys(f))
    case JArr(e) => Some(JStr(key) in e)
    case JStr(s) => Some(Text.Contains(s, key))
    case _ => None
  }

  /** Python `container[key]`; `None` is the `KeyError` or `TypeError` it raises. */
  function PySubscript(container: Value, key: string): Option<Value>
  {
    if container.JObj? then Lookup(container.fields, key) else None
  }

  /** Python `container.get(key, default)`; `None` is the `AttributeError` of a non-dict. */
  function PyGet(container: Value, key: string, default: Value): Option<Value>
  {
    if container.JObj? then Some(Lookup(container.fields, key).GetOr(default)) else None
  }

  /** Python `int()` of a real: truncation toward zero. */
  function TruncReal(r: real): int
  {
    if r >= 0.0 then r.Floor else -((-r).Floor)
  }

  /** A decimal integer literal with an optional sign, as Python's `int(str)` accepts it. */
  predicate IsIntLiteral(s: string)
  {
    if |s| > 0 && (s[0] == '-' || s[0] == '+') then |s| > 1 && Text.AllDigits(s[1..])
    else |s| > 0 && Text.AllDigits(s)
  }

  function IntLiteralValue(s: string): int
    requires IsIntLiteral(s)
  {
    if s[0] == '-' then 0 - Text.DigitsValue(s[1..]) as int
    else if s[0] == '+' then Text.DigitsValue(s[1..])
    else Text.DigitsValue(s)
  }

  /** Python `int(v)`; `None` is the `ValueError`/`TypeError` it raises. */
  function PyInt(v: Value): (r: Option<int>)
    ensures v.JInt? ==> r == Some(v.i)
    ensures v.JNull? || v.JArr? || v.JObj? ==> r.None?
  {
    match v
    case JInt(i) => Some(i)
    case JBool(b) => Some(if b then 1 else 0)
    case JFloat(r) => Some(TruncReal(r))
    case JStr(s) => if IsIntLiteral(s) then Some(IntLiteralValue(s)) else None
    case _ => None
  }

  /** `int(str(i))` gives `i` back: the string form of every integer converts. */
  lemma PyIntOfRenderedInt(i: int)
    ensures PyInt(JStr(Text.IntToString(i))) == Some(i)
  {
    if i < 0 {
      NegativeRenders(i);
    } else {
      NonNegativeRenders(i);
    }
  }

  lemma NegativeRenders(i: int)
    requires i < 0
    ensures PyInt(JStr(Text.IntToString(i))) == Some(i)
  {
    var s := Text.IntToString(i);
    Text.NegativeIntString(i);
    SignedReads(s, s[1..], -i);
  }

  lemma NonNegativeRenders(i: int)
    requires i >= 0
    ensures PyInt(JStr(Text.IntToString(i))) == Some(i)
  {
    var s := Text.IntToString(i);
    UnsignedLiteralValue(s);
    Text.DigitsOfNatToString(i);
    LiteralReads(s, i);
  }

  /** A minus sign before a non-empty run of digits reads as the negated value. */
  lemma SignedReads(s: string, t: string, n: nat)
    requires |s| > 1 && s[0] == '-' && s[1..] == t && Text.AllDigits(t) && Text.DigitsValue(t) == n
    ensures PyInt(JStr(s)) == Some(-(n as int))
  {
  }

  lemma LiteralReads(s: string, i: int)
    requires IsIntLiteral(s) && IntLiteralValue(s) == i
    ensures PyInt(JStr(s)) == Some(i)
  {
  }

  /** A non-empty run of digits reads as its value. */
  lemma UnsignedLiteralValue(t: string)
    requires |t| > 0 && Text.AllDigits(t)
    ensures IsIntLiteral(t) && IntLiteralValue(t) == Text.DigitsValue(t)
  {
    assert Text.IsDigit(t[0]);
  }
}
