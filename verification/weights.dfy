/** The algorithm-weight store (`WeightManager`): always exactly the eight default keys, each
    holding the JSON value it was last given. */
module Weights {
  import opened Wrappers
  import opened Json
  import Text
  import Lcg

  const DefaultKeys: seq<string> := ["W_lifo", "W_sim_l", "W_sim_w", "W_sim_h",
                                     "W_leftover_l_ratio", "W_leftover_w_ratio", "W_packable_l", "W_packable_w"]

  const DefaultValues: seq<Value> := [JFloat(10.0), JFloat(-1.0), JFloat(-1.0), JFloat(0.0),
                                      JFloat(-5.0), JFloat(-5.0), JFloat(-0.5), JFloat(-0.5)]

  /** The stored weights: `values[i]` is the weight named `DefaultKeys[i]`. Every operation
      rebuilds or edits the object in place, so the key order never changes. */
  datatype Store = Store(values: seq<Value>)

  predicate WellFormed(store: Store)
  {
    |store.values| == |DefaultKeys|
  }

  /** No weight key is listed twice. */
  lemma DefaultKeysDistinct()
    ensures forall i, j :: 0 <= i < j < |DefaultKeys| ==> DefaultKeys[i] != DefaultKeys[j]
  {
  }

  /** Every weight key starts with `W`, so none of them is an array index. */
  lemma DefaultKeysStartWithW()
    ensures forall k :: k in DefaultKeys ==> |k| > 0 && k[0] == 'W'
  {
  }

  /** No weight key is an array index, so `Object.keys` keeps them in their own order. */
  lemma DefaultKeysNotIndices()
    ensures forall i :: 0 <= i < |DefaultKeys| ==> !Json.IsIndexKey(DefaultKeys[i])
    ensures Json.PropertyOrder(DefaultKeys) == DefaultKeys
  {
    DefaultKeysStartWithW();
    forall i | 0 <= i < |DefaultKeys| ensures !Json.IsIndexKey(DefaultKeys[i]) {
      assert DefaultKeys[i] in DefaultKeys;
      assert !Text.IsDigit(DefaultKeys[i][0]);
    }
    Json.PropertyOrderOfPlain(DefaultKeys);
  }

  /** Looking up the name at position `i` finds position `i`. */
  lemma KeyIndexOf(i: int)
    requires 0 <= i < |DefaultKeys|
    ensures KeyIndex(DefaultKeys[i]) == Some(i)
  {
    DefaultKeysDistinct();
  }

  /** Position of a weight key, `None` for any other string. */
  function KeyIndex(key: string): (r: Option<nat>)
    ensures r.Some? <==> key in DefaultKeys
    ensures r.Some? ==> r.value < |DefaultKeys| && DefaultKeys[r.value] == key
  {
    KeyIndexFrom(key, 0)
  }

  function KeyIndexFrom(key: string, i: nat): (r: Option<nat>)
    requires i <= |DefaultKeys|
    ensures r.Some? <==> key in DefaultKeys[i..]
    ensures r.Some? ==> i <= r.value < |DefaultKeys| && DefaultKeys[r.value] == key
    decreases |DefaultKeys| - i
  {
    if i == |DefaultKeys| then None
    else if DefaultKeys[i] == key then Some(i)
    else
      assert DefaultKeys[i..] == [DefaultKeys[i]] + DefaultKeys[i + 1..];
      KeyIndexFrom(key, i + 1)
  }

  /** `resetToDefaults()` (also what the constructor does). */
  function ResetToDefaults(): (r: Store)
    ensures WellFormed(r)
    ensures forall i :: 0 <= i < |DefaultKeys| ==> r.values[i] == DefaultValues[i]
  {
    Store(DefaultValues)
  }

  /** `isDefaultWeights()`: every key strictly equals its default. */
  predicate IsDefaultWeights(store: Store)
    requires WellFormed(store)
  {
    forall i :: 0 <= i < |DefaultKeys| ==> StrictEquals(store.values[i], DefaultValues[i])
  }

  lemma ResetIsDefault()
    ensures IsDefaultWeights(ResetToDefaults())
  {
  }

  /** The keys of `keys` that are not weight keys, in order. */
  function InvalidKeys(keys: seq<string>): (r: seq<string>)
    ensures forall k :: k in r <==> k in keys && k !in DefaultKeys
    ensures IsSubsequence(r, keys)
  {
    if |keys| == 0 then []
    else
      var rest := InvalidKeys(keys[1..]);
      if keys[0] in DefaultKeys then
        SubsequenceOfTail(rest, keys);
        rest
      else
        assert ([keys[0]] + rest)[1..] == rest;
        [keys[0]] + rest
  }

  /** A subsequence of a list's tail is a subsequence of the list. */
  lemma SubsequenceOfTail(a: seq<string>, b: seq<string>)
    requires |b| > 0 && IsSubsequence(a, b[1..])
    ensures IsSubsequence(a, b)
  {
  }

  datatype WeightsError = InvalidWeightsData | InvalidKey(key: string) | InvalidValue(key: string)

  /** `setWeights(weights)`: every weight key takes the provided value when it is defined and
      its default otherwise; unknown keys are reported and dropped. */
  function SetWeights(v: Value): (r: Result<(Store, seq<string>), WeightsError>)
    ensures r.Err? <==> !IsJsObject(v)
    ensures r.Err? ==> r.error == InvalidWeightsData
    ensures r.Ok? ==>
              var (store, invalid) := r.value;
              && WellFormed(store)
              && (forall i :: 0 <= i < |DefaultKeys| && JsGet(v, DefaultKeys[i]).Some? ==>
                    store.values[i] == JsGet(v, DefaultKeys[i]).value)
              && (forall i :: 0 <= i < |DefaultKeys| && JsGet(v, DefaultKeys[i]).None? ==>
                    store.values[i] == DefaultValues[i])
              && (forall k :: k in invalid <==> k in JsKeys(v) && k !in DefaultKeys)
              && IsSubsequence(invalid, JsKeys(v))
  {
    if !IsJsObject(v) then Err(InvalidWeightsData)
    else
      var values := seq(|DefaultKeys|, i requires 0 <= i < |DefaultKeys| => JsGet(v, DefaultKeys[i]).GetOr(DefaultValues[i]));
      Ok((Store(values), InvalidKeys(JsKeys(v))))
  }

  /** `updateWeight(key, value)`; `value` is the result of `parseFloat`, `None` for `NaN`. */
  function UpdateWeight(store: Store, key: string, value: Option<real>): (r: Result<Store, WeightsError>)
    requires WellFormed(store)
    ensures key !in DefaultKeys ==> r == Err(InvalidKey(key))
    ensures key in DefaultKeys && value.None? ==> r == Err(InvalidValue(key))
    ensures r.Ok? <==> key in DefaultKeys && value.Some?
    ensures r.Ok? ==>
              && WellFormed(r.value)
              && forall i :: 0 <= i < |DefaultKeys| ==>
                   r.value.values[i] == if DefaultKeys[i] == key then JFloat(value.value) else store.values[i]
  {
    match KeyIndex(key)
    case None => Err(InvalidKey(key))
    case Some(i) =>
      if value.None? then Err(InvalidValue(key))
      else
        WriteAtKey(store, i, JFloat(value.value));
        Ok(Store(store.values[i := JFloat(value.value)]))
  }

  /** Writing position `i` changes the weight of that key and of no other. */
  lemma WriteAtKey(store: Store, i: nat, v: Value)
    requires WellFormed(store) && i < |DefaultKeys|
    ensures forall j :: 0 <= j < |DefaultKeys| ==>
              store.values[i := v][j] == if DefaultKeys[j] == DefaultKeys[i] then v else store.values[j]
  {
    DefaultKeysDistinct();
  }

  /** The store as a JavaScript object (`{...this.weights}`), keys in default order. */
  function AsObject(store: Store): (r: Value)
    requires WellFormed(store)
    ensures r.JObj? && |r.fields| == |DefaultKeys|
    ensures forall i :: 0 <= i < |DefaultKeys| ==> r.fields[i] == (DefaultKeys[i], store.values[i])
  {
    JObj(seq(|DefaultKeys|, i requires 0 <= i < |DefaultKeys| => (DefaultKeys[i], store.values[i])))
  }

  lemma AsObjectLookup(store: Store)
    requires WellFormed(store)
    ensures Keys(AsObject(store).fields) == DefaultKeys
    ensures forall i :: 0 <= i < |DefaultKeys| ==> JsGet(AsObject(store), DefaultKeys[i]) == Some(store.values[i])
  {
    DefaultKeysDistinct();
    var f := AsObject(store).fields;
    forall i | 0 <= i < |DefaultKeys| ensures JsGet(AsObject(store), DefaultKeys[i]) == Some(store.values[i]) {
      Json.LookupAt(f, i);
    }
  }

  /** Setting the weights from a copy of the store gives the store back, with no unknown keys. */
  lemma SetWeightsOfCopy(store: Store)
    requires WellFormed(store)
    ensures SetWeights(AsObject(store)) == Ok((store, []))
  {
    CopyValues(store);
    CopyHasNoUnknownKey(store);
  }

  lemma CopyValues(store: Store)
    requires WellFormed(store)
    ensures SetWeights(AsObject(store)).Ok? && SetWeights(AsObject(store)).value.0 == store
  {
    AsObjectLookup(store);
    SetWeightsOfDefined(AsObject(store), store);
  }

  /** An object that defines every weight key sets the store to exactly those values. */
  lemma SetWeightsOfDefined(v: Value, store: Store)
    requires IsJsObject(v) && WellFormed(store)
    requires forall i :: 0 <= i < |DefaultKeys| ==> JsGet(v, DefaultKeys[i]) == Some(store.values[i])
    ensures SetWeights(v).Ok? && SetWeights(v).value.0 == store
  {
    var r := SetWeights(v);
    assert r.value.0.values == store.values by {
      forall i | 0 <= i < |DefaultKeys| ensures r.value.0.values[i] == store.values[i] {
      }
    }
  }

  lemma CopyHasNoUnknownKey(store: Store)
    requires WellFormed(store)
    ensures SetWeights(AsObject(store)).Ok? && SetWeights(AsObject(store)).value.1 == []
  {
    InvalidKeysOfDefault();
    CopyKeys(store);
  }

  /** `Object.keys` of a copy of the store lists the weight keys in their own order. */
  lemma CopyKeys(store: Store)
    requires WellFormed(store)
    ensures JsKeys(AsObject(store)) == DefaultKeys
  {
    AsObjectLookup(store);
    DefaultKeysNotIndices();
  }

  /** The weight keys themselves contain no unknown key. */
  lemma InvalidKeysOfDefault()
    ensures InvalidKeys(DefaultKeys) == []
  {
    InvalidKeysOfWeightKeys(DefaultKeys);
  }

  lemma {:induction false} InvalidKeysOfWeightKeys(keys: seq<string>)
    requires forall i :: 0 <= i < |keys| ==> keys[i] in DefaultKeys
    ensures InvalidKeys(keys) == []
  {
    if |keys| > 0 {
      InvalidKeysOfWeightKeys(keys[1..]);
    }
  }

  /** `exportWeights()`. */
  function ExportWeights(store: Store): Value
    requires WellFormed(store)
  {
    JObj([("algorithm_weights", AsObject(store))])
  }

  datatype ImportResult = Imported(store: Store, invalidKeys: seq<string>) | NoWeightsFound | ImportFailed(error: ImportError)

  datatype ImportError = NullData | NotAnObject

  /** The truthy property `key` of `v`, if any. */
  function TruthyProp(v: Value, key: string): Option<Value>
  {
    var p := JsGet(v, key);
    if p.Some? && JsTruthy(p.value) then p else None
  }

  /** Where `importWeights` looks, in order: `algorithm_weights`, `weights`,
      `parameters.weights`, `parameters.algorithm_weights`, then the document itself. */
  function ChosenWeights(data: Value): (r: Value)
    ensures TruthyProp(data, "algorithm_weights").Some? ==> r == TruthyProp(data, "algorithm_weights").value
    ensures TruthyProp(data, "algorithm_weights").None? && TruthyProp(data, "weights").Some? ==>
              r == TruthyProp(data, "weights").value
    ensures TruthyProp(data, "algorithm_weights").None? && TruthyProp(data, "weights").None? ==>
              var p := TruthyProp(data, "parameters");
              if p.Some? && TruthyProp(p.value, "weights").Some? then r == TruthyProp(p.value, "weights").value
              else if p.Some? && TruthyProp(p.value, "algorithm_weights").Some? then r == TruthyProp(p.value, "algorithm_weights").value
              else r == data
  {
    var p := TruthyProp(data, "parameters");
    if TruthyProp(data, "algorithm_weights").Some? then TruthyProp(data, "algorithm_weights").value
    else if TruthyProp(data, "weights").Some? then TruthyProp(data, "weights").value
    else if p.Some? && TruthyProp(p.value, "weights").Some? then TruthyProp(p.value, "weights").value
    else if p.Some? && TruthyProp(p.value, "algorithm_weights").Some? then TruthyProp(p.value, "algorithm_weights").value
    else data
  }

  /** `importWeights(data)`: reading a property of `null` throws; a falsy choice finds nothing;
      otherwise the choice goes through `setWeights`. */
  function ImportWeights(data: Value): (r: ImportResult)
    ensures data.JNull? <==> r == ImportFailed(NullData)
    ensures !data.JNull? && !JsTruthy(ChosenWeights(data)) ==> r == NoWeightsFound
    ensures !data.JNull? && JsTruthy(ChosenWeights(data)) ==>
              match SetWeights(ChosenWeights(data))
              case Ok((s, invalid)) => r == Imported(s, invalid)
              case Err(_) => r == ImportFailed(NotAnObject)
  {
    if data.JNull? then ImportFailed(NullData)
    else
      var w := ChosenWeights(data);
      if !JsTruthy(w) then NoWeightsFound
      else match SetWeights(w)
        case Ok((s, invalid)) => Imported(s, invalid)
        case Err(_) => ImportFailed(NotAnObject)
  }

  /** Importing an export gives the same store back. */
  lemma ImportOfExport(store: Store)
    requires WellFormed(store)
    ensures ImportWeights(ExportWeights(store)) == Imported(store, [])
  {
    SetWeightsOfCopy(store);
    assert JsGet(ExportWeights(store), "algorithm_weights") == Some(AsObject(store));
  }

  datatype ValidationError = NotAnObjectError | MissingKeys(keys: seq<string>) | InvalidValueError(key: string)

  function MissingWeightKeys(v: Value, keys: seq<string>): (r: seq<string>)
    requires IsJsObject(v)
    ensures forall k :: k in r <==> k in keys && !JsHas(v, k)
  {
    if |keys| == 0 then []
    else (if JsHas(v, keys[0]) then [] else [keys[0]]) + MissingWeightKeys(v, keys[1..])
  }

  predicate HoldsNumber(v: Value, key: string)
  {
    JsGet(v, key).Some? && IsNumber(JsGet(v, key).value)
  }

  function InvalidValueErrors(v: Value, keys: seq<string>): (r: seq<ValidationError>)
    ensures forall e :: e in r ==> e.InvalidValueError?
    ensures forall k :: InvalidValueError(k) in r <==> k in keys && k in DefaultKeys && !HoldsNumber(v, k)
  {
    if |keys| == 0 then []
    else (if keys[0] in DefaultKeys && !HoldsNumber(v, keys[0]) then [InvalidValueError(keys[0])] else [])
         + InvalidValueErrors(v, keys[1..])
  }

  /** An array has only index keys, none of which is a weight key. */
  lemma ArrayHasNoWeightKey(v: Value, k: string)
    requires v.JArr? && k in DefaultKeys
    ensures !JsHas(v, k) && k !in JsKeys(v)
  {
    var ks := ArrayKeys(|v.elems|);
    forall i | 0 <= i < |ks| ensures ks[i] != k {
      assert Text.IsDigit(ks[i][0]);
    }
  }

  lemma ObjectHasIffDefined(v: Value, k: string)
    requires v.JObj?
    ensures JsHas(v, k) <==> JsGet(v, k).Some?
    ensures JsHas(v, k) <==> k in JsKeys(v)
  {
    Json.PropertyOrderMembers(Keys(v.fields));
  }

  lemma HeadIsMember<T>(s: seq<T>)
    requires |s| > 0
    ensures s[0] in s
  {
  }

  /** Every weight key present and numeric. */
  predicate AllWeightsValid(v: Value)
    requires IsJsObject(v)
  {
    forall k :: k in DefaultKeys ==> JsHas(v, k) && HoldsNumber(v, k)
  }

  lemma NoErrorsMeansValid(v: Value)
    requires IsJsObject(v)
    requires MissingWeightKeys(v, DefaultKeys) == [] && InvalidValueErrors(v, JsKeys(v)) == []
    ensures AllWeightsValid(v)
  {
    forall k | k in DefaultKeys ensures JsHas(v, k) && HoldsNumber(v, k) {
      if v.JArr? {
        assert k !in MissingWeightKeys(v, DefaultKeys);
      } else {
        ObjectHasIffDefined(v, k);
        assert InvalidValueError(k) !in InvalidValueErrors(v, JsKeys(v));
      }
    }
  }

  lemma ErrorsUnlessValid(v: Value)
    requires IsJsObject(v)
    ensures MissingWeightKeys(v, DefaultKeys) == [] && InvalidValueErrors(v, JsKeys(v)) == [] ==> AllWeightsValid(v)
  {
    if MissingWeightKeys(v, DefaultKeys) == [] && InvalidValueErrors(v, JsKeys(v)) == [] {
      NoErrorsMeansValid(v);
    }
  }

  lemma ValidMeansNoErrors(v: Value)
    requires IsJsObject(v) && AllWeightsValid(v)
    ensures MissingWeightKeys(v, DefaultKeys) == [] && InvalidValueErrors(v, JsKeys(v)) == []
  {
    var missing := MissingWeightKeys(v, DefaultKeys);
    if |missing| > 0 {
      HeadIsMember(missing);
    }
    var inv := InvalidValueErrors(v, JsKeys(v));
    if |inv| > 0 {
      HeadIsMember(inv);
    }
  }

  /** `validateWeights(weights)`: missing keys are reported together, then each weight key
      that does not hold a number. */
  function ValidateWeights(v: Value): (errors: seq<ValidationError>)
    ensures !IsJsObject(v) ==> errors == [NotAnObjectError]
    ensures |errors| == 0 <==> IsJsObject(v) && AllWeightsValid(v)
  {
    if !JsTruthy(v) || !IsJsObject(v) then [NotAnObjectError]
    else
      var missing := MissingWeightKeys(v, DefaultKeys);
      var invalid := InvalidValueErrors(v, JsKeys(v));
      if AllWeightsValid(v) then
        ValidMeansNoErrors(v);
        (if |missing| > 0 then [MissingKeys(missing)] else []) + invalid
      else
        ErrorsUnlessValid(v);
        (if |missing| > 0 then [MissingKeys(missing)] else []) + invalid
  }

  /** A store of numbers (the default one among them) validates. */
  lemma StoreOfNumbersValidates(store: Store)
    requires WellFormed(store)
    requires forall i :: 0 <= i < |DefaultKeys| ==> IsNumber(store.values[i])
    ensures ValidateWeights(AsObject(store)) == []
  {
    AsObjectLookup(store);
    var v := AsObject(store);
    forall k | k in DefaultKeys ensures JsHas(v, k) && HoldsNumber(v, k) {
      var i :| 0 <= i < |DefaultKeys| && DefaultKeys[i] == k;
      assert JsGet(v, k) == Some(store.values[i]);
      ObjectHasIffDefined(v, k);
    }
    assert AllWeightsValid(v);
  }

  datatype TableRow = TableRow(key: string, value: Value, isDefault: bool)

  /** `getWeightsTableData()`: one row per weight, in key order. */
  function WeightsTable(store: Store): (rows: seq<TableRow>)
    requires WellFormed(store)
    ensures |rows| == |DefaultKeys|
    ensures forall i :: 0 <= i < |rows| ==> rows[i].key == DefaultKeys[i] && rows[i].value == store.values[i]
  {
    seq(|DefaultKeys|, i requires 0 <= i < |DefaultKeys| =>
      TableRow(DefaultKeys[i], store.values[i], StrictEquals(store.values[i], DefaultValues[i])))
  }

  /** Every row is marked default exactly when the store is the default one. */
  lemma TableAgreesWithIsDefault(store: Store)
    requires WellFormed(store)
    ensures (forall i :: 0 <= i < |DefaultKeys| ==> WeightsTable(store)[i].isDefault) <==> IsDefaultWeights(store)
  {
    var rows := WeightsTable(store);
    forall i | 0 <= i < |DefaultKeys|
      ensures rows[i].isDefault <==> StrictEquals(store.values[i], DefaultValues[i])
    {
    }
  }

  /** After an update the table marks that key default exactly when the new value equals the default. */
  lemma UpdateWeightTable(store: Store, i: int, value: real)
    requires WellFormed(store) && 0 <= i < |DefaultKeys|
    ensures var r := UpdateWeight(store, DefaultKeys[i], Some(value));
            r.Ok? && (WeightsTable(r.value)[i].isDefault <==> DefaultValues[i] == JFloat(value))
  {
    KeyIndexOf(i);
    var values := store.values[i := JFloat(value)];
    assert UpdateWeight(store, DefaultKeys[i], Some(value)) == Ok(Store(values));
    RowDefaultIffFloatDefault(Store(values), i, value);
  }

  /** A row holding the float `value` is marked default exactly when the default is that float. */
  lemma RowDefaultIffFloatDefault(store: Store, i: int, value: real)
    requires WellFormed(store) && 0 <= i < |DefaultKeys| && store.values[i] == JFloat(value)
    ensures WeightsTable(store)[i].isDefault <==> DefaultValues[i] == JFloat(value)
  {
    DefaultsAreFloats();
    assert WeightsTable(store)[i].isDefault == StrictEquals(JFloat(value), DefaultValues[i]);
  }

  /** Every default weight is a float. */
  lemma DefaultsAreFloats()
    ensures forall i :: 0 <= i < |DefaultValues| ==> DefaultValues[i].JFloat?
  {
  }

  // ---- compareWeights ----

  /** The keys of `keys` not in `seen`, each once, in first-seen order. */
  function NewKeys(keys: seq<string>, seen: set<string>): (r: seq<string>)
    ensures forall k :: k in r <==> k in keys && k !in seen
    ensures forall i, j :: 0 <= i < j < |r| ==> r[i] != r[j]
    ensures IsSubsequence(r, keys)
  {
    if |keys| == 0 then []
    else if keys[0] in seen then
      var rest := NewKeys(keys[1..], seen);
      SubsequenceOfTail(rest, keys);
      rest
    else
      var rest := NewKeys(keys[1..], seen + {keys[0]});
      assert ([keys[0]] + rest)[1..] == rest;
      [keys[0]] + rest
  }

  /** `base` followed by the keys of `more` it lacks, each once, in first-seen order. */
  function AppendNew(base: seq<string>, more: seq<string>): (r: seq<string>)
    requires forall i, j :: 0 <= i < j < |base| ==> base[i] != base[j]
    ensures forall k :: k in r <==> k in base || k in more
    ensures forall i, j :: 0 <= i < j < |r| ==> r[i] != r[j]
    ensures |base| <= |r| && r[..|base|] == base
    ensures IsSubsequence(r[|base|..], more)
  {
    var extra := NewKeys(more, set k | k in base);
    var r := base + extra;
    assert r[|base|..] == extra;
    forall i, j | 0 <= i < j < |r| ensures r[i] != r[j] {
      if j >= |base| && i < |base| {
        assert r[j] in extra;
      } else if i >= |base| {
        assert r[i] == extra[i - |base|] && r[j] == extra[j - |base|];
      }
    }
    r
  }

  /** `new Set([...Object.keys(this.weights), ...Object.keys(other)])`: the weight keys, then
      the other object's remaining keys in property order. */
  function UnionKeys(other: seq<(string, Value)>): (r: seq<string>)
    ensures forall k :: k in r <==> k in DefaultKeys || k in Keys(other)
    ensures forall i, j :: 0 <= i < j < |r| ==> r[i] != r[j]
    ensures |DefaultKeys| <= |r| && r[..|DefaultKeys|] == DefaultKeys
    ensures IsSubsequence(r[|DefaultKeys|..], JsKeys(JObj(other)))
  {
    DefaultKeysDistinct();
    Json.PropertyOrderMembers(Keys(other));
    AppendNew(DefaultKeys, JsKeys(JObj(other)))
  }

  /** `a !== b` where either side may be `undefined`. */
  predicate Differs(a: Option<Value>, b: Option<Value>)
  {
    match (a, b)
    case (None, None) => false
    case (Some(x), Some(y)) => !StrictEquals(x, y)
    case _ => true
  }

  /** `this.weights[key]`: `undefined` for any key that is not a weight key. */
  function CurrentValue(store: Store, key: string): (r: Option<Value>)
    requires WellFormed(store)
    ensures r.Some? <==> key in DefaultKeys
  {
    match KeyIndex(key)
    case Some(i) => Some(store.values[i])
    case None => None
  }

  /** JavaScript's `Number(v)` for the values this model converts: numbers, `null` as 0 and
      booleans as 0 or 1. `undefined` and anything else are taken to give `NaN` (`None`). */
  function ToNumber(v: Option<Value>): (r: Option<real>)
    ensures v.Some? && IsNumber(v.value) ==> r == Some(NumValue(v.value))
    ensures v.None? ==> r.None?
  {
    match v
    case Some(JInt(i)) => Some(i as real)
    case Some(JFloat(x)) => Some(x)
    case Some(JNull) => Some(0.0)
    case Some(JBool(b)) => Some(if b then 1.0 else 0.0)
    case _ => None
  }

  /** `a - b` of two possibly-`undefined` values; `None` is `NaN`. */
  function Minus(a: Option<Value>, b: Option<Value>): (r: Option<real>)
    ensures r.Some? <==> ToNumber(a).Some? && ToNumber(b).Some?
    ensures r.Some? ==> r.value + ToNumber(b).value == ToNumber(a).value
  {
    if ToNumber(a).Some? && ToNumber(b).Some? then Some(ToNumber(a).value - ToNumber(b).value) else None
  }

  /** One entry of `differences`; `difference` is `otherValue - currentValue`. */
  datatype Difference = Difference(key: string, current: Option<Value>, other: Option<Value>, difference: Option<real>)

  /** The entry `compareWeights` pushes for `key`. */
  function DifferenceOf(store: Store, other: seq<(string, Value)>, key: string): (d: Difference)
    requires WellFormed(store)
    ensures d.key == key && d.current == CurrentValue(store, key) && d.other == Lookup(other, key)
    ensures d.difference == Minus(d.other, d.current)
  {
    Difference(key, CurrentValue(store, key), Lookup(other, key), Minus(Lookup(other, key), CurrentValue(store, key)))
  }

  /** The keys of a list of differences, in order. */
  function DiffKeys(ds: seq<Difference>): (ks: seq<string>)
    ensures |ks| == |ds|
    ensures forall i :: 0 <= i < |ds| ==> ks[i] == ds[i].key
  {
    if |ds| == 0 then [] else [ds[0].key] + DiffKeys(ds[1..])
  }

  /** The differing keys of `keys`, in order, each with both of its values. */
  function Differences(store: Store, other: seq<(string, Value)>, keys: seq<string>): (r: seq<Difference>)
    requires WellFormed(store)
    ensures forall d :: d in r ==> d.key in keys && d == DifferenceOf(store, other, d.key) && Differs(d.current, d.other)
  {
    if |keys| == 0 then []
    else
      var k := keys[0];
      var rest := Differences(store, other, keys[1..]);
      if Differs(CurrentValue(store, k), Lookup(other, k)) then
        [DifferenceOf(store, other, k)] + rest
      else rest
  }

  /** A key has a difference entry exactly when it is one of `keys` whose values differ. */
  lemma {:induction false} DifferencesKeys(store: Store, other: seq<(string, Value)>, keys: seq<string>)
    requires WellFormed(store)
    ensures forall k :: k in DiffKeys(Differences(store, other, keys)) <==>
                          k in keys && Differs(CurrentValue(store, k), Lookup(other, k))
  {
    if |keys| > 0 {
      var k := keys[0];
      var rest := Differences(store, other, keys[1..]);
      DifferencesKeys(store, other, keys[1..]);
      assert keys == [k] + keys[1..];
      if Differs(CurrentValue(store, k), Lookup(other, k)) {
        assert Differences(store, other, keys) == [DifferenceOf(store, other, k)] + rest;
        DiffKeysPrepend(DifferenceOf(store, other, k), rest);
      } else {
        assert Differences(store, other, keys) == rest;
      }
    }
  }

  /** The keys of a list with one difference in front are that key followed by the others. */
  lemma DiffKeysPrepend(d: Difference, rest: seq<Difference>)
    ensures DiffKeys([d] + rest) == [d.key] + DiffKeys(rest)
  {
    assert ([d] + rest)[1..] == rest;
  }

  /** `a` is `b` with some elements left out, the rest in their order. */
  predicate IsSubsequence(a: seq<string>, b: seq<string>)
    decreases |b|
  {
    if |a| == 0 then true
    else if |b| == 0 then false
    else (a[0] == b[0] && IsSubsequence(a[1..], b[1..])) || IsSubsequence(a, b[1..])
  }

  /** The entries follow the order of `keys`. */
  lemma {:induction false} DifferencesInKeyOrder(store: Store, other: seq<(string, Value)>, keys: seq<string>)
    requires WellFormed(store)
    ensures IsSubsequence(DiffKeys(Differences(store, other, keys)), keys)
  {
    if |keys| > 0 {
      var k := keys[0];
      var rest := Differences(store, other, keys[1..]);
      DifferencesInKeyOrder(store, other, keys[1..]);
      if Differs(CurrentValue(store, k), Lookup(other, k)) {
        DiffKeysPrepend(DifferenceOf(store, other, k), rest);
        assert ([k] + DiffKeys(rest))[1..] == DiffKeys(rest);
      }
    }
  }

  /** No two differences have the same key. */
  predicate DistinctKeys(ds: seq<Difference>)
  {
    forall i, j :: 0 <= i < j < |ds| ==> ds[i].key != ds[j].key
  }

  /** A difference whose key no other has keeps the keys distinct when put in front. */
  lemma PrependKeepsDistinct(d: Difference, rest: seq<Difference>)
    requires DistinctKeys(rest)
    requires forall e :: e in rest ==> e.key != d.key
    ensures DistinctKeys([d] + rest)
  {
    var r := [d] + rest;
    forall i, j | 0 <= i < j < |r| ensures r[i].key != r[j].key {
      assert r[j] == rest[j - 1] && rest[j - 1] in rest;
      if i > 0 {
        assert r[i] == rest[i - 1];
      }
    }
  }

  /** Distinct keys give distinct difference entries. */
  lemma {:induction false} DifferencesDistinct(store: Store, other: seq<(string, Value)>, keys: seq<string>)
    requires WellFormed(store)
    requires forall i, j :: 0 <= i < j < |keys| ==> keys[i] != keys[j]
    ensures DistinctKeys(Differences(store, other, keys))
  {
    if |keys| > 0 {
      var k := keys[0];
      var rest := Differences(store, other, keys[1..]);
      DifferencesDistinct(store, other, keys[1..]);
      if Differs(CurrentValue(store, k), Lookup(other, k)) {
        assert k !in keys[1..] by {
          assert forall i :: 0 <= i < |keys| - 1 ==> keys[1..][i] == keys[i + 1];
        }
        PrependKeepsDistinct(DifferenceOf(store, other, k), rest);
      }
    }
  }

  /** The result of `compareWeights`. */
  datatype Comparison = Comparison(identical: bool, differences: seq<Difference>, summary: string)

  /** `compareWeights(other)`: identical iff no key of either side differs; one entry per
      differing key, in the order of the key union, with the summary text. */
  function CompareWeights(store: Store, other: seq<(string, Value)>): (r: Comparison)
    requires WellFormed(store)
    ensures r.identical <==> |r.differences| == 0
    ensures r.identical <==> forall k :: k in DefaultKeys || k in Keys(other) ==> !Differs(CurrentValue(store, k), Lookup(other, k))
    ensures forall d :: d in r.differences ==>
              Differs(d.current, d.other) && d.current == CurrentValue(store, d.key)
              && d.other == Lookup(other, d.key) && d.difference == Minus(d.other, d.current)
    ensures forall k :: k in DiffKeys(r.differences) <==>
                          (k in DefaultKeys || k in Keys(other)) && Differs(CurrentValue(store, k), Lookup(other, k))
    ensures forall i, j :: 0 <= i < j < |r.differences| ==> r.differences[i].key != r.differences[j].key
    ensures IsSubsequence(DiffKeys(r.differences), UnionKeys(other))
    ensures r.summary == Text.NatToString(|r.differences|) + " differences found"
  {
    var keys := UnionKeys(other);
    var diffs := Differences(store, other, keys);
    DifferencesKeys(store, other, keys);
    DifferencesDistinct(store, other, keys);
    DifferencesInKeyOrder(store, other, keys);
    assert |diffs| > 0 ==> diffs[0] in diffs;
    Comparison(|diffs| == 0, diffs, Text.NatToString(|diffs|) + " differences found")
  }

  /** A store compared with its own copy is identical, when no weight holds an array or object
      (those compare by reference, which this model does not track). */
  lemma CompareWithCopy(store: Store)
    requires WellFormed(store)
    requires forall i :: 0 <= i < |DefaultKeys| ==> !IsJsObject(store.values[i])
    ensures CompareWeights(store, AsObject(store).fields).identical
  {
    CopyDiffersNowhere(store);
  }

  /** No key of a store or of its copy has two different values. */
  lemma CopyDiffersNowhere(store: Store)
    requires WellFormed(store)
    requires forall i :: 0 <= i < |DefaultKeys| ==> !IsJsObject(store.values[i])
    ensures forall k :: k in DefaultKeys || k in Keys(AsObject(store).fields) ==>
                          !Differs(CurrentValue(store, k), Lookup(AsObject(store).fields, k))
  {
    AsObjectLookup(store);
    forall k | k in DefaultKeys || k in Keys(AsObject(store).fields)
      ensures !Differs(CurrentValue(store, k), Lookup(AsObject(store).fields, k))
    {
      CopyAgreesAt(store, KeyIndex(k).value);
    }
  }

  /** The copy holds each weight under its key, equal to the stored one. */
  lemma CopyAgreesAt(store: Store, i: nat)
    requires WellFormed(store) && i < |DefaultKeys| && !IsJsObject(store.values[i])
    ensures !Differs(CurrentValue(store, DefaultKeys[i]), Lookup(AsObject(store).fields, DefaultKeys[i]))
  {
    AsObjectLookup(store);
    KeyIndexOf(i);
    StrictEqualsItself(store.values[i]);
  }

  /** A value that is not an array or object is `===` to itself (there is no `NaN` here). */
  lemma StrictEqualsItself(v: Value)
    requires !IsJsObject(v)
    ensures StrictEquals(v, v)
  {
    match v
    case JInt(_) =>
    case JFloat(_) =>
    case _ =>
  }

  // ---- getRandomizedWeights (seeded branch) ----

  /** `value * x` for a JSON value, with `null` and booleans converted as JavaScript does;
      anything else is taken to give `NaN` (`None`). */
  function TimesNumber(v: Value, x: real): Option<real>
  {
    if ToNumber(Some(v)).Some? then Some(ToNumber(Some(v)).value * x) else None
  }

  /** `getRandomizedWeights(maxChange, seed)` with a non-null seed: the i-th key is scaled by
      `1 + change` where the change comes from the generator's i-th state. `fallback` stands for
      the `Math.random` draw that replaces a `0` seed. */
  function RandomizedWeights(store: Store, maxChange: real, seed: int, fallback: int): (r: seq<(string, Option<real>)>)
    requires WellFormed(store)
    requires 0 <= fallback < Lcg.M - 1
    ensures |r| == |DefaultKeys|
    ensures forall i :: 0 <= i < |r| ==> r[i].0 == DefaultKeys[i]
    ensures var states := Lcg.States(Lcg.InitialState(seed, fallback), |store.values|);
            forall i :: 0 <= i < |r| ==> r[i].1 == TimesNumber(store.values[i], 1.0 + Lcg.Change(states[i], maxChange))
  {
    var states := Lcg.States(Lcg.InitialState(seed, fallback), |store.values|);
    Scaled(store, maxChange, states)
  }

  /** Each key's weight scaled by `1 + change` for the state of the same position. */
  function Scaled(store: Store, maxChange: real, states: seq<int>): (r: seq<(string, Option<real>)>)
    requires WellFormed(store) && |states| == |store.values|
    ensures |r| == |DefaultKeys|
    ensures forall i :: 0 <= i < |r| ==> r[i].0 == DefaultKeys[i]
    ensures forall i :: 0 <= i < |r| ==> r[i].1 == TimesNumber(store.values[i], 1.0 + Lcg.Change(states[i], maxChange))
  {
    seq(|DefaultKeys|, i requires 0 <= i < |DefaultKeys| =>
      (DefaultKeys[i], TimesNumber(store.values[i], 1.0 + Lcg.Change(states[i], maxChange))))
  }

  /** `w` lies between `v * (1 - b)` and `v * (1 + b)`, whichever order those come in. */
  predicate WithinRelative(w: real, v: real, b: real)
  {
    && (v >= 0.0 ==> v * (1.0 - b) <= w <= v * (1.0 + b))
    && (v < 0.0 ==> v * (1.0 + b) <= w <= v * (1.0 - b))
  }

  /** Scaling by `1 + c` with `|c| <= b` moves a value by at most `b` times itself. */
  lemma ScaledWithin(v: real, c: real, b: real, w: real)
    requires -b <= c <= b && w == v * (1.0 + c)
    ensures WithinRelative(w, v, b)
  {
    if v >= 0.0 {
      assert v * (1.0 + c) - v * (1.0 - b) == v * (c + b);
      assert v * (1.0 + b) - v * (1.0 + c) == v * (b - c);
    } else {
      assert v * (1.0 + c) - v * (1.0 + b) == (-v) * (b - c);
      assert v * (1.0 - b) - v * (1.0 + c) == (-v) * (c + b);
    }
  }

  /** A numeric weight scaled by `1 + c` with `|c| <= b` is a number within `b` (relative). */
  lemma ScaledWeightWithin(v: Value, c: real, b: real, w: Option<real>)
    requires IsNumber(v) && -b <= c <= b && w == TimesNumber(v, 1.0 + c)
    ensures w.Some? && WithinRelative(w.value, NumValue(v), b)
  {
    ScaledWithin(NumValue(v), c, b, w.value);
  }

  /** Each randomised numeric weight stays within `maxChange` (relative) of the stored value. */
  lemma RandomizedWithinBounds(store: Store, maxChange: real, seed: int, fallback: int, i: int)
    requires WellFormed(store)
    requires 0 <= fallback < Lcg.M - 1
    requires 0 <= i < |DefaultKeys| && IsNumber(store.values[i])
    ensures RandomizedWeights(store, maxChange, seed, fallback)[i].1.Some?
    ensures WithinRelative(RandomizedWeights(store, maxChange, seed, fallback)[i].1.value,
                           NumValue(store.values[i]), if maxChange >= 0.0 then maxChange else -maxChange)
  {
    var states := Lcg.States(Lcg.InitialState(seed, fallback), |store.values|);
    var c := Lcg.Change(states[i], maxChange);
    Lcg.ChangeInRange(states[i], maxChange);
    ScaledWeightWithin(store.values[i], c, if maxChange >= 0.0 then maxChange else -maxChange,
                       RandomizedWeights(store, maxChange, seed, fallback)[i].1);
  }

  /** `getRandomizedWeights(maxChange, seed)` with the generator exactly as written: for a
      negative seed its states, and so its changes, leave their intended range. */
  function RandomizedWeightsAsWritten(store: Store, maxChange: real, seed: int, fallback: int): (r: seq<(string, Option<real>)>)
    requires WellFormed(store)
    ensures |r| == |DefaultKeys|
    ensures forall i :: 0 <= i < |r| ==> r[i].0 == DefaultKeys[i]
  {
    Scaled(store, maxChange, Lcg.StatesAsWritten(Lcg.InitialState(seed, fallback), |store.values|))
  }

  /** From a non-negative seed the weights as written are the corrected ones. */
  lemma RandomizedAgreesOnNonNegativeSeed(store: Store, maxChange: real, seed: int, fallback: int)
    requires WellFormed(store)
    requires 0 <= fallback < Lcg.M - 1 && seed >= 0
    ensures RandomizedWeightsAsWritten(store, maxChange, seed, fallback) == RandomizedWeights(store, maxChange, seed, fallback)
  {
    Lcg.StatesAgreeOnNonNegative(Lcg.InitialState(seed, fallback), |store.values|);
  }

  /** From a non-negative seed each numeric weight as written stays within `maxChange`
      (relative) of the stored value. */
  lemma AsWrittenWithinBoundsOnNonNegativeSeed(store: Store, maxChange: real, seed: int, fallback: int, i: int)
    requires WellFormed(store)
    requires 0 <= fallback < Lcg.M - 1 && seed >= 0
    requires 0 <= i < |DefaultKeys| && IsNumber(store.values[i])
    ensures RandomizedWeightsAsWritten(store, maxChange, seed, fallback)[i].1.Some?
    ensures WithinRelative(RandomizedWeightsAsWritten(store, maxChange, seed, fallback)[i].1.value,
                           NumValue(store.values[i]), if maxChange >= 0.0 then maxChange else -maxChange)
  {
    RandomizedAgreesOnNonNegativeSeed(store, maxChange, seed, fallback);
    RandomizedWithinBounds(store, maxChange, seed, fallback, i);
  }
}
