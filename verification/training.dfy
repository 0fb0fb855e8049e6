/** Training data and configuration (`TrainingManager`): the configuration with its range
    checks, the two scenario validators, loading, fake-data parameters and statistics.
    `parseInt`/`parseFloat` results are inputs (`None` is `NaN`); reading a property of `null`
    is the `TypeError` the source throws. */
module Training {
  import opened Wrappers
  import opened Json

  /** `num_steps`, `max_change` and `evaluation_metric`; `None` is a stored `NaN`. */
  datatype Config = Config(numSteps: Option<int>, maxChange: Option<real>, metric: string)

  const Metrics: seq<string> := ["efficiency", "utilization", "cost"]

  /** The constructor's configuration. */
  function InitialConfig(): (c: Config)
    ensures InRange(c)
  {
    Config(Some(3), Some(0.3), "efficiency")
  }

  /** Every field holds a number within its documented range and a known metric. */
  predicate InRange(c: Config)
  {
    && c.numSteps.Some? && 1 <= c.numSteps.value <= 20
    && c.maxChange.Some? && 0.1 <= c.maxChange.value <= 1.0
    && c.metric in Metrics
  }

  /** The fields present in an update (`None` outside is `undefined`), already through
      `parseInt`/`parseFloat` (`None` inside is `NaN`). The metric is the raw value. */
  datatype ConfigInput = ConfigInput(numSteps: Option<Option<int>>, maxChange: Option<Option<real>>, metric: Option<Value>)

  datatype ConfigError = StepsOutOfRange | ChangeOutOfRange | UnknownMetric

  /** The configuration after the call, and the error it threw, if any. Fields are written
      one at a time, so a throw keeps the fields written before it. */
  datatype ConfigOutcome = ConfigOutcome(config: Config, error: Option<ConfigError>)

  /** `validMetrics.includes(v)`. */
  predicate KnownMetric(v: Value)
  {
    v.JStr? && v.s in Metrics
  }

  /** `steps < 1 || steps > 20` as written: `NaN` compares false both ways and is let through. */
  predicate StepsRejectedAsWritten(s: Option<int>)
  {
    s.Some? && (s.value < 1 || s.value > 20)
  }

  predicate ChangeRejectedAsWritten(m: Option<real>)
  {
    m.Some? && (m.value < 0.1 || m.value > 1.0)
  }

  /** `updateTrainingConfig(config)` as written. */
  function UpdateTrainingConfigAsWritten(c: Config, input: ConfigInput): (r: ConfigOutcome)
    ensures r.error.None? <==>
              && (input.numSteps.Some? ==> !StepsRejectedAsWritten(input.numSteps.value))
              && (input.maxChange.Some? ==> !ChangeRejectedAsWritten(input.maxChange.value))
              && (input.metric.Some? ==> KnownMetric(input.metric.value))
    ensures r.error == Some(StepsOutOfRange) ==> r.config == c
    ensures r.error == Some(ChangeOutOfRange) ==>
              r.config == (if input.numSteps.Some? then c.(numSteps := input.numSteps.value) else c)
    ensures r.error == Some(UnknownMetric) ==>
              r.config.metric == c.metric
              && (input.numSteps.Some? ==> r.config.numSteps == input.numSteps.value)
              && (input.maxChange.Some? ==> r.config.maxChange == input.maxChange.value)
    ensures r.error.None? ==>
              && r.config.numSteps == (if input.numSteps.Some? then input.numSteps.value else c.numSteps)
              && r.config.maxChange == (if input.maxChange.Some? then input.maxChange.value else c.maxChange)
              && r.config.metric == (if input.metric.Some? then input.metric.value.s else c.metric)
  {
    var c1 := if input.numSteps.Some? then c.(numSteps := input.numSteps.value) else c;
    if input.numSteps.Some? && StepsRejectedAsWritten(input.numSteps.value) then ConfigOutcome(c, Some(StepsOutOfRange))
    else
      var c2 := if input.maxChange.Some? then c1.(maxChange := input.maxChange.value) else c1;
      if input.maxChange.Some? && ChangeRejectedAsWritten(input.maxChange.value) then ConfigOutcome(c1, Some(ChangeOutOfRange))
      else if input.metric.Some? && !KnownMetric(input.metric.value) then ConfigOutcome(c2, Some(UnknownMetric))
      else ConfigOutcome(if input.metric.Some? then c2.(metric := input.metric.value.s) else c2, None)
  }

  /** A `num_steps` that does not parse is stored as `NaN` without an error, leaving the
      configuration outside its range. */
  lemma NaNStepsAccepted()
    ensures var r := UpdateTrainingConfigAsWritten(InitialConfig(), ConfigInput(Some(None), None, None));
            r.error.None? && r.config.numSteps.None? && !InRange(r.config)
  {
  }

  /** The check as evidently intended: a value must be a number inside the range. */
  predicate StepsAccepted(s: Option<int>)
  {
    s.Some? && 1 <= s.value <= 20
  }

  predicate ChangeAccepted(m: Option<real>)
  {
    m.Some? && 0.1 <= m.value <= 1.0
  }

  /** `updateTrainingConfig(config)` with `NaN` rejected like any other out-of-range value;
      otherwise the same field-by-field order and partial writes. */
  function UpdateTrainingConfig(c: Config, input: ConfigInput): (r: ConfigOutcome)
    ensures r.error.None? <==>
              && (input.numSteps.Some? ==> StepsAccepted(input.numSteps.value))
              && (input.maxChange.Some? ==> ChangeAccepted(input.maxChange.value))
              && (input.metric.Some? ==> KnownMetric(input.metric.value))
    ensures r.error == Some(StepsOutOfRange) ==> r.config == c
    ensures r.error == Some(ChangeOutOfRange) ==>
              r.config == (if input.numSteps.Some? then c.(numSteps := input.numSteps.value) else c)
    ensures r.error == Some(UnknownMetric) ==>
              r.config.metric == c.metric
              && (input.numSteps.Some? ==> r.config.numSteps == input.numSteps.value)
              && (input.maxChange.Some? ==> r.config.maxChange == input.maxChange.value)
    ensures r.error.None? ==>
              && r.config.numSteps == (if input.numSteps.Some? then input.numSteps.value else c.numSteps)
              && r.config.maxChange == (if input.maxChange.Some? then input.maxChange.value else c.maxChange)
              && r.config.metric == (if input.metric.Some? then input.metric.value.s else c.metric)
  {
    var c1 := if input.numSteps.Some? then c.(numSteps := input.numSteps.value) else c;
    if input.numSteps.Some? && !StepsAccepted(input.numSteps.value) then ConfigOutcome(c, Some(StepsOutOfRange))
    else
      var c2 := if input.maxChange.Some? then c1.(maxChange := input.maxChange.value) else c1;
      if input.maxChange.Some? && !ChangeAccepted(input.maxChange.value) then ConfigOutcome(c1, Some(ChangeOutOfRange))
      else if input.metric.Some? && !KnownMetric(input.metric.value) then ConfigOutcome(c2, Some(UnknownMetric))
      else ConfigOutcome(if input.metric.Some? then c2.(metric := input.metric.value.s) else c2, None)
  }

  /** With the corrected check a configuration in range stays in range, even after a call
      that throws half-way. */
  lemma UpdateKeepsConfigInRange(c: Config, input: ConfigInput)
    requires InRange(c)
    ensures InRange(UpdateTrainingConfig(c, input).config)
  {
  }

  /** The two versions agree on every input where each given number is a number. */
  lemma UpdateAgreesWithoutNaN(c: Config, input: ConfigInput)
    requires input.numSteps.Some? ==> input.numSteps.value.Some?
    requires input.maxChange.Some? ==> input.maxChange.value.Some?
    ensures UpdateTrainingConfig(c, input) == UpdateTrainingConfigAsWritten(c, input)
  {
  }

  // ---- validateTrainingData ----

  datatype TrainingError =
    | NotObjectOrArray
    | NoScenarios
    | ItemsRequired(scenario: nat)
    | BinSizeRequired(scenario: nat)
    | BinSizeDims(scenario: nat)
    | ItemDims(scenario: nat, item: nat)
    | ItemRequestId(scenario: nat, item: nat)

  /** A property is present and truthy. */
  predicate HasTruthy(v: Value, key: string)
  {
    JsGet(v, key).Some? && JsTruthy(JsGet(v, key).value)
  }

  /** `!v.length || !v.width || !v.height` fails, i.e. all three are truthy. */
  predicate HasDims(v: Value)
  {
    HasTruthy(v, "length") && HasTruthy(v, "width") && HasTruthy(v, "height")
  }

  /** The array of scenarios: `training_data` when it is an array, else the document itself
      when it is an array. */
  function ScenariosOf(data: Value): (r: Option<seq<Value>>)
    ensures r.Some? <==> (JsGet(data, "training_data").Some? && JsGet(data, "training_data").value.JArr?) || data.JArr?
  {
    var td := JsGet(data, "training_data");
    if td.Some? && td.value.JArr? then Some(td.value.elems)
    else if data.JArr? then Some(data.elems)
    else None
  }

  /** `scenario.items` is an array; anything else makes the source throw. */
  predicate ItemsArray(s: Value)
  {
    JsGet(s, "items").Some? && JsGet(s, "items").value.JArr?
  }

  /** The elements of `scenario.items`, empty when it is not an array. */
  function ItemsOf(s: Value): (r: seq<Value>)
    ensures ItemsArray(s) ==> r == JsGet(s, "items").value.elems
  {
    if ItemsArray(s) then JsGet(s, "items").value.elems else []
  }

  /** Whether an item is `null`, which makes reading its properties throw. */
  predicate AnyNull(vs: seq<Value>)
  {
    exists j :: 0 <= j < |vs| && vs[j].JNull?
  }

  /** The item errors of scenario `i` given, per item, whether its dimensions and its request
      id are present. */
  function ItemErrorList(dimsOk: seq<bool>, idOk: seq<bool>, i: nat): (r: seq<TrainingError>)
    requires |dimsOk| == |idOk|
    ensures forall e :: e in r ==> (e.ItemDims? || e.ItemRequestId?) && e.scenario == i && e.item < |dimsOk|
    ensures forall j: nat :: ItemDims(i, j) in r <==> j < |dimsOk| && !dimsOk[j]
    ensures forall j: nat :: ItemRequestId(i, j) in r <==> j < |idOk| && !idOk[j]
  {
    if |dimsOk| == 0 then []
    else
      var n := |dimsOk| - 1;
      ItemErrorList(dimsOk[..n], idOk[..n], i)
      + (if dimsOk[n] then [] else [ItemDims(i, n)])
      + (if idOk[n] then [] else [ItemRequestId(i, n)])
  }

  /** No item error exactly when every item passes both checks. */
  lemma {:induction false} ItemErrorListEmpty(dimsOk: seq<bool>, idOk: seq<bool>, i: nat)
    requires |dimsOk| == |idOk|
    ensures ItemErrorList(dimsOk, idOk, i) == [] <==> forall j :: 0 <= j < |dimsOk| ==> dimsOk[j] && idOk[j]
  {
    if |dimsOk| > 0 {
      var n := |dimsOk| - 1;
      ItemErrorListEmpty(dimsOk[..n], idOk[..n], i);
      assert forall j :: 0 <= j < n ==> dimsOk[..n][j] == dimsOk[j] && idOk[..n][j] == idOk[j];
    }
  }

  /** The errors of the items of scenario `i`, in item order. */
  function ItemErrors(items: seq<Value>, i: nat): (r: seq<TrainingError>)
    ensures forall e :: e in r ==> (e.ItemDims? || e.ItemRequestId?) && e.scenario == i && e.item < |items|
    ensures forall j: nat :: ItemDims(i, j) in r <==> j < |items| && !HasDims(items[j])
    ensures forall j: nat :: ItemRequestId(i, j) in r <==> j < |items| && !HasTruthy(items[j], "request_id")
    ensures r == [] <==> forall j :: 0 <= j < |items| ==> HasDims(items[j]) && HasTruthy(items[j], "request_id")
  {
    var dimsOk := seq(|items|, j requires 0 <= j < |items| => HasDims(items[j]));
    var idOk := seq(|items|, j requires 0 <= j < |items| => HasTruthy(items[j], "request_id"));
    ItemErrorListEmpty(dimsOk, idOk, i);
    ItemErrorList(dimsOk, idOk, i)
  }

  /** `scenario.bin_size` is truthy and an object. */
  predicate BinObject(s: Value)
  {
    HasTruthy(s, "bin_size") && IsJsObject(JsGet(s, "bin_size").value)
  }

  /** The errors of scenario `i`; `None` is the `TypeError` of a `null` scenario or item. */
  function ScenarioErrors(s: Value, i: nat): (r: Option<seq<TrainingError>>)
    ensures r.None? <==> s.JNull? || (ItemsArray(s) && AnyNull(ItemsOf(s)))
    ensures r.Some? ==> forall e :: e in r.value ==> !e.NotObjectOrArray? && !e.NoScenarios? && e.scenario == i
    ensures r.Some? ==> (ItemsRequired(i) in r.value <==> !ItemsArray(s))
    ensures r.Some? ==> (BinSizeRequired(i) in r.value <==> !BinObject(s))
    ensures r.Some? ==> (BinSizeDims(i) in r.value <==> BinObject(s) && !HasDims(JsGet(s, "bin_size").value))
    ensures r.Some? ==> forall j: nat :: ItemDims(i, j) in r.value <==> j < |ItemsOf(s)| && !HasDims(ItemsOf(s)[j])
    ensures r.Some? ==> forall j: nat :: ItemRequestId(i, j) in r.value <==>
              j < |ItemsOf(s)| && !HasTruthy(ItemsOf(s)[j], "request_id")
  {
    if s.JNull? || (ItemsArray(s) && AnyNull(ItemsOf(s))) then None
    else
      var binObject := BinObject(s);
      Some(ScenarioErrorList(ItemsArray(s), binObject, binObject && HasDims(JsGet(s, "bin_size").value),
                             ItemErrors(ItemsOf(s), i), i))
  }

  /** The errors of scenario `i` given whether its items are an array, whether its bin size
      is an object, whether that object has all three dimensions, and its item errors. */
  function ScenarioErrorList(itemsArray: bool, binObject: bool, binDims: bool, itemErrors: seq<TrainingError>, i: nat)
    : (r: seq<TrainingError>)
    requires forall e :: e in itemErrors ==> (e.ItemDims? || e.ItemRequestId?) && e.scenario == i
    ensures forall e :: e in r ==> !e.NotObjectOrArray? && !e.NoScenarios? && e.scenario == i
    ensures ItemsRequired(i) in r <==> !itemsArray
    ensures BinSizeRequired(i) in r <==> !binObject
    ensures BinSizeDims(i) in r <==> binObject && !binDims
    ensures forall e: TrainingError :: e.ItemDims? || e.ItemRequestId? ==> (e in r <==> e in itemErrors)
    ensures r == [] <==> itemsArray && binObject && binDims && itemErrors == []
  {
    var itemsError := if itemsArray then [] else [ItemsRequired(i)];
    var binError := if !binObject then [BinSizeRequired(i)] else if !binDims then [BinSizeDims(i)] else [];
    itemsError + binError + itemErrors
  }

  /** The concatenation of per-scenario results, `None` when any is `None`. */
  function Concat<E>(results: seq<Option<seq<E>>>): (r: Option<seq<E>>)
    ensures r.None? <==> exists j :: 0 <= j < |results| && results[j].None?
    ensures r.Some? ==> forall j, e :: 0 <= j < |results| && e in results[j].value ==> e in r.value
    ensures r.Some? ==> forall e :: e in r.value ==> exists j :: 0 <= j < |results| && e in results[j].value
    ensures r == Some([]) <==> forall j :: 0 <= j < |results| ==> results[j] == Some([])
  {
    if |results| == 0 then Some([])
    else
      var n := |results| - 1;
      var init := Concat(results[..n]);
      if init.None? || results[n].None? then None
      else
        var r := init.value + results[n].value;
        assert forall e :: e in r ==> e in init.value || e in results[n].value;
        Some(r)
  }

  /** The error lists of the scenarios, in order. */
  function ScenarioResults(ss: seq<Value>): (r: seq<Option<seq<TrainingError>>>)
    ensures |r| == |ss| && forall j :: 0 <= j < |ss| ==> r[j] == ScenarioErrors(ss[j], j)
  {
    seq(|ss|, j requires 0 <= j < |ss| => ScenarioErrors(ss[j], j))
  }

  /** `validateTrainingData(data)`: `None` is a thrown `TypeError`; otherwise the error list,
      empty exactly when the data is valid. */
  function ValidateTrainingData(data: Value): (r: Option<seq<TrainingError>>)
    ensures !JsTruthy(data) || !IsJsObject(data) ==> r == Some([NotObjectOrArray])
    ensures JsTruthy(data) && IsJsObject(data) && ScenariosOf(data).None? ==> r == Some([NoScenarios])
    ensures JsTruthy(data) && IsJsObject(data) && ScenariosOf(data).Some? ==>
              r == Concat(ScenarioResults(ScenariosOf(data).value))
  {
    if !JsTruthy(data) || !IsJsObject(data) then Some([NotObjectOrArray])
    else
      var ss := ScenariosOf(data);
      if ss.None? then Some([NoScenarios]) else Concat(ScenarioResults(ss.value))
  }

  /** Every bad scenario and every bad item is reported, not only the first: an item of
      scenario `i` without a request id gives its own error. */
  lemma EveryBadItemReported(data: Value, i: nat, j: nat)
    requires ValidateTrainingData(data).Some? && JsTruthy(data) && IsJsObject(data) && ScenariosOf(data).Some?
    requires i < |ScenariosOf(data).value|
    requires j < |ItemsOf(ScenariosOf(data).value[i])| && !HasTruthy(ItemsOf(ScenariosOf(data).value[i])[j], "request_id")
    ensures ItemRequestId(i, j) in ValidateTrainingData(data).value
  {
    var results := ScenarioResults(ScenariosOf(data).value);
    assert ItemRequestId(i, j) in results[i].value;
  }

  /** A scenario that passes: an items array, a bin size object with all three dimensions,
      and every item with its dimensions and a request id. */
  predicate ScenarioValid(s: Value)
  {
    && !s.JNull? && ItemsArray(s) && BinObject(s) && HasDims(JsGet(s, "bin_size").value)
    && forall j :: 0 <= j < |ItemsOf(s)| ==> HasDims(ItemsOf(s)[j]) && HasTruthy(ItemsOf(s)[j], "request_id")
  }

  lemma ScenarioValidIff(s: Value, i: nat)
    ensures ScenarioErrors(s, i) == Some([]) <==> ScenarioValid(s)
  {
    var items := ItemsOf(s);
    if s.JNull? {
    } else if ItemsArray(s) && AnyNull(items) {
      var j :| 0 <= j < |items| && items[j].JNull?;
      assert !HasTruthy(items[j], "length");
    } else {
      var binObject := BinObject(s);
      var binDims := binObject && HasDims(JsGet(s, "bin_size").value);
      var errors := ItemErrors(items, i);
      assert ScenarioErrors(s, i) == Some(ScenarioErrorList(ItemsArray(s), binObject, binDims, errors, i));
    }
  }

  /** Data is valid exactly when it is an object or array holding an array of scenarios and
      every scenario passes. */
  lemma ValidIff(data: Value)
    ensures ValidateTrainingData(data) == Some([]) <==>
              && JsTruthy(data) && IsJsObject(data) && ScenariosOf(data).Some?
              && forall i :: 0 <= i < |ScenariosOf(data).value| ==> ScenarioValid(ScenariosOf(data).value[i])
  {
    if JsTruthy(data) && IsJsObject(data) && ScenariosOf(data).Some? {
      var ss := ScenariosOf(data).value;
      forall i | 0 <= i < |ss| ensures ScenarioErrors(ss[i], i) == Some([]) <==> ScenarioValid(ss[i]) {
        ScenarioValidIff(ss[i], i);
      }
    }
  }

  // ---- loadTrainingData ----

  datatype Trainer = Trainer(data: Option<seq<Value>>, config: Config)

  datatype LoadError = InvalidTrainingData(errors: seq<TrainingError>) | LoadTypeError | ConfigRejected(error: ConfigError)

  /** The trainer after `loadTrainingData(data)`, the number of scenarios when it returned,
      and the error when it threw. `config` is the parsed `data.training_config`, applied when
      that property is truthy. */
  datatype LoadOutcome = LoadOutcome(trainer: Trainer, scenarioCount: nat, error: Option<LoadError>)

  function LoadTrainingData(t: Trainer, data: Value, config: ConfigInput): (r: LoadOutcome)
    ensures ValidateTrainingData(data) != Some([]) ==> r.trainer == t && r.error.Some? && !r.error.value.ConfigRejected?
    ensures ValidateTrainingData(data) == Some([]) ==>
              && ScenariosOf(data).Some?
              && r.trainer.data == ScenariosOf(data)
              && (r.error.None? ==> r.scenarioCount == |ScenariosOf(data).value|)
              && (!HasTruthy(data, "training_config") ==> r.error.None? && r.trainer.config == t.config)
              && (HasTruthy(data, "training_config") ==>
                    r.trainer.config == UpdateTrainingConfigAsWritten(t.config, config).config
                    && (r.error.None? <==> UpdateTrainingConfigAsWritten(t.config, config).error.None?))
  {
    var v := ValidateTrainingData(data);
    if v.None? then LoadOutcome(t, 0, Some(LoadTypeError))
    else if v.value != [] then LoadOutcome(t, 0, Some(InvalidTrainingData(v.value)))
    else
      var ss := ScenariosOf(data).value;
      var t1 := t.(data := Some(ss));
      if HasTruthy(data, "training_config") then
        var o := UpdateTrainingConfigAsWritten(t1.config, config);
        var t2 := t1.(config := o.config);
        if o.error.Some? then LoadOutcome(t2, 0, Some(ConfigRejected(o.error.value)))
        else LoadOutcome(t2, |ss|, None)
      else LoadOutcome(t1, |ss|, None)
  }

  /** Loading keeps the configuration in range when every number given in the configuration
      parsed; an unparsable one is stored as `NaN`, as `LoadStoresNaNSteps` shows. */
  lemma LoadKeepsConfigInRange(t: Trainer, data: Value, config: ConfigInput)
    requires InRange(t.config)
    requires config.numSteps.Some? ==> config.numSteps.value.Some?
    requires config.maxChange.Some? ==> config.maxChange.value.Some?
    ensures InRange(LoadTrainingData(t, data, config).trainer.config)
  {
    UpdateAgreesWithoutNaN(t.config, config);
    UpdateKeepsConfigInRange(t.config, config);
  }

  /** Loading `{training_data: [], training_config: {num_steps: "abc"}}` succeeds and stores
      `NaN` steps, leaving the configuration out of range. */
  lemma LoadStoresNaNSteps(t: Trainer)
    requires InRange(t.config)
    ensures var data := JObj([("training_data", JArr([])), ("training_config", JObj([("num_steps", JStr("abc"))]))]);
            var r := LoadTrainingData(t, data, ConfigInput(Some(None), None, None));
            r.error.None? && r.trainer.config.numSteps.None? && !InRange(r.trainer.config)
  {
    var data := JObj([("training_data", JArr([])), ("training_config", JObj([("num_steps", JStr("abc"))]))]);
    ValidIff(data);
  }

  /** `hasTrainingData()`. */
  predicate HasTrainingData(t: Trainer)
  {
    t.data.Some? && |t.data.value| > 0
  }

  /** `getTrainingDataCount()`. */
  function TrainingDataCount(t: Trainer): (n: nat)
    ensures n > 0 <==> HasTrainingData(t)
    ensures t.data.Some? ==> n == |t.data.value|
  {
    if t.data.Some? then |t.data.value| else 0
  }

  /** `clearTrainingData()`. */
  function ClearTrainingData(t: Trainer): (r: Trainer)
    ensures !HasTrainingData(r) && TrainingDataCount(r) == 0 && r.config == t.config
  {
    t.(data := None)
  }

  // ---- generateFakeDataParams ----

  datatype FakeParams = FakeParams(scenarios: int, numItems: int, nUnique: int, binSize: Value,
                                   includeWeights: Value, seed: Option<int>)

  datatype FakeError = ScenariosOutOfRange | ItemsOutOfRange | UniqueOutOfRange | UniqueExceedsItems

  /** `generateFakeDataParams(...)`. The counts and the seed come as `parseInt` results; a `0`
      or `NaN` count takes its default (3, 10, 3); the seed is kept only when the raw value is
      truthy and parses. */
  function GenerateFakeDataParams(scenarios: Option<int>, items: Option<int>, unique: Option<int>,
                                  seedRaw: Value, seedParsed: Option<int>, binSize: Value, includeWeights: Value)
    : (r: Result<FakeParams, FakeError>)
    ensures r.Ok? <==>
              && 1 <= OrElse(scenarios, 3) <= 50
              && 1 <= OrElse(items, 10) <= 100
              && 1 <= OrElse(unique, 3) <= 20
              && OrElse(unique, 3) <= OrElse(items, 10)
    ensures r.Ok? ==>
              && r.value.scenarios == OrElse(scenarios, 3)
              && r.value.numItems == OrElse(items, 10)
              && r.value.nUnique == OrElse(unique, 3)
              && r.value.nUnique <= r.value.numItems
              && (r.value.seed.Some? <==> JsTruthy(seedRaw) && seedParsed.Some?)
              && (r.value.seed.Some? ==> r.value.seed == seedParsed)
    ensures r.Err? && !(1 <= OrElse(scenarios, 3) <= 50) ==> r.error == ScenariosOutOfRange
  {
    var p := FakeParams(OrElse(scenarios, 3), OrElse(items, 10), OrElse(unique, 3), binSize, includeWeights,
                        if JsTruthy(seedRaw) && seedParsed.Some? then seedParsed else None);
    if p.scenarios < 1 || p.scenarios > 50 then Err(ScenariosOutOfRange)
    else if p.numItems < 1 || p.numItems > 100 then Err(ItemsOutOfRange)
    else if p.nUnique < 1 || p.nUnique > 20 then Err(UniqueOutOfRange)
    else if p.nUnique > p.numItems then Err(UniqueExceedsItems)
    else Ok(p)
  }

  /** With nothing entered every count takes its default and the request is accepted. */
  lemma FakeParamsDefaults(binSize: Value, includeWeights: Value)
    ensures var r := GenerateFakeDataParams(None, None, None, JNull, None, binSize, includeWeights);
            r == Ok(FakeParams(3, 10, 3, binSize, includeWeights, None))
  {
  }

  // ---- validateScenarioForAPI / prepareForAPI ----

  datatype ApiError = NeedsItem | NeedsBinSize | BinSizeNotPositive | ItemNotPositive(item: nat) | ItemNeedsRequestId(item: nat)

  /** `v` is truthy and does not compare `<= 0`. Numbers and booleans compare as numbers;
      strings, arrays and objects are taken not to compare below zero. */
  predicate PositiveValue(v: Option<Value>)
  {
    v.Some? && JsTruthy(v.value) && !(IsNumber(v.value) && NumValue(v.value) <= 0.0)
  }

  predicate PositiveDims(v: Value)
  {
    PositiveValue(JsGet(v, "length")) && PositiveValue(JsGet(v, "width")) && PositiveValue(JsGet(v, "height"))
  }

  /** The item errors of a scenario given, per item, whether its dimensions are positive and
      whether its request id is present. */
  function ApiItemErrorList(dimsOk: seq<bool>, idOk: seq<bool>): (r: seq<ApiError>)
    requires |dimsOk| == |idOk|
    ensures forall e :: e in r ==> (e.ItemNotPositive? || e.ItemNeedsRequestId?) && e.item < |dimsOk|
    ensures forall j: nat :: ItemNotPositive(j) in r <==> j < |dimsOk| && !dimsOk[j]
    ensures forall j: nat :: ItemNeedsRequestId(j) in r <==> j < |idOk| && !idOk[j]
  {
    if |dimsOk| == 0 then []
    else
      var n := |dimsOk| - 1;
      ApiItemErrorList(dimsOk[..n], idOk[..n])
      + (if dimsOk[n] then [] else [ItemNotPositive(n)])
      + (if idOk[n] then [] else [ItemNeedsRequestId(n)])
  }

  /** No item error exactly when every item passes both checks. */
  lemma {:induction false} ApiItemErrorListEmpty(dimsOk: seq<bool>, idOk: seq<bool>)
    requires |dimsOk| == |idOk|
    ensures ApiItemErrorList(dimsOk, idOk) == [] <==> forall j :: 0 <= j < |dimsOk| ==> dimsOk[j] && idOk[j]
  {
    if |dimsOk| > 0 {
      var n := |dimsOk| - 1;
      ApiItemErrorListEmpty(dimsOk[..n], idOk[..n]);
      assert forall j :: 0 <= j < n ==> dimsOk[..n][j] == dimsOk[j] && idOk[..n][j] == idOk[j];
    }
  }

  function ApiItemErrors(items: seq<Value>): (r: seq<ApiError>)
    ensures forall e :: e in r ==> (e.ItemNotPositive? || e.ItemNeedsRequestId?) && e.item < |items|
    ensures forall j: nat :: ItemNotPositive(j) in r <==> j < |items| && !PositiveDims(items[j])
    ensures forall j: nat :: ItemNeedsRequestId(j) in r <==> j < |items| && !HasTruthy(items[j], "request_id")
    ensures r == [] <==> forall j :: 0 <= j < |items| ==> PositiveDims(items[j]) && HasTruthy(items[j], "request_id")
  {
    var dimsOk := seq(|items|, j requires 0 <= j < |items| => PositiveDims(items[j]));
    var idOk := seq(|items|, j requires 0 <= j < |items| => HasTruthy(items[j], "request_id"));
    assert forall j :: 0 <= j < |items| ==> dimsOk[j] == PositiveDims(items[j]) && idOk[j] == HasTruthy(items[j], "request_id");
    ApiItemErrorListEmpty(dimsOk, idOk);
    ApiItemErrorList(dimsOk, idOk)
  }

  /** `validateScenarioForAPI(scenario)`: `None` is the `TypeError` of a `null` scenario, a
      `null` item, or truthy `items` that are not an array (which have no `forEach`). */
  function ValidateScenarioForAPI(s: Value): (r: Option<seq<ApiError>>)
    ensures r.None? <==> s.JNull? || (HasTruthy(s, "items") && !ItemsArray(s)) || AnyNull(ItemsOf(s))
    ensures r.Some? ==> (NeedsItem in r.value <==> |ItemsOf(s)| == 0)
    ensures r.Some? ==> (NeedsBinSize in r.value <==> !HasTruthy(s, "bin_size"))
    ensures r.Some? ==> (BinSizeNotPositive in r.value <==> HasTruthy(s, "bin_size") && !PositiveDims(JsGet(s, "bin_size").value))
    ensures r.Some? ==> forall j: nat :: ItemNotPositive(j) in r.value <==> j < |ItemsOf(s)| && !PositiveDims(ItemsOf(s)[j])
    ensures r.Some? ==> forall j: nat :: ItemNeedsRequestId(j) in r.value <==>
              j < |ItemsOf(s)| && !HasTruthy(ItemsOf(s)[j], "request_id")
  {
    if s.JNull? || (HasTruthy(s, "items") && !ItemsArray(s)) || AnyNull(ItemsOf(s)) then None
    else
      var binTruthy := HasTruthy(s, "bin_size");
      Some(ApiErrorList(|ItemsOf(s)| > 0, binTruthy, binTruthy && PositiveDims(JsGet(s, "bin_size").value),
                        ApiItemErrors(ItemsOf(s))))
  }

  /** The errors of a scenario given whether it has items, whether its bin size is truthy,
      whether that bin size is positive, and its item errors. */
  function ApiErrorList(hasItems: bool, binTruthy: bool, binPositive: bool, itemErrors: seq<ApiError>): (r: seq<ApiError>)
    requires forall e :: e in itemErrors ==> e.ItemNotPositive? || e.ItemNeedsRequestId?
    ensures NeedsItem in r <==> !hasItems
    ensures NeedsBinSize in r <==> !binTruthy
    ensures BinSizeNotPositive in r <==> binTruthy && !binPositive
    ensures forall e: ApiError :: e.ItemNotPositive? || e.ItemNeedsRequestId? ==> (e in r <==> e in itemErrors)
    ensures r == [] <==> hasItems && binTruthy && binPositive && itemErrors == []
  {
    var itemsError := if hasItems then [] else [NeedsItem];
    var binError := if !binTruthy then [NeedsBinSize] else if !binPositive then [BinSizeNotPositive] else [];
    itemsError + binError + itemErrors
  }

  datatype PrepareError = NoTrainingData | ScenarioInvalid(index: nat, errors: seq<ApiError>) | PrepareTypeError(index: nat)

  /** The first of the validation results `vs` (of scenarios `start`, `start + 1`, ...) that
      is not valid, if any. */
  function FirstInvalid(vs: seq<Option<seq<ApiError>>>, start: nat): (r: Option<PrepareError>)
    ensures r.None? <==> forall j :: 0 <= j < |vs| ==> vs[j] == Some([])
    ensures r.Some? ==> (r.value.ScenarioInvalid? || r.value.PrepareTypeError?) && start <= r.value.index < start + |vs|
    ensures r.Some? ==> forall j :: 0 <= j < r.value.index - start ==> vs[j] == Some([])
    ensures r.Some? && r.value.ScenarioInvalid? ==> vs[r.value.index - start] == Some(r.value.errors) && r.value.errors != []
    ensures r.Some? && r.value.PrepareTypeError? ==> vs[r.value.index - start].None?
    decreases |vs|
  {
    if |vs| == 0 then None
    else if vs[0].None? then Some(PrepareTypeError(start))
    else if vs[0].value != [] then Some(ScenarioInvalid(start, vs[0].value))
    else
      var rest := FirstInvalid(vs[1..], start + 1);
      assert forall j :: 1 <= j < |vs| ==> vs[j] == vs[1..][j - 1];
      rest
  }

  /** `validateScenarioForAPI` of every scenario, in order. */
  function ApiValidations(ss: seq<Value>): (r: seq<Option<seq<ApiError>>>)
    ensures |r| == |ss| && forall j :: 0 <= j < |ss| ==> r[j] == ValidateScenarioForAPI(ss[j])
  {
    seq(|ss|, j requires 0 <= j < |ss| => ValidateScenarioForAPI(ss[j]))
  }

  /** `prepareForAPI()`: the data and configuration, or the first scenario that fails. */
  function PrepareForAPI(t: Trainer): (r: Result<(seq<Value>, Config), PrepareError>)
    ensures t.data.None? ==> r == Err(NoTrainingData)
    ensures r.Ok? <==> t.data.Some? && forall j :: 0 <= j < |t.data.value| ==> ValidateScenarioForAPI(t.data.value[j]) == Some([])
    ensures r.Ok? ==> r.value == (t.data.value, t.config)
    ensures r.Err? && r.error.ScenarioInvalid? ==>
              && r.error.index < |t.data.value|
              && ValidateScenarioForAPI(t.data.value[r.error.index]) == Some(r.error.errors) && r.error.errors != []
              && forall j :: 0 <= j < r.error.index ==> ValidateScenarioForAPI(t.data.value[j]) == Some([])
  {
    if t.data.None? then Err(NoTrainingData)
    else
      var vs := ApiValidations(t.data.value);
      var bad := FirstInvalid(vs, 0);
      if bad.Some? then Err(bad.value) else Ok((t.data.value, t.config))
  }

  // ---- getTrainingStats ----

  /** The sum of `scenario.items.length` over the scenarios. */
  function TotalItems(ss: seq<Value>): nat
  {
    if |ss| == 0 then 0 else |ItemsOf(ss[0])| + TotalItems(ss[1..])
  }

  /** The `request_id` of every item of every scenario, in order. */
  function RequestIdValues(ss: seq<Value>): (r: seq<Option<Value>>)
    ensures |r| == TotalItems(ss)
  {
    if |ss| == 0 then []
    else
      var items := ItemsOf(ss[0]);
      seq(|items|, k requires 0 <= k < |items| => JsGet(items[k], "request_id")) + RequestIdValues(ss[1..])
  }

  /** No scenario makes `getTrainingStats` throw. */
  predicate StatsReadable(ss: seq<Value>)
  {
    forall j :: 0 <= j < |ss| ==> ItemsArray(ss[j]) && !AnyNull(ItemsOf(ss[j]))
  }

  datatype TrainingStats = TrainingStats(scenarioCount: nat, totalItems: nat, average: Option<real>, uniqueRequestIds: nat)

  /** `Math.round(x)`: the nearest integer, halves rounded up. */
  function Round(x: real): int
  {
    (x + 0.5).Floor
  }

  /** `Math.round(total / count * 10) / 10`; `None` is the `NaN` of no scenarios. */
  function Average(total: nat, count: nat): (a: Option<real>)
    ensures a.None? <==> count == 0
    ensures count > 0 ==>
              var mean := total as real / count as real;
              && a == Some(Round(mean * 10.0) as real / 10.0)
              && mean - 0.05 < a.value <= mean + 0.05
  {
    if count == 0 then None
    else
      RoundedToTenth(total as real / count as real);
      Some(Round(total as real / count as real * 10.0) as real / 10.0)
  }

  /** `Math.round(x * 10) / 10` lies within 0.05 of `x`. */
  lemma RoundedToTenth(x: real)
    ensures x - 0.05 < Round(x * 10.0) as real / 10.0 <= x + 0.05
  {
    var y := x * 10.0;
    assert y - 0.5 < Round(y) as real <= y + 0.5;
  }

  /** `getTrainingStats()`. `None` is the `TypeError` of a scenario without an items array
      or with a `null` item; `average` is `None` for the `NaN` of zero scenarios. */
  function GetTrainingStats(t: Trainer): (r: Option<TrainingStats>)
    ensures t.data.None? ==> r == Some(TrainingStats(0, 0, Some(0.0), 0))
    ensures t.data.Some? ==>
              (r.Some? <==> StatsReadable(t.data.value))
    ensures t.data.Some? && r.Some? ==>
              && r.value.scenarioCount == |t.data.value|
              && r.value.totalItems == TotalItems(t.data.value)
              && r.value.uniqueRequestIds <= r.value.totalItems
              && (r.value.totalItems > 0 ==> r.value.uniqueRequestIds >= 1)
              && r.value.uniqueRequestIds == |SetValues(RequestIdValues(t.data.value))|
              && r.value.average == Average(TotalItems(t.data.value), |t.data.value|)
  {
    if t.data.None? then Some(TrainingStats(0, 0, Some(0.0), 0))
    else
      var ss := t.data.value;
      if !StatsReadable(ss) then None
      else
        var total := TotalItems(ss);
        var average := Average(total, |ss|);
        Some(TrainingStats(|ss|, total, average, |SetValues(RequestIdValues(ss))|))
  }

  /** Data that `loadTrainingData` accepted never makes `getTrainingStats` throw, and the
      statistics count the loaded scenarios. */
  lemma LoadedDataHasStats(t: Trainer, data: Value, config: ConfigInput)
    requires ValidateTrainingData(data) == Some([])
    ensures var stats := GetTrainingStats(LoadTrainingData(t, data, config).trainer);
            stats.Some? && stats.value.scenarioCount == |ScenariosOf(data).value|
  {
    ValidIff(data);
    var ss := ScenariosOf(data).value;
    forall j | 0 <= j < |ss| ensures ItemsArray(ss[j]) && !AnyNull(ItemsOf(ss[j])) {
      assert ScenarioValid(ss[j]);
      forall k | 0 <= k < |ItemsOf(ss[j])| ensures !ItemsOf(ss[j])[k].JNull? {
        assert HasDims(ItemsOf(ss[j])[k]);
      }
    }
  }

  /** A scenario the API accepts: items that form a non-empty array, a bin size with positive
      dimensions, and every item with positive dimensions and a request id. */
  predicate ApiScenarioValid(s: Value)
  {
    && !s.JNull? && ItemsArray(s) && |ItemsOf(s)| > 0
    && HasTruthy(s, "bin_size") && PositiveDims(JsGet(s, "bin_size").value)
    && forall j :: 0 <= j < |ItemsOf(s)| ==> PositiveDims(ItemsOf(s)[j]) && HasTruthy(ItemsOf(s)[j], "request_id")
  }

  lemma ApiScenarioValidIff(s: Value)
    ensures ValidateScenarioForAPI(s) == Some([]) <==> ApiScenarioValid(s)
  {
    if ApiScenarioValid(s) {
      var items := ItemsOf(s);
      forall j | 0 <= j < |items| ensures !items[j].JNull? {
        assert PositiveDims(items[j]);
      }
    }
  }
}
