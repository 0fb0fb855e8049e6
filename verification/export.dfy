/** The payloads `DataExporter` builds before it downloads them: the grouped items list,
    packing results with their statistics, training data with its statistics, the per-type
    validation, the summary of several exports, and the file-name timestamp. */
module Export {
  import opened Wrappers
  import opened Json
  import opened Items
  import opened Grouping
  import ItemRegistry
  import Training
  import Text

  datatype ExportError = NoItems | NoPackingResults | NoTrainingData | ExportTypeError

  // ---- exportItemsList ----

  /** `{items, export_info: {total_items, unique_types}}`; the export time is left out. */
  datatype ItemsExport = ItemsExport(items: seq<ItemRegistry.ItemRecord>, totalItems: nat, uniqueTypes: nat)

  /** The request ids of a list of groups. */
  function GroupIds(gs: seq<Group>): (ids: set<int>)
    ensures forall k :: k in ids <==> exists i :: 0 <= i < |gs| && gs[i].requestId == k
  {
    if |gs| == 0 then {}
    else
      var n := |gs| - 1;
      var init := GroupIds(gs[..n]);
      assert forall i :: 0 <= i < n ==> gs[..n][i] == gs[i];
      init + {gs[n].requestId}
  }

  /** Groups with pairwise different request ids have as many ids as groups. */
  lemma {:induction false} GroupIdsCard(gs: seq<Group>)
    requires forall i, j :: 0 <= i < j < |gs| ==> gs[i].requestId != gs[j].requestId
    ensures |GroupIds(gs)| == |gs|
  {
    if |gs| > 0 {
      var n := |gs| - 1;
      GroupIdsCard(gs[..n]);
      assert gs[n].requestId !in GroupIds(gs[..n]);
    }
  }

  /** The number of groups `groupItemsByRequestId` builds is the number of distinct request ids. */
  lemma GroupCountIsIdCount(items: seq<Item>)
    ensures |GroupedView(items)| == |RequestIds(items)|
  {
    var gs := GroupedView(items);
    GroupedViewContents(items);
    GroupedViewCovers(items);
    GroupedViewOrder(items);
    GroupIdsCard(gs);
    assert GroupIds(gs) == RequestIds(items);
  }

  /** The sum of the exported quantities. */
  function QuantitySum(records: seq<ItemRegistry.ItemRecord>): int
  {
    if |records| == 0 then 0 else records[0].quantity.GetOr(0) + QuantitySum(records[1..])
  }

  lemma {:induction false} QuantitySumOfExport(gs: seq<Group>)
    ensures QuantitySum(ItemRegistry.ExportRecords(gs)) == TotalCount(gs)
  {
    if |gs| > 0 {
      QuantitySumOfExport(gs[1..]);
      assert ItemRegistry.ExportRecords(gs)[1..] == ItemRegistry.ExportRecords(gs[1..]);
    }
  }

  /** `exportItemsList(items)`: one entry per request group with the group's count as its
      quantity, the total number of items and the number of groups. */
  function ExportItemsList(items: seq<Item>): (r: Result<ItemsExport, ExportError>)
    ensures r.Err? <==> |items| == 0
    ensures r.Ok? ==>
              && r.value.totalItems == |items|
              && r.value.uniqueTypes == |RequestIds(items)| == |r.value.items|
              && QuantitySum(r.value.items) == |items|
    ensures r.Ok? ==> forall i :: 0 <= i < |r.value.items| ==>
              var e := r.value.items[i];
              && e.requestId.Some? && e.requestId.value in RequestIds(items)
              && e.quantity == Some(Count(items, e.requestId.value))
              && e.length == Some(items[FirstIndex(items, e.requestId.value)].length)
  {
    if |items| == 0 then Err(NoItems)
    else
      var gs := GroupedView(items);
      GroupCountIsIdCount(items);
      GroupedViewContents(items);
      GroupedViewTotal(items);
      QuantitySumOfExport(gs);
      Ok(ItemsExport(ItemRegistry.ExportRecords(gs), |items|, |gs|))
  }

  /** The items list this exporter writes is the same list the item manager's own export gives. */
  lemma ItemsListMatchesManagerExport(reg: ItemRegistry.Registry)
    requires |reg.items| > 0
    ensures ExportItemsList(reg.items).value.items == ItemRegistry.ExportToJson(reg).items.value
  {
  }

  // ---- exportPackingResults ----

  /** `x?.length || 0` when `length` is a number; see the README for other `length` values. */
  function LengthOrZero(x: Option<Value>): (n: real)
    ensures x.Some? && x.value.JArr? ==> n == |x.value.elems| as real
    ensures x.None? || x.value.JNull? ==> n == 0.0
  {
    if x.None? then 0.0
    else
      var len := JsGet(x.value, "length");
      if len.Some? && IsNumber(len.value) && JsTruthy(len.value) then NumValue(len.value) else 0.0
  }

  /** JavaScript `a || b` on a possibly-`undefined` property. */
  function JsOr(a: Option<Value>, b: Value): (r: Value)
    ensures a.Some? && JsTruthy(a.value) ==> r == a.value
    ensures !(a.Some? && JsTruthy(a.value)) ==> r == b
  {
    if a.Some? && JsTruthy(a.value) then a.value else b
  }

  datatype PackingStatistics = PackingStatistics(totalItems: real, packedCount: real, leftoverCount: real, utilizationPercentage: Value)

  /** The `packing_results` block, the `statistics` block and the original input; the export
      time and type label are left out. */
  datatype PackingExport = PackingExport(packedItems: Value, leftoverItems: Value, utilization: Value, binSize: Value,
                                         algorithmWeights: Value, statistics: PackingStatistics, originalInput: Value)

  /** `exportPackingResults(results, originalData)`. */
  function ExportPackingResults(results: Value, originalData: Value): (r: Result<PackingExport, ExportError>)
    ensures r.Err? <==> !JsTruthy(results)
    ensures r.Ok? ==> r.value.statistics.totalItems == r.value.statistics.packedCount + r.value.statistics.leftoverCount
    ensures r.Ok? && JsGet(results, "packed_items").None? ==> r.value.packedItems == JArr([]) && r.value.statistics.packedCount == 0.0
    ensures r.Ok? && JsGet(results, "leftover_items").None? ==> r.value.leftoverItems == JArr([]) && r.value.statistics.leftoverCount == 0.0
    ensures r.Ok? ==> r.value.originalInput == originalData
  {
    if !JsTruthy(results) then Err(NoPackingResults)
    else
      var packed := JsGet(results, "packed_items");
      var leftover := JsGet(results, "leftover_items");
      var packedCount := LengthOrZero(packed);
      var leftoverCount := LengthOrZero(leftover);
      Ok(PackingExport(JsOr(packed, JArr([])), JsOr(leftover, JArr([])), JsOr(JsGet(results, "utilization"), JNull),
                       JsOr(JsGet(results, "bin_size"), JNull), JsOr(JsGet(results, "algorithm_weights"), JNull),
                       PackingStatistics(packedCount + leftoverCount, packedCount, leftoverCount,
                                         JsOr(JsGet(results, "utilization"), JInt(0))),
                       originalData))
  }

  /** When the results carry their item lists as arrays (or not at all), the statistics count
      exactly the items the payload lists. */
  lemma PackingStatisticsCountPayload(results: Value, originalData: Value)
    requires JsTruthy(results)
    requires JsGet(results, "packed_items").Some? ==> JsGet(results, "packed_items").value.JArr?
    requires JsGet(results, "leftover_items").Some? ==> JsGet(results, "leftover_items").value.JArr?
    ensures var e := ExportPackingResults(results, originalData).value;
            && e.packedItems.JArr? && e.leftoverItems.JArr?
            && e.statistics.packedCount == |e.packedItems.elems| as real
            && e.statistics.leftoverCount == |e.leftoverItems.elems| as real
            && e.statistics.totalItems == (|e.packedItems.elems| + |e.leftoverItems.elems|) as real
  {
  }

  // ---- exportTrainingData ----

  datatype TrainingExport = TrainingExport(trainingData: seq<Value>, config: Training.Config, scenarioCount: nat, totalItems: nat)

  /** Reading `scenario.items.length` throws for a `null` scenario and for missing or `null` items. */
  predicate ItemsReadable(s: Value)
  {
    !s.JNull? && JsGet(s, "items").Some? && !JsGet(s, "items").value.JNull?
  }

  /** `exportTrainingData(trainingData, trainingConfig)`. */
  function ExportTrainingData(data: Option<seq<Value>>, config: Training.Config): (r: Result<TrainingExport, ExportError>)
    ensures r == Err(NoTrainingData) <==> data.None? || |data.value| == 0
    ensures r == Err(ExportTypeError) <==>
              data.Some? && |data.value| > 0 && exists j :: 0 <= j < |data.value| && !ItemsReadable(data.value[j])
    ensures r.Ok? ==>
              && r.value.trainingData == data.value && r.value.config == config
              && r.value.scenarioCount == |data.value|
              && r.value.totalItems == Training.TotalItems(data.value)
  {
    if data.None? || |data.value| == 0 then Err(NoTrainingData)
    else if exists j :: 0 <= j < |data.value| && !ItemsReadable(data.value[j]) then Err(ExportTypeError)
    else Ok(TrainingExport(data.value, config, |data.value|, Training.TotalItems(data.value)))
  }

  /** Data the training manager loaded exports with its scenario count and the same item total
      its statistics report. */
  lemma LoadedTrainingDataExports(t: Training.Trainer, data: Value, input: Training.ConfigInput)
    requires Training.ValidateTrainingData(data) == Some([])
    requires |Training.ScenariosOf(data).value| > 0
    ensures var t' := Training.LoadTrainingData(t, data, input).trainer;
            var e := ExportTrainingData(t'.data, t'.config);
            && e.Ok?
            && e.value.scenarioCount == |Training.ScenariosOf(data).value|
            && Training.GetTrainingStats(t').Some?
            && e.value.totalItems == Training.GetTrainingStats(t').value.totalItems
  {
    Training.LoadedDataHasStats(t, data, input);
    LoadedDataExportsItsTotal(t, data, input);
  }

  /** Data the training manager loaded exports with its scenario count and item total. */
  lemma LoadedDataExportsItsTotal(t: Training.Trainer, data: Value, input: Training.ConfigInput)
    requires Training.ValidateTrainingData(data) == Some([])
    requires |Training.ScenariosOf(data).value| > 0
    ensures var t' := Training.LoadTrainingData(t, data, input).trainer;
            var e := ExportTrainingData(t'.data, t'.config);
            && e.Ok?
            && e.value.scenarioCount == |Training.ScenariosOf(data).value|
            && e.value.totalItems == Training.TotalItems(Training.ScenariosOf(data).value)
  {
    Training.ValidIff(data);
    var ss := Training.ScenariosOf(data).value;
    forall j | 0 <= j < |ss| ensures ItemsReadable(ss[j]) {
      assert Training.ScenarioValid(ss[j]);
    }
  }

  // ---- validateExportData ----

  datatype ValidationError = NoData | ItemsNotNonEmptyArray | NoPackedOrLeftover | TrainingNotNonEmptyArray | WeightsNotNonEmptyObject

  /** The rule each export type states, written positively. */
  predicate ExportDataValid(data: Value, exportType: string)
  {
    && JsTruthy(data)
    && (exportType == "items" ==> data.JArr? && |data.elems| > 0)
    && (exportType == "packing_results" ==>
          (JsGet(data, "packed_items").Some? && JsTruthy(JsGet(data, "packed_items").value))
          || (JsGet(data, "leftover_items").Some? && JsTruthy(JsGet(data, "leftover_items").value)))
    && (exportType == "training_data" ==> data.JArr? && |data.elems| > 0)
    && (exportType == "weights" ==> IsJsObject(data) && |JsKeys(data)| > 0)
  }

  /** `validateExportData(data, exportType)`: the collected errors. */
  function ValidateExportData(data: Value, exportType: string): (r: seq<ValidationError>)
    ensures |r| <= 1
    ensures r == [] <==> ExportDataValid(data, exportType)
    ensures !JsTruthy(data) ==> r == [NoData]
  {
    if !JsTruthy(data) then [NoData]
    else if exportType == "items" then
      (if !data.JArr? || |data.elems| == 0 then [ItemsNotNonEmptyArray] else [])
    else if exportType == "packing_results" then
      (if !HasTruthyField(data, "packed_items") && !HasTruthyField(data, "leftover_items") then [NoPackedOrLeftover] else [])
    else if exportType == "training_data" then
      (if !data.JArr? || |data.elems| == 0 then [TrainingNotNonEmptyArray] else [])
    else if exportType == "weights" then
      (if !IsJsObject(data) || |JsKeys(data)| == 0 then [WeightsNotNonEmptyObject] else [])
    else []
  }

  predicate HasTruthyField(v: Value, key: string)
  {
    JsGet(v, key).Some? && JsTruthy(JsGet(v, key).value)
  }

  /** Training data passes the `training_data` rule exactly when `exportTrainingData` does not
      reject it as empty. */
  lemma TrainingRuleMatchesExport(data: seq<Value>, config: Training.Config)
    ensures ValidateExportData(JArr(data), "training_data") == [] <==> ExportTrainingData(Some(data), config) != Err(NoTrainingData)
  {
  }

  // ---- createExportSummary ----

  /** One entry of `exportResults`: `success`, `type`, `fileSize` and `timestamp`. */
  datatype ExportResult = ExportResult(success: Value, exportType: Option<Value>, fileSize: Option<int>, timestamp: Option<Value>)

  datatype ExportSummary = ExportSummary(totalExports: nat, successfulExports: nat, failedExports: nat,
                                         exportTypes: seq<Option<Value>>, totalFileSize: int,
                                         startedAt: Option<Value>, completedAt: Option<Value>)

  function SuccessCount(rs: seq<ExportResult>): (n: nat)
    ensures n <= |rs|
  {
    if |rs| == 0 then 0 else SuccessCount(rs[..|rs| - 1]) + (if JsTruthy(rs[|rs| - 1].success) then 1 else 0)
  }

  function FailureCount(rs: seq<ExportResult>): (n: nat)
    ensures n <= |rs|
  {
    if |rs| == 0 then 0 else FailureCount(rs[..|rs| - 1]) + (if JsTruthy(rs[|rs| - 1].success) then 0 else 1)
  }

  /** The positions of the results whose `success` is truthy. */
  function SuccessIndices(rs: seq<ExportResult>): set<nat>
  {
    set i: nat | i < |rs| && JsTruthy(rs[i].success)
  }

  /** The positions of the results whose `success` is falsy. */
  function FailureIndices(rs: seq<ExportResult>): set<nat>
  {
    set i: nat | i < |rs| && !JsTruthy(rs[i].success)
  }

  /** The success count is the size of `filter(r => r.success)`. */
  lemma {:induction false} SuccessCountIsFilterSize(rs: seq<ExportResult>)
    ensures SuccessCount(rs) == |SuccessIndices(rs)|
  {
    if |rs| > 0 {
      var n := |rs| - 1;
      var pre := rs[..n];
      SuccessCountIsFilterSize(pre);
      assert forall i :: 0 <= i < n ==> pre[i] == rs[i];
      assert SuccessIndices(rs) == SuccessIndices(pre) + (if JsTruthy(rs[n].success) then {n} else {});
    }
  }

  /** The failure count is the size of `filter(r => !r.success)`. */
  lemma {:induction false} FailureCountIsFilterSize(rs: seq<ExportResult>)
    ensures FailureCount(rs) == |FailureIndices(rs)|
  {
    if |rs| > 0 {
      var n := |rs| - 1;
      var pre := rs[..n];
      FailureCountIsFilterSize(pre);
      assert forall i :: 0 <= i < n ==> pre[i] == rs[i];
      assert FailureIndices(rs) == FailureIndices(pre) + (if JsTruthy(rs[n].success) then {} else {n});
    }
  }

  /** Every result is either a success or a failure. */
  lemma {:induction false} SuccessesAndFailuresPartition(rs: seq<ExportResult>)
    ensures SuccessCount(rs) + FailureCount(rs) == |rs|
  {
    if |rs| > 0 {
      SuccessesAndFailuresPartition(rs[..|rs| - 1]);
    }
  }

  function TypesOf(rs: seq<ExportResult>): (ts: seq<Option<Value>>)
    ensures |ts| == |rs| && forall i :: 0 <= i < |rs| ==> ts[i] == rs[i].exportType
  {
    seq(|rs|, i requires 0 <= i < |rs| => rs[i].exportType)
  }

  function FileSizeSum(rs: seq<ExportResult>): int
  {
    if |rs| == 0 then 0 else FileSizeSum(rs[..|rs| - 1]) + OrElse(rs[|rs| - 1].fileSize, 0)
  }

  /** The total file size adds up over consecutive runs of results, and one result contributes
      its `fileSize`, or 0 when it has none. */
  lemma {:induction false} FileSizeSumAppend(a: seq<ExportResult>, b: seq<ExportResult>)
    ensures FileSizeSum(a + b) == FileSizeSum(a) + FileSizeSum(b)
    ensures |b| == 1 ==> FileSizeSum(b) == OrElse(b[0].fileSize, 0)
  {
    if |b| == 1 {
      assert b[..0] == [];
    }
    if |b| > 0 {
      var m := |b| - 1;
      assert (a + b)[..|a + b| - 1] == a + b[..m];
      FileSizeSumAppend(a, b[..m]);
    } else {
      assert a + b == a;
    }
  }

  /** `createExportSummary(exportResults)`. */
  function CreateExportSummary(rs: seq<ExportResult>): (r: ExportSummary)
    ensures r.totalExports == |rs|
    ensures r.successfulExports + r.failedExports == r.totalExports
    ensures r.successfulExports == |SuccessIndices(rs)| && r.failedExports == |FailureIndices(rs)|
    ensures r.totalFileSize == FileSizeSum(rs)
    ensures forall i, j :: 0 <= i < j < |r.exportTypes| ==> !SameValueZero(r.exportTypes[i], r.exportTypes[j])
    ensures forall i :: 0 <= i < |rs| ==>
              exists j :: 0 <= j < |r.exportTypes| && (r.exportTypes[j] == rs[i].exportType || SameValueZero(r.exportTypes[j], rs[i].exportType))
    ensures forall t :: t in r.exportTypes ==> exists i :: 0 <= i < |rs| && rs[i].exportType == t
    ensures r.startedAt == (if |rs| > 0 then rs[0].timestamp else None)
    ensures r.completedAt == (if |rs| > 0 then rs[|rs| - 1].timestamp else None)
  {
    SuccessesAndFailuresPartition(rs);
    SuccessCountIsFilterSize(rs);
    FailureCountIsFilterSize(rs);
    var types := SetValues(TypesOf(rs));
    assert forall t :: t in types ==> t in TypesOf(rs);
    ExportSummary(|rs|, SuccessCount(rs), FailureCount(rs), types, FileSizeSum(rs),
                  if |rs| > 0 then rs[0].timestamp else None,
                  if |rs| > 0 then rs[|rs| - 1].timestamp else None)
  }

  /** The summary lists each export type once, at its first occurrence, in order. */
  lemma ExportTypesInFirstSeenOrder(rs: seq<ExportResult>)
    ensures FirstOccurrences(CreateExportSummary(rs).exportTypes, TypesOf(rs), FirstIndices(TypesOf(rs)))
  {
    SetValuesKeepsFirstOccurrences(TypesOf(rs));
  }

  // ---- generateTimestamp ----

  /** The local date and time fields `Date` reports: `getMonth()` counts from 0. */
  datatype DateTime = DateTime(year: int, month: int, day: int, hour: int, minute: int, second: int)

  /** The ranges a `Date` guarantees for its fields. */
  predicate ValidDateTime(t: DateTime)
  {
    0 <= t.month <= 11 && 1 <= t.day <= 31 && 0 <= t.hour <= 23 && 0 <= t.minute <= 59 && 0 <= t.second <= 59
  }

  /** `generateTimestamp()`: `YYYYMMDD_HHMMSS` with month (counted from 1), day, hour, minute
      and second padded to two digits and the year as `String` renders it. */
  function GenerateTimestamp(t: DateTime): (r: string)
    requires ValidDateTime(t)
    ensures |r| == |Text.IntToString(t.year)| + 11
    ensures r[|r| - 7] == '_'
    ensures Text.AllDigits(r[|r| - 6..]) && Text.AllDigits(r[|r| - 11..|r| - 7])
  {
    var tail := Text.PadTwo(t.month + 1) + Text.PadTwo(t.day) + "_" + Text.PadTwo(t.hour) + Text.PadTwo(t.minute) + Text.PadTwo(t.second);
    Text.IntToString(t.year) + tail
  }

  /** Reads a timestamp back: four year digits, then the five two-digit fields. */
  function ParseTimestamp(s: string): (r: Option<DateTime>)
  {
    if |s| == 15 && s[8] == '_' && Text.AllDigits(s[..8]) && Text.AllDigits(s[9..]) then
      Some(DateTime(Text.DigitsValue(s[..4]), Text.DigitsValue(s[4..6]) - 1, Text.DigitsValue(s[6..8]),
                    Text.DigitsValue(s[9..11]), Text.DigitsValue(s[11..13]), Text.DigitsValue(s[13..])))
    else None
  }

  lemma FourDigitYear(year: int)
    requires 1000 <= year <= 9999
    ensures |Text.IntToString(year)| == 4 && Text.DigitsValue(Text.IntToString(year)) == year
  {
    Text.DigitsOfNatToString(year);
    var a, b, c := year / 10, year / 100, year / 1000;
    assert b == a / 10 && c == b / 10 && 1 <= c < 10 && 10 <= b && 100 <= a;
    assert |Text.NatToString(c)| == 1;
    assert Text.NatToString(b) == Text.NatToString(c) + [Text.DigitChar(b % 10)];
    assert Text.NatToString(a) == Text.NatToString(b) + [Text.DigitChar(a % 10)];
  }

  /** Where each field sits in a timestamp with a four-digit year. */
  lemma TimestampLayout(t: DateTime)
    requires ValidDateTime(t) && 1000 <= t.year <= 9999
    ensures var s := GenerateTimestamp(t);
            && |s| == 15 && s[8] == '_'
            && s[..4] == Text.IntToString(t.year) && s[4..6] == Text.PadTwo(t.month + 1)
            && s[6..8] == Text.PadTwo(t.day) && s[9..11] == Text.PadTwo(t.hour)
            && s[11..13] == Text.PadTwo(t.minute) && s[13..] == Text.PadTwo(t.second)
  {
    FourDigitYear(t.year);
    var y := Text.IntToString(t.year);
    var mo := Text.PadTwo(t.month + 1);
    var d := Text.PadTwo(t.day);
    var h := Text.PadTwo(t.hour);
    var mi := Text.PadTwo(t.minute);
    var se := Text.PadTwo(t.second);
    assert GenerateTimestamp(t) == y + (mo + d + "_" + h + mi + se);
    FieldsAt(y, mo, d, h, mi, se);
  }

  /** Where each run sits in a four-character run, two two-character runs, an underscore and
      three more two-character runs. */
  lemma FieldsAt(y: string, mo: string, d: string, h: string, mi: string, se: string)
    requires |y| == 4 && |mo| == 2 && |d| == 2 && |h| == 2 && |mi| == 2 && |se| == 2
    ensures var s := y + (mo + d + "_" + h + mi + se);
            && |s| == 15 && s[8] == '_'
            && s[..4] == y && s[4..6] == mo && s[6..8] == d
            && s[9..11] == h && s[11..13] == mi && s[13..] == se
  {
    var s := y + (mo + d + "_" + h + mi + se);
    assert s[..4] == y;
    assert s[4..6] == mo;
    assert s[6..8] == d;
    assert s[9..11] == h;
    assert s[11..13] == mi;
    assert s[13..] == se;
  }

  /** Two-character and four-character digit runs make the eight- and six-character runs digits. */
  lemma DigitRuns(s: string)
    requires |s| == 15
    requires Text.AllDigits(s[..4]) && Text.AllDigits(s[4..6]) && Text.AllDigits(s[6..8])
    requires Text.AllDigits(s[9..11]) && Text.AllDigits(s[11..13]) && Text.AllDigits(s[13..])
    ensures Text.AllDigits(s[..8]) && Text.AllDigits(s[9..])
  {
    forall i | 0 <= i < 8 ensures Text.IsDigit(s[..8][i]) {
      if i < 4 { assert s[..8][i] == s[..4][i]; }
      else if i < 6 { assert s[..8][i] == s[4..6][i - 4]; }
      else { assert s[..8][i] == s[6..8][i - 6]; }
    }
    forall i | 0 <= i < 6 ensures Text.IsDigit(s[9..][i]) {
      if i < 2 { assert s[9..][i] == s[9..11][i]; }
      else if i < 4 { assert s[9..][i] == s[11..13][i - 2]; }
      else { assert s[9..][i] == s[13..][i - 4]; }
    }
  }

  /** For a four-digit year the timestamp is 15 characters and names the time it was made
      from, so two different times never share a file name. */
  lemma TimestampRoundTrip(t: DateTime)
    requires ValidDateTime(t) && 1000 <= t.year <= 9999
    ensures ParseTimestamp(GenerateTimestamp(t)) == Some(t)
  {
    FourDigitYear(t.year);
    TimestampLayout(t);
    DigitRuns(GenerateTimestamp(t));
  }
}
