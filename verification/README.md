# 3-D bin packing dashboard: a Dafny model

This project models the logic of a small 3-D bin-packing application and proves properties of it. The application has two halves. A browser dashboard keeps a registry of items to pack and a store of algorithm weights. It replays the packing steps the server returns, keeps the 3-D camera steady across re-renders, and validates training scenarios. It also builds export payloads, talks to the server and draws the bin and the item boxes. A Flask server validates the requests and packs items into the bin with a local-search packer that uses a height map and rotations. The repository holds a second packer, `packing_algorithm.py`, that the routes do not call. It is a bottom-left-fill packer that tries candidate corners in (z, y, x) order.

Every component is written as pure functions over immutable datatypes. A JavaScript method that mutates `this` becomes a function from the old state to the new state together with what the method returns. A thrown exception is an `Err`/`None` result. Timers, the DOM, `fetch`, `Date`, `Math.random` and the NumPy arrays are either inputs or left out.

Modules, following the program's structure:

- `Wrappers`: `Option` and `Result`.
- `Json`: a JSON value with the JavaScript and Python rules for truthiness, property access, `in`, `int()` and `===`, and the order in which `Object.keys` lists an object's keys.
- `Text`: `String(n)`, `padStart` and `includes`.
- `Items` and `Grouping`: the browser item record, and grouping by request id. Grouping includes the order in which `Object.values` lists integer-like keys.
- `ItemRegistry` and `ItemRoundTrip`: `ItemManager`, and the export/reload round trip.
- `Lcg` and `Weights`: `WeightManager` and its seeded generator.
- `Playback`: `StepManager`.
- `Viewport`: `CameraManager`.
- `Training`: `TrainingManager`.
- `Export`: `DataExporter`.
- `Api`: `APIService`.
- `Scene`: `VisualizationEngine` geometry.
- `Rows`: the nine-column item row that both Python packers use, rotations and box overlap.
- `HeightMap`: the height map and the constraints of the local-search packer.
- `LocalSearch`: `simple_pack_with_steps`.
- `Service`: the `LocalSearchPackingAlgorithm` class.
- `BottomLeft`: `packing_algorithm.py`.
- `Routes`: the `/pack` and `/validate_json` handlers.

A few behaviours of the code shape the model:

- `goToStep` refuses an out-of-range index.
- `previousStep` stops at the first step.
- A seed of `0` counts as no seed.
- A negative seed drives the generator's state negative (see Findings).

## Model

| member | source | states |
|---|---|---|
| ItemRegistry.Initial | static/js/core/ItemManager.js:6-10 | A new registry has no items and no remembered input, and its id counter starts at 1. |
| ItemRegistry.AddItem | static/js/core/ItemManager.js:15-51 | It fails with "fields required" exactly when some argument is missing, `NaN` or `0`. It fails with "not positive" exactly when all are given but one is below 1. It fails with a duplicate error exactly when the request id is already in use. Every failure leaves the registry unchanged. On success it appends exactly `quantity` items with ids `nextItemId .. nextItemId + quantity - 1`, all carrying the given dimensions, request id and axis count. The counter advances by `quantity`. |
| ItemRegistry.Expand | static/js/core/ItemManager.js:32-43 | The expansion loop makes `quantity` consecutive items (none for a quantity below 1), the i-th with id `nextId + i`. |
| ItemRegistry.RemoveItem | static/js/core/ItemManager.js:56-65 | It reports success exactly when some item had that id. The remaining items are exactly the others, in their original order. The counter and the remembered input do not change. |
| ItemRegistry.WithoutIdShrinks | static/js/core/ItemManager.js:57-59 | The filtered list is shorter exactly when an item with that id existed, which is how `removed` is decided. |
| ItemRegistry.RemoveGroup | static/js/core/ItemManager.js:70-81 | It always succeeds. The remaining items are the items of other groups, in their original order. The reported count is the number of items with that request id, and it is 0 exactly when the group is absent. Every other group keeps its count. The lengths add up. |
| ItemRegistry.WithoutIdInOrder | static/js/core/ItemManager.js:57 | Filtering out one id keeps every other item once, in the original order: the result is the list of kept items picked at increasing positions. |
| ItemRegistry.WithoutRequestInOrder | static/js/core/ItemManager.js:72 | Filtering out one request id keeps every item of the other groups once, in the original order. |
| ItemRegistry.WithoutRequestCounts | static/js/core/ItemManager.js:71-74 | Filtering out one request id zeroes its count and keeps every other count. |
| ItemRegistry.WithoutAbsentRequest | static/js/core/ItemManager.js:74 | Removing a request id that no item carries gives back the same list, in the same order. |
| ItemRegistry.AddThenRemoveGroup | static/js/core/ItemManager.js:15-81 | Adding a group and then removing its request id restores the item list exactly. |
| ItemRegistry.Clear | static/js/core/ItemManager.js:86-90 | Clearing empties the items and the remembered input but keeps the counter. |
| ItemRegistry.UpdateNextItemId | static/js/core/ItemManager.js:116-118 | The counter becomes the larger of itself and the given id, so it never decreases. |
| ItemRegistry.OperationsKeepIdsBelowCounter | static/js/core/ItemManager.js:15-219 | Every operation keeps all item ids below the counter, so an id is never handed out twice, even after clearing. |
| ItemRegistry.ParseRecord | static/js/core/ItemManager.js:184-196 | A bulk record is accepted exactly when `length` or `L`, `width` or `W`, `height` or `H` is truthy and `request_id` or `id` is defined. The fallbacks apply as written. Quantity defaults to 1 and the axis count to `number_axis`, then `num_axis`, then 2. |
| ItemRegistry.LoadRecords | static/js/core/ItemManager.js:182-211 | The load appends the expansion of the accepted records that come before the first rejected one, numbered from the counter. The counter advances by the number of items added. |
| ItemRegistry.LoadRecordsOutcome | static/js/core/ItemManager.js:182-192 | The load stops exactly at the first rejected record. Every record before it was accepted and stays loaded. |
| ItemRegistry.LoadFromJson | static/js/core/ItemManager.js:168-219 | It clears and remembers the document first. A missing or non-array `items` throws with the registry cleared. Otherwise it reports success with the counts exactly when every record is accepted. A failure names a rejected record, and the items loaded before it are kept. |
| ItemRegistry.ValidateItemsAgainstBin | static/js/core/ItemManager.js:244-258 | An item is flagged exactly when some dimension strictly exceeds the bin's; no rotation is tried. The result is valid exactly when none is flagged. |
| ItemRegistry.ExportToJson | static/js/core/ItemManager.js:224-239 | There is one entry per group of the grouped view. Each entry's quantity is the number of items with its request id, and every request id has an entry. |
| Grouping.AccumulateKeys | static/js/core/ItemManager.js:137-163 | The grouped object's keys are exactly the request ids of the items, inserted once each. |
| Grouping.AccumulateGroup | static/js/core/ItemManager.js:139-160 | A group's count is the number of items with its request id. Its dimensions and axis count are those of the first such item in insertion order. |
| Grouping.AccumulateSum | static/js/core/ItemManager.js:139-161 | The group counts add up to the number of items. |
| Grouping.PropertyOrderShape | static/js/core/ItemManager.js:228 | `Object.values` lists integer-like request ids first, in ascending order, and the other keys after them. |
| Grouping.PropertyOrderOfOrdered | static/js/core/ItemManager.js:228 | Keys already in that order are listed unchanged. |
| Grouping.SumCountsPermutation | static/js/core/ItemManager.js:228 | Reordering the keys does not change the total of their counts. |
| Grouping.GroupedViewContents | static/js/core/ItemManager.js:137-163 | Every group in the view counts exactly the items with its request id and carries the first such item's dimensions. |
| Grouping.GroupedViewCovers | static/js/core/ItemManager.js:137-163 | Every request id has a group in the view. |
| Grouping.GroupedViewOrder | static/js/core/ItemManager.js:228 | No request id has two groups, and the view is in JavaScript property order. |
| Grouping.GroupedViewTotal | static/js/core/DataExporter.js:327-356 | The group counts of the view add up to the number of items. |
| ItemRoundTrip.ExportThenLoad | static/js/core/ItemManager.js:168-239 | Loading an export into any registry succeeds and loads as many items as were exported. It gives back the same grouped view: the same request ids in the same order, with the same counts, dimensions and axis counts. This holds when no exported field is a falsy `0`. |
| ItemRoundTrip.LoadOfExport | static/js/core/ItemManager.js:182-211 | Every exported record is accepted on reload and expands to its group's count. |
| ItemRoundTrip.AccumulateExpansion | static/js/core/ItemManager.js:139-161 | Grouping the expansion of fresh non-empty groups adds exactly those groups, in order. |
| Text.NatToString | static/js/core/DataExporter.js:312-322 | `String(n)` of a non-negative integer is a non-empty run of digits without a leading zero. It is one digit exactly when `n < 10`. |
| Text.DigitsOfNatToString | static/js/core/DataExporter.js:312-322 | Reading the digits of `String(n)` back gives `n`. |
| Text.PadTwo | static/js/core/DataExporter.js:314-318 | `padStart(2, '0')` of a number below 100 is two digits that read back as the number. |
| Json.Lookup | routes.py:105-109 | A key is found exactly when it is one of the object's keys, and the value found is stored under it. |
| Json.InsertByIndex | static/js/core/WeightManager.js:40 | Inserting a key adds exactly that key to the list. |
| Json.InsertByIndexAscending | static/js/core/WeightManager.js:40 | Inserting into a list ascending by index value keeps it ascending. |
| Json.SortByIndex | static/js/core/WeightManager.js:40 | Sorting by index value keeps the same keys, each as often. |
| Json.SortByIndexAscending | static/js/core/WeightManager.js:40 | The sorted keys are ascending by index value. |
| Json.PropertyOrderShape | static/js/core/WeightManager.js:40 | `Object.keys` lists the same keys, each as often. Array-index keys come first, in ascending numeric order, and the other keys follow them. |
| Json.PropertyOrderMembers | static/js/core/WeightManager.js:135 | `Object.keys` and `Object.entries` list exactly the object's keys, as many as it has. |
| Json.PropertyOrderOfPlain | static/js/core/WeightManager.js:40 | Keys none of which is an array index are listed in insertion order. |
| Json.PropertyOrderOfOrdered | static/js/core/WeightManager.js:238 | Keys already in property order are listed unchanged. |
| Json.SetValues | static/js/core/TrainingManager.js:312-336 | `[...new Set(vs)]` keeps no two `SameValueZero` values. Every input value is represented, and nothing else appears. |
| Json.SetValuesKeepsFirstOccurrences | static/js/core/DataExporter.js:453-459 | `[...new Set(vs)]` lists the values in the order of their first occurrence: its i-th entry is the input at the i-th position whose value has not appeared before. |
| Json.PyIntOfRenderedInt | routes.py:54-55 | Python's `int()` reads the decimal form of every integer back as that integer. |
| Lcg.JsRem | static/js/core/WeightManager.js:211 | JavaScript `%` keeps the sign of the dividend: the result lies in `[0, m)` for a non-negative `x` and in `(-m, 0]` for a negative one. |
| Lcg.RoundNat | static/js/core/WeightManager.js:211 | The double nearest to an integer is the integer itself below 2^53, and within one unit in the last place otherwise. |
| Lcg.Step | static/js/core/WeightManager.js:210-213 | The intended step always lies in `[0, 2^31)`. |
| Lcg.StepAgreesOnNonNegative | static/js/core/WeightManager.js:210-213 | For a non-negative state the step as written agrees with the intended one and stays in `[0, 2^31)`. |
| Lcg.InitialState | static/js/core/WeightManager.js:209 | A seed of `0` is treated as no seed and replaced by a random draw; any other seed is used as given. |
| Lcg.States | static/js/core/WeightManager.js:209-219 | Each state of the sequence is the step of the previous one, and every state lies in `[0, 2^31)`. |
| Lcg.StatesAgreeOnNonNegative | static/js/core/WeightManager.js:209-219 | From a non-negative seed the generator as written produces the intended sequence of states. |
| Lcg.ChangeInRange | static/js/core/WeightManager.js:212-219 | A state in `[0, 2^31 - 1]` gives a change between `-|maxChange|` and `+|maxChange|`. |
| Lcg.NegativeSeedLeavesRange | static/js/core/WeightManager.js:209-219 | From the seed `-1` the step as written gives the negative state -1103502900, and with `maxChange = 0.3` the first change falls below -0.3. |
| Weights.DefaultKeysDistinct | static/js/core/WeightManager.js:8-17 | The eight weight names are distinct. |
| Weights.ResetToDefaults | static/js/core/WeightManager.js:85-91 | After a reset, and so after construction, every weight holds its default. |
| Weights.ResetIsDefault | static/js/core/WeightManager.js:85-112 | A reset store is reported as default. |
| Weights.SetWeights | static/js/core/WeightManager.js:33-58 | A non-object is rejected. Otherwise the store holds exactly the eight weight keys. Each key takes the provided value when it is defined and its default otherwise. The unknown keys are exactly the reported invalid keys and are dropped. They are reported in the order `Object.keys` lists them. |
| Weights.InvalidKeys | static/js/core/WeightManager.js:40-42 | The filter keeps exactly the keys that are not weight keys, in their given order. |
| Weights.DefaultKeysNotIndices | static/js/core/WeightManager.js:8-17 | No weight name is an array index, so `Object.keys` lists the weight keys in their own order. |
| Weights.CopyKeys | static/js/core/WeightManager.js:40 | `Object.keys` of a copy of the store lists exactly the weight keys, in order. |
| Weights.SetWeightsOfDefined | static/js/core/WeightManager.js:47-50 | An object that defines every weight key sets the store to exactly those values. |
| Weights.SetWeightsOfCopy | static/js/core/WeightManager.js:33-58 | Setting the weights from a copy of the store gives the same store back, with no invalid keys. |
| Weights.UpdateWeight | static/js/core/WeightManager.js:63-80 | A key that is not a weight key, or a `NaN` value, throws. Otherwise that key takes the value and no other weight changes. |
| Weights.UpdateWeightTable | static/js/core/WeightManager.js:63-80 | After an update, the table marks that key as default exactly when the new value equals its default. |
| Weights.ChosenWeights | static/js/core/WeightManager.js:167-176 | An import looks in this order: `algorithm_weights`, `weights`, `parameters.weights`, `parameters.algorithm_weights`, then the document itself. |
| Weights.ImportWeights | static/js/core/WeightManager.js:161-186 | `null` throws. A falsy choice finds no weights. Otherwise the choice goes through `setWeights`, and its invalid keys are reported. |
| Weights.ImportOfExport | static/js/core/WeightManager.js:152-186 | Importing an export gives back the same store, with no invalid keys. |
| Weights.ValidateWeights | static/js/core/WeightManager.js:117-147 | A non-object gives exactly one error. There are no errors exactly when every weight key is present and holds a number. |
| Weights.ErrorsUnlessValid | static/js/core/WeightManager.js:128-140 | With no missing key and no invalid value, every weight key is present and holds a number. |
| Weights.StoreOfNumbersValidates | static/js/core/WeightManager.js:117-147 | A store whose weights are all numbers, the default store among them, validates. |
| Weights.WeightsTable | static/js/core/WeightManager.js:191-197 | The table has one row per weight, in key order, with the stored value. |
| Weights.TableAgreesWithIsDefault | static/js/core/WeightManager.js:103-112 | Every row is marked default exactly when `isDefaultWeights` holds. |
| Weights.UnionKeys | static/js/core/WeightManager.js:238 | The union holds each key of either side exactly once. The weight keys come first, and the other object's remaining keys follow in its `Object.keys` order. |
| Weights.NewKeys | static/js/core/WeightManager.js:238 | The keys not seen yet, each once, in their given order. |
| Weights.AppendNew | static/js/core/WeightManager.js:238 | `new Set([...a, ...b])` holds each key of either list once: `a` first, then the keys of `b` it lacks, in `b`'s order. |
| Weights.CompareWeights | static/js/core/WeightManager.js:236-259 | The weights are identical exactly when no key of the union differs. A key has a difference entry exactly when it is in the union and its two values differ. No key has two entries, and the entries follow the order of the key union, which lists the other object's keys in `Object.keys` order. Each entry holds both values and `other - current`. The summary is the decimal count followed by ` differences found`. |
| Weights.Minus | static/js/core/WeightManager.js:248 | `otherValue - currentValue` is a number exactly when both sides convert to numbers, and then adding the current value gives back the other. |
| Weights.ToNumber | static/js/core/WeightManager.js:248 | A number converts to its value, and `undefined` converts to `NaN`. |
| Weights.DifferencesInKeyOrder | static/js/core/WeightManager.js:238-251 | The difference entries appear in the order of the compared keys. |
| Weights.Differences | static/js/core/WeightManager.js:240-251 | Every entry is for one of the compared keys whose two values differ under `!==`, and holds both values and their difference. |
| Weights.DifferencesKeys | static/js/core/WeightManager.js:240-251 | A compared key gets an entry exactly when its two values differ. |
| Weights.DifferencesDistinct | static/js/core/WeightManager.js:238-251 | Comparing distinct keys gives entries with distinct keys. |
| Weights.CompareWithCopy | static/js/core/WeightManager.js:236-259 | A store compared with its own copy is identical. |
| Weights.RandomizedWeights | static/js/core/WeightManager.js:202-222 | There is one entry per weight key, in key order. The i-th value is the stored weight times one plus the change from the generator's i-th state, using the corrected generator. A seed of `0` starts from the random draw. From a non-negative seed this is the source's own sequence, by `Lcg.StatesAgreeOnNonNegative`. |
| Weights.RandomizedWithinBounds | static/js/core/WeightManager.js:202-222 | With the corrected generator, each randomised numeric weight is a number within `|maxChange|`, relatively, of the stored value. |
| Weights.RandomizedWeightsAsWritten | static/js/core/WeightManager.js:202-222 | The generator as written, with the sign-keeping `%`, gives one entry per weight key, in key order. |
| Weights.RandomizedAgreesOnNonNegativeSeed | static/js/core/WeightManager.js:202-222 | From a non-negative seed the weights as written are exactly the corrected ones. |
| Weights.AsWrittenWithinBoundsOnNonNegativeSeed | static/js/core/WeightManager.js:202-222 | From a non-negative seed, each numeric weight the source produces is within `|maxChange|`, relatively, of the stored value. |
| Playback.SetPackingSteps | static/js/core/StepManager.js:27-31 | Loading steps copies an array (anything else loads none), moves the cursor before the first step and stops playback. |
| Playback.CurrentStep | static/js/core/StepManager.js:43-48 | There is a current step exactly when the cursor is on a step. |
| Playback.PreviousStep | static/js/core/StepManager.js:60-68 | It moves back exactly when the cursor is above 0; otherwise nothing changes. |
| Playback.PreviousNeverReachesMinusOne | static/js/core/StepManager.js:60-68 | `previousStep` never brings the cursor back to `-1`. |
| Playback.NextStep | static/js/core/StepManager.js:73-81 | It moves forward and reports true exactly when the cursor is below the last step; otherwise nothing changes. |
| Playback.GoToStep | static/js/core/StepManager.js:86-94 | Exactly the indices of existing steps are accepted. Anything else is refused with no change; there is no clamping. |
| Playback.GoToFirstStep | static/js/core/StepManager.js:410-412 | With steps, the cursor moves to the first step; with none, it fails. |
| Playback.GoToLastStep | static/js/core/StepManager.js:417-419 | With steps, the cursor moves to the last step, from which `nextStep` fails. |
| Playback.Play | static/js/core/StepManager.js:110-129 | Without steps nothing happens. Otherwise playback runs, and from the last step it restarts before the first. |
| Playback.Toggle | static/js/core/StepManager.js:99-105 | Toggling pauses a running player and plays a paused one. |
| Playback.Tick | static/js/core/StepManager.js:121-128 | One firing of the interval advances the cursor, or pauses when there is no next step. Nothing fires while paused. |
| Playback.TicksRunToEnd | static/js/core/StepManager.js:121-128 | A running player visits every remaining step one tick at a time and stops on the last step. |
| Playback.PlayFromEndReplaysAll | static/js/core/StepManager.js:110-129 | Playing from the last step replays every step from the first and stops on the last. |
| Playback.PauseIdempotent | static/js/core/StepManager.js:134-141 | Pausing twice is the same as pausing once. |
| Playback.ToggleFlips | static/js/core/StepManager.js:99-105 | With steps, toggling flips the play state. A running player below the last step is unchanged by two toggles. |
| Playback.UpdateStepSpeed | static/js/core/StepManager.js:146-157 | Without the slider nothing changes. Otherwise the speed becomes the parsed value, with `0` or `NaN` giving 1000 ms, and running playback restarts. |
| Playback.Reset | static/js/core/StepManager.js:333-338 | A reset drops the steps, moves the cursor before the first step and stops playback. |
| Playback.OperationsKeepValid | static/js/core/StepManager.js:27-405 | Every operation, the tick included, keeps the cursor in `[-1, N - 1]` and never lets playback run without steps. |
| Playback.ControlsMatchOperations | static/js/core/StepManager.js:172-213 | Previous is disabled exactly when `previousStep` would fail, and next exactly when `nextStep` would. Play is disabled exactly when `playAnimation` would do nothing. |
| Playback.LabelShowsStep | static/js/core/StepManager.js:185-190 | The label reads "Step k of N", where k is `max(1, cursor + 1)`. |
| Playback.StepStatistics | static/js/core/StepManager.js:344-362 | The statistics give the number of steps and a 1-based current step that matches the cursor on a step. Progress lies in `(0, 100]`. A `null` step throws. |
| Playback.ImportStepData | static/js/core/StepManager.js:382-405 | A document without an array `steps` is refused. Otherwise the steps are loaded and playback stops. A truthy speed is taken. The cursor follows `currentStep` when that is an integer index of a loaded step, and stays before the first step otherwise. |
| Playback.ImportOfExport | static/js/core/StepManager.js:369-405 | Importing an export restores the steps and the cursor, stopped. The speed is restored when it is truthy. |
| Viewport.CalculateAspectRatio | static/js/core/CameraManager.js:122-135 | The ratio is at least 1, and the bin counts as balanced exactly when the ratio is below 2. A side flagged as standing out really is the longest. |
| Viewport.AtMostOneElongation | static/js/core/CameraManager.js:122-135 | At most one side of a bin stands out. |
| Viewport.DefaultEye | static/js/core/CameraManager.js:97-117 | The eye is 1.5 on every axis. The axis of the side that stands out (wide, then tall, then long) moves to `max(1.5, 1.2 * ratio)`. |
| Viewport.DefaultEyeShape | static/js/core/CameraManager.js:97-117 | The eye never comes closer than 1.5 and moves on at most one axis. A bin with no side standing out is seen from (1.5, 1.5, 1.5). |
| Viewport.DefaultCamera | static/js/core/CameraManager.js:97-117 | The default camera has the default eye, centre (0.5, 0.5, 0.5) and up (0, 0, 1). |
| Viewport.LayoutWithCamera | static/js/core/CameraManager.js:150-171 | The layout uses the saved camera when there is one and the bin's default camera otherwise. Each axis spans `[0, side]`. |
| Viewport.Captured | static/js/core/CameraManager.js:63-80 | A live camera is copied exactly when its eye, centre and up are all present. |
| Viewport.CurrentCameraState | static/js/core/CameraManager.js:63-80 | A live camera is reported only when the plot has a complete one. |
| Viewport.Backup | static/js/core/CameraManager.js:42-58 | A complete live camera replaces the saved one; otherwise the saved camera is kept. The same rule serves `preserveCameraForVisualization`. |
| Viewport.ForceSave | static/js/core/CameraManager.js:85-92 | It saves as `Backup` does and reports whether it saved. |
| Viewport.Relayout | static/js/core/CameraManager.js:193-202 | A relayout event with a complete camera replaces the saved one; any other event leaves it. |
| Viewport.SetCameraState | static/js/core/CameraManager.js:236-246 | It succeeds exactly when the state validates, storing its three vectors. A failure keeps the saved camera. |
| Viewport.DefaultCameraSets | static/js/core/CameraManager.js:97-268 | The default camera validates and is stored unchanged. |
| Viewport.SetCameraStateRoundTrip | static/js/core/CameraManager.js:236-268 | A camera stored by `setCameraState`, written out and set again, is stored unchanged. |
| Viewport.ClearSavedState | static/js/core/CameraManager.js:273-275 | Clearing leaves no saved camera. |
| Viewport.ResetToDefault | static/js/core/CameraManager.js:221-224 | A reset stores the default camera for the bin and returns it. |
| Viewport.ResetMatchesUnsetLayout | static/js/core/CameraManager.js:150-224 | After a reset the layout shows the same camera as with no saved camera. |
| Viewport.ShouldResetCamera | static/js/core/CameraManager.js:280-293 | A missing size always resets the camera. |
| Viewport.ShouldResetPositive | static/js/core/CameraManager.js:280-293 | For an old bin with positive sides, the camera resets exactly when some side changes by more than half its old length. |
| Viewport.SameSizeKeepsCamera | static/js/core/CameraManager.js:280-293 | The same size never resets the camera, even with a zero side, whose `NaN` compares false. |
| Training.InitialConfig | static/js/core/TrainingManager.js:8-12 | The initial configuration (3 steps, 0.3, "efficiency") is in range. |
| Training.UpdateTrainingConfigAsWritten | static/js/core/TrainingManager.js:32-56 | As written, a value is rejected only when it compares outside its range, so `NaN` passes. An error in steps changes nothing. An error in the change keeps only the given steps written. An unknown metric keeps the given steps and change written and the old metric. On success every given field is written and the others keep their values. |
| Training.NaNStepsAccepted | static/js/core/TrainingManager.js:36-40 | A `num_steps` that does not parse is stored as `NaN` without an error, leaving the configuration out of range. |
| Training.UpdateTrainingConfig | static/js/core/TrainingManager.js:32-56 | Corrected: the update succeeds exactly when each given field is a number in its range (1 to 20, 0.1 to 1.0) or a known metric. A failure keeps exactly the fields written before it. |
| Training.UpdateKeepsConfigInRange | static/js/core/TrainingManager.js:32-56 | With the corrected check, a configuration in range stays in range, even after a call that throws half-way. |
| Training.UpdateAgreesWithoutNaN | static/js/core/TrainingManager.js:32-56 | The corrected and the as-written update agree on every input without `NaN`. |
| Training.ScenarioErrors | static/js/core/TrainingManager.js:120-148 | Each missing items array, missing bin size, bin size without dimensions, item without dimensions and item without request id gives its own error. A `null` scenario or item throws. |
| Training.ValidateTrainingData | static/js/core/TrainingManager.js:103-151 | The data must be an object or array holding a scenario array, and every scenario is checked. The result is valid exactly when the error list is empty. |
| Training.EveryBadItemReported | static/js/core/TrainingManager.js:120-148 | Every bad item is reported, not only the first. |
| Training.ValidIff | static/js/core/TrainingManager.js:103-151 | The data is valid exactly when it holds an array of scenarios and every scenario passes. |
| Training.LoadTrainingData | static/js/core/TrainingManager.js:68-91 | Invalid data throws and leaves the trainer unchanged. Valid data, from `training_data` or a bare array, is stored. A truthy `training_config` goes through the config update as written, whose error is reported. |
| Training.LoadKeepsConfigInRange | static/js/core/TrainingManager.js:68-91 | Loading keeps the configuration in range when the given step and change values parse. |
| Training.LoadStoresNaNSteps | static/js/core/TrainingManager.js:68-91 | Loading valid data with `training_config: {num_steps: "abc"}` succeeds and stores `NaN` steps, leaving the configuration out of range. |
| Training.TrainingDataCount | static/js/core/TrainingManager.js:402-411 | The count is positive exactly when `hasTrainingData` holds, and it is 0 without data. |
| Training.ClearTrainingData | static/js/core/TrainingManager.js:301-305 | Clearing leaves no data and keeps the configuration. |
| Training.GenerateFakeDataParams | static/js/core/TrainingManager.js:221-252 | A `0` or `NaN` count takes its default (3, 10, 3). The request is accepted exactly when the counts are within 1–50, 1–100 and 1–20 and the unique types do not exceed the items. The seed is kept exactly when it is truthy and parses. |
| Training.ValidateScenarioForAPI | static/js/core/TrainingManager.js:343-375 | There is an error for no items, for a missing or non-positive bin size, and for each item without positive dimensions or a request id. A `null` scenario or item throws. |
| Training.ApiScenarioValidIff | static/js/core/TrainingManager.js:343-375 | A scenario passes exactly when it has a non-empty items array and a positive bin size, and every item has positive dimensions and a request id. |
| Training.PrepareForAPI | static/js/core/TrainingManager.js:380-397 | With no data it fails. Otherwise it succeeds exactly when every scenario passes. A failure names the first scenario that fails, with its errors. |
| Training.GetTrainingStats | static/js/core/TrainingManager.js:312-336 | The statistics count the scenarios and the items. The distinct request ids are those of `[...new Set(ids)]`: at most as many as items, and at least one when there are items. The average is `NaN` exactly for zero scenarios, and otherwise the mean items per scenario rounded to one decimal. |
| Training.Average | static/js/core/TrainingManager.js:323-335 | The rounded average is absent exactly for zero scenarios. Otherwise it is `Math.round(mean * 10) / 10`, within 0.05 of the mean. |
| Training.RoundedToTenth | static/js/core/TrainingManager.js:335 | Rounding to one decimal moves a value by more than -0.05 and at most 0.05. |
| Training.LoadedDataHasStats | static/js/core/TrainingManager.js:68-87 | Data that was loaded never makes the statistics throw, and they count the loaded scenarios. |
| Export.GroupCountIsIdCount | static/js/core/DataExporter.js:327-356 | Grouping makes one group per distinct request id. |
| Export.ExportItemsList | static/js/core/DataExporter.js:31-53 | Empty input throws. Each entry's quantity is its group's count. The total is the number of items, and the type count is the number of groups. |
| Export.ItemsListMatchesManagerExport | static/js/core/DataExporter.js:31-53 | The exporter writes the same item list as the item manager's own export. |
| Export.QuantitySumOfExport | static/js/core/DataExporter.js:31-53 | The exported quantities add up to the number of items. |
| Export.ExportPackingResults | static/js/core/DataExporter.js:69-87 | Falsy results throw. The total is packed plus leftover. A missing array counts 0 and exports as empty. |
| Export.PackingStatisticsCountPayload | static/js/core/DataExporter.js:69-87 | When the results carry their item lists as arrays, the statistics count exactly the items in the payload. |
| Export.ExportTrainingData | static/js/core/DataExporter.js:108-119 | Missing or empty data throws. The scenario count is the number of scenarios, and the total is the sum of their item counts, a scenario without an items array counting 0. |
| Export.LoadedTrainingDataExports | static/js/core/DataExporter.js:108-119 | Loaded training data exports with its scenario count and the same item total the statistics report. |
| Export.LoadedDataExportsItsTotal | static/js/core/DataExporter.js:108-119 | Once data is loaded, exporting it succeeds with its scenario count and the item total of its scenarios. |
| Export.ValidateExportData | static/js/core/DataExporter.js:377-415 | There is at most one error, and none exactly when the data meets the rule of its export type. Falsy data gives the "no data" error. |
| Export.TrainingRuleMatchesExport | static/js/core/DataExporter.js:108-119 | Training data passes its validation rule exactly when its export does not reject it as empty. |
| Export.CreateExportSummary | static/js/core/DataExporter.js:453-459 | The successes are the results with a truthy `success`, the failures the others, and they add up to the total. The total file size is the sum of the sizes, a missing one counting 0. The export types are listed once each and cover every result. |
| Export.SuccessCountIsFilterSize | static/js/core/DataExporter.js:456 | Counting successes one by one gives the number of results with a truthy `success`. |
| Export.FailureCountIsFilterSize | static/js/core/DataExporter.js:457 | Counting failures one by one gives the number of results without a truthy `success`. |
| Export.FileSizeSumAppend | static/js/core/DataExporter.js:459 | The file-size total of two result lists is the sum of their totals, and one result contributes its size or 0. |
| Export.ExportTypesInFirstSeenOrder | static/js/core/DataExporter.js:458 | The export types appear in the order each type is first seen among the results. |
| Export.SuccessesAndFailuresPartition | static/js/core/DataExporter.js:453-459 | Every result is either a success or a failure. |
| Export.GenerateTimestamp | static/js/core/DataExporter.js:312-322 | The timestamp is the year followed by 11 characters. The date digits end with an underscore, followed by six digits of time. |
| Export.TimestampRoundTrip | static/js/core/DataExporter.js:312-322 | For a four-digit year the timestamp is `YYYYMMDD_HHMMSS` and reads back as the time it was made from, so two different times never share a file name. |
| Api.SetBaseUrl | static/js/core/APIService.js:20-22 | The base URL is the given text with at most one leading `http://` or `https://` removed, then at most one trailing `/`. |
| Api.BuildUrlIgnoresSchemeAndSlash | static/js/core/APIService.js:20-36 | Whichever scheme and trailing slash a host is given with, requests go to `http://<host><endpoint>`. |
| Api.StripsAtMostOnce | static/js/core/APIService.js:20-22 | Only one scheme and one slash are removed. |
| Api.FullUrlsUnderBase | static/js/core/APIService.js:334-346 | Each of the four full URLs is `http://`, the base URL, then the endpoint's path. |
| Api.CheckPackedItems | static/js/core/APIService.js:257-275 | The item loop reports the first item that lacks a required field. An item that is not an object makes `in` throw first. |
| Api.ItemErrorNamesFirstIncomplete | static/js/core/APIService.js:257-275 | The reported item is the first incomplete one, and the listed fields are exactly the ones it lacks. |
| Api.ValidatePackingResponse | static/js/core/APIService.js:241-280 | A non-object, a missing `packed_items` or one that is not an array, and the first incomplete item are each rejected, in that order. `packed_items` is reported missing exactly when it is absent. |
| Api.ValidateTrainingResponse | static/js/core/APIService.js:285-302 | The response is valid exactly when it is an object with both `optimized_weights` and `training_history`. |
| Api.GetErrorMessage | static/js/core/APIService.js:307-329 | A string is passed through. A message is checked for "fetch", "timeout", "404" and "500" in that order, else returned as is, else a generic text. |
| Api.FetchTakesPrecedence | static/js/core/APIService.js:307-329 | A message mentioning `fetch` is a connection problem, whatever else it mentions. |
| Api.ErrorMessageIsKnownOrOriginal | static/js/core/APIService.js:307-329 | For an error object whose message is a string, the result is one of the five fixed texts or the message itself. |
| Scene.BoxCornersAreAllCorners | static/js/core/VisualizationEngine.js:100-112 | The eight listed points are exactly the corners of the box. |
| Scene.WarehouseOutline | static/js/core/VisualizationEngine.js:54-93 | The outline has 12 segments and 36 entries per axis, every third one a break. Every segment runs between two corners of the bin. |
| Scene.OutlineDrawsBinEdges | static/js/core/VisualizationEngine.js:54-77 | For a bin of positive size, every segment joins two corners along one axis, and every such pair of corners is joined. So the outline draws precisely the bin's twelve edges. |
| Scene.NeighboursDifferInOneSide | static/js/core/VisualizationEngine.js:54-77 | Two corners are joined along one axis exactly when they sit on different sides across one axis only. |
| Scene.ItemMesh | static/js/core/VisualizationEngine.js:98-156 | The mesh has eight vertices, each a corner of the item's box at (x, y, z), where a missing coordinate is 0. It has twelve triangles over the indices 0..7, and the palette colour of the index. |
| Scene.MeshVerticesAreBoxCorners | static/js/core/VisualizationEngine.js:100-112 | The vertices are the corners of the item's box, in the outline's order. |
| Scene.TrianglesLieOnFaces | static/js/core/VisualizationEngine.js:115-136 | Each triangle has three distinct corners on one face of the box. |
| Scene.FacesAreCovered | static/js/core/VisualizationEngine.js:115-136 | On a box with no flat side, every corner of every face belongs to a triangle in that face, so the twelve triangles tile the surface. |
| Scene.InitialEngine | static/js/core/VisualizationEngine.js:6-15 | The engine starts with a non-empty palette and a 10×10×10 bin. |
| Scene.SetBinSize | static/js/core/VisualizationEngine.js:20-29 | Later reads return exactly the size that was set, and the palette is untouched. |
| Scene.SetColorPalette | static/js/core/VisualizationEngine.js:360-364 | A non-empty array replaces the palette and anything else is ignored, so the palette stays non-empty. |
| Scene.GetItemColor | static/js/core/VisualizationEngine.js:353-355 | A non-negative index gets the palette entry at `index mod n`. A negative index that is not a multiple of `n` gives `undefined`. |
| Scene.ColorsCycle | static/js/core/VisualizationEngine.js:353-355 | Colours repeat with the palette's length. |
| Rows.Rotate | local_search_algorithm.py:29-51 | With the axis locked, only id 1 turns the item: it swaps length and width, and the height never changes. An id outside 0 to 5 leaves the item as it is. |
| Rows.RotationPermutes | local_search_algorithm.py:29-51 | Every rotation reorders the three extents. |
| Rows.RotationKeepsVolume | local_search_algorithm.py:29-51 | Every rotation keeps the volume. |
| Rows.FreeRotationsAreAllOrders | local_search_algorithm.py:40-51 | Unlocked, every order of the three extents is reached by one of the ids 0 to 5. |
| Rows.OverlapIffSharedCell | local_search_algorithm.py:53-57 | Boxes with positive extents overlap exactly when some unit cell lies in both. So the test is symmetric, and boxes that share only a face do not overlap. |
| HeightMap.CoversInsideFloor | local_search_algorithm.py:72-81 | For a footprint on the floor, the NumPy slice is exactly the footprint. |
| HeightMap.UpdateBinState | local_search_algorithm.py:72-81 | The cells of the footprint slice take the height of the item's top, and every other cell keeps its height. |
| HeightMap.UncoveredCellIsFloor | local_search_algorithm.py:83-98 | A cell under no placed row keeps height 0. |
| HeightMap.HeightIsLastTop | local_search_algorithm.py:83-98 | A cell's height is the top of the last placed row over it. |
| HeightMap.WithinBin | local_search_algorithm.py:101-115 | It holds when the rotated footprint lies on the floor and the item, resting at the height of its corner cell, stays under the lid. A footprint with no length or width on the far edge raises `IndexError`. |
| HeightMap.WithinBinOfProperItem | local_search_algorithm.py:101-115 | For an item of positive length and width, it fits exactly when its footprint is on the floor and its top stays under the lid. |
| HeightMap.HasSupport | local_search_algorithm.py:117-132 | It holds exactly when the footprint is on the floor and every cell under it has the corner cell's height. |
| HeightMap.SupportOnOwnTop | local_search_algorithm.py:72-81 | Right after a row updates the map, the corner cell holds the row's top and the same row, turned the same way, has support there: its footprint reads as flat. |
| HeightMap.NoOverlap | local_search_algorithm.py:134-155 | It holds exactly when the rotated box overlaps none of the rows placed at non-negative coordinates. |
| HeightMap.PossiblePositions | local_search_algorithm.py:227-262 | The origin comes first. Every other position is a floor cell, all positions are at height 0, and no two share a floor cell. |
| HeightMap.PossiblePositionsComplete | local_search_algorithm.py:227-262 | The floor cell of every on-floor neighbour of every placed row is among the positions. |
| LocalSearch.PositionsNextToPacked | local_search_algorithm.py:278-291 | The corner comes first, then for each packed item the cells right of it, behind it and at its far corner. |
| LocalSearch.RestingHeight | local_search_algorithm.py:299-310 | The resting height is at least 0, and at least the top of every packed item under the footprint. The footprint is taken unrotated, as in the source. |
| LocalSearch.TryPositionsTakesFirstFit | local_search_algorithm.py:294-337 | The placement found is at the first candidate where some rotation fits the bin clear of packed items, at the resting height, in the first such rotation. |
| LocalSearch.Advance | local_search_algorithm.py:270-369 | An item is packed exactly when it was unplaced and some candidate admits it. It is then in the bin, clear of the packed items, and with `save_steps` a step records it. |
| LocalSearch.PackWithSteps | local_search_algorithm.py:264-384 | Packed plus leftover rows are as many as the input rows. Every packed row has `x >= 0` and every leftover row `x < 0`. Without `save_steps` there are no steps. |
| LocalSearch.NoStepsUnlessSaved | local_search_algorithm.py:349-369 | Without `save_steps` no step is recorded. |
| LocalSearch.PackedAreDisjointAndPlaced | local_search_algorithm.py:294-346 | The items packed in a run are pairwise disjoint, and each stands in the bin. |
| LocalSearch.OneStepPerPackedItem | local_search_algorithm.py:348-369 | With `save_steps` there is one step per packed item. Step k places the k-th packed item and lists the first k + 1, in packing order. |
| LocalSearch.PackedAtNearWalls | local_search_algorithm.py:294-346 | With no negative extent, every packed item stands at or after the near walls, so it is reported as packed. |
| LocalSearch.PackedResultIsPackingOrder | local_search_algorithm.py:371-384 | From unplaced rows with no negative extent, the packed result is exactly the list of packed items in packing order. |
| LocalSearch.PackWithStepsSound | local_search_algorithm.py:264-384 | From unplaced rows with no negative extent, the packed result is pairwise disjoint and in the bin. With `save_steps`, the steps record exactly its items, one per step, in order. |
| Service.RequestIdField | local_search_algorithm.py:437 | The default `item['id']` is evaluated first, so an item without an id fails even when it has a request id. |
| Service.FormRowReadsIntFields | local_search_algorithm.py:423-439 | A form item with integer fields reads as the unplaced row with those extents and id. Its request id is `request_id`, or the id when that is absent. |
| Service.CreateItemsArray | local_search_algorithm.py:423-439 | The result is one unplaced row per item, in order. Any unreadable item makes the whole call fail. |
| Service.CreateItemsFromJsonNewFormat | local_search_algorithm.py:441-462 | The item types are expanded in order into as many rows as their quantities say. Any type whose quantity `range()` refuses, or whose fields cannot be read when it has copies, makes the call fail. |
| Service.ExpandTypeReadsIntFields | local_search_algorithm.py:446-460 | A type with integer fields and a positive quantity expands to `quantity` copies of its unplaced row. |
| Service.ExpandTypeOfNoCopies | local_search_algorithm.py:447-448 | A quantity of zero or less expands to nothing, whatever else the type holds. |
| Service.VolumeSumIsOccupied | local_search_algorithm.py:604-615 | Volumes taken from the unrotated extents are the volumes the items occupy as they stand. |
| Service.Utilization | local_search_algorithm.py:604-615 | Utilisation is 0 with nothing packed. Otherwise it is 100 times the packed volume over a positive bin volume. |
| Service.ShapeResult | local_search_algorithm.py:483-521 | Packed plus leftover entries account for every row. Steps appear only when asked for, and they serialise. |
| Service.Pack | local_search_algorithm.py:464-521 | It succeeds exactly when every form item reads. Packed plus leftover is the number of items. |
| Service.PackJsonFormatAsWritten | local_search_algorithm.py:556-561 | As written, the final snapshot holds the packer's arrays, so with steps and at least one item the reply cannot be serialised. |
| Service.PackJsonFormat | local_search_algorithm.py:523-602 | Corrected: the snapshot holds lists, so the reply always serialises. With steps and items, the last step is that snapshot. |
| Service.PackIsSound | local_search_algorithm.py:464-521 | For form items with no negative extent, the packed items are pairwise disjoint and in the bin. With steps, each step places the next of them. |
| BottomLeft.InsertPq | packing_algorithm.py:52-59 | Inserting into a z-sorted queue gives a z-sorted queue one longer, holding the item and the old rows in their order. The item goes before every row of equal or greater z. |
| BottomLeft.CanPlaceItem | packing_algorithm.py:61-90 | An item can be placed exactly when it stays under the upper bounds and overlaps no placed row. |
| BottomLeft.CandidatesAreCorners | packing_algorithm.py:96-110 | A candidate is the origin or the right, back or top corner of a placed row, and every such corner is a candidate. |
| BottomLeft.FindPlacementPositions | packing_algorithm.py:92-129 | There are at most 50 positions, all in the bin and all candidates. They are free of duplicates and strictly sorted by (z, y, x). |
| BottomLeft.FirstFitIsFirst | packing_algorithm.py:155-158 | Among positions sorted by (z, y, x), the first one where the item fits has no fitting position before it in that order. |
| BottomLeft.PositionsAreTheFirstFifty | packing_algorithm.py:112-129 | A candidate in the bin is left out only when 50 positions come before it. |
| BottomLeft.CurrentState | packing_algorithm.py:184-203 | The state lists exactly the placed rows among the first `upTo`. |
| BottomLeft.Advance | packing_algorithm.py:143-180 | A row already placed is skipped and nothing changes. Otherwise the row moves to a position where it fits, with no fitting position before it in (z, y, x) order, and the step numbered after the earlier ones is recorded. It stays unplaced, with no step, only when it fits at none of the positions. Every other row keeps its place. |
| BottomLeft.Run | packing_algorithm.py:143-182 | The loop keeps every row's item and rotation. If the placed rows were disjoint and in the bin before it, they still are after it. If the steps were numbered 1, 2, … one per placed row, they still are. |
| BottomLeft.PlacedRowsAreDisjointAndInBin | packing_algorithm.py:143-182 | From rows none of which is placed, the placed rows end up pairwise disjoint and in the bin. |
| BottomLeft.OneNumberedStepPerPlacedRow | packing_algorithm.py:143-182 | From rows none of which is placed, there is one step per placed row, numbered 1, 2, … in order. |
| BottomLeft.PlacedAndUnplacedPartition | packing_algorithm.py:224-242 | Every row is either placed or left over. |
| BottomLeft.Respond | packing_algorithm.py:217-256 | Placed plus leftover items are all the items. Utilisation is the share of items placed. |
| BottomLeft.PackItems | packing_algorithm.py:205-264 | No items gives the failure reply, and an unreadable item gives the packing error. Otherwise placed plus leftover is the number of items, and utilisation is their count ratio. |
| BottomLeft.PackItemsIsSound | packing_algorithm.py:205-264 | In a reply that packs, the placed items are disjoint, in the bin and under its upper bounds, and the steps are numbered 1, 2, … one per placed item. |
| BottomLeft.UtilizationCountsItems | packing_algorithm.py:255 | Utilisation counts items, not volume: when every item is placed it is 100, however much of the bin they fill. |
| Routes.PyInDefinedOnContainers | routes.py:42 | `in` raises exactly on values that are not dictionaries, lists or strings. |
| Routes.CheckItem | routes.py:40-60 | An item that is not a container raises. Otherwise the check reports the first required field of the item's format that is missing or that `int()` refuses. |
| Routes.CheckItemPassesIffAccepted | routes.py:40-60 | An item passes exactly when it is a dictionary whose format's fields (L/W/H when all three are present, else length/width/height, and id in both cases) are present and convert. |
| Routes.CheckItems | routes.py:40-60 | The loop reports the first failing item with its problem, every earlier item passing. An exception on a non-container stops it earlier. |
| Routes.BinOf | routes.py:26-29 | Each side of the bin is `int()` of the value under its key, or 10 when the key is absent; a missing `bin_size` gives a 10 × 10 × 10 bin. There is no bin, and the request fails, exactly when the body or `bin_size` is not a dictionary or `int()` refuses a side's value. |
| Routes.ReadPackRequest | routes.py:20-60 | The body is refused as missing exactly when it is empty or absent. Every refusal is a 400 except the server error, which is a 500. An accepted request is a dictionary whose items all pass the item check. |
| Routes.RequestItemsAccepted | routes.py:40-60 | Every item of an accepted request is accepted. |
| Routes.PackRoute | routes.py:62-93 | Corrected: a request is packed exactly when it gets through the checks and the packer succeeds, and the reply is the packer's result. |
| Routes.AsWrittenFailsNewFormatWithSteps | routes.py:78-93 | As written, an L/W/H request that asks for steps and has an item to pack gets a server error, whatever the packer did. |
| Routes.OldFormatRequestIsPacked | routes.py:62-86 | A length/width/height request whose request ids convert is packed, and the reply accounts for every item. |
| Routes.NewFormatRequestIsPacked | routes.py:62-86 | An L/W/H request whose request ids and quantities read is packed, with one row per copy. |
| Routes.CopiesOf | routes.py:144-154 | An L/W/H item with quantity q gives `range(q)` entries sharing its request id and extents. The ids are suffixed `_k` exactly when q > 1. |
| Routes.CopiesHaveDistinctIds | routes.py:144-154 | The copies of one item type carry pairwise distinct ids. |
| Routes.Expansion | routes.py:136-168 | An item without an id, or in neither format, fails with its index. |
| Routes.ProcessItems | routes.py:134-168 | The loop gives the entries of all items in order, or the first item's failure. |
| Routes.NormaliseBin | routes.py:113-128 | A dictionary with L, W and H is renamed to length/width/height. A bin size is kept as given only when it has length, width and height. |
| Routes.CheckedShape | routes.py:99-132 | An empty body, a missing `bin_size` or `items`, a bin size in neither format, or items that are not a list are each refused, in that order. |
| Routes.ValidateJson | routes.py:95-186 | A valid reply comes from a dictionary holding `bin_size` and a list of `items`. Its `item_count` is the number of processed entries and its `original_item_count` the number of items. A refusal is 400 except the server error's 500. |
| Routes.ValidItemCount | routes.py:170-177 | `item_count` is the number of entries: each L/W/H item its quantity, each other item one. |
| Routes.EntryCountIsTotalCopies | routes.py:137-177 | For L/W/H items, the count validation reports is the number of rows the packer expands the same items to. |

## Left out

- DOM rendering, Bootstrap and Plotly calls, toasts, downloads, the clipboard and `fetch` are left out. They are I/O. `makeRequest`, `runPacking`, `runTraining`, `generateFakeData` and `checkEndpoint` are only network calls.
- Timers are modelled as explicit operations. The camera backup interval is left out, and the step-playback interval is the explicit `Playback.Tick`.
- `Date.now`, `new Date()` and `Math.random` become parameters. The time is `Export.DateTime`, and the random draw that replaces a zero seed is a parameter. The unseeded branch of `getRandomizedWeights` is not modelled because it is nondeterministic.
- `parseInt` and `parseFloat` of form fields are not modelled as string parsers. Their results are inputs, with `None` standing for `NaN`.
- Floating point is replaced by exact arithmetic. Camera ratios, weights and changes are `real`. The LCG models double rounding of integers exactly, because its product exceeds 2^53.
- The 30-second timeout of `simple_packing_algorithm`, `packing_time` and the `timestamp` of the final snapshot are left out. They come from the clock.
- The float scoring of the local-search packer is left out: `compute_score`, `find_best_item_to_pack`, `lifo_collide`, `check_all_constraints`, `add_new_item`, `local_search_3D` and `simple_pack`. `simple_pack_with_steps` does not call them.
- `create_items_array` of `packing_algorithm.py` is the same code as the local-search one. Both are modelled by `Service.CreateItemsArray`.
- NumPy `int32` wrap-around is not modelled, and neither is the `OverflowError` when a value out of range is stored in the array. Integers are unbounded, so extents and ids beyond 2^31 behave as in exact arithmetic.
- `str()` of a suffixed id in `validate_json` is kept as the pair (id, copy number). Its text form is not built.
- Python's `int()` of a string accepts a sign and digits. Surrounding whitespace and digit-group underscores are not modelled.
- The hover text of `createItemMesh` and the float centring offsets of `visualizeItemsOnly` are left out.
- `calculateUtilization` of the visualisation engine and the exporter is float arithmetic and is left out. So is `getExportStatistics`.
- The front end reads `result.data.steps` (static/js/BinPackingVisualizer.js:402-403) while the server sends `packing_steps` (routes.py:85). The front end is not part of this model, so this mismatch is not modelled.
- `generateTrainingExample`, `processFakeDataResponse` and `exportTrainingData` of `TrainingManager` are left out. They build UI text or call the exporter, which is modelled in `Export`.
- LocalSearch.PackedResultIsPackingOrder: requires every input row to have no negative extent. A negative extent can place an item before the near walls, where the result filter drops it.
- LocalSearch.PackWithStepsSound: has the same no-negative-extent precondition, for the same reason.
- Service.PackIsSound: has the same no-negative-extent precondition, for the same reason.
- BottomLeft.InsertPq: requires a z-sorted queue. `insert_pq` (packing_algorithm.py:52-59) is never called, and its `searchsorted` assumes a sorted queue.
- Routes.OldFormatRequestIsPacked: requires every request id to convert. The route's checks do not look at `request_id`, so a bad one raises inside the packer.
- Routes.NewFormatRequestIsPacked: requires the same of request ids, and that every quantity is an integer `range()` accepts.
- Routes.EntryCountIsTotalCopies: stated only for item lists wholly in the L/W/H format. The packer picks its format from the first item alone.
- Service.Utilization: the result is not proved to be at most 100. That needs the packed boxes to be disjoint inside the bin, together with a volume argument about disjoint boxes that is not modelled.
- Weights.CompareWithCopy: requires that no weight holds an array or object. JavaScript compares those by reference, and the model does not track references.
- Weights.UpdateWeightTable: states the default flag as equality with the stored default value, a JSON float. It does not compare against a re-parsed number.
- Export.ExportTrainingData: a scenario whose `items` is present but not an array counts 0 items. The source adds its `.length`: a string's length, or `NaN` for a number or object. Loaded training data always has item arrays, because validation requires them.
- Export.LengthOrZero: a truthy `length` that is not a number is taken as 0. JavaScript would concatenate it into `total_items`.
- ItemRoundTrip.ExportThenLoad: requires that no exported dimension or axis count is `0`. A `0` is falsy, so the reload's `||` fallbacks would replace or reject it.
- Viewport.DefaultEye: requires positive bin sides. The ratio divides by the shortest side, and the model has no infinite values.
- Viewport.DefaultCamera: requires positive bin sides, for the same reason.
- Weights.RandomizedWeights: uses the corrected generator, whose states stay in `[0, 2^31)`. The source as written leaves that range from a negative seed (Weights.RandomizedWeightsAsWritten, Lcg.NegativeSeedLeavesRange); the two agree from a non-negative seed (Weights.RandomizedAgreesOnNonNegativeSeed).
- Weights.RandomizedWithinBounds: holds of the corrected generator. For the source as written it is proved only from a non-negative seed (Weights.AsWrittenWithinBoundsOnNonNegativeSeed).
- Weights.ToNumber: a string, array or object is taken to give `NaN`. JavaScript's `Number()` would turn `"2"` into 2 and `[]` into 0. So the `difference` of a `compareWeights` entry with such a value is `NaN` here, where the source may give a number.
- Weights.TimesNumber: a weight that is a string or array is taken as `NaN`. JavaScript's `*` would convert a numeric string such as `"2"` to a number; that conversion is not modelled.
- ItemRegistry.ParseRecord: record fields are integers. A string or `null` `request_id`, a string or fractional dimension, and a `quantity` such as `"3"` or `2.5` are not represented, although the source loads them as given.
- ItemRegistry.LoadFromJson: loads only such integer records, for the same reason.
- Training.ValidateScenarioForAPI: the `<= 0` tests apply only to numbers. JavaScript converts a string or array before comparing, so `"-1"` is rejected by the source but accepted here; that conversion is not modelled.
- Playback.ImportStepData: only an integer `currentStep` moves the cursor. `goToStep` also accepts values such as `1.5`, `"1"`, `true` or `null` because its bounds test converts them; those are ignored here.
- Json.Lookup: a key that occurs twice in a document finds its first value. Python's `json` and JavaScript's `JSON.parse` keep the last one. The model takes an object's keys to be distinct, and `Object.keys` lists a repeated key once where `Json.Keys` lists it twice.
- Training.LoadKeepsConfigInRange: stated only for step and change values that parse. One that does not is stored as `NaN` (Training.LoadStoresNaNSteps).

## Findings

| source | as written | input that shows it | evidently intended | confidence | as-written member | corrected member |
|---|---|---|---|---|---|---|
| static/js/core/WeightManager.js:209-219 | The seed is used as the generator's state, and `%` keeps the sign of a negative dividend. | seed = -1, maxChange = 0.3: the first state is -1103502900 and the first change is below -0.3. | Every state lies in `[0, 2^31)`, so every change lies within ±maxChange. | medium, not executed | Lcg.NegativeSeedLeavesRange | Lcg.States |
| static/js/core/TrainingManager.js:36-40 | `steps < 1 \|\| steps > 20` lets `NaN` through, so it is stored without error. | `{num_steps: "abc"}`: parseInt gives NaN, and the config then holds NaN. Loading training data with that config stores it too (Training.LoadStoresNaNSteps). | A value that does not parse is rejected like any out-of-range value. | high, not executed | Training.NaNStepsAccepted | Training.UpdateKeepsConfigInRange |
| local_search_algorithm.py:556-561 | The final step holds NumPy arrays, which `jsonify` cannot serialise. | An L/W/H request with `algorithm_steps: true` and one item: the reply is a 500. | The snapshot holds plain lists, like the other steps. | high, not executed | Routes.AsWrittenFailsNewFormatWithSteps | Service.PackJsonFormat |
