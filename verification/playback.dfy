/** The step-playback cursor (`StepManager`): a list of recorded packing steps, a cursor that
    is `-1` before the first step, and a play flag. The repeating timer of the source is the
    explicit `Tick` operation; `playing` stands for both `isPlaying` and the live interval,
    which the source always sets and clears together. */
module Playback {
  import opened Wrappers
  import opened Json
  import Text

  const DefaultSpeed: int := 1000

  /** `speed` keeps whatever value the source stored (`stepSpeed` may be imported as any
      truthy JSON value). */
  datatype Player = Player(steps: seq<Value>, index: int, playing: bool, speed: Value)

  /** The cursor is `-1` or a step, and playback only runs while there are steps. */
  predicate Valid(p: Player)
  {
    && -1 <= p.index < |p.steps|
    && (p.playing ==> |p.steps| > 0)
  }

  /** The constructor. */
  function Initial(): (p: Player)
    ensures Valid(p) && p.steps == [] && p.index == -1 && !p.playing
  {
    Player([], -1, false, JInt(DefaultSpeed))
  }

  /** `pauseAnimation()`. */
  function Pause(p: Player): (q: Player)
    ensures !q.playing
    ensures q.steps == p.steps && q.index == p.index && q.speed == p.speed
    ensures Valid(p) ==> Valid(q)
  {
    p.(playing := false)
  }

  /** `setPackingSteps(steps)`: a copy of the array, or nothing for any other value; the
      cursor goes back before the first step and playback stops. */
  function SetPackingSteps(p: Player, steps: Value): (q: Player)
    ensures Valid(q)
    ensures q.steps == (if steps.JArr? then steps.elems else [])
    ensures q.index == -1 && !q.playing && q.speed == p.speed
  {
    Player(if steps.JArr? then steps.elems else [], -1, false, p.speed)
  }

  /** `getCurrentStep()`: the step under the cursor, `None` (`null`) before the first one. */
  function CurrentStep(p: Player): (r: Option<Value>)
    requires Valid(p)
    ensures r.Some? <==> p.index >= 0
    ensures r.Some? ==> r.value in p.steps
  {
    if p.index >= 0 then Some(p.steps[p.index]) else None
  }

  /** `previousStep()`: moves back one step, but never from the first step to `-1`. */
  function PreviousStep(p: Player): (r: (Player, bool))
    requires Valid(p)
    ensures Valid(r.0)
    ensures r.1 <==> p.index > 0
    ensures r.1 ==> r.0 == p.(index := p.index - 1)
    ensures !r.1 ==> r.0 == p
  {
    if p.index > 0 then (p.(index := p.index - 1), true) else (p, false)
  }

  /** `nextStep()`: moves forward one step while there is one. */
  function NextStep(p: Player): (r: (Player, bool))
    requires Valid(p)
    ensures Valid(r.0)
    ensures r.1 <==> p.index < |p.steps| - 1
    ensures r.1 ==> r.0 == p.(index := p.index + 1)
    ensures !r.1 ==> r.0 == p
  {
    if p.index < |p.steps| - 1 then (p.(index := p.index + 1), true) else (p, false)
  }

  /** `goToStep(i)`: accepts exactly the indices of existing steps; anything else, `-1`
      included, is refused with no change (there is no clamping). */
  function GoToStep(p: Player, i: int): (r: (Player, bool))
    requires Valid(p)
    ensures Valid(r.0)
    ensures r.1 <==> 0 <= i < |p.steps|
    ensures r.1 ==> r.0 == p.(index := i)
    ensures !r.1 ==> r.0 == p
  {
    if 0 <= i < |p.steps| then (p.(index := i), true) else (p, false)
  }

  /** `goToFirstStep()`. */
  function GoToFirstStep(p: Player): (r: (Player, bool))
    requires Valid(p)
    ensures r.1 <==> |p.steps| > 0
    ensures Valid(r.0) && r.0.steps == p.steps
    ensures r.1 ==> r.0.index == 0 && CurrentStep(r.0) == Some(p.steps[0])
  {
    GoToStep(p, 0)
  }

  /** `goToLastStep()`. */
  function GoToLastStep(p: Player): (r: (Player, bool))
    requires Valid(p)
    ensures r.1 <==> |p.steps| > 0
    ensures Valid(r.0) && r.0.steps == p.steps
    ensures r.1 ==> r.0.index == |p.steps| - 1 && !NextStep(r.0).1
  {
    GoToStep(p, |p.steps| - 1)
  }

  /** `isAtFirstStep()`. */
  predicate IsAtFirstStep(p: Player)
  {
    p.index == 0
  }

  /** `isAtLastStep()`: with no steps this compares `-1` with `-1` and holds. */
  predicate IsAtLastStep(p: Player)
  {
    p.index == |p.steps| - 1
  }

  /** `playAnimation()`: nothing happens without steps; at the last step playback restarts
      from before the first one. */
  function Play(p: Player): (q: Player)
    requires Valid(p)
    ensures Valid(q)
    ensures |p.steps| == 0 ==> q == p
    ensures |p.steps| > 0 ==> q.playing && q.steps == p.steps && q.speed == p.speed
    ensures |p.steps| > 0 && p.index >= |p.steps| - 1 ==> q.index == -1
    ensures p.index < |p.steps| - 1 ==> q.index == p.index
  {
    if |p.steps| == 0 then p
    else p.(playing := true, index := if p.index >= |p.steps| - 1 then -1 else p.index)
  }

  /** `togglePlayPause()`. */
  function Toggle(p: Player): (q: Player)
    requires Valid(p)
    ensures Valid(q)
    ensures p.playing ==> q == Pause(p)
    ensures !p.playing ==> q == Play(p)
  {
    if p.playing then Pause(p) else Play(p)
  }

  /** One firing of the interval: advance, and pause once there is no next step. Without a
      running interval nothing fires. */
  function Tick(p: Player): (q: Player)
    requires Valid(p)
    ensures Valid(q)
    ensures !p.playing ==> q == p
    ensures p.playing && p.index < |p.steps| - 1 ==> q == p.(index := p.index + 1)
    ensures p.playing && p.index >= |p.steps| - 1 ==> q == Pause(p)
  {
    if !p.playing then p
    else
      var (next, moved) := NextStep(p);
      if moved then next else Pause(next)
  }

  /** `n` firings of the interval. */
  function Ticks(p: Player, n: nat): (q: Player)
    requires Valid(p)
    ensures Valid(q)
    decreases n
  {
    if n == 0 then p else Ticks(Tick(p), n - 1)
  }

  /** `updateStepSpeed()`: `sliderPresent` says whether the speed slider exists and `parsed`
      is `parseInt` of its value (`None` for `NaN`); `0` and `NaN` fall back to 1000 ms. A
      running playback is paused and started again. */
  function UpdateStepSpeed(p: Player, sliderPresent: bool, parsed: Option<int>): (q: Player)
    requires Valid(p)
    ensures Valid(q)
    ensures !sliderPresent ==> q == p
    ensures sliderPresent ==> q.speed == JInt(OrElse(parsed, DefaultSpeed)) && q.steps == p.steps
    ensures sliderPresent && !p.playing ==> q == p.(speed := q.speed)
    ensures sliderPresent && p.playing ==> q == Play(Pause(p).(speed := q.speed))
  {
    if !sliderPresent then p
    else
      var r := p.(speed := JInt(OrElse(parsed, DefaultSpeed)));
      if r.playing then Play(Pause(r)) else r
  }

  /** `reset()` (and `destroy()`, which pauses first and then resets). */
  function Reset(p: Player): (q: Player)
    ensures Valid(q)
    ensures q.steps == [] && q.index == -1 && !q.playing && q.speed == p.speed
  {
    Player([], -1, false, p.speed)
  }

  /** What `updateStepControls` and `updatePlayPauseButton` put on the page. */
  datatype Controls = Controls(prevDisabled: bool, nextDisabled: bool, playDisabled: bool,
                               showsPause: bool, caption: string)

  /** The step label: "Step k of n", where `k` is the 1-based step and a cursor before the first
      step shows as step 1. */
  function StepLabel(p: Player): string
  {
    if |p.steps| > 0 then
      "Step " + Text.IntToString(if p.index + 1 > 1 then p.index + 1 else 1) + " of " + Text.IntToString(|p.steps|)
    else "No steps available"
  }

  function ControlsOf(p: Player): (c: Controls)
    ensures c.caption == StepLabel(p)
    ensures c.showsPause == p.playing
  {
    Controls(p.index <= 0, p.index >= |p.steps| - 1, |p.steps| == 0, p.playing, StepLabel(p))
  }

  /** The buttons are disabled exactly when the operation behind them would do nothing: the
      previous/next buttons when `previousStep`/`nextStep` would fail, the play button when
      `playAnimation` would leave a paused player as it is. */
  lemma ControlsMatchOperations(p: Player)
    requires Valid(p)
    ensures ControlsOf(p).prevDisabled <==> !PreviousStep(p).1
    ensures ControlsOf(p).nextDisabled <==> !NextStep(p).1
    ensures ControlsOf(p).playDisabled <==> Play(p.(playing := false)) == p.(playing := false)
  {
    var p' := p.(playing := false);
    if |p.steps| > 0 {
      assert Play(p').playing;
    }
  }

  /** The label names a step between 1 and the number of steps, and that number is the
      1-based position of the cursor whenever the cursor is on a step. */
  lemma LabelShowsStep(p: Player)
    requires Valid(p) && |p.steps| > 0
    ensures exists k :: 1 <= k <= |p.steps| && (p.index >= 0 ==> k == p.index + 1) &&
                        StepLabel(p) == "Step " + Text.IntToString(k) + " of " + Text.IntToString(|p.steps|)
  {
    var k := if p.index + 1 > 1 then p.index + 1 else 1;
    assert StepLabel(p) == "Step " + Text.IntToString(k) + " of " + Text.IntToString(|p.steps|);
  }

  datatype Statistics = Statistics(totalSteps: nat, currentStep: nat, progress: real, itemsPlaced: Option<Value>)

  /** `getStepStatistics()`. `itemsPlaced` is the `length` of the current step (`undefined`
      for a step that is an object); `None` overall is the `TypeError` of a `null` step. */
  function StepStatistics(p: Player): (r: Option<Statistics>)
    requires Valid(p)
    ensures |p.steps| == 0 ==> r == Some(Statistics(0, 0, 0.0, Some(JInt(0))))
    ensures |p.steps| > 0 ==> (r.None? <==> p.steps[if p.index > 0 then p.index else 0].JNull?)
    ensures r.Some? && |p.steps| > 0 ==>
              && r.value.totalSteps == |p.steps|
              && 1 <= r.value.currentStep <= |p.steps|
              && (p.index >= 0 ==> r.value.currentStep == p.index + 1)
              && 0.0 < r.value.progress <= 100.0
  {
    if |p.steps| == 0 then Some(Statistics(0, 0, 0.0, Some(JInt(0))))
    else
      var current := if p.index > 0 then p.index else 0;
      var step := p.steps[current];
      if step.JNull? then None
      else
        var n := |p.steps|;
        var progress := (current + 1) as real / n as real * 100.0;
        assert progress <= 100.0 by {
          assert (current + 1) as real <= n as real;
          assert (current + 1) as real / n as real <= 1.0;
        }
        Some(Statistics(n, current + 1, progress, JsGet(step, "length")))
  }

  /** `exportStepData()`. */
  function ExportStepData(p: Player): Value
  {
    JObj([("steps", JArr(p.steps)), ("currentStep", JInt(p.index)), ("totalSteps", JInt(|p.steps|)),
          ("stepSpeed", p.speed), ("isPlaying", JBool(p.playing))])
  }

  /** An integral JSON number (JavaScript has one number type, so `2.0` is `2`). */
  function AsIndex(v: Value): (r: Option<int>)
    ensures v.JInt? ==> r == Some(v.i)
  {
    match v
    case JInt(i) => Some(i)
    case JFloat(x) => if x.Floor as real == x then Some(x.Floor) else None
    case _ => None
  }

  datatype StepImportError = InvalidStepData

  /** `importStepData(data)`: `data.steps` must be an array; a truthy `stepSpeed` is taken as
      is; a non-negative integral `currentStep` is passed to `goToStep`, which may refuse it. */
  function ImportStepData(p: Player, data: Value): (r: Result<Player, StepImportError>)
    requires Valid(p)
    ensures r.Err? <==> !JsTruthy(data) || JsGet(data, "steps").None? || !JsGet(data, "steps").value.JArr?
    ensures r.Ok? ==> Valid(r.value) && !r.value.playing && r.value.steps == JsGet(data, "steps").value.elems
    ensures r.Ok? && JsGet(data, "stepSpeed").Some? && JsTruthy(JsGet(data, "stepSpeed").value) ==>
              r.value.speed == JsGet(data, "stepSpeed").value
    ensures r.Ok? && !(JsGet(data, "stepSpeed").Some? && JsTruthy(JsGet(data, "stepSpeed").value)) ==>
              r.value.speed == p.speed
    ensures r.Ok? ==>
              (r.value.index >= 0 <==> JsGet(data, "currentStep").Some? && AsIndex(JsGet(data, "currentStep").value).Some?
                                       && 0 <= AsIndex(JsGet(data, "currentStep").value).value < |r.value.steps|)
    ensures r.Ok? && r.value.index >= 0 ==> r.value.index == AsIndex(JsGet(data, "currentStep").value).value
  {
    if !JsTruthy(data) then Err(InvalidStepData)
    else
      var steps := JsGet(data, "steps");
      if steps.None? || !steps.value.JArr? then Err(InvalidStepData)
      else
        var q := SetPackingSteps(p, steps.value);
        var speed := JsGet(data, "stepSpeed");
        var q := if speed.Some? && JsTruthy(speed.value) then q.(speed := speed.value) else q;
        var cur := JsGet(data, "currentStep");
        if cur.Some? && AsIndex(cur.value).Some? && AsIndex(cur.value).value >= 0 then
          Ok(GoToStep(q, AsIndex(cur.value).value).0)
        else Ok(q)
  }

  /** Importing an export restores the steps and the cursor, stopped, with the exported speed
      when it is truthy. */
  lemma ImportOfExport(p: Player, into: Player)
    requires Valid(p) && Valid(into)
    ensures ImportStepData(into, ExportStepData(p)).Ok?
    ensures var q := ImportStepData(into, ExportStepData(p)).value;
            && q.steps == p.steps && q.index == p.index && !q.playing
            && q.speed == (if JsTruthy(p.speed) then p.speed else into.speed)
  {
    ExportedFields(p);
    ImportOfFields(into, ExportStepData(p), p.steps, p.index, p.speed);
  }

  /** Importing an object whose steps, cursor and speed read back as given restores them. */
  lemma ImportOfFields(into: Player, data: Value, steps: seq<Value>, index: int, speed: Value)
    requires Valid(into) && data.JObj? && -1 <= index < |steps|
    requires JsGet(data, "steps") == Some(JArr(steps))
    requires JsGet(data, "currentStep") == Some(JInt(index))
    requires JsGet(data, "stepSpeed") == Some(speed)
    ensures ImportStepData(into, data).Ok?
    ensures var q := ImportStepData(into, data).value;
            && q.steps == steps && q.index == index && !q.playing
            && q.speed == (if JsTruthy(speed) then speed else into.speed)
  {
    var q := ImportStepData(into, data).value;
    assert q.index >= 0 <==> index >= 0;
  }

  /** The fields `importStepData` reads back from an export. */
  lemma ExportedFields(p: Player)
    ensures JsGet(ExportStepData(p), "steps") == Some(JArr(p.steps))
    ensures JsGet(ExportStepData(p), "currentStep") == Some(JInt(p.index))
    ensures JsGet(ExportStepData(p), "stepSpeed") == Some(p.speed)
  {
    ExportedSteps(p);
    ExportedCurrentStep(p);
    ExportedSpeed(p);
  }

  lemma ExportedSteps(p: Player)
    ensures JsGet(ExportStepData(p), "steps") == Some(JArr(p.steps))
  {
    Json.LookupAt(ExportStepData(p).fields, 0);
  }

  lemma ExportedCurrentStep(p: Player)
    ensures JsGet(ExportStepData(p), "currentStep") == Some(JInt(p.index))
  {
    Json.LookupAt(ExportStepData(p).fields, 1);
  }

  lemma ExportedSpeed(p: Player)
    ensures JsGet(ExportStepData(p), "stepSpeed") == Some(p.speed)
  {
    var f := ExportStepData(p).fields;
    assert f[0].0 != "stepSpeed" && f[1].0 != "stepSpeed" && f[2].0 != "stepSpeed";
    Json.LookupAt(f, 3);
  }

  /** Once started, playback visits every remaining step one tick at a time and then stops on
      the last step: from a started player at cursor `i`, `|steps| - i` ticks end paused at
      the last step. */
  lemma {:induction false} TicksRunToEnd(p: Player)
    requires Valid(p) && p.playing
    ensures var q := Ticks(p, |p.steps| - p.index);
            q.index == |p.steps| - 1 && !q.playing && q.steps == p.steps && q.speed == p.speed
    decreases |p.steps| - p.index
  {
    if p.index < |p.steps| - 1 {
      var t := Tick(p);
      assert t == p.(index := p.index + 1);
      TicksRunToEnd(t);
      assert Ticks(p, |p.steps| - p.index) == Ticks(t, |t.steps| - t.index);
    } else {
      assert Ticks(p, |p.steps| - p.index) == Ticks(Tick(p), 0);
    }
  }

  /** Playing from any position shows every step from the first: a player started at the last
      step (or before the first) restarts at `-1` and after `|steps| + 1` ticks has stopped
      on the last step. */
  lemma PlayFromEndReplaysAll(p: Player)
    requires Valid(p) && |p.steps| > 0 && p.index == |p.steps| - 1
    ensures Play(p).index == -1
    ensures var q := Ticks(Play(p), |p.steps| + 1);
            q.index == |p.steps| - 1 && !q.playing
  {
    TicksRunToEnd(Play(p));
  }

  /** Pausing twice is pausing once. */
  lemma PauseIdempotent(p: Player)
    ensures Pause(Pause(p)) == Pause(p)
  {
  }

  /** Toggling flips the play state whenever there are steps, and toggling twice from a
      running player leaves it running at the same step unless it was on the last one. */
  lemma ToggleFlips(p: Player)
    requires Valid(p) && |p.steps| > 0
    ensures Toggle(p).playing == !p.playing
    ensures p.playing && p.index < |p.steps| - 1 ==> Toggle(Toggle(p)) == p
  {
  }

  /** Every operation keeps the cursor in `[-1, |steps| - 1]` and never lets playback run
      without steps. */
  lemma OperationsKeepValid(p: Player, steps: Value, i: int, sliderPresent: bool, parsed: Option<int>, data: Value)
    requires Valid(p)
    ensures Valid(SetPackingSteps(p, steps)) && Valid(Reset(p)) && Valid(Pause(p))
    ensures Valid(PreviousStep(p).0) && Valid(NextStep(p).0) && Valid(GoToStep(p, i).0)
    ensures Valid(Play(p)) && Valid(Toggle(p)) && Valid(Tick(p))
    ensures Valid(UpdateStepSpeed(p, sliderPresent, parsed))
    ensures ImportStepData(p, data).Ok? ==> Valid(ImportStepData(p, data).value)
  {
  }

  /** `previousStep` never brings the cursor back to `-1`: the only way to `-1` is a reset,
      new steps, an import, or restarting playback at the end. */
  lemma PreviousNeverReachesMinusOne(p: Player)
    requires Valid(p)
    ensures PreviousStep(p).0.index == -1 ==> p.index == -1
  {
  }
}
