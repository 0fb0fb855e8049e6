/** The camera keeper (`CameraManager`): a saved camera that is either unset or a record of
    three JSON vectors, the default camera derived from the bin's proportions, and the rule
    that decides whether a change of bin size discards the saved camera. The live plot camera
    and relayout events are inputs; timers and the DOM are not modelled. */
module Viewport {
  import opened Wrappers
  import opened Json
  import Text

  /** A camera as Plotly takes it: `eye`, `center` and `up`, each an object with `x`, `y`, `z`
      when it comes from this code, and whatever the plot or the caller supplied otherwise. */
  datatype Camera = Camera(eye: Value, center: Value, up: Value)

  datatype Vec3 = Vec3(x: real, y: real, z: real)

  /** A vector of numbers as the JSON object `{x, y, z}`. */
  function VecValue(v: Vec3): Value
  {
    JObj([("x", JFloat(v.x)), ("y", JFloat(v.y)), ("z", JFloat(v.z))])
  }

  /** The camera as the object `{eye, center, up}`. */
  function CameraValue(c: Camera): Value
  {
    JObj([("eye", c.eye), ("center", c.center), ("up", c.up)])
  }

  /** `{ ...v }`: own enumerable properties copied into a new object. Arrays and strings
      contribute their indices; other primitives contribute nothing. */
  function Spread(v: Value): (r: Value)
    ensures r.JObj?
    ensures v.JObj? ==> r == v
  {
    match v
    case JObj(f) => JObj(f)
    case JArr(e) => JObj(seq(|e|, i requires 0 <= i < |e| => (Text.NatToString(i), e[i])))
    case JStr(s) => JObj(seq(|s|, i requires 0 <= i < |s| => (Text.NatToString(i), JStr([s[i]]))))
    case _ => JObj([])
  }

  datatype Bin = Bin(length: real, width: real, height: real)

  predicate PositiveBin(b: Bin)
  {
    b.length > 0.0 && b.width > 0.0 && b.height > 0.0
  }

  function Max(a: real, b: real): real
  {
    if a >= b then a else b
  }

  function Min(a: real, b: real): real
  {
    if a <= b then a else b
  }

  lemma QuotientAtLeastOne(a: real, b: real)
    requires a >= b > 0.0
    ensures a / b >= 1.0
  {
    var q := a / b;
    assert q * b == a;
  }

  datatype AspectRatio = AspectRatio(ratio: real, isWide: bool, isTall: bool, isLong: bool, isBalanced: bool)

  /** `calculateAspectRatio(binSize)`: longest over shortest side, and which side (if any)
      stands out by more than half again the others. */
  function CalculateAspectRatio(b: Bin): (a: AspectRatio)
    requires PositiveBin(b)
    ensures a.ratio >= 1.0
    ensures a.isBalanced <==> a.ratio < 2.0
    ensures a.isWide ==> b.width > b.length && b.width >= b.height
    ensures a.isTall ==> b.height > b.length && b.height > b.width
    ensures a.isLong ==> b.length > b.width && b.length > b.height
  {
    var maxDim := Max(Max(b.length, b.width), b.height);
    var minDim := Min(Min(b.length, b.width), b.height);
    var ratio := maxDim / minDim;
    QuotientAtLeastOne(maxDim, minDim);
    AspectRatio(ratio,
                b.width == maxDim && b.width > b.length * 1.5,
                b.height == maxDim && b.height > Max(b.length, b.width) * 1.5,
                b.length == maxDim && b.length > Max(b.width, b.height) * 1.5,
                ratio < 2.0)
  }

  /** At most one side of a bin stands out. */
  lemma AtMostOneElongation(b: Bin)
    requires PositiveBin(b)
    ensures var a := CalculateAspectRatio(b);
            !(a.isWide && a.isTall) && !(a.isWide && a.isLong) && !(a.isTall && a.isLong)
  {
  }

  const DefaultComponent: real := 1.5

  /** The eye position of `getDefaultCamera`: 1.5 on every axis, except that the axis of a
      side that stands out (tested wide, then tall, then long) moves out to
      `max(1.5, 1.2 * ratio)`. */
  function DefaultEye(b: Bin): (eye: Vec3)
    requires PositiveBin(b)
    ensures var a := CalculateAspectRatio(b);
            var far := Max(DefaultComponent, a.ratio * 1.2);
            && eye.x == (if a.isLong then far else DefaultComponent)
            && eye.y == (if a.isWide then far else DefaultComponent)
            && eye.z == (if a.isTall then far else DefaultComponent)
  {
    AtMostOneElongation(b);
    var a := CalculateAspectRatio(b);
    var far := Max(DefaultComponent, a.ratio * 1.2);
    if a.isWide then Vec3(DefaultComponent, far, DefaultComponent)
    else if a.isTall then Vec3(DefaultComponent, DefaultComponent, far)
    else if a.isLong then Vec3(far, DefaultComponent, DefaultComponent)
    else Vec3(DefaultComponent, DefaultComponent, DefaultComponent)
  }

  const DefaultCenter: Vec3 := Vec3(0.5, 0.5, 0.5)

  /** `up` is `{x: 0, y: 0, z: 1}` with integer literals. */
  const DefaultUp: Value := JObj([("x", JInt(0)), ("y", JInt(0)), ("z", JInt(1))])

  /** `getDefaultCamera(binSize)`. */
  function DefaultCamera(b: Bin): (c: Camera)
    requires PositiveBin(b)
    ensures c.eye == VecValue(DefaultEye(b)) && c.center == VecValue(DefaultCenter) && c.up == DefaultUp
  {
    Camera(VecValue(DefaultEye(b)), VecValue(DefaultCenter), DefaultUp)
  }

  /** The default eye never moves closer than 1.5 and moves on at most one axis; a balanced-
      looking bin (no side standing out) keeps the eye at (1.5, 1.5, 1.5). */
  lemma DefaultEyeShape(b: Bin)
    requires PositiveBin(b)
    ensures var e := DefaultEye(b);
            && e.x >= 1.5 && e.y >= 1.5 && e.z >= 1.5
            && ((e.x != 1.5 ==> e.y == 1.5 && e.z == 1.5) && (e.y != 1.5 ==> e.x == 1.5 && e.z == 1.5))
    ensures var a := CalculateAspectRatio(b);
            !a.isWide && !a.isTall && !a.isLong ==> DefaultEye(b) == Vec3(1.5, 1.5, 1.5)
  {
    AtMostOneElongation(b);
  }

  /** A cube is looked at from (1.5, 1.5, 1.5). */
  lemma CubeEye(side: real)
    requires side > 0.0
    ensures DefaultEye(Bin(side, side, side)) == Vec3(1.5, 1.5, 1.5)
  {
  }

  /** The layout `getLayoutWithCamera` produces, without its fixed styling. */
  datatype Layout = Layout(camera: Camera, xRange: (real, real), yRange: (real, real), zRange: (real, real), title: string)

  /** `getLayoutWithCamera(binSize, title)`: the saved camera if there is one, else the default
      for this bin; each axis spans the bin. */
  function LayoutWithCamera(saved: Option<Camera>, b: Bin, title: string): (l: Layout)
    requires saved.None? ==> PositiveBin(b)
    ensures saved.Some? ==> l.camera == saved.value
    ensures saved.None? ==> l.camera == DefaultCamera(b)
    ensures l.xRange == (0.0, b.length) && l.yRange == (0.0, b.width) && l.zRange == (0.0, b.height)
    ensures l.title == title
  {
    var camera := if saved.Some? then saved.value else DefaultCamera(b);
    Layout(camera, (0.0, b.length), (0.0, b.width), (0.0, b.height), title)
  }

  /** A truthy property of a JSON value. */
  predicate HasTruthy(v: Value, key: string)
  {
    JsGet(v, key).Some? && JsTruthy(JsGet(v, key).value)
  }

  /** The copy the source takes of a plot camera whose `eye`, `center` and `up` are all truthy;
      `None` otherwise. */
  function Captured(camera: Value): (r: Option<Camera>)
    ensures r.Some? <==> HasTruthy(camera, "eye") && HasTruthy(camera, "center") && HasTruthy(camera, "up")
    ensures r.Some? ==> r.value == Camera(Spread(JsGet(camera, "eye").value), Spread(JsGet(camera, "center").value),
                                          Spread(JsGet(camera, "up").value))
  {
    if HasTruthy(camera, "eye") && HasTruthy(camera, "center") && HasTruthy(camera, "up") then
      Some(Camera(Spread(JsGet(camera, "eye").value), Spread(JsGet(camera, "center").value),
                  Spread(JsGet(camera, "up").value)))
    else None
  }

  /** `getCurrentCameraState()`. `plotCamera` is `plotDiv._fullLayout.scene.camera`, `None` when
      the plot, its layout, its scene or its camera is missing. */
  function CurrentCameraState(plotCamera: Option<Value>): (r: Option<Camera>)
    ensures r.Some? ==> plotCamera.Some? && Captured(plotCamera.value) == r
    ensures plotCamera.Some? && JsTruthy(plotCamera.value) ==> r == Captured(plotCamera.value)
  {
    if plotCamera.Some? && JsTruthy(plotCamera.value) then Captured(plotCamera.value) else None
  }

  /** `backupCurrentCameraState()` and `preserveCameraForVisualization()`: the live camera
      replaces the saved one when it is complete; otherwise nothing changes. */
  function Backup(saved: Option<Camera>, plotCamera: Option<Value>): (r: Option<Camera>)
    ensures CurrentCameraState(plotCamera).Some? ==> r == CurrentCameraState(plotCamera)
    ensures CurrentCameraState(plotCamera).None? ==> r == saved
  {
    var live := CurrentCameraState(plotCamera);
    if live.Some? then live else saved
  }

  /** `forceSaveCameraState()`: as `Backup`, and reports whether it saved. */
  function ForceSave(saved: Option<Camera>, plotCamera: Option<Value>): (r: (Option<Camera>, bool))
    ensures r.1 <==> CurrentCameraState(plotCamera).Some?
    ensures r.0 == Backup(saved, plotCamera)
  {
    var live := CurrentCameraState(plotCamera);
    if live.Some? then (live, true) else (saved, false)
  }

  /** The `plotly_relayout` handler: a truthy `scene.camera` entry with a complete camera
      replaces the saved one. */
  function Relayout(saved: Option<Camera>, event: Value): (r: Option<Camera>)
    ensures HasTruthy(event, "scene.camera") && Captured(JsGet(event, "scene.camera").value).Some? ==>
              r == Captured(JsGet(event, "scene.camera").value)
    ensures !(HasTruthy(event, "scene.camera") && Captured(JsGet(event, "scene.camera").value).Some?) ==> r == saved
  {
    if HasTruthy(event, "scene.camera") then
      var c := Captured(JsGet(event, "scene.camera").value);
      if c.Some? then c else saved
    else saved
  }

  /** A vector `validateCameraState` accepts: an object whose `x`, `y`, `z` are numbers. */
  predicate IsValidVector(v: Option<Value>)
  {
    v.Some? && JsTruthy(v.value) && IsJsObject(v.value)
    && IsNumberProp(v.value, "x") && IsNumberProp(v.value, "y") && IsNumberProp(v.value, "z")
  }

  predicate IsNumberProp(v: Value, key: string)
  {
    JsGet(v, key).Some? && IsNumber(JsGet(v, key).value)
  }

  /** `validateCameraState(state)`. */
  predicate ValidateCameraState(state: Value)
  {
    JsTruthy(state) && IsJsObject(state)
    && IsValidVector(JsGet(state, "eye")) && IsValidVector(JsGet(state, "center")) && IsValidVector(JsGet(state, "up"))
  }

  /** `setCameraState(state)`: stores copies of the three vectors when the state validates;
      otherwise refuses and keeps the saved camera. */
  function SetCameraState(saved: Option<Camera>, state: Value): (r: (Option<Camera>, bool))
    ensures r.1 <==> ValidateCameraState(state)
    ensures !r.1 ==> r.0 == saved
    ensures r.1 ==> r.0 == Some(Camera(JsGet(state, "eye").value, JsGet(state, "center").value, JsGet(state, "up").value))
  {
    if ValidateCameraState(state) then
      (Some(Camera(Spread(JsGet(state, "eye").value), Spread(JsGet(state, "center").value),
                   Spread(JsGet(state, "up").value))), true)
    else (saved, false)
  }

  /** The fields of a camera object read back as stored. */
  lemma CameraValueFields(c: Camera)
    ensures JsGet(CameraValue(c), "eye") == Some(c.eye)
    ensures JsGet(CameraValue(c), "center") == Some(c.center)
    ensures JsGet(CameraValue(c), "up") == Some(c.up)
  {
    var f := CameraValue(c).fields;
    Json.LookupAt(f, 0);
    Json.LookupAt(f, 1);
    Json.LookupAt(f, 2);
  }

  lemma VecValueValid(v: Vec3)
    ensures IsValidVector(Some(VecValue(v)))
  {
    NumbersObjectValid(JFloat(v.x), JFloat(v.y), JFloat(v.z));
  }

  /** An object of three numbers under `x`, `y` and `z` is a valid vector. */
  lemma NumbersObjectValid(a: Value, b: Value, c: Value)
    requires IsNumber(a) && IsNumber(b) && IsNumber(c)
    ensures IsValidVector(Some(JObj([("x", a), ("y", b), ("z", c)])))
  {
    var f := [("x", a), ("y", b), ("z", c)];
    Json.LookupAt(f, 0);
    Json.LookupAt(f, 1);
    Json.LookupAt(f, 2);
  }

  lemma DefaultUpValid()
    ensures IsValidVector(Some(DefaultUp))
  {
    NumbersObjectValid(JInt(0), JInt(0), JInt(1));
  }

  /** The default camera passes `validateCameraState`, and setting it stores it unchanged. */
  lemma DefaultCameraSets(saved: Option<Camera>, b: Bin)
    requires PositiveBin(b)
    ensures ValidateCameraState(CameraValue(DefaultCamera(b)))
    ensures SetCameraState(saved, CameraValue(DefaultCamera(b))) == (Some(DefaultCamera(b)), true)
  {
    var c := DefaultCamera(b);
    VecValueValid(DefaultEye(b));
    VecValueValid(DefaultCenter);
    DefaultUpValid();
    ValidCameraSets(saved, c);
  }

  /** A camera whose three vectors are valid passes `validateCameraState` and is stored
      unchanged. */
  lemma ValidCameraSets(saved: Option<Camera>, c: Camera)
    requires IsValidVector(Some(c.eye)) && IsValidVector(Some(c.center)) && IsValidVector(Some(c.up))
    ensures ValidateCameraState(CameraValue(c))
    ensures SetCameraState(saved, CameraValue(c)) == (Some(c), true)
  {
    CameraValueFields(c);
  }

  /** A camera stored by `setCameraState`, written out and set again, is stored unchanged. */
  lemma SetCameraStateRoundTrip(saved: Option<Camera>, other: Option<Camera>, state: Value)
    requires SetCameraState(saved, state).1
    ensures var c := SetCameraState(saved, state).0.value;
            SetCameraState(other, CameraValue(c)) == (Some(c), true)
  {
    var c := SetCameraState(saved, state).0.value;
    CameraValueFields(c);
  }

  /** `clearSavedState()` (also `destroy()`). */
  function ClearSavedState(): (r: Option<Camera>)
    ensures r.None?
  {
    None
  }

  /** `resetToDefault(binSize)`: stores the default camera for the bin and returns it. */
  function ResetToDefault(b: Bin): (r: (Option<Camera>, Camera))
    requires PositiveBin(b)
    ensures r.0 == Some(r.1) && r.1 == DefaultCamera(b)
  {
    var c := DefaultCamera(b);
    (Some(c), c)
  }

  /** After a reset the layout shows the default camera, as it does with no saved camera. */
  lemma ResetMatchesUnsetLayout(b: Bin, title: string)
    requires PositiveBin(b)
    ensures LayoutWithCamera(ResetToDefault(b).0, b, title) == LayoutWithCamera(ClearSavedState(), b, title)
  {
  }

  /** A JavaScript number that may be infinite or `NaN`, as division produces it. */
  datatype Ratio = Finite(r: real) | Infinite | NotANumber

  /** `Math.abs(n - o) / o`. Dividing a non-zero amount by zero is `Infinity`, zero by zero is
      `NaN`. */
  function RelativeChange(o: real, n: real): (r: Ratio)
    ensures o != 0.0 ==> r.Finite?
    ensures o == 0.0 ==> (r.NotANumber? <==> n == 0.0)
  {
    var d := if n >= o then n - o else o - n;
    if o != 0.0 then Finite(d / o)
    else if d == 0.0 then NotANumber
    else Infinite
  }

  /** `Math.max(a, b, c)`: `NaN` when any argument is `NaN`, else `Infinity` when any is. */
  function MaxRatio(a: Ratio, b: Ratio, c: Ratio): Ratio
  {
    if a.NotANumber? || b.NotANumber? || c.NotANumber? then NotANumber
    else if a.Infinite? || b.Infinite? || c.Infinite? then Infinite
    else Finite(Max(Max(a.r, b.r), c.r))
  }

  /** `x > 0.5` for such a number. */
  predicate AboveHalf(x: Ratio)
  {
    match x
    case Finite(r) => r > 0.5
    case Infinite => true
    case NotANumber => false
  }

  /** `shouldResetCamera(oldBinSize, newBinSize)`: always when either size is missing;
      otherwise when the largest relative change of a side exceeds one half. */
  function ShouldResetCamera(before: Option<Bin>, after: Option<Bin>): (r: bool)
    ensures before.None? || after.None? ==> r
  {
    if before.None? || after.None? then true
    else
      var o := before.value;
      var n := after.value;
      AboveHalf(MaxRatio(RelativeChange(o.length, n.length), RelativeChange(o.width, n.width),
                         RelativeChange(o.height, n.height)))
  }

  /** For bins with positive sides, the camera is reset exactly when some side changes by more
      than half its old length. */
  lemma ShouldResetPositive(o: Bin, n: Bin)
    requires PositiveBin(o)
    ensures ShouldResetCamera(Some(o), Some(n)) <==>
              (n.length - o.length > 0.5 * o.length || o.length - n.length > 0.5 * o.length ||
               n.width - o.width > 0.5 * o.width || o.width - n.width > 0.5 * o.width ||
               n.height - o.height > 0.5 * o.height || o.height - n.height > 0.5 * o.height)
  {
    RatioAboveHalf(o.length, n.length);
    RatioAboveHalf(o.width, n.width);
    RatioAboveHalf(o.height, n.height);
  }

  lemma RatioAboveHalf(o: real, n: real)
    requires o > 0.0
    ensures AboveHalf(RelativeChange(o, n)) <==> (n - o > 0.5 * o || o - n > 0.5 * o)
  {
    var d := if n >= o then n - o else o - n;
    assert RelativeChange(o, n).r == d / o;
    QuotientAboveHalf(d, o);
  }

  lemma QuotientAboveHalf(d: real, o: real)
    requires o > 0.0
    ensures d / o > 0.5 <==> d > 0.5 * o
  {
    var q := d / o;
    assert q * o == d;
    if q > 0.5 {
      assert q * o - 0.5 * o == (q - 0.5) * o;
    } else {
      assert 0.5 * o - q * o == (0.5 - q) * o;
    }
  }

  /** The same size never resets the camera, whatever its sides (a zero side gives `NaN`,
      which compares false). */
  lemma SameSizeKeepsCamera(b: Bin)
    ensures !ShouldResetCamera(Some(b), Some(b))
  {
  }
}
