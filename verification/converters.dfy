/**
 * The WPF value converters of the editor windows. A binding hands a
 * converter an untyped `object`; here that object is a tagged union of the
 * shapes the converters tell apart (a boxed `bool`, a boxed `int`, a string,
 * a `Visibility`, `null`) plus a catch-all for every other type.
 */
module Converters {
  import opened Basics
  import opened Text

  datatype Visibility = Visible | Collapsed

  /** A boxed value as a binding passes it. `Other(tag)` is any further type. */
  datatype Value =
    | BoolV(b: bool)
    | IntV(i: int32)
    | StrV(s: string)
    | VisibilityV(v: Visibility)
    | Null
    | Other(tag: nat)

  // ------------------------------------------------------------ InverseBoolConverter

  /** `InverseBoolConverter.Convert`: a bool is negated, anything else passes through. */
  function InverseBool(v: Value): (r: Value)
    ensures r.BoolV? <==> v.BoolV?
    ensures v.BoolV? ==> r.b == !v.b
    ensures !v.BoolV? ==> r == v
  {
    match v
    case BoolV(b) => BoolV(!b)
    case _ => v
  }

  /** `InverseBoolConverter.ConvertBack`: the same negation in the other direction. */
  function InverseBoolBack(v: Value): (r: Value)
    ensures r.BoolV? <==> v.BoolV?
    ensures v.BoolV? ==> r.b == !v.b
    ensures !v.BoolV? ==> r == v
  {
    match v
    case BoolV(b) => BoolV(!b)
    case _ => v
  }

  /** A two-way binding through the converter gives back what it was given, both ways round. */
  lemma InverseBoolRoundTrip(v: Value)
    ensures InverseBoolBack(InverseBool(v)) == v
    ensures InverseBool(InverseBoolBack(v)) == v
  {
  }

  // ------------------------------------------------------------ StartStopTextConverter

  const StopLabel: string := "Stop (F4)"
  const StartLabel: string := "Start (F4)"

  /** `StartStopTextConverter.Convert`: the run button's caption. */
  function StartStopText(v: Value): (r: string)
    ensures r == StopLabel <==> v == BoolV(true)
    ensures r == StartLabel <==> v != BoolV(true)
  {
    match v
    case BoolV(isRunning) => if isRunning then StopLabel else StartLabel
    case _ => StartLabel
  }

  /** The caption tells a running state from an idle one. */
  lemma StartStopTextSeparates(a: bool, b: bool)
    ensures StartStopText(BoolV(a)) == StartStopText(BoolV(b)) <==> a == b
  {
  }

  // ------------------------------------------------------------ InverseBoolToVisibilityConverter

  /** `InverseBoolToVisibilityConverter.Convert`: true hides the element; anything else shows it. */
  function InverseBoolToVisibility(v: Value): (r: Visibility)
    ensures r == Collapsed <==> v == BoolV(true)
  {
    match v
    case BoolV(b) => if b then Collapsed else Visible
    case _ => Visible
  }

  // ------------------------------------------------------------ RecordButtonTextConverter

  const StopRecordingLabel: string := "Stop Recording"
  const RecordLabel: string := "Record"

  /** `RecordButtonTextConverter.Convert`: the record button's caption. */
  function RecordButtonText(v: Value): (r: string)
    ensures r == StopRecordingLabel <==> v == BoolV(true)
    ensures r == RecordLabel <==> v != BoolV(true)
  {
    match v
    case BoolV(isRecording) => if isRecording then StopRecordingLabel else RecordLabel
    case _ => RecordLabel
  }

  // ------------------------------------------------------------ IndexToVisibilityConverter

  /**
   * `IndexToVisibilityConverter.Convert`: with an `int` value and a string
   * parameter that `int.TryParse` accepts, the element is visible exactly
   * when the two are equal; in every other case it is visible.
   */
  function IndexToVisibility(value: Value, parameter: Value): (r: Visibility)
    ensures r == Collapsed <==>
      value.IntV? && parameter.StrV? && TryParseInt(parameter.s).Some?
      && TryParseInt(parameter.s).value != value.i
  {
    if value.IntV? && parameter.StrV? && TryParseInt(parameter.s).Some? then
      if value.i == TryParseInt(parameter.s).value then Visible else Collapsed
    else Visible
  }

  /**
   * A tab page tagged with the decimal rendering of index `j` is shown
   * exactly when the selected index is `j`.
   */
  lemma IndexToVisibilityOfTag(i: int32, j: int32)
    ensures IndexToVisibility(IntV(i), StrV(IntToString(j))) == Visible <==> i == j
  {
    FormatThenParse(j);
  }
}
