/** The persisted records: profiles, workspaces and the per-mode settings. */
module Models {
  import opened Basics
  import opened Input
  import opened ActionItems
  import opened Jobs

  datatype ClickType = Single | Double
  datatype PositionMode = CurrentPosition | FixedPosition
  datatype RepeatMode = Infinite | Count
  datatype KeyboardMode = TypeText | PressKey

  datatype ClickerSettings = ClickerSettings(
    mouseButton: Button, clickType: ClickType, intervalMs: int32, positionMode: PositionMode,
    fixedX: int32, fixedY: int32, repeatMode: RepeatMode, repeatCount: int32)

  const DefaultClickerSettings := ClickerSettings(Left, Single, 100, CurrentPosition, 0, 0, Infinite, 10)

  datatype KeyboardSettings = KeyboardSettings(
    mode: KeyboardMode, textToType: string, keyCode: uint16, useCtrl: bool, useAlt: bool, useShift: bool,
    intervalMs: int32, repeatMode: RepeatMode, repeatCount: int32)

  const DefaultKeyboardSettings := KeyboardSettings(TypeText, "", 0, false, false, false, 50, Infinite, 10)

  /** The source names these MouseClick, MouseMove and KeyPress. */
  datatype RecordedType = ClickRecord | MoveRecord | KeyRecord

  datatype RecordedAction = RecordedAction(
    kind: RecordedType, timestamp: int64, delayFromPrevious: int32, x: int32, y: int32,
    mouseButton: Button, keyCode: uint16, isKeyDown: bool)

  datatype HotkeySettings = HotkeySettings(startStopKey: int32, emergencyStopKey: int32, recordKey: int32, playKey: int32)

  /** F6, F8, R and P. */
  const DefaultHotkeySettings := HotkeySettings(0x75, 0x77, 0x52, 0x50)

  datatype Profile = Profile(
    name: string, actions: seq<ActionItem>, loopActions: bool, loopCount: int32,
    delayBetweenLoops: int32, delayBetweenActions: int32, restoreMousePosition: bool,
    clickerSettings: ClickerSettings, keyboardSettings: KeyboardSettings,
    recordedActions: seq<RecordedAction>, hotkeySettings: HotkeySettings)

  const DefaultProfile := Profile("Default", [], true, 1, 0, 0, false,
    DefaultClickerSettings, DefaultKeyboardSettings, [], DefaultHotkeySettings)

  datatype Workspace = Workspace(
    name: string, jobs: seq<Job>, loopWorkspace: bool, workspaceLoopCount: int32, delayBetweenJobs: int32)

  const DefaultWorkspace := Workspace("New Workspace", [], false, 1, 0)

  /** The enabled elements, in their original order. */
  function EnabledActions(actions: seq<ActionItem>): (r: seq<ActionItem>)
    ensures |r| <= |actions|
    ensures forall a :: a in r <==> a in actions && a.isEnabled
    decreases |actions|
  {
    if |actions| == 0 then []
    else (if actions[0].isEnabled then [actions[0]] else []) + EnabledActions(actions[1..])
  }

  /**
   * The filter distributes over concatenation, so with the one-element
   * cases it keeps the enabled actions in their original order.
   */
  lemma {:induction false} EnabledActionsAppend(a: seq<ActionItem>, b: seq<ActionItem>)
    ensures EnabledActions(a + b) == EnabledActions(a) + EnabledActions(b)
    ensures forall x :: EnabledActions([x]) == (if x.isEnabled then [x] else [])
    decreases |a|
  {
    if |a| > 0 {
      assert (a + b)[1..] == a[1..] + b;
      EnabledActionsAppend(a[1..], b);
    } else {
      assert a + b == b;
    }
  }

  /** Nothing passes the filter when every action is disabled. */
  lemma {:induction false} NoneEnabled(actions: seq<ActionItem>)
    requires forall k :: 0 <= k < |actions| ==> !actions[k].isEnabled
    ensures EnabledActions(actions) == []
    decreases |actions|
  {
    if |actions| > 0 {
      NoneEnabled(actions[1..]);
    }
  }

  function EnabledJobs(jobs: seq<Job>): (r: seq<Job>)
    ensures |r| <= |jobs|
    ensures forall j :: j in r <==> j in jobs && j.isEnabled
    decreases |jobs|
  {
    if |jobs| == 0 then []
    else (if jobs[0].isEnabled then [jobs[0]] else []) + EnabledJobs(jobs[1..])
  }
}
