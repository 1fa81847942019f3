/**
 * The main window's state: the action list and its selection, the list
 * edits, the run toggle that hands the enabled actions to the action
 * runner, the runner's events, a new profile and the clamping setters.
 * Selection is by identity: items are distinct by their `id`, so the
 * value equality used here is the reference equality of the source.
 */
module MainViewModel {
  import opened Basics
  import opened Trace
  import opened ActionItems
  import opened Models
  import opened ListEdits
  import AR = ActionRunnerService

  datatype Vm = Vm(
    actions: seq<ActionItem>,
    selected: Option<ActionItem>,
    nextId: nat,
    profileName: string,
    loopActions: bool,
    loopCount: int32,
    delayBetweenLoops: int32,
    isRunning: bool,
    currentActionIndex: int,
    currentLoopCount: int32)

  /** What a command asks of the action runner. */
  datatype Request = NoRequest | Launch(actions: seq<ActionItem>, settings: AR.RunSettings) | Cancel

  /** The list with its selection. */
  function Listed(vm: Vm): Listing<ActionItem> {
    Listing(vm.actions, vm.selected)
  }

  /** No item twice, the selection on the list, and every identity below the next one handed out. */
  predicate Valid(vm: Vm) {
    Sound(Listed(vm)) && forall i :: 0 <= i < |vm.actions| ==> vm.actions[i].id < vm.nextId
  }

  /** The list edit `e` applied to the view model. */
  function WithListing(vm: Vm, e: Listing<ActionItem>): Vm {
    vm.(actions := e.items, selected := e.selected)
  }

  // ------------------------------------------------------------ adding

  /** The new items of the three add commands; every other setting keeps its default. */
  function ClickItem(id: nat): (a: ActionItem)
    ensures a.id == id && a.kind == Click && a.mouseButton == 0 && a.clickType == 0
    ensures a.useCurrentPosition && a.delayMs == 100 && a.isEnabled
  {
    NewActionItem(id)
  }

  function KeyItem(id: nat): (a: ActionItem)
    ensures a.id == id && a.kind == KeyPress && a.key == "A" && a.delayMs == 100
  {
    NewActionItem(id).(kind := KeyPress, key := "A")
  }

  function DelayItem(id: nat): (a: ActionItem)
    ensures a.id == id && a.kind == Delay && a.delayMs == 500
  {
    NewActionItem(id).(kind := Delay, delayMs := 500)
  }

  /** Appends a new item with the next identity and selects it. */
  function AddItem(vm: Vm, a: ActionItem): (r: Vm)
    requires Valid(vm) && a.id == vm.nextId
    ensures Valid(r)
    ensures |r.actions| == |vm.actions| + 1 && r.actions[..|vm.actions|] == vm.actions
    ensures r.actions[|vm.actions|] == a && r.selected == Some(a)
  {
    var r := vm.(actions := vm.actions + [a], selected := Some(a), nextId := vm.nextId + 1);
    assert r.actions[..|vm.actions|] == vm.actions;
    r
  }

  function AddClickAction(vm: Vm): (r: Vm)
    requires Valid(vm)
    ensures Valid(r) && r.selected == Some(ClickItem(vm.nextId))
    ensures r.actions == vm.actions + [ClickItem(vm.nextId)]
  {
    AddItem(vm, ClickItem(vm.nextId))
  }

  function AddKeyAction(vm: Vm): (r: Vm)
    requires Valid(vm)
    ensures Valid(r) && r.selected == Some(KeyItem(vm.nextId))
    ensures r.actions == vm.actions + [KeyItem(vm.nextId)]
  {
    AddItem(vm, KeyItem(vm.nextId))
  }

  function AddDelayAction(vm: Vm): (r: Vm)
    requires Valid(vm)
    ensures Valid(r) && r.selected == Some(DelayItem(vm.nextId))
    ensures r.actions == vm.actions + [DelayItem(vm.nextId)]
  {
    AddItem(vm, DelayItem(vm.nextId))
  }

  /** The constructor: no saved list, so one default click action, selected. */
  function Created(): (vm: Vm)
    ensures Valid(vm) && !vm.isRunning
    ensures vm.actions == [ClickItem(0)] && vm.selected == Some(ClickItem(0))
    ensures vm.profileName == "Untitled" && vm.loopActions && vm.loopCount == 0 && vm.delayBetweenLoops == 0
  {
    AddClickAction(Vm([], None, 0, "Untitled", true, 0, 0, false, 0, 0))
  }

  // ------------------------------------------------------------ removing, moving, duplicating

  /** The selected item goes; the one that took its place, or the new last one, is selected. */
  function RemoveSelectedAction(vm: Vm): (r: Vm)
    requires Valid(vm)
    ensures Valid(r) && Listed(r) == RemoveSelected(Listed(vm))
    ensures r.(actions := vm.actions, selected := vm.selected) == vm
  {
    WithListing(vm, RemoveSelected(Listed(vm)))
  }

  function MoveActionUp(vm: Vm): (r: Vm)
    requires Valid(vm)
    ensures Valid(r) && Listed(r) == MoveSelectedUp(Listed(vm))
    ensures r.(actions := vm.actions, selected := vm.selected) == vm
  {
    WithListing(vm, MoveSelectedUp(Listed(vm)))
  }

  function MoveActionDown(vm: Vm): (r: Vm)
    requires Valid(vm)
    ensures Valid(r) && Listed(r) == MoveSelectedDown(Listed(vm))
    ensures r.(actions := vm.actions, selected := vm.selected) == vm
  {
    WithListing(vm, MoveSelectedDown(Listed(vm)))
  }

  /** Inserts a copy under a fresh identity right after the selected item and selects the copy. */
  function DuplicateAction(vm: Vm): (r: Vm)
    requires Valid(vm)
    ensures Valid(r)
    ensures vm.selected.None? ==> r == vm
    ensures vm.selected.Some? ==>
      var i := SelectedIndex(Listed(vm));
      && |r.actions| == |vm.actions| + 1
      && r.actions[..i + 1] == vm.actions[..i + 1] && r.actions[i + 2..] == vm.actions[i + 1..]
      && r.selected == Some(r.actions[i + 1])
      && SameSettings(r.actions[i + 1], vm.selected.value)
      && r.actions[i + 1] !in vm.actions
  {
    if vm.selected.None? then vm
    else
      var i := SelectedIndex(Listed(vm));
      var copy := Clone(vm.selected.value, vm.nextId);
      var r := vm.(actions := Insert(vm.actions, i + 1, copy), selected := Some(copy), nextId := vm.nextId + 1);
      assert r.actions[..i + 1] == vm.actions[..i + 1];
      assert r.actions[i + 2..] == vm.actions[i + 1..];
      r
  }

  /** Removing the copy a duplication selected gives the original list back. */
  lemma RemoveUndoesDuplicate(vm: Vm)
    requires Valid(vm) && vm.selected.Some?
    ensures RemoveSelectedAction(DuplicateAction(vm)).actions == vm.actions
  {
    var i := SelectedIndex(Listed(vm));
    var d := DuplicateAction(vm);
    IndexOfDistinct(d.actions, i + 1);
    assert d.actions == Insert(vm.actions, i + 1, d.actions[i + 1]);
    RemoveInserted(vm.actions, i + 1, d.actions[i + 1]);
  }

  function ClearAllActions(vm: Vm): (r: Vm)
    requires Valid(vm)
    ensures Valid(r) && r.actions == [] && r.selected.None? && r.nextId == vm.nextId
  {
    vm.(actions := [], selected := None)
  }

  // ------------------------------------------------------------ running

  /**
   * Nothing on an empty list. Otherwise the view model shows itself running
   * from the start and asks the runner for the enabled actions, in order,
   * with no delay between actions and no cursor restore; the runner's
   * indices then count enabled actions only.
   */
  function Start(vm: Vm): (res: (Vm, Request))
    ensures |vm.actions| == 0 ==> res == (vm, NoRequest)
    ensures |vm.actions| > 0 ==>
      && res.0 == vm.(isRunning := true, currentActionIndex := 0, currentLoopCount := 0)
      && res.1.Launch? && res.1.actions == EnabledActions(vm.actions)
      && (forall a :: a in res.1.actions <==> a in vm.actions && a.isEnabled)
      && res.1.settings == AR.RunSettings(vm.loopActions, vm.loopCount, vm.delayBetweenLoops, 0, false)
  {
    if |vm.actions| == 0 then (vm, NoRequest)
    else
      (vm.(isRunning := true, currentActionIndex := 0, currentLoopCount := 0),
       Launch(EnabledActions(vm.actions), AR.RunSettings(vm.loopActions, vm.loopCount, vm.delayBetweenLoops, 0, false)))
  }

  /** Cancels the runner and shows itself stopped at once, without waiting for Stopped. */
  function Stop(vm: Vm): (res: (Vm, Request))
    ensures res == (vm.(isRunning := false), Cancel)
  {
    (vm.(isRunning := false), Cancel)
  }

  /** The start/stop hotkey. */
  function Toggle(vm: Vm): (res: (Vm, Request))
    ensures vm.isRunning ==> !res.0.isRunning && res.1 == Cancel
    ensures !vm.isRunning ==> res == Start(vm)
  {
    if vm.isRunning then Stop(vm) else Start(vm)
  }

  /** The runner's events: progress moves the counters, Stopped clears the running flag. */
  function OnNotice(vm: Vm, n: Notice): (r: Vm)
    ensures r.isRunning == (vm.isRunning && n != Stopped(ActionRun))
    ensures r.actions == vm.actions && r.selected == vm.selected
  {
    match n
    case ActionExecuted(i, loop) => vm.(currentActionIndex := i, currentLoopCount := loop)
    case Stopped(ActionRun) => vm.(isRunning := false)
    case _ => vm
  }

  function OnNotices(vm: Vm, ns: seq<Notice>): Vm
    decreases |ns|
  {
    if |ns| == 0 then vm else OnNotices(OnNotice(vm, ns[0]), ns[1..])
  }

  /** After a run's events the view model shows itself running exactly when it did and none was Stopped. */
  lemma {:induction false} OnNoticesRunning(vm: Vm, ns: seq<Notice>)
    ensures OnNotices(vm, ns).isRunning <==> vm.isRunning && Stopped(ActionRun) !in ns
    ensures OnNotices(vm, ns).actions == vm.actions
    decreases |ns|
  {
    if |ns| > 0 {
      OnNoticesRunning(OnNotice(vm, ns[0]), ns[1..]);
      assert ns == [ns[0]] + ns[1..];
    }
  }

  /**
   * With every action disabled the view model still shows itself running,
   * and stays so: the runner does nothing for an empty list, so no Stopped
   * ever arrives.
   */
  lemma AllDisabledKeepsRunning(vm: Vm, runner: AR.Runner, cursor: Point, fuel: nat, stop: nat)
    requires |vm.actions| > 0 && forall k :: 0 <= k < |vm.actions| ==> !vm.actions[k].isEnabled
    ensures var (started, req) := Start(vm);
      var (_, t) := AR.RunAsync(runner, req.actions, req.settings, cursor, fuel, stop);
      && req.actions == [] && t == []
      && OnNotices(started, Notices(t)).isRunning
  {
    NoneEnabled(vm.actions);
  }

  /**
   * With some action enabled and the runner idle, the run's own events end
   * the running state, unless the run hangs at a wait of -1 that no Stop
   * reaches: then no Stopped comes and the editor stays running.
   */
  lemma EnabledRunStops(vm: Vm, cursor: Point, fuel: nat, stop: nat)
    requires exists k :: 0 <= k < |vm.actions| && vm.actions[k].isEnabled
    ensures var (started, req) := Start(vm);
      var (_, t) := AR.RunAsync(AR.Runner(false), req.actions, req.settings, cursor, fuel, stop);
      && started.isRunning
      && (OnNotices(started, Notices(t)).isRunning <==> AR.RunEnding(req.actions, req.settings, fuel, stop) == Hung)
  {
    var (started, req) := Start(vm);
    var k :| 0 <= k < |vm.actions| && vm.actions[k].isEnabled;
    assert vm.actions[k] in req.actions;
    var (_, t) := AR.RunAsync(AR.Runner(false), req.actions, req.settings, cursor, fuel, stop);
    var ns := Notices(t);
    if AR.RunEnding(req.actions, req.settings, fuel, stop) != Hung {
      assert ns[|ns| - 1] == Stopped(ActionRun);
    }
    OnNoticesRunning(started, ns);
  }

  /** Toggling twice from idle starts and then stops. */
  lemma ToggleTwice(vm: Vm)
    requires !vm.isRunning && |vm.actions| > 0
    ensures Toggle(vm).0.isRunning && Toggle(vm).1.Launch?
    ensures !Toggle(Toggle(vm).0).0.isRunning && Toggle(Toggle(vm).0).1 == Cancel
  {
  }

  // ------------------------------------------------------------ profile and settings

  /** An untitled profile holding one default click action, selected. */
  function NewProfile(vm: Vm): (r: Vm)
    requires Valid(vm)
    ensures Valid(r)
    ensures |r.actions| == 1 && r.selected == Some(r.actions[0]) && r.actions[0] == ClickItem(vm.nextId)
    ensures r.profileName == "Untitled" && r.loopActions && r.loopCount == 0 && r.delayBetweenLoops == 0
  {
    AddClickAction(vm.(actions := [], selected := None, profileName := "Untitled",
                       loopActions := true, loopCount := 0, delayBetweenLoops := 0))
  }

  function SetLoopCount(vm: Vm, v: int32): (r: Vm)
    ensures r == vm.(loopCount := NonNegative(v))
  {
    vm.(loopCount := NonNegative(v))
  }

  function SetDelayBetweenLoops(vm: Vm, v: int32): (r: Vm)
    ensures r == vm.(delayBetweenLoops := NonNegative(v))
  {
    vm.(delayBetweenLoops := NonNegative(v))
  }

  /** The setters never store a negative value, store a non-negative one as given, and are idempotent. */
  lemma SettersClamp(vm: Vm, v: int32)
    ensures SetLoopCount(vm, v).loopCount >= 0 && SetDelayBetweenLoops(vm, v).delayBetweenLoops >= 0
    ensures v >= 0 ==> SetLoopCount(vm, v).loopCount == v && SetDelayBetweenLoops(vm, v).delayBetweenLoops == v
    ensures SetLoopCount(SetLoopCount(vm, v), v) == SetLoopCount(vm, v)
    ensures SetDelayBetweenLoops(SetDelayBetweenLoops(vm, v), v) == SetDelayBetweenLoops(vm, v)
  {
  }
}
