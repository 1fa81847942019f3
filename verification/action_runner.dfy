/**
 * The action-sequence runner: runs a list of actions, each repeated, with
 * delays between repetitions, between actions and between passes, looping
 * a fixed number of times or until stopped, optionally putting the cursor
 * back where it was.
 */
module ActionRunnerService {
  import opened Basics
  import opened Text
  import opened Input
  import opened Trace
  import opened ActionItems
  import opened Models

  // ------------------------------------------------------------ key names

  /** Virtual-key codes of the key names an action may give (upper case). */
  const NamedKeys: map<string, uint16> := map[
    "ENTER" := 0x0D, "TAB" := 0x09, "SPACE" := 0x20, "BACKSPACE" := 0x08, "DELETE" := 0x2E,
    "ESCAPE" := 0x1B, "ESC" := 0x1B, "UP" := 0x26, "DOWN" := 0x28, "LEFT" := 0x25, "RIGHT" := 0x27,
    "HOME" := 0x24, "END" := 0x23, "PAGEUP" := 0x21, "PAGEDOWN" := 0x22, "INSERT" := 0x2D,
    "F1" := 0x70, "F2" := 0x71, "F3" := 0x72, "F4" := 0x73, "F5" := 0x74, "F6" := 0x75,
    "F7" := 0x76, "F8" := 0x77, "F9" := 0x78, "F10" := 0x79, "F11" := 0x7A, "F12" := 0x7B]

  /** Code of a one-character key: digits and letters map to their virtual keys, anything else to its UTF-16 code. */
  function CharKeyCode(c0: char): (code: uint16)
    requires c0 as int <= 0xFFFF
    ensures IsDigit(c0) ==> code == 0x30 + DigitValue(c0)
    ensures IsAsciiUpper(UpperChar(c0)) ==> code == UpperChar(c0) as int
    ensures !IsDigit(UpperChar(c0)) && !IsAsciiUpper(UpperChar(c0)) ==> code == UpperChar(c0) as int
  {
    var c := UpperChar(c0);
    if IsDigit(c) then 0x30 + (c as int - '0' as int)
    else if IsAsciiUpper(c) then 0x41 + (c as int - 'A' as int)
    else c as int
  }

  /**
   * Virtual-key code for an action's key text; 0 means no key. A character
   * outside the Basic Multilingual Plane is two UTF-16 units long in the
   * source, so it falls to the name table like any longer text.
   */
  function ParseKeyCode(key: string): (code: uint16)
    ensures key == [] ==> code == 0
    ensures |key| == 1 && key[0] as int <= 0xFFFF ==> code == CharKeyCode(key[0])
    ensures |key| > 1 || (|key| == 1 && key[0] as int > 0xFFFF) ==>
      code == (if Upper(key) in NamedKeys then NamedKeys[Upper(key)] else 0)
  {
    if |key| == 0 then 0
    else if |key| == 1 && key[0] as int <= 0xFFFF then CharKeyCode(key[0])
    else if Upper(key) in NamedKeys then NamedKeys[Upper(key)]
    else 0
  }

  /** Key text is read without regard to letter case. */
  lemma ParseKeyCodeIgnoresCase(key: string)
    ensures ParseKeyCode(Upper(key)) == ParseKeyCode(key)
    ensures ParseKeyCode(Lower(key)) == ParseKeyCode(key)
  {
    UpperIdempotent(key);
    if |key| == 1 {
      assert Upper(key)[0] == UpperChar(key[0]);
      assert Lower(key)[0] == LowerChar(key[0]);
    }
  }

  /** "F1" to "F12" name consecutive codes from 0x70. */
  lemma FunctionKeyCodes(n: int)
    requires 1 <= n <= 12
    ensures ParseKeyCode("F" + IntToString(n)) == 0x6F + n
  {
    var key := "F" + IntToString(n);
    if n < 10 {
      assert key == ['F', DigitChar(n)];
    } else {
      assert NatToString(n) == ['1', DigitChar(n - 10)];
      assert key == ['F', '1', DigitChar(n - 10)];
    }
    assert Upper(key) == key;
    if n == 1 { assert key == "F1"; }
    else if n == 2 { assert key == "F2"; }
    else if n == 3 { assert key == "F3"; }
    else if n == 4 { assert key == "F4"; }
    else if n == 5 { assert key == "F5"; }
    else if n == 6 { assert key == "F6"; }
    else if n == 7 { assert key == "F7"; }
    else if n == 8 { assert key == "F8"; }
    else if n == 9 { assert key == "F9"; }
    else if n == 10 { assert key == "F10"; }
    else if n == 11 { assert key == "F11"; }
    else { assert key == "F12"; }
  }

  /** Named keys by example, in any case, including the ESC alias. */
  lemma NamedKeyExamples()
    ensures ParseKeyCode("Esc") == ParseKeyCode("escape") == 0x1B
    ensures ParseKeyCode("Enter") == 0x0D && ParseKeyCode("pageDown") == 0x22
  {
    assert Upper("Esc") == "ESC";
    assert Upper("escape") == "ESCAPE";
    assert Upper("Enter") == "ENTER";
    assert Upper("pageDown") == "PAGEDOWN";
  }

  /** Single letters and digits by example, and names that mean nothing. */
  lemma CharKeyExamples()
    ensures ParseKeyCode("a") == ParseKeyCode("A") == 0x41 && ParseKeyCode("7") == 0x37
    ensures ParseKeyCode("F13") == 0 && ParseKeyCode("") == 0
  {
    assert Upper("F13") == "F13";
  }

  // ------------------------------------------------------------ one action

  /** A click: at the cursor, or after moving to the fixed position; ClickType 1 means double. */
  function ClickInputs(a: ActionItem): seq<InputEvent> {
    var click := MouseClickCode(a.mouseButton, a.clickType == 1);
    if a.useCurrentPosition then click else [SetCursor(Point(a.fixedX, a.fixedY))] + click
  }

  /** A key press wrapped in its modifiers; nothing at all when the key text names no key. */
  function KeyInputs(a: ActionItem): seq<InputEvent> {
    var code := ParseKeyCode(a.key);
    if code == 0 then [] else Chord(a.useCtrl, a.useAlt, a.useShift, code)
  }

  /** What executing one action does; it raises no event of its own. */
  function ExecuteAction(a: ActionItem): (t: seq<Step>)
    ensures Notices(t) == []
    ensures a.kind == Delay ==> t == [Wait(a.delayMs)]
    ensures a.kind != Delay ==> Waits(t) == [] && t == Inputs(InputsOf(t))
  {
    match a.kind
    case Click => InputsOfInputs(ClickInputs(a)); Inputs(ClickInputs(a))
    case KeyPress => InputsOfInputs(KeyInputs(a)); Inputs(KeyInputs(a))
    case Delay => [Wait(a.delayMs)]
    case UndefinedType(_) => []
  }

  /** A click action clicks the button its code names, twice exactly when ClickType is 1, at the chosen place. */
  lemma ClickActionInputs(a: ActionItem, b: Button)
    requires a.kind == Click && ButtonOf(a.mouseButton) == Some(b)
    ensures InputsOf(ExecuteAction(a))
            == (if a.useCurrentPosition then [] else [SetCursor(Point(a.fixedX, a.fixedY))])
               + MouseClick(b, a.clickType == 1)
    ensures |MouseClick(b, a.clickType == 1)| == (if a.clickType == 1 then 4 else 2)
  {
    InputsOfInputs(ClickInputs(a));
  }

  /** A click with a button code other than 0, 1 or 2 sends no click (only the move, for a fixed position). */
  lemma UnknownButtonDoesNotClick(a: ActionItem)
    requires a.kind == Click && !(0 <= a.mouseButton <= 2)
    ensures InputsOf(ExecuteAction(a)) == (if a.useCurrentPosition then [] else [SetCursor(Point(a.fixedX, a.fixedY))])
    ensures MouseButtonName(a.mouseButton) == "Left"
  {
    InputsOfInputs(ClickInputs(a));
  }

  /** A key action's keys are well nested; unknown key text sends nothing. */
  lemma KeyActionInputs(a: ActionItem)
    requires a.kind == KeyPress
    ensures Held([], InputsOf(ExecuteAction(a))) == Some([])
    ensures ParseKeyCode(a.key) == 0 <==> InputsOf(ExecuteAction(a)) == []
  {
    InputsOfInputs(KeyInputs(a));
    if ParseKeyCode(a.key) != 0 {
      ChordIsNested([], a.useCtrl, a.useAlt, a.useShift, ParseKeyCode(a.key));
    }
  }

  /** A clone does exactly what the original does. */
  lemma CloneExecutesAlike(a: ActionItem, freshId: nat)
    ensures ExecuteAction(Clone(a, freshId)) == ExecuteAction(a)
  {
  }

  // ------------------------------------------------------------ the run

  datatype RunSettings = RunSettings(
    loop: bool, loopCount: int32, delayBetweenLoops: int32, delayBetweenActions: int32, restoreMousePosition: bool)

  /** The settings a profile runs with. */
  function ProfileSettings(p: Profile): RunSettings {
    RunSettings(p.loopActions, p.loopCount, p.delayBetweenLoops, p.delayBetweenActions, p.restoreMousePosition)
  }

  /** The pass just finished was the last one: no looping, or the count (when positive) is reached. */
  predicate LastPass(loop: bool, loopCount: int, pass: int) {
    !loop || (loopCount > 0 && pass >= loopCount)
  }

  /** The executed event of action i in pass `pass`; the pass counter is an `int` that wraps. */
  function Executed(i: int, pass: int): Notice {
    ActionExecuted(i, WrapInt32(pass))
  }

  /** One repetition of the action at index i: the token is looked at, the action runs and the event is raised. */
  function Execution(a: ActionItem, i: int, pass: int): Block {
    Checked(ExecuteAction(a) + [Notify(Executed(i, pass))])
  }

  /** Repetitions r .. n-1 of the action at index i, with the action's own delay between them. */
  function Repetitions(a: ActionItem, i: int, pass: int, r: int, n: int): seq<Block>
    decreases n - r
  {
    if r >= n then []
    else [Execution(a, i, pass)]
         + (if r < n - 1 then [Plain([Wait(a.delayMs)])] else [])
         + Repetitions(a, i, pass, r + 1, n)
  }

  /** Actions i .. of one pass: disabled ones are skipped outright, without the between-actions delay. */
  function PassBlocks(actions: seq<ActionItem>, i: nat, pass: int, delayBetweenActions: int): seq<Block>
    decreases |actions| - i
  {
    if i >= |actions| then []
    else if !actions[i].isEnabled then PassBlocks(actions, i + 1, pass, delayBetweenActions)
    else Repetitions(actions[i], i, pass, 0, actions[i].repeatCount)
         + (if i < |actions| - 1 && delayBetweenActions > 0 then [Plain([Wait(delayBetweenActions)])] else [])
         + PassBlocks(actions, i + 1, pass, delayBetweenActions)
  }

  /** Passes from `pass` on, at most `fuel` of them, with the between-passes delay. */
  function Unroll(actions: seq<ActionItem>, s: RunSettings, pass: int, fuel: nat): seq<Block>
    decreases fuel
  {
    if fuel == 0 then []
    else PassBlocks(actions, 0, pass, s.delayBetweenActions)
         + (if LastPass(s.loop, s.loopCount, pass) then []
            else (if s.delayBetweenLoops > 0 then [Plain([Wait(s.delayBetweenLoops)])] else [])
                 + Unroll(actions, s, pass + 1, fuel - 1))
  }

  /** The body of a run, at most `fuel` passes of it. */
  function Body(actions: seq<ActionItem>, s: RunSettings, fuel: nat): seq<Block> {
    Unroll(actions, s, 1, fuel)
  }

  /** How many passes a run makes, or None for a run that loops until stopped. */
  function Passes(s: RunSettings): Option<nat> {
    if !s.loop then Some(1) else if s.loopCount > 0 then Some(s.loopCount as nat) else None
  }

  /** The fuel covers the whole run. */
  predicate Exhausts(s: RunSettings, fuel: nat) {
    Passes(s).Some? && fuel >= Passes(s).value
  }

  /** What always happens last: the cursor goes back if asked, then the runner is idle and says so. */
  function Cleanup(s: RunSettings, saved: Point): seq<Step> {
    (if s.restoreMousePosition then [Input(SetCursor(saved))] else [])
    + [SetRunning(ActionRun, false), Notify(Stopped(ActionRun))]
  }

  datatype Runner = Runner(isRunning: bool)

  /** How a run of at most `fuel` passes ends when a Stop comes before block `stop`; none comes when `stop` is past the end. */
  function RunEnding(actions: seq<ActionItem>, s: RunSettings, fuel: nat, stop: nat): Ending {
    var body := Body(actions, s, fuel);
    EndingOf(body, stop, stop < |body|)
  }

  /**
   * One call: nothing when a run is in progress or the list is empty;
   * otherwise the body, cut by a Stop before block `stop` (a `stop` past
   * the end means no Stop) or halted at an action's negative delay, then
   * the cleanup. A delay below -1 throws: the cleanup runs and the call's
   * task faults. A delay of -1 that no Stop ends never returns, and the
   * runner stays running. `cursor` is where the cursor is when the run
   * starts.
   */
  function RunAsync(r: Runner, actions: seq<ActionItem>, s: RunSettings, cursor: Point, fuel: nat, stop: nat)
    : (res: (Runner, seq<Step>))
    ensures r.isRunning || |actions| == 0 ==> res == (r, [])
    ensures !r.isRunning && |actions| > 0 ==>
      var body := Body(actions, s, fuel);
      var e := RunEnding(actions, s, fuel, stop);
      && res.0.isRunning == (e == Hung)
      && res.1 == [SetRunning(ActionRun, true)] + Halted(body, stop, stop < |body|, Cleanup(s, cursor), ActionRun)
      && (e != Hung ==> StopCount(Notices(res.1), ActionRun) == 1)
      && (e != Hung ==> Notices(res.1)[|Notices(res.1)| - 1] == Stopped(ActionRun))
      && (e == Hung ==> NoStop(res.1, ActionRun))
      && (e == Faulted ==> res.1[|res.1| - 1] == Fault(ActionRun))
      && (e != Hung && s.restoreMousePosition ==> CursorAt(cursor, res.1) == cursor)
  {
    if r.isRunning || |actions| == 0 then (r, [])
    else
      var body := Body(actions, s, fuel);
      var t := [SetRunning(ActionRun, true)] + Halted(body, stop, stop < |body|, Cleanup(s, cursor), ActionRun);
      RunShape(actions, s, cursor, fuel, stop, t);
      (Runner(RunEnding(actions, s, fuel, stop) == Hung), t)
  }

  // ------------------------------------------------------------ shape of a run

  /** Every event a body raises is an ActionExecuted, and no block has cancellation steps. */
  predicate QuietBlocks(bs: seq<Block>) {
    && (forall k :: 0 <= k < |bs| ==> bs[k].onCut == [])
    && (forall n :: n in Notices(Flat(bs)) ==> n.ActionExecuted?)
  }

  lemma QuietAppend(a: seq<Block>, b: seq<Block>)
    requires QuietBlocks(a) && QuietBlocks(b)
    ensures QuietBlocks(a + b)
  {
    FlatAppend(a, b);
    NoticesAppend(Flat(a), Flat(b));
  }

  lemma QuietOne(b: Block)
    requires b.onCut == []
    requires forall n :: n in Notices(b.steps) ==> n.ActionExecuted?
    ensures QuietBlocks([b])
  {
    assert Flat([b]) == b.steps + Flat([]);
    assert b.steps + [] == b.steps;
  }

  lemma {:induction false} QuietRepetitions(a: ActionItem, i: int, pass: int, r: int, n: int)
    ensures QuietBlocks(Repetitions(a, i, pass, r, n))
    decreases n - r
  {
    if r < n {
      NoticesAppend(ExecuteAction(a), [Notify(Executed(i, pass))]);
      QuietOne(Execution(a, i, pass));
      QuietOne(Plain([Wait(a.delayMs)]));
      QuietBlocks0();
      QuietRepetitions(a, i, pass, r + 1, n);
      var w: seq<Block> := if r < n - 1 then [Plain([Wait(a.delayMs)])] else [];
      QuietAppend([Execution(a, i, pass)], w);
      QuietAppend([Execution(a, i, pass)] + w, Repetitions(a, i, pass, r + 1, n));
    } else {
      QuietBlocks0();
    }
  }

  lemma QuietBlocks0()
    ensures QuietBlocks([])
  {
  }

  lemma {:induction false} QuietPass(actions: seq<ActionItem>, i: nat, pass: int, d: int)
    ensures QuietBlocks(PassBlocks(actions, i, pass, d))
    decreases |actions| - i
  {
    if i >= |actions| {
      QuietBlocks0();
    } else if !actions[i].isEnabled {
      QuietPass(actions, i + 1, pass, d);
    } else {
      QuietRepetitions(actions[i], i, pass, 0, actions[i].repeatCount);
      QuietOne(Plain([Wait(d)]));
      QuietBlocks0();
      QuietPass(actions, i + 1, pass, d);
      var w: seq<Block> := if i < |actions| - 1 && d > 0 then [Plain([Wait(d)])] else [];
      QuietAppend(Repetitions(actions[i], i, pass, 0, actions[i].repeatCount), w);
      QuietAppend(Repetitions(actions[i], i, pass, 0, actions[i].repeatCount) + w, PassBlocks(actions, i + 1, pass, d));
    }
  }

  lemma {:induction false} QuietUnroll(actions: seq<ActionItem>, s: RunSettings, pass: int, fuel: nat)
    ensures QuietBlocks(Unroll(actions, s, pass, fuel))
    decreases fuel
  {
    QuietBlocks0();
    if fuel > 0 {
      QuietPass(actions, 0, pass, s.delayBetweenActions);
      if !LastPass(s.loop, s.loopCount, pass) {
        QuietOne(Plain([Wait(s.delayBetweenLoops)]));
        QuietUnroll(actions, s, pass + 1, fuel - 1);
        var w: seq<Block> := if s.delayBetweenLoops > 0 then [Plain([Wait(s.delayBetweenLoops)])] else [];
        QuietAppend(w, Unroll(actions, s, pass + 1, fuel - 1));
        QuietAppend(PassBlocks(actions, 0, pass, s.delayBetweenActions), w + Unroll(actions, s, pass + 1, fuel - 1));
      } else {
        assert PassBlocks(actions, 0, pass, s.delayBetweenActions) + [] == PassBlocks(actions, 0, pass, s.delayBetweenActions);
      }
    }
  }

  /** A cut of a quiet body raises only ActionExecuted events, and these are a prefix of the whole body's. */
  lemma QuietCut(bs: seq<Block>, k: nat)
    requires QuietBlocks(bs)
    ensures forall n :: n in Notices(CutAt(bs, k)) ==> n.ActionExecuted?
    ensures Notices(CutAt(bs, k)) <= Notices(Flat(bs))
  {
    CutIsPrefix(bs, k);
    var rest := Flat(bs)[|CutAt(bs, k)|..];
    assert Flat(bs) == CutAt(bs, k) + rest;
    NoticesAppend(CutAt(bs, k), rest);
  }

  lemma {:induction false} NoStopsAmongExecutions(ns: seq<Notice>, c: Component)
    requires forall n :: n in ns ==> n.ActionExecuted?
    ensures StopCount(ns, c) == 0
    decreases |ns|
  {
    if |ns| > 0 {
      assert ns[0] in ns;
      NoStopsAmongExecutions(ns[1..], c);
    }
  }

  lemma CleanupShape(s: RunSettings, saved: Point, start: Point)
    ensures Notices(Cleanup(s, saved)) == [Stopped(ActionRun)]
    ensures CursorAt(start, Cleanup(s, saved)) == (if s.restoreMousePosition then saved else start)
  {
    var tail := [SetRunning(ActionRun, false), Notify(Stopped(ActionRun))];
    assert Notices(tail) == [Stopped(ActionRun)];
    assert InputsOf(tail) == [];
    if s.restoreMousePosition {
      var head := [Input(SetCursor(saved))];
      NoticesAppend(head, tail);
      InputsOfAppend(head, tail);
      assert InputsOf(head) == [SetCursor(saved)];
      assert InputsOf(Cleanup(s, saved)) == [SetCursor(saved)];
      assert CursorAfter(start, [SetCursor(saved)]) == CursorAfter(saved, []);
    } else {
      assert Cleanup(s, saved) == tail;
    }
  }

  /** A quiet body raises no Stopped anywhere. */
  lemma QuietNoStop(bs: seq<Block>, c: Component)
    requires QuietBlocks(bs)
    ensures NoStopBlocks(bs, c)
  {
    forall k | 0 <= k < |bs|
      ensures NoStop(bs[k].steps, c) && NoStop(bs[k].onCut, c)
    {
      BlockNoticesInFlat(bs, k);
      assert Notices(bs[k].onCut) == [];
    }
  }

  /**
   * A run that returns raises ActionExecuted events, then exactly one
   * Stopped, last, and a fault comes after everything; the restored cursor
   * ends where it began. A run that hangs raises no Stopped.
   */
  lemma RunShape(actions: seq<ActionItem>, s: RunSettings, cursor: Point, fuel: nat, stop: nat, t: seq<Step>)
    requires var body := Body(actions, s, fuel);
      t == [SetRunning(ActionRun, true)] + Halted(body, stop, stop < |body|, Cleanup(s, cursor), ActionRun)
    ensures var e := RunEnding(actions, s, fuel, stop);
      && (e != Hung ==> StopCount(Notices(t), ActionRun) == 1 && Notices(t)[|Notices(t)| - 1] == Stopped(ActionRun))
      && (e == Hung ==> NoStop(t, ActionRun))
      && (e == Faulted ==> t[|t| - 1] == Fault(ActionRun))
      && (e != Hung && s.restoreMousePosition ==> CursorAt(cursor, t) == cursor)
  {
    var body := Body(actions, s, fuel);
    var wake := stop < |body|;
    var head: seq<Step> := [SetRunning(ActionRun, true)];
    assert QuietBlocks(body) by {
      QuietUnroll(actions, s, 1, fuel);
    }
    assert NoStopBlocks(body, ActionRun) && Notices(head) == [] && Notices(Cleanup(s, cursor)) == [Stopped(ActionRun)] by {
      QuietNoStop(body, ActionRun);
      NoticesOne(SetRunning(ActionRun, true));
      CleanupShape(s, cursor, cursor);
    }
    HaltedStops(head, body, stop, wake, Cleanup(s, cursor), ActionRun);
    if EndingOf(body, stop, wake) != Hung && s.restoreMousePosition {
      RestoredCursor(body, stop, wake, s, cursor);
    }
  }

  /** With the cursor restored, a run that returns leaves it where it began, whatever the body moved. */
  lemma RestoredCursor(body: seq<Block>, stop: nat, wake: bool, s: RunSettings, cursor: Point)
    requires EndingOf(body, stop, wake) != Hung && s.restoreMousePosition
    ensures CursorAt(cursor, [SetRunning(ActionRun, true)] + Halted(body, stop, wake, Cleanup(s, cursor), ActionRun)) == cursor
  {
    var head: seq<Step> := [SetRunning(ActionRun, true)];
    var e := EndingOf(body, stop, wake);
    var u := head + CutAt(body, HaltAt(body, stop));
    CursorAtAppend(cursor, u, Cleanup(s, cursor));
    CleanupShape(s, cursor, CursorAt(cursor, u));
    if e == Faulted {
      CursorAtAppend(cursor, u + Cleanup(s, cursor), [Fault(ActionRun)]);
      assert InputsOf([Fault(ActionRun)]) == [] + InputsOf([]);
      assert head + Halted(body, stop, wake, Cleanup(s, cursor), ActionRun) == u + Cleanup(s, cursor) + [Fault(ActionRun)];
    } else {
      assert head + Halted(body, stop, wake, Cleanup(s, cursor), ActionRun) == u + Cleanup(s, cursor);
    }
  }

  // ------------------------------------------------------------ what a run raises

  /** The ActionExecuted events of a body. */
  function Events(bs: seq<Block>): seq<Notice> {
    Executions(Notices(Flat(bs)))
  }

  lemma EventsAppend(a: seq<Block>, b: seq<Block>)
    ensures Events(a + b) == Events(a) + Events(b)
  {
    FlatAppend(a, b);
    NoticesAppend(Flat(a), Flat(b));
    ExecutionsAppend(Notices(Flat(a)), Notices(Flat(b)));
  }

  lemma EventsOne(b: Block)
    ensures Events([b]) == Executions(Notices(b.steps))
  {
    assert Flat([b]) == b.steps + Flat([]);
    assert b.steps + [] == b.steps;
  }

  /**
   * Reference for one pass, from action i on: each enabled action raises
   * its RepeatCount events, tagged with its index in the whole list.
   */
  function ExpectedPass(actions: seq<ActionItem>, i: nat, pass: int): seq<Notice>
    decreases |actions| - i
  {
    if i >= |actions| then []
    else (if actions[i].isEnabled then Repeat(Executed(i, pass), actions[i].repeatCount) else [])
         + ExpectedPass(actions, i + 1, pass)
  }

  /** Reference for `k` passes starting at `pass`. */
  function ExpectedPasses(actions: seq<ActionItem>, pass: int, k: nat): seq<Notice>
    decreases k
  {
    if k == 0 then [] else ExpectedPass(actions, 0, pass) + ExpectedPasses(actions, pass + 1, k - 1)
  }

  lemma {:induction false} RepetitionEvents(a: ActionItem, i: int, pass: int, r: int, n: int)
    ensures Events(Repetitions(a, i, pass, r, n)) == Repeat(Executed(i, pass), n - r)
    decreases n - r
  {
    if r < n {
      var t := ExecuteAction(a) + [Notify(Executed(i, pass))];
      var w: seq<Block> := if r < n - 1 then [Plain([Wait(a.delayMs)])] else [];
      NoticesAppend(ExecuteAction(a), [Notify(Executed(i, pass))]);
      assert Executions(Notices(t)) == [Executed(i, pass)];
      EventsOne(Execution(a, i, pass));
      EventsOne(Plain([Wait(a.delayMs)]));
      assert Events(w) == [];
      RepetitionEvents(a, i, pass, r + 1, n);
      EventsAppend([Execution(a, i, pass)], w);
      EventsAppend([Execution(a, i, pass)] + w, Repetitions(a, i, pass, r + 1, n));
    }
  }

  lemma {:induction false} PassEvents(actions: seq<ActionItem>, i: nat, pass: int, d: int)
    ensures Events(PassBlocks(actions, i, pass, d)) == ExpectedPass(actions, i, pass)
    decreases |actions| - i
  {
    if i < |actions| {
      PassEvents(actions, i + 1, pass, d);
      if actions[i].isEnabled {
        var reps := Repetitions(actions[i], i, pass, 0, actions[i].repeatCount);
        var w: seq<Block> := if i < |actions| - 1 && d > 0 then [Plain([Wait(d)])] else [];
        RepetitionEvents(actions[i], i, pass, 0, actions[i].repeatCount);
        EventsOne(Plain([Wait(d)]));
        assert Events(w) == [];
        EventsAppend(reps, w);
        EventsAppend(reps + w, PassBlocks(actions, i + 1, pass, d));
      }
    }
  }

  /** How many passes remain from `pass` on, within the fuel. */
  function Remaining(s: RunSettings, pass: int, fuel: nat): nat {
    match Passes(s)
    case Some(n) => Max(Min(n - pass + 1, fuel), 0)
    case None => fuel
  }

  lemma {:induction false} UnrollEvents(actions: seq<ActionItem>, s: RunSettings, pass: int, fuel: nat)
    requires pass >= 1
    requires Passes(s).Some? ==> pass <= Passes(s).value
    ensures Events(Unroll(actions, s, pass, fuel)) == ExpectedPasses(actions, pass, Remaining(s, pass, fuel))
    decreases fuel
  {
    if fuel == 0 {
      assert Unroll(actions, s, pass, fuel) == [];
    } else if LastPass(s.loop, s.loopCount, pass) {
      LastPassEvents(actions, s, pass, fuel);
    } else {
      NextPassRemaining(s, pass, fuel);
      UnrollEvents(actions, s, pass + 1, fuel - 1);
      NextPassEvents(actions, s, pass, fuel, Remaining(s, pass + 1, fuel - 1));
    }
  }

  /** The pass the loop rule makes last raises one pass's reference events. */
  lemma LastPassEvents(actions: seq<ActionItem>, s: RunSettings, pass: int, fuel: nat)
    requires pass >= 1 && fuel > 0
    requires Passes(s).Some? ==> pass <= Passes(s).value
    requires LastPass(s.loop, s.loopCount, pass)
    ensures Events(Unroll(actions, s, pass, fuel)) == ExpectedPasses(actions, pass, Remaining(s, pass, fuel))
  {
    var p := PassBlocks(actions, 0, pass, s.delayBetweenActions);
    PassEvents(actions, 0, pass, s.delayBetweenActions);
    assert Unroll(actions, s, pass, fuel) == p + [];
    assert p + [] == p;
    LastPassRemaining(s, pass, fuel);
    assert ExpectedPasses(actions, pass + 1, 0) == [];
    assert ExpectedPasses(actions, pass, 1) == ExpectedPass(actions, 0, pass) + [];
  }

  /** A pass the loop rule does not make last raises its events, then those of the passes after it. */
  lemma NextPassEvents(actions: seq<ActionItem>, s: RunSettings, pass: int, fuel: nat, k: nat)
    requires fuel > 0 && !LastPass(s.loop, s.loopCount, pass)
    requires Events(Unroll(actions, s, pass + 1, fuel - 1)) == ExpectedPasses(actions, pass + 1, k)
    ensures Events(Unroll(actions, s, pass, fuel)) == ExpectedPasses(actions, pass, k + 1)
  {
    var p := PassBlocks(actions, 0, pass, s.delayBetweenActions);
    PassEvents(actions, 0, pass, s.delayBetweenActions);
    var w: seq<Block> := if s.delayBetweenLoops > 0 then [Plain([Wait(s.delayBetweenLoops)])] else [];
    var rest := Unroll(actions, s, pass + 1, fuel - 1);
    assert Unroll(actions, s, pass, fuel) == p + (w + rest);
    EventsOne(Plain([Wait(s.delayBetweenLoops)]));
    assert Events(w) == [];
    EventsAppend(w, rest);
    EventsAppend(p, w + rest);
    assert ExpectedPasses(actions, pass, k + 1) == ExpectedPass(actions, 0, pass) + ExpectedPasses(actions, pass + 1, k);
  }

  lemma LastPassRemaining(s: RunSettings, pass: int, fuel: nat)
    requires pass >= 1 && fuel > 0
    requires Passes(s).Some? ==> pass <= Passes(s).value
    requires LastPass(s.loop, s.loopCount, pass)
    ensures Remaining(s, pass, fuel) == 1
  {
  }

  lemma NextPassRemaining(s: RunSettings, pass: int, fuel: nat)
    requires pass >= 1 && fuel > 0
    requires Passes(s).Some? ==> pass <= Passes(s).value
    requires !LastPass(s.loop, s.loopCount, pass)
    ensures Passes(s).Some? ==> pass + 1 <= Passes(s).value
    ensures Remaining(s, pass + 1, fuel - 1) + 1 == Remaining(s, pass, fuel)
  {
  }

  /** Passes a run makes within the fuel. */
  function PassesRun(s: RunSettings, fuel: nat): nat {
    Remaining(s, 1, fuel)
  }

  /** What follows a body raises no ActionExecuted event. */
  lemma FinishRaisesNoExecution(e: Ending, s: RunSettings, cursor: Point)
    ensures Executions(Notices(Finish(e, Cleanup(s, cursor), ActionRun))) == []
  {
    CleanupShape(s, cursor, cursor);
    ExecutionsOne(Stopped(ActionRun));
    if e == Faulted {
      NoticesAppend(Cleanup(s, cursor), [Fault(ActionRun)]);
      NoticesOne(Fault(ActionRun));
    }
  }

  /**
   * The events of a run are those of the blocks it reaches before the Stop
   * or the first negative action delay, a prefix of the reference events of
   * its passes: one pass when not looping, LoopCount passes when it is
   * positive, and as many as the fuel allows otherwise. A run that no Stop
   * cuts and whose waits all return raises all of them.
   */
  lemma RunEvents(r: Runner, actions: seq<ActionItem>, s: RunSettings, cursor: Point, fuel: nat, stop: nat)
    requires !r.isRunning && |actions| > 0
    ensures var body := Body(actions, s, fuel);
      var t := RunAsync(r, actions, s, cursor, fuel, stop).1;
      && Executions(Notices(t)) == Events(body[..HaltAt(body, stop)])
      && Executions(Notices(t)) <= ExpectedPasses(actions, 1, PassesRun(s, fuel))
      && (stop >= |body| && Returning(body) ==> Executions(Notices(t)) == ExpectedPasses(actions, 1, PassesRun(s, fuel)))
    ensures Passes(s) == Some(1) ==> PassesRun(s, fuel) == Min(1, fuel)
    ensures Exhausts(s, fuel) ==> PassesRun(s, fuel) == Passes(s).value
  {
    var body := Body(actions, s, fuel);
    var k := HaltAt(body, stop);
    var t := RunAsync(r, actions, s, cursor, fuel, stop).1;
    assert Executions(Notices(t)) == Events(body[..k]) by {
      assert t == [SetRunning(ActionRun, true)] + Halted(body, stop, stop < |body|, Cleanup(s, cursor), ActionRun);
      QuietUnroll(actions, s, 1, fuel);
      HaltedEvents(body, stop, stop < |body|, s, cursor);
    }
    PrefixEvents(actions, s, fuel, k);
  }

  /** The events of the first `k` blocks of a body: a prefix of its reference events, all of them at the end. */
  lemma PrefixEvents(actions: seq<ActionItem>, s: RunSettings, fuel: nat, k: nat)
    requires k <= |Body(actions, s, fuel)|
    ensures var body := Body(actions, s, fuel);
      && Events(body[..k]) <= ExpectedPasses(actions, 1, PassesRun(s, fuel))
      && (k == |body| ==> Events(body[..k]) == ExpectedPasses(actions, 1, PassesRun(s, fuel)))
  {
    var body := Body(actions, s, fuel);
    assert body == body[..k] + body[k..];
    EventsAppend(body[..k], body[k..]);
    UnrollEvents(actions, s, 1, fuel);
  }

  /** The events of a run over a quiet body are those of the blocks before the halt. */
  lemma HaltedEvents(body: seq<Block>, stop: nat, wake: bool, s: RunSettings, cursor: Point)
    requires QuietBlocks(body)
    ensures Executions(Notices([SetRunning(ActionRun, true)] + Halted(body, stop, wake, Cleanup(s, cursor), ActionRun)))
            == Events(body[..HaltAt(body, stop)])
  {
    var pre := body[..HaltAt(body, stop)];
    var fin := Finish(EndingOf(body, stop, wake), Cleanup(s, cursor), ActionRun);
    var head: seq<Step> := [SetRunning(ActionRun, true)];
    HaltedCut(body, stop, wake, Cleanup(s, cursor), ActionRun);
    assert head + Halted(body, stop, wake, Cleanup(s, cursor), ActionRun) == head + Flat(pre) + fin;
    NoticesOne(SetRunning(ActionRun, true));
    NoticesAppend(head, Flat(pre));
    NoticesAppend(head + Flat(pre), fin);
    FinishRaisesNoExecution(EndingOf(body, stop, wake), s, cursor);
    ExecutionsAppend(Notices(Flat(pre)), Notices(fin));
    assert Notices(head + Flat(pre)) == Notices(Flat(pre));
    assert Executions(Notices(Flat(pre))) + [] == Events(pre);
  }

  // ------------------------------------------------------------ delays that return

  /** Every enabled action's own delay is one `Task.Delay` returns from. */
  predicate NonNegativeDelays(actions: seq<ActionItem>) {
    forall i :: 0 <= i < |actions| && actions[i].isEnabled ==> actions[i].delayMs >= 0
  }

  /** Only an action's own negative delay stalls its repetitions: at its execution when it is a Delay action, else between repetitions. */
  lemma ExecutionStalls(a: ActionItem, i: int, pass: int)
    ensures Stalls(Execution(a, i, pass)) <==> a.kind == Delay && a.delayMs < 0
    ensures Stalls(Plain([Wait(a.delayMs)])) <==> a.delayMs < 0
  {
    if a.kind != Delay {
      var t := ExecuteAction(a);
      if |t| > 0 {
        assert t[0] == Input(InputsOf(t)[0]);
      }
      assert (t + [Notify(Executed(i, pass))])[0] == if |t| > 0 then t[0] else Notify(Executed(i, pass));
    }
  }

  lemma {:induction false} ReturningRepetitions(a: ActionItem, i: int, pass: int, r: int, n: int)
    requires a.delayMs >= 0
    ensures Returning(Repetitions(a, i, pass, r, n))
    decreases n - r
  {
    if r < n {
      ExecutionStalls(a, i, pass);
      ReturningRepetitions(a, i, pass, r + 1, n);
      var w: seq<Block> := if r < n - 1 then [Plain([Wait(a.delayMs)])] else [];
      ReturningAppend([Execution(a, i, pass)], w);
      ReturningAppend([Execution(a, i, pass)] + w, Repetitions(a, i, pass, r + 1, n));
    }
  }

  lemma {:induction false} ReturningPass(actions: seq<ActionItem>, i: nat, pass: int, d: int)
    requires NonNegativeDelays(actions)
    ensures Returning(PassBlocks(actions, i, pass, d))
    decreases |actions| - i
  {
    if i < |actions| {
      ReturningPass(actions, i + 1, pass, d);
      if actions[i].isEnabled {
        var reps := Repetitions(actions[i], i, pass, 0, actions[i].repeatCount);
        var w: seq<Block> := if i < |actions| - 1 && d > 0 then [Plain([Wait(d)])] else [];
        ReturningRepetitions(actions[i], i, pass, 0, actions[i].repeatCount);
        ReturningAppend(reps, w);
        ReturningAppend(reps + w, PassBlocks(actions, i + 1, pass, d));
      }
    }
  }

  lemma {:induction false} ReturningUnroll(actions: seq<ActionItem>, s: RunSettings, pass: int, fuel: nat)
    requires NonNegativeDelays(actions)
    ensures Returning(Unroll(actions, s, pass, fuel))
    decreases fuel
  {
    if fuel > 0 {
      var p := PassBlocks(actions, 0, pass, s.delayBetweenActions);
      ReturningPass(actions, 0, pass, s.delayBetweenActions);
      if LastPass(s.loop, s.loopCount, pass) {
        assert Unroll(actions, s, pass, fuel) == p + [];
      } else {
        var w: seq<Block> := if s.delayBetweenLoops > 0 then [Plain([Wait(s.delayBetweenLoops)])] else [];
        var rest := Unroll(actions, s, pass + 1, fuel - 1);
        ReturningUnroll(actions, s, pass + 1, fuel - 1);
        ReturningAppend(w, rest);
        ReturningAppend(p, w + rest);
        assert Unroll(actions, s, pass, fuel) == p + (w + rest);
      }
    }
  }

  /**
   * When no enabled action has a negative delay, every run returns: it is
   * the body cut by the Stop, then the cleanup, and the runner is idle.
   */
  lemma NonNegativeDelaysComplete(r: Runner, actions: seq<ActionItem>, s: RunSettings, cursor: Point, fuel: nat, stop: nat)
    requires !r.isRunning && |actions| > 0 && NonNegativeDelays(actions)
    ensures RunEnding(actions, s, fuel, stop) == Completed
    ensures RunAsync(r, actions, s, cursor, fuel, stop)
            == (Runner(false), [SetRunning(ActionRun, true)] + CutAt(Body(actions, s, fuel), stop) + Cleanup(s, cursor))
  {
    var body := Body(actions, s, fuel);
    ReturningUnroll(actions, s, 1, fuel);
    HaltedReturning(body, stop, stop < |body|, Cleanup(s, cursor), ActionRun);
    var head: seq<Step> := [SetRunning(ActionRun, true)];
    assert head + (CutAt(body, stop) + Cleanup(s, cursor)) == head + CutAt(body, stop) + Cleanup(s, cursor);
  }

  /**
   * The example of a two-action sequence looping twice: a click repeated
   * twice, then a 50 ms wait, raise (0,1) (0,1) (1,1) (0,2) (0,2) (1,2).
   */
  lemma TwoPassExample(cursor: Point)
    ensures var click := NewActionItem(0).(repeatCount := 2, delayMs := 10);
      var wait := NewActionItem(1).(kind := Delay, delayMs := 50);
      var s := RunSettings(true, 2, 0, 0, false);
      Executions(Notices(RunAsync(Runner(false), [click, wait], s, cursor, 2, |Body([click, wait], s, 2)|).1))
      == [ActionExecuted(0, 1), ActionExecuted(0, 1), ActionExecuted(1, 1),
          ActionExecuted(0, 2), ActionExecuted(0, 2), ActionExecuted(1, 2)]
  {
    var click := NewActionItem(0).(repeatCount := 2, delayMs := 10);
    var wait := NewActionItem(1).(kind := Delay, delayMs := 50);
    var s := RunSettings(true, 2, 0, 0, false);
    ReturningUnroll([click, wait], s, 1, 2);
    RunEvents(Runner(false), [click, wait], s, cursor, 2, |Body([click, wait], s, 2)|);
    TwoPassReference(click, wait);
  }

  /** The reference events of two passes over a twice-repeated action and a single one. */
  lemma TwoPassReference(click: ActionItem, wait: ActionItem)
    requires click.isEnabled && wait.isEnabled && click.repeatCount == 2 && wait.repeatCount == 1
    ensures ExpectedPasses([click, wait], 1, 2)
         == [ActionExecuted(0, 1), ActionExecuted(0, 1), ActionExecuted(1, 1),
             ActionExecuted(0, 2), ActionExecuted(0, 2), ActionExecuted(1, 2)]
  {
    var actions := [click, wait];
    var p1 := [ActionExecuted(0, 1), ActionExecuted(0, 1), ActionExecuted(1, 1)];
    var p2 := [ActionExecuted(0, 2), ActionExecuted(0, 2), ActionExecuted(1, 2)];
    assert ExpectedPass(actions, 0, 1) == p1 by {
      assert ExpectedPass(actions, 2, 1) == [];
      assert ExpectedPass(actions, 1, 1) == [ActionExecuted(1, 1)];
    }
    assert ExpectedPass(actions, 0, 2) == p2 by {
      assert ExpectedPass(actions, 2, 2) == [];
      assert ExpectedPass(actions, 1, 2) == [ActionExecuted(1, 2)];
    }
    assert ExpectedPasses(actions, 2, 1) == p2 by {
      assert ExpectedPasses(actions, 3, 0) == [];
      assert p2 + [] == p2;
    }
  }

  // ------------------------------------------------------------ negative delays

  lemma ExecutionNotices(a: ActionItem, i: int, pass: int)
    ensures Notices(Execution(a, i, pass).steps) == [Executed(i, pass)]
  {
    NoticesAppend(ExecuteAction(a), [Notify(Executed(i, pass))]);
    NoticesOne(Notify(Executed(i, pass)));
  }

  /** One pass over a single click repeated twice: click, the click's delay, click. */
  lemma TwoClicksBody(click: ActionItem)
    requires click.kind == Click && click.isEnabled && click.repeatCount == 2
    ensures Body([click], RunSettings(false, 0, 0, 0, false), 1)
            == [Execution(click, 0, 1), Plain([Wait(click.delayMs)]), Execution(click, 0, 1)]
  {
    var e := Execution(click, 0, 1);
    assert Repetitions(click, 0, 1, 2, 2) == [];
    assert Repetitions(click, 0, 1, 1, 2) == [e];
    assert Repetitions(click, 0, 1, 0, 2) == [e, Plain([Wait(click.delayMs)]), e];
    assert PassBlocks([click], 1, 1, 0) == [];
  }

  /** What a run over that body raises before it halts after the first click, ending with the cleanup. */
  lemma FirstClickNotices(click: ActionItem, cursor: Point, tail: seq<Step>)
    requires Notices(tail) == []
    ensures var s := RunSettings(false, 0, 0, 0, false);
      Notices([SetRunning(ActionRun, true)] + (Execution(click, 0, 1).steps + []) + Cleanup(s, cursor) + tail)
      == [ActionExecuted(0, 1), Stopped(ActionRun)]
  {
    var s := RunSettings(false, 0, 0, 0, false);
    var head: seq<Step> := [SetRunning(ActionRun, true)];
    var x := Execution(click, 0, 1).steps + [];
    ExecutionNotices(click, 0, 1);
    assert x == Execution(click, 0, 1).steps;
    NoticesOne(SetRunning(ActionRun, true));
    NoticesAppend(head, x);
    CleanupShape(s, cursor, cursor);
    NoticesAppend(head + x, Cleanup(s, cursor));
    NoticesAppend(head + x + Cleanup(s, cursor), tail);
  }

  /** Over that body, the first stalling wait is the click's delay. */
  lemma TwoClicksStall(click: ActionItem)
    requires click.kind == Click && click.isEnabled && click.repeatCount == 2 && click.delayMs < 0
    ensures var body := Body([click], RunSettings(false, 0, 0, 0, false), 1);
      && |body| == 3 && Stall(body) == 1
      && body[..1] == [Execution(click, 0, 1)]
      && Flat(body[..1]) == Execution(click, 0, 1).steps + []
  {
    var body := Body([click], RunSettings(false, 0, 0, 0, false), 1);
    TwoClicksBody(click);
    ExecutionStalls(click, 0, 1);
    assert body[1..][0] == body[1];
    assert Stall(body[1..]) == 0;
    assert body[..1] == [Execution(click, 0, 1)];
    assert Flat(body[..1]) == Execution(click, 0, 1).steps + Flat([]);
  }

  /**
   * A click repeated twice with a delay below -1, not stopped: the first
   * click and its event happen, then the delay throws; the cleanup still
   * runs and raises Stopped, and the call's task faults.
   */
  lemma NegativeDelayFaults(click: ActionItem, cursor: Point)
    requires click.kind == Click && click.isEnabled && click.repeatCount == 2 && click.delayMs < -1
    ensures var s := RunSettings(false, 0, 0, 0, false);
      var res := RunAsync(Runner(false), [click], s, cursor, 1, 3);
      && RunEnding([click], s, 1, 3) == Faulted
      && !res.0.isRunning
      && Notices(res.1) == [ActionExecuted(0, 1), Stopped(ActionRun)]
      && res.1[|res.1| - 1] == Fault(ActionRun)
  {
    var s := RunSettings(false, 0, 0, 0, false);
    var body := Body([click], s, 1);
    var x := Execution(click, 0, 1).steps + [];
    TwoClicksStall(click);
    assert EndingOf(body, 3, false) == Faulted;
    assert HaltAt(body, 3) == 1;
    assert CutAt(body, 1) == x;
    assert Halted(body, 3, false, Cleanup(s, cursor), ActionRun) == x + (Cleanup(s, cursor) + [Fault(ActionRun)]);
    assert RunAsync(Runner(false), [click], s, cursor, 1, 3).1
           == [SetRunning(ActionRun, true)] + x + Cleanup(s, cursor) + [Fault(ActionRun)];
    NoticesOne(Fault(ActionRun));
    FirstClickNotices(click, cursor, [Fault(ActionRun)]);
  }

  /**
   * A click repeated twice with a delay of -1, not stopped: after the
   * first click the run waits for good; the runner stays running and
   * raises no Stopped.
   */
  lemma InfiniteDelayHangs(click: ActionItem, cursor: Point)
    requires click.kind == Click && click.isEnabled && click.repeatCount == 2 && click.delayMs == -1
    ensures var s := RunSettings(false, 0, 0, 0, false);
      var res := RunAsync(Runner(false), [click], s, cursor, 1, 3);
      && RunEnding([click], s, 1, 3) == Hung
      && res.0.isRunning && Notices(res.1) == [ActionExecuted(0, 1)]
  {
    var s := RunSettings(false, 0, 0, 0, false);
    var body := Body([click], s, 1);
    var x := Execution(click, 0, 1).steps + [];
    var head: seq<Step> := [SetRunning(ActionRun, true)];
    TwoClicksStall(click);
    assert EndingOf(body, 3, false) == Hung;
    assert HaltAt(body, 3) == 1;
    assert RunAsync(Runner(false), [click], s, cursor, 1, 3).1 == head + x;
    assert x == Execution(click, 0, 1).steps;
    ExecutionNotices(click, 0, 1);
    assert Executed(0, 1) == ActionExecuted(0, 1);
    NoticesOne(SetRunning(ActionRun, true));
    NoticesAppend(head, x);
  }

  /** The same run with a Stop that comes while it waits: the wait ends and the run stops as usual. */
  lemma InfiniteDelayEndsAtStop(click: ActionItem, cursor: Point)
    requires click.kind == Click && click.isEnabled && click.repeatCount == 2 && click.delayMs == -1
    ensures var s := RunSettings(false, 0, 0, 0, false);
      var res := RunAsync(Runner(false), [click], s, cursor, 1, 2);
      && RunEnding([click], s, 1, 2) == Completed
      && !res.0.isRunning && Notices(res.1) == [ActionExecuted(0, 1), Stopped(ActionRun)]
  {
    var s := RunSettings(false, 0, 0, 0, false);
    var body := Body([click], s, 1);
    var x := Execution(click, 0, 1).steps + [];
    TwoClicksStall(click);
    assert EndingOf(body, 2, true) == Completed;
    assert HaltAt(body, 2) == 1;
    assert CutAt(body, 1) == x;
    assert RunAsync(Runner(false), [click], s, cursor, 1, 2).1
           == [SetRunning(ActionRun, true)] + x + Cleanup(s, cursor) + [];
    FirstClickNotices(click, cursor, []);
  }

  /**
   * A Delay action with a delay below -1: stopped before it, the run sees
   * the Stop at the check that comes before the delay and ends normally;
   * not stopped, the delay throws and the returned Task faults after the cleanup.
   */
  lemma NegativeDelayActionChecksFirst(wait: ActionItem, cursor: Point)
    requires wait.kind == Delay && wait.isEnabled && wait.repeatCount == 1 && wait.delayMs < -1
    ensures var s := RunSettings(false, 0, 0, 0, false);
      && RunAsync(Runner(false), [wait], s, cursor, 1, 0)
         == (Runner(false), [SetRunning(ActionRun, true)] + Cleanup(s, cursor))
      && RunAsync(Runner(false), [wait], s, cursor, 1, 1)
         == (Runner(false), [SetRunning(ActionRun, true)] + Cleanup(s, cursor) + [Fault(ActionRun)])
  {
    var s := RunSettings(false, 0, 0, 0, false);
    var e := Execution(wait, 0, 1);
    var head: seq<Step> := [SetRunning(ActionRun, true)];
    assert Repetitions(wait, 0, 1, 1, 1) == [];
    assert Repetitions(wait, 0, 1, 0, 1) == [e];
    assert PassBlocks([wait], 1, 1, 0) == [];
    assert Body([wait], s, 1) == [e];
    ExecutionStalls(wait, 0, 1);
    assert Stall([e]) == 0;
    assert CutAt([e], 0) == [];
    assert EndingOf([e], 0, true) == Completed;
    assert EndingOf([e], 1, false) == Faulted;
    assert Halted([e], 0, true, Cleanup(s, cursor), ActionRun) == [] + Cleanup(s, cursor);
    assert Halted([e], 1, false, Cleanup(s, cursor), ActionRun) == [] + (Cleanup(s, cursor) + [Fault(ActionRun)]);
    assert head + ([] + Cleanup(s, cursor)) == head + Cleanup(s, cursor);
    assert head + ([] + (Cleanup(s, cursor) + [Fault(ActionRun)])) == head + Cleanup(s, cursor) + [Fault(ActionRun)];
  }

  // ------------------------------------------------------------ waits

  lemma WaitsOne(b: Block)
    ensures Waits(Flat([b])) == Waits(b.steps)
  {
    assert Flat([b]) == b.steps + Flat([]);
    assert b.steps + [] == b.steps;
  }

  /** The waits of `m` repetitions: one between each two, and a Delay action's own wait in each. */
  function RepetitionWaitCount(a: ActionItem, m: int): int {
    if a.kind == Delay then 2 * m - 1 else m - 1
  }

  /**
   * The n - r remaining repetitions of an action are separated by waits of
   * its own delay, none after the last; a Delay action also waits once in
   * each repetition.
   */
  lemma {:induction false} RepetitionWaits(a: ActionItem, i: int, pass: int, r: int, n: int)
    requires r < n
    ensures Waits(Flat(Repetitions(a, i, pass, r, n))) == Repeat(a.delayMs, RepetitionWaitCount(a, n - r))
    decreases n - r
  {
    if r < n - 1 {
      RepetitionWaits(a, i, pass, r + 1, n);
      RepetitionWaitsStep(a, i, pass, r, n);
    } else {
      RepetitionWaitsLast(a, i, pass, r, n);
    }
  }

  /** The last repetition waits only for a Delay action's own wait. */
  lemma RepetitionWaitsLast(a: ActionItem, i: int, pass: int, r: int, n: int)
    requires r == n - 1
    ensures Waits(Flat(Repetitions(a, i, pass, r, n))) == Repeat(a.delayMs, RepetitionWaitCount(a, n - r))
  {
    assert Repetitions(a, i, pass, r + 1, n) == [];
    assert Repetitions(a, i, pass, r, n) == [Execution(a, i, pass)] + [] + [];
    RepetitionOwnWaits(a, i, pass);
    WaitsThree([Execution(a, i, pass)], [], []);
    assert Flat([]) == [];
  }

  /** A repetition that is not the last: its own wait, the action's delay, then the later repetitions. */
  lemma RepetitionWaitsStep(a: ActionItem, i: int, pass: int, r: int, n: int)
    requires r < n - 1
    requires Waits(Flat(Repetitions(a, i, pass, r + 1, n))) == Repeat(a.delayMs, RepetitionWaitCount(a, n - (r + 1)))
    ensures Waits(Flat(Repetitions(a, i, pass, r, n))) == Repeat(a.delayMs, RepetitionWaitCount(a, n - r))
  {
    var own := if a.kind == Delay then 1 else 0;
    var w: seq<Block> := [Plain([Wait(a.delayMs)])];
    var rest := Repetitions(a, i, pass, r + 1, n);
    assert Repetitions(a, i, pass, r, n) == [Execution(a, i, pass)] + w + rest;
    RepetitionOwnWaits(a, i, pass);
    WaitsThree([Execution(a, i, pass)], w, rest);
    WaitsOne(Plain([Wait(a.delayMs)]));
    var m := if a.kind == Delay then 2 * (n - r - 1) - 1 else n - r - 2;
    assert Waits(Flat(w)) == Repeat(a.delayMs, 1);
    RepeatAppend(a.delayMs, own, 1);
    RepeatAppend(a.delayMs, own + 1, m);
  }

  /** One repetition waits only when it is a Delay action's own wait. */
  lemma RepetitionOwnWaits(a: ActionItem, i: int, pass: int)
    ensures Waits(Flat([Execution(a, i, pass)]))
            == Repeat(a.delayMs, if a.kind == Delay then 1 else 0)
  {
    WaitsAppend(ExecuteAction(a), [Notify(Executed(i, pass))]);
    assert Waits([Notify(Executed(i, pass))]) == [];
    WaitsOne(Execution(a, i, pass));
    if a.kind == Delay {
      assert Repeat(a.delayMs, 1) == [a.delayMs];
    }
  }

  /** The waits of three runs of blocks, one after the other. */
  lemma WaitsThree(x: seq<Block>, y: seq<Block>, z: seq<Block>)
    ensures Waits(Flat(x + y + z)) == Waits(Flat(x)) + Waits(Flat(y)) + Waits(Flat(z))
  {
    FlatAppend(x + y, z);
    FlatAppend(x, y);
    WaitsAppend(Flat(x) + Flat(y), Flat(z));
    WaitsAppend(Flat(x), Flat(y));
  }

  /**
   * The between-actions delay follows every enabled action that is not last
   * in the whole list, even when everything after it is disabled.
   */
  lemma DisabledLastActionKeepsDelay(a: ActionItem, b: ActionItem, pass: int)
    requires a.isEnabled && !b.isEnabled && a.kind == Click && a.repeatCount == 1
    ensures Waits(Flat(PassBlocks([a, b], 0, pass, 100))) == [100]
  {
    var actions := [a, b];
    var reps := Repetitions(a, 0, pass, 0, 1);
    RepetitionWaits(a, 0, pass, 0, 1);
    assert PassBlocks(actions, 2, pass, 100) == [];
    assert PassBlocks(actions, 1, pass, 100) == [];
    assert PassBlocks(actions, 0, pass, 100) == reps + [Plain([Wait(100)])] + [];
    FlatAppend(reps, [Plain([Wait(100)])]);
    WaitsOne(Plain([Wait(100)]));
    WaitsAppend(Flat(reps), Flat([Plain([Wait(100)])]));
    assert Waits([Wait(100)]) == [100];
  }

  /** The waits of all of an action's repetitions in one pass. */
  function ActionWaits(a: ActionItem): seq<int> {
    if a.repeatCount <= 0 then []
    else Repeat(a.delayMs, RepetitionWaitCount(a, a.repeatCount))
  }

  /**
   * Reference for the waits of one pass from action i on: each enabled
   * action's own waits, then the between-actions delay `d` when it is
   * positive and the action is not the last of the list.
   */
  function ExpectedPassWaits(actions: seq<ActionItem>, i: nat, d: int): seq<int>
    decreases |actions| - i
  {
    if i >= |actions| then []
    else (if actions[i].isEnabled then ActionWaits(actions[i]) + (if i < |actions| - 1 && d > 0 then [d] else []) else [])
         + ExpectedPassWaits(actions, i + 1, d)
  }

  lemma ActionRepetitionWaits(a: ActionItem, i: int, pass: int)
    ensures Waits(Flat(Repetitions(a, i, pass, 0, a.repeatCount))) == ActionWaits(a)
  {
    if a.repeatCount > 0 {
      RepetitionWaits(a, i, pass, 0, a.repeatCount);
    } else {
      assert Repetitions(a, i, pass, 0, a.repeatCount) == [];
    }
  }

  /** A pass waits where the reference says: the between-actions delay only after enabled actions that are not last. */
  lemma {:induction false} PassWaits(actions: seq<ActionItem>, i: nat, pass: int, d: int)
    ensures Waits(Flat(PassBlocks(actions, i, pass, d))) == ExpectedPassWaits(actions, i, d)
    decreases |actions| - i
  {
    if i < |actions| {
      PassWaits(actions, i + 1, pass, d);
      if actions[i].isEnabled {
        var reps := Repetitions(actions[i], i, pass, 0, actions[i].repeatCount);
        var w: seq<Block> := if i < |actions| - 1 && d > 0 then [Plain([Wait(d)])] else [];
        ActionRepetitionWaits(actions[i], i, pass);
        WaitsOne(Plain([Wait(d)]));
        WaitOnly(d);
        assert Waits(Flat(w)) == (if i < |actions| - 1 && d > 0 then [d] else []);
        WaitsThree(reps, w, PassBlocks(actions, i + 1, pass, d));
      }
    }
  }

  /** The between-passes delay, when it is positive. */
  function LoopGap(s: RunSettings): seq<int> {
    if s.delayBetweenLoops > 0 then [s.delayBetweenLoops] else []
  }

  /** The waits of k passes, each waiting `pw`, with `gap` between one pass and the next. */
  function Spaced(pw: seq<int>, gap: seq<int>, k: nat): seq<int>
    decreases k
  {
    if k == 0 then [] else if k == 1 then pw else pw + gap + Spaced(pw, gap, k - 1)
  }

  /** The fuel runs out before the loop rule ends the run, so its last pass is followed by the between-passes delay. */
  predicate Unfinished(s: RunSettings, pass: int, fuel: nat) {
    fuel > 0 && (Passes(s).None? || Passes(s).value - pass + 1 > fuel)
  }

  /**
   * The passes of a run wait the reference waits of a pass each, with the
   * between-passes delay (when positive) between two passes and never
   * after the last one the loop rule allows.
   */
  lemma {:induction false} UnrollWaits(actions: seq<ActionItem>, s: RunSettings, pass: int, fuel: nat)
    requires pass >= 1
    requires Passes(s).Some? ==> pass <= Passes(s).value
    ensures Waits(Flat(Unroll(actions, s, pass, fuel)))
            == Spaced(ExpectedPassWaits(actions, 0, s.delayBetweenActions), LoopGap(s), Remaining(s, pass, fuel))
               + (if Unfinished(s, pass, fuel) then LoopGap(s) else [])
    decreases fuel
  {
    if fuel == 0 {
      assert Unroll(actions, s, pass, fuel) == [];
    } else if LastPass(s.loop, s.loopCount, pass) {
      LastPassWaits(actions, s, pass, fuel);
    } else {
      NextPassRemaining(s, pass, fuel);
      UnrollWaits(actions, s, pass + 1, fuel - 1);
      NextPassWaits(actions, s, pass, fuel);
    }
  }

  /** The pass the loop rule makes last waits one pass's reference waits and nothing after. */
  lemma LastPassWaits(actions: seq<ActionItem>, s: RunSettings, pass: int, fuel: nat)
    requires pass >= 1 && fuel > 0
    requires Passes(s).Some? ==> pass <= Passes(s).value
    requires LastPass(s.loop, s.loopCount, pass)
    ensures Waits(Flat(Unroll(actions, s, pass, fuel)))
            == Spaced(ExpectedPassWaits(actions, 0, s.delayBetweenActions), LoopGap(s), Remaining(s, pass, fuel))
               + (if Unfinished(s, pass, fuel) then LoopGap(s) else [])
  {
    var p := PassBlocks(actions, 0, pass, s.delayBetweenActions);
    var pw := ExpectedPassWaits(actions, 0, s.delayBetweenActions);
    PassWaits(actions, 0, pass, s.delayBetweenActions);
    assert Unroll(actions, s, pass, fuel) == p + [];
    assert p + [] == p;
    LastPassRemaining(s, pass, fuel);
    assert !Unfinished(s, pass, fuel);
    assert Spaced(pw, LoopGap(s), 1) + [] == pw;
  }

  /** A pass the loop rule does not make last waits its reference waits, the gap, then the waits of the passes after it. */
  lemma NextPassWaits(actions: seq<ActionItem>, s: RunSettings, pass: int, fuel: nat)
    requires pass >= 1 && fuel > 0
    requires Passes(s).Some? ==> pass <= Passes(s).value
    requires !LastPass(s.loop, s.loopCount, pass)
    requires Waits(Flat(Unroll(actions, s, pass + 1, fuel - 1)))
             == Spaced(ExpectedPassWaits(actions, 0, s.delayBetweenActions), LoopGap(s), Remaining(s, pass + 1, fuel - 1))
                + (if Unfinished(s, pass + 1, fuel - 1) then LoopGap(s) else [])
    ensures Waits(Flat(Unroll(actions, s, pass, fuel)))
            == Spaced(ExpectedPassWaits(actions, 0, s.delayBetweenActions), LoopGap(s), Remaining(s, pass, fuel))
               + (if Unfinished(s, pass, fuel) then LoopGap(s) else [])
  {
    var pw := ExpectedPassWaits(actions, 0, s.delayBetweenActions);
    var gap := LoopGap(s);
    var rest := Unroll(actions, s, pass + 1, fuel - 1);
    assert Waits(Flat(Unroll(actions, s, pass, fuel))) == pw + gap + Waits(Flat(rest)) by {
      var p := PassBlocks(actions, 0, pass, s.delayBetweenActions);
      var w: seq<Block> := if s.delayBetweenLoops > 0 then [Plain([Wait(s.delayBetweenLoops)])] else [];
      PassWaits(actions, 0, pass, s.delayBetweenActions);
      assert Unroll(actions, s, pass, fuel) == p + w + rest;
      WaitsThree(p, w, rest);
      WaitsOne(Plain([Wait(s.delayBetweenLoops)]));
      WaitOnly(s.delayBetweenLoops);
      assert Waits(Flat(w)) == gap;
    }
    var k := Remaining(s, pass + 1, fuel - 1);
    var u := if Unfinished(s, pass, fuel) then gap else [];
    var u' := if Unfinished(s, pass + 1, fuel - 1) then gap else [];
    assert Remaining(s, pass, fuel) == k + 1 && (k == 0 ==> u == gap && u' == []) && (k > 0 ==> u == u') by {
      NextPassRemaining(s, pass, fuel);
    }
    SpacedNext(pw, gap, k, u, u');
  }

  /** One more pass in front: its waits and the gap, then the later passes' waits. */
  lemma SpacedNext(pw: seq<int>, gap: seq<int>, k: nat, u: seq<int>, u': seq<int>)
    requires k == 0 ==> u == gap && u' == []
    requires k > 0 ==> u == u'
    ensures pw + gap + (Spaced(pw, gap, k) + u') == Spaced(pw, gap, k + 1) + u
  {
    if k == 0 {
      assert pw + gap + [] == Spaced(pw, gap, 1) + gap;
    } else {
      assert Spaced(pw, gap, k + 1) == pw + gap + Spaced(pw, gap, k);
    }
  }
}
