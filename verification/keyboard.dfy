/**
 * The simple auto-typer: either type a text character by character, or
 * press one key with modifiers, count what was sent, report the running
 * total, stop when the count is reached, until stopped.
 *
 * Text is sent as UTF-16 code units, as the source's `foreach` over a
 * string sees it: a character outside the Basic Multilingual Plane is two
 * units, and the text's length counts both.
 */
module KeyboardService {
  import opened Basics
  import opened Input
  import opened Trace
  import opened Models

  datatype Typist = Typist(isRunning: bool)

  // ------------------------------------------------------------ text as key strokes

  /** The UTF-16 code units of a text. */
  function Utf16(text: string): (units: seq<uint16>)
    ensures |units| >= |text|
    ensures (forall i :: 0 <= i < |text| ==> text[i] as int <= 0xFFFF) ==> |units| == |text|
  {
    if |text| == 0 then []
    else
      var c := text[0] as int;
      (if c <= 0xFFFF then [c]
       else [0xD800 + (c - 0x1_0000) / 0x400, 0xDC00 + (c - 0x1_0000) % 0x400])
      + Utf16(text[1..])
  }

  predicate IsUpperUnit(u: uint16) {
    'A' as int <= u <= 'Z' as int
  }

  /** The unit's upper-case form, the code sent for it. */
  function UpperUnit(u: uint16): (v: uint16)
    ensures !IsUpperUnit(u) && !('a' as int <= u <= 'z' as int) ==> v == u
    ensures 'a' as int <= u <= 'z' as int ==> IsUpperUnit(v) && v == u - 32
  {
    if 'a' as int <= u <= 'z' as int then u - 32 else u
  }

  /** One unit typed: its upper-case code pressed, inside Shift when the unit is an upper-case letter. */
  function UnitKeys(u: uint16): seq<InputEvent> {
    if IsUpperUnit(u) then [KeyDown(VkShift)] + KeyPress(UpperUnit(u)) + [KeyUp(VkShift)]
    else KeyPress(UpperUnit(u))
  }

  /** All units typed in order, no interval. */
  function Typed(units: seq<uint16>): seq<InputEvent>
    decreases |units|
  {
    if |units| == 0 then [] else UnitKeys(units[0]) + Typed(units[1..])
  }

  /** The codes of the keys that go down, other than Shift. */
  function Struck(evs: seq<InputEvent>): seq<uint16>
    decreases |evs|
  {
    if |evs| == 0 then []
    else (if evs[0].KeyDown? && evs[0].vk != VkShift then [evs[0].vk] else []) + Struck(evs[1..])
  }

  lemma {:induction false} StruckAppend(a: seq<InputEvent>, b: seq<InputEvent>)
    ensures Struck(a + b) == Struck(a) + Struck(b)
    decreases |a|
  {
    if |a| == 0 {
      assert a + b == b;
    } else {
      assert (a + b)[1..] == a[1..] + b;
      StruckAppend(a[1..], b);
    }
  }

  function UpperUnits(units: seq<uint16>): (r: seq<uint16>)
    ensures |r| == |units| && forall i :: 0 <= i < |units| ==> r[i] == UpperUnit(units[i])
  {
    seq(|units|, i requires 0 <= i < |units| => UpperUnit(units[i]))
  }

  /**
   * Typing strikes exactly the upper-case form of each unit, in order, and
   * leaves no key held; Shift goes down only around upper-case letters.
   */
  lemma {:induction false} TypedStrikesUnits(units: seq<uint16>)
    requires forall i :: 0 <= i < |units| ==> units[i] != VkShift
    ensures Struck(Typed(units)) == UpperUnits(units)
    ensures Held([], Typed(units)) == Some([])
    decreases |units|
  {
    if |units| > 0 {
      var u, tail := units[0], units[1..];
      assert forall i :: 0 <= i < |tail| ==> tail[i] == units[i + 1];
      TypedStrikesUnits(tail);
      assert Typed(units) == UnitKeys(u) + Typed(tail);
      StruckAppend(UnitKeys(u), Typed(tail));
      HeldAppend([], UnitKeys(u), Typed(tail));
      UnitKeysNested(u);
      UpperUnitsCons(units, tail);
    }
  }

  lemma UpperUnitsCons(units: seq<uint16>, tail: seq<uint16>)
    requires |units| > 0 && tail == units[1..]
    ensures UpperUnits(units) == [UpperUnit(units[0])] + UpperUnits(tail)
  {
    var r := [UpperUnit(units[0])] + UpperUnits(tail);
    assert forall i :: 0 <= i < |units| ==> r[i] == UpperUnit(units[i]);
  }

  lemma UnitKeysNested(u: uint16)
    requires u != VkShift
    ensures Struck(UnitKeys(u)) == [UpperUnit(u)]
    ensures Held([], UnitKeys(u)) == Some([])
  {
    var v := UpperUnit(u);
    PressNested([], v);
    if IsUpperUnit(u) {
      ShiftedNested(v);
    }
  }

  /**
   * U+0010 has VK_SHIFT's code and is not upper-case, so typing it is a
   * bare Shift press that is released again.
   */
  lemma ShiftCharKeys()
    ensures UnitKeys(VkShift) == KeyPress(VkShift)
    ensures Held([], UnitKeys(VkShift)) == Some([])
  {
    assert !IsUpperUnit(VkShift) && UpperUnit(VkShift) == VkShift;
    var evs := KeyPress(VkShift);
    assert Held([], evs) == Held([VkShift], evs[1..]);
  }

  /** A key pressed inside Shift strikes only that key and leaves nothing held. */
  lemma ShiftedNested(v: uint16)
    requires v != VkShift
    ensures Struck([KeyDown(VkShift)] + KeyPress(v) + [KeyUp(VkShift)]) == [v]
    ensures Held([], [KeyDown(VkShift)] + KeyPress(v) + [KeyUp(VkShift)]) == Some([])
  {
    var up: seq<InputEvent> := [KeyUp(VkShift)];
    var evs := [KeyDown(VkShift)] + KeyPress(v) + up;
    assert evs == [KeyDown(VkShift)] + ([KeyDown(v)] + ([KeyUp(v)] + up));
    assert Struck(evs) == [v] by {
      StruckStep(KeyDown(VkShift), [KeyDown(v)] + ([KeyUp(v)] + up));
      StruckStep(KeyDown(v), [KeyUp(v)] + up);
      StruckStep(KeyUp(v), up);
      StruckStep(KeyUp(VkShift), []);
    }
    assert Held([], evs) == Some([]) by {
      HeldDown([], VkShift, [KeyDown(v)] + ([KeyUp(v)] + up));
      assert [] + [VkShift] == [VkShift];
      HeldDown([VkShift], v, [KeyUp(v)] + up);
      HeldUp([VkShift], v, up);
      HeldUp([], VkShift, []);
      assert up + [] == up;
      assert [] + [VkShift] == [VkShift];
    }
  }

  lemma StruckStep(e: InputEvent, rest: seq<InputEvent>)
    ensures Struck([e] + rest) == (if e.KeyDown? && e.vk != VkShift then [e.vk] else []) + Struck(rest)
  {
    assert ([e] + rest)[1..] == rest;
  }

  /** A key press leaves the held keys as they were and strikes its key. */
  lemma PressNested(stack: seq<uint16>, v: uint16)
    requires v != VkShift
    ensures Held(stack, KeyPress(v)) == Some(stack)
    ensures Struck(KeyPress(v)) == [v]
  {
    var up: seq<InputEvent> := [KeyUp(v)];
    assert KeyPress(v) == [KeyDown(v)] + up;
    HeldDown(stack, v, up);
    assert up == up + [];
    HeldUp(stack, v, []);
    StruckStep(KeyDown(v), up);
    StruckStep(KeyUp(v), []);
  }

  /** PressKey mode: the flagged modifiers down (Ctrl, Alt, Shift), the key, the modifiers up in reverse. */
  function PressKeyInputs(s: KeyboardSettings): seq<InputEvent> {
    Chord(s.useCtrl, s.useAlt, s.useShift, s.keyCode)
  }

  /** A key press is well nested, and the key is down with exactly the flagged modifiers. */
  lemma PressKeyNested(s: KeyboardSettings)
    ensures Held([], PressKeyInputs(s)) == Some([])
    ensures Held([], Downs(Modifiers(s.useCtrl, s.useAlt, s.useShift)) + [KeyDown(s.keyCode)])
            == Some(Modifiers(s.useCtrl, s.useAlt, s.useShift) + [s.keyCode])
  {
    ChordIsNested([], s.useCtrl, s.useAlt, s.useShift, s.keyCode);
    assert [] + Modifiers(s.useCtrl, s.useAlt, s.useShift) == Modifiers(s.useCtrl, s.useAlt, s.useShift);
  }

  // ------------------------------------------------------------ the loop

  /** How far one pass advances the counter: the text's length, or one key. */
  function PassKeys(s: KeyboardSettings): nat {
    if s.mode == TypeText then |Utf16(s.textToType)| else 1
  }

  /** The report after a pass: the counter is an `int`, so it wraps. */
  function Report(total: int): Notice {
    KeyPressed(WrapInt32(total))
  }

  /**
   * Typing units i.. of a pass whose report is `report`: each unit starts
   * where the typing loop looks at the token (a Stop there ends the typing
   * early, and the pass still reports the full length), then waits the
   * interval (a Stop there aborts the run). The last wait is followed by
   * the pass's report.
   */
  function TypeBlocks(units: seq<uint16>, i: nat, interval: int, report: Notice): seq<Block>
    decreases |units| - i
  {
    if i >= |units| then []
    else
      [Block(Inputs(UnitKeys(units[i])), [Notify(report)]),
       Plain([Wait(interval)] + (if i == |units| - 1 then [Notify(report)] else []))]
      + TypeBlocks(units, i + 1, interval, report)
  }

  /** One pass after `n` keys: the outer loop's token check, then the typing or the key press, and the report. */
  function PassBlocks(s: KeyboardSettings, n: nat): seq<Block> {
    var total := n + PassKeys(s);
    if s.mode == PressKey then [Plain(Inputs(PressKeyInputs(s)) + [Notify(Report(total))])]
    else
      var units := Utf16(s.textToType);
      [Plain(if |units| == 0 then [Notify(Report(total))] else [])] + TypeBlocks(units, 0, s.intervalMs, Report(total))
  }

  /** The count reached after a pass. */
  predicate Reached(s: KeyboardSettings, total: int) {
    s.repeatMode == Count && WrapInt32(total) >= s.repeatCount
  }

  /** Passes after `n` keys, at most `fuel` of them; only PressKey waits between passes. */
  function Loop(s: KeyboardSettings, n: nat, fuel: nat): seq<Block>
    decreases fuel
  {
    if fuel == 0 then []
    else
      var total := n + PassKeys(s);
      PassBlocks(s, n)
      + (if Reached(s, total) then []
         else BetweenBlocks(s) + Loop(s, total, fuel - 1))
  }

  /** After a pass that does not reach the count, only PressKey waits the interval before the next. */
  function BetweenBlocks(s: KeyboardSettings): seq<Block> {
    if s.mode == PressKey then [Plain([Wait(s.intervalMs)])] else []
  }

  const KeyboardCleanup: seq<Step> := [SetRunning(KeyboardRun, false), Notify(Stopped(KeyboardRun))]

  /** How a run ends when a Stop comes before block `stop`; none comes when `stop` is past the end. */
  function KeyboardEnding(s: KeyboardSettings, fuel: nat, stop: nat): Ending {
    var body := Loop(s, 0, fuel);
    EndingOf(body, stop, stop < |body|)
  }

  /**
   * One call: nothing while a run is in progress; otherwise the passes,
   * cut by a Stop before block `stop` or halted at a negative interval,
   * then not running and one Stopped. An interval below -1 throws at its
   * first wait and the returned Task faults after the cleanup; an interval of -1
   * waits until a Stop, and without one the simulator stays running.
   */
  function StartAsync(k: Typist, s: KeyboardSettings, fuel: nat, stop: nat): (res: (Typist, seq<Step>))
    ensures k.isRunning ==> res == (k, [])
    ensures !k.isRunning ==>
      var body := Loop(s, 0, fuel);
      var e := KeyboardEnding(s, fuel, stop);
      && res.0.isRunning == (e == Hung)
      && res.1 == [SetRunning(KeyboardRun, true)] + Halted(body, stop, stop < |body|, KeyboardCleanup, KeyboardRun)
      && (e != Hung ==> StopCount(Notices(res.1), KeyboardRun) == 1)
      && (e != Hung ==> Notices(res.1)[|Notices(res.1)| - 1] == Stopped(KeyboardRun))
      && (e == Hung ==> NoStop(res.1, KeyboardRun))
      && (e == Faulted ==> res.1[|res.1| - 1] == Fault(KeyboardRun))
  {
    if k.isRunning then (k, [])
    else
      var body := Loop(s, 0, fuel);
      KeyboardStops(s, fuel, stop);
      (Typist(KeyboardEnding(s, fuel, stop) == Hung),
       [SetRunning(KeyboardRun, true)] + Halted(body, stop, stop < |body|, KeyboardCleanup, KeyboardRun))
  }

  // ------------------------------------------------------------ only reports

  /** Blocks whose steps and cancellation steps raise nothing but key-count reports. */
  predicate Reports(bs: seq<Block>) {
    forall k :: 0 <= k < |bs| ==>
      (forall e :: e in Notices(bs[k].steps) ==> e.KeyPressed?) && (forall e :: e in Notices(bs[k].onCut) ==> e.KeyPressed?)
  }

  lemma ReportsAppend(a: seq<Block>, b: seq<Block>)
    requires Reports(a) && Reports(b)
    ensures Reports(a + b)
  {
    forall k | 0 <= k < |a + b|
      ensures (forall e :: e in Notices((a + b)[k].steps) ==> e.KeyPressed?)
      ensures (forall e :: e in Notices((a + b)[k].onCut) ==> e.KeyPressed?)
    {
      if k < |a| {
        assert (a + b)[k] == a[k];
      } else {
        assert (a + b)[k] == b[k - |a|];
      }
    }
  }

  lemma ReportsThree(a: seq<Block>, b: seq<Block>, c: seq<Block>)
    requires Reports(a) && Reports(b) && Reports(c)
    ensures Reports(a + (b + c))
  {
    ReportsAppend(b, c);
    ReportsAppend(a, b + c);
  }

  lemma ReportsOne(steps: seq<Step>, onCut: seq<Step>)
    requires forall e :: e in Notices(steps) ==> e.KeyPressed?
    requires forall e :: e in Notices(onCut) ==> e.KeyPressed?
    ensures Reports([Block(steps, onCut)])
  {
  }

  lemma NoticesKeysOnly(evs: seq<InputEvent>, tail: seq<Step>)
    ensures Notices(Inputs(evs) + tail) == Notices(tail)
  {
    InputsOfInputs(evs);
    NoticesAppend(Inputs(evs), tail);
  }

  lemma ReportStep(total: int)
    ensures Notices([Notify(Report(total))]) == [Report(total)]
  {
    NoticesOne(Notify(Report(total)));
  }

  lemma {:induction false} TypeBlocksReport(units: seq<uint16>, i: nat, interval: int, report: Notice)
    requires report.KeyPressed?
    ensures Reports(TypeBlocks(units, i, interval, report))
    decreases |units| - i
  {
    if i < |units| {
      var tail: seq<Step> := if i == |units| - 1 then [Notify(report)] else [];
      NotifyOnly(report);
      NoticesOne(Wait(interval));
      NoticesKeysOnly(UnitKeys(units[i]), []);
      assert Inputs(UnitKeys(units[i])) + [] == Inputs(UnitKeys(units[i]));
      NoticesAppend([Wait(interval)], tail);
      assert Notices(tail) == [] || Notices(tail) == [report];
      ReportsOne(Inputs(UnitKeys(units[i])), [Notify(report)]);
      ReportsOne([Wait(interval)] + tail, []);
      TypeBlocksReport(units, i + 1, interval, report);
      ReportsAppend([Block(Inputs(UnitKeys(units[i])), [Notify(report)])], [Plain([Wait(interval)] + tail)]);
      ReportsAppend([Block(Inputs(UnitKeys(units[i])), [Notify(report)]), Plain([Wait(interval)] + tail)],
                    TypeBlocks(units, i + 1, interval, report));
    }
  }

  lemma PassReports(s: KeyboardSettings, n: nat)
    ensures Reports(PassBlocks(s, n))
  {
    if s.mode == PressKey {
      PressPassReports(s, n, n + PassKeys(s));
    } else {
      TextPassReports(s, n, n + PassKeys(s));
    }
  }

  lemma PressPassReports(s: KeyboardSettings, n: nat, total: int)
    requires s.mode == PressKey && total == n + PassKeys(s)
    ensures Reports(PassBlocks(s, n))
  {
    var steps := Inputs(PressKeyInputs(s)) + [Notify(Report(total))];
    assert PassBlocks(s, n) == [Plain(steps)];
    ReportStep(total);
    NoticesKeysOnly(PressKeyInputs(s), [Notify(Report(total))]);
    ReportsOne(steps, []);
  }

  lemma TextPassReports(s: KeyboardSettings, n: nat, total: int)
    requires s.mode != PressKey && total == n + PassKeys(s)
    ensures Reports(PassBlocks(s, n))
  {
    var units := Utf16(s.textToType);
    var head: seq<Step> := if |units| == 0 then [Notify(Report(total))] else [];
    var typing := TypeBlocks(units, 0, s.intervalMs, Report(total));
    assert PassBlocks(s, n) == [Plain(head)] + typing;
    ReportStep(total);
    ReportsOne(head, []);
    TypeBlocksReport(units, 0, s.intervalMs, Report(total));
    ReportsAppend([Plain(head)], typing);
  }

  lemma {:induction false} LoopReports(s: KeyboardSettings, n: nat, fuel: nat)
    ensures Reports(Loop(s, n, fuel))
    decreases fuel
  {
    if fuel == 0 {
      assert Loop(s, n, fuel) == [];
    } else {
      if !Reached(s, n + PassKeys(s)) {
        LoopReports(s, n + PassKeys(s), fuel - 1);
      }
      LoopReportsStep(s, n, fuel);
    }
  }

  /** One pass reports only key counts, and so do the passes after it when there are any. */
  lemma LoopReportsStep(s: KeyboardSettings, n: nat, fuel: nat)
    requires fuel > 0
    requires !Reached(s, n + PassKeys(s)) ==> Reports(Loop(s, n + PassKeys(s), fuel - 1))
    ensures Reports(Loop(s, n, fuel))
  {
    var pass := PassBlocks(s, n);
    PassReports(s, n);
    LoopBlocks(s, n, fuel);
    if !Reached(s, n + PassKeys(s)) {
      BetweenReports(s);
      ReportsThree(pass, BetweenBlocks(s), Loop(s, n + PassKeys(s), fuel - 1));
    } else {
      assert pass + [] == pass;
    }
  }

  /** The passes after `n` keys: one pass, then, unless it reached the count, the wait and the passes after it. */
  lemma LoopBlocks(s: KeyboardSettings, n: nat, fuel: nat)
    requires fuel > 0
    ensures Loop(s, n, fuel) == PassBlocks(s, n)
      + (if Reached(s, n + PassKeys(s)) then [] else BetweenBlocks(s) + Loop(s, n + PassKeys(s), fuel - 1))
  {
    var total := n + PassKeys(s);
    var more := if Reached(s, total) then [] else BetweenBlocks(s) + Loop(s, total, fuel - 1);
    assert Loop(s, n, fuel) == PassBlocks(s, n) + more;
  }

  lemma BetweenReports(s: KeyboardSettings)
    ensures Reports(BetweenBlocks(s))
  {
    if s.mode == PressKey {
      WaitOnly(s.intervalMs);
      ReportsOne([Wait(s.intervalMs)], []);
    }
  }

  /** A run raises Stopped once, last, unless it hangs; then none; a fault is its last step. */
  lemma KeyboardStops(s: KeyboardSettings, fuel: nat, stop: nat)
    ensures var body := Loop(s, 0, fuel);
      var t := [SetRunning(KeyboardRun, true)] + Halted(body, stop, stop < |body|, KeyboardCleanup, KeyboardRun);
      var e := KeyboardEnding(s, fuel, stop);
      && (e != Hung ==> StopCount(Notices(t), KeyboardRun) == 1 && Notices(t)[|Notices(t)| - 1] == Stopped(KeyboardRun))
      && (e == Hung ==> NoStop(t, KeyboardRun))
      && (e == Faulted ==> t[|t| - 1] == Fault(KeyboardRun))
  {
    var head := [SetRunning(KeyboardRun, true)];
    var bs := Loop(s, 0, fuel);
    assert NoStopBlocks(bs, KeyboardRun) by {
      LoopReports(s, 0, fuel);
    }
    assert NoStop(head, KeyboardRun) by {
      NoticesOne(head[0]);
    }
    CleanupStops();
    HaltedStops(head, bs, stop, stop < |bs|, KeyboardCleanup, KeyboardRun);
  }

  /** The cleanup raises Stopped and nothing else. */
  lemma CleanupStops()
    ensures Notices(KeyboardCleanup) == [Stopped(KeyboardRun)]
  {
    assert KeyboardCleanup == [KeyboardCleanup[0]] + [KeyboardCleanup[1]];
    NoticesAppend([KeyboardCleanup[0]], [KeyboardCleanup[1]]);
    NoticesOne(KeyboardCleanup[0]);
    NoticesOne(KeyboardCleanup[1]);
  }

  // ------------------------------------------------------------ whole passes

  /** The input one whole pass sends: every unit of the text, or the chord. */
  function PassInputs(s: KeyboardSettings): seq<InputEvent> {
    if s.mode == PressKey then PressKeyInputs(s) else Typed(Utf16(s.textToType))
  }

  /** The waits inside one pass: the interval after every unit typed. */
  function PassWaits(s: KeyboardSettings): seq<int> {
    if s.mode == PressKey then [] else Repeat(s.intervalMs, |Utf16(s.textToType)|)
  }

  /** The wait between two passes: only PressKey has one. */
  function Between(s: KeyboardSettings): seq<int> {
    if s.mode == PressKey then [s.intervalMs] else []
  }

  /** The reports of k passes after `n` keys, `d` keys a pass: n+d, n+2d, … */
  function KeyReports(n: int, d: nat, k: nat): (ns: seq<Notice>)
    ensures |ns| == k
    decreases k
  {
    if k == 0 then [] else [Report(n + d)] + KeyReports(n + d, d, k - 1)
  }

  /** Report j of k passes after `n` keys is the count after j+1 passes of `d` keys. */
  lemma MulSucc(i: nat, d: nat)
    ensures (i + 1) * d == i * d + d
  {
  }

  lemma {:induction false} KeyReportsAt(n: int, d: nat, k: nat, j: nat)
    requires j < k
    ensures KeyReports(n, d, k)[j] == Report(n + (j + 1) * d)
    decreases k
  {
    if j > 0 {
      var next, rest, i := n + d, k - 1, j - 1;
      assert KeyReports(n, d, k)[j] == KeyReports(next, d, rest)[i];
      KeyReportsAt(next, d, rest, i);
      assert i + 1 == j;
      MulSucc(j, d);
      assert next + j * d == n + (j + 1) * d;
    }
  }

  lemma Pair(b1: Block, b2: Block, rest: seq<Block>)
    ensures Flat([b1, b2] + rest) == b1.steps + (b2.steps + Flat(rest))
  {
    assert ([b1, b2] + rest)[1..] == [b2] + rest;
    assert ([b2] + rest)[1..] == rest;
  }

  /** Typing units i.. in full: their keys, one interval after each, and the pass's report once at the end. */
  lemma {:induction false} TypeBlocksFlat(units: seq<uint16>, i: nat, interval: int, report: Notice)
    requires i <= |units|
    ensures var t := Flat(TypeBlocks(units, i, interval, report));
      && Notices(t) == (if i < |units| then [report] else [])
      && InputsOf(t) == Typed(units[i..])
      && Waits(t) == Repeat(interval, |units| - i)
    decreases |units| - i
  {
    if i < |units| {
      TypeBlocksFlat(units, i + 1, interval, report);
      TypeBlocksFlatStep(units, i, interval, report);
    } else {
      assert TypeBlocks(units, i, interval, report) == [];
      assert units[i..] == [];
    }
  }

  /** Typing unit i, then the units after it as the induction hypothesis has them. */
  lemma TypeBlocksFlatStep(units: seq<uint16>, i: nat, interval: int, report: Notice)
    requires i < |units|
    requires var r := Flat(TypeBlocks(units, i + 1, interval, report));
      && Notices(r) == (if i + 1 < |units| then [report] else [])
      && InputsOf(r) == Typed(units[i + 1..])
      && Waits(r) == Repeat(interval, |units| - i - 1)
    ensures var t := Flat(TypeBlocks(units, i, interval, report));
      && Notices(t) == [report]
      && InputsOf(t) == Typed(units[i..])
      && Waits(t) == Repeat(interval, |units| - i)
  {
    var tail: seq<Step> := if i == |units| - 1 then [Notify(report)] else [];
    var t := Flat(TypeBlocks(units, i, interval, report));
    var r := Flat(TypeBlocks(units, i + 1, interval, report));
    TypeBlocksUnfold(units, i, interval, report);
    KeysThenWait(t, UnitKeys(units[i]), interval, tail + r);
    assert Notices(tail + r) == [report] && InputsOf(tail + r) == InputsOf(r) && Waits(tail + r) == Waits(r) by {
      NotifyOnly(report);
      ProjectAppend(tail, r);
    }
    TypedCons(units[i..]);
    assert units[i..][1..] == units[i + 1..];
  }

  lemma TypeBlocksUnfold(units: seq<uint16>, i: nat, interval: int, report: Notice)
    requires i < |units|
    ensures Flat(TypeBlocks(units, i, interval, report))
         == Inputs(UnitKeys(units[i]))
            + ([Wait(interval)] + ((if i == |units| - 1 then [Notify(report)] else []) + Flat(TypeBlocks(units, i + 1, interval, report))))
  {
    var tail: seq<Step> := if i == |units| - 1 then [Notify(report)] else [];
    var b1 := Block(Inputs(UnitKeys(units[i])), [Notify(report)]);
    var b2 := Plain([Wait(interval)] + tail);
    var rest := TypeBlocks(units, i + 1, interval, report);
    assert TypeBlocks(units, i, interval, report) == [b1, b2] + rest;
    Pair(b1, b2, rest);
    Assoc([Wait(interval)], tail, Flat(rest));
  }

  /** One whole pass: its keys, its waits, and one report of the new total. */
  lemma PassFlat(s: KeyboardSettings, n: nat)
    ensures var t := Flat(PassBlocks(s, n));
      && Notices(t) == [Report(n + PassKeys(s))]
      && InputsOf(t) == PassInputs(s)
      && Waits(t) == PassWaits(s)
  {
    if s.mode == PressKey {
      PressPassFlat(s, n);
    } else {
      TextPassFlat(s, n);
    }
  }

  lemma PressPassFlat(s: KeyboardSettings, n: nat)
    requires s.mode == PressKey
    ensures var t := Flat(PassBlocks(s, n));
      && Notices(t) == [Report(n + PassKeys(s))]
      && InputsOf(t) == PressKeyInputs(s)
      && Waits(t) == []
  {
    var rep := Report(n + PassKeys(s));
    var report := [Notify(rep)];
    var b := Plain(Inputs(PressKeyInputs(s)) + report);
    assert PassBlocks(s, n) == [b];
    assert Flat([b]) == b.steps by {
      assert [b][1..] == [];
    }
    InputsOfInputs(PressKeyInputs(s));
    ProjectAppend(Inputs(PressKeyInputs(s)), report);
    NotifyOnly(rep);
  }

  lemma TextPassFlat(s: KeyboardSettings, n: nat)
    requires s.mode == TypeText
    ensures var units := Utf16(s.textToType);
      var t := Flat(PassBlocks(s, n));
      && Notices(t) == [Report(n + PassKeys(s))]
      && InputsOf(t) == Typed(units)
      && Waits(t) == Repeat(s.intervalMs, |units|)
  {
    var units := Utf16(s.textToType);
    var rep := Report(n + PassKeys(s));
    var rest := TypeBlocks(units, 0, s.intervalMs, rep);
    if |units| == 0 {
      assert rest == [];
      assert PassBlocks(s, n) == [Plain([Notify(rep)])];
      assert Flat([Plain([Notify(rep)])]) == [Notify(rep)] by {
        assert [Plain([Notify(rep)])][1..] == [];
      }
      NotifyOnly(rep);
    } else {
      assert PassBlocks(s, n) == [Plain([])] + rest;
      assert Flat([Plain([])] + rest) == Flat(rest) by {
        assert ([Plain([])] + rest)[1..] == rest;
      }
      TypeBlocksFlat(units, 0, s.intervalMs, rep);
      assert units[0..] == units;
    }
  }

  /** In Count mode, every report but the last is below RepeatCount. */
  predicate Below(s: KeyboardSettings, ns: seq<Notice>) {
    s.repeatMode == Count ==> forall j :: 0 <= j < |ns| - 1 ==> ns[j].KeyPressed? && ns[j].keys < s.repeatCount
  }

  /** The last pass reached the count. */
  predicate Ended(s: KeyboardSettings, ns: seq<Notice>) {
    |ns| > 0 && ns[|ns| - 1].KeyPressed? && s.repeatMode == Count && ns[|ns| - 1].keys >= s.repeatCount
  }

  /**
   * What passes after `n` keys do when not stopped: T passes, T between 1
   * and the fuel, reporting n+d, n+2d, …; every report but the last is
   * below RepeatCount in Count mode, and the passes end before the fuel
   * only because the last report reached it. The input is T whole passes;
   * the waits are each pass's waits followed by the wait between passes,
   * except after the pass that reached the count.
   */
  predicate RunFacts(s: KeyboardSettings, n: nat, fuel: nat, t: seq<Step>) {
    PassFacts(s, n, fuel, Notices(t), InputsOf(t), Waits(t))
  }

  /** RunFacts stated on a run's reports `ns`, input `ins` and waits `ws`. */
  predicate PassFacts(s: KeyboardSettings, n: nat, fuel: nat, ns: seq<Notice>, ins: seq<InputEvent>, ws: seq<int>) {
    && ReportFacts(s, n, fuel, ns)
    && ins == Times(PassInputs(s), |ns|)
    && WaitFacts(s, ns, ws)
  }

  /** The reports of the passes after `n` keys, at most `fuel` of them. */
  predicate ReportFacts(s: KeyboardSettings, n: nat, fuel: nat, ns: seq<Notice>) {
    && ns == KeyReports(n, PassKeys(s), |ns|)
    && |ns| <= fuel && (fuel > 0 ==> |ns| > 0)
    && Below(s, ns)
    && (|ns| < fuel ==> Ended(s, ns))
  }

  /** The waits of the passes reported by `ns`: no wait follows the pass that reached the count. */
  predicate WaitFacts(s: KeyboardSettings, ns: seq<Notice>, ws: seq<int>) {
    ws + (if Ended(s, ns) then Between(s) else []) == Times(PassWaits(s) + Between(s), |ns|)
  }

  lemma {:induction false} LoopFlat(s: KeyboardSettings, n: nat, fuel: nat)
    ensures RunFacts(s, n, fuel, Flat(Loop(s, n, fuel)))
    decreases fuel, 1
  {
    if fuel > 0 {
      if Reached(s, n + PassKeys(s)) {
        LoopEnds(s, n, fuel);
      } else {
        LoopFlatStep(s, n, fuel);
      }
    }
  }

  /** One pass that does not reach the count, in front of the passes after it. */
  lemma {:induction false} LoopFlatStep(s: KeyboardSettings, n: nat, fuel: nat)
    requires fuel > 0 && !Reached(s, n + PassKeys(s))
    ensures RunFacts(s, n, fuel, Flat(Loop(s, n, fuel)))
    decreases fuel, 0
  {
    var next, rest := n + PassKeys(s), fuel - 1;
    LoopFlat(s, next, rest);
    LoopStep(s, n, fuel, next, rest);
  }

  /** A pass that reaches the count is the last one. */
  lemma LoopEnds(s: KeyboardSettings, n: nat, fuel: nat)
    requires fuel > 0 && Reached(s, n + PassKeys(s))
    ensures RunFacts(s, n, fuel, Flat(Loop(s, n, fuel)))
  {
    assert Loop(s, n, fuel) == PassBlocks(s, n) + [];
    assert PassBlocks(s, n) + [] == PassBlocks(s, n);
    PassFlat(s, n);
    LastPass(s, n, fuel, Flat(PassBlocks(s, n)));
  }

  lemma LastPass(s: KeyboardSettings, n: nat, fuel: nat, t: seq<Step>)
    requires fuel > 0 && Reached(s, n + PassKeys(s))
    requires Notices(t) == [Report(n + PassKeys(s))]
    requires InputsOf(t) == PassInputs(s)
    requires Waits(t) == PassWaits(s)
    ensures RunFacts(s, n, fuel, t)
  {
    assert KeyReports(n, PassKeys(s), 1) == [Report(n + PassKeys(s))];
    assert Times(PassInputs(s), 1) == PassInputs(s) + [];
    assert Times(PassWaits(s) + Between(s), 1) == PassWaits(s) + Between(s) + [];
  }

  /** The passes after `n` keys, given the facts about the passes after the first (`next` keys, `rest` fuel). */
  lemma LoopStep(s: KeyboardSettings, n: nat, fuel: nat, next: nat, rest: nat)
    requires fuel > 0 && !Reached(s, n + PassKeys(s))
    requires next == n + PassKeys(s) && rest == fuel - 1
    requires RunFacts(s, next, rest, Flat(Loop(s, next, rest)))
    ensures RunFacts(s, n, fuel, Flat(Loop(s, n, fuel)))
  {
    var t, m := Flat(Loop(s, n, fuel)), Flat(Loop(s, next, rest));
    LoopShape(s, n, fuel, next, rest);
    PassStep(s, n, fuel, next, rest, Notices(t), InputsOf(t), Waits(t), Notices(m), InputsOf(m), Waits(m));
  }

  /** LoopStep on the projections: one more pass in front of the passes after it. */
  lemma PassStep(s: KeyboardSettings, n: nat, fuel: nat, next: nat, rest: nat,
                 ns: seq<Notice>, it: seq<InputEvent>, wt: seq<int>,
                 ms: seq<Notice>, im: seq<InputEvent>, wm: seq<int>)
    requires fuel > 0 && !Reached(s, n + PassKeys(s))
    requires next == n + PassKeys(s) && rest == fuel - 1
    requires PassFacts(s, next, rest, ms, im, wm)
    requires ns == [Report(n + PassKeys(s))] + ms
    requires it == PassInputs(s) + im
    requires wt == PassWaits(s) + Between(s) + wm
    ensures PassFacts(s, n, fuel, ns, it, wt)
  {
    ReportFactsStep(s, n, fuel, next, rest, ns, ms);
    EndedCons(s, Report(n + PassKeys(s)), ms);
    InputsStep(it, im, PassInputs(s), |ms|);
    WaitFactsStep(s, ns, ms, wt, wm);
  }

  lemma ReportFactsStep(s: KeyboardSettings, n: nat, fuel: nat, next: nat, rest: nat, ns: seq<Notice>, ms: seq<Notice>)
    requires fuel > 0 && !Reached(s, n + PassKeys(s))
    requires next == n + PassKeys(s) && rest == fuel - 1
    requires ReportFacts(s, next, rest, ms)
    requires ns == [Report(n + PassKeys(s))] + ms
    ensures ReportFacts(s, n, fuel, ns)
  {
    ReportsStep(n, PassKeys(s), next, ns, ms);
    EndedCons(s, Report(n + PassKeys(s)), ms);
    BelowCons(s, Report(n + PassKeys(s)), ms);
  }

  lemma WaitFactsStep(s: KeyboardSettings, ns: seq<Notice>, ms: seq<Notice>, wt: seq<int>, wm: seq<int>)
    requires |ns| == |ms| + 1 && Ended(s, ns) == Ended(s, ms)
    requires WaitFacts(s, ms, wm)
    requires wt == PassWaits(s) + Between(s) + wm
    ensures WaitFacts(s, ns, wt)
  {
    WaitsStep(wt, wm, PassWaits(s) + Between(s), if Ended(s, ns) then Between(s) else [], |ms|);
  }

  lemma ReportsStep(n: int, d: nat, next: int, ns: seq<Notice>, ms: seq<Notice>)
    requires next == n + d
    requires ms == KeyReports(next, d, |ms|)
    requires ns == [Report(n + d)] + ms
    ensures ns == KeyReports(n, d, |ns|)
  {
    assert KeyReports(n, d, |ms| + 1) == [Report(n + d)] + KeyReports(n + d, d, |ms|);
  }

  lemma InputsStep(it: seq<InputEvent>, im: seq<InputEvent>, pass: seq<InputEvent>, k: nat)
    requires it == pass + im
    requires im == Times(pass, k)
    ensures it == Times(pass, k + 1)
  {
  }

  lemma EndedCons(s: KeyboardSettings, r: Notice, ms: seq<Notice>)
    requires r.KeyPressed? && !(s.repeatMode == Count && r.keys >= s.repeatCount)
    ensures Ended(s, [r] + ms) == Ended(s, ms)
  {
    if |ms| > 0 {
      assert ([r] + ms)[|ms|] == ms[|ms| - 1];
    }
  }

  lemma WaitsStep(wt: seq<int>, wm: seq<int>, pb: seq<int>, e: seq<int>, k: nat)
    requires wt == pb + wm
    requires wm + e == Times(pb, k)
    ensures wt + e == Times(pb, k + 1)
  {
    Assoc(pb, wm, e);
  }

  lemma BelowCons(s: KeyboardSettings, r: Notice, ms: seq<Notice>)
    requires r.KeyPressed? && (s.repeatMode == Count && |ms| > 0 ==> r.keys < s.repeatCount)
    requires Below(s, ms)
    ensures Below(s, [r] + ms)
  {
    var ns := [r] + ms;
    if s.repeatMode == Count {
      forall j | 0 <= j < |ns| - 1
        ensures ns[j].KeyPressed? && ns[j].keys < s.repeatCount
      {
        if j > 0 {
          assert ns[j] == ms[j - 1];
        }
      }
    }
  }

  /** The projections of the passes after `n` keys when the first pass does not reach the count. */
  lemma LoopShape(s: KeyboardSettings, n: nat, fuel: nat, next: nat, rest: nat)
    requires fuel > 0 && !Reached(s, n + PassKeys(s))
    requires next == n + PassKeys(s) && rest == fuel - 1
    ensures var m := Flat(Loop(s, next, rest));
      var t := Flat(Loop(s, n, fuel));
      && Notices(t) == [Report(n + PassKeys(s))] + Notices(m)
      && InputsOf(t) == PassInputs(s) + InputsOf(m)
      && Waits(t) == PassWaits(s) + Between(s) + Waits(m)
  {
    var p := Flat(PassBlocks(s, n));
    var f := Flat(BetweenBlocks(s));
    var m := Flat(Loop(s, next, rest));
    LoopUnfold(s, n, fuel, next, rest);
    PassFlat(s, n);
    BetweenFlat(s);
    PassThenMore(Flat(Loop(s, n, fuel)), p, f, m, Report(n + PassKeys(s)), PassInputs(s), PassWaits(s), Between(s));
  }

  lemma PassThenMore(t: seq<Step>, p: seq<Step>, f: seq<Step>, m: seq<Step>,
                     report: Notice, keys: seq<InputEvent>, waits: seq<int>, between: seq<int>)
    requires t == p + (f + m)
    requires Notices(p) == [report] && InputsOf(p) == keys && Waits(p) == waits
    requires Notices(f) == [] && InputsOf(f) == [] && Waits(f) == between
    ensures Notices(t) == [report] + Notices(m)
    ensures InputsOf(t) == keys + InputsOf(m)
    ensures Waits(t) == waits + between + Waits(m)
  {
    ThreeParts(p, f, m);
    assert [] + Notices(m) == Notices(m);
    assert [] + InputsOf(m) == InputsOf(m);
    Assoc(waits, between, Waits(m));
  }

  lemma LoopUnfold(s: KeyboardSettings, n: nat, fuel: nat, next: nat, rest: nat)
    requires fuel > 0 && !Reached(s, n + PassKeys(s))
    requires next == n + PassKeys(s) && rest == fuel - 1
    ensures Flat(Loop(s, n, fuel))
         == Flat(PassBlocks(s, n)) + (Flat(BetweenBlocks(s)) + Flat(Loop(s, next, rest)))
  {
    var w := BetweenBlocks(s);
    var more := Loop(s, next, rest);
    LoopOnward(s, n, fuel, next, rest);
    FlatAppend(PassBlocks(s, n), w + more);
    FlatAppend(w, more);
  }

  /** A pass that does not reach the count is followed by the wait and the passes after `next` keys. */
  lemma LoopOnward(s: KeyboardSettings, n: nat, fuel: nat, next: nat, rest: nat)
    requires fuel > 0 && !Reached(s, n + PassKeys(s))
    requires next == n + PassKeys(s) && rest == fuel - 1
    ensures Loop(s, n, fuel) == PassBlocks(s, n) + (BetweenBlocks(s) + Loop(s, next, rest))
  {
    LoopBlocks(s, n, fuel);
  }

  lemma ThreeParts(a: seq<Step>, b: seq<Step>, c: seq<Step>)
    ensures Notices(a + (b + c)) == Notices(a) + (Notices(b) + Notices(c))
    ensures InputsOf(a + (b + c)) == InputsOf(a) + (InputsOf(b) + InputsOf(c))
    ensures Waits(a + (b + c)) == Waits(a) + (Waits(b) + Waits(c))
  {
    ProjectAppend(b, c);
    ProjectAppend(a, b + c);
  }

  lemma BetweenFlat(s: KeyboardSettings)
    ensures var f := Flat(BetweenBlocks(s));
      Notices(f) == [] && InputsOf(f) == [] && Waits(f) == Between(s)
  {
    if s.mode == PressKey {
      var w := BetweenBlocks(s);
      assert Flat(w) == [Wait(s.intervalMs)] + Flat(w[1..]);
      assert w[1..] == [];
      assert [Wait(s.intervalMs)][1..] == [];
    }
  }

  // ------------------------------------------------------------ whole runs

  /** Start and finish add no input, no wait, and only the final Stopped unless the run hangs. */
  lemma RunFrame(body: seq<Step>, e: Ending)
    ensures var t := [SetRunning(KeyboardRun, true)] + (body + Finish(e, KeyboardCleanup, KeyboardRun));
      && Notices(t) == Notices(body) + (if e == Hung then [] else [Stopped(KeyboardRun)])
      && InputsOf(t) == InputsOf(body)
      && Waits(t) == Waits(body)
  {
    var head := [SetRunning(KeyboardRun, true)];
    var fin := Finish(e, KeyboardCleanup, KeyboardRun);
    assert Notices(head) == [] && InputsOf(head) == [] && Waits(head) == [] by {
      assert head[1..] == [];
    }
    FinishFrame(e);
    ProjectAppend(body, fin);
    ProjectAppend(head, body + fin);
  }

  lemma FinishFrame(e: Ending)
    ensures var fin := Finish(e, KeyboardCleanup, KeyboardRun);
      Notices(fin) == (if e == Hung then [] else [Stopped(KeyboardRun)]) && InputsOf(fin) == [] && Waits(fin) == []
  {
    assert Notices(KeyboardCleanup) == [Stopped(KeyboardRun)] && InputsOf(KeyboardCleanup) == [] && Waits(KeyboardCleanup) == [] by {
      assert KeyboardCleanup[1..][1..] == [];
    }
    if e == Faulted {
      ProjectAppend(KeyboardCleanup, [Fault(KeyboardRun)]);
      assert [Fault(KeyboardRun)][1..] == [];
    }
  }

  /** Whether the passes reach a wait that does not return on its own: a negative interval the loop gets to. */
  predicate Stuck(s: KeyboardSettings) {
    s.intervalMs < 0 && (if s.mode == PressKey then !Reached(s, 1) else |Utf16(s.textToType)| > 0)
  }

  /**
   * A run that is not stopped. When no negative interval is reached: T
   * passes (at least one), reporting the running key count after each; a
   * counted run ends after the first pass whose total reaches RepeatCount;
   * the input is T whole passes; then one Stopped. When one is reached,
   * the first wait throws (below -1) or waits for good (-1): PressKey has
   * pressed the key once and reported 1, TypeText has typed its first unit
   * and reports nothing, since the throw skips the pass's report.
   */
  lemma UnstoppedRun(k: Typist, s: KeyboardSettings, fuel: nat, stop: nat)
    requires !k.isRunning && fuel > 0 && stop >= |Loop(s, 0, fuel)|
    ensures var t := StartAsync(k, s, fuel, stop).1;
      var passes := |Notices(t)| - 1;
      !Stuck(s) ==>
        && KeyboardEnding(s, fuel, stop) == Completed
        && 1 <= passes <= fuel
        && Notices(t) == KeyReports(0, PassKeys(s), passes) + [Stopped(KeyboardRun)]
        && Below(s, Notices(t)[..passes])
        && (passes < fuel ==> Ended(s, Notices(t)[..passes]))
        && InputsOf(t) == Times(PassInputs(s), passes)
    ensures var t := StartAsync(k, s, fuel, stop).1;
      var e := KeyboardEnding(s, fuel, stop);
      var fin := if e == Hung then [] else [Stopped(KeyboardRun)];
      Stuck(s) ==>
        && e == (if s.intervalMs == -1 then Hung else Faulted)
        && Notices(t) == (if s.mode == PressKey then [Report(1)] else []) + fin
        && InputsOf(t) == (if s.mode == PressKey then PressKeyInputs(s) else UnitKeys(Utf16(s.textToType)[0]))
        && Waits(t) == []
  {
    if Stuck(s) {
      if s.mode == PressKey {
        StuckPress(k, s, fuel, stop);
      } else {
        TextStall(s, fuel);
        StuckText(k, s, fuel, stop);
      }
    } else {
      FreeRun(k, s, fuel, stop);
    }
  }

  /** A run that reaches no negative interval and is not stopped: its passes in full, then Stopped. */
  lemma FreeRun(k: Typist, s: KeyboardSettings, fuel: nat, stop: nat)
    requires !k.isRunning && fuel > 0 && stop >= |Loop(s, 0, fuel)| && !Stuck(s)
    ensures var t := StartAsync(k, s, fuel, stop).1;
      var passes := |Notices(t)| - 1;
      && KeyboardEnding(s, fuel, stop) == Completed
      && 1 <= passes <= fuel
      && Notices(t) == KeyReports(0, PassKeys(s), passes) + [Stopped(KeyboardRun)]
      && Below(s, Notices(t)[..passes])
      && (passes < fuel ==> Ended(s, Notices(t)[..passes]))
      && InputsOf(t) == Times(PassInputs(s), passes)
  {
    var bs := Loop(s, 0, fuel);
    assert Returning(bs) by {
      if s.intervalMs >= 0 || s.mode == TypeText {
        LoopReturns(s, 0, fuel);
      } else {
        PressStall(s, fuel);
      }
    }
    var body := Flat(bs);
    var t := StartAsync(k, s, fuel, stop).1;
    assert KeyboardEnding(s, fuel, stop) == Completed
        && t == [SetRunning(KeyboardRun, true)] + (body + Finish(Completed, KeyboardCleanup, KeyboardRun)) by {
      HaltedReturning(bs, stop, stop < |bs|, KeyboardCleanup, KeyboardRun);
    }
    assert RunFacts(s, 0, fuel, body) by {
      LoopFlat(s, 0, fuel);
    }
    FreeFrame(s, fuel, body, t);
  }

  /** The run's reports, input and waits, framed by the start and the cleanup. */
  lemma FreeFrame(s: KeyboardSettings, fuel: nat, body: seq<Step>, t: seq<Step>)
    requires fuel > 0 && RunFacts(s, 0, fuel, body)
    requires t == [SetRunning(KeyboardRun, true)] + (body + Finish(Completed, KeyboardCleanup, KeyboardRun))
    ensures var passes := |Notices(t)| - 1;
      && 1 <= passes <= fuel
      && Notices(t) == KeyReports(0, PassKeys(s), passes) + [Stopped(KeyboardRun)]
      && Below(s, Notices(t)[..passes])
      && (passes < fuel ==> Ended(s, Notices(t)[..passes]))
      && InputsOf(t) == Times(PassInputs(s), passes)
  {
    RunFrame(body, Completed);
    var ns := Notices(body);
    assert Notices(t) == ns + [Stopped(KeyboardRun)];
    assert (ns + [Stopped(KeyboardRun)])[..|ns|] == ns;
  }

  /** PressKey with a negative interval: one press and its report, then the wait between passes halts the run. */
  lemma StuckPress(k: Typist, s: KeyboardSettings, fuel: nat, stop: nat)
    requires !k.isRunning && s.mode == PressKey && s.intervalMs < 0 && !Reached(s, 1)
    requires fuel > 0 && stop >= |Loop(s, 0, fuel)|
    ensures var t := StartAsync(k, s, fuel, stop).1;
      var e := KeyboardEnding(s, fuel, stop);
      && e == (if s.intervalMs == -1 then Hung else Faulted)
      && Notices(t) == [Report(1)] + (if e == Hung then [] else [Stopped(KeyboardRun)])
      && InputsOf(t) == PressKeyInputs(s)
      && Waits(t) == []
  {
    var bs := Loop(s, 0, fuel);
    var e := KeyboardEnding(s, fuel, stop);
    PressStall(s, fuel);
    assert HaltAt(bs, stop) == 1;
    HaltedCut(bs, stop, stop < |bs|, KeyboardCleanup, KeyboardRun);
    PressPassFlat(s, 0);
    RunFrame(Flat(bs[..1]), e);
  }

  /** Non-empty TypeText with a negative interval: the first unit typed, then the wait after it halts the run. */
  lemma StuckText(k: Typist, s: KeyboardSettings, fuel: nat, stop: nat)
    requires !k.isRunning && s.mode == TypeText && s.intervalMs < 0 && |Utf16(s.textToType)| > 0
    requires fuel > 0 && stop > 2
    ensures var t := StartAsync(k, s, fuel, stop).1;
      var body := Loop(s, 0, fuel);
      var e := KeyboardEnding(s, fuel, stop);
      && e == (if s.intervalMs < -1 then Faulted else if stop < |body| then Completed else Hung)
      && Notices(t) == (if e == Hung then [] else [Stopped(KeyboardRun)])
      && InputsOf(t) == UnitKeys(Utf16(s.textToType)[0])
      && Waits(t) == []
  {
    var bs := Loop(s, 0, fuel);
    var units := Utf16(s.textToType);
    var e := KeyboardEnding(s, fuel, stop);
    TextStall(s, fuel);
    assert HaltAt(bs, stop) == 2;
    HaltedCut(bs, stop, stop < |bs|, KeyboardCleanup, KeyboardRun);
    var b1 := Block(Inputs(UnitKeys(units[0])), [Notify(Report(|units|))]);
    assert Flat(bs[..2]) == Inputs(UnitKeys(units[0])) by {
      Pair(Plain([]), b1, []);
      assert [Plain([]), b1] + [] == [Plain([]), b1];
      assert Flat([]) == [];
    }
    InputsOfInputs(UnitKeys(units[0]));
    RunFrame(Flat(bs[..2]), e);
  }

  /** A block that begins with input or a report, or is empty, does not stall. */
  lemma NoWaitFirst(evs: seq<InputEvent>, tail: seq<Step>, onCut: seq<Step>)
    requires |tail| > 0 ==> !tail[0].Wait?
    ensures !Stalls(Block(Inputs(evs) + tail, onCut))
  {
    if |evs| > 0 {
      assert (Inputs(evs) + tail)[0] == Input(evs[0]);
    } else {
      assert Inputs(evs) + tail == tail;
    }
  }

  lemma {:induction false} TypeBlocksReturn(units: seq<uint16>, i: nat, interval: int, report: Notice)
    requires interval >= 0
    ensures Returning(TypeBlocks(units, i, interval, report))
    decreases |units| - i
  {
    if i < |units| {
      var tail: seq<Step> := if i == |units| - 1 then [Notify(report)] else [];
      var b1 := Block(Inputs(UnitKeys(units[i])), [Notify(report)]);
      var b2 := Plain([Wait(interval)] + tail);
      NoWaitFirst(UnitKeys(units[i]), [], [Notify(report)]);
      assert Inputs(UnitKeys(units[i])) + [] == Inputs(UnitKeys(units[i]));
      assert ([Wait(interval)] + tail)[0] == Wait(interval);
      TypeBlocksReturn(units, i + 1, interval, report);
      ReturningAppend([b1, b2], TypeBlocks(units, i + 1, interval, report));
    }
  }

  /** A pass returns from every wait when the interval is not negative, or when it types nothing. */
  lemma PassReturns(s: KeyboardSettings, n: nat)
    requires s.intervalMs >= 0 || s.mode == TypeText
    requires s.intervalMs < 0 ==> |Utf16(s.textToType)| == 0
    ensures Returning(PassBlocks(s, n))
  {
    var total := n + PassKeys(s);
    if s.mode == PressKey {
      NoWaitFirst(PressKeyInputs(s), [Notify(Report(total))], []);
    } else {
      TextPassReturns(Utf16(s.textToType), s.intervalMs, Report(total));
    }
  }

  lemma TextPassReturns(units: seq<uint16>, interval: int, report: Notice)
    requires interval >= 0 || |units| == 0
    ensures Returning([Plain(if |units| == 0 then [Notify(report)] else [])] + TypeBlocks(units, 0, interval, report))
  {
    var head: seq<Step> := if |units| == 0 then [Notify(report)] else [];
    var typing := TypeBlocks(units, 0, interval, report);
    assert Returning(typing) by {
      if |units| > 0 {
        TypeBlocksReturn(units, 0, interval, report);
      }
    }
    assert Returning([Plain(head)]) by {
      NoWaitFirst([], head, []);
      assert Inputs([]) + head == head;
    }
    ReturningAppend([Plain(head)], typing);
  }

  /** The passes return from every wait when the interval is not negative, or when TypeText types nothing. */
  lemma {:induction false} LoopReturns(s: KeyboardSettings, n: nat, fuel: nat)
    requires s.intervalMs >= 0 || s.mode == TypeText
    requires s.intervalMs < 0 ==> |Utf16(s.textToType)| == 0
    ensures Returning(Loop(s, n, fuel))
    decreases fuel
  {
    if fuel > 0 {
      var next := n + PassKeys(s);
      if Reached(s, next) {
        LastPassReturns(s, n, fuel);
      } else {
        LoopReturns(s, next, fuel - 1);
        LoopReturnsStep(s, n, fuel, next);
      }
    }
  }

  lemma LastPassReturns(s: KeyboardSettings, n: nat, fuel: nat)
    requires s.intervalMs >= 0 || s.mode == TypeText
    requires s.intervalMs < 0 ==> |Utf16(s.textToType)| == 0
    requires fuel > 0 && Reached(s, n + PassKeys(s))
    ensures Returning(Loop(s, n, fuel))
  {
    PassReturns(s, n);
    LoopBlocks(s, n, fuel);
    assert Loop(s, n, fuel) == PassBlocks(s, n) + [];
  }

  lemma LoopReturnsStep(s: KeyboardSettings, n: nat, fuel: nat, next: nat)
    requires s.intervalMs >= 0 || s.mode == TypeText
    requires fuel > 0 && next == n + PassKeys(s) && !Reached(s, next)
    requires s.intervalMs < 0 ==> |Utf16(s.textToType)| == 0
    requires Returning(Loop(s, next, fuel - 1))
    ensures Returning(Loop(s, n, fuel))
  {
    PassReturns(s, n);
    var between := BetweenBlocks(s);
    var rest := Loop(s, next, fuel - 1);
    assert Returning(between) by {
      if s.mode == PressKey {
        assert between == [Plain([Wait(s.intervalMs)])];
        assert between[0].steps[0] == Wait(s.intervalMs);
      } else {
        assert between == [];
      }
    }
    assert Loop(s, n, fuel) == PassBlocks(s, n) + (between + rest) by {
      LoopOnward(s, n, fuel, next, fuel - 1);
    }
    ReturningJoin(Loop(s, n, fuel), PassBlocks(s, n), between, rest);
  }

  /** PressKey with a negative interval: the passes are one press when it reaches the count, else they stall at the wait after it. */
  lemma PressStall(s: KeyboardSettings, fuel: nat)
    requires s.mode == PressKey && s.intervalMs < 0 && fuel > 0
    ensures var bs := Loop(s, 0, fuel);
      && bs[..1] == PassBlocks(s, 0)
      && (Reached(s, 1) ==> |bs| == 1 && Returning(bs))
      && (!Reached(s, 1) ==> |bs| >= 2 && Stall(bs) == 1 && bs[1].onCut == [])
  {
    var bs := Loop(s, 0, fuel);
    var p := PassBlocks(s, 0);
    LoopBlocks(s, 0, fuel);
    NoWaitFirst(PressKeyInputs(s), [Notify(Report(1))], []);
    assert !Stalls(p[0]);
    if Reached(s, 1) {
      assert bs == p + [];
    } else {
      assert bs == p + ([Plain([Wait(s.intervalMs)])] + Loop(s, 1, fuel - 1));
      assert bs[1..][0] == Plain([Wait(s.intervalMs)]);
      assert Stall(bs[1..]) == 0;
    }
  }

  /** Non-empty TypeText with a negative interval stalls at the wait after its first unit. */
  lemma TextStall(s: KeyboardSettings, fuel: nat)
    requires s.mode == TypeText && s.intervalMs < 0 && fuel > 0 && |Utf16(s.textToType)| > 0
    ensures var bs := Loop(s, 0, fuel);
      var units := Utf16(s.textToType);
      && 2 * |units| < |bs|
      && Stall(bs) == 2
      && bs[..2] == [Plain([]), Block(Inputs(UnitKeys(units[0])), [Notify(Report(|units|))])]
      && bs[2].onCut == []
  {
    var bs := Loop(s, 0, fuel);
    var units := Utf16(s.textToType);
    var rep := Report(|units|);
    var tail: seq<Step> := if 0 == |units| - 1 then [Notify(rep)] else [];
    var b1 := Block(Inputs(UnitKeys(units[0])), [Notify(rep)]);
    var b2 := Plain([Wait(s.intervalMs)] + tail);
    var tb := TypeBlocks(units, 0, s.intervalMs, rep);
    var more := if Reached(s, |units|) then [] else BetweenBlocks(s) + Loop(s, |units|, fuel - 1);
    LoopBlocks(s, 0, fuel);
    assert tb == [b1, b2] + TypeBlocks(units, 1, s.intervalMs, rep);
    assert bs == ([Plain([])] + tb) + more;
    TypeBlocksLength(units, 0, s.intervalMs, rep);
    assert bs[0] == Plain([]) && bs[1] == b1 && bs[2] == b2;
    NoWaitFirst(UnitKeys(units[0]), [], [Notify(rep)]);
    assert Inputs(UnitKeys(units[0])) + [] == Inputs(UnitKeys(units[0]));
    assert ([Wait(s.intervalMs)] + tail)[0] == Wait(s.intervalMs);
    assert !Stalls(bs[0]) && !Stalls(bs[1]) && Stalls(bs[2]);
  }

  /** How long typing units i.. is in blocks. */
  lemma {:induction false} TypeBlocksLength(units: seq<uint16>, i: nat, interval: int, report: Notice)
    requires i <= |units|
    ensures |TypeBlocks(units, i, interval, report)| == 2 * (|units| - i)
    decreases |units| - i
  {
    if i < |units| {
      TypeBlocksLength(units, i + 1, interval, report);
    }
  }

  /**
   * A Stop seen while typing unit i+m: units i .. i+m-1 typed with their
   * intervals, and the typing loop's break still lets the pass report its
   * full total.
   */
  lemma TypeCut(units: seq<uint16>, i: nat, interval: int, report: Notice, m: nat)
    requires i + m < |units|
    ensures var t := CutAt(TypeBlocks(units, i, interval, report), 2 * m);
      && Notices(t) == [report]
      && InputsOf(t) == Typed(units[i..i + m])
      && Waits(t) == Repeat(interval, m)
  {
    TypeCutNotices(units, i, interval, report, m);
    TypeCutInputs(units, i, interval, report, m);
    TypeCutWaits(units, i, interval, report, m);
  }

  /** Cutting the typing of units i.. before unit i+m: the first unit and its wait whole, then the rest cut. */
  lemma TypeCutUnfold(units: seq<uint16>, i: nat, interval: int, report: Notice, m: nat)
    requires i + m < |units|
    ensures m == 0 ==> CutAt(TypeBlocks(units, i, interval, report), 0) == [Notify(report)]
    ensures m > 0 ==>
      (CutAt(TypeBlocks(units, i, interval, report), 2 * m)
       == Inputs(UnitKeys(units[i])) + ([Wait(interval)] + CutAt(TypeBlocks(units, i + 1, interval, report), 2 * (m - 1))))
  {
    var bs := TypeBlocks(units, i, interval, report);
    var b1 := Block(Inputs(UnitKeys(units[i])), [Notify(report)]);
    if m == 0 {
      assert bs[0] == b1;
      assert bs[..0] == [];
    } else {
      var b2 := Plain([Wait(interval)]);
      var rest := TypeBlocks(units, i + 1, interval, report);
      assert [Wait(interval)] + [] == [Wait(interval)];
      assert bs == [b1] + ([b2] + rest);
      CutCons(b1, [b2] + rest, 2 * m - 1);
      CutCons(b2, rest, 2 * (m - 1));
    }
  }

  lemma {:induction false} TypeCutNotices(units: seq<uint16>, i: nat, interval: int, report: Notice, m: nat)
    requires i + m < |units|
    ensures Notices(CutAt(TypeBlocks(units, i, interval, report), 2 * m)) == [report]
    decreases m
  {
    TypeCutUnfold(units, i, interval, report, m);
    if m == 0 {
      NotifyOnly(report);
    } else {
      TypeCutNotices(units, i + 1, interval, report, m - 1);
      TypeCutNoticesStep(units, i, interval, report, m);
    }
  }

  lemma TypeCutNoticesStep(units: seq<uint16>, i: nat, interval: int, report: Notice, m: nat)
    requires i + m < |units| && m > 0
    requires Notices(CutAt(TypeBlocks(units, i + 1, interval, report), 2 * (m - 1))) == [report]
    ensures Notices(CutAt(TypeBlocks(units, i, interval, report), 2 * m)) == [report]
  {
    TypeCutUnfold(units, i, interval, report, m);
    var keys := Inputs(UnitKeys(units[i]));
    var c := CutAt(TypeBlocks(units, i + 1, interval, report), 2 * (m - 1));
    InputsOfInputs(UnitKeys(units[i]));
    WaitOnly(interval);
    ThreeParts(keys, [Wait(interval)], c);
    assert Notices(keys) + (Notices([Wait(interval)]) + Notices(c)) == [] + ([] + [report]);
  }

  lemma {:induction false} TypeCutWaits(units: seq<uint16>, i: nat, interval: int, report: Notice, m: nat)
    requires i + m < |units|
    ensures Waits(CutAt(TypeBlocks(units, i, interval, report), 2 * m)) == Repeat(interval, m)
    decreases m
  {
    TypeCutStep(units, i, interval, report, m);
    if m > 0 {
      TypeCutWaits(units, i + 1, interval, report, m - 1);
    }
  }

  lemma {:induction false} TypeCutInputs(units: seq<uint16>, i: nat, interval: int, report: Notice, m: nat)
    requires i + m < |units|
    ensures InputsOf(CutAt(TypeBlocks(units, i, interval, report), 2 * m)) == Typed(units[i..i + m])
  {
    TypeCutTyped(units, i, interval, report, m);
  }

  /** A typing cut after m units has typed the keys of exactly those units. */
  predicate CutTyped(units: seq<uint16>, i: nat, interval: int, report: Notice, m: nat)
    requires i + m < |units|
  {
    InputsOf(CutAt(TypeBlocks(units, i, interval, report), 2 * m)) == Typed(units[i..i + m])
  }

  lemma {:induction false} TypeCutTyped(units: seq<uint16>, i: nat, interval: int, report: Notice, m: nat)
    requires i + m < |units|
    ensures CutTyped(units, i, interval, report, m)
    decreases m
  {
    if m == 0 {
      TypeCutInputsNone(units, i, interval, report);
    } else {
      var j, k := i + 1, m - 1;
      TypeCutTyped(units, j, interval, report, k);
      TypeCutInputsStep(units, i, interval, report, m, j, k);
    }
  }

  lemma TypeCutInputsNone(units: seq<uint16>, i: nat, interval: int, report: Notice)
    requires i < |units|
    ensures CutTyped(units, i, interval, report, 0)
  {
    TypeCutStep(units, i, interval, report, 0);
    assert units[i..i] == [];
  }

  /** One unit more: the cut typing from unit i is that unit's keys, then the cut typing from i + 1. */
  lemma TypeCutInputsStep(units: seq<uint16>, i: nat, interval: int, report: Notice, m: nat, j: nat, k: nat)
    requires i + m < |units| && m > 0
    requires j == i + 1 && k == m - 1
    requires CutTyped(units, j, interval, report, k)
    ensures CutTyped(units, i, interval, report, m)
  {
    TypeCutKeys(units, i, interval, report, m, j, k);
    TypedSlice(units, i, m, j, k);
  }

  /** The inputs of a cut typing from unit i, in terms of the cut typing from unit j = i + 1. */
  lemma TypeCutKeys(units: seq<uint16>, i: nat, interval: int, report: Notice, m: nat, j: nat, k: nat)
    requires i + m < |units| && m > 0
    requires j == i + 1 && k == m - 1
    ensures InputsOf(CutAt(TypeBlocks(units, i, interval, report), 2 * m))
         == UnitKeys(units[i]) + InputsOf(CutAt(TypeBlocks(units, j, interval, report), 2 * k))
  {
    TypeCutStep(units, i, interval, report, m);
  }

  /** The keys typed for units i..i+m are unit i's keys, then those of units i+1..i+m. */
  lemma TypedSlice(units: seq<uint16>, i: nat, m: nat, j: nat, k: nat)
    requires i + m <= |units| && m > 0
    requires j == i + 1 && k == m - 1
    ensures Typed(units[i..i + m]) == UnitKeys(units[i]) + Typed(units[j..j + k])
  {
    var w := units[i..i + m];
    assert w[0] == units[i] && w[1..] == units[j..j + k];
    TypedCons(w);
  }

  /** The projections of one step of a cut typing: nothing when cut at once, else the unit's keys and one wait. */
  lemma TypeCutStep(units: seq<uint16>, i: nat, interval: int, report: Notice, m: nat)
    requires i + m < |units|
    ensures var t := CutAt(TypeBlocks(units, i, interval, report), 2 * m);
      m == 0 ==> InputsOf(t) == [] && Waits(t) == []
    ensures var t := CutAt(TypeBlocks(units, i, interval, report), 2 * m);
      m > 0 ==>
        var c := CutAt(TypeBlocks(units, i + 1, interval, report), 2 * (m - 1));
        && InputsOf(t) == UnitKeys(units[i]) + InputsOf(c)
        && Waits(t) == [interval] + Waits(c)
  {
    TypeCutUnfold(units, i, interval, report, m);
    if m == 0 {
      NotifyOnly(report);
    } else {
      var c := CutAt(TypeBlocks(units, i + 1, interval, report), 2 * (m - 1));
      KeysThenWait(CutAt(TypeBlocks(units, i, interval, report), 2 * m), UnitKeys(units[i]), interval, c);
    }
  }

  lemma KeysThenWait(t: seq<Step>, keys: seq<InputEvent>, interval: int, c: seq<Step>)
    requires t == Inputs(keys) + ([Wait(interval)] + c)
    ensures Notices(t) == Notices(c)
    ensures InputsOf(t) == keys + InputsOf(c)
    ensures Waits(t) == [interval] + Waits(c)
  {
    InputsOfInputs(keys);
    WaitOnly(interval);
    ThreeParts(Inputs(keys), [Wait(interval)], c);
  }

  lemma TypedCons(units: seq<uint16>)
    requires |units| > 0
    ensures Typed(units) == UnitKeys(units[0]) + Typed(units[1..])
  {
  }

  /**
   * A Stop during the first pass of TypeText, while unit j is due: only
   * units 0 .. j-1 have been typed, yet the count reported is the whole
   * text's length, then Stopped. With a negative interval the run never
   * gets past the wait after unit 0: for j > 0 it has typed that unit,
   * reports nothing, and below -1 its task faults.
   */
  lemma StopWhileTyping(k: Typist, s: KeyboardSettings, fuel: nat, j: nat)
    requires !k.isRunning && s.mode == TypeText && fuel > 0 && j < |Utf16(s.textToType)|
    ensures var t := StartAsync(k, s, fuel, 1 + 2 * j).1;
      var units := Utf16(s.textToType);
      var stuck := s.intervalMs < 0 && j > 0;
      && KeyboardEnding(s, fuel, 1 + 2 * j) == (if stuck && s.intervalMs < -1 then Faulted else Completed)
      && Notices(t) == (if stuck then [] else [KeyPressed(WrapInt32(|units|))]) + [Stopped(KeyboardRun)]
      && InputsOf(t) == Typed(units[..if stuck then 1 else j])
      && Waits(t) == Repeat(s.intervalMs, if stuck then 0 else j)
  {
    var units := Utf16(s.textToType);
    if s.intervalMs < 0 && j > 0 {
      TextStall(s, fuel);
      StuckText(k, s, fuel, 1 + 2 * j);
      assert Typed(units[..1]) == UnitKeys(units[0]) by {
        TypedCons(units[..1]);
        assert units[..1][1..] == [];
      }
    } else {
      var cut := CutAt(TypeBlocks(units, 0, s.intervalMs, Report(|units|)), 2 * j);
      var t := StartAsync(k, s, fuel, 1 + 2 * j).1;
      StopBeforeStall(s, fuel, j);
      FirstPassCut(s, fuel, j);
      assert t == [SetRunning(KeyboardRun, true)] + (cut + KeyboardCleanup);
      TypeCut(units, 0, s.intervalMs, Report(|units|), j);
      assert units[0..0 + j] == units[..j];
      assert InputsOf(cut) == Typed(units[..j]);
      RunFrame(cut, Completed);
    }
  }

  /** A Stop at unit j of the first pass comes before any wait that could halt the run. */
  lemma StopBeforeStall(s: KeyboardSettings, fuel: nat, j: nat)
    requires s.mode == TypeText && fuel > 0 && j < |Utf16(s.textToType)|
    requires s.intervalMs >= 0 || j == 0
    ensures var bs := Loop(s, 0, fuel);
      && KeyboardEnding(s, fuel, 1 + 2 * j) == Completed
      && Halted(bs, 1 + 2 * j, 1 + 2 * j < |bs|, KeyboardCleanup, KeyboardRun) == CutAt(bs, 1 + 2 * j) + KeyboardCleanup
  {
    var bs := Loop(s, 0, fuel);
    if s.intervalMs >= 0 {
      LoopReturns(s, 0, fuel);
      HaltedReturning(bs, 1 + 2 * j, 1 + 2 * j < |bs|, KeyboardCleanup, KeyboardRun);
    } else {
      TextStall(s, fuel);
    }
  }

  lemma FirstPassCut(s: KeyboardSettings, fuel: nat, j: nat)
    requires s.mode == TypeText && fuel > 0 && j < |Utf16(s.textToType)|
    ensures var units := Utf16(s.textToType);
      CutAt(Loop(s, 0, fuel), 1 + 2 * j) == CutAt(TypeBlocks(units, 0, s.intervalMs, Report(|units|)), 2 * j)
  {
    var units := Utf16(s.textToType);
    var total := |units|;
    var head := Plain([]);
    var tb := TypeBlocks(units, 0, s.intervalMs, Report(total));
    var more := if Reached(s, total) then [] else BetweenBlocks(s) + Loop(s, total, fuel - 1);
    assert Loop(s, 0, fuel) == ([head] + tb) + more by {
      assert PassBlocks(s, 0) == [head] + tb;
    }
    assert 1 + 2 * j < |[head] + tb| by {
      TypeBlocksLength(units, 0, s.intervalMs, Report(total));
    }
    CutInPrefix([head] + tb, more, 1 + 2 * j);
    CutCons(head, tb, 2 * j);
  }
}
