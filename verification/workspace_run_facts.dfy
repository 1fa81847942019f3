/**
 * What a workspace run reports, how a profile's run inside it matches the
 * action runner's own run, and what a Stop does while the run is parked
 * at the pause gate.
 */
module WorkspaceRunFacts {
  import opened Basics
  import opened Input
  import opened Trace
  import opened ActionItems
  import opened Jobs
  import opened Models
  import opened ProfileService
  import AR = ActionRunnerService
  import opened WorkspaceRunnerService
  import opened WorkspaceJobReports

  // ------------------------------------------------------------ what a run reports

  /** The progress events a trace raises, in order. */
  function ProgressIn(t: seq<Step>): seq<Notice> {
    ProgressOf(Notices(t))
  }

  lemma ProgressInAppend(a: seq<Step>, b: seq<Step>)
    ensures ProgressIn(a + b) == ProgressIn(a) + ProgressIn(b)
  {
    NoticesAppend(a, b);
    ProgressAppend(Notices(a), Notices(b));
  }

  lemma FlatBlocksAppend(a: seq<Stage>, b: seq<Stage>)
    ensures Flat(Blocks(a + b)) == Flat(Blocks(a)) + Flat(Blocks(b))
  {
    assert Blocks(a + b) == Blocks(a) + Blocks(b);
    FlatAppend(Blocks(a), Blocks(b));
  }

  lemma FlatBlocksOne(sg: Stage)
    ensures Flat(Blocks([sg])) == sg.block.steps
  {
    assert Blocks([sg]) == [sg.block];
    assert Flat([sg.block]) == sg.block.steps + Flat([]);
  }

  /**
   * The progress events of the stages are the open stage's and then the
   * plan's reports, in order, up to where the fuel leaves an inner run
   * unfinished.
   */
  lemma {:induction false} ExecProgress(items: seq<Item>, fuel: nat, open: Stage, pos: Point)
    requires ProgressReports(items)
    ensures ProgressIn(Flat(Blocks(Exec(items, fuel, open, pos))))
         == ProgressIn(open.block.steps) + Reports(Reached(items, fuel))
    decreases |items|
  {
    if |items| == 0 {
      FlatBlocksOne(open);
      assert Exec(items, fuel, open, pos) == [open];
    } else {
      var rest := items[1..];
      ProgressReportsTail(items, rest);
      match items[0]
      case Gate =>
        ExecProgress(rest, fuel, Stage(Plain([]), AtGate), pos);
        assert ProgressIn([]) == [];
        CloseProgress(items, fuel, open, Stage(Plain([]), AtGate), pos);
      case Interval(ms) =>
        ExecProgress(rest, fuel, Stage(Plain([Wait(ms)]), AtInterval), pos);
        assert ProgressIn([Wait(ms)]) == [] by {
          assert Notices([Wait(ms)]) == [] + Notices([]);
        }
        CloseProgress(items, fuel, open, Stage(Plain([Wait(ms)]), AtInterval), pos);
      case Report(n) =>
        ExecProgress(rest, fuel, Extend(open, [Notify(n)]), pos);
        ReportStepProgress(items, fuel, open, pos);
      case Invoke(a, s) =>
        if AR.Exhausts(s, fuel) {
          ExecProgress(rest, fuel, RunEnd(s, pos), CursorAt(pos, Flat(AR.Body(a, s, fuel)) + AR.Cleanup(s, pos)));
        }
        InvokeProgress(items, fuel, open, pos);
    }
  }

  /** A report joins the open stage. */
  lemma ReportStepProgress(items: seq<Item>, fuel: nat, open: Stage, pos: Point)
    requires |items| > 0 && items[0].Report? && items[0].notice.Progress?
    requires var e := Exec(items[1..], fuel, Extend(open, [Notify(items[0].notice)]), pos);
      ProgressIn(Flat(Blocks(e)))
      == ProgressIn(open.block.steps + [Notify(items[0].notice)]) + Reports(Reached(items[1..], fuel))
    ensures ProgressIn(Flat(Blocks(Exec(items, fuel, open, pos))))
         == ProgressIn(open.block.steps) + Reports(Reached(items, fuel))
  {
    var n, tail := items[0].notice, items[1..];
    var e := Exec(tail, fuel, Extend(open, [Notify(n)]), pos);
    assert Exec(items, fuel, open, pos) == e;
    assert ProgressIn(open.block.steps + [Notify(n)]) == ProgressIn(open.block.steps) + [n] by {
      ProgressInAppend(open.block.steps, [Notify(n)]);
      assert Notices([Notify(n)]) == [n] + Notices([]);
      assert ProgressOf([n]) == [n] + ProgressOf([]);
    }
    assert Reports(Reached(items, fuel)) == [n] + Reports(Reached(tail, fuel)) by {
      assert Reached(items, fuel) == [items[0]] + Reached(tail, fuel);
      assert Reports([items[0]] + Reached(tail, fuel)) == [n] + Reports(Reached(tail, fuel));
    }
    Assoc(ProgressIn(open.block.steps), [n], Reports(Reached(tail, fuel)));
  }

  /** A gate or a wait closes the open stage and opens `next`, whose steps raise no progress. */
  lemma CloseProgress(items: seq<Item>, fuel: nat, open: Stage, next: Stage, pos: Point)
    requires |items| > 0 && (items[0].Gate? || items[0].Interval?)
    requires Exec(items, fuel, open, pos) == [open] + Exec(items[1..], fuel, next, pos)
    requires ProgressIn(next.block.steps) == []
    requires ProgressIn(Flat(Blocks(Exec(items[1..], fuel, next, pos)))) == Reports(Reached(items[1..], fuel))
    ensures ProgressIn(Flat(Blocks(Exec(items, fuel, open, pos))))
         == ProgressIn(open.block.steps) + Reports(Reached(items, fuel))
  {
    var e := Exec(items[1..], fuel, next, pos);
    assert Reports(Reached(items, fuel)) == Reports(Reached(items[1..], fuel)) by {
      assert Reached(items, fuel) == [items[0]] + Reached(items[1..], fuel);
      assert Reports([items[0]] + Reached(items[1..], fuel)) == [] + Reports(Reached(items[1..], fuel));
    }
    assert Flat(Blocks(Exec(items, fuel, open, pos))) == open.block.steps + Flat(Blocks(e)) by {
      FlatBlocksAppend([open], e);
      FlatBlocksOne(open);
    }
    ProgressInAppend(open.block.steps, Flat(Blocks(e)));
  }

  /** What follows an inner run's stages: the rest of the plan, or the run's end when the fuel leaves it unfinished. */
  function AfterInvoke(items: seq<Item>, fuel: nat, pos: Point): seq<Stage>
    requires |items| > 0 && items[0].Invoke?
  {
    var a, s := items[0].actions, items[0].settings;
    if AR.Exhausts(s, fuel)
    then Exec(items[1..], fuel, RunEnd(s, pos), CursorAt(pos, Flat(AR.Body(a, s, fuel)) + AR.Cleanup(s, pos)))
    else [RunEnd(s, pos)]
  }

  lemma AfterInvokeProgress(items: seq<Item>, fuel: nat, pos: Point)
    requires |items| > 0 && items[0].Invoke?
    requires var a, s := items[0].actions, items[0].settings;
      AR.Exhausts(s, fuel) ==>
        var e := Exec(items[1..], fuel, RunEnd(s, pos), CursorAt(pos, Flat(AR.Body(a, s, fuel)) + AR.Cleanup(s, pos)));
        ProgressIn(Flat(Blocks(e))) == ProgressIn(AR.Cleanup(s, pos)) + Reports(Reached(items[1..], fuel))
    ensures ProgressIn(Flat(Blocks(AfterInvoke(items, fuel, pos)))) == Reports(Reached(items, fuel))
  {
    var s := items[0].settings;
    var rest := items[1..];
    CleanupOk(s, pos);
    if AR.Exhausts(s, fuel) {
      assert Reached(items, fuel) == [items[0]] + Reached(rest, fuel);
      assert Reports([items[0]] + Reached(rest, fuel)) == [] + Reports(Reached(rest, fuel));
    } else {
      FlatBlocksOne(RunEnd(s, pos));
      assert Reached(items, fuel) == [items[0]];
      assert Reports([items[0]]) == [] + Reports([]);
    }
  }

  lemma QuietAppend(a: seq<Step>, b: seq<Step>)
    requires ProgressIn(b) == []
    ensures ProgressIn(a + b) == ProgressIn(a)
  {
    ProgressInAppend(a, b);
    assert ProgressIn(a) + [] == ProgressIn(a);
  }

  /** Stages that raise no progress between a head and a tail add nothing to what those two raise. */
  lemma ProgressOfParts(head: Stage, inner: seq<Stage>, tail: seq<Stage>)
    requires ProgressIn(Flat(Blocks(inner))) == []
    ensures ProgressIn(Flat(Blocks([head] + inner + tail)))
         == ProgressIn(head.block.steps) + ProgressIn(Flat(Blocks(tail)))
  {
    FlatBlocksAppend([head] + inner, tail);
    FlatBlocksAppend([head], inner);
    FlatBlocksOne(head);
    QuietAppend(head.block.steps, Flat(Blocks(inner)));
    ProgressInAppend(head.block.steps + Flat(Blocks(inner)), Flat(Blocks(tail)));
  }

  /** An inner run adds the runner's own events, which hold no progress, and ends the run when the fuel leaves it unfinished. */
  lemma InvokeProgress(items: seq<Item>, fuel: nat, open: Stage, pos: Point)
    requires |items| > 0 && items[0].Invoke?
    requires var a, s := items[0].actions, items[0].settings;
      AR.Exhausts(s, fuel) ==>
        var e := Exec(items[1..], fuel, RunEnd(s, pos), CursorAt(pos, Flat(AR.Body(a, s, fuel)) + AR.Cleanup(s, pos)));
        ProgressIn(Flat(Blocks(e))) == ProgressIn(AR.Cleanup(s, pos)) + Reports(Reached(items[1..], fuel))
    ensures ProgressIn(Flat(Blocks(Exec(items, fuel, open, pos))))
         == ProgressIn(open.block.steps) + Reports(Reached(items, fuel))
  {
    var a, s := items[0].actions, items[0].settings;
    var head := Extend(open, [SetRunning(ActionRun, true)]);
    var inner := RunProfileActions(a, s, pos, fuel);
    var tail := AfterInvoke(items, fuel, pos);
    assert ProgressIn(head.block.steps) == ProgressIn(open.block.steps) by {
      ProgressInAppend(open.block.steps, [SetRunning(ActionRun, true)]);
      assert Notices([SetRunning(ActionRun, true)]) == [] + Notices([]);
    }
    assert ProgressIn(Flat(Blocks(inner))) == [] by {
      InnerStagesOk(a, s, pos, fuel);
    }
    AfterInvokeProgress(items, fuel, pos);
    assert Exec(items, fuel, open, pos) == [head] + inner + tail;
    ProgressOfParts(head, inner, tail);
  }

  /** A cut keeps a prefix of the stages' progress events: a stage's cancellation steps raise none. */
  lemma CutProgress(stages: seq<Stage>, k: nat)
    requires forall sg :: sg in stages ==> StageOk(sg)
    ensures ProgressIn(CutAt(Blocks(stages), k)) <= ProgressIn(Flat(Blocks(stages)))
  {
    var bs := Blocks(stages);
    if k < |bs| {
      assert stages[k] in stages;
      NoProgress(Notices(bs[k].onCut));
      ProgressInAppend(Flat(bs[..k]), bs[k].onCut);
      assert bs == bs[..k] + bs[k..];
      FlatAppend(bs[..k], bs[k..]);
      ProgressInAppend(Flat(bs[..k]), Flat(bs[k..]));
    }
  }

  /** What follows the body of a workspace run raises no progress. */
  lemma FinishProgress(e: Ending)
    ensures ProgressIn(Finish(e, RunCleanup, WorkspaceRun)) == []
  {
    assert Notices(RunCleanup) == [Stopped(WorkspaceRun)];
    assert ProgressOf([Stopped(WorkspaceRun)]) == [] + ProgressOf([]);
    if e == Faulted {
      ProgressInAppend(RunCleanup, [Fault(WorkspaceRun)]);
      assert Notices([Fault(WorkspaceRun)]) == [];
    }
  }

  /** The blocks before k keep a prefix of all the blocks' progress events. */
  lemma PrefixProgress(bs: seq<Block>, k: nat)
    requires k <= |bs|
    ensures ProgressIn(Flat(bs[..k])) <= ProgressIn(Flat(bs))
  {
    assert bs == bs[..k] + bs[k..];
    FlatAppend(bs[..k], bs[k..]);
    ProgressInAppend(Flat(bs[..k]), Flat(bs[k..]));
  }

  /**
   * However a run halts, its progress events are a prefix of its stages';
   * when no wait halts it and no Stop comes, it is its stages in full.
   */
  lemma HaltProgress(stages: seq<Stage>, cut: nat, wake: bool)
    requires forall sg :: sg in stages ==> StageOk(sg)
    ensures var t := RunStart + Halted(Blocks(stages), cut, wake, RunCleanup, WorkspaceRun);
      ProgressIn(t) <= ProgressIn(Flat(Blocks(stages)))
    ensures Returning(Blocks(stages)) && cut >= |stages| ==>
      RunStart + Halted(Blocks(stages), cut, wake, RunCleanup, WorkspaceRun) == RunStart + Flat(Blocks(stages)) + RunCleanup
  {
    var bs := Blocks(stages);
    var k := HaltAt(bs, cut);
    var e := EndingOf(bs, cut, wake);
    var body := if e == Hung then Flat(bs[..k]) else CutAt(bs, k);
    if e == Hung {
      PrefixProgress(bs, k);
    } else {
      CutProgress(stages, k);
    }
    FinishProgress(e);
    QuietAppend(body, Finish(e, RunCleanup, WorkspaceRun));
    assert Notices(RunStart) == [];
    ProgressInAppend(RunStart, body + Finish(e, RunCleanup, WorkspaceRun));
    assert ProgressIn(RunStart) == [];
    if Returning(bs) && cut >= |stages| {
      HaltedReturning(bs, cut, wake, RunCleanup, WorkspaceRun);
    }
  }

  /**
   * A run's progress events, as written or with the check after the gate,
   * are a prefix of its plan's reports; with no Stop, every inner run
   * ending within the fuel and no action with a negative delay, they are
   * all of them, and the job-level ones are one row per pass over the
   * enabled jobs.
   */
  lemma RunReports(ws: Workspace, st: ProfileStore, cursor: Point, fuel: nat, stop: nat, parked: bool)
    requires |ws.jobs| > 0
    ensures ProgressIn(RunAsync(Idle, ws, st, cursor, fuel, stop, parked).1) <= Reports(Plan(st, ws, fuel))
    ensures ProgressIn(RunAsyncChecked(Idle, ws, st, cursor, fuel, stop, parked).1) <= Reports(Plan(st, ws, fuel))
    ensures var items := Plan(st, ws, fuel);
      stop >= |Stages(st, ws, cursor, fuel)| && InnerRunsEnd(items, fuel) && DelaysReturn(items) ==>
        && JobReports(ProgressIn(RunAsync(Idle, ws, st, cursor, fuel, stop, parked).1))
           == ExpectedJobReports(EnabledJobs(ws.jobs), 1, AR.PassesRun(LoopRule(ws), fuel))
        && JobReports(ProgressIn(RunAsyncChecked(Idle, ws, st, cursor, fuel, stop, parked).1))
           == ExpectedJobReports(EnabledJobs(ws.jobs), 1, AR.PassesRun(LoopRule(ws), fuel))
  {
    var items := Plan(st, ws, fuel);
    var stages := Stages(st, ws, cursor, fuel);
    PlanItemsOk(st, ws, fuel);
    StagesOk(st, ws, cursor, fuel);
    ExecProgress(items, fuel, Stage(Plain([]), Entry), cursor);
    assert ProgressIn([]) == [];
    assert ProgressIn(Flat(Blocks(stages))) == Reports(Reached(items, fuel));
    ReachedPrefixReports(items, fuel);
    HaltProgress(stages, StopCut(stages, stop, parked), Wakes(stages, stop, parked));
    HaltProgress(stages, stop, stop < |stages|);
    if stop >= |stages| && InnerRunsEnd(items, fuel) && DelaysReturn(items) {
      StagesReturn(st, ws, cursor, fuel);
      ReachedAll(items, fuel);
      PlanJobReports(st, ws, fuel);
      FrameProgress(Flat(Blocks(stages)));
    }
  }

  /** The start and the cleanup of a workspace run raise no progress. */
  lemma FrameProgress(body: seq<Step>)
    ensures ProgressIn(RunStart + body + RunCleanup) == ProgressIn(body)
  {
    ProgressInAppend(RunStart, body);
    ProgressInAppend(RunStart + body, RunCleanup);
    assert Notices(RunStart) == [];
    assert Notices(RunCleanup) == [Stopped(WorkspaceRun)];
    assert ProgressOf([Stopped(WorkspaceRun)]) == [] + ProgressOf([]);
  }

  lemma ReachedPrefixReports(items: seq<Item>, fuel: nat)
    ensures Reports(Reached(items, fuel)) <= Reports(items)
  {
    var r := Reached(items, fuel);
    assert items == r + items[|r|..];
    ReportsAppend(r, items[|r|..]);
  }


  // ------------------------------------------------------------ a profile's run is the action runner's run

  /** Cut anywhere, a profile's stages with their end are the runner's body cut there, then its cleanup. */
  lemma ProfileStagesCut(actions: seq<ActionItem>, s: AR.RunSettings, saved: Point, fuel: nat, k: nat)
    ensures CutAt(Blocks(RunProfileActions(actions, s, saved, fuel) + [RunEnd(s, saved)]), k)
         == CutAt(AR.Body(actions, s, fuel), k) + AR.Cleanup(s, saved)
  {
    var body := AR.Body(actions, s, fuel);
    var inner := RunProfileActions(actions, s, saved, fuel);
    var bs := Blocks(inner + [RunEnd(s, saved)]);
    var c := AR.Cleanup(s, saved);
    assert |bs| == |body| + 1;
    if k < |body| {
      assert bs[..k] == Blocks(inner)[..k];
      FlatSameSteps(bs[..k], body[..k]);
      assert CutAt(bs, k) == Flat(body[..k]) + body[k].onCut + c;
    } else {
      assert bs[..|body|] == Blocks(inner);
      FlatSameSteps(Blocks(inner), body);
      assert CutAt(bs, k) == Flat(body) + c by {
        if k == |body| {
          assert bs[k] == RunEnd(s, saved).block;
        } else {
          FlatBlocksAppend(inner, [RunEnd(s, saved)]);
          FlatBlocksOne(RunEnd(s, saved));
        }
      }
    }
  }

  /**
   * A profile's run inside the workspace, cut where the action runner's
   * own RunAsync halts for a Stop at block k, is that run: its cleanup
   * included when it returns, and without the runner's fault, which the
   * workspace takes as its own. Hanging, the two run the same blocks.
   */
  lemma ProfileRunIsActionRun(actions: seq<ActionItem>, s: AR.RunSettings, saved: Point, fuel: nat, k: nat)
    requires |actions| > 0
    ensures var body := AR.Body(actions, s, fuel);
      var e := AR.RunEnding(actions, s, fuel, k);
      var h := HaltAt(body, k);
      var t := AR.RunAsync(AR.Runner(false), actions, s, saved, fuel, k).1;
      var inner := RunProfileActions(actions, s, saved, fuel);
      && (e == Completed ==> [SetRunning(ActionRun, true)] + CutAt(Blocks(inner + [RunEnd(s, saved)]), h) == t)
      && (e == Faulted ==> [SetRunning(ActionRun, true)] + CutAt(Blocks(inner + [RunEnd(s, saved)]), h) + [Fault(ActionRun)] == t)
      && (e == Hung ==> [SetRunning(ActionRun, true)] + Flat(Blocks(inner)[..h]) == t)
  {
    var body := AR.Body(actions, s, fuel);
    var e := AR.RunEnding(actions, s, fuel, k);
    var h := HaltAt(body, k);
    var inner := RunProfileActions(actions, s, saved, fuel);
    var head := [SetRunning(ActionRun, true)];
    ProfileStagesCut(actions, s, saved, fuel, h);
    if e == Hung {
      FlatSameSteps(Blocks(inner)[..h], body[..h]);
    } else if e == Faulted {
      assert AR.RunAsync(AR.Runner(false), actions, s, saved, fuel, k).1
          == head + (CutAt(body, h) + (AR.Cleanup(s, saved) + [Fault(ActionRun)]));
    }
  }

  // ------------------------------------------------------------ a Stop while parked at the gate

  /** The blocks before j are a prefix of the blocks before k, and of the cut at k. */
  lemma FlatPrefix(bs: seq<Block>, j: nat, k: nat)
    requires j <= k <= |bs|
    ensures Flat(bs[..j]) <= Flat(bs[..k])
    ensures Flat(bs[..j]) <= CutAt(bs, k)
  {
    assert bs[..k] == bs[..j] + bs[j..k];
    FlatAppend(bs[..j], bs[j..k]);
    if k == |bs| {
      assert bs[..k] == bs;
    }
  }

  /**
   * As written, a Stop that finds the run parked at a gate does not end it
   * there: the gate's stage and the stage after it (a whole profile run,
   * say) still run in full unless a wait halts them first. Should a
   * profile after the gate wait without a time-out, nothing wakes it: the
   * run hangs though it was stopped. Seen anywhere else, the Stop cuts the
   * run before the stage.
   */
  lemma ParkedStopOvershoots(stages: seq<Stage>, stop: nat)
    requires stop + 1 < |stages| && stages[stop].check == AtGate && !IsCheck(stages[stop + 1].check)
    ensures var bs := Blocks(stages);
      var cut := StopCut(stages, stop, true);
      && cut >= stop + 2
      && (stop + 2 <= Stall(bs) ==>
            Flat(bs[..stop + 2]) <= Halted(bs, cut, Wakes(stages, stop, true), RunCleanup, WorkspaceRun))
      && (stop < Stall(bs) < cut && bs[Stall(bs)].steps[0].ms == -1 ==>
            EndingOf(bs, cut, Wakes(stages, stop, true)) == Hung)
    ensures StopCut(stages, stop, false) == stop && Wakes(stages, stop, false)
  {
    var bs := Blocks(stages);
    var cut := StopCut(stages, stop, true);
    var wake := Wakes(stages, stop, true);
    var k := HaltAt(bs, cut);
    assert stop + 2 <= cut;
    if stop + 2 <= Stall(bs) {
      FlatPrefix(bs, stop + 2, k);
    }
  }

  /**
   * With the token checked again after the gate, a Stop seen at a check
   * that the run gets to ends the run before that stage, parked or not.
   */
  lemma CheckedStopEndsAtCheck(r: WsRunner, ws: Workspace, st: ProfileStore, cursor: Point, fuel: nat, stop: nat, parked: bool)
    requires !r.isRunning && |ws.jobs| > 0
    requires stop < |Stages(st, ws, cursor, fuel)| && IsCheck(Stages(st, ws, cursor, fuel)[stop].check)
    ensures stop < Stall(Blocks(Stages(st, ws, cursor, fuel))) ==>
      && CheckedEnding(st, ws, cursor, fuel, stop) == Completed
      && RunAsyncChecked(r, ws, st, cursor, fuel, stop, parked).1
         == RunStart + Flat(Blocks(Stages(st, ws, cursor, fuel))[..stop]) + RunCleanup
  {
    var stages := Stages(st, ws, cursor, fuel);
    StagesOk(st, ws, cursor, fuel);
    assert stages[stop] in stages;
    assert Blocks(stages)[stop].onCut == [];
  }

  /**
   * The run as written and the run with the check after the gate differ
   * only for a Stop that finds the run parked at a gate: anywhere else
   * they are the same call.
   */
  lemma RunsAgreeOffGate(r: WsRunner, ws: Workspace, st: ProfileStore, cursor: Point, fuel: nat, stop: nat, parked: bool)
    requires !ParkedAt(Stages(st, ws, cursor, fuel), stop, parked)
    ensures RunAsync(r, ws, st, cursor, fuel, stop, parked) == RunAsyncChecked(r, ws, st, cursor, fuel, stop, parked)
  {
  }
}
