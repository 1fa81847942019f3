/**
 * A workspace run that shows the Stop which finds the run parked at the
 * pause gate: one job naming the same loadable profile twice, 10 ms apart,
 * the profile holding one enabled 5 ms delay action and running once.
 */
module WorkspaceStopExample {
  import opened Basics
  import opened Trace
  import opened ActionItems
  import opened Jobs
  import opened Models
  import opened FileStore
  import opened ProfileService
  import AR = ActionRunnerService
  import opened WorkspaceRunnerService
  import opened WorkspaceRunFacts

  const Act := ActionItem(0, Delay, true, 0, 0, true, 0, 0, "", false, false, false, 5, 1)
  const Prof := DefaultProfile.(actions := [Act], loopActions := false)
  const Settings := AR.RunSettings(false, 1, 0, 0, false)
  const Profiles: ProfileStore := Store(true, map[FileName("a") := Prof])
  const TheJob := Job(0, "J", true, ["a", "a"], 10)
  const Ws := Workspace("W", [TheJob], false, 1, 0)

  const JobNotice := Progress("J", 0, 1, 1, None)
  const ProfileNotice := Progress("J", 0, 1, 1, Some("a"))

  /** The one pass: job gate and report, then each name's gate, report and run, with the wait between. */
  lemma ExamplePlan()
    ensures Plan(Profiles, Ws, 1)
         == [Gate, Report(JobNotice), Gate, Report(ProfileNotice), Invoke([Act], Settings), Interval(10),
             Gate, Report(ProfileNotice), Invoke([Act], Settings)]
  {
    ExamplePass();
    ExampleJobItems();
  }

  /** The workspace runs once, and its only enabled job is the job. */
  lemma ExamplePass()
    ensures Plan(Profiles, Ws, 1) == JobItems(Profiles, [TheJob], 0, 0, 1)
  {
    var items := JobItems(Profiles, [TheJob], 0, 0, 1);
    ExampleSetup();
    assert PassItems(Profiles, Ws, 1) == items;
    assert Plan(Profiles, Ws, 1) == items + [];
  }

  /** The job: its gate and report, then its names; no wait after the only job. */
  lemma ExampleJobItems()
    ensures JobItems(Profiles, [TheJob], 0, 0, 1)
         == [Gate, Report(JobNotice), Gate, Report(ProfileNotice), Invoke([Act], Settings), Interval(10),
             Gate, Report(ProfileNotice), Invoke([Act], Settings)]
  {
    var jobs := [TheJob];
    var p := ProfileItems(Profiles, jobs, 0, 0, 1);
    assert JobItems(Profiles, jobs, 0, 1, 1) == [];
    assert ReportProgress("J", 0, 1, 1, None) == JobNotice;
    assert JobItems(Profiles, jobs, 0, 0, 1) == [Gate, Report(JobNotice)] + (p + ([] + []));
    assert p + ([] + []) == p;
    ExampleProfileItems();
    PrependTwo(Gate, Report(JobNotice), Gate, Report(ProfileNotice), Invoke([Act], Settings), Interval(10),
               Gate, Report(ProfileNotice), Invoke([Act], Settings));
  }

  lemma PrependTwo<T>(x: T, y: T, a: T, b: T, c: T, d: T, e: T, f: T, g: T)
    ensures [x, y] + [a, b, c, d, e, f, g] == [x, y, a, b, c, d, e, f, g]
  {
  }

  lemma ExampleSetup()
    ensures EnabledJobs(Ws.jobs) == [TheJob]
    ensures EnabledActions([Act]) == [Act]
    ensures LoadProfile(Profiles, "a") == Some(Prof)
    ensures AR.ProfileSettings(Prof) == Settings
  {
    assert EnabledJobs([TheJob]) == [TheJob] + EnabledJobs([]);
    assert EnabledActions([Act]) == [Act] + EnabledActions([]);
  }

  /** Each name of the job: its report and run, and the wait after every name but the last. */
  lemma ExampleResolved()
    ensures ResolvedItems(Profiles, [TheJob], 0, 0, 1) == [Report(ProfileNotice), Invoke([Act], Settings), Interval(10)]
    ensures ResolvedItems(Profiles, [TheJob], 0, 1, 1) == [Report(ProfileNotice), Invoke([Act], Settings)]
  {
    ExampleSetup();
  }

  lemma ExampleProfileItems()
    ensures ProfileItems(Profiles, [TheJob], 0, 0, 1)
         == [Gate, Report(ProfileNotice), Invoke([Act], Settings), Interval(10),
             Gate, Report(ProfileNotice), Invoke([Act], Settings)]
  {
    var jobs := [TheJob];
    var r0 := ResolvedItems(Profiles, jobs, 0, 0, 1);
    var r1 := ResolvedItems(Profiles, jobs, 0, 1, 1);
    ExampleResolved();
    assert ProfileItems(Profiles, jobs, 0, 2, 1) == [];
    assert ProfileItems(Profiles, jobs, 0, 1, 1) == [Gate] + (r1 + []);
    assert ProfileItems(Profiles, jobs, 0, 0, 1) == [Gate] + (r0 + ([Gate] + (r1 + [])));
  }

  /** The profile's one run: its action, then its executed event. */
  lemma ExampleBody()
    ensures AR.Body([Act], Settings, 1) == [Checked([Wait(5), Notify(ActionExecuted(0, 1))])]
    ensures AR.Exhausts(Settings, 1)
  {
    var b := Checked([Wait(5), Notify(ActionExecuted(0, 1))]);
    assert AR.Executed(0, 1) == ActionExecuted(0, 1) by {
      assert WrapInt32(1) == 1;
    }
    assert AR.ExecuteAction(Act) == [Wait(5)];
    assert AR.ExecuteAction(Act) + [Notify(AR.Executed(0, 1))] == b.steps;
    assert AR.Repetitions(Act, 0, 1, 1, 1) == [];
    assert AR.Repetitions(Act, 0, 1, 0, 1) == [b] + [] + [];
    assert AR.PassBlocks([Act], 1, 1, 0) == [];
    assert AR.PassBlocks([Act], 0, 1, 0) == [b] + [] + [];
    assert AR.Unroll([Act], Settings, 1, 1) == AR.PassBlocks([Act], 0, 1, 0) + [];
  }

  const Cleanup := [SetRunning(ActionRun, false), Notify(Stopped(ActionRun))]
  const GateJ := Stage(Plain([Notify(JobNotice)]), AtGate)
  const GateA := Stage(Plain([Notify(ProfileNotice), SetRunning(ActionRun, true)]), AtGate)
  const InnerA := Stage(Block([Wait(5), Notify(ActionExecuted(0, 1))], Cleanup, true), Inner)
  const EndA := Stage(Block(Cleanup, Cleanup), Inner)
  const Pause10 := Stage(Plain([Wait(10)]), AtInterval)

  lemma InnerStages(pos: Point)
    ensures RunProfileActions([Act], Settings, pos, 1) == [InnerA]
    ensures RunEnd(Settings, pos) == EndA
    ensures AR.Exhausts(Settings, 1)
  {
    ExampleBody();
    assert AR.Cleanup(Settings, pos) == Cleanup;
  }

  /** Where the cursor is after a profile's run that starts at `pos`. */
  function After(pos: Point): Point {
    CursorAt(pos, Flat(AR.Body([Act], Settings, 1)) + AR.Cleanup(Settings, pos))
  }

  /** A name's gate stage, once its report is in: the gate, the run and its end; then whatever follows. */
  lemma RunStages(rest: seq<Item>, pos: Point)
    ensures Exec([Invoke([Act], Settings)] + rest, 1, Stage(Plain([Notify(ProfileNotice)]), AtGate), pos)
         == [GateA, InnerA] + Exec(rest, 1, EndA, After(pos))
  {
    InnerStages(pos);
    var items := [Invoke([Act], Settings)] + rest;
    assert items[0] == Invoke([Act], Settings) && items[1..] == rest;
    assert Extend(Stage(Plain([Notify(ProfileNotice)]), AtGate), [SetRunning(ActionRun, true)]) == GateA;
  }

  /** A name's items from its gate on, with `rest` after them. */
  lemma NameStages(rest: seq<Item>, open: Stage, pos: Point)
    ensures Exec([Gate, Report(ProfileNotice), Invoke([Act], Settings)] + rest, 1, open, pos)
         == [open, GateA, InnerA] + Exec(rest, 1, EndA, After(pos))
  {
    var items := [Gate, Report(ProfileNotice), Invoke([Act], Settings)] + rest;
    assert items[0] == Gate && items[1..] == [Report(ProfileNotice), Invoke([Act], Settings)] + rest;
    assert items[1..][0] == Report(ProfileNotice) && items[1..][1..] == [Invoke([Act], Settings)] + rest;
    assert Extend(Stage(Plain([]), AtGate), [Notify(ProfileNotice)]) == Stage(Plain([Notify(ProfileNotice)]), AtGate);
    RunStages(rest, pos);
  }

  const Entry0 := Stage(Plain([]), Entry)
  const Second := [Gate, Report(ProfileNotice), Invoke([Act], Settings)]
  const First := [Gate, Report(ProfileNotice), Invoke([Act], Settings)] + ([Interval(10)] + Second)

  lemma SecondStages(p: Point)
    ensures Exec([Interval(10)] + Second, 1, EndA, p) == [EndA, Pause10, GateA, InnerA, EndA]
  {
    assert Exec(Second, 1, Pause10, p) == [Pause10, GateA, InnerA] + [EndA] by {
      NameStages([], Pause10, p);
      assert Second + [] == Second;
    }
    assert ([Interval(10)] + Second)[1..] == Second;
  }

  lemma FirstStages(cursor: Point)
    ensures Exec(First, 1, GateJ, cursor) == [GateJ, GateA, InnerA, EndA, Pause10, GateA, InnerA, EndA]
  {
    NameStages([Interval(10)] + Second, GateJ, cursor);
    SecondStages(After(cursor));
  }

  /** The stages of the run: two gates, the first profile's run, the wait, the third gate and the second run. */
  lemma ExampleStages(cursor: Point)
    ensures Stages(Profiles, Ws, cursor, 1) == [Entry0, GateJ, GateA, InnerA, EndA, Pause10, GateA, InnerA, EndA]
  {
    PlanStages(cursor);
    HeadStages(cursor);
    FirstStages(cursor);
    assert [Entry0] + [GateJ, GateA, InnerA, EndA, Pause10, GateA, InnerA, EndA]
        == [Entry0, GateJ, GateA, InnerA, EndA, Pause10, GateA, InnerA, EndA];
  }

  /** The stages are those of the plan from the entry stage. */
  lemma PlanStages(cursor: Point)
    ensures Stages(Profiles, Ws, cursor, 1) == Exec([Gate, Report(JobNotice)] + First, 1, Entry0, cursor)
  {
    ExamplePlan();
    assert Plan(Profiles, Ws, 1) == [Gate, Report(JobNotice)] + First;
  }

  /** The job's gate and report open the stage its first name's gate closes. */
  lemma HeadStages(cursor: Point)
    ensures Exec([Gate, Report(JobNotice)] + First, 1, Entry0, cursor) == [Entry0] + Exec(First, 1, GateJ, cursor)
  {
    var items := [Gate, Report(JobNotice)] + First;
    assert items[1..] == [Report(JobNotice)] + First && items[1..][1..] == First;
    assert Extend(Stage(Plain([]), AtGate), [Notify(JobNotice)]) == GateJ;
  }

  // ------------------------------------------------------------ what runs

  /** The executed events of whole stages, in order. */
  function Ran(stages: seq<Stage>): seq<Notice> {
    Executions(Notices(Flat(Blocks(stages))))
  }

  lemma RanCons(sg: Stage, rest: seq<Stage>)
    ensures Ran([sg] + rest) == Executions(Notices(sg.block.steps)) + Ran(rest)
  {
    FlatBlocksAppend([sg], rest);
    FlatBlocksOne(sg);
    NoticesAppend(sg.block.steps, Flat(Blocks(rest)));
    ExecutionsAppend(Notices(sg.block.steps), Notices(Flat(Blocks(rest))));
  }

  /** The executed events of a two-step stage. */
  lemma PairRuns(x: Step, y: Step)
    ensures Executions(Notices([x, y]))
         == (if x.Notify? && x.notice.ActionExecuted? then [x.notice] else [])
            + (if y.Notify? && y.notice.ActionExecuted? then [y.notice] else [])
  {
    assert [x, y] == [x] + [y];
    NoticesAppend([x], [y]);
    NoticesOne(x);
    NoticesOne(y);
    ExecutionsAppend(Notices([x]), Notices([y]));
    if x.Notify? {
      ExecutionsOne(x.notice);
    }
    if y.Notify? {
      ExecutionsOne(y.notice);
    }
  }

  /** Only a profile run's action stage executes anything. */
  lemma StageRuns()
    ensures Executions(Notices(Entry0.block.steps)) == []
    ensures Executions(Notices(GateJ.block.steps)) == []
    ensures Executions(Notices(GateA.block.steps)) == []
    ensures Executions(Notices(InnerA.block.steps)) == [ActionExecuted(0, 1)]
    ensures Executions(Notices(EndA.block.steps)) == []
    ensures Executions(Notices(Pause10.block.steps)) == []
  {
    NoticesOne(Notify(JobNotice));
    ExecutionsOne(JobNotice);
    NoticesOne(Wait(10));
    PairRuns(Notify(ProfileNotice), SetRunning(ActionRun, true));
    PairRuns(Wait(5), Notify(ActionExecuted(0, 1)));
    PairRuns(SetRunning(ActionRun, false), Notify(Stopped(ActionRun)));
  }

  lemma RunGateStages()
    ensures Ran([GateA, InnerA, EndA]) == [ActionExecuted(0, 1)]
  {
    StageRuns();
    assert Ran([]) == [] by {
      assert Blocks([]) == [];
    }
    RanCons(EndA, []);
    assert [EndA] + [] == [EndA];
    RanCons(InnerA, [EndA]);
    RanCons(GateA, [InnerA, EndA]);
    assert [GateA] + [InnerA, EndA] == [GateA, InnerA, EndA];
    assert [InnerA] + [EndA] == [InnerA, EndA];
  }

  lemma FirstSixStages()
    ensures Ran([Entry0, GateJ, GateA, InnerA, EndA, Pause10]) == [ActionExecuted(0, 1)]
  {
    var gates := [GateA, InnerA, EndA, Pause10];
    assert Ran(gates) == [ActionExecuted(0, 1)] by {
      assert Ran([Pause10]) == [] by {
        StageRuns();
        assert Ran([]) == [] by {
          assert Blocks([]) == [];
        }
        RanCons(Pause10, []);
        assert [Pause10] + [] == [Pause10];
      }
      RanAppend([GateA, InnerA, EndA], [Pause10]);
      RunGateStages();
      assert [GateA, InnerA, EndA] + [Pause10] == gates;
    }
    assert Ran([GateJ] + gates) == [ActionExecuted(0, 1)] by {
      StageRuns();
      RanCons(GateJ, gates);
    }
    assert Ran([Entry0] + ([GateJ] + gates)) == [ActionExecuted(0, 1)] by {
      StageRuns();
      RanCons(Entry0, [GateJ] + gates);
    }
    assert [Entry0] + ([GateJ] + gates) == [Entry0, GateJ, GateA, InnerA, EndA, Pause10];
  }

  lemma RanAppend(a: seq<Stage>, b: seq<Stage>)
    ensures Ran(a + b) == Ran(a) + Ran(b)
  {
    FlatBlocksAppend(a, b);
    NoticesAppend(Flat(Blocks(a)), Flat(Blocks(b)));
    ExecutionsAppend(Notices(Flat(Blocks(a))), Notices(Flat(Blocks(b))));
  }

  /** Start and cleanup execute nothing. */
  lemma FrameRuns(body: seq<Step>)
    ensures Executions(Notices(RunStart + body + RunCleanup)) == Executions(Notices(body))
  {
    NoticesAppend(RunStart, body);
    NoticesAppend(RunStart + body, RunCleanup);
    NoticesOne(RunStart[0]);
    assert Notices(RunStart) == [];
    assert Notices(RunStart + body) == Notices(body);
    assert Notices(RunCleanup) == [Stopped(WorkspaceRun)] by {
      var c := RunCleanup;
      assert c == [c[0], c[1], c[2]] + [c[3]];
      NoticesAppend([c[0], c[1], c[2]], [c[3]]);
      NoticesOne(c[3]);
      assert [c[0], c[1], c[2]] == [c[0]] + ([c[1]] + [c[2]]);
      NoticesAppend([c[0]], [c[1]] + [c[2]]);
      NoticesAppend([c[1]], [c[2]]);
      NoticesOne(c[0]);
      NoticesOne(c[1]);
      NoticesOne(c[2]);
    }
    ExecutionsAppend(Notices(body), [Stopped(WorkspaceRun)]);
    ExecutionsOne(Stopped(WorkspaceRun));
  }

  /**
   * Paused before the third gate and stopped there, the run as written
   * goes on as if never stopped: the second profile runs and executes its
   * action. Checking the token after the gate ends the run there, with
   * one execution only.
   */
  lemma ParkedStopExample(cursor: Point)
    ensures |Stages(Profiles, Ws, cursor, 1)| == 9 && Stages(Profiles, Ws, cursor, 1)[6].check == AtGate
    ensures RunAsync(Idle, Ws, Profiles, cursor, 1, 6, true) == RunAsync(Idle, Ws, Profiles, cursor, 1, 9, true)
    ensures Executions(Notices(RunAsync(Idle, Ws, Profiles, cursor, 1, 6, true).1))
         == [ActionExecuted(0, 1), ActionExecuted(0, 1)]
    ensures Executions(Notices(RunAsyncChecked(Idle, Ws, Profiles, cursor, 1, 6, true).1)) == [ActionExecuted(0, 1)]
  {
    var stages := Stages(Profiles, Ws, cursor, 1);
    var pre := [Entry0, GateJ, GateA, InnerA, EndA, Pause10];
    ExampleBodies(cursor);
    ParkedRunsToEnd(cursor);
    CheckedEndsAtGate(cursor);
    assert Executions(Notices(RunStart + Flat(Blocks(stages)) + RunCleanup)) == [ActionExecuted(0, 1), ActionExecuted(0, 1)] by {
      FrameRuns(Flat(Blocks(stages)));
      AllStagesRun(cursor);
    }
    assert Executions(Notices(RunStart + Flat(Blocks(pre)) + RunCleanup)) == [ActionExecuted(0, 1)] by {
      FrameRuns(Flat(Blocks(pre)));
      FirstSixStages();
    }
  }

  /** Stopped while parked at the third gate, the run as written runs every stage. */
  lemma ParkedRunsToEnd(cursor: Point)
    ensures var bs := Blocks(Stages(Profiles, Ws, cursor, 1));
      && RunAsync(Idle, Ws, Profiles, cursor, 1, 6, true) == RunAsync(Idle, Ws, Profiles, cursor, 1, 9, true)
      && RunAsync(Idle, Ws, Profiles, cursor, 1, 6, true).1 == RunStart + Flat(bs) + RunCleanup
  {
    var stages := Stages(Profiles, Ws, cursor, 1);
    var bs := Blocks(stages);
    ExampleBodies(cursor);
    HaltedReturning(bs, 9, Wakes(stages, 6, true), RunCleanup, WorkspaceRun);
    HaltedReturning(bs, 9, Wakes(stages, 9, true), RunCleanup, WorkspaceRun);
  }

  /** Checked after the gate, the Stop ends the run before the third gate's stage. */
  lemma CheckedEndsAtGate(cursor: Point)
    ensures RunAsyncChecked(Idle, Ws, Profiles, cursor, 1, 6, true).1
         == RunStart + Flat(Blocks([Entry0, GateJ, GateA, InnerA, EndA, Pause10])) + RunCleanup
  {
    var bs := Blocks(Stages(Profiles, Ws, cursor, 1));
    ExampleBodies(cursor);
    HaltedReturning(bs, 6, true, RunCleanup, WorkspaceRun);
  }

  /** The whole run executes the action twice. */
  lemma AllStagesRun(cursor: Point)
    ensures Ran(Stages(Profiles, Ws, cursor, 1)) == [ActionExecuted(0, 1), ActionExecuted(0, 1)]
  {
    var pre := [Entry0, GateJ, GateA, InnerA, EndA, Pause10];
    var post := [GateA, InnerA, EndA];
    ExampleStages(cursor);
    assert Stages(Profiles, Ws, cursor, 1) == pre + post;
    RanAppend(pre, post);
    FirstSixStages();
    RunGateStages();
  }

  /** Stopped while parked at the third gate the run goes to its end; checked, it ends before that gate. */
  lemma ExampleBodies(cursor: Point)
    ensures var stages := Stages(Profiles, Ws, cursor, 1);
      && |stages| == 9 && stages[6].check == AtGate
      && Returning(Blocks(stages))
      && StopCut(stages, 6, true) == 9
      && StopCut(stages, 9, true) == 9
      && CutAt(Blocks(stages), 6) == Flat(Blocks([Entry0, GateJ, GateA, InnerA, EndA, Pause10]))
  {
    var stages := Stages(Profiles, Ws, cursor, 1);
    ExampleStages(cursor);
    assert NextCheck(stages, 7) == 9;
    var bs := Blocks(stages);
    assert bs[..6] == Blocks([Entry0, GateJ, GateA, InnerA, EndA, Pause10]);
    assert bs[6].onCut == [];
    ExampleReturns(stages);
  }

  /** No stage of the example waits without a time-out. */
  lemma ExampleReturns(stages: seq<Stage>)
    requires stages == [Entry0, GateJ, GateA, InnerA, EndA, Pause10, GateA, InnerA, EndA]
    ensures Returning(Blocks(stages))
  {
    var bs := Blocks(stages);
    forall k | 0 <= k < |bs|
      ensures !Stalls(bs[k])
    {
      assert bs[k] in [Entry0.block, GateJ.block, GateA.block, InnerA.block, EndA.block, Pause10.block];
    }
  }
}
