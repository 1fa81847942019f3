/**
 * The workspace runner: passes over the enabled jobs of a workspace, and
 * within a job over its profile names, loading each profile and running
 * its enabled actions through the action runner. A pause gate, checked
 * before every job and every profile, holds the run while it is paused.
 *
 * The run is modelled in two layers. The plan is the flat list of what
 * one run does, in order (gates, progress reports, waits and inner runs);
 * the stages are the plan with every inner run expanded into the action
 * runner's own blocks, grouped at the points where a Stop can be seen.
 */
module WorkspaceRunnerService {
  import opened Basics
  import opened Input
  import opened Trace
  import opened ActionItems
  import opened Jobs
  import opened Models
  import opened ProfileService
  import AR = ActionRunnerService

  // ------------------------------------------------------------ flags

  /** IsRunning, IsPaused and the pause gate (set means open). */
  datatype WsRunner = WsRunner(isRunning: bool, isPaused: bool, gateOpen: bool)

  const Idle := WsRunner(false, false, true)

  /** The gate is open exactly when not paused, and only a running workspace is paused. */
  predicate Consistent(r: WsRunner) {
    r.gateOpen == !r.isPaused && (r.isPaused ==> r.isRunning)
  }

  /** Acts only while running and not paused: pauses, closes the gate, pauses the inner runner, raises Paused. */
  function Pause(r: WsRunner): (res: (WsRunner, seq<Step>))
    ensures r.isRunning && !r.isPaused ==>
      res.0 == r.(isPaused := true, gateOpen := false) && Notices(res.1) == [Paused] && Forward(InnerPause) in res.1
    ensures !(r.isRunning && !r.isPaused) ==> res == (r, [])
    ensures Consistent(r) ==> Consistent(res.0)
  {
    if r.isRunning && !r.isPaused then
      var t := [SetPaused(true), SetGate(false), Forward(InnerPause), Notify(Paused)];
      assert Notices(t) == [Paused];
      (r.(isPaused := true, gateOpen := false), t)
    else (r, [])
  }

  /** Acts only while running and paused: the mirror of Pause. */
  function Resume(r: WsRunner): (res: (WsRunner, seq<Step>))
    ensures r.isRunning && r.isPaused ==>
      res.0 == r.(isPaused := false, gateOpen := true) && Notices(res.1) == [Resumed] && Forward(InnerResume) in res.1
    ensures !(r.isRunning && r.isPaused) ==> res == (r, [])
    ensures Consistent(r) ==> Consistent(res.0)
  {
    if r.isRunning && r.isPaused then
      var t := [SetPaused(false), SetGate(true), Forward(InnerResume), Notify(Resumed)];
      assert Notices(t) == [Resumed];
      (r.(isPaused := false, gateOpen := true), t)
    else (r, [])
  }

  /**
   * Clears the pause and opens the gate, then stops the inner runner; the
   * cancellation of the run itself is the `stop` argument of RunAsync.
   * Stop raises nothing of its own: Stopped comes from the run's end.
   */
  function Stop(r: WsRunner): (res: (WsRunner, seq<Step>))
    ensures !res.0.isPaused && res.0.gateOpen && res.0.isRunning == r.isRunning
    ensures Notices(res.1) == [] && Forward(InnerStop) in res.1
    ensures Consistent(r) ==> Consistent(res.0)
  {
    var t := [SetPaused(false), SetGate(true), Forward(InnerStop)];
    assert Notices(t) == [];
    (r.(isPaused := false, gateOpen := true), t)
  }

  /** The gate loop lets the run through once it is not paused or is cancelled. */
  predicate WaitIfPaused(r: WsRunner, cancelled: bool) {
    !r.isPaused || cancelled
  }

  /** Resume undoes Pause; a second Pause is silent; after Stop the gate never holds the run. */
  lemma PauseResumeRoundTrip(r: WsRunner)
    requires Consistent(r) && r.isRunning && !r.isPaused
    ensures Resume(Pause(r).0).0 == r
    ensures Pause(Pause(r).0) == (Pause(r).0, [])
    ensures forall c :: WaitIfPaused(Stop(Pause(r).0).0, c)
    ensures !WaitIfPaused(Pause(r).0, false)
  {
  }

  // ------------------------------------------------------------ the plan

  /** What a run does, in order. A Gate is a cancellation check followed by the pause gate. */
  datatype Item =
    | Gate
    | Report(notice: Notice)
    | Interval(ms: int)
    | Invoke(actions: seq<ActionItem>, settings: AR.RunSettings)

  /** The progress event; the pass counter is an `int` that wraps. */
  function ReportProgress(jobName: string, jobIndex: int, totalJobs: int, loop: int, profileName: Option<string>)
    : (n: Notice)
    ensures n.Progress? && n.jobName == jobName && n.jobIndex == jobIndex && n.totalJobs == totalJobs
    ensures n.profileName == profileName && (InInt32(loop) ==> n.loop == loop)
  {
    Progress(jobName, jobIndex, totalJobs, WrapInt32(loop), profileName)
  }

  /**
   * Profile names k .. of the job at index j of the enabled jobs: a gate,
   * then what the name adds when it loads.
   */
  function ProfileItems(st: ProfileStore, jobs: seq<Job>, j: nat, k: nat, pass: int): seq<Item>
    requires j < |jobs|
    decreases |jobs[j].profileNames| - k
  {
    if k >= |jobs[j].profileNames| then []
    else [Gate] + (ResolvedItems(st, jobs, j, k, pass) + ProfileItems(st, jobs, j, k + 1, pass))
  }

  /**
   * A name that loads adds a report, an inner run of the enabled actions
   * (when there are any) and the between-profiles wait (when not the last
   * name and positive); a name that does not load adds nothing.
   */
  function ResolvedItems(st: ProfileStore, jobs: seq<Job>, j: nat, k: nat, pass: int): seq<Item>
    requires j < |jobs| && k < |jobs[j].profileNames|
  {
    var job := jobs[j];
    match LoadProfile(st, job.profileNames[k])
    case None => []
    case Some(p) =>
      [Report(ReportProgress(job.name, j, |jobs|, pass, Some(job.profileNames[k])))]
      + ((if |EnabledActions(p.actions)| > 0 then [Invoke(EnabledActions(p.actions), AR.ProfileSettings(p))] else [])
         + (if k < |job.profileNames| - 1 && job.delayBetweenProfiles > 0 then [Interval(job.delayBetweenProfiles)] else []))
  }

  /** Jobs j .. of the enabled jobs: a gate, the job's report, its profiles, and the between-jobs wait. */
  function JobItems(st: ProfileStore, jobs: seq<Job>, delayBetweenJobs: int, j: nat, pass: int): seq<Item>
    decreases |jobs| - j
  {
    if j >= |jobs| then []
    else
      [Gate, Report(ReportProgress(jobs[j].name, j, |jobs|, pass, None))]
      + (ProfileItems(st, jobs, j, 0, pass)
         + ((if j < |jobs| - 1 && delayBetweenJobs > 0 then [Interval(delayBetweenJobs)] else [])
            + JobItems(st, jobs, delayBetweenJobs, j + 1, pass)))
  }

  /** One pass of the workspace: its enabled jobs, in order. */
  function PassItems(st: ProfileStore, ws: Workspace, pass: int): seq<Item> {
    JobItems(st, EnabledJobs(ws.jobs), ws.delayBetweenJobs, 0, pass)
  }

  /** The workspace's loop rule, which is the action runner's: one pass, LoopCount passes, or until stopped. */
  function LoopRule(ws: Workspace): AR.RunSettings {
    AR.RunSettings(ws.loopWorkspace, ws.workspaceLoopCount, 0, 0, false)
  }

  /** Passes from `pass` on, at most `fuel` of them; there is no wait between passes. */
  function PlanFrom(st: ProfileStore, ws: Workspace, pass: int, fuel: nat): seq<Item>
    decreases fuel
  {
    if fuel == 0 then []
    else PassItems(st, ws, pass)
         + (if AR.LastPass(ws.loopWorkspace, ws.workspaceLoopCount, pass) then [] else PlanFrom(st, ws, pass + 1, fuel - 1))
  }

  function Plan(st: ProfileStore, ws: Workspace, fuel: nat): seq<Item> {
    PlanFrom(st, ws, 1, fuel)
  }

  // ------------------------------------------------------------ what the plan holds

  /** The name loads, and the run uses exactly its enabled actions, which are not none, and its settings. */
  predicate RunsProfile(st: ProfileStore, name: string, actions: seq<ActionItem>, s: AR.RunSettings) {
    && LoadProfile(st, name).Some?
    && actions == EnabledActions(LoadProfile(st, name).value.actions)
    && |actions| > 0
    && s == AR.ProfileSettings(LoadProfile(st, name).value)
  }

  /** A report names an enabled job by its index among the enabled jobs, and a profile of it that loads. */
  predicate ReportOk(st: ProfileStore, jobs: seq<Job>, n: Notice) {
    && n.Progress?
    && 0 <= n.jobIndex < |jobs|
    && n.totalJobs == |jobs|
    && n.jobName == jobs[n.jobIndex].name
    && (n.profileName.Some? ==>
          n.profileName.value in jobs[n.jobIndex].profileNames && LoadProfile(st, n.profileName.value).Some?)
  }

  /** What any item of a plan over these enabled jobs satisfies. */
  predicate ItemOk(st: ProfileStore, jobs: seq<Job>, delayBetweenJobs: int, it: Item) {
    match it
    case Gate => true
    case Report(n) => ReportOk(st, jobs, n)
    case Interval(ms) =>
      ms > 0 && (ms == delayBetweenJobs || exists j :: 0 <= j < |jobs| && ms == jobs[j].delayBetweenProfiles as int)
    case Invoke(a, s) =>
      exists j, k :: 0 <= j < |jobs| && 0 <= k < |jobs[j].profileNames| && RunsProfile(st, jobs[j].profileNames[k], a, s)
  }

  predicate AllOk(st: ProfileStore, jobs: seq<Job>, delayBetweenJobs: int, items: seq<Item>) {
    forall it :: it in items ==> ItemOk(st, jobs, delayBetweenJobs, it)
  }

  lemma {:induction false} ProfileItemsOk(st: ProfileStore, jobs: seq<Job>, d: int, j: nat, k: nat, pass: int)
    requires j < |jobs|
    ensures AllOk(st, jobs, d, ProfileItems(st, jobs, j, k, pass))
    decreases |jobs[j].profileNames| - k
  {
    if k < |jobs[j].profileNames| {
      var next := k + 1;
      var r, more := ResolvedItems(st, jobs, j, k, pass), ProfileItems(st, jobs, j, next, pass);
      ProfileItemsOk(st, jobs, d, j, next, pass);
      ResolvedOk(st, jobs, d, j, k, pass);
      assert ProfileItems(st, jobs, j, k, pass) == [Gate] + (r + more);
      AllOkAppend(st, jobs, d, r, more);
      AllOkAppend(st, jobs, d, [Gate], r + more);
    }
  }

  lemma ResolvedOk(st: ProfileStore, jobs: seq<Job>, d: int, j: nat, k: nat, pass: int)
    requires j < |jobs| && k < |jobs[j].profileNames|
    ensures AllOk(st, jobs, d, ResolvedItems(st, jobs, j, k, pass))
  {
    var name := jobs[j].profileNames[k];
    match LoadProfile(st, name)
    case None =>
    case Some(p) =>
      var n := ReportProgress(jobs[j].name, j, |jobs|, pass, Some(name));
      assert ReportOk(st, jobs, n);
      if |EnabledActions(p.actions)| > 0 {
        assert RunsProfile(st, jobs[j].profileNames[k], EnabledActions(p.actions), AR.ProfileSettings(p));
      }
  }

  lemma {:induction false} JobItemsOk(st: ProfileStore, jobs: seq<Job>, d: int, j: nat, pass: int)
    ensures AllOk(st, jobs, d, JobItems(st, jobs, d, j, pass))
    decreases |jobs| - j
  {
    if j < |jobs| {
      ProfileItemsOk(st, jobs, d, j, 0, pass);
      JobItemsOk(st, jobs, d, j + 1, pass);
      assert ReportOk(st, jobs, ReportProgress(jobs[j].name, j, |jobs|, pass, None));
    }
  }

  lemma {:induction false} PlanFromOk(st: ProfileStore, ws: Workspace, pass: int, fuel: nat)
    ensures AllOk(st, EnabledJobs(ws.jobs), ws.delayBetweenJobs, PlanFrom(st, ws, pass, fuel))
    decreases fuel
  {
    var jobs := EnabledJobs(ws.jobs);
    var d := ws.delayBetweenJobs;
    if fuel > 0 {
      var p := PassItems(st, ws, pass);
      var next, left := pass + 1, fuel - 1;
      var rest: seq<Item> := if AR.LastPass(ws.loopWorkspace, ws.workspaceLoopCount, pass) then [] else PlanFrom(st, ws, next, left);
      var whole := PlanFrom(st, ws, pass, fuel);
      assert whole == p + rest;
      assert AllOk(st, jobs, d, p) by {
        JobItemsOk(st, jobs, d, 0, pass);
      }
      assert AllOk(st, jobs, d, rest) by {
        if rest != [] {
          PlanFromOk(st, ws, next, left);
        }
      }
      AllOkJoin(st, jobs, d, whole, p, rest);
    }
  }

  lemma AllOkJoin(st: ProfileStore, jobs: seq<Job>, d: int, whole: seq<Item>, a: seq<Item>, b: seq<Item>)
    requires whole == a + b && AllOk(st, jobs, d, a) && AllOk(st, jobs, d, b)
    ensures AllOk(st, jobs, d, whole)
  {
    AllOkAppend(st, jobs, d, a, b);
  }

  lemma AllOkAppend(st: ProfileStore, jobs: seq<Job>, d: int, a: seq<Item>, b: seq<Item>)
    requires AllOk(st, jobs, d, a) && AllOk(st, jobs, d, b)
    ensures AllOk(st, jobs, d, a + b)
  {
  }

  /**
   * Every report of a run names an enabled job by its enabled-only index
   * and count, and a profile name of that job which loads; every inner run
   * runs the non-empty enabled actions of a loaded profile of an enabled job
   * with that profile's settings; every wait is positive and is the
   * between-jobs delay or some enabled job's between-profiles delay.
   */
  lemma PlanItemsOk(st: ProfileStore, ws: Workspace, fuel: nat)
    ensures forall it :: it in Plan(st, ws, fuel) ==> ItemOk(st, EnabledJobs(ws.jobs), ws.delayBetweenJobs, it)
  {
    PlanFromOk(st, ws, 1, fuel);
  }

  // ------------------------------------------------------------ stages

  /** Where a stage begins: the run's start, a gate, a wait, or inside a profile's run. */
  datatype Check = Entry | AtGate | AtInterval | Inner

  /** A block of the expanded run, tagged with the check it begins at. */
  datatype Stage = Stage(block: Block, check: Check)

  function Blocks(stages: seq<Stage>): (bs: seq<Block>)
    ensures |bs| == |stages| && forall k :: 0 <= k < |stages| ==> bs[k] == stages[k].block
  {
    seq(|stages|, k requires 0 <= k < |stages| => stages[k].block)
  }

  /** A check of the workspace's own cancellation token. */
  predicate IsCheck(c: Check) {
    c == AtGate || c == AtInterval
  }

  function Extend(open: Stage, steps: seq<Step>): Stage {
    Stage(Block(open.block.steps + steps, open.block.onCut, open.block.checkFirst), open.check)
  }

  /**
   * A profile's run inside the workspace: the action runner's blocks, where
   * a Stop seen at one of them also runs the runner's cleanup, which raises
   * the runner's Stopped; only then does the workspace go on.
   */
  function RunProfileActions(actions: seq<ActionItem>, s: AR.RunSettings, saved: Point, fuel: nat)
    : (stages: seq<Stage>)
    ensures |stages| == |AR.Body(actions, s, fuel)|
    ensures forall k :: 0 <= k < |stages| ==> stages[k].check == Inner
  {
    var body := AR.Body(actions, s, fuel);
    seq(|body|, k requires 0 <= k < |body| => Stage(Block(body[k].steps, body[k].onCut + AR.Cleanup(s, saved), body[k].checkFirst), Inner))
  }

  /** The end of a profile's run: the runner's cleanup, which still runs when the Stop is seen there. */
  function RunEnd(s: AR.RunSettings, saved: Point): Stage {
    Stage(Block(AR.Cleanup(s, saved), AR.Cleanup(s, saved)), Inner)
  }

  /**
   * The stages of a plan, `open` being the stage in progress and `pos` the
   * cursor. A report joins the open stage; a gate or a wait opens a new one;
   * an inner run adds its own stages. An inner run that does not end within
   * the fuel ends the workspace there: it only ends by a Stop, which the
   * workspace sees as soon as the inner run returns.
   */
  function Exec(items: seq<Item>, fuel: nat, open: Stage, pos: Point): seq<Stage>
    decreases |items|
  {
    if |items| == 0 then [open]
    else
      match items[0]
      case Gate => [open] + Exec(items[1..], fuel, Stage(Plain([]), AtGate), pos)
      case Interval(ms) => [open] + Exec(items[1..], fuel, Stage(Plain([Wait(ms)]), AtInterval), pos)
      case Report(n) => Exec(items[1..], fuel, Extend(open, [Notify(n)]), pos)
      case Invoke(a, s) =>
        [Extend(open, [SetRunning(ActionRun, true)])] + RunProfileActions(a, s, pos, fuel)
        + (if AR.Exhausts(s, fuel)
           then Exec(items[1..], fuel, RunEnd(s, pos), CursorAt(pos, Flat(AR.Body(a, s, fuel)) + AR.Cleanup(s, pos)))
           else [RunEnd(s, pos)])
  }

  /** The plan items a run gets through: all of them, or up to an inner run that the fuel leaves unfinished. */
  function Reached(items: seq<Item>, fuel: nat): (r: seq<Item>)
    ensures r <= items
    decreases |items|
  {
    if |items| == 0 then []
    else if items[0].Invoke? && !AR.Exhausts(items[0].settings, fuel) then [items[0]]
    else [items[0]] + Reached(items[1..], fuel)
  }

  /** Every inner run of the plan ends within the fuel. */
  predicate InnerRunsEnd(items: seq<Item>, fuel: nat) {
    forall it :: it in items && it.Invoke? ==> AR.Exhausts(it.settings, fuel)
  }

  lemma {:induction false} ReachedAll(items: seq<Item>, fuel: nat)
    requires InnerRunsEnd(items, fuel)
    ensures Reached(items, fuel) == items
    decreases |items|
  {
    if |items| > 0 {
      assert items[0] in items;
      assert InnerRunsEnd(items[1..], fuel) by {
        forall it | it in items[1..] && it.Invoke?
          ensures AR.Exhausts(it.settings, fuel)
        {
          assert it in items;
        }
      }
      ReachedAll(items[1..], fuel);
      assert items == [items[0]] + items[1..];
    }
  }

  function Stages(st: ProfileStore, ws: Workspace, cursor: Point, fuel: nat): seq<Stage> {
    Exec(Plan(st, ws, fuel), fuel, Stage(Plain([]), Entry), cursor)
  }

  /** The first check of the workspace's token at or after stage j, or the end. */
  function NextCheck(stages: seq<Stage>, j: nat): (e: nat)
    requires j <= |stages|
    ensures j <= e <= |stages|
    ensures forall i :: j <= i < e ==> !IsCheck(stages[i].check)
    ensures e < |stages| ==> IsCheck(stages[e].check)
    decreases |stages| - j
  {
    if j == |stages| || IsCheck(stages[j].check) then j else NextCheck(stages, j + 1)
  }

  const RunStart: seq<Step> := [SetRunning(WorkspaceRun, true)]

  /** The finally block: not running, not paused, gate open, Stopped raised. */
  const RunCleanup: seq<Step> :=
    [SetRunning(WorkspaceRun, false), SetPaused(false), SetGate(true), Notify(Stopped(WorkspaceRun))]

  /** The Stop finds the run parked at the gate of stage `stop` (it was paused before getting there). */
  predicate ParkedAt(stages: seq<Stage>, stop: nat, parked: bool) {
    parked && stop < |stages| && stages[stop].check == AtGate
  }

  /**
   * Where the run, as written, stops for a Stop seen at stage `stop`.
   * When the Stop finds the run parked at a gate, the gate opens and
   * returns normally, and nothing checks the token until the next gate or
   * wait: the stages in between, a whole profile run among them, still run.
   */
  function StopCut(stages: seq<Stage>, stop: nat, parked: bool): nat {
    if ParkedAt(stages, stop, parked) then NextCheck(stages, stop + 1) else stop
  }

  /**
   * Whether the Stop reaches an inner wait without a time-out: it comes at
   * all, and not while the run is parked at a gate before that wait. The
   * Stop stops the action runner while it is not running, and the profile
   * run after the gate starts with a token of its own that nothing cancels.
   */
  predicate Wakes(stages: seq<Stage>, stop: nat, parked: bool) {
    stop < |stages| && !(ParkedAt(stages, stop, parked) && stop < Stall(Blocks(stages)))
  }

  /** How a run as written ends. */
  function WsEnding(st: ProfileStore, ws: Workspace, cursor: Point, fuel: nat, stop: nat, parked: bool): Ending {
    var stages := Stages(st, ws, cursor, fuel);
    EndingOf(Blocks(stages), StopCut(stages, stop, parked), Wakes(stages, stop, parked))
  }

  /**
   * One call, as written: nothing when running or when the workspace has no
   * jobs at all (disabled ones count); otherwise the stages, cut by a Stop
   * at stage `stop` (none when `stop` is past the end) or halted at an
   * inner action's negative delay, then the cleanup. The action runner's
   * fault escapes the catch, which only takes a cancellation, so the
   * workspace's task faults after its cleanup; an inner wait of -1 that no
   * Stop reaches leaves the workspace running.
   */
  function RunAsync(r: WsRunner, ws: Workspace, st: ProfileStore, cursor: Point, fuel: nat, stop: nat, parked: bool)
    : (res: (WsRunner, seq<Step>))
    ensures r.isRunning || |ws.jobs| == 0 ==> res == (r, [])
    ensures !r.isRunning && |ws.jobs| > 0 ==>
      var stages := Stages(st, ws, cursor, fuel);
      var e := WsEnding(st, ws, cursor, fuel, stop, parked);
      && res.0 == (if e == Hung then r.(isRunning := true) else Idle)
      && res.1 == RunStart + Halted(Blocks(stages), StopCut(stages, stop, parked), Wakes(stages, stop, parked), RunCleanup, WorkspaceRun)
      && (e != Hung ==> StopCount(Notices(res.1), WorkspaceRun) == 1)
      && (e != Hung ==> Notices(res.1)[|Notices(res.1)| - 1] == Stopped(WorkspaceRun))
      && (e == Hung ==> NoStop(res.1, WorkspaceRun))
      && (e == Faulted ==> res.1[|res.1| - 1] == Fault(WorkspaceRun))
  {
    if r.isRunning || |ws.jobs| == 0 then (r, [])
    else
      var stages := Stages(st, ws, cursor, fuel);
      var cut, wake := StopCut(stages, stop, parked), Wakes(stages, stop, parked);
      StagesOk(st, ws, cursor, fuel);
      RunStops(stages, cut, wake);
      (if EndingOf(Blocks(stages), cut, wake) == Hung then r.(isRunning := true) else Idle,
       RunStart + Halted(Blocks(stages), cut, wake, RunCleanup, WorkspaceRun))
  }

  /** How the run with the token checked again after the gate ends. */
  function CheckedEnding(st: ProfileStore, ws: Workspace, cursor: Point, fuel: nat, stop: nat): Ending {
    var stages := Stages(st, ws, cursor, fuel);
    EndingOf(Blocks(stages), stop, stop < |stages|)
  }

  /** The run with the token checked again after the gate: a Stop seen at a gate ends the run there. */
  function RunAsyncChecked(r: WsRunner, ws: Workspace, st: ProfileStore, cursor: Point, fuel: nat, stop: nat, parked: bool)
    : (res: (WsRunner, seq<Step>))
    ensures r.isRunning || |ws.jobs| == 0 ==> res == (r, [])
    ensures !r.isRunning && |ws.jobs| > 0 ==>
      var stages := Stages(st, ws, cursor, fuel);
      var e := CheckedEnding(st, ws, cursor, fuel, stop);
      && res.0 == (if e == Hung then r.(isRunning := true) else Idle)
      && res.1 == RunStart + Halted(Blocks(stages), stop, stop < |stages|, RunCleanup, WorkspaceRun)
      && (e != Hung ==> StopCount(Notices(res.1), WorkspaceRun) == 1)
      && (e != Hung ==> Notices(res.1)[|Notices(res.1)| - 1] == Stopped(WorkspaceRun))
      && (e == Hung ==> NoStop(res.1, WorkspaceRun))
      && (e == Faulted ==> res.1[|res.1| - 1] == Fault(WorkspaceRun))
  {
    if r.isRunning || |ws.jobs| == 0 then (r, [])
    else
      var stages := Stages(st, ws, cursor, fuel);
      var wake := stop < |stages|;
      StagesOk(st, ws, cursor, fuel);
      RunStops(stages, stop, wake);
      (if EndingOf(Blocks(stages), stop, wake) == Hung then r.(isRunning := true) else Idle,
       RunStart + Halted(Blocks(stages), stop, wake, RunCleanup, WorkspaceRun))
  }

  /** A workspace run raises its Stopped once, last, unless it hangs; then none; a fault is its last step. */
  lemma RunStops(stages: seq<Stage>, cut: nat, wake: bool)
    requires forall sg :: sg in stages ==> StageOk(sg)
    ensures var t := RunStart + Halted(Blocks(stages), cut, wake, RunCleanup, WorkspaceRun);
      var e := EndingOf(Blocks(stages), cut, wake);
      && (e != Hung ==> StopCount(Notices(t), WorkspaceRun) == 1 && Notices(t)[|Notices(t)| - 1] == Stopped(WorkspaceRun))
      && (e == Hung ==> NoStop(t, WorkspaceRun))
      && (e == Faulted ==> t[|t| - 1] == Fault(WorkspaceRun))
  {
    forall k | 0 <= k < |stages|
      ensures NoStop(Blocks(stages)[k].steps, WorkspaceRun) && NoStop(Blocks(stages)[k].onCut, WorkspaceRun)
    {
      assert stages[k] in stages;
    }
    assert Notices(RunCleanup) == [Stopped(WorkspaceRun)];
    assert Notices(RunStart) == [];
    HaltedStops(RunStart, Blocks(stages), cut, wake, RunCleanup, WorkspaceRun);
  }

  // ------------------------------------------------------------ what the stages hold

  /** The progress events, in order. */
  function ProgressOf(ns: seq<Notice>): seq<Notice>
    decreases |ns|
  {
    if |ns| == 0 then [] else (if ns[0].Progress? then [ns[0]] else []) + ProgressOf(ns[1..])
  }

  lemma {:induction false} ProgressAppend(a: seq<Notice>, b: seq<Notice>)
    ensures ProgressOf(a + b) == ProgressOf(a) + ProgressOf(b)
    decreases |a|
  {
    if |a| == 0 {
      assert a + b == b;
    } else {
      assert (a + b)[1..] == a[1..] + b;
      ProgressAppend(a[1..], b);
    }
  }

  lemma {:induction false} NoProgress(ns: seq<Notice>)
    requires forall n :: n in ns ==> !n.Progress?
    ensures ProgressOf(ns) == []
    decreases |ns|
  {
    if |ns| > 0 {
      assert ns[0] in ns;
      assert forall n :: n in ns[1..] ==> n in ns;
      NoProgress(ns[1..]);
    }
  }

  /** No stage raises the workspace's Stopped; cancellation steps raise no progress; checks have none. */
  predicate StageOk(sg: Stage) {
    && NoStop(sg.block.steps, WorkspaceRun)
    && NoStop(sg.block.onCut, WorkspaceRun)
    && (forall n :: n in Notices(sg.block.onCut) ==> !n.Progress?)
    && (IsCheck(sg.check) ==> sg.block.onCut == [])
  }


  lemma CleanupOk(s: AR.RunSettings, saved: Point)
    ensures StageOk(RunEnd(s, saved))
    ensures ProgressOf(Notices(AR.Cleanup(s, saved))) == []
  {
    AR.CleanupShape(s, saved, saved);
    assert ProgressOf([Stopped(ActionRun)]) == [] + ProgressOf([]);
  }

  /** The stages of a profile's run raise only the runner's events, never the workspace's Stopped or progress. */
  lemma InnerStagesOk(actions: seq<ActionItem>, s: AR.RunSettings, saved: Point, fuel: nat)
    ensures forall sg :: sg in RunProfileActions(actions, s, saved, fuel) ==> StageOk(sg)
    ensures Flat(Blocks(RunProfileActions(actions, s, saved, fuel))) == Flat(AR.Body(actions, s, fuel))
    ensures ProgressOf(Notices(Flat(AR.Body(actions, s, fuel)))) == []
  {
    var body := AR.Body(actions, s, fuel);
    var inner := RunProfileActions(actions, s, saved, fuel);
    AR.QuietUnroll(actions, s, 1, fuel);
    AR.CleanupShape(s, saved, saved);
    forall sg | sg in inner
      ensures StageOk(sg)
    {
      var k :| 0 <= k < |inner| && inner[k] == sg;
      BlockNoticesInFlat(body, k);
      assert body[k].onCut == [];
      assert sg.block.onCut == AR.Cleanup(s, saved) by {
        assert [] + AR.Cleanup(s, saved) == AR.Cleanup(s, saved);
      }
    }
    FlatSameSteps(Blocks(inner), body);
    NoProgress(Notices(Flat(body)));
  }

  /** Flat depends only on the blocks' steps. */
  lemma {:induction false} FlatSameSteps(a: seq<Block>, b: seq<Block>)
    requires |a| == |b| && forall k :: 0 <= k < |a| ==> a[k].steps == b[k].steps
    ensures Flat(a) == Flat(b)
    decreases |a|
  {
    if |a| > 0 {
      FlatSameSteps(a[1..], b[1..]);
    }
  }

  /** Every report among the items raises a progress event. */
  predicate ProgressReports(items: seq<Item>) {
    forall it :: it in items && it.Report? ==> it.notice.Progress?
  }

  lemma ProgressReportsTail(items: seq<Item>, rest: seq<Item>)
    requires |items| > 0 && rest == items[1..] && ProgressReports(items)
    ensures ProgressReports(rest)
    ensures items[0].Report? ==> items[0].notice.Progress?
  {
    assert forall it :: it in rest ==> it in items;
    assert items[0] in items;
  }

  lemma {:induction false} ExecOk(items: seq<Item>, fuel: nat, open: Stage, pos: Point)
    requires StageOk(open)
    requires ProgressReports(items)
    ensures forall sg :: sg in Exec(items, fuel, open, pos) ==> StageOk(sg)
    decreases |items|
  {
    if |items| > 0 {
      var rest := items[1..];
      ProgressReportsTail(items, rest);
      match items[0]
      case Gate =>
        var e := Exec(rest, fuel, Stage(Plain([]), AtGate), pos);
        ExecOk(rest, fuel, Stage(Plain([]), AtGate), pos);
        StagesOkAppend([open], e);
      case Interval(ms) =>
        var e := Exec(rest, fuel, Stage(Plain([Wait(ms)]), AtInterval), pos);
        assert Notices([Wait(ms)]) == [];
        ExecOk(rest, fuel, Stage(Plain([Wait(ms)]), AtInterval), pos);
        StagesOkAppend([open], e);
      case Report(n) =>
        assert StageOk(Extend(open, [Notify(n)])) by {
          NoticesAppend(open.block.steps, [Notify(n)]);
          assert Notices([Notify(n)]) == [n] + Notices([]);
        }
        ExecOk(rest, fuel, Extend(open, [Notify(n)]), pos);
      case Invoke(a, s) =>
        var first := Extend(open, [SetRunning(ActionRun, true)]);
        assert StageOk(first) by {
          NoticesAppend(open.block.steps, [SetRunning(ActionRun, true)]);
          assert Notices([SetRunning(ActionRun, true)]) == [];
        }
        var inner := RunProfileActions(a, s, pos, fuel);
        InnerStagesOk(a, s, pos, fuel);
        CleanupOk(s, pos);
        StagesOkAppend([first], inner);
        if AR.Exhausts(s, fuel) {
          var saved := CursorAt(pos, Flat(AR.Body(a, s, fuel)) + AR.Cleanup(s, pos));
          var e := Exec(rest, fuel, RunEnd(s, pos), saved);
          ExecOk(rest, fuel, RunEnd(s, pos), saved);
          StagesOkAppend([first] + inner, e);
        } else {
          StagesOkAppend([first] + inner, [RunEnd(s, pos)]);
        }
    }
  }

  lemma StagesOkAppend(a: seq<Stage>, b: seq<Stage>)
    requires forall sg :: sg in a ==> StageOk(sg)
    requires forall sg :: sg in b ==> StageOk(sg)
    ensures forall sg :: sg in a + b ==> StageOk(sg)
  {
  }

  /** Every stage of a run is as StageOk says. */
  lemma StagesOk(st: ProfileStore, ws: Workspace, cursor: Point, fuel: nat)
    ensures forall sg :: sg in Stages(st, ws, cursor, fuel) ==> StageOk(sg)
    ensures NoStopBlocks(Blocks(Stages(st, ws, cursor, fuel)), WorkspaceRun)
  {
    var items := Plan(st, ws, fuel);
    PlanItemsOk(st, ws, fuel);
    assert NoStop([], WorkspaceRun);
    ExecOk(items, fuel, Stage(Plain([]), Entry), cursor);
    var stages := Stages(st, ws, cursor, fuel);
    forall k | 0 <= k < |stages|
      ensures NoStop(Blocks(stages)[k].steps, WorkspaceRun) && NoStop(Blocks(stages)[k].onCut, WorkspaceRun)
    {
      assert stages[k] in stages;
    }
  }

  // ------------------------------------------------------------ waits that return

  /** Every inner run of the plan runs actions none of which has a negative delay. */
  predicate DelaysReturn(items: seq<Item>) {
    forall it :: it in items && it.Invoke? ==> AR.NonNegativeDelays(it.actions)
  }

  /** The plan's own waits are positive. */
  predicate IntervalsPositive(items: seq<Item>) {
    forall it :: it in items && it.Interval? ==> it.ms > 0
  }

  /** A stage that does not begin with a wait still does not once steps are added to it. */
  lemma ExtendReturns(open: Stage, steps: seq<Step>)
    requires !Stalls(open.block)
    requires |steps| > 0 && !steps[0].Wait?
    ensures !Stalls(Extend(open, steps).block)
  {
    if |open.block.steps| > 0 {
      assert (open.block.steps + steps)[0] == open.block.steps[0];
    } else {
      assert open.block.steps + steps == steps;
    }
  }

  lemma CleanupReturns(s: AR.RunSettings, saved: Point)
    ensures !Stalls(RunEnd(s, saved).block)
  {
    assert AR.Cleanup(s, saved)[0].Input? || AR.Cleanup(s, saved)[0].SetRunning?;
  }

  /** The stages of a profile's run are the runner's blocks, which return when its actions' delays are not negative. */
  lemma InnerReturns(actions: seq<ActionItem>, s: AR.RunSettings, saved: Point, fuel: nat)
    requires AR.NonNegativeDelays(actions)
    ensures Returning(Blocks(RunProfileActions(actions, s, saved, fuel)))
  {
    var body := AR.Body(actions, s, fuel);
    AR.ReturningUnroll(actions, s, 1, fuel);
    forall k | 0 <= k < |body|
      ensures !Stalls(Blocks(RunProfileActions(actions, s, saved, fuel))[k])
    {
      assert !Stalls(body[k]);
    }
  }

  lemma {:induction false} ExecReturns(items: seq<Item>, fuel: nat, open: Stage, pos: Point)
    requires !Stalls(open.block)
    requires DelaysReturn(items) && IntervalsPositive(items)
    ensures Returning(Blocks(Exec(items, fuel, open, pos)))
    decreases |items|
  {
    if |items| == 0 {
      assert Blocks([open]) == [open.block];
    } else {
      var rest := items[1..];
      assert items[0] in items;
      assert DelaysReturn(rest) && IntervalsPositive(rest) by {
        assert forall it :: it in rest ==> it in items;
      }
      match items[0]
      case Gate =>
        ExecReturns(rest, fuel, Stage(Plain([]), AtGate), pos);
        ReturningStages([open], Exec(rest, fuel, Stage(Plain([]), AtGate), pos));
      case Interval(ms) =>
        ExecReturns(rest, fuel, Stage(Plain([Wait(ms)]), AtInterval), pos);
        ReturningStages([open], Exec(rest, fuel, Stage(Plain([Wait(ms)]), AtInterval), pos));
      case Report(n) =>
        ExtendReturns(open, [Notify(n)]);
        ExecReturns(rest, fuel, Extend(open, [Notify(n)]), pos);
      case Invoke(a, s) =>
        var first := Extend(open, [SetRunning(ActionRun, true)]);
        ExtendReturns(open, [SetRunning(ActionRun, true)]);
        InnerReturns(a, s, pos, fuel);
        ReturningStages([first], RunProfileActions(a, s, pos, fuel));
        CleanupReturns(s, pos);
        if AR.Exhausts(s, fuel) {
          var saved := CursorAt(pos, Flat(AR.Body(a, s, fuel)) + AR.Cleanup(s, pos));
          ExecReturns(rest, fuel, RunEnd(s, pos), saved);
          ReturningStages([first] + RunProfileActions(a, s, pos, fuel), Exec(rest, fuel, RunEnd(s, pos), saved));
        } else {
          ReturningStages([first] + RunProfileActions(a, s, pos, fuel), [RunEnd(s, pos)]);
        }
    }
  }

  lemma ReturningStages(a: seq<Stage>, b: seq<Stage>)
    requires Returning(Blocks(a)) && Returning(Blocks(b))
    ensures Returning(Blocks(a + b))
  {
    assert Blocks(a + b) == Blocks(a) + Blocks(b);
    ReturningAppend(Blocks(a), Blocks(b));
  }

  /**
   * A run whose profiles' actions have no negative delay never halts at a
   * wait: its own waits are positive, and the runner's all return.
   */
  lemma StagesReturn(st: ProfileStore, ws: Workspace, cursor: Point, fuel: nat)
    requires DelaysReturn(Plan(st, ws, fuel))
    ensures Returning(Blocks(Stages(st, ws, cursor, fuel)))
  {
    var items := Plan(st, ws, fuel);
    PlanItemsOk(st, ws, fuel);
    assert IntervalsPositive(items) by {
      forall it | it in items && it.Interval?
        ensures it.ms > 0
      {
        assert ItemOk(st, EnabledJobs(ws.jobs), ws.delayBetweenJobs, it);
      }
    }
    ExecReturns(items, fuel, Stage(Plain([]), Entry), cursor);
  }
}
