/**
 * The workspace window's state: the job list and its selection, the
 * selected job's profile names, the run/pause/resume toggle and its button
 * text, the runner's events, a new workspace and the clamping setters.
 * Jobs are distinct by their `id`, so value equality here is the
 * reference equality of the source.
 */
module WorkspaceViewModel {
  import opened Basics
  import opened Text
  import opened Trace
  import opened Jobs
  import opened Models
  import opened ListEdits
  import WR = WorkspaceRunnerService
  import ProfileService

  datatype Vm = Vm(
    jobs: seq<Job>,
    selectedJob: Option<Job>,
    selectedAvailableProfile: Option<string>,
    selectedJobProfile: Option<string>,
    nextId: nat,
    workspaceName: string,
    loopWorkspace: bool,
    workspaceLoopCount: int32,
    delayBetweenJobs: int32,
    isRunning: bool,
    isPaused: bool)

  /** What a command asks of the workspace runner. */
  datatype Request = NoRequest | Run(workspace: Workspace) | PauseRun | ResumeRun | StopRun

  function Listed(vm: Vm): Listing<Job> {
    Listing(vm.jobs, vm.selectedJob)
  }

  function WithListing(vm: Vm, e: Listing<Job>): Vm {
    vm.(jobs := e.items, selectedJob := e.selected)
  }

  predicate IdsDistinct(jobs: seq<Job>) {
    forall i, j :: 0 <= i < j < |jobs| ==> jobs[i].id != jobs[j].id
  }

  /** Identities distinct and below the next one handed out, and the selected job on the list. */
  predicate Valid(vm: Vm) {
    && IdsDistinct(vm.jobs)
    && (forall i :: 0 <= i < |vm.jobs| ==> vm.jobs[i].id < vm.nextId)
    && (vm.selectedJob.Some? ==> vm.selectedJob.value in vm.jobs)
  }

  lemma ValidSound(vm: Vm)
    requires Valid(vm)
    ensures Sound(Listed(vm))
  {
  }

  /** A swap of two positions keeps the identities distinct. */
  lemma SwapKeepsIds(s: seq<Job>, i: int, j: int, r: seq<Job>)
    requires IdsDistinct(s) && 0 <= i < |s| && 0 <= j < |s| && |r| == |s|
    requires r[i] == s[j] && r[j] == s[i]
    requires forall k :: 0 <= k < |r| && k != i && k != j ==> r[k] == s[k]
    ensures IdsDistinct(r)
  {
    forall k | 0 <= k < |r|
      ensures r[k] == s[Swapped(k, i, j)]
    {
    }
  }

  /** The constructor's state: no jobs, one pass, no delay, idle. */
  const Created := Vm([], None, None, None, 0, "", false, 1, 0, false, false)

  // ------------------------------------------------------------ the job list

  /** Appends a new job named after its position and selects it. */
  function AddJob(vm: Vm): (r: Vm)
    requires Valid(vm)
    ensures Valid(r)
    ensures |r.jobs| == |vm.jobs| + 1 && r.jobs[..|vm.jobs|] == vm.jobs
    ensures r.jobs[|vm.jobs|] == NewJob(vm.nextId).(name := "Job " + IntToString(|vm.jobs| + 1))
    ensures r.selectedJob == Some(r.jobs[|vm.jobs|])
  {
    var job := NewJob(vm.nextId).(name := "Job " + IntToString(|vm.jobs| + 1));
    var r := vm.(jobs := vm.jobs + [job], selectedJob := Some(job), nextId := vm.nextId + 1);
    assert r.jobs[..|vm.jobs|] == vm.jobs;
    r
  }

  /** The selected job goes; the one that took its place, or the new last one, is selected. */
  function RemoveJob(vm: Vm): (r: Vm)
    requires Valid(vm)
    ensures Valid(r) && Listed(r) == RemoveSelected(Listed(vm))
    ensures r.(jobs := vm.jobs, selectedJob := vm.selectedJob) == vm
  {
    ValidSound(vm);
    WithListing(vm, RemoveSelected(Listed(vm)))
  }

  function MoveJobUp(vm: Vm): (r: Vm)
    requires Valid(vm)
    ensures Valid(r) && Listed(r) == MoveSelectedUp(Listed(vm))
    ensures r.(jobs := vm.jobs, selectedJob := vm.selectedJob) == vm
  {
    MoveUpKeepsValid(vm);
    WithListing(vm, MoveSelectedUp(Listed(vm)))
  }

  function MoveJobDown(vm: Vm): (r: Vm)
    requires Valid(vm)
    ensures Valid(r) && Listed(r) == MoveSelectedDown(Listed(vm))
    ensures r.(jobs := vm.jobs, selectedJob := vm.selectedJob) == vm
  {
    MoveDownKeepsValid(vm);
    WithListing(vm, MoveSelectedDown(Listed(vm)))
  }

  lemma MoveUpKeepsValid(vm: Vm)
    requires Valid(vm)
    ensures Sound(Listed(vm)) && Valid(WithListing(vm, MoveSelectedUp(Listed(vm))))
  {
    ValidSound(vm);
    var up := MoveSelectedUp(Listed(vm));
    if vm.selectedJob.Some? && SelectedIndex(Listed(vm)) > 0 {
      var i := SelectedIndex(Listed(vm));
      SwapKeepsIds(vm.jobs, i - 1, i, up.items);
    }
  }

  lemma MoveDownKeepsValid(vm: Vm)
    requires Valid(vm)
    ensures Sound(Listed(vm)) && Valid(WithListing(vm, MoveSelectedDown(Listed(vm))))
  {
    ValidSound(vm);
    var down := MoveSelectedDown(Listed(vm));
    if vm.selectedJob.Some? && SelectedIndex(Listed(vm)) < |vm.jobs| - 1 {
      var i := SelectedIndex(Listed(vm));
      SwapKeepsIds(vm.jobs, i, i + 1, down.items);
    }
  }

  // ------------------------------------------------------------ the selected job's profiles

  /** A name that counts as chosen: present and not empty. */
  predicate Chosen(p: Option<string>) {
    p.Some? && p.value != ""
  }

  /** The selected job with its profile names replaced, in the list and as the selection. */
  function WithNames(vm: Vm, names: seq<string>): (r: Vm)
    requires Valid(vm) && vm.selectedJob.Some?
    ensures Valid(r) && r.selectedJob.Some? && r.selectedJob.value.profileNames == names
    ensures |r.jobs| == |vm.jobs|
    ensures r.selectedJob.value == vm.selectedJob.value.(profileNames := names)
  {
    ValidSound(vm);
    var i := SelectedIndex(Listed(vm));
    var job := vm.selectedJob.value.(profileNames := names);
    var jobs := vm.jobs[i := job];
    assert jobs[i] == job;
    vm.(jobs := jobs, selectedJob := Some(job))
  }

  function SelectedNames(vm: Vm): seq<string>
    requires vm.selectedJob.Some?
  {
    vm.selectedJob.value.profileNames
  }

  /**
   * The selected profile name is on the selected job's list, or that list is
   * empty: otherwise removing or moving it down indexes at -1, which throws.
   */
  predicate ProfileSelectionOk(vm: Vm) {
    vm.selectedJob.Some? && Chosen(vm.selectedJobProfile) ==>
      vm.selectedJobProfile.value in SelectedNames(vm) || SelectedNames(vm) == []
  }

  /** Appends the chosen available profile to the selected job, duplicates included. */
  function AddProfileToJob(vm: Vm): (r: Vm)
    requires Valid(vm)
    ensures Valid(r) && r.selectedJob.Some? == vm.selectedJob.Some?
    ensures vm.selectedJob.None? || !Chosen(vm.selectedAvailableProfile) ==> r == vm
    ensures vm.selectedJob.Some? && Chosen(vm.selectedAvailableProfile) ==>
      SelectedNames(r) == SelectedNames(vm) + [vm.selectedAvailableProfile.value]
  {
    if vm.selectedJob.None? || !Chosen(vm.selectedAvailableProfile) then vm
    else WithNames(vm, SelectedNames(vm) + [vm.selectedAvailableProfile.value])
  }

  /**
   * Removes the first occurrence of the selected profile name and selects
   * the name that took its place, or the new last one; an emptied list
   * leaves the selection as it was.
   */
  function RemoveProfileFromJob(vm: Vm): (r: Vm)
    requires Valid(vm) && ProfileSelectionOk(vm)
    ensures Valid(r) && r.selectedJob.Some? == vm.selectedJob.Some?
    ensures vm.selectedJob.None? || !Chosen(vm.selectedJobProfile) || SelectedNames(vm) == [] ==> r == vm
    ensures vm.selectedJob.Some? && Chosen(vm.selectedJobProfile) && SelectedNames(vm) != [] ==>
      var e := RemoveFirstReselect(SelectedNames(vm), vm.selectedJobProfile.value);
      && SelectedNames(r) == e.0
      && r.selectedJobProfile == (if e.1.Some? then e.1 else vm.selectedJobProfile)
  {
    if vm.selectedJob.None? || !Chosen(vm.selectedJobProfile) || SelectedNames(vm) == [] then vm
    else
      var e := RemoveFirstReselect(SelectedNames(vm), vm.selectedJobProfile.value);
      WithNames(vm, e.0).(selectedJobProfile := if e.1.Some? then e.1 else vm.selectedJobProfile)
  }

  /** Moves the first occurrence of the selected name one place up; it stays selected. */
  function MoveProfileUp(vm: Vm): (r: Vm)
    requires Valid(vm)
    ensures Valid(r) && r.selectedJobProfile == vm.selectedJobProfile
    ensures vm.selectedJob.None? || !Chosen(vm.selectedJobProfile) ==> r == vm
    ensures vm.selectedJob.Some? && Chosen(vm.selectedJobProfile) ==>
      r.selectedJob.Some? && SelectedNames(r) == MoveFirstUp(SelectedNames(vm), vm.selectedJobProfile.value)
  {
    if vm.selectedJob.None? || !Chosen(vm.selectedJobProfile) then vm
    else WithNames(vm, MoveFirstUp(SelectedNames(vm), vm.selectedJobProfile.value))
  }

  /** Moves the first occurrence of the selected name one place down; it stays selected. */
  function MoveProfileDown(vm: Vm): (r: Vm)
    requires Valid(vm) && ProfileSelectionOk(vm)
    ensures Valid(r) && r.selectedJobProfile == vm.selectedJobProfile
    ensures vm.selectedJob.None? || !Chosen(vm.selectedJobProfile) ==> r == vm
    ensures vm.selectedJob.Some? && Chosen(vm.selectedJobProfile) ==>
      r.selectedJob.Some? && SelectedNames(r) == MoveFirstDown(SelectedNames(vm), vm.selectedJobProfile.value)
  {
    if vm.selectedJob.None? || !Chosen(vm.selectedJobProfile) then vm
    else WithNames(vm, MoveFirstDown(SelectedNames(vm), vm.selectedJobProfile.value))
  }

  /** Moving a profile name up and then down restores the job's list. */
  lemma ProfileUpThenDown(vm: Vm)
    requires Valid(vm) && vm.selectedJob.Some? && Chosen(vm.selectedJobProfile)
    requires IndexOf(SelectedNames(vm), vm.selectedJobProfile.value) > 0
    ensures ProfileSelectionOk(MoveProfileUp(vm))
    ensures SelectedNames(MoveProfileDown(MoveProfileUp(vm))) == SelectedNames(vm)
  {
    var (names, p) := (SelectedNames(vm), vm.selectedJobProfile.value);
    assert p in MoveFirstUp(names, p);
    FirstUpThenDown(names, p);
  }

  /** Adding a profile the job lacks, selecting it and removing it restores the job's list. */
  lemma AddThenRemoveProfile(vm: Vm)
    requires Valid(vm) && vm.selectedJob.Some? && Chosen(vm.selectedAvailableProfile)
    requires vm.selectedAvailableProfile.value !in SelectedNames(vm)
    ensures var added := AddProfileToJob(vm).(selectedJobProfile := vm.selectedAvailableProfile);
      ProfileSelectionOk(added) && SelectedNames(RemoveProfileFromJob(added)) == SelectedNames(vm)
  {
    var (names, p) := (SelectedNames(vm), vm.selectedAvailableProfile.value);
    var added := AddProfileToJob(vm).(selectedJobProfile := vm.selectedAvailableProfile);
    assert SelectedNames(added) == names + [p];
    RemoveAppended(names, p);
    assert p in names + [p];
  }

  // ------------------------------------------------------------ running

  function RunButtonText(vm: Vm): string {
    if vm.isRunning && vm.isPaused then "Resume"
    else if vm.isRunning then "Pause"
    else "Run Workspace"
  }

  /** The button reads Resume, Pause or Run Workspace exactly in the three flag cases. */
  lemma RunButtonTextCases(vm: Vm)
    ensures RunButtonText(vm) == "Resume" <==> vm.isRunning && vm.isPaused
    ensures RunButtonText(vm) == "Pause" <==> vm.isRunning && !vm.isPaused
    ensures RunButtonText(vm) == "Run Workspace" <==> !vm.isRunning
  {
  }

  /**
   * Nothing without jobs or while a run is active. Otherwise the view model
   * shows itself running before the runner starts, and hands it a snapshot
   * of the jobs and the loop settings.
   */
  function RunWorkspace(vm: Vm): (res: (Vm, Request))
    ensures |vm.jobs| == 0 || vm.isRunning ==> res == (vm, NoRequest)
    ensures |vm.jobs| > 0 && !vm.isRunning ==>
      && res.0 == vm.(isRunning := true)
      && res.1 == Run(Workspace(vm.workspaceName, vm.jobs, vm.loopWorkspace, vm.workspaceLoopCount, vm.delayBetweenJobs))
  {
    if |vm.jobs| == 0 || vm.isRunning then (vm, NoRequest)
    else
      (vm.(isRunning := true),
       Run(Workspace(vm.workspaceName, vm.jobs, vm.loopWorkspace, vm.workspaceLoopCount, vm.delayBetweenJobs)))
  }

  /** Run when idle, resume when paused, pause when running. */
  function Toggle(vm: Vm): (res: (Vm, Request))
    ensures !vm.isRunning ==> res == RunWorkspace(vm)
    ensures vm.isRunning ==> res.0 == vm
    ensures vm.isRunning && vm.isPaused ==> res.1 == ResumeRun
    ensures vm.isRunning && !vm.isPaused ==> res.1 == PauseRun
  {
    if vm.isRunning then (vm, if vm.isPaused then ResumeRun else PauseRun)
    else RunWorkspace(vm)
  }

  /** Stop only asks the runner; the flags follow its Stopped event. */
  function Stop(vm: Vm): (res: (Vm, Request))
    ensures res == (vm, StopRun)
  {
    (vm, StopRun)
  }

  /** The runner's events: Stopped clears both flags, Paused and Resumed set and clear the pause. */
  function OnNotice(vm: Vm, n: Notice): (r: Vm)
    ensures n == Stopped(WorkspaceRun) ==> !r.isRunning && !r.isPaused
    ensures n == Paused ==> r.isPaused && r.isRunning == vm.isRunning
    ensures n == Resumed ==> !r.isPaused && r.isRunning == vm.isRunning
    ensures n !in {Stopped(WorkspaceRun), Paused, Resumed} ==> r == vm
    ensures r.jobs == vm.jobs && r.selectedJob == vm.selectedJob
  {
    match n
    case Stopped(WorkspaceRun) => vm.(isRunning := false, isPaused := false)
    case Paused => vm.(isPaused := true)
    case Resumed => vm.(isPaused := false)
    case _ => vm
  }

  function OnNotices(vm: Vm, ns: seq<Notice>): Vm
    decreases |ns|
  {
    if |ns| == 0 then vm else OnNotices(OnNotice(vm, ns[0]), ns[1..])
  }

  /** Events ending with Stopped leave the view model idle and unpaused. */
  lemma {:induction false} OnNoticesEndStopped(vm: Vm, ns: seq<Notice>)
    requires |ns| > 0 && ns[|ns| - 1] == Stopped(WorkspaceRun)
    ensures !OnNotices(vm, ns).isRunning && !OnNotices(vm, ns).isPaused
    ensures OnNotices(vm, ns).jobs == vm.jobs
    decreases |ns|
  {
    if |ns| > 1 {
      OnNoticesEndStopped(OnNotice(vm, ns[0]), ns[1..]);
    }
  }

  /** Events without the workspace's Stopped leave the view model running when it was. */
  lemma {:induction false} OnNoticesNoStop(vm: Vm, ns: seq<Notice>)
    requires Stopped(WorkspaceRun) !in ns
    ensures OnNotices(vm, ns).isRunning == vm.isRunning
    decreases |ns|
  {
    if |ns| > 0 {
      assert ns[0] in ns;
      assert forall n :: n in ns[1..] ==> n in ns;
      OnNoticesNoStop(OnNotice(vm, ns[0]), ns[1..]);
    }
  }

  /**
   * A run started from the view model, handed to an idle runner, ends with
   * the view model idle again and the button back at Run Workspace; a run
   * that hangs at an inner wait of -1 leaves it running.
   */
  lemma RunEndsIdle(vm: Vm, st: ProfileService.ProfileStore, cursor: Point, fuel: nat, stop: nat, parked: bool)
    requires |vm.jobs| > 0 && !vm.isRunning && !vm.isPaused
    ensures var (started, req) := RunWorkspace(vm);
      var (_, t) := WR.RunAsync(WR.Idle, req.workspace, st, cursor, fuel, stop, parked);
      var e := WR.WsEnding(st, req.workspace, cursor, fuel, stop, parked);
      && RunButtonText(started) == "Pause"
      && (e != Hung ==> RunButtonText(OnNotices(started, Notices(t))) == "Run Workspace")
      && (e == Hung ==> OnNotices(started, Notices(t)).isRunning)
  {
    var (started, req) := RunWorkspace(vm);
    var (_, t) := WR.RunAsync(WR.Idle, req.workspace, st, cursor, fuel, stop, parked);
    if WR.WsEnding(st, req.workspace, cursor, fuel, stop, parked) == Hung {
      OnNoticesNoStop(started, Notices(t));
    } else {
      OnNoticesEndStopped(started, Notices(t));
    }
  }

  /**
   * Toggling a running, unpaused workspace pauses the runner, whose Paused
   * event turns the button into Resume; toggling again resumes it, and the
   * Resumed event turns it back into Pause.
   */
  lemma ToggleCycle(vm: Vm, r: WR.WsRunner)
    requires vm.isRunning && !vm.isPaused && r.isRunning && !r.isPaused
    ensures Toggle(vm).1 == PauseRun
    ensures var (r1, t1) := WR.Pause(r);
      var paused := OnNotices(vm, Notices(t1));
      && RunButtonText(paused) == "Resume"
      && Toggle(paused).1 == ResumeRun
      && var (_, t2) := WR.Resume(r1);
         RunButtonText(OnNotices(paused, Notices(t2))) == "Pause"
  {
    var (r1, t1) := WR.Pause(r);
    assert Notices(t1) == [Paused];
    var paused := OnNotices(vm, [Paused]);
    assert OnNotices(vm, [Paused]) == OnNotices(OnNotice(vm, Paused), []);
    var (_, t2) := WR.Resume(r1);
    assert Notices(t2) == [Resumed];
    assert OnNotices(paused, [Resumed]) == OnNotices(OnNotice(paused, Resumed), []);
  }

  // ------------------------------------------------------------ workspace and settings

  /** An empty, unnamed workspace with one pass and no delay; the run flags are untouched. */
  function NewWorkspace(vm: Vm): (r: Vm)
    requires Valid(vm)
    ensures Valid(r) && r.jobs == [] && r.selectedJob.None? && r.workspaceName == ""
    ensures !r.loopWorkspace && r.workspaceLoopCount == 1 && r.delayBetweenJobs == 0
    ensures r.isRunning == vm.isRunning && r.isPaused == vm.isPaused
  {
    vm.(jobs := [], selectedJob := None, workspaceName := "", loopWorkspace := false,
        workspaceLoopCount := 1, delayBetweenJobs := 0)
  }

  function SetWorkspaceLoopCount(vm: Vm, v: int32): (r: Vm)
    ensures r == vm.(workspaceLoopCount := NonNegative(v))
  {
    vm.(workspaceLoopCount := NonNegative(v))
  }

  function SetDelayBetweenJobs(vm: Vm, v: int32): (r: Vm)
    ensures r == vm.(delayBetweenJobs := NonNegative(v))
  {
    vm.(delayBetweenJobs := NonNegative(v))
  }

  /** The setters never store a negative value, store a non-negative one as given, and are idempotent. */
  lemma SettersClamp(vm: Vm, v: int32)
    ensures SetWorkspaceLoopCount(vm, v).workspaceLoopCount >= 0 && SetDelayBetweenJobs(vm, v).delayBetweenJobs >= 0
    ensures v >= 0 ==> SetWorkspaceLoopCount(vm, v).workspaceLoopCount == v && SetDelayBetweenJobs(vm, v).delayBetweenJobs == v
    ensures SetWorkspaceLoopCount(SetWorkspaceLoopCount(vm, v), v) == SetWorkspaceLoopCount(vm, v)
    ensures SetDelayBetweenJobs(SetDelayBetweenJobs(vm, v), v) == SetDelayBetweenJobs(vm, v)
  {
  }
}
