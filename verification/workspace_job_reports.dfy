/**
 * What the workspace run reports about its jobs: the job-level progress
 * events of a plan, one per enabled job and pass, in order.
 */
module WorkspaceJobReports {
  import opened Basics
  import opened Input
  import opened Trace
  import opened ActionItems
  import opened Jobs
  import opened Models
  import opened ProfileService
  import AR = ActionRunnerService
  import opened WorkspaceRunnerService

  // ------------------------------------------------------------ job reports

  /** The events the plan reports, in order. */
  function Reports(items: seq<Item>): seq<Notice>
    decreases |items|
  {
    if |items| == 0 then []
    else (if items[0].Report? then [items[0].notice] else []) + Reports(items[1..])
  }

  /** The reports that name a job only, with no profile. */
  function JobReports(ns: seq<Notice>): seq<Notice>
    decreases |ns|
  {
    if |ns| == 0 then []
    else (if ns[0].Progress? && ns[0].profileName.None? then [ns[0]] else []) + JobReports(ns[1..])
  }

  lemma {:induction false} ReportsAppend(a: seq<Item>, b: seq<Item>)
    ensures Reports(a + b) == Reports(a) + Reports(b)
    decreases |a|
  {
    if |a| == 0 {
      assert a + b == b;
    } else {
      var h := if a[0].Report? then [a[0].notice] else [];
      assert (a + b)[0] == a[0];
      assert (a + b)[1..] == a[1..] + b;
      assert Reports(a + b) == h + Reports(a[1..] + b);
      ReportsAppend(a[1..], b);
      assert Reports(a) == h + Reports(a[1..]);
    }
  }

  lemma {:induction false} JobReportsAppend(a: seq<Notice>, b: seq<Notice>)
    ensures JobReports(a + b) == JobReports(a) + JobReports(b)
    decreases |a|
  {
    if |a| == 0 {
      assert a + b == b;
    } else {
      assert (a + b)[1..] == a[1..] + b;
      JobReportsAppend(a[1..], b);
    }
  }

  /** One pass's job reports, as a reference: one per enabled job, in order, with its enabled-only index. */
  function JobRow(jobs: seq<Job>, pass: int): (ns: seq<Notice>)
    ensures |ns| == |jobs|
  {
    seq(|jobs|, j requires 0 <= j < |jobs| => Progress(jobs[j].name, j, |jobs|, WrapInt32(pass), None))
  }

  /** The job reports of k passes from `pass` on. */
  function ExpectedJobReports(jobs: seq<Job>, pass: int, k: nat): seq<Notice>
    decreases k
  {
    if k == 0 then [] else JobRow(jobs, pass) + ExpectedJobReports(jobs, pass + 1, k - 1)
  }

  /** The reports a name adds: one naming the profile when it loads, none otherwise. */
  lemma ResolvedReports(st: ProfileStore, jobs: seq<Job>, j: nat, k: nat, pass: int)
    requires j < |jobs| && k < |jobs[j].profileNames|
    ensures var name := jobs[j].profileNames[k];
      Reports(ResolvedItems(st, jobs, j, k, pass))
      == if LoadProfile(st, name).Some? then [ReportProgress(jobs[j].name, j, |jobs|, pass, Some(name))] else []
  {
    var items := ResolvedItems(st, jobs, j, k, pass);
    if items != [] {
      var t := items[1..];
      assert items == [items[0]] + t;
      assert forall i :: 0 <= i < |t| ==> !t[i].Report?;
      NoReports(t);
      ReportsAppend([items[0]], t);
      assert Reports([items[0]]) == [items[0].notice] + Reports([]);
    }
  }

  lemma {:induction false} ProfileItemsNoJobReports(st: ProfileStore, jobs: seq<Job>, j: nat, k: nat, pass: int)
    requires j < |jobs|
    ensures JobReports(Reports(ProfileItems(st, jobs, j, k, pass))) == []
    decreases |jobs[j].profileNames| - k
  {
    if k < |jobs[j].profileNames| {
      var mid := ResolvedItems(st, jobs, j, k, pass);
      var rest := ProfileItems(st, jobs, j, k + 1, pass);
      assert JobReports(Reports(mid + rest)) == [] by {
        ProfileItemsNoJobReports(st, jobs, j, k + 1, pass);
        ResolvedReports(st, jobs, j, k, pass);
        NoJobReports(Reports(mid));
        ReportsAppend(mid, rest);
        JobReportsAppend(Reports(mid), Reports(rest));
      }
      assert Reports([Gate] + (mid + rest)) == Reports(mid + rest) by {
        ReportsAppend([Gate], mid + rest);
        assert Reports([Gate]) == [];
      }
    }
  }

  lemma {:induction false} NoReports(items: seq<Item>)
    requires forall i :: 0 <= i < |items| ==> !items[i].Report?
    ensures Reports(items) == []
    decreases |items|
  {
    if |items| > 0 {
      NoReports(items[1..]);
    }
  }

  lemma {:induction false} NoJobReports(ns: seq<Notice>)
    requires forall n :: n in ns ==> !(n.Progress? && n.profileName.None?)
    ensures JobReports(ns) == []
    decreases |ns|
  {
    if |ns| > 0 {
      assert ns[0] in ns;
      NoJobReports(ns[1..]);
    }
  }

  lemma {:induction false} JobItemsJobReports(st: ProfileStore, jobs: seq<Job>, d: int, j: nat, pass: int)
    requires j <= |jobs|
    ensures JobReports(Reports(JobItems(st, jobs, d, j, pass))) == JobRow(jobs, pass)[j..]
    decreases |jobs| - j
  {
    if j < |jobs| {
      var n := ReportProgress(jobs[j].name, j, |jobs|, pass, None);
      var profiles := ProfileItems(st, jobs, j, 0, pass);
      var w: seq<Item> := if j < |jobs| - 1 && d > 0 then [Interval(d)] else [];
      var rest := JobItems(st, jobs, d, j + 1, pass);
      assert JobItems(st, jobs, d, j, pass) == [Gate, Report(n)] + (profiles + (w + rest));
      assert JobReports(Reports(profiles + (w + rest))) == JobRow(jobs, pass)[j + 1..] by {
        assert Reports(w + rest) == Reports(rest) by {
          ReportsAppend(w, rest);
          NoReports(w);
          assert [] + Reports(rest) == Reports(rest);
        }
        ReportsAppend(profiles, w + rest);
        ProfileItemsNoJobReports(st, jobs, j, 0, pass);
        JobItemsJobReports(st, jobs, d, j + 1, pass);
        JobReportsAppend(Reports(profiles), Reports(rest));
        assert [] + JobRow(jobs, pass)[j + 1..] == JobRow(jobs, pass)[j + 1..];
      }
      JobHeadReports(n, profiles + (w + rest));
      JobRowStep(jobs, pass, j);
    }
  }

  lemma JobRowStep(jobs: seq<Job>, pass: int, j: nat)
    requires j < |jobs|
    ensures JobRow(jobs, pass)[j..] == [ReportProgress(jobs[j].name, j, |jobs|, pass, None)] + JobRow(jobs, pass)[j + 1..]
  {
  }

  /** A gate and a job report in front add that report and nothing else. */
  lemma JobHeadReports(n: Notice, rest: seq<Item>)
    requires n.Progress? && n.profileName.None?
    ensures JobReports(Reports([Gate, Report(n)] + rest)) == [n] + JobReports(Reports(rest))
  {
    var t := [Gate, Report(n)] + rest;
    assert t[1..] == [Report(n)] + rest;
    assert ([Report(n)] + rest)[1..] == rest;
    assert Reports(t) == [n] + Reports(rest);
    assert ([n] + Reports(rest))[1..] == Reports(rest);
  }

  lemma {:induction false} PlanFromJobReports(st: ProfileStore, ws: Workspace, pass: int, fuel: nat)
    requires pass >= 1
    requires AR.Passes(LoopRule(ws)).Some? ==> pass <= AR.Passes(LoopRule(ws)).value
    ensures JobReportsFrom(st, ws, pass, fuel)
    decreases fuel
  {
    if fuel == 0 {
      NoFuelJobReports(st, ws, pass);
    } else if AR.LastPass(ws.loopWorkspace, ws.workspaceLoopCount, pass) {
      LastPassJobReports(st, ws, pass, fuel);
    } else {
      NextPassBound(ws, pass, fuel);
      PlanFromJobReports(st, ws, pass + 1, fuel - 1);
      NextPassJobReports(st, ws, pass, fuel);
    }
  }

  /** The job reports of the passes from `pass` on are the reference rows of the passes the loop rule allows. */
  predicate JobReportsFrom(st: ProfileStore, ws: Workspace, pass: int, fuel: nat) {
    JobReports(Reports(PlanFrom(st, ws, pass, fuel)))
    == ExpectedJobReports(EnabledJobs(ws.jobs), pass, AR.Remaining(LoopRule(ws), pass, fuel))
  }

  lemma NoFuelJobReports(st: ProfileStore, ws: Workspace, pass: int)
    ensures JobReportsFrom(st, ws, pass, 0)
  {
    assert AR.Remaining(LoopRule(ws), pass, 0) == 0;
  }

  lemma NextPassBound(ws: Workspace, pass: int, fuel: nat)
    requires pass >= 1 && fuel > 0
    requires AR.Passes(LoopRule(ws)).Some? ==> pass <= AR.Passes(LoopRule(ws)).value
    requires !AR.LastPass(ws.loopWorkspace, ws.workspaceLoopCount, pass)
    ensures AR.Passes(LoopRule(ws)).Some? ==> pass + 1 <= AR.Passes(LoopRule(ws)).value
  {
    AR.NextPassRemaining(LoopRule(ws), pass, fuel);
  }

  /** One pass's plan reports its jobs as JobRow says. */
  lemma PassJobReports(st: ProfileStore, ws: Workspace, pass: int)
    ensures JobReports(Reports(PassItems(st, ws, pass))) == JobRow(EnabledJobs(ws.jobs), pass)
  {
    var row := JobRow(EnabledJobs(ws.jobs), pass);
    JobItemsJobReports(st, EnabledJobs(ws.jobs), ws.delayBetweenJobs, 0, pass);
    assert row[0..] == row;
  }

  lemma LastPassJobReports(st: ProfileStore, ws: Workspace, pass: int, fuel: nat)
    requires pass >= 1
    requires AR.Passes(LoopRule(ws)).Some? ==> pass <= AR.Passes(LoopRule(ws)).value
    requires fuel > 0 && AR.LastPass(ws.loopWorkspace, ws.workspaceLoopCount, pass)
    ensures JobReportsFrom(st, ws, pass, fuel)
  {
    var jobs := EnabledJobs(ws.jobs);
    var p := PassItems(st, ws, pass);
    var row := JobRow(jobs, pass);
    PassJobReports(st, ws, pass);
    assert PlanFrom(st, ws, pass, fuel) == p by {
      assert PlanFrom(st, ws, pass, fuel) == p + [];
    }
    AR.LastPassRemaining(LoopRule(ws), pass, fuel);
    assert ExpectedJobReports(jobs, pass, 1) == row by {
      assert ExpectedJobReports(jobs, pass, 1) == row + ExpectedJobReports(jobs, pass + 1, 0);
      assert row + [] == row;
    }
  }

  lemma NextPassJobReports(st: ProfileStore, ws: Workspace, pass: int, fuel: nat)
    requires pass >= 1
    requires AR.Passes(LoopRule(ws)).Some? ==> pass <= AR.Passes(LoopRule(ws)).value
    requires fuel > 0 && !AR.LastPass(ws.loopWorkspace, ws.workspaceLoopCount, pass)
    requires JobReportsFrom(st, ws, pass + 1, fuel - 1)
    ensures JobReportsFrom(st, ws, pass, fuel)
  {
    var jobs := EnabledJobs(ws.jobs);
    var s := LoopRule(ws);
    var p := PassItems(st, ws, pass);
    var rest := PlanFrom(st, ws, pass + 1, fuel - 1);
    var row := JobRow(jobs, pass);
    var k := AR.Remaining(s, pass + 1, fuel - 1);
    var tail := ExpectedJobReports(jobs, pass + 1, k);
    assert JobReports(Reports(p)) == row by {
      PassJobReports(st, ws, pass);
    }
    assert AR.Remaining(s, pass, fuel) == k + 1 by {
      AR.NextPassRemaining(s, pass, fuel);
    }
    assert PlanFrom(st, ws, pass, fuel) == p + rest;
    assert JobReports(Reports(p + rest)) == row + tail by {
      JobReportsCompose(p, rest, row, tail);
    }
    assert ExpectedJobReports(jobs, pass, k + 1) == row + tail;
  }

  lemma JobReportsCompose(a: seq<Item>, b: seq<Item>, ra: seq<Notice>, rb: seq<Notice>)
    requires JobReports(Reports(a)) == ra && JobReports(Reports(b)) == rb
    ensures JobReports(Reports(a + b)) == ra + rb
  {
    ReportsAppend(a, b);
    JobReportsAppend(Reports(a), Reports(b));
  }

  /**
   * The job reports of a run's plan are one row per pass, each naming the
   * enabled jobs in order with their enabled-only index and count: one pass
   * when the workspace does not loop, WorkspaceLoopCount passes when it is
   * positive, and as many as the fuel allows otherwise.
   */
  lemma PlanJobReports(st: ProfileStore, ws: Workspace, fuel: nat)
    ensures JobReports(Reports(Plan(st, ws, fuel)))
         == ExpectedJobReports(EnabledJobs(ws.jobs), 1, AR.PassesRun(LoopRule(ws), fuel))
    ensures !ws.loopWorkspace ==> AR.PassesRun(LoopRule(ws), fuel) == Min(1, fuel)
    ensures ws.loopWorkspace && ws.workspaceLoopCount > 0 && fuel >= ws.workspaceLoopCount as int ==>
      AR.PassesRun(LoopRule(ws), fuel) == ws.workspaceLoopCount as int
  {
    PlanFromJobReports(st, ws, 1, fuel);
  }
}
