/**
 * A job: a named, enable-able list of profile names run one after another,
 * with change notification on its editable properties.
 */
module Jobs {
  import opened Basics

  datatype Job = Job(id: nat, name: string, isEnabled: bool, profileNames: seq<string>, delayBetweenProfiles: int32)

  function NewJob(id: nat): (j: Job)
    ensures j.id == id
  {
    Job(id, "New Job", true, [], 0)
  }

  /** A setter's effect: the new job and the names of the properties it reported as changed. */
  datatype Change = Change(job: Job, notified: seq<string>)

  /** Stores the name and reports it, only when it differs. */
  function SetName(j: Job, v: string): (c: Change)
    ensures c.job == j.(name := v)
    ensures c.notified == (if v != j.name then ["Name"] else [])
  {
    if j.name != v then Change(j.(name := v), ["Name"]) else Change(j, [])
  }

  function SetIsEnabled(j: Job, v: bool): (c: Change)
    ensures c.job == j.(isEnabled := v)
    ensures c.notified == (if v != j.isEnabled then ["IsEnabled"] else [])
  {
    if j.isEnabled != v then Change(j.(isEnabled := v), ["IsEnabled"]) else Change(j, [])
  }

  /**
   * Compares the raw value with the stored one, but stores it clamped at 0:
   * a negative value always reports a change, even when 0 is already stored.
   */
  function SetDelayBetweenProfiles(j: Job, v: int32): (c: Change)
    ensures v != j.delayBetweenProfiles ==> c.job == j.(delayBetweenProfiles := NonNegative(v)) && c.notified == ["DelayBetweenProfiles"]
    ensures v == j.delayBetweenProfiles ==> c == Change(j, [])
  {
    if j.delayBetweenProfiles != v then Change(j.(delayBetweenProfiles := NonNegative(v)), ["DelayBetweenProfiles"])
    else Change(j, [])
  }

  /** Jobs built by the program never hold a negative delay. */
  predicate Valid(j: Job) {
    j.delayBetweenProfiles >= 0
  }

  lemma SettersKeepValid(j: Job, name: string, enabled: bool, d: int32)
    requires Valid(j)
    ensures Valid(NewJob(j.id))
    ensures Valid(SetName(j, name).job) && Valid(SetIsEnabled(j, enabled).job)
    ensures Valid(SetDelayBetweenProfiles(j, d).job)
  {
  }

  /** A second identical assignment of a name or flag is silent; a negative delay never is. */
  lemma RepeatedAssignment(j: Job, name: string, d: int32)
    requires Valid(j)
    ensures SetName(SetName(j, name).job, name).notified == []
    ensures d < 0 ==> SetDelayBetweenProfiles(SetDelayBetweenProfiles(j, d).job, d).notified == ["DelayBetweenProfiles"]
    ensures d < 0 ==> SetDelayBetweenProfiles(SetDelayBetweenProfiles(j, d).job, d).job.delayBetweenProfiles == 0
    ensures d >= 0 ==> SetDelayBetweenProfiles(SetDelayBetweenProfiles(j, d).job, d).notified == []
  {
  }
}
