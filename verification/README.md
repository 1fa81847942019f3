# AutoClickKey in Dafny

A model of the execution core of AutoClickKey, a Windows auto-clicker and
key-sender written in C#/WPF, with proofs about it. It covers:

- **The action-list runner** (`ActionRunnerService`): passes × actions × repetitions, `ActionExecuted` events, waits, synthetic input, and the cleanup that restores the cursor and raises `Stopped`.
- **The workspace runner** (`WorkspaceRunnerService`): workspace passes × enabled jobs × profile names, built on the action runner. It has progress events, the pause gate, and `Pause`, `Resume` and `Stop`.
- **The recorder** (`RecorderService`): the polling tick that turns cursor and button samples into records, and playback of those records.
- **The simple clicker and key sender** (`ClickerService`, `KeyboardService`).
- **The data model**: `ActionItem` display names and `Clone`, `Job`'s clamping and change-notifying setters, and the settings records with their defaults.
- **Persistence**: the profile and workspace stores, keyed by a sanitised file name.
- **The editor view models** (`MainViewModel`, `WorkspaceViewModel`): list edits, reselection, run/pause/stop toggles, clamping setters, and the runner events they listen to.
- **The WPF value converters.**

**Runs as traces.** A run is a pure function from its arguments to a trace: a sequence of `Step`s.
- A step is an abstract input event (`Input`), a `Wait(ms)`, a notification (`Notify`), a change of a running flag (`SetRunning`), or a call forwarded to the inner runner (`Forward`).
- The body of a run is a sequence of blocks. Each block begins where the C# loop looks at its cancellation token or awaits a delay.
- A `Stop` is a cut before block *k* (`Trace.CutAt`). What a cut leaves is the blocks before *k*, then the block's `onCut` steps, then the fixed cleanup.
- Loops that the source runs without bound are given a `fuel` bound on their passes.
- Counters that are C# `int`s wrap at 32 bits (`Basics.WrapInt32`).
- `Task.Delay` with a negative time does not return on its own: below −1 it throws, which the `catch` of `TaskCanceledException` does not take, so the `finally` cleans up and the returned `Task` then faults (a last `Fault` step); at −1 it waits until a Stop, and without one the run hangs, still running, with no cleanup. `Trace.Halted` ends a body at the Stop or at the first such wait, and an `Ending` (Completed, Faulted, Hung) says which.

**Modules.** They follow the program's structure:
- `Basics`, `Text`, `Input` and `Trace` hold the shared vocabulary. `Input` expands `Win32Api`'s click and key helpers into events.
- `ActionItems`, `Jobs` and `Models` hold the data model.
- `ActionRunnerService`, `WorkspaceRunnerService`, `RecorderService`, `ClickerService` and `KeyboardService` hold the runners.
- `WorkspaceJobReports` and `WorkspaceRunFacts` hold the proofs about what a workspace run reports, and about a Stop while the run is parked at the gate.
- `FileStore`, `ProfileService` and `WorkspaceService` hold persistence.
- `ListEdits`, `MainViewModel` and `WorkspaceViewModel` hold the editors.
- `Converters` holds the value converters.
- `WorkspaceStopExample` is a worked example of the finding below.

Source paths below are relative to the repository root.

## Model

| member | source | states |
|---|---|---|
| Basics.NonNegative | src/AutoClickKey/Models/Job.cs:46-57 | `Math.Max(0, v)`: never negative, and a non-negative value is kept as it is |
| Basics.WrapInt32 | src/AutoClickKey/Services/ClickerService.cs:50-51 | a C# `int` counter that overflows is congruent to the true count modulo 2^32, and equal to it while it fits |
| Text.Upper | src/AutoClickKey/Services/ActionRunnerService.cs:125-141 | `char.ToUpper` and `string.ToUpper()` as upper-casing of ASCII letters: same length, each character mapped on its own, a–z to A–Z and everything else kept |
| Text.UpperIdempotent | src/AutoClickKey/Services/ActionRunnerService.cs:118-125 | upper-casing twice, or after lower-casing, gives the same text as upper-casing once |
| Text.FormatThenParse | src/AutoClickKey/Helpers/Converters.cs:70-79 | `int.TryParse` reads back every `int` from its decimal rendering |
| Text.FormatInjective | src/AutoClickKey/Models/ActionItem.cs:35-41 | two `int`s with the same decimal rendering are equal |
| Text.DigitsValueOfNatToString | src/AutoClickKey/Models/ActionItem.cs:35-41 | the digits written for a natural number have that number as their value |
| Input.ButtonOf | src/AutoClickKey/Helpers/Win32Api.cs:262-267 | the `MouseButton` enum values 0, 1, 2 are the only codes that name a button |
| Input.ButtonCode | src/AutoClickKey/Helpers/Win32Api.cs:262-267 | each button's code maps back to that button |
| Input.MouseClick | src/AutoClickKey/Helpers/Win32Api.cs:132-180 | a click is a down/up pair of the same button; a double click is two such pairs |
| Input.MouseClickCode | src/AutoClickKey/Helpers/Win32Api.cs:132-180 | a button code outside the enum sends no input |
| Input.MouseClickAt | src/AutoClickKey/Helpers/Win32Api.cs:182-186 | the cursor is moved to the point first, then the click follows |
| Input.Modifiers | src/AutoClickKey/Services/ActionRunnerService.cs:213-231 | Ctrl, Alt and Shift are held exactly when flagged, once each |
| Input.Downs | src/AutoClickKey/Helpers/Win32Api.cs:221-239 | each listed key goes down, in list order |
| Input.UpsReversed | src/AutoClickKey/Helpers/Win32Api.cs:241-259 | each listed key comes up, in reverse list order |
| Input.ChordIsNested | src/AutoClickKey/Services/ActionRunnerService.cs:207-249 | a modifier chord releases every key it pressed in the reverse order, leaving the held keys as they were; at the key's press exactly the flagged modifiers are down |
| Trace.CutIsPrefix | src/AutoClickKey/Services/ActionRunnerService.cs:45-94 | a Stop that leaves no extra steps leaves a prefix of the uncut body |
| Trace.CutNoStop | src/AutoClickKey/Services/ActionRunnerService.cs:45-94 | a body that never raises `Stopped` raises none however it is cut |
| Trace.OneStopAtEnd | src/AutoClickKey/Services/ActionRunnerService.cs:100-110 | a body without `Stopped` followed by a cleanup that raises it once gives exactly one `Stopped`, as the last event |
| Trace.HaltAt | src/AutoClickKey/Services/ActionRunnerService.cs:45-94 | a body runs up to the Stop or to its first wait that does not return on its own, whichever comes first, and no block before that point stalls |
| Trace.HaltedReturning | src/AutoClickKey/Services/ActionRunnerService.cs:45-110 | a body whose waits all return completes, as cut by the Stop, then cleans up |
| Trace.HungAtStall | src/AutoClickKey/Services/ActionRunnerService.cs:74-110 | a run hangs exactly when it reaches a −1 wait that no Stop wakes, and faults exactly when it reaches a wait below −1 (unless the Stop was seen first); either way it halts at that wait |
| Trace.HaltedStops | src/AutoClickKey/Services/ActionRunnerService.cs:96-110 | a run that does not hang raises its cleanup's `Stopped` exactly once and last, a faulting one ends with the fault, and a hung one raises no `Stopped` |
| ActionItems.Clone | src/AutoClickKey/Models/ActionItem.cs:60-79 | the copy has the fresh identity and every other setting of the original |
| ActionItems.MouseButtonName | src/AutoClickKey/Models/ActionItem.cs:43-49 | 0, 1, 2 name Left, Right, Middle; any other code reads "Left" |
| ActionItems.KeyDisplayName | src/AutoClickKey/Models/ActionItem.cs:51-58 | the key text ends the display name |
| ActionItems.KeyDisplayNameFollowsChord | src/AutoClickKey/Models/ActionItem.cs:51-58 | the prefixes are "Ctrl+", "Alt+", "Shift+" for exactly the modifiers the chord holds, in the order they go down |
| ActionItems.DisplayName | src/AutoClickKey/Models/ActionItem.cs:35-41 | one line per kind: "Click ‹button› at ‹cursor or (x, y)›", "Press ‹chord›", "Wait ‹ms›ms", or "Unknown" |
| ActionItems.DisplayNameNamesKind | src/AutoClickKey/Models/ActionItem.cs:35-41 | the first word of the display name tells the kind, both ways |
| ActionItems.DelayReadableFromDisplayName | src/AutoClickKey/Models/ActionItem.cs:39 | a Delay's milliseconds parse back out of its display name |
| ActionItems.DelayDisplayNameInjective | src/AutoClickKey/Models/ActionItem.cs:39 | two Delay items read the same exactly when their delays are equal |
| ActionItems.CloneKeepsDisplayName | src/AutoClickKey/Models/ActionItem.cs:35-79 | a clone is listed under the same name as the original |
| ActionItems.ClickDisplayNameExamples | src/AutoClickKey/Models/ActionItem.cs:12-49 | a default item reads "Click Left at cursor"; button 1 reads Right; button 99 falls back to Left |
| ActionItems.FixedClickDisplayNameExample | src/AutoClickKey/Models/ActionItem.cs:37 | a fixed-position click reads "Click Left at (100, 200)" |
| ActionItems.KeyDisplayNameExamples | src/AutoClickKey/Models/ActionItem.cs:38-58 | Ctrl and Alt on key "A" read "Press Ctrl+Alt+A"; a bare "Enter" reads "Press Enter" |
| ActionItems.DelayDisplayNameExample | src/AutoClickKey/Models/ActionItem.cs:39 | a 1500 ms delay reads "Wait 1500ms" |
| Jobs.SetName | src/AutoClickKey/Models/Job.cs:18-29 | the name is stored, and "Name" is announced exactly when it changed |
| Jobs.SetIsEnabled | src/AutoClickKey/Models/Job.cs:31-42 | the flag is stored, and "IsEnabled" is announced exactly when it changed |
| Jobs.SetDelayBetweenProfiles | src/AutoClickKey/Models/Job.cs:46-57 | the raw value is compared before clamping: a different value stores `max(0, v)` and announces the property; an equal value does nothing |
| Jobs.SettersKeepValid | src/AutoClickKey/Models/Job.cs:10-57 | a job's delay is never negative, from construction through every setter |
| Jobs.RepeatedAssignment | src/AutoClickKey/Models/Job.cs:18-57 | a repeated name is silent; a repeated negative delay announces again while 0 stays stored |
| Models.EnabledActions | src/AutoClickKey/ViewModels/MainViewModel.cs:416 | the filtered list holds exactly the enabled actions |
| Models.EnabledActionsAppend | src/AutoClickKey/ViewModels/MainViewModel.cs:416 | filtering keeps the list order |
| Models.EnabledJobs | src/AutoClickKey/Services/WorkspaceRunnerService.cs:59 | the filtered list holds exactly the enabled jobs |
| ActionRunnerService.CharKeyCode | src/AutoClickKey/Services/ActionRunnerService.cs:125-138 | a one-character key is upper-cased first: a digit d is 0x30+d, a letter its upper-case code, any other character its own code |
| ActionRunnerService.ParseKeyCode | src/AutoClickKey/Services/ActionRunnerService.cs:118-171 | an empty key is 0; a longer name is looked up case-insensitively in the fixed table, and 0 when absent |
| ActionRunnerService.ParseKeyCodeIgnoresCase | src/AutoClickKey/Services/ActionRunnerService.cs:118-171 | a key parses to the same code in any letter case |
| ActionRunnerService.FunctionKeyCodes | src/AutoClickKey/Services/ActionRunnerService.cs:118-171 | F1 to F12 are 0x70 to 0x7B |
| ActionRunnerService.NamedKeyExamples | src/AutoClickKey/Services/ActionRunnerService.cs:118-171 | Esc and Escape are both 0x1B; Enter is 0x0D; PageDown is 0x22, whatever the case of the name |
| ActionRunnerService.CharKeyExamples | src/AutoClickKey/Services/ActionRunnerService.cs:118-171 | "a" and "A" are 0x41; "7" is 0x37; "F13" and "" are 0 |
| ActionRunnerService.ExecuteAction | src/AutoClickKey/Services/ActionRunnerService.cs:174-190 | executing an action raises no event; a Delay is exactly the one `Task.Delay(DelayMs)` step, whatever its sign, and sends nothing; a Click or KeyPress sends input and does not wait |
| ActionRunnerService.ClickActionInputs | src/AutoClickKey/Services/ActionRunnerService.cs:192-205 | a click moves to (FixedX, FixedY) unless UseCurrentPosition is set, then clicks the button; it is a double click exactly when ClickType is 1 |
| ActionRunnerService.UnknownButtonDoesNotClick | src/AutoClickKey/Services/ActionRunnerService.cs:192-205 | a button code outside the enum sends no click, though the list shows it as "Left" |
| ActionRunnerService.KeyActionInputs | src/AutoClickKey/Services/ActionRunnerService.cs:207-249 | a key press releases what it pressed in the reverse order; it sends nothing exactly when the key parses to 0 |
| ActionRunnerService.CloneExecutesAlike | src/AutoClickKey/Services/ActionRunnerService.cs:174-190 | a clone does exactly what the original does |
| ActionRunnerService.RunAsync | src/AutoClickKey/Services/ActionRunnerService.cs:25-111 | a call while running, or with an empty list, does nothing. Any other run is its body halted at the Stop or at the first negative wait, then the cleanup: it ends idle with exactly one `Stopped` last unless it hangs; a wait below −1 leaves the fault as its very last step; a −1 wait that no Stop reaches leaves it running with no `Stopped`; the cursor is back where it started when asked |
| ActionRunnerService.RunShape | src/AutoClickKey/Services/ActionRunnerService.cs:96-110 | for every ending of a run: the cleanup's `Stopped` is the only one and comes last unless the run hangs, a fault comes after the cleanup, and the cursor is put back when asked |
| ActionRunnerService.RepetitionEvents | src/AutoClickKey/Services/ActionRunnerService.cs:62-76 | in the block schedule, an action repeated n times raises n `ActionExecuted` events for its index and pass |
| ActionRunnerService.PassEvents | src/AutoClickKey/Services/ActionRunnerService.cs:49-83 | in the block schedule, a pass raises the reference events: each enabled action RepeatCount times, in list order, tagged with its index in the list passed in; a disabled action raises none |
| ActionRunnerService.UnrollEvents | src/AutoClickKey/Services/ActionRunnerService.cs:45-94 | in the block schedule, the passes from a given one on raise the reference events of as many passes as the loop rule still allows within the fuel |
| ActionRunnerService.RunEvents | src/AutoClickKey/Services/ActionRunnerService.cs:25-111 | a run's events are those of the schedule's blocks before the Stop or the first negative wait, so a prefix of the reference events of its passes, and all of them when neither comes; a non-looping run makes one pass, and a positive LoopCount makes that many |
| ActionRunnerService.NonNegativeDelaysComplete | src/AutoClickKey/Services/ActionRunnerService.cs:45-110 | when no enabled action has a negative delay, every run completes as the schedule cut by the Stop, then the cleanup |
| ActionRunnerService.NegativeDelayFaults | src/AutoClickKey/Services/ActionRunnerService.cs:62-110 | a click repeated twice with a delay below −1 runs once, throws at the wait, cleans up with `Stopped` and faults |
| ActionRunnerService.InfiniteDelayHangs | src/AutoClickKey/Services/ActionRunnerService.cs:62-76 | the same click with delay −1 runs once and then waits for ever: still running, no `Stopped` |
| ActionRunnerService.InfiniteDelayEndsAtStop | src/AutoClickKey/Services/ActionRunnerService.cs:62-110 | a Stop during that −1 wait ends the run normally with one `Stopped` |
| ActionRunnerService.NegativeDelayActionChecksFirst | src/AutoClickKey/Services/ActionRunnerService.cs:62-69 | a Delay action below −1 that the Stop reaches first is never executed, so the run completes; without the Stop it faults |
| ActionRunnerService.TwoPassExample | src/AutoClickKey/Services/ActionRunnerService.cs:45-94 | two passes over a click repeated twice and a delay give (0,1),(0,1),(1,1),(0,2),(0,2),(1,2) |
| ActionRunnerService.RepetitionWaits | src/AutoClickKey/Services/ActionRunnerService.cs:62-76 | in the block schedule, n repetitions wait the action's delay n−1 times, between them only; a Delay action also waits once inside each repetition |
| ActionRunnerService.DisabledLastActionKeepsDelay | src/AutoClickKey/Services/ActionRunnerService.cs:56-82 | the between-actions delay follows an enabled action that is not last in the list, even when every action after it is disabled |
| ActionRunnerService.PassWaits | src/AutoClickKey/Services/ActionRunnerService.cs:49-83 | in the block schedule, a pass waits each enabled action's own waits, then DelayBetweenActions after it when positive and the action is not last in the list |
| ActionRunnerService.UnrollWaits | src/AutoClickKey/Services/ActionRunnerService.cs:45-94 | in the block schedule, the passes wait a pass's waits each, with DelayBetweenLoops between consecutive passes when positive, and after the last pass only when the fuel, not the loop rule, ends the run |
| ClickerService.StartAsync | src/AutoClickKey/Services/ClickerService.cs:20-70 | a call while running does nothing. Any other run is its clicks halted at the Stop or at a negative interval, then the cleanup: exactly one `Stopped` last unless it hangs; below −1 the fault comes last; at −1 without a Stop it stays running |
| ClickerService.ClickBlock | src/AutoClickKey/Services/ClickerService.cs:35-51 | one click sends the settings' click and reports the incremented count |
| ClickerService.CutClicks | src/AutoClickKey/Services/ClickerService.cs:31-59 | a run cut at any point has reported 1, 2, 3, … consecutively, clicked that often and waited the interval between clicks only |
| ClickerService.RunEvents | src/AutoClickKey/Services/ClickerService.cs:20-70 | a run reports the counts 1, 2, 3, … up to where it halts, then `Stopped` unless it hangs; it sends one click per report and waits the interval once after each click the loop goes on from |
| ClickerService.CountedRun | src/AutoClickKey/Services/ClickerService.cs:53-58 | in Count mode with k = max(RepeatCount, 1): a non-negative interval gives exactly k clicks, reported 1..k, with k−1 waits; a negative one gives one click and no wait, then a fault below −1 and a hang at −1 when k > 1 |
| ClickerService.EndlessRun | src/AutoClickKey/Services/ClickerService.cs:31-59 | in Infinite mode each pass clicks, reports and waits, until stopped; a negative interval halts after the first click, faulting below −1 and hanging at −1 |
| ClickerService.ClicksStall | src/AutoClickKey/Services/ClickerService.cs:53-58 | with a non-negative interval every wait returns; with a negative one the run stalls at the first wait, after the first click |
| KeyboardService.UpperUnit | src/AutoClickKey/Services/KeyboardService.cs:89 | the code sent for a character is its upper-case form |
| KeyboardService.TypedStrikesUnits | src/AutoClickKey/Services/KeyboardService.cs:80-106 | typing text without U+0010 strikes each character's ASCII-upper-cased code in order; Shift, where used, is released again |
| KeyboardService.UnitKeysNested | src/AutoClickKey/Services/KeyboardService.cs:89-102 | a character other than U+0010 strikes its ASCII-upper-cased code, wrapped in Shift down/up when it is an ASCII capital; its keys are released |
| KeyboardService.ShiftCharKeys | src/AutoClickKey/Services/KeyboardService.cs:89-102 | U+0010, whose code is VK_SHIFT's, is typed as a bare Shift press and release, leaving no key held |
| KeyboardService.PressKeyNested | src/AutoClickKey/Services/KeyboardService.cs:108-144 | PressKey releases the modifiers in the reverse order, and the key goes down with exactly the flagged modifiers held |
| KeyboardService.StartAsync | src/AutoClickKey/Services/KeyboardService.cs:25-73 | a call while running does nothing. Any other run is its passes halted at the Stop or at a negative interval, then the cleanup: exactly one `Stopped` last unless it hangs; below −1 the fault comes last; at −1 without a Stop it stays running |
| KeyboardService.PassFlat | src/AutoClickKey/Services/KeyboardService.cs:38-51 | in the block schedule, one pass reports the running total once and sends the pass's input; a TypeText pass waits the interval after every character |
| KeyboardService.LoopFlat | src/AutoClickKey/Services/KeyboardService.cs:38-62 | in the block schedule, passes report totals n+d, n+2d, … where d is the text length or 1; in Count mode every total but the last is below RepeatCount, and the run ends before the fuel only when a total reached it; only PressKey waits between passes |
| KeyboardService.KeyReportsAt | src/AutoClickKey/Services/KeyboardService.cs:34-51 | the report after pass j+1 carries the key count n + (j+1)·d, wrapped to a 32-bit int, where d is what one pass adds to the counter |
| KeyboardService.UnstoppedRun | src/AutoClickKey/Services/KeyboardService.cs:25-73 | a run that is not stopped and meets no negative wait makes at least one pass, reports the totals in order then `Stopped`, and sends whole passes; one that meets a negative wait sends one pass's first keys (one PressKey, or the first character), reports only for PressKey, and faults below −1 or hangs at −1 |
| KeyboardService.LoopReturns | src/AutoClickKey/Services/KeyboardService.cs:38-62 | with a non-negative interval, or a TypeText with empty text, every wait of the passes returns |
| KeyboardService.StuckPress | src/AutoClickKey/Services/KeyboardService.cs:38-72 | PressKey with a negative interval not yet at RepeatCount presses and reports once, then faults below −1 or hangs at −1 |
| KeyboardService.StuckText | src/AutoClickKey/Services/KeyboardService.cs:80-106 | TypeText with a negative interval types the first character only, reports nothing, and faults below −1, hangs at −1, or ends at a Stop |
| KeyboardService.TypeBlocksFlat | src/AutoClickKey/Services/KeyboardService.cs:80-106 | in the block schedule, typing the rest of the text sends each character's keys and waits the interval after each |
| KeyboardService.StopWhileTyping | src/AutoClickKey/Services/KeyboardService.cs:38-51 | a Stop in the middle of a text still reports the text's full length as typed, though only the characters before the Stop were sent; with a negative interval the run halts after the first character instead, faulting below −1 |
| RecorderService.StartRecording | src/AutoClickKey/Services/RecorderService.cs:34-49 | ignored while recording; otherwise the list is emptied and the timestamp baseline is 0 |
| RecorderService.StopRecording | src/AutoClickKey/Services/RecorderService.cs:51-62 | ignored when not recording; otherwise recording ends with one `RecordingStopped`, and the records stay |
| RecorderService.StartStopKeepsRecords | src/AutoClickKey/Services/RecorderService.cs:34-62 | a second start or a second stop does nothing |
| RecorderService.ClearRecording | src/AutoClickKey/Services/RecorderService.cs:108-111 | empties the list and changes nothing else |
| RecorderService.LoadActions | src/AutoClickKey/Services/RecorderService.cs:113-117 | replaces the list exactly and changes nothing else |
| RecorderService.Stamp | src/AutoClickKey/Services/RecorderService.cs:134-190 | a record has the sample's place and time, and its delay is the time since the last record |
| RecorderService.TickRecords | src/AutoClickKey/Services/RecorderService.cs:126-198 | a tick appends, in order, a move record when the cursor moved, then a click record for each of left, right and middle that went down since the last tick, all at the sampled place and time; only the first record has a delay |
| RecorderService.HeldButtonClicksOnce | src/AutoClickKey/Services/RecorderService.cs:146-160 | a button that stays down is not recorded again |
| RecorderService.RecordingChained | src/AutoClickKey/Services/RecorderService.cs:119-205 | every record's delay is its time minus the previous record's, cast to `int`, starting from 0 |
| RecorderService.Record | src/AutoClickKey/Services/RecorderService.cs:34-49 | a recording started from idle chains every delay to the previous record's time from a baseline of 0 |
| RecorderService.DelaysTelescope | src/AutoClickKey/Services/RecorderService.cs:140-204 | the delays add up to the last record's time since the baseline |
| RecorderService.RecordingTimes | src/AutoClickKey/Services/RecorderService.cs:126-198 | under a monotone clock the record times never decrease |
| RecorderService.PlayDelay | src/AutoClickKey/Services/RecorderService.cs:83 | at speed 1 the recorded delay is waited as it is; a faster speed never waits longer |
| RecorderService.Perform | src/AutoClickKey/Services/RecorderService.cs:207-231 | a move or click record first puts the cursor at the record's place |
| RecorderService.PlayAsync | src/AutoClickKey/Services/RecorderService.cs:64-101 | ignored while playing or with no records; otherwise the records play in order, and playback ends with exactly one `PlaybackStopped` as its last event |
| RecorderService.PlayEffects | src/AutoClickKey/Services/RecorderService.cs:64-101 | a playback stopped before record k has performed exactly the records before k, with their positive scaled waits |
| RecorderService.PlayedCursor | src/AutoClickKey/Services/RecorderService.cs:207-231 | after playback the cursor is at the last moved-to or clicked place |
| RecorderService.WaitsAtSpeedOne | src/AutoClickKey/Services/RecorderService.cs:83-87 | at speed 1 the playback waits add up to the recorded delays |
| RecorderService.ReplayTakesRecordedTime | src/AutoClickKey/Services/RecorderService.cs:64-204 | a session replayed in full at speed 1 waits, in total, the time from the start of the recording to its last record |
| WorkspaceRunnerService.Pause | src/AutoClickKey/Services/WorkspaceRunnerService.cs:147-156 | acts only while running and not paused: sets IsPaused, closes the gate, forwards the pause, raises `Paused` once; otherwise silent |
| WorkspaceRunnerService.Resume | src/AutoClickKey/Services/WorkspaceRunnerService.cs:158-167 | the mirror of Pause, acting only while running and paused |
| WorkspaceRunnerService.Stop | src/AutoClickKey/Services/WorkspaceRunnerService.cs:139-145 | clears IsPaused, opens the gate, forwards the stop, raises nothing |
| WorkspaceRunnerService.PauseResumeRoundTrip | src/AutoClickKey/Services/WorkspaceRunnerService.cs:139-205 | Resume undoes Pause; a second Pause is silent; a paused run holds at the gate, and after Stop the gate never holds it |
| WorkspaceRunnerService.ReportProgress | src/AutoClickKey/Services/WorkspaceRunnerService.cs:207-217 | the progress event carries the job name, index, total, pass and profile name given |
| WorkspaceRunnerService.PlanItemsOk | src/AutoClickKey/Services/WorkspaceRunnerService.cs:55-125 | every report names an enabled job by its enabled-only index and total, and a profile of that job that loads; every inner run uses exactly that profile's enabled actions (at least one) and settings; every wait is positive and is the between-jobs or a between-profiles delay |
| WorkspaceJobReports.ResolvedReports | src/AutoClickKey/Services/WorkspaceRunnerService.cs:80-90 | a profile name that loads gives one report naming it; one that does not gives none |
| WorkspaceJobReports.JobItemsJobReports | src/AutoClickKey/Services/WorkspaceRunnerService.cs:61-118 | a pass reports each enabled job once, in order, without a profile name |
| WorkspaceJobReports.PlanJobReports | src/AutoClickKey/Services/WorkspaceRunnerService.cs:51-125 | the job reports are one row per pass, the pass counter starting at 1: one pass when not looping, WorkspaceLoopCount passes when positive |
| WorkspaceRunnerService.RunProfileActions | src/AutoClickKey/Services/WorkspaceRunnerService.cs:169-197 | a profile's run inside the workspace is the action runner's run, block for block |
| WorkspaceRunFacts.ProfileRunIsActionRun | src/AutoClickKey/Services/WorkspaceRunnerService.cs:169-197 | cut anywhere, a profile's run inside the workspace is exactly the action runner's run, cleanup and fault included, so the workspace goes on only after the inner `Stopped`; a hung inner run leaves the workspace waiting |
| WorkspaceRunnerService.NextCheck | src/AutoClickKey/Services/WorkspaceRunnerService.cs:55-118 | the first place at or after a stage where the loop looks at its token |
| WorkspaceRunnerService.RunAsync | src/AutoClickKey/Services/WorkspaceRunnerService.cs:42-137 | as written: a call while running, or with no jobs at all, does nothing. Any other run, even one whose jobs are all disabled, is its stages halted at the Stop (one stage late when parked at the gate) or at an inner negative wait, then the cleanup: idle, unpaused, gate open and exactly one `Stopped` last unless it hangs; an inner fault ends the workspace run with a fault after its cleanup |
| WorkspaceRunnerService.RunAsyncChecked | src/AutoClickKey/Services/WorkspaceRunnerService.cs:42-137 | the same run with the token checked after the pause gate: a Stop ends the body where it is seen, with the same endings |
| WorkspaceRunnerService.StagesOk | src/AutoClickKey/Services/WorkspaceRunnerService.cs:42-137 | no stage of a run raises the workspace's `Stopped`; only the cleanup does |
| WorkspaceRunnerService.StagesReturn | src/AutoClickKey/Services/WorkspaceRunnerService.cs:55-125 | when every inner action's delay is non-negative, every wait of the workspace's stages returns |
| WorkspaceRunFacts.RunReports | src/AutoClickKey/Services/WorkspaceRunnerService.cs:42-137 | for the run as written and for the corrected one, its progress reports are a prefix of its plan's; unstopped, with inner runs that end and no negative wait, its job reports are the reference rows |
| WorkspaceRunFacts.ParkedStopOvershoots | src/AutoClickKey/Services/WorkspaceRunnerService.cs:68-96 | as written, a Stop that reaches the loop while it waits at the pause gate lets the next stage run as well, and a −1 wait that stage reaches then hangs the run although a Stop came; away from the gate the Stop cuts where it is seen |
| WorkspaceRunFacts.CheckedStopEndsAtCheck | src/AutoClickKey/Services/WorkspaceRunnerService.cs:139-145 | with the check after the gate, a Stop seen at a check before any negative wait ends the body there and the run completes |
| WorkspaceRunFacts.HaltProgress | src/AutoClickKey/Services/WorkspaceRunnerService.cs:42-137 | however a run halts, its progress reports are a prefix of its stages'; unhalted, they are all of them |
| WorkspaceRunFacts.RunsAgreeOffGate | src/AutoClickKey/Services/WorkspaceRunnerService.cs:68-96 | unless a Stop lands while the loop is parked at the gate, the run as written and the corrected run are the same |
| WorkspaceStopExample.ExampleStages | src/AutoClickKey/Services/WorkspaceRunnerService.cs:55-118 | one job naming a one-action profile twice, 10 ms apart, runs in nine stages: entry, the job's gate, then gate, run and end twice, with the wait between |
| WorkspaceStopExample.ParkedStopExample | src/AutoClickKey/Services/WorkspaceRunnerService.cs:68-96 | a Stop while paused before the second profile still runs it: as written, two executions, the same as no Stop; with the check, one |
| FileStore.Sanitize | src/AutoClickKey/Services/ProfileService.cs:91-99 | each invalid character becomes '_', every other character stays, and the length is kept |
| FileStore.SanitizeFileName | src/AutoClickKey/Services/ProfileService.cs:91-99 | replacing one invalid character at a time, in turn, gives the sanitised name |
| FileStore.ReplaceAfterSanitize | src/AutoClickKey/Services/ProfileService.cs:94-97 | replacing one more character extends the set of characters replaced |
| FileStore.SanitizeIsClean | src/AutoClickKey/Services/ProfileService.cs:91-99 | with '_' valid, a sanitised name has no invalid character, and sanitising twice is sanitising once |
| FileStore.SanitizeKeepsCleanName | src/AutoClickKey/Services/WorkspaceService.cs:100-109 | a name without invalid characters is kept as it is |
| FileStore.DistinctNamesCanCollide | src/AutoClickKey/Services/ProfileService.cs:31-39 | "a:b" and "a/b" share one file, "a_b.json" |
| FileStore.Save | src/AutoClickKey/Services/ProfileService.cs:29-35 | fails only when the directory is missing; otherwise what was saved loads back under its name, and names with other file names are untouched |
| FileStore.Delete | src/AutoClickKey/Services/ProfileService.cs:65-74 | the name no longer loads; names with other file names are untouched |
| FileStore.StemOfFileName | src/AutoClickKey/Services/ProfileService.cs:49-63 | the name listed for a saved entry is its sanitised name |
| FileStore.OperationsKeepValid | src/AutoClickKey/Services/ProfileService.cs:29-74 | save and delete keep every stored file name clean |
| FileStore.NamesAreLoadable | src/AutoClickKey/Services/ProfileService.cs:37-63 | every listed name loads, and saving lists the sanitised name |
| FileStore.DeleteUnlists | src/AutoClickKey/Services/ProfileService.cs:49-74 | deleting removes exactly the sanitised name from the listing |
| FileStore.SaveThenDelete | src/AutoClickKey/Services/ProfileService.cs:29-74 | save then delete: listed, then unlisted, with the rest of the listing unchanged |
| ProfileService.SaveProfile | src/AutoClickKey/Services/ProfileService.cs:29-35 | a saved profile loads back under its name; other file names are untouched |
| ProfileService.LoadProfile | src/AutoClickKey/Services/ProfileService.cs:37-47 | null exactly when there is no file for the sanitised name |
| ProfileService.GetAllProfileNames | src/AutoClickKey/Services/ProfileService.cs:49-63 | empty when the directory is missing; every listed name loads |
| ProfileService.DeleteProfile | src/AutoClickKey/Services/ProfileService.cs:65-74 | the name no longer loads; other file names are untouched |
| ProfileService.SaveListsDeleteUnlists | src/AutoClickKey/Services/ProfileService.cs:29-74 | saving lists the sanitised name and deleting unlists it |
| WorkspaceService.SaveWorkspace | src/AutoClickKey/Services/WorkspaceService.cs:49-55 | a saved workspace, jobs and profile names included, loads back under its name; other file names are untouched |
| WorkspaceService.LoadWorkspace | src/AutoClickKey/Services/WorkspaceService.cs:57-69 | null exactly when there is no file for the sanitised name |
| WorkspaceService.GetAllWorkspaceNames | src/AutoClickKey/Services/WorkspaceService.cs:71-87 | empty when the directory is missing; every listed name loads |
| WorkspaceService.DeleteWorkspace | src/AutoClickKey/Services/WorkspaceService.cs:89-98 | the name no longer loads; other file names are untouched |
| WorkspaceService.SaveListsDeleteUnlists | src/AutoClickKey/Services/WorkspaceService.cs:49-98 | saving lists the sanitised name and deleting unlists it |
| ListEdits.IndexOf | src/AutoClickKey/ViewModels/WorkspaceViewModel.cs:377 | `IndexOf` is the first occurrence, or −1 exactly when absent |
| ListEdits.IndexOfDistinct | src/AutoClickKey/ViewModels/MainViewModel.cs:287 | in a list without repeats, `IndexOf` finds an item's own position |
| ListEdits.RemoveAt | src/AutoClickKey/ViewModels/WorkspaceViewModel.cs:380 | removes one position and shifts the rest down, keeping the other items |
| ListEdits.Insert | src/AutoClickKey/ViewModels/MainViewModel.cs:333 | inserts at a position and shifts the rest up |
| ListEdits.RemoveInserted | src/AutoClickKey/ViewModels/MainViewModel.cs:327-335 | removing what was just inserted gives back the list |
| ListEdits.InsertRemoved | src/AutoClickKey/ViewModels/WorkspaceViewModel.cs:380-381 | inserting a removed item back at its position gives back the list |
| ListEdits.Move | src/AutoClickKey/ViewModels/MainViewModel.cs:308 | `ObservableCollection.Move` puts the item at the target and keeps the multiset |
| ListEdits.MoveAdjacent | src/AutoClickKey/ViewModels/MainViewModel.cs:301-325 | moving to a neighbour swaps the two and changes nothing else |
| ListEdits.MoveBack | src/AutoClickKey/ViewModels/MainViewModel.cs:301-325 | a move is undone by the reverse move |
| ListEdits.Reselect | src/AutoClickKey/ViewModels/MainViewModel.cs:290-297 | `min(index, count − 1)`, or none when the list is empty |
| ListEdits.RemoveSelected | src/AutoClickKey/ViewModels/MainViewModel.cs:283-299 | the selected item goes; its successor is selected, or its predecessor when it was last, or nothing when the list is now empty |
| ListEdits.MoveSelectedUp | src/AutoClickKey/ViewModels/MainViewModel.cs:301-312 | swaps the selected item with its predecessor, keeping the selection; nothing at the top |
| ListEdits.MoveSelectedDown | src/AutoClickKey/ViewModels/MainViewModel.cs:314-325 | swaps the selected item with its successor, keeping the selection; nothing at the bottom |
| ListEdits.MoveUpThenDown | src/AutoClickKey/ViewModels/MainViewModel.cs:301-325 | moving the selection down undoes moving it up |
| ListEdits.MoveDownThenUp | src/AutoClickKey/ViewModels/MainViewModel.cs:301-325 | moving the selection up undoes moving it down |
| ListEdits.MoveFirstUp | src/AutoClickKey/ViewModels/WorkspaceViewModel.cs:370-385 | the first occurrence of the name swaps with its predecessor and is still the first occurrence; nothing when it is first or absent |
| ListEdits.MoveFirstDown | src/AutoClickKey/ViewModels/WorkspaceViewModel.cs:387-402 | the first occurrence of the name swaps with its successor; nothing when it is last |
| ListEdits.FirstUpThenDown | src/AutoClickKey/ViewModels/WorkspaceViewModel.cs:370-402 | moving a name down undoes moving it up |
| ListEdits.FirstDownThenUpExample | src/AutoClickKey/ViewModels/WorkspaceViewModel.cs:370-402 | with repeated names, up after down need not undo it: the first occurrence has changed |
| ListEdits.RemoveFirstReselect | src/AutoClickKey/ViewModels/WorkspaceViewModel.cs:353-368 | only the first occurrence goes; the name after it is selected, or the one before when it was last |
| ListEdits.RemoveAppended | src/AutoClickKey/ViewModels/WorkspaceViewModel.cs:342-368 | removing a freshly appended new name gives back the list |
| MainViewModel.ClickItem | src/AutoClickKey/ViewModels/MainViewModel.cs:243-256 | the new click: left button, single click, at the cursor, 100 ms |
| MainViewModel.KeyItem | src/AutoClickKey/ViewModels/MainViewModel.cs:258-269 | the new key press: key "A", 100 ms |
| MainViewModel.DelayItem | src/AutoClickKey/ViewModels/MainViewModel.cs:271-281 | the new delay: 500 ms |
| MainViewModel.AddClickAction | src/AutoClickKey/ViewModels/MainViewModel.cs:243-256 | the new click goes at the end and is selected |
| MainViewModel.AddKeyAction | src/AutoClickKey/ViewModels/MainViewModel.cs:258-269 | the new key press goes at the end and is selected |
| MainViewModel.AddDelayAction | src/AutoClickKey/ViewModels/MainViewModel.cs:271-281 | the new delay goes at the end and is selected |
| MainViewModel.Created | src/AutoClickKey/ViewModels/MainViewModel.cs:20-71 | a new editor holds one default click, selected, and is not running |
| MainViewModel.RemoveSelectedAction | src/AutoClickKey/ViewModels/MainViewModel.cs:283-299 | the action list edit of removal and reselection; nothing else changes |
| MainViewModel.MoveActionUp | src/AutoClickKey/ViewModels/MainViewModel.cs:301-312 | the swap with the predecessor; nothing else changes |
| MainViewModel.MoveActionDown | src/AutoClickKey/ViewModels/MainViewModel.cs:314-325 | the swap with the successor; nothing else changes |
| MainViewModel.DuplicateAction | src/AutoClickKey/ViewModels/MainViewModel.cs:327-335 | a clone with a new identity goes right after the selected action and is selected; the others keep their order |
| MainViewModel.RemoveUndoesDuplicate | src/AutoClickKey/ViewModels/MainViewModel.cs:283-335 | removing the duplicate gives back the list |
| MainViewModel.ClearAllActions | src/AutoClickKey/ViewModels/MainViewModel.cs:337-342 | no actions and no selection |
| MainViewModel.Start | src/AutoClickKey/ViewModels/MainViewModel.cs:408-418 | nothing on an empty list; otherwise running, with the enabled actions in order, no delay between actions and no restore |
| MainViewModel.Stop | src/AutoClickKey/ViewModels/MainViewModel.cs:420-424 | cancels the run and is idle at once |
| MainViewModel.Toggle | src/AutoClickKey/ViewModels/MainViewModel.cs:396-406 | Stop when running, Start otherwise |
| MainViewModel.OnNotice | src/AutoClickKey/ViewModels/MainViewModel.cs:37-44 | the runner's `Stopped` ends running; no event touches the list |
| MainViewModel.OnNoticesRunning | src/AutoClickKey/ViewModels/MainViewModel.cs:37-44 | after a run of events the editor is running exactly when it was and no `Stopped` came |
| MainViewModel.AllDisabledKeepsRunning | src/AutoClickKey/ViewModels/MainViewModel.cs:408-418 | when every action is disabled the runner does nothing, so the editor stays running until Stop |
| MainViewModel.EnabledRunStops | src/AutoClickKey/ViewModels/MainViewModel.cs:408-418 | with an enabled action the editor starts running, and after the run's events it is idle exactly when the run does not hang |
| MainViewModel.ToggleTwice | src/AutoClickKey/ViewModels/MainViewModel.cs:396-424 | toggling starts a run, toggling again cancels it |
| MainViewModel.NewProfile | src/AutoClickKey/ViewModels/MainViewModel.cs:505-514 | one default click, selected, named "Untitled", looping forever with no delay |
| MainViewModel.SettersClamp | src/AutoClickKey/ViewModels/MainViewModel.cs:132-144 | LoopCount and DelayBetweenLoops store `max(0, v)`, and setting the same value again changes nothing |
| WorkspaceViewModel.AddJob | src/AutoClickKey/ViewModels/WorkspaceViewModel.cs:278-284 | a new job named "Job ‹count + 1›" goes at the end and is selected |
| WorkspaceViewModel.RemoveJob | src/AutoClickKey/ViewModels/WorkspaceViewModel.cs:286-306 | the job list edit of removal and reselection; nothing else changes |
| WorkspaceViewModel.MoveJobUp | src/AutoClickKey/ViewModels/WorkspaceViewModel.cs:308-323 | the swap with the predecessor; nothing else changes |
| WorkspaceViewModel.MoveJobDown | src/AutoClickKey/ViewModels/WorkspaceViewModel.cs:325-340 | the swap with the successor; nothing else changes |
| WorkspaceViewModel.AddProfileToJob | src/AutoClickKey/ViewModels/WorkspaceViewModel.cs:342-351 | the chosen profile is appended to the selected job, even when already there; nothing without a job or a choice |
| WorkspaceViewModel.RemoveProfileFromJob | src/AutoClickKey/ViewModels/WorkspaceViewModel.cs:353-368 | the first occurrence of the chosen name goes, and the name at its old index (or the new last one) is selected |
| WorkspaceViewModel.MoveProfileUp | src/AutoClickKey/ViewModels/WorkspaceViewModel.cs:370-385 | the first occurrence of the chosen name moves up one place; the choice stays |
| WorkspaceViewModel.MoveProfileDown | src/AutoClickKey/ViewModels/WorkspaceViewModel.cs:387-402 | the first occurrence of the chosen name moves down one place; the choice stays |
| WorkspaceViewModel.ProfileUpThenDown | src/AutoClickKey/ViewModels/WorkspaceViewModel.cs:370-402 | moving a name down undoes moving it up |
| WorkspaceViewModel.AddThenRemoveProfile | src/AutoClickKey/ViewModels/WorkspaceViewModel.cs:342-368 | removing a name that was just added gives back the job's names |
| WorkspaceViewModel.RunButtonTextCases | src/AutoClickKey/ViewModels/WorkspaceViewModel.cs:206-217 | "Resume" exactly when running and paused, "Pause" exactly when running and not paused, "Run Workspace" exactly when idle |
| WorkspaceViewModel.RunWorkspace | src/AutoClickKey/ViewModels/WorkspaceViewModel.cs:485-504 | nothing without jobs or while running; otherwise running, with a run of the current jobs (a new list holding the same `Job` objects) and settings |
| WorkspaceViewModel.Toggle | src/AutoClickKey/ViewModels/WorkspaceViewModel.cs:254-271 | idle: run; running and paused: resume; running: pause |
| WorkspaceViewModel.OnNotice | src/AutoClickKey/ViewModels/WorkspaceViewModel.cs:47-55 | `Stopped` clears running and paused; `Paused` and `Resumed` set and clear paused; nothing else changes the state |
| WorkspaceViewModel.OnNoticesEndStopped | src/AutoClickKey/ViewModels/WorkspaceViewModel.cs:47-55 | events that end with `Stopped` leave the editor idle and unpaused |
| WorkspaceViewModel.OnNoticesNoStop | src/AutoClickKey/ViewModels/WorkspaceViewModel.cs:47-55 | events without the workspace's `Stopped` leave running as it was |
| WorkspaceViewModel.RunEndsIdle | src/AutoClickKey/ViewModels/WorkspaceViewModel.cs:485-504 | the button reads "Pause" once a run starts and "Run Workspace" once it has ended, stopped, completed or faulted; a hung run leaves it running |
| WorkspaceViewModel.ToggleCycle | src/AutoClickKey/ViewModels/WorkspaceViewModel.cs:254-271 | Toggle pauses a run, the button reads "Resume", and Toggle then resumes it and the button reads "Pause" |
| WorkspaceViewModel.NewWorkspace | src/AutoClickKey/ViewModels/WorkspaceViewModel.cs:404-415 | no jobs, no selection, empty name, not looping, loop count 1, no delay |
| WorkspaceViewModel.SettersClamp | src/AutoClickKey/ViewModels/WorkspaceViewModel.cs:162-172 | WorkspaceLoopCount and DelayBetweenJobs store `max(0, v)`, and setting the same value again changes nothing |
| Converters.InverseBool | src/AutoClickKey/Helpers/Converters.cs:10-15 | a bool is negated, anything else passes through |
| Converters.InverseBoolBack | src/AutoClickKey/Helpers/Converters.cs:17-22 | the same in the other direction |
| Converters.InverseBoolRoundTrip | src/AutoClickKey/Helpers/Converters.cs:8-23 | a two-way binding gives back what it was given, both ways round |
| Converters.StartStopText | src/AutoClickKey/Helpers/Converters.cs:25-32 | "Stop (F4)" exactly for true; "Start (F4)" for false and anything that is not a bool |
| Converters.StartStopTextSeparates | src/AutoClickKey/Helpers/Converters.cs:25-32 | the caption tells a running state from an idle one |
| Converters.InverseBoolToVisibility | src/AutoClickKey/Helpers/Converters.cs:40-47 | Collapsed exactly for true |
| Converters.RecordButtonText | src/AutoClickKey/Helpers/Converters.cs:55-62 | "Stop Recording" exactly for true, "Record" otherwise |
| Converters.IndexToVisibility | src/AutoClickKey/Helpers/Converters.cs:70-79 | Collapsed exactly when the value is an int, the parameter a string that parses, and the two differ; Visible in every other case |
| Converters.IndexToVisibilityOfTag | src/AutoClickKey/Helpers/Converters.cs:70-79 | a page tagged with the decimal index j is shown exactly when index j is selected |

## Left out

- Win32 interop (`SendInput`, the INPUT layouts, flags, `GetAsyncKeyState`, `GetCursorPos`) is replaced by abstract input events and by samples given as parameters; `Win32Api.cs` is not part of this model beyond its click and key helpers.
- Time, threads and cancellation tokens: `Task.Delay`, `Stopwatch`, the 10 ms poll, `Task.Run`, `CancellationTokenSource` and `ManualResetEventSlim`. Waits are trace steps, a clock reading is a sample's `time`, cancellation is a cut at a block boundary, and the pause gate is a flag. Thread interleavings are not modelled. The one ordering that matters to the finding, whether the gate opens before the cancellation is seen, is the `parked` parameter.
- The forwarded `Pause`/`Resume` of the inner runner: the `ActionRunnerService` in this source has no such methods, so the workspace runner records the call (`Forward`) and gives it no meaning.
- A Stop that lands inside a wait the inner runner has not reached yet is modelled as a cut at the next block. A wait in progress is never shown half done.
- The loops that run without bound (LoopCount 0, WorkspaceLoopCount 0, `RepeatMode.Infinite`, a looping workspace whose jobs are all disabled, TypeText with empty text) are cut off by a `fuel` bound on the number of passes; nothing is claimed past the fuel, and termination is not argued.
- RecorderService.PlayDelay: the speed multiplier is a `float`, and the `int` delay is converted to a single-precision `float` before the division. The model divides by a positive integer speed, truncating toward zero. It says nothing about fractional speeds, and it does not model the float rounding: a delay above 2^24 ms is rounded to 24 significant bits (16 777 219 ms waits 16 777 220 ms at speed 1), so "waited as it is" and "never longer" hold in the source only up to 2^24 ms.
- RecorderService.WaitsAtSpeedOne: rests on PlayDelay at speed 1, so in the source it holds only while every delay is at most 2^24 ms (about 4.7 hours).
- RecorderService.ReplayTakesRecordedTime: rests on PlayDelay at speed 1, so in the source it holds only while every recorded gap is at most 2^24 ms.
- RecorderService.Stamp: `(int)(timestamp - lastTimestamp)` on a `long` is stated exactly only while the difference fits in an `int`; the wrapped value is what the record holds otherwise.
- Text.Upper: `char.ToUpper` and `string.ToUpper()` upper-case every Unicode letter, by the current culture's rules; the model upper-cases ASCII letters only. Other letters keep their case in the model, where the source maps them (even under the invariant culture 'é' becomes 'É' and 'ı' becomes 'I'), and under a Turkish culture 'i' becomes 'İ' (U+0130).
- KeyboardService.UnitKeysNested: Shift is decided by `char.IsUpper`, true for every Unicode capital; the model wraps only 'A' to 'Z', so the source sends Shift around 'É' and the model does not. The lemma leaves out U+0010, whose code is VK_SHIFT's, because its measure of struck keys skips Shift; KeyboardService.ShiftCharKeys states that case.
- KeyboardService.TypedStrikesUnits: the same two gaps: non-ASCII capitals are typed without Shift and non-ASCII letters are not upper-cased, and text containing U+0010 is left out of the lemma (KeyboardService.ShiftCharKeys covers that character).
- ActionRunnerService.CharKeyCode: upper-cases through Text.Upper (ASCII only), so a non-ASCII letter keeps its code in the model ('é' gives 0xE9 where the source gives 0xC9), and under a Turkish culture the source gives 0x130 for 'i' where the model gives 0x49.
- ActionRunnerService.ParseKeyCode: the table lookup upper-cases through Text.Upper, so under a Turkish culture names containing 'i' ("insert", "right") miss the table in the source.
- ActionRunnerService.ParseKeyCodeIgnoresCase: holds for the model's ASCII-only upper-casing; under a Turkish culture "insert" gives 0 where "INSERT" gives 0x2D.
- KeyboardService.UpperUnit: upper-cases ASCII only, so 'é' is sent as 0xE9 where the source sends 0xC9, and under a Turkish culture the source sends 0x130 for 'i' where the model sends 0x49.
- ActionRunnerService.ExecuteAction: states the block schedule, in which a Delay is one wait of any sign. That a wait below −1 throws and a −1 wait lasts until a Stop is stated where the schedule runs (Trace.Halted, ActionRunnerService.RunAsync).
- ActionRunnerService.RepetitionEvents: states the block schedule; how far a run with a negative delay gets through it is ActionRunnerService.RunEvents.
- ActionRunnerService.PassEvents: states the block schedule; how far a run with a negative delay gets through it is ActionRunnerService.RunEvents.
- ActionRunnerService.UnrollEvents: states the block schedule; how far a run with a negative delay gets through it is ActionRunnerService.RunEvents.
- ActionRunnerService.RepetitionWaits: states the block schedule; a run halts at the first negative wait in it (ActionRunnerService.RunAsync).
- KeyboardService.PassFlat: states the block schedule; a run halts at the first negative wait in it (KeyboardService.UnstoppedRun, KeyboardService.StuckText).
- KeyboardService.LoopFlat: states the block schedule; a run halts at the first negative wait in it (KeyboardService.UnstoppedRun).
- KeyboardService.TypeBlocksFlat: states the block schedule; a run halts at the first negative wait in it (KeyboardService.StopWhileTyping, KeyboardService.StuckText).
- Exceptions other than the one `Task.Delay` throws for a time below −1 (an `ArgumentOutOfRangeException` that escapes the `catch` of `TaskCanceledException`) are not modelled; a faulted task is the trace's last step `Fault`, and who observes it is outside the model, apart from the workspace's `await` of the inner run.
- KeyboardService.Utf16: a C# string is UTF-16; a character outside the Basic Multilingual Plane becomes its two surrogate units.
- Persistence internals: JSON serialisation, file paths, `IFileSystem`, `ExportProfile`/`ImportProfile` and `SettingsService`. A store is a map from file name to value, compared exactly, plus a directory-exists flag, and a write to a missing directory is an error.
- FileStore.Save: file names are compared exactly, while Windows file names ignore letter case. In the source, saving "foo" overwrites an existing "Foo.json", so a name differing only in case is not untouched.
- FileStore.Delete: deleting "foo" also removes a stored "Foo.json" in the source; the model removes only the exact file name.
- FileStore.NamesAreLoadable: "saving lists the sanitised name" assumes no stored name differs from it only in case; otherwise the source keeps listing the stored file's spelling ("Foo").
- FileStore.DeleteUnlists: with a stored name differing only in case, the source unlists that name, not the sanitised one.
- FileStore.SaveThenDelete: with a stored name differing only in case, the rest of the listing changes in the source.
- ProfileService.SaveProfile: case-insensitive file names, as for FileStore.Save.
- ProfileService.LoadProfile: `File.Exists` ignores case on Windows, so "foo" loads "Foo.json" in the source and is null in the model.
- ProfileService.DeleteProfile: case-insensitive file names, as for FileStore.Delete.
- ProfileService.SaveListsDeleteUnlists: the stem listed and unlisted is the stored file's spelling when one differs only in case.
- WorkspaceService.SaveWorkspace: case-insensitive file names, as for FileStore.Save.
- WorkspaceService.LoadWorkspace: a name differing only in case from a stored one loads in the source and is null in the model.
- WorkspaceService.DeleteWorkspace: case-insensitive file names, as for FileStore.Delete.
- WorkspaceService.SaveListsDeleteUnlists: the stem listed and unlisted is the stored file's spelling when one differs only in case.
- WorkspaceViewModel.RunWorkspace: `Jobs.ToList()` copies the list, not the `Job` objects, and the runner reads `IsEnabled`, `ProfileNames` and `DelayBetweenProfiles` as it goes. Edits to a job during a run (the profile commands have no running guard, and `IsEnabled` is bound) reach the running workspace; the model hands the run an immutable value.
- FileStore.InvalidChars: `Path.GetInvalidFileNameChars` is the Windows set (control characters 0–31 and `" < > | : * ? \ /`); other platforms differ.
- The `RecordingLoop` thread itself, `ActionRecorded` events and `StopPlayback`: a recording is the fold of ticks over the samples it saw, and a playback Stop is a cut.
- OS and UI plumbing: `HotkeyService`, `PositionPickerService` and the position picker commands, windows, dispatcher calls, status texts, `RelayCommand` CanExecute refreshes, the profile and workspace list refreshes, and the save/load/delete commands of the view models.
- `ConvertBack` of the four one-way converters throws `NotImplementedException`; it is not modelled.
- `Guid.NewGuid()` identities are modelled as a counter (`nextId`) that hands out a fresh natural number.
- MainViewModel, WorkspaceViewModel: the list edits require the view model's invariant (no repeated item, selection on the list), which the C# maintains and which a stale selection outside the list would break.
- WorkspaceViewModel.RemoveProfileFromJob, WorkspaceViewModel.MoveProfileDown: they require that the chosen profile name be in the selected job's list (or the list be empty). With a name missing from the list, the C# indexes at −1 and throws.
- `ActionItem` tests that expect a `Remark` field or a `UseCurrentPosition` default of false, and converter tests of a `StringToVisibilityConverter`, do not match the source; the model follows the source.

## Findings

| source | as written | input that shows it | evidently intended | confidence | as-written member | corrected member |
|---|---|---|---|---|---|---|
| src/AutoClickKey/Services/WorkspaceRunnerService.cs:68-96 | `Stop` opens the pause gate before cancelling, so a loop waiting at the gate (line 68 or 80) returns normally. It then reports, loads and runs the next profile without looking at the token again; the inner runner starts with a fresh token, so it runs that profile in full. | One enabled job naming profile "a" twice, 10 ms apart; "a" holds one 5 ms Delay action. Pause before the second "a", then Stop. | The Stop ends the run at the gate: one `ActionExecuted`, not two | medium, not executed: it depends on the gate opening before the cancellation is seen | WorkspaceStopExample.ParkedStopExample | WorkspaceRunFacts.CheckedStopEndsAtCheck |
