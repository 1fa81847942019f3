/**
 * Observable behaviour of the runners as a trace of steps: synthetic
 * input, waits, writes of the public state flags, calls forwarded to the
 * inner runner, and events raised.
 *
 * A runner's body is a sequence of blocks. Each block begins at a point
 * where the runner looks at its cancellation token: the check at the top
 * of a loop iteration, or an awaited delay (which a cancellation aborts
 * before it completes). A Stop is modelled as a cut before block k; what
 * the block's `onCut` holds still happens after the cancellation is seen.
 *
 * `Task.Delay` does not accept every time: below -1 it throws, and -1
 * means no time-out at all. A run therefore halts at the first wait with
 * a negative time (see Halted).
 */
module Trace {
  import opened Basics
  import opened Input

  datatype Component = ActionRun | WorkspaceRun | ClickerRun | KeyboardRun | PlaybackRun

  /** Calls a workspace run forwards to the action runner it drives. */
  datatype Control = InnerPause | InnerResume | InnerStop

  datatype Notice =
    | ActionExecuted(index: int, loop: int32)
    | Progress(jobName: string, jobIndex: int, totalJobs: int, loop: int32, profileName: Option<string>)
    | ClickPerformed(clicks: int32)
    | KeyPressed(keys: int32)
    | Paused
    | Resumed
    | Stopped(source: Component)
    | RecordingStopped

  datatype Step =
    | Input(event: InputEvent)
    | Wait(ms: int)
    | SetRunning(component: Component, on: bool)
    | SetPaused(paused: bool)
    | SetGate(open: bool)
    | Forward(control: Control)
    | Notify(notice: Notice)
    | Fault(source: Component)  // the call's task ends with an exception other than the cancellation

  function Inputs(evs: seq<InputEvent>): (t: seq<Step>)
    ensures |t| == |evs|
    ensures forall i :: 0 <= i < |evs| ==> t[i] == Input(evs[i])
  {
    seq(|evs|, i requires 0 <= i < |evs| => Input(evs[i]))
  }

  /**
   * `checkFirst` marks a block that begins with an explicit look at the
   * token made before its first step, as an action's execution does; a
   * block without it begins at the awaited delay itself, or has no wait.
   */
  datatype Block = Block(steps: seq<Step>, onCut: seq<Step>, checkFirst: bool := false)

  function Plain(steps: seq<Step>): Block {
    Block(steps, [])
  }

  /** A block without cancellation steps that looks at the token before its first step. */
  function Checked(steps: seq<Step>): Block {
    Block(steps, [], true)
  }

  function Flat(bs: seq<Block>): seq<Step>
    decreases |bs|
  {
    if |bs| == 0 then [] else bs[0].steps + Flat(bs[1..])
  }

  /** The steps of a body cut before its block k; a k past the end runs it all. */
  function CutAt(bs: seq<Block>, k: nat): (t: seq<Step>)
    ensures k >= |bs| ==> t == Flat(bs)
  {
    if k < |bs| then Flat(bs[..k]) + bs[k].onCut else Flat(bs)
  }

  lemma {:induction false} FlatAppend(a: seq<Block>, b: seq<Block>)
    ensures Flat(a + b) == Flat(a) + Flat(b)
    decreases |a|
  {
    if |a| == 0 {
      assert a + b == b;
    } else {
      assert (a + b)[1..] == a[1..] + b;
      FlatAppend(a[1..], b);
    }
  }

  /** Cutting after a leading block keeps that block whole. */
  lemma CutCons(b: Block, cs: seq<Block>, k: nat)
    ensures CutAt([b] + cs, k + 1) == b.steps + CutAt(cs, k)
  {
    var bs := [b] + cs;
    assert bs[1..] == cs;
    if k < |cs| {
      assert bs[..k + 1][1..] == cs[..k];
      assert Flat(bs[..k + 1]) == b.steps + Flat(cs[..k]);
      assert bs[k + 1] == cs[k];
    }
  }

  /** A cut inside the first part of a body does not see the rest. */
  lemma CutInPrefix(a: seq<Block>, b: seq<Block>, k: nat)
    requires k < |a|
    ensures CutAt(a + b, k) == CutAt(a, k)
  {
    assert (a + b)[..k] == a[..k];
    assert (a + b)[k] == a[k];
  }

  /** A cut at a block without cancellation steps leaves a prefix of the whole body. */
  lemma {:induction false} CutIsPrefix(bs: seq<Block>, k: nat)
    requires k < |bs| ==> bs[k].onCut == []
    ensures CutAt(bs, k) <= Flat(bs)
  {
    if k < |bs| {
      var head := Flat(bs[..k]);
      assert CutAt(bs, k) == head by {
        assert head + [] == head;
      }
      assert bs == bs[..k] + bs[k..];
      FlatAppend(bs[..k], bs[k..]);
      assert Flat(bs) == head + Flat(bs[k..]);
    }
  }

  // ------------------------------------------------------------ projections

  function Notices(t: seq<Step>): seq<Notice>
    decreases |t|
  {
    if |t| == 0 then []
    else (if t[0].Notify? then [t[0].notice] else []) + Notices(t[1..])
  }

  function InputsOf(t: seq<Step>): seq<InputEvent>
    decreases |t|
  {
    if |t| == 0 then []
    else (if t[0].Input? then [t[0].event] else []) + InputsOf(t[1..])
  }

  function Waits(t: seq<Step>): seq<int>
    decreases |t|
  {
    if |t| == 0 then []
    else (if t[0].Wait? then [t[0].ms] else []) + Waits(t[1..])
  }

  /** The ActionExecuted events, in order. */
  function Executions(ns: seq<Notice>): seq<Notice>
    decreases |ns|
  {
    if |ns| == 0 then []
    else (if ns[0].ActionExecuted? then [ns[0]] else []) + Executions(ns[1..])
  }

  function StopCount(ns: seq<Notice>, c: Component): nat
    decreases |ns|
  {
    if |ns| == 0 then 0 else (if ns[0] == Stopped(c) then 1 else 0) + StopCount(ns[1..], c)
  }

  lemma {:induction false} NoticesAppend(a: seq<Step>, b: seq<Step>)
    ensures Notices(a + b) == Notices(a) + Notices(b)
    decreases |a|
  {
    if |a| == 0 {
      assert a + b == b;
    } else {
      var h := if a[0].Notify? then [a[0].notice] else [];
      assert (a + b)[0] == a[0];
      assert (a + b)[1..] == a[1..] + b;
      assert Notices(a + b) == h + Notices(a[1..] + b);
      NoticesAppend(a[1..], b);
      assert Notices(a) == h + Notices(a[1..]);
    }
  }

  /** All three projections distribute over concatenation. */
  lemma ProjectAppend(a: seq<Step>, b: seq<Step>)
    ensures Notices(a + b) == Notices(a) + Notices(b)
    ensures InputsOf(a + b) == InputsOf(a) + InputsOf(b)
    ensures Waits(a + b) == Waits(a) + Waits(b)
  {
    NoticesAppend(a, b);
    InputsOfAppend(a, b);
    WaitsAppend(a, b);
  }

  lemma WaitOnly(ms: int)
    ensures Notices([Wait(ms)]) == [] && InputsOf([Wait(ms)]) == [] && Waits([Wait(ms)]) == [ms]
  {
    assert [Wait(ms)][1..] == [];
  }

  lemma NotifyOnly(n: Notice)
    ensures Notices([Notify(n)]) == [n] && InputsOf([Notify(n)]) == [] && Waits([Notify(n)]) == []
  {
    assert [Notify(n)][1..] == [];
  }

  lemma NoticesOne(st: Step)
    ensures Notices([st]) == if st.Notify? then [st.notice] else []
  {
    assert [st][1..] == [];
  }

  lemma ExecutionsOne(n: Notice)
    ensures Executions([n]) == if n.ActionExecuted? then [n] else []
  {
    assert [n][1..] == [];
  }

  lemma {:induction false} InputsOfAppend(a: seq<Step>, b: seq<Step>)
    ensures InputsOf(a + b) == InputsOf(a) + InputsOf(b)
    decreases |a|
  {
    if |a| == 0 {
      assert a + b == b;
    } else {
      var h := if a[0].Input? then [a[0].event] else [];
      assert (a + b)[0] == a[0];
      assert (a + b)[1..] == a[1..] + b;
      assert InputsOf(a + b) == h + InputsOf(a[1..] + b);
      InputsOfAppend(a[1..], b);
      assert InputsOf(a) == h + InputsOf(a[1..]);
    }
  }

  lemma {:induction false} WaitsAppend(a: seq<Step>, b: seq<Step>)
    ensures Waits(a + b) == Waits(a) + Waits(b)
    decreases |a|
  {
    if |a| == 0 {
      assert a + b == b;
    } else {
      var h := if a[0].Wait? then [a[0].ms] else [];
      assert (a + b)[0] == a[0];
      assert (a + b)[1..] == a[1..] + b;
      assert Waits(a + b) == h + Waits(a[1..] + b);
      WaitsAppend(a[1..], b);
      assert Waits(a) == h + Waits(a[1..]);
    }
  }

  lemma {:induction false} ExecutionsAppend(a: seq<Notice>, b: seq<Notice>)
    ensures Executions(a + b) == Executions(a) + Executions(b)
    decreases |a|
  {
    if |a| == 0 {
      assert a + b == b;
    } else {
      var h := if a[0].ActionExecuted? then [a[0]] else [];
      assert (a + b)[0] == a[0] && (a + b)[1..] == a[1..] + b;
      assert Executions(a + b) == h + Executions(a[1..] + b);
      ExecutionsAppend(a[1..], b);
      assert Executions(a) == h + Executions(a[1..]);
    }
  }

  lemma {:induction false} StopCountAppend(a: seq<Notice>, b: seq<Notice>, c: Component)
    ensures StopCount(a + b, c) == StopCount(a, c) + StopCount(b, c)
    decreases |a|
  {
    if |a| == 0 {
      assert a + b == b;
    } else {
      assert (a + b)[1..] == a[1..] + b;
      StopCountAppend(a[1..], b, c);
    }
  }

  lemma {:induction false} InputsOfInputs(evs: seq<InputEvent>)
    ensures InputsOf(Inputs(evs)) == evs
    ensures Notices(Inputs(evs)) == []
    ensures Waits(Inputs(evs)) == []
    decreases |evs|
  {
    if |evs| > 0 {
      assert Inputs(evs)[1..] == Inputs(evs[1..]);
      InputsOfInputs(evs[1..]);
    }
  }

  /** Where the cursor is after a trace, starting from `start`. */
  function CursorAt(start: Point, t: seq<Step>): Point {
    CursorAfter(start, InputsOf(t))
  }

  lemma CursorAtAppend(start: Point, a: seq<Step>, b: seq<Step>)
    ensures CursorAt(start, a + b) == CursorAt(CursorAt(start, a), b)
  {
    InputsOfAppend(a, b);
    CursorAfterAppend(start, InputsOf(a), InputsOf(b));
  }

  // ------------------------------------------------------------ stops of one component

  /** The trace raises no Stopped event of component c. */
  predicate NoStop(t: seq<Step>, c: Component) {
    forall n :: n in Notices(t) ==> n != Stopped(c)
  }

  lemma {:induction false} NoStopCount(ns: seq<Notice>, c: Component)
    requires forall n :: n in ns ==> n != Stopped(c)
    ensures StopCount(ns, c) == 0
    decreases |ns|
  {
    if |ns| > 0 {
      assert ns[0] in ns;
      assert forall n :: n in ns[1..] ==> n in ns;
      NoStopCount(ns[1..], c);
    }
  }

  lemma NoStopAppend(a: seq<Step>, b: seq<Step>, c: Component)
    requires NoStop(a, c) && NoStop(b, c)
    ensures NoStop(a + b, c)
  {
    NoticesAppend(a, b);
  }

  /** Blocks whose steps and cancellation steps raise no Stopped of c. */
  predicate NoStopBlocks(bs: seq<Block>, c: Component) {
    forall k :: 0 <= k < |bs| ==> NoStop(bs[k].steps, c) && NoStop(bs[k].onCut, c)
  }

  lemma {:induction false} FlatNoStop(bs: seq<Block>, c: Component)
    requires NoStopBlocks(bs, c)
    ensures NoStop(Flat(bs), c)
    decreases |bs|
  {
    if |bs| > 0 {
      assert NoStopBlocks(bs[1..], c) by {
        forall k | 0 <= k < |bs[1..]|
          ensures NoStop(bs[1..][k].steps, c) && NoStop(bs[1..][k].onCut, c)
        {
          assert bs[1..][k] == bs[k + 1];
        }
      }
      FlatNoStop(bs[1..], c);
      assert NoStop(bs[0].steps, c);
      NoStopAppend(bs[0].steps, Flat(bs[1..]), c);
    }
  }

  /** A cut of such blocks raises no Stopped of c either. */
  lemma CutNoStop(bs: seq<Block>, k: nat, c: Component)
    requires NoStopBlocks(bs, c)
    ensures NoStop(CutAt(bs, k), c)
  {
    if k < |bs| {
      assert NoStopBlocks(bs[..k], c) by {
        forall i | 0 <= i < k
          ensures NoStop(bs[..k][i].steps, c) && NoStop(bs[..k][i].onCut, c)
        {
          assert bs[..k][i] == bs[i];
        }
      }
      FlatNoStop(bs[..k], c);
      assert NoStop(bs[k].onCut, c);
      NoStopAppend(Flat(bs[..k]), bs[k].onCut, c);
    } else {
      FlatNoStop(bs, c);
    }
  }

  /** The notices of any block are among the notices of the whole body. */
  lemma {:induction false} BlockNoticesInFlat(bs: seq<Block>, k: nat)
    requires k < |bs|
    ensures forall n :: n in Notices(bs[k].steps) ==> n in Notices(Flat(bs))
    decreases k
  {
    NoticesAppend(bs[0].steps, Flat(bs[1..]));
    if k > 0 {
      assert bs[1..][k - 1] == bs[k];
      BlockNoticesInFlat(bs[1..], k - 1);
    }
  }

  /** A trace made of a run's start, its body and a cleanup that stops c once raises exactly one Stopped of c, last. */
  lemma OneStopAtEnd(head: seq<Step>, body: seq<Step>, cleanup: seq<Step>, c: Component)
    requires NoStop(head, c) && NoStop(body, c)
    requires Notices(cleanup) == [Stopped(c)]
    ensures StopCount(Notices(head + body + cleanup), c) == 1
    ensures Notices(head + body + cleanup)[|Notices(head + body + cleanup)| - 1] == Stopped(c)
  {
    NoStopAppend(head, body, c);
    NoticesAppend(head + body, cleanup);
    NoStopCount(Notices(head + body), c);
    StopCountAppend(Notices(head + body), [Stopped(c)], c);
    assert StopCount([Stopped(c)], c) == 1 + StopCount([], c);
  }

  // ------------------------------------------------------------ waits that do not return

  /**
   * A block that begins with a wait `Task.Delay` does not complete on its
   * own: a negative time, which throws below -1 and waits for the token's
   * cancellation at -1.
   */
  predicate Stalls(b: Block) {
    |b.steps| > 0 && b.steps[0].Wait? && b.steps[0].ms < 0
  }

  /** Every wait of the body returns on its own. */
  predicate Returning(bs: seq<Block>) {
    forall k :: 0 <= k < |bs| ==> !Stalls(bs[k])
  }

  /** The first block that stalls, or |bs| when none does. */
  function Stall(bs: seq<Block>): (h: nat)
    ensures h <= |bs|
    ensures forall k :: 0 <= k < h ==> !Stalls(bs[k])
    ensures h < |bs| ==> Stalls(bs[h])
    decreases |bs|
  {
    if |bs| == 0 || Stalls(bs[0]) then 0 else 1 + Stall(bs[1..])
  }

  /** How a call ends: it returns, its task faults, or it never returns. */
  datatype Ending = Completed | Faulted | Hung

  /**
   * How a run of body `bs` ends when a Stop is seen before block `cut`
   * (none when `cut` is past the end), `wake` saying whether a Stop
   * arrives while the run waits without a time-out. `Task.Delay` checks
   * the time before the token, so a wait below -1 throws even once
   * stopped, unless its block looked at the token first.
   */
  function EndingOf(bs: seq<Block>, cut: nat, wake: bool): Ending {
    var h := Stall(bs);
    if h == |bs| || cut < h then Completed
    else if cut == h && bs[h].checkFirst then Completed
    else if bs[h].steps[0].ms < -1 then Faulted
    else if wake || cut == h then Completed
    else Hung
  }

  /** Where the body stops: at the cut, or at the first stalling wait when that comes sooner. */
  function HaltAt(bs: seq<Block>, cut: nat): (k: nat)
    ensures k <= cut && k <= |bs|
    ensures k < cut ==> k == Stall(bs)
    ensures k < cut && k < |bs| ==> Stalls(bs[k])
    ensures forall i :: 0 <= i < k ==> !Stalls(bs[i])
  {
    Min(cut, Stall(bs))
  }

  /** What follows the body: the cleanup, the cleanup and the fault, or nothing ever. */
  function Finish(e: Ending, cleanup: seq<Step>, c: Component): seq<Step> {
    match e
    case Completed => cleanup
    case Faulted => cleanup + [Fault(c)]
    case Hung => []
  }

  /**
   * A run of body `bs` with the `finally` steps `cleanup`, raised by
   * component c: cut by the Stop or at the stalling wait, then the
   * cleanup, and for a wait below -1 the fault that escapes the catch of
   * the cancellation. A wait of -1 that no Stop wakes never returns, and
   * nothing after it happens.
   */
  function Halted(bs: seq<Block>, cut: nat, wake: bool, cleanup: seq<Step>, c: Component): seq<Step> {
    var k := HaltAt(bs, cut);
    var e := EndingOf(bs, cut, wake);
    (if e == Hung then Flat(bs[..k]) else CutAt(bs, k)) + Finish(e, cleanup, c)
  }

  /** A body whose waits all return runs as cut by the Stop, then cleans up. */
  lemma HaltedReturning(bs: seq<Block>, cut: nat, wake: bool, cleanup: seq<Step>, c: Component)
    requires Returning(bs)
    ensures EndingOf(bs, cut, wake) == Completed
    ensures Halted(bs, cut, wake, cleanup, c) == CutAt(bs, cut) + cleanup
  {
  }

  /** Only a wait without a time-out that no Stop reaches leaves a run hanging, and it hangs at that wait. */
  lemma HungAtStall(bs: seq<Block>, cut: nat, wake: bool)
    ensures EndingOf(bs, cut, wake) == Hung <==>
      Stall(bs) < |bs| && Stall(bs) < cut && bs[Stall(bs)].steps[0].ms == -1 && !wake
    ensures EndingOf(bs, cut, wake) == Faulted <==>
      Stall(bs) < |bs| && Stall(bs) <= cut && bs[Stall(bs)].steps[0].ms < -1 &&
      !(Stall(bs) == cut && bs[Stall(bs)].checkFirst)
    ensures EndingOf(bs, cut, wake) != Completed ==> HaltAt(bs, cut) == Stall(bs)
  {
  }

  /** A run raises the Stopped of its cleanup exactly when it does not hang, and then as its last event; a fault is its very last step. */
  lemma HaltedStops(head: seq<Step>, bs: seq<Block>, cut: nat, wake: bool, cleanup: seq<Step>, c: Component)
    requires NoStop(head, c) && NoStopBlocks(bs, c)
    requires Notices(cleanup) == [Stopped(c)]
    ensures var t := head + Halted(bs, cut, wake, cleanup, c);
      && (EndingOf(bs, cut, wake) != Hung ==>
            StopCount(Notices(t), c) == 1 && Notices(t)[|Notices(t)| - 1] == Stopped(c))
      && (EndingOf(bs, cut, wake) == Hung ==> NoStop(t, c))
      && (EndingOf(bs, cut, wake) == Faulted ==> t[|t| - 1] == Fault(c))
  {
    var k := HaltAt(bs, cut);
    var e := EndingOf(bs, cut, wake);
    if e == Hung {
      assert NoStopBlocks(bs[..k], c) by {
        forall i | 0 <= i < k
          ensures NoStop(bs[..k][i].steps, c) && NoStop(bs[..k][i].onCut, c)
        {
          assert bs[..k][i] == bs[i];
        }
      }
      FlatNoStop(bs[..k], c);
      NoStopAppend(head, Flat(bs[..k]), c);
      assert head + Halted(bs, cut, wake, cleanup, c) == head + Flat(bs[..k]);
    } else {
      CutNoStop(bs, k, c);
      var body := CutAt(bs, k);
      OneStopAtEnd(head, body, cleanup, c);
      var t := head + body + cleanup;
      if e == Faulted {
        assert head + Halted(bs, cut, wake, cleanup, c) == t + [Fault(c)];
        NoticesAppend(t, [Fault(c)]);
        assert Notices([Fault(c)]) == [] + Notices([]);
        assert Notices(t + [Fault(c)]) == Notices(t) + [];
        assert Notices(t) + [] == Notices(t);
      } else {
        assert head + Halted(bs, cut, wake, cleanup, c) == t;
      }
    }
  }

  /** Where the body halts at a block without cancellation steps, the run is the blocks before it and what follows. */
  lemma HaltedCut(bs: seq<Block>, cut: nat, wake: bool, cleanup: seq<Step>, c: Component)
    requires HaltAt(bs, cut) < |bs| ==> bs[HaltAt(bs, cut)].onCut == []
    ensures Halted(bs, cut, wake, cleanup, c)
            == Flat(bs[..HaltAt(bs, cut)]) + Finish(EndingOf(bs, cut, wake), cleanup, c)
    ensures Halted(bs, cut, wake, cleanup, c)
            == CutAt(bs, HaltAt(bs, cut)) + Finish(EndingOf(bs, cut, wake), cleanup, c)
  {
    var k := HaltAt(bs, cut);
    if k < |bs| {
      assert CutAt(bs, k) == Flat(bs[..k]) + [];
    } else {
      assert bs[..k] == bs;
    }
  }

  lemma ReturningAppend(a: seq<Block>, b: seq<Block>)
    requires Returning(a) && Returning(b)
    ensures Returning(a + b)
  {
    forall k | 0 <= k < |a + b|
      ensures !Stalls((a + b)[k])
    {
      if k < |a| {
        assert (a + b)[k] == a[k];
      } else {
        assert (a + b)[k] == b[k - |a|];
      }
    }
  }

  /** A body made of three returning parts returns. */
  lemma ReturningJoin(whole: seq<Block>, a: seq<Block>, b: seq<Block>, c: seq<Block>)
    requires whole == a + (b + c)
    requires Returning(a) && Returning(b) && Returning(c)
    ensures Returning(whole)
  {
    ReturningAppend(b, c);
    ReturningAppend(a, b + c);
  }
}
