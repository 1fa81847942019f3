/**
 * The simple auto-clicker: click (at the cursor or at a fixed place), count
 * and report the click, stop when the count is reached, otherwise wait the
 * interval and click again, until stopped.
 */
module ClickerService {
  import opened Basics
  import opened Input
  import opened Trace
  import opened Models

  datatype Clicker = Clicker(isRunning: bool)

  /** One click as the settings ask for it. */
  function ClickInputs(s: ClickerSettings): seq<InputEvent> {
    if s.positionMode == FixedPosition then MouseClickAt(Point(s.fixedX, s.fixedY), s.mouseButton, s.clickType == Double)
    else MouseClick(s.mouseButton, s.clickType == Double)
  }

  /** The count reached: the click just reported ends a counted run. */
  predicate Reached(s: ClickerSettings, count: int32) {
    s.repeatMode == Count && count >= s.repeatCount
  }

  /**
   * The loop after `n` clicks, at most `fuel` more: click, report the
   * click count (an `int`, so it wraps), stop when the count is reached,
   * else wait. Each block begins where the loop looks at its token.
   */
  function Clicks(s: ClickerSettings, n: nat, fuel: nat): seq<Block>
    decreases fuel
  {
    if fuel == 0 then []
    else
      [Plain(ClickSteps(s, n))]
      + (if Reached(s, WrapInt32(n + 1)) then [] else [Plain([Wait(s.intervalMs)])] + Clicks(s, n + 1, fuel - 1))
  }

  /** The click after `n` others, and its report. */
  function ClickSteps(s: ClickerSettings, n: nat): seq<Step> {
    Inputs(ClickInputs(s)) + [Notify(ClickPerformed(WrapInt32(n + 1)))]
  }

  const ClickerCleanup: seq<Step> := [SetRunning(ClickerRun, false), Notify(Stopped(ClickerRun))]

  /** How a run ends when a Stop comes before block `stop`; none comes when `stop` is past the end. */
  function ClickerEnding(s: ClickerSettings, fuel: nat, stop: nat): Ending {
    var body := Clicks(s, 0, fuel);
    EndingOf(body, stop, stop < |body|)
  }

  /**
   * One call: nothing while a run is in progress; otherwise the clicks,
   * cut by a Stop before block `stop` or halted at a negative interval,
   * then not running and one Stopped. An interval below -1 throws after
   * the first click, and the returned Task faults after the cleanup; an interval of
   * -1 waits until a Stop, and without one the clicker stays running.
   */
  function StartAsync(c: Clicker, s: ClickerSettings, fuel: nat, stop: nat): (res: (Clicker, seq<Step>))
    ensures c.isRunning ==> res == (c, [])
    ensures !c.isRunning ==>
      var body := Clicks(s, 0, fuel);
      var e := ClickerEnding(s, fuel, stop);
      && res.0.isRunning == (e == Hung)
      && res.1 == [SetRunning(ClickerRun, true)] + Halted(body, stop, stop < |body|, ClickerCleanup, ClickerRun)
      && (e != Hung ==> StopCount(Notices(res.1), ClickerRun) == 1)
      && (e != Hung ==> Notices(res.1)[|Notices(res.1)| - 1] == Stopped(ClickerRun))
      && (e == Hung ==> NoStop(res.1, ClickerRun))
      && (e == Faulted ==> res.1[|res.1| - 1] == Fault(ClickerRun))
  {
    if c.isRunning then (c, [])
    else
      var body := Clicks(s, 0, fuel);
      ClickerStops(s, fuel, stop);
      (Clicker(ClickerEnding(s, fuel, stop) == Hung),
       [SetRunning(ClickerRun, true)] + Halted(body, stop, stop < |body|, ClickerCleanup, ClickerRun))
  }

  // ------------------------------------------------------------ counting

  /** How many clicks the loop makes after `n` with `fuel` left: the count's remainder, or the fuel. */
  function Total(s: ClickerSettings, n: nat, fuel: nat): nat {
    if s.repeatMode == Count then Min(fuel, Max(Max(s.repeatCount, 1) - n, 0)) else fuel
  }

  /** The count, not the fuel, ends the loop. */
  predicate CountEnds(s: ClickerSettings, n: nat, fuel: nat) {
    s.repeatMode == Count && 0 < Max(s.repeatCount, 1) - n <= fuel
  }

  /** How many interval waits it makes: one fewer than the clicks when the count ends the run. */
  function WaitTotal(s: ClickerSettings, n: nat, fuel: nat): nat {
    if CountEnds(s, n, fuel) then Total(s, n, fuel) - 1 else Total(s, n, fuel)
  }

  /** Click reports numbered from `from`, `k` of them, as the wrapping counter gives them. */
  function Counted(from: int, k: nat): (ns: seq<Notice>)
    ensures |ns| == k && forall i :: 0 <= i < k ==> ns[i] == ClickPerformed(WrapInt32(from + i))
  {
    seq(k, i requires 0 <= i < k => ClickPerformed(WrapInt32(from + i)))
  }

  lemma CountedCons(from: int, k: nat)
    ensures Counted(from, k + 1) == [ClickPerformed(WrapInt32(from))] + Counted(from + 1, k)
  {
    var a := Counted(from, k + 1);
    var b := [ClickPerformed(WrapInt32(from))] + Counted(from + 1, k);
    forall i | 0 <= i < |a|
      ensures a[i] == b[i]
    {
      if i > 0 {
        assert b[i] == Counted(from + 1, k)[i - 1];
      }
    }
  }

  lemma ClickBlock(s: ClickerSettings, n: nat)
    ensures var t := ClickSteps(s, n);
      Notices(t) == [ClickPerformed(WrapInt32(n + 1))] && InputsOf(t) == ClickInputs(s) && Waits(t) == []
  {
    var t1 := Inputs(ClickInputs(s));
    var t2: seq<Step> := [Notify(ClickPerformed(WrapInt32(n + 1)))];
    InputsOfInputs(ClickInputs(s));
    NoticesAppend(t1, t2);
    InputsOfAppend(t1, t2);
    WaitsAppend(t1, t2);
    NoticesOne(t2[0]);
    assert InputsOf(t2) == [] + InputsOf([]);
    assert Waits(t2) == [] + Waits([]);
  }

  lemma WaitBlock(ms: int)
    ensures Notices([Wait(ms)]) == [] && InputsOf([Wait(ms)]) == [] && Waits([Wait(ms)]) == [ms]
  {
    NoticesOne(Wait(ms));
    assert InputsOf([Wait(ms)]) == [] + InputsOf([]);
    assert Waits([Wait(ms)]) == [ms] + Waits([]);
  }

  /**
   * Whatever block a Stop lands before, the run has made the first
   * clicks in full, reported as consecutive counts, and waited between
   * them: a Stop before block k leaves (k+1)/2 clicks and k/2 waits, or all
   * of them when the run ends sooner.
   */
  lemma {:induction false} CutClicks(s: ClickerSettings, n: nat, fuel: nat, stop: nat)
    requires s.repeatMode == Count ==> n < Max(s.repeatCount, 1)
    ensures CutFacts(s, n, fuel, stop)
    decreases fuel
  {
    var bs := Clicks(s, n, fuel);
    if fuel == 0 || stop == 0 {
      assert CutAt(bs, stop) == [] by {
        if fuel > 0 {
          assert bs[..0] == [];
        }
      }
    } else if Reached(s, WrapInt32(n + 1)) {
      CutLastClick(s, n, fuel, stop);
    } else if stop == 1 {
      CutFirstClick(s, n, fuel);
    } else {
      assert s.repeatMode == Count ==> n + 1 < Max(s.repeatCount, 1);
      var next, rest, later := n + 1, fuel - 1, stop - 2;
      CutClicks(s, next, rest, later);
      CutTwoLater(s, n, fuel, stop, next, rest, later);
    }
  }

  /** What a Stop before block `stop` leaves of the loop after `n` clicks: the first clicks, their reports and waits. */
  predicate CutFacts(s: ClickerSettings, n: nat, fuel: nat, stop: nat) {
    var t := CutAt(Clicks(s, n, fuel), stop);
    var m := Min((stop + 1) / 2, Total(s, n, fuel));
    && Notices(t) == Counted(n + 1, m)
    && InputsOf(t) == Times(ClickInputs(s), m)
    && Waits(t) == Repeat(s.intervalMs, Min(stop / 2, WaitTotal(s, n, fuel)))
  }

  lemma CutLastClick(s: ClickerSettings, n: nat, fuel: nat, stop: nat)
    requires s.repeatMode == Count ==> n < Max(s.repeatCount, 1)
    requires fuel > 0 && stop > 0 && Reached(s, WrapInt32(n + 1))
    ensures CutFacts(s, n, fuel, stop)
  {
    var click := Plain(ClickSteps(s, n));
    ClickBlock(s, n);
    assert Total(s, n, fuel) == 1 && WaitTotal(s, n, fuel) == 0 by {
      assert WrapInt32(n + 1) == n + 1;
    }
    assert Clicks(s, n, fuel) == [click];
    assert CutAt([click], stop) == click.steps by {
      assert [click][1..] == [];
      assert Flat([click]) == click.steps + Flat([]);
    }
    assert Times(ClickInputs(s), 1) == ClickInputs(s) + [];
    assert Counted(n + 1, 1) == [ClickPerformed(WrapInt32(n + 1))];
  }

  lemma CutFirstClick(s: ClickerSettings, n: nat, fuel: nat)
    requires s.repeatMode == Count ==> n < Max(s.repeatCount, 1)
    requires fuel > 0 && !Reached(s, WrapInt32(n + 1))
    ensures CutFacts(s, n, fuel, 1)
  {
    var click := Plain(ClickSteps(s, n));
    var rest := [Plain([Wait(s.intervalMs)])] + Clicks(s, n + 1, fuel - 1);
    ClickBlock(s, n);
    assert Clicks(s, n, fuel) == [click] + rest;
    CutCons(click, rest, 0);
    assert CutAt(rest, 0) == [];
    assert click.steps + [] == click.steps;
    assert Times(ClickInputs(s), 1) == ClickInputs(s) + [];
    assert Counted(n + 1, 1) == [ClickPerformed(WrapInt32(n + 1))];
  }

  /** The facts about a cut loop after `n` clicks, given those two blocks later (`next` clicks, `rest` fuel, cut at `later`). */
  lemma CutTwoLater(s: ClickerSettings, n: nat, fuel: nat, stop: nat, next: nat, rest: nat, later: nat)
    requires fuel > 0 && stop >= 2 && !Reached(s, WrapInt32(n + 1))
    requires s.repeatMode == Count ==> n + 1 < Max(s.repeatCount, 1)
    requires next == n + 1 && rest == fuel - 1 && later == stop - 2
    requires CutFacts(s, next, rest, later)
    ensures CutFacts(s, n, fuel, stop)
  {
    var t := CutAt(Clicks(s, next, rest), later);
    var m, w := Min((later + 1) / 2, Total(s, next, rest)), Min(later / 2, WaitTotal(s, next, rest));
    CutShape(s, n, fuel, stop, next, rest, later);
    NextCounts(s, n, fuel, stop, next, rest, later);
    ClickThenMore(s, n, t, m, w);
  }

  lemma CutShape(s: ClickerSettings, n: nat, fuel: nat, stop: nat, next: nat, rest: nat, later: nat)
    requires fuel > 0 && stop >= 2 && !Reached(s, WrapInt32(n + 1))
    requires next == n + 1 && rest == fuel - 1 && later == stop - 2
    ensures CutAt(Clicks(s, n, fuel), stop) == ClickSteps(s, n) + ([Wait(s.intervalMs)] + CutAt(Clicks(s, next, rest), later))
  {
    var click := Plain(ClickSteps(s, n));
    var wait := Plain([Wait(s.intervalMs)]);
    var more := Clicks(s, next, rest);
    assert Clicks(s, n, fuel) == [click] + ([wait] + more);
    CutCons(click, [wait] + more, stop - 1);
    CutCons(wait, more, later);
  }

  /** One more click and wait in front of a cut loop: one more report, click and wait. */
  lemma ClickThenMore(s: ClickerSettings, n: nat, t: seq<Step>, m: nat, w: nat)
    requires Notices(t) == Counted(n + 2, m) && InputsOf(t) == Times(ClickInputs(s), m)
    requires Waits(t) == Repeat(s.intervalMs, w)
    ensures var u := ClickSteps(s, n) + ([Wait(s.intervalMs)] + t);
      && Notices(u) == Counted(n + 1, m + 1)
      && InputsOf(u) == Times(ClickInputs(s), m + 1)
      && Waits(u) == Repeat(s.intervalMs, w + 1)
  {
    ClickThenWait(ClickSteps(s, n), s.intervalMs, t);
    ClickBlock(s, n);
    CountedCons(n + 1, m);
  }

  /** A block of steps, a wait, and the rest of a cut loop, projected. */
  lemma ClickThenWait(steps: seq<Step>, ms: int, t: seq<Step>)
    ensures Notices(steps + ([Wait(ms)] + t)) == Notices(steps) + Notices(t)
    ensures InputsOf(steps + ([Wait(ms)] + t)) == InputsOf(steps) + InputsOf(t)
    ensures Waits(steps + ([Wait(ms)] + t)) == Waits(steps) + [ms] + Waits(t)
  {
    var u := [Wait(ms)] + t;
    WaitBlock(ms);
    NoticesAppend(steps, u);
    NoticesAppend([Wait(ms)], t);
    InputsOfAppend(steps, u);
    InputsOfAppend([Wait(ms)], t);
    WaitsAppend(steps, u);
    WaitsAppend([Wait(ms)], t);
  }

  /** The counts a cut two blocks later leaves, one click and one wait fewer. */
  lemma NextCounts(s: ClickerSettings, n: nat, fuel: nat, stop: nat, next: nat, rest: nat, later: nat)
    requires fuel > 0 && stop >= 2
    requires s.repeatMode == Count ==> n + 1 < Max(s.repeatCount, 1)
    requires next == n + 1 && rest == fuel - 1 && later == stop - 2
    ensures Min((stop + 1) / 2, Total(s, n, fuel)) == 1 + Min((later + 1) / 2, Total(s, next, rest))
    ensures Min(stop / 2, WaitTotal(s, n, fuel)) == 1 + Min(later / 2, WaitTotal(s, next, rest))
  {
  }

  /** The clicks raise no Stopped. */
  lemma {:induction false} ClicksNoStop(s: ClickerSettings, n: nat, fuel: nat)
    ensures NoStopBlocks(Clicks(s, n, fuel), ClickerRun)
    ensures forall k :: 0 <= k < |Clicks(s, n, fuel)| ==> Clicks(s, n, fuel)[k].onCut == []
    decreases fuel
  {
    if fuel > 0 {
      var bs := Clicks(s, n, fuel);
      ClickBlock(s, n);
      WaitBlock(s.intervalMs);
      if !Reached(s, WrapInt32(n + 1)) {
        ClicksNoStop(s, n + 1, fuel - 1);
        forall k | 0 <= k < |bs|
          ensures NoStop(bs[k].steps, ClickerRun) && NoStop(bs[k].onCut, ClickerRun) && bs[k].onCut == []
        {
          if k >= 2 {
            assert bs[k] == Clicks(s, n + 1, fuel - 1)[k - 2];
          }
        }
      }
    }
  }

  lemma CleanupStops()
    ensures Notices(ClickerCleanup) == [Stopped(ClickerRun)]
    ensures InputsOf(ClickerCleanup) == [] && Waits(ClickerCleanup) == []
  {
    assert ClickerCleanup[1..][1..] == [];
  }

  /** A run raises one Stopped, its last event, unless it hangs, and then none; a fault is its very last step. */
  lemma ClickerStops(s: ClickerSettings, fuel: nat, stop: nat)
    ensures var body := Clicks(s, 0, fuel);
      var e := EndingOf(body, stop, stop < |body|);
      var t := [SetRunning(ClickerRun, true)] + Halted(body, stop, stop < |body|, ClickerCleanup, ClickerRun);
      && (e != Hung ==> StopCount(Notices(t), ClickerRun) == 1 && Notices(t)[|Notices(t)| - 1] == Stopped(ClickerRun))
      && (e == Hung ==> NoStop(t, ClickerRun))
      && (e == Faulted ==> t[|t| - 1] == Fault(ClickerRun))
  {
    var body := Clicks(s, 0, fuel);
    var head := [SetRunning(ClickerRun, true)];
    assert NoStop(head, ClickerRun) by {
      NoticesOne(SetRunning(ClickerRun, true));
    }
    assert NoStopBlocks(body, ClickerRun) by {
      ClicksNoStop(s, 0, fuel);
    }
    assert Notices(ClickerCleanup) == [Stopped(ClickerRun)] by {
      CleanupStops();
    }
    HaltedStops(head, body, stop, stop < |body|, ClickerCleanup, ClickerRun);
  }

  /** A click block never stalls. */
  lemma ClickStepsFirst(s: ClickerSettings, n: nat)
    ensures !Stalls(Plain(ClickSteps(s, n)))
  {
    var evs := ClickInputs(s);
    if |evs| > 0 {
      assert ClickSteps(s, n)[0] == Inputs(evs)[0];
    } else {
      assert ClickSteps(s, n)[0] == Notify(ClickPerformed(WrapInt32(n + 1)));
    }
  }

  /** The loop stalls only at its interval: never when it is not negative, else at the first wait. */
  lemma {:induction false} ClicksStall(s: ClickerSettings, n: nat, fuel: nat)
    ensures s.intervalMs >= 0 ==> Returning(Clicks(s, n, fuel))
    ensures s.intervalMs < 0 ==> Stall(Clicks(s, n, fuel)) == Min(1, |Clicks(s, n, fuel)|)
    decreases fuel
  {
    if fuel > 0 {
      var click := Plain(ClickSteps(s, n));
      ClickStepsFirst(s, n);
      if Reached(s, WrapInt32(n + 1)) {
        assert Clicks(s, n, fuel) == [click];
        assert [click][1..] == [];
      } else {
        ClicksStall(s, n + 1, fuel - 1);
        ClicksStallStep(s, n, fuel);
      }
    }
  }

  lemma ClicksStallStep(s: ClickerSettings, n: nat, fuel: nat)
    requires fuel > 0 && !Reached(s, WrapInt32(n + 1))
    requires s.intervalMs >= 0 ==> Returning(Clicks(s, n + 1, fuel - 1))
    ensures s.intervalMs >= 0 ==> Returning(Clicks(s, n, fuel))
    ensures s.intervalMs < 0 ==> Stall(Clicks(s, n, fuel)) == Min(1, |Clicks(s, n, fuel)|)
  {
    var click := Plain(ClickSteps(s, n));
    var wait := Plain([Wait(s.intervalMs)]);
    var rest := Clicks(s, n + 1, fuel - 1);
    assert !Stalls(click) by {
      ClickStepsFirst(s, n);
    }
    assert Clicks(s, n, fuel) == [click] + ([wait] + rest);
    if s.intervalMs >= 0 {
      ReturningJoin(Clicks(s, n, fuel), [click], [wait], rest);
    } else {
      assert Clicks(s, n, fuel)[1..][0] == wait;
    }
  }

  /** The loop has a block per click and per wait. */
  lemma {:induction false} ClicksLength(s: ClickerSettings, n: nat, fuel: nat)
    requires s.repeatMode == Count ==> n < Max(s.repeatCount, 1)
    ensures |Clicks(s, n, fuel)| == Total(s, n, fuel) + WaitTotal(s, n, fuel)
    decreases fuel
  {
    if fuel > 0 {
      if Reached(s, WrapInt32(n + 1)) {
        assert WrapInt32(n + 1) == n + 1;
      } else {
        assert s.repeatMode == Count ==> n + 1 < Max(s.repeatCount, 1);
        ClicksLength(s, n + 1, fuel - 1);
        NextCounts(s, n, fuel, 2 * fuel + 2, n + 1, fuel - 1, 2 * fuel);
      }
    }
  }

  // ------------------------------------------------------------ whole runs

  /** Start and what follows the body add no input, no wait, and only the final Stopped unless the run hangs. */
  lemma RunFrame(body: seq<Step>, e: Ending)
    ensures var t := [SetRunning(ClickerRun, true)] + (body + Finish(e, ClickerCleanup, ClickerRun));
      && Notices(t) == Notices(body) + (if e == Hung then [] else [Stopped(ClickerRun)])
      && InputsOf(t) == InputsOf(body)
      && Waits(t) == Waits(body)
  {
    var head := [SetRunning(ClickerRun, true)];
    var fin := Finish(e, ClickerCleanup, ClickerRun);
    assert Notices(head) == [] && InputsOf(head) == [] && Waits(head) == [] by {
      assert head[1..] == [];
    }
    FinishFrame(e);
    ProjectAppend(body, fin);
    ProjectAppend(head, body + fin);
  }

  lemma FinishFrame(e: Ending)
    ensures var fin := Finish(e, ClickerCleanup, ClickerRun);
      Notices(fin) == (if e == Hung then [] else [Stopped(ClickerRun)]) && InputsOf(fin) == [] && Waits(fin) == []
  {
    CleanupStops();
    if e == Faulted {
      ProjectAppend(ClickerCleanup, [Fault(ClickerRun)]);
      assert [Fault(ClickerRun)][1..] == [];
    }
  }

  /**
   * Any run, stopped or not: the clicks made before the Stop or the first
   * negative interval, reported 1, 2, 3, … in order, then Stopped unless
   * the run hangs; the input is that many clicks and nothing else.
   */
  lemma RunEvents(c: Clicker, s: ClickerSettings, fuel: nat, stop: nat)
    requires !c.isRunning
    ensures var t := StartAsync(c, s, fuel, stop).1;
      var k := HaltAt(Clicks(s, 0, fuel), stop);
      var m := Min((k + 1) / 2, Total(s, 0, fuel));
      && Notices(t) == Counted(1, m) + (if ClickerEnding(s, fuel, stop) == Hung then [] else [Stopped(ClickerRun)])
      && InputsOf(t) == Times(ClickInputs(s), m)
      && Waits(t) == Repeat(s.intervalMs, Min(k / 2, WaitTotal(s, 0, fuel)))
  {
    var body := Clicks(s, 0, fuel);
    var k := HaltAt(body, stop);
    var e := ClickerEnding(s, fuel, stop);
    var t := StartAsync(c, s, fuel, stop).1;
    assert t == [SetRunning(ClickerRun, true)] + (CutAt(body, k) + Finish(e, ClickerCleanup, ClickerRun)) by {
      ClicksNoStop(s, 0, fuel);
      HaltedCut(body, stop, stop < |body|, ClickerCleanup, ClickerRun);
    }
    assert CutFacts(s, 0, fuel, k) by {
      CutClicks(s, 0, fuel, k);
    }
    FramedCut(s, fuel, k, e, t);
  }

  /** The projections of a run that stopped after `k` steps of the schedule and then finished with `e`. */
  lemma FramedCut(s: ClickerSettings, fuel: nat, k: nat, e: Ending, t: seq<Step>)
    requires CutFacts(s, 0, fuel, k)
    requires t == [SetRunning(ClickerRun, true)] + (CutAt(Clicks(s, 0, fuel), k) + Finish(e, ClickerCleanup, ClickerRun))
    ensures var m := Min((k + 1) / 2, Total(s, 0, fuel));
      && Notices(t) == Counted(1, m) + (if e == Hung then [] else [Stopped(ClickerRun)])
      && InputsOf(t) == Times(ClickInputs(s), m)
      && Waits(t) == Repeat(s.intervalMs, Min(k / 2, WaitTotal(s, 0, fuel)))
  {
    RunFrame(CutAt(Clicks(s, 0, fuel), k), e);
  }

  /**
   * A counted run that is not stopped clicks max(RepeatCount, 1) times (the
   * first click comes before the check), reports each count, and waits the
   * interval only between clicks. With a negative interval and more than
   * one click to make, it clicks once: an interval below -1 faults the
   * task, -1 leaves the clicker running for good.
   */
  lemma CountedRun(c: Clicker, s: ClickerSettings, fuel: nat, stop: nat)
    requires !c.isRunning && s.repeatMode == Count
    requires fuel >= Max(s.repeatCount, 1) && stop >= 2 * Max(s.repeatCount, 1)
    ensures var t := StartAsync(c, s, fuel, stop).1;
      var k := Max(s.repeatCount, 1);
      var done := if s.intervalMs < 0 then 1 else k;
      && ClickerEnding(s, fuel, stop)
         == (if s.intervalMs >= 0 || k == 1 then Completed else if s.intervalMs == -1 then Hung else Faulted)
      && Notices(t) == Counted(1, done) + (if ClickerEnding(s, fuel, stop) == Hung then [] else [Stopped(ClickerRun)])
      && (forall i :: 0 <= i < done ==> Notices(t)[i] == ClickPerformed(i + 1))
      && InputsOf(t) == Times(ClickInputs(s), done)
      && Waits(t) == Repeat(s.intervalMs, done - 1)
  {
    var k := Max(s.repeatCount, 1);
    var done := if s.intervalMs < 0 then 1 else k;
    var h := HaltAt(Clicks(s, 0, fuel), stop);
    CountedHalt(s, fuel, stop);
    assert Min((h + 1) / 2, Total(s, 0, fuel)) == done && Min(h / 2, WaitTotal(s, 0, fuel)) == done - 1 by {
      if s.intervalMs >= 0 {
        assert h == 2 * k - 1;
      }
    }
    RunCounts(c, s, fuel, stop, done, done - 1);
    var fin := if ClickerEnding(s, fuel, stop) == Hung then [] else [Stopped(ClickerRun)];
    CountedFromOne(Notices(StartAsync(c, s, fuel, stop).1), done, fin);
  }

  /** RunEvents with the clicks `m` and waits `w` it reaches already worked out. */
  lemma RunCounts(c: Clicker, s: ClickerSettings, fuel: nat, stop: nat, m: nat, w: nat)
    requires !c.isRunning
    requires Min((HaltAt(Clicks(s, 0, fuel), stop) + 1) / 2, Total(s, 0, fuel)) == m
    requires Min(HaltAt(Clicks(s, 0, fuel), stop) / 2, WaitTotal(s, 0, fuel)) == w
    ensures var t := StartAsync(c, s, fuel, stop).1;
      && Notices(t) == Counted(1, m) + (if ClickerEnding(s, fuel, stop) == Hung then [] else [Stopped(ClickerRun)])
      && InputsOf(t) == Times(ClickInputs(s), m)
      && Waits(t) == Repeat(s.intervalMs, w)
  {
    RunEvents(c, s, fuel, stop);
  }

  /** Reports counted from one, below the 32-bit limit, number the clicks 1, 2, ... */
  lemma CountedFromOne(ns: seq<Notice>, done: nat, fin: seq<Notice>)
    requires ns == Counted(1, done) + fin && done <= Int32Max
    ensures forall i :: 0 <= i < done ==> ns[i] == ClickPerformed(i + 1)
  {
    forall i | 0 <= i < done
      ensures ns[i] == ClickPerformed(i + 1)
    {
      assert ns[i] == Counted(1, done)[i];
      assert WrapInt32(1 + i) == i + 1;
    }
  }

  /** Where a counted run that is not stopped halts, and how it ends. */
  lemma CountedHalt(s: ClickerSettings, fuel: nat, stop: nat)
    requires s.repeatMode == Count
    requires fuel >= Max(s.repeatCount, 1) && stop >= 2 * Max(s.repeatCount, 1)
    ensures var k := Max(s.repeatCount, 1);
      && HaltAt(Clicks(s, 0, fuel), stop) == (if s.intervalMs < 0 then 1 else 2 * k - 1)
      && Total(s, 0, fuel) == k && WaitTotal(s, 0, fuel) == k - 1
      && ClickerEnding(s, fuel, stop)
         == (if s.intervalMs >= 0 || k == 1 then Completed else if s.intervalMs == -1 then Hung else Faulted)
  {
    var k := Max(s.repeatCount, 1);
    var body := Clicks(s, 0, fuel);
    assert CountEnds(s, 0, fuel);
    ClicksLength(s, 0, fuel);
    assert |body| == 2 * k - 1;
    ClicksStall(s, 0, fuel);
    if s.intervalMs >= 0 {
      assert Stall(body) == |body|;
    }
  }

  /**
   * An endless run makes one click per unit of fuel it is given until it
   * is stopped; with a negative interval it clicks once and then faults
   * (below -1) or waits for good (-1).
   */
  lemma EndlessRun(c: Clicker, s: ClickerSettings, fuel: nat, stop: nat)
    requires !c.isRunning && s.repeatMode == Infinite && stop >= 2 * fuel
    ensures var t := StartAsync(c, s, fuel, stop).1;
      var f := if s.intervalMs < 0 then Min(fuel, 1) else fuel;
      && ClickerEnding(s, fuel, stop)
         == (if s.intervalMs >= 0 || fuel == 0 then Completed else if s.intervalMs == -1 then Hung else Faulted)
      && Notices(t) == Counted(1, f) + (if ClickerEnding(s, fuel, stop) == Hung then [] else [Stopped(ClickerRun)])
      && InputsOf(t) == Times(ClickInputs(s), f)
      && Waits(t) == Repeat(s.intervalMs, if s.intervalMs < 0 then 0 else fuel)
  {
    var k := HaltAt(Clicks(s, 0, fuel), stop);
    var f := if s.intervalMs < 0 then Min(fuel, 1) else fuel;
    var w := if s.intervalMs < 0 then 0 else fuel;
    EndlessHalt(s, fuel, stop);
    assert Min((k + 1) / 2, Total(s, 0, fuel)) == f && Min(k / 2, WaitTotal(s, 0, fuel)) == w by {
      if s.intervalMs >= 0 {
        assert k == 2 * fuel;
      }
    }
    RunCounts(c, s, fuel, stop, f, w);
  }

  /** Where an endless run halts within its fuel, and how it ends. */
  lemma EndlessHalt(s: ClickerSettings, fuel: nat, stop: nat)
    requires s.repeatMode == Infinite && stop >= 2 * fuel
    ensures HaltAt(Clicks(s, 0, fuel), stop) == (if s.intervalMs < 0 then Min(fuel, 1) else 2 * fuel)
    ensures Total(s, 0, fuel) == fuel && WaitTotal(s, 0, fuel) == fuel
    ensures ClickerEnding(s, fuel, stop)
            == (if s.intervalMs >= 0 || fuel == 0 then Completed else if s.intervalMs == -1 then Hung else Faulted)
  {
    var body := Clicks(s, 0, fuel);
    ClicksLength(s, 0, fuel);
    assert |body| == 2 * fuel;
    ClicksStall(s, 0, fuel);
    if s.intervalMs >= 0 {
      assert Stall(body) == |body|;
    }
  }
}
