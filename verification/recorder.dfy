/**
 * The macro recorder: a polling loop that turns cursor moves and button
 * presses into timed records, and a playback that replays them.
 *
 * One poll of the loop is a pure function of what it remembers from the
 * previous poll and of the sample it takes (cursor, clock, buttons). The
 * loop's cancellation is the end of the sample sequence.
 */
module RecorderService {
  import opened Basics
  import opened Input
  import opened Trace
  import opened Models

  datatype Recorder = Recorder(records: seq<RecordedAction>, isRecording: bool, isPlaying: bool, lastTimestamp: int)

  const NewRecorder := Recorder([], false, false, 0)

  // ------------------------------------------------------------ flags and list

  /** Starting clears the list and the clock baseline; a second start changes nothing. */
  function StartRecording(r: Recorder): (res: Recorder)
    ensures r.isRecording ==> res == r
    ensures !r.isRecording ==> res == Recorder([], true, r.isPlaying, 0)
  {
    if r.isRecording then r else Recorder([], true, r.isPlaying, 0)
  }

  /** Stopping keeps the records and says so once; it does nothing when not recording. */
  function StopRecording(r: Recorder): (res: (Recorder, seq<Step>))
    ensures !r.isRecording ==> res == (r, [])
    ensures r.isRecording ==> res.0 == r.(isRecording := false) && Notices(res.1) == [RecordingStopped]
  {
    if !r.isRecording then (r, [])
    else
      var t := [Notify(RecordingStopped)];
      assert Notices(t) == [RecordingStopped] + Notices([]);
      (r.(isRecording := false), t)
  }

  /** Only the list is emptied; the clock baseline stays. */
  function ClearRecording(r: Recorder): (res: Recorder)
    ensures res.records == [] && res.(records := r.records) == r
  {
    r.(records := [])
  }

  /** The list becomes exactly the given one. */
  function LoadActions(r: Recorder, actions: seq<RecordedAction>): (res: Recorder)
    ensures res.records == actions && res.(records := r.records) == r
  {
    r.(records := actions)
  }

  lemma StartStopKeepsRecords(r: Recorder)
    requires !r.isRecording
    ensures StopRecording(StartRecording(r)).0 == Recorder([], false, r.isPlaying, 0)
    ensures StartRecording(StartRecording(r)) == StartRecording(r)
    ensures StopRecording(StopRecording(StartRecording(r)).0).1 == []
  {
  }

  // ------------------------------------------------------------ one poll

  /** What the loop remembers between polls: the cursor and the three buttons' last state. */
  datatype Poll = Poll(lastPos: Point, left: bool, right: bool, middle: bool)

  /** What one poll reads: the cursor, the clock in milliseconds, and whether each button is down. */
  datatype Sample = Sample(pos: Point, time: int64, left: bool, right: bool, middle: bool)

  /** The remembered state when the loop starts: the cursor where it is, no button down. */
  function StartPoll(at: Point): Poll {
    Poll(at, false, false, false)
  }

  /** A record taken at the sample's place and time; its delay is the time since `lastTs`, cast to an `int`. */
  function Stamp(kind: RecordedType, b: Button, s: Sample, lastTs: int): (a: RecordedAction)
    ensures a.kind == kind && a.mouseButton == b && a.timestamp == s.time
    ensures a.x == s.pos.x && a.y == s.pos.y
    ensures InInt32(s.time - lastTs) ==> a.delayFromPrevious == s.time - lastTs
  {
    RecordedAction(kind, s.time, WrapInt32(s.time - lastTs), s.pos.x, s.pos.y, b, 0, false)
  }

  /** The records of one poll and the clock baseline after them. */
  datatype Added = Added(records: seq<RecordedAction>, lastTs: int)

  /** Records one more, when `cond`, moving the baseline to its time. */
  function Emit(acc: Added, cond: bool, kind: RecordedType, b: Button, s: Sample): Added {
    if cond then Added(acc.records + [Stamp(kind, b, s, acc.lastTs)], s.time) else acc
  }

  /** The move record first, when the cursor moved, then the left, right and middle click records. */
  function Tick(p: Poll, lastTs: int, s: Sample): (res: (Poll, Added))
    ensures res.0 == Poll(s.pos, s.left, s.right, s.middle)
  {
    var moved := s.pos != p.lastPos;
    var a1 := Emit(Added([], lastTs), moved, MoveRecord, Left, s);
    var a2 := Emit(a1, s.left && !p.left, ClickRecord, Left, s);
    var a3 := Emit(a2, s.right && !p.right, ClickRecord, Right, s);
    var a4 := Emit(a3, s.middle && !p.middle, ClickRecord, Middle, s);
    (Poll(s.pos, s.left, s.right, s.middle), a4)
  }

  /** The kind and button of each record a poll takes, as a reference: one per change seen. */
  function Expected(p: Poll, s: Sample): seq<(RecordedType, Button)> {
    (if s.pos != p.lastPos then [(MoveRecord, Left)] else [])
    + (if s.left && !p.left then [(ClickRecord, Left)] else [])
    + (if s.right && !p.right then [(ClickRecord, Right)] else [])
    + (if s.middle && !p.middle then [(ClickRecord, Middle)] else [])
  }

  /** The records of a poll so far: `exp` in order, all at the sample, only the first with a delay. */
  predicate Shaped(a: Added, exp: seq<(RecordedType, Button)>, s: Sample, lastTs: int) {
    && |a.records| == |exp|
    && (forall i :: 0 <= i < |a.records| ==>
          (a.records[i].kind, a.records[i].mouseButton) == exp[i]
          && a.records[i].timestamp == s.time && a.records[i].x == s.pos.x && a.records[i].y == s.pos.y
          && a.records[i].delayFromPrevious == (if i == 0 then s.time - lastTs else 0))
    && a.lastTs == (if |a.records| > 0 then s.time else lastTs)
  }

  /**
   * A poll records, in order, a move when the cursor moved and a click for
   * each button that went down since the last poll (a button held down is
   * not clicked again), all at the sampled place and time. The first
   * record's delay is the time since the previous record, the others' 0,
   * and the baseline moves to this poll's time when anything was recorded.
   */
  lemma TickRecords(p: Poll, lastTs: int, s: Sample)
    requires InInt32(s.time - lastTs)
    ensures Shaped(Tick(p, lastTs, s).1, Expected(p, s), s, lastTs)
  {
    var moved := s.pos != p.lastPos;
    var e1: seq<(RecordedType, Button)> := if moved then [(MoveRecord, Left)] else [];
    var e2: seq<(RecordedType, Button)> := if s.left && !p.left then [(ClickRecord, Left)] else [];
    var e3: seq<(RecordedType, Button)> := if s.right && !p.right then [(ClickRecord, Right)] else [];
    var e4: seq<(RecordedType, Button)> := if s.middle && !p.middle then [(ClickRecord, Middle)] else [];
    var a0 := Added([], lastTs);
    var a1 := Emit(a0, moved, MoveRecord, Left, s);
    var a2 := Emit(a1, s.left && !p.left, ClickRecord, Left, s);
    var a3 := Emit(a2, s.right && !p.right, ClickRecord, Right, s);
    EmitStep(a0, [], moved, MoveRecord, Left, s, lastTs);
    assert [] + e1 == e1;
    EmitStep(a1, e1, s.left && !p.left, ClickRecord, Left, s, lastTs);
    EmitStep(a2, e1 + e2, s.right && !p.right, ClickRecord, Right, s, lastTs);
    EmitStep(a3, e1 + e2 + e3, s.middle && !p.middle, ClickRecord, Middle, s, lastTs);
  }

  lemma EmitStep(acc: Added, exp: seq<(RecordedType, Button)>, cond: bool, kind: RecordedType, b: Button, s: Sample, lastTs: int)
    requires InInt32(s.time - lastTs)
    requires Shaped(acc, exp, s, lastTs)
    ensures Shaped(Emit(acc, cond, kind, b, s), exp + (if cond then [(kind, b)] else []), s, lastTs)
  {
    if cond {
      assert WrapInt32(0) == 0;
    } else {
      assert exp + [] == exp;
    }
  }

  /** A button held across polls is clicked once, at the poll where it went down. */
  lemma HeldButtonClicksOnce(p: Poll, lastTs: int, s1: Sample, s2: Sample)
    requires s1.left && s2.left && s1.pos == s2.pos
    ensures var (q, _) := Tick(p, lastTs, s1); Tick(q, lastTs, s2).1.records == [] <==> !(s2.right && !s1.right) && !(s2.middle && !s1.middle)
  {
  }

  // ------------------------------------------------------------ the loop

  /** The polls of a recording, from the loop's start up to its cancellation. */
  function Recording(p: Poll, lastTs: int, samples: seq<Sample>): (res: Added)
    decreases |samples|
  {
    if |samples| == 0 then Added([], lastTs)
    else
      var (q, a) := Tick(p, lastTs, samples[0]);
      var rest := Recording(q, a.lastTs, samples[1..]);
      Added(a.records + rest.records, rest.lastTs)
  }

  /** The time from the record before record i (from `base` for the first) to record i. */
  function Gap(recs: seq<RecordedAction>, base: int, i: int): int
    requires 0 <= i < |recs|
  {
    recs[i].timestamp - (if i == 0 then base else recs[i - 1].timestamp)
  }

  /** Each record's delay is its time minus the previous record's, or minus `base` for the first. */
  predicate Chained(recs: seq<RecordedAction>, base: int) {
    forall i :: 0 <= i < |recs| ==>
      recs[i].delayFromPrevious == WrapInt32(Gap(recs, base, i))
  }

  function LastTime(recs: seq<RecordedAction>, base: int): int {
    if |recs| == 0 then base else recs[|recs| - 1].timestamp
  }

  /** The records so far are chained from `base`, and the baseline is the last one's time. */
  predicate ChainedFrom(acc: Added, base: int) {
    Chained(acc.records, base) && acc.lastTs == LastTime(acc.records, base)
  }

  lemma ChainedSnoc(recs: seq<RecordedAction>, base: int, x: RecordedAction)
    requires Chained(recs, base)
    requires x.delayFromPrevious == WrapInt32(x.timestamp - LastTime(recs, base))
    ensures Chained(recs + [x], base) && LastTime(recs + [x], base) == x.timestamp
  {
    var c := recs + [x];
    forall i | 0 <= i < |c|
      ensures c[i].delayFromPrevious == WrapInt32(Gap(c, base, i))
    {
      if i < |recs| {
        assert c[i] == recs[i];
        assert recs[i].delayFromPrevious == WrapInt32(Gap(recs, base, i));
        assert Gap(c, base, i) == Gap(recs, base, i) by {
          if i > 0 {
            assert c[i - 1] == recs[i - 1];
          }
        }
      } else {
        assert i == |recs| && c[i] == x;
        assert Gap(c, base, i) == x.timestamp - LastTime(recs, base) by {
          if i > 0 {
            assert c[i - 1] == recs[|recs| - 1];
          }
        }
        assert x.delayFromPrevious == WrapInt32(x.timestamp - LastTime(recs, base));
      }
    }
  }

  lemma EmitChained(acc: Added, base: int, cond: bool, kind: RecordedType, b: Button, s: Sample)
    requires ChainedFrom(acc, base)
    ensures ChainedFrom(Emit(acc, cond, kind, b, s), base)
  {
    if cond {
      ChainedSnoc(acc.records, base, Stamp(kind, b, s, acc.lastTs));
    }
  }

  lemma TickChained(p: Poll, lastTs: int, s: Sample)
    ensures ChainedFrom(Tick(p, lastTs, s).1, lastTs)
  {
    var moved := s.pos != p.lastPos;
    var a0 := Added([], lastTs);
    var a1 := Emit(a0, moved, MoveRecord, Left, s);
    var a2 := Emit(a1, s.left && !p.left, ClickRecord, Left, s);
    var a3 := Emit(a2, s.right && !p.right, ClickRecord, Right, s);
    EmitChained(a0, lastTs, moved, MoveRecord, Left, s);
    EmitChained(a1, lastTs, s.left && !p.left, ClickRecord, Left, s);
    EmitChained(a2, lastTs, s.right && !p.right, ClickRecord, Right, s);
    EmitChained(a3, lastTs, s.middle && !p.middle, ClickRecord, Middle, s);
  }

  lemma ChainedAppend(a: seq<RecordedAction>, b: seq<RecordedAction>, base: int)
    requires Chained(a, base) && Chained(b, LastTime(a, base))
    ensures Chained(a + b, base) && LastTime(a + b, base) == LastTime(b, LastTime(a, base))
  {
    var c := a + b;
    forall i | 0 <= i < |c|
      ensures c[i].delayFromPrevious == WrapInt32(Gap(c, base, i))
    {
      if i >= |a| {
        ChainedRight(a, b, base, i);
      } else {
        ChainedLeft(a, b, base, i);
      }
    }
  }

  lemma ChainedLeft(a: seq<RecordedAction>, b: seq<RecordedAction>, base: int, i: nat)
    requires Chained(a, base) && i < |a|
    ensures (a + b)[i].delayFromPrevious == WrapInt32(Gap(a + b, base, i))
  {
    var c := a + b;
    assert c[i] == a[i];
    assert Gap(c, base, i) == Gap(a, base, i) by {
      if i > 0 {
        assert c[i - 1] == a[i - 1];
      }
    }
    assert a[i].delayFromPrevious == WrapInt32(Gap(a, base, i));
  }

  lemma ChainedRight(a: seq<RecordedAction>, b: seq<RecordedAction>, base: int, i: nat)
    requires Chained(b, LastTime(a, base)) && |a| <= i < |a| + |b|
    ensures (a + b)[i].delayFromPrevious == WrapInt32(Gap(a + b, base, i))
  {
    var c := a + b;
    var j := i - |a|;
    assert c[i] == b[j];
    assert Gap(c, base, i) == Gap(b, LastTime(a, base), j) by {
      if j > 0 {
        assert c[i - 1] == b[j - 1];
      } else if i > 0 {
        assert c[i - 1] == a[|a| - 1];
      }
    }
    assert b[j].delayFromPrevious == WrapInt32(Gap(b, LastTime(a, base), j));
  }

  /** The delays telescope across polls: every record's delay is the time since the record before it. */
  lemma {:induction false} RecordingChained(p: Poll, lastTs: int, samples: seq<Sample>)
    ensures var a := Recording(p, lastTs, samples); Chained(a.records, lastTs) && a.lastTs == LastTime(a.records, lastTs)
    decreases |samples|
  {
    if |samples| > 0 {
      var (q, a) := Tick(p, lastTs, samples[0]);
      TickChained(p, lastTs, samples[0]);
      RecordingChained(q, a.lastTs, samples[1..]);
      ChainedAppend(a.records, Recording(q, a.lastTs, samples[1..]).records, lastTs);
    }
  }

  /** A recording session: start, poll through the samples, and the list the poll built. */
  function Record(r: Recorder, start: Point, samples: seq<Sample>): (res: Recorder)
    ensures r.isRecording ==> res == r
    ensures !r.isRecording ==> res.isRecording && res.isPlaying == r.isPlaying
    ensures !r.isRecording ==> Chained(res.records, 0) && res.lastTimestamp == LastTime(res.records, 0)
  {
    if r.isRecording then r
    else
      var r0 := StartRecording(r);
      var a := Recording(StartPoll(start), r0.lastTimestamp, samples);
      RecordingChained(StartPoll(start), 0, samples);
      r0.(records := a.records, lastTimestamp := a.lastTs)
  }

  function SumDelays(recs: seq<RecordedAction>): int
    decreases |recs|
  {
    if |recs| == 0 then 0 else SumDelays(recs[..|recs| - 1]) + recs[|recs| - 1].delayFromPrevious
  }

  /** Successive times no further apart than an `int` holds. */
  predicate NoWrap(recs: seq<RecordedAction>, base: int) {
    forall i :: 0 <= i < |recs| ==> InInt32(Gap(recs, base, i))
  }

  /** The delays add up to the last record's time since the baseline. */
  lemma {:induction false} DelaysTelescope(recs: seq<RecordedAction>, base: int)
    requires Chained(recs, base) && NoWrap(recs, base)
    ensures SumDelays(recs) == LastTime(recs, base) - base
    decreases |recs|
  {
    if |recs| > 0 {
      var init := recs[..|recs| - 1];
      assert Chained(init, base) && NoWrap(init, base) by {
        forall i | 0 <= i < |init|
          ensures Gap(init, base, i) == Gap(recs, base, i)
        {
          assert init[i] == recs[i];
          if i > 0 {
            assert init[i - 1] == recs[i - 1];
          }
        }
      }
      DelaysTelescope(init, base);
      var j := |recs| - 1;
      assert LastTime(init, base) == recs[j].timestamp - Gap(recs, base, j);
      assert InInt32(Gap(recs, base, j));
      assert recs[j].delayFromPrevious == WrapInt32(Gap(recs, base, j));
    }
  }

  // ------------------------------------------------------------ playback

  /** The delay waited before a record, the recorded one divided by the speed (truncating, as the cast does). */
  function PlayDelay(d: int, speed: nat): (w: int)
    requires speed >= 1
    ensures speed == 1 ==> w == d
    ensures d >= 0 ==> 0 <= w <= d
  {
    DivAtMost(d, speed);
    TruncDiv(d, speed)
  }

  lemma DivAtMost(a: int, d: int)
    requires d >= 1
    ensures a >= 0 ==> a / d <= a
  {
    if a >= 0 {
      var q, r := a / d, a % d;
      assert a == d * q + r && r >= 0;
      assert q >= 0;
      MulAtLeast(q, d);
    }
  }

  lemma {:induction false} MulAtLeast(q: nat, d: int)
    requires d >= 1
    ensures d * q >= q
    decreases d
  {
    if d > 1 {
      MulAtLeast(q, d - 1);
      assert d * q == (d - 1) * q + q;
    }
  }

  /** Replaying one record: a move, a single click at its place, or one key transition. */
  function Perform(a: RecordedAction): (evs: seq<InputEvent>)
    ensures |evs| > 0
    ensures a.kind != KeyRecord ==> evs[0] == SetCursor(Point(a.x, a.y))
  {
    match a.kind
    case MoveRecord => [SetCursor(Point(a.x, a.y))]
    case ClickRecord => MouseClickAt(Point(a.x, a.y), a.mouseButton, false)
    case KeyRecord => if a.isKeyDown then [KeyDown(a.keyCode)] else [KeyUp(a.keyCode)]
  }

  /** Per record: the token check, the wait when positive, then the record. */
  function PlayBlock(a: RecordedAction, speed: nat): Block
    requires speed >= 1
  {
    var w := PlayDelay(a.delayFromPrevious, speed);
    Plain((if w > 0 then [Wait(w)] else []) + Inputs(Perform(a)))
  }

  function PlayBlocks(recs: seq<RecordedAction>, speed: nat): (bs: seq<Block>)
    requires speed >= 1
    ensures |bs| == |recs| && forall i :: 0 <= i < |recs| ==> bs[i] == PlayBlock(recs[i], speed)
  {
    seq(|recs|, i requires 0 <= i < |recs| => PlayBlock(recs[i], speed))
  }

  const PlayStart: seq<Step> := [SetRunning(PlaybackRun, true)]
  const PlayCleanup: seq<Step> := [SetRunning(PlaybackRun, false), Notify(Stopped(PlaybackRun))]

  /**
   * One call: nothing while playing or with no records; otherwise the
   * records in order, cut by a StopPlayback seen before record `stop`, then
   * not playing and one PlaybackStopped.
   */
  function PlayAsync(r: Recorder, speed: nat, stop: nat): (res: (Recorder, seq<Step>))
    requires speed >= 1
    ensures r.isPlaying || |r.records| == 0 ==> res == (r, [])
    ensures !r.isPlaying && |r.records| > 0 ==>
      && res.0 == r
      && res.1 == PlayStart + CutAt(PlayBlocks(r.records, speed), stop) + PlayCleanup
      && StopCount(Notices(res.1), PlaybackRun) == 1
      && Notices(res.1)[|Notices(res.1)| - 1] == Stopped(PlaybackRun)
  {
    if r.isPlaying || |r.records| == 0 then (r, [])
    else
      PlayStops(r.records, speed, stop);
      (r, PlayStart + CutAt(PlayBlocks(r.records, speed), stop) + PlayCleanup)
  }

  /** Playback raises PlaybackStopped once, at the very end. */
  lemma PlayStops(recs: seq<RecordedAction>, speed: nat, stop: nat)
    requires speed >= 1
    ensures var t := PlayStart + CutAt(PlayBlocks(recs, speed), stop) + PlayCleanup;
      StopCount(Notices(t), PlaybackRun) == 1 && Notices(t)[|Notices(t)| - 1] == Stopped(PlaybackRun)
  {
    var body := CutAt(PlayBlocks(recs, speed), stop);
    assert NoStop(body, PlaybackRun) by {
      PlayQuiet(recs[..Min(stop, |recs|)], speed);
      PlayCut(recs, speed, stop);
    }
    assert NoStop(PlayStart, PlaybackRun) by {
      NoticesOne(PlayStart[0]);
    }
    assert Notices(PlayCleanup) == [Stopped(PlaybackRun)] by {
      assert PlayCleanup == [PlayCleanup[0]] + [PlayCleanup[1]];
      NoticesAppend([PlayCleanup[0]], [PlayCleanup[1]]);
      NoticesOne(PlayCleanup[0]);
      NoticesOne(PlayCleanup[1]);
    }
    OneStopAtEnd(PlayStart, body, PlayCleanup, PlaybackRun);
  }

  /** The input of replaying records, in order. */
  function Played(recs: seq<RecordedAction>): seq<InputEvent>
    decreases |recs|
  {
    if |recs| == 0 then [] else Played(recs[..|recs| - 1]) + Perform(recs[|recs| - 1])
  }

  /** The positive waits of replaying records, in order. */
  function PlayWaits(recs: seq<RecordedAction>, speed: nat): seq<int>
    requires speed >= 1
    decreases |recs|
  {
    if |recs| == 0 then []
    else
      var w := PlayDelay(recs[|recs| - 1].delayFromPrevious, speed);
      PlayWaits(recs[..|recs| - 1], speed) + (if w > 0 then [w] else [])
  }

  lemma PlayBlockShape(a: RecordedAction, speed: nat)
    requires speed >= 1
    ensures var w := PlayDelay(a.delayFromPrevious, speed);
      && InputsOf(PlayBlock(a, speed).steps) == Perform(a)
      && Waits(PlayBlock(a, speed).steps) == (if w > 0 then [w] else [])
      && Notices(PlayBlock(a, speed).steps) == []
  {
    var w := PlayDelay(a.delayFromPrevious, speed);
    var h: seq<Step> := if w > 0 then [Wait(w)] else [];
    InputsOfInputs(Perform(a));
    InputsOfAppend(h, Inputs(Perform(a)));
    WaitsAppend(h, Inputs(Perform(a)));
    NoticesAppend(h, Inputs(Perform(a)));
    if w > 0 {
      NoticesOne(Wait(w));
      assert InputsOf([Wait(w)]) == [] + InputsOf([]);
      assert Waits([Wait(w)]) == [w] + Waits([]);
    }
  }

  /** Playing records raises no event; its input is the records' own and its waits the positive delays. */
  lemma {:induction false} PlayQuiet(recs: seq<RecordedAction>, speed: nat)
    requires speed >= 1
    ensures Notices(Flat(PlayBlocks(recs, speed))) == []
    ensures InputsOf(Flat(PlayBlocks(recs, speed))) == Played(recs)
    ensures Waits(Flat(PlayBlocks(recs, speed))) == PlayWaits(recs, speed)
    decreases |recs|
  {
    if |recs| > 0 {
      var init := recs[..|recs| - 1];
      var last := recs[|recs| - 1];
      var a := Flat(PlayBlocks(init, speed));
      var b := PlayBlock(last, speed).steps;
      assert Flat(PlayBlocks(recs, speed)) == a + b by {
        assert PlayBlocks(recs, speed) == PlayBlocks(init, speed) + [PlayBlock(last, speed)];
        FlatAppend(PlayBlocks(init, speed), [PlayBlock(last, speed)]);
        assert Flat([PlayBlock(last, speed)]) == b + Flat([]);
      }
      var w := PlayDelay(last.delayFromPrevious, speed);
      assert Notices(a) == [] && InputsOf(a) == Played(init) && Waits(a) == PlayWaits(init, speed) by {
        PlayQuiet(init, speed);
      }
      assert Notices(b) == [] && InputsOf(b) == Perform(last) && Waits(b) == (if w > 0 then [w] else []) by {
        PlayBlockShape(last, speed);
      }
      assert Played(recs) == Played(init) + Perform(last);
      assert PlayWaits(recs, speed) == PlayWaits(init, speed) + (if w > 0 then [w] else []);
      assert Notices(a + b) == Notices(a) + Notices(b) by {
        NoticesAppend(a, b);
      }
      assert InputsOf(a + b) == InputsOf(a) + InputsOf(b) by {
        InputsOfAppend(a, b);
      }
      assert Waits(a + b) == Waits(a) + Waits(b) by {
        WaitsAppend(a, b);
      }
    }
  }

  /** A cut before record k is the first k records in full: nothing after the Stop is replayed. */
  lemma PlayCut(recs: seq<RecordedAction>, speed: nat, k: nat)
    requires speed >= 1
    ensures CutAt(PlayBlocks(recs, speed), k) == Flat(PlayBlocks(recs[..Min(k, |recs|)], speed))
  {
    if k < |recs| {
      assert PlayBlocks(recs, speed)[..k] == PlayBlocks(recs[..k], speed);
    } else {
      assert recs[..|recs|] == recs;
    }
  }

  /**
   * What a playback does: the first `stop` records (all of them without a
   * Stop), each after its positive scaled delay, and no other input or wait.
   */
  lemma PlayEffects(r: Recorder, speed: nat, stop: nat)
    requires speed >= 1 && !r.isPlaying && |r.records| > 0
    ensures var t := PlayAsync(r, speed, stop).1;
      && InputsOf(t) == Played(r.records[..Min(stop, |r.records|)])
      && Waits(t) == PlayWaits(r.records[..Min(stop, |r.records|)], speed)
  {
    var played := r.records[..Min(stop, |r.records|)];
    var body := CutAt(PlayBlocks(r.records, speed), stop);
    assert body == Flat(PlayBlocks(played, speed)) by {
      PlayCut(r.records, speed, stop);
    }
    PlayQuiet(played, speed);
    assert PlayAsync(r, speed, stop).1 == PlayStart + body + PlayCleanup;
    assert InputsOf(PlayStart) == [] && Waits(PlayStart) == [] by {
      assert PlayStart[1..] == [];
    }
    assert InputsOf(PlayCleanup) == [] && Waits(PlayCleanup) == [] by {
      assert PlayCleanup[1..][1..] == [];
    }
    assert InputsOf(PlayStart + body + PlayCleanup) == InputsOf(body) by {
      InputsOfAppend(PlayStart, body);
      InputsOfAppend(PlayStart + body, PlayCleanup);
    }
    assert Waits(PlayStart + body + PlayCleanup) == Waits(body) by {
      WaitsAppend(PlayStart, body);
      WaitsAppend(PlayStart + body, PlayCleanup);
    }
  }

  /** Where the replayed records leave the cursor: the place of the last move or click, else where it was. */
  function LastPlace(start: Point, recs: seq<RecordedAction>): Point
    decreases |recs|
  {
    if |recs| == 0 then start
    else if recs[|recs| - 1].kind == KeyRecord then LastPlace(start, recs[..|recs| - 1])
    else Point(recs[|recs| - 1].x, recs[|recs| - 1].y)
  }

  lemma PerformCursor(at: Point, a: RecordedAction)
    ensures CursorAfter(at, Perform(a)) == if a.kind == KeyRecord then at else Point(a.x, a.y)
  {
    var evs := Perform(a);
    if a.kind == ClickRecord {
      var q := Point(a.x, a.y);
      assert evs == [SetCursor(q), MouseDown(a.mouseButton), MouseUp(a.mouseButton)];
      assert CursorAfter(at, evs) == CursorAfter(q, evs[1..]);
      assert CursorAfter(q, evs[1..]) == CursorAfter(q, evs[1..][1..]);
      assert CursorAfter(q, evs[1..][1..]) == CursorAfter(q, evs[1..][1..][1..]);
      assert evs[1..][1..][1..] == [];
    } else {
      assert evs[1..] == [];
    }
  }

  /** A full replay leaves the cursor where the last move or click record put it. */
  lemma {:induction false} PlayedCursor(start: Point, recs: seq<RecordedAction>)
    ensures CursorAfter(start, Played(recs)) == LastPlace(start, recs)
    decreases |recs|
  {
    if |recs| > 0 {
      var init := recs[..|recs| - 1];
      PlayedCursor(start, init);
      CursorAfterAppend(start, Played(init), Perform(recs[|recs| - 1]));
      PerformCursor(CursorAfter(start, Played(init)), recs[|recs| - 1]);
    }
  }

  // ------------------------------------------------------------ record, then replay

  /** A replay at speed 1 waits each record's own delay when positive. */
  lemma {:induction false} WaitsAtSpeedOne(recs: seq<RecordedAction>)
    requires forall i :: 0 <= i < |recs| ==> recs[i].delayFromPrevious >= 0
    ensures Sum(PlayWaits(recs, 1)) == SumDelays(recs)
    decreases |recs|
  {
    if |recs| > 0 {
      var init := recs[..|recs| - 1];
      var d := recs[|recs| - 1].delayFromPrevious;
      assert forall i :: 0 <= i < |init| ==> init[i] == recs[i];
      WaitsAtSpeedOne(init);
      SumAppend(PlayWaits(init, 1), if d > 0 then [d] else []);
      assert Sum([d]) == d + Sum([]);
    }
  }

  function Sum(xs: seq<int>): int
    decreases |xs|
  {
    if |xs| == 0 then 0 else xs[0] + Sum(xs[1..])
  }

  lemma {:induction false} SumAppend(a: seq<int>, b: seq<int>)
    ensures Sum(a + b) == Sum(a) + Sum(b)
    decreases |a|
  {
    if |a| == 0 {
      assert a + b == b;
    } else {
      assert (a + b)[1..] == a[1..] + b;
      SumAppend(a[1..], b);
    }
  }

  /** The stopwatch: from 0, never backwards, and within the range an `int` holds. */
  predicate Clock(samples: seq<Sample>) {
    && (forall i :: 0 <= i < |samples| ==> 0 <= samples[i].time <= Int32Max)
    && (forall i, j :: 0 <= i < j < |samples| ==> samples[i].time <= samples[j].time)
  }

  /**
   * A session recorded under such a clock and replayed in full at speed 1
   * waits, in total, the time from the start of the recording to its last
   * record.
   */
  lemma ReplayTakesRecordedTime(r: Recorder, start: Point, samples: seq<Sample>)
    requires !r.isRecording && Clock(samples)
    ensures var rec := Record(r, start, samples).records;
      Sum(PlayWaits(rec, 1)) == LastTime(rec, 0)
  {
    var rec := Record(r, start, samples).records;
    RecordingTimes(StartPoll(start), 0, samples, 0);
    assert NoWrap(rec, 0) && forall i :: 0 <= i < |rec| ==> rec[i].delayFromPrevious >= 0 by {
      forall i | 0 <= i < |rec|
        ensures InInt32(Gap(rec, 0, i))
        ensures rec[i].delayFromPrevious >= 0
      {
        var d := Gap(rec, 0, i);
        assert 0 <= d <= Int32Max;
        assert rec[i].delayFromPrevious == WrapInt32(d);
      }
    }
    DelaysTelescope(rec, 0);
    WaitsAtSpeedOne(rec);
  }

  /** Times at least `lo`, within an `int`, and never going back from one record to the next. */
  predicate Stamped(rec: seq<RecordedAction>, lo: int) {
    && (forall i :: 0 <= i < |rec| ==> lo <= rec[i].timestamp <= Int32Max)
    && (forall i :: 0 < i < |rec| ==> rec[i - 1].timestamp <= rec[i].timestamp)
  }

  lemma StampedAppend(a: seq<RecordedAction>, b: seq<RecordedAction>, lo: int, mid: int)
    requires Stamped(a, lo) && Stamped(b, mid) && lo <= mid
    requires forall i :: 0 <= i < |a| ==> a[i].timestamp <= mid
    ensures Stamped(a + b, lo)
  {
    var c := a + b;
    forall i | 0 <= i < |c|
      ensures lo <= c[i].timestamp <= Int32Max
      ensures i > 0 ==> c[i - 1].timestamp <= c[i].timestamp
    {
      if i < |a| {
        assert c[i] == a[i];
        if i > 0 {
          assert c[i - 1] == a[i - 1];
        }
      } else {
        assert c[i] == b[i - |a|];
        if i > |a| {
          assert c[i - 1] == b[i - |a| - 1];
        } else if i > 0 {
          assert c[i - 1] == a[i - 1];
        }
      }
    }
  }

  /** Every record carries the time of a poll, so a forward clock gives forward record times. */
  lemma {:induction false} RecordingTimes(p: Poll, lastTs: int, samples: seq<Sample>, lo: int)
    requires Clock(samples) && 0 <= lastTs <= lo
    requires forall i :: 0 <= i < |samples| ==> lo <= samples[i].time
    ensures Stamped(Recording(p, lastTs, samples).records, lo)
    decreases |samples|
  {
    if |samples| > 0 {
      var s := samples[0];
      var (q, a) := Tick(p, lastTs, s);
      var rest := samples[1..];
      assert Clock(rest) && forall i :: 0 <= i < |rest| ==> s.time <= rest[i].time by {
        assert forall i :: 0 <= i < |rest| ==> rest[i] == samples[i + 1];
      }
      assert a.lastTs == lastTs || a.lastTs == s.time;
      RecordingTimes(q, a.lastTs, rest, s.time);
      assert forall i :: 0 <= i < |a.records| ==> a.records[i].timestamp == s.time by {
        TickStamps(p, lastTs, s);
      }
      StampedAppend(a.records, Recording(q, a.lastTs, rest).records, lo, s.time);
    }
  }

  lemma TickStamps(p: Poll, lastTs: int, s: Sample)
    ensures forall i :: 0 <= i < |Tick(p, lastTs, s).1.records| ==> Tick(p, lastTs, s).1.records[i].timestamp == s.time
  {
  }
}
