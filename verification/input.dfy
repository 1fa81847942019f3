/**
 * The synthetic input the helpers of the Win32 layer send: cursor moves and
 * mouse and keyboard transitions, one event per SendInput record.
 */
module Input {
  import opened Basics

  datatype Button = Left | Right | Middle

  datatype InputEvent =
    | SetCursor(at: Point)
    | MouseDown(button: Button)
    | MouseUp(button: Button)
    | KeyDown(vk: uint16)
    | KeyUp(vk: uint16)

  /** Virtual-key codes of the modifier keys. */
  const VkShift: uint16 := 0x10
  const VkControl: uint16 := 0x11
  const VkAlt: uint16 := 0x12

  /** The `MouseButton` value an `int` casts to; only 0, 1 and 2 name a button. */
  function ButtonOf(code: int): (b: Option<Button>)
    ensures b.Some? <==> 0 <= code <= 2
  {
    if code == 0 then Some(Left) else if code == 1 then Some(Right) else if code == 2 then Some(Middle) else None
  }

  function ButtonCode(b: Button): (code: int)
    ensures ButtonOf(code) == Some(b)
  {
    match b
    case Left => 0
    case Right => 1
    case Middle => 2
  }

  /** One press and release of a button, sent twice for a double click. */
  function MouseClick(b: Button, doubleClick: bool): (evs: seq<InputEvent>)
    ensures |evs| == if doubleClick then 4 else 2
    ensures forall i :: 0 <= i < |evs| ==> evs[i] == (if i % 2 == 0 then MouseDown(b) else MouseUp(b))
  {
    var once := [MouseDown(b), MouseUp(b)];
    if doubleClick then once + once else once
  }

  /** A click on a button given by its numeric code; an unknown code sends nothing. */
  function MouseClickCode(code: int, doubleClick: bool): (evs: seq<InputEvent>)
    ensures ButtonOf(code).None? <==> evs == []
  {
    match ButtonOf(code)
    case None => []
    case Some(b) => MouseClick(b, doubleClick)
  }

  /** Move the cursor, then click. */
  function MouseClickAt(p: Point, b: Button, doubleClick: bool): (evs: seq<InputEvent>)
    ensures |evs| > 1 && evs[0] == SetCursor(p) && evs[1..] == MouseClick(b, doubleClick)
  {
    [SetCursor(p)] + MouseClick(b, doubleClick)
  }

  function KeyPress(vk: uint16): seq<InputEvent> {
    [KeyDown(vk), KeyUp(vk)]
  }

  /** The modifier keys held for a chord, in the order they go down: Ctrl, Alt, Shift. */
  function Modifiers(ctrl: bool, alt: bool, shift: bool): (mods: seq<uint16>)
    ensures VkControl in mods <==> ctrl
    ensures VkAlt in mods <==> alt
    ensures VkShift in mods <==> shift
    ensures |mods| == (if ctrl then 1 else 0) + (if alt then 1 else 0) + (if shift then 1 else 0)
  {
    (if ctrl then [VkControl] else []) + (if alt then [VkAlt] else []) + (if shift then [VkShift] else [])
  }

  function Downs(keys: seq<uint16>): (evs: seq<InputEvent>)
    ensures |evs| == |keys|
    ensures forall i :: 0 <= i < |keys| ==> evs[i] == KeyDown(keys[i])
  {
    if |keys| == 0 then [] else [KeyDown(keys[0])] + Downs(keys[1..])
  }

  /** Key releases in the reverse of the order the keys are listed. */
  function UpsReversed(keys: seq<uint16>): (evs: seq<InputEvent>)
    ensures |evs| == |keys|
    ensures forall i :: 0 <= i < |keys| ==> evs[i] == KeyUp(keys[|keys| - 1 - i])
  {
    if |keys| == 0 then [] else [KeyUp(keys[|keys| - 1])] + UpsReversed(keys[..|keys| - 1])
  }

  /** Press the flagged modifiers, press and release the key, release the modifiers in reverse order. */
  function Chord(ctrl: bool, alt: bool, shift: bool, vk: uint16): seq<InputEvent> {
    var mods := Modifiers(ctrl, alt, shift);
    Downs(mods) + KeyPress(vk) + UpsReversed(mods)
  }

  // ------------------------------------------------------------ well-nesting

  /**
   * Replays key transitions against the stack of held keys (top last): a
   * key goes down onto the stack and may only come up from its top. None
   * means a release out of order; mouse and cursor events do not matter.
   */
  function Held(stack: seq<uint16>, evs: seq<InputEvent>): Option<seq<uint16>>
    decreases |evs|
  {
    if |evs| == 0 then Some(stack)
    else match evs[0]
      case KeyDown(k) => Held(stack + [k], evs[1..])
      case KeyUp(k) =>
        if |stack| > 0 && stack[|stack| - 1] == k then Held(stack[..|stack| - 1], evs[1..]) else None
      case _ => Held(stack, evs[1..])
  }

  lemma {:induction false} HeldAppend(stack: seq<uint16>, a: seq<InputEvent>, b: seq<InputEvent>)
    ensures Held(stack, a + b) == (match Held(stack, a) case None => None case Some(st) => Held(st, b))
    decreases |a|
  {
    if |a| > 0 {
      assert (a + b)[1..] == a[1..] + b;
      match a[0]
      case KeyDown(k) => HeldAppend(stack + [k], a[1..], b);
      case KeyUp(k) =>
        if |stack| > 0 && stack[|stack| - 1] == k {
          HeldAppend(stack[..|stack| - 1], a[1..], b);
        }
      case _ => HeldAppend(stack, a[1..], b);
    } else {
      assert a + b == b;
    }
  }

  /** One key going down pushes it. */
  lemma HeldDown(stack: seq<uint16>, k: uint16, rest: seq<InputEvent>)
    ensures Held(stack, [KeyDown(k)] + rest) == Held(stack + [k], rest)
  {
    assert ([KeyDown(k)] + rest)[1..] == rest;
  }

  /** The key on top coming up pops it. */
  lemma HeldUp(stack: seq<uint16>, k: uint16, rest: seq<InputEvent>)
    ensures Held(stack + [k], [KeyUp(k)] + rest) == Held(stack, rest)
  {
    assert ([KeyUp(k)] + rest)[1..] == rest;
    assert (stack + [k])[..|stack + [k]| - 1] == stack;
  }

  lemma {:induction false} HeldDowns(stack: seq<uint16>, keys: seq<uint16>)
    ensures Held(stack, Downs(keys)) == Some(stack + keys)
    decreases |keys|
  {
    if |keys| > 0 {
      var d := Downs(keys);
      assert d == [KeyDown(keys[0])] + Downs(keys[1..]);
      assert d[1..] == Downs(keys[1..]);
      assert Held(stack, d) == Held(stack + [keys[0]], d[1..]);
      HeldDowns(stack + [keys[0]], keys[1..]);
      ShiftFirst(stack, keys);
    } else {
      assert stack + keys == stack;
    }
  }

  lemma ShiftFirst<T>(a: seq<T>, b: seq<T>)
    requires |b| > 0
    ensures a + [b[0]] + b[1..] == a + b
  {
    assert b == [b[0]] + b[1..];
  }

  lemma {:induction false} HeldUps(stack: seq<uint16>, keys: seq<uint16>)
    ensures Held(stack + keys, UpsReversed(keys)) == Some(stack)
    decreases |keys|
  {
    if |keys| > 0 {
      var rest := keys[..|keys| - 1];
      assert UpsReversed(keys)[1..] == UpsReversed(rest);
      assert (stack + keys)[..|stack + keys| - 1] == stack + rest;
      HeldUps(stack, rest);
    } else {
      assert stack + keys == stack;
    }
  }

  /**
   * A chord is well nested: every key that goes down comes up, in reverse
   * order, and while the main key is down exactly the flagged modifiers are held.
   */
  lemma ChordIsNested(stack: seq<uint16>, ctrl: bool, alt: bool, shift: bool, vk: uint16)
    ensures Held(stack, Chord(ctrl, alt, shift, vk)) == Some(stack)
    ensures Held(stack, Downs(Modifiers(ctrl, alt, shift)) + [KeyDown(vk)])
            == Some(stack + Modifiers(ctrl, alt, shift) + [vk])
  {
    var mods := Modifiers(ctrl, alt, shift);
    HeldDowns(stack, mods);
    HeldAppend(stack, Downs(mods), [KeyDown(vk)]);
    assert Held(stack + mods, [KeyDown(vk)]) == Some(stack + mods + [vk]);
    HeldAppend(stack, Downs(mods) + KeyPress(vk), UpsReversed(mods));
    HeldAppend(stack, Downs(mods), KeyPress(vk));
    assert Held(stack + mods, KeyPress(vk)) == Some(stack + mods) by {
      var up: seq<InputEvent> := [KeyUp(vk)];
      assert KeyPress(vk)[1..] == up;
      assert (stack + mods + [vk])[..|stack + mods + [vk]| - 1] == stack + mods;
      assert Held(stack + mods + [vk], up) == Some(stack + mods);
    }
    HeldUps(stack, mods);
  }

  // ------------------------------------------------------------ cursor

  /** Where the cursor is after the events, starting from `start`. */
  function CursorAfter(start: Point, evs: seq<InputEvent>): Point
    decreases |evs|
  {
    if |evs| == 0 then start
    else CursorAfter(if evs[0].SetCursor? then evs[0].at else start, evs[1..])
  }

  lemma {:induction false} CursorAfterAppend(start: Point, a: seq<InputEvent>, b: seq<InputEvent>)
    ensures CursorAfter(start, a + b) == CursorAfter(CursorAfter(start, a), b)
    decreases |a|
  {
    if |a| == 0 {
      assert a + b == b;
    } else {
      assert (a + b)[1..] == a[1..] + b;
      CursorAfterAppend(if a[0].SetCursor? then a[0].at else start, a[1..], b);
    }
  }
}
