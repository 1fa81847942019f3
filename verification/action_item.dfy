/**
 * One step of an action sequence: a mouse click, a key press with
 * modifiers, or a wait; its display text and its clone.
 */
module ActionItems {
  import opened Basics
  import opened Text
  import opened Input

  /** The action kinds; `UndefinedType` stands for an enum value outside the declared three. */
  datatype ActionType = Click | KeyPress | Delay | UndefinedType(code: int)

  /** Identities (`Guid`s in the source) are natural numbers here. */
  datatype ActionItem = ActionItem(
    id: nat,
    kind: ActionType,
    isEnabled: bool,
    mouseButton: int32,
    clickType: int32,
    useCurrentPosition: bool,
    fixedX: int32,
    fixedY: int32,
    key: string,
    useCtrl: bool,
    useAlt: bool,
    useShift: bool,
    delayMs: int32,
    repeatCount: int32)

  /** A freshly constructed item with identity `id`. */
  function NewActionItem(id: nat): (a: ActionItem)
    ensures a.id == id
  {
    ActionItem(id, Click, true, 0, 0, true, 0, 0, "", false, false, false, 100, 1)
  }

  /** All settings equal; only the identity may differ. */
  predicate SameSettings(a: ActionItem, b: ActionItem) {
    a.(id := 0) == b.(id := 0)
  }

  /** A copy of every setting under a new identity. */
  function Clone(a: ActionItem, freshId: nat): (c: ActionItem)
    ensures c.id == freshId
    ensures SameSettings(c, a)
  {
    a.(id := freshId)
  }

  function ButtonLabel(b: Button): string {
    match b
    case Left => "Left"
    case Right => "Right"
    case Middle => "Middle"
  }

  /** The button name shown for a button code: the clicked button's name, "Left" for an unknown code. */
  function MouseButtonName(code: int): (name: string)
    ensures ButtonOf(code).Some? ==> name == ButtonLabel(ButtonOf(code).value)
    ensures ButtonOf(code).None? ==> name == "Left"
  {
    if code == 0 then "Left" else if code == 1 then "Right" else if code == 2 then "Middle" else "Left"
  }

  function ModifierLabel(vk: uint16): string {
    if vk == VkControl then "Ctrl+" else if vk == VkAlt then "Alt+" else if vk == VkShift then "Shift+" else ""
  }

  function ModifierLabels(mods: seq<uint16>): string {
    if |mods| == 0 then "" else ModifierLabel(mods[0]) + ModifierLabels(mods[1..])
  }

  /** The key with its modifier prefixes, "Ctrl+", "Alt+", "Shift+" in that order. */
  function KeyDisplayName(a: ActionItem): (s: string)
    ensures |s| >= |a.key| && s[|s| - |a.key|..] == a.key
  {
    (if a.useCtrl then "Ctrl+" else "") + (if a.useAlt then "Alt+" else "") + (if a.useShift then "Shift+" else "") + a.key
  }

  /** The label lists exactly the modifiers a key press holds, in the order they are pressed. */
  lemma KeyDisplayNameFollowsChord(a: ActionItem)
    ensures KeyDisplayName(a) == ModifierLabels(Modifiers(a.useCtrl, a.useAlt, a.useShift)) + a.key
  {
    var c: seq<uint16> := if a.useCtrl then [VkControl] else [];
    var al: seq<uint16> := if a.useAlt then [VkAlt] else [];
    var sh: seq<uint16> := if a.useShift then [VkShift] else [];
    assert Modifiers(a.useCtrl, a.useAlt, a.useShift) == c + al + sh;
    ModifierLabelsAppend(c, al);
    ModifierLabelsAppend(c + al, sh);
    assert ModifierLabels(c) == (if a.useCtrl then "Ctrl+" else "") by {
      ModifierLabelsOne(VkControl);
    }
    assert ModifierLabels(al) == (if a.useAlt then "Alt+" else "") by {
      ModifierLabelsOne(VkAlt);
    }
    assert ModifierLabels(sh) == (if a.useShift then "Shift+" else "") by {
      ModifierLabelsOne(VkShift);
    }
  }

  lemma ModifierLabelsOne(vk: uint16)
    ensures ModifierLabels([vk]) == ModifierLabel(vk)
  {
    assert [vk][1..] == [];
  }

  lemma {:induction false} ModifierLabelsAppend(a: seq<uint16>, b: seq<uint16>)
    ensures ModifierLabels(a + b) == ModifierLabels(a) + ModifierLabels(b)
    decreases |a|
  {
    if |a| == 0 {
      assert a + b == b;
    } else {
      assert (a + b)[1..] == a[1..] + b;
      ModifierLabelsAppend(a[1..], b);
    }
  }

  function PositionLabel(a: ActionItem): string {
    if a.useCurrentPosition then "cursor"
    else "(" + IntToString(a.fixedX) + ", " + IntToString(a.fixedY) + ")"
  }

  /** The one-line description shown in the action list. */
  function DisplayName(a: ActionItem): (s: string)
    ensures a.kind == Click ==> s == "Click " + MouseButtonName(a.mouseButton) + " at " + PositionLabel(a)
    ensures a.kind == KeyPress ==> s == "Press " + KeyDisplayName(a)
    ensures a.kind == Delay ==> s == "Wait " + IntToString(a.delayMs) + "ms"
    ensures a.kind.UndefinedType? ==> s == "Unknown"
  {
    match a.kind
    case Click => "Click " + MouseButtonName(a.mouseButton) + " at " + PositionLabel(a)
    case KeyPress => "Press " + KeyDisplayName(a)
    case Delay => "Wait " + IntToString(a.delayMs) + "ms"
    case UndefinedType(_) => "Unknown"
  }

  /** The wait a Delay item shows can be read back from its description. */
  lemma DelayReadableFromDisplayName(a: ActionItem)
    requires a.kind == Delay
    ensures var s := DisplayName(a); |s| >= 7 && TryParseInt(s[5..|s| - 2]) == Some(a.delayMs)
  {
    var s := DisplayName(a);
    assert s[5..|s| - 2] == IntToString(a.delayMs);
    FormatThenParse(a.delayMs);
  }

  /** Two Delay items are shown alike exactly when they wait alike. */
  lemma DelayDisplayNameInjective(a: ActionItem, b: ActionItem)
    requires a.kind == Delay && b.kind == Delay
    ensures DisplayName(a) == DisplayName(b) <==> a.delayMs == b.delayMs
  {
    if DisplayName(a) == DisplayName(b) {
      DelayReadableFromDisplayName(a);
      DelayReadableFromDisplayName(b);
    }
  }

  /** The first word of the description names the kind. */
  lemma DisplayNameNamesKind(a: ActionItem)
    ensures var s := DisplayName(a);
      (a.kind == Click <==> |s| >= 6 && s[..6] == "Click ")
      && (a.kind == KeyPress <==> |s| >= 6 && s[..6] == "Press ")
      && (a.kind == Delay <==> |s| >= 5 && s[..5] == "Wait ")
  {
    var s := DisplayName(a);
    assert |s| >= 5 by {
      LongEnough(a);
    }
    if |s| >= 6 && s[..6] == "Click " {
      FirstLetter(s, "Click ");
    }
    if |s| >= 6 && s[..6] == "Press " {
      FirstLetter(s, "Press ");
    }
    if s[..5] == "Wait " {
      FirstLetter(s, "Wait ");
    }
    match a.kind
    case Click =>
      assert s[..6] == "Click ";
    case KeyPress =>
      assert s[..6] == "Press ";
    case Delay =>
      assert s[..5] == "Wait ";
    case UndefinedType(_) =>
      assert s[0] == 'U';
  }

  lemma LongEnough(a: ActionItem)
    ensures |DisplayName(a)| >= 5
    ensures a.kind != Delay ==> |DisplayName(a)| >= 6
  {
  }

  lemma FirstLetter(s: string, p: string)
    requires 0 < |p| <= |s| && s[..|p|] == p
    ensures s[0] == p[0]
  {
    assert s[0] == s[..|p|][0];
  }

  /** A clone shows the same description. */
  lemma CloneKeepsDisplayName(a: ActionItem, freshId: nat)
    ensures DisplayName(Clone(a, freshId)) == DisplayName(a)
  {
  }

  lemma SmallNumbers()
    ensures IntToString(100) == "100" && IntToString(200) == "200" && IntToString(1500) == "1500"
  {
    assert NatToString(1) == "1";
    assert NatToString(2) == "2";
    assert NatToString(10) == "10";
    assert NatToString(20) == "20";
    assert NatToString(15) == "15";
    assert NatToString(150) == "150";
  }

  /** Descriptions the action-item tests expect for clicks. */
  lemma ClickDisplayNameExamples()
    ensures DisplayName(NewActionItem(0)) == "Click Left at cursor"
    ensures DisplayName(NewActionItem(0).(mouseButton := 1)) == "Click Right at cursor"
    ensures DisplayName(NewActionItem(0).(mouseButton := 99)) == "Click Left at cursor"
  {
  }

  lemma FixedClickDisplayNameExample()
    ensures DisplayName(NewActionItem(0).(useCurrentPosition := false, fixedX := 100, fixedY := 200))
            == "Click Left at (100, 200)"
  {
    SmallNumbers();
  }

  /** Descriptions the action-item tests expect for key presses. */
  lemma KeyDisplayNameExamples()
    ensures DisplayName(NewActionItem(0).(kind := KeyPress, key := "A", useCtrl := true, useAlt := true))
            == "Press Ctrl+Alt+A"
    ensures DisplayName(NewActionItem(0).(kind := KeyPress, key := "Enter")) == "Press Enter"
  {
    assert KeyDisplayName(NewActionItem(0).(kind := KeyPress, key := "A", useCtrl := true, useAlt := true)) == "Ctrl+Alt+A";
    assert KeyDisplayName(NewActionItem(0).(kind := KeyPress, key := "Enter")) == "Enter";
  }

  lemma DelayDisplayNameExample()
    ensures DisplayName(NewActionItem(0).(kind := Delay, delayMs := 1500)) == "Wait 1500ms"
  {
    SmallNumbers();
  }
}
