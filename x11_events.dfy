/**
 * Normalisation of X11 input data: button codes, the key-and-button state
 * mask, scroll buttons, touch contacts, and the WM_CLASS property value.
 */
module X11Events {
  import opened Shell
  import opened Wrappers

  // Bits of the X11 core protocol's KeyButMask (the `state` of pointer and key events).
  const SHIFT_MASK: bv16 := 0x0001
  const LOCK_MASK: bv16 := 0x0002
  const CONTROL_MASK: bv16 := 0x0004
  const MOD1_MASK: bv16 := 0x0008
  const MOD2_MASK: bv16 := 0x0010
  const MOD4_MASK: bv16 := 0x0040
  const BUTTON1_MASK: bv16 := 0x0100
  const BUTTON2_MASK: bv16 := 0x0200
  const BUTTON3_MASK: bv16 := 0x0400

  /** XI2 touch event flag: this touch also drives the emulated core pointer. */
  const TOUCH_EMULATING_POINTER: bv32 := 0x2_0000

  // ---------------------------------------------------------------------------
  // Button codes

  /** The `detail` of a button event as a canonical button; scroll codes 4..7 are not buttons. */
  function PointerButtonOf(code: u32): (b: PointerButton)
    ensures b == Primary <==> code == 1
    ensures b == Auxiliary <==> code == 2
    ensures b == Secondary <==> code == 3
    ensures b == X1 <==> code == 8
    ensures b == X2 <==> code == 9
  {
    match code
    case 0 => NoButton
    case 1 => Primary
    case 2 => Auxiliary
    case 3 => Secondary
    case 8 => X1
    case 9 => X2
    case _ => NoButton
  }

  /** The X11 button code of each real button. */
  function ButtonCode(b: PointerButton): (code: u32)
    requires b != NoButton
  {
    match b
    case Primary => 1
    case Auxiliary => 2
    case Secondary => 3
    case X1 => 8
    case X2 => 9
  }

  /** Every real button has a code that maps back to it, and scroll codes never give a button. */
  lemma ButtonCodeRoundTrip(b: PointerButton, scroll: u32)
    requires b != NoButton
    requires 4 <= scroll <= 7
    ensures PointerButtonOf(ButtonCode(b)) == b
    ensures PointerButtonOf(scroll) == NoButton
    ensures !(4 <= ButtonCode(b) <= 7)
  {
  }

  // ---------------------------------------------------------------------------
  // Held buttons and modifiers from the state mask

  /** The buttons the state mask reports as held. X1 and X2 have no bit in the mask. */
  function PointerButtonsOf(mask: bv16): (s: set<PointerButton>)
    ensures Primary in s <==> mask & BUTTON1_MASK != 0
    ensures Auxiliary in s <==> mask & BUTTON2_MASK != 0
    ensures Secondary in s <==> mask & BUTTON3_MASK != 0
    ensures X1 !in s && X2 !in s && NoButton !in s
  {
    (if mask & BUTTON1_MASK != 0 then {Primary} else {})
    + (if mask & BUTTON2_MASK != 0 then {Auxiliary} else {})
    + (if mask & BUTTON3_MASK != 0 then {Secondary} else {})
  }

  /** The table the source walks to collect held buttons. */
  const BUTTON_MASKS: seq<(bv16, PointerButton)> :=
    [(BUTTON1_MASK, Primary), (BUTTON2_MASK, Auxiliary), (BUTTON3_MASK, Secondary)]

  /** The source's loop over the button table, inserting each button whose bit is set. */
  method PointerButtons(mask: bv16) returns (buttons: set<PointerButton>)
    ensures buttons == PointerButtonsOf(mask)
  {
    buttons := {};
    for i := 0 to |BUTTON_MASKS|
      invariant Primary in buttons <==> 0 < i && mask & BUTTON1_MASK != 0
      invariant Auxiliary in buttons <==> 1 < i && mask & BUTTON2_MASK != 0
      invariant Secondary in buttons <==> 2 < i && mask & BUTTON3_MASK != 0
      invariant buttons <= {Primary, Auxiliary, Secondary}
    {
      if mask & BUTTON_MASKS[i].0 != 0 {
        buttons := buttons + {BUTTON_MASKS[i].1};
      }
    }
  }

  /** The keyboard modifiers the state mask reports. Mod3 and Mod5 are not mapped. */
  function ModifiersOf(mask: bv16): (s: set<Modifier>)
    ensures Shift in s <==> mask & SHIFT_MASK != 0
    ensures Control in s <==> mask & CONTROL_MASK != 0
    ensures Alt in s <==> mask & MOD1_MASK != 0
    ensures NumLock in s <==> mask & MOD2_MASK != 0
    ensures Meta in s <==> mask & MOD4_MASK != 0
    ensures CapsLock in s <==> mask & LOCK_MASK != 0
    ensures AltGraph !in s && ScrollLock !in s
  {
    (if mask & SHIFT_MASK != 0 then {Shift} else {})
    + (if mask & CONTROL_MASK != 0 then {Control} else {})
    + (if mask & MOD1_MASK != 0 then {Alt} else {})
    + (if mask & MOD2_MASK != 0 then {NumLock} else {})
    + (if mask & MOD4_MASK != 0 then {Meta} else {})
    + (if mask & LOCK_MASK != 0 then {CapsLock} else {})
  }

  /** The table the source walks to collect modifiers. */
  const KEY_MASKS: seq<(bv16, Modifier)> :=
    [(SHIFT_MASK, Shift), (CONTROL_MASK, Control), (MOD1_MASK, Alt),
     (MOD2_MASK, NumLock), (MOD4_MASK, Meta), (LOCK_MASK, CapsLock)]

  /** The source's loop over the modifier table, or-ing in each modifier whose bit is set. */
  method KeyMods(mask: bv16) returns (mods: set<Modifier>)
    ensures mods == ModifiersOf(mask)
  {
    mods := {};
    for i := 0 to |KEY_MASKS|
      invariant Shift in mods <==> 0 < i && mask & SHIFT_MASK != 0
      invariant Control in mods <==> 1 < i && mask & CONTROL_MASK != 0
      invariant Alt in mods <==> 2 < i && mask & MOD1_MASK != 0
      invariant NumLock in mods <==> 3 < i && mask & MOD2_MASK != 0
      invariant Meta in mods <==> 4 < i && mask & MOD4_MASK != 0
      invariant CapsLock in mods <==> 5 < i && mask & LOCK_MASK != 0
      invariant mods <= {Shift, Control, Alt, NumLock, Meta, CapsLock}
    {
      if mask & KEY_MASKS[i].0 != 0 {
        mods := mods + {KEY_MASKS[i].1};
      }
    }
  }

  /** XInput's modifier state: the base, latched and locked modifier words. */
  datatype ModifierInfo = ModifierInfo(base: bv32, latched: bv32, locked: bv32)

  /** The state mask of a pointer event: the three words or-ed together and truncated to 16 bits. */
  function StateMask(mods: ModifierInfo): (mask: bv16)
  {
    ((mods.base | mods.locked | mods.latched) & 0xFFFF) as bv16
  }

  /** A modifier counts as held when it is down, latched or locked. */
  predicate HeldIn(mods: ModifierInfo, bit: bv16) {
    (mods.base | mods.latched | mods.locked) & (bit as bv32) != 0
  }

  /** A modifier or button is reported when any of the three words holds its bit. */
  lemma StateMaskHolds(mods: ModifierInfo)
    ensures Shift in ModifiersOf(StateMask(mods)) <==> HeldIn(mods, SHIFT_MASK)
    ensures CapsLock in ModifiersOf(StateMask(mods)) <==> HeldIn(mods, LOCK_MASK)
    ensures Control in ModifiersOf(StateMask(mods)) <==> HeldIn(mods, CONTROL_MASK)
    ensures Alt in ModifiersOf(StateMask(mods)) <==> HeldIn(mods, MOD1_MASK)
    ensures NumLock in ModifiersOf(StateMask(mods)) <==> HeldIn(mods, MOD2_MASK)
    ensures Meta in ModifiersOf(StateMask(mods)) <==> HeldIn(mods, MOD4_MASK)
    ensures Primary in PointerButtonsOf(StateMask(mods)) <==> HeldIn(mods, BUTTON1_MASK)
    ensures Auxiliary in PointerButtonsOf(StateMask(mods)) <==> HeldIn(mods, BUTTON2_MASK)
    ensures Secondary in PointerButtonsOf(StateMask(mods)) <==> HeldIn(mods, BUTTON3_MASK)
  {
  }

  // ---------------------------------------------------------------------------
  // Pointer events

  datatype DeviceKind = PenDevice | EraserDevice | TouchDevice | MouseDevice

  /** What the application knows about an input device. */
  datatype DeviceInfo = DeviceInfo(isMasterPointer: bool, kind: DeviceKind)

  /** An XInput button, motion or wheel event. */
  datatype XButtonEvent = XButtonEvent(window: nat, detail: u32, mods: ModifierInfo, sourceId: u16)

  /** The fields every X11 pointer event starts from. */
  function BasePointerEvent(detail: u32, mods: ModifierInfo, sourceId: u16): (e: PointerEvent)
    ensures e.pointerId == sourceId && !e.isPrimary && e.count == 0
    ensures e.buttons == PointerButtonsOf(StateMask(mods))
    ensures e.modifiers == ModifiersOf(StateMask(mods))
    ensures e.button == PointerButtonOf(detail)
  {
    PointerEvent(sourceId, false, Mouse(0.0, 0.0), PointerButtonsOf(StateMask(mods)),
                 ModifiersOf(StateMask(mods)), PointerButtonOf(detail), 0)
  }

  /**
   * A button or motion event: primary iff its device is a master pointer,
   * a pen or eraser when its source device is one, a mouse otherwise.
   */
  function PointerEventOf(ev: XButtonEvent, device: Option<DeviceInfo>, source: Option<DeviceInfo>): (e: PointerEvent)
    ensures e.isPrimary <==> device.Some? && device.value.isMasterPointer
    ensures e.kind.Pen? <==> source.Some? && source.value.kind == PenDevice
    ensures e.kind.Eraser? <==> source.Some? && source.value.kind == EraserDevice
    ensures !(source.Some? && source.value.kind in {PenDevice, EraserDevice}) ==> e.kind == Mouse(0.0, 0.0)
    ensures e.pointerId == ev.sourceId && e.count == 0
    ensures e.buttons == PointerButtonsOf(StateMask(ev.mods))
    ensures e.modifiers == ModifiersOf(StateMask(ev.mods))
    ensures e.button == PointerButtonOf(ev.detail)
  {
    var base := BasePointerEvent(ev.detail, ev.mods, ev.sourceId);
    var isPrimary := match device case Some(d) => d.isMasterPointer case None => false;
    var kind :=
      match source
      case Some(d) =>
        (match d.kind
         case PenDevice => Pen
         case EraserDevice => Eraser
         case _ => Mouse(0.0, 0.0))
      case None => Mouse(0.0, 0.0);
    base.(isPrimary := isPrimary, kind := kind)
  }

  /** A button press: the state mask predates the press, so the pressed button is added. */
  function PressEvent(e: PointerEvent): (r: PointerEvent)
    requires IsButtonSet(e.buttons)
    ensures e.button != NoButton ==> e.button in r.buttons
    ensures forall b :: b != e.button ==> (b in r.buttons <==> b in e.buttons)
    ensures r.count == 1 && r.button == e.button
  {
    e.(buttons := With(e.buttons, e.button), count := 1)
  }

  /** A button release: the state mask still holds the released button, so it is removed. */
  function ReleaseEvent(e: PointerEvent): (r: PointerEvent)
    requires IsButtonSet(e.buttons)
    ensures e.button !in r.buttons
    ensures forall b :: b != e.button ==> (b in r.buttons <==> b in e.buttons)
    ensures r.count == e.count && r.button == e.button
  {
    e.(buttons := Without(e.buttons, e.button))
  }

  // ---------------------------------------------------------------------------
  // Scroll buttons

  /**
   * The wheel delta of scroll button `detail`, 120 units per notch: 4 is up,
   * 5 down, 6 left, 7 right; with shift held, 4 and 5 scroll horizontally.
   * Any other code is an error.
   */
  function WheelDelta(detail: u32, shift: bool): (r: Result<(real, real), ShellError>)
    ensures r.Success? <==> 4 <= detail <= 7
    ensures r.Failure? ==> r.error == UnexpectedWheelButton(detail)
  {
    match detail
    case 4 => Success(if shift then (-120.0, 0.0) else (0.0, -120.0))
    case 5 => Success(if shift then (120.0, 0.0) else (0.0, 120.0))
    case 6 => Success((-120.0, 0.0))
    case 7 => Success((120.0, 0.0))
    case _ => Failure(UnexpectedWheelButton(detail))
  }

  /** One notch moves exactly one axis by 120; 4 and 6 go back, 5 and 7 go forward. */
  lemma WheelDeltaIsOneNotch(detail: u32, shift: bool)
    requires 4 <= detail <= 7
    ensures var (dx, dy) := WheelDelta(detail, shift).value;
      (dx == 0.0 || dy == 0.0) && dx * dx + dy * dy == 14400.0
    ensures var (dx, dy) := WheelDelta(detail, shift).value;
      (detail == 4 || detail == 6 ==> dx + dy == -120.0) && (detail == 5 || detail == 7 ==> dx + dy == 120.0)
  {
  }

  /** Shift turns a vertical notch (4, 5) into the same notch on the horizontal axis; 6 and 7 ignore it. */
  lemma WheelShiftSwapsAxes(detail: u32)
    requires 4 <= detail <= 7
    ensures detail <= 5 ==> WheelDelta(detail, true).value == (WheelDelta(detail, false).value.1, WheelDelta(detail, false).value.0)
    ensures detail <= 5 ==> WheelDelta(detail, false).value.0 == 0.0
    ensures detail >= 6 ==> WheelDelta(detail, true) == WheelDelta(detail, false)
  {
  }

  /**
   * The wheel event of a scroll-button press: the base event with the delta as its
   * mouse wheel delta and no triggering button; `shift` comes from its own modifiers.
   */
  function WheelEventOf(e: PointerEvent, detail: u32): (r: Result<PointerEvent, ShellError>)
    ensures r.Success? <==> 4 <= detail <= 7
    ensures r.Success? ==> (r.value.button == NoButton && r.value.buttons == e.buttons
      && r.value.kind == Mouse(WheelDelta(detail, Shift in e.modifiers).value.0, WheelDelta(detail, Shift in e.modifiers).value.1))
  {
    match WheelDelta(detail, Shift in e.modifiers)
    case Success(d) => Success(e.(kind := Mouse(d.0, d.1), button := NoButton))
    case Failure(err) => Failure(err)
  }

  // ---------------------------------------------------------------------------
  // Touch contacts

  /** An XInput touch event. */
  datatype XTouchEvent = XTouchEvent(window: nat, detail: bv32, flags: bv32, mods: ModifierInfo, sourceId: bv16)

  /** The pointer id of a touch contact: the source device in the low 32 bits, the touch id above. */
  function TouchPointerId(sourceId: bv16, detail: bv32): bv64 {
    (sourceId as bv64) | ((detail as bv64) << 32)
  }

  /** The touch pointer id keeps both halves, so contacts of one device, and devices, never collide. */
  lemma TouchPointerIdDecodes(sourceId: bv16, detail: bv32)
    ensures TouchPointerId(sourceId, detail) & 0xFFFF_FFFF == sourceId as bv64
    ensures TouchPointerId(sourceId, detail) >> 32 == detail as bv64
  {
  }

  lemma TouchPointerIdInjective(s1: bv16, d1: bv32, s2: bv16, d2: bv32)
    requires TouchPointerId(s1, d1) == TouchPointerId(s2, d2)
    ensures s1 == s2 && d1 == d2
  {
    TouchPointerIdDecodes(s1, d1);
    TouchPointerIdDecodes(s2, d2);
  }

  /** The source tests the flag by or-ing it in and comparing. */
  predicate EmulatesPointer(flags: bv32) {
    (flags | TOUCH_EMULATING_POINTER) == flags
  }

  lemma EmulatesPointerIsFlagBit(flags: bv32)
    ensures EmulatesPointer(flags) <==> flags & TOUCH_EMULATING_POINTER != 0
  {
  }

  /**
   * The pointer event of a touch: primary (and triggered by the primary button)
   * exactly when the touch emulates the core pointer.
   */
  function TouchEventOf(ev: XTouchEvent): (e: PointerEvent)
    ensures e.isPrimary <==> ev.flags & TOUCH_EMULATING_POINTER != 0
    ensures e.button == (if e.isPrimary then Primary else NoButton)
    ensures e.kind == Touch
    ensures e.pointerId == TouchPointerId(ev.sourceId, ev.detail) as int && e.count == 0
    ensures e.buttons == PointerButtonsOf(StateMask(ev.mods))
    ensures e.modifiers == ModifiersOf(StateMask(ev.mods))
  {
    EmulatesPointerIsFlagBit(ev.flags);
    var isPrimary := EmulatesPointer(ev.flags);
    var base := BasePointerEvent(ev.detail as int, ev.mods, ev.sourceId as int);
    base.(isPrimary := isPrimary, kind := Touch,
          button := if isPrimary then Primary else NoButton,
          pointerId := TouchPointerId(ev.sourceId, ev.detail) as int)
  }

  // ---------------------------------------------------------------------------
  // WM_CLASS

  /** ASCII upper-casing of one byte, as `u8::to_ascii_uppercase`. */
  function AsciiUpper(c: bv8): (u: bv8)
    ensures 'a' as bv8 <= c <= 'z' as bv8 ==> u == c - 32
    ensures !('a' as bv8 <= c <= 'z' as bv8) ==> u == c
  {
    if 0x61 <= c <= 0x7A then c - 0x20 else c
  }

  function Capitalised(name: seq<bv8>): (r: seq<bv8>)
    ensures |r| == |name|
    ensures |name| > 0 ==> r[0] == AsciiUpper(name[0]) && r[1..] == name[1..]
  {
    if |name| == 0 then [] else [AsciiUpper(name[0])] + name[1..]
  }

  /**
   * WM_CLASS as the source builds it: the instance name and a null, then, when
   * the buffer has a first byte, that byte upper-cased followed by `name[1..]`,
   * then a null. The buffer always has a first byte (the null just pushed), so
   * an empty name reaches `name[1..]`, which panics; the panic is `None`.
   */
  function WmClassAsWritten(name: seq<bv8>): (r: Option<seq<bv8>>)
    ensures r.None? <==> |name| == 0
  {
    var buf := name + [0];
    var first := buf[0];
    if 1 <= |name| then Some(buf + [AsciiUpper(first)] + name[1..] + [0]) else None
  }

  /** An empty program name (a path without a final component, or one that is not UTF-8) panics. */
  lemma WmClassAsWrittenPanicsOnEmptyName()
    ensures WmClassAsWritten([]) == None
  {
  }

  /**
   * WM_CLASS as section 4.1.2.5 of the ICCCM asks for it: two consecutive
   * null-terminated strings, the instance name and the class name (here the
   * instance name with its first letter upper-cased).
   */
  function WmClass(name: seq<bv8>): (r: seq<bv8>)
    ensures |r| == 2 * |name| + 2
  {
    name + [0] + Capitalised(name) + [0]
  }

  /** Where a name has a first byte, the corrected value is the one the source builds. */
  lemma WmClassAgreesWhenNameNonEmpty(name: seq<bv8>)
    requires |name| > 0
    ensures WmClassAsWritten(name) == Some(WmClass(name))
  {
    assert (name + [0])[0] == name[0];
    assert name + [0] + [AsciiUpper(name[0])] + name[1..] + [0]
        == name + [0] + ([AsciiUpper(name[0])] + name[1..]) + [0];
  }

  /** Index of the first null byte of `s`, or `|s|` when there is none. */
  function NulIndex(s: seq<bv8>): (k: nat)
    ensures k <= |s|
    ensures forall i :: 0 <= i < k ==> s[i] != 0
    ensures k < |s| ==> s[k] == 0
  {
    if |s| == 0 then 0 else if s[0] == 0 then 0 else 1 + NulIndex(s[1..])
  }

  /** Reading the two strings back out of WM_CLASS gives the instance and the class name. */
  lemma WmClassSplits(name: seq<bv8>)
    requires forall i :: 0 <= i < |name| ==> name[i] != 0
    ensures var r := WmClass(name); var k := NulIndex(r);
      k == |name| && r[..k] == name
      && NulIndex(r[k + 1..]) == |name| && r[k + 1..][..|name|] == Capitalised(name)
      && r[k + 1..][|name|..] == [0]
  {
    var r := WmClass(name);
    var className := Capitalised(name);
    assert r == name + ([0] + className + [0]);
    NulPrefix(name, [0] + className + [0]);
    assert r[|name| + 1..] == className + [0];
    CapitalisedHasNoNul(name);
    NulPrefix(className, [0]);
  }

  /** Upper-casing the first byte of a name without nulls adds none. */
  lemma CapitalisedHasNoNul(name: seq<bv8>)
    requires forall i :: 0 <= i < |name| ==> name[i] != 0
    ensures forall i :: 0 <= i < |name| ==> Capitalised(name)[i] != 0
  {
    forall i | 0 <= i < |name| ensures Capitalised(name)[i] != 0 {
      if i > 0 {
        assert Capitalised(name)[i] == name[1..][i - 1];
      }
    }
  }

  lemma {:induction false} NulPrefix(a: seq<bv8>, b: seq<bv8>)
    requires forall i :: 0 <= i < |a| ==> a[i] != 0
    requires |b| > 0 && b[0] == 0
    ensures NulIndex(a + b) == |a|
  {
    if |a| > 0 {
      assert (a + b)[1..] == a[1..] + b;
      NulPrefix(a[1..], b);
    } else {
      assert a + b == b;
    }
  }
}
