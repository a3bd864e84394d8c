/**
 * Browser input decoding for the web backend: the DOM `MouseEvent.button`
 * number, the `MouseEvent.buttons` mask and the `WheelEvent.deltaMode`
 * conversion, and the pointer events built from them.
 *
 * Positions and the click count's distance test are floating-point browser
 * state and are not modelled; the click count arrives as a parameter.
 */
module WebEvents {
  import opened Shell
  import opened Wrappers

  type i16 = x: int | -0x8000 <= x < 0x8000

  // ---------------------------------------------------------------------------
  // Buttons

  /** The button a DOM `button` number names; numbers outside 0..4 name none. */
  function GetButton(button: i16): (r: Option<PointerButton>)
    ensures r.Some? <==> 0 <= button <= 4
    ensures r.Some? ==> r.value != NoButton
  {
    match button
    case 0 => Some(Primary)
    case 1 => Some(Auxiliary)
    case 2 => Some(Secondary)
    case 3 => Some(X1)
    case 4 => Some(X2)
    case _ => None
  }

  /** The DOM `button` number of a button: the wheel button is 1 and the secondary one 2. */
  function DomButton(b: PointerButton): (n: i16)
    requires b != NoButton
    ensures 0 <= n <= 4
  {
    match b
    case Primary => 0
    case Auxiliary => 1
    case Secondary => 2
    case X1 => 3
    case X2 => 4
  }

  /** `GetButton` and `DomButton` are inverse bijections between 0..4 and the five buttons. */
  lemma GetButtonRoundTrip(b: PointerButton, n: i16)
    requires b != NoButton
    ensures GetButton(DomButton(b)) == Some(b)
    ensures 0 <= n <= 4 ==> DomButton(GetButton(n).value) == n
  {
  }

  /** The bit of a button in the DOM `buttons` mask. */
  function ButtonBit(b: PointerButton): (bit: bv16)
    requires b != NoButton
    ensures bit != 0 && bit & (bit - 1) == 0
    ensures bit & 0x1F == bit
  {
    match b
    case Primary => 1
    case Secondary => 2
    case Auxiliary => 4
    case X1 => 8
    case X2 => 16
  }

  /**
   * The mask bit of the button a DOM `button` number names is bit `n` except
   * for the wheel and secondary buttons, whose number and bit are swapped.
   */
  lemma ButtonBitOfNumber(n: i16)
    requires 0 <= n <= 4
    ensures ButtonBit(GetButton(n).value) == (if n == 1 then 4 else if n == 2 then 2 else (1 as bv16) << n)
  {
  }

  /** The buttons a DOM `buttons` mask holds: bits 0 to 4, and no other bit matters. */
  function GetButtons(mask: bv16): (s: set<PointerButton>)
    ensures IsButtonSet(s)
    ensures Primary in s <==> mask & 1 != 0
    ensures Secondary in s <==> mask & (1 << 1) != 0
    ensures Auxiliary in s <==> mask & (1 << 2) != 0
    ensures X1 in s <==> mask & (1 << 3) != 0
    ensures X2 in s <==> mask & (1 << 4) != 0
  {
    (if mask & 1 != 0 then {Primary} else {})
    + (if mask & (1 << 1) != 0 then {Secondary} else {})
    + (if mask & (1 << 2) != 0 then {Auxiliary} else {})
    + (if mask & (1 << 3) != 0 then {X1} else {})
    + (if mask & (1 << 4) != 0 then {X2} else {})
  }

  /** The DOM `buttons` mask that holds exactly the buttons of `s`. */
  function ButtonsMask(s: set<PointerButton>): (mask: bv16)
    ensures mask & 0x1F == mask
  {
    (if Primary in s then ButtonBit(Primary) else 0)
    | (if Secondary in s then ButtonBit(Secondary) else 0)
    | (if Auxiliary in s then ButtonBit(Auxiliary) else 0)
    | (if X1 in s then ButtonBit(X1) else 0)
    | (if X2 in s then ButtonBit(X2) else 0)
  }

  /** Every button set survives encoding as a mask and decoding with `GetButtons`. */
  lemma GetButtonsOfMask(s: set<PointerButton>)
    requires IsButtonSet(s)
    ensures GetButtons(ButtonsMask(s)) == s
  {
    var m := ButtonsMask(s);
    forall b | b != NoButton
      ensures b in GetButtons(m) <==> b in s
    {
      assert m & ButtonBit(b) != 0 <==> b in s;
    }
  }

  /** Decoding keeps bits 0 to 4 of a mask and forgets the rest. */
  lemma MaskOfGetButtons(mask: bv16)
    ensures ButtonsMask(GetButtons(mask)) == mask & 0x1F
  {
    var s := GetButtons(mask);
    assert (if Primary in s then ButtonBit(Primary) else 0) == mask & 1;
    assert (if Secondary in s then ButtonBit(Secondary) else 0) == mask & 2;
    assert (if Auxiliary in s then ButtonBit(Auxiliary) else 0) == mask & 4;
    assert (if X1 in s then ButtonBit(X1) else 0) == mask & 8;
    assert (if X2 in s then ButtonBit(X2) else 0) == mask & 16;
    assert (mask & 1) | (mask & 2) | (mask & 4) | (mask & 8) | (mask & 16) == mask & 0x1F;
  }

  // ---------------------------------------------------------------------------
  // Wheel

  const DOM_DELTA_PIXEL: u32 := 0
  const DOM_DELTA_LINE: u32 := 1
  const DOM_DELTA_PAGE: u32 := 2

  /** Pixels per line of a line-mode wheel event. */
  const LINE_STEP: real := 35.0

  /** A two-dimensional delta or size in device-independent pixels. */
  datatype Vec2 = Vec2(x: real, y: real)

  /**
   * The wheel delta in pixels for a `WheelEvent` whose delta is `(dx, dy)`
   * in units of `mode`, in a window `sizeDp` large; an unknown mode gives none.
   */
  function WheelDelta(mode: u32, dx: real, dy: real, sizeDp: Vec2): (r: Option<Vec2>)
    ensures r.Some? <==> mode == DOM_DELTA_PIXEL || mode == DOM_DELTA_LINE || mode == DOM_DELTA_PAGE
  {
    if mode == DOM_DELTA_PIXEL then Some(Vec2(dx, dy))
    else if mode == DOM_DELTA_LINE then Some(Vec2(LINE_STEP * dx, LINE_STEP * dy))
    else if mode == DOM_DELTA_PAGE then Some(Vec2(sizeDp.x * dx, sizeDp.y * dy))
    else None
  }

  /**
   * One unit along each axis: a pixel is a pixel, a line is 35 pixels and a
   * page is the window's extent on that axis.
   */
  lemma WheelDeltaUnits(sizeDp: Vec2)
    ensures WheelDelta(DOM_DELTA_PIXEL, 1.0, 0.0, sizeDp) == Some(Vec2(1.0, 0.0))
    ensures WheelDelta(DOM_DELTA_PIXEL, 0.0, 1.0, sizeDp) == Some(Vec2(0.0, 1.0))
    ensures WheelDelta(DOM_DELTA_LINE, 1.0, 0.0, sizeDp) == Some(Vec2(35.0, 0.0))
    ensures WheelDelta(DOM_DELTA_LINE, 0.0, 1.0, sizeDp) == Some(Vec2(0.0, 35.0))
    ensures WheelDelta(DOM_DELTA_PAGE, 1.0, 0.0, sizeDp) == Some(Vec2(sizeDp.x, 0.0))
    ensures WheelDelta(DOM_DELTA_PAGE, 0.0, 1.0, sizeDp) == Some(Vec2(0.0, sizeDp.y))
  {
  }

  /**
   * Every known mode converts each axis independently and linearly: the
   * delta is `dx` times the unit of the x axis plus `dy` times the unit of
   * the y axis, so `WheelDeltaUnits` fixes the conversion of every delta.
   */
  lemma WheelDeltaLinear(mode: u32, dx: real, dy: real, sizeDp: Vec2)
    requires WheelDelta(mode, dx, dy, sizeDp).Some?
    ensures WheelDelta(mode, 1.0, 0.0, sizeDp).Some? && WheelDelta(mode, 0.0, 1.0, sizeDp).Some?
    ensures
      var ux := WheelDelta(mode, 1.0, 0.0, sizeDp).value;
      var uy := WheelDelta(mode, 0.0, 1.0, sizeDp).value;
      WheelDelta(mode, dx, dy, sizeDp).value == Vec2(dx * ux.x + dy * uy.x, dx * ux.y + dy * uy.y)
  {
  }

  /**
   * Every known mode keeps the direction of the scroll on both axes, given
   * a window of positive size for the page mode.
   */
  lemma WheelDeltaKeepsDirection(mode: u32, dx: real, dy: real, sizeDp: Vec2)
    requires WheelDelta(mode, dx, dy, sizeDp).Some?
    requires sizeDp.x > 0.0 && sizeDp.y > 0.0
    ensures WheelDelta(mode, dx, dy, sizeDp).value.x > 0.0 <==> dx > 0.0
    ensures WheelDelta(mode, dx, dy, sizeDp).value.x < 0.0 <==> dx < 0.0
    ensures WheelDelta(mode, dx, dy, sizeDp).value.y > 0.0 <==> dy > 0.0
    ensures WheelDelta(mode, dx, dy, sizeDp).value.y < 0.0 <==> dy < 0.0
  {
    if mode == DOM_DELTA_PAGE {
      ProductSign(sizeDp.x, dx);
      ProductSign(sizeDp.y, dy);
    }
  }

  /** Scaling by a positive factor keeps the sign. */
  lemma ProductSign(a: real, d: real)
    requires a > 0.0
    ensures a * d > 0.0 <==> d > 0.0
    ensures a * d < 0.0 <==> d < 0.0
  {
    if d > 0.0 {
      assert a * d > 0.0;
    } else if d < 0.0 {
      assert a * d < 0.0;
    } else {
      assert a * d == 0.0;
    }
  }

  // ---------------------------------------------------------------------------
  // Pointer events

  /** The mouse event of pointer 0, the primary pointer, with the held buttons of `mask`. */
  function MouseEvent(wheel: Vec2, mask: bv16, modifiers: set<Modifier>,
                      button: PointerButton, count: nat): (e: PointerEvent)
    ensures e.pointerId == 0 && e.isPrimary
    ensures e.kind == Mouse(wheel.x, wheel.y)
    ensures e.buttons == GetButtons(mask) && IsButtonSet(e.buttons)
    ensures e.modifiers == modifiers && e.button == button && e.count == count
  {
    PointerEvent(0, true, Mouse(wheel.x, wheel.y), GetButtons(mask), modifiers, button, count)
  }

  /** The event a `mousedown` or `mouseup` delivers, or none when its button number is unknown. */
  function ButtonEvent(button: i16, mask: bv16, modifiers: set<Modifier>, count: nat): (r: Option<PointerEvent>)
    ensures r.Some? <==> GetButton(button).Some?
    ensures r.Some? ==> r.value == MouseEvent(Vec2(0.0, 0.0), mask, modifiers, GetButton(button).value, count)
  {
    match GetButton(button)
    case Some(b) => Some(MouseEvent(Vec2(0.0, 0.0), mask, modifiers, b, count))
    case None => None
  }

  /** The event a `wheel` event delivers, or none when its delta mode is unknown. */
  function WheelEvent(mode: u32, dx: real, dy: real, sizeDp: Vec2,
                      mask: bv16, modifiers: set<Modifier>): (r: Option<PointerEvent>)
    ensures r.Some? <==> WheelDelta(mode, dx, dy, sizeDp).Some?
    ensures r.Some? ==> r.value.kind == Mouse(WheelDelta(mode, dx, dy, sizeDp).value.x, WheelDelta(mode, dx, dy, sizeDp).value.y)
    ensures r.Some? ==> r.value.button == NoButton && r.value.count == 0 && r.value.buttons == GetButtons(mask)
  {
    match WheelDelta(mode, dx, dy, sizeDp)
    case Some(delta) => Some(MouseEvent(delta, mask, modifiers, NoButton, 0))
    case None => None
  }
}
