/**
 * Platform-independent vocabulary shared by the X11 and web backends:
 * pointer buttons and button sets, keyboard modifiers, pointer events,
 * invalid regions, and the calls a backend makes into the client's
 * window handler.
 *
 * The client handler is not modelled as code: every call a backend makes
 * into it is recorded as a `HandlerCall` appended to a per-window log.
 */
module Shell {

  type u16 = x: int | 0 <= x < 0x1_0000
  type u32 = x: int | 0 <= x < 0x1_0000_0000

  const I32_MAX: int := 0x7FFF_FFFF

  /** Times are nanoseconds on a monotonic clock. */
  const NANOS_PER_MILLI: int := 1_000_000

  /** Whole milliseconds from `now` until `deadline`, rounded down as `Duration::as_millis` does. */
  function MillisUntil(deadline: int, now: int): (ms: nat)
    requires now < deadline
    ensures ms * NANOS_PER_MILLI <= deadline - now < (ms + 1) * NANOS_PER_MILLI
  {
    (deadline - now) / NANOS_PER_MILLI
  }

  /** The triggering button of a pointer event; `NoButton` is the source's `PointerButton::None`. */
  datatype PointerButton = NoButton | Primary | Secondary | Auxiliary | X1 | X2

  /** Canonical keyboard modifiers. */
  datatype Modifier = Shift | Control | Alt | Meta | AltGraph | CapsLock | NumLock | ScrollLock

  /**
   * A set of held buttons. `NoButton` has no flag bit in the button set,
   * so adding or removing it leaves the set as it is.
   */
  predicate IsButtonSet(s: set<PointerButton>) {
    NoButton !in s
  }

  function With(s: set<PointerButton>, b: PointerButton): (r: set<PointerButton>)
    requires IsButtonSet(s)
    ensures IsButtonSet(r)
    ensures forall x :: x in r <==> x in s || (x == b && b != NoButton)
  {
    if b == NoButton then s else s + {b}
  }

  function Without(s: set<PointerButton>, b: PointerButton): (r: set<PointerButton>)
    requires IsButtonSet(s)
    ensures IsButtonSet(r)
    ensures forall x :: x in r <==> x in s && x != b
  {
    s - {b}
  }

  /** Releasing a button that was just pressed gives back the held set without it. */
  lemma WithoutUndoesWith(s: set<PointerButton>, b: PointerButton)
    requires IsButtonSet(s)
    ensures Without(With(s, b), b) == s - {b}
    ensures b !in s ==> Without(With(s, b), b) == s
  {
  }

  /** What kind of device produced a pointer event, with the wheel delta of a mouse. */
  datatype PointerKind =
    | Mouse(wheelDx: real, wheelDy: real)
    | Pen
    | Eraser
    | Touch

  /**
   * A normalised pointer event. Position, pressure, tilt and contact
   * geometry are floating-point and are not part of the model.
   */
  datatype PointerEvent = PointerEvent(
    pointerId: int,
    isPrimary: bool,
    kind: PointerKind,
    buttons: set<PointerButton>,
    modifiers: set<Modifier>,
    button: PointerButton,
    count: nat)

  /** A rectangle of the invalid region, with integer corners. */
  datatype Rect = Rect(x0: int, y0: int, x1: int, y1: int)

  /** The region waiting to be repainted: a union of rectangles. */
  type Region = set<Rect>

  /** One call from a backend into the client's window handler. */
  datatype HandlerCall =
    | SizeChanged(width: int, height: int)
    | ScaleChanged
    | PreparePaint
    | Paint(region: Region)
    | PointerDown(event: PointerEvent)
    | PointerUp(event: PointerEvent)
    | PointerMove(event: PointerEvent)
    | Wheel(event: PointerEvent)
    | KeyDown(scancode: nat)
    | KeyUp(scancode: nat)
    | GotFocus
    | RequestClose
    | Destroy
    | TimerFired(timer: nat)
    | Idle(idleToken: nat)
    | IdleCallback(callback: nat)
    | AcquireInputLock(field: nat)
    | ClearComposition(field: nat)
    | SimulateInput(field: nat)
    | ReleaseInputLock(field: nat)

  /** The handler calls that clear the composition range of one text field. */
  function ClearCompositionCalls(field: nat): (calls: seq<HandlerCall>)
    ensures |calls| == 3 && calls[0] == AcquireInputLock(field) && calls[2] == ReleaseInputLock(field)
  {
    [AcquireInputLock(field), ClearComposition(field), ReleaseInputLock(field)]
  }

  /** The abstract error of a `Result<_, Error>` of the source. */
  datatype ShellError =
    | NoWindow(id: nat)
    | StateBorrowed
    | InvalidBorrowed
    | UnexpectedWheelButton(detail: nat)
    | ProtocolError
    | ConnectionError
    | PollError
    | PipeReadError
}
