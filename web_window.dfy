/**
 * Per-window scheduling of the web backend: the idle queue and the
 * animation frame that drains it, the `rendering_soon` flag that coalesces
 * repaint requests, the invalid region, `setTimeout` timers and the active
 * text field.
 *
 * The browser is not modelled as code. A `requestAnimationFrame` call
 * appends a `Frame` to the window's `frames`, and a `setTimeout` call a
 * `Timeout` to its `timeouts`; `RunFrame` and `FireTimeout` are the browser
 * running one of them. `null` stands for a window whose state has been
 * dropped, so that a weak reference to it no longer upgrades.
 */
module WebWindow {
  import opened Shell
  import opened Wrappers
  import opened WebEvents

  datatype IdleKind = Callback(callback: nat) | Token(token: nat)

  /** The idle queue a window shares with its idle handles. */
  class IdleQueue {
    var items: seq<IdleKind>

    constructor()
      ensures items == []
    {
      items := [];
    }
  }

  /** A callback waiting for the next animation frame. */
  datatype Frame = ProcessIdleFrame | RenderFrame

  /** A `setTimeout` callback: the token it delivers and its delay in milliseconds. */
  datatype Timeout = Timeout(token: nat, delayMs: int)

  /** The handler call one idle item makes. */
  function ItemCall(item: IdleKind): HandlerCall {
    match item
    case Callback(c) => IdleCallback(c)
    case Token(t) => Idle(t)
  }

  /** The handler calls that deliver `q` in order. */
  function IdleCalls(q: seq<IdleKind>): (calls: seq<HandlerCall>)
    ensures |calls| == |q|
    ensures forall i :: 0 <= i < |q| ==> calls[i] == ItemCall(q[i])
  {
    if |q| == 0 then [] else IdleCalls(q[..|q| - 1]) + [ItemCall(q[|q| - 1])]
  }

  /**
   * The delay handed to `setTimeout`: whole milliseconds until the deadline,
   * zero for a deadline already past, and `i32::MAX` when the count does not
   * fit a 32-bit signed integer.
   */
  function TimeoutDelay(deadline: int, now: int): (ms: int)
    ensures 0 <= ms <= I32_MAX
    ensures deadline <= now ==> ms == 0
    ensures now < deadline && MillisUntil(deadline, now) <= I32_MAX ==> ms == MillisUntil(deadline, now)
    ensures now < deadline && MillisUntil(deadline, now) > I32_MAX ==> ms == I32_MAX
  {
    var interval := if deadline <= now then 0 else MillisUntil(deadline, now);
    if interval <= I32_MAX then interval else I32_MAX
  }

  /**
   * A timer never fires early: the delay is at most the time to the
   * deadline, and unless it was clamped, less than a millisecond short of it.
   */
  lemma TimeoutDelayBounds(deadline: int, now: int)
    ensures TimeoutDelay(deadline, now) * NANOS_PER_MILLI <= if deadline <= now then 0 else deadline - now
    ensures TimeoutDelay(deadline, now) < I32_MAX && now < deadline ==>
      deadline - now < (TimeoutDelay(deadline, now) + 1) * NANOS_PER_MILLI
  {
    if now < deadline {
      var ms := MillisUntil(deadline, now);
      if ms > I32_MAX {
        assert I32_MAX * NANOS_PER_MILLI <= ms * NANOS_PER_MILLI;
      }
    }
  }

  /** The state of a live web window. */
  class WindowState {
    const idleQueue: IdleQueue

    /** The handler's `RefCell` is mutably borrowed. */
    var handlerBorrowed: bool
    /** Every call made into the client's handler, oldest first. */
    var log: seq<HandlerCall>
    var invalid: Region
    var renderingSoon: bool
    /** Animation-frame callbacks requested and not yet run, oldest first. */
    var frames: seq<Frame>
    /** `setTimeout` callbacks requested and not yet run. */
    var timeouts: seq<Timeout>
    var activeTextInput: Option<nat>
    /** The window size in whole device-independent pixels. */
    var areaDp: (int, int)

    constructor(areaDp: (int, int))
      ensures fresh(idleQueue) && idleQueue.items == []
      ensures this.areaDp == areaDp
      ensures !handlerBorrowed && log == [] && invalid == {} && !renderingSoon
      ensures frames == [] && timeouts == [] && activeTextInput == None
      ensures Scheduled()
    {
      idleQueue := new IdleQueue();
      this.areaDp := areaDp;
      handlerBorrowed := false;
      log := [];
      invalid := {};
      renderingSoon := false;
      frames := [];
      timeouts := [];
      activeTextInput := None;
    }

    /**
     * One idle-processing frame is pending exactly while idle work is queued,
     * and one render frame exactly while `rendering_soon` is set: no queued
     * work is left without a frame to run it and no frame is requested twice.
     */
    ghost predicate Scheduled()
      reads this, idleQueue
    {
      multiset(frames)[ProcessIdleFrame] == (if |idleQueue.items| > 0 then 1 else 0)
      && multiset(frames)[RenderFrame] == (if renderingSoon then 1 else 0)
    }

    /** Paints the invalid region and then clears it. */
    method Render()
      requires !handlerBorrowed
      modifies this`log, this`invalid
      ensures log == old(log) + [PreparePaint, Paint(old(invalid))]
      ensures invalid == {}
    {
      log := log + [PreparePaint];
      log := log + [Paint(invalid)];
      invalid := {};
    }

    /** Delivers every queued idle item in the order queued and empties the queue. */
    method ProcessIdleQueue()
      requires !handlerBorrowed
      modifies this`log, idleQueue
      ensures log == old(log) + IdleCalls(old(idleQueue.items))
      ensures idleQueue.items == []
    {
      var queue := idleQueue.items;
      idleQueue.items := [];
      for i := 0 to |queue|
        invariant log == old(log) + IdleCalls(queue[..i])
        invariant idleQueue.items == []
      {
        assert queue[..i + 1][..i] == queue[..i];
        log := log + [ItemCall(queue[i])];
      }
      assert queue[..|queue|] == queue;
    }

    /** The browser runs the oldest pending animation-frame callback. */
    method RunFrame()
      requires |frames| > 0 && Scheduled() && !handlerBorrowed
      modifies this`frames, this`log, this`invalid, this`renderingSoon, idleQueue
      ensures frames == old(frames[1..]) && Scheduled()
      ensures old(frames[0]) == ProcessIdleFrame ==>
        log == old(log) + IdleCalls(old(idleQueue.items)) && idleQueue.items == []
        && invalid == old(invalid) && renderingSoon == old(renderingSoon)
      ensures old(frames[0]) == RenderFrame ==>
        log == old(log) + [PreparePaint, Paint(old(invalid))] && invalid == {}
        && !renderingSoon && idleQueue.items == old(idleQueue.items)
    {
      var frame := frames[0];
      assert frames == [frame] + frames[1..];
      frames := frames[1..];
      match frame {
        case ProcessIdleFrame =>
          ProcessIdleQueue();
        case RenderFrame =>
          renderingSoon := false;
          Render();
      }
    }

    /** The browser runs the timeout at `k`; the handler sees it unless it is borrowed. */
    method FireTimeout(k: nat)
      requires k < |timeouts|
      modifies this`timeouts, this`log
      ensures timeouts == old(timeouts[..k] + timeouts[k + 1..])
      ensures log == old(log) + (if handlerBorrowed then [] else [TimerFired(old(timeouts[k]).token)])
    {
      var t := timeouts[k];
      timeouts := timeouts[..k] + timeouts[k + 1..];
      if !handlerBorrowed {
        log := log + [TimerFired(t.token)];
      }
    }

    /** A `mousedown` reaches the handler only when its button number names a button. */
    method OnMouseDown(button: i16, mask: bv16, modifiers: set<Modifier>, count: nat)
      requires !handlerBorrowed
      modifies this`log
      ensures GetButton(button).None? ==> log == old(log)
      ensures GetButton(button).Some? ==>
        log == old(log) + [PointerDown(MouseEvent(Vec2(0.0, 0.0), mask, modifiers, GetButton(button).value, count))]
    {
      var e := ButtonEvent(button, mask, modifiers, count);
      if e.Some? {
        log := log + [PointerDown(e.value)];
      }
    }

    /** A `mouseup` reaches the handler only when its button number names a button. */
    method OnMouseUp(button: i16, mask: bv16, modifiers: set<Modifier>)
      requires !handlerBorrowed
      modifies this`log
      ensures GetButton(button).None? ==> log == old(log)
      ensures GetButton(button).Some? ==>
        log == old(log) + [PointerUp(MouseEvent(Vec2(0.0, 0.0), mask, modifiers, GetButton(button).value, 0))]
    {
      var e := ButtonEvent(button, mask, modifiers, 0);
      if e.Some? {
        log := log + [PointerUp(e.value)];
      }
    }

    /** Every `mousemove` reaches the handler, with no triggering button. */
    method OnMouseMove(mask: bv16, modifiers: set<Modifier>)
      requires !handlerBorrowed
      modifies this`log
      ensures log == old(log) + [PointerMove(MouseEvent(Vec2(0.0, 0.0), mask, modifiers, NoButton, 0))]
    {
      log := log + [PointerMove(MouseEvent(Vec2(0.0, 0.0), mask, modifiers, NoButton, 0))];
    }

    /** A `wheel` event reaches the handler only when its delta mode is known. */
    method OnWheel(mode: u32, dx: real, dy: real, mask: bv16, modifiers: set<Modifier>)
      requires !handlerBorrowed
      modifies this`log
      ensures WheelDelta(mode, dx, dy, Vec2(areaDp.0 as real, areaDp.1 as real)).None? ==> log == old(log)
      ensures WheelDelta(mode, dx, dy, Vec2(areaDp.0 as real, areaDp.1 as real)).Some? ==>
        log == old(log) + [Wheel(WheelEvent(mode, dx, dy, Vec2(areaDp.0 as real, areaDp.1 as real), mask, modifiers).value)]
    {
      var e := WheelEvent(mode, dx, dy, Vec2(areaDp.0 as real, areaDp.1 as real), mask, modifiers);
      if e.None? {
        return;
      }
      log := log + [Wheel(e.value)];
    }
  }

  /** The window state a weak reference reaches: none once the window is gone. */
  function LiveOf(s: WindowState?): (live: set<WindowState>)
    ensures s != null <==> s in live
    ensures forall t :: t in live ==> t == s
  {
    if s == null then {} else {s}
  }

  /** A cloneable handle that queues idle work for a window; the window may be gone. */
  class IdleHandle {
    const state: WindowState?
    const queue: IdleQueue

    constructor(state: WindowState?, queue: IdleQueue)
      requires state != null ==> state.idleQueue == queue
      ensures this.state == state && this.queue == queue
    {
      this.state := state;
      this.queue := queue;
    }

    /**
     * Pushes an item; only the push that makes the queue non-empty asks for
     * an animation frame to process it, and only while the window is alive.
     */
    method AddIdle(item: IdleKind)
      requires state != null ==> state.idleQueue == queue && state.Scheduled()
      modifies queue, LiveOf(state)`frames
      ensures queue.items == old(queue.items) + [item]
      ensures state != null ==> state.frames == old(state.frames) + (if old(queue.items) == [] then [ProcessIdleFrame] else [])
      ensures state != null ==> state.Scheduled()
    {
      queue.items := queue.items + [item];
      if |queue.items| == 1 {
        if state != null {
          state.frames := state.frames + [ProcessIdleFrame];
        }
      }
    }

    method AddIdleCallback(callback: nat)
      requires state != null ==> state.idleQueue == queue && state.Scheduled()
      modifies queue, LiveOf(state)`frames
      ensures queue.items == old(queue.items) + [Callback(callback)]
      ensures state != null ==> state.frames == old(state.frames) + (if old(queue.items) == [] then [ProcessIdleFrame] else [])
      ensures state != null ==> state.Scheduled()
    {
      AddIdle(Callback(callback));
    }

    method AddIdleToken(token: nat)
      requires state != null ==> state.idleQueue == queue && state.Scheduled()
      modifies queue, LiveOf(state)`frames
      ensures queue.items == old(queue.items) + [Token(token)]
      ensures state != null ==> state.frames == old(state.frames) + (if old(queue.items) == [] then [ProcessIdleFrame] else [])
      ensures state != null ==> state.Scheduled()
    {
      AddIdle(Token(token));
    }
  }

  /** A client's handle on a web window: a weak reference to its state. */
  class WindowHandle {
    const state: WindowState?

    constructor(state: WindowState?)
      ensures this.state == state
    {
      this.state := state;
    }

    /** Two handles are equal when both windows are gone or both name the same live window. */
    function Equals(other: WindowHandle): (r: bool)
      ensures r <==> state == other.state
    {
      if state == null && other.state == null then true
      else if state != null && other.state != null then state == other.state
      else false
    }

    /** Asks for a render frame unless one is already pending. */
    method RenderSoon()
      requires state != null ==> state.Scheduled()
      modifies LiveOf(state)`renderingSoon, LiveOf(state)`frames
      ensures state != null ==> state.renderingSoon
      ensures state != null ==> state.frames == old(state.frames) + (if old(state.renderingSoon) then [] else [RenderFrame])
      ensures state != null ==> state.Scheduled()
    {
      if state != null && !state.renderingSoon {
        state.renderingSoon := true;
        state.frames := state.frames + [RenderFrame];
      }
    }

    method RequestAnimFrame()
      requires state != null ==> state.Scheduled()
      modifies LiveOf(state)`renderingSoon, LiveOf(state)`frames
      ensures state != null ==> state.renderingSoon
      ensures state != null ==> state.frames == old(state.frames) + (if old(state.renderingSoon) then [] else [RenderFrame])
      ensures state != null ==> state.Scheduled()
    {
      RenderSoon();
    }

    /** Adds a rectangle to the invalid region and asks for a render frame. */
    method InvalidateRect(rect: Rect)
      requires state != null ==> state.Scheduled()
      modifies LiveOf(state)`invalid, LiveOf(state)`renderingSoon, LiveOf(state)`frames
      ensures state != null ==> state.invalid == old(state.invalid) + {rect} && state.renderingSoon
      ensures state != null ==> state.frames == old(state.frames) + (if old(state.renderingSoon) then [] else [RenderFrame])
      ensures state != null ==> state.Scheduled()
    {
      if state != null {
        state.invalid := state.invalid + {rect};
      }
      RenderSoon();
    }

    /** Invalidates the whole window. */
    method Invalidate()
      requires state != null ==> state.Scheduled()
      modifies LiveOf(state)`invalid, LiveOf(state)`renderingSoon, LiveOf(state)`frames
      ensures state != null ==>
        state.invalid == old(state.invalid) + {Rect(0, 0, state.areaDp.0, state.areaDp.1)} && state.renderingSoon
      ensures state != null ==> state.frames == old(state.frames) + (if old(state.renderingSoon) then [] else [RenderFrame])
      ensures state != null ==> state.Scheduled()
    {
      if state != null {
        state.invalid := state.invalid + {Rect(0, 0, state.areaDp.0, state.areaDp.1)};
      }
      RenderSoon();
    }

    /** Forgets a text field; only the active field can be cleared. */
    method RemoveTextField(token: nat)
      modifies LiveOf(state)`activeTextInput
      ensures state != null ==>
        state.activeTextInput == (if old(state.activeTextInput) == Some(token) then None else old(state.activeTextInput))
    {
      if state != null && state.activeTextInput == Some(token) {
        state.activeTextInput := None;
      }
    }

    method SetFocusedTextField(field: Option<nat>)
      modifies LiveOf(state)`activeTextInput
      ensures state != null ==> state.activeTextInput == field
    {
      if state != null {
        state.activeTextInput := field;
      }
    }

    /**
     * Hands out the token `drawn` (the one the new timer draws) and, while
     * the window is alive, schedules a timeout with the clamped delay.
     */
    method RequestTimer(deadline: int, now: int, drawn: nat) returns (token: nat)
      modifies LiveOf(state)`timeouts
      ensures token == drawn
      ensures state != null ==> state.timeouts == old(state.timeouts) + [Timeout(drawn, TimeoutDelay(deadline, now))]
    {
      var interval := TimeoutDelay(deadline, now);
      token := drawn;
      if state != null {
        state.timeouts := state.timeouts + [Timeout(token, interval)];
      }
    }
  }

  /**
   * Idle work queued on a window with no frame pending is delivered, alone and
   * in full, by the next animation frame the browser runs.
   */
  method QueueThenRunFrame(h: IdleHandle, item: IdleKind)
    requires h.state != null && h.state.idleQueue == h.queue && h.state.Scheduled()
    requires h.state.frames == [] && !h.state.handlerBorrowed
    modifies h.queue, h.state`frames, h.state`log, h.state`invalid, h.state`renderingSoon
    ensures h.state.log == old(h.state.log) + [ItemCall(item)]
    ensures h.queue.items == [] && h.state.frames == [] && h.state.Scheduled()
  {
    var s := h.state;
    h.AddIdle(item);
    s.RunFrame();
  }

  /** Handle equality is an equivalence relation. */
  lemma EqualsIsEquivalence(a: WindowHandle, b: WindowHandle, c: WindowHandle)
    ensures a.Equals(a)
    ensures a.Equals(b) == b.Equals(a)
    ensures a.Equals(b) && b.Equals(c) ==> a.Equals(c)
  {
  }
}
