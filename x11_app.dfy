/**
 * The X11 application: the registry of live windows, the quit state
 * machine, the routing of X events to windows, and the work the event loop
 * does after dispatching events (firing timers, flushing idle work).
 *
 * The application state lock is a busy flag: while it is held, every
 * operation that borrows the state fails or is skipped, as in the source.
 */
module X11App {
  import opened Shell
  import opened Wrappers
  import opened X11Events
  import opened X11Window
  import opened X11Loop

  /**
   * The X events the application routes; all others are ignored. An expose
   * carries the outcomes of the wake-up writes its redraw request meets.
   */
  datatype XEvent =
    | Expose(window: nat, rect: Rect, count: nat, wakeWrites: seq<WriteResult>)
    | KeyPress(window: nat, scancode: nat, consumed: bool, cancelOnSwitch: bool, cancelOnReset: bool)
    | KeyRelease(window: nat, scancode: nat, cancelOnSwitch: bool, cancelOnReset: bool)
    | ButtonPress(button: XButtonEvent, device: Option<DeviceInfo>, source: Option<DeviceInfo>)
    | ButtonRelease(button: XButtonEvent, device: Option<DeviceInfo>, source: Option<DeviceInfo>)
    | Motion(button: XButtonEvent, device: Option<DeviceInfo>, source: Option<DeviceInfo>)
    | TouchBegin(touch: XTouchEvent)
    | TouchUpdate(touch: XTouchEvent)
    | TouchEnd(touch: XTouchEvent)
    | DestroyNotify(window: nat)
    | ConfigureNotify(window: nat, width: int, height: int)
    | FocusIn(window: nat)
    | ErrorEvent
    | OtherEvent
  {
    /** The window an event is addressed to, when it is addressed to one. */
    function Target(): Option<nat> {
      match this
      case Expose(w, _, _, _) => Some(w)
      case KeyPress(w, _, _, _, _) => Some(w)
      case KeyRelease(w, _, _, _) => Some(w)
      case ButtonPress(b, _, _) => Some(b.window)
      case ButtonRelease(b, _, _) => Some(b.window)
      case Motion(b, _, _) => Some(b.window)
      case TouchBegin(t) => Some(t.window)
      case TouchUpdate(t) => Some(t.window)
      case TouchEnd(t) => Some(t.window)
      case DestroyNotify(w) => Some(w)
      case ConfigureNotify(w, _, _) => Some(w)
      case FocusIn(w) => Some(w)
      case ErrorEvent => None
      case OtherEvent => None
    }
  }

  /** The window-level half of `handle_event`: hands an event to the window it is addressed to. */
  method DeliverToWindow(w: Window, ev: XEvent) returns (o: Outcome<ShellError>)
    requires ev.Target().Some?
    requires !ev.ButtonPress? && !ev.ButtonRelease? && !ev.DestroyNotify?
    modifies w, w.idleQueue, w.pipe
    ensures !ev.Expose? && !ev.ConfigureNotify? ==> o.Pass?
  {
    match ev {
      case Expose(_, rect, count, writes) =>
        o := w.HandleExpose(rect, count, writes);
      case KeyPress(_, scancode, consumed, cancelOnSwitch, cancelOnReset) =>
        w.HandleKeyEvent(scancode, true, consumed, cancelOnSwitch, cancelOnReset);
        o := Pass;
      case KeyRelease(_, scancode, cancelOnSwitch, cancelOnReset) =>
        w.HandleKeyEvent(scancode, false, false, cancelOnSwitch, cancelOnReset);
        o := Pass;
      case Motion(b, device, source) =>
        w.HandleMotionNotify(b, device, source);
        o := Pass;
      case TouchBegin(t) =>
        w.HandleTouchBegin(t);
        o := Pass;
      case TouchUpdate(t) =>
        w.HandleTouchUpdate(t);
        o := Pass;
      case TouchEnd(t) =>
        w.HandleTouchEnd(t);
        o := Pass;
      case ConfigureNotify(_, width, height) =>
        o := w.SizeChanged(width, height);
      case FocusIn(_) =>
        w.HandleGotFocus();
        o := Pass;
    }
  }

  /** X button codes 4 to 7 are scroll steps, not buttons. */
  predicate IsWheelButton(detail: u32) {
    4 <= detail <= 7
  }

  /** `|m - {k}|`: removing a key that is present shrinks a map by one. */
  lemma RemoveShrinks<V>(m: map<nat, V>, k: nat)
    ensures |m - {k}| == if k in m then |m| - 1 else |m|
  {
    var rest := m - {k};
    assert rest.Keys == m.Keys - {k};
    if k in m {
      assert m.Keys == rest.Keys + {k};
      assert |m.Keys| == |rest.Keys| + 1;
    } else {
      assert rest.Keys == m.Keys;
    }
  }

  /** No element of `s` occurs twice. */
  predicate Distinct(s: seq<nat>) {
    forall i, j :: 0 <= i < j < |s| ==> s[i] != s[j]
  }

  /** The destroy requests for the windows `order`, in that order. */
  function DestroyRequests(order: seq<nat>): (rs: seq<XRequest>)
    ensures |rs| == |order|
    ensures forall i :: 0 <= i < |order| ==> rs[i] == DestroyWindow(order[i])
  {
    seq(|order|, i requires 0 <= i < |order| => DestroyWindow(order[i]))
  }

  lemma DestroyRequestsSnoc(order: seq<nat>, id: nat)
    ensures DestroyRequests(order + [id]) == DestroyRequests(order) + [DestroyWindow(id)]
  {
  }

  /** A repetition-free sequence is as long as the set of its elements. */
  lemma {:induction false} DistinctLength(s: seq<nat>, elems: set<nat>)
    requires Distinct(s)
    requires forall k :: k in s <==> k in elems
    ensures |s| == |elems|
    decreases |s|
  {
    if |s| > 0 {
      var last := s[|s| - 1];
      var init := s[..|s| - 1];
      assert forall k :: k in init <==> k in elems - {last} by {
        assert s == init + [last];
      }
      DistinctLength(init, elems - {last});
    } else {
      assert elems == {};
    }
  }

  /** Distinct windows get distinct destroy requests. */
  lemma DistinctRequests(order: seq<nat>)
    requires Distinct(order)
    ensures forall i, j :: 0 <= i < j < |order| ==> DestroyRequests(order)[i] != DestroyRequests(order)[j]
  {
  }

  /** How many of the handler results `rs` are errors. */
  function Failures(rs: seq<Result<bool, ShellError>>): (n: nat)
    ensures n <= |rs|
    ensures n == 0 <==> forall j :: 0 <= j < |rs| ==> rs[j].Success?
  {
    if rs == [] then 0
    else Failures(rs[..|rs| - 1]) + (if rs[|rs| - 1].Failure? then 1 else 0)
  }

  class App {
    /** The application's own hidden window. */
    const appWindowId: nat
    const conn: Connection
    const pipe: IdlePipe

    var windows: map<nat, Window>
    var quitting: bool
    /** `finalize_quit` has closed the idle pipe. */
    var pipeClosed: bool
    /** The application state lock is held. */
    var stateBusy: bool
    var lastIdleTime: int

    constructor(appWindowId: nat, conn: Connection, pipe: IdlePipe, now: int)
      ensures this.appWindowId == appWindowId && this.conn == conn && this.pipe == pipe
      ensures windows == map[] && !quitting && !pipeClosed && !stateBusy && lastIdleTime == now
      ensures Valid()
    {
      this.appWindowId := appWindowId;
      this.conn := conn;
      this.pipe := pipe;
      windows := map[];
      quitting := false;
      pipeClosed := false;
      stateBusy := false;
      lastIdleTime := now;
    }

    /** Every registered window is filed under its own id and shares the application's connection and pipe. */
    predicate Valid()
      reads this
    {
      forall id :: id in windows ==> windows[id].id == id && windows[id].conn == conn && windows[id].pipe == pipe
    }

    /** The idle queues of the registered windows. */
    function Queues(): set<IdleQueue>
      reads this
    {
      set w | w in windows.Values :: w.idleQueue
    }

    /** The ids of the registered windows not yet being destroyed. */
    function Undestroyed(): (ids: set<nat>)
      reads this`windows, windows.Values`destroyed
      ensures forall id :: id in ids <==> id in windows && !windows[id].destroyed
    {
      set id | id in windows && !windows[id].destroyed
    }

    /** Registers a window; fails when the state is borrowed. */
    method AddWindow(id: nat, w: Window) returns (r: Outcome<ShellError>)
      requires Valid()
      requires w.id == id && w.conn == conn && w.pipe == pipe
      modifies this`windows
      ensures Valid()
      ensures r.Fail? <==> stateBusy
      ensures r.Fail? ==> r.error == StateBorrowed && windows == old(windows)
      ensures r.Pass? ==> windows == old(windows)[id := w]
    {
      if stateBusy {
        return Fail(StateBorrowed);
      }
      windows := windows[id := w];
      return Pass;
    }

    /** Forgets a window and returns how many remain; fails when the state is borrowed. */
    method RemoveWindow(id: nat) returns (r: Result<nat, ShellError>)
      requires Valid()
      modifies this`windows
      ensures Valid()
      ensures r.Failure? <==> stateBusy
      ensures r.Failure? ==> r.error == StateBorrowed && windows == old(windows)
      ensures r.Success? ==> (windows == old(windows) - {id} && id !in windows
        && r.value == |windows| == (if id in old(windows) then |old(windows)| - 1 else |old(windows)|))
    {
      if stateBusy {
        return Failure(StateBorrowed);
      }
      RemoveShrinks(windows, id);
      windows := windows - {id};
      return Success(|windows|);
    }

    /** The window with this id; an unknown id or a borrowed state is an error, not a fault. */
    function WindowOf(id: nat): (r: Result<Window, ShellError>)
      reads this
      ensures r.Success? <==> !stateBusy && id in windows
      ensures r.Success? ==> r.value == windows[id]
      ensures r.Failure? ==> r.error == if stateBusy then StateBorrowed else NoWindow(id)
    {
      if stateBusy then Failure(StateBorrowed)
      else if id in windows then Success(windows[id])
      else Failure(NoWindow(id))
    }

    /** Destroys the application window and closes the idle pipe. */
    method FinalizeQuit()
      modifies conn`requests, this`pipeClosed
      ensures conn.requests == old(conn.requests) + [DestroyWindow(appWindowId)]
      ensures pipeClosed
    {
      conn.requests := conn.requests + [DestroyWindow(appWindowId)];
      pipeClosed := true;
    }

    /**
     * Asks the application to quit. Only the first call does anything: it
     * finalizes at once when no window is left, and otherwise starts
     * destroying every window, each destroy request sent once.
     */
    method Quit()
      requires Valid()
      modifies this`quitting, this`pipeClosed, conn`requests, windows.Values`destroyed
      ensures Valid() && windows == old(windows)
      ensures quitting == (old(quitting) || !stateBusy)
      ensures stateBusy || old(quitting) ==> (conn.requests == old(conn.requests) && pipeClosed == old(pipeClosed)
        && forall id :: id in windows ==> windows[id].destroyed == old(windows[id].destroyed))
      ensures !stateBusy && !old(quitting) && |windows| == 0 ==>
        conn.requests == old(conn.requests) + [DestroyWindow(appWindowId)] && pipeClosed
      ensures !stateBusy && !old(quitting) && |windows| > 0 ==> (pipeClosed == old(pipeClosed)
        && (forall id :: id in windows ==> windows[id].destroyed)
        && |old(conn.requests)| <= |conn.requests| && conn.requests[..|old(conn.requests)|] == old(conn.requests)
        && (forall req :: req in conn.requests[|old(conn.requests)|..] ==>
              req.DestroyWindow? && req.window in windows && !old(windows[req.window].destroyed))
        && (forall id :: id in windows && !old(windows[id].destroyed) ==>
              DestroyWindow(id) in conn.requests[|old(conn.requests)|..])
        && |conn.requests| == |old(conn.requests)| + |old(Undestroyed())|
        && (forall i, j :: |old(conn.requests)| <= i < j < |conn.requests| ==> conn.requests[i] != conn.requests[j]))
    {
      if stateBusy || quitting {
        return;
      }
      quitting := true;
      if |windows| == 0 {
        FinalizeQuit();
        return;
      }
      DestroyAll();
    }

    /** `destroy` on every registered window, in any order; each live window gets one request. */
    method DestroyAll()
      requires Valid()
      modifies conn`requests, windows.Values`destroyed
      ensures forall id :: id in windows ==> windows[id].destroyed
      ensures |old(conn.requests)| <= |conn.requests| && conn.requests[..|old(conn.requests)|] == old(conn.requests)
      ensures forall req :: req in conn.requests[|old(conn.requests)|..] ==>
        req.DestroyWindow? && req.window in windows && !old(windows[req.window].destroyed)
      ensures forall id :: id in windows && !old(windows[id].destroyed) ==>
        DestroyWindow(id) in conn.requests[|old(conn.requests)|..]
      ensures |conn.requests| == |old(conn.requests)| + |old(Undestroyed())|
      ensures forall i, j :: |old(conn.requests)| <= i < j < |conn.requests| ==> conn.requests[i] != conn.requests[j]
    {
      ghost var req0 := conn.requests;
      ghost var live0 := Undestroyed();
      ghost var order: seq<nat> := [];
      var ids := windows.Keys;
      while ids != {}
        invariant ids <= windows.Keys
        invariant conn.requests == req0 + DestroyRequests(order)
        invariant forall k :: k in order <==> k in live0 && k !in ids
        invariant Distinct(order)
        invariant forall id :: id in windows && id !in ids ==> windows[id].destroyed
        invariant forall id :: id in ids ==> (id in live0 <==> !windows[id].destroyed)
        decreases ids
      {
        var id :| id in ids;
        var w := windows[id];
        if id in live0 {
          DestroyRequestsSnoc(order, id);
          order := order + [id];
        }
        w.Destroy();
        ids := ids - {id};
      }
      assert conn.requests[|req0|..] == DestroyRequests(order);
      DistinctLength(order, live0);
      DistinctRequests(order);
    }

    /** A button press: scroll codes are wheel events, all others are button presses. */
    method RouteButtonPress(ev: XButtonEvent, device: Option<DeviceInfo>, source: Option<DeviceInfo>)
      returns (r: Result<bool, ShellError>)
      requires Valid()
      modifies windows.Values
      ensures WindowOf(ev.window).Failure? ==> r == Failure(WindowOf(ev.window).error)
      ensures WindowOf(ev.window).Success? ==> r == Success(false)
      ensures WindowOf(ev.window).Success? && IsWheelButton(ev.detail) ==>
        var w := windows[ev.window];
        w.log == old(w.log) + (if old(w.HandlerFree()) then [Wheel(WheelEventOf(PointerEventOf(ev, device, source), ev.detail).value)] else [])
      ensures WindowOf(ev.window).Success? && !IsWheelButton(ev.detail) ==>
        var w := windows[ev.window];
        w.log == old(w.log) + (if old(w.HandlerFree()) then [PointerDown(PressEvent(PointerEventOf(ev, device, source)))] else [])
      ensures forall id :: id in windows && id != ev.window ==> windows[id].log == old(windows[id].log)
    {
      var found := WindowOf(ev.window);
      if found.Failure? {
        return Failure(found.error);
      }
      var w := found.value;
      if IsWheelButton(ev.detail) {
        var o := w.HandleWheel(ev, device, source);
      } else {
        w.HandleButtonPress(ev, device, source);
      }
      return Success(false);
    }

    /** A button release: the release of a scroll step is ignored. */
    method RouteButtonRelease(ev: XButtonEvent, device: Option<DeviceInfo>, source: Option<DeviceInfo>)
      returns (r: Result<bool, ShellError>)
      requires Valid()
      modifies windows.Values
      ensures WindowOf(ev.window).Failure? ==> r == Failure(WindowOf(ev.window).error)
      ensures WindowOf(ev.window).Success? ==> r == Success(false)
      ensures WindowOf(ev.window).Success? && IsWheelButton(ev.detail) ==>
        windows[ev.window].log == old(windows[ev.window].log)
      ensures WindowOf(ev.window).Success? && !IsWheelButton(ev.detail) ==>
        var w := windows[ev.window];
        w.log == old(w.log) + (if old(w.HandlerFree()) then [PointerUp(ReleaseEvent(PointerEventOf(ev, device, source)))] else [])
      ensures forall id :: id in windows && id != ev.window ==> windows[id].log == old(windows[id].log)
    {
      var found := WindowOf(ev.window);
      if found.Failure? {
        return Failure(found.error);
      }
      if !IsWheelButton(ev.detail) {
        found.value.HandleButtonRelease(ev, device, source);
      }
      return Success(false);
    }

    /**
     * The server destroyed a window. For the application window this ends the
     * loop. Otherwise the window's handler hears of it, the window is
     * forgotten, and the quit is finalized when it was the last one and a quit
     * was requested.
     */
    method RouteDestroyNotify(id: nat) returns (r: Result<bool, ShellError>)
      requires Valid()
      modifies this`windows, this`pipeClosed, conn`requests, windows.Values
      ensures Valid()
      ensures r == Success(true) <==> id == appWindowId
      ensures id == appWindowId || old(WindowOf(id)).Failure? ==>
        windows == old(windows) && conn.requests == old(conn.requests) && pipeClosed == old(pipeClosed)
      ensures id != appWindowId && old(WindowOf(id)).Failure? ==> r == Failure(old(WindowOf(id)).error)
      ensures id != appWindowId && old(WindowOf(id)).Success? ==>
        r == Success(false) && windows == old(windows) - {id}
        && (var w := old(windows)[id]; w.log == old(w.log) + (if old(w.HandlerFree()) then [HandlerCall.Destroy] else []))
        && (|windows| == 0 && quitting ==> conn.requests == old(conn.requests) + [DestroyWindow(appWindowId)] && pipeClosed)
        && (!(|windows| == 0 && quitting) ==> conn.requests == old(conn.requests) && pipeClosed == old(pipeClosed))
    {
      if id == appWindowId {
        return Success(true);
      }
      var found := WindowOf(id);
      if found.Failure? {
        return Failure(found.error);
      }
      found.value.HandleDestroyNotify();
      // The state was free for the lookup, so the removal cannot fail.
      var left := RemoveWindow(id);
      if left.value == 0 && quitting {
        FinalizeQuit();
      }
      return Success(false);
    }

    /**
     * Handles one X event. Only the destruction of the application window asks
     * the loop to stop; an X error is an error; an event for an unknown window
     * is an error; a configure event for the application window is ignored.
     */
    method HandleEvent(ev: XEvent) returns (r: Result<bool, ShellError>)
      requires Valid()
      modifies this`windows, this`pipeClosed, conn`requests, windows.Values, Queues(), pipe
      ensures Valid()
      ensures r == Success(true) <==> ev == DestroyNotify(appWindowId)
      ensures ev.ErrorEvent? ==> r == Failure(ProtocolError)
      ensures ev.OtherEvent? || (ev.ConfigureNotify? && ev.window == appWindowId) ==> r == Success(false)
      ensures (ev.Target().Some? && ev != DestroyNotify(appWindowId) && !(ev.ConfigureNotify? && ev.window == appWindowId)
               && old(WindowOf(ev.Target().value)).Failure?) ==> r == Failure(old(WindowOf(ev.Target().value)).error)
      ensures !ev.DestroyNotify? ==> windows == old(windows)
      ensures forall id :: id in windows ==> id in old(windows) && windows[id] == old(windows[id])
    {
      match ev {
        case ButtonPress(b, device, source) =>
          r := RouteButtonPress(b, device, source);
        case ButtonRelease(b, device, source) =>
          r := RouteButtonRelease(b, device, source);
        case DestroyNotify(id) =>
          r := RouteDestroyNotify(id);
        case ErrorEvent =>
          r := Failure(ProtocolError);
        case OtherEvent =>
          r := Success(false);
        case _ =>
          r := RouteToWindow(ev);
      }
    }

    /**
     * Any other event addressed to a window: an unknown window is an error and
     * a configure event for the application window is ignored.
     */
    method RouteToWindow(ev: XEvent) returns (r: Result<bool, ShellError>)
      requires Valid()
      requires ev.Target().Some?
      requires !ev.ButtonPress? && !ev.ButtonRelease? && !ev.DestroyNotify?
      modifies windows.Values, Queues(), pipe
      ensures r != Success(true)
      ensures ev.ConfigureNotify? && ev.window == appWindowId ==> r == Success(false)
      ensures !(ev.ConfigureNotify? && ev.window == appWindowId) && WindowOf(ev.Target().value).Failure? ==>
        r == Failure(WindowOf(ev.Target().value).error)
    {
      if ev.ConfigureNotify? && ev.window == appWindowId {
        return Success(false);
      }
      var found := WindowOf(ev.Target().value);
      if found.Failure? {
        return Failure(found.error);
      }
      var o := DeliverToWindow(found.value, ev);
      r := if o.Fail? then Failure(o.error) else Success(false);
    }

    /**
     * Dispatches the pending events in order. An error from one event is only
     * logged (counted) and dispatch goes on; only the destruction of the
     * application window stops it, and then the loop exits.
     */
    method DispatchEvents(events: seq<XEvent>) returns (quit: bool, handled: nat, errors: nat, ghost outcomes: seq<Result<bool, ShellError>>)
      requires Valid()
      modifies this`windows, this`pipeClosed, conn`requests, windows.Values, Queues(), pipe
      ensures Valid()
      ensures handled <= |events| && |outcomes| == handled
      ensures errors == Failures(outcomes)
      ensures quit <==> handled > 0 && outcomes[handled - 1] == Success(true)
      ensures !quit ==> handled == |events|
      ensures forall j :: 0 <= j < handled ==> (outcomes[j] == Success(true) <==> events[j] == DestroyNotify(appWindowId))
      ensures forall j :: 0 <= j < handled && events[j].ErrorEvent? ==> outcomes[j] == Failure(ProtocolError)
      ensures forall j :: 0 <= j < handled && events[j].OtherEvent? ==> outcomes[j] == Success(false)
    {
      handled := 0;
      errors := 0;
      outcomes := [];
      while handled < |events|
        invariant Valid()
        invariant forall id :: id in windows ==> id in old(windows) && windows[id] == old(windows[id])
        invariant handled <= |events| && |outcomes| == handled
        invariant errors == Failures(outcomes)
        invariant forall j :: 0 <= j < handled ==> outcomes[j] != Success(true)
        invariant forall j :: 0 <= j < handled ==> events[j] != DestroyNotify(appWindowId)
        invariant forall j :: 0 <= j < handled && events[j].ErrorEvent? ==> outcomes[j] == Failure(ProtocolError)
        invariant forall j :: 0 <= j < handled && events[j].OtherEvent? ==> outcomes[j] == Success(false)
        decreases |events| - handled
      {
        var r := HandleEvent(events[handled]);
        assert (outcomes + [r])[..handled] == outcomes;
        outcomes := outcomes + [r];
        handled := handled + 1;
        if r.Failure? {
          errors := errors + 1;
        } else if r.value {
          return true, handled, errors, outcomes;
        }
      }
      return false, handled, errors, outcomes;
    }

    /** The earliest timer deadline over all windows, none when the state is borrowed. */
    method NextTimeout() returns (d: Option<int>)
      ensures stateBusy ==> d == None
      ensures !stateBusy ==> (d.None? <==> forall id :: id in windows ==> windows[id].timers == [])
      ensures d.Some? ==> forall id, t :: id in windows && t in windows[id].timers ==> d.value <= t.deadline
      ensures d.Some? ==> exists id :: id in windows && EarliestDeadline(windows[id].timers) == d
    {
      if stateBusy {
        return None;
      }
      d := None;
      var ids := windows.Keys;
      while ids != {}
        invariant ids <= windows.Keys
        invariant d.None? <==> forall id :: id in windows && id !in ids ==> windows[id].timers == []
        invariant d.Some? ==> forall id, t :: id in windows && id !in ids && t in windows[id].timers ==> d.value <= t.deadline
        invariant d.Some? ==> exists id :: id in windows && EarliestDeadline(windows[id].timers) == d
        decreases ids
      {
        var id :| id in ids;
        var next := windows[id].NextTimeout();
        if next.Some? && (d.None? || next.value < d.value) {
          d := next;
        }
        ids := ids - {id};
      }
    }

    /** `run_timers` on every window. */
    method RunAllTimers(now: int)
      requires Valid()
      modifies windows.Values
      ensures forall id, t :: id in windows && t in windows[id].timers ==> t.deadline > now
    {
      var ids := windows.Keys;
      while ids != {}
        invariant ids <= windows.Keys
        invariant forall id, t :: id in windows && id !in ids && t in windows[id].timers ==> t.deadline > now
        decreases ids
      {
        var id :| id in ids;
        var _ := windows[id].RunTimers(now);
        ids := ids - {id};
      }
    }

    /** `run_idle` on every window. */
    method RunAllIdle()
      requires Valid()
      modifies windows.Values, Queues()
      ensures forall id :: id in windows ==> windows[id].idleQueue.items == []
      ensures forall id :: id in windows ==> windows[id].timers == old(windows[id].timers)
    {
      var ids := windows.Keys;
      while ids != {}
        invariant ids <= windows.Keys
        invariant forall id :: id in windows && id !in ids ==> windows[id].idleQueue.items == []
        invariant forall id :: id in windows ==> windows[id].timers == old(windows[id].timers)
        decreases ids
      {
        var id :| id in ids;
        var w := windows[id];
        var _ := w.RunIdle();
        ids := ids - {id};
      }
    }

    /**
     * The work after dispatching events at time `now`. Timers run when the
     * earliest deadline found before waiting has passed. Idle work runs once
     * `idlePeriod` has elapsed since it last ran: the idle pipe is drained
     * (a read failure ends the loop with an error) and every window's idle
     * queue is run. With the state borrowed, both are skipped. When none of
     * the reads `pipeReads` ends the drain, the drain has not ended
     * (`stalled`) and no idle work has run.
     */
    method RunDueWork(now: int, nextTimeout: Option<int>, idlePeriod: int, pipeReads: seq<ReadResult>)
      returns (r: Outcome<ShellError>, ranTimers: bool, ranIdle: bool, stalled: bool)
      requires Valid()
      modifies this`lastIdleTime, windows.Values, Queues()
      ensures ranTimers <==> nextTimeout.Some? && nextTimeout.value <= now && !stateBusy
      ensures ranTimers ==> forall id, t :: id in windows && t in windows[id].timers ==> t.deadline > now
      ensures !ranTimers && !ranIdle ==> forall id :: id in windows ==> windows[id].timers == old(windows[id].timers)
      ensures lastIdleTime == if now >= old(lastIdleTime) + idlePeriod then now else old(lastIdleTime)
      ensures stalled <==> now >= old(lastIdleTime) + idlePeriod && !exists i :: 0 <= i < |pipeReads| && EndsDrain(pipeReads[i])
      ensures r.Fail? <==> now >= old(lastIdleTime) + idlePeriod && DrainFails(pipeReads)
      ensures r.Fail? ==> r.error == PipeReadError
      ensures ranIdle <==> now >= old(lastIdleTime) + idlePeriod && !stalled && !DrainFails(pipeReads) && !stateBusy
      ensures ranIdle ==> forall id :: id in windows ==> windows[id].idleQueue.items == []
    {
      ranTimers := false;
      ranIdle := false;
      stalled := false;
      if nextTimeout.Some? && nextTimeout.value <= now && !stateBusy {
        RunAllTimers(now);
        ranTimers := true;
      }
      if now >= lastIdleTime + idlePeriod {
        lastIdleTime := now;
        var drained, settled, readsMade := DrainIdlePipe(pipeReads);
        if !settled {
          return Pass, ranTimers, false, true;
        }
        if drained.Fail? {
          return drained, ranTimers, false, false;
        }
        if !stateBusy {
          RunAllIdle();
          ranIdle := true;
        }
      }
      return Pass, ranTimers, ranIdle, stalled;
    }
  }
}
