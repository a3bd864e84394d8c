# glazier window-backend scheduling and input normalisation, in Dafny

This project models the part of glazier's X11 and web backends that sits
between native events and the client's `WinHandler`:

- how native input (X11 button codes and state masks, scroll buttons, touch
  contacts, DOM `button`/`buttons` numbers, DOM wheel delta modes) becomes
  glazier's pointer events;
- the per-window state of the X11 backend: the handler gateway, the
  `destroyed` flag, the invalid region, the earliest-deadline-first timer
  queue, the idle queue and its wake-up pipe, and the text-field and
  composition coordinator;
- the X11 application: the window registry, the quit state machine, event
  routing, and the loop's decisions (when timers run, when idle work runs,
  how long `poll` may sleep, how the idle pipe is drained);
- the web window's scheduling: the idle queue and the animation frame that
  drains it, `render_soon` coalescing, `render`, and `setTimeout` timers.

The client's handler is an append-only log of `HandlerCall` values per
window. Every lock (`RwLock`, `RefCell`) is a boolean busy flag. Time is an
integer count of nanoseconds. System calls (`poll`, `read`, `write`) and
browser callbacks are not code: their outcomes are input sequences, and
requested browser callbacks are queued values (`frames`, `timeouts`) that
`RunFrame` and `FireTimeout` run.

Files:

- `wrappers.dfy` holds `Option`, `Outcome` and `Result`.
- `shell.dfy` holds the platform-independent types: buttons, modifiers, pointer events, regions, handler calls, errors, and `MillisUntil` (`Duration::as_millis`).
- `x11_events.dfy` holds X11 input normalisation and WM_CLASS.
- `x11_window.dfy` holds the X11 `Window`, `IdleHandle` (with its idle-pipe wake-up) and `WindowHandle`.
- `x11_loop.dfy` holds the poll timeout, `poll_with_timeout` and `drain_idle_pipe`.
- `x11_app.dfy` holds the X11 application registry, quit, routing and per-iteration work.
- `web_events.dfy` holds DOM button, mask and wheel decoding.
- `web_window.dfy` holds the web `WindowState`, `IdleHandle` and `WindowHandle`.

Where the two backends differ, each is modelled as written:

- The X11 `IdleHandle` tries to write a wake-up byte on every push (`X11Window.IdleHandle.AddIdle`).
- The web one requests a processing frame only when the push makes the queue non-empty (`WebWindow.IdleHandle.AddIdle`).
- X11 `need_to_reset_compose` is set by the text-field methods and never cleared.
- An X11 touch end is delivered as a pointer move, without the released button.

## Model

| member | source | states |
|---|---|---|
| X11Events.PointerButtonOf | src/backend/x11/window.rs:1149-1164 | Primary, Auxiliary, Secondary, X1, X2 each come from exactly one code: 1, 2, 3, 8, 9. Every other code, including 0 and the scroll codes 4-7, is no button. |
| X11Events.ButtonCodeRoundTrip | src/backend/x11/window.rs:1149-1164 | Every real button has a code that decodes back to it. No button's code is a scroll code, and every scroll code decodes to no button. |
| X11Events.PointerButtonsOf | src/backend/x11/window.rs:1168-1185 | Primary, Auxiliary, Secondary are held iff the Button1, Button2, Button3 bit is set. X1, X2 and no-button never are. |
| X11Events.PointerButtons | src/backend/x11/window.rs:1168-1185 | The loop over the mask table yields exactly `PointerButtonsOf(mask)`. |
| X11Events.ModifiersOf | src/backend/x11/window.rs:1188-1208 | The rule for each modifier: Shift iff SHIFT, Control iff CONTROL, Alt iff MOD1, NumLock iff MOD2, Meta iff MOD4, CapsLock iff LOCK. No other modifier is ever set. |
| X11Events.KeyMods | src/backend/x11/window.rs:1188-1208 | The loop over the modifier table yields exactly `ModifiersOf(mask)`. |
| X11Events.StateMaskHolds | src/backend/x11/window.rs:857-872 | After the base, latched and locked words are or-ed and truncated to 16 bits, a modifier or button is reported iff any of the three words holds its bit. |
| X11Events.BasePointerEvent | src/backend/x11/window.rs:857-887 | The base event has the source device as its pointer id, is not primary and has count 0. It takes its held buttons, modifiers and button from the state mask and the detail code. |
| X11Events.PointerEventOf | src/backend/x11/window.rs:911-972 | The event is primary iff its device is a master pointer. It is a pen or an eraser iff its source device is one, and a mouse with zero wheel delta otherwise: for a touch or mouse source and for an unknown source. As in `base_pointer_event`, its pointer id is the source device id, its count is 0, and its buttons, modifiers and button come from the state mask and the detail. |
| X11Events.PressEvent | src/backend/x11/window.rs:974-983 | The pressed button joins the held set and no other button changes. The click count is 1. |
| X11Events.ReleaseEvent | src/backend/x11/window.rs:985-992 | The released button leaves the held set and no other button changes. |
| Shell.With | src/backend/x11/window.rs:974-983 | Adding a button to a set adds exactly that button, and adding no-button adds nothing. |
| Shell.Without | src/backend/x11/window.rs:985-992 | Removing a button removes exactly that button. |
| Shell.WithoutUndoesWith | src/backend/x11/window.rs:974-992 | Releasing a button undoes pressing it when it was not held before. |
| X11Events.WheelDelta | src/backend/x11/window.rs:1014-1026 | There is a delta iff the detail is 4-7. Any other detail gives the unexpected-wheel-button error for that code. |
| X11Events.WheelDeltaIsOneNotch | src/backend/x11/window.rs:1014-1026 | Each scroll step moves exactly one axis by 120. Codes 4 and 6 go back and codes 5 and 7 go forward. |
| X11Events.WheelShiftSwapsAxes | src/backend/x11/window.rs:1014-1026 | Shift moves the vertical steps 4 and 5 onto the horizontal axis. The horizontal steps 6 and 7 ignore Shift. |
| X11Events.WheelEventOf | src/backend/x11/window.rs:1014-1035 | A wheel event exists iff the detail is a scroll code. It carries the delta as its mouse wheel delta, has no triggering button, and keeps the held buttons. |
| X11Events.TouchPointerIdDecodes | src/backend/x11/window.rs:906 | The touch pointer id holds the source device in its low 32 bits and the touch id above them. |
| X11Events.TouchPointerIdInjective | src/backend/x11/window.rs:906 | Distinct (device, touch) pairs get distinct pointer ids. |
| X11Events.EmulatesPointerIsFlagBit | src/backend/x11/window.rs:891 | The source's test (or-ing the emulating-pointer flag into `flags` changes nothing) holds iff that bit is set. |
| X11Events.TouchEventOf | src/backend/x11/window.rs:889-909 | A touch is primary iff it emulates the pointer. Its button is Primary if it is primary and none otherwise. Its kind is touch. Its pointer id is the composite `TouchPointerId(sourceid, detail)`, the source device in the low 32 bits and the touch id above them. Its count is 0, and its held buttons and modifiers come from the state mask. |
| X11Events.AsciiUpper | src/backend/x11/window.rs:330 | Only bytes a-z are upper-cased, by subtracting 32. |
| X11Events.WmClassAsWritten | src/backend/x11/window.rs:326-333 | The construction as written fails (panics) iff the name is empty. |
| X11Events.WmClassAsWrittenPanicsOnEmptyName | src/backend/x11/window.rs:326-333 | An empty name reaches `name[1..]` and panics. |
| X11Events.WmClass | src/backend/x11/window.rs:326-333 | The value is two bytes longer than two copies of the name. |
| X11Events.WmClassAgreesWhenNameNonEmpty | src/backend/x11/window.rs:326-333 | For every non-empty name, the corrected construction equals the source's. |
| X11Events.WmClassSplits | src/backend/x11/window.rs:326-333 | The value is two consecutive null-terminated strings: the instance name, then the name with its first letter upper-cased (ICCCM section 4.1.2.5). |
| X11Events.NulPrefix | src/backend/x11/window.rs:326-333 | A string without nulls followed by a null-led suffix is read back up to exactly its own length. |
| X11Window.IdleHandle.AddIdle | src/backend/x11/window.rs:1256-1259 | Every push appends the item and then wakes the loop, whatever the queue held before. A byte reaches the pipe iff the first write attempt that settles succeeds. |
| X11Window.FirstSettled | src/backend/x11/window.rs:1225-1239 | Finds the first write attempt that succeeds or fails for good. |
| X11Window.Wake | src/backend/x11/window.rs:1225-1239 | The wake-up write retries on EINTR and EAGAIN. It ends at the first attempt that succeeds or fails for good and reports whether the byte was written; a failed write writes nothing. While no attempt settles (a pipe that stays full) it has not ended. |
| X11Window.EarliestDeadline | src/backend/x11/window.rs:1128-1134 | Returns none iff no timer is queued. Otherwise it returns a deadline that some queued timer has and that no queued timer precedes. |
| X11Window.DueMembers | src/backend/x11/window.rs:1136-1146 | The due part holds exactly the queued timers with deadline <= now. The not-due part holds exactly the others. |
| X11Window.DueSplits | src/backend/x11/window.rs:1136-1146 | The due and not-due parts together are the queue, as a multiset. |
| X11Window.DueSplitIsUnique | src/backend/x11/window.rs:1136-1146 | Any split of the queue into all-due and all-not-due parts is that split. |
| X11Window.FireNext | src/backend/x11/window.rs:1136-1145 | Firing a popped timer that is due and no later than any queued one keeps every fired timer due, in deadline order and ahead of the queue, and loses no timer. |
| X11Window.TimersSettled | src/backend/x11/window.rs:1136-1146 | Once no queued timer is due, the fired timers are exactly the originally due ones, in deadline order. The queue holds exactly the rest. |
| X11Window.TimerCallsDeliver | src/backend/x11/window.rs:1143 | Call i of a run delivers the token of the i-th fired timer. |
| X11Window.IdleCalls | src/backend/x11/window.rs:1104-1119 | An idle batch makes at most one call per item, and exactly one per item when it holds no redraw. |
| X11Window.IdleCallsSnoc | src/backend/x11/window.rs:1104-1119 | One more item adds exactly that item's calls. A redraw is in the longer prefix iff it is in the shorter one or is the new item. |
| X11Window.IdleCallsAppend | src/backend/x11/window.rs:1104-1119 | Delivery is in queue order: two consecutive batches make the calls of their concatenation. |
| X11Window.IdleCallsOfTokens | src/backend/x11/window.rs:1111-1113 | A batch of tokens becomes one `idle` call per token, in order. |
| X11Window.ResetClearsOnlyWhenNeeded | src/backend/x11/window.rs:819-855 | A field's composition is cleared iff one of two things holds. Either it was the previous field, focus moved away and composing was cancelled. Or it is the next field, a reset is due and composing was cancelled. |
| X11Window.Window.WithHandlerUnchecked | src/backend/x11/window.rs:491-501 | The closure's calls are made iff the handler lock is free. Otherwise no call is made. |
| X11Window.Window.WithHandler | src/backend/x11/window.rs:478-489 | The calls are made iff neither the invalid-region lock nor the handler lock is held. Otherwise none is made. |
| X11Window.Window.WithHandlerReentered | src/backend/x11/window.rs:478-501 | With the handler lock read as a busy flag (the try-borrow the error messages at lines 482 and 498 describe), a nested `with_handler` made while the handler is held is refused. The handler is never entered twice, and the lock is released afterwards. |
| X11Window.Window.Destroy | src/backend/x11/window.rs:516-521 | The window is destroyed afterwards. The destroy request goes out only on the false-to-true transition, so destroying is idempotent. |
| X11Window.Window.Show | src/backend/x11/window.rs:565-569 | A map request goes out iff the window is not destroyed. |
| X11Window.Window.AddInvalidRect | src/backend/x11/window.rs:653-667 | The rectangle joins the region, unless the region is locked. In that case the call fails and the region is unchanged. |
| X11Window.Window.Render | src/backend/x11/window.rs:550-563 | A destroyed window only prepares and keeps its region. Otherwise the region is emptied and the previous region painted, and a locked region is an error. |
| X11Window.Window.IdleHandleOf | src/backend/x11/window.rs:680-684 | The handle shares the window's idle queue and the loop's pipe. |
| X11Window.Window.RequestAnimFrame | src/backend/x11/window.rs:680-686 | Queues one redraw and wakes the loop; a byte is written iff the wake-up's writes put one in the pipe. |
| X11Window.Window.Invalidate | src/backend/x11/window.rs:688-694 | Invalidates the whole window unless the region is locked, and always queues a redraw and wakes the loop. |
| X11Window.Window.InvalidateRect | src/backend/x11/window.rs:696-702 | Invalidates the rectangle unless the region is locked, and always queues a redraw and wakes the loop. |
| X11Window.Window.HandleExpose | src/backend/x11/window.rs:766-778 | Invalidates the rectangle, and queues a redraw and wakes the loop only after the last expose of a series (count 0). With a locked region it is an error: the region, the queue and the pipe's wake count are unchanged. |
| X11Window.Window.SizeChanged | src/backend/x11/window.rs:532-548 | An unchanged size does nothing. A new size is recorded, the whole window is invalidated, and the handler hears the size and then the scale. With a locked region the new size is still recorded, but it is an error: the region is unchanged and the handler hears nothing. |
| X11Window.Window.HandleDestroyNotify | src/backend/x11/window.rs:1092-1094 | The handler hears `destroy` when it is available. |
| X11Window.Window.HandleGotFocus | src/backend/x11/window.rs:1052-1054 | The handler hears `got_focus` when it is available. |
| X11Window.Window.HandleButtonPress | src/backend/x11/window.rs:974-983 | The handler hears `pointer_down` with the press event. |
| X11Window.Window.HandleButtonRelease | src/backend/x11/window.rs:985-992 | The handler hears `pointer_up` with the release event. |
| X11Window.Window.HandleMotionNotify | src/backend/x11/window.rs:1037-1042 | The handler hears `pointer_move` with no triggering button. |
| X11Window.Window.HandleWheel | src/backend/x11/window.rs:1014-1035 | A non-scroll detail is an error and the handler is not called. Otherwise the handler hears `wheel` with the wheel event. |
| X11Window.Window.HandleTouchBegin | src/backend/x11/window.rs:994-999 | The handler hears `pointer_down` with the touch's button added to the held set. |
| X11Window.Window.HandleTouchUpdate | src/backend/x11/window.rs:1001-1005 | The handler hears `pointer_move` with the touch event. |
| X11Window.Window.HandleTouchEnd | src/backend/x11/window.rs:1007-1012 | The handler hears `pointer_move`, not `pointer_up`, with the touch's button removed from the held set. |
| X11Window.Window.ResetTextFieldsIfNeeded | src/backend/x11/window.rs:819-855 | Afterwards the active field is the next field, which is returned. The calls made are exactly `ResetCalls`, and the reset flag is left as it is. |
| X11Window.Window.HandleKeyEvent | src/backend/x11/window.rs:780-817 | Nothing happens while the handler is unavailable, and a key press the handler consumes only reaches the handler. Otherwise the text fields are reset. An unconsumed press inside a text field is fed to it under the input lock. |
| X11Window.Window.DeliverIdle | src/backend/x11/window.rs:1104-1119 | The loop makes exactly the batch's idle calls, in order. It reports a redraw iff one was queued. |
| X11Window.Window.RunIdle | src/backend/x11/window.rs:1100-1126 | Afterwards the queue is empty. Callbacks and tokens are delivered in order. The window renders once, after the batch, iff the handler was available and a redraw was queued. |
| X11Window.Window.NextTimeout | src/backend/x11/window.rs:1128-1134 | The earliest queued deadline. |
| X11Window.Window.PopEarliest | src/backend/x11/window.rs:1142 | Pops one timer whose deadline is the earliest, and keeps all the others. |
| X11Window.Window.RunTimers | src/backend/x11/window.rs:1136-1146 | Fires exactly the timers due at `now`, earliest first, delivering each token once while the handler is available. Every timer not yet due stays queued. |
| X11Window.WindowHandle.RemoveTextField | src/backend/x11/window.rs:1421-1432 | Whichever of the next and active fields is the token becomes none, and a composition reset becomes due. Only the three text-field fields may change. |
| X11Window.WindowHandle.SetFocusedTextField | src/backend/x11/window.rs:1434-1438 | Sets the next field of a live window; no other field may change. |
| X11Window.WindowHandle.UpdateTextField | src/backend/x11/window.rs:1440-1450 | An update to the active field makes a reset due. Updates to other fields change nothing, and only the reset flag may change. |
| X11Window.WindowHandle.RequestTimer | src/backend/x11/window.rs:1452-1460 | A live window queues the timer and returns its token. A dropped window returns the invalid token. Only the timer queue may change. |
| X11Window.WindowHandle.Equals | src/backend/x11/window.rs:1269-1273 | Two handles are equal iff they carry the same window id. |
| X11Window.EqualsIsEquivalence | src/backend/x11/window.rs:1269-1274 | Handle equality is reflexive, symmetric and transitive, as `Eq` requires. A handle whose window is gone equals a live handle with the same id. |
| X11Window.RequestedTimerIsEarliestUnlessPreceded | src/backend/x11/window.rs:1452-1460 | After a request, the earliest deadline is the minimum of the old earliest deadline and the new timer's deadline. |
| X11App.App.AddWindow | src/backend/x11/application.rs:475-478 | Registers the window under its id, unless the state is borrowed. In that case it fails and nothing changes. |
| X11App.App.RemoveWindow | src/backend/x11/application.rs:480-485 | Removes the id and returns how many windows remain: one fewer iff the id was registered. A borrowed state is an error. |
| X11App.App.WindowOf | src/backend/x11/application.rs:487-493 | Finds the window iff the id is registered and the state is free. Otherwise it returns an error naming the cause, never a fault. |
| X11App.RemoveShrinks | src/backend/x11/application.rs:480-485 | Removing a present key shrinks the registry by exactly one. |
| X11App.App.FinalizeQuit | src/backend/x11/application.rs:870-878 | Destroys the application window and closes the idle pipe. |
| X11App.App.Quit | src/backend/x11/application.rs:255-273 | Only the first call does anything. It finalizes at once if no window is left. Otherwise it destroys every window, sending each not-yet-destroyed window exactly one destroy request: as many new requests as such windows, no two alike. Only the windows' `destroyed` flags change. |
| X11App.App.DestroyAll | src/backend/x11/application.rs:265-267 | Every window is destroyed. The only new requests are destroy requests, exactly one for each window that was not already destroyed: their number is the number of such windows and no two are alike. Only the windows' `destroyed` flags change. |
| X11App.App.RouteButtonPress | src/backend/x11/application.rs:635-648 | Scroll codes 4-7 go to `handle_wheel` and other codes to `handle_button_press`. An unknown window is an error, and no other window's handler is called. |
| X11App.App.RouteButtonRelease | src/backend/x11/application.rs:649-659 | A release of a scroll code is ignored and other codes go to `handle_button_release`. An unknown window is an error. |
| X11App.App.RouteDestroyNotify | src/backend/x11/application.rs:696-716 | For the application window the result is "quit". Otherwise the handler hears `destroy` and the window is removed. The quit is finalized iff no window remains and a quit was requested. |
| X11App.App.HandleEvent | src/backend/x11/application.rs:558-779 | Only the destruction of the application window asks the loop to stop, and an X error is an error. An event for an unknown window is an error. A configure event for the application window and unhandled events are ignored. |
| X11App.App.RouteToWindow | src/backend/x11/application.rs:582-725 | An event for an unknown window is the lookup's error. A configure event for the application window is ignored, and the loop is never asked to stop. |
| X11App.DeliverToWindow | src/backend/x11/application.rs:582-755 | Only expose and configure events can fail at the window. |
| X11App.App.DispatchEvents | src/backend/x11/application.rs:827-839 | Events are handled in order, and the ghost `outcomes` holds what `handle_event` returned for each one. `errors` is the number of those that are errors, and dispatch goes on after each. An X error event gives a protocol error, and an unhandled event succeeds without quitting. An outcome is `Ok(true)` exactly for the destruction of the application window. The loop stops exactly after the first such outcome, and otherwise handles every event. |
| X11App.App.NextTimeout | src/backend/x11/application.rs:793-802 | The minimum over all windows' earliest deadlines, attained by some window, or none when no timer is queued or the state is borrowed. |
| X11App.App.RunAllTimers | src/backend/x11/application.rs:844-850 | Afterwards no window holds a due timer. |
| X11App.App.RunAllIdle | src/backend/x11/application.rs:858-862 | Every window's idle queue ends empty, and no timer changes. |
| X11App.App.RunDueWork | src/backend/x11/application.rs:841-865 | Timers run iff the earliest deadline has passed and the state is not borrowed. Idle work runs iff the idle period has elapsed, the pipe drain ended without a failed read, and the state is not borrowed. The result is an error iff the period elapsed and the drain ended in a failed read. `stalled` holds iff the period elapsed and no given read ends the drain. `last_idle_time` becomes `now` iff the period elapsed. |
| Shell.MillisUntil | src/backend/x11/application.rs:968 | Whole milliseconds to the deadline, rounded down (`Duration::as_millis`). |
| X11Loop.PollTimeoutAsWritten | src/backend/x11/application.rs:966-972 | The milliseconds converted to a C `int` (or `INT_MAX - 1` if they do not fit), plus one. |
| X11Loop.PollTimeoutAsWrittenOverflows | src/backend/x11/application.rs:966-972 | Exactly `INT_MAX` milliseconds converts and the sum leaves the `int` range. |
| X11Loop.PollTimeout | src/backend/x11/application.rs:966-972 | The corrected timeout is always a positive `int`: the milliseconds plus one, saturated at `INT_MAX`. |
| X11Loop.PollTimeoutAgreesExceptAtMax | src/backend/x11/application.rs:966-972 | As written and corrected agree iff the milliseconds are not `INT_MAX`. |
| X11Loop.PollTimeoutReachesDeadline | src/backend/x11/application.rs:969-972 | Adding one to the rounded-down milliseconds makes a timed-out poll wake strictly after the deadline. |
| X11Loop.EarliestTimeout | src/backend/x11/application.rs:938 | The minimum of the idle deadline and the timer deadline when there is one. |
| X11Loop.ActiveDeadline | src/backend/x11/application.rs:957-962 | Only the timer deadline counts until the pipe has signalled, and the earliest of both counts afterwards. |
| X11Loop.PollArgument | src/backend/x11/application.rs:963-977 | The poll argument is -1 iff there is no deadline. Otherwise it is the milliseconds to the deadline, rounded up. |
| X11Loop.PollWithTimeout | src/backend/x11/application.rs:927-1008 | Every poll is made before the active deadline (the timer deadline, or after the pipe has signalled the earlier of both) at the clock reading in force, and is given exactly `PollArgument` of it. No poll is made once the timer deadline, or a signalled idle deadline, has passed, and the wait returns at once when the active deadline has passed. It returns otherwise only on a readable connection, a passed timer deadline after a poll, a signalled pipe with a passed idle deadline, or a poll error; EINTR retries. When the given results run out, all were consumed and the active deadline is still ahead. |
| X11Loop.FirstEnd | src/backend/x11/application.rs:899-918 | Finds the first read that ends the drain. |
| X11Loop.DrainIdlePipe | src/backend/x11/application.rs:896-921 | Reads through EINTR and non-empty reads. It settles iff some given read is an EAGAIN, an end of file or a failure, and then it stops right after the first such read. Otherwise every read is consumed and the drain has not ended. The result is an error iff it settled on a failed read. |
| WebEvents.GetButton | src/backend/web/window.rs:773-782 | A button exists iff the number is 0-4, and it is never no-button. |
| WebEvents.GetButtonRoundTrip | src/backend/web/window.rs:773-782 | 0-4 and the five buttons are in bijection: 0 Primary, 1 Auxiliary, 2 Secondary, 3 X1, 4 X2. |
| WebEvents.ButtonBitOfNumber | src/backend/web/window.rs:773-802 | A button's `buttons` bit is bit n of its `button` number, except that the wheel (1) and secondary (2) buttons swap. |
| WebEvents.GetButtons | src/backend/web/window.rs:784-802 | The rule for each button: Primary, Secondary, Auxiliary, X1, X2 are held iff mask bit 0, 1, 2, 3, 4 is set. No other bit matters. |
| WebEvents.GetButtonsOfMask | src/backend/web/window.rs:784-802 | Every button set survives encoding as a mask and decoding. |
| WebEvents.MaskOfGetButtons | src/backend/web/window.rs:784-802 | Decoding keeps exactly bits 0-4 of the mask. |
| WebEvents.WheelDelta | src/backend/web/window.rs:274-285 | A delta exists iff the mode is pixel, line or page. |
| WebEvents.WheelDeltaUnits | src/backend/web/window.rs:274-285 | The unit step on each axis: one pixel is one pixel, one line is 35 pixels, and one page is the window's extent on that axis. |
| WebEvents.WheelDeltaLinear | src/backend/web/window.rs:274-285 | For every delta and known mode, the result is dx times the x unit plus dy times the y unit, so the units fix every conversion. |
| WebEvents.WheelDeltaKeepsDirection | src/backend/web/window.rs:274-285 | Every known mode keeps the scroll direction on both axes, given a window of positive size. |
| WebEvents.ButtonEvent | src/backend/web/window.rs:199-243 | A `mousedown` or `mouseup` gives an event iff its button number is known. The event is the primary mouse pointer 0 with the decoded button and held buttons. |
| WebEvents.WheelEvent | src/backend/web/window.rs:265-299 | A `wheel` event gives an event iff its delta mode is known. The event carries the converted delta, no button, count 0, and the decoded held buttons. |
| WebWindow.IdleCalls | src/backend/web/window.rs:153-161 | One call per queued item, in queue order. |
| WebWindow.TimeoutDelay | src/backend/web/window.rs:625-634 | The `setTimeout` delay: whole milliseconds to the deadline, clamped to `i32::MAX`, and 0 for a past deadline. |
| WebWindow.TimeoutDelayBounds | src/backend/web/window.rs:625-634 | A timer never fires early. Unless clamped, it is less than a millisecond short of its deadline. |
| WebWindow.WindowState.Render | src/backend/web/window.rs:135-151 | Prepares, paints the invalid region, then clears it. |
| WebWindow.WindowState.ProcessIdleQueue | src/backend/web/window.rs:153-161 | Delivers every queued item in FIFO order and leaves the queue empty. |
| WebWindow.WindowState.RunFrame | src/backend/web/window.rs:677-689 | Running the oldest frame keeps one pending processing frame exactly while idle work is queued, and one render frame exactly while `rendering_soon` is set. A render frame clears the flag before rendering. Only the frames, the log, the region, the flag and the queue may change. |
| WebWindow.WindowState.FireTimeout | src/backend/web/window.rs:640-644 | A timeout delivers its token unless the handler is already borrowed, in which case it is skipped. |
| WebWindow.WindowState.OnMouseDown | src/backend/web/window.rs:199-221 | The handler hears `pointer_down` iff the button number is known. |
| WebWindow.WindowState.OnMouseUp | src/backend/web/window.rs:223-243 | The handler hears `pointer_up` iff the button number is known. |
| WebWindow.WindowState.OnMouseMove | src/backend/web/window.rs:245-263 | Every move reaches the handler with no triggering button. |
| WebWindow.WindowState.OnWheel | src/backend/web/window.rs:265-299 | The handler hears `wheel` iff the delta mode is known, with page mode scaled by the window's size. |
| WebWindow.IdleHandle.AddIdle | src/backend/web/window.rs:737-770 | Appends the item. A processing frame is requested only by the push that makes the queue non-empty, and only while the window is alive. The scheduling invariant is kept, and only the queue and the pending frames change. |
| WebWindow.QueueThenRunFrame | src/backend/web/window.rs:737-754 | Work queued on a window with no frame pending is delivered, alone and in full, by the next frame the browser runs, which leaves nothing queued or pending. |
| WebWindow.IdleHandle.AddIdleCallback | src/backend/web/window.rs:737-754 | As `AddIdle`, for a callback. |
| WebWindow.IdleHandle.AddIdleToken | src/backend/web/window.rs:756-770 | As `AddIdle`, for a token. |
| WebWindow.WindowHandle.Equals | src/backend/web/window.rs:84-92 | Two handles are equal iff both windows are gone or both name the same live window. |
| WebWindow.EqualsIsEquivalence | src/backend/web/window.rs:84-93 | Handle equality is reflexive, symmetric and transitive, as `Eq` requires. |
| WebWindow.WindowHandle.RenderSoon | src/backend/web/window.rs:677-689 | A render frame is requested only while none is pending. Afterwards `rendering_soon` is set and the scheduling invariant holds. Only the flag and the pending frames change. |
| WebWindow.WindowHandle.RequestAnimFrame | src/backend/web/window.rs:574-576 | Same as `RenderSoon`. |
| WebWindow.WindowHandle.InvalidateRect | src/backend/web/window.rs:578-583 | Adds the rectangle to the invalid region, then `render_soon`. |
| WebWindow.WindowHandle.Invalidate | src/backend/web/window.rs:585-592 | Adds the whole window to the invalid region, then `render_soon`. |
| WebWindow.WindowHandle.RemoveTextField | src/backend/web/window.rs:607-613 | Clears the active field iff it is the token; nothing else changes. |
| WebWindow.WindowHandle.SetFocusedTextField | src/backend/web/window.rs:615-619 | Sets the active field; nothing else changes. |
| WebWindow.WindowHandle.RequestTimer | src/backend/web/window.rs:625-654 | Always returns the new token. While the window is alive, it schedules one timeout with the clamped delay, and nothing else changes. |

## Left out

- X11 connection setup, extension queries, atoms, visuals, window properties other than WM_CLASS, and cursors are left out. They are protocol I/O.
- `poll`, `read`, `write` and `flush` are not modelled as calls. Their results are given sequences, and the clock reading after a poll travels with its result.
- Floating-point geometry is left out: scale, px/dp conversion and `expand` in `add_invalid_rect`, FP16.16 positions, pressure and tilt, and DPI. Rectangles are integer values, and the invalid region is a set of rectangles.
- xkb internals are left out: keysyms, `key_event`, `cancel_composing`, `xkb_simulate_input` and the IME input handler. Whether cancelling reports composing is a parameter, and input simulation is a single handler call.
- These X events are not routed: FocusOut, LeaveNotify, ClientMessage, SelectionClear, SelectionRequest, PropertyNotify, XkbStateNotify and the XInput hierarchy and device-change events. They collapse into `OtherEvent`, which always succeeds, so the error count of `X11App.App.DispatchEvents` leaves out their failures. In the source, FocusOut, LeaveNotify and ClientMessage fail on an unknown window (src/backend/x11/application.rs:684-695, 756-763). SelectionClear, SelectionRequest and PropertyNotify pass up the clipboard's and primary selection's errors (application.rs:726-749). XkbStateNotify and FocusOut fail while the application state is borrowed (application.rs:604-605, 756-757).
- Every lock is read as a busy flag: an operation that needs a held lock fails or is skipped. This is the behaviour of the web backend's `try_borrow_mut` and the one the X11 error messages describe. The X11 locks are std `RwLock` and `Mutex`, whose `read`, `write` and `lock` fail only when poisoned: a lock held by another thread blocks, and taking one again on the same thread deadlocks or panics. Blocking, poisoning, threads and these deadlocks are not modelled.
- X11Window.Window.WithHandlerReentered: the nested `with_handler` is refused under the busy-flag reading. In the source, `RwLock::write` taken again on the same thread deadlocks or panics instead.
- WebWindow.WindowState.ProcessIdleQueue: the source holds the queue's `Mutex` while it calls the handler, so an idle callback that queues more idle work takes that lock again. The model empties the queue before delivering, as the X11 `run_idle` does, and callbacks are opaque, so that re-entry is not modelled.
- X11Window.IdleHandle.AddIdle: when the event-loop thread pushes while the pipe is full, `wake` never returns in the source, because only that thread drains the pipe. The model shows this only as a wake-up that has not ended when the given write results run out.
- `HashMap` iteration order is not modelled. Windows are visited in an arbitrary order.
- Timer tokens (`TimerToken::next`) come from code that is not part of this model. The token a new timer draws is a parameter.
- Idle callbacks are opaque numbers, so what a callback does to the window is not modelled.
- The `Timer` heap's tie-breaking is not modelled. Any timer of earliest deadline may be popped.
- Web keyboard events, resize, cursors, `get_scale` and canvas/piet rendering are left out. Keyboard events go through `convert_keyboard_event` and `simulate_input`, which are not part of this model. The others are browser plumbing.
- The web click counter is not modelled. The click count is a parameter.
- WebWindow.TimeoutDelay: a deadline already past gives a zero delay. The source's result there is decided by `duration_since` of the `instant` crate's `Instant` (imported at src/backend/web/window.rs:22), which is not part of this model; where that `duration_since` panics on an earlier `self`, such a request panics instead.
- X11Loop.PollWithTimeout: the result `OutcomesExhausted` only means the given poll results ran out, with the active deadline still ahead. The source would keep polling.
- X11Loop.PollWithTimeout: the poll timeouts are computed by the corrected `PollTimeout`, not by `PollTimeoutAsWritten`. The two differ only for a deadline exactly `INT_MAX` milliseconds away (see Findings).
- X11App.App.DispatchEvents: the events are a given sequence. In the source, each next event comes from `poll_for_event()?` (src/backend/x11/application.rs:838), and a connection error there ends `run_inner` in the middle of the dispatch. The model does not express that error.
- X11Loop.DrainIdlePipe: when none of the given reads ends the drain, the model reports `settled` false. The source keeps reading until one does.
- X11App.DeliverToWindow: states only which events always succeed. What each window call does is stated by the `Window` method it calls.
- X11App.App.RouteToWindow: states the lookup and configure cases only. Delivery itself is stated by `DeliverToWindow` and the `Window` methods.
- X11App.App.RunAllTimers: states only that no due timer remains. `Window.RunTimers` states what each window fires.
- X11App.App.RunAllIdle: states only that every queue ends empty. `Window.RunIdle` states what each window delivers.
- WebWindow.WindowState.Render: requires the handler not to be borrowed, because the source's `borrow_mut` panics otherwise. The same requirement is on `ProcessIdleQueue`, `RunFrame` and the mouse and wheel methods.

## Findings

| source | as written | input that shows it | evidently intended | confidence | as-written member | corrected member |
|---|---|---|---|---|---|---|
| src/backend/x11/application.rs:966-972 | `c_int::try_from(ms).unwrap_or(c_int::MAX - 1) + 1` | a deadline exactly `i32::MAX` ms (about 24.8 days) away: the conversion succeeds and the sum overflows the `int` (a panic in debug builds, a negative timeout in release) | saturate at `INT_MAX - 1` before adding one | not executed | X11Loop.PollTimeoutAsWritten, X11Loop.PollTimeoutAsWrittenOverflows | X11Loop.PollTimeout, X11Loop.PollTimeoutReachesDeadline |
| src/backend/x11/window.rs:326-333 | `name.as_bytes()[1..]` behind a test of the buffer's first byte, which always exists | an empty program name (`unwrap_or("")` when the executable's file name is missing or not UTF-8) panics on the slice | two null-terminated strings, empty when the name is empty | not executed | X11Events.WmClassAsWritten, X11Events.WmClassAsWrittenPanicsOnEmptyName | X11Events.WmClass, X11Events.WmClassSplits |
