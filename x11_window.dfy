/**
 * The X11 backend's per-window state: the handler gateway, the destroyed
 * flag, the invalid region, the earliest-deadline-first timer queue, the
 * idle queue shared with `IdleHandle`s, and the text-field coordinator.
 *
 * Locks are busy flags: a lock that cannot be acquired makes the call that
 * needs it fail. The client's handler is the append-only `log` of calls.
 */
module X11Window {
  import opened Shell
  import opened Wrappers
  import opened X11Events

  /** A request sent to the X server. */
  datatype XRequest = DestroyWindow(window: nat) | MapWindow(window: nat)

  /** The X connection, reduced to the requests sent through it. */
  class Connection {
    var requests: seq<XRequest>

    constructor()
      ensures requests == []
    {
      requests := [];
    }
  }

  /** The write end of the idle pipe, reduced to the number of wake-up bytes written. */
  class IdlePipe {
    var wakes: nat

    constructor()
      ensures wakes == 0
    {
      wakes := 0;
    }
  }

  /** One piece of deferred work. Callbacks are opaque and known by a number. */
  datatype IdleKind = Callback(callback: nat) | Token(token: nat) | Redraw

  /** The idle queue a window shares with every `IdleHandle` made from it. */
  class IdleQueue {
    var items: seq<IdleKind>

    constructor()
      ensures items == []
    {
      items := [];
    }
  }

  /** What one non-blocking `write` of the wake-up byte returns. */
  datatype WriteResult = Written | WriteInterrupted | WriteWouldBlock | WriteFailed

  /** A write that ends the wake-up: it succeeded or failed for good. */
  predicate Settles(w: WriteResult) {
    w.Written? || w.WriteFailed?
  }

  /** The position of the first write that ends the wake-up. */
  function FirstSettled(writes: seq<WriteResult>): (k: nat)
    requires exists i :: 0 <= i < |writes| && Settles(writes[i])
    ensures k < |writes| && Settles(writes[k])
    ensures forall j :: 0 <= j < k ==> !Settles(writes[j])
  {
    if Settles(writes[0]) then 0
    else
      var i :| 0 <= i < |writes| && Settles(writes[i]);
      assert writes[1..][i - 1] == writes[i];
      1 + FirstSettled(writes[1..])
  }

  /**
   * Writes one wake-up byte into the idle pipe, retrying while the write is
   * interrupted or the pipe is full; a failed write is only logged and
   * writes nothing. `writes` are the outcomes of the successive attempts:
   * when none of them settles, the retrying has not ended (`!settled`),
   * which is what happens for as long as the pipe stays full.
   */
  method Wake(writes: seq<WriteResult>) returns (written: bool, settled: bool, consumed: nat)
    ensures settled <==> exists i :: 0 <= i < |writes| && Settles(writes[i])
    ensures settled ==> consumed == FirstSettled(writes) + 1
    ensures written <==> settled && writes[consumed - 1].Written?
    ensures !settled ==> consumed == |writes|
  {
    var i := 0;
    while i < |writes|
      invariant i <= |writes|
      invariant forall j :: 0 <= j < i ==> !Settles(writes[j])
    {
      match writes[i] {
        case WriteInterrupted =>
        case WriteWouldBlock =>
        case WriteFailed =>
          return false, true, i + 1;
        case Written =>
          return true, true, i + 1;
      }
      i := i + 1;
    }
    return false, false, i;
  }

  /** The attempts `writes` put a wake-up byte into the pipe: the first one that settles succeeds. */
  predicate WritesByte(writes: seq<WriteResult>) {
    (exists i :: 0 <= i < |writes| && Settles(writes[i])) && writes[FirstSettled(writes)].Written?
  }

  /** A cloneable handle that queues idle work for a window and wakes the event loop. */
  datatype IdleHandle = IdleHandle(queue: IdleQueue, pipe: IdlePipe) {
    /**
     * Every push is followed by a wake-up, whether or not the queue was
     * empty; a byte reaches the pipe only when a write succeeds.
     */
    method AddIdle(item: IdleKind, writes: seq<WriteResult>) returns (written: bool, settled: bool)
      modifies queue, pipe
      ensures queue.items == old(queue.items) + [item]
      ensures settled <==> exists i :: 0 <= i < |writes| && Settles(writes[i])
      ensures written <==> WritesByte(writes)
      ensures pipe.wakes == old(pipe.wakes) + (if written then 1 else 0)
    {
      queue.items := queue.items + [item];
      var attempts;
      written, settled, attempts := Wake(writes);
      if written {
        pipe.wakes := pipe.wakes + 1;
      }
    }
  }

  /** A timer: the deadline (nanoseconds) and the token delivered when it fires. */
  datatype Timer = Timer(deadline: int, token: nat)

  /** The token `request_timer` hands out when the window is gone. */
  const INVALID_TOKEN: nat := 0

  // ---------------------------------------------------------------------------
  // Specification functions

  /** The earliest deadline among `ts`, `None` when there are none. */
  function EarliestDeadline(ts: seq<Timer>): (d: Option<int>)
    ensures d.None? <==> |ts| == 0
    ensures d.Some? ==> forall t :: t in ts ==> d.value <= t.deadline
    ensures d.Some? ==> exists k :: 0 <= k < |ts| && ts[k].deadline == d.value
  {
    if |ts| == 0 then None
    else
      match EarliestDeadline(ts[1..])
      case None => Some(ts[0].deadline)
      case Some(m) =>
        assert forall t :: t in ts ==> t == ts[0] || t in ts[1..];
        if ts[0].deadline <= m then Some(ts[0].deadline)
        else
          var k :| 0 <= k < |ts[1..]| && ts[1..][k].deadline == m;
          assert ts[k + 1].deadline == m;
          Some(m)
  }

  /** The timers due at `now`, in queue order. */
  function Due(ts: seq<Timer>, now: int): seq<Timer> {
    if |ts| == 0 then []
    else (if ts[0].deadline <= now then [ts[0]] else []) + Due(ts[1..], now)
  }

  /** The timers not yet due at `now`, in queue order. */
  function NotDue(ts: seq<Timer>, now: int): seq<Timer> {
    if |ts| == 0 then []
    else (if ts[0].deadline > now then [ts[0]] else []) + NotDue(ts[1..], now)
  }

  /** `Due` keeps exactly the queued timers whose deadline has come, `NotDue` exactly the others. */
  lemma {:induction false} DueMembers(ts: seq<Timer>, now: int)
    ensures forall t :: t in Due(ts, now) <==> t in ts && t.deadline <= now
    ensures forall t :: t in NotDue(ts, now) <==> t in ts && t.deadline > now
  {
    if |ts| > 0 {
      DueMembers(ts[1..], now);
      assert ts == [ts[0]] + ts[1..];
    }
  }

  /** Every queued timer is either due or not, once each. */
  lemma {:induction false} DueSplits(ts: seq<Timer>, now: int)
    ensures multiset(ts) == multiset(Due(ts, now)) + multiset(NotDue(ts, now))
  {
    if |ts| > 0 {
      DueSplits(ts[1..], now);
      DueStep(ts, now);
    }
  }

  /** How the first timer of a queue is split off. */
  lemma DueStep(ts: seq<Timer>, now: int)
    requires |ts| > 0
    ensures multiset(ts) == multiset{ts[0]} + multiset(ts[1..])
    ensures ts[0].deadline <= now ==>
              multiset(Due(ts, now)) == multiset{ts[0]} + multiset(Due(ts[1..], now))
              && NotDue(ts, now) == NotDue(ts[1..], now)
    ensures ts[0].deadline > now ==>
              Due(ts, now) == Due(ts[1..], now)
              && multiset(NotDue(ts, now)) == multiset{ts[0]} + multiset(NotDue(ts[1..], now))
  {
    assert ts == [ts[0]] + ts[1..];
  }

  /** One timer's count in a split of the queue into a due and a not-due part. */
  lemma DueCount(ts: seq<Timer>, now: int, fired: seq<Timer>, kept: seq<Timer>, t: Timer)
    requires multiset(fired) + multiset(kept) == multiset(ts)
    requires multiset(ts) == multiset(Due(ts, now)) + multiset(NotDue(ts, now))
    requires forall x :: x in fired ==> x.deadline <= now
    requires forall x :: x in kept ==> x.deadline > now
    ensures multiset(fired)[t] == multiset(Due(ts, now))[t]
    ensures multiset(kept)[t] == multiset(NotDue(ts, now))[t]
  {
    DueMembers(ts, now);
    assert multiset(ts)[t] == multiset(fired)[t] + multiset(kept)[t];
    assert multiset(ts)[t] == multiset(Due(ts, now))[t] + multiset(NotDue(ts, now))[t];
    if t.deadline <= now {
      assert multiset(kept)[t] == 0;
      assert multiset(NotDue(ts, now))[t] == 0;
    } else {
      assert multiset(fired)[t] == 0;
      assert multiset(Due(ts, now))[t] == 0;
    }
  }

  /**
   * Any split of the queue into timers that are all due and timers that are
   * all not due is, as a multiset, the split by `Due` and `NotDue`.
   */
  lemma DueSplitIsUnique(ts: seq<Timer>, now: int, fired: seq<Timer>, kept: seq<Timer>)
    requires multiset(fired) + multiset(kept) == multiset(ts)
    requires forall t :: t in fired ==> t.deadline <= now
    requires forall t :: t in kept ==> t.deadline > now
    ensures multiset(fired) == multiset(Due(ts, now))
    ensures multiset(kept) == multiset(NotDue(ts, now))
  {
    DueSplits(ts, now);
    forall t ensures multiset(fired)[t] == multiset(Due(ts, now))[t] && multiset(kept)[t] == multiset(NotDue(ts, now))[t] {
      DueCount(ts, now, fired, kept, t);
    }
  }

  /** Deadlines in firing order never go down. */
  predicate SortedByDeadline(ts: seq<Timer>) {
    forall i, j :: 0 <= i < j < |ts| ==> ts[i].deadline <= ts[j].deadline
  }

  /**
   * What `run_timers` keeps true while it pops: everything fired was due, in
   * deadline order, and no earlier than anything still queued.
   */
  predicate FiredFirst(fired: seq<Timer>, kept: seq<Timer>, now: int) {
    (forall i :: 0 <= i < |fired| ==> fired[i].deadline <= now)
    && SortedByDeadline(fired)
    && (forall i, j :: 0 <= i < |fired| && 0 <= j < |kept| ==> fired[i].deadline <= kept[j].deadline)
  }

  /** Firing a popped timer that is due and earliest keeps `FiredFirst` and loses no timer. */
  lemma FireNext(q0: seq<Timer>, fired: seq<Timer>, before: seq<Timer>, after: seq<Timer>, t: Timer, now: int)
    requires multiset(fired) + multiset(before) == multiset(q0)
    requires FiredFirst(fired, before, now)
    requires multiset(after) + multiset{t} == multiset(before)
    requires t.deadline <= now
    requires forall j :: 0 <= j < |after| ==> t.deadline <= after[j].deadline
    ensures FiredFirst(fired + [t], after, now)
    ensures multiset(fired + [t]) + multiset(after) == multiset(q0)
  {
    assert t in multiset(before);
    var m :| 0 <= m < |before| && before[m] == t;
    forall j | 0 <= j < |after| ensures after[j] in before {
      assert after[j] in multiset(after);
      assert multiset(after)[after[j]] <= multiset(before)[after[j]];
      assert after[j] in multiset(before);
    }
    var f := fired + [t];
    forall i, j | 0 <= i < |f| && 0 <= j < |after| ensures f[i].deadline <= after[j].deadline {
      if i < |fired| {
        assert fired[i] == f[i];
        var n :| 0 <= n < |before| && before[n] == after[j];
      }
    }
    forall i, j | 0 <= i < j < |f| ensures f[i].deadline <= f[j].deadline {
      if j < |fired| {
        assert fired[i] == f[i] && fired[j] == f[j];
      } else {
        assert fired[i] == f[i];
      }
    }
  }

  /**
   * When no queued timer is due any more, the fired ones are exactly the due
   * ones of the original queue and the queued ones exactly the others.
   */
  lemma TimersSettled(q0: seq<Timer>, fired: seq<Timer>, kept: seq<Timer>, now: int)
    requires multiset(fired) + multiset(kept) == multiset(q0)
    requires FiredFirst(fired, kept, now)
    requires EarliestDeadline(kept).None? || EarliestDeadline(kept).value > now
    ensures multiset(fired) == multiset(Due(q0, now))
    ensures multiset(kept) == multiset(NotDue(q0, now))
    ensures forall t :: t in kept ==> t.deadline > now
    ensures SortedByDeadline(fired)
    ensures forall i, j :: 0 <= i < |fired| && 0 <= j < |kept| ==> fired[i].deadline <= kept[j].deadline
  {
    forall t | t in fired ensures t.deadline <= now {
      var i :| 0 <= i < |fired| && fired[i] == t;
    }
    DueSplitIsUnique(q0, now, fired, kept);
  }

  /** The handler calls that deliver `fired` in order. */
  function TimerCalls(fired: seq<Timer>): (calls: seq<HandlerCall>)
    ensures |calls| == |fired|
  {
    if |fired| == 0 then []
    else TimerCalls(fired[..|fired| - 1]) + [TimerFired(fired[|fired| - 1].token)]
  }

  /** Each fired timer's token is delivered once, in firing order. */
  lemma {:induction false} TimerCallsDeliver(fired: seq<Timer>)
    ensures forall i :: 0 <= i < |fired| ==> TimerCalls(fired)[i] == TimerFired(fired[i].token)
  {
    if |fired| > 0 {
      var init := fired[..|fired| - 1];
      TimerCallsDeliver(init);
      assert TimerCalls(fired) == TimerCalls(init) + [TimerFired(fired[|fired| - 1].token)];
    }
  }

  lemma TimerCallsSnoc(fired: seq<Timer>, t: Timer)
    ensures TimerCalls(fired + [t]) == TimerCalls(fired) + [TimerFired(t.token)]
  {
    assert (fired + [t])[..|fired|] == fired;
  }

  /** The handler calls one idle item makes; a redraw makes none of its own. */
  function ItemCalls(item: IdleKind): seq<HandlerCall> {
    match item
    case Callback(f) => [IdleCallback(f)]
    case Token(t) => [Idle(t)]
    case Redraw => []
  }

  /** The handler calls a batch of idle items makes, in queue order. */
  function IdleCalls(q: seq<IdleKind>): (calls: seq<HandlerCall>)
    ensures |calls| <= |q|
    ensures Redraw !in q ==> |calls| == |q|
  {
    if |q| == 0 then []
    else IdleCalls(q[..|q| - 1]) + ItemCalls(q[|q| - 1])
  }

  /** Extending a batch by one item extends its calls by that item's calls. */
  lemma IdleCallsSnoc(q: seq<IdleKind>, i: nat)
    requires i < |q|
    ensures IdleCalls(q[..i + 1]) == IdleCalls(q[..i]) + ItemCalls(q[i])
    ensures Redraw in q[..i + 1] <==> Redraw in q[..i] || q[i] == Redraw
  {
    assert q[..i + 1][..i] == q[..i];
    assert q[..i + 1] == q[..i] + [q[i]];
  }

  /** Idle work is delivered in order: running two batches is running their concatenation. */
  lemma {:induction false} IdleCallsAppend(a: seq<IdleKind>, b: seq<IdleKind>)
    ensures IdleCalls(a + b) == IdleCalls(a) + IdleCalls(b)
    decreases |b|
  {
    if |b| > 0 {
      var init, last := b[..|b| - 1], b[|b| - 1];
      IdleCallsAppend(a, init);
      LastOfAppend(a, b);
      assert IdleCalls(a + b) == IdleCalls(a + init) + ItemCalls(last);
      assert IdleCalls(b) == IdleCalls(init) + ItemCalls(last);
    } else {
      assert a + b == a;
    }
  }

  lemma LastOfAppend(a: seq<IdleKind>, b: seq<IdleKind>)
    requires |b| > 0
    ensures (a + b)[..|a + b| - 1] == a + b[..|b| - 1]
    ensures (a + b)[|a + b| - 1] == b[|b| - 1]
  {
  }

  /** A batch of tokens is delivered one `idle` call per token, in order. */
  lemma {:induction false} IdleCallsOfTokens(tokens: seq<nat>)
    ensures IdleCalls(seq(|tokens|, i requires 0 <= i < |tokens| => Token(tokens[i])))
         == seq(|tokens|, i requires 0 <= i < |tokens| => Idle(tokens[i]))
  {
    if |tokens| > 0 {
      var q := seq(|tokens|, i requires 0 <= i < |tokens| => Token(tokens[i]));
      var init := tokens[..|tokens| - 1];
      assert q[..|q| - 1] == seq(|init|, i requires 0 <= i < |init| => Token(init[i]));
      IdleCallsOfTokens(init);
    }
  }

  /** The handler calls `render` makes: prepare, then, on a live window, paint the region. */
  function RenderCalls(free: bool, destroyed: bool, region: Region): seq<HandlerCall> {
    (if free then [PreparePaint] else []) + (if free && !destroyed then [Paint(region)] else [])
  }

  /**
   * What `reset_text_fields_if_needed` asks of the handler. `cancelOnSwitch` and
   * `cancelOnReset` are what cancelling the composition reports at the first and
   * the second opportunity.
   */
  function ResetCalls(previous: Option<nat>, next: Option<nat>, needReset: bool,
                      cancelOnSwitch: bool, cancelOnReset: bool): seq<HandlerCall>
  {
    (if next != previous && cancelOnSwitch && previous.Some? then ClearCompositionCalls(previous.value) else [])
    + (if needReset && cancelOnReset && next.Some? then ClearCompositionCalls(next.value) else [])
  }

  /**
   * A field's composition is cleared exactly when it is the previous field and
   * focus moved while composing, or it is the next field and a reset is due.
   */
  lemma ResetClearsOnlyWhenNeeded(previous: Option<nat>, next: Option<nat>, needReset: bool,
                                  cancelOnSwitch: bool, cancelOnReset: bool, field: nat)
    ensures ClearComposition(field) in ResetCalls(previous, next, needReset, cancelOnSwitch, cancelOnReset)
      <==> ((next != previous && cancelOnSwitch && previous == Some(field))
            || (needReset && cancelOnReset && next == Some(field)))
    ensures |ResetCalls(previous, next, needReset, cancelOnSwitch, cancelOnReset)| <= 6
  {
    var a := if next != previous && cancelOnSwitch && previous.Some? then ClearCompositionCalls(previous.value) else [];
    var b := if needReset && cancelOnReset && next.Some? then ClearCompositionCalls(next.value) else [];
    assert ResetCalls(previous, next, needReset, cancelOnSwitch, cancelOnReset) == a + b;
    assert ClearComposition(field) in a + b <==> ClearComposition(field) in a || ClearComposition(field) in b;
  }

  /** Taking out the timer at `k` leaves the others. */
  lemma RemoveAt(ts: seq<Timer>, k: nat)
    requires k < |ts|
    ensures multiset(ts[..k] + ts[k + 1..]) + multiset{ts[k]} == multiset(ts)
    ensures forall x :: x in ts[..k] + ts[k + 1..] ==> x in ts
  {
    assert ts == ts[..k] + [ts[k]] + ts[k + 1..];
  }

  // ---------------------------------------------------------------------------
  // The window

  class Window {
    const id: nat
    const conn: Connection
    const pipe: IdlePipe
    const idleQueue: IdleQueue

    /** The handler lock is held. */
    var handlerBusy: bool
    /** The invalid-region lock is held. */
    var invalidBusy: bool
    /** Every call made into the client's handler, oldest first. */
    var log: seq<HandlerCall>
    var destroyed: bool
    var invalid: Region
    /** Width and height in pixels. */
    var areaPx: (int, int)
    /** The timer heap's contents; the order carries no meaning. */
    var timers: seq<Timer>
    var nextTextField: Option<nat>
    var activeTextField: Option<nat>
    var needToResetCompose: bool

    constructor(id: nat, conn: Connection, pipe: IdlePipe, idleQueue: IdleQueue, areaPx: (int, int))
      ensures this.id == id && this.conn == conn && this.pipe == pipe && this.idleQueue == idleQueue
      ensures this.areaPx == areaPx
      ensures !handlerBusy && !invalidBusy && log == [] && !destroyed && invalid == {}
      ensures timers == [] && nextTextField == None && activeTextField == None && !needToResetCompose
    {
      this.id := id;
      this.conn := conn;
      this.pipe := pipe;
      this.idleQueue := idleQueue;
      this.areaPx := areaPx;
      handlerBusy := false;
      invalidBusy := false;
      log := [];
      destroyed := false;
      invalid := {};
      timers := [];
      nextTextField := None;
      activeTextField := None;
      needToResetCompose := false;
    }

    /** `with_handler` proceeds only when neither the invalid region nor the handler is locked. */
    predicate HandlerFree()
      reads this`invalidBusy, this`handlerBusy
    {
      !invalidBusy && !handlerBusy
    }

    /** Calls into the handler unless it is already borrowed; the calls are made or none is. */
    method WithHandlerUnchecked(calls: seq<HandlerCall>) returns (ran: bool)
      modifies this`log
      ensures ran <==> !handlerBusy
      ensures log == old(log) + (if ran then calls else [])
    {
      if handlerBusy {
        return false;
      }
      log := log + calls;
      return true;
    }

    /** As `WithHandlerUnchecked`, but refuses while the invalid region is locked as well. */
    method WithHandler(calls: seq<HandlerCall>) returns (ran: bool)
      modifies this`log
      ensures ran <==> old(HandlerFree())
      ensures log == old(log) + (if ran then calls else [])
    {
      if invalidBusy {
        return false;
      }
      ran := WithHandlerUnchecked(calls);
    }

    /**
     * A handler call that calls back into the window while it holds the handler:
     * the nested `with_handler` is refused, so the handler is never entered twice.
     */
    method WithHandlerReentered(outer: seq<HandlerCall>, inner: seq<HandlerCall>) returns (ran: bool, innerRan: bool)
      modifies this`log, this`handlerBusy
      ensures ran <==> old(HandlerFree())
      ensures !innerRan
      ensures log == old(log) + (if ran then outer else [])
      ensures handlerBusy == old(handlerBusy)
    {
      if !HandlerFree() {
        return false, false;
      }
      handlerBusy := true;
      log := log + outer;
      innerRan := WithHandler(inner);
      handlerBusy := false;
      ran := true;
    }

    /** Starts destroying the window: the request is sent on the first call only. */
    method Destroy()
      modifies this`destroyed, conn`requests
      ensures destroyed
      ensures conn.requests == old(conn.requests) + (if old(destroyed) then [] else [DestroyWindow(id)])
    {
      if !destroyed {
        destroyed := true;
        conn.requests := conn.requests + [DestroyWindow(id)];
      }
    }

    /** Maps the window unless it is being destroyed. */
    method Show()
      modifies conn`requests
      ensures conn.requests == old(conn.requests) + (if destroyed then [] else [MapWindow(id)])
    {
      if !destroyed {
        conn.requests := conn.requests + [MapWindow(id)];
      }
    }

    /** Adds a rectangle to the invalid region; fails when the region is locked. */
    method AddInvalidRect(rect: Rect) returns (r: Outcome<ShellError>)
      modifies this`invalid
      ensures r.Fail? <==> invalidBusy
      ensures r.Fail? ==> r.error == InvalidBorrowed && invalid == old(invalid)
      ensures r.Pass? ==> invalid == old(invalid) + {rect}
    {
      if invalidBusy {
        return Fail(InvalidBorrowed);
      }
      invalid := invalid + {rect};
      return Pass;
    }

    /**
     * Prepares and paints. A destroyed window only prepares and keeps its
     * region; otherwise the region is taken (left empty) and painted, and is
     * lost if the handler is borrowed at that point.
     */
    method Render() returns (r: Outcome<ShellError>)
      modifies this`log, this`invalid
      ensures r.Fail? <==> !old(destroyed) && invalidBusy
      ensures r.Fail? ==> r.error == InvalidBorrowed && invalid == old(invalid) && log == old(log)
      ensures old(destroyed) ==> (invalid == old(invalid)
        && log == old(log) + RenderCalls(old(HandlerFree()), true, {}))
      ensures r.Pass? && !old(destroyed) ==> (invalid == {}
        && log == old(log) + (if handlerBusy then [] else RenderCalls(old(HandlerFree()), false, old(invalid))))
    {
      var _ := WithHandler([PreparePaint]);
      if destroyed {
        return Pass;
      }
      if invalidBusy {
        return Fail(InvalidBorrowed);
      }
      var region := invalid;
      invalid := {};
      var _ := WithHandlerUnchecked([Paint(region)]);
      return Pass;
    }

    /** The idle handle for this window's queue and the loop's pipe. */
    function IdleHandleOf(): (h: IdleHandle)
      ensures h.queue == idleQueue && h.pipe == pipe
    {
      IdleHandle(idleQueue, pipe)
    }

    /** Schedules a redraw on the idle loop. */
    method RequestAnimFrame(writes: seq<WriteResult>)
      modifies idleQueue, pipe
      ensures idleQueue.items == old(idleQueue.items) + [Redraw]
      ensures pipe.wakes == old(pipe.wakes) + (if WritesByte(writes) then 1 else 0)
    {
      var _, _ := IdleHandleOf().AddIdle(Redraw, writes);
    }

    /** Invalidates the whole window (a failure is only logged) and schedules a redraw. */
    method Invalidate(writes: seq<WriteResult>)
      modifies this`invalid, idleQueue, pipe
      ensures invalid == if invalidBusy then old(invalid) else old(invalid) + {Rect(0, 0, areaPx.0, areaPx.1)}
      ensures idleQueue.items == old(idleQueue.items) + [Redraw]
      ensures pipe.wakes == old(pipe.wakes) + (if WritesByte(writes) then 1 else 0)
    {
      var _ := AddInvalidRect(Rect(0, 0, areaPx.0, areaPx.1));
      RequestAnimFrame(writes);
    }

    /** Invalidates one rectangle (a failure is only logged) and schedules a redraw. */
    method InvalidateRect(rect: Rect, writes: seq<WriteResult>)
      modifies this`invalid, idleQueue, pipe
      ensures invalid == if invalidBusy then old(invalid) else old(invalid) + {rect}
      ensures idleQueue.items == old(idleQueue.items) + [Redraw]
      ensures pipe.wakes == old(pipe.wakes) + (if WritesByte(writes) then 1 else 0)
    {
      var _ := AddInvalidRect(rect);
      RequestAnimFrame(writes);
    }

    /** An Expose event: invalidate its rectangle, and redraw after the last of a series. */
    method HandleExpose(rect: Rect, count: nat, writes: seq<WriteResult>) returns (r: Outcome<ShellError>)
      modifies this`invalid, idleQueue, pipe
      ensures r.Fail? <==> invalidBusy
      ensures r.Fail? ==> invalid == old(invalid) && idleQueue.items == old(idleQueue.items) && pipe.wakes == old(pipe.wakes)
      ensures r.Pass? ==> (invalid == old(invalid) + {rect}
        && idleQueue.items == old(idleQueue.items) + (if count == 0 then [Redraw] else [])
        && pipe.wakes == old(pipe.wakes) + (if count == 0 && WritesByte(writes) then 1 else 0))
    {
      r := AddInvalidRect(rect);
      if r.Fail? {
        return;
      }
      if count == 0 {
        RequestAnimFrame(writes);
      }
    }

    /**
     * A new size: when it differs, record it, invalidate the whole window and
     * tell the handler the size and the scale. An unchanged size does nothing.
     */
    method SizeChanged(width: int, height: int) returns (r: Outcome<ShellError>)
      modifies this`areaPx, this`invalid, this`log
      ensures areaPx == (width, height)
      ensures old(areaPx) == (width, height) ==> r.Pass? && invalid == old(invalid) && log == old(log)
      ensures old(areaPx) != (width, height) && invalidBusy ==> r == Fail(InvalidBorrowed) && invalid == old(invalid) && log == old(log)
      ensures old(areaPx) != (width, height) && !invalidBusy ==> (r.Pass?
        && invalid == old(invalid) + {Rect(0, 0, width, height)}
        && log == old(log) + (if old(HandlerFree()) then [HandlerCall.SizeChanged(width, height), ScaleChanged] else []))
    {
      if areaPx == (width, height) {
        return Pass;
      }
      areaPx := (width, height);
      r := AddInvalidRect(Rect(0, 0, width, height));
      if r.Fail? {
        return;
      }
      var _ := WithHandler([HandlerCall.SizeChanged(width, height)]);
      var _ := WithHandler([ScaleChanged]);
    }

    /** The server destroyed the window: tell the handler. */
    method HandleDestroyNotify()
      modifies this`log
      ensures log == old(log) + (if old(HandlerFree()) then [HandlerCall.Destroy] else [])
    {
      var _ := WithHandler([HandlerCall.Destroy]);
    }

    /** The window gained keyboard focus. */
    method HandleGotFocus()
      modifies this`log
      ensures log == old(log) + (if old(HandlerFree()) then [GotFocus] else [])
    {
      var _ := WithHandler([GotFocus]);
    }

    /** A button press: the pressed button joins the held set and the click count is 1. */
    method HandleButtonPress(ev: XButtonEvent, device: Option<DeviceInfo>, source: Option<DeviceInfo>)
      modifies this`log
      ensures log == old(log) + (if old(HandlerFree()) then [PointerDown(PressEvent(PointerEventOf(ev, device, source)))] else [])
    {
      var e := PointerEventOf(ev, device, source);
      var _ := WithHandler([PointerDown(PressEvent(e))]);
    }

    /** A button release: the released button leaves the held set. */
    method HandleButtonRelease(ev: XButtonEvent, device: Option<DeviceInfo>, source: Option<DeviceInfo>)
      modifies this`log
      ensures log == old(log) + (if old(HandlerFree()) then [PointerUp(ReleaseEvent(PointerEventOf(ev, device, source)))] else [])
    {
      var e := PointerEventOf(ev, device, source);
      var _ := WithHandler([PointerUp(ReleaseEvent(e))]);
    }

    /** Pointer motion: no triggering button. */
    method HandleMotionNotify(ev: XButtonEvent, device: Option<DeviceInfo>, source: Option<DeviceInfo>)
      modifies this`log
      ensures log == old(log) + (if old(HandlerFree()) then [PointerMove(PointerEventOf(ev, device, source).(button := NoButton))] else [])
    {
      var e := PointerEventOf(ev, device, source);
      var _ := WithHandler([PointerMove(e.(button := NoButton))]);
    }

    /** A scroll-button press: a wheel event, or an error and no handler call for a non-scroll code. */
    method HandleWheel(ev: XButtonEvent, device: Option<DeviceInfo>, source: Option<DeviceInfo>) returns (r: Outcome<ShellError>)
      modifies this`log
      ensures r.Fail? <==> !(4 <= ev.detail <= 7)
      ensures r.Fail? ==> r.error == UnexpectedWheelButton(ev.detail) && log == old(log)
      ensures r.Pass? ==> (log == old(log)
        + (if old(HandlerFree()) then [Wheel(WheelEventOf(PointerEventOf(ev, device, source), ev.detail).value)] else []))
    {
      var e := PointerEventOf(ev, device, source);
      match WheelEventOf(e, ev.detail)
      case Failure(err) =>
        return Fail(err);
      case Success(w) =>
        var _ := WithHandler([Wheel(w)]);
        return Pass;
    }

    /** A touch begins: the emulated primary button, if any, is held. */
    method HandleTouchBegin(ev: XTouchEvent)
      modifies this`log
      ensures var e := TouchEventOf(ev);
        log == old(log) + (if old(HandlerFree()) then [PointerDown(e.(buttons := With(e.buttons, e.button)))] else [])
    {
      var e := TouchEventOf(ev);
      var _ := WithHandler([PointerDown(e.(buttons := With(e.buttons, e.button)))]);
    }

    /** A touch moves. */
    method HandleTouchUpdate(ev: XTouchEvent)
      modifies this`log
      ensures log == old(log) + (if old(HandlerFree()) then [PointerMove(TouchEventOf(ev))] else [])
    {
      var _ := WithHandler([PointerMove(TouchEventOf(ev))]);
    }

    /** A touch ends: the button is released, and the event is delivered as a move. */
    method HandleTouchEnd(ev: XTouchEvent)
      modifies this`log
      ensures var e := TouchEventOf(ev);
        log == old(log) + (if old(HandlerFree()) then [PointerMove(e.(buttons := Without(e.buttons, e.button)))] else [])
    {
      var e := TouchEventOf(ev);
      var _ := WithHandler([PointerMove(e.(buttons := Without(e.buttons, e.button)))]);
    }

    /**
     * Brings the composition state in line with the focused text field: the
     * active field becomes the next field, which is returned. The reset flag
     * is left as it is.
     */
    method ResetTextFieldsIfNeeded(cancelOnSwitch: bool, cancelOnReset: bool) returns (next: Option<nat>)
      modifies this`activeTextField, this`log
      ensures next == nextTextField && activeTextField == nextTextField
      ensures log == old(log) + ResetCalls(old(activeTextField), nextTextField, needToResetCompose, cancelOnSwitch, cancelOnReset)
    {
      next := nextTextField;
      var previous := activeTextField;
      if next != previous {
        if cancelOnSwitch {
          if previous.Some? {
            log := log + ClearCompositionCalls(previous.value);
          }
        }
        activeTextField := next;
      }
      if needToResetCompose && cancelOnReset {
        if next.Some? {
          log := log + ClearCompositionCalls(next.value);
        }
      }
    }

    /**
     * A key event. A key press the handler does not consume resets the text
     * fields and, inside a text field, feeds the key to it under the input
     * lock; a key release resets the text fields after the handler sees it.
     * Nothing happens while the handler is unavailable.
     */
    method HandleKeyEvent(scancode: nat, down: bool, consumed: bool, cancelOnSwitch: bool, cancelOnReset: bool)
      modifies this`activeTextField, this`log
      ensures !old(HandlerFree()) ==> log == old(log) && activeTextField == old(activeTextField)
      ensures old(HandlerFree()) && down && consumed ==>
        log == old(log) + [KeyDown(scancode)] && activeTextField == old(activeTextField)
      ensures old(HandlerFree()) && !(down && consumed) ==> activeTextField == nextTextField
      ensures old(HandlerFree()) && down && !consumed ==>
        log == old(log) + [KeyDown(scancode)]
          + ResetCalls(old(activeTextField), nextTextField, needToResetCompose, cancelOnSwitch, cancelOnReset)
          + (if nextTextField.Some? then [AcquireInputLock(nextTextField.value), SimulateInput(nextTextField.value),
                                          ReleaseInputLock(nextTextField.value)] else [])
      ensures old(HandlerFree()) && !down ==>
        log == old(log) + [KeyUp(scancode)]
          + ResetCalls(old(activeTextField), nextTextField, needToResetCompose, cancelOnSwitch, cancelOnReset)
    {
      if !HandlerFree() {
        return;
      }
      if down {
        log := log + [KeyDown(scancode)];
        if consumed {
          return;
        }
        var next := ResetTextFieldsIfNeeded(cancelOnSwitch, cancelOnReset);
        if next.Some? {
          log := log + [AcquireInputLock(next.value), SimulateInput(next.value), ReleaseInputLock(next.value)];
        }
      } else {
        log := log + [KeyUp(scancode)];
        var _ := ResetTextFieldsIfNeeded(cancelOnSwitch, cancelOnReset);
      }
    }

    /** Delivers a batch of idle items in order and reports whether a redraw was among them. */
    method DeliverIdle(queue: seq<IdleKind>) returns (needsRedraw: bool)
      modifies this`log
      ensures log == old(log) + IdleCalls(queue)
      ensures needsRedraw <==> Redraw in queue
    {
      needsRedraw := false;
      for i := 0 to |queue|
        invariant log == old(log) + IdleCalls(queue[..i])
        invariant needsRedraw <==> Redraw in queue[..i]
      {
        IdleCallsSnoc(queue, i);
        match queue[i] {
          case Callback(f) =>
            log := log + [IdleCallback(f)];
          case Token(t) =>
            log := log + [HandlerCall.Idle(t)];
          case Redraw =>
            needsRedraw := true;
        }
        assert log == old(log) + IdleCalls(queue[..i]) + ItemCalls(queue[i]);
      }
      assert queue[..|queue|] == queue;
    }

    /**
     * Runs the idle queue: takes the whole queue, delivers its callbacks and
     * tokens in order, then renders once if a redraw was among them. With the
     * handler unavailable the batch is dropped, redraw included.
     */
    method RunIdle() returns (redrawn: bool)
      modifies idleQueue`items, this`log, this`invalid
      ensures idleQueue.items == []
      ensures redrawn <==> old(HandlerFree()) && Redraw in old(idleQueue.items)
      ensures !redrawn ==> (invalid == old(invalid)
        && log == old(log) + (if old(HandlerFree()) then IdleCalls(old(idleQueue.items)) else []))
      ensures redrawn ==> (invalid == (if destroyed then old(invalid) else {})
        && log == old(log) + IdleCalls(old(idleQueue.items)) + RenderCalls(true, destroyed, old(invalid)))
    {
      var queue := idleQueue.items;
      idleQueue.items := [];
      var needsRedraw := false;
      if HandlerFree() {
        needsRedraw := DeliverIdle(queue);
      }
      redrawn := needsRedraw;
      if needsRedraw {
        var _ := Render();
      }
    }

    /** The earliest deadline in the timer queue, if any. */
    function NextTimeout(): (d: Option<int>)
      reads this`timers
      ensures d == EarliestDeadline(timers)
    {
      EarliestDeadline(timers)
    }

    /** Pops a timer of earliest deadline off the heap; ties may come out in any order. */
    method PopEarliest() returns (t: Timer)
      requires |timers| > 0
      modifies this`timers
      ensures multiset(timers) + multiset{t} == multiset(old(timers))
      ensures Some(t.deadline) == EarliestDeadline(old(timers))
      ensures forall j :: 0 <= j < |timers| ==> t.deadline <= timers[j].deadline
    {
      var d := EarliestDeadline(timers).value;
      var k :| 0 <= k < |timers| && timers[k].deadline == d;
      t := timers[k];
      RemoveAt(timers, k);
      timers := timers[..k] + timers[k + 1..];
    }

    /**
     * Fires every due timer, earliest deadline first, delivering each token
     * once; every timer not yet due stays queued.
     */
    method RunTimers(now: int) returns (fired: seq<Timer>)
      modifies this`timers, this`log
      ensures multiset(fired) == multiset(Due(old(timers), now))
      ensures multiset(timers) == multiset(NotDue(old(timers), now))
      ensures forall t :: t in timers ==> t.deadline > now
      ensures SortedByDeadline(fired)
      ensures forall i, j :: 0 <= i < |fired| && 0 <= j < |timers| ==> fired[i].deadline <= timers[j].deadline
      ensures log == old(log) + (if old(HandlerFree()) then TimerCalls(fired) else [])
    {
      ghost var q0 := timers;
      ghost var log0 := log;
      ghost var free := HandlerFree();
      fired := [];
      while true
        invariant multiset(fired) + multiset(timers) == multiset(q0)
        invariant FiredFirst(fired, timers, now)
        invariant log == log0 + (if free then TimerCalls(fired) else [])
        decreases |timers|
      {
        var next := NextTimeout();
        if next.None? || next.value > now {
          break;
        }
        ghost var before := timers;
        var t := PopEarliest();
        FireNext(q0, fired, before, timers, t, now);
        TimerCallsSnoc(fired, t);
        fired := fired + [t];
        var _ := WithHandler([TimerFired(t.token)]);
      }
      TimersSettled(q0, fired, timers, now);
    }
  }

  // ---------------------------------------------------------------------------
  // Window handles

  /** A client's handle on a window; the window may already be gone. */
  class WindowHandle {
    const id: nat
    const window: Window?

    constructor(id: nat, window: Window?)
      ensures this.id == id && this.window == window
    {
      this.id := id;
      this.window := window;
    }

    /** The window this handle reaches: none once it is gone. */
    function Live(): (live: set<Window>)
      ensures window != null <==> window in live
    {
      if window == null then {} else {window}
    }

    /**
     * Two handles are equal when they name the same window id, whether or
     * not either still reaches its window.
     */
    predicate Equals(other: WindowHandle): (r: bool)
      ensures r <==> id == other.id
    {
      id == other.id
    }

    /** Forgets a text field: whichever of the next and active fields it is becomes none and a reset is due. */
    method RemoveTextField(token: nat)
      modifies Live()`nextTextField, Live()`activeTextField, Live()`needToResetCompose
      ensures window != null ==>
        window.nextTextField == (if old(window.nextTextField) == Some(token) then None else old(window.nextTextField))
        && window.activeTextField == (if old(window.activeTextField) == Some(token) then None else old(window.activeTextField))
        && window.needToResetCompose == (old(window.needToResetCompose)
             || old(window.nextTextField) == Some(token) || old(window.activeTextField) == Some(token))
    {
      if window != null {
        if window.nextTextField == Some(token) {
          window.nextTextField := None;
          window.needToResetCompose := true;
        }
        if window.activeTextField == Some(token) {
          window.activeTextField := None;
          window.needToResetCompose := true;
        }
      }
    }

    /** Names the field that gets focus at the next key event. */
    method SetFocusedTextField(field: Option<nat>)
      modifies Live()`nextTextField
      ensures window != null ==> window.nextTextField == field
    {
      if window != null {
        window.nextTextField := field;
      }
    }

    /** A change to the active field's contents makes a composition reset due. */
    method UpdateTextField(token: nat)
      modifies Live()`needToResetCompose
      ensures window != null ==>
        window.needToResetCompose == (old(window.needToResetCompose) || old(window.activeTextField) == Some(token))
    {
      if window != null {
        if window.activeTextField == Some(token) {
          window.needToResetCompose := true;
        }
      }
    }

    /**
     * Queues a timer and returns its token (`drawn`, the one the new timer
     * draws), or the invalid token when the window is gone.
     */
    method RequestTimer(deadline: int, drawn: nat) returns (token: nat)
      requires drawn != INVALID_TOKEN
      modifies Live()`timers
      ensures window == null ==> token == INVALID_TOKEN
      ensures window != null ==> token == drawn && window.timers == old(window.timers) + [Timer(deadline, drawn)]
    {
      if window == null {
        return INVALID_TOKEN;
      }
      window.timers := window.timers + [Timer(deadline, drawn)];
      return drawn;
    }
  }

  /**
   * Handle equality is an equivalence relation, and a handle whose window is
   * gone still equals a live handle with the same id.
   */
  lemma EqualsIsEquivalence(a: WindowHandle, b: WindowHandle, c: WindowHandle)
    ensures a.Equals(a)
    ensures a.Equals(b) == b.Equals(a)
    ensures a.Equals(b) && b.Equals(c) ==> a.Equals(c)
    ensures a.id == b.id && a.window == null && b.window != null ==> a.Equals(b)
  {
  }

  /** A timer just requested is the next to fire unless an earlier one is queued. */
  lemma RequestedTimerIsEarliestUnlessPreceded(ts: seq<Timer>, t: Timer)
    ensures EarliestDeadline(ts + [t]).value <= t.deadline
    ensures EarliestDeadline(ts).None? ==> EarliestDeadline(ts + [t]) == Some(t.deadline)
    ensures EarliestDeadline(ts).Some? ==>
      EarliestDeadline(ts + [t]).value == if t.deadline < EarliestDeadline(ts).value then t.deadline else EarliestDeadline(ts).value
  {
    var d := EarliestDeadline(ts + [t]);
    assert t in ts + [t];
    assert forall x :: x in ts ==> x in ts + [t];
    var k :| 0 <= k < |ts + [t]| && (ts + [t])[k].deadline == d.value;
    if k < |ts| {
      assert (ts + [t])[k] == ts[k];
      assert ts[k] in ts;
    }
  }
}
