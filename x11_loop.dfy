/**
 * The X11 event loop's waiting logic: how long `poll` may sleep, when the
 * wait ends, and how the idle pipe is drained and written.
 *
 * System calls are not modelled: each `poll`, `read` or `write` is the next
 * element of a sequence of outcomes given as input, and the clock reading
 * taken after a `poll` travels with its outcome. Times are nanoseconds.
 */
module X11Loop {
  import opened Shell
  import opened Wrappers

  // ---------------------------------------------------------------------------
  // Poll timeout

  /**
   * The poll timeout as the source computes it: the milliseconds converted to a
   * C `int`, or `INT_MAX - 1` when they do not fit, plus one. At exactly
   * `INT_MAX` milliseconds the conversion succeeds and the sum leaves the range.
   */
  function PollTimeoutAsWritten(ms: nat): int {
    (if ms <= I32_MAX then ms else I32_MAX - 1) + 1
  }

  /** A deadline `INT_MAX` milliseconds away (about 24.8 days) overflows the C `int` timeout. */
  lemma PollTimeoutAsWrittenOverflows()
    ensures PollTimeoutAsWritten(I32_MAX) == I32_MAX + 1
    ensures PollTimeoutAsWritten(I32_MAX) > I32_MAX
  {
  }

  /**
   * The poll timeout as intended: the milliseconds saturated at `INT_MAX - 1`,
   * plus one to round the wait up rather than down.
   */
  function PollTimeout(ms: nat): (t: int)
    ensures 1 <= t <= I32_MAX
    ensures ms < I32_MAX ==> t == ms + 1
    ensures ms >= I32_MAX ==> t == I32_MAX
  {
    (if ms < I32_MAX then ms else I32_MAX - 1) + 1
  }

  /** The two agree on every input but the one that overflows. */
  lemma PollTimeoutAgreesExceptAtMax(ms: nat)
    ensures ms != I32_MAX <==> PollTimeoutAsWritten(ms) == PollTimeout(ms)
  {
  }

  /**
   * Rounding up makes the wait reach the deadline: a poll that times out
   * after the computed number of milliseconds wakes strictly after it,
   * unless the deadline is beyond what `int` milliseconds can express.
   */
  lemma {:induction false} PollTimeoutReachesDeadline(deadline: int, now: int)
    requires now < deadline
    requires MillisUntil(deadline, now) < I32_MAX
    ensures PollTimeout(MillisUntil(deadline, now)) * NANOS_PER_MILLI > deadline - now
  {
    var ms := MillisUntil(deadline, now);
    assert PollTimeout(ms) == ms + 1;
    assert (ms + 1) * NANOS_PER_MILLI > deadline - now;
  }

  // ---------------------------------------------------------------------------
  // Waiting for an event

  /** The earliest wake-up: the idle deadline, or the timer deadline when it comes first. */
  function EarliestTimeout(idleTimeout: int, timerTimeout: Option<int>): (e: int)
    ensures e <= idleTimeout && (timerTimeout.Some? ==> e <= timerTimeout.value)
    ensures e == idleTimeout || (timerTimeout.Some? && e == timerTimeout.value)
  {
    var t := timerTimeout.GetOr(idleTimeout);
    if idleTimeout <= t then idleTimeout else t
  }

  /**
   * The deadline `poll` must wake for: only the timer deadline until the idle
   * pipe has signalled, the earliest of both afterwards.
   */
  function ActiveDeadline(signalled: bool, idleTimeout: int, timerTimeout: Option<int>): (d: Option<int>)
    ensures !signalled ==> d == timerTimeout
    ensures signalled ==> d == Some(EarliestTimeout(idleTimeout, timerTimeout))
  {
    if signalled then Some(EarliestTimeout(idleTimeout, timerTimeout)) else timerTimeout
  }

  /** What one `poll` returns, with the clock reading taken after it. */
  datatype PollOutcome =
    | Polled(connReadable: bool, pipeReadable: bool, now: int)
    | Interrupted(now: int)
    | PollFailed

  /** Why the wait ended. `OutcomesExhausted` only means the given outcomes ran out. */
  datatype PollExit =
    | DeadlinePassed
    | ConnectionReadable
    | TimerDue
    | IdleDue
    | PollErrored
    | OutcomesExhausted

  /**
   * The clock reading in force before poll `k`: the one taken after the last
   * poll that took one, or the reading at entry.
   */
  function ClockAt(now0: int, outcomes: seq<PollOutcome>, k: nat): int
    requires k <= |outcomes|
  {
    if k == 0 then now0
    else
      match outcomes[k - 1]
      case Polled(_, _, t) => t
      case Interrupted(t) => t
      case PollFailed => ClockAt(now0, outcomes, k - 1)
  }

  /** The idle pipe was readable after one of the first `k` polls. */
  ghost predicate SignalledBy(outcomes: seq<PollOutcome>, k: nat)
    requires k <= |outcomes|
  {
    exists j :: 0 <= j < k && outcomes[j].Polled? && outcomes[j].pipeReadable
  }

  lemma SignalledByStep(outcomes: seq<PollOutcome>, k: nat)
    requires k < |outcomes|
    ensures SignalledBy(outcomes, k + 1) <==>
      SignalledBy(outcomes, k) || (outcomes[k].Polled? && outcomes[k].pipeReadable)
  {
    if SignalledBy(outcomes, k + 1) && !(outcomes[k].Polled? && outcomes[k].pipeReadable) {
      var j :| 0 <= j < k + 1 && outcomes[j].Polled? && outcomes[j].pipeReadable;
      assert j < k;
    }
  }

  /**
   * The timeout handed to `poll` for a deadline not yet reached: -1 (wait
   * without limit) when there is none, otherwise the milliseconds to it,
   * rounded up.
   */
  function PollArgument(deadline: Option<int>, now: int): (t: int)
    requires deadline.Some? ==> now < deadline.value
    ensures t == -1 <==> deadline.None?
    ensures deadline.Some? ==> t == PollTimeout(MillisUntil(deadline.value, now)) && 1 <= t <= I32_MAX
  {
    match deadline
    case None => -1
    case Some(d) => PollTimeout(MillisUntil(d, now))
  }

  /**
   * Waits until the connection is readable, the timer deadline passes, or the
   * idle pipe has signalled and the idle deadline passes. Before each `poll`
   * the active deadline is checked against the clock, and the poll is given
   * the time left to it. Interrupted polls are retried; a failed poll ends the
   * wait with an error. `consumed` counts the polls made and `timeouts` holds
   * the timeout each was given.
   */
  method PollWithTimeout(now0: int, timerTimeout: Option<int>, idleTimeout: int, outcomes: seq<PollOutcome>)
    returns (exit: PollExit, consumed: nat, timeouts: seq<int>)
    ensures consumed <= |outcomes| && |timeouts| == consumed
    // every poll was made before the active deadline and waits until just past it
    ensures forall j :: 0 <= j < consumed ==>
      var d := ActiveDeadline(SignalledBy(outcomes, j), idleTimeout, timerTimeout);
      (d.None? || ClockAt(now0, outcomes, j) < d.value)
      && timeouts[j] == PollArgument(d, ClockAt(now0, outcomes, j))
    // no poll is made once the timer deadline, or a signalled idle deadline, has passed
    ensures forall j :: 0 <= j < consumed ==>
      !(timerTimeout.Some? && timerTimeout.value <= ClockAt(now0, outcomes, j))
      && !(SignalledBy(outcomes, j) && idleTimeout <= ClockAt(now0, outcomes, j))
    ensures forall j :: 0 <= j < consumed - 1 ==>
      (outcomes[j] != PollFailed && (outcomes[j].Polled? ==> !outcomes[j].connReadable))
    ensures exit == DeadlinePassed ==>
      var d := ActiveDeadline(SignalledBy(outcomes, consumed), idleTimeout, timerTimeout);
      d.Some? && d.value <= ClockAt(now0, outcomes, consumed)
    ensures timerTimeout.Some? && timerTimeout.value <= now0 ==> exit == DeadlinePassed && consumed == 0
    ensures exit == ConnectionReadable <==>
      consumed > 0 && outcomes[consumed - 1].Polled? && outcomes[consumed - 1].connReadable
    ensures exit == TimerDue ==>
      consumed > 0 && outcomes[consumed - 1].Polled?
      && timerTimeout.Some? && timerTimeout.value <= ClockAt(now0, outcomes, consumed)
    ensures exit == IdleDue ==>
      consumed > 0 && outcomes[consumed - 1].Polled?
      && SignalledBy(outcomes, consumed) && idleTimeout <= ClockAt(now0, outcomes, consumed)
    ensures exit == PollErrored <==> consumed > 0 && outcomes[consumed - 1] == PollFailed
    ensures exit == OutcomesExhausted ==>
      var d := ActiveDeadline(SignalledBy(outcomes, consumed), idleTimeout, timerTimeout);
      consumed == |outcomes| && (d.None? || ClockAt(now0, outcomes, consumed) < d.value)
  {
    var now := now0;
    var signalled := false;
    consumed := 0;
    timeouts := [];
    while true
      invariant consumed <= |outcomes| && |timeouts| == consumed
      invariant now == ClockAt(now0, outcomes, consumed)
      invariant signalled == SignalledBy(outcomes, consumed)
      invariant forall j :: 0 <= j < consumed ==>
        var d := ActiveDeadline(SignalledBy(outcomes, j), idleTimeout, timerTimeout);
        (d.None? || ClockAt(now0, outcomes, j) < d.value)
        && timeouts[j] == PollArgument(d, ClockAt(now0, outcomes, j))
      invariant forall j :: 0 <= j < consumed ==>
        (outcomes[j] != PollFailed && (outcomes[j].Polled? ==> !outcomes[j].connReadable))
      decreases |outcomes| - consumed
    {
      var deadline := ActiveDeadline(signalled, idleTimeout, timerTimeout);
      if deadline.Some? && deadline.value <= now {
        return DeadlinePassed, consumed, timeouts;
      }
      var pollTimeout := PollArgument(deadline, now);
      if consumed == |outcomes| {
        return OutcomesExhausted, consumed, timeouts;
      }
      var outcome := outcomes[consumed];
      SignalledByStep(outcomes, consumed);
      consumed := consumed + 1;
      timeouts := timeouts + [pollTimeout];
      match outcome
      case Polled(connReadable, pipeReadable, t) =>
        if connReadable {
          return ConnectionReadable, consumed, timeouts;
        }
        now := t;
        if timerTimeout.Some? && now >= timerTimeout.value {
          return TimerDue, consumed, timeouts;
        }
        if signalled || pipeReadable {
          signalled := true;
          if now >= idleTimeout {
            return IdleDue, consumed, timeouts;
          }
        }
      case Interrupted(t) =>
        now := t;
      case PollFailed =>
        return PollErrored, consumed, timeouts;
    }
  }

  // ---------------------------------------------------------------------------
  // The idle pipe

  /** What one non-blocking `read` of the idle pipe returns. */
  datatype ReadResult = ReadBytes(count: nat) | ReadInterrupted | ReadWouldBlock | ReadFailed

  /** A read that ends the drain: the pipe is empty, closed, or broken. */
  predicate EndsDrain(r: ReadResult) {
    r.ReadWouldBlock? || r == ReadBytes(0) || r.ReadFailed?
  }

  /** The position of the first read that ends the drain. */
  function FirstEnd(results: seq<ReadResult>): (k: nat)
    requires exists i :: 0 <= i < |results| && EndsDrain(results[i])
    ensures k < |results| && EndsDrain(results[k])
    ensures forall j :: 0 <= j < k ==> !EndsDrain(results[j])
  {
    if EndsDrain(results[0]) then 0
    else
      var i :| 0 <= i < |results| && EndsDrain(results[i]);
      assert EndsDrain(results[1..][i - 1]);
      1 + FirstEnd(results[1..])
  }

  /**
   * Empties the idle pipe: reads until it would block or reports end of
   * file, retrying interrupted reads and reading on after any bytes; any other
   * failure is an error. `results` are the outcomes of the successive reads:
   * when none of them ends the drain, the reading has not ended (`!settled`).
   */
  method DrainIdlePipe(results: seq<ReadResult>) returns (r: Outcome<ShellError>, settled: bool, consumed: nat)
    ensures settled <==> exists i :: 0 <= i < |results| && EndsDrain(results[i])
    ensures settled ==> consumed == FirstEnd(results) + 1
    ensures !settled ==> consumed == |results|
    ensures r.Fail? <==> settled && results[consumed - 1].ReadFailed?
    ensures r.Fail? ==> r.error == PipeReadError
  {
    var i := 0;
    while i < |results|
      invariant i <= |results|
      invariant forall j :: 0 <= j < i ==> !EndsDrain(results[j])
    {
      match results[i] {
        case ReadInterrupted =>
        case ReadWouldBlock =>
          return Pass, true, i + 1;
        case ReadFailed =>
          return Fail(PipeReadError), true, i + 1;
        case ReadBytes(n) =>
          if n == 0 {
            return Pass, true, i + 1;
          }
      }
      i := i + 1;
    }
    return Pass, false, i;
  }

  /** The reads `results` end the drain, and the first read that ends it fails. */
  predicate DrainFails(results: seq<ReadResult>) {
    (exists i :: 0 <= i < |results| && EndsDrain(results[i])) && results[FirstEnd(results)].ReadFailed?
  }
}
