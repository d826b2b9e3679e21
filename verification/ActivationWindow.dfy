/**
 The clock window in which the submission switch may be opened. Times and delays are whole
 microseconds, the decision cycle of a process is due once per interval at a fixed delay.
 */
module ActivationWindow {
  import opened Outcomes

  const SECOND := 1_000_000
  const INTERVAL := 600 * SECOND

  /** The environment: the configured interval in seconds and the startup delay. */
  datatype Schedule = Schedule(interval: int, delay: nat)

  predicate Supported(s: Schedule) {
    s.interval == 600 && s.delay < s.interval * SECOND
  }

  /** int(now.timestamp()): whole seconds towards zero. */
  function WholeSeconds(now: int): int {
    if now >= 0 then now / SECOND else -((-now) / SECOND)
  }

  /** next_decision_due */
  function NextDue(now: int, s: Schedule, includeNow: bool): Option<int> {
    if !Supported(s) then None
    else
      var due := WholeSeconds(now) / s.interval * s.interval * SECOND + s.delay;
      Some(if due < now || (due == now && !includeNow) then due + s.interval * SECOND else due)
  }

  predicate IsDue(t: int, s: Schedule) {
    t % INTERVAL == s.delay
  }

  ghost predicate FirstDue(due: int, from: int, s: Schedule, includeFrom: bool) {
    && IsDue(due, s) && (due > from || (includeFrom && due == from))
    && forall t :: IsDue(t, s) && (t > from || (includeFrom && t == from)) ==> due <= t
  }

  /** Before the epoch, the last second of an interval is rounded up into the next one. */
  predicate Skips(now: int, s: Schedule, includeNow: bool) {
    && now < 0 && now % INTERVAL > INTERVAL - SECOND
    && (now % INTERVAL < s.delay || (now % INTERVAL == s.delay && includeNow))
  }

  lemma {:induction false} DueInstants(t: int, s: Schedule)
    requires s.delay < INTERVAL
    ensures IsDue(t, s) <==> t == t / INTERVAL * INTERVAL + s.delay
  {
  }

  /** Whole intervals of the rounded time. */
  lemma {:induction false} RoundedBoundary(now: int)
    ensures WholeSeconds(now) / 600
            == now / INTERVAL + (if now < 0 && now % INTERVAL > INTERVAL - SECOND then 1 else 0)
  {
    var q, r := now / INTERVAL, now % INTERVAL;
    assert now == q * INTERVAL + r;
    if now >= 0 {
      assert WholeSeconds(now) == q * 600 + r / SECOND;
    } else {
      var whole := (-now) / SECOND;
      assert -now == (-q) * 600 * SECOND - r;
      if r > INTERVAL - SECOND {
        assert whole == (-q - 1) * 600;
      } else {
        assert 0 <= r <= 599 * SECOND;
        var up := (r + SECOND - 1) / SECOND;
        assert WholeSeconds(now) == q * 600 + up;
        assert 0 <= up < 600;
      }
    }
  }

  lemma {:induction false} DuePlaces(t: int, s: Schedule, k: int)
    requires s.delay < INTERVAL && IsDue(t, s) && t > k * INTERVAL + s.delay
    ensures t >= (k + 1) * INTERVAL + s.delay
  {
    DueInstants(t, s);
    assert t / INTERVAL >= k + 1;
  }

  lemma {:induction false} FirstAfter(k: int, from: int, s: Schedule, includeFrom: bool)
    requires s.delay < INTERVAL
    requires k * INTERVAL + s.delay > from || (includeFrom && k * INTERVAL + s.delay == from)
    requires (k - 1) * INTERVAL + s.delay < from || (!includeFrom && (k - 1) * INTERVAL + s.delay == from)
    ensures FirstDue(k * INTERVAL + s.delay, from, s, includeFrom)
  {
    var due := k * INTERVAL + s.delay;
    assert due / INTERVAL == k && IsDue(due, s);
    forall t | IsDue(t, s) && (t > from || (includeFrom && t == from)) ensures due <= t {
      DuePlaces(t, s, k - 1);
    }
  }

  /** The rounded interval and whether its due instant is still ahead decide the result. */
  lemma {:induction false} NextDueIsRounded(now: int, s: Schedule, includeNow: bool, rounded: int)
    requires Supported(s) && rounded == WholeSeconds(now) / 600
    ensures var due := rounded * INTERVAL + s.delay;
            NextDue(now, s, includeNow)
            == Some(if due < now || (due == now && !includeNow) then due + INTERVAL else due)
  {
  }

  lemma {:induction false} SkippedIsEarlier(now: int, s: Schedule, includeNow: bool)
    requires Supported(s) && Skips(now, s, includeNow)
    ensures !FirstDue(NextDue(now, s, includeNow).value, now, s, includeNow)
  {
    var q := now / INTERVAL;
    RoundedBoundary(now);
    NextDueIsRounded(now, s, includeNow, q + 1);
    assert IsDue(q * INTERVAL + s.delay, s);
  }

  lemma {:induction false} UnskippedIsFirst(now: int, s: Schedule, includeNow: bool)
    requires Supported(s) && !Skips(now, s, includeNow)
    ensures FirstDue(NextDue(now, s, includeNow).value, now, s, includeNow)
  {
    var rounded := WholeSeconds(now) / 600;
    var due := rounded * INTERVAL + s.delay;
    RoundedBoundary(now);
    NextDueIsRounded(now, s, includeNow, rounded);
    if due < now || (due == now && !includeNow) {
      assert (rounded + 1) * INTERVAL + s.delay == due + INTERVAL;
      FirstAfter(rounded + 1, now, s, includeNow);
    } else {
      FirstAfter(rounded, now, s, includeNow);
    }
  }

  /** next_decision_due gives the first due instant after (or from) now exactly when the rounding skips none. */
  lemma {:induction false} NextDueIsFirst(now: int, s: Schedule, includeNow: bool)
    ensures NextDue(now, s, includeNow).Some? <==> s.interval == 600 && s.delay < 600_000_000
    ensures Supported(s) ==> (FirstDue(NextDue(now, s, includeNow).value, now, s, includeNow)
                              <==> !Skips(now, s, includeNow))
  {
    if Supported(s) {
      if Skips(now, s, includeNow) {
        SkippedIsEarlier(now, s, includeNow);
      } else {
        UnskippedIsFirst(now, s, includeNow);
      }
    }
  }

  lemma SkipExample()
    ensures Skips(-500_000, Schedule(600, 599_800_000), false)
    ensures NextDue(-500_000, Schedule(600, 599_800_000), false) == Some(599_800_000)
    ensures IsDue(-200_000, Schedule(600, 599_800_000))
  {
  }

  // ----- the activation window

  /** bind_process_activation_due */
  function BindProcess(captured: int, processStart: int, preflightStart: int, s: Schedule): Option<int> {
    match NextDue(processStart, s, true)
    case None => None
    case Some(first) =>
      if first <= preflightStart then None else Some(if first < captured then first else captured)
  }

  /** activation_deadline */
  function Deadline(due: int, now: int, safetySeconds: int): Option<int> {
    var deadline := due - safetySeconds * SECOND;
    if now >= deadline then None else Some(deadline)
  }

  /** The enabled preflight: capture, bind to the process, check the deadline. */
  function Activate(processStart: int, preflightStart: int, now: int, safetySeconds: int, s: Schedule): Option<int> {
    match NextDue(preflightStart, s, false)
    case None => None
    case Some(captured) =>
      match BindProcess(captured, processStart, preflightStart, s)
      case None => None
      case Some(due) => Deadline(due, now, safetySeconds)
  }

  ghost predicate NoneDue(from: int, upTo: int, s: Schedule) {
    forall t :: from <= t <= upTo ==> !IsDue(t, s)
  }

  /**
   The preflight opens the window exactly when no decision cycle of the running process has been or
   will be due from its start until the safety margin after now, and then the deadline leaves the
   whole margin before the first cycle.
   */
  lemma {:induction false} ActivationIsSafe(
    processStart: int, preflightStart: int, now: int, safetySeconds: int, s: Schedule)
    requires Supported(s) && 0 <= processStart <= preflightStart <= now && 0 <= safetySeconds
    ensures Activate(processStart, preflightStart, now, safetySeconds, s).Some?
            <==> NoneDue(processStart, now + safetySeconds * SECOND, s)
    ensures Activate(processStart, preflightStart, now, safetySeconds, s).Some? ==>
              FirstDue(Activate(processStart, preflightStart, now, safetySeconds, s).value + safetySeconds * SECOND,
                       processStart, s, true)
  {
    NextDueIsFirst(preflightStart, s, false);
    NextDueIsFirst(processStart, s, true);
    var first := NextDue(processStart, s, true).value;
    var captured := NextDue(preflightStart, s, false).value;
    if first > preflightStart {
      assert captured == first;
    }
  }

  /** A span has no due instant exactly when the first one is behind it. */
  lemma {:induction false} NoneDueExactly(due: int, from: int, upTo: int, s: Schedule, includeFrom: bool)
    requires FirstDue(due, from, s, includeFrom)
    ensures NoneDue(if includeFrom then from else from + 1, upTo, s) <==> upTo < due
  {
  }

  /**
   Whatever the three clocks after the epoch say: the window opens if and only if no decision of the process
   was due before the preflight began, none of it is due until the margin after now, and none at all is due
   between the start of the preflight and the margin.
   */
  lemma {:induction false} ActivatesExactly(
    processStart: int, preflightStart: int, now: int, safetySeconds: int, s: Schedule)
    requires 0 <= processStart && 0 <= preflightStart
    ensures var end := now + safetySeconds * SECOND;
            Activate(processStart, preflightStart, now, safetySeconds, s).Some?
            <==> && s.interval == 600 && s.delay < 600_000_000
                 && NoneDue(processStart, preflightStart, s) && NoneDue(processStart, end, s)
                 && NoneDue(preflightStart + 1, end, s)
  {
    NextDueIsFirst(preflightStart, s, false);
    NextDueIsFirst(processStart, s, true);
    if Supported(s) {
      SupportedActivates(processStart, preflightStart, now, safetySeconds, s);
    }
  }

  lemma {:induction false} SupportedActivates(
    processStart: int, preflightStart: int, now: int, safetySeconds: int, s: Schedule)
    requires Supported(s) && 0 <= processStart && 0 <= preflightStart
    ensures var end := now + safetySeconds * SECOND;
            Activate(processStart, preflightStart, now, safetySeconds, s).Some?
            <==> && NoneDue(processStart, preflightStart, s) && NoneDue(processStart, end, s)
                 && NoneDue(preflightStart + 1, end, s)
  {
    NextDueIsFirst(preflightStart, s, false);
    NextDueIsFirst(processStart, s, true);
    var first := NextDue(processStart, s, true).value;
    var captured := NextDue(preflightStart, s, false).value;
    var end := now + safetySeconds * SECOND;
    NoneDueExactly(first, processStart, preflightStart, s, true);
    NoneDueExactly(first, processStart, end, s, true);
    NoneDueExactly(captured, preflightStart, end, s, false);
  }
}
