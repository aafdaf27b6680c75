/**
 * The transition rules of reHealthMonitor (src/reNotifier.cpp) as pure
 * functions on a value that holds the monitor's mutable fields. The class in
 * HealthMonitor is proved to follow these functions; the lemmas in
 * MonitorProps are stated about them.
 */
module MonitorSpec {
  import opened Wrappers
  import opened NotifierDefs

  /**
   * The mutable part of a monitor. `timer` is the pending one-shot
   * confirmation timer, holding the delay in seconds it was started with;
   * None when no timer is pending.
   */
  datatype Monitor = Monitor(
    objectLabel: Option<string>,
    state: EspErr,
    failCount: Uint8,
    timeState: int,
    timeFailure: int,
    timer: Option<Uint32>,
    flags: bv8)

  /** The new monitor state and the callback invocations an operation made. */
  datatype Outcome = Outcome(m: Monitor, calls: seq<Call>)

  predicate Locked(m: Monitor) { m.flags & HM_LOCKED != 0 }

  predicate Sent(m: Monitor) { m.flags & HM_SENDED != 0 }

  /**
   * The invariant every public operation keeps: only the two flag bits are
   * used; an OK monitor has no failure bookkeeping; a pending timer belongs
   * to an unlocked failure episode with no notice delivered yet; a locked
   * monitor is OK with "sent" clear.
   */
  predicate Valid(m: Monitor)
  {
    && m.flags & !(HM_LOCKED | HM_SENDED) == 0
    && (m.state == ESP_OK ==> m.timeFailure == 0 && m.failCount == 0)
    && (m.timer.Some? ==> 0 < m.timer.value && m.state != ESP_OK && !Sent(m) && !Locked(m))
    && (Locked(m) ==> m.state == ESP_OK && !Sent(m))
  }

  /**
   * "Sent" marks a failure episode: it is clear while the state is OK. Every
   * operation keeps this except a direct call of timerTimeout on an OK monitor
   * without a pending timer.
   */
  predicate SentOnlyWhileFailing(m: Monitor)
  {
    m.state == ESP_OK ==> !Sent(m)
  }

  /** The state set by the constructor and the field initialisers. */
  function Initial(): (m: Monitor)
    ensures Valid(m) && SentOnlyWhileFailing(m)
    ensures m.state == ESP_OK && m.failCount == 0 && m.timeState == 0 && m.timeFailure == 0 && m.flags == 0
    ensures !Locked(m) && !Sent(m) && m.timer.None? && m.objectLabel.None?
  {
    Monitor(None, ESP_OK, 0, 0, 0, None, 0)
  }

  /** The destructor stops the timer and releases the label override. */
  function Destroy(m: Monitor): (r: Monitor)
    ensures r.timer.None? && r.objectLabel.None?
    ensures r.(timer := m.timer, objectLabel := m.objectLabel) == m
    ensures Valid(m) ==> Valid(r)
    ensures SentOnlyWhileFailing(m) ==> SentOnlyWhileFailing(r)
  {
    m.(timer := None, objectLabel := None)
  }

  // ---------------------------------------------------------------------------
  // Sending a notification
  // ---------------------------------------------------------------------------

  /** The message template for the current state. */
  function Template(c: Config, m: Monitor): Option<string>
  {
    if m.state == ESP_OK then c.msgOk else c.msgFailure
  }

  /** The object label: the override when present, else the service name. */
  function Label(c: Config, m: Monitor): string
  {
    if m.objectLabel.Some? then m.objectLabel.value else c.service
  }

  /** Notifications are not switched off by the external enable byte. */
  predicate Enabled(p: Params)
  {
    p.enable.None? || p.enable.value != 0
  }

  /** The payload sendNotifyPrivate hands to the callback, or None when it returns without calling it. */
  function Payload(c: Config, p: Params, m: Monitor): (r: Option<NotifyData>)
    ensures r.Some? ==> !Locked(m) && Enabled(p) && c.hasCallback
    ensures r.Some? ==> r.value.state == m.state && r.value.objectLabel == Label(c, m)
  {
    if !Enabled(p) then None
    else
      var tmpl := Template(c, m);
      if tmpl.None? then None
      else if Locked(m) then None
      else if !c.hasCallback then None
      else Some(NotifyData(Label(c, m), tmpl.value, c.msgOptions, m.state, m.timeState, m.timeFailure))
  }

  /**
   * The callback invocations made by sendNotifyPrivate: none, or one with
   * the payload, where `answer` is what the callback returns.
   */
  function Notify(c: Config, p: Params, m: Monitor, answer: bool): (calls: seq<Call>)
    ensures |calls| <= 1
    ensures calls != [] ==> Payload(c, p, m).Some? && calls[0].data == Payload(c, p, m).value
  {
    var payload := Payload(c, p, m);
    if payload.Some? then [Call(payload.value, answer)] else []
  }

  /** What sendNotifyPrivate returns: true only when the callback was invoked and returned true. */
  predicate Delivered(calls: seq<Call>)
  {
    calls != [] && calls[0].ok
  }

  /** `if (sendNotifyPrivate()) flags |= HM_SENDED`: "sent" is set exactly when the callback reports success. */
  function SendAndMark(c: Config, p: Params, m: Monitor, answer: bool): (r: Outcome)
    ensures r.m.(flags := m.flags) == m && |r.calls| <= 1
    ensures Sent(r.m) <==> Sent(m) || Delivered(r.calls)
    ensures Locked(r.m) == Locked(m)
    ensures r.m.flags == (if Delivered(r.calls) then m.flags | HM_SENDED else m.flags)
  {
    var calls := Notify(c, p, m, answer);
    Outcome(if Delivered(calls) then m.(flags := m.flags | HM_SENDED) else m, calls)
  }

  // ---------------------------------------------------------------------------
  // The confirmation timer
  // ---------------------------------------------------------------------------

  /**
   * timerStart: with a positive delay, start a one-shot for the whole delay
   * unless one is already pending, and report true; otherwise report false.
   */
  function TimerStart(p: Params, m: Monitor): (r: (Monitor, bool))
    ensures r.1 <==> p.delay.Some? && p.delay.value > 0
    ensures m.timer.Some? ==> r.0 == m
    ensures m.timer.None? ==> r.0 == (if r.1 then m.(timer := Some(p.delay.value)) else m)
  {
    if p.delay.Some? && p.delay.value > 0 then
      if m.timer.None? then (m.(timer := Some(p.delay.value)), true) else (m, true)
    else
      (m, false)
  }

  /** timerStop: cancel the pending timer, leaving none. */
  function TimerStop(m: Monitor): (r: (Monitor, bool))
    ensures r.1 && r.0.timer.None?
    ensures r.0.(timer := m.timer) == m
  {
    (m.(timer := None), true)
  }

  // ---------------------------------------------------------------------------
  // setStateCustom / setState
  // ---------------------------------------------------------------------------

  /** The state time: the reported time when positive, else the clock. */
  function Stamp(time: int, now: int): int
  {
    if time > 0 then time else now
  }

  /** The condition under which a recovery notice is attempted. */
  predicate RecoveryNoticeDue(c: Config, p: Params, m: Monitor, duration: int)
  {
    && m.timeFailure > 0
    && RecoveryNoticeMode(c.mode, Sent(m))
    && (p.delay.None? || duration >= p.delay.value)
  }

  /** The condition under which a failure notice is considered at all. */
  predicate FailureNoticeConsidered(c: Config, m: Monitor)
  {
    && m.failCount >= c.failThreshold
    && FailureNoticeMode(c.mode)
    && !Sent(m)
    && m.timer.None?
  }

  /** A considered failure notice goes out at once rather than arming the timer. */
  predicate SendAtOnce(p: Params, forced: bool, elapsed: int)
  {
    forced || p.delay.None? || elapsed >= p.delay.value
  }

  /** The OK report on a failing, unlocked monitor, with state time `t`. */
  function Recover(c: Config, p: Params, m: Monitor, t: int, answer: bool): (r: Outcome)
    requires m.state != ESP_OK && !Locked(m)
    ensures Valid(m) ==> Valid(r.m) && SentOnlyWhileFailing(r.m)
    ensures r.m.state == ESP_OK && r.m.timeState == t && r.m.timer.None?
    ensures !Sent(r.m) && r.m.timeFailure == 0 && r.m.failCount == 0
  {
    var m1 := TimerStop(m.(state := ESP_OK, timeState := t)).0;
    var calls := if RecoveryNoticeDue(c, p, m1, t - m1.timeFailure) then Notify(c, p, m1, answer) else [];
    Outcome(m1.(flags := m1.flags & !HM_SENDED, timeFailure := 0, failCount := 0), calls)
  }

  /**
   * The failure-notice decision of setStateCustom, on a monitor whose count,
   * times and state already reflect the report: send now, arm the timer, or
   * do nothing.
   */
  function FailureNotice(c: Config, p: Params, m: Monitor, forced: bool, answer: bool): (r: Outcome)
    ensures Valid(m) && m.state != ESP_OK ==> Valid(r.m)
    ensures SentOnlyWhileFailing(m) && m.state != ESP_OK ==> SentOnlyWhileFailing(r.m)
    ensures r.m.(timer := m.timer, flags := m.flags) == m
    ensures |r.calls| <= 1
  {
    if FailureNoticeConsidered(c, m) then
      if SendAtOnce(p, forced, m.timeState - m.timeFailure) then
        SendAndMark(c, p, m, answer)
      else
        // timerStart's result is discarded
        Outcome(TimerStart(p, m).0, [])
    else
      Outcome(m, [])
  }

  /**
   * The bookkeeping of a failure report: the new state and state time, the
   * failure start set only if unset, and the count incremented up to 255.
   */
  function CountFailure(m: Monitor, newState: EspErr, t: int): (r: Monitor)
    ensures r.timeFailure == if m.timeFailure == 0 then t else m.timeFailure
    ensures r.failCount == if m.failCount < UINT8_MAX then m.failCount + 1 else UINT8_MAX
    ensures r.state == newState && r.timeState == t
    ensures r.(state := m.state, timeState := m.timeState, timeFailure := m.timeFailure, failCount := m.failCount) == m
  {
    m.(state := newState, timeState := t,
       timeFailure := if m.timeFailure == 0 then t else m.timeFailure,
       failCount := if m.failCount < UINT8_MAX then m.failCount + 1 else m.failCount)
  }

  /** A report of `newState` (an error) on an unlocked monitor, with state time `t`. */
  function Fail(c: Config, p: Params, m: Monitor, newState: EspErr, t: int, forced: bool, answer: bool): (r: Outcome)
    requires newState != ESP_OK && !Locked(m)
    ensures Valid(m) ==> Valid(r.m)
    ensures Valid(m) && SentOnlyWhileFailing(m) ==> SentOnlyWhileFailing(r.m)
    ensures r.m.state == newState && r.m.timeState == t
  {
    FailureNotice(c, p, CountFailure(m, newState, t), forced, answer)
  }

  /**
   * setStateCustom: replace the label override when one is given, then,
   * unless locked, apply the recovery or failure rules.
   */
  function SetStateCustom(
    c: Config, p: Params, m: Monitor,
    newState: EspErr, time: int, forced: bool, extObject: Option<string>,
    now: int, answer: bool): (r: Outcome)
    ensures Valid(m) ==> Valid(r.m)
    ensures Valid(m) && SentOnlyWhileFailing(m) ==> SentOnlyWhileFailing(r.m)
    ensures |r.calls| <= 1
    ensures r.m.objectLabel == if extObject.Some? then extObject else m.objectLabel
    ensures Locked(r.m) == Locked(m)
  {
    var m0 := if extObject.Some? then m.(objectLabel := extObject) else m;
    if Locked(m0) then
      Outcome(m0, [])
    else if newState == ESP_OK then
      if m0.state == newState then Outcome(m0, []) else Recover(c, p, m0, Stamp(time, now), answer)
    else
      Fail(c, p, m0, newState, Stamp(time, now), forced, answer)
  }

  /** setState: setStateCustom without a forced send and without a label override. */
  function SetState(c: Config, p: Params, m: Monitor, newState: EspErr, time: int, now: int, answer: bool): (r: Outcome)
    ensures r == SetStateCustom(c, p, m, newState, time, false, None, now, answer)
    ensures r.m.objectLabel == m.objectLabel
  {
    SetStateCustom(c, p, m, newState, time, false, None, now, answer)
  }

  // ---------------------------------------------------------------------------
  // Delayed notifications
  // ---------------------------------------------------------------------------

  /**
   * timerTimeout: stop the timer, then send unless a notice was already
   * delivered and the state is OK again; "sent" is set on success.
   */
  function TimerTimeout(c: Config, p: Params, m: Monitor, answer: bool): (r: Outcome)
    ensures r.m.timer.None? && |r.calls| <= 1
    ensures Valid(m) ==> Valid(r.m)
    ensures Valid(m) && SentOnlyWhileFailing(m) && m.timer.Some? ==> SentOnlyWhileFailing(r.m)
    ensures r.m.(timer := m.timer, flags := m.flags) == m
    ensures Locked(r.m) == Locked(m)
    ensures r.m.flags == (if Delivered(r.calls) then m.flags | HM_SENDED else m.flags)
  {
    var m1 := TimerStop(m).0;
    if !(Sent(m1) && m1.state == ESP_OK) then
      SendAndMark(c, p, m1, answer)
    else
      Outcome(m1, [])
  }

  /** forcedTimeout: run timerTimeout early, but only while a timer is pending. */
  function ForcedTimeout(c: Config, p: Params, m: Monitor, answer: bool): (r: Outcome)
    ensures m.timer.None? ==> r == Outcome(m, [])
    ensures r.m.timer.None?
    ensures r.m.(timer := m.timer, flags := m.flags) == m
    ensures Locked(r.m) == Locked(m)
    ensures r.m.flags == (if Delivered(r.calls) then m.flags | HM_SENDED else m.flags)
    ensures Valid(m) && m.timer.Some? ==>
      && r.calls == Notify(c, p, m.(timer := None), answer)
      && (Sent(r.m) <==> Delivered(r.calls))
    ensures Valid(m) ==> Valid(r.m)
    ensures Valid(m) && SentOnlyWhileFailing(m) ==> SentOnlyWhileFailing(r.m)
  {
    if m.timer.Some? then TimerTimeout(c, p, m, answer) else Outcome(m, [])
  }

  // ---------------------------------------------------------------------------
  // Temporary blocking
  // ---------------------------------------------------------------------------

  /** lock: unless already locked, stop the timer, set LOCKED and clear the episode. */
  function Lock(m: Monitor): (r: Monitor)
    ensures Locked(r)
    ensures Locked(m) ==> r == m
    ensures !Locked(m) ==> !Sent(r) && r.state == ESP_OK && r.timer.None? && r.failCount == 0 && r.timeFailure == 0
    ensures Valid(m) ==> Valid(r) && SentOnlyWhileFailing(r)
    ensures r.objectLabel == m.objectLabel && r.timeState == m.timeState
  {
    if !Locked(m) then
      var m1 := TimerStop(m).0;
      m1.(flags := (m1.flags | HM_LOCKED) & !HM_SENDED, timeFailure := 0, failCount := 0, state := ESP_OK)
    else
      m
  }

  /** unlock: when locked, clear LOCKED and the episode; otherwise nothing. */
  function Unlock(m: Monitor): (r: Monitor)
    ensures !Locked(r)
    ensures !Locked(m) ==> r == m
    ensures Locked(m) ==> !Sent(r) && r.state == ESP_OK && r.failCount == 0 && r.timeFailure == 0
    ensures Valid(m) ==> Valid(r)
    ensures Valid(m) && SentOnlyWhileFailing(m) ==> SentOnlyWhileFailing(r)
    ensures r.objectLabel == m.objectLabel && r.timeState == m.timeState && r.timer == m.timer
  {
    if Locked(m) then
      m.(flags := m.flags & !HM_LOCKED & !HM_SENDED, timeFailure := 0, failCount := 0, state := ESP_OK)
    else
      m
  }
}
