/**
 * Properties of the transition rules of MonitorSpec: what one call does, and
 * what any sequence of calls does. A sequence of calls is a trace of events
 * applied in order; the timer's expiry is an event that runs timerTimeout only
 * while a timer is pending, which is also exactly what forcedTimeout does.
 */
module MonitorProps {
  import opened Wrappers
  import opened NotifierDefs
  import opened MonitorSpec

  // ---------------------------------------------------------------------------
  // One call
  // ---------------------------------------------------------------------------

  /** While locked, a report changes nothing but the label override, and nothing is sent. */
  lemma LockedReportOnlyReplacesLabel(c: Config, p: Params, m: Monitor, newState: EspErr, time: int,
                                      forced: bool, extObject: Option<string>, now: int, answer: bool)
    requires Locked(m)
    ensures SetStateCustom(c, p, m, newState, time, forced, extObject, now, answer)
            == Outcome(if extObject.Some? then m.(objectLabel := extObject) else m, [])
  {
  }

  /** Reporting OK on an OK monitor is a no-op apart from the label override. */
  lemma OkWhileOkIsNoop(c: Config, p: Params, m: Monitor, time: int, forced: bool, extObject: Option<string>,
                        now: int, answer: bool)
    requires m.state == ESP_OK
    ensures SetStateCustom(c, p, m, ESP_OK, time, forced, extObject, now, answer)
            == Outcome(if extObject.Some? then m.(objectLabel := extObject) else m, [])
  {
  }

  /**
   * A recovery always cancels the timer and closes the episode, whether or
   * not a notice was sent; the recovery notice is attempted exactly when the
   * episode had a start time, the mode asks for it, and the failure lasted
   * at least the delay. The notice carries the OK template and the episode's
   * start time.
   */
  lemma RecoveryRules(c: Config, p: Params, m: Monitor, t: int, answer: bool)
    requires m.state != ESP_OK && !Locked(m)
    ensures var r := Recover(c, p, m, t, answer);
      && r.m.state == ESP_OK && r.m.timeState == t && r.m.timer.None?
      && !Sent(r.m) && r.m.timeFailure == 0 && r.m.failCount == 0
      && r.m.objectLabel == m.objectLabel && Locked(r.m) == Locked(m)
      && (r.calls != [] <==>
            && m.timeFailure > 0
            && RecoveryNoticeMode(c.mode, Sent(m))
            && (p.delay.None? || t - m.timeFailure >= p.delay.value)
            && Enabled(p) && c.msgOk.Some? && c.hasCallback)
      && (r.calls != [] ==>
            r.calls == [Call(NotifyData(Label(c, m), c.msgOk.value, c.msgOptions, ESP_OK, t, m.timeFailure), answer)])
  {
  }

  /**
   * The failure-notice decision: a notice is considered only when the count
   * has reached the threshold, the mode asks for failure notices, none was
   * delivered and no timer is pending; it is sent at once when forced, when
   * no delay is configured or when the failure is already old enough, and
   * "sent" is set only when the callback returns true. Otherwise the timer is
   * armed for the whole delay, not for what remains of it.
   */
  lemma FailureNoticeRules(c: Config, p: Params, m: Monitor, forced: bool, answer: bool)
    requires !Locked(m) && m.state != ESP_OK
    ensures var r := FailureNotice(c, p, m, forced, answer);
      var considered := FailureNoticeConsidered(c, m);
      var atOnce := SendAtOnce(p, forced, m.timeState - m.timeFailure);
      && (r.calls != [] <==>
            considered && atOnce && Enabled(p) && c.msgFailure.Some? && c.hasCallback)
      && (r.calls != [] ==>
            r.calls == [Call(NotifyData(Label(c, m), c.msgFailure.value, c.msgOptions, m.state,
                                        m.timeState, m.timeFailure), answer)])
      && (Sent(r.m) <==> Sent(m) || Delivered(r.calls))
      && (r.m.timer != m.timer <==> considered && !atOnce && p.delay.value > 0)
      && (r.m.timer != m.timer ==> r.m.timer == Some(p.delay.value))
  {
  }

  /**
   * timerStart's result is ignored: with a zero delay and a state time before
   * the failure start, a considered notice is neither sent nor scheduled.
   */
  lemma ZeroDelayEarlierStampDropsNotice(c: Config, p: Params, m: Monitor, answer: bool)
    requires FailureNoticeConsidered(c, m)
    requires p.delay == Some(0) && m.timeState < m.timeFailure
    ensures FailureNotice(c, p, m, false, answer) == Outcome(m, [])
  {
  }

  /** The failure start is set by the first failure report of an episode only; the count saturates at 255. */
  lemma FailureBookkeeping(c: Config, p: Params, m: Monitor, newState: EspErr, time: int, forced: bool,
                           now: int, answer: bool)
    requires !Locked(m) && newState != ESP_OK
    ensures var r := SetStateCustom(c, p, m, newState, time, forced, None, now, answer);
      && r.m.state == newState && r.m.timeState == Stamp(time, now)
      && r.m.timeFailure == (if m.timeFailure == 0 then Stamp(time, now) else m.timeFailure)
      && r.m.failCount == (if m.failCount < UINT8_MAX then m.failCount + 1 else UINT8_MAX)
      && r.m.failCount <= UINT8_MAX
  {
  }

  /**
   * timerTimeout always stops the timer; it then sends unless a notice was
   * delivered and the state is OK again, and sets "sent" only on success.
   */
  lemma TimerTimeoutRules(c: Config, p: Params, m: Monitor, answer: bool)
    ensures var r := TimerTimeout(c, p, m, answer);
      && r.m.timer.None?
      && r.calls == (if Sent(m) && m.state == ESP_OK then [] else Notify(c, p, m.(timer := None), answer))
      && (Sent(r.m) <==> Sent(m) || Delivered(r.calls))
  {
  }

  /** sendNotifyPrivate calls the callback exactly when notifications are enabled, a template exists for the state, the monitor is unlocked and a callback is set. */
  lemma SendGate(c: Config, p: Params, m: Monitor, answer: bool)
    ensures Notify(c, p, m, answer) != [] <==> Enabled(p) && Template(c, m).Some? && !Locked(m) && c.hasCallback
    ensures Notify(c, p, m, answer) != [] ==>
      var d := Notify(c, p, m, answer)[0].data;
      && d.msgTemplate == (if m.state == ESP_OK then c.msgOk.value else c.msgFailure.value)
      && d.objectLabel == (if m.objectLabel.Some? then m.objectLabel.value else c.service)
      && d.msgOptions == c.msgOptions
      && d.state == m.state && d.timeState == m.timeState && d.timeFailure == m.timeFailure
    ensures Delivered(Notify(c, p, m, answer)) <==> Notify(c, p, m, answer) != [] && answer
  {
  }

  /** forcedTimeout with a pending timer sends the pending failure notice at once. */
  lemma ForcedTimeoutSendsPending(c: Config, p: Params, m: Monitor, answer: bool)
    requires Valid(m) && m.timer.Some?
    ensures var r := ForcedTimeout(c, p, m, answer);
      && r.calls == Notify(c, p, m.(timer := None), answer)
      && (r.calls != [] <==> Enabled(p) && c.msgFailure.Some? && c.hasCallback)
      && (r.calls != [] ==> r.calls[0].data.msgTemplate == c.msgFailure.value && r.calls[0].data.state == m.state)
      && (Sent(r.m) <==> Delivered(r.calls))
      && r.m.state == m.state && r.m.timer.None?
  {
    var r := ForcedTimeout(c, p, m, answer);
    SendGate(c, p, m.(timer := None), answer);
  }

  /** lock is idempotent, and so is unlock. */
  lemma LockUnlockIdempotent(m: Monitor)
    ensures Lock(Lock(m)) == Lock(m)
    ensures Unlock(Unlock(m)) == Unlock(m)
  {
  }

  /** lock then unlock leaves a clean, unlocked, OK monitor whatever came before. */
  lemma LockThenUnlockIsClean(m: Monitor)
    requires Valid(m)
    ensures var r := Unlock(Lock(m));
      && Valid(r) && !Locked(r) && !Sent(r) && r.state == ESP_OK
      && r.failCount == 0 && r.timeFailure == 0 && r.timer.None?
      && r.objectLabel == m.objectLabel && r.timeState == m.timeState
  {
  }

  // ---------------------------------------------------------------------------
  // Traces
  // ---------------------------------------------------------------------------

  /** What happens to a monitor: a report (setStateCustom), lock, unlock, or the expiry of the timer. */
  datatype Event =
    | Report(newState: EspErr, time: int, forced: bool, extObject: Option<string>)
    | LockEvent
    | UnlockEvent
    | TimerExpiry

  /** An event with the environment it happens in: the external parameters, the clock and the callback's answer. */
  datatype Step = Step(event: Event, params: Params, now: int, answer: bool)

  function Apply(c: Config, m: Monitor, s: Step): (r: Outcome)
    ensures Valid(m) ==> Valid(r.m)
    ensures Valid(m) && SentOnlyWhileFailing(m) ==> SentOnlyWhileFailing(r.m)
    ensures |r.calls| <= 1
  {
    match s.event
    case Report(newState, time, forced, extObject) =>
      SetStateCustom(c, s.params, m, newState, time, forced, extObject, s.now, s.answer)
    case LockEvent => Outcome(Lock(m), [])
    case UnlockEvent => Outcome(Unlock(m), [])
    case TimerExpiry => ForcedTimeout(c, s.params, m, s.answer)
  }

  /** The final monitor and every callback invocation, in order, of a trace. */
  function Run(c: Config, m: Monitor, steps: seq<Step>): (r: Outcome)
    ensures Valid(m) ==> Valid(r.m)
    ensures Valid(m) && SentOnlyWhileFailing(m) ==> SentOnlyWhileFailing(r.m)
    ensures |r.calls| <= |steps|
    decreases |steps|
  {
    if steps == [] then Outcome(m, [])
    else
      var first := Apply(c, m, steps[0]);
      var rest := Run(c, first.m, steps[1..]);
      Outcome(rest.m, first.calls + rest.calls)
  }

  /** Under the NONE policy no trace ever invokes the callback. */
  lemma {:induction false} ModeNoneNeverNotifies(c: Config, m: Monitor, steps: seq<Step>)
    requires c.mode == ModeNone && Valid(m) && m.timer.None?
    ensures Run(c, m, steps).calls == []
    decreases |steps|
  {
    if steps != [] {
      var first := Apply(c, m, steps[0]);
      assert first.calls == [] && first.m.timer.None?;
      ModeNoneNeverNotifies(c, first.m, steps[1..]);
    }
  }

  predicate OkReport(s: Step)
  {
    s.event.Report? && s.event.newState == ESP_OK
  }

  /** A trace of OK reports on an OK monitor sends nothing and changes nothing but the label override. */
  lemma {:induction false} OkReportsNeverNotify(c: Config, m: Monitor, steps: seq<Step>)
    requires m.state == ESP_OK
    requires forall i :: 0 <= i < |steps| ==> OkReport(steps[i])
    ensures Run(c, m, steps).calls == []
    ensures Run(c, m, steps).m.(objectLabel := m.objectLabel) == m
    decreases |steps|
  {
    if steps != [] {
      var first := Apply(c, m, steps[0]);
      assert OkReport(steps[0]);
      assert first.calls == [] && first.m.(objectLabel := m.objectLabel) == m;
      OkReportsNeverNotify(c, first.m, steps[1..]);
    }
  }

  predicate FailureReport(s: Step)
  {
    s.event.Report? && s.event.newState != ESP_OK
  }

  /**
   * Fewer consecutive failure reports than the threshold never invoke the
   * callback and never arm the timer; each one adds one to the count.
   */
  lemma {:induction false} BelowThresholdIsSilent(c: Config, m: Monitor, steps: seq<Step>)
    requires !Locked(m) && m.timer.None?
    requires m.failCount + |steps| < c.failThreshold
    requires forall i :: 0 <= i < |steps| ==> FailureReport(steps[i])
    ensures Run(c, m, steps).calls == []
    ensures Run(c, m, steps).m.failCount == m.failCount + |steps|
    ensures Run(c, m, steps).m.timer.None?
    decreases |steps|
  {
    if steps != [] {
      var first := Apply(c, m, steps[0]);
      assert FailureReport(steps[0]);
      assert first.calls == [] && first.m.failCount == m.failCount + 1 && first.m.timer.None? && !Locked(first.m);
      BelowThresholdIsSilent(c, first.m, steps[1..]);
    }
  }

  /** The count of a run of failure reports is the number of reports, capped at 255. */
  lemma {:induction false} FailureCountSaturates(c: Config, m: Monitor, steps: seq<Step>)
    requires !Locked(m)
    requires forall i :: 0 <= i < |steps| ==> FailureReport(steps[i])
    ensures Run(c, m, steps).m.failCount == if m.failCount + |steps| < UINT8_MAX then m.failCount + |steps| else UINT8_MAX
    ensures !Locked(Run(c, m, steps).m)
    decreases |steps|
  {
    if steps != [] {
      var first := Apply(c, m, steps[0]);
      assert FailureReport(steps[0]);
      assert !Locked(first.m);
      FailureCountSaturates(c, first.m, steps[1..]);
    }
  }

  /**
   * "Sent" is never set without a delivery: if it is set at the end of a
   * trace that started with it clear, the callback returned true for some
   * failure notice of that trace.
   */
  lemma {:induction false} SentOnlyAfterDelivery(c: Config, m: Monitor, steps: seq<Step>)
    requires Valid(m) && SentOnlyWhileFailing(m) && !Sent(m)
    ensures var r := Run(c, m, steps);
      Sent(r.m) ==> exists i :: 0 <= i < |r.calls| && r.calls[i].ok && r.calls[i].data.state != ESP_OK
    decreases |steps|
  {
    if steps != [] {
      var first := Apply(c, m, steps[0]);
      var rest := Run(c, first.m, steps[1..]);
      var calls := first.calls + rest.calls;
      if Sent(first.m) {
        StepSetsSentOnlyByDelivery(c, m, steps[0]);
        assert calls[0] == first.calls[0];
      } else {
        SentOnlyAfterDelivery(c, first.m, steps[1..]);
        if Sent(rest.m) {
          var j :| 0 <= j < |rest.calls| && rest.calls[j].ok && rest.calls[j].data.state != ESP_OK;
          assert calls[|first.calls| + j] == rest.calls[j];
        }
      }
    }
  }

  /** One step sets "sent" only through a delivered failure notice. */
  lemma StepSetsSentOnlyByDelivery(c: Config, m: Monitor, s: Step)
    requires Valid(m) && !Sent(m)
    requires Sent(Apply(c, m, s).m)
    ensures var r := Apply(c, m, s); Delivered(r.calls) && r.calls[0].data.state != ESP_OK
  {
    match s.event
    case Report(newState, time, forced, extObject) =>
      var m0 := if extObject.Some? then m.(objectLabel := extObject) else m;
      assert !Locked(m0) && newState != ESP_OK;
      var m1 := CountFailure(m0, newState, Stamp(time, s.now));
      assert FailureNoticeConsidered(c, m1);
    case LockEvent =>
    case UnlockEvent =>
    case TimerExpiry =>
  }

  /** 300 consecutive failure reports on a fresh monitor leave the count at 255, at or above any threshold. */
  lemma ThreeHundredFailuresSaturate(c: Config, steps: seq<Step>)
    requires |steps| == 300
    requires forall i :: 0 <= i < |steps| ==> FailureReport(steps[i])
    ensures Run(c, Initial(), steps).m.failCount == UINT8_MAX
    ensures Run(c, Initial(), steps).m.failCount >= c.failThreshold
  {
    FailureCountSaturates(c, Initial(), steps);
  }

  /** On a fresh monitor, fewer failure reports than the threshold produce no notification. */
  lemma FreshBelowThresholdIsSilent(c: Config, steps: seq<Step>)
    requires |steps| < c.failThreshold
    requires forall i :: 0 <= i < |steps| ==> FailureReport(steps[i])
    ensures Run(c, Initial(), steps).calls == []
  {
    BelowThresholdIsSilent(c, Initial(), steps);
  }

  // ---------------------------------------------------------------------------
  // Scenarios
  // ---------------------------------------------------------------------------

  const ERR: EspErr := 0x103  // any error code
  const NoParams := Params(None, None)

  function ScenarioConfig(mode: NotifyMode): Config
  {
    Config("svc", mode, 0, Some("ok"), Some("fail"), 1, true)
  }

  /**
   * AUTO, threshold 1, no delay: a failure at t=1 is notified at once and the
   * recovery at t=10 is notified too; under FAILURE only the failure is.
   */
  lemma ScenarioImmediateNotices()
    ensures Run(ScenarioConfig(ModeAuto), Initial(),
                [Step(Report(ERR, 1, false, None), NoParams, 1, true),
                 Step(Report(ESP_OK, 10, false, None), NoParams, 10, true)]).calls
            == [Call(NotifyData("svc", "fail", 0, ERR, 1, 1), true),
                Call(NotifyData("svc", "ok", 0, ESP_OK, 10, 1), true)]
    ensures Run(ScenarioConfig(ModeFailure), Initial(),
                [Step(Report(ERR, 1, false, None), NoParams, 1, true),
                 Step(Report(ESP_OK, 10, false, None), NoParams, 10, true)]).calls
            == [Call(NotifyData("svc", "fail", 0, ERR, 1, 1), true)]
  {
    var steps := [Step(Report(ERR, 1, false, None), NoParams, 1, true),
                  Step(Report(ESP_OK, 10, false, None), NoParams, 10, true)];
    assert steps[1..] == [steps[1]];
    assert steps[1..][1..] == [];
  }

  /**
   * A 5-second delay: a failure at t=100 arms the timer for 5 s without a
   * notice; its expiry delivers the failure notice; the recovery at t=106 is
   * then notified under AUTO.
   */
  lemma ScenarioDelayedConfirmation()
    ensures var p := Params(Some(5), None);
      var c := ScenarioConfig(ModeAuto);
      var r1 := Apply(c, Initial(), Step(Report(ERR, 100, false, None), p, 100, true));
      var r2 := Apply(c, r1.m, Step(TimerExpiry, p, 105, true));
      var r3 := Apply(c, r2.m, Step(Report(ESP_OK, 106, false, None), p, 106, true));
      && r1.calls == [] && r1.m.timer == Some(5)
      && r2.calls == [Call(NotifyData("svc", "fail", 0, ERR, 100, 100), true)] && Sent(r2.m)
      && r3.calls == [Call(NotifyData("svc", "ok", 0, ESP_OK, 106, 100), true)] && !Sent(r3.m)
  {
  }

  /**
   * A recovery before the timer expires cancels it: no notice at all under
   * AUTO, and a later expiry finds no timer.
   */
  lemma ScenarioRecoveryBeforeTimer()
    ensures var p := Params(Some(5), None);
      var c := ScenarioConfig(ModeAuto);
      var r1 := Apply(c, Initial(), Step(Report(ERR, 100, false, None), p, 100, true));
      var r2 := Apply(c, r1.m, Step(Report(ESP_OK, 102, false, None), p, 102, true));
      var r3 := Apply(c, r2.m, Step(TimerExpiry, p, 105, true));
      && r1.calls == [] && r2.calls == [] && r3.calls == []
      && r2.m.timer.None? && r3.m == r2.m
  {
  }

  /**
   * Under AUTO, a failure notice sent early by forcedTimeout followed by a
   * recovery within the delay gets no recovery notice, although the failure
   * notice was delivered: the recovery rule also demands a failure at least
   * as long as the delay.
   */
  lemma ScenarioEarlySendThenQuickRecovery()
    ensures var p := Params(Some(60), None);
      var c := ScenarioConfig(ModeAuto);
      var r1 := Apply(c, Initial(), Step(Report(ERR, 100, false, None), p, 100, true));
      var r2 := Apply(c, r1.m, Step(TimerExpiry, p, 101, true));
      var r3 := Apply(c, r2.m, Step(Report(ESP_OK, 102, false, None), p, 102, true));
      && r2.calls == [Call(NotifyData("svc", "fail", 0, ERR, 100, 100), true)] && Sent(r2.m)
      && r3.calls == []
  {
  }

  /**
   * The NONE guarantee holds for traces only: timerTimeout itself does not
   * consult the policy, so a direct call on a fresh monitor under NONE still
   * invokes the callback (with the OK template) and, on success, sets "sent"
   * while the state is OK.
   */
  lemma DirectTimerTimeoutIgnoresPolicy()
    ensures var r := TimerTimeout(ScenarioConfig(ModeNone), NoParams, Initial(), true);
      && r.calls == [Call(NotifyData("svc", "ok", 0, ESP_OK, 0, 0), true)]
      && Sent(r.m) && r.m.state == ESP_OK && !SentOnlyWhileFailing(r.m)
  {
  }
}
