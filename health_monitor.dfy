/**
 * The reHealthMonitor class (include/reNotifier.h, src/reNotifier.cpp) in
 * the imperative form of the source: fields updated in place by methods, each
 * method proved to leave the fields as the matching function of MonitorSpec
 * prescribes, and to keep the class invariant.
 */
module HealthMonitor {
  import opened Wrappers
  import opened NotifierDefs
  import S = MonitorSpec

  /** An externally owned uint32_t: the failure confirmation delay in seconds. */
  class Uint32Cell {
    var value: Uint32

    constructor (v: Uint32)
      ensures value == v
    {
      value := v;
    }
  }

  /** An externally owned uint8_t: the "notifications enabled" byte. */
  class Uint8Cell {
    var value: Uint8

    constructor (v: Uint8)
      ensures value == v
    {
      value := v;
    }
  }

  class ReHealthMonitor {
    // Fixed at construction.
    const service: string
    const mode: NotifyMode
    const msgOptions: Uint32
    const msgOk: Option<string>
    const msgFailure: Option<string>
    const failThreshold: Uint8
    const hasNotifyCb: bool

    // Updated in place.
    var objectLabel: Option<string>
    var state: EspErr
    var failCount: Uint8
    var timeState: int
    var timeFailure: int
    var notifyTimer: Option<Uint32>  // the pending one-shot and the delay it was started with
    var notifyDelay: Uint32Cell?
    var notifyEnable: Uint8Cell?
    var notifyFlags: bv8

    /** Every invocation of the notify callback so far, with what it returned. */
    ghost var Calls: seq<Call>

    /** The constructor arguments. */
    function Cfg(): Config
    {
      Config(service, mode, msgOptions, msgOk, msgFailure, failThreshold, hasNotifyCb)
    }

    /** The mutable fields as a MonitorSpec value. */
    ghost function Model(): S.Monitor
      reads this
    {
      S.Monitor(objectLabel, state, failCount, timeState, timeFailure, notifyTimer, notifyFlags)
    }

    /** The external parameters, read through the pointers now. */
    ghost function CurrentParams(): Params
      reads this, notifyDelay, notifyEnable
    {
      Params(if notifyDelay == null then None else Some(notifyDelay.value),
             if notifyEnable == null then None else Some(notifyEnable.value))
    }

    ghost predicate Valid()
      reads this
    {
      S.Valid(Model())
    }

    constructor (service: string, notifyMode: NotifyMode, msgOptions: Uint32,
                 msgOk: Option<string>, msgFailure: Option<string>,
                 failureThreshold: Uint8, hasNotifyCb: bool)
      ensures Cfg() == Config(service, notifyMode, msgOptions, msgOk, msgFailure, failureThreshold, hasNotifyCb)
      ensures Model() == S.Initial() && Valid()
      ensures notifyDelay == null && notifyEnable == null
      ensures Calls == []
    {
      this.service := service;
      this.mode := notifyMode;
      this.msgOptions := msgOptions;
      this.msgOk := msgOk;
      this.msgFailure := msgFailure;
      this.failThreshold := failureThreshold;
      this.hasNotifyCb := hasNotifyCb;
      state := ESP_OK;
      failCount := 0;
      timeState := 0;
      timeFailure := 0;
      notifyFlags := 0;
      objectLabel := None;
      notifyTimer := None;
      notifyDelay := null;
      notifyEnable := null;
      Calls := [];
    }

    /** The destructor: stop the timer and release the label override. */
    method Destroy()
      requires Valid()
      modifies this
      ensures Valid()
      ensures Model() == S.Destroy(old(Model()))
      ensures notifyDelay == old(notifyDelay) && notifyEnable == old(notifyEnable) && Calls == old(Calls)
    {
      var _ := TimerStop();
      objectLabel := None;
    }

    /** assignParams: attach the external delay and enable parameters. */
    method AssignParams(failureConfirmTimeout: Uint32Cell?, enableNotify: Uint8Cell?)
      requires Valid()
      modifies this
      ensures Valid()
      ensures notifyDelay == failureConfirmTimeout && notifyEnable == enableNotify
      ensures Model() == old(Model()) && Calls == old(Calls)
    {
      notifyDelay := failureConfirmTimeout;
      notifyEnable := enableNotify;
    }

    /**
     * sendNotifyPrivate. `answer` is what the callback returns if it is
     * invoked; the invocation is appended to Calls.
     */
    method SendNotifyPrivate(answer: bool) returns (ok: bool)
      modifies this`Calls
      ensures Calls == old(Calls) + S.Notify(Cfg(), CurrentParams(), Model(), answer)
      ensures ok == S.Delivered(S.Notify(Cfg(), CurrentParams(), Model(), answer))
    {
      if notifyEnable == null || notifyEnable.value != 0 {
        var msgTemplate := if state == ESP_OK then msgOk else msgFailure;
        if msgTemplate.Some? {
          var msgObject := if objectLabel.None? then service else objectLabel.value;
          if notifyFlags & HM_LOCKED == 0 {
            if hasNotifyCb {
              var data := NotifyData(msgObject, msgTemplate.value, msgOptions, state, timeState, timeFailure);
              Calls := Calls + [Call(data, answer)];
              return answer;
            }
          }
        }
      }
      return false;
    }

    /** Send, and record a delivered failure notice in the flags. */
    method SendAndMark(answer: bool)
      modifies this`notifyFlags, this`Calls
      ensures var r := S.SendAndMark(Cfg(), CurrentParams(), old(Model()), answer);
              Model() == r.m && Calls == old(Calls) + r.calls
    {
      var sent := SendNotifyPrivate(answer);
      if sent {
        notifyFlags := notifyFlags | HM_SENDED;
      }
    }

    /** timerStart: arm the one-shot for the current delay unless one is pending; false without a positive delay. */
    method TimerStart() returns (ok: bool)
      modifies this`notifyTimer
      ensures (Model(), ok) == S.TimerStart(CurrentParams(), old(Model()))
    {
      if notifyDelay != null && notifyDelay.value > 0 {
        if notifyTimer.None? {
          notifyTimer := Some(notifyDelay.value);
        }
        return true;
      }
      return false;
    }

    /** timerStop: cancel and release the pending timer, if any. */
    method TimerStop() returns (ok: bool)
      modifies this`notifyTimer
      ensures (Model(), ok) == S.TimerStop(old(Model()))
    {
      if notifyTimer.Some? {
        notifyTimer := None;
      }
      return true;
    }

    /** The recovery notice of setStateCustom, sent when due. */
    method NotifyRecovery(answer: bool)
      modifies this`Calls
      ensures Calls == old(Calls) + (if S.RecoveryNoticeDue(Cfg(), CurrentParams(), Model(), timeState - timeFailure)
                                    then S.Notify(Cfg(), CurrentParams(), Model(), answer) else [])
    {
      var durationFailure := timeState - timeFailure;
      if && timeFailure > 0
         && (mode == ModeRecovery || (mode == ModeAuto && notifyFlags & HM_SENDED != 0) || mode == ModeForced)
         && (notifyDelay == null || durationFailure >= notifyDelay.value)
      {
        var _ := SendNotifyPrivate(answer);
      }
    }

    /** The recovery branch of setStateCustom, with the state time `t` already chosen. */
    method Recover(t: int, answer: bool)
      requires state != ESP_OK && notifyFlags & HM_LOCKED == 0
      modifies this
      ensures var r := S.Recover(Cfg(), old(CurrentParams()), old(Model()), t, answer);
              Model() == r.m && Calls == old(Calls) + r.calls
      ensures notifyDelay == old(notifyDelay) && notifyEnable == old(notifyEnable)
    {
      state := ESP_OK;
      timeState := t;
      var _ := TimerStop();
      NotifyRecovery(answer);
      notifyFlags := notifyFlags & !HM_SENDED;
      timeFailure := 0;
      failCount := 0;
    }

    /** The failure-notice decision of setStateCustom: send now, arm the timer, or do nothing. */
    method NotifyFailure(forcedSend: bool, answer: bool)
      modifies this`notifyFlags, this`notifyTimer, this`Calls
      ensures var r := S.FailureNotice(Cfg(), CurrentParams(), old(Model()), forcedSend, answer);
              Model() == r.m && Calls == old(Calls) + r.calls
    {
      if && failCount >= failThreshold
         && (mode == ModeFailure || mode == ModeAuto || mode == ModeForced)
         && notifyFlags & HM_SENDED == 0
         && notifyTimer.None?
      {
        var delayFailure := timeState - timeFailure;
        if forcedSend || notifyDelay == null || delayFailure >= notifyDelay.value {
          SendAndMark(answer);
        } else {
          var _ := TimerStart();
        }
      }
    }

    /** The bookkeeping of a failure report. */
    method CountFailure(newState: EspErr, t: int)
      modifies this`state, this`timeState, this`timeFailure, this`failCount
      ensures Model() == S.CountFailure(old(Model()), newState, t)
    {
      state := newState;
      timeState := t;
      if timeFailure == 0 {
        timeFailure := timeState;
      }
      if failCount < UINT8_MAX {
        failCount := failCount + 1;
      }
    }

    /** The failure branch of setStateCustom, with the state time `t` already chosen. */
    method Fail(newState: EspErr, t: int, forcedSend: bool, answer: bool)
      requires newState != ESP_OK && notifyFlags & HM_LOCKED == 0
      modifies this
      ensures var r := S.Fail(Cfg(), old(CurrentParams()), old(Model()), newState, t, forcedSend, answer);
              Model() == r.m && Calls == old(Calls) + r.calls
      ensures notifyDelay == old(notifyDelay) && notifyEnable == old(notifyEnable)
    {
      CountFailure(newState, t);
      NotifyFailure(forcedSend, answer);
    }

    /** setStateCustom: `now` is the clock, read when `time` is not positive. */
    method SetStateCustom(newState: EspErr, time: int, forcedSend: bool, extObject: Option<string>,
                          now: int, answer: bool)
      requires Valid()
      modifies this
      ensures Valid()
      ensures var r := S.SetStateCustom(Cfg(), old(CurrentParams()), old(Model()),
                                        newState, time, forcedSend, extObject, now, answer);
              Model() == r.m && Calls == old(Calls) + r.calls
      ensures notifyDelay == old(notifyDelay) && notifyEnable == old(notifyEnable)
    {
      if extObject.Some? {
        objectLabel := extObject;
      }
      if notifyFlags & HM_LOCKED == 0 {
        var t := if time > 0 then time else now;
        if newState == ESP_OK {
          if state != newState {
            Recover(t, answer);
          }
        } else {
          Fail(newState, t, forcedSend, answer);
        }
      }
    }

    /** setState: setStateCustom without a forced send or a label override. */
    method SetState(newState: EspErr, time: int, now: int, answer: bool)
      requires Valid()
      modifies this
      ensures Valid()
      ensures var r := S.SetState(Cfg(), old(CurrentParams()), old(Model()), newState, time, now, answer);
              Model() == r.m && Calls == old(Calls) + r.calls
      ensures notifyDelay == old(notifyDelay) && notifyEnable == old(notifyEnable)
    {
      SetStateCustom(newState, time, false, None, now, answer);
    }

    /** forcedTimeout: send the pending notification before the timer expires. */
    method ForcedTimeout(answer: bool)
      requires Valid()
      modifies this
      ensures Valid()
      ensures var r := S.ForcedTimeout(Cfg(), old(CurrentParams()), old(Model()), answer);
              Model() == r.m && Calls == old(Calls) + r.calls
      ensures notifyDelay == old(notifyDelay) && notifyEnable == old(notifyEnable)
    {
      if notifyTimer.Some? {
        TimerTimeout(answer);
      }
    }

    /** lock: suppress notifications and clear the failure episode. */
    method Lock()
      requires Valid()
      modifies this
      ensures Valid()
      ensures Model() == S.Lock(old(Model())) && Calls == old(Calls)
      ensures notifyDelay == old(notifyDelay) && notifyEnable == old(notifyEnable)
    {
      if notifyFlags & HM_LOCKED == 0 {
        var _ := TimerStop();
        notifyFlags := notifyFlags | HM_LOCKED;
        notifyFlags := notifyFlags & !HM_SENDED;
        timeFailure := 0;
        failCount := 0;
        state := ESP_OK;
      }
    }

    /** unlock: lift the suppression and clear the failure episode. */
    method Unlock()
      requires Valid()
      modifies this
      ensures Valid()
      ensures Model() == S.Unlock(old(Model())) && Calls == old(Calls)
      ensures notifyDelay == old(notifyDelay) && notifyEnable == old(notifyEnable)
    {
      if notifyFlags & HM_LOCKED != 0 {
        notifyFlags := notifyFlags & !HM_LOCKED;
        notifyFlags := notifyFlags & !HM_SENDED;
        timeFailure := 0;
        failCount := 0;
        state := ESP_OK;
      }
    }

    /** isLocked: the LOCKED bit, without side effects. */
    method IsLocked() returns (locked: bool)
      requires Valid()
      ensures locked <==> S.Locked(Model())
      ensures locked ==> state == ESP_OK && failCount == 0 && timeFailure == 0 && notifyTimer.None?
    {
      return notifyFlags & HM_LOCKED != 0;
    }

    /** timerTimeout: finish a delayed send. */
    method TimerTimeout(answer: bool)
      requires Valid()
      modifies this
      ensures Valid()
      ensures var r := S.TimerTimeout(Cfg(), old(CurrentParams()), old(Model()), answer);
              Model() == r.m && Calls == old(Calls) + r.calls
      ensures notifyDelay == old(notifyDelay) && notifyEnable == old(notifyEnable)
    {
      var _ := TimerStop();
      if !(notifyFlags & HM_SENDED != 0 && state == ESP_OK) {
        SendAndMark(answer);
      }
    }
  }
}
