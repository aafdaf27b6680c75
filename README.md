# reHealthMonitor in Dafny

This project models `reHealthMonitor`, the single component of the reNotifier
library. The monitor receives "service status" reports, which are ESP-IDF error codes where `ESP_OK`
means healthy. It turns them into rate-limited failure and recovery notifications through a
notify callback. It keeps:

- the current error code;
- a saturating 8-bit count of consecutive failures and the threshold it is compared with;
- the failure-start time and the state time;
- a flag byte with two bits, LOCKED and "failure notice sent" (SENDED);
- an optional object-label override;
- at most one one-shot confirmation timer;
- pointers to two externally owned parameters, the confirmation delay and the "notifications enabled" byte, which are read again at every use.

Files:

- `wrappers.dfy`: `Option`.
- `notifier_defs.dfy` (module `NotifierDefs`): the declarations of `include/reNotifier.h`. These are the five-way notification policy, the callback payload, the integer widths (`uint8_t`, `uint32_t`, `esp_err_t`), the two flag bits and the constructor arguments.
- `monitor_spec.dfy` (module `MonitorSpec`): every operation of `src/reNotifier.cpp` as a pure function on a `Monitor` value that holds the mutable fields. It also holds the invariant `Valid` that every public operation keeps.
- `health_monitor.dfy` (module `HealthMonitor`): the class `ReHealthMonitor` with the fields of the header, updated in place. Each method is proved to leave the fields (`Model()`) and the log of callback invocations (`Calls`) exactly as the matching `MonitorSpec` function says. Every public mutator (including the destructor and `assignParams`) is also proved to keep `Valid()`; the private helpers are specified by their `MonitorSpec` counterparts only. The external parameters are cell objects that the monitor points to, and they are dereferenced at every use, as in the source.
- `monitor_props.dfy` (module `MonitorProps`): lemmas about single calls, lemmas about traces (any sequence of reports, lock, unlock and timer expiries, proved by induction), and concrete scenarios.

The notify callback is an oracle. Each operation receives `answer`, the value the callback returns if it is invoked. Every invocation is recorded with its payload and its result. The clock read `time(nullptr)` is the parameter `now`. The timer is `Option<Uint32>`: None when no timer is pending, otherwise the delay in seconds it was started with.

Invariants (`MonitorSpec.Valid`), kept by every public operation:

- only the two flag bits are ever set;
- an OK monitor has failure start 0 and count 0;
- a pending timer means: the state is an error, "sent" is clear, the monitor is unlocked and the delay is positive;
- a locked monitor is OK with "sent" clear.

"Sent is clear while OK" (`SentOnlyWhileFailing`) is a separate predicate. Every trace keeps it: there, `timerTimeout` runs only when the timer expires or through `forcedTimeout`. A direct call of the public `timerTimeout` on an OK monitor that has sent nothing sends the OK template. If the callback succeeds, it also sets SENDED. That call does not keep the predicate, and `MonitorSpec.TimerTimeout` says so in its contract. Because `timerTimeout` does not consult the policy, such a direct call invokes the callback even under the NONE policy (`MonitorProps.DirectTimerTimeoutIgnoresPolicy`); the NONE guarantee `MonitorProps.ModeNoneNeverNotifies` covers traces, where the timeout runs only for a pending timer.

Three behaviours of the code are worth stating outright:

- `timerStart`'s result is discarded: when arming fails, the notice is neither sent nor scheduled, as `MonitorProps.ZeroDelayEarlierStampDropsNotice` shows.
- `unlock` acts only when the monitor is locked.
- `timerTimeout` does not check the policy or the lock. Its only guard is "not (sent and OK)". Sending is then gated by `sendNotifyPrivate`.

## Model

| member | source | states |
|---|---|---|
| `HealthMonitor.ReHealthMonitor.constructor` | src/reNotifier.cpp:11-33 | stores the constructor arguments; starts in `MonitorSpec.Initial()` with no delay or enable pointer and an empty call log |
| `HealthMonitor.ReHealthMonitor.Destroy` | src/reNotifier.cpp:35-42 | keeps `Valid()`; stops the timer and drops the label override; every other field, the parameter pointers and the log are unchanged |
| `HealthMonitor.ReHealthMonitor.AssignParams` | src/reNotifier.cpp:44-48 | keeps `Valid()`; points the monitor at the given delay and enable cells; the monitor state is unchanged |
| `HealthMonitor.ReHealthMonitor.SendNotifyPrivate` | src/reNotifier.cpp:50-73 | appends exactly the invocation `MonitorSpec.Notify` prescribes for the current fields and parameters, and returns true only if the callback was invoked and returned true |
| `HealthMonitor.ReHealthMonitor.SendAndMark` | src/reNotifier.cpp:117-119 | sends, and sets SENDED exactly when the send was delivered |
| `HealthMonitor.ReHealthMonitor.TimerStart` | src/reNotifier.cpp:195-216 | arms the timer as `MonitorSpec.TimerStart` says and returns its verdict |
| `HealthMonitor.ReHealthMonitor.TimerStop` | src/reNotifier.cpp:218-228 | leaves no timer and returns true |
| `HealthMonitor.ReHealthMonitor.NotifyRecovery` | src/reNotifier.cpp:91-97 | calls `sendNotifyPrivate` iff the recovery notice is due (`MonitorSpec.RecoveryNoticeDue`); what that call appends is `MonitorSpec.Notify` |
| `HealthMonitor.ReHealthMonitor.Recover` | src/reNotifier.cpp:85-102 | new fields and calls are those of `MonitorSpec.Recover` |
| `HealthMonitor.ReHealthMonitor.CountFailure` | src/reNotifier.cpp:105-108 | new fields are those of `MonitorSpec.CountFailure` |
| `HealthMonitor.ReHealthMonitor.NotifyFailure` | src/reNotifier.cpp:109-124 | new fields and calls are those of `MonitorSpec.FailureNotice` |
| `HealthMonitor.ReHealthMonitor.Fail` | src/reNotifier.cpp:104-125 | new fields and calls are those of `MonitorSpec.Fail` |
| `HealthMonitor.ReHealthMonitor.SetStateCustom` | src/reNotifier.cpp:75-127 | keeps `Valid()`; new fields and calls are those of `MonitorSpec.SetStateCustom`; the parameter pointers are untouched |
| `HealthMonitor.ReHealthMonitor.SetState` | src/reNotifier.cpp:129-132 | keeps `Valid()`; behaves as `MonitorSpec.SetState` |
| `HealthMonitor.ReHealthMonitor.ForcedTimeout` | src/reNotifier.cpp:134-139 | keeps `Valid()`; behaves as `MonitorSpec.ForcedTimeout` |
| `HealthMonitor.ReHealthMonitor.Lock` | src/reNotifier.cpp:145-155 | keeps `Valid()`; new fields are `MonitorSpec.Lock` of the old ones; nothing is sent |
| `HealthMonitor.ReHealthMonitor.Unlock` | src/reNotifier.cpp:157-166 | keeps `Valid()`; new fields are `MonitorSpec.Unlock` of the old ones; nothing is sent |
| `HealthMonitor.ReHealthMonitor.IsLocked` | src/reNotifier.cpp:168-171 | returns the LOCKED bit and changes nothing; when true, the monitor is OK with no count, no failure start and no timer |
| `HealthMonitor.ReHealthMonitor.TimerTimeout` | src/reNotifier.cpp:185-193 | keeps `Valid()`; behaves as `MonitorSpec.TimerTimeout` |
| `MonitorSpec.Initial` | include/reNotifier.h:68-83 | a new monitor has state `ESP_OK`, count 0, both times 0 and flag byte 0, no timer and no label override, and satisfies both invariants |
| `MonitorSpec.Destroy` | src/reNotifier.cpp:35-42 | no timer and no label override remain; every other field (state, both times, count, flags) is kept; both invariants are kept |
| `MonitorSpec.Payload` | src/reNotifier.cpp:50-73 | a payload exists only when enabled, unlocked and with a callback; it carries the current state and the label (override, else service name) |
| `MonitorSpec.Notify` | src/reNotifier.cpp:50-73 | at most one invocation, and it carries the payload |
| `MonitorSpec.SendAndMark` | src/reNotifier.cpp:117-119 | "sent" afterwards iff sent before or the callback returned true; only the flags change, and of them only SENDED, set exactly on delivery; LOCKED untouched |
| `MonitorSpec.TimerStart` | src/reNotifier.cpp:195-216 | true iff the delay is present and positive; a pending timer is left as it is; otherwise the timer is armed for the full current delay exactly when the result is true |
| `MonitorSpec.TimerStop` | src/reNotifier.cpp:218-228 | always succeeds, leaves no timer and changes nothing else |
| `MonitorSpec.Recover` | src/reNotifier.cpp:85-102 | the state becomes OK at time `t` with the timer cancelled and "sent", failure start and count cleared, whether or not a notice went out; keeps the invariants and yields a monitor with "sent" clear |
| `MonitorSpec.CountFailure` | src/reNotifier.cpp:105-108 | the failure start is set only if it was 0; the count grows by one and stops at 255; state and state time are the report's; nothing else changes |
| `MonitorSpec.FailureNotice` | src/reNotifier.cpp:109-124 | at most one invocation; only the timer and the flags can change; keeps the invariants for an error state |
| `MonitorSpec.Fail` | src/reNotifier.cpp:104-125 | keeps both invariants; the state and state time are the report's |
| `MonitorSpec.SetStateCustom` | src/reNotifier.cpp:75-127 | keeps both invariants; at most one invocation; the label override is replaced whenever one is given, locked or not; LOCKED is unchanged |
| `MonitorSpec.SetState` | src/reNotifier.cpp:129-132 | equals `SetStateCustom` with no forced send and no label override, so the label is unchanged |
| `MonitorSpec.TimerTimeout` | src/reNotifier.cpp:185-193 | no timer afterwards; at most one invocation; only the timer and flags change; of the flags only SENDED, set exactly on delivery, so LOCKED is kept; keeps `Valid`; keeps `SentOnlyWhileFailing` when a timer was pending |
| `MonitorSpec.ForcedTimeout` | src/reNotifier.cpp:134-139 | a no-op without a pending timer; with one, on a valid monitor, sends the pending notice (the calls are `Notify` on the monitor with the timer stopped) and sets "sent" iff it was delivered; no timer afterwards; every other field is kept, and of the flags only SENDED changes, set exactly on delivery, so LOCKED is kept; keeps both invariants |
| `MonitorSpec.Lock` | src/reNotifier.cpp:145-155 | LOCKED afterwards; a no-op when already locked; otherwise the timer stops, "sent", failure start and count clear and the state is OK; keeps both invariants |
| `MonitorSpec.Unlock` | src/reNotifier.cpp:157-166 | not LOCKED afterwards; a no-op when not locked; when it was locked, "sent", failure start and count clear and the state is OK; keeps both invariants; timer, label and state time unchanged |
| `MonitorProps.LockedReportOnlyReplacesLabel` | src/reNotifier.cpp:77-83 | while locked, a report replaces the label override (when given) and changes and sends nothing else |
| `MonitorProps.OkWhileOkIsNoop` | src/reNotifier.cpp:85-86 | reporting OK while OK, forced or not, changes nothing but the label and sends nothing |
| `MonitorProps.RecoveryRules` | src/reNotifier.cpp:85-101 | the recovery resets the episode; a recovery notice goes out iff failure start > 0, the mode is RECOVERY, AUTO with "sent", or FORCED, the delay is absent or reached, and the send gate is open; it carries the OK template, the new state time and the episode start |
| `MonitorProps.FailureNoticeRules` | src/reNotifier.cpp:109-124 | a failure notice is invoked iff count >= threshold, mode FAILURE/AUTO/FORCED, "sent" clear, no timer, (forced or no delay or elapsed >= delay) and the gate is open; "sent" is set iff the callback returned true; the timer changes iff the notice is considered, not due at once and the delay is positive, and then holds the full delay |
| `MonitorProps.ZeroDelayEarlierStampDropsNotice` | src/reNotifier.cpp:114-123 | with a zero delay and a state time before the failure start, a considered notice is neither sent nor scheduled (timerStart's false result is ignored) |
| `MonitorProps.FailureBookkeeping` | src/reNotifier.cpp:105-108 | a failure report takes the state and stamp, sets the failure start only for the first failure, and counts up to 255 |
| `MonitorProps.TimerTimeoutRules` | src/reNotifier.cpp:185-193 | stops the timer first; sends unless "sent" and OK; "sent" set only on success |
| `MonitorProps.SendGate` | src/reNotifier.cpp:52-67 | the callback is invoked iff enabled, a template exists for the state, unlocked and a callback is set; the payload has the template for the state, the override label else the service, the message options, the state and both times; the result is the callback's answer |
| `MonitorProps.ForcedTimeoutSendsPending` | src/reNotifier.cpp:134-139 | with a timer pending on a valid monitor, forcedTimeout sends the failure notice now: a call happens iff enabled, a failure template exists and a callback is set; it carries the failure template and the state; "sent" is set iff delivered; the state is kept and no timer remains |
| `MonitorProps.LockUnlockIdempotent` | src/reNotifier.cpp:145-166 | lock twice equals lock once; unlock twice equals unlock once |
| `MonitorProps.LockThenUnlockIsClean` | src/reNotifier.cpp:145-166 | lock then unlock leaves a valid, unlocked OK monitor with no count, failure start, "sent" or timer, whatever came before |
| `MonitorProps.Apply` | src/reNotifier.cpp:75-193 | one event keeps both invariants and invokes the callback at most once |
| `MonitorProps.Run` | src/reNotifier.cpp:75-193 | any trace keeps both invariants and invokes the callback at most once per event |
| `MonitorProps.ModeNoneNeverNotifies` | include/reNotifier.h:25 | under the NONE policy no trace ever invokes the callback |
| `MonitorProps.OkReportsNeverNotify` | src/reNotifier.cpp:85-86 | a trace of OK reports on an OK monitor sends nothing and changes nothing but the label |
| `MonitorProps.BelowThresholdIsSilent` | src/reNotifier.cpp:108-110 | fewer failure reports than the threshold send nothing, arm no timer, and count one each |
| `MonitorProps.FreshBelowThresholdIsSilent` | src/reNotifier.cpp:108-110 | from a new monitor, fewer failures than the threshold produce no notification |
| `MonitorProps.FailureCountSaturates` | include/reNotifier.h:76 | after n failure reports the count is min(count + n, 255) |
| `MonitorProps.ThreeHundredFailuresSaturate` | src/reNotifier.cpp:108 | 300 failure reports leave the count at 255, which meets any threshold |
| `MonitorProps.SentOnlyAfterDelivery` | src/reNotifier.cpp:117-119 | if "sent" ends set on a trace that began with it clear, some failure notice of the trace was delivered (callback returned true) |
| `MonitorProps.StepSetsSentOnlyByDelivery` | src/reNotifier.cpp:189-191 | one event sets "sent" only through a delivered notice for an error state |
| `MonitorProps.ScenarioImmediateNotices` | src/reNotifier.cpp:93-119 | AUTO, threshold 1, no delay: a failure then a recovery give one failure and one recovery notice; FAILURE gives only the failure notice |
| `MonitorProps.ScenarioDelayedConfirmation` | src/reNotifier.cpp:116-122 | with a 5 s delay the failure arms the timer, the expiry delivers the failure notice, and the later recovery is notified under AUTO |
| `MonitorProps.ScenarioRecoveryBeforeTimer` | src/reNotifier.cpp:89-90 | a recovery before expiry cancels the timer; no notice is ever sent under AUTO |
| `MonitorProps.DirectTimerTimeoutIgnoresPolicy` | src/reNotifier.cpp:185-193 | a direct timerTimeout on a fresh monitor under NONE invokes the callback with the OK template and sets "sent" while OK |
| `MonitorProps.ScenarioEarlySendThenQuickRecovery` | src/reNotifier.cpp:93-95 | under AUTO, an early failure notice through forcedTimeout followed by a recovery within the delay gets no recovery notice |

## Left out

- The ESP-IDF timer service (`esp_timer_create`, `start_once`, `stop`, `delete`, `is_active`) is abstracted to the pending timer and its delay. The `RE_OK_CHECK` failure branches of `timerStart` and `timerStop` are taken never to happen. The invariant "a pending timer implies an error state, not locked" depends on that: a failed stop in the source would leave a timer armed across a recovery or a lock.
- `MonitorSpec.TimerStop`: always returns true, because platform failures of `esp_timer_stop`/`esp_timer_delete` are not modelled.
- `HealthMonitor.ReHealthMonitor.TimerStop`: always returns true, for the same reason.
- `MonitorSpec.TimerStart`: returns false only when the delay is absent or zero, because failures of `esp_timer_create`/`esp_timer_start_once` are not modelled.
- `HealthMonitor.ReHealthMonitor.TimerStart`: the same as `MonitorSpec.TimerStart`.
- `MonitorProps.SentOnlyAfterDelivery`: shows that some failure notice of the trace was delivered, not that it belongs to the current episode.
- The static timer trampoline `reHealthMonitorDelayTimeout` and any race between the timer task and callers are not modelled: the expiry is an ordinary event of a sequential trace.
- The notification transport, message formatting and the meaning of `msg_options` are not modelled. The callback is an oracle that returns a `bool`.
- The payload's `monitor` back-pointer is left out of `NotifyData`. It identifies the caller, and there is only one.
- `time(nullptr)` is the parameter `now`. `rLog` logging is left out. `malloc`/`free` of the label override become replacing an `Option<string>`.
- The microsecond conversion `*_notify_delay * 1000000` passed to `esp_timer_start_once` is not modelled. It is 32-bit arithmetic that wraps for delays above 4294 s, and durations stay in seconds here.
- `time_t` is taken to be 64-bit, so `duration >= delay` is a signed comparison and the subtraction of times never overflows. With a 32-bit `time_t` the comparison would be unsigned.
