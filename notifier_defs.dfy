/**
 * Declarations of include/reNotifier.h: the notification policy, the payload
 * handed to the notify callback, the fixed-width integer types of the
 * monitor's fields, and the bits of its flag byte.
 */
module NotifierDefs {
  import opened Wrappers

  /** uint8_t, uint32_t and esp_err_t (a signed 32-bit integer). */
  type Uint8 = x: int | 0 <= x < 0x100
  type Uint32 = x: int | 0 <= x < 0x1_0000_0000
  type EspErr = x: int | -0x8000_0000 <= x < 0x8000_0000

  const ESP_OK: EspErr := 0
  const UINT8_MAX: Uint8 := 0xFF

  /** The two bits of the flag byte: BIT0 and BIT1. */
  const HM_LOCKED: bv8 := 1
  const HM_SENDED: bv8 := 2

  /** The notification policy (hm_notify_mode_t). */
  datatype NotifyMode =
    | ModeNone      // no notification at all
    | ModeFailure   // only when the service fails
    | ModeRecovery  // only on recovery, whether or not a failure notice went out
    | ModeAuto      // on recovery only if a failure notice was delivered
    | ModeForced    // on failure and on recovery

  /** The modes under which a failure notice is considered. */
  predicate FailureNoticeMode(mode: NotifyMode)
  {
    mode == ModeFailure || mode == ModeAuto || mode == ModeForced
  }

  /** The modes under which a recovery notice is considered, given whether a failure notice was delivered. */
  predicate RecoveryNoticeMode(mode: NotifyMode, sent: bool)
  {
    mode == ModeRecovery || (mode == ModeAuto && sent) || mode == ModeForced
  }

  /**
   * The payload handed to the callback (hm_notify_data_t), without the
   * pointer back to the monitor: the label of the object, the chosen
   * message template, the message options, the current state and the
   * state and failure-start times.
   */
  datatype NotifyData = NotifyData(
    objectLabel: string,
    msgTemplate: string,
    msgOptions: Uint32,
    state: EspErr,
    timeState: int,
    timeFailure: int)

  /** One invocation of the callback: what it was given and what it returned. */
  datatype Call = Call(data: NotifyData, ok: bool)

  /**
   * The constructor arguments, fixed for the life of a monitor. A null
   * template is None; `hasCallback` is false for a null callback.
   */
  datatype Config = Config(
    service: string,
    mode: NotifyMode,
    msgOptions: Uint32,
    msgOk: Option<string>,
    msgFailure: Option<string>,
    failThreshold: Uint8,
    hasCallback: bool)

  /**
   * The two externally owned parameters as they read at the moment of use:
   * the failure confirmation delay in seconds and the "notifications
   * enabled" byte. None stands for a null pointer.
   */
  datatype Params = Params(delay: Option<Uint32>, enable: Option<Uint8>)
}
