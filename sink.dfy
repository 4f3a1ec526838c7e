/** The report sink (the BLE gamepad), the platform sleep calls and the pins,
    seen only through the calls the controller makes on them. */
module Sink {
  import opened Config

  /** The nine positions of the hat switch. */
  datatype Hat = Centered | Up | UpRight | Right | DownRight | Down | DownLeft | Left | UpLeft

  /** A digital pin level; direction pins are active low. */
  datatype Level = Low | High

  /** The two platform calls before sleep whose failure is logged. */
  datatype SleepFailure = PullupFailed | GpioWakeupFailed

  /** One call made by a cycle, in the order it is made. */
  datatype Action =
    | Press(button: Byte)              // gamepad.press
    | Release(button: Byte)            // gamepad.release
    | PressSpecial(button: Byte)       // gamepad.pressSpecialButton
    | ReleaseSpecial(button: Byte)     // gamepad.releaseSpecialButton
    | SetHat(hat: Hat)                 // gamepad.setHat1
    | SendReport                       // gamepad.sendReport
    | End                              // gamepad.end
    | RevertToInput(pin: Pin)          // pinMode(pin, INPUT)
    | EnablePullup(pin: Pin)           // gpio_pullup_en
    | EnableGpioWakeLow(pin: Pin)      // esp_deep_sleep_enable_gpio_wakeup(.., LOW)
    | LogError(failure: SleepFailure)  // LOGE
    | DeepSleepStart                   // esp_deep_sleep_start, does not return

  /** Calls that change the gamepad's button state. */
  predicate IsButtonAction(a: Action) {
    a.Press? || a.Release? || a.PressSpecial? || a.ReleaseSpecial?
  }

  /** Calls that change or transmit the gamepad report. */
  predicate IsReportAction(a: Action) {
    IsButtonAction(a) || a.SetHat? || a.SendReport?
  }

  /** Calls of the sleep entry. */
  predicate IsSleepAction(a: Action) {
    a.End? || a.RevertToInput? || a.EnablePullup? || a.EnableGpioWakeLow? || a.LogError? || a.DeepSleepStart?
  }

  /** The two kinds of call are disjoint. */
  lemma SleepIsNotReport(a: Action)
    ensures IsSleepAction(a) ==> !IsReportAction(a)
  {
    match a
    case End =>
    case RevertToInput(_) =>
    case EnablePullup(_) =>
    case EnableGpioWakeLow(_) =>
    case LogError(_) =>
    case DeepSleepStart =>
    case _ =>
  }
}
