/** Values shared by the detector and the controller: an optional value and the
    entries of the log that stands for every side effect AppDelegate performs on
    the operating system. */
module Effects {

  /** Swift's `String?`. */
  datatype Option<+T> = None | Some(value: T) {
    /** Swift's `??` operator. */
    function GetOr(default: T): T {
      match this
      case Some(v) => v
      case None => default
    }
  }

  /** One side effect, in the order AppDelegate performs it. */
  datatype Effect =
    | ReadMode                    // readDefault("PresentationModeGlobal")
    | WriteMode(mode: string)     // writeDefault("PresentationModeGlobal", mode)
    | KillControlStrip            // run("/usr/bin/killall", ["ControlStrip"])
    | SchedulePresent(delay: real) // DispatchQueue.main.asyncAfter(.now() + delay) { present overlay }
    | PresentOverlay              // the body of that deferred block, when the queue runs it
    | DismissOverlay              // NSTouchBar.dismissSystemModal()
    | RequestToggle               // DispatchQueue.main.async { toggle() }
    | Terminate                   // NSApp.terminate(nil)
}
