# BlackTouchBar: the double-Command detector and the blackout controller

BlackTouchBar is a macOS menu-bar accessory that blanks the Touch Bar. It
presents an opaque system-modal overlay after switching the
`PresentationModeGlobal` preference of `com.apple.touchbar.agent` to `"app"`
and restarting the ControlStrip process. The toggle is triggered by pressing
Command twice within 0.4 s, by a menu item, or by a distributed notification.

This project models the small state machine inside `AppDelegate`:

- `effects.dfy` (module `Effects`): Swift's `String?` as `Option`, and the
  `Effect` log entries that stand for every side effect on the system (reading
  and writing the preference, killing ControlStrip, scheduling, presenting
  and dismissing the overlay, asking the main queue for a toggle, terminating).
- `detector.dfy` (module `DoubleCommand`): `handleFlags` as a pure step on
  `cmdWasDown` and `lastCmdPressTime`. Modifier flags are a set, and uptime is
  a Dafny `real` in seconds. `Run` feeds a stream of events through the step
  and counts qualifying edges and toggle requests.
- `blackout.dfy` (module `Blackout`): `toggle`, `blackOut`, `restore`, `quit`
  and the deferred presentation block, as pure functions on `isBlacked` and
  `savedPresentationMode`. Each returns the new fields and the effects it
  performs, in order.
- `app_delegate.dfy` (module `BlackTouchBar`): class `AppDelegate` with the
  four source fields plus an `effects` log. Its methods update the fields in
  place (`modifies this`). Their postconditions tie the new fields and the
  appended effects to the pure functions above, where the properties are proved.

Three behaviours of the code are easy to miss:

- `lastCmdPressTime` starts at `0`, not at "no press yet". A first press while
  the uptime is below 0.4 s therefore toggles
  (`DoubleCommand.FirstPressAtLowUptimeToggles`). Right after a toggle, the
  next press toggles again only at such a low uptime.
- `restore` neither cancels the presentation `blackOut` scheduled nor checks
  for one. Toggling back within 0.5 s still ends with the overlay presented
  while `isBlacked` is false (`Blackout.QuickToggleBackStillPresents`, and on
  the class `BlackTouchBar.ToggleBackBeforePresentation`). So the overlay can be
  presented, or still pending, while `isBlacked` is false.
- `restore` does not clear `savedPresentationMode`.

## Model

| member | source | states |
|---|---|---|
| DoubleCommand.HandleFlags | BlackTouchBar.swift:85-100 | `cmdWasDown` becomes the event's Command flag; a toggle is only requested on a qualifying edge and clears the timestamp; a non-qualifying event requests nothing and keeps the timestamp |
| DoubleCommand.HasOtherModsIff | BlackTouchBar.swift:87-88 | the intersection test with [.shift, .option, .control] holds exactly when one of the three is in the flags |
| DoubleCommand.CmdWasDownFollowsEvent | BlackTouchBar.swift:99 | after every call `cmdWasDown` equals the event's Command flag, on every branch |
| DoubleCommand.ToggleExactlyOnQuickSecondPress | BlackTouchBar.swift:86-94 | a toggle is requested if and only if Command is down, was not down before, none of Shift/Option/Control is held, and `now - lastCmdPressTime < 0.4` |
| DoubleCommand.WindowIsStrict | BlackTouchBar.swift:92-96 | a press exactly 0.4 s after the armed one requests nothing and re-arms the window at its own time |
| DoubleCommand.EdgeResetsOrArms | BlackTouchBar.swift:90-97 | on a qualifying edge the timestamp becomes 0 when a toggle is requested and `now` when it is not |
| DoubleCommand.NonQualifyingEventIsIgnored | BlackTouchBar.swift:90-98 | Command held over, Command up, or another modifier held: no toggle and the timestamp is unchanged |
| DoubleCommand.CapsLockAndFnDoNotBlock | BlackTouchBar.swift:87-90 | Caps Lock and Fn held with Command still make a qualifying edge |
| DoubleCommand.ShiftSuppressesPress | BlackTouchBar.swift:87-90 | Command pressed with Shift requests nothing and leaves the timestamp alone, while `cmdWasDown` becomes true |
| DoubleCommand.FirstPressAtLowUptimeToggles | BlackTouchBar.swift:49-94 | from the initial fields, a first press at uptime below 0.4 s already requests a toggle, because the timestamp starts at 0 |
| DoubleCommand.FreshWindowAfterToggle | BlackTouchBar.swift:92-96 | after a toggle, the next press at uptime of at least 0.4 s does not toggle again |
| DoubleCommand.Run | BlackTouchBar.swift:76-100 | over any event stream, toggles never outnumber qualifying edges, edges never outnumber events, and the final `cmdWasDown` is the last event's Command flag |
| DoubleCommand.HeldCommandNeverToggles | BlackTouchBar.swift:90-99 | while Command stays down, no edge, no toggle and no timestamp change happen, whatever other flags come and go |
| DoubleCommand.TogglesNeedTwoEdgesFrom | BlackTouchBar.swift:90-97 | at uptime of at least 0.4 s, twice the toggles plus "armed at the end" is at most the edges plus "armed at the start" |
| DoubleCommand.TogglesNeedTwoEdges | BlackTouchBar.swift:49-97 | from a cleared timestamp and at uptime of at least 0.4 s, every toggle request takes two qualifying Command presses |
| DoubleCommand.RunAppend | BlackTouchBar.swift:76-100 | handling two streams one after the other is handling their concatenation: final fields carry over, edges and toggles add up |
| DoubleCommand.NoEdgesKeepWindow | BlackTouchBar.swift:90-99 | a stream in which no event is a qualifying edge (releases, Shift or Caps Lock changes, Command held) requests no toggle and leaves `lastCmdPressTime` unchanged |
| DoubleCommand.DoublePressAcrossOtherEvents | BlackTouchBar.swift:85-100 | a press, any edge-free events ending with Command up, and a second press within 0.4 s give exactly one toggle from two edges and clear the timestamp |
| DoubleCommand.SlowPressAcrossOtherEvents | BlackTouchBar.swift:92-96 | the same with the second press 0.4 s or more later gives no toggle and re-arms at the second press |
| DoubleCommand.DoublePressTogglesOnce | BlackTouchBar.swift:85-100 | press, release, press within 0.4 s gives exactly one toggle from two edges and leaves the timestamp cleared |
| DoubleCommand.SlowSecondPressRearms | BlackTouchBar.swift:92-96 | press, release, press 0.4 s or more later gives no toggle and re-arms at the second press |
| Blackout.BlackOut | BlackTouchBar.swift:109-125 | keeps `isBlacked`, saves the value read; its effects start with the read, last write "app", and end with scheduling the presentation 0.5 s later |
| Blackout.Restore | BlackTouchBar.swift:127-133 | changes neither field; its effects start with the dismissal, last write the saved mode or "functionKeys", and end with killing ControlStrip |
| Blackout.Toggle | BlackTouchBar.swift:104-107 | flips `isBlacked`; saves the value read only when it blacks out; the preference is last written "app" when blacked, the saved mode or "functionKeys" otherwise |
| Blackout.PresentScheduled | BlackTouchBar.swift:116-124 | the deferred block changes neither field, writes no preference and leaves the overlay shown |
| Blackout.Quit | BlackTouchBar.swift:176-179 | changes neither field, ends with Terminate, writes the saved mode or "functionKeys" when blacked and no preference otherwise |
| Blackout.BlackOutSavesThenSchedules | BlackTouchBar.swift:109-125 | blackOut saves the value read, writes "app", kills ControlStrip and only then schedules the presentation 0.5 s later; `isBlacked` is untouched |
| Blackout.RestoreWritesSavedMode | BlackTouchBar.swift:127-133 | restore dismisses, writes the saved mode or "functionKeys" when none, kills ControlStrip, changes neither field and cancels nothing |
| Blackout.ToggleFlips | BlackTouchBar.swift:104-107 | toggle flips `isBlacked` and runs blackOut exactly when the new value is true, restore otherwise |
| Blackout.ToggleTwiceRoundTrip | BlackTouchBar.swift:104-133 | two toggles from the normal state restore `isBlacked`, write back the mode that was read (or "functionKeys"), keep the saved mode, and perform exactly the seven effects in order |
| Blackout.TogglesParity | BlackTouchBar.swift:104-107 | after n toggles `isBlacked` differs from its start exactly when n is odd |
| Blackout.PreferenceTracksState | BlackTouchBar.swift:109-133 | after any non-empty series of toggles, the preference was last written "app" when blacked and the saved mode (or "functionKeys") otherwise |
| Blackout.QuitRestoresOnlyWhenBlacked | BlackTouchBar.swift:176-179 | quit runs restore only when blacked and then terminates; it changes neither field |
| Blackout.QuitLeavesPreferenceRestored | BlackTouchBar.swift:176-179 | quitting after any non-empty series of toggles leaves the preference at the saved mode (or "functionKeys") |
| Blackout.QuickToggleBackStillPresents | BlackTouchBar.swift:116-128 | toggling on and off before the 0.5 s delay still ends with the overlay presented while `isBlacked` is false |
| BlackTouchBar.AppDelegate.constructor | BlackTouchBar.swift:46-50 | `isBlacked` false, no saved mode, timestamp 0, `cmdWasDown` false, empty log |
| BlackTouchBar.AppDelegate.HandleFlags | BlackTouchBar.swift:85-100 | updates the two detector fields as `DoubleCommand.HandleFlags` does, logs RequestToggle exactly when it requests one, sets `cmdWasDown` to the Command flag, leaves the controller fields alone |
| BlackTouchBar.AppDelegate.Toggle | BlackTouchBar.swift:104-107 | flips `isBlacked`; fields and log follow `Blackout.Toggle`; detector fields unchanged |
| BlackTouchBar.AppDelegate.BlackOut | BlackTouchBar.swift:109-125 | stores the read value in `savedPresentationMode`, appends the blackOut effects in order and adds one pending presentation |
| BlackTouchBar.AppDelegate.Restore | BlackTouchBar.swift:127-133 | leaves every field unchanged, cancels no pending presentation, and appends the restore effects in order |
| BlackTouchBar.ToggleBackBeforePresentation | BlackTouchBar.swift:104-133 | toggling on and back off before the deferred block runs leaves a presentation pending while `isBlacked` is false; running it then presents the overlay |
| BlackTouchBar.AppDelegate.PresentScheduledOverlay | BlackTouchBar.swift:116-124 | the deferred block runs only when one is pending, consumes it, and appends PresentOverlay without looking at `isBlacked` |
| BlackTouchBar.AppDelegate.Quit | BlackTouchBar.swift:176-179 | appends the restore effects only when blacked, then Terminate; no field changes |

## Left out

- The private DFRFoundation call and the selector probing in the present and dismiss helpers (BlackTouchBar.swift:7-40). They are foreign calls and appear only as the PresentOverlay and DismissOverlay effects. Whether the running system supports them is not modelled.
- The close-box calls and the status-item title update inside the deferred block, and the title set by restore (BlackTouchBar.swift:117, 122-123, 132). They are UI glue. The menu and status-item construction (BlackTouchBar.swift:52-62) is left out for the same reason.
- The distributed-notification observer and the global and local event monitors (BlackTouchBar.swift:64-83). These are OS event plumbing. Both monitors just call handleFlags, which `DoubleCommand.Run` covers for any interleaving of their events.
- Process spawning in readDefault, writeDefault and run (BlackTouchBar.swift:151-174). The read result is an arbitrary `Option<string>` parameter; writes and kills are logged effects. A failed `defaults read` most likely yields an empty string rather than nil. In that case restore writes "" instead of "functionKeys". The model admits Some("") as a read result but does not derive it from process output.
- Dispatch-queue timing (BlackTouchBar.swift:94, 116). A requested toggle is a RequestToggle entry, and the deferred presentation is a SchedulePresent(0.5) entry. The queue's run of the deferred block is the separate operation PresentScheduledOverlay, and the blocks not yet run are counted by the ghost field `pendingPresentations`. Real-time ordering between blocks and events is not modelled.
- `TimeInterval` floating point (BlackTouchBar.swift:91-92). Uptime is a Dafny `real`, and the 0.4 comparison is exact, without rounding.
- The Touch Bar item factory (BlackTouchBar.swift:137-147), the `blackoutID` identifier, `NSApp.terminate` beyond its Terminate entry, and application start-up (BlackTouchBar.swift:184-188). These are rendering and process life-cycle.
