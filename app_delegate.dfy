/** AppDelegate's double-Command detector and blackout controller as a class
    whose methods update its fields in place. Every effect on the operating
    system is appended to `effects`; each method's new state is tied to the
    pure specification in DoubleCommand or Blackout, where its properties are
    proved. */
module BlackTouchBar {
  import opened Effects
  import DoubleCommand
  import Blackout

  class AppDelegate {
    var isBlacked: bool
    var savedPresentationMode: Option<string>
    var lastCmdPressTime: real
    var cmdWasDown: bool
    /** Every side effect performed so far, oldest first. */
    var effects: seq<Effect>
    /** Presentation blocks scheduled by BlackOut that the main queue has not
        run yet. Nothing in AppDelegate ever cancels one. */
    ghost var pendingPresentations: nat

    function DetectorState(): DoubleCommand.Detector
      reads this
    {
      DoubleCommand.Detector(cmdWasDown, lastCmdPressTime)
    }

    function ControllerState(): Blackout.Controller
      reads this
    {
      Blackout.Controller(isBlacked, savedPresentationMode)
    }

    constructor ()
      ensures DetectorState() == DoubleCommand.Initial
      ensures ControllerState() == Blackout.Initial
      ensures effects == [] && pendingPresentations == 0
    {
      isBlacked := false;
      savedPresentationMode := None;
      lastCmdPressTime := 0.0;
      cmdWasDown := false;
      effects := [];
      pendingPresentations := 0;
    }

    /** One flagsChanged event carrying `flags`, handled when the system uptime
        is `now`. A requested toggle is logged as RequestToggle; the main queue
        runs Toggle later. */
    method HandleFlags(flags: set<DoubleCommand.Modifier>, now: real)
      modifies this
      ensures var s := DoubleCommand.HandleFlags(old(DetectorState()), DoubleCommand.FlagsEvent(flags, now));
        DetectorState() == s.next &&
        effects == old(effects) + (if s.toggle then [RequestToggle] else [])
      ensures cmdWasDown == (DoubleCommand.Command in flags)
      ensures ControllerState() == old(ControllerState())
      ensures pendingPresentations == old(pendingPresentations)
    {
      var cmdDown := DoubleCommand.Command in flags;
      var hasOtherMods := flags * {DoubleCommand.Shift, DoubleCommand.Option, DoubleCommand.Control} != {};
      if cmdDown && !cmdWasDown && !hasOtherMods {
        if now - lastCmdPressTime < DoubleCommand.DoubleTapWindow {
          lastCmdPressTime := 0.0;
          effects := effects + [RequestToggle];
        } else {
          lastCmdPressTime := now;
        }
      }
      cmdWasDown := cmdDown;
    }

    /** `readResult` is what reading PresentationModeGlobal returns if this
        toggle blacks out. */
    method Toggle(readResult: Option<string>)
      modifies this
      ensures isBlacked == !old(isBlacked)
      ensures ControllerState() == Blackout.Toggle(old(ControllerState()), readResult).next
      ensures effects == old(effects) + Blackout.Toggle(old(ControllerState()), readResult).effects
      ensures pendingPresentations == old(pendingPresentations) + (if isBlacked then 1 else 0)
      ensures DetectorState() == old(DetectorState())
    {
      isBlacked := !isBlacked;
      if isBlacked {
        BlackOut(readResult);
      } else {
        Restore();
      }
    }

    method BlackOut(readResult: Option<string>)
      modifies this
      ensures savedPresentationMode == readResult
      ensures ControllerState() == Blackout.BlackOut(old(ControllerState()), readResult).next
      ensures effects == old(effects) + Blackout.BlackOut(old(ControllerState()), readResult).effects
      ensures pendingPresentations == old(pendingPresentations) + 1
      ensures DetectorState() == old(DetectorState())
    {
      effects := effects + [ReadMode];
      savedPresentationMode := readResult;
      effects := effects + [WriteMode(Blackout.AppMode)];
      effects := effects + [KillControlStrip];
      effects := effects + [SchedulePresent(Blackout.PresentDelay)];
      pendingPresentations := pendingPresentations + 1;
    }

    method Restore()
      modifies this
      ensures ControllerState() == old(ControllerState())
      ensures effects == old(effects) + Blackout.Restore(old(ControllerState())).effects
      ensures pendingPresentations == old(pendingPresentations)
      ensures DetectorState() == old(DetectorState())
    {
      effects := effects + [DismissOverlay];
      var mode := savedPresentationMode.GetOr(Blackout.DefaultMode);
      effects := effects + [WriteMode(mode)];
      effects := effects + [KillControlStrip];
    }

    /** The block BlackOut scheduled, when the main queue runs it. */
    method PresentScheduledOverlay()
      requires pendingPresentations > 0
      modifies this
      ensures pendingPresentations == old(pendingPresentations) - 1
      ensures ControllerState() == old(ControllerState())
      ensures effects == old(effects) + Blackout.PresentScheduled(old(ControllerState())).effects
      ensures DetectorState() == old(DetectorState())
    {
      effects := effects + [PresentOverlay];
      pendingPresentations := pendingPresentations - 1;
    }

    method Quit()
      modifies this
      ensures ControllerState() == old(ControllerState())
      ensures effects == old(effects) + Blackout.Quit(old(ControllerState())).effects
      ensures pendingPresentations == old(pendingPresentations)
      ensures DetectorState() == old(DetectorState())
    {
      if isBlacked {
        Restore();
      }
      effects := effects + [Terminate];
    }
  }

  /** Toggling on and straight back off, before the main queue runs the block
      BlackOut scheduled: the block is still pending while isBlacked is false,
      and when it runs the overlay is presented. */
  method ToggleBackBeforePresentation(app: AppDelegate, r1: Option<string>, r2: Option<string>)
    requires !app.isBlacked
    modifies app
    ensures !app.isBlacked
    ensures Blackout.OverlayShown(app.effects)
    ensures app.pendingPresentations == old(app.pendingPresentations)
  {
    app.Toggle(r1);
    app.Toggle(r2);
    assert !app.isBlacked && app.pendingPresentations == old(app.pendingPresentations) + 1;
    app.PresentScheduledOverlay();
  }
}
