/** The blackout controller of AppDelegate (toggle, blackOut, restore, quit)
    as pure functions from the two fields it owns, plus the value the
    preference read returns, to the new fields and the effects performed. */
module Blackout {
  import opened Effects

  /** The PresentationModeGlobal value that hides the control strip. */
  const AppMode := "app"

  /** What restore writes when no mode was saved. */
  const DefaultMode := "functionKeys"

  /** Seconds between restarting ControlStrip and presenting the overlay. */
  const PresentDelay: real := 0.5

  /** The fields `isBlacked` and `savedPresentationMode`. */
  datatype Controller = Controller(isBlacked: bool, savedPresentationMode: Option<string>)

  /** Both fields as AppDelegate initialises them. */
  const Initial := Controller(false, None)

  /** The fields after an operation, and the effects it performed in order. */
  datatype Outcome = Outcome(next: Controller, effects: seq<Effect>)

  /** `readResult` is what readDefault("PresentationModeGlobal") returns. */
  function BlackOut(c: Controller, readResult: Option<string>): (o: Outcome)
    ensures o.next == Controller(c.isBlacked, readResult)
    ensures o.effects != [] && o.effects[0] == ReadMode && LastWrittenMode(o.effects) == Some(AppMode)
    ensures o.effects[|o.effects| - 1] == SchedulePresent(PresentDelay)
  {
    var effects := [ReadMode, WriteMode(AppMode), KillControlStrip, SchedulePresent(PresentDelay)];
    LastWrittenModeIsLastWrite(effects, 1);
    Outcome(c.(savedPresentationMode := readResult), effects)
  }

  function Restore(c: Controller): (o: Outcome)
    ensures o.next == c
    ensures o.effects != [] && o.effects[0] == DismissOverlay
    ensures LastWrittenMode(o.effects) == Some(c.savedPresentationMode.GetOr(DefaultMode))
    ensures o.effects[|o.effects| - 1] == KillControlStrip
  {
    var effects := [DismissOverlay, WriteMode(c.savedPresentationMode.GetOr(DefaultMode)), KillControlStrip];
    LastWrittenModeIsLastWrite(effects, 1);
    Outcome(c, effects)
  }

  /** `readResult` is used only when the toggle blacks out. */
  function Toggle(c: Controller, readResult: Option<string>): (o: Outcome)
    ensures o.next.isBlacked == !c.isBlacked
    ensures o.next.savedPresentationMode == if o.next.isBlacked then readResult else c.savedPresentationMode
    ensures LastWrittenMode(o.effects) ==
      Some(if o.next.isBlacked then AppMode else o.next.savedPresentationMode.GetOr(DefaultMode))
  {
    var flipped := c.(isBlacked := !c.isBlacked);
    if flipped.isBlacked then BlackOut(flipped, readResult) else Restore(flipped)
  }

  /** The block blackOut hands to the main queue, when the queue runs it. It
      does not look at isBlacked. */
  function PresentScheduled(c: Controller): (o: Outcome)
    ensures o.next == c
    ensures OverlayShown(o.effects) && LastWrittenMode(o.effects) == None
  {
    Outcome(c, [PresentOverlay])
  }

  function Quit(c: Controller): (o: Outcome)
    ensures o.next == c
    ensures o.effects != [] && o.effects[|o.effects| - 1] == Terminate
    ensures c.isBlacked ==> LastWrittenMode(o.effects) == Some(c.savedPresentationMode.GetOr(DefaultMode))
    ensures !c.isBlacked ==> LastWrittenMode(o.effects) == None
  {
    var r := if c.isBlacked then Restore(c) else Outcome(c, []);
    var effects := r.effects + [Terminate];
    if c.isBlacked then
      LastWrittenModeIsLastWrite(effects, 1);
      Outcome(r.next, effects)
    else
      Outcome(r.next, effects)
  }

  /** blackOut stores the value read, writes "app", kills ControlStrip and only
      then schedules the presentation; isBlacked is left as it was. */
  lemma BlackOutSavesThenSchedules(c: Controller, readResult: Option<string>)
    ensures BlackOut(c, readResult).next == Controller(c.isBlacked, readResult)
    ensures BlackOut(c, readResult).effects ==
      [ReadMode, WriteMode("app"), KillControlStrip, SchedulePresent(0.5)]
  {
  }

  /** restore dismisses the overlay, writes the saved mode (or "functionKeys"
      when none was saved) and kills ControlStrip; it changes neither field and
      cancels nothing. */
  lemma RestoreWritesSavedMode(c: Controller)
    ensures Restore(c).next == c
    ensures Restore(c).effects ==
      [DismissOverlay,
       WriteMode(if c.savedPresentationMode.Some? then c.savedPresentationMode.value else "functionKeys"),
       KillControlStrip]
  {
  }

  /** toggle flips isBlacked and runs blackOut exactly when the new value is
      true, restore otherwise. */
  lemma ToggleFlips(c: Controller, readResult: Option<string>)
    ensures Toggle(c, readResult).next.isBlacked == !c.isBlacked
    ensures !c.isBlacked ==> Toggle(c, readResult) == BlackOut(c.(isBlacked := true), readResult)
    ensures c.isBlacked ==> Toggle(c, readResult) == Restore(c.(isBlacked := false))
  {
  }

  /** Two toggles from the normal state bring isBlacked back and write back the
      mode that was read on the way in ("functionKeys" if the read gave nothing);
      the saved mode is kept, not cleared. */
  lemma ToggleTwiceRoundTrip(c: Controller, r1: Option<string>, r2: Option<string>)
    requires !c.isBlacked
    ensures var o1 := Toggle(c, r1); var o2 := Toggle(o1.next, r2);
      o2.next == Controller(false, r1) &&
      WriteMode(r1.GetOr("functionKeys")) in o2.effects &&
      o1.effects + o2.effects ==
        [ReadMode, WriteMode("app"), KillControlStrip, SchedulePresent(0.5),
         DismissOverlay, WriteMode(r1.GetOr("functionKeys")), KillControlStrip]
  {
  }

  /** quit restores only when blacked out, then terminates; it does not touch
      either field. */
  lemma QuitRestoresOnlyWhenBlacked(c: Controller)
    ensures Quit(c).next == c
    ensures c.isBlacked ==> Quit(c).effects == Restore(c).effects + [Terminate]
    ensures !c.isBlacked ==> Quit(c).effects == [Terminate]
  {
  }

  /** The controller after calling toggle once per entry of `results`, each entry
      being what the preference read would return during that call, and every
      effect in order. */
  function Toggles(c: Controller, results: seq<Option<string>>): Outcome
    decreases |results|
  {
    if results == [] then Outcome(c, [])
    else
      var prev := Toggles(c, results[..|results| - 1]);
      var t := Toggle(prev.next, results[|results| - 1]);
      Outcome(t.next, prev.effects + t.effects)
  }

  /** An even number of toggles returns isBlacked to where it started. */
  lemma {:induction false} TogglesParity(c: Controller, results: seq<Option<string>>)
    ensures Toggles(c, results).next.isBlacked == (c.isBlacked != (|results| % 2 == 1))
    decreases |results|
  {
    if results != [] {
      TogglesParity(c, results[..|results| - 1]);
    }
  }

  /** The value the PresentationModeGlobal preference was last written to,
      according to an effect log. */
  function LastWrittenMode(log: seq<Effect>): Option<string>
    decreases |log|
  {
    if log == [] then None
    else if log[|log| - 1].WriteMode? then Some(log[|log| - 1].mode)
    else LastWrittenMode(log[..|log| - 1])
  }

  /** The last write in the log is the one no later entry overrides. */
  lemma {:induction false} LastWrittenModeIsLastWrite(log: seq<Effect>, i: nat)
    requires i < |log| && log[i].WriteMode?
    requires forall j :: i < j < |log| ==> !log[j].WriteMode?
    ensures LastWrittenMode(log) == Some(log[i].mode)
    decreases |log|
  {
    if i < |log| - 1 {
      var log' := log[..|log| - 1];
      assert forall j :: i < j < |log'| ==> log'[j] == log[j];
      LastWrittenModeIsLastWrite(log', i);
    }
  }

  lemma {:induction false} LastWrittenModeOfSuffix(a: seq<Effect>, b: seq<Effect>)
    requires LastWrittenMode(b).Some?
    ensures LastWrittenMode(a + b) == LastWrittenMode(b)
    decreases |b|
  {
    assert b != [];
    var b' := b[..|b| - 1];
    assert (a + b)[..|a + b| - 1] == a + b';
    if !b[|b| - 1].WriteMode? {
      LastWrittenModeOfSuffix(a, b');
    }
  }

  /** After any non-empty series of toggles, the preference holds "app" while
      blacked out and the saved mode (or "functionKeys") otherwise. */
  lemma PreferenceTracksState(c: Controller, results: seq<Option<string>>)
    requires results != []
    ensures var o := Toggles(c, results);
      LastWrittenMode(o.effects) ==
        Some(if o.next.isBlacked then "app" else o.next.savedPresentationMode.GetOr("functionKeys"))
  {
    var prev := Toggles(c, results[..|results| - 1]);
    var t := Toggle(prev.next, results[|results| - 1]);
    LastWrittenModeIsLastWrite(t.effects, 1);
    LastWrittenModeOfSuffix(prev.effects, t.effects);
  }

  /** Quitting after any non-empty series of toggles leaves the preference at
      the saved mode (or "functionKeys") when the last toggle blacked out; the
      system is not left in "app" mode by the blackout. */
  lemma QuitLeavesPreferenceRestored(c: Controller, results: seq<Option<string>>)
    requires results != []
    ensures var o := Toggles(c, results); var q := Quit(o.next);
      LastWrittenMode(o.effects + q.effects) == Some(o.next.savedPresentationMode.GetOr("functionKeys"))
  {
    var o := Toggles(c, results);
    var q := Quit(o.next);
    PreferenceTracksState(c, results);
    if o.next.isBlacked {
      LastWrittenModeIsLastWrite(q.effects, 1);
      LastWrittenModeOfSuffix(o.effects, q.effects);
    } else {
      assert o.effects + q.effects == o.effects + [Terminate];
      assert (o.effects + [Terminate])[..|o.effects|] == o.effects;
    }
  }

  /** Whether the overlay is up according to an effect log: its last present or
      dismiss entry is a present. */
  function OverlayShown(log: seq<Effect>): bool
    decreases |log|
  {
    if log == [] then false
    else if log[|log| - 1] == PresentOverlay then true
    else if log[|log| - 1] == DismissOverlay then false
    else OverlayShown(log[..|log| - 1])
  }

  /** restore does not cancel the presentation blackOut scheduled: toggling on
      and off within the 0.5 s delay still ends with the overlay presented while
      isBlacked is false. */
  lemma QuickToggleBackStillPresents(c: Controller, r1: Option<string>, r2: Option<string>)
    requires !c.isBlacked
    ensures var o1 := Toggle(c, r1); var o2 := Toggle(o1.next, r2); var p := PresentScheduled(o2.next);
      SchedulePresent(0.5) in o1.effects &&
      !p.next.isBlacked && OverlayShown(o1.effects + o2.effects + p.effects)
  {
  }
}
