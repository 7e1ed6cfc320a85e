/** The double-Command detector of AppDelegate.handleFlags: an edge-triggered
    state machine with a 0.4 s window, as a pure step function on the two
    fields it owns, and its behaviour over streams of modifier events. */
module DoubleCommand {

  /** Width of the double-press window, in seconds of system uptime. */
  const DoubleTapWindow: real := 0.4

  /** The modifier flags an NSEvent can carry. */
  datatype Modifier = CapsLock | Shift | Control | Option | Command | NumericPad | Help | Function

  /** A flagsChanged event together with the system uptime read while handling it. */
  datatype FlagsEvent = FlagsEvent(flags: set<Modifier>, now: real)

  /** The detector's fields `cmdWasDown` and `lastCmdPressTime`. */
  datatype Detector = Detector(cmdWasDown: bool, lastCmdPressTime: real)

  /** Both fields as AppDelegate initialises them. */
  const Initial := Detector(false, 0.0)

  predicate CmdDown(e: FlagsEvent) {
    Command in e.flags
  }

  /** Shift, Option or Control held; Caps Lock, Fn and the others do not count. */
  predicate HasOtherMods(e: FlagsEvent) {
    e.flags * {Shift, Option, Control} != {}
  }

  /** The intersection test is a test for any one of the three. */
  lemma HasOtherModsIff(e: FlagsEvent)
    ensures HasOtherMods(e) <==> Shift in e.flags || Option in e.flags || Control in e.flags
  {
    var other := e.flags * {Shift, Option, Control};
    if Shift in e.flags { assert Shift in other; }
    if Option in e.flags { assert Option in other; }
    if Control in e.flags { assert Control in other; }
    if other != {} {
      var m :| m in other;
    }
  }

  /** Command newly down with no other modifier held. */
  predicate IsQualifyingEdge(d: Detector, e: FlagsEvent) {
    CmdDown(e) && !d.cmdWasDown && !HasOtherMods(e)
  }

  /** What one call of handleFlags leaves behind, and whether it asked for a toggle. */
  datatype Step = Step(next: Detector, toggle: bool)

  function HandleFlags(d: Detector, e: FlagsEvent): (s: Step)
    ensures s.next.cmdWasDown == CmdDown(e)
    ensures s.toggle ==> IsQualifyingEdge(d, e) && s.next.lastCmdPressTime == 0.0
    ensures !IsQualifyingEdge(d, e) ==> !s.toggle && s.next.lastCmdPressTime == d.lastCmdPressTime
  {
    var last :=
      if !IsQualifyingEdge(d, e) then d.lastCmdPressTime
      else if e.now - d.lastCmdPressTime < DoubleTapWindow then 0.0
      else e.now;
    var toggle := IsQualifyingEdge(d, e) && e.now - d.lastCmdPressTime < DoubleTapWindow;
    Step(Detector(CmdDown(e), last), toggle)
  }

  /** `cmdWasDown` follows the event's Command flag whichever branch is taken. */
  lemma CmdWasDownFollowsEvent(d: Detector, e: FlagsEvent)
    ensures HandleFlags(d, e).next.cmdWasDown <==> Command in e.flags
  {
  }

  /** A toggle is requested exactly when Command is newly down, none of Shift,
      Option and Control is held, and the previous press is less than 0.4 s old. */
  lemma ToggleExactlyOnQuickSecondPress(d: Detector, e: FlagsEvent)
    ensures HandleFlags(d, e).toggle <==>
      Command in e.flags && !d.cmdWasDown &&
      Shift !in e.flags && Option !in e.flags && Control !in e.flags &&
      e.now - d.lastCmdPressTime < 0.4
  {
    HasOtherModsIff(e);
  }

  /** The window is strict: a press exactly 0.4 s after the armed one does not
      toggle and re-arms the window at its own time. */
  lemma WindowIsStrict(t: real, e: FlagsEvent)
    requires e.flags == {Command} && e.now == t + 0.4
    ensures !HandleFlags(Detector(false, t), e).toggle
    ensures HandleFlags(Detector(false, t), e).next.lastCmdPressTime == t + 0.4
  {
  }

  /** On a qualifying edge the timestamp is reset to 0 when a toggle is
      requested and set to the event's time otherwise. */
  lemma EdgeResetsOrArms(d: Detector, e: FlagsEvent)
    requires IsQualifyingEdge(d, e)
    ensures HandleFlags(d, e).toggle ==> HandleFlags(d, e).next.lastCmdPressTime == 0.0
    ensures !HandleFlags(d, e).toggle ==> HandleFlags(d, e).next.lastCmdPressTime == e.now
  {
  }

  /** Command held over, Command up or another modifier held: nothing is
      requested and the timestamp is untouched. */
  lemma NonQualifyingEventIsIgnored(d: Detector, e: FlagsEvent)
    requires d.cmdWasDown || Command !in e.flags || Shift in e.flags || Option in e.flags || Control in e.flags
    ensures !HandleFlags(d, e).toggle
    ensures HandleFlags(d, e).next.lastCmdPressTime == d.lastCmdPressTime
  {
    HasOtherModsIff(e);
  }

  /** Caps Lock and Fn do not block a press (only Shift, Option and Control do). */
  lemma CapsLockAndFnDoNotBlock(d: Detector, e: FlagsEvent)
    requires e.flags == {Command, CapsLock, Function} && !d.cmdWasDown
    ensures IsQualifyingEdge(d, e)
  {
    HasOtherModsIff(e);
  }

  /** The timestamp starts at 0, not at "no press yet": a first press while the
      system uptime is still under 0.4 s already requests a toggle. */
  lemma FirstPressAtLowUptimeToggles(t: real)
    requires 0.0 <= t < 0.4
    ensures HandleFlags(Initial, FlagsEvent({Command}, t)).toggle
  {
  }

  /** After a toggle the window starts afresh: the next press (at an uptime of
      at least 0.4 s) arms instead of toggling again. */
  lemma FreshWindowAfterToggle(d: Detector, e: FlagsEvent, e': FlagsEvent)
    requires HandleFlags(d, e).toggle
    requires e'.now >= DoubleTapWindow
    ensures !HandleFlags(HandleFlags(d, e).next, e').toggle
  {
  }

  /** The outcome of feeding a stream of events to handleFlags in order: the
      final fields, the number of qualifying edges and the number of toggles
      requested. */
  datatype Trace = Trace(final: Detector, edges: nat, toggles: nat)

  function Run(d: Detector, events: seq<FlagsEvent>): (t: Trace)
    ensures t.toggles <= t.edges <= |events|
    ensures events != [] ==> (t.final.cmdWasDown <==> Command in events[|events| - 1].flags)
    ensures events == [] ==> t.final == d
    decreases |events|
  {
    if events == [] then Trace(d, 0, 0)
    else
      var s := HandleFlags(d, events[0]);
      var rest := Run(s.next, events[1..]);
      Trace(rest.final,
            rest.edges + (if IsQualifyingEdge(d, events[0]) then 1 else 0),
            rest.toggles + (if s.toggle then 1 else 0))
  }

  /** Holding Command down continuously never produces a new edge: whatever
      else changes, no toggle is requested and the timestamp is kept. */
  lemma {:induction false} HeldCommandNeverToggles(d: Detector, events: seq<FlagsEvent>)
    requires d.cmdWasDown
    requires forall i :: 0 <= i < |events| ==> Command in events[i].flags
    ensures Run(d, events).toggles == 0 && Run(d, events).edges == 0
    ensures Run(d, events).final.lastCmdPressTime == d.lastCmdPressTime
    decreases |events|
  {
    if events != [] {
      HeldCommandNeverToggles(HandleFlags(d, events[0]).next, events[1..]);
    }
  }

  /** A window is armed when the timestamp holds a press time rather than 0. */
  function Armed(d: Detector): nat {
    if d.lastCmdPressTime != 0.0 then 1 else 0
  }

  lemma {:induction false} TogglesNeedTwoEdgesFrom(d: Detector, events: seq<FlagsEvent>)
    requires forall i :: 0 <= i < |events| ==> events[i].now >= DoubleTapWindow
    ensures 2 * Run(d, events).toggles + Armed(Run(d, events).final) <= Run(d, events).edges + Armed(d)
    decreases |events|
  {
    if events != [] {
      TogglesNeedTwoEdgesFrom(HandleFlags(d, events[0]).next, events[1..]);
    }
  }

  /** Once the uptime is past the window, every toggle request is paid for by
      two qualifying Command presses: from a cleared timestamp (the initial
      state, or right after a toggle) there are at least twice as many
      qualifying edges as toggles. */
  lemma TogglesNeedTwoEdges(d: Detector, events: seq<FlagsEvent>)
    requires d.lastCmdPressTime == 0.0
    requires forall i :: 0 <= i < |events| ==> events[i].now >= DoubleTapWindow
    ensures 2 * Run(d, events).toggles <= Run(d, events).edges
  {
    TogglesNeedTwoEdgesFrom(d, events);
  }

  /** Press, release, press again within the window: exactly one toggle, and
      the window is cleared for the next gesture. */
  lemma DoublePressTogglesOnce(d: Detector, t1: real, t2: real, t3: real)
    requires !d.cmdWasDown && t1 - d.lastCmdPressTime >= DoubleTapWindow
    requires t3 - t1 < DoubleTapWindow
    ensures var t := Run(d, [FlagsEvent({Command}, t1), FlagsEvent({}, t2), FlagsEvent({Command}, t3)]);
      t.toggles == 1 && t.edges == 2 && t.final == Detector(true, 0.0)
  {
    var events := [FlagsEvent({Command}, t1), FlagsEvent({}, t2), FlagsEvent({Command}, t3)];
    HasOtherModsIff(events[0]);
    HasOtherModsIff(events[1]);
    HasOtherModsIff(events[2]);
    var d1 := HandleFlags(d, events[0]).next;
    var d2 := HandleFlags(d1, events[1]).next;
    assert d1 == Detector(true, t1);
    assert d2 == Detector(false, t1);
    assert events[1..][1..] == [events[2]];
    var d3 := HandleFlags(d2, events[2]).next;
    assert d3 == Detector(true, 0.0) && HandleFlags(d2, events[2]).toggle;
    assert Run(d3, []) == Trace(d3, 0, 0);
    assert Run(d2, [events[2]]) == Trace(d3, 1, 1);
    assert Run(d1, events[1..]) == Trace(d3, 1, 1);
  }

  /** Feeding two streams one after the other is feeding their concatenation. */
  lemma {:induction false} RunAppend(d: Detector, a: seq<FlagsEvent>, b: seq<FlagsEvent>)
    ensures var ra := Run(d, a); var rb := Run(ra.final, b);
      Run(d, a + b) == Trace(rb.final, ra.edges + rb.edges, ra.toggles + rb.toggles)
    decreases |a|
  {
    if a != [] {
      assert (a + b)[0] == a[0];
      assert (a + b)[1..] == a[1..] + b;
      RunAppend(HandleFlags(d, a[0]).next, a[1..], b);
    } else {
      assert a + b == b;
    }
  }

  /** No event of the stream is a qualifying edge when it is handled. */
  predicate NoEdges(d: Detector, events: seq<FlagsEvent>)
    decreases |events|
  {
    events == [] ||
    (!IsQualifyingEdge(d, events[0]) && NoEdges(HandleFlags(d, events[0]).next, events[1..]))
  }

  /** Events that make no edge (a release, Shift or Caps Lock toggling, Command
      held) request nothing and leave the timestamp alone. */
  lemma {:induction false} NoEdgesKeepWindow(d: Detector, events: seq<FlagsEvent>)
    requires NoEdges(d, events)
    ensures Run(d, events).toggles == 0 && Run(d, events).edges == 0
    ensures Run(d, events).final.lastCmdPressTime == d.lastCmdPressTime
    decreases |events|
  {
    if events != [] {
      NoEdgesKeepWindow(HandleFlags(d, events[0]).next, events[1..]);
    }
  }

  /** A press, any events in between that make no edge and end with Command up,
      and a second press within the window: exactly one toggle, from two edges,
      and the window is cleared. */
  lemma DoublePressAcrossOtherEvents(d: Detector, e1: FlagsEvent, mid: seq<FlagsEvent>, e3: FlagsEvent)
    requires IsQualifyingEdge(d, e1) && e1.now - d.lastCmdPressTime >= DoubleTapWindow
    requires NoEdges(Detector(true, e1.now), mid)
    requires mid != [] && Command !in mid[|mid| - 1].flags
    requires Command in e3.flags && Shift !in e3.flags && Option !in e3.flags && Control !in e3.flags
    requires e3.now - e1.now < DoubleTapWindow
    ensures var t := Run(d, [e1] + mid + [e3]);
      t.toggles == 1 && t.edges == 2 && t.final == Detector(true, 0.0)
  {
    HasOtherModsIff(e3);
    var d1 := HandleFlags(d, e1).next;
    assert d1 == Detector(true, e1.now);
    assert Run(d, [e1]) == Trace(d1, 1, 0) by {
      assert [e1][1..] == [];
    }
    NoEdgesKeepWindow(d1, mid);
    var d2 := Run(d1, mid).final;
    assert d2 == Detector(false, e1.now);
    var d3 := HandleFlags(d2, e3).next;
    assert d3 == Detector(true, 0.0) && HandleFlags(d2, e3).toggle;
    assert Run(d2, [e3]) == Trace(d3, 1, 1) by {
      assert [e3][1..] == [];
    }
    RunAppend(d, [e1], mid);
    RunAppend(d, [e1] + mid, [e3]);
  }

  /** Likewise, a second press 0.4 s or more after the first only re-arms the
      window at its own time. */
  lemma SlowPressAcrossOtherEvents(d: Detector, e1: FlagsEvent, mid: seq<FlagsEvent>, e3: FlagsEvent)
    requires IsQualifyingEdge(d, e1) && e1.now - d.lastCmdPressTime >= DoubleTapWindow
    requires NoEdges(Detector(true, e1.now), mid)
    requires mid != [] && Command !in mid[|mid| - 1].flags
    requires Command in e3.flags && Shift !in e3.flags && Option !in e3.flags && Control !in e3.flags
    requires e3.now - e1.now >= DoubleTapWindow
    ensures var t := Run(d, [e1] + mid + [e3]);
      t.toggles == 0 && t.edges == 2 && t.final == Detector(true, e3.now)
  {
    HasOtherModsIff(e3);
    var d1 := HandleFlags(d, e1).next;
    assert d1 == Detector(true, e1.now);
    assert Run(d, [e1]) == Trace(d1, 1, 0) by {
      assert [e1][1..] == [];
    }
    NoEdgesKeepWindow(d1, mid);
    var d2 := Run(d1, mid).final;
    assert d2 == Detector(false, e1.now);
    var d3 := HandleFlags(d2, e3).next;
    assert d3 == Detector(true, e3.now) && !HandleFlags(d2, e3).toggle;
    assert Run(d2, [e3]) == Trace(d3, 1, 0) by {
      assert [e3][1..] == [];
    }
    RunAppend(d, [e1], mid);
    RunAppend(d, [e1] + mid, [e3]);
  }

  /** A press outside the window only re-arms it, at its own time. */
  lemma SlowSecondPressRearms(d: Detector, t1: real, t2: real, t3: real)
    requires !d.cmdWasDown && t1 - d.lastCmdPressTime >= DoubleTapWindow
    requires t3 - t1 >= DoubleTapWindow
    ensures var t := Run(d, [FlagsEvent({Command}, t1), FlagsEvent({}, t2), FlagsEvent({Command}, t3)]);
      t.toggles == 0 && t.edges == 2 && t.final == Detector(true, t3)
  {
    var events := [FlagsEvent({Command}, t1), FlagsEvent({}, t2), FlagsEvent({Command}, t3)];
    HasOtherModsIff(events[0]);
    HasOtherModsIff(events[1]);
    HasOtherModsIff(events[2]);
    var d1 := HandleFlags(d, events[0]).next;
    var d2 := HandleFlags(d1, events[1]).next;
    assert d1 == Detector(true, t1);
    assert d2 == Detector(false, t1);
    assert events[1..][1..] == [events[2]];
    var d3 := HandleFlags(d2, events[2]).next;
    assert d3 == Detector(true, t3) && !HandleFlags(d2, events[2]).toggle;
    assert Run(d3, []) == Trace(d3, 0, 0);
    assert Run(d2, [events[2]]) == Trace(d3, 1, 0);
    assert Run(d1, events[1..]) == Trace(d3, 1, 0);
  }

  /** Shift held during the press suppresses it and leaves the window alone. */
  lemma ShiftSuppressesPress(d: Detector, e: FlagsEvent)
    requires e.flags == {Command, Shift}
    ensures var s := HandleFlags(d, e);
      !s.toggle && s.next == Detector(true, d.lastCmdPressTime)
  {
    HasOtherModsIff(e);
  }
}
