/** The button gesture that erases a device: arm, tap, hold, let go. */
module FactoryResetGesture {
  import opened Bytes
  import opened GestureMachine

  /** One update: when it was, the button as read and as debounced, and the event reported. */
  datatype Moment = Moment(time: nat, raw: bool, pressed: bool, event: Event)

  /** The events since the gesture was last armed. */
  function Script(trace: seq<Moment>): seq<Event> {
    if trace == [] then []
    else
      var front, last := trace[..|trace| - 1], trace[|trace| - 1].event;
      if last == Nothing then Script(front) else if last == Armed then [Armed] else Script(front) + [last]
  }

  function Taps(n: nat): (r: seq<Event>)
    ensures |r| == n
  {
    seq(n, _ => TapAccepted)
  }

  /** How many taps a count of `tapCount` asks for: the counter has eight bits, so zero is met after 256. */
  function Needed(tapCount: nat): nat { if tapCount == 0 then 256 else tapCount }

  /** From `from` to `to` the debounced button stays pressed and nothing is reported in between. */
  predicate HeldDown(trace: seq<Moment>, from: nat, to: nat)
    requires to < |trace|
  {
    && (forall i :: from <= i <= to ==> trace[i].pressed)
    && (forall i :: from < i < to ==> trace[i].event == Nothing)
  }

  /** The trace ends in a confirmation that the whole gesture led up to. */
  ghost predicate Earned(trace: seq<Moment>, profile: Profile, tapCount: nat, holdMs: nat, releaseConfirm: bool) {
    && |trace| > 0
    && Script(trace) == [Armed] + Taps(if profile == Hold then 0 else Needed(tapCount)) + [HoldStarted]
                        + (if releaseConfirm then [ReleaseRequested] else []) + [Confirmed]
    && exists h: nat, r: nat ::
         && h < r < |trace| && trace[h].event == HoldStarted && HeldDown(trace, h, r)
         && trace[r].time - trace[h].time >= holdMs
         && (if releaseConfirm then
               && r < |trace| - 1 && trace[r].event == ReleaseRequested && !trace[|trace| - 1].pressed
               && forall i :: r < i < |trace| - 1 ==> trace[i].event == Nothing
             else r == |trace| - 1)
  }

  /** The last reading of the button has been the same for `ms`. */
  ghost predicate Steady(trace: seq<Moment>, raw: bool, time: nat, ms: nat) {
    exists j: nat :: j < |trace| && time - trace[j].time >= ms && forall i :: j <= i < |trace| ==> trace[i].raw == raw
  }

  /** 32-bit differences never overstate the time that has passed. */
  lemma Elapsed(start: nat, now: nat, ms: nat)
    requires start <= now && (now % TWO_32 - start % TWO_32) % TWO_32 >= ms
    ensures now - start >= ms
  {
    var d := now - start;
    assert (now % TWO_32 - start % TWO_32) % TWO_32 == d % TWO_32;
  }

  lemma ScriptMore(trace: seq<Moment>, m: Moment)
    ensures Script(trace + [m]) ==
            if m.event == Nothing then Script(trace) else if m.event == Armed then [Armed] else Script(trace) + [m.event]
  {
    assert (trace + [m])[..|trace|] == trace;
  }

  class Gesture {
    var state: State
    var taps: nat
    var rawPressed: bool
    var stablePressed: bool
    var holdMs: nat
    var profile: Profile
    var tapCount: nat
    var windowMs: nat
    var debounceMs: nat
    var releaseConfirm: bool
    var windowStartedMs: nat
    var stateStartedMs: nat
    var rawChangedMs: nat
    var releasedSinceMs: nat

    ghost var trace: seq<Moment>  // every update since the gesture was configured
    ghost var rawAt: nat          // when the reading last changed
    ghost var holdAt: nat         // when the hold started
    ghost var releaseAt: nat      // when the release was asked for

    /** The settings and the state as the functions of the machine take them. */
    function Setup(): Settings
      reads this
    {
      Settings(holdMs, profile, tapCount, windowMs, debounceMs, releaseConfirm)
    }

    function Now(): Core
      reads this
    {
      Core(state, taps, rawPressed, stablePressed, windowStartedMs, stateStartedMs, rawChangedMs, releasedSinceMs)
    }

    ghost function Quota(): nat
      reads this
    {
      if profile == Hold then 0 else Needed(tapCount)
    }

    /** Where the hold in progress began. */
    ghost predicate HoldingSince(t: seq<Moment>)
      reads this
    {
      && holdAt < |t| && t[holdAt].event == HoldStarted
      && stateStartedMs == t[holdAt].time % TWO_32
      && HeldDown(t, holdAt, |t| - 1) && (holdAt < |t| - 1 ==> t[|t| - 1].event == Nothing)
    }

    /** The hold was long enough and the release has been asked for. */
    ghost predicate ReleasePending(t: seq<Moment>)
      reads this
    {
      && holdAt < releaseAt < |t| && t[holdAt].event == HoldStarted && HeldDown(t, holdAt, releaseAt)
      && t[releaseAt].event == ReleaseRequested && t[releaseAt].time - t[holdAt].time >= holdMs
      && forall i :: releaseAt < i < |t| ==> t[i].event == Nothing
    }

    /** How far the gesture has come after the updates `t`. */
    ghost predicate Progress(t: seq<Moment>)
      reads this
    {
      match state
      case AwaitRelease => true
      case AwaitTapPress => Tapping(t)
      case AwaitTapRelease => Tapping(t)
      case AwaitHold => Script(t) == [Armed] + Taps(Quota())
      case Holding => Script(t) == [Armed] + Taps(Quota()) + [HoldStarted] && HoldingSince(t)
      case AwaitConfirmRelease =>
        releaseConfirm && Script(t) == [Armed] + Taps(Quota()) + [HoldStarted] + [ReleaseRequested] && ReleasePending(t)
      case Disabled => true
    }

    ghost predicate Tapping(t: seq<Moment>)
      reads this
    {
      profile == TapThenHold && taps < Needed(tapCount) && taps < 256 && Script(t) == [Armed] + Taps(taps)
    }

    ghost predicate Timeline(t: seq<Moment>)
      reads this
    {
      forall i, j :: 0 <= i < j < |t| ==> t[i].time <= t[j].time
    }

    /** What the debouncing knows of the readings. */
    ghost predicate Readings(t: seq<Moment>)
      reads this
    {
      rawPressed != stablePressed ==>
        && rawAt < |t| && rawChangedMs == t[rawAt].time % TWO_32
        && forall i :: rawAt <= i < |t| ==> t[i].raw == rawPressed
    }

    /** Every confirmation so far was earned, and nothing is reported after it. */
    ghost predicate Safe(t: seq<Moment>)
      reads this
    {
      && (forall k :: 0 <= k < |t| && t[k].event == Confirmed ==>
            state == Disabled && Earned(t[..k + 1], profile, tapCount, holdMs, releaseConfirm))
      && (forall i, k :: 0 <= i < k < |t| && t[i].event == Confirmed ==> t[k].event == Nothing)
    }

    ghost predicate Valid()
      reads this
    {
      tapCount < 256 && Timeline(trace) && (state != Disabled ==> Readings(trace)) && Progress(trace) && Safe(trace)
    }

    /** Before it is configured the gesture is disabled. */
    constructor ()
      ensures Valid() && Setup() == Settings(10000, TapThenHold, 3, 60000, 50, true)
      ensures Now() == FRESH.(state := Disabled) && trace == []
    {
      holdMs, profile, tapCount, windowMs, debounceMs, releaseConfirm := 10000, TapThenHold, 3, 60000, 50, true;
      state, taps := Disabled, 0;
      windowStartedMs, stateStartedMs, rawChangedMs, releasedSinceMs := 0, 0, 0, 0;
      rawPressed, stablePressed := false, false;
      trace, rawAt, holdAt, releaseAt := [], 0, 0, 0;
    }

    method Configure(holdMs: nat, profile: Profile, tapCount: nat, windowMs: nat, debounceMs: nat, releaseConfirm: bool)
      requires tapCount < 256
      modifies this
      ensures Valid() && Now() == FRESH && trace == []
      ensures this.holdMs == holdMs && this.profile == profile && this.tapCount == tapCount
      ensures this.windowMs == windowMs && this.debounceMs == debounceMs && this.releaseConfirm == releaseConfirm
    {
      this.holdMs, this.profile, this.tapCount := holdMs, profile, tapCount;
      this.windowMs, this.debounceMs, this.releaseConfirm := windowMs, debounceMs, releaseConfirm;
      windowStartedMs, stateStartedMs, rawChangedMs, releasedSinceMs := 0, 0, 0, 0;
      Begin();
    }

    method Begin()
      requires tapCount < 256
      modifies this`state, this`taps, this`rawPressed, this`stablePressed, this`trace
      ensures Valid() && trace == []
      ensures Now() == old(Now()).(state := AwaitRelease, taps := 0, raw := false, stable := false)
    {
      hide Script, Earned, HeldDown;
      state, taps := AwaitRelease, 0;
      rawPressed, stablePressed := false, false;
      trace := [];
    }

    method Restart(now: nat)
      modifies this`state, this`releasedSinceMs, this`taps
      ensures Now() == Over(old(Now()), now)
    {
      state := AwaitRelease;
      releasedSinceMs := now;
      taps := 0;
    }

    /** Takes up the reading; the debounced button follows once it has been steady long enough. */
    method Debounce(pressed: bool, time: nat)
      requires Readings(trace) && (trace != [] ==> trace[|trace| - 1].time <= time) && Timeline(trace)
      modifies this`rawPressed, this`rawChangedMs, this`stablePressed, this`rawAt
      ensures Now() == Debounced(Setup(), old(Now()), pressed, time % TWO_32)
      ensures forall e :: Readings(trace + [Moment(time, pressed, stablePressed, e)])
      ensures forall e :: stablePressed != old(stablePressed) ==>
                stablePressed == pressed && Steady(trace + [Moment(time, pressed, stablePressed, e)], pressed, time, debounceMs)
    {
      var now := time % TWO_32;
      if pressed != rawPressed {
        rawPressed := pressed;
        rawChangedMs := now;
        rawAt := |trace|;
      }
      if rawPressed != stablePressed && Since(now, rawChangedMs) >= debounceMs {
        ghost var start := if rawAt == |trace| then time else trace[rawAt].time;
        Elapsed(start, time, debounceMs);
        stablePressed := rawPressed;
        forall e
          ensures Steady(trace + [Moment(time, pressed, stablePressed, e)], pressed, time, debounceMs)
        {
          var t := trace + [Moment(time, pressed, stablePressed, e)];
          assert t[rawAt].time == start;
        }
      }
    }

    /** Waiting for the button to be up for half a second. */
    method WhileAwaitRelease(time: nat, raw: bool) returns (event: Event)
      requires state == AwaitRelease && tapCount < 256
      modifies this`state, this`taps, this`releasedSinceMs, this`stateStartedMs
      ensures (Now(), event) == Acted(Setup(), old(Now()), time % TWO_32)
      ensures state != Disabled && (event == Nothing || event == Armed)
      ensures event == Armed <==> !stablePressed && Since(time % TWO_32, Began(time % TWO_32, old(releasedSinceMs))) >= 500
      ensures event != Armed ==> state == AwaitRelease
      ensures Progress(trace + [Moment(time, raw, stablePressed, event)])
    {
      var now := time % TWO_32;
      event := Nothing;
      if stablePressed {
        releasedSinceMs := 0;
      } else {
        if releasedSinceMs == 0 {
          releasedSinceMs := if now != 0 then now else 1;
        }
        if Since(now, releasedSinceMs) >= 500 {
          state := if profile == Hold then AwaitHold else AwaitTapPress;
          stateStartedMs := now;
          taps := 0;
          event := Armed;
        }
      }
      ScriptMore(trace, Moment(time, raw, stablePressed, event));
    }

    method WhileAwaitTapPress(time: nat, raw: bool) returns (event: Event)
      requires state == AwaitTapPress && Progress(trace)
      modifies this`state, this`taps, this`releasedSinceMs, this`stateStartedMs
      ensures (Now(), event) == Acted(Setup(), old(Now()), time % TWO_32)
      ensures event == Nothing
      ensures state == if stablePressed then AwaitTapRelease
                       else if old(taps) != 0 && Since(time % TWO_32, old(stateStartedMs)) > 2000 then AwaitRelease
                       else AwaitTapPress
      ensures Progress(trace + [Moment(time, raw, stablePressed, event)])
    {
      var now := time % TWO_32;
      event := Nothing;
      if stablePressed {
        state := AwaitTapRelease;
        stateStartedMs := now;
      } else if taps != 0 && Since(now, stateStartedMs) > 2000 {
        Restart(now);
      }
      ScriptMore(trace, Moment(time, raw, stablePressed, event));
    }

    /** A press of at most two seconds is a tap; a longer one starts over. */
    method WhileAwaitTapRelease(time: nat, raw: bool) returns (event: Event)
      requires state == AwaitTapRelease && tapCount < 256 && Progress(trace)
      modifies this`state, this`taps, this`releasedSinceMs, this`stateStartedMs
      ensures (Now(), event) == Acted(Setup(), old(Now()), time % TWO_32)
      ensures state != Disabled && (event == Nothing || event == TapAccepted)
      ensures event == TapAccepted <==> !stablePressed && Since(time % TWO_32, old(stateStartedMs)) <= 2000
      ensures state == AwaitRelease <==> Since(time % TWO_32, old(stateStartedMs)) > 2000
      ensures Progress(trace + [Moment(time, raw, stablePressed, event)])
    {
      hide Script;
      var now := time % TWO_32;
      event := Nothing;
      if !stablePressed && Since(now, stateStartedMs) <= 2000 {
        event := CountTap(time, raw);
        return;
      }
      if Since(now, stateStartedMs) > 2000 {
        Restart(if stablePressed then 0 else now);
      }
      ScriptMore(trace, Moment(time, raw, stablePressed, event));
    }

    /** The tap counter has eight bits; it meets a count of zero after 256 taps. */
    method CountTap(time: nat, raw: bool) returns (event: Event)
      requires state == AwaitTapRelease && tapCount < 256 && Progress(trace)
      modifies this`state, this`taps, this`stateStartedMs
      ensures !old(stablePressed) && Since(time % TWO_32, old(stateStartedMs)) <= 2000 ==>
                (Now(), event) == Acted(Setup(), old(Now()), time % TWO_32)
      ensures (state == AwaitHold || state == AwaitTapPress) && event == TapAccepted
      ensures Progress(trace + [Moment(time, raw, stablePressed, event)])
    {
      hide Script;
      ghost var count := taps + 1;
      assert [Armed] + Taps(count - 1) + [TapAccepted] == [Armed] + Taps(count);
      ScriptMore(trace, Moment(time, raw, stablePressed, TapAccepted));
      taps := (taps + 1) % 256;
      state := if taps == tapCount then AwaitHold else AwaitTapPress;
      stateStartedMs := time % TWO_32;
      event := TapAccepted;
    }

    method WhileAwaitHold(time: nat, raw: bool) returns (event: Event)
      requires state == AwaitHold && Progress(trace)
      modifies this`state, this`taps, this`releasedSinceMs, this`stateStartedMs, this`holdAt
      ensures (Now(), event) == Acted(Setup(), old(Now()), time % TWO_32)
      ensures event == if stablePressed then HoldStarted else Nothing
      ensures state == if stablePressed then Holding
                       else if Since(time % TWO_32, old(stateStartedMs)) > 3000 then AwaitRelease else AwaitHold
      ensures Progress(trace + [Moment(time, raw, stablePressed, event)])
    {
      var now := time % TWO_32;
      event := Nothing;
      if stablePressed {
        state := Holding;
        stateStartedMs := now;
        holdAt := |trace|;
        event := HoldStarted;
      } else if Since(now, stateStartedMs) > 3000 {
        Restart(now);
      }
      ScriptMore(trace, Moment(time, raw, stablePressed, event));
    }

    /** The debounced button is down: letting go too early starts over. */
    method WhileHolding(time: nat, raw: bool) returns (event: Event)
      requires state == Holding && Progress(trace) && Timeline(trace) && trace[|trace| - 1].time <= time
      modifies this`state, this`taps, this`releasedSinceMs, this`stateStartedMs, this`releaseAt
      ensures (Now(), event) == Acted(Setup(), old(Now()), time % TWO_32)
      ensures event == if !(stablePressed && Since(time % TWO_32, old(stateStartedMs)) >= holdMs) then Nothing
                       else if releaseConfirm then ReleaseRequested else Confirmed
      ensures state == if !stablePressed then AwaitRelease else if event == Nothing then Holding
                       else if releaseConfirm then AwaitConfirmRelease else Disabled
      ensures Progress(trace + [Moment(time, raw, stablePressed, event)])
      ensures event == Confirmed ==>
                Earned(trace + [Moment(time, raw, stablePressed, event)], profile, tapCount, holdMs, releaseConfirm)
    {
      hide Script, Earned;
      var now := time % TWO_32;
      event := Nothing;
      if stablePressed && Since(now, stateStartedMs) >= holdMs {
        Elapsed(trace[holdAt].time, time, holdMs);
        event := HeldLongEnough(time, raw);
        return;
      }
      if !stablePressed {
        Restart(now);
      }
      ScriptMore(trace, Moment(time, raw, stablePressed, event));
    }

    /** A hold of the full length asks for the release, or confirms at once. */
    method HeldLongEnough(time: nat, raw: bool) returns (event: Event)
      requires state == Holding && Progress(trace) && stablePressed && time - trace[holdAt].time >= holdMs
      modifies this`state, this`stateStartedMs, this`releaseAt
      ensures Since(time % TWO_32, old(stateStartedMs)) >= holdMs ==>
                (Now(), event) == Acted(Setup(), old(Now()), time % TWO_32)
      ensures if releaseConfirm then event == ReleaseRequested && state == AwaitConfirmRelease
              else event == Confirmed && state == Disabled
      ensures Progress(trace + [Moment(time, raw, stablePressed, event)])
      ensures event == Confirmed ==>
                Earned(trace + [Moment(time, raw, stablePressed, event)], profile, tapCount, holdMs, releaseConfirm)
    {
      hide Script, Earned;
      ghost var m := Moment(time, raw, stablePressed, if releaseConfirm then ReleaseRequested else Confirmed);
      ScriptMore(trace, m);
      if !releaseConfirm {
        HoldConfirmed(trace, m);
        state := Disabled;
        return Confirmed;
      }
      state := AwaitConfirmRelease;
      stateStartedMs := time % TWO_32;
      releaseAt := |trace|;
      event := ReleaseRequested;
    }

    lemma HoldConfirmed(t: seq<Moment>, m: Moment)
      requires !releaseConfirm && m.event == Confirmed && m.pressed && HoldingSince(t)
      requires Script(t) == [Armed] + Taps(Quota()) + [HoldStarted] && Script(t + [m]) == Script(t) + [Confirmed]
      requires m.time - t[holdAt].time >= holdMs
      ensures Earned(t + [m], profile, tapCount, holdMs, releaseConfirm)
    {
      hide Script;
      var u := t + [m];
      assert u[|t|] == m && u[holdAt] == t[holdAt];
      assert HeldDown(u, holdAt, |t|);
    }

    /** The button is to be let go within five seconds. */
    method WhileAwaitConfirmRelease(time: nat, raw: bool) returns (event: Event)
      requires state == AwaitConfirmRelease && Progress(trace)
      modifies this`state
      ensures (Now(), event) == Acted(Setup(), old(Now()), time % TWO_32)
      ensures event == if !stablePressed then Confirmed
                       else if Since(time % TWO_32, stateStartedMs) > 5000 then ConfirmationExpired else Nothing
      ensures state == Disabled <==> event != Nothing
      ensures Progress(trace + [Moment(time, raw, stablePressed, event)])
      ensures event == Confirmed ==>
                Earned(trace + [Moment(time, raw, stablePressed, event)], profile, tapCount, holdMs, releaseConfirm)
    {
      hide Script, Earned;
      var now := time % TWO_32;
      event := Nothing;
      if !stablePressed {
        ReleaseConfirmed(trace, Moment(time, raw, stablePressed, Confirmed));
        state := Disabled;
        event := Confirmed;
      } else if Since(now, stateStartedMs) > 5000 {
        state := Disabled;
        event := ConfirmationExpired;
      }
      ScriptMore(trace, Moment(time, raw, stablePressed, event));
    }

    lemma ReleaseConfirmed(t: seq<Moment>, m: Moment)
      requires releaseConfirm && m.event == Confirmed && !m.pressed && ReleasePending(t)
      requires Script(t) == [Armed] + Taps(Quota()) + [HoldStarted] + [ReleaseRequested]
      ensures Earned(t + [m], profile, tapCount, holdMs, releaseConfirm)
    {
      ScriptMore(t, m);
      hide Script;
      var u := t + [m];
      assert u[|t|] == m && u[holdAt] == t[holdAt] && u[releaseAt] == t[releaseAt];
      assert HeldDown(u, holdAt, releaseAt);
    }

    /** One step of the state machine, after the button was debounced. */
    method Advance(time: nat, raw: bool) returns (event: Event)
      requires state != Disabled && tapCount < 256 && Progress(trace) && Timeline(trace)
      requires trace != [] ==> trace[|trace| - 1].time <= time
      modifies this`state, this`taps, this`releasedSinceMs, this`stateStartedMs, this`holdAt, this`releaseAt
      ensures (Now(), event) == Acted(Setup(), old(Now()), time % TWO_32)
      ensures event != WindowClosed
      ensures Progress(trace + [Moment(time, raw, stablePressed, event)])
      ensures event == Confirmed ==> state == Disabled
      ensures event == Confirmed ==>
                Earned(trace + [Moment(time, raw, stablePressed, event)], profile, tapCount, holdMs, releaseConfirm)
    {
      hide Script, Earned, HeldDown, Acted;
      match state
      case AwaitRelease => event := WhileAwaitRelease(time, raw);
      case AwaitTapPress => event := WhileAwaitTapPress(time, raw);
      case AwaitTapRelease => event := WhileAwaitTapRelease(time, raw);
      case AwaitHold => event := WhileAwaitHold(time, raw);
      case Holding => event := WhileHolding(time, raw);
      case AwaitConfirmRelease => event := WhileAwaitConfirmRelease(time, raw);
    }

    /** The window is open from the first update on; a window of zero never closes. */
    method WindowOpen(now: nat) returns (open: bool)
      requires now < TWO_32
      modifies this`windowStartedMs
      ensures old(Valid()) ==> Valid()
      ensures Now() == old(Now()).(windowStarted := Began(now, old(windowStartedMs)))
      ensures open <==> windowMs == 0 || Since(now, Began(now, old(windowStartedMs))) < windowMs
    {
      hide Script, Earned, HeldDown;
      if windowStartedMs == 0 {
        windowStartedMs := if now != 0 then now else 1;
      }
      open := windowMs == 0 || Since(now, windowStartedMs) < windowMs;
    }

    /** A disabled gesture, or one whose window has closed, reports no more than that. */
    method Close(time: nat, raw: bool, event: Event)
      requires Valid() && (trace != [] ==> trace[|trace| - 1].time <= time)
      requires event == if state == Disabled then Nothing else WindowClosed
      modifies this`state, this`trace
      ensures Valid() && trace == old(trace) + [Moment(time, raw, stablePressed, event)]
      ensures Now() == old(Now()).(state := Disabled)
    {
      hide Script, Earned, HeldDown;
      state := Disabled;
      Record(Moment(time, raw, stablePressed, event));
    }

    /** A reading within the window: debounced, then acted upon. */
    method React(pressed: bool, time: nat) returns (event: Event)
      requires Valid() && state != Disabled && (trace != [] ==> trace[|trace| - 1].time <= time)
      modifies this`state, this`taps, this`releasedSinceMs, this`stateStartedMs, this`holdAt, this`releaseAt,
               this`rawPressed, this`rawChangedMs, this`stablePressed, this`rawAt, this`trace
      ensures Valid() && trace == old(trace) + [Moment(time, pressed, stablePressed, event)]
      ensures (Now(), event) == Acted(Setup(), Debounced(Setup(), old(Now()), pressed, time % TWO_32), time % TWO_32)
      ensures event == Confirmed ==> state == Disabled
      ensures event != WindowClosed
      ensures stablePressed != old(stablePressed) ==> stablePressed == pressed && Steady(trace, pressed, time, debounceMs)
    {
      hide Script, Earned, HeldDown, Steady, Acted, Debounced;
      Debounce(pressed, time);
      event := Advance(time, pressed);
      Record(Moment(time, pressed, stablePressed, event));
    }

    /** Feeds one reading of the button. */
    method Update(pressed: bool, time: nat) returns (event: Event)
      requires Valid() && (trace != [] ==> trace[|trace| - 1].time <= time)
      modifies this`windowStartedMs, this`state, this`taps, this`releasedSinceMs, this`stateStartedMs, this`holdAt,
               this`releaseAt, this`rawPressed, this`rawChangedMs, this`stablePressed, this`rawAt, this`trace
      ensures Valid() && trace == old(trace) + [Moment(time, pressed, stablePressed, event)]
      ensures (Now(), event) == Next(Setup(), old(Now()), pressed, time % TWO_32)
      ensures event == Confirmed ==> Earned(trace, profile, tapCount, holdMs, releaseConfirm)
      ensures event == Confirmed ==> forall k :: 0 <= k < |old(trace)| ==> old(trace)[k].event != Confirmed
      ensures old(state) == Disabled ==> event == Nothing && state == Disabled
      ensures event == WindowClosed <==>
                old(state) != Disabled && windowMs != 0
                && Since(time % TWO_32, Began(time % TWO_32, old(windowStartedMs))) >= windowMs
      ensures stablePressed != old(stablePressed) ==> stablePressed == pressed && Steady(trace, pressed, time, debounceMs)
    {
      hide Script, Earned, HeldDown, Steady, Progress, Readings, Timeline;
      if state == Disabled {
        event := Nothing;
        Close(time, pressed, event);
        return;
      }
      var open := WindowOpen(time % TWO_32);
      if !open {
        event := WindowClosed;
        Close(time, pressed, event);
      } else {
        event := React(pressed, time);
        LastEarned();
      }
    }

    /** A confirmation just reported is the first, and was earned. */
    lemma LastEarned()
      requires Valid() && trace != []
      ensures trace[|trace| - 1].event == Confirmed ==>
                && Earned(trace, profile, tapCount, holdMs, releaseConfirm)
                && forall k :: 0 <= k < |trace| - 1 ==> trace[k].event != Confirmed
    {
      hide Script, Earned, HeldDown;
      assert trace[..|trace|] == trace;
    }

    ghost method Record(m: Moment)
      requires Timeline(trace) && (trace != [] ==> trace[|trace| - 1].time <= m.time) && tapCount < 256
      requires Progress(trace + [m]) && (state != Disabled ==> Readings(trace + [m]))
      requires forall k :: 0 <= k < |trace| && trace[k].event == Confirmed ==>
                 state == Disabled && m.event == Nothing && Earned(trace[..k + 1], profile, tapCount, holdMs, releaseConfirm)
      requires forall i, k :: 0 <= i < k < |trace| && trace[i].event == Confirmed ==> trace[k].event == Nothing
      requires m.event == Confirmed ==>
                 state == Disabled && Earned(trace + [m], profile, tapCount, holdMs, releaseConfirm)
      modifies this`trace
      ensures Valid() && trace == old(trace) + [m]
    {
      hide Script, Earned, HeldDown;
      ghost var before := trace;
      trace := trace + [m];
      assert trace[..|before| + 1] == trace;
      assert forall n :: 0 <= n <= |before| ==> trace[..n] == before[..n];
    }
  }

  /** The updates so far took the readings one by one and reported what the machine reports. */
  ghost predicate Reported(c: Settings, readings: seq<Reading>, trace: seq<Moment>) {
    && |trace| <= |readings|
    && forall i :: 0 <= i < |trace| ==>
         && trace[i].time == readings[i].time && trace[i].raw == readings[i].pressed
         && trace[i].event == Report(c, FRESH, readings[..i], readings[i])
  }

  lemma ReportedMore(c: Settings, readings: seq<Reading>, trace: seq<Moment>, m: Moment)
    requires Reported(c, readings, trace) && |trace| < |readings|
    requires var r := readings[|trace|];
             && m.time == r.time && m.raw == r.pressed
             && m.event == Next(c, After(c, FRESH, readings[..|trace|]), r.pressed, r.time % TWO_32).1
    ensures Reported(c, readings, trace + [m])
    ensures After(c, FRESH, readings[..|trace| + 1])
            == Next(c, After(c, FRESH, readings[..|trace|]), m.raw, m.time % TWO_32).0
  {
    hide Next, After;
    AfterMore(c, FRESH, readings[..|trace|], readings[|trace|]);
    assert readings[..|trace| + 1] == readings[..|trace|] + [readings[|trace|]];
  }

  /**
   Any run of readings after one configuration: at most one confirmation, earned by
   the whole gesture, and nothing after it. The count tells whether there was one. What
   is reported is what the functions of the machine give, reading after reading.
   */
  method Run(gesture: Gesture, readings: seq<Reading>, holdMs: nat, profile: Profile, tapCount: nat, windowMs: nat,
             debounceMs: nat, releaseConfirm: bool) returns (confirmations: nat)
    requires tapCount < 256
    requires forall i, j :: 0 <= i < j < |readings| ==> readings[i].time <= readings[j].time
    modifies gesture
    ensures confirmations <= 1 && |gesture.trace| == |readings|
    ensures confirmations == 1 <==> exists k: nat :: k < |readings| && gesture.trace[k].event == Confirmed
    ensures forall k: nat | k < |readings| && gesture.trace[k].event == Confirmed ::
              && Earned(gesture.trace[..k + 1], profile, tapCount, holdMs, releaseConfirm)
              && forall i :: k < i < |readings| ==> gesture.trace[i].event == Nothing
    ensures Reported(Settings(holdMs, profile, tapCount, windowMs, debounceMs, releaseConfirm), readings, gesture.trace)
  {
    hide Script, Earned, HeldDown, Steady, Next, After, Reported, Gesture.Progress, Gesture.Readings, Gesture.Timeline;
    ghost var c := Settings(holdMs, profile, tapCount, windowMs, debounceMs, releaseConfirm);
    gesture.Configure(holdMs, profile, tapCount, windowMs, debounceMs, releaseConfirm);
    confirmations := 0;
    NoneReported(c, readings);
    assert readings[..0] == [];
    ghost var at := 0;
    for n := 0 to |readings|
      invariant gesture.Valid() && |gesture.trace| == n && confirmations <= 1
      invariant gesture.Setup() == c && gesture.Now() == After(c, FRESH, readings[..n])
      invariant n > 0 ==> gesture.trace[n - 1].time == readings[n - 1].time
      invariant Reported(c, readings, gesture.trace)
      invariant confirmations == 1 ==> 0 <= at < n && gesture.trace[at].event == Confirmed
      invariant confirmations == 0 ==> forall k :: 0 <= k < n ==> gesture.trace[k].event != Confirmed
    {
      ghost var before := gesture.trace;
      var event := gesture.Update(readings[n].pressed, readings[n].time);
      ReportedMore(c, readings, before, gesture.trace[n]);
      if event == Confirmed {
        confirmations := confirmations + 1;
        at := n;
      }
    }
  }

  lemma NoneReported(c: Settings, readings: seq<Reading>)
    ensures Reported(c, readings, []) && After(c, FRESH, []) == FRESH
  {}
}
