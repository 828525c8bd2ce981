/** The steps of the factory reset gesture as functions of its settings and state, and that a proper gesture succeeds. */
module GestureMachine {
  import opened Bytes

  datatype Profile = Hold | TapThenHold

  datatype Event = Nothing | Armed | TapAccepted | HoldStarted | ReleaseRequested | Confirmed | WindowClosed | ConfirmationExpired

  datatype State = AwaitRelease | AwaitTapPress | AwaitTapRelease | AwaitHold | Holding | AwaitConfirmRelease | Disabled

  datatype Settings = Settings(holdMs: nat, profile: Profile, tapCount: nat, windowMs: nat, debounceMs: nat,
                               releaseConfirm: bool)

  /** Everything that changes from update to update. */
  datatype Core = Core(state: State, taps: nat, raw: bool, stable: bool, windowStarted: nat, stateStarted: nat,
                       rawChanged: nat, releasedSince: nat)

  /** After configuration nothing has been seen. */
  const FRESH: Core := Core(AwaitRelease, 0, false, false, 0, 0, 0, 0)

  /** The 32-bit difference of two clock readings. */
  function Since(now: nat, start: nat): nat { (now - start) % TWO_32 }

  /** A start that is not set yet, zero, is now. */
  function Began(now: nat, since: nat): nat {
    if since != 0 then since else if now != 0 then now else 1
  }

  /** The button follows a reading that has not changed for the debounce time. */
  function Debounced(c: Settings, s: Core, pressed: bool, now: nat): Core {
    var changed := if pressed == s.raw then s.rawChanged else now;
    s.(raw := pressed, rawChanged := changed,
       stable := if pressed != s.stable && Since(now, changed) >= c.debounceMs then pressed else s.stable)
  }

  /** Back to waiting for a released button. */
  function Over(s: Core, since: nat): Core { s.(state := AwaitRelease, releasedSince := since, taps := 0) }

  /** What the debounced button and the time do to the gesture. */
  function Acted(c: Settings, s: Core, now: nat): (Core, Event) {
    var here := Since(now, s.stateStarted);
    match s.state
    case AwaitRelease =>
      var since := Began(now, s.releasedSince);
      if s.stable then (s.(releasedSince := 0), Nothing)
      else if Since(now, since) < 500 then (s.(releasedSince := since), Nothing)
      else
        (s.(releasedSince := since, stateStarted := now, taps := 0,
            state := if c.profile == Hold then AwaitHold else AwaitTapPress), Armed)
    case AwaitTapPress =>
      if s.stable then (s.(state := AwaitTapRelease, stateStarted := now), Nothing)
      else if s.taps > 0 && here > 2000 then (Over(s, now), Nothing)
      else (s, Nothing)
    case AwaitTapRelease =>
      if here > 2000 then (Over(s, if s.stable then 0 else now), Nothing)
      else if s.stable then (s, Nothing)
      else
        var taps := (s.taps + 1) % 256;
        (s.(taps := taps, stateStarted := now, state := if taps == c.tapCount then AwaitHold else AwaitTapPress), TapAccepted)
    case AwaitHold =>
      if s.stable then (s.(state := Holding, stateStarted := now), HoldStarted)
      else if here > 3000 then (Over(s, now), Nothing)
      else (s, Nothing)
    case Holding =>
      if !s.stable then (Over(s, now), Nothing)
      else if here < c.holdMs then (s, Nothing)
      else if c.releaseConfirm then (s.(state := AwaitConfirmRelease, stateStarted := now), ReleaseRequested)
      else (s.(state := Disabled), Confirmed)
    case AwaitConfirmRelease =>
      if !s.stable then (s.(state := Disabled), Confirmed)
      else if here > 5000 then (s.(state := Disabled), ConfirmationExpired)
      else (s, Nothing)
    case Disabled => (s, Nothing)
  }

  /** One update at the clock reading `now`. */
  function Next(c: Settings, s: Core, pressed: bool, now: nat): (Core, Event) {
    if s.state == Disabled then (s, Nothing)
    else
      var w := Began(now, s.windowStarted);
      if c.windowMs != 0 && Since(now, w) >= c.windowMs then
        (s.(windowStarted := w, state := Disabled), WindowClosed)
      else Acted(c, Debounced(c, s.(windowStarted := w), pressed, now), now)
  }

  /** One reading of the button. */
  datatype Reading = Reading(pressed: bool, time: nat)

  /** The state after some readings. */
  function After(c: Settings, s: Core, readings: seq<Reading>): Core {
    if readings == [] then s
    else
      var last := readings[|readings| - 1];
      Next(c, After(c, s, readings[..|readings| - 1]), last.pressed, last.time % TWO_32).0
  }

  /** What the reading after `readings` reports. */
  function Report(c: Settings, s: Core, readings: seq<Reading>, r: Reading): Event {
    Next(c, After(c, s, readings), r.pressed, r.time % TWO_32).1
  }

  lemma AfterMore(c: Settings, s: Core, readings: seq<Reading>, r: Reading)
    ensures After(c, s, readings + [r]) == Next(c, After(c, s, readings), r.pressed, r.time % TWO_32).0
  {
    hide Next;
    assert (readings + [r])[..|readings|] == readings;
  }

  // ---- A proper gesture succeeds ----

  lemma SinceExact(t: nat, later: nat)
    requires t <= later < t + TWO_32
    ensures Since(later % TWO_32, t % TWO_32) == later - t
  {
    assert (later % TWO_32 - t % TWO_32) % TWO_32 == (later - t) % TWO_32;
  }

  /** Nothing has closed the window that opened at `t0`, up to `t`. */
  predicate Open(c: Settings, t0: nat, t: nat) {
    t0 % TWO_32 != 0 && t0 <= t < t0 + TWO_32 && (c.windowMs != 0 ==> t - t0 < c.windowMs)
  }

  lemma NextOpen(c: Settings, s: Core, pressed: bool, t0: nat, t: nat)
    requires Open(c, t0, t) && s.state != Disabled && s.windowStarted in {0, t0 % TWO_32}
    requires s.windowStarted == 0 ==> t == t0
    ensures var now := t % TWO_32;
            Next(c, s, pressed, now) == Acted(c, Debounced(c, s.(windowStarted := t0 % TWO_32), pressed, now), now)
  {
    hide Acted, Debounced;
    SinceExact(t0, t);
  }

  /** In `state` since `t`, with the button up. */
  predicate Rests(s: Core, state: State, taps: nat, t0: nat, t: nat) {
    && s.state == state && s.taps == taps && !s.raw && !s.stable
    && s.windowStarted == t0 % TWO_32 && s.stateStarted == t % TWO_32
  }

  /** The button up for half a second. */
  function Arming(t0: nat): seq<Reading> { [Reading(false, t0), Reading(false, t0 + 500)] }

  lemma ArmingArms(c: Settings, t0: nat)
    requires Open(c, t0, t0 + 500)
    ensures var s := After(c, FRESH, Arming(t0));
            Rests(s, if c.profile == Hold then AwaitHold else AwaitTapPress, 0, t0, t0 + 500)
    ensures Report(c, FRESH, [Reading(false, t0)], Reading(false, t0 + 500)) == Armed
  {
    hide Since;
    NextOpen(c, FRESH, false, t0, t0);
    SinceExact(t0, t0);
    SinceExact(t0, t0 + 500);
    var s := Next(c, FRESH, false, t0 % TWO_32).0;
    NextOpen(c, s, false, t0, t0 + 500);
    AfterMore(c, FRESH, [], Reading(false, t0));
    AfterMore(c, FRESH, [Reading(false, t0)], Reading(false, t0 + 500));
    assert [] + [Reading(false, t0)] == [Reading(false, t0)];
    assert Arming(t0) == [Reading(false, t0)] + [Reading(false, t0 + 500)];
  }

  /** The same level read at `p` and again a debounce time later. */
  function Settling(pressed: bool, p: nat, d: nat): seq<Reading> { [Reading(pressed, p), Reading(pressed, p + d)] }

  lemma AfterTwo(c: Settings, s: Core, rs: seq<Reading>, pressed: bool, p: nat, d: nat)
    ensures var s1 := Next(c, After(c, s, rs), pressed, p % TWO_32).0;
            After(c, s, rs + Settling(pressed, p, d)) == Next(c, s1, pressed, (p + d) % TWO_32).0
  {
    hide Next;
    AfterMore(c, s, rs, Reading(pressed, p));
    AfterMore(c, s, rs + [Reading(pressed, p)], Reading(pressed, p + d));
    assert rs + Settling(pressed, p, d) == rs + [Reading(pressed, p)] + [Reading(pressed, p + d)];
  }

  /** From one debounced level to the other: only the second reading of the new one counts. */
  lemma Settles(c: Settings, s: Core, pressed: bool, t0: nat, p: nat)
    requires c.debounceMs > 0 && Open(c, t0, p) && Open(c, t0, p + c.debounceMs)
    requires s.state != Disabled && s.windowStarted == t0 % TWO_32 && s.raw == s.stable == !pressed
    requires Acted(c, s.(raw := pressed, rawChanged := p % TWO_32), p % TWO_32).0
             == s.(raw := pressed, rawChanged := p % TWO_32)
    ensures var s1 := Next(c, s, pressed, p % TWO_32).0;
            var now := (p + c.debounceMs) % TWO_32;
            && s1 == s.(raw := pressed, rawChanged := p % TWO_32)
            && Next(c, s1, pressed, now) == Acted(c, s1.(stable := pressed), now)
  {
    hide Acted, Since;
    NextOpen(c, s, pressed, t0, p);
    SinceExact(p, p);
    var s1 := s.(raw := pressed, rawChanged := p % TWO_32);
    NextOpen(c, s1, pressed, t0, p + c.debounceMs);
    SinceExact(p, p + c.debounceMs);
  }

  /** A tap that begins `gap` after `t` and lasts `length`, both ends debounced. */
  function Tap(t: nat, gap: nat, length: nat, d: nat): seq<Reading> {
    Settling(true, t + gap, d) + Settling(false, t + gap + d + length, d)
  }

  function TapEnd(t: nat, gap: nat, length: nat, d: nat): nat { t + gap + d + length + d }

  lemma TapCounts(c: Settings, rs: seq<Reading>, taps: nat, t0: nat, t: nat, gap: nat, length: nat)
    requires c.debounceMs > 0 && gap <= 2000 && length + c.debounceMs <= 2000 && taps < 255
    requires Rests(After(c, FRESH, rs), AwaitTapPress, taps, t0, t) && t0 <= t
    requires Open(c, t0, TapEnd(t, gap, length, c.debounceMs))
    ensures Rests(After(c, FRESH, rs + Tap(t, gap, length, c.debounceMs)),
                  if taps + 1 == c.tapCount then AwaitHold else AwaitTapPress, taps + 1, t0,
                  TapEnd(t, gap, length, c.debounceMs))
  {
    hide Since, After, Next;
    var d := c.debounceMs;
    var s, p := After(c, FRESH, rs), t + gap;
    SinceExact(t, p);
    Settles(c, s, true, t0, p);
    AfterTwo(c, FRESH, rs, true, p, d);
    var down := s.(raw := true, rawChanged := p % TWO_32, stable := true, state := AwaitTapRelease,
                   stateStarted := (p + d) % TWO_32);
    assert After(c, FRESH, rs + Settling(true, p, d)) == down;
    var q := p + d + length;
    SinceExact(p + d, q);
    Settles(c, down, false, t0, q);
    SinceExact(p + d, q + d);
    AfterTwo(c, FRESH, rs + Settling(true, p, d), false, q, d);
    assert rs + Tap(t, gap, length, d) == rs + Settling(true, p, d) + Settling(false, q, d);
  }

  /** `n` such taps in a row. */
  function AllTaps(n: nat, t: nat, gap: nat, length: nat, d: nat): seq<Reading> {
    if n == 0 then [] else AllTaps(n - 1, t, gap, length, d) + Tap(TapsEnd(n - 1, t, gap, length, d), gap, length, d)
  }

  function TapsEnd(n: nat, t: nat, gap: nat, length: nat, d: nat): (end: nat)
    ensures end >= t
  {
    if n == 0 then t else TapEnd(TapsEnd(n - 1, t, gap, length, d), gap, length, d)
  }

  lemma {:induction false} TapsCount(c: Settings, n: nat, t0: nat, gap: nat, length: nat)
    requires c.profile == TapThenHold && n <= c.tapCount < 256 && n > 0
    requires c.debounceMs > 0 && gap <= 2000 && length + c.debounceMs <= 2000
    requires Open(c, t0, TapsEnd(n, t0 + 500, gap, length, c.debounceMs))
    ensures var d := c.debounceMs;
            Rests(After(c, FRESH, Arming(t0) + AllTaps(n, t0 + 500, gap, length, d)),
                  if n == c.tapCount then AwaitHold else AwaitTapPress, n, t0, TapsEnd(n, t0 + 500, gap, length, d))
  {
    hide After, Next;
    var d := c.debounceMs;
    var before := Arming(t0) + AllTaps(n - 1, t0 + 500, gap, length, d);
    if n > 1 {
      TapsCount(c, n - 1, t0, gap, length);
    } else {
      ArmingArms(c, t0);
      assert before == Arming(t0);
    }
    var end := TapsEnd(n - 1, t0 + 500, gap, length, d);
    TapCounts(c, before, n - 1, t0, end, gap, length);
    assert before + Tap(end, gap, length, d) == Arming(t0) + AllTaps(n, t0 + 500, gap, length, d);
  }

  /** The hold from `u` on; with a release asked for, that is `rest` after the hold. */
  function HoldAndRelease(c: Settings, u: nat, rest: nat): seq<Reading> {
    var d := c.debounceMs;
    Settling(true, u, d) + [Reading(true, u + d + c.holdMs)]
    + (if c.releaseConfirm then Settling(false, u + d + c.holdMs + rest, d) else [])
  }

  function HoldEnd(c: Settings, u: nat, rest: nat): nat {
    u + c.debounceMs + c.holdMs + (if c.releaseConfirm then rest + c.debounceMs else 0)
  }

  lemma HoldConfirms(c: Settings, rs: seq<Reading>, taps: nat, t0: nat, t: nat, wait: nat, rest: nat)
    requires c.debounceMs > 0 && c.holdMs > 0 && wait <= 3000 && rest <= 5000 && t0 <= t
    requires Rests(After(c, FRESH, rs), AwaitHold, taps, t0, t) && Open(c, t0, HoldEnd(c, t + wait, rest))
    ensures var all := HoldAndRelease(c, t + wait, rest);
            Report(c, FRESH, rs + all[..|all| - 1], all[|all| - 1]) == Confirmed
  {
    hide Since, After, Next;
    var d := c.debounceMs;
    var s, u := After(c, FRESH, rs), t + wait;
    SinceExact(t, u);
    Settles(c, s, true, t0, u);
    AfterTwo(c, FRESH, rs, true, u, d);
    var down := s.(raw := true, rawChanged := u % TWO_32, stable := true, state := Holding,
                   stateStarted := (u + d) % TWO_32);
    var held := rs + Settling(true, u, d);
    assert After(c, FRESH, held) == down;
    var full := u + d + c.holdMs;
    NextOpen(c, down, true, t0, full);
    SinceExact(u + d, full);
    var all := HoldAndRelease(c, u, rest);
    if c.releaseConfirm {
      AfterMore(c, FRESH, held, Reading(true, full));
      var asked := down.(state := AwaitConfirmRelease, stateStarted := full % TWO_32);
      var before := held + [Reading(true, full)];
      assert After(c, FRESH, before) == asked;
      var v := full + rest;
      SinceExact(full, v);
      Settles(c, asked, false, t0, v);
      AfterMore(c, FRESH, before, Reading(false, v));
      assert all[|all| - 1] == Reading(false, v + d);
      assert rs + all[..|all| - 1] == before + [Reading(false, v)];
    } else {
      assert all[|all| - 1] == Reading(true, full);
      assert rs + all[..|all| - 1] == held;
    }
  }

  /**
   A proper gesture: half a second up, the taps asked for, each of at most two seconds
   and at most two seconds apart, then the hold within three seconds, and the release
   within five. If it fits into the window it is confirmed, whatever the clock shows
   when it wraps.
   */
  lemma ProperGestureConfirmed(c: Settings, t0: nat, gap: nat, length: nat, wait: nat, rest: nat)
    requires c.debounceMs > 0 && c.holdMs > 0 && c.tapCount < 256 && (c.profile == TapThenHold ==> c.tapCount > 0)
    requires gap <= 2000 && length + c.debounceMs <= 2000 && wait <= 3000 && rest <= 5000
    requires var n := if c.profile == Hold then 0 else c.tapCount;
             Open(c, t0, HoldEnd(c, TapsEnd(n, t0 + 500, gap, length, c.debounceMs) + wait, rest))
    ensures var n := if c.profile == Hold then 0 else c.tapCount;
            var taps := Arming(t0) + AllTaps(n, t0 + 500, gap, length, c.debounceMs);
            var all := HoldAndRelease(c, TapsEnd(n, t0 + 500, gap, length, c.debounceMs) + wait, rest);
            Report(c, FRESH, taps + all[..|all| - 1], all[|all| - 1]) == Confirmed
  {
    hide After, Next, Report;
    var n := if c.profile == Hold then 0 else c.tapCount;
    var taps := Arming(t0) + AllTaps(n, t0 + 500, gap, length, c.debounceMs);
    if n == 0 {
      ArmingArms(c, t0);
      assert taps == Arming(t0);
    } else {
      TapsCount(c, n, t0, gap, length);
    }
    HoldConfirms(c, taps, n, t0, TapsEnd(n, t0 + 500, gap, length, c.debounceMs), wait, rest);
  }

  /** The first update closes the window at once exactly when the clock shows zero. */
  lemma FirstUpdateClosesIff(c: Settings, pressed: bool, now: nat)
    requires now < TWO_32 && 0 < c.windowMs < TWO_32
    ensures Next(c, FRESH, pressed, now).1 == WindowClosed <==> now == 0
  {}
}
