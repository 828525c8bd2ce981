/** From a configuration to the actions taken offline: compiled, installed and run. */
module OfflineSchedules {
  import opened Options
  import opened Bytes
  import opened ConfigurationUnits
  import opened ScheduleManifests
  import opened ScheduleRuntime
  import opened ScheduleCompiler

  /** An action taken of a schedule unit: one of its own, no sooner than one of its times and before the horizon. */
  ghost predicate Ordered(us: seq<Unit>, u: Unit, t: Taken)
    requires u.Schedule?
  {
    var times := TimesOf(us, u.id);
    && t.occurrence < |times| && t.action < |u.actions| && t.applied == u.actions[t.action]
    && (times[t.occurrence] + u.actions[t.action].offsetMs) % TWO_64 <= t.at < ValidUntilOf(us)
  }

  lemma CompiledIsOrdered(b: Board, m: Manifest, revision: nat, us: seq<Unit>, i: nat, taken: seq<Taken>)
    requires Faithful(b, m, revision, us) && i < |m.schedules| && AllDue(m.schedules[i], m.validUntil, taken)
    ensures forall k :: 0 <= k < |taken| ==> Ordered(us, Schedules(us)[i], taken[k])
  {
    hide Well, RenewedInTime, TimesOf, Decimal;
  }

  /**
   A valid configuration is compiled and installed, and runs through any mix of ticks,
   failed writes and power losses: every action taken is one that a schedule unit of the
   configuration orders, due by its chunk times, and none is taken twice.
   */
  method Follow(board: Board, us: seq<Unit>, revision: nat, active: Cell<Manifest>, staging: Cell<Manifest>,
                saved: Cell<Progress>, events: seq<Event>)
    returns (r: Runtime, installed: bool, performed: nat)
    requires ValidList(board, us) && Schedules(us) != [] && revision != 0 && active != staging
    modifies active, staging, saved
    ensures installed ==> |r.taken| == |Schedules(us)|
    ensures active.reliable && staging.reliable ==> installed
    ensures installed && saved.reliable ==> performed == |events|
    ensures installed ==> forall i :: 0 <= i < |r.taken| ==>
              && Increasing(r.taken[i])
              && forall k :: 0 <= k < |r.taken[i]| ==> Ordered(us, Schedules(us)[i], r.taken[i][k])
  {
    hide ValidList, Increasing, AllDue, AllBefore, Ordered, Well, FitsManifest;
    var compiler := new Compiler(board);
    var ok := Compile(compiler, revision, us);
    r := new Runtime(board, active, staging, saved);
    r.manifest := compiler.manifest;
    installed := r.InstallPrepared();
    performed := 0;
    if !installed {
      return;
    }
    performed := Operate(r, events);
    forall i | 0 <= i < |r.taken|
      ensures forall k :: 0 <= k < |r.taken[i]| ==> Ordered(us, Schedules(us)[i], r.taken[i][k])
    {
      CompiledIsOrdered(board, r.manifest, revision, us, i, r.taken[i]);
    }
  }
}
