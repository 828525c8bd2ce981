/** The offline schedule runtime: progress is made durable before an action is taken. */
module ScheduleRuntime {
  import opened Options
  import opened Bytes
  import opened Fnv
  import opened ConfigurationUnits
  import opened ScheduleManifests

  /** One durable key with atomic replacement; a failed write leaves the old or the new value. */
  class Cell<T(==)> {
    var content: Option<T>
    const reliable: bool

    constructor (content: Option<T>, reliable: bool)
      ensures this.content == content && this.reliable == reliable
    {
      this.content, this.reliable := content, reliable;
    }

    method Write(value: T) returns (ok: bool)
      modifies this
      ensures content == Some(value) || (!ok && content == old(content))
      ensures reliable ==> ok
    {
      var works: bool, lands: bool := *, *;
      ok := works || reliable;
      if ok || lands {
        content := Some(value);
      }
    }

    method Remove() returns (ok: bool)
      modifies this
      ensures content == None || (!ok && content == old(content))
      ensures reliable ==> ok
    {
      var works: bool, lands: bool := *, *;
      ok := works || reliable;
      if ok || lands {
        content := None;
      }
    }
  }

  /** The next occurrence and action of each schedule slot. */
  datatype Progress = Progress(occurrence: seq<nat>, action: seq<nat>)

  /** An action taken: which one of which occurrence, what was applied, and the clock at the time. */
  datatype Taken = Taken(occurrence: nat, action: nat, applied: Action, at: nat)

  function NoProgress(capacity: nat): Progress {
    Progress(seq(capacity, i => 0), seq(capacity, i => 0))
  }

  function ActionCount(s: CompiledSchedule): (n: nat)
    ensures n > 0
  {
    if s.actions == [] then 1 else |s.actions|
  }

  function ActionAt(s: CompiledSchedule, a: nat): Action
    requires a < ActionCount(s)
  {
    if s.actions == [] then s.legacy else s.actions[a]
  }

  /** When an action is due, in the 64-bit arithmetic of the device. */
  function DueAt(s: CompiledSchedule, occurrence: nat, action: nat): nat
    requires occurrence < |s.occurrences| && action < ActionCount(s)
  {
    (s.occurrences[occurrence] + ActionAt(s, action).offsetMs) % TWO_64
  }

  /**
   The sum wraps: an action is due at its time exactly when that fits 64 bits, and
   otherwise less than its offset after the epoch.
   */
  lemma DueAtIff(s: CompiledSchedule, occurrence: nat, action: nat)
    requires occurrence < |s.occurrences| && action < ActionCount(s)
    ensures var offset := if s.actions == [] then s.legacy.offsetMs else s.actions[action].offsetMs;
            var time := s.occurrences[occurrence] + offset;
            && (DueAt(s, occurrence, action) == time <==> time < TWO_64)
            && (s.occurrences[occurrence] < TWO_64 <= time < 2 * TWO_64 ==> DueAt(s, occurrence, action) < offset)
  {
    var time := s.occurrences[occurrence] + ActionAt(s, action).offsetMs;
    if TWO_64 <= time < 2 * TWO_64 {
      assert time % TWO_64 == time - TWO_64;
    }
  }

  /**
   Every action applied is the one of its number in the schedule, and if its time fits
   64 bits, it was not applied before that.
   */
  lemma TakenInTime(s: CompiledSchedule, validUntil: nat, taken: seq<Taken>)
    requires AllDue(s, validUntil, taken)
    ensures forall k :: 0 <= k < |taken| ==>
              && taken[k].occurrence < |s.occurrences|
              && (if s.actions == [] then taken[k].applied == s.legacy
                  else taken[k].action < |s.actions| && taken[k].applied == s.actions[taken[k].action])
              && (var time := s.occurrences[taken[k].occurrence] + taken[k].applied.offsetMs;
                  time < TWO_64 ==> time <= taken[k].at)
  {}

  /** The last millisecond of the clock and an offset of one: a valid manifest whose action is due at once. */
  lemma DueAtWitness(b: Board, value: Value, id: nat)
    requires ValidId(id) && b.scheduleCapacity == 1 && b.occurrenceCapacity >= 1
    ensures var s := CompiledSchedule("1", true, [Action(1, id, value)], Action(1, id, value), [TWO_64 - 1]);
            var m := Manifest(MANIFEST_MAGIC, 1, 1, 9, 9, [s], 0);
            Well(b, m.(checksum := ManifestChecksum(m))) && DueAt(s, 0, 0) == 0
  {
    hide Fnv1a;
  }

  /** The run loop indexes the actions only of an enabled schedule with an occurrence left. */
  predicate InRange(s: CompiledSchedule, occurrence: nat, action: nat) {
    && occurrence <= |s.occurrences| && action <= |s.actions|
    && (s.enabled && occurrence < |s.occurrences| ==> action < ActionCount(s))
  }

  /** Progress that the run loop can index with. */
  predicate FitsManifest(p: Progress, m: Manifest, capacity: nat) {
    && |p.occurrence| == capacity && |p.action| == capacity && |m.schedules| <= capacity
    && forall i :: 0 <= i < |m.schedules| ==> InRange(m.schedules[i], p.occurrence[i], p.action[i])
  }

  /** Position (o, a) comes before position (p, b). */
  predicate Before(o: nat, a: nat, p: nat, b: nat) {
    o < p || (o == p && a < b)
  }

  /** The actions taken of one schedule are in strictly increasing order. */
  ghost predicate Increasing(taken: seq<Taken>) {
    forall j, k :: 0 <= j < k < |taken| ==>
      Before(taken[j].occurrence, taken[j].action, taken[k].occurrence, taken[k].action)
  }

  /** No occurrence of an action is taken twice, and a later one never before an earlier one. */
  lemma NeverTwice(taken: seq<Taken>, j: nat, k: nat)
    requires Increasing(taken) && j < k < |taken|
    ensures (taken[j].occurrence, taken[j].action) != (taken[k].occurrence, taken[k].action)
    ensures taken[j].occurrence <= taken[k].occurrence
    ensures taken[j].occurrence == taken[k].occurrence ==> taken[j].action < taken[k].action
  {}

  /** All of them lie before the position (o, a). */
  ghost predicate AllBefore(taken: seq<Taken>, o: nat, a: nat) {
    forall k :: 0 <= k < |taken| ==> Before(taken[k].occurrence, taken[k].action, o, a)
  }

  /** Each was the action of its number, due when it was taken, and the manifest had not expired. */
  ghost predicate AllDue(s: CompiledSchedule, validUntil: nat, taken: seq<Taken>) {
    forall k :: 0 <= k < |taken| ==>
      && taken[k].occurrence < |s.occurrences|
      && (if s.actions == [] then taken[k].action == 0 && taken[k].applied == s.legacy
          else taken[k].action < |s.actions| && taken[k].applied == s.actions[taken[k].action])
      && (s.occurrences[taken[k].occurrence] + taken[k].applied.offsetMs) % TWO_64 <= taken[k].at < validUntil
  }

  /** The position `n` actions after (o, a) in a schedule with `count` actions an occurrence. */
  function Reach(count: nat, o: nat, a: nat, n: nat): (nat, nat) {
    if n == 0 then (o, a)
    else
      var (p, b) := Reach(count, o, a, n - 1);
      if b + 1 >= count then (p + 1, 0) else (p, b + 1)
  }

  class Runtime {
    const board: Board
    const active: Cell<Manifest>
    const staging: Cell<Manifest>
    const saved: Cell<Progress>
    var manifest: Manifest
    var progress: Progress
    ghost var taken: seq<seq<Taken>>  // per schedule, since the manifest was installed

    /** `p` lies beyond every action taken and can be resumed from under `m`. */
    ghost predicate Sound(p: Progress, m: Manifest)
      reads this
    {
      && FitsManifest(p, m, board.scheduleCapacity)
      && |taken| == |m.schedules|
      && forall i :: 0 <= i < |taken| ==> AllBefore(taken[i], p.occurrence[i], p.action[i])
    }

    ghost predicate SavedSound(m: Manifest)
      reads this, saved
    {
      saved.content.Some? && Sound(saved.content.value, m)
    }

    /** Every action of `m` was taken at most once, when due, and progress on record is past it. */
    ghost predicate History(m: Manifest)
      reads this, saved
    {
      && |taken| == |m.schedules|
      && (forall i :: 0 <= i < |taken| ==> Increasing(taken[i]))
      && (forall i :: 0 <= i < |taken| ==> AllDue(m.schedules[i], m.validUntil, taken[i]))
      && (SavedSound(m) || forall i :: 0 <= i < |taken| ==> taken[i] == [])
    }

    ghost predicate Valid()
      reads this, saved
    {
      History(manifest) && Sound(progress, manifest)
    }

    constructor (board: Board, active: Cell<Manifest>, staging: Cell<Manifest>, saved: Cell<Progress>)
      requires active != staging
      ensures this.board == board && this.active == active && this.staging == staging && this.saved == saved
      ensures Valid()
    {
      this.board, this.active, this.staging, this.saved := board, active, staging, saved;
      manifest := EMPTY_MANIFEST;
      progress := NoProgress(board.scheduleCapacity);
      taken := [];
    }

    /** The actions taken of schedule `i` since (p, t): all at `now`, none left out. */
    ghost predicate Resumed(i: nat, p: Progress, t: seq<Taken>, now: nat)
      requires i < |manifest.schedules| && i < |p.occurrence| && i < |p.action|
      reads this
    {
      var count := ActionCount(manifest.schedules[i]);
      && i < |taken| && i < |progress.occurrence| && i < |progress.action|
      && t <= taken[i]
      && (progress.occurrence[i], progress.action[i]) == Reach(count, p.occurrence[i], p.action[i], |taken[i]| - |t|)
      && forall k :: |t| <= k < |taken[i]| ==>
           && taken[i][k].at == now
           && (taken[i][k].occurrence, taken[i][k].action) == Reach(count, p.occurrence[i], p.action[i], k - |t|)
    }

    /**
     Takes whatever is due, in order and without gaps. Progress goes to storage
     before each action.
     */
    method Run(utcValid: bool, now: nat) returns (failed: bool)
      requires Valid()
      modifies this`progress, this`taken, saved
      ensures Valid() && (old(SavedSound(manifest)) ==> SavedSound(manifest))
      ensures forall i :: 0 <= i < |taken| ==> Resumed(i, old(progress), old(taken)[i], now)
      ensures !utcValid || now >= manifest.validUntil ==> taken == old(taken) && progress == old(progress)
      ensures !failed && utcValid && manifest.revision != 0 && now < manifest.validUntil ==>
                forall i :: 0 <= i < |manifest.schedules| ==> Settled(i, now)
      ensures saved.reliable ==> !failed
    {
      hide Increasing, AllDue, AllBefore;
      failed := false;
      if !utcValid || manifest.revision == 0 || now >= manifest.validUntil {
        return;
      }
      ghost var start, first := progress, taken;
      var i := 0;
      while i < |manifest.schedules|
        invariant i <= |manifest.schedules| && !failed && Valid() && (old(SavedSound(manifest)) ==> SavedSound(manifest))
        invariant forall j :: 0 <= j < |taken| ==> Resumed(j, old(progress), old(taken)[j], now)
        invariant forall j :: i <= j < |taken| ==>
                    && taken[j] == old(taken)[j] && progress.occurrence[j] == old(progress).occurrence[j]
                    && progress.action[j] == old(progress).action[j]
        invariant forall j :: 0 <= j < i ==> Settled(j, now)
      {
        if manifest.schedules[i].enabled {
          ghost var before, earlier := progress, taken;
          label Before:
          failed := RunSchedule(i, now);
          forall j | 0 <= j < |taken|
            ensures Resumed(j, old(progress), old(taken)[j], now)
            ensures j < i ==> Settled(j, now)
          {
            if j != i {
              assert old@Before(Resumed(j, start, first[j], now));
              assert taken[j] == earlier[j];
              assert progress.occurrence[j] == before.occurrence[j] && progress.action[j] == before.action[j];
              if j < i {
                assert old@Before(Settled(j, now));
              }
            }
          }
          if failed {
            return;
          }
        }
        i := i + 1;
      }
    }

    /** The next action of an enabled schedule is not due, or there is none left. */
    predicate Settled(i: nat, now: nat)
      requires i < |manifest.schedules|
      reads this
    {
      var s := manifest.schedules[i];
      s.enabled && i < |progress.occurrence| && i < |progress.action|
      && progress.occurrence[i] < |s.occurrences| && progress.action[i] < ActionCount(s) ==>
        DueAt(s, progress.occurrence[i], progress.action[i]) > now
    }

    /** The inner loop for one schedule. */
    method RunSchedule(i: nat, now: nat) returns (failed: bool)
      requires Valid() && i < |manifest.schedules| && manifest.schedules[i].enabled && now < manifest.validUntil
      modifies this`progress, this`taken, saved
      ensures Valid() && |taken| == |old(taken)| && (old(SavedSound(manifest)) ==> SavedSound(manifest))
      ensures Resumed(i, old(progress), old(taken)[i], now)
      ensures forall j :: 0 <= j < |taken| && j != i ==>
                && taken[j] == old(taken)[j] && progress.occurrence[j] == old(progress).occurrence[j]
                && progress.action[j] == old(progress).action[j]
      ensures !failed ==> Settled(i, now)
      ensures saved.reliable ==> !failed
    {
      hide Increasing, AllDue, AllBefore;
      failed := false;
      var s := manifest.schedules[i];
      while progress.occurrence[i] < |s.occurrences|
        invariant old(SavedSound(manifest)) ==> SavedSound(manifest)
        invariant Valid() && |taken| == |old(taken)| && |progress.occurrence| == |progress.action| == board.scheduleCapacity
        invariant Resumed(i, old(progress), old(taken)[i], now) && !failed
        invariant forall j :: 0 <= j < |taken| && j != i ==>
                    && taken[j] == old(taken)[j] && progress.occurrence[j] == old(progress).occurrence[j]
                    && progress.action[j] == old(progress).action[j]
        decreases |s.occurrences| - progress.occurrence[i], ActionCount(s) - progress.action[i]
      {
        if DueAt(s, progress.occurrence[i], progress.action[i]) > now {
          return;
        }
        failed := TakeNext(i, now);
        if failed {
          return;
        }
      }
    }

    /** Advances, persists, and only then acts; a failed write takes the step back. */
    method TakeNext(i: nat, now: nat) returns (failed: bool)
      requires Valid() && i < |manifest.schedules| && manifest.schedules[i].enabled && now < manifest.validUntil
      requires progress.occurrence[i] < |manifest.schedules[i].occurrences|
      requires DueAt(manifest.schedules[i], progress.occurrence[i], progress.action[i]) <= now
      modifies this`progress, this`taken, saved
      ensures Valid() && (old(SavedSound(manifest)) ==> SavedSound(manifest))
      ensures failed ==> progress == old(progress) && taken == old(taken)
      ensures saved.reliable ==> !failed
      ensures !failed ==>
                && progress == Advanced(old(progress), i, ActionCount(manifest.schedules[i]))
                && taken == old(taken)[i := old(taken)[i]
                     + [Taken(old(progress).occurrence[i], old(progress).action[i],
                              ActionAt(manifest.schedules[i], old(progress).action[i]), now)]]
    {
      hide Increasing, AllDue, AllBefore;
      var previous := progress;
      var action := ActionAt(manifest.schedules[i], progress.action[i]);
      progress := Advanced(progress, i, ActionCount(manifest.schedules[i]));
      AdvanceKeeps(i, previous, now);
      var persisted := saved.Write(progress);
      if !persisted {
        progress := previous;
        return true;
      }
      taken := taken[i := taken[i] + [Taken(previous.occurrence[i], previous.action[i], action, now)]];
      failed := false;
    }

    static function Advanced(p: Progress, i: nat, actions: nat): Progress
      requires i < |p.occurrence| && i < |p.action|
    {
      if p.action[i] + 1 >= actions
      then Progress(p.occurrence[i := p.occurrence[i] + 1], p.action[i := 0])
      else Progress(p.occurrence, p.action[i := p.action[i] + 1])
    }

    lemma AdvanceKeeps(i: nat, p: Progress, now: nat)
      requires Sound(p, manifest) && i < |manifest.schedules| && manifest.schedules[i].enabled && now < manifest.validUntil
      requires p.occurrence[i] < |manifest.schedules[i].occurrences|
      requires DueAt(manifest.schedules[i], p.occurrence[i], p.action[i]) <= now
      requires Increasing(taken[i]) && AllDue(manifest.schedules[i], manifest.validUntil, taken[i])
      ensures Sound(Advanced(p, i, ActionCount(manifest.schedules[i])), manifest)
      ensures var next := Advanced(p, i, ActionCount(manifest.schedules[i]));
              var more := taken[i] + [Taken(p.occurrence[i], p.action[i], ActionAt(manifest.schedules[i], p.action[i]), now)];
              && Increasing(more) && AllDue(manifest.schedules[i], manifest.validUntil, more)
              && AllBefore(more, next.occurrence[i], next.action[i])
    {}

    /** `restoreProgress`: a schedule whose record is out of range starts over. */
    static function Restored(p: Option<Progress>, m: Manifest, capacity: nat): Progress {
      if p.None? || |p.value.occurrence| != capacity || |p.value.action| != capacity then NoProgress(capacity)
      else
        var q := p.value;
        Progress(
          seq(capacity, i requires 0 <= i < capacity => if Kept(q, m, i) then q.occurrence[i] else 0),
          seq(capacity, i requires 0 <= i < capacity => if Kept(q, m, i) then q.action[i] else 0))
    }

    static predicate Kept(q: Progress, m: Manifest, i: nat)
      requires i < |q.occurrence| && i < |q.action|
    {
      i < |m.schedules| ==>
        q.occurrence[i] <= |m.schedules[i].occurrences| && q.action[i] <= |m.schedules[i].actions|
    }

    /**
     What is restored can be run from exactly when no enabled schedule with an
     occurrence left has a stored action number one past its last action:
     `restoreProgress` lets that one through.
     */
    static lemma RestoredFitsIff(q: Progress, m: Manifest, capacity: nat)
      requires |q.occurrence| == |q.action| == capacity && |m.schedules| <= capacity
      ensures FitsManifest(Restored(Some(q), m, capacity), m, capacity)
              <==> forall i :: 0 <= i < |m.schedules| && m.schedules[i].actions != [] && m.schedules[i].enabled
                                && q.occurrence[i] < |m.schedules[i].occurrences| ==>
                     q.action[i] != |m.schedules[i].actions|
    {
      var r := Restored(Some(q), m, capacity);
      forall i | 0 <= i < |m.schedules|
        ensures InRange(m.schedules[i], r.occurrence[i], r.action[i])
                <==> (m.schedules[i].actions != [] && m.schedules[i].enabled
                      && q.occurrence[i] < |m.schedules[i].occurrences| ==>
                        q.action[i] != |m.schedules[i].actions|)
      {}
    }

    /**
     A new manifest starts at its first actions exactly when the progress on record has
     each of its schedules at the beginning or out of range. An installation whose
     progress write failed leaves that of the manifest before.
     */
    static lemma StartsOverIff(q: Progress, m: Manifest, capacity: nat)
      requires |q.occurrence| == |q.action| == capacity && |m.schedules| <= capacity
      ensures var r := Restored(Some(q), m, capacity);
              (forall i :: 0 <= i < |m.schedules| ==> r.occurrence[i] == 0 && r.action[i] == 0)
              <==> forall i :: 0 <= i < |m.schedules| && Kept(q, m, i) ==> q.occurrence[i] == 0 && q.action[i] == 0
    {
      var r := Restored(Some(q), m, capacity);
      forall i | 0 <= i < |m.schedules|
        ensures r.occurrence[i] == 0 && r.action[i] == 0
                <==> (Kept(q, m, i) ==> q.occurrence[i] == 0 && q.action[i] == 0)
      {}
    }

    /** One occurrence done under the manifest before: the first occurrence of the new one is passed over. */
    static lemma StaleProgressWitness(b: Board, a: Action)
      requires ValidId(a.datastreamId) && b.scheduleCapacity == 1 && b.occurrenceCapacity >= 2
      ensures var m := Manifest(MANIFEST_MAGIC, 2, 1, 9, 9, [CompiledSchedule("1", true, [a], a, [5, 6])], 0);
              var q := Progress([1], [0]);
              && Well(b, m.(checksum := ManifestChecksum(m)))
              && Restored(Some(q), m, 1) == q && FitsManifest(q, m, 1)
    {
      hide Fnv1a;
    }

    /** An enabled schedule of one action, its stored progress one past it: the manifest is valid, the progress kept. */
    static lemma RestoredUnfitWitness(b: Board, a: Action)
      requires ValidId(a.datastreamId) && b.scheduleCapacity == 1 && b.occurrenceCapacity >= 1
      ensures var m := Manifest(MANIFEST_MAGIC, 1, 1, 1, 1, [CompiledSchedule("1", true, [a], a, [0])], 0);
              var q := Progress([0], [1]);
              && Well(b, m.(checksum := ManifestChecksum(m)))
              && Restored(Some(q), m, 1) == q && !FitsManifest(q, m, 1)
    {
      hide Fnv1a;
      var m := Manifest(MANIFEST_MAGIC, 1, 1, 1, 1, [CompiledSchedule("1", true, [a], a, [0])], 0);
      assert m.schedules[0].enabled;
      RestoredFitsIff(Progress([0], [1]), m, 1);
    }

    /** The loop of `restoreProgress`, schedule by schedule. */
    method RestoreProgress()
      requires |manifest.schedules| <= board.scheduleCapacity
      modifies this`progress
      ensures progress == Restored(saved.content, manifest, board.scheduleCapacity)
    {
      var capacity := board.scheduleCapacity;
      if saved.content.None? || |saved.content.value.occurrence| != capacity || |saved.content.value.action| != capacity {
        progress := NoProgress(capacity);
        return;
      }
      var q := saved.content.value;
      progress := q;
      var i := 0;
      while i < |manifest.schedules|
        invariant i <= |manifest.schedules|
        invariant |progress.occurrence| == |progress.action| == capacity
        invariant forall j :: 0 <= j < i ==>
                    && progress.occurrence[j] == (if Kept(q, manifest, j) then q.occurrence[j] else 0)
                    && progress.action[j] == (if Kept(q, manifest, j) then q.action[j] else 0)
        invariant forall j :: i <= j < capacity ==>
                    progress.occurrence[j] == q.occurrence[j] && progress.action[j] == q.action[j]
      {
        if progress.occurrence[i] > |manifest.schedules[i].occurrences|
           || progress.action[i] > |manifest.schedules[i].actions| {
          progress := Progress(progress.occurrence[i := 0], progress.action[i := 0]);
        }
        i := i + 1;
      }
      assert progress.occurrence == Restored(Some(q), manifest, capacity).occurrence;
      assert progress.action == Restored(Some(q), manifest, capacity).action;
    }

    /** The checks of `valid`, in its order. */
    method ManifestValid(value: Manifest) returns (valid: bool)
      ensures valid <==> Well(board, value)
    {
      hide Fnv1a, ManifestBytes;
      if value.magic != 0x46534D32 || value.revision == 0 || value.validUntil == 0 || value.renewBefore == 0
         || |value.schedules| > board.scheduleCapacity || value.checksum != ManifestChecksum(value) {
        return false;
      }
      for i := 0 to |value.schedules|
        invariant forall j :: 0 <= j < i ==>
                    && |value.schedules[j].occurrences| <= board.occurrenceCapacity
                    && |value.schedules[j].actions| <= SCHEDULE_ACTIONS
                    && value.schedules[j].id != ""
                    && ValidId(FirstAction(value.schedules[j]).datastreamId)
      {
        var s := value.schedules[i];
        var first := if |s.actions| > 0 then s.actions[0] else s.legacy;
        if |s.occurrences| > board.occurrenceCapacity || |s.actions| > 8 || s.id == ""
           || first.datastreamId == 0 || first.datastreamId == 65535 {
          return false;
        }
      }
      valid := true;
    }

    /**
     A start after power loss: the manifest and the progress come from storage.
     Nothing is required of the volatile fields.
     */
    method Begin() returns (ok: bool)
      modifies this`manifest, this`progress, active
      ensures ok <==> old(active.content).Some? && Well(board, old(active.content).value)
      ensures ok ==> Some(manifest) == old(active.content) && active.content == old(active.content)
      ensures ok ==> progress == Restored(saved.content, manifest, board.scheduleCapacity)
      ensures ok && old(active.content.Some? && History(active.content.value)) ==>
                (Valid() <==> FitsManifest(progress, manifest, board.scheduleCapacity))
      ensures ok && SavedSound(manifest) ==> progress == saved.content.value
      ensures !ok ==> progress == old(progress) && Some(manifest) in {Some(old(manifest)), old(active.content)}
      ensures !ok ==> active.content == old(active.content) || active.content == None
    {
      hide Fnv1a, ManifestChecksum;
      if active.content.None? {
        return false;
      }
      manifest := active.content.value;
      var valid := ManifestValid(manifest);
      if !valid {
        var removed := active.Remove();
        return false;
      }
      RestoreProgress();
      SavedIsRestored();
      ok := true;
    }

    lemma SavedIsRestored()
      requires |manifest.schedules| <= board.scheduleCapacity
      ensures SavedSound(manifest) ==>
                Restored(saved.content, manifest, board.scheduleCapacity) == saved.content.value
    {
      if SavedSound(manifest) {
        var q := saved.content.value;
        forall i | 0 <= i < |manifest.schedules|
          ensures Kept(q, manifest, i)
        {
          assert InRange(manifest.schedules[i], q.occurrence[i], q.action[i]);
        }
        var r := Restored(Some(q), manifest, board.scheduleCapacity);
        assert r.occurrence == q.occurrence && r.action == q.action;
      }
    }

    /** Makes the compiled workspace the running manifest. */
    method InstallPrepared() returns (ok: bool)
      requires active != staging
      modifies this`progress, this`taken, active, staging, saved
      ensures ok ==> Well(board, manifest) && active.content == Some(manifest)
      ensures ok ==> Valid() && progress == NoProgress(board.scheduleCapacity)
      ensures ok ==> forall i :: 0 <= i < |taken| ==> taken[i] == []
      ensures ok && saved.content == Some(progress) ==> SavedSound(manifest)
      ensures ok && saved.reliable ==> SavedSound(manifest)
      ensures saved.content == old(saved.content) || saved.content == Some(NoProgress(board.scheduleCapacity))
      ensures Well(board, manifest) && staging.reliable && active.reliable ==> ok
      ensures manifest == old(manifest) && (!ok ==> progress == old(progress) && taken == old(taken))
    {
      hide Fnv1a, ManifestChecksum;
      var valid := ManifestValid(manifest);
      if !valid {
        return false;
      }
      var staged := staging.Write(manifest);
      if !staged {
        return false;
      }
      var written := active.Write(manifest);
      if !written {
        return false;
      }
      var cleared := staging.Remove();
      progress := NoProgress(board.scheduleCapacity);
      taken := seq(|manifest.schedules|, i => []);
      var persisted := saved.Write(progress);
      ok := true;
    }
  }

  /** A tick of the clock, or a power loss followed by a restart. */
  datatype Event = Tick(utcValid: bool, now: nat) | Restart

  /** What the stored progress of `r` is restored to under its manifest. */
  function Resumption(r: Runtime): Progress
    reads r, r.saved
  {
    Runtime.Restored(r.saved.content, r.manifest, r.board.scheduleCapacity)
  }

  /**
   Over any mix of runs, failed writes and power losses the actions taken of an
   installed manifest strictly advance, so none is taken twice, and each was due. A
   power loss inside a run is a write that fails, having landed or not, and a restart.
   Nothing is asked of the stored progress: an installation ignores whether its fresh
   progress was written. The events go on up to the first restart whose restored
   progress cannot be run from.
   */
  method Operate(r: Runtime, events: seq<Event>) returns (performed: nat)
    requires r.Valid() && Well(r.board, r.manifest) && r.active.content == Some(r.manifest)
    modifies r, r.saved, r.active
    ensures performed <= |events|
    ensures performed < |events| ==>
              events[performed].Restart? && !FitsManifest(Resumption(r), r.manifest, r.board.scheduleCapacity)
    ensures old(r.SavedSound(r.manifest)) ==> performed == |events|
    ensures r.manifest == old(r.manifest) && |r.taken| == |old(r.taken)|
    ensures forall i :: 0 <= i < |r.taken| ==>
              && old(r.taken)[i] <= r.taken[i]
              && Increasing(r.taken[i])
              && AllDue(r.manifest.schedules[i], r.manifest.validUntil, r.taken[i])
  {
    hide Fnv1a, ManifestChecksum, Increasing, AllDue, AllBefore, FitsManifest, Well, Runtime.Restored;
    for n := 0 to |events|
      invariant r.Valid() && Well(r.board, r.manifest) && r.active.content == Some(r.manifest)
      invariant old(r.SavedSound(r.manifest)) ==> r.SavedSound(r.manifest)
      invariant r.manifest == old(r.manifest) && |r.taken| == |old(r.taken)|
      invariant forall i :: 0 <= i < |r.taken| ==> old(r.taken)[i] <= r.taken[i]
    {
      match events[n]
      case Tick(utcValid, now) => var failed := r.Run(utcValid, now);
      case Restart =>
        WellFitsCapacity(r.board, r.manifest);
        r.SavedIsRestored();
        if !FitsManifest(Resumption(r), r.manifest, r.board.scheduleCapacity) {
          return n;
        }
        var ok := r.Begin();
    }
    performed := |events|;
  }

  lemma WellFitsCapacity(b: Board, m: Manifest)
    requires Well(b, m)
    ensures |m.schedules| <= b.scheduleCapacity
  {
    hide Fnv1a, ManifestChecksum;
  }
}
