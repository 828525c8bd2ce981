/** Compiles schedule records and their ordered occurrence chunks into a manifest. */
module ScheduleCompiler {
  import opened Options
  import opened Bytes
  import opened Fnv
  import opened ConfigurationUnits
  import opened ScheduleManifests

  const RENEW_BEFORE_MS: nat := 14 * 24 * 60 * 60 * 1000

  /** `snprintf("%lu")`. */
  function Decimal(n: nat): (s: string)
    ensures s != ""
  {
    if n < 10 then ["0123456789"[n]] else Decimal(n / 10) + ["0123456789"[n % 10]]
  }

  function DigitValue(c: char): nat {
    if '0' <= c <= '9' then (c as int) - ('0' as int) else 0
  }

  /** `strtoul` on a text of digits. */
  function ParseDecimal(s: string): nat {
    if s == "" then 0 else ParseDecimal(s[..|s| - 1]) * 10 + DigitValue(s[|s| - 1])
  }

  lemma DigitRoundTrip(d: nat)
    requires d < 10
    ensures DigitValue("0123456789"[d]) == d
  {}

  lemma {:induction false} DecimalRoundTrip(n: nat)
    ensures ParseDecimal(Decimal(n)) == n
  {
    if n < 10 {
      DigitRoundTrip(n);
      assert Decimal(n)[..0] == "";
    } else {
      DecimalRoundTrip(n / 10);
      DigitRoundTrip(n % 10);
      assert Decimal(n)[..|Decimal(n)| - 1] == Decimal(n / 10);
    }
  }

  /** The schedule units of a list, in order. */
  function Schedules(us: seq<Unit>): (r: seq<Unit>)
    ensures forall i :: 0 <= i < |r| ==> r[i].Schedule?
  {
    if us == [] then []
    else Schedules(us[..|us| - 1]) + (if us[|us| - 1].Schedule? then [us[|us| - 1]] else [])
  }

  lemma {:induction false} SchedulesIds(us: seq<Unit>)
    ensures |Schedules(us)| == |ScheduleIds(us)|
    ensures forall i :: 0 <= i < |Schedules(us)| ==> Schedules(us)[i].id == ScheduleIds(us)[i]
    ensures forall i :: 0 <= i < |Schedules(us)| ==> Schedules(us)[i] in us
  {
    if us != [] {
      SchedulesIds(us[..|us| - 1]);
    }
  }

  /** What slot `i` of the manifest stands for: the schedule and all its occurrences in order. */
  ghost predicate Compiled(s: CompiledSchedule, u: Unit, times: seq<nat>)
    requires u.Schedule? && u.actions != []
  {
    && s.id == Decimal(u.id) && s.enabled == u.enabled
    && s.actions == u.actions && s.legacy == u.actions[0]
    && s.occurrences == times
  }

  class Compiler {
    const board: Board
    var manifest: Manifest
    var chunkCount: seq<nat>
    var chunkTotals: seq<nat>
    var started: bool

    constructor (board: Board)
      ensures this.board == board && !started
    {
      this.board := board;
      manifest := EMPTY_MANIFEST;
      chunkCount, chunkTotals, started := [], [], false;
    }

    method Begin(revision: nat, generatedAt: nat, validUntil: nat, renewBefore: nat, scheduleCount: nat)
      returns (ok: bool)
      modifies this
      ensures ok <==> revision != 0 && validUntil != 0 && renewBefore != 0 && scheduleCount <= board.scheduleCapacity
      ensures ok ==> started && Progressed([], scheduleCount)
      ensures ok ==> manifest == Manifest(MANIFEST_MAGIC, revision, generatedAt, validUntil, renewBefore,
                                          manifest.schedules, 0)
    {
      if revision == 0 || validUntil == 0 || renewBefore == 0 || scheduleCount > board.scheduleCapacity {
        return false;
      }
      manifest := Manifest(MANIFEST_MAGIC, revision, generatedAt, validUntil, renewBefore,
                           seq(scheduleCount, i => EMPTY_SCHEDULE), 0);
      chunkCount := seq(scheduleCount, i => 0);
      chunkTotals := seq(scheduleCount, i => 0);
      started := true;
      ok := true;
    }

    /** The slots hold what the units so far describe; the rest are empty. */
    ghost predicate Progressed(us: seq<Unit>, count: nat)
      reads this
    {
      var ss := Schedules(us);
      && |manifest.schedules| == |chunkCount| == |chunkTotals| == count
      && |ss| <= count
      && (forall i :: 0 <= i < |ss| ==>
            && ss[i].actions != []
            && Compiled(manifest.schedules[i], ss[i], TimesOf(us, ss[i].id))
            && chunkCount[i] == ChunksOf(us, ss[i].id)
            && chunkTotals[i] == AnnouncedOf(us, ss[i].id))
      && forall i :: |ss| <= i < count ==> manifest.schedules[i].id == "" && chunkCount[i] == 0 && chunkTotals[i] == 0
    }

    /** The slot of a schedule id, or the slot count. */
    method SlotOf(id: nat) returns (slot: nat)
      ensures slot <= |manifest.schedules|
      ensures slot < |manifest.schedules| ==>
                manifest.schedules[slot].id != "" && ParseDecimal(manifest.schedules[slot].id) == id
      ensures forall i :: 0 <= i < slot ==>
                !(manifest.schedules[i].id != "" && ParseDecimal(manifest.schedules[i].id) == id)
    {
      hide ParseDecimal;
      slot := 0;
      while slot < |manifest.schedules|
            && !(manifest.schedules[slot].id != "" && ParseDecimal(manifest.schedules[slot].id) == id)
        invariant slot <= |manifest.schedules|
        invariant forall i :: 0 <= i < slot ==>
                    !(manifest.schedules[i].id != "" && ParseDecimal(manifest.schedules[i].id) == id)
      {
        slot := slot + 1;
      }
    }

    method FreeSlot() returns (slot: nat)
      ensures slot <= |manifest.schedules|
      ensures slot < |manifest.schedules| ==> manifest.schedules[slot].id == ""
      ensures forall i :: 0 <= i < slot ==> manifest.schedules[i].id != ""
    {
      slot := 0;
      while slot < |manifest.schedules| && manifest.schedules[slot].id != ""
        invariant slot <= |manifest.schedules|
        invariant forall i :: 0 <= i < slot ==> manifest.schedules[i].id != ""
      {
        slot := slot + 1;
      }
    }

    /** With the units so far in the slots, a declared id is found where it belongs. */
    lemma SlotFound(us: seq<Unit>, count: nat, id: nat, slot: nat)
      requires Progressed(us, count) && SchedulesValid(board, us) && slot <= count
      requires slot < count ==> manifest.schedules[slot].id != "" && ParseDecimal(manifest.schedules[slot].id) == id
      requires forall i :: 0 <= i < slot ==>
                 !(manifest.schedules[i].id != "" && ParseDecimal(manifest.schedules[i].id) == id)
      ensures |Schedules(us)| == |ScheduleIds(us)|
      ensures slot < count <==> id in ScheduleIds(us)
      ensures slot < count ==> slot < |Schedules(us)| && ScheduleIds(us)[slot] == id
    {
      hide SchedulesValid, Decimal, ParseDecimal;
      SchedulesIds(us);
      forall i | 0 <= i < |Schedules(us)|
        ensures manifest.schedules[i].id != "" && ParseDecimal(manifest.schedules[i].id) == ScheduleIds(us)[i]
      {
        DecimalRoundTrip(ScheduleIds(us)[i]);
        DecimalNonempty(ScheduleIds(us)[i]);
      }
      if id in ScheduleIds(us) {
        var i :| 0 <= i < |ScheduleIds(us)| && ScheduleIds(us)[i] == id;
      }
    }

    static lemma DecimalNonempty(n: nat)
      ensures Decimal(n) != ""
    {}

    /** The slot of a schedule: its own if it was added before, else the first free one. */
    static predicate TakesSlot(us: seq<Unit>, id: nat, slot: nat) {
      slot <= |ScheduleIds(us)|
      && if slot < |ScheduleIds(us)| then ScheduleIds(us)[slot] == id else id !in ScheduleIds(us)
    }

    /**
     Puts a schedule into its slot. One that was there before is overwritten: its
     occurrences and chunk count start over, the announced chunk total stays.
     */
    method AddSchedule(u: Unit, ghost us: seq<Unit>, ghost count: nat) returns (ok: bool)
      requires u.Schedule? && Progressed(us, count) && SchedulesValid(board, us) && ChunksValid(board, us)
      modifies this`manifest, this`chunkCount
      ensures manifest.(schedules := []) == old(manifest).(schedules := [])
      ensures started && Fits(board, us, u) && |Schedules(us)| < count
              && (forall a :: 0 <= a < |u.actions| ==> ValidId(u.actions[a].datastreamId)) ==>
                ok && Progressed(us + [u], count)
      ensures ok <==>
                && started && 0 < |u.actions| <= SCHEDULE_ACTIONS
                && (u.id in ScheduleIds(us) || |Schedules(us)| < count)
                && forall a :: 0 <= a < |u.actions| ==> ValidId(u.actions[a].datastreamId)
      ensures ok ==> exists slot :: 0 <= slot < count && TakesSlot(us, u.id, slot)
      ensures ok ==> forall slot :: 0 <= slot < count && TakesSlot(us, u.id, slot) ==>
                && manifest.schedules == old(manifest).schedules[
                     slot := CompiledSchedule(Decimal(u.id), u.enabled, u.actions, u.actions[0], [])]
                && chunkCount == old(chunkCount)[slot := 0]
      ensures |manifest.schedules| == |chunkCount| == count
      ensures !ok ==> forall i :: 0 <= i < count && !TakesSlot(us, u.id, i) ==>
                manifest.schedules[i] == old(manifest).schedules[i] && chunkCount[i] == old(chunkCount)[i]
    {
      hide SchedulesValid, ChunksValid, Schedules, ScheduleIds, ChunksOf, TimesOf, AnnouncedOf, Decimal;
      if !started || |u.actions| == 0 || |u.actions| > SCHEDULE_ACTIONS {
        return false;
      }
      var slot := SlotOf(u.id);
      SlotFound(us, count, u.id, slot);
      if slot == |manifest.schedules| {
        slot := FreeSlot();
        FreeFound(us, count, slot);
      }
      OneSlot(us, u.id, slot);
      if slot == |manifest.schedules| {
        return false;
      }
      var i := 0;
      while i < |u.actions| && ValidId(u.actions[i].datastreamId)
        invariant i <= |u.actions|
        invariant forall a :: 0 <= a < i ==> ValidId(u.actions[a].datastreamId)
        modifies {}
      {
        i := i + 1;
      }
      var compiled := CompiledSchedule(Decimal(u.id), u.enabled, u.actions, u.actions[0], []);
      manifest := manifest.(schedules := manifest.schedules[slot := compiled]);
      chunkCount := chunkCount[slot := 0];
      ok := i == |u.actions|;
      assert TakesSlot(us, u.id, slot);
      if Fits(board, us, u) && |Schedules(us)| < count {
        ScheduleAdds(us, u);
      }
    }

    lemma OneSlot(us: seq<Unit>, id: nat, slot: nat)
      requires SchedulesValid(board, us) && slot <= |Schedules(us)| == |ScheduleIds(us)|
      requires if slot < |ScheduleIds(us)| then ScheduleIds(us)[slot] == id else id !in ScheduleIds(us)
      ensures forall i: nat :: TakesSlot(us, id, i) <==> i == slot
    {
      hide ScheduleIds, SchedulesValid, ChunksValid;
      ScheduleIdsDistinct(board, us);
    }

    lemma FreeFound(us: seq<Unit>, count: nat, slot: nat)
      requires Progressed(us, count) && slot <= count
      requires slot < count ==> manifest.schedules[slot].id == ""
      requires forall i :: 0 <= i < slot ==> manifest.schedules[i].id != ""
      ensures slot == |Schedules(us)|
    {
      hide Decimal, Schedules;
      forall i | 0 <= i < |Schedules(us)|
        ensures manifest.schedules[i].id != ""
      {
        DecimalNonempty(Schedules(us)[i].id);
      }
      assert |Schedules(us)| < count ==> manifest.schedules[|Schedules(us)|].id == "";
    }

    lemma ScheduleAdds(us: seq<Unit>, u: Unit)
      requires u.Schedule? && u.id !in ScheduleIds(us) && ChunksValid(board, us)
      ensures Schedules(us + [u]) == Schedules(us) + [u]
      ensures TimesOf(us + [u], u.id) == [] && ChunksOf(us + [u], u.id) == 0 && AnnouncedOf(us + [u], u.id) == 0
      ensures forall id :: TimesOf(us + [u], id) == TimesOf(us, id) && ChunksOf(us + [u], id) == ChunksOf(us, id)
                           && AnnouncedOf(us + [u], id) == AnnouncedOf(us, id)
    {
      Front(us, u);
      UndeclaredHasNoChunks(board, us, u.id);
    }

    /** The chunk that comes next for a schedule that has been added: no gap, no repetition, no overflow. */
    predicate NextChunk(us: seq<Unit>, u: Unit)
      requires u.Occurrences?
    {
      && u.chunkIndex < u.chunkCount && 0 < |u.times| <= OCCURRENCE_CHUNK
      && u.scheduleId in ScheduleIds(us) && u.chunkIndex == ChunksOf(us, u.scheduleId)
      && |TimesOf(us, u.scheduleId)| + |u.times| <= board.occurrenceCapacity
    }

    method AddOccurrences(u: Unit, ghost us: seq<Unit>, ghost count: nat) returns (ok: bool)
      requires u.Occurrences? && Progressed(us, count) && SchedulesValid(board, us)
      modifies this`manifest, this`chunkCount, this`chunkTotals
      ensures manifest.(schedules := []) == old(manifest).(schedules := [])
      ensures ok <==> started && NextChunk(us, u)
      ensures ok ==> Progressed(us + [u], count)
      ensures !ok ==> manifest == old(manifest) && chunkCount == old(chunkCount) && chunkTotals == old(chunkTotals)
      ensures Fits(board, us, u) ==> NextChunk(us, u)
    {
      hide SchedulesValid, ChunksValid, Schedules, ScheduleIds, ChunksOf, TimesOf, AnnouncedOf, Decimal;
      if !started || u.chunkCount == 0 || u.chunkIndex >= u.chunkCount || |u.times| == 0 || |u.times| > OCCURRENCE_CHUNK {
        return false;
      }
      var slot := SlotOf(u.scheduleId);
      SlotFound(us, count, u.scheduleId, slot);
      SchedulesIds(us);
      if slot == |manifest.schedules| || u.chunkIndex != chunkCount[slot]
         || |manifest.schedules[slot].occurrences| + |u.times| > board.occurrenceCapacity {
        return false;
      }
      var target := manifest.schedules[slot];
      chunkTotals := chunkTotals[slot := u.chunkCount];
      manifest := manifest.(schedules := manifest.schedules[slot := target.(occurrences := target.occurrences + u.times)]);
      chunkCount := chunkCount[slot := chunkCount[slot] + 1];
      ok := true;
      OccurrencesAdd(us, u);
      ScheduleIdsDistinct(board, us);
    }

    lemma OccurrencesAdd(us: seq<Unit>, u: Unit)
      requires u.Occurrences?
      ensures Schedules(us + [u]) == Schedules(us)
      ensures forall id ::
                if id == u.scheduleId then
                  && TimesOf(us + [u], id) == TimesOf(us, id) + u.times
                  && ChunksOf(us + [u], id) == ChunksOf(us, id) + 1
                  && AnnouncedOf(us + [u], id) == u.chunkCount
                else
                  && TimesOf(us + [u], id) == TimesOf(us, id)
                  && ChunksOf(us + [u], id) == ChunksOf(us, id)
                  && AnnouncedOf(us + [u], id) == AnnouncedOf(us, id)
    {
      Front(us, u);
    }

    lemma OtherAdds(us: seq<Unit>, u: Unit)
      requires !u.Occurrences? && !u.Schedule?
      ensures Schedules(us + [u]) == Schedules(us)
      ensures forall id :: TimesOf(us + [u], id) == TimesOf(us, id) && ChunksOf(us + [u], id) == ChunksOf(us, id)
                           && AnnouncedOf(us + [u], id) == AnnouncedOf(us, id)
    {
      Front(us, u);
    }

    method Finish() returns (ok: bool)
      requires |manifest.schedules| == |chunkCount| == |chunkTotals|
      modifies this`manifest, this`started
      ensures manifest == old(manifest).(checksum := manifest.checksum)
      ensures ok <==> old(started) && forall i :: 0 <= i < |manifest.schedules| ==>
                        && manifest.schedules[i].id != "" && chunkTotals[i] != 0 && chunkCount[i] == chunkTotals[i]
      ensures ok ==> manifest.checksum == ManifestChecksum(manifest)
      ensures started == (old(started) && !ok)
    {
      hide Fnv1a;
      if !started {
        return false;
      }
      var i := 0;
      while i < |manifest.schedules|
        invariant i <= |manifest.schedules|
        invariant forall k :: 0 <= k < i ==>
                    && manifest.schedules[k].id != "" && chunkTotals[k] != 0 && chunkCount[k] == chunkTotals[k]
        modifies {}
      {
        if manifest.schedules[i].id == "" || chunkTotals[i] == 0 || chunkCount[i] != chunkTotals[i] {
          return false;
        }
        i := i + 1;
      }
      manifest := manifest.(checksum := ManifestChecksum(manifest));
      started := false;
      ok := true;
    }
  }

  function Earliest(x: nat, y: nat): nat { if x == 0 || y < x then y else x }

  /** The validity end of a whole configuration: the earliest of its schedules. */
  function ValidUntilOf(us: seq<Unit>): nat {
    if us == [] then 0
    else
      var v := ValidUntilOf(us[..|us| - 1]);
      if us[|us| - 1].Schedule? then Earliest(v, us[|us| - 1].validUntil) else v
  }

  function GeneratedAtOf(us: seq<Unit>): nat {
    if us == [] then 0
    else
      var v := GeneratedAtOf(us[..|us| - 1]);
      if us[|us| - 1].Schedule? then Earliest(v, us[|us| - 1].validFrom) else v
  }

  /** It ends no later than any schedule, and no earlier than all of them. */
  lemma {:induction false} ValidUntilIsEarliest(us: seq<Unit>)
    requires forall i :: 0 <= i < |us| && us[i].Schedule? ==> us[i].validUntil != 0
    ensures forall i :: 0 <= i < |us| && us[i].Schedule? ==> ValidUntilOf(us) <= us[i].validUntil
    ensures ValidUntilOf(us) != 0 ==> exists i :: 0 <= i < |us| && us[i].Schedule? && us[i].validUntil == ValidUntilOf(us)
    ensures ValidUntilOf(us) == 0 <==> ScheduleIds(us) == []
  {
    if us != [] {
      var n := |us| - 1;
      ValidUntilIsEarliest(us[..n]);
      forall i | 0 <= i < n && us[i].Schedule?
        ensures us[i].id in ScheduleIds(us[..n]) && us[..n][i] == us[i]
      {
        ScheduleIdsMember(us[..n], us[i].id);
        assert us[..n][i].Schedule?;
      }
    }
  }

  /**
   A start of zero counts as none, so the generation time is the earliest start of the
   schedules after the last one that starts at zero.
   */
  lemma {:induction false} GeneratedAtIsEarliest(us: seq<Unit>, n: nat)
    requires n <= |us| && (n > 0 ==> us[n - 1].Schedule? && us[n - 1].validFrom == 0)
    requires forall i :: n <= i < |us| && us[i].Schedule? ==> us[i].validFrom != 0
    ensures forall i :: n <= i < |us| && us[i].Schedule? ==> 0 < GeneratedAtOf(us) <= us[i].validFrom
    ensures GeneratedAtOf(us) != 0 ==>
              exists i :: n <= i < |us| && us[i].Schedule? && us[i].validFrom == GeneratedAtOf(us)
  {
    if n < |us| {
      var m := |us| - 1;
      GeneratedAtIsEarliest(us[..m], n);
      if GeneratedAtOf(us[..m]) != 0 {
        var i :| n <= i < m && us[..m][i].Schedule? && us[..m][i].validFrom == GeneratedAtOf(us[..m]);
        assert us[i] == us[..m][i];
      }
    }
  }

  /** Renewal is asked for 14 days before the end, or at the end of a shorter validity. */
  predicate RenewedInTime(m: Manifest) {
    m.validUntil == if m.validUntil > 14 * 24 * 3600 * 1000 then m.renewBefore + 14 * 24 * 3600 * 1000 else m.renewBefore
  }

  /** Every schedule slot holds its schedule with its chunks in order, and the manifest may run. */
  ghost predicate Faithful(b: Board, m: Manifest, revision: nat, us: seq<Unit>) {
    && Well(b, m) && m.revision == revision && m.validUntil == ValidUntilOf(us)
    && m.generatedAt == GeneratedAtOf(us) && RenewedInTime(m)
    && |m.schedules| == |Schedules(us)|
    && forall i :: 0 <= i < |m.schedules| ==>
         && Schedules(us)[i].actions != []
         && Compiled(m.schedules[i], Schedules(us)[i], TimesOf(us, Schedules(us)[i].id))
  }

  lemma DeclaredIsUsable(b: Board, us: seq<Unit>, id: nat)
    requires Admissible(b, us) && id in DatastreamIds(us)
    ensures ValidId(id)
  {
    DatastreamIdsMember(us, id);
  }

  lemma ActionsUsable(b: Board, us: seq<Unit>, i: nat)
    requires ValidList(b, us) && i < |us| && us[i].Schedule?
    ensures forall a :: 0 <= a < |us[i].actions| ==> ValidId(us[i].actions[a].datastreamId)
  {
    hide Admissible;
    forall a | 0 <= a < |us[i].actions|
      ensures ValidId(us[i].actions[a].datastreamId)
    {
      assert Resolved(us, us[i]);
      DeclaredIsUsable(b, us, us[i].actions[a].datastreamId);
    }
  }

  lemma {:induction false} ScheduleCountMonotone(us: seq<Unit>, n: nat)
    requires n <= |us|
    ensures |Schedules(us[..n])| <= |Schedules(us)|
    ensures n < |us| && us[n].Schedule? ==> |Schedules(us[..n])| < |Schedules(us)|
  {
    if n < |us| {
      var m := |us| - 1;
      ScheduleCountMonotone(us[..m], n);
      assert us[..m][..n] == us[..n];
    } else {
      assert us[..n] == us;
    }
  }

  /** Applies one unit of a valid list, with the compiler on or off, as `applyScheduleUnit` does. */
  method ApplyUnit(compiler: Compiler, compiling: bool, us: seq<Unit>, n: nat) returns (ok: bool)
    requires ValidList(compiler.board, us) && n < |us| && compiling == (Schedules(us) != [])
    requires compiling ==> compiler.started && compiler.Progressed(us[..n], |Schedules(us)|)
    modifies compiler`manifest, compiler`chunkCount, compiler`chunkTotals
    ensures ok && (compiling ==> compiler.Progressed(us[..n + 1], |Schedules(us)|))
    ensures compiler.manifest.(schedules := []) == old(compiler.manifest).(schedules := [])
    ensures !compiling ==> compiler.manifest == old(compiler.manifest)
  {
    if compiling {
      ok := CompileUnit(compiler, us, n);
    } else {
      NoSchedules(compiler.board, us, n);
      ok := !us[n].Schedule? && !us[n].Occurrences?;
    }
  }

  method CompileUnit(compiler: Compiler, us: seq<Unit>, n: nat) returns (ok: bool)
    requires ValidList(compiler.board, us) && n < |us| && compiler.started
    requires compiler.Progressed(us[..n], |Schedules(us)|)
    modifies compiler`manifest, compiler`chunkCount, compiler`chunkTotals
    ensures ok && compiler.Progressed(us[..n + 1], |Schedules(us)|)
    ensures compiler.manifest.(schedules := []) == old(compiler.manifest).(schedules := [])
  {
    hide DatastreamsValid, MappingsValid, SystemsValid, SchedulesValid, ChunksValid, Schedules, ScheduleIds, Fits;
    hide Resolved, SchedulesComplete, KeysDistinct, Usable, TimesOf, ChunksOf, AnnouncedOf;
    var u := us[n];
    assert us[..n + 1] == us[..n] + [u];
    AdmissiblePrefix(compiler.board, us, n);
    AdmissiblePrefix(compiler.board, us, n + 1);
    AdmissibleExtend(compiler.board, us[..n], u);
    match u
    case Schedule(_, _, _, _, _) =>
      ActionsUsable(compiler.board, us, n);
      ScheduleCountMonotone(us, n);
      ok := compiler.AddSchedule(u, us[..n], |Schedules(us)|);
    case Occurrences(_, _, _, _) =>
      ok := compiler.AddOccurrences(u, us[..n], |Schedules(us)|);
    case _ =>
      compiler.OtherAdds(us[..n], u);
      ok := true;
  }

  /** A valid list without schedules has no chunks either. */
  lemma NoSchedules(b: Board, us: seq<Unit>, n: nat)
    requires ValidList(b, us) && n < |us| && Schedules(us) == []
    ensures !us[n].Schedule? && !us[n].Occurrences?
  {
    hide ValidList, Schedules, ScheduleIds;
    ScheduleCountMonotone(us, n);
    SchedulesIds(us[..n]);
    if us[n].Occurrences? {
      ChunkDeclared(b, us, n);
    }
  }

  lemma ChunkDeclared(b: Board, us: seq<Unit>, n: nat)
    requires ValidList(b, us) && n < |us| && us[n].Occurrences?
    ensures us[n].scheduleId in ScheduleIds(us[..n])
  {
    hide DatastreamsValid, MappingsValid, SystemsValid, SchedulesValid, SchedulesComplete, Resolved, KeysDistinct, Usable,
      ScheduleIds, TimesOf, ChunksOf, IsChunk;
    assert ChunkInPlace(us, n);
  }

  /** The source refuses here what the verifier has not let through: too many schedules, or one without an end. */
  lemma NoneRefused(b: Board, us: seq<Unit>, n: nat)
    requires ValidList(b, us) && n < |us| && us[n].Schedule?
    ensures |Schedules(us[..n])| < b.scheduleCapacity && us[n].validUntil != 0
  {
    ScheduleCountMonotone(us, n);
    SchedulesIds(us);
  }

  /**
   Every list the verifier accepts compiles: no step is refused, and the manifest
   passes the runtime's check and holds each schedule's chunks in order. Without
   schedules the compiler stays off and lets every unit pass.
   */
  method Compile(compiler: Compiler, revision: nat, us: seq<Unit>) returns (ok: bool)
    requires ValidList(compiler.board, us)
    modifies compiler
    ensures ok <==> revision != 0 || Schedules(us) == []
    ensures ok && Schedules(us) != [] ==> Faithful(compiler.board, compiler.manifest, revision, us)
    ensures Schedules(us) == [] ==> compiler.manifest == old(compiler.manifest)
  {
    hide ValidList, Faithful, TimesOf, ChunksOf, AnnouncedOf, Fnv1a, Well, RenewedInTime;
    var scheduleCount, generatedAt, validUntil := Survey(compiler.board, us);
    var compiling := scheduleCount != 0;
    if compiling {
      ok := Prepare(compiler, revision, scheduleCount, generatedAt, validUntil, us);
      if !ok {
        return;
      }
    }
    ghost var prepared := compiler.manifest;
    ok := ApplyAll(compiler, compiling, us);
    if compiling {
      AllReceived(compiler, us);
      ok := compiler.Finish();
      RenewalKept(prepared, compiler.manifest);
      IsFaithful(compiler, revision, us);
    }
  }

  /** The pass of `stepConfigurationSchedules`: how many schedules, and their common times; none is refused. */
  method Survey(b: Board, us: seq<Unit>) returns (scheduleCount: nat, generatedAt: nat, validUntil: nat)
    requires ValidList(b, us)
    ensures scheduleCount == |Schedules(us)| && generatedAt == GeneratedAtOf(us) && validUntil == ValidUntilOf(us)
  {
    hide ValidList;
    scheduleCount, generatedAt, validUntil := 0, 0, 0;
    var ok := true;
    var i := 0;
    while i < |us| && ok
      invariant i <= |us| && ok
      invariant scheduleCount == |Schedules(us[..i])|
      invariant generatedAt == GeneratedAtOf(us[..i]) && validUntil == ValidUntilOf(us[..i])
    {
      Front(us[..i], us[i]);
      assert us[..i + 1] == us[..i] + [us[i]];
      OneMoreSchedule(us[..i], us[i]);
      if us[i].Schedule? {
        NoneRefused(b, us, i);
        ok := scheduleCount < b.scheduleCapacity && us[i].validUntil != 0;
        scheduleCount := scheduleCount + 1;
        generatedAt := if generatedAt == 0 || us[i].validFrom < generatedAt then us[i].validFrom else generatedAt;
        validUntil := if validUntil == 0 || us[i].validUntil < validUntil then us[i].validUntil else validUntil;
      }
      i := i + 1;
    }
    assert us[..i] == us;
  }

  /** Starts the compiler with the common times; renewal is due two weeks ahead of the end. */
  method Prepare(compiler: Compiler, revision: nat, scheduleCount: nat, generatedAt: nat, validUntil: nat, us: seq<Unit>)
    returns (ok: bool)
    requires ValidList(compiler.board, us) && scheduleCount == |Schedules(us)| > 0
    requires generatedAt == GeneratedAtOf(us) && validUntil == ValidUntilOf(us)
    modifies compiler
    ensures ok <==> revision != 0
    ensures ok ==> compiler.started && compiler.Progressed([], scheduleCount)
    ensures ok ==>
              var m := compiler.manifest;
              && m.magic == MANIFEST_MAGIC && m.revision == revision && m.validUntil == ValidUntilOf(us) != 0
              && m.generatedAt == GeneratedAtOf(us) && RenewedInTime(m) && m.renewBefore != 0
  {
    hide ValidList;
    Prepared(compiler.board, us);
    var renewBefore := if validUntil > RENEW_BEFORE_MS then validUntil - RENEW_BEFORE_MS else validUntil;
    ok := compiler.Begin(revision, generatedAt, validUntil, renewBefore, scheduleCount);
  }

  lemma RenewalKept(m: Manifest, n: Manifest)
    requires m.validUntil == n.validUntil && m.renewBefore == n.renewBefore
    ensures RenewedInTime(m) <==> RenewedInTime(n)
  {}

  method ApplyAll(compiler: Compiler, compiling: bool, us: seq<Unit>) returns (ok: bool)
    requires ValidList(compiler.board, us) && compiling == (Schedules(us) != [])
    requires compiling ==> compiler.started && compiler.Progressed([], |Schedules(us)|)
    modifies compiler`manifest, compiler`chunkCount, compiler`chunkTotals
    ensures ok && (compiling ==> compiler.Progressed(us, |Schedules(us)|))
    ensures compiler.manifest.(schedules := []) == old(compiler.manifest).(schedules := [])
    ensures !compiling ==> compiler.manifest == old(compiler.manifest)
  {
    hide ValidList, TimesOf, ChunksOf, AnnouncedOf, Schedules;
    assert us[..0] == [];
    ok := true;
    var i := 0;
    while i < |us| && ok
      invariant i <= |us| && ok && (compiling ==> compiler.Progressed(us[..i], |Schedules(us)|))
      invariant compiler.manifest.(schedules := []) == old(compiler.manifest).(schedules := [])
      invariant !compiling ==> compiler.manifest == old(compiler.manifest)
    {
      ok := ApplyUnit(compiler, compiling, us, i);
      i := i + 1;
    }
    assert us[..i] == us;
  }

  lemma OneMoreSchedule(us: seq<Unit>, u: Unit)
    ensures |Schedules(us + [u])| == |Schedules(us)| + (if u.Schedule? then 1 else 0)
  {
    Front(us, u);
  }

  lemma Prepared(b: Board, us: seq<Unit>)
    requires ValidList(b, us) && Schedules(us) != []
    ensures ValidUntilOf(us) != 0 && |Schedules(us)| <= b.scheduleCapacity
  {
    SchedulesIds(us);
    ValidUntilIsEarliest(us);
  }

  lemma AllReceived(compiler: Compiler, us: seq<Unit>)
    requires ValidList(compiler.board, us) && compiler.Progressed(us, |Schedules(us)|)
    ensures forall i :: 0 <= i < |Schedules(us)| ==>
              && compiler.manifest.schedules[i].id != "" && compiler.chunkTotals[i] != 0
              && compiler.chunkCount[i] == compiler.chunkTotals[i]
  {
    hide Schedules, Decimal, TimesOf, ChunksOf, AnnouncedOf, DatastreamsValid, MappingsValid, SystemsValid,
      SchedulesValid, ChunksValid;
    SchedulesIds(us);
    forall i | 0 <= i < |Schedules(us)|
      ensures && compiler.manifest.schedules[i].id != "" && compiler.chunkTotals[i] != 0
              && compiler.chunkCount[i] == compiler.chunkTotals[i]
    {
      var u := Schedules(us)[i];
      assert u in us;
      CompleteIff(compiler.board, us, u.id);
      Compiler.DecimalNonempty(u.id);
    }
  }

  lemma IsFaithful(compiler: Compiler, revision: nat, us: seq<Unit>)
    requires ValidList(compiler.board, us) && compiler.Progressed(us, |Schedules(us)|)
    requires var m := compiler.manifest;
             && m.magic == MANIFEST_MAGIC && m.revision == revision != 0 && m.validUntil == ValidUntilOf(us) != 0
             && m.generatedAt == GeneratedAtOf(us) && RenewedInTime(m) && m.renewBefore != 0 && m.checksum == ManifestChecksum(m)
    ensures Faithful(compiler.board, compiler.manifest, revision, us)
  {
    hide Schedules, Decimal, ChunksOf, AnnouncedOf, ManifestChecksum, DatastreamsValid, MappingsValid, SystemsValid, Resolved,
      TimesOf, KeysDistinct, SchedulesComplete, Usable;
    SchedulesIds(us);
    forall i | 0 <= i < |Schedules(us)|
      ensures var s := compiler.manifest.schedules[i];
              && |s.occurrences| <= compiler.board.occurrenceCapacity && |s.actions| <= SCHEDULE_ACTIONS
              && s.id != "" && ValidId(FirstAction(s).datastreamId)
    {
      var u := Schedules(us)[i];
      var k :| 0 <= k < |us| && us[k] == u;
      ActionsUsable(compiler.board, us, k);
      Compiler.DecimalNonempty(u.id);
      assert |TimesOf(us, u.id)| <= compiler.board.occurrenceCapacity;
    }
  }
}
