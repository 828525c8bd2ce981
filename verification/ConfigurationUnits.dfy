/** Decoded configuration units, and what makes a whole ordered list of them valid. */
module ConfigurationUnits {
  import opened Options

  const SCHEDULE_ACTIONS: nat := 8
  const OCCURRENCE_CHUNK: nat := 16
  const KEY_BYTES: nat := 48
  const NO_PULL: nat := 255
  const FACTORY_RESET_ID: nat := 65535

  datatype MappingKind = DigitalInput | DigitalOutput | AnalogInput | PwmOutput

  datatype Mapping = Mapping(kind: MappingKind, pin: nat, pull: Option<nat>)

  datatype Value = Boolean(b: bool) | Int64(i: int) | Float32(f: nat) | Float64(d: nat) | Text(t: string)

  datatype Action = Action(offsetMs: nat, datastreamId: nat, value: Value)

  /** `Malformed` stands for a record body that cannot be decoded. */
  datatype Unit =
    | Datastream(id: nat, key: string, mapping: Option<Mapping>)
    | System(statusLedPin: Option<nat>, factoryResetPin: Option<nat>, factoryResetActiveLow: Option<bool>)
    | Schedule(id: nat, enabled: bool, validFrom: nat, validUntil: nat, actions: seq<Action>)
    | Safety(datastreamId: nat)
    | Occurrences(scheduleId: nat, chunkIndex: nat, chunkCount: nat, times: seq<nat>)
    | Parameter(name: string)
    | Malformed

  /**
   The capacities of a board profile. `accepts` is the verdict of the device and
   the hardware on one unit alone; `inputMode` is the pin policy for a pull.
   */
  datatype Board = Board(
    datastreamCapacity: nat, scheduleCapacity: nat, occurrenceCapacity: nat, pinCapacity: nat,
    automaticMapping: bool, statusIndicator: bool, inputSlots: nat, outputSlots: nat,
    accepts: Unit -> bool, inputMode: (nat, nat) -> bool)

  predicate ValidId(id: nat) { id != 0 && id != FACTORY_RESET_ID }

  predicate Usable(b: Board, u: Unit) {
    !u.Malformed? && b.accepts(u) && (u.Datastream? ==> ValidId(u.id) && 0 < |u.key| <= KEY_BYTES)
  }

  predicate IsInput(m: Mapping) { m.kind.DigitalInput? || m.kind.AnalogInput? }

  /** The mapping a unit claims a pin with, if the board maps automatically. */
  function Claim(b: Board, u: Unit): Option<Mapping> {
    if b.automaticMapping && u.Datastream? then u.mapping else None
  }

  function PullOf(m: Mapping): nat {
    if !m.kind.DigitalInput? then NO_PULL else if m.pull.Some? then m.pull.value else 0
  }

  function StatusLed(b: Board, u: Unit): Option<nat>
    requires u.System?
  {
    if b.automaticMapping && b.statusIndicator then u.statusLedPin else None
  }

  function ResetPin(b: Board, u: Unit): Option<nat>
    requires u.System?
  {
    if b.automaticMapping then u.factoryResetPin else None
  }

  function DefaultPull(u: Unit): nat
    requires u.System?
  {
    if u.factoryResetActiveLow == Some(false) then 0 else 1
  }

  // ---- What a list contains ----

  function DatastreamIds(us: seq<Unit>): seq<nat> {
    if us == [] then []
    else DatastreamIds(us[..|us| - 1]) + (if us[|us| - 1].Datastream? then [us[|us| - 1].id] else [])
  }

  function Claims(b: Board, us: seq<Unit>): seq<Mapping> {
    if us == [] then []
    else
      var c := Claim(b, us[|us| - 1]);
      Claims(b, us[..|us| - 1]) + (if c.Some? then [c.value] else [])
  }

  /** How many of the mappings are inputs (or outputs). */
  function CountOf(ms: seq<Mapping>, inputs: bool): nat {
    if ms == [] then 0
    else CountOf(ms[..|ms| - 1], inputs) + (if IsInput(ms[|ms| - 1]) == inputs then 1 else 0)
  }

  function ScheduleIds(us: seq<Unit>): seq<nat> {
    if us == [] then []
    else ScheduleIds(us[..|us| - 1]) + (if us[|us| - 1].Schedule? then [us[|us| - 1].id] else [])
  }

  predicate IsChunk(u: Unit, id: nat) { u.Occurrences? && u.scheduleId == id }

  function ChunksOf(us: seq<Unit>, id: nat): nat {
    if us == [] then 0 else ChunksOf(us[..|us| - 1], id) + (if IsChunk(us[|us| - 1], id) then 1 else 0)
  }

  /** The occurrences of one schedule: its chunks in arrival order. */
  function TimesOf(us: seq<Unit>, id: nat): seq<nat> {
    if us == [] then []
    else TimesOf(us[..|us| - 1], id) + (if IsChunk(us[|us| - 1], id) then us[|us| - 1].times else [])
  }

  /** The chunk count the last chunk of a schedule announced, zero before any. */
  function AnnouncedOf(us: seq<Unit>, id: nat): nat {
    if us == [] then 0
    else if IsChunk(us[|us| - 1], id) then us[|us| - 1].chunkCount
    else AnnouncedOf(us[..|us| - 1], id)
  }

  // ---- Validity of a whole list ----

  ghost predicate DatastreamsValid(b: Board, us: seq<Unit>) {
    && |DatastreamIds(us)| <= b.datastreamCapacity
    && forall i, j :: 0 <= i < j < |us| && us[i].Datastream? && us[j].Datastream? ==> us[i].id != us[j].id
  }

  ghost predicate KeysDistinct(us: seq<Unit>) {
    forall i, j :: 0 <= i < j < |us| && us[i].Datastream? && us[j].Datastream? ==> us[i].key != us[j].key
  }

  ghost predicate MappingsValid(b: Board, us: seq<Unit>) {
    && |Claims(b, us)| <= b.pinCapacity
    && CountOf(Claims(b, us), true) <= b.inputSlots
    && CountOf(Claims(b, us), false) <= b.outputSlots
    && (forall i, j :: 0 <= i < j < |us| && Claim(b, us[i]).Some? && Claim(b, us[j]).Some? ==>
          Claim(b, us[i]).value.pin != Claim(b, us[j]).value.pin)
    && (forall i, j :: 0 <= i < j < |us| && us[i].System? ==> Claim(b, us[j]).None?)
  }

  /** The pins of the system record against the mappings `ms`. */
  ghost predicate SystemPinsValid(b: Board, u: Unit, ms: seq<Mapping>)
    requires u.System?
  {
    && (StatusLed(b, u).Some? ==> forall m :: m in ms ==> m.pin != StatusLed(b, u).value)
    && (ResetPin(b, u).Some? ==>
          && (StatusLed(b, u).Some? ==> StatusLed(b, u).value != ResetPin(b, u).value)
          && (forall m :: m in ms && m.pin == ResetPin(b, u).value ==>
                PullOf(m) != NO_PULL && b.inputMode(m.pin, PullOf(m)))
          && ((forall m :: m in ms ==> m.pin != ResetPin(b, u).value) ==>
                b.inputMode(ResetPin(b, u).value, DefaultPull(u))))
  }

  ghost predicate SystemsValid(b: Board, us: seq<Unit>) {
    && (forall i, j :: 0 <= i < j < |us| && us[i].System? ==> !us[j].System?)
    && (forall i :: 0 <= i < |us| && us[i].System? ==> SystemPinsValid(b, us[i], Claims(b, us)))
  }

  predicate ScheduleUsable(u: Unit)
    requires u.Schedule?
  {
    u.id != 0 && u.validUntil != 0 && 0 < |u.actions| <= SCHEDULE_ACTIONS
  }

  ghost predicate SchedulesValid(b: Board, us: seq<Unit>) {
    && |ScheduleIds(us)| <= b.scheduleCapacity
    && (forall i :: 0 <= i < |us| && us[i].Schedule? ==> ScheduleUsable(us[i]))
    && (forall i, j :: 0 <= i < j < |us| && us[i].Schedule? && us[j].Schedule? ==> us[i].id != us[j].id)
  }

  /** A chunk is well formed and comes next for a schedule that has been declared. */
  ghost predicate ChunkInPlace(us: seq<Unit>, i: nat)
    requires i < |us| && us[i].Occurrences?
  {
    && us[i].scheduleId in ScheduleIds(us[..i])
    && us[i].chunkIndex < us[i].chunkCount
    && us[i].chunkIndex == ChunksOf(us[..i], us[i].scheduleId)
    && 0 < |us[i].times| <= OCCURRENCE_CHUNK
  }

  ghost predicate ChunksValid(b: Board, us: seq<Unit>) {
    && (forall i :: 0 <= i < |us| && us[i].Occurrences? ==> ChunkInPlace(us, i))
    && (forall i, j :: 0 <= i < j < |us| && us[i].Occurrences? && IsChunk(us[j], us[i].scheduleId) ==>
          us[i].chunkCount == us[j].chunkCount)
    && (forall id: nat :: |TimesOf(us, id)| <= b.occurrenceCapacity)
  }

  /** The last chunk of every schedule is there. */
  ghost predicate SchedulesComplete(us: seq<Unit>) {
    forall i :: 0 <= i < |us| && us[i].Schedule? ==>
      exists k :: 0 <= k < |us| && IsChunk(us[k], us[i].id) && us[k].chunkIndex + 1 == us[k].chunkCount
  }

  /** The datastreams a unit names are declared somewhere in the list. */
  predicate Resolved(us: seq<Unit>, u: Unit) {
    && (u.Safety? ==> u.datastreamId in DatastreamIds(us))
    && (u.Schedule? ==> forall a :: 0 <= a < |u.actions| ==> u.actions[a].datastreamId in DatastreamIds(us))
  }

  /** What the units admitted so far satisfy; `ValidList` adds what only the whole list can. */
  ghost predicate Admissible(b: Board, us: seq<Unit>) {
    && (forall i :: 0 <= i < |us| ==> Usable(b, us[i]))
    && DatastreamsValid(b, us)
    && MappingsValid(b, us)
    && SystemsValid(b, us)
    && SchedulesValid(b, us)
    && ChunksValid(b, us)
  }

  ghost predicate ValidList(b: Board, us: seq<Unit>) {
    && Admissible(b, us)
    && KeysDistinct(us)
    && SchedulesComplete(us)
    && forall i :: 0 <= i < |us| ==> Resolved(us, us[i])
  }

  // ---- One more unit ----

  predicate DatastreamFits(b: Board, us: seq<Unit>, u: Unit)
    requires u.Datastream?
  {
    |DatastreamIds(us)| < b.datastreamCapacity && u.id !in DatastreamIds(us)
  }

  predicate HasSystem(us: seq<Unit>) {
    exists i :: 0 <= i < |us| && us[i].System?
  }

  ghost predicate ClaimFits(b: Board, us: seq<Unit>, m: Mapping) {
    var ms := Claims(b, us);
    && !HasSystem(us)
    && |ms| < b.pinCapacity
    && CountOf(ms, IsInput(m)) < (if IsInput(m) then b.inputSlots else b.outputSlots)
    && forall k :: k in ms ==> k.pin != m.pin
  }

  ghost predicate Fits(b: Board, us: seq<Unit>, u: Unit) {
    match u
    case Datastream(_, _, _) =>
      DatastreamFits(b, us, u) && (Claim(b, u).Some? ==> ClaimFits(b, us, Claim(b, u).value))
    case System(_, _, _) => !HasSystem(us) && SystemPinsValid(b, u, Claims(b, us))
    case Schedule(id, _, _, _, _) =>
      |ScheduleIds(us)| < b.scheduleCapacity && ScheduleUsable(u) && id !in ScheduleIds(us)
    case Occurrences(id, index, count, times) =>
      && id in ScheduleIds(us) && index < count && index == ChunksOf(us, id)
      && (AnnouncedOf(us, id) != 0 ==> AnnouncedOf(us, id) == count)
      && 0 < |times| <= OCCURRENCE_CHUNK
      && |TimesOf(us, id)| + |times| <= b.occurrenceCapacity
    case _ => true
  }

  lemma Front(us: seq<Unit>, u: Unit)
    ensures (us + [u])[..|us|] == us && (us + [u])[|us|] == u
    ensures forall i :: 0 <= i <= |us| ==> (us + [u])[..i] == us[..i]
  {}

  lemma {:induction false} DatastreamIdsMember(us: seq<Unit>, id: nat)
    ensures id in DatastreamIds(us) <==> exists i :: 0 <= i < |us| && us[i].Datastream? && us[i].id == id
  {
    if us != [] {
      var n := |us| - 1;
      DatastreamIdsMember(us[..n], id);
      if i :| 0 <= i < n && us[..n][i].Datastream? && us[..n][i].id == id {
        assert us[i].id == id;
      }
      if i :| 0 <= i < |us| && us[i].Datastream? && us[i].id == id {
        assert i == n || us[..n][i] == us[i];
      }
    }
  }

  lemma {:induction false} ScheduleIdsMember(us: seq<Unit>, id: nat)
    ensures id in ScheduleIds(us) <==> exists i :: 0 <= i < |us| && us[i].Schedule? && us[i].id == id
  {
    if us != [] {
      var n := |us| - 1;
      ScheduleIdsMember(us[..n], id);
      if i :| 0 <= i < n && us[..n][i].Schedule? && us[..n][i].id == id {
        assert us[i].id == id;
      }
      if i :| 0 <= i < |us| && us[i].Schedule? && us[i].id == id {
        assert i == n || us[..n][i] == us[i];
      }
    }
  }

  lemma {:induction false} ClaimsMember(b: Board, us: seq<Unit>, m: Mapping)
    ensures m in Claims(b, us) <==> exists i :: 0 <= i < |us| && Claim(b, us[i]) == Some(m)
  {
    if us != [] {
      var n := |us| - 1;
      ClaimsMember(b, us[..n], m);
      if i :| 0 <= i < n && Claim(b, us[..n][i]) == Some(m) {
        assert Claim(b, us[i]) == Some(m);
      }
      if i :| 0 <= i < |us| && Claim(b, us[i]) == Some(m) {
        assert i == n || us[..n][i] == us[i];
      }
    }
  }

  lemma {:induction false} AnnouncedMember(us: seq<Unit>, id: nat)
    ensures AnnouncedOf(us, id) != 0 ==>
              exists i :: 0 <= i < |us| && IsChunk(us[i], id) && us[i].chunkCount == AnnouncedOf(us, id)
    ensures (forall i, j :: 0 <= i < j < |us| && IsChunk(us[i], id) && IsChunk(us[j], id) ==>
               us[i].chunkCount == us[j].chunkCount) ==>
            forall i :: 0 <= i < |us| && IsChunk(us[i], id) ==> us[i].chunkCount == AnnouncedOf(us, id)
  {
    if us != [] {
      var n := |us| - 1;
      AnnouncedMember(us[..n], id);
      assert forall i :: 0 <= i < n ==> us[..n][i] == us[i];
    }
  }

  lemma DatastreamsExtend(b: Board, us: seq<Unit>, u: Unit)
    ensures DatastreamsValid(b, us + [u])
            <==> DatastreamsValid(b, us) && (u.Datastream? ==> DatastreamFits(b, us, u))
  {
    var vs := us + [u];
    Front(us, u);
    if u.Datastream? {
      DatastreamIdsMember(us, u.id);
      if DatastreamsValid(b, vs) {
        forall i | 0 <= i < |us| && us[i].Datastream?
          ensures us[i].id != u.id
        {
          assert vs[i] == us[i] && vs[|us|] == u;
        }
      }
    }
    if DatastreamsValid(b, vs) {
      forall i, j | 0 <= i < j < |us| && us[i].Datastream? && us[j].Datastream?
        ensures us[i].id != us[j].id
      {
        assert vs[i] == us[i] && vs[j] == us[j];
      }
    }
  }

  lemma ClaimsExtend(b: Board, us: seq<Unit>, u: Unit)
    ensures var ms, c := Claims(b, us), Claim(b, u);
            var ns := Claims(b, us + [u]);
            && ns == ms + (if c.Some? then [c.value] else [])
            && (forall x :: CountOf(ns, x) == CountOf(ms, x) + (if c.Some? && IsInput(c.value) == x then 1 else 0))
  {
    Front(us, u);
    var ms, c := Claims(b, us), Claim(b, u);
    if c.Some? {
      assert (ms + [c.value])[..|ms|] == ms;
    } else {
      assert Claims(b, us + [u]) == ms;
    }
  }

  lemma MappingsExtend(b: Board, us: seq<Unit>, u: Unit)
    ensures MappingsValid(b, us + [u])
            <==> MappingsValid(b, us) && (Claim(b, u).Some? ==> ClaimFits(b, us, Claim(b, u).value))
  {
    if MappingsValid(b, us + [u]) {
      MappingsShrink(b, us, u);
    }
    if MappingsValid(b, us) && (Claim(b, u).Some? ==> ClaimFits(b, us, Claim(b, u).value)) {
      MappingsGrow(b, us, u);
    }
  }

  lemma MappingsShrink(b: Board, us: seq<Unit>, u: Unit)
    requires MappingsValid(b, us + [u])
    ensures MappingsValid(b, us) && (Claim(b, u).Some? ==> ClaimFits(b, us, Claim(b, u).value))
  {
    hide CountOf;
    var vs, c := us + [u], Claim(b, u);
    ClaimsExtend(b, us, u);
    assert vs[|us|] == u;
    forall i, j | 0 <= i < j < |us|
      ensures Claim(b, us[i]).Some? && Claim(b, us[j]).Some? ==>
                Claim(b, us[i]).value.pin != Claim(b, us[j]).value.pin
      ensures us[i].System? ==> Claim(b, us[j]).None?
    {
      assert vs[i] == us[i] && vs[j] == us[j];
    }
    if c.Some? {
      forall i | 0 <= i < |us|
        ensures !us[i].System?
        ensures Claim(b, us[i]).Some? ==> Claim(b, us[i]).value.pin != c.value.pin
      {
        assert vs[i] == us[i];
      }
      forall k | k in Claims(b, us)
        ensures k.pin != c.value.pin
      {
        ClaimsMember(b, us, k);
      }
    }
  }

  lemma MappingsGrow(b: Board, us: seq<Unit>, u: Unit)
    requires MappingsValid(b, us) && (Claim(b, u).Some? ==> ClaimFits(b, us, Claim(b, u).value))
    ensures MappingsValid(b, us + [u])
  {
    hide CountOf;
    var vs, c := us + [u], Claim(b, u);
    ClaimsExtend(b, us, u);
    forall i, j | 0 <= i < j < |vs|
      ensures Claim(b, vs[i]).Some? && Claim(b, vs[j]).Some? ==>
                Claim(b, vs[i]).value.pin != Claim(b, vs[j]).value.pin
      ensures vs[i].System? ==> Claim(b, vs[j]).None?
    {
      assert vs[i] == us[i];
      if j < |us| {
        assert vs[j] == us[j];
      } else if c.Some? && Claim(b, us[i]).Some? {
        ClaimsMember(b, us, Claim(b, us[i]).value);
      }
    }
  }

  lemma SystemsExtend(b: Board, us: seq<Unit>, u: Unit)
    requires Claim(b, u).Some? ==> !HasSystem(us)
    ensures SystemsValid(b, us + [u])
            <==> SystemsValid(b, us) && (u.System? ==> !HasSystem(us) && SystemPinsValid(b, u, Claims(b, us)))
  {
    var vs := us + [u];
    Front(us, u);
    assert forall i :: 0 <= i < |us| ==> vs[i] == us[i];
    assert vs[|us|] == u;
    if HasSystem(us) || u.System? {
      assert Claims(b, vs) == Claims(b, us);
    }
  }

  lemma SchedulesExtend(b: Board, us: seq<Unit>, u: Unit)
    ensures SchedulesValid(b, us + [u])
            <==> SchedulesValid(b, us) && (u.Schedule? ==> Fits(b, us, u))
  {
    var vs := us + [u];
    Front(us, u);
    assert forall i :: 0 <= i < |us| ==> vs[i] == us[i];
    assert vs[|us|] == u;
    if u.Schedule? {
      ScheduleIdsMember(us, u.id);
    }
  }

  lemma ChunksExtend(b: Board, us: seq<Unit>, u: Unit)
    ensures ChunksValid(b, us + [u])
            <==> ChunksValid(b, us) && (u.Occurrences? ==> Fits(b, us, u))
  {
    if ChunksValid(b, us + [u]) {
      ChunksShrink(b, us, u);
    }
    if ChunksValid(b, us) && (u.Occurrences? ==> Fits(b, us, u)) {
      ChunksGrow(b, us, u);
    }
  }

  lemma ChunksShrink(b: Board, us: seq<Unit>, u: Unit)
    requires ChunksValid(b, us + [u])
    ensures ChunksValid(b, us) && (u.Occurrences? ==> Fits(b, us, u))
  {
    var vs := us + [u];
    Front(us, u);
    assert forall i :: 0 <= i < |us| ==> vs[i] == us[i];
    assert vs[|us|] == u;
    forall i: nat | i < |us| && us[i].Occurrences?
      ensures ChunkInPlace(us, i)
    {
      assert ChunkInPlace(vs, i);
    }
    forall id: nat
      ensures |TimesOf(us, id)| <= b.occurrenceCapacity
    {
      assert |TimesOf(vs, id)| <= b.occurrenceCapacity;
    }
    if u.Occurrences? {
      assert ChunkInPlace(vs, |us|);
      assert |TimesOf(vs, u.scheduleId)| <= b.occurrenceCapacity;
      AnnouncedMember(us, u.scheduleId);
      if AnnouncedOf(us, u.scheduleId) != 0 {
        var i :| 0 <= i < |us| && IsChunk(us[i], u.scheduleId) && us[i].chunkCount == AnnouncedOf(us, u.scheduleId);
        assert IsChunk(vs[|us|], vs[i].scheduleId);
      }
    }
  }

  lemma ChunksGrow(b: Board, us: seq<Unit>, u: Unit)
    requires ChunksValid(b, us) && (u.Occurrences? ==> Fits(b, us, u))
    ensures ChunksValid(b, us + [u])
  {
    var vs := us + [u];
    Front(us, u);
    forall i: nat | i < |vs| && vs[i].Occurrences?
      ensures ChunkInPlace(vs, i)
    {
      if i < |us| {
        assert ChunkInPlace(us, i) && vs[i] == us[i];
      }
    }
    forall i, j | 0 <= i < j < |vs| && vs[i].Occurrences? && IsChunk(vs[j], vs[i].scheduleId)
      ensures vs[i].chunkCount == vs[j].chunkCount
    {
      assert vs[i] == us[i];
      if j < |us| {
        assert vs[j] == us[j];
      } else {
        SameAnnouncement(b, us, i);
      }
    }
    forall id: nat
      ensures |TimesOf(vs, id)| <= b.occurrenceCapacity
    {
      assert |TimesOf(us, id)| <= b.occurrenceCapacity;
    }
  }

  /** Any chunk of a schedule tells how many its chunks are. */
  lemma SameAnnouncement(b: Board, us: seq<Unit>, i: nat)
    requires ChunksValid(b, us) && i < |us| && us[i].Occurrences?
    ensures us[i].chunkCount == AnnouncedOf(us, us[i].scheduleId) != 0
  {
    var id := us[i].scheduleId;
    assert ChunkInPlace(us, i);
    assert IsChunk(us[i], id);
    forall k, l | 0 <= k < l < |us| && IsChunk(us[k], id) && IsChunk(us[l], id)
      ensures us[k].chunkCount == us[l].chunkCount
    {}
    AnnouncedMember(us, id);
  }

  /** A list stays admissible exactly when the next unit is usable and fits. */
  lemma AdmissibleExtend(b: Board, us: seq<Unit>, u: Unit)
    ensures Admissible(b, us + [u]) <==> Admissible(b, us) && Usable(b, u) && Fits(b, us, u)
  {
    hide Usable, DatastreamsValid, MappingsValid, SystemsValid, SchedulesValid, ChunksValid, ClaimFits, SystemPinsValid;
    var vs := us + [u];
    DatastreamsExtend(b, us, u);
    MappingsExtend(b, us, u);
    if Claim(b, u).Some? ==> ClaimFits(b, us, Claim(b, u).value) {
      ClaimNeedsNoSystem(b, us, u);
      SystemsExtend(b, us, u);
    }
    SchedulesExtend(b, us, u);
    ChunksExtend(b, us, u);
    assert forall i :: 0 <= i < |us| ==> vs[i] == us[i];
    assert vs[|us|] == u;
  }

  lemma ClaimNeedsNoSystem(b: Board, us: seq<Unit>, u: Unit)
    requires Claim(b, u).Some? ==> ClaimFits(b, us, Claim(b, u).value)
    ensures Claim(b, u).Some? ==> !HasSystem(us)
  {}

  lemma Nothing(b: Board)
    ensures Admissible(b, [])
  {}

  /** Whatever is admissible has admissible prefixes. */
  lemma {:induction false} AdmissiblePrefix(b: Board, us: seq<Unit>, n: nat)
    requires Admissible(b, us) && n <= |us|
    ensures Admissible(b, us[..n])
  {
    hide Admissible;
    if n < |us| {
      var m := |us| - 1;
      assert us == us[..m] + [us[m]];
      AdmissibleExtend(b, us[..m], us[m]);
      AdmissiblePrefix(b, us[..m], n);
      assert us[..m][..n] == us[..n];
    } else {
      assert us[..n] == us;
    }
  }

  /** Chunk numbers of a schedule never repeat: a later chunk counts higher. */
  lemma {:induction false} ChunksOfMonotone(us: seq<Unit>, id: nat, i: nat)
    requires i < |us| && IsChunk(us[i], id)
    ensures ChunksOf(us[..i], id) < ChunksOf(us, id)
  {
    var n := |us| - 1;
    if i < n {
      ChunksOfMonotone(us[..n], id, i);
      assert us[..n][..i] == us[..i];
    } else {
      assert us[..n] == us[..i];
    }
  }

  /** The last chunk received of a schedule, if any was. */
  lemma {:induction false} LastChunk(us: seq<Unit>, id: nat) returns (k: nat)
    requires ChunksOf(us, id) > 0
    ensures k < |us| && IsChunk(us[k], id) && ChunksOf(us[..k], id) + 1 == ChunksOf(us, id)
  {
    var n := |us| - 1;
    if IsChunk(us[n], id) {
      k := n;
    } else {
      k := LastChunk(us[..n], id);
      assert us[..n][..k] == us[..k];
    }
  }

  /** Having the last chunk and having as many as announced is the same. */
  lemma CompleteIff(b: Board, us: seq<Unit>, id: nat)
    requires ChunksValid(b, us)
    ensures (exists k :: 0 <= k < |us| && IsChunk(us[k], id) && us[k].chunkIndex + 1 == us[k].chunkCount)
            <==> AnnouncedOf(us, id) != 0 && ChunksOf(us, id) == AnnouncedOf(us, id)
  {
    if k :| 0 <= k < |us| && IsChunk(us[k], id) && us[k].chunkIndex + 1 == us[k].chunkCount {
      SameAnnouncement(b, us, k);
      assert ChunkInPlace(us, k);
      ChunksOfMonotone(us, id, k);
      var l := LastChunk(us, id);
      SameAnnouncement(b, us, l);
      assert ChunkInPlace(us, l);
    }
    if AnnouncedOf(us, id) != 0 && ChunksOf(us, id) == AnnouncedOf(us, id) {
      var l := LastChunk(us, id);
      SameAnnouncement(b, us, l);
      assert ChunkInPlace(us, l);
    }
  }

  lemma {:induction false} NoChunkYet(us: seq<Unit>, id: nat)
    requires forall i :: 0 <= i < |us| ==> !IsChunk(us[i], id)
    ensures ChunksOf(us, id) == 0 && TimesOf(us, id) == [] && AnnouncedOf(us, id) == 0
  {
    if us != [] {
      NoChunkYet(us[..|us| - 1], id);
    }
  }

  lemma DeclaredStays(us: seq<Unit>, n: nat, id: nat)
    requires n <= |us|
    ensures id in ScheduleIds(us[..n]) ==> id in ScheduleIds(us)
  {
    ScheduleIdsMember(us[..n], id);
    ScheduleIdsMember(us, id);
    if id in ScheduleIds(us[..n]) {
      var j :| 0 <= j < n && us[..n][j].Schedule? && us[..n][j].id == id;
      assert us[j].Schedule? && us[j].id == id;
    }
  }

  /** Chunks come after their schedule, so an undeclared one has none. */
  lemma UndeclaredHasNoChunks(b: Board, us: seq<Unit>, id: nat)
    requires ChunksValid(b, us) && id !in ScheduleIds(us)
    ensures ChunksOf(us, id) == 0 && TimesOf(us, id) == [] && AnnouncedOf(us, id) == 0
  {
    forall i | 0 <= i < |us|
      ensures !IsChunk(us[i], id)
    {
      DeclaredStays(us, i, id);
      assert us[i].Occurrences? ==> ChunkInPlace(us, i);
    }
    NoChunkYet(us, id);
  }

  lemma {:induction false} ScheduleIdsDistinct(b: Board, us: seq<Unit>)
    requires SchedulesValid(b, us)
    ensures forall i, j :: 0 <= i < j < |ScheduleIds(us)| ==> ScheduleIds(us)[i] != ScheduleIds(us)[j]
  {
    hide SchedulesValid;
    if us != [] {
      var n := |us| - 1;
      assert us == us[..n] + [us[n]];
      SchedulesExtend(b, us[..n], us[n]);
      ScheduleIdsDistinct(b, us[..n]);
    }
  }

  lemma {:induction false} ClaimedPinsDistinct(b: Board, us: seq<Unit>)
    requires MappingsValid(b, us)
    ensures forall i, j :: 0 <= i < j < |Claims(b, us)| ==> Claims(b, us)[i].pin != Claims(b, us)[j].pin
  {
    hide MappingsValid;
    if us != [] {
      var n := |us| - 1;
      assert us == us[..n] + [us[n]];
      MappingsExtend(b, us[..n], us[n]);
      ClaimedPinsDistinct(b, us[..n]);
    }
  }

  // ---- What a valid list keeps, said of the kinds alone ----

  /** How many datastreams are mapped as one of `kinds`. */
  function MappedAs(us: seq<Unit>, kinds: set<MappingKind>): nat {
    if us == [] then 0
    else
      var u := us[|us| - 1];
      MappedAs(us[..|us| - 1], kinds)
      + (if u.Datastream? && u.mapping.Some? && u.mapping.value.kind in kinds then 1 else 0)
  }

  lemma {:induction false} KindsCounted(b: Board, us: seq<Unit>)
    requires b.automaticMapping
    ensures MappedAs(us, {DigitalInput, AnalogInput}) == CountOf(Claims(b, us), true)
    ensures MappedAs(us, {DigitalOutput, PwmOutput}) == CountOf(Claims(b, us), false)
  {
    if us != [] {
      KindsCounted(b, us[..|us| - 1]);
      var before, c := Claims(b, us[..|us| - 1]), Claim(b, us[|us| - 1]);
      if c.Some? {
        assert (before + [c.value])[..|before|] == before;
      } else {
        assert before + [] == before;
      }
    }
  }

  /** No more inputs and outputs are mapped than the board has slots, and no pin twice. */
  lemma SlotsRespected(b: Board, us: seq<Unit>)
    requires ValidList(b, us) && b.automaticMapping
    ensures MappedAs(us, {DigitalInput, AnalogInput}) <= b.inputSlots
    ensures MappedAs(us, {DigitalOutput, PwmOutput}) <= b.outputSlots
    ensures forall i, j :: 0 <= i < j < |us| && us[i].Datastream? && us[j].Datastream?
                           && us[i].mapping.Some? && us[j].mapping.Some? ==>
              us[i].mapping.value.pin != us[j].mapping.value.pin
  {
    hide CountOf, MappedAs, Usable, DatastreamsValid, SystemsValid, SchedulesValid, ChunksValid, KeysDistinct,
      SchedulesComplete, Resolved;
    KindsCounted(b, us);
    forall i, j | 0 <= i < j < |us| && us[i].Datastream? && us[j].Datastream?
                  && us[i].mapping.Some? && us[j].mapping.Some?
      ensures us[i].mapping.value.pin != us[j].mapping.value.pin
    {
      assert Claim(b, us[i]).Some? && Claim(b, us[j]).Some?;
    }
  }

  /** A factory reset pin is free or a digital input, and the board can read it with the pull in force. */
  lemma ResetPinReadable(b: Board, us: seq<Unit>, i: nat, j: nat)
    requires ValidList(b, us) && b.automaticMapping && i < |us| && us[i].System? && us[i].factoryResetPin.Some?
    requires j < |us| && us[j].Datastream? && us[j].mapping.Some?
    ensures var pin, m := us[i].factoryResetPin.value, us[j].mapping.value;
            m.pin == pin ==>
              m.kind == DigitalInput && m.pull != Some(NO_PULL)
              && b.inputMode(pin, if m.pull.Some? then m.pull.value else 0)
    ensures b.statusIndicator && us[i].statusLedPin.Some? ==>
              && us[i].statusLedPin != us[i].factoryResetPin
              && us[j].mapping.value.pin != us[i].statusLedPin.value
  {
    hide CountOf, MappedAs, Usable, DatastreamsValid, MappingsValid, SchedulesValid, ChunksValid, KeysDistinct,
      SchedulesComplete, Resolved;
    ClaimsMember(b, us, us[j].mapping.value);
    assert Claim(b, us[j]) == Some(us[j].mapping.value);
    assert SystemPinsValid(b, us[i], Claims(b, us));
  }

  /** With no datastream on it the reset button is pulled up, unless it is said to be active high. */
  lemma ResetPinPulled(b: Board, us: seq<Unit>, i: nat)
    requires ValidList(b, us) && b.automaticMapping && i < |us| && us[i].System? && us[i].factoryResetPin.Some?
    requires forall j :: 0 <= j < |us| && us[j].Datastream? && us[j].mapping.Some? ==>
               us[j].mapping.value.pin != us[i].factoryResetPin.value
    ensures us[i].factoryResetActiveLow in {None, Some(true)} ==> b.inputMode(us[i].factoryResetPin.value, 1)
    ensures us[i].factoryResetActiveLow == Some(false) ==> b.inputMode(us[i].factoryResetPin.value, 0)
  {
    hide CountOf, MappedAs, Usable, DatastreamsValid, MappingsValid, SchedulesValid, ChunksValid, KeysDistinct,
      SchedulesComplete, Resolved, Claims;
    forall m | m in Claims(b, us)
      ensures m.pin != us[i].factoryResetPin.value
    {
      ClaimsMember(b, us, m);
    }
    assert SystemPinsValid(b, us[i], Claims(b, us));
  }

  /** The bounds on a single unit of a valid list, in numbers. */
  lemma UnitsWithin(b: Board, us: seq<Unit>, i: nat)
    requires ValidList(b, us) && i < |us|
    ensures !us[i].Malformed? && b.accepts(us[i])
    ensures us[i].Datastream? ==> us[i].id != 0 && us[i].id != 65535 && 0 < |us[i].key| <= 48
    ensures us[i].Schedule? ==> us[i].id != 0 && us[i].validUntil != 0 && 0 < |us[i].actions| <= 8
    ensures us[i].Occurrences? ==> 0 < |us[i].times| <= 16 && us[i].chunkIndex < us[i].chunkCount
  {
    hide DatastreamsValid, MappingsValid, SystemsValid, KeysDistinct, SchedulesComplete, Resolved, TimesOf, ChunksOf,
      ScheduleIds, IsChunk;
    assert Usable(b, us[i]);
    assert us[i].Schedule? ==> ScheduleUsable(us[i]);
    assert us[i].Occurrences? ==> ChunkInPlace(us, i);
  }

  /** When a list of one datastream is valid; its slot is told by the kind of its mapping alone. */
  lemma OneDatastreamIff(b: Board, id: nat, key: string, mapping: Option<Mapping>)
    ensures var u := Datastream(id, key, mapping);
            ValidList(b, [u])
            <==> b.accepts(u) && b.datastreamCapacity > 0 && id != 0 && id != 65535 && 0 < |key| <= 48
                 && (b.automaticMapping && mapping.Some? ==>
                       && b.pinCapacity > 0
                       && (match mapping.value.kind
                           case DigitalInput | AnalogInput => b.inputSlots > 0
                           case DigitalOutput | PwmOutput => b.outputSlots > 0))
  {
    hide Admissible, Usable, Fits, KeysDistinct, SchedulesComplete;
    var u := Datastream(id, key, mapping);
    AdmissibleExtend(b, [], u);
    assert [] + [u] == [u];
    NothingAdmissible(b);
    FirstFits(b, u);
    UsableDatastream(b, u);
    OneIsComplete(u);
  }

  lemma UsableDatastream(b: Board, u: Unit)
    requires u.Datastream?
    ensures Usable(b, u) <==> b.accepts(u) && u.id != 0 && u.id != 65535 && 0 < |u.key| <= 48
  {}

  lemma NothingAdmissible(b: Board)
    ensures Admissible(b, [])
  {}

  lemma FirstFits(b: Board, u: Unit)
    requires u.Datastream?
    ensures Fits(b, [], u)
            <==> b.datastreamCapacity > 0
                 && (b.automaticMapping && u.mapping.Some? ==>
                       && b.pinCapacity > 0
                       && (match u.mapping.value.kind
                           case DigitalInput | AnalogInput => b.inputSlots > 0
                           case DigitalOutput | PwmOutput => b.outputSlots > 0))
  {}

  lemma OneIsComplete(u: Unit)
    requires u.Datastream?
    ensures KeysDistinct([u]) && SchedulesComplete([u]) && Resolved([u], u)
  {}
}
