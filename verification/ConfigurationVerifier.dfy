/** The cooperative verifier of a transferred configuration: one bounded step a call. */
module ConfigurationVerifier {
  import opened Options
  import opened Bytes
  import opened ConfigurationTypes
  import opened ConfigurationDigest
  import opened ConfigurationUnits
  import Sha256

  datatype Phase = Hashing | Semantic | KeyScan | References | Verified | Rejected

  /** What the workspace keeps of one schedule. */
  datatype Progress = Progress(id: nat, nextChunk: nat, chunkCount: nat, occurrences: nat)

  function ProgressOf(us: seq<Unit>): (r: seq<Progress>)
    ensures |r| == |ScheduleIds(us)|
  {
    var ids := ScheduleIds(us);
    seq(|ids|, i requires 0 <= i < |ids| =>
      Progress(ids[i], ChunksOf(us, ids[i]), AnnouncedOf(us, ids[i]), |TimesOf(us, ids[i])|))
  }

  function Pins(ms: seq<Mapping>): (r: seq<nat>)
    ensures |r| == |ms|
  {
    seq(|ms|, i requires 0 <= i < |ms| => ms[i].pin)
  }

  function Pulls(ms: seq<Mapping>): (r: seq<nat>)
    ensures |r| == |ms|
  {
    seq(|ms|, i requires 0 <= i < |ms| => PullOf(ms[i]))
  }

  /** The first place of `x` in `s`, or the length. */
  method IndexOf(s: seq<nat>, x: nat) returns (i: nat)
    ensures i <= |s| && x !in s[..i]
    ensures i < |s| <==> x in s
    ensures i < |s| ==> s[i] == x
  {
    i := 0;
    while i < |s| && s[i] != x
      invariant i <= |s| && x !in s[..i]
    {
      i := i + 1;
    }
  }

  class Work {
    const board: Board
    const decode: Record -> Unit
    const records: seq<Record>
    const checksum: seq<byte>
    const digest: Digest

    var phase: Phase
    var sequence: nat
    var priorSequence: nat
    var keyTarget: string
    var datastreamIds: seq<nat>
    var mappedPins: seq<nat>
    var mappedInputPulls: seq<nat>
    var inputMappingCount: nat
    var outputMappingCount: nat
    var statusLedPin: Option<nat>
    var systemSeen: bool
    var schedules: seq<Progress>

    /** The decoded record list. */
    function Units(): (us: seq<Unit>)
      ensures |us| == |records|
    {
      seq(|records|, i requires 0 <= i < |records| => decode(records[i]))
    }

    /** The workspace is the summary of the units admitted so far. */
    ghost predicate Seen(us: seq<Unit>)
      reads this
    {
      && datastreamIds == DatastreamIds(us)
      && mappedPins == Pins(Claims(board, us))
      && mappedInputPulls == Pulls(Claims(board, us))
      && inputMappingCount == CountOf(Claims(board, us), true)
      && outputMappingCount == CountOf(Claims(board, us), false)
      && systemSeen == HasSystem(us)
      && (!systemSeen ==> statusLedPin == None)
      && schedules == ProgressOf(us)
    }

    /** No earlier datastream before `n` has the key of the one at `i`. */
    ghost predicate KeyFree(i: nat, n: nat)
      requires i < |records| && decode(records[i]).Datastream?
      requires n <= |records|
    {
      forall k :: 0 <= k < n && Units()[k].Datastream? ==> Units()[k].key != Units()[i].key
    }

    ghost predicate Valid()
      reads this, digest, digest.buffer
    {
      && digest.Valid()
      && sequence <= |records|
      && match phase
         case Hashing => digest.message == Stream(records[..sequence])
         case Semantic =>
           && HashMatches() && Seen(Units()[..sequence])
           && Admissible(board, Units()[..sequence]) && KeysDistinct(Units()[..sequence])
         case KeyScan =>
           && HashMatches() && sequence < |records| && Seen(Units()[..sequence + 1])
           && Admissible(board, Units()[..sequence + 1]) && KeysDistinct(Units()[..sequence])
           && Units()[sequence].Datastream? && keyTarget == Units()[sequence].key
           && priorSequence <= sequence && KeyFree(sequence, priorSequence)
         case References =>
           && HashMatches() && Seen(Units())
           && Admissible(board, Units()) && KeysDistinct(Units()) && SchedulesComplete(Units())
           && forall i :: 0 <= i < sequence ==> Resolved(Units(), Units()[i])
         case Verified => HashMatches() && ValidList(board, Units())
         case Rejected => !(HashMatches() && ValidList(board, Units()))
    }

    ghost predicate HashMatches() {
      Sha256.Hash(Stream(records)) == checksum
    }

    // The lexicographic measure of the phases.
    function Stage(): nat
      reads this
    {
      match phase
      case Hashing => 3
      case Semantic => 2
      case KeyScan => 2
      case References => 1
      case _ => 0
    }

    function Remaining(): int
      reads this
    {
      |records| - sequence
    }

    function Scan(): int
      reads this
    {
      if phase.KeyScan? then sequence - priorSequence else |records| + 1
    }

    constructor (board: Board, decode: Record -> Unit, records: seq<Record>, checksum: seq<byte>)
      ensures Valid() && phase == Hashing
      ensures this.board == board && this.decode == decode
      ensures this.records == records && this.checksum == checksum
      ensures fresh(digest) && fresh(digest.buffer)
    {
      this.board, this.decode, this.records, this.checksum := board, decode, records, checksum;
      digest := new Digest();
      phase := Hashing;
      sequence, priorSequence, keyTarget := 0, 0, "";
      datastreamIds, mappedPins, mappedInputPulls, schedules := [], [], [], [];
      inputMappingCount, outputMappingCount := 0, 0;
      statusLedPin, systemSeen := None, false;
    }

    ghost predicate Decreased(stage: nat, remaining: int, scan: int)
      reads this
    {
      || Stage() < stage
      || (Stage() == stage && Remaining() < remaining)
      || (Stage() == stage && Remaining() == remaining && Scan() < scan)
    }

    method StepDigest()
      requires Valid() && phase == Hashing
      modifies this, digest, digest.buffer
      ensures Valid() && digest.buffer == old(digest.buffer)
      ensures phase in {Hashing, Semantic, Rejected}
      ensures Decreased(old(Stage()), old(Remaining()), old(Scan()))
    {
      hide Sha256.Hash, Digest.Filled, Admissible, Envelope, Seen, ValidList;
      if sequence < |records| {
        digest.AddRecord(records[sequence]);
        assert records[..sequence + 1][..sequence] == records[..sequence];
        sequence := sequence + 1;
        return;
      }
      assert records[..sequence] == records;
      var actual := digest.Finish();
      if actual != checksum {
        phase := Rejected;
        return;
      }
      phase := Semantic;
      ClearWorkspace();
      Nothing(board);
      assert Units()[..0] == [];
    }

    method ClearWorkspace()
      modifies this
      ensures sequence == 0 && phase == old(phase) && Seen([])
    {
      sequence, priorSequence := 0, 0;
      datastreamIds, mappedPins, mappedInputPulls, schedules := [], [], [], [];
      inputMappingCount, outputMappingCount := 0, 0;
      statusLedPin, systemSeen := None, false;
    }

    method ValidateDatastream(u: Unit, ghost us: seq<Unit>) returns (ok: bool)
      requires Seen(us) && Usable(board, u) && u.Datastream?
      modifies this`datastreamIds, this`mappedPins, this`mappedInputPulls, this`inputMappingCount,
               this`outputMappingCount, this`keyTarget
      ensures ok <==> Fits(board, us, u)
      ensures ok ==> Seen(us + [u]) && keyTarget == u.key
    {
      hide CountOf, AnnouncedOf, ChunksOf, TimesOf;
      if |datastreamIds| >= board.datastreamCapacity {
        return false;
      }
      var i := IndexOf(datastreamIds, u.id);
      if i < |datastreamIds| {
        return false;
      }
      datastreamIds := datastreamIds + [u.id];
      if board.automaticMapping && u.mapping.Some? {
        ok := ClaimPin(u, us);
        if !ok {
          return;
        }
      }
      DatastreamSeen(us, u);
      keyTarget := u.key;
      ok := true;
    }

    /** The pin book-keeping of an automatically mapped datastream. */
    method ClaimPin(u: Unit, ghost us: seq<Unit>) returns (ok: bool)
      requires u.Datastream? && Claim(board, u).Some?
      requires mappedPins == Pins(Claims(board, us)) && mappedInputPulls == Pulls(Claims(board, us))
      requires inputMappingCount == CountOf(Claims(board, us), true)
      requires outputMappingCount == CountOf(Claims(board, us), false)
      requires systemSeen == HasSystem(us) && (!systemSeen ==> statusLedPin == None)
      modifies this`mappedPins, this`mappedInputPulls, this`inputMappingCount, this`outputMappingCount
      ensures ok <==> ClaimFits(board, us, Claim(board, u).value)
      ensures ok ==>
                && mappedPins == Pins(Claims(board, us)) + [Claim(board, u).value.pin]
                && mappedInputPulls == Pulls(Claims(board, us)) + [PullOf(Claim(board, u).value)]
                && inputMappingCount == CountOf(Claims(board, us), true)
                                        + (if IsInput(Claim(board, u).value) then 1 else 0)
                && outputMappingCount == CountOf(Claims(board, us), false)
                                         + (if IsInput(Claim(board, u).value) then 0 else 1)
    {
      hide CountOf, Claims;
      var m := u.mapping.value;
      if m.kind.DigitalInput? || m.kind.AnalogInput? {
        inputMappingCount := inputMappingCount + 1;
        if inputMappingCount > board.inputSlots {
          return false;
        }
      } else {
        outputMappingCount := outputMappingCount + 1;
        if outputMappingCount > board.outputSlots {
          return false;
        }
      }
      if systemSeen || statusLedPin == Some(m.pin) || |mappedPins| >= board.pinCapacity {
        return false;
      }
      var i := IndexOf(mappedPins, m.pin);
      PinsMember(Claims(board, us), m.pin);
      if i < |mappedPins| {
        return false;
      }
      var pull := if !m.kind.DigitalInput? then NO_PULL else if m.pull.Some? then m.pull.value else 0;
      mappedInputPulls := mappedInputPulls + [pull];
      mappedPins := mappedPins + [m.pin];
      ok := true;
    }

    static lemma PinsMember(ms: seq<Mapping>, pin: nat)
      ensures pin in Pins(ms) <==> exists m :: m in ms && m.pin == pin
    {
      if pin in Pins(ms) {
        var i :| 0 <= i < |ms| && Pins(ms)[i] == pin;
        assert ms[i] in ms;
      }
      if m :| m in ms && m.pin == pin {
        var i :| 0 <= i < |ms| && ms[i] == m;
        assert Pins(ms)[i] == pin;
      }
    }

    lemma DatastreamSeen(us: seq<Unit>, u: Unit)
      requires u.Datastream?
      ensures DatastreamIds(us + [u]) == DatastreamIds(us) + [u.id]
      ensures HasSystem(us + [u]) == HasSystem(us)
      ensures ProgressOf(us + [u]) == ProgressOf(us)
      ensures var ms, c, ns := Claims(board, us), Claim(board, u), Claims(board, us + [u]);
              if c.Some? then
                && Pins(ns) == Pins(ms) + [c.value.pin] && Pulls(ns) == Pulls(ms) + [PullOf(c.value)]
                && CountOf(ns, true) == CountOf(ms, true) + (if IsInput(c.value) then 1 else 0)
                && CountOf(ns, false) == CountOf(ms, false) + (if IsInput(c.value) then 0 else 1)
              else ns == ms
    {
      Front(us, u);
      ClaimsExtend(board, us, u);
      NoSystemMore(us, u);
    }

    static lemma NoSystemMore(us: seq<Unit>, u: Unit)
      ensures HasSystem(us + [u]) == (HasSystem(us) || u.System?)
    {
      var vs := us + [u];
      if HasSystem(us) {
        var i :| 0 <= i < |us| && us[i].System?;
        assert vs[i].System?;
      }
      if u.System? {
        assert vs[|us|].System?;
      }
    }

    method ValidateSystem(u: Unit, ghost us: seq<Unit>) returns (ok: bool)
      requires Seen(us) && MappingsValid(board, us) && u.System?
      modifies this`systemSeen, this`statusLedPin
      ensures ok <==> Fits(board, us, u)
      ensures ok ==> Seen(us + [u])
    {
      hide CountOf, Claims, DatastreamIds, ProgressOf, MappingsValid;
      if systemSeen {
        return false;
      }
      systemSeen := true;
      SystemSeen(us, u);
      ghost var ms := Claims(board, us);
      ClaimedPinsDistinct(board, us);
      if board.automaticMapping && board.statusIndicator && u.statusLedPin.Some? {
        statusLedPin := u.statusLedPin;
        var i := IndexOf(mappedPins, u.statusLedPin.value);
        PinsMember(ms, u.statusLedPin.value);
        if i < |mappedPins| {
          return false;
        }
      }
      if board.automaticMapping && u.factoryResetPin.Some? {
        var pin := u.factoryResetPin.value;
        if statusLedPin == Some(pin) {
          return false;
        }
        var pull := if u.factoryResetActiveLow.None? || u.factoryResetActiveLow.value then 1 else 0;
        var i := IndexOf(mappedPins, pin);
        PinsMember(ms, pin);
        if i < |mappedPins| {
          pull := mappedInputPulls[i];
          assert ms[i] in ms && ms[i].pin == pin;
          if pull == NO_PULL {
            return false;
          }
        }
        if !board.inputMode(pin, pull) {
          return false;
        }
      }
      ok := true;
    }

    lemma SystemSeen(us: seq<Unit>, u: Unit)
      requires u.System?
      ensures DatastreamIds(us + [u]) == DatastreamIds(us)
      ensures HasSystem(us + [u]) && ProgressOf(us + [u]) == ProgressOf(us)
      ensures Claims(board, us + [u]) == Claims(board, us)
    {
      Front(us, u);
      ClaimsExtend(board, us, u);
      NoSystemMore(us, u);
    }

    /** The workspace entry of a schedule, or the count when there is none. */
    method FindSchedule(id: nat, ghost us: seq<Unit>) returns (i: nat)
      requires schedules == ProgressOf(us)
      ensures i <= |schedules|
      ensures i < |schedules| <==> id in ScheduleIds(us)
      ensures i < |schedules| ==> ScheduleIds(us)[i] == id
    {
      hide ScheduleIds;
      i := 0;
      while i < |schedules| && schedules[i].id != id
        invariant i <= |schedules| && id !in ScheduleIds(us)[..i]
      {
        i := i + 1;
      }
      if i == |schedules| {
        assert ScheduleIds(us)[..i] == ScheduleIds(us);
      }
    }

    method ValidateSchedule(u: Unit, ghost us: seq<Unit>) returns (ok: bool)
      requires Seen(us) && ChunksValid(board, us) && u.Schedule?
      modifies this`schedules
      ensures ok <==> Fits(board, us, u)
      ensures ok ==> Seen(us + [u])
    {
      hide CountOf, Claims, DatastreamIds, ProgressOf, ScheduleIds;
      if |schedules| >= board.scheduleCapacity || u.id == 0 || u.validUntil == 0 || |u.actions| == 0
         || |u.actions| > SCHEDULE_ACTIONS {
        return false;
      }
      var i := FindSchedule(u.id, us);
      if i < |schedules| {
        return false;
      }
      ScheduleSeen(us, u);
      schedules := schedules + [Progress(u.id, 0, 0, 0)];
      ok := true;
    }

    static lemma IdsMore(us: seq<Unit>, u: Unit)
      ensures DatastreamIds(us + [u]) == DatastreamIds(us) + (if u.Datastream? then [u.id] else [])
      ensures ScheduleIds(us + [u]) == ScheduleIds(us) + (if u.Schedule? then [u.id] else [])
    {
      Front(us, u);
    }

    static lemma ChunksMore(us: seq<Unit>, u: Unit, id: nat)
      ensures ChunksOf(us + [u], id) == ChunksOf(us, id) + (if IsChunk(u, id) then 1 else 0)
      ensures TimesOf(us + [u], id) == TimesOf(us, id) + (if IsChunk(u, id) then u.times else [])
      ensures AnnouncedOf(us + [u], id) == (if IsChunk(u, id) then u.chunkCount else AnnouncedOf(us, id))
    {
      Front(us, u);
    }

    lemma NoClaimMore(us: seq<Unit>, u: Unit)
      requires u.Schedule? || u.Occurrences?
      ensures HasSystem(us + [u]) == HasSystem(us) && Claims(board, us + [u]) == Claims(board, us)
    {
      hide Claims;
      ClaimsExtend(board, us, u);
      NoSystemMore(us, u);
    }

    lemma ScheduleSeen(us: seq<Unit>, u: Unit)
      requires u.Schedule? && u.id !in ScheduleIds(us) && ChunksValid(board, us)
      ensures DatastreamIds(us + [u]) == DatastreamIds(us)
      ensures HasSystem(us + [u]) == HasSystem(us) && Claims(board, us + [u]) == Claims(board, us)
      ensures ProgressOf(us + [u]) == ProgressOf(us) + [Progress(u.id, 0, 0, 0)]
    {
      hide DatastreamIds, ScheduleIds, Claims, ChunksOf, TimesOf, AnnouncedOf, HasSystem, ChunksValid;
      IdsMore(us, u);
      NoClaimMore(us, u);
      UndeclaredHasNoChunks(board, us, u.id);
      forall id: nat
        ensures ChunksOf(us + [u], id) == ChunksOf(us, id) && TimesOf(us + [u], id) == TimesOf(us, id)
        ensures AnnouncedOf(us + [u], id) == AnnouncedOf(us, id)
      {
        ChunksMore(us, u, id);
      }
    }

    method ValidateOccurrences(u: Unit, ghost us: seq<Unit>) returns (ok: bool)
      requires Seen(us) && SchedulesValid(board, us) && u.Occurrences?
      modifies this`schedules
      ensures ok <==> Fits(board, us, u)
      ensures ok ==> Seen(us + [u])
    {
      hide CountOf, Claims, DatastreamIds, ScheduleIds, SchedulesValid;
      var index := FindSchedule(u.scheduleId, us);
      if index == |schedules| {
        return false;
      }
      var schedule := schedules[index];
      if u.chunkCount == 0 || u.chunkIndex >= u.chunkCount || u.chunkIndex != schedule.nextChunk
         || (schedule.chunkCount != 0 && schedule.chunkCount != u.chunkCount)
         || |u.times| == 0 || |u.times| > OCCURRENCE_CHUNK
         || schedule.occurrences + |u.times| > board.occurrenceCapacity {
        return false;
      }
      OccurrencesSeen(us, u, index);
      schedules := schedules[index := Progress(schedule.id, schedule.nextChunk + 1, u.chunkCount,
                                               schedule.occurrences + |u.times|)];
      ok := true;
    }

    lemma OccurrencesSeen(us: seq<Unit>, u: Unit, index: nat)
      requires u.Occurrences? && SchedulesValid(board, us)
      requires index < |ScheduleIds(us)| && ScheduleIds(us)[index] == u.scheduleId
      ensures DatastreamIds(us + [u]) == DatastreamIds(us)
      ensures HasSystem(us + [u]) == HasSystem(us) && Claims(board, us + [u]) == Claims(board, us)
      ensures var p := ProgressOf(us)[index];
              ProgressOf(us + [u]) == ProgressOf(us)[index := Progress(p.id, p.nextChunk + 1, u.chunkCount,
                                                                       p.occurrences + |u.times|)]
    {
      hide DatastreamIds, ScheduleIds, Claims, ChunksOf, TimesOf, AnnouncedOf, HasSystem, SchedulesValid;
      IdsMore(us, u);
      NoClaimMore(us, u);
      ScheduleIdsDistinct(board, us);
      forall i | 0 <= i < |ScheduleIds(us)|
        ensures i != index ==> ProgressOf(us + [u])[i] == ProgressOf(us)[i]
      {
        ChunksMore(us, u, ScheduleIds(us)[i]);
      }
      ChunksMore(us, u, u.scheduleId);
    }

    /** `validateConfigurationUnit`: admits a unit exactly when it is usable and fits. */
    method ValidateUnit(u: Unit, ghost us: seq<Unit>) returns (ok: bool)
      requires Seen(us) && Admissible(board, us)
      modifies this`datastreamIds, this`mappedPins, this`mappedInputPulls, this`inputMappingCount,
               this`outputMappingCount, this`keyTarget, this`systemSeen, this`statusLedPin, this`schedules
      ensures ok <==> Admissible(board, us + [u])
      ensures ok ==> Seen(us + [u])
      ensures ok && u.Datastream? ==> keyTarget == u.key
    {
      hide CountOf, Claims, DatastreamIds, Fits, HasSystem, ProgressOf, DatastreamsValid, MappingsValid, SystemsValid,
        SchedulesValid, ChunksValid;
      AdmissibleExtend(board, us, u);
      if u.Malformed? || !board.accepts(u) {
        return false;
      }
      match u
      case Datastream(id, key, _) =>
        ok := ValidId(id) && 0 < |key| <= KEY_BYTES;
        if ok {
          ok := ValidateDatastream(u, us);
        }
      case System(_, _, _) => ok := ValidateSystem(u, us);
      case Schedule(_, _, _, _, _) => ok := ValidateSchedule(u, us);
      case Occurrences(_, _, _, _) => ok := ValidateOccurrences(u, us);
      case _ =>
        OtherSeen(us, u);
        ok := true;
    }

    lemma OtherSeen(us: seq<Unit>, u: Unit)
      requires u.Safety? || u.Parameter?
      ensures Fits(board, us, u)
      ensures DatastreamIds(us + [u]) == DatastreamIds(us)
      ensures HasSystem(us + [u]) == HasSystem(us) && Claims(board, us + [u]) == Claims(board, us)
      ensures ProgressOf(us + [u]) == ProgressOf(us)
    {
      Front(us, u);
      ClaimsExtend(board, us, u);
      NoSystemMore(us, u);
    }

    method StepSemantic()
      requires Valid() && phase == Semantic
      modifies this
      ensures Valid()
      ensures Decreased(old(Stage()), old(Remaining()), old(Scan()))
    {
      hide Sha256.Hash, Digest.Filled, Admissible, Seen, ValidList, SchedulesComplete, Resolved, KeysDistinct, Stream;
      ghost var us := Units();
      if sequence >= |records| {
        assert us[..sequence] == us;
        var complete := CheckComplete();
        RejectsIncomplete(us);
        if !complete {
          phase := Rejected;
        } else {
          EnterReferences();
        }
        return;
      }
      var u := decode(records[sequence]);
      ghost var before := us[..sequence];
      assert us[..sequence + 1] == before + [u];
      var ok := ValidateUnit(u, before);
      if !ok {
        RejectsInadmissible(us, sequence + 1);
        phase := Rejected;
      } else if u.Datastream? {
        EnterKeyScan();
      } else {
        KeysDistinctExtend(before, u);
        NextUnit();
      }
    }

    method EnterReferences()
      requires Valid() && phase == Semantic && sequence == |records| && SchedulesComplete(Units())
      modifies this`sequence, this`phase
      ensures Valid() && phase == References && sequence == 0
    {
      hide Digest.Filled, Admissible, SchedulesComplete, Resolved, KeysDistinct, Claims, DatastreamIds, ProgressOf, HasSystem;
      assert Units()[..sequence] == Units();
      sequence := 0;
      phase := References;
    }

    method EnterKeyScan()
      requires digest.Valid() && phase == Semantic && sequence < |records| && HashMatches()
      requires var us := Units();
               && us[sequence].Datastream? && keyTarget == us[sequence].key && Seen(us[..sequence + 1])
               && Admissible(board, us[..sequence + 1]) && KeysDistinct(us[..sequence])
      modifies this`priorSequence, this`phase
      ensures Valid() && phase == KeyScan && sequence == old(sequence)
    {
      hide Digest.Filled, Admissible, KeysDistinct, Claims, DatastreamIds, ProgressOf, HasSystem;
      priorSequence := 0;
      phase := KeyScan;
    }

    method NextUnit()
      requires digest.Valid() && phase in {Semantic, KeyScan} && sequence < |records| && HashMatches()
      requires var us := Units();
               && Seen(us[..sequence + 1])
               && Admissible(board, us[..sequence + 1]) && KeysDistinct(us[..sequence + 1])
      modifies this`sequence, this`phase
      ensures Valid() && phase == Semantic && sequence == old(sequence) + 1
    {
      hide Digest.Filled, Admissible, KeysDistinct, Claims, DatastreamIds, ProgressOf, HasSystem;
      sequence := sequence + 1;
      phase := Semantic;
    }

    /** The end of the semantic phase: does every schedule have all its chunks? */
    method CheckComplete() returns (complete: bool)
      requires Seen(Units()) && Admissible(board, Units())
      ensures complete <==> SchedulesComplete(Units())
    {
      hide Claims, DatastreamIds, HasSystem, SchedulesComplete, DatastreamsValid, MappingsValid, SystemsValid,
        SchedulesValid, ChunksValid, ScheduleIds;
      CompleteAll(board, Units());
      complete := true;
      var i := 0;
      while i < |schedules| && complete
        invariant i <= |schedules|
        invariant complete ==> forall k :: 0 <= k < i ==> FullyReceived(Units(), ScheduleIds(Units())[k])
        invariant !complete ==> exists k :: 0 <= k < |schedules| && !FullyReceived(Units(), ScheduleIds(Units())[k])
      {
        complete := schedules[i].chunkCount != 0 && schedules[i].nextChunk == schedules[i].chunkCount;
        assert complete == FullyReceived(Units(), ScheduleIds(Units())[i]);
        i := i + 1;
      }
    }

    static ghost predicate FullyReceived(us: seq<Unit>, id: nat) {
      AnnouncedOf(us, id) != 0 && ChunksOf(us, id) == AnnouncedOf(us, id)
    }

    static lemma CompleteAll(board: Board, us: seq<Unit>)
      requires Admissible(board, us)
      ensures (forall k :: 0 <= k < |ScheduleIds(us)| ==> FullyReceived(us, ScheduleIds(us)[k]))
              <==> SchedulesComplete(us)
    {
      hide DatastreamsValid, MappingsValid, SystemsValid, SchedulesValid, ChunksValid, ScheduleIds;
      forall i | 0 <= i < |us| && us[i].Schedule?
        ensures us[i].id in ScheduleIds(us)
        ensures FullyReceived(us, us[i].id) <==>
                exists k :: 0 <= k < |us| && IsChunk(us[k], us[i].id) && us[k].chunkIndex + 1 == us[k].chunkCount
      {
        ScheduleIdsMember(us, us[i].id);
        CompleteIff(board, us, us[i].id);
      }
      forall k | 0 <= k < |ScheduleIds(us)|
        ensures exists i :: 0 <= i < |us| && us[i].Schedule? && us[i].id == ScheduleIds(us)[k]
      {
        ScheduleIdsMember(us, ScheduleIds(us)[k]);
      }
    }

    lemma RejectsIncomplete(us: seq<Unit>)
      ensures !SchedulesComplete(us) ==> !ValidList(board, us)
    {}

    lemma RejectsInadmissible(us: seq<Unit>, n: nat)
      requires n <= |us| && !Admissible(board, us[..n])
      ensures !ValidList(board, us)
    {
      hide Admissible;
      if Admissible(board, us) {
        AdmissiblePrefix(board, us, n);
      }
    }

    static lemma KeysDistinctExtend(us: seq<Unit>, u: Unit)
      requires KeysDistinct(us)
      requires u.Datastream? ==> forall k :: 0 <= k < |us| && us[k].Datastream? ==> us[k].key != u.key
      ensures KeysDistinct(us + [u])
    {}

    method StepKeyScan()
      requires Valid() && phase == KeyScan
      modifies this
      ensures Valid()
      ensures Decreased(old(Stage()), old(Remaining()), old(Scan()))
    {
      hide Sha256.Hash, Digest.Filled, Admissible, SchedulesComplete, Resolved, Stream, Claims, DatastreamIds,
        ProgressOf, HasSystem;
      ghost var us := Units();
      if priorSequence < sequence {
        var u := decode(records[priorSequence]);
        assert us[priorSequence] == u;
        if u.Datastream? && u.key == keyTarget {
          phase := Rejected;
          return;
        }
        priorSequence := priorSequence + 1;
        return;
      }
      var u := decode(records[sequence]);
      assert us[..sequence + 1] == us[..sequence] + [u];
      KeysDistinctExtend(us[..sequence], u);
      NextUnit();
    }

    method StepReferences()
      requires Valid() && phase == References
      modifies this
      ensures Valid()
      ensures Decreased(old(Stage()), old(Remaining()), old(Scan()))
    {
      hide Sha256.Hash, Digest.Filled, Admissible, SchedulesComplete, KeysDistinct, Resolved, Stream, Claims,
        DatastreamIds, ProgressOf, HasSystem;
      if sequence >= |records| {
        phase := Verified;
        return;
      }
      var u := decode(records[sequence]);
      assert Units()[sequence] == u;
      var resolved := CheckReferences(u);
      if !resolved {
        phase := Rejected;
        return;
      }
      sequence := sequence + 1;
    }

    method CheckReferences(u: Unit) returns (resolved: bool)
      requires Seen(Units())
      ensures resolved <==> Resolved(Units(), u)
    {
      hide Claims, DatastreamIds, HasSystem, ProgressOf;
      resolved := true;
      if u.Safety? {
        var i := IndexOf(datastreamIds, u.datastreamId);
        resolved := i < |datastreamIds|;
      } else if u.Schedule? {
        var a := 0;
        while a < |u.actions| && resolved
          invariant a <= |u.actions|
          invariant resolved ==> forall k :: 0 <= k < a ==> u.actions[k].datastreamId in DatastreamIds(Units())
          invariant !resolved ==>
                      exists k :: 0 <= k < |u.actions| && u.actions[k].datastreamId !in DatastreamIds(Units())
        {
          var i := IndexOf(datastreamIds, u.actions[a].datastreamId);
          resolved := i < |datastreamIds|;
          a := a + 1;
        }
      }
    }

    /** One call of `stepConfigurationWork` in a transfer verification. */
    method Step()
      requires Valid() && phase !in {Verified, Rejected}
      modifies this, digest, digest.buffer
      ensures Valid() && digest.buffer == old(digest.buffer)
      ensures Decreased(old(Stage()), old(Remaining()), old(Scan()))
    {
      match phase
      case Hashing => StepDigest();
      case Semantic => StepSemantic();
      case KeyScan => StepKeyScan();
      case References => StepReferences();
    }

    /**
     The stepwise verifier decides one predicate of the whole record list, and
     the phases come to an end.
     */
    method Verify() returns (verified: bool)
      requires Valid() && phase == Hashing
      modifies this, digest, digest.buffer
      ensures verified <==> Sha256.Hash(Stream(records)) == checksum && ValidList(board, Units())
    {
      hide Sha256.Hash, Digest.Filled, Seen, ValidList, Admissible, SchedulesComplete, KeysDistinct, Resolved, Stream;
      while phase !in {Verified, Rejected}
        invariant Valid() && digest.buffer == old(digest.buffer)
        decreases Stage(), Remaining(), Scan()
      {
        Step();
      }
      verified := phase == Verified;
    }
  }
}
