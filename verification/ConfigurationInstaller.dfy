/** The transactional receiver of a configuration generation. */
module ConfigurationInstaller {
  import opened Bytes
  import opened Options
  import opened ConfigurationTypes
  import opened ConfigurationDigest
  import opened DurableStorage
  import opened ConfigurationBanks
  import opened LinkConfigurationStorage
  import Sha256

  datatype Status =
    | Accepted | Duplicate | AlreadyCommitted | InvalidBegin | InvalidRecord | InvalidEnd | TransferActive
    | StaleGeneration | OutOfOrder | DuplicateMismatch | ChecksumMismatch | StorageFailure | VerificationFailure

  datatype Ack = Ack(messageId: nat, generation: nat, sequence: nat, status: Status)

  datatype Phase = Idle | Receiving | Finalized | Committed

  function ManifestFrom(b: Begin): Manifest {
    Manifest(b.generation, b.schemaVersion, b.maximumRecordBytes, b.recordCount, b.checksum, false)
  }

  predicate Matches(m: Manifest, b: Begin) {
    SameTransfer(m, ManifestFrom(b))
  }

  predicate EndMatches(m: Manifest, e: End) {
    m.generation == e.generation && m.recordCount == e.recordCount && m.checksum == e.checksum
  }

  predicate ValidRecord(r: Record) {
    0 < |r.body| <= MAXIMUM_RECORD_BYTES && r.kind < RECORD_KINDS
  }

  /** Equal in everything that is stored. */
  predicate Same(r: Record, s: Record) {
    r.(messageId := 0) == s.(messageId := 0)
  }

  /** The active generation is the same one, with the same bank contents. */
  ghost predicate Kept(d: Image, e: Image) {
    Active(e) == Active(d) && Untouched(d, e)
  }

  /** What is compared and bounded, field by field. */
  lemma FieldsCompared(m: Manifest, b: Begin, e: End, r: Record, s: Record)
    ensures Matches(m, b)
            <==> && m.generation == b.generation && m.schemaVersion == b.schemaVersion
                 && m.maximumRecordBytes == b.maximumRecordBytes && m.recordCount == b.recordCount
                 && m.checksum == b.checksum
    ensures EndMatches(m, e)
            <==> m.generation == e.generation && m.recordCount == e.recordCount && m.checksum == e.checksum
    ensures ValidRecord(r) <==> r.body != [] && |r.body| <= 448 && r.kind <= 5
    ensures Same(r, s)
            <==> r.generation == s.generation && r.sequence == s.sequence && r.kind == s.kind && r.body == s.body
    ensures !ManifestFrom(b).finalized && Matches(ManifestFrom(b), b)
  {}

  class Installer {
    const link: LinkStorage
    const maximumRecords: nat
    const digest: Digest
    var phase: Phase
    var nextSequence: nat
    var manifest: Manifest
    var workspace: Record

    /** `nextSequence` records of the inactive bank are durable and hashed. */
    ghost predicate ReceivingSound(d: Image)
      reads this, digest
    {
      && link.Accepts(manifest) && !manifest.finalized
      && manifest.generation > Active(d) && Inactive(d, manifest.generation)
      && nextSequence <= manifest.recordCount
      && Readable(d, link.capacity, manifest.generation, nextSequence)
      && digest.message == Stream(Bank(d, link.capacity, manifest.generation, nextSequence))
      && BankManifestFits(d, manifest)
      && (var p := LoadManifest(d, Pending);
          p.Some? ==> SameTransfer(p.value, manifest) && (p.value.finalized ==> nextSequence == manifest.recordCount))
    }

    /** Every record is durable and hashes to the announced checksum. */
    ghost predicate FinalizedSound(d: Image)
      reads this
    {
      && manifest.generation != 0
      && manifest.generation >= Active(d)
      && Complete(d, link.capacity, manifest)
      && BankManifestFits(d, manifest)
    }

    ghost predicate Valid()
      reads this, link.storage, digest, digest.buffer
    {
      && digest.Valid()
      && Consistent(link.storage.image, link.capacity)
      && (phase == Receiving ==> ReceivingSound(link.storage.image))
      && (phase == Finalized ==> FinalizedSound(link.storage.image))
    }

    /** A start after power-up: nothing volatile survives. */
    constructor (link: LinkStorage, maximumRecords: nat)
      requires Consistent(link.storage.image, link.capacity)
      ensures Valid() && phase == Idle
      ensures this.link == link && this.maximumRecords == maximumRecords
      ensures fresh(digest) && fresh(digest.buffer) && digest.message == []
      ensures nextSequence == 0 && manifest.generation == 0 && workspace == Record(0, 0, 0, 0, [])
    {
      this.link, this.maximumRecords := link, maximumRecords;
      digest := new Digest();
      phase, nextSequence := Idle, 0;
      manifest := Manifest(0, 0, 0, 0, [], false);
      workspace := Record(0, 0, 0, 0, []);
    }

    method Reset()
      requires Valid()
      modifies this, digest
      ensures Valid() && phase == Idle && nextSequence == 0 && workspace == Record(0, 0, 0, 0, [])
      ensures digest.message == [] && manifest == old(manifest)
      ensures digest.buffer == old(digest.buffer)
    {
      phase := Idle;
      nextSequence := 0;
      digest.Reset();
      workspace := Record(0, 0, 0, 0, []);
    }

    predicate ValidBegin(b: Begin) {
      && b.generation != 0 && b.schemaVersion != 0 && b.recordCount <= maximumRecords
      && 0 < b.maximumRecordBytes <= MAXIMUM_RECORD_BYTES
    }

    /** The offer is not of a new generation in the active bank. */
    predicate Clear(d: Image, generation: nat) {
      generation > Active(d) ==> Inactive(d, generation)
    }

    /** CONFIG_BEGIN. An accepted offer of a new generation in the active bank destroys the active one. */
    method Start(b: Begin) returns (ack: Ack)
      requires Valid()
      modifies this, digest, link.storage
      ensures digest.buffer == old(digest.buffer)
      ensures Clear(old(link.storage.image), b.generation) ==> Valid() && Kept(old(link.storage.image), link.storage.image)
      ensures !Clear(old(link.storage.image), b.generation) && ack.status == Accepted ==>
                !Safe(link.storage.image, link.capacity) && !Acceptable(link.storage.image, link.capacity)
      ensures ack.status in {InvalidBegin, StaleGeneration, AlreadyCommitted, Duplicate, TransferActive} ==>
                Valid() && link.storage.image == old(link.storage.image)
      ensures link.storage.powered ==> old(link.storage.powered)
      ensures ack.(status := Accepted) == Ack(b.messageId, b.generation, 0, Accepted)
      ensures ack.status == Accepted ==>
                phase == Receiving && nextSequence == 0 && manifest == ManifestFrom(b) && link.storage.powered
      ensures ack.status == Duplicate ==> phase in {Receiving, Finalized} && Matches(manifest, b)
      ensures ack.status == AlreadyCommitted ==>
                phase == Committed && Matches(manifest, b) && manifest.generation == Active(link.storage.image)
      ensures ack.status in {Accepted, Duplicate} && old(link.storage.powered) ==>
                b.generation > Active(old(link.storage.image))
      ensures ack.status == InvalidBegin
              <==> b.generation == 0 || b.schemaVersion == 0 || b.recordCount > maximumRecords
                   || b.maximumRecordBytes == 0 || b.maximumRecordBytes > 448
      ensures ValidBegin(b) && old(link.storage.powered) && b.generation < Active(old(link.storage.image)) ==>
                ack.status == StaleGeneration
      ensures ValidBegin(b) && old(link.storage.powered) && b.generation == Active(old(link.storage.image)) ==>
                var m := LoadManifest(link.storage.image, ManifestKey(Odd(b.generation)));
                ack.status == if m == Some(ManifestFrom(b).(finalized := true)) then AlreadyCommitted else StaleGeneration
      ensures ack.status == AlreadyCommitted ==> nextSequence == b.recordCount
      ensures ValidBegin(b) && old(link.storage.powered) && b.generation > Active(old(link.storage.image))
              && old(phase) in {Receiving, Finalized} ==>
                ack.status == if Matches(old(manifest), b) then Duplicate else TransferActive
      ensures ValidBegin(b) && old(link.storage.powered) && b.generation > Active(old(link.storage.image))
              && old(phase) in {Idle, Committed} ==>
                && (ack.status == StaleGeneration <==> Overtaken(old(link.storage.image), b))
                && (ack.status == Duplicate <==> Settled(old(link.storage.image), b))
      ensures Fresh(old(link.storage.image), old(link.storage.powered), b) && old(phase) in {Idle, Committed} ==>
                ack.status == Accepted
      ensures Resumable(old(link.storage.image), old(link.storage.powered), b) && old(phase) in {Idle, Committed} ==>
                ack.status == Duplicate && phase == Finalized && link.storage.powered
    {
      hide Consistent, Complete, BankManifestFits, Digest.Valid, LoadManifest, Generations, Safe, Acceptable;
      ack := Ack(b.messageId, b.generation, 0, InvalidBegin);
      if !ValidBegin(b) {
        return;
      }
      var active := link.ActiveGeneration();
      if b.generation < active {
        return ack.(status := StaleGeneration);
      }
      if b.generation == active {
        var m := link.GenerationManifest(active);
        if m.Some? && Matches(m.value, b) && m.value.finalized {
          manifest := m.value;
          phase := Committed;
          nextSequence := manifest.recordCount;
          return ack.(status := AlreadyCommitted);
        }
        return ack.(status := StaleGeneration);
      }
      if phase == Receiving || phase == Finalized {
        return ack.(status := if Matches(manifest, b) then Duplicate else TransferActive);
      }
      if phase == Committed {
        Reset();
      }
      ack := Offer(b);
    }

    /** A newer transfer is pending. */
    predicate Overtaken(d: Image, b: Begin) {
      var p := LoadManifest(d, Pending);
      p.Some? && p.value.generation > b.generation
    }

    /** The pending manifest already stands for the whole of the offered transfer. */
    predicate Settled(d: Image, b: Begin) {
      var p := LoadManifest(d, Pending);
      p.Some? && p.value.generation == b.generation && p.value.finalized && Matches(p.value, b)
    }

    /**
     A valid offer of a new generation that nothing newer stands against; an
     interrupted transfer of the same generation starts over.
     */
    ghost predicate Fresh(d: Image, powered: bool, b: Begin) {
      && link.storage.reliable && powered && ValidBegin(b) && link.Accepts(ManifestFrom(b))
      && b.generation > Active(d) && !Settled(d, b)
      && (var p := LoadManifest(d, Pending); p.Some? ==> p.value.generation <= b.generation)
    }

    /** A valid offer of a transfer that was finalized but not activated. */
    ghost predicate Resumable(d: Image, powered: bool, b: Begin) {
      powered && ValidBegin(b) && b.generation > Active(d) && Settled(d, b)
    }

    /** The part of CONFIG_BEGIN that may open a new transfer. */
    method Offer(b: Begin) returns (ack: Ack)
      requires Valid() && phase == Idle && ValidBegin(b)
      requires link.storage.powered ==> b.generation > Active(link.storage.image)
      modifies this, digest, link.storage
      ensures digest.buffer == old(digest.buffer)
      ensures Clear(old(link.storage.image), b.generation) ==> Valid() && Kept(old(link.storage.image), link.storage.image)
      ensures !Clear(old(link.storage.image), b.generation) && ack.status == Accepted ==>
                !Safe(link.storage.image, link.capacity) && !Acceptable(link.storage.image, link.capacity)
      ensures ack.status in {StaleGeneration, Duplicate} ==> Valid() && link.storage.image == old(link.storage.image)
      ensures link.storage.powered ==> old(link.storage.powered)
      ensures ack.(status := Accepted) == Ack(b.messageId, b.generation, 0, Accepted)
      ensures ack.status in {Accepted, Duplicate, StaleGeneration, StorageFailure}
      ensures ack.status == Accepted ==>
                phase == Receiving && nextSequence == 0 && manifest == ManifestFrom(b) && link.storage.powered
      ensures ack.status == Duplicate ==> phase == Finalized && Matches(manifest, b)
      ensures old(link.storage.powered) ==>
                && (ack.status == StaleGeneration <==> Overtaken(old(link.storage.image), b))
                && (ack.status == Duplicate <==> Settled(old(link.storage.image), b))
      ensures Fresh(old(link.storage.image), old(link.storage.powered), b) ==> ack.status == Accepted
      ensures Resumable(old(link.storage.image), old(link.storage.powered), b) ==>
                ack.status == Duplicate && link.storage.powered
    {
      hide Complete, Safe, Acceptable, Generations, Intact, PackManifest;
      ack := Ack(b.messageId, b.generation, 0, Accepted);
      ghost var d := link.storage.image;
      var pending := link.PendingManifest();
      if pending.Some? && pending.value.generation > b.generation {
        return ack.(status := StaleGeneration);
      }
      if pending.Some? && pending.value.generation == b.generation && pending.value.finalized
         && Matches(pending.value, b) {
        manifest := pending.value;
        phase := Finalized;
        return ack.(status := Duplicate);
      }
      manifest := ManifestFrom(b);
      var begun := link.BeginInactive(manifest);
      if Clear(d, b.generation) {
        BegunKeeps(d, link.storage.image, manifest);
      } else if begun {
        BeginSafeIff(d, link.capacity, manifest);
      }
      if !begun {
        return ack.(status := StorageFailure);
      }
      digest.Reset();
      nextSequence := 0;
      phase := Receiving;
    }

    lemma BegunKeeps(d: Image, e: Image, m: Manifest)
      requires Consistent(d, link.capacity) && !m.finalized
      requires e == d || (Inactive(d, m.generation) && SavedTwice(d, e, m, false))
      ensures Consistent(e, link.capacity) && Kept(d, e)
      ensures SavedTwice(d, e, m, true) ==>
                LoadManifest(e, Pending) == Some(m) && LoadManifest(e, ManifestKey(Odd(m.generation))) == Some(m)
    {
      hide Complete, Whole, Generations, Intact, PackManifest;
      var d1 := d[Pending := PackManifest(m)];
      PackedLoads(d, Pending, m);
      PackedLoads(d1, ManifestKey(Odd(m.generation)), m);
      if e != d {
        BeginKeepsConsistent(d, link.capacity, m);
      }
    }

    predicate ValidFor(r: Record)
      reads this
    {
      && ValidRecord(r) && r.generation == manifest.generation
      && |r.body| <= manifest.maximumRecordBytes && r.sequence < manifest.recordCount
    }

    predicate Expects(r: Record, next: nat)
      reads this
    {
      phase == Receiving && ValidFor(r) && r.sequence == next
    }

    /** How a record is refused before storage is looked at. */
    function RecordRefusal(r: Record): Option<Status>
      reads this
    {
      if phase == Idle then Some(InvalidRecord)
      else if r.generation < manifest.generation then Some(StaleGeneration)
      else if !ValidFor(r) then Some(InvalidRecord)
      else if phase == Receiving && r.sequence > nextSequence then Some(OutOfOrder)
      else None
    }

    /** CONFIG_RECORD. */
    method AddRecord(r: Record) returns (ack: Ack)
      requires Valid()
      modifies this`nextSequence, this`workspace, digest, digest.buffer, link.storage
      ensures Valid() && digest.buffer == old(digest.buffer)
      ensures Kept(old(link.storage.image), link.storage.image)
      ensures link.storage.powered ==> old(link.storage.powered)
      ensures ack.(status := Accepted) == Ack(r.messageId, r.generation, r.sequence, Accepted)
      ensures ack.status == Accepted ==>
                && phase == Receiving && ValidFor(r) && r.sequence == old(nextSequence)
                && nextSequence == old(nextSequence) + 1 && link.storage.powered
                && Bank(link.storage.image, link.capacity, manifest.generation, nextSequence)
                   == Bank(old(link.storage.image), link.capacity, manifest.generation, old(nextSequence))
                      + [r.(messageId := 0)]
      ensures ack.status != Accepted ==> nextSequence == old(nextSequence)
      ensures ack.status in {Duplicate, DuplicateMismatch} ==>
                && phase != Idle && ValidFor(r) && link.storage.image == old(link.storage.image)
                && (var known := LoadRecord(link.storage.image, link.capacity, manifest.generation, r.sequence);
                    known.Some? && (ack.status == Duplicate <==> Same(known.value, r)))
      ensures old(RecordRefusal(r)).Some? ==>
                ack.status == old(RecordRefusal(r)).value && link.storage.image == old(link.storage.image)
      ensures old(RecordRefusal(r)).None? ==>
                ack.status in {Accepted, Duplicate, DuplicateMismatch, StorageFailure, VerificationFailure}
      ensures link.storage.reliable && old(link.storage.powered) && Expects(r, old(nextSequence)) ==>
                ack.status == Accepted
    {
      hide Consistent, Complete, BankManifestFits, LoadManifest, LoadRecord, Generations, Digest.Valid;
      ack := Ack(r.messageId, r.generation, r.sequence, InvalidRecord);
      if phase == Idle {
        return;
      }
      if r.generation != manifest.generation {
        return ack.(status := if r.generation < manifest.generation then StaleGeneration else InvalidRecord);
      }
      if !ValidFor(r) {
        return;
      }
      if phase != Receiving || r.sequence < nextSequence {
        var status := Compare(r);
        return ack.(status := status);
      }
      if r.sequence != nextSequence {
        return ack.(status := OutOfOrder);
      }
      var status := Append(r);
      return ack.(status := status);
    }

    /** A record the bank already holds: compared with what is read back. */
    method Compare(r: Record) returns (status: Status)
      modifies this`workspace
      ensures status == VerificationFailure || status == Duplicate || status == DuplicateMismatch
      ensures status in {Duplicate, DuplicateMismatch} ==>
                var known := LoadRecord(link.storage.image, link.capacity, manifest.generation, r.sequence);
                known.Some? && (status == Duplicate <==> Same(known.value, r))
    {
      hide LoadRecord;
      var known := link.ReadRecord(manifest.generation, r.sequence);
      if known.None? {
        return VerificationFailure;
      }
      workspace := known.value.(messageId := workspace.messageId);
      status := if Same(workspace, r) then Duplicate else DuplicateMismatch;
    }

    /** The next record of the transfer: written, read back, compared and hashed. */
    method Append(r: Record) returns (status: Status)
      requires Valid() && phase == Receiving && ValidFor(r) && r.sequence == nextSequence
      modifies this`nextSequence, this`workspace, digest, digest.buffer, link.storage
      ensures Valid() && digest.buffer == old(digest.buffer)
      ensures Kept(old(link.storage.image), link.storage.image)
      ensures link.storage.powered ==> old(link.storage.powered)
      ensures status == Accepted || status == StorageFailure || status == VerificationFailure
      ensures status == Accepted ==>
                && nextSequence == old(nextSequence) + 1 && link.storage.powered
                && Bank(link.storage.image, link.capacity, manifest.generation, nextSequence)
                   == Bank(old(link.storage.image), link.capacity, manifest.generation, old(nextSequence))
                      + [r.(messageId := 0)]
      ensures status != Accepted ==> nextSequence == old(nextSequence)
      ensures link.storage.reliable && old(link.storage.powered) ==> status == Accepted
    {
      hide Consistent, Generations, LoadRecord, LoadManifest, Readable, PackRecord, Digest.Filled, Untouched, Kept, Stream;
      ghost var d := link.storage.image;
      workspace := r;
      var written := link.WriteRecord(manifest.generation, workspace);
      ghost var e := link.storage.image;
      AppendKeeps(d, e, r);
      if !written {
        return StorageFailure;
      }
      AppendExtends(d, e, r);
      var known := link.ReadRecord(manifest.generation, r.sequence);
      if known.None? || !Same(known.value, r) {
        return VerificationFailure;
      }
      workspace := known.value.(messageId := workspace.messageId);
      Accept();
      status := Accepted;
    }

    /** Hashes the record read back and moves on to the next sequence number. */
    method Accept()
      requires Valid() && phase == Receiving && nextSequence < manifest.recordCount
      requires var d := link.storage.image;
               && Readable(d, link.capacity, manifest.generation, nextSequence + 1)
               && Stream(Bank(d, link.capacity, manifest.generation, nextSequence + 1))
                  == Stream(Bank(d, link.capacity, manifest.generation, nextSequence)) + Envelope(workspace)
               && (var p := LoadManifest(d, Pending); p.Some? ==> !p.value.finalized)
      modifies this`nextSequence, digest, digest.buffer
      ensures Valid() && digest.buffer == old(digest.buffer)
      ensures nextSequence == old(nextSequence) + 1
    {
      hide Consistent, Generations, LoadManifest, LoadRecord, Readable, Digest.Filled, Bank, Envelope, Stream;
      digest.AddRecord(workspace);
      nextSequence := nextSequence + 1;
    }

    /** The slot written is outside what has been accepted and outside the active bank. */
    lemma AppendKeeps(d: Image, e: Image, r: Record)
      requires Consistent(d, link.capacity) && ReceivingSound(d)
      requires ValidFor(r) && r.sequence == nextSequence
      requires e == d || e == d[RecordKey(Odd(manifest.generation), r.sequence) := PackRecord(manifest.generation, r)]
      ensures Consistent(e, link.capacity) && ReceivingSound(e) && Kept(d, e)
    {
      hide Complete, Whole, Generations, Intact, PackRecord;
      if e != d {
        RecordKeepsConsistent(d, link.capacity, manifest.generation, r.sequence, PackRecord(manifest.generation, r));
        BankFrame(d, e, link.capacity, manifest.generation, nextSequence);
        assert LoadManifest(e, Pending) == LoadManifest(d, Pending);
      }
    }

    lemma AppendExtends(d: Image, e: Image, r: Record)
      requires link.Fits(manifest.generation, r) && r.generation == manifest.generation && r.sequence == nextSequence
      requires e == d[RecordKey(Odd(manifest.generation), r.sequence) := PackRecord(manifest.generation, r)]
      requires Readable(d, link.capacity, manifest.generation, nextSequence)
      ensures Readable(e, link.capacity, manifest.generation, nextSequence + 1)
      ensures LoadRecord(e, link.capacity, manifest.generation, r.sequence) == Some(r.(messageId := 0))
      ensures var before := Bank(d, link.capacity, manifest.generation, nextSequence);
              var after := Bank(e, link.capacity, manifest.generation, nextSequence + 1);
              && after == before + [r.(messageId := 0)]
              && Stream(after) == Stream(before) + Envelope(r)
    {
      hide Intact, PackRecord;
      BankFrame(d, e, link.capacity, manifest.generation, nextSequence);
      PackedRecordLoads(d, link.capacity, manifest.generation, r);
      var before := Bank(d, link.capacity, manifest.generation, nextSequence);
      var after := Bank(e, link.capacity, manifest.generation, nextSequence + 1);
      assert after[..nextSequence] == before;
    }

    /** The active bank has a finalized manifest that the end names. */
    predicate Named(d: Image, e: End) {
      var m := LoadManifest(d, ManifestKey(Odd(e.generation)));
      m.Some? && m.value.finalized && m.value.generation == e.generation && m.value.recordCount == e.recordCount
      && m.value.checksum == e.checksum
    }

    /** How an end is refused while a transfer is under way or settled. */
    function EndRefusal(e: End): Option<Status>
      reads this
    {
      if phase == Committed then Some(if EndMatches(manifest, e) then AlreadyCommitted else InvalidEnd)
      else if phase == Idle then None
      else if !EndMatches(manifest, e) then Some(if e.generation < manifest.generation then StaleGeneration else InvalidEnd)
      else if phase == Receiving && nextSequence != manifest.recordCount then Some(InvalidEnd)
      else None
    }

    /** CONFIG_END. */
    method Finish(e: End) returns (ack: Ack)
      requires Valid()
      modifies this`phase, link.storage
      ensures Valid()
      ensures Kept(old(link.storage.image), link.storage.image)
      ensures link.storage.powered ==> old(link.storage.powered)
      ensures ack.(status := Accepted) == Ack(e.messageId, e.generation, e.recordCount, Accepted)
      ensures ack.status == Accepted ==>
                && phase == Finalized && EndMatches(manifest, e)
                && Complete(link.storage.image, link.capacity, manifest)
      ensures old(phase) == Receiving && ack.status == Accepted ==>
                && nextSequence == manifest.recordCount && link.storage.powered
                && Bank(link.storage.image, link.capacity, manifest.generation, nextSequence)
                   == Bank(old(link.storage.image), link.capacity, manifest.generation, nextSequence)
                && Restorable(link.storage.image, link.capacity, manifest.generation)
      ensures ack.status == AlreadyCommitted && phase == Idle ==>
                e.generation == Active(link.storage.image)
      ensures old(phase) == Idle ==> ack.status == AlreadyCommitted || ack.status == InvalidEnd
      ensures old(phase) == Idle && old(link.storage.powered) ==>
                (ack.status == AlreadyCommitted
                 <==> e.generation != 0 && e.generation == Active(link.storage.image) && Named(link.storage.image, e))
      ensures old(EndRefusal(e)).Some? ==>
                ack.status == old(EndRefusal(e)).value && link.storage.image == old(link.storage.image)
      ensures old(phase) != Idle && old(EndRefusal(e)).None? ==>
                ack.status in {Accepted, ChecksumMismatch, StorageFailure}
      ensures ack.status != Accepted ==> phase == old(phase)
      ensures old(phase) == Finalized && EndMatches(manifest, e) ==>
                ack.status == Accepted && link.storage.image == old(link.storage.image)
                && link.storage.powered == old(link.storage.powered)
      ensures ack.status == ChecksumMismatch ==>
                && phase == Receiving && link.storage.image == old(link.storage.image)
                && !Complete(link.storage.image, link.capacity, manifest)
      ensures old(phase) == Receiving && link.storage.reliable && old(link.storage.powered)
              && EndMatches(manifest, e) && nextSequence == manifest.recordCount ==>
                ack.status == (if Complete(old(link.storage.image), link.capacity, manifest)
                               then Accepted else ChecksumMismatch)
    {
      hide Complete, Restorable, BankManifestFits, LoadManifest, Generations, Digest.Filled, Safe, PendingSound;
      ack := Ack(e.messageId, e.generation, e.recordCount, InvalidEnd);
      if phase == Committed {
        return ack.(status := if EndMatches(manifest, e) then AlreadyCommitted else InvalidEnd);
      }
      if phase == Idle {
        var active := link.ActiveGeneration();
        var m := link.GenerationManifest(active);
        if active == e.generation && m.Some? && m.value.finalized && EndMatches(m.value, e) {
          ack := ack.(status := AlreadyCommitted);
        }
        return;
      }
      if e.generation != manifest.generation || !EndMatches(manifest, e) {
        return ack.(status := if e.generation < manifest.generation then StaleGeneration else InvalidEnd);
      }
      if phase == Receiving {
        if nextSequence != manifest.recordCount {
          return;
        }
        var status := Seal();
        return ack.(status := status);
      }
      return ack.(status := Accepted);
    }

    /** All records are in: compare the hash and finalize the inactive generation. */
    method Seal() returns (status: Status)
      requires Valid() && phase == Receiving && nextSequence == manifest.recordCount
      modifies this`phase, link.storage
      ensures Valid()
      ensures Kept(old(link.storage.image), link.storage.image)
      ensures link.storage.powered ==> old(link.storage.powered)
      ensures status == Accepted || status == ChecksumMismatch || status == StorageFailure
      ensures status == ChecksumMismatch <==> !Complete(old(link.storage.image), link.capacity, manifest)
      ensures status == ChecksumMismatch ==> link.storage.image == old(link.storage.image)
      ensures status == Accepted ==>
                && phase == Finalized && Complete(link.storage.image, link.capacity, manifest) && link.storage.powered
                && Bank(link.storage.image, link.capacity, manifest.generation, nextSequence)
                   == Bank(old(link.storage.image), link.capacity, manifest.generation, nextSequence)
                && Restorable(link.storage.image, link.capacity, manifest.generation)
      ensures status != Accepted ==> phase == Receiving
      ensures link.storage.reliable && old(link.storage.powered) ==> status != StorageFailure
    {
      hide Restorable, Generations, Intact, PackManifest, Digest.Filled, Sha256.Hash, Bank;
      ghost var d := link.storage.image;
      var actual := digest.Finish();
      if actual != manifest.checksum {
        return ChecksumMismatch;
      }
      var saved := link.FinalizeInactive(manifest);
      SealKeeps(d, link.storage.image, saved);
      if !saved {
        return StorageFailure;
      }
      phase := Finalized;
      status := Accepted;
    }

    lemma SealKeeps(d: Image, e: Image, saved: bool)
      requires Consistent(d, link.capacity) && ReceivingSound(d) && nextSequence == manifest.recordCount
      requires Complete(d, link.capacity, manifest)
      requires SavedTwice(d, e, manifest.(finalized := true), saved)
      ensures Consistent(e, link.capacity) && ReceivingSound(e) && Kept(d, e)
      ensures Complete(e, link.capacity, manifest) && BankManifestFits(e, manifest)
      ensures Bank(e, link.capacity, manifest.generation, nextSequence)
              == Bank(d, link.capacity, manifest.generation, nextSequence)
      ensures saved ==> Restorable(e, link.capacity, manifest.generation)
    {
      hide Generations, Intact, PackManifest, Complete, Bank, Readable;
      var m := manifest.(finalized := true);
      CompleteSame(d, link.capacity, manifest, m);
      var d1 := d[Pending := PackManifest(m)];
      PackedLoads(d, Pending, m);
      PackedLoads(d1, ManifestKey(Odd(m.generation)), m);
      FinalizeKeepsConsistent(d, link.capacity, m);
      BankFrame(d, e, link.capacity, manifest.generation, nextSequence);
      CompleteFrame(d, e, link.capacity, manifest);
      CompleteSame(e, link.capacity, manifest, m);
      if e != d {
        assert LoadManifest(e, Pending) == Some(m);
      }
    }

    /**
     Switches to the finalized generation. The result is safe exactly when the bank
     manifest is there, which the client reads beforehand, and the next start accepts
     it exactly when that manifest is finalized, which the client does not ask.
     */
    method Promote(generation: nat) returns (ok: bool)
      requires Valid()
      modifies this`phase, link.storage
      ensures ManifestPresent(old(link.storage.image)) || old(phase) != Finalized || generation != manifest.generation ==>
                Valid()
      ensures ok && old(phase) == Finalized ==>
                && (Safe(link.storage.image, link.capacity) <==> ManifestPresent(old(link.storage.image)))
                && (Acceptable(link.storage.image, link.capacity)
                    <==> BankFinalized(old(link.storage.image), manifest.generation))
      ensures Untouched(old(link.storage.image), link.storage.image)
      ensures link.storage.powered ==> old(link.storage.powered)
      ensures Active(link.storage.image) >= Active(old(link.storage.image))
      ensures var d := old(link.storage.image);
              link.storage.image == d || link.storage.image == d[PointerSlot(d) := PackPointer(generation)]
      ensures link.storage.image != old(link.storage.image) ==>
                && old(phase) == Finalized && generation == manifest.generation
                && Active(link.storage.image) == generation
                && Complete(link.storage.image, link.capacity, manifest)
      ensures ok && old(phase) == Finalized ==> phase == Committed && Active(link.storage.image) == generation
      ensures ok ==> generation == manifest.generation
      ensures link.storage.reliable && old(link.storage.powered) && old(phase) == Finalized ==>
                ok == (generation == manifest.generation)
    {
      hide Complete, BankManifestFits, PackPointer, Digest.Filled, PendingSound, Safe, Acceptable, Generations, PointerSlot;
      ghost var d := link.storage.image;
      if phase == Committed {
        return generation == manifest.generation;
      }
      if phase != Finalized || generation != manifest.generation {
        return false;
      }
      var switched := link.PromoteGeneration(generation);
      PromoteSafeIff(d, link.capacity, manifest);
      if !switched {
        return false;
      }
      phase := Committed;
      ok := true;
    }

    ghost predicate ManifestPresent(d: Image)
      reads this`manifest
    {
      LoadManifest(d, ManifestKey(Odd(manifest.generation))).Some?
    }

    /**
     The client drops a generation. Outside the active bank that is safe whatever
     fails; after a complete discard the next start accepts what is active exactly
     when that has its own bank and can be restored.
     */
    method Discard(generation: nat) returns (ok: bool)
      requires Valid()
      modifies link.storage
      ensures Spares(old(link.storage.image), generation) ==>
                Valid() && Kept(old(link.storage.image), link.storage.image)
      ensures Discarded(old(link.storage.image), link.storage.image, generation)
      ensures ok ==> (Acceptable(link.storage.image, link.capacity)
                      <==> AcceptableWithout(old(link.storage.image), link.capacity, generation))
      ensures link.storage.powered ==> old(link.storage.powered)
      ensures link.storage.reliable && old(link.storage.powered) && generation != 0 ==> ok
    {
      hide Complete, Safe, Acceptable, AcceptableWithout, Generations, LoadManifest, Digest.Filled, Bank, Readable;
      ghost var d := link.storage.image;
      ok := link.DiscardGeneration(generation);
      ghost var e := link.storage.image;
      if generation == 0 {
        return;
      }
      if ok {
        DiscardAcceptableIff(d, e, link.capacity, generation);
      }
      if Spares(d, generation) {
        DiscardKeepsConsistent(d, e, link.capacity, generation);
        DiscardKeepsComplete(d, e, link.capacity, generation, manifest);
        DiscardKeepsBank(d, e, generation);
      }
    }

    lemma DiscardKeepsBank(d: Image, e: Image, generation: nat)
      requires Discarded(d, e, generation)
      ensures Bank(e, link.capacity, manifest.generation, nextSequence)
              == Bank(d, link.capacity, manifest.generation, nextSequence)
      ensures Readable(e, link.capacity, manifest.generation, nextSequence)
              == Readable(d, link.capacity, manifest.generation, nextSequence)
      ensures LoadManifest(e, Pending) == LoadManifest(d, Pending) || LoadManifest(e, Pending) == None
    {
      hide Intact;
      forall i | 0 <= i < nextSequence
        ensures Agree(d, e, RecordKey(Odd(manifest.generation), i))
      {
        assert !Discardable(d, generation, RecordKey(Odd(manifest.generation), i));
      }
      BankFrame(d, e, link.capacity, manifest.generation, nextSequence);
      assert Agree(d, e, Pending) || Pending !in e;
    }
  }
}
