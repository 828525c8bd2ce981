/** The fixed-key A/B adapter between the installer and board storage. */
module LinkConfigurationStorage {
  import opened Bytes
  import opened Options
  import opened Fnv
  import opened ConfigurationTypes
  import opened DurableStorage
  import opened ConfigurationBanks

  /** What some of two ordered writes, the second only after the first, leave behind. */
  ghost predicate SavedTwice(d: Image, e: Image, m: Manifest, ok: bool) {
    var d1 := d[Pending := PackManifest(m)];
    var d2 := d1[ManifestKey(Odd(m.generation)) := PackManifest(m)];
    (e == d2 || (!ok && (e == d || e == d1)))
  }

  class LinkStorage {
    const storage: Storage
    const capacity: nat

    constructor (storage: Storage, capacity: nat)
      ensures this.storage == storage && this.capacity == capacity
    {
      this.storage, this.capacity := storage, capacity;
    }

    method SealedBlob(b: Blob) returns (r: Blob)
      ensures r == Sealed(b)
    {
      var c := Checksum(ImageBytes(b));
      r := b.(seal := c);
    }

    method IntactBlob(b: Blob) returns (r: bool)
      ensures r == Intact(b)
    {
      var c := Checksum(ImageBytes(b));
      r := b.magic == MagicOf(b) && b.seal == c;
    }

    method ReadPointer(key: Key) returns (r: Option<nat>)
      ensures r == if storage.powered then LoadPointer(storage.image, key) else None
    {
      r := None;
      var found, b := storage.Read(key);
      if found && b.PointerBlob? {
        var intact := IntactBlob(b);
        if intact {
          r := Some(b.generation);
        }
      }
    }

    method ReadManifest(key: Key) returns (r: Option<Manifest>)
      ensures r == if storage.powered then LoadManifest(storage.image, key) else None
    {
      r := None;
      var found, b := storage.Read(key);
      if found && b.ManifestBlob? {
        var intact := IntactBlob(b);
        if intact {
          r := Some(Unpack(b));
        }
      }
    }

    method ReadGenerations() returns (newest: nat, previous: nat)
      ensures storage.powered ==> (newest, previous) == Generations(storage.image)
      ensures !storage.powered ==> newest == 0 && previous == 0
    {
      var left := ReadPointer(PointerA);
      var right := ReadPointer(PointerB);
      newest, previous := 0, 0;
      if left.Some? {
        newest := left.value;
      }
      if right.Some? {
        if right.value > newest {
          newest, previous := right.value, newest;
        } else if right.value != newest {
          previous := right.value;
        }
      }
    }

    method ActiveGeneration() returns (generation: nat)
      ensures generation == if storage.powered then Active(storage.image) else 0
    {
      var newest, previous := ReadGenerations();
      generation := newest;
    }

    method GenerationManifest(generation: nat) returns (r: Option<Manifest>)
      ensures r == if storage.powered && generation != 0
                   then LoadManifest(storage.image, ManifestKey(Odd(generation))) else None
    {
      if generation == 0 {
        return None;
      }
      r := ReadManifest(ManifestKey(Odd(generation)));
    }

    method PendingManifest() returns (r: Option<Manifest>)
      ensures r == if storage.powered then LoadManifest(storage.image, Pending) else None
    {
      r := ReadManifest(Pending);
    }

    predicate Accepts(m: Manifest) {
      && m.generation != 0 && m.recordCount <= capacity && m.recordCount <= MAXIMUM_RECORD_SLOTS
      && m.maximumRecordBytes <= MAXIMUM_RECORD_BYTES
    }

    method SaveTwice(m: Manifest) returns (ok: bool)
      modifies storage
      ensures SavedTwice(old(storage.image), storage.image, m, ok)
      ensures ok ==> storage.powered
      ensures storage.powered ==> old(storage.powered)
      ensures !old(storage.powered) ==> storage.image == old(storage.image)
      ensures storage.reliable && old(storage.powered) ==> ok
    {
      hide Fnv1a, ImageBytes;
      var stored := SealedBlob(ManifestBlob(MANIFEST_MAGIC, m.generation, m.schemaVersion, m.maximumRecordBytes,
                                            m.recordCount, m.checksum, m.finalized, 0));
      ok := storage.Write(Pending, stored);
      if ok {
        ok := storage.Write(ManifestKey(Odd(m.generation)), stored);
      }
    }

    method BeginInactive(m: Manifest) returns (ok: bool)
      modifies storage
      ensures !Accepts(m) ==> !ok && storage.image == old(storage.image) && storage.powered == old(storage.powered)
      ensures Accepts(m) ==> SavedTwice(old(storage.image), storage.image, m, ok)
      ensures ok ==> storage.powered
      ensures storage.powered ==> old(storage.powered)
      ensures !old(storage.powered) ==> storage.image == old(storage.image)
      ensures storage.reliable && old(storage.powered) && Accepts(m) ==> ok
    {
      if m.generation == 0 || m.recordCount > capacity || m.recordCount > 1000 || m.maximumRecordBytes > 448 {
        return false;
      }
      ok := SaveTwice(m);
    }

    method FinalizeInactive(m: Manifest) returns (ok: bool)
      modifies storage
      ensures SavedTwice(old(storage.image), storage.image, m.(finalized := true), ok)
      ensures ok ==> storage.powered
      ensures storage.powered ==> old(storage.powered)
      ensures !old(storage.powered) ==> storage.image == old(storage.image)
      ensures storage.reliable && old(storage.powered) ==> ok
    {
      ok := SaveTwice(m.(finalized := true));
    }

    predicate Fits(generation: nat, r: Record) {
      && generation != 0 && r.sequence < capacity && r.sequence < MAXIMUM_RECORD_SLOTS
      && |r.body| <= MAXIMUM_RECORD_BYTES
    }

    method WriteRecord(generation: nat, r: Record) returns (ok: bool)
      modifies storage
      ensures var e := old(storage.image)[RecordKey(Odd(generation), r.sequence) := PackRecord(generation, r)];
              storage.image == e || (!ok && storage.image == old(storage.image))
      ensures ok ==> storage.powered
      ensures ok ==> Fits(generation, r)
      ensures storage.powered ==> old(storage.powered)
      ensures !old(storage.powered) ==> storage.image == old(storage.image)
      ensures storage.reliable && old(storage.powered) && Fits(generation, r) ==> ok
    {
      hide Fnv1a, ImageBytes;
      if generation == 0 || r.sequence >= capacity || r.sequence >= 1000 || |r.body| > 448 {
        return false;
      }
      var stored := SealedBlob(RecordBlob(RECORD_MAGIC, generation, r.sequence, r.kind, r.body, 0));
      ok := storage.Write(RecordKey(Odd(generation), r.sequence), stored);
    }

    method ReadRecord(generation: nat, sequence: nat) returns (r: Option<Record>)
      ensures r == if storage.powered then LoadRecord(storage.image, capacity, generation, sequence) else None
    {
      hide Intact;
      r := None;
      if sequence >= capacity || sequence >= MAXIMUM_RECORD_SLOTS {
        return;
      }
      var found, b := storage.Read(RecordKey(Odd(generation), sequence));
      if found && b.RecordBlob? {
        var intact := IntactBlob(b);
        if intact && b.generation == generation && b.sequence == sequence && |b.body| <= MAXIMUM_RECORD_BYTES {
          r := Some(Record(0, generation, sequence, b.kind, b.body));
        }
      }
    }

    method PromoteGeneration(generation: nat) returns (ok: bool)
      modifies storage
      ensures old(storage.powered) && generation < Active(old(storage.image)) ==>
                !ok && storage.image == old(storage.image) && storage.powered
      ensures var e := old(storage.image)[PointerSlot(old(storage.image)) := PackPointer(generation)];
              storage.image == e || (!ok && storage.image == old(storage.image))
      ensures ok ==> storage.powered
      ensures storage.powered ==> old(storage.powered)
      ensures !old(storage.powered) ==> storage.image == old(storage.image)
      ensures storage.reliable && old(storage.powered) && generation >= Active(old(storage.image)) ==> ok
    {
      hide Fnv1a, ImageBytes, Generations;
      var active := ActiveGeneration();
      if generation < active {
        return false;
      }
      var stored := SealedBlob(PointerBlob(POINTER_MAGIC, generation, 0));
      var key := if Odd(active) then PointerA else PointerB;
      ok := storage.Write(key, stored);
    }

    /** Drops a generation: its pointers, its pending manifest and its bank manifest. */
    method DiscardGeneration(generation: nat) returns (ok: bool)
      modifies storage
      ensures Discarded(old(storage.image), storage.image, generation)
      ensures generation == 0 ==> !ok && storage.image == old(storage.image)
      ensures ok ==> storage.powered && forall k :: Discardable(old(storage.image), generation, k) ==> k !in storage.image
      ensures storage.powered ==> old(storage.powered)
      ensures !old(storage.powered) ==> storage.image == old(storage.image)
      ensures storage.reliable && old(storage.powered) && generation != 0 ==> ok
    {
      hide LoadPointer, LoadManifest;
      if generation == 0 {
        return false;
      }
      ghost var d := storage.image;
      ok := RemovePointer(PointerA, generation, true);
      ghost var d1 := storage.image;
      DiscardedStep(d, d, d1, generation, PointerA);
      ok := RemovePointer(PointerB, generation, ok);
      ghost var d2 := storage.image;
      DiscardedStep(d, d1, d2, generation, PointerB);
      var pending := ReadManifest(Pending);
      if pending.Some? && pending.value.generation == generation {
        var removed := storage.Remove(Pending);
        ok := removed && ok;
      }
      ghost var d3 := storage.image;
      DiscardedStep(d, d2, d3, generation, Pending);
      var removed := storage.Remove(ManifestKey(Odd(generation)));
      ok := removed && ok;
      DiscardedStep(d, d3, storage.image, generation, ManifestKey(Odd(generation)));
    }

    method RemovePointer(key: Key, generation: nat, success: bool) returns (ok: bool)
      requires key == PointerA || key == PointerB
      modifies storage
      ensures storage.image == old(storage.image)
              || (Discardable(old(storage.image), generation, key)
                  && storage.image == old(storage.image) - {key})
      ensures ok ==> success
      ensures ok && storage.powered && Discardable(old(storage.image), generation, key) ==>
                key !in storage.image
      ensures storage.powered ==> old(storage.powered)
      ensures !old(storage.powered) ==> storage.image == old(storage.image)
      ensures storage.reliable && old(storage.powered) ==> ok == success && storage.powered
    {
      ok := success;
      var pointer := ReadPointer(key);
      if pointer == Some(generation) {
        var removed := storage.Remove(key);
        ok := removed && success;
      }
    }
  }
}
