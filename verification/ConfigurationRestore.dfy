/** What a start does with the two listed generations: the newest acceptable one is restored. */
module ConfigurationRestore {
  import opened Options
  import opened ConfigurationTypes
  import opened ConfigurationDigest
  import opened DurableStorage
  import opened ConfigurationBanks
  import opened LinkConfigurationStorage
  import I = ConfigurationInstaller
  import R = ConfigurationRuns
  import Sha256

  datatype Outcome = Restored(generation: nat) | NothingLeft | Failed

  /** The verdict of the unit validation on the records of a generation. */
  type Validation = seq<Record> -> bool

  /** The generation can be restored and its units are valid. */
  predicate Good(d: Image, capacity: nat, generation: nat, valid: Validation) {
    && generation != 0 && Restorable(d, capacity, generation)
    && valid(Bank(d, capacity, generation, LoadManifest(d, ManifestKey(Odd(generation))).value.recordCount))
  }

  /** Reads and hashes the records a finalized manifest announces, and validates them. */
  method Examine(link: LinkStorage, generation: nat, m: Manifest, valid: Validation) returns (accepted: bool)
    requires link.storage.powered && generation != 0
    requires LoadManifest(link.storage.image, ManifestKey(Odd(generation))) == Some(m) && m.finalized
    ensures accepted <==> Good(link.storage.image, link.capacity, generation, valid)
  {
    hide LoadRecord, LoadManifest, Sha256.Hash, Digest.Filled, Stream, Envelope;
    ghost var d := link.storage.image;
    var digest := new Digest();
    var records: seq<Record> := [];
    BankOfNone(d, link.capacity, generation);
    for i := 0 to m.recordCount
      invariant fresh(digest) && fresh(digest.buffer) && digest.Valid()
      invariant link.storage.powered && link.storage.image == d
      invariant Readable(d, link.capacity, generation, i)
      invariant records == Bank(d, link.capacity, generation, i) && digest.message == Stream(records)
    {
      var record := link.ReadRecord(generation, i);
      if record.None? {
        return false;
      }
      digest.AddRecord(record.value);
      OneMoreRecord(d, link.capacity, generation, i, record.value);
      records := records + [record.value];
    }
    var actual := digest.Finish();
    accepted := actual == m.checksum && valid(records);
  }

  lemma BankOfNone(d: Image, capacity: nat, generation: nat)
    ensures Bank(d, capacity, generation, 0) == [] && Stream([]) == []
  {}

  lemma OneMoreRecord(d: Image, capacity: nat, generation: nat, n: nat, r: Record)
    requires LoadRecord(d, capacity, generation, n) == Some(r)
    ensures Bank(d, capacity, generation, n + 1) == Bank(d, capacity, generation, n) + [r]
    ensures Stream(Bank(d, capacity, generation, n) + [r]) == Stream(Bank(d, capacity, generation, n)) + Envelope(r)
  {
    hide LoadRecord, Envelope;
    var before := Bank(d, capacity, generation, n);
    assert (before + [r])[..n] == before;
  }

  /** A complete discard leaves a generation of the other bank as good as it was, and none of its own. */
  lemma DiscardKeepsGood(d: Image, e: Image, capacity: nat, generation: nat, next: nat, valid: Validation)
    requires Discarded(d, e, generation)
    requires forall k :: Discardable(d, generation, k) ==> k !in e
    ensures Good(e, capacity, next, valid) <==> Odd(next) != Odd(generation) && Good(d, capacity, next, valid)
  {
    hide Intact, Complete;
    var key := ManifestKey(Odd(next));
    assert Agree(d, e, key) || (key !in e && Discardable(d, generation, key));
    if Odd(next) != Odd(generation) && LoadManifest(d, key).Some? {
      var m := LoadManifest(d, key).value.(generation := next);
      forall i | 0 <= i < m.recordCount
        ensures Agree(d, e, RecordKey(Odd(next), i))
      {
        assert !Discardable(d, generation, RecordKey(Odd(next), i));
      }
      CompleteFrame(d, e, capacity, m);
      BankFrame(d, e, capacity, next, m.recordCount);
    }
  }

  /** After a complete discard the next generation is fit only where it was, in the other bank. */
  lemma DiscardKeepsUnfit(d: Image, e: Image, capacity: nat, generation: nat, next: nat)
    requires Discarded(d, e, generation)
    requires forall k :: Discardable(d, generation, k) ==> k !in e
    ensures Unfit(e, capacity, next) <==> Odd(next) == Odd(generation) || Unfit(d, capacity, next)
  {
    hide Intact;
    var key := ManifestKey(Odd(next));
    assert Agree(d, e, key) || (key !in e && Discardable(d, generation, key));
  }

  lemma GoodIsAcceptable(d: Image, capacity: nat, valid: Validation)
    requires Good(d, capacity, Active(d), valid)
    ensures Acceptable(d, capacity)
  {
    hide Restorable, Bank;
  }

  lemma ListedApart(d: Image)
    ensures Generations(d).1 < Generations(d).0 || Generations(d) == (0, 0)
  {
    hide Intact;
  }

  lemma ZeroIsNotGood(d: Image, capacity: nat, valid: Validation)
    ensures !Good(d, capacity, 0, valid)
  {}

  /** Whatever failed of a discard, what is good afterwards was good before. */
  lemma DiscardMakesNothingGood(d: Image, e: Image, capacity: nat, generation: nat, next: nat, valid: Validation)
    requires Discarded(d, e, generation) && Good(e, capacity, next, valid)
    ensures Good(d, capacity, next, valid)
  {
    hide Intact, Complete;
    var key := ManifestKey(Odd(next));
    assert Agree(d, e, key) || key !in e;
    var m := LoadManifest(e, key).value.(generation := next);
    forall i | 0 <= i < m.recordCount
      ensures Agree(d, e, RecordKey(Odd(next), i))
    {
      assert !Discardable(d, generation, RecordKey(Odd(next), i));
    }
    CompleteFrame(d, e, capacity, m);
    BankFrame(d, e, capacity, next, m.recordCount);
  }

  /** No manifest that a start would begin to verify. */
  predicate Unfit(d: Image, capacity: nat, generation: nat) {
    !BankFinalized(d, generation) || LoadManifest(d, ManifestKey(Odd(generation))).value.recordCount > capacity
  }

  lemma GoodIsFit(d: Image, capacity: nat, generation: nat, valid: Validation)
    ensures Good(d, capacity, generation, valid) ==> !Unfit(d, capacity, generation)
  {
    hide Intact, Sha256.Hash, Stream;
    if BankFinalized(d, generation) {
      assert LoadRecord(d, capacity, generation, capacity).None?;
    }
  }

  datatype Step = Accepted | Dropped | Stuck

  function Verdict(d: Image, capacity: nat, generation: nat, last: bool, valid: Validation): Step {
    if Good(d, capacity, generation, valid) then Accepted
    else if last && !Unfit(d, capacity, generation) then Stuck
    else Dropped
  }

  /** One candidate: accepted, or dropped if there is another one or nothing to verify. */
  method Consider(link: LinkStorage, generation: nat, last: bool, valid: Validation) returns (step: Step)
    requires generation != 0
    modifies link.storage
    ensures step == Accepted <==>
              old(link.storage.powered) && Good(old(link.storage.image), link.capacity, generation, valid)
    ensures step == Accepted ==> link.storage.image == old(link.storage.image) && link.storage.powered
    ensures Discarded(old(link.storage.image), link.storage.image, generation)
    ensures link.storage.reliable && old(link.storage.powered) ==>
              && step == Verdict(old(link.storage.image), link.capacity, generation, last, valid)
              && link.storage.powered
              && (step == Dropped ==>
                    forall k :: Discardable(old(link.storage.image), generation, k) ==> k !in link.storage.image)
  {
    hide Good, Discardable, LoadManifest;
    var m := link.GenerationManifest(generation);
    if m.None? || !m.value.finalized || m.value.recordCount > link.capacity {
      if link.storage.powered {
        GoodIsFit(link.storage.image, link.capacity, generation, valid);
      }
      var dropped := link.DiscardGeneration(generation);
      return if dropped then Dropped else Stuck;
    }
    var accepted := Examine(link, generation, m.value, valid);
    if accepted {
      return Accepted;
    }
    if last {
      return Stuck;
    }
    var _ := link.DiscardGeneration(generation);
    step := Dropped;
  }

  /** What working storage leads to. */
  function Expected(d: Image, capacity: nat, valid: Validation): Outcome {
    var (newest, previous) := Generations(d);
    if newest == 0 then NothingLeft
    else if Good(d, capacity, newest, valid) then Restored(newest)
    else if previous == 0 || Odd(previous) == Odd(newest) || Unfit(d, capacity, previous) then NothingLeft
    else if Good(d, capacity, previous, valid) then Restored(previous)
    else Failed
  }

  /**
   A start restores the newest generation exactly when it is good, and touches nothing
   then. Otherwise it drops it; the previous one follows exactly when it is good and
   in the other bank.
   */
  method Restore(link: LinkStorage, valid: Validation) returns (outcome: Outcome)
    requires link.storage.powered
    modifies link.storage
    ensures outcome.Restored? ==>
              Good(old(link.storage.image), link.capacity, outcome.generation, valid)
    ensures var newest := Active(old(link.storage.image));
            && (newest != 0 && outcome == Restored(newest)
                <==> Good(old(link.storage.image), link.capacity, newest, valid))
            && (outcome == Restored(newest) ==> link.storage.image == old(link.storage.image))
    ensures link.storage.reliable ==>
              && outcome == Expected(old(link.storage.image), link.capacity, valid)
              && (outcome.Restored? ==>
                    Active(link.storage.image) == outcome.generation && Acceptable(link.storage.image, link.capacity))
  {
    hide Good, Generations, Discardable, LoadManifest, Unfit, Restorable;
    ZeroIsNotGood(link.storage.image, link.capacity, valid);
    ghost var d := link.storage.image;
    var newest, previous := link.ReadGenerations();
    if newest != 0 {
      var step := Consider(link, newest, false, valid);
      if step == Accepted {
        GoodIsAcceptable(d, link.capacity, valid);
        return Restored(newest);
      }
      if step == Stuck {
        return Failed;
      }
    }
    ghost var e := link.storage.image;
    ListedApart(d);
    if previous != 0 {
      ghost var dropped := link.storage.reliable;
      if dropped {
        DiscardKeepsGood(d, e, link.capacity, newest, previous, valid);
        DiscardKeepsUnfit(d, e, link.capacity, newest, previous);
        DiscardAcceptableIff(d, e, link.capacity, newest);
      }
      var step := Consider(link, previous, true, valid);
      if step == Accepted {
        DiscardMakesNothingGood(d, e, link.capacity, newest, previous, valid);
        GoodIsFit(d, link.capacity, previous, valid);
        if dropped {
          GoodIsAcceptable(e, link.capacity, valid);
        }
        return Restored(previous);
      }
      if step == Stuck {
        return Failed;
      }
    }
    outcome := NothingLeft;
  }

  /** The records of the active bank. */
  function ActiveRecords(d: Image, capacity: nat): seq<Record> {
    var m := LoadManifest(d, ManifestKey(Odd(Active(d))));
    if m.Some? then Bank(d, capacity, Active(d), m.value.recordCount) else []
  }

  lemma SafeIsGood(d: Image, capacity: nat, valid: Validation)
    requires Safe(d, capacity) && Active(d) != 0
    ensures Good(d, capacity, Active(d), valid)
            <==> BankFinalized(d, Active(d)) && valid(ActiveRecords(d, capacity))
  {
    hide Complete, Bank, Intact, Generations;
    WholeRestorableIff(d, capacity, Active(d));
  }

  /**
   Power lost after any run of events, within the last one too: the next start restores
   the generation that is active then, as it was, exactly when its bank manifest is
   finalized and its units are valid. Otherwise working storage decides by what is left.
   */
  method RunAndRestart(start: I.Installer, events: seq<R.Event>, valid: Validation)
    returns (outcome: Outcome, ghost performed: nat, ghost last: R.State)
    requires start.Valid()
    modifies start, start.link.storage, start.digest, start.digest.buffer
    ensures performed <= |events|
    ensures performed < |events| ==> !R.Lawful(last, events[performed])
    ensures Active(last.image) >= Active(old(start.link.storage.image))
    ensures Active(last.image) != 0 ==>
              (outcome == Restored(Active(last.image))
               <==> BankFinalized(last.image, Active(last.image)) && valid(ActiveRecords(last.image, start.link.capacity)))
    ensures outcome == Restored(Active(last.image)) ==> start.link.storage.image == last.image
    ensures start.link.storage.reliable ==> outcome == Expected(last.image, start.link.capacity, valid)
  {
    hide Good, Generations, Safe, ActiveRecords, Expected, BankFinalized, I.Installer.Valid, R.Lawful;
    ghost var history;
    history, performed := R.Run(start, events);
    last := history[performed];
    assert history[0].image == old(start.link.storage.image);
    start.link.storage.PowerUp();
    if Active(last.image) != 0 {
      SafeIsGood(last.image, start.link.capacity, valid);
    }
    outcome := Restore(start.link, valid);
  }
}
