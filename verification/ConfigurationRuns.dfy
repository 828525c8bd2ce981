/** Whole runs of the installer: any mix of requests, failed writes and power cuts. */
module ConfigurationRuns {
  import opened Bytes
  import opened Options
  import opened ConfigurationTypes
  import opened ConfigurationDigest
  import opened DurableStorage
  import opened ConfigurationBanks
  import opened LinkConfigurationStorage
  import opened ConfigurationInstaller
  import Sha256

  datatype Event =
    | Offer(begin: Begin)
    | Deliver(record: Record)
    | Close(end: End)
    | Activate(generation: nat)
    | Abandon
    | Drop(generation: nat)
    | PowerCut

  /**
   A later durable state of a run: the active bank moves forward, never changes in
   place, and has its manifest before it becomes active.
   */
  ghost predicate Follows(d: Image, e: Image) {
    && Active(d) <= Active(e) && Untouched(d, e)
    && (Active(d) != Active(e) ==> Agree(d, e, ManifestKey(Odd(Active(e)))))
  }

  /** What decides whether an event may happen: the durable state and the transfer under way. */
  datatype State = State(image: Image, phase: Phase, generation: nat)

  function StateOf(installer: Installer): State
    reads installer, installer.link.storage
  {
    State(installer.link.storage.image, installer.phase, installer.manifest.generation)
  }

  /**
   What the environment owes at an event: no new generation in the active bank, no
   switch to a bank without any manifest, and no drop of a generation in the active
   bank. Everything else may happen at any time.
   */
  predicate Lawful(s: State, event: Event) {
    match event
    case Offer(begin) => begin.generation > Active(s.image) ==> Inactive(s.image, begin.generation)
    case Activate(generation) =>
      s.phase == Finalized && generation == s.generation ==> LoadManifest(s.image, ManifestKey(Odd(generation))).Some?
    case Drop(generation) => Spares(s.image, generation)
    case _ => true
  }

  /**
   One event. An unlawful offer that is accepted leaves nothing to restore from, and
   so does an unlawful activation that succeeds; an unlawful drop does unless the
   generation left over has its own bank.
   */
  method Perform(installer: Installer, event: Event) returns (next: Installer)
    requires installer.Valid()
    modifies installer, installer.link.storage, installer.digest, installer.digest.buffer
    ensures next.link == installer.link
    ensures next == installer || (fresh(next) && fresh(next.digest))
    ensures next.digest.buffer == old(installer.digest.buffer) || fresh(next.digest.buffer)
    ensures Lawful(old(StateOf(installer)), event) ==>
              next.Valid() && Follows(old(installer.link.storage.image), installer.link.storage.image)
    ensures !Lawful(old(StateOf(installer)), event) && event.Offer?
            && installer.link.storage.reliable && old(installer.link.storage.powered)
            && old(installer.phase) in {Idle, Committed}
            && installer.Fresh(old(installer.link.storage.image), true, event.begin) ==>
              !Safe(installer.link.storage.image, installer.link.capacity)
              && !Acceptable(installer.link.storage.image, installer.link.capacity)
    ensures !Lawful(old(StateOf(installer)), event) && event.Activate?
            && installer.link.storage.reliable && old(installer.link.storage.powered) ==>
              !Safe(installer.link.storage.image, installer.link.capacity)
              && !Acceptable(installer.link.storage.image, installer.link.capacity)
    ensures !Lawful(old(StateOf(installer)), event) && event.Drop?
            && installer.link.storage.reliable && old(installer.link.storage.powered) ==>
              (Acceptable(installer.link.storage.image, installer.link.capacity)
               <==> AcceptableWithout(old(installer.link.storage.image), installer.link.capacity, event.generation))
  {
    hide Consistent, Installer.ReceivingSound, Installer.FinalizedSound, Digest.Filled, LoadManifest, Generations, Untouched;
    hide Safe, Acceptable, AcceptableWithout;
    next := installer;
    var storage := installer.link.storage;
    ghost var d := storage.image;
    FollowsSelf(d);
    match event
    case Offer(begin) => var ack := installer.Start(begin);
    case Deliver(record) => var ack := installer.AddRecord(record);
    case Close(end) => var ack := installer.Finish(end);
    case Activate(generation) =>
      var ok := installer.Promote(generation);
      PromotedFollows(d, storage.image, generation);
    case Abandon => installer.Reset();
    case Drop(generation) => var ok := installer.Discard(generation);
    case PowerCut =>
      storage.PowerUp();
      next := new Installer(installer.link, installer.maximumRecords);
  }

  /** A new pointer changes no manifest. */
  lemma PromotedFollows(d: Image, e: Image, generation: nat)
    requires e == d || e == d[PointerSlot(d) := PackPointer(generation)]
    ensures Agree(d, e, ManifestKey(Odd(Active(e))))
  {
    hide Generations, PackPointer, PointerSlot;
    PointerSlotIsPointer(d);
  }

  lemma FollowsSelf(d: Image)
    ensures Follows(d, d)
  {}

  /**
   Crash-safe A/B installation: in every durable state of every run the newest pointer
   names a bank whose records are readable and hash to its manifest, and it never moves
   back; the next start accepts that bank exactly when its manifest is finalized. The
   run goes on up to the first event that breaks what the environment owes.
   */
  method Run(start: Installer, events: seq<Event>) returns (ghost history: seq<State>, ghost performed: nat)
    requires start.Valid()
    modifies start, start.link.storage, start.digest, start.digest.buffer
    ensures performed <= |events| && |history| == performed + 1
    ensures performed < |events| ==> !Lawful(history[performed], events[performed])
    ensures forall i :: 0 <= i < performed ==> Lawful(history[i], events[i])
    ensures history[0] == old(StateOf(start)) && history[performed].image == start.link.storage.image
    ensures forall i :: 0 <= i <= performed ==> Safe(history[i].image, start.link.capacity)
    ensures forall i :: 0 <= i <= performed ==>
              (Acceptable(history[i].image, start.link.capacity)
               <==> Active(history[i].image) == 0 || BankFinalized(history[i].image, Active(history[i].image)))
    ensures forall i :: 0 <= i < performed ==> Follows(history[i].image, history[i + 1].image)
    ensures forall i, j :: 0 <= i <= j <= performed ==> Active(history[i].image) <= Active(history[j].image)
  {
    hide Consistent, Untouched, Generations, Safe, Acceptable, BankFinalized;
    hide Installer.ReceivingSound, Installer.FinalizedSound, Digest.Filled, Lawful;
    var installer := start;
    var storage := start.link.storage;
    history, performed := [StateOf(installer)], 0;
    ValidIsSafe(installer);
    for n := 0 to |events|
      invariant installer.Valid() && installer.link == start.link
      invariant installer == start || fresh(installer)
      invariant installer.digest == start.digest || fresh(installer.digest)
      invariant installer.digest.buffer == old(start.digest.buffer) || fresh(installer.digest.buffer)
      invariant performed == n && |history| == n + 1 && history[0] == old(StateOf(start))
      invariant history[n] == StateOf(installer)
      invariant forall i :: 0 <= i <= n ==> Safe(history[i].image, start.link.capacity)
      invariant forall i :: 0 <= i < n ==>
                  Lawful(history[i], events[i]) && Follows(history[i].image, history[i + 1].image)
      invariant forall i, j :: 0 <= i <= j <= n ==> Active(history[i].image) <= Active(history[j].image)
    {
      if !Lawful(StateOf(installer), events[n]) {
        break;
      }
      installer := Perform(installer, events[n]);
      ValidIsSafe(installer);
      history, performed := history + [StateOf(installer)], n + 1;
    }
    forall i | 0 <= i <= performed
      ensures Acceptable(history[i].image, start.link.capacity)
              <==> Active(history[i].image) == 0 || BankFinalized(history[i].image, Active(history[i].image))
    {
      SafeAcceptableIff(history[i].image, start.link.capacity);
    }
  }

  lemma SafeAcceptableIff(d: Image, capacity: nat)
    requires Safe(d, capacity)
    ensures Acceptable(d, capacity) <==> Active(d) == 0 || BankFinalized(d, Active(d))
  {
    hide Whole, Restorable, BankFinalized;
    if Active(d) != 0 {
      WholeRestorableIff(d, capacity, Active(d));
    }
  }

  /**
   From one state of a run to the next: what the next start accepted it still accepts,
   and a newly active bank it accepts if that was finalized before the switch.
   */
  lemma AcceptableFollows(d: Image, e: Image, capacity: nat)
    requires Safe(d, capacity) && Safe(e, capacity) && Follows(d, e) && Active(e) != 0
    ensures Acceptable(e, capacity)
            <==> if Active(e) == Active(d) then Acceptable(d, capacity) else BankFinalized(d, Active(e))
  {
    hide Complete, Intact, Generations, Safe, Acceptable;
    SafeAcceptableIff(d, capacity);
    SafeAcceptableIff(e, capacity);
    assert Agree(d, e, ManifestKey(Odd(Active(e))));
  }

  lemma ValidIsSafe(installer: Installer)
    requires installer.Valid()
    ensures Safe(installer.link.storage.image, installer.link.capacity)
  {
    hide Safe, Installer.ReceivingSound, Installer.FinalizedSound, Digest.Filled;
  }

  lemma AcceptableIsRestorable(d: Image, capacity: nat)
    requires Acceptable(d, capacity) && Active(d) != 0
    ensures Restorable(d, capacity, Active(d))
  {
    hide Restorable;
  }

  lemma RestorableIsFinalized(d: Image, capacity: nat, generation: nat)
    requires Restorable(d, capacity, generation)
    ensures BankFinalized(d, generation) && LoadManifest(d, ManifestKey(Odd(generation))).Some?
  {
    hide Complete;
  }

  /** Records as the bank stores them, without their message ids. */
  function Stored(records: seq<Record>): (r: seq<Record>)
    ensures |r| == |records|
  {
    seq(|records|, i requires 0 <= i < |records| => records[i].(messageId := 0))
  }

  lemma {:induction false} StreamOfStored(records: seq<Record>)
    ensures Stream(Stored(records)) == Stream(records)
  {
    if records != [] {
      var n := |records| - 1;
      StreamOfStored(records[..n]);
      assert Stored(records)[..n] == Stored(records[..n]);
    }
  }

  /** A well-formed transfer of `records` under the announcement `b`. */
  ghost predicate Announced(b: Begin, records: seq<Record>) {
    && |records| == b.recordCount
    && forall i :: 0 <= i < |records| ==>
         && ValidRecord(records[i]) && records[i].generation == b.generation
         && records[i].sequence == i && |records[i].body| <= b.maximumRecordBytes
  }

  /**
   A transfer over working storage becomes the active generation exactly when its
   records hash to the announced checksum, and then the active bank holds these
   records in this order. It may start over what an interrupted one left behind.
   */
  method Transfer(installer: Installer, b: Begin, records: seq<Record>) returns (installed: bool)
    requires installer.Valid() && installer.phase in {Idle, Committed} && Announced(b, records)
    requires installer.Fresh(installer.link.storage.image, installer.link.storage.powered, b)
    requires Inactive(installer.link.storage.image, b.generation)
    modifies installer, installer.link.storage, installer.digest, installer.digest.buffer
    ensures installer.Valid()
    ensures installed <==> Sha256.Hash(Stream(records)) == b.checksum
    ensures installed ==>
              && Active(installer.link.storage.image) == b.generation
              && Restorable(installer.link.storage.image, installer.link.capacity, b.generation)
              && Bank(installer.link.storage.image, installer.link.capacity, b.generation, b.recordCount) == Stored(records)
    ensures !installed ==> Kept(old(installer.link.storage.image), installer.link.storage.image)
  {
    hide Consistent, Untouched, Generations, Safe, Acceptable, Installer.ReceivingSound, Installer.FinalizedSound, Digest.Filled;
    hide Sha256.Hash, Stream, Bank, LoadManifest, Complete, Envelope, Restorable, BankFinalized;
    var link := installer.link;
    var ack := installer.Start(b);
    ghost var d := link.storage.image;
    BankOfNone(d, link.capacity, b.generation);
    for i := 0 to |records|
      invariant installer.Valid() && installer.phase == Receiving && installer.manifest == ManifestFrom(b)
      invariant installer.digest.buffer == old(installer.digest.buffer)
      invariant link.storage.powered && installer.nextSequence == i
      invariant Kept(old(link.storage.image), link.storage.image)
      invariant Bank(link.storage.image, link.capacity, b.generation, i) == Stored(records[..i])
    {
      ghost var before := link.storage.image;
      ack := installer.AddRecord(records[i]);
      KeptTransitive(old(link.storage.image), before, link.storage.image);
      assert Stored(records[..i + 1]) == Stored(records[..i]) + [records[i].(messageId := 0)];
    }
    assert records[..|records|] == records;
    ghost var before := link.storage.image;
    StreamOfStored(records);
    CompleteIffHash(installer, before, records);
    ack := installer.Finish(End(b.messageId, b.generation, b.recordCount, b.checksum));
    KeptTransitive(old(link.storage.image), before, link.storage.image);
    if ack.status != Accepted {
      return false;
    }
    ghost var sealed := link.storage.image;
    RestorableIsFinalized(sealed, link.capacity, b.generation);
    installed := installer.Promote(b.generation);
    AcceptableIsRestorable(link.storage.image, link.capacity);
    PromotedBank(sealed, link.storage.image, link.capacity, b.generation, b.recordCount);
  }

  /**
   A transfer that was finalized before a restart is recognized by its announcement
   alone and becomes the active generation, safely exactly when its bank manifest was
   stored; the next start accepts it exactly when that one was stored as finalized.
   */
  method Resume(installer: Installer, b: Begin) returns (offered: Status, ended: Status, installed: bool)
    requires installer.Valid() && installer.phase in {Idle, Committed}
    requires installer.link.storage.reliable
    requires installer.Resumable(installer.link.storage.image, installer.link.storage.powered, b)
    requires Inactive(installer.link.storage.image, b.generation)
    modifies installer, installer.link.storage, installer.digest, installer.digest.buffer
    ensures offered == Duplicate && ended == Accepted
    ensures installed && Active(installer.link.storage.image) == b.generation
    ensures Complete(installer.link.storage.image, installer.link.capacity, installer.manifest)
            && Matches(installer.manifest, b)
    ensures Safe(installer.link.storage.image, installer.link.capacity)
            <==> LoadManifest(old(installer.link.storage.image), ManifestKey(Odd(b.generation))).Some?
    ensures Acceptable(installer.link.storage.image, installer.link.capacity)
            <==> BankFinalized(old(installer.link.storage.image), b.generation)
    ensures Safe(installer.link.storage.image, installer.link.capacity) ==> installer.Valid()
  {
    hide Consistent, Untouched, Generations, Safe, Acceptable, Installer.ReceivingSound, Installer.FinalizedSound, Digest.Filled;
    hide LoadManifest, Complete, BankFinalized;
    var ack := installer.Start(b);
    offered := ack.status;
    ack := installer.Finish(End(b.messageId, b.generation, b.recordCount, b.checksum));
    ended := ack.status;
    installed := installer.Promote(b.generation);
  }

  lemma BankOfNone(d: Image, capacity: nat, generation: nat)
    ensures Bank(d, capacity, generation, 0) == Stored([])
  {}

  lemma KeptTransitive(d: Image, e: Image, f: Image)
    requires Kept(d, e) && Kept(e, f)
    ensures Kept(d, f)
  {
    hide Generations;
    if Active(d) != 0 {
      forall i: nat
        ensures Agree(d, f, RecordKey(Odd(Active(d)), i))
      {
        assert Agree(d, e, RecordKey(Odd(Active(d)), i)) && Agree(e, f, RecordKey(Odd(Active(d)), i));
      }
    }
  }

  lemma CompleteIffHash(installer: Installer, d: Image, records: seq<Record>)
    requires installer.Valid() && installer.phase == Receiving && d == installer.link.storage.image
    requires installer.nextSequence == installer.manifest.recordCount == |records|
    requires Bank(d, installer.link.capacity, installer.manifest.generation, |records|) == Stored(records)
    ensures Complete(d, installer.link.capacity, installer.manifest)
            <==> Sha256.Hash(Stream(records)) == installer.manifest.checksum
  {
    hide Consistent, Generations, Digest.Filled, Sha256.Hash, Bank, LoadRecord;
    StreamOfStored(records);
  }

  /** A new pointer leaves every record where it was. */
  lemma PromotedBank(d: Image, e: Image, capacity: nat, generation: nat, n: nat)
    requires e == d || e == d[PointerSlot(d) := PackPointer(generation)]
    ensures Bank(e, capacity, generation, n) == Bank(d, capacity, generation, n)
  {
    hide PackPointer, Intact;
    PointerSlotIsPointer(d);
    BankFrame(d, e, capacity, generation, n);
  }
}
