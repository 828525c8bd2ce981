/** State updates on their way to the cloud: four deliveries at a time, each retried until answered. */
module DeviceDelivery {
  import opened Bytes
  import opened Options

  const WINDOW: nat := 4
  const RETRY_MS: nat := 5000

  type Value = seq<byte>

  datatype Stream = Stream(bound: bool, keepLatest: bool, value: Value, revision: nat, dirty: bool)

  /** An entry of the window; it is free when its message id is zero. */
  datatype Delivery = Delivery(messageId: nat, sentAt: nat, revision: nat, slot: nat)

  const FREE: Delivery := Delivery(0, 0, 0, 0)

  /** A message the link accepted: the value the stream had after `version` updates. */
  datatype Sent = Sent(messageId: nat, slot: nat, version: nat, value: Value)

  datatype Outcome = Unbound | Recent | NoRoom | Refused | Accepted

  /**
   Whatever was sent under a message id was a value of stream `slot` with revision
   `revision`; `version` and `value` are those the stream has now.
   */
  ghost predicate Faithful(log: seq<Sent>, id: nat, slot: nat, revision: nat, version: nat, value: Value) {
    forall t :: 0 <= t < |log| && log[t].messageId == id ==>
      && log[t].slot == slot && log[t].version % TWO_32 == revision && log[t].version <= version
      && (log[t].version == version ==> log[t].value == value)
  }

  ghost predicate Logged(log: seq<Sent>, messageId: nat) {
    exists t :: 0 <= t < |log| && log[t].messageId == messageId
  }

  lemma LogMore(log: seq<Sent>, s: Sent, id: nat, slot: nat, revision: nat, version: nat, value: Value)
    requires Faithful(log, id, slot, revision, version, value)
    requires s.messageId == id ==> s.slot == slot && s.version % TWO_32 == revision && s.version == version && s.value == value
    ensures Faithful(log + [s], id, slot, revision, version, value)
    ensures Logged(log + [s], s.messageId) && (Logged(log, id) ==> Logged(log + [s], id))
  {
    var more := log + [s];
    assert more[|log|] == s;
    if Logged(log, id) {
      var t :| 0 <= t < |log| && log[t].messageId == id;
      assert more[t].messageId == id;
    }
  }

  lemma NeverSent(log: seq<Sent>, id: nat, slot: nat, revision: nat, version: nat, value: Value)
    requires forall t :: 0 <= t < |log| ==> log[t].messageId < id
    ensures Faithful(log, id, slot, revision, version, value)
  {}

  class Window {
    const streams: array<Stream>
    const deliveries: array<Delivery>
    const accepting: bool         // the link takes every message
    var publishCursor: nat
    var nextMessageId: nat
    ghost var versions: seq<nat>  // how often each stream was updated
    ghost var log: seq<Sent>      // every message the link accepted

    /** The revision counts updates in 32 bits. */
    ghost predicate Counted()
      reads this, streams
    {
      && |versions| == streams.Length
      && forall i :: 0 <= i < streams.Length ==> streams[i].revision == versions[i] % TWO_32
    }

    /** One outstanding delivery per stream, each under an id of its own. */
    ghost predicate Apart()
      reads this, deliveries
      requires deliveries.Length == WINDOW
    {
      forall a, b :: 0 <= a < b < WINDOW && deliveries[a].messageId != 0 && deliveries[b].messageId != 0 ==>
        deliveries[a].slot != deliveries[b].slot && deliveries[a].messageId != deliveries[b].messageId
    }

    ghost predicate EntryOk(log: seq<Sent>, a: nat)
      reads this, streams, deliveries
      requires deliveries.Length == WINDOW && |versions| == streams.Length && a < WINDOW
    {
      deliveries[a].messageId != 0 ==>
        && deliveries[a].slot < streams.Length && deliveries[a].messageId <= nextMessageId
        && Faithful(log, deliveries[a].messageId, deliveries[a].slot, deliveries[a].revision,
                    versions[deliveries[a].slot], streams[deliveries[a].slot].value)
    }

    ghost predicate Base()
      reads this, streams, deliveries
    {
      && deliveries.Length == WINDOW && Counted() && Apart()
      && (forall a :: 0 <= a < WINDOW ==> EntryOk(log, a))
      && (forall t :: 0 <= t < |log| ==> 0 < log[t].messageId <= nextMessageId)
      && (publishCursor == 0 || publishCursor < streams.Length)
    }

    ghost predicate AllSent()
      reads this, deliveries
      requires deliveries.Length == WINDOW
    {
      forall a :: 0 <= a < WINDOW && deliveries[a].messageId != 0 ==>
        deliveries[a].sentAt > 0 && Logged(log, deliveries[a].messageId)
    }

    ghost predicate Valid()
      reads this, streams, deliveries
    {
      Base() && AllSent()
    }

    constructor (initial: seq<Stream>, nonce: nat, accepting: bool)
      requires forall i :: 0 <= i < |initial| ==> initial[i].revision < TWO_32
      ensures Valid() && streams[..] == initial && log == [] && fresh(streams) && fresh(deliveries)
      ensures forall a :: 0 <= a < WINDOW ==> deliveries[a] == FREE
      ensures publishCursor == 0 && nextMessageId == nonce * TWO_32 && this.accepting == accepting
    {
      this.accepting := accepting;
      streams := new Stream[|initial|](i requires 0 <= i < |initial| => initial[i]);
      deliveries := new Delivery[WINDOW](_ => FREE);
      publishCursor := 0;
      nextMessageId := nonce * TWO_32;
      versions := seq(|initial|, i requires 0 <= i < |initial| => initial[i].revision);
      log := [];
    }

    ghost predicate Outstanding(slot: nat)
      reads deliveries
    {
      exists a :: 0 <= a < deliveries.Length && deliveries[a].messageId != 0 && deliveries[a].slot == slot
    }

    ghost predicate Crowded()
      reads deliveries
    {
      forall a :: 0 <= a < deliveries.Length ==> deliveries[a].messageId != 0
    }

    /** The entry of a stream, else the first free one, else none. */
    method FindEntry(slot: nat) returns (index: nat, found: bool)
      requires deliveries.Length == WINDOW
      ensures index <= WINDOW
      ensures found <==> Outstanding(slot)
      ensures found ==> index < WINDOW && deliveries[index].messageId != 0 && deliveries[index].slot == slot
      ensures !found && index < WINDOW ==> deliveries[index].messageId == 0
      ensures !found && index == WINDOW ==> Crowded()
    {
      index, found := 0, false;
      while index < WINDOW
        invariant 0 <= index <= WINDOW
        invariant forall a :: 0 <= a < index ==> deliveries[a].messageId == 0 || deliveries[a].slot != slot
        modifies {}
      {
        if deliveries[index].messageId != 0 && deliveries[index].slot == slot {
          found := true;
          return;
        }
        index := index + 1;
      }
      index := 0;
      while index < WINDOW && deliveries[index].messageId != 0
        invariant 0 <= index <= WINDOW
        invariant forall a :: 0 <= a < index ==> deliveries[a].messageId != 0
        modifies {}
      {
        index := index + 1;
      }
    }

    ghost predicate Same(d: Delivery, e: Delivery) {
      d.messageId != 0 ==> e.messageId != 0 && e.slot == d.slot
    }

    /** The log has grown by the current value of a stream. */
    ghost predicate Grown(before: seq<Sent>, slot: nat)
      reads this, streams
    {
      && |log| == |before| + 1 && log[..|before|] == before && slot < streams.Length && |versions| == streams.Length
      && log[|before|] == Sent(log[|before|].messageId, slot, versions[slot], streams[slot].value)
    }

    /** The stream has an outstanding delivery sent less than five seconds before `now`. */
    ghost predicate SentLately(slot: nat, now: nat)
      reads deliveries
    {
      exists a :: 0 <= a < deliveries.Length && deliveries[a].messageId != 0 && deliveries[a].slot == slot
                  && deliveries[a].sentAt != 0 && (now - deliveries[a].sentAt) % TWO_64 < RETRY_MS
    }

    /** A retry of the same revision keeps its message id; anything else gets the next one. */
    ghost predicate NamedFor(id: nat, issued: nat, slot: nat, before: seq<Delivery>)
      reads this, streams
    {
      if exists a :: 0 <= a < |before| && Retries(before[a], slot) then
        exists a :: 0 <= a < |before| && Retries(before[a], slot) && id == before[a].messageId
      else id == issued + 1
    }

    predicate Retries(d: Delivery, slot: nat)
      reads streams
    {
      d.messageId != 0 && d.slot == slot && slot < streams.Length && d.revision == streams[slot].revision
    }

    /**
     Sends the current value of a stream, unless it was sent less than five seconds
     ago. A value that changed gets a new message id; a refused one frees its entry.
     */
    method Publish(slot: nat, now: nat) returns (outcome: Outcome)
      requires Valid() && slot < streams.Length && now < TWO_64
      modifies this`publishCursor, this`nextMessageId, this`log, deliveries
      ensures Valid()
      ensures if outcome == Accepted then Grown(old(log), slot) else log == old(log)
      ensures outcome == Accepted || outcome == Recent ==> Outstanding(slot)
      ensures outcome == NoRoom ==> Crowded()
      ensures outcome == Unbound <==> !streams[slot].bound
      ensures outcome != Refused ==> forall a :: 0 <= a < WINDOW ==> Same(old(deliveries[a]), deliveries[a])
      ensures outcome != Unbound ==> (outcome == Recent <==> old(SentLately(slot, now)))
      ensures outcome == NoRoom ==> !old(Outstanding(slot))
      ensures publishCursor == if outcome == Accepted then After(slot) else old(publishCursor)
      ensures accepting ==> outcome != Refused
      ensures outcome == Accepted ==> NamedFor(log[|log| - 1].messageId, old(nextMessageId), slot, old(deliveries[..]))
    {
      hide Base, AllSent;
      FourEntries();
      if !streams[slot].bound {
        return Unbound;
      }
      OneEach();
      ghost var before := deliveries[..];
      var index, found := FindEntry(slot);
      if found && deliveries[index].sentAt != 0 && (now - deliveries[index].sentAt) % TWO_64 < RETRY_MS {
        return Recent;
      }
      if index == WINDOW {
        return NoRoom;
      }
      if deliveries[index].messageId == 0 || deliveries[index].revision != streams[slot].revision {
        Renew(index, slot);
      } else {
        AlreadyPending(index, slot);
      }
      outcome := Transmit(index, slot, now);
      assert forall a :: 0 <= a < WINDOW && Retries(before[a], slot) ==> a == index && found;
    }

    /** The stream whose turn is next. */
    function After(slot: nat): nat {
      if slot + 1 < streams.Length then slot + 1 else 0
    }

    lemma OneEach()
      requires Base()
      ensures forall a, b | 0 <= a < WINDOW && 0 <= b < WINDOW ::
                deliveries[a].messageId != 0 && deliveries[b].messageId != 0 && a != b ==>
                  deliveries[a].slot != deliveries[b].slot
    {}

    lemma FourEntries()
      requires Base()
      ensures deliveries.Length == WINDOW
    {}

    /** Everything but that the entry was sent. */
    ghost predicate Pending(index: nat, slot: nat)
      reads this, streams, deliveries
    {
      && Base() && index < WINDOW && slot < streams.Length
      && deliveries[index].messageId != 0 && deliveries[index].slot == slot
      && deliveries[index].revision == streams[slot].revision
      && forall a :: 0 <= a < WINDOW && a != index && deliveries[a].messageId != 0 ==>
           deliveries[a].sentAt > 0 && Logged(log, deliveries[a].messageId)
    }

    lemma AlreadyPending(index: nat, slot: nat)
      requires Valid() && index < WINDOW && slot < streams.Length && deliveries[index].messageId != 0
      requires deliveries[index].slot == slot && deliveries[index].revision == streams[slot].revision
      ensures Pending(index, slot)
    {}

    /** A new message id, for the revision the stream has now. */
    method Renew(index: nat, slot: nat)
      requires Valid() && slot < streams.Length && index < WINDOW
      requires if deliveries[index].messageId != 0 then deliveries[index].slot == slot else !Outstanding(slot)
      modifies this`nextMessageId, deliveries
      ensures Pending(index, slot) && deliveries[index].messageId == nextMessageId == old(nextMessageId) + 1
      ensures forall a :: 0 <= a < WINDOW && a != index ==> deliveries[a] == old(deliveries[a])
    {
      hide Faithful, Logged;
      assert forall a :: 0 <= a < WINDOW && a != index && deliveries[a].messageId != 0 ==>
        deliveries[a].slot != slot && deliveries[a].messageId <= nextMessageId by {
        forall a | 0 <= a < WINDOW && a != index && deliveries[a].messageId != 0
          ensures deliveries[a].slot != slot && deliveries[a].messageId <= nextMessageId
        {
          assert EntryOk(log, a);
        }
      }
      nextMessageId := nextMessageId + 1;
      deliveries[index] := Delivery(nextMessageId, deliveries[index].sentAt, streams[slot].revision, slot);
      NeverSent(log, nextMessageId, slot, streams[slot].revision, versions[slot], streams[slot].value);
      forall a | 0 <= a < WINDOW
        ensures EntryOk(log, a)
      {
        assert old(EntryOk(log, a));
      }
    }

    /** Entries that name the same message as before, or none, are still right. */
    twostate lemma EntriesKept()
      requires old(Base()) && deliveries.Length == WINDOW && versions == old(versions) && log == old(log)
      requires nextMessageId >= old(nextMessageId)
      requires forall i :: 0 <= i < streams.Length ==> streams[i] == old(streams[i])
      requires forall a :: 0 <= a < WINDOW ==>
                 deliveries[a] == FREE || deliveries[a] == old(deliveries[a]).(sentAt := deliveries[a].sentAt)
      ensures forall a :: 0 <= a < WINDOW ==> EntryOk(log, a)
    {
      hide Faithful;
      forall a | 0 <= a < WINDOW
        ensures EntryOk(log, a)
      {
        assert old(EntryOk(log, a));
      }
    }

    method Transmit(index: nat, slot: nat, now: nat) returns (outcome: Outcome)
      requires Pending(index, slot)
      modifies this`publishCursor, this`log, deliveries
      ensures Valid() && (outcome == Accepted || outcome == Refused)
      ensures publishCursor == if outcome == Accepted then After(slot) else old(publishCursor)
      ensures accepting ==> outcome == Accepted
      ensures if outcome == Accepted then Grown(old(log), slot) else log == old(log)
      ensures forall a :: 0 <= a < WINDOW && a != index ==> deliveries[a] == old(deliveries[a])
      ensures outcome == Accepted ==>
                && deliveries[index].messageId == old(deliveries[index]).messageId == log[|log| - 1].messageId
                && deliveries[index].slot == slot && deliveries[index].sentAt == if now != 0 then now else 1
    {
      hide Faithful, Logged;
      var taken: bool := *;
      var accepted := taken || accepting;
      if accepted {
        SmallRemainder(slot + 1, streams.Length);
        deliveries[index] := deliveries[index].(sentAt := if now != 0 then now else 1);
        publishCursor := (slot + 1) % streams.Length;
        EntriesKept();
        RecordSent(index, slot);
        outcome := Accepted;
      } else {
        deliveries[index] := FREE;
        EntriesKept();
        outcome := Refused;
      }
    }

    /** The log takes up the message the link accepted. */
    ghost method RecordSent(index: nat, slot: nat)
      requires Pending(index, slot) && deliveries[index].sentAt > 0
      modifies this`log
      ensures Valid() && Grown(old(log), slot) && log[|log| - 1].messageId == deliveries[index].messageId
    {
      hide Faithful, Logged;
      var sent := Sent(deliveries[index].messageId, slot, versions[slot], streams[slot].value);
      forall a | 0 <= a < WINDOW
        ensures EntryOk(log + [sent], a)
        ensures deliveries[a].messageId != 0 && (a == index || Logged(log, deliveries[a].messageId)) ==>
                  Logged(log + [sent], deliveries[a].messageId)
      {
        assert EntryOk(log, a);
        if deliveries[a].messageId != 0 {
          var d := deliveries[a];
          LogMore(log, sent, d.messageId, d.slot, d.revision, versions[d.slot], streams[d.slot].value);
        }
      }
      log := log + [sent];
    }

    /**
     A new value: one more revision, dirty while it may still be sent, and offered to
     the link at once when connected.
     */
    method Update(slot: nat, value: Value, connected: bool, now: nat) returns (offered: Option<Outcome>)
      requires Valid() && slot < streams.Length && now < TWO_64
      modifies this, streams, deliveries
      ensures Valid()
      ensures versions == old(versions)[slot := old(versions[slot]) + 1]
      ensures var before := old(streams[slot]);
              streams[slot] == Stream(before.bound, before.keepLatest, value, (before.revision + 1) % TWO_32,
                                      before.bound && (connected || before.keepLatest))
      ensures forall i :: 0 <= i < streams.Length && i != slot ==> streams[i] == old(streams[i])
      ensures offered.Some? <==> streams[slot].bound && connected
      ensures if offered == Some(Accepted) then Grown(old(log), slot) else log == old(log)
      ensures offered == Some(Recent) ==> Outstanding(slot)
      ensures offered == Some(NoRoom) ==> Crowded()
    {
      hide Faithful, Logged;
      var bound, keepLatest := streams[slot].bound, streams[slot].keepLatest;
      NextRevision(slot);
      streams[slot] := Stream(bound, keepLatest, value, (streams[slot].revision + 1) % TWO_32,
                              bound && (connected || keepLatest));
      versions := versions[slot := versions[slot] + 1];
      ValueReplaced(slot);
      offered := None;
      if bound && connected {
        var outcome := Publish(slot, now);
        offered := Some(outcome);
      }
    }

    lemma NextRevision(slot: nat)
      requires Base() && slot < streams.Length
      ensures (streams[slot].revision + 1) % TWO_32 == (versions[slot] + 1) % TWO_32
    {
      assert streams[slot].revision == versions[slot] % TWO_32;
    }

    /** No message has carried the new version yet. */
    twostate lemma ValueReplaced(slot: nat)
      requires old(Base()) && slot < streams.Length && slot < |old(versions)|
      requires versions == old(versions)[slot := old(versions[slot]) + 1] && log == old(log)
      requires nextMessageId == old(nextMessageId)
      requires forall i :: 0 <= i < streams.Length && i != slot ==> streams[i] == old(streams[i])
      requires forall a :: 0 <= a < WINDOW ==> deliveries[a] == old(deliveries[a])
      ensures forall a :: 0 <= a < WINDOW ==> EntryOk(log, a)
    {
      forall a | 0 <= a < WINDOW
        ensures EntryOk(log, a)
      {
        assert old(EntryOk(log, a));
      }
    }

    /** The entry that carries a message id. */
    method FindMessage(messageId: nat) returns (index: nat)
      requires deliveries.Length == WINDOW
      ensures index <= WINDOW
      ensures index < WINDOW ==> messageId != 0 && deliveries[index].messageId == messageId
      ensures index == WINDOW ==> messageId == 0 || forall a :: 0 <= a < WINDOW ==> deliveries[a].messageId != messageId
    {
      index := 0;
      while index < WINDOW
        invariant 0 <= index <= WINDOW
        invariant forall a :: 0 <= a < index ==> deliveries[a].messageId == 0 || deliveries[a].messageId != messageId
        modifies {}
      {
        if deliveries[index].messageId != 0 && deliveries[index].messageId == messageId {
          return;
        }
        index := index + 1;
      }
    }

    /** Every message sent under `id` carried a value of stream `slot` that its revision cannot tell from the present one. */
    ghost predicate CarriedCurrent(id: nat, slot: nat)
      reads this, streams
      requires slot < streams.Length && slot < |versions|
    {
      && Logged(log, id)
      && forall t :: 0 <= t < |log| && log[t].messageId == id ==>
           && log[t].slot == slot && (versions[slot] - log[t].version) % TWO_32 == 0
           && (versions[slot] - log[t].version < TWO_32 ==> log[t].value == streams[slot].value)
    }

    /** The stream of an entry is settled if its revision is still the one that was sent; the entry is free again. */
    method Settle(index: nat)
      requires Valid() && index < WINDOW && deliveries[index].messageId != 0
      modifies deliveries, streams
      ensures Valid()
      ensures forall a :: 0 <= a < WINDOW ==> deliveries[a] == if a == index then FREE else old(deliveries[a])
      ensures var d := old(deliveries[index]);
              && d.slot < streams.Length
              && (forall i :: 0 <= i < streams.Length && i != d.slot ==> streams[i] == old(streams[i]))
              && streams[d.slot] == old(streams[d.slot]).(dirty := streams[d.slot].dirty)
              && streams[d.slot].dirty == (old(streams[d.slot]).dirty && streams[d.slot].revision != d.revision)
    {
      hide Faithful, Logged;
      assert EntryOk(log, index);
      var slot := deliveries[index].slot;
      if streams[slot].revision == deliveries[index].revision {
        streams[slot] := streams[slot].(dirty := false);
      }
      deliveries[index] := FREE;
      EntriesSettled();
    }

    twostate lemma EntriesSettled()
      requires old(Base()) && versions == old(versions) && log == old(log) && nextMessageId == old(nextMessageId)
      requires forall i :: 0 <= i < streams.Length ==> streams[i] == old(streams[i]).(dirty := streams[i].dirty)
      requires forall a :: 0 <= a < WINDOW ==> deliveries[a] == FREE || deliveries[a] == old(deliveries[a])
      ensures forall a :: 0 <= a < WINDOW ==> EntryOk(log, a)
    {
      hide Faithful;
      forall a | 0 <= a < WINDOW
        ensures EntryOk(log, a)
      {
        assert old(EntryOk(log, a));
      }
    }

    /** What is known of the messages sent under the id of an entry, when its revision is the present one. */
    lemma EntryCarries(index: nat)
      requires Valid() && index < WINDOW && deliveries[index].messageId != 0
      ensures var d := deliveries[index];
              && d.slot < streams.Length
              && (streams[d.slot].revision == d.revision ==> CarriedCurrent(d.messageId, d.slot))
              && (forall t :: 0 <= t < |log| && log[t].messageId == d.messageId ==>
                    && log[t].slot == d.slot
                    && ((versions[d.slot] - log[t].version) % TWO_32 == 0 <==> streams[d.slot].revision == d.revision))
    {
      hide Logged;
      assert EntryOk(log, index);
      var d := deliveries[index];
      forall t | 0 <= t < |log| && log[t].messageId == d.messageId
        ensures (versions[d.slot] - log[t].version) % TWO_32 == 0 <==> streams[d.slot].revision == d.revision
        ensures streams[d.slot].revision == d.revision && versions[d.slot] - log[t].version < TWO_32 ==>
                  log[t].version == versions[d.slot]
      {
        SameResidue(log[t].version, versions[d.slot]);
      }
    }

    static lemma SameResidue(a: nat, b: nat)
      requires a <= b
      ensures (b - a) % TWO_32 == 0 <==> a % TWO_32 == b % TWO_32
      ensures a % TWO_32 == b % TWO_32 && b - a < TWO_32 ==> a == b
    {}

    /**
     An acknowledgement or rejection frees the entry it names. It settles a stream
     exactly when the number of updates since the message it names is a multiple of
     2^32: with none since, the message carried the present value; with 2^32 it did not.
     */
    method FinishDelivery(messageId: nat) returns (found: bool)
      requires Valid()
      modifies deliveries, streams
      ensures Valid() && |versions| == streams.Length
      ensures found <==> messageId != 0 && exists a :: 0 <= a < WINDOW && old(deliveries[a]).messageId == messageId
      ensures forall i :: 0 <= i < streams.Length ==> streams[i] == old(streams[i]).(dirty := streams[i].dirty)
      ensures forall i :: 0 <= i < streams.Length && streams[i].dirty != old(streams[i]).dirty ==>
                found && !streams[i].dirty && CarriedCurrent(messageId, i)
      ensures forall i, t | 0 <= i < streams.Length && 0 <= t < |log| ::
                found && log[t].messageId == messageId && log[t].slot == i ==>
                  (streams[i].dirty <==>
                     old(streams[i].dirty) && (versions[i] - log[t].version) % TWO_32 != 0)
      ensures forall a :: 0 <= a < WINDOW ==>
                deliveries[a] == if found && old(deliveries[a]).messageId == messageId then FREE else old(deliveries[a])
    {
      hide Faithful, Logged;
      var index := FindMessage(messageId);
      found := index < WINDOW;
      if found {
        EntryCarries(index);
        ghost var d := deliveries[index];
        Settle(index);
        assert forall i :: 0 <= i < streams.Length && streams[i].dirty != old(streams[i]).dirty ==> i == d.slot;
      }
    }

    /** The streams a sweep from `start` has visited after `n` steps. */
    predicate Visited(start: nat, n: nat, slot: nat)
      reads streams
    {
      start <= slot < start + n || slot + streams.Length < start + n
    }

    /**
     Offers every dirty stream its turn, starting after the one sent last. Unless the
     link refuses a message, each is then outstanding or the window is full.
     */
    method Sweep(now: nat) returns (refused: bool)
      requires Valid() && now < TWO_64
      modifies this`publishCursor, this`nextMessageId, this`log, deliveries
      ensures Valid() && (accepting ==> !refused)
      ensures !refused ==> forall i :: 0 <= i < streams.Length && streams[i].dirty && streams[i].bound ==>
                Outstanding(i) || Crowded()
    {
      hide Base, AllSent, Grown;
      refused := false;
      var start, count := publishCursor, streams.Length;
      CursorInRange();
      for n := 0 to count
        invariant Valid() && (accepting ==> !refused)
        invariant !refused ==> forall i :: 0 <= i < count && Visited(start, n, i) && streams[i].dirty && streams[i].bound ==>
                    Outstanding(i) || Crowded()
      {
        FourEntries();
        var slot := if start + n < count then start + n else start + n - count;
        SmallRemainder(start + n, count);
        assert slot == (start + n) % count;
        if streams[slot].dirty {
          label L:
          var outcome := Publish(slot, now);
          FourEntries();
          refused := refused || outcome == Refused;
          if outcome != Refused {
            forall i | old@L(Outstanding(i))
              ensures Outstanding(i)
            {
              var a :| 0 <= a < WINDOW && old@L(deliveries[a]).messageId != 0 && old@L(deliveries[a]).slot == i;
              assert Same(old@L(deliveries[a]), deliveries[a]);
            }
            assert old@L(Crowded()) ==> Crowded() by {
              assert forall a :: 0 <= a < WINDOW ==> Same(old@L(deliveries[a]), deliveries[a]);
            }
          }
        }
      }
    }

    lemma CursorInRange()
      requires Valid()
      ensures streams.Length > 0 ==> publishCursor < streams.Length
    {}
  }
}
