/** The queue of values recorded while the device is offline: a ring of stored records. */
module DeviceHistory {
  import opened Bytes
  import opened Options
  import opened Resources

  const HISTORY: nat := 0  // the resource kind

  datatype Record = Record(stream: nat, value: seq<byte>, messageId: nat, timestamp: nat, expiresAt: nat, revision: nat)

  datatype Meta = Meta(head: nat, count: nat)

  datatype Policy = Policy(maximumBytes: nat, maximumRecords: nat, dropNewest: bool)

  datatype Fate = Acknowledged | Dropped | Expired

  /** Key-value storage for the slots and the index. An operation that fails may have taken effect. */
  class Store {
    var records: map<nat, Record>
    var meta: Option<Meta>
    const reliable: bool

    constructor (records: map<nat, Record>, meta: Option<Meta>, reliable: bool)
      ensures this.records == records && this.meta == meta && this.reliable == reliable
    {
      this.records, this.meta, this.reliable := records, meta, reliable;
    }

    method Read(slot: nat) returns (record: Option<Record>)
      ensures record.Some? ==> slot in records && record.value == records[slot]
      ensures reliable && slot in records ==> record.Some?
    {
      var fails: bool := *;
      record := if slot in records && (reliable || !fails) then Some(records[slot]) else None;
    }

    method Write(slot: nat, record: Record) returns (ok: bool)
      modifies this`records
      ensures records == old(records) || records == old(records)[slot := record]
      ensures ok ==> records == old(records)[slot := record]
      ensures reliable ==> ok
    {
      var effect: bool := *;
      ok := *;
      ok := ok || reliable;
      if effect || ok {
        records := records[slot := record];
      }
    }

    method Remove(slot: nat) returns (ok: bool)
      modifies this`records
      ensures records == old(records) || records == old(records) - {slot}
      ensures ok ==> records == old(records) - {slot}
      ensures reliable ==> ok
    {
      var effect: bool := *;
      ok := *;
      ok := ok || reliable;
      if effect || ok {
        records := records - {slot};
      }
    }

    method WriteMeta(value: Meta) returns (ok: bool)
      modifies this`meta
      ensures meta == old(meta) || meta == Some(value)
      ensures ok ==> meta == Some(value)
      ensures reliable ==> ok
    {
      var effect: bool := *;
      ok := *;
      ok := ok || reliable;
      if effect || ok {
        meta := Some(value);
      }
    }

    method ReadMeta() returns (value: Option<Meta>)
      ensures value.Some? ==> value == meta
      ensures reliable ==> value == meta
    {
      var fails: bool := *;
      value := if reliable || !fails then meta else None;
    }
  }

  // ---- The queue ----

  predicate IsExpired(r: Record, now: nat) { r.expiresAt != 0 && r.expiresAt <= now }

  /** The queue without the expired records at its head. */
  function Unexpired(q: seq<Record>, now: Option<nat>): seq<Record> {
    if now.Some? && q != [] && IsExpired(q[0], now.value) then Unexpired(q[1..], now) else q
  }

  /** What a record takes, and the bytes in use that no record of the queue accounts for. */
  datatype Cost = Cost(each: nat, stray: nat)

  /** The bytes in use with `n` records. */
  function Size(n: nat, cost: Cost): nat { cost.stray + n * cost.each }

  lemma SizeNext(n: nat, cost: Cost)
    ensures Size(n + 1, cost) == Size(n, cost) + cost.each
    ensures Size(0, cost) == cost.stray
  {}

  lemma {:induction false} SizeGrows(m: nat, n: nat, cost: Cost)
    requires m <= n
    ensures Size(m, cost) <= Size(n, cost)
  {
    hide Size;
    if m < n {
      SizeGrows(m, n - 1, cost);
      SizeNext(n - 1, cost);
    }
  }

  /** A queue of `n` records leaves no room for another within the limits. */
  predicate Full(n: nat, recordLimit: nat, byteLimit: nat, cost: Cost) {
    n >= recordLimit || Size(n, cost) + cost.each > byteLimit
  }

  /** How many of `n` records must go to make room for another. */
  function Evictions(n: nat, recordLimit: nat, byteLimit: nat, cost: Cost): (k: nat)
    ensures k <= n
  {
    if n > 0 && Full(n, recordLimit, byteLimit, cost) then
      1 + Evictions(n - 1, recordLimit, byteLimit, cost)
    else 0
  }

  /** No more go than must: the newest stay, as many as leave room for one more. */
  lemma {:induction false} EvictionsLeast(n: nat, recordLimit: nat, byteLimit: nat, cost: Cost)
    ensures var k := Evictions(n, recordLimit, byteLimit, cost);
            && (k == n || !Full(n - k, recordLimit, byteLimit, cost))
            && (k > 0 ==> Full(n - k + 1, recordLimit, byteLimit, cost))
  {
    hide Full;
    if n > 0 && Full(n, recordLimit, byteLimit, cost) {
      EvictionsLeast(n - 1, recordLimit, byteLimit, cost);
    }
  }

  /** Expiry takes off exactly the expired records in front of the first live one. */
  lemma {:induction false} UnexpiredSplits(q: seq<Record>, now: Option<nat>)
    ensures var u := Unexpired(q, now);
            && |u| <= |q| && u == q[|q| - |u|..]
            && (forall i :: 0 <= i < |q| - |u| ==> now.Some? && IsExpired(q[i], now.value))
            && (now.Some? && u != [] ==> !IsExpired(u[0], now.value))
  {
    if now.Some? && q != [] && IsExpired(q[0], now.value) {
      UnexpiredSplits(q[1..], now);
      var u := Unexpired(q, now);
      forall i | 0 <= i < |q| - |u|
        ensures IsExpired(q[i], now.value)
      {
        if i > 0 {
          assert q[i] == q[1..][i - 1];
        }
      }
    }
  }

  /** The slots from `head` on hold the queue in order. */
  ghost predicate Holds(records: map<nat, Record>, head: nat, q: seq<Record>, capacity: nat) {
    forall i :: 0 <= i < |q| ==> Slot(head, i, capacity) in records && records[Slot(head, i, capacity)] == q[i]
  }

  function Slot(head: nat, i: nat, capacity: nat): nat {
    if head + i < capacity then head + i else if head + i < 2 * capacity then head + i - capacity else 0
  }

  /** The ring index of the source: its sum is less than twice the capacity. */
  lemma SlotIsRemainder(head: nat, i: nat, capacity: nat)
    requires head < capacity && i <= capacity
    ensures Slot(head, i, capacity) == (head + i) % capacity < capacity
  {
    SmallRemainder(head + i, capacity);
  }

  lemma SlotsApart(head: nat, i: nat, j: nat, capacity: nat)
    requires head < capacity && i < j < capacity
    ensures Slot(head, i, capacity) != Slot(head, j, capacity)
  {}

  lemma SlotNext(head: nat, i: nat, capacity: nat)
    requires head < capacity && i + 1 < capacity
    ensures Slot(Slot(head, 1, capacity), i, capacity) == Slot(head, i + 1, capacity)
  {}

  // ---- What a restart finds ----

  /** The records the index points at, up to the first that is missing. */
  function Listed(records: map<nat, Record>, head: nat, count: nat, capacity: nat): seq<Record>
    decreases count
  {
    if count == 0 || head !in records then []
    else [records[head]] + Listed(records, Slot(head, 1, capacity), count - 1, capacity)
  }

  lemma {:induction false} ListedAt(records: map<nat, Record>, head: nat, count: nat, capacity: nat, i: nat)
    requires head < capacity && count <= capacity && i <= |Listed(records, head, count, capacity)|
    ensures |Listed(records, head, count, capacity)| <= count
    ensures var q := Listed(records, head, count, capacity);
            if i < |q| then Slot(head, i, capacity) in records && records[Slot(head, i, capacity)] == q[i]
            else i == count || Slot(head, i, capacity) !in records
    decreases count
  {
    if count > 0 && head in records {
      var next := Slot(head, 1, capacity);
      if i > 0 {
        ListedAt(records, next, count - 1, capacity, i - 1);
        if i < count {
          SlotNext(head, i - 1, capacity);
        }
      } else {
        ListedAt(records, next, count - 1, capacity, 0);
      }
    }
  }

  /** An index in step with the queue restores it. */
  lemma {:induction false} ListedIsQueue(records: map<nat, Record>, head: nat, q: seq<Record>, capacity: nat)
    requires head < capacity && |q| <= capacity && Holds(records, head, q, capacity)
    ensures Listed(records, head, |q|, capacity) == q
    decreases |q|
  {
    if q != [] {
      assert Slot(head, 0, capacity) == head;
      forall i | 0 <= i < |q| - 1
        ensures Slot(Slot(head, 1, capacity), i, capacity) in records
        ensures records[Slot(Slot(head, 1, capacity), i, capacity)] == q[1..][i]
      {
        SlotNext(head, i, capacity);
      }
      ListedIsQueue(records, Slot(head, 1, capacity), q[1..], capacity);
    }
  }

  /** A restart between the write of a new record and that of the index finds the queue without it. */
  lemma EnqueueCutShort(records: map<nat, Record>, head: nat, q: seq<Record>, capacity: nat, r: Record)
    requires head < capacity && |q| < capacity && Holds(records, head, q, capacity)
    ensures Listed(records[Slot(head, |q|, capacity) := r], head, |q|, capacity) == q
  {
    WriteBehind(records, head, q, capacity, r);
    ListedIsQueue(records[Slot(head, |q|, capacity) := r], head, q, capacity);
  }

  lemma WriteBehind(records: map<nat, Record>, head: nat, q: seq<Record>, capacity: nat, r: Record)
    requires head < capacity && |q| < capacity && Holds(records, head, q, capacity)
    ensures Holds(records[Slot(head, |q|, capacity) := r], head, q + [r], capacity)
    ensures Holds(records[Slot(head, |q|, capacity) := r], head, q, capacity)
  {
    hide Slot;
    forall i | 0 <= i < |q|
      ensures Slot(head, i, capacity) != Slot(head, |q|, capacity)
    {
      SlotsApart(head, i, |q|, capacity);
    }
  }

  /**
   A restart between the removal of the oldest record and the write of the index
   finds nothing at all: the rest of the queue survives exactly when there is none.
   */
  lemma DropCutShortIff(records: map<nat, Record>, head: nat, q: seq<Record>, capacity: nat)
    requires head < capacity && 0 < |q| <= capacity && Holds(records, head, q, capacity)
    ensures Listed(records - {head}, head, |q|, capacity) == q[1..] <==> |q| == 1
  {}

  /** Of two records nothing is found, the one not removed included. */
  lemma DropCutShortWitness(a: Record, b: Record)
    ensures var records := map[0 := a, 1 := b];
            Holds(records, 0, [a, b], 2) && Listed(records, 0, 2, 2) == [a, b] && Listed(records - {0}, 0, 2, 2) == []
  {
    ListedIsQueue(map[0 := a, 1 := b], 0, [a, b], 2);
  }

  lemma DropAhead(records: map<nat, Record>, after: map<nat, Record>, head: nat, q: seq<Record>, capacity: nat)
    requires head < capacity && 0 < |q| <= capacity && Holds(records, head, q, capacity)
    requires after == records || after == records - {head}
    ensures Holds(after, Slot(head, 1, capacity), q[1..], capacity)
  {
    forall i | 0 <= i < |q| - 1
      ensures Slot(Slot(head, 1, capacity), i, capacity) in after
      ensures after[Slot(Slot(head, 1, capacity), i, capacity)] == q[1..][i]
    {
      SlotNext(head, i, capacity);
      SlotsApart(head, 0, i + 1, capacity);
      assert Slot(head, 0, capacity) == head;
      assert Slot(head, i + 1, capacity) in records;
    }
  }

  /** The queue has lost some of its oldest records and may have gained `r`. */
  ghost predicate Follows(q: seq<Record>, after: seq<Record>, r: Record) {
    exists k: nat :: k <= |q| && (after == q[k..] || after == q[k..] + [r])
  }

  lemma FollowsTwice(q: seq<Record>, j: nat, k: nat, after: seq<Record>, r: Record)
    requires j <= |q| && k <= |q| - j && (after == q[j..][k..] || after == q[j..][k..] + [r])
    ensures Follows(q, after, r)
  {
    assert q[j..][k..] == q[j + k..];
  }

  /** The queue after a value is offered to it, when the storage works. */
  function Queued(q: seq<Record>, r: Record, policy: Policy, capacity: nat, cost: Cost, total: nat,
                  budgets: seq<Budget>, used: seq<nat>): seq<Record>
    requires |budgets| == |used| && HISTORY < |used|
  {
    var recordLimit := if policy.maximumRecords != 0 then policy.maximumRecords else capacity;
    var byteLimit := if policy.maximumBytes != 0 then policy.maximumBytes else budgets[HISTORY].maximum;
    if policy.dropNewest && Full(|q|, recordLimit, byteLimit, cost) then q
    else
      Fitted(q[Evictions(|q|, recordLimit, byteLimit, cost)..], r, capacity, cost, total, budgets, used)
  }

  /** `t` with the record behind it, if there is a slot and the budget admits it. */
  function Fitted(t: seq<Record>, r: Record, capacity: nat, cost: Cost, total: nat, budgets: seq<Budget>,
                  used: seq<nat>): seq<Record>
    requires |budgets| == |used| && HISTORY < |used|
  {
    if |t| < capacity && Admits(total, budgets, used[HISTORY := Size(|t|, cost)], HISTORY, cost.each) then t + [r]
    else t
  }

  /** What the history uses now does not matter: it is replaced. */
  lemma FittedReplaced(t: seq<Record>, r: Record, capacity: nat, cost: Cost, total: nat, budgets: seq<Budget>,
                       used: seq<nat>, x: nat)
    requires |budgets| == |used| && HISTORY < |used|
    ensures Fitted(t, r, capacity, cost, total, budgets, used[HISTORY := x])
            == Fitted(t, r, capacity, cost, total, budgets, used)
  {
    hide Size, Admits;
    assert used[HISTORY := x][HISTORY := Size(|t|, cost)] == used[HISTORY := Size(|t|, cost)];
  }

  lemma QueuedReplaced(q: seq<Record>, r: Record, policy: Policy, capacity: nat, cost: Cost, total: nat,
                       budgets: seq<Budget>, used: seq<nat>, x: nat)
    requires |budgets| == |used| && HISTORY < |used|
    ensures Queued(q, r, policy, capacity, cost, total, budgets, used[HISTORY := x])
            == Queued(q, r, policy, capacity, cost, total, budgets, used)
  {
    hide Size, Admits, Fitted, Evictions, Full;
    var recordLimit := if policy.maximumRecords != 0 then policy.maximumRecords else capacity;
    var byteLimit := if policy.maximumBytes != 0 then policy.maximumBytes else budgets[HISTORY].maximum;
    FittedReplaced(q[Evictions(|q|, recordLimit, byteLimit, cost)..], r, capacity, cost, total, budgets, used, x);
  }

  /** The budget admits `count` records one after the other. */
  predicate Affordable(count: nat, cost: Cost, total: nat, budgets: seq<Budget>, used: seq<nat>)
    requires |budgets| == |used| && HISTORY < |used|
  {
    forall n: nat :: n < count ==> Admits(total, budgets, used[HISTORY := Size(n, cost)], HISTORY, cost.each)
  }

  class HistoryRing {
    const store: Store
    const resources: ResourceManager
    const capacity: nat
    const recordBytes: nat
    var head: nat
    var count: nat
    var lastSentAt: nat
    var dropped: nat
    var expired: nat

    ghost var queue: seq<Record>
    ghost var offered: nat       // records handed in or restored
    ghost var acknowledged: nat
    ghost var unwritten: nat     // records whose write failed
    ghost var stray: nat         // bytes in use for records restored over

    ghost function Costs(): Cost
      reads this`stray
    {
      Cost(recordBytes, stray)
    }

    ghost predicate Valid()
      reads this, store, resources, resources.budgets, resources.used, resources.highWater, resources.reclaimed
    {
      && resources.Valid() && resources.totalBytes + recordBytes < TWO_32
      && 0 < capacity && 0 < recordBytes
      && head < capacity && count <= capacity && |queue| == count
      && Holds(store.records, head, queue, capacity)
      && resources.used[HISTORY] == Size(count, Costs())
      && offered == |queue| + acknowledged + dropped + expired + unwritten
    }

    /** The stored index is in step with the queue. */
    ghost predicate Synced()
      reads this, store
    {
      store.meta == Some(Meta(head, count))
    }

    constructor (store: Store, resources: ResourceManager, capacity: nat, recordBytes: nat)
      requires resources.Valid() && resources.totalBytes + recordBytes < TWO_32 && resources.used[HISTORY] == 0
      requires 0 < capacity && 0 < recordBytes
      ensures lastSentAt == 0 && Valid() && stray == 0 && queue == [] && this.store == store && this.resources == resources
      ensures this.capacity == capacity && this.recordBytes == recordBytes
    {
      this.store, this.resources, this.capacity, this.recordBytes := store, resources, capacity, recordBytes;
      head, count, lastSentAt, dropped, expired := 0, 0, 0, 0, 0;
      queue, offered, acknowledged, unwritten, stray := [], 0, 0, 0, 0;
    }

    method PersistMeta()
      modifies store`meta
      ensures store.reliable ==> Synced()
    {
      var _ := store.WriteMeta(Meta(head, count));
    }

    /** Takes the oldest record off, whatever becomes of its slot. */
    method DropOldest(fate: Fate)
      requires Valid() && queue != []
      modifies this, store, resources.used, resources.reclaimed
      ensures Valid() && stray == old(stray) && queue == old(queue)[1..] && lastSentAt == old(lastSentAt)
      ensures offered == old(offered) && unwritten == old(unwritten)
      ensures acknowledged == old(acknowledged) + (if fate == Acknowledged then 1 else 0)
      ensures dropped == old(dropped) + (if fate == Dropped then 1 else 0)
      ensures expired == old(expired) + (if fate == Expired then 1 else 0)
      ensures resources.used[..] == old(resources.used[..])[HISTORY := Size(|queue|, Costs())]
      ensures resources.reclaimed[HISTORY]
              == if fate == Acknowledged then old(resources.reclaimed[HISTORY])
                 else (old(resources.reclaimed[HISTORY]) + recordBytes) % TWO_32
      ensures store.reliable ==> Synced()
    {
      hide Sum, Claims, Honoured, Size, Slot, Holds;
      SizeNext(count - 1, Costs());
      ghost var before := store.records;
      var _ := store.Remove(head);
      DropAhead(before, store.records, head, queue, capacity);
      SlotIsRemainder(head, 1, capacity);
      head := (head + 1) % capacity;
      count := count - 1;
      queue := queue[1..];
      resources.Release(HISTORY, recordBytes, fate != Acknowledged);
      if fate == Expired {
        expired := expired + 1;
      } else if fate == Dropped {
        dropped := dropped + 1;
      } else {
        acknowledged := acknowledged + 1;
      }
      PersistMeta();
    }

    method ReadHead() returns (record: Option<Record>)
      requires Valid() && queue != []
      ensures record.Some? ==> record.value == queue[0]
      ensures store.reliable ==> record.Some?
    {
      hide Sum, Claims, Honoured, Size;
      assert Slot(head, 0, capacity) == head;
      record := store.Read(head);
    }

    /** Takes expired records off the head; all of them when the storage can be read. */
    method Expire(now: Option<nat>)
      requires Valid()
      modifies this, store, resources.used, resources.reclaimed
      ensures Valid() && stray == old(stray) && lastSentAt == old(lastSentAt)
      ensures offered == old(offered) && unwritten == old(unwritten) && acknowledged == old(acknowledged)
      ensures dropped == old(dropped)
      ensures var k := expired - old(expired);
              && 0 <= k <= |old(queue)| && queue == old(queue)[k..]
              && forall i :: 0 <= i < k ==> now.Some? && IsExpired(old(queue)[i], now.value)
      ensures store.reliable ==> queue == Unexpired(old(queue), now)
      ensures resources.used[..] == old(resources.used[..])[HISTORY := Size(|queue|, Costs())]
      ensures store.reliable && old(Synced()) ==> Synced()
    {
      hide Sum, Claims, Honoured, Size, Slot, Holds;
      if now.None? {
        UsedAlready();
        return;
      }
      ghost var k := 0;
      UsedAlready();
      while count > 0
        invariant Valid() && stray == old(stray) && lastSentAt == old(lastSentAt)
        invariant offered == old(offered) && unwritten == old(unwritten) && acknowledged == old(acknowledged)
        invariant dropped == old(dropped) && k == expired - old(expired)
        invariant 0 <= k <= |old(queue)| && queue == old(queue)[k..]
        invariant forall i :: 0 <= i < k ==> IsExpired(old(queue)[i], now.value)
        invariant Unexpired(queue, now) == Unexpired(old(queue), now)
        invariant resources.used[..] == old(resources.used[..])[HISTORY := Size(|queue|, Costs())]
        invariant store.reliable && old(Synced()) ==> Synced()
        decreases count
      {
        var record := ReadHead();
        if record.None? || record.value.expiresAt == 0 || record.value.expiresAt > now.value {
          return;
        }
        DropOldest(Expired);
        k := k + 1;
      }
    }

    /** The bytes in use are already those of the queue. */
    lemma UsedAlready()
      requires Valid()
      ensures resources.used[..] == resources.used[..][HISTORY := Size(|queue|, Costs())]
    {
      hide Sum, Claims, Honoured, Size, Slot, Holds;
    }

    /** Drops the oldest records until the limits leave room, and no more. */
    method MakeRoom(recordLimit: nat, byteLimit: nat)
      requires Valid()
      modifies this, store, resources.used, resources.reclaimed
      ensures Valid() && stray == old(stray) && lastSentAt == old(lastSentAt)
      ensures offered == old(offered) && unwritten == old(unwritten) && acknowledged == old(acknowledged)
      ensures expired == old(expired)
      ensures var k := Evictions(|old(queue)|, recordLimit, byteLimit, Costs());
              queue == old(queue)[k..] && dropped == old(dropped) + k
      ensures resources.used[..] == old(resources.used[..])[HISTORY := Size(|queue|, Costs())]
      ensures store.reliable && old(Synced()) ==> Synced()
    {
      hide Sum, Claims, Honoured, Size, Slot, Holds;
      ghost var k := 0;
      UsedAlready();
      while count > 0 && (count >= recordLimit || resources.used[HISTORY] + recordBytes > byteLimit)
        invariant Valid() && stray == old(stray) && lastSentAt == old(lastSentAt)
        invariant offered == old(offered) && unwritten == old(unwritten) && acknowledged == old(acknowledged)
        invariant expired == old(expired) && dropped == old(dropped) + k
        invariant 0 <= k <= |old(queue)| && queue == old(queue)[k..]
        invariant Evictions(|old(queue)|, recordLimit, byteLimit, Costs())
                  == k + Evictions(|queue|, recordLimit, byteLimit, Costs())
        invariant resources.used[..] == old(resources.used[..])[HISTORY := Size(|queue|, Costs())]
        invariant store.reliable && old(Synced()) ==> Synced()
        decreases count
      {
        DropOldest(Dropped);
        k := k + 1;
      }
    }

    /** The record joins the queue behind the others, if there is a slot, the bytes and a write that succeeds. */
    method Append(record: Record)
      requires Valid()
      modifies this, store, resources.used, resources.highWater, resources.reclaimed
      ensures Valid() && stray == old(stray) && lastSentAt == old(lastSentAt) && offered == old(offered) + 1
      ensures acknowledged == old(acknowledged) && expired == old(expired)
      ensures var room := old(count) < capacity
                          && Admits(resources.totalBytes, resources.budgets[..], old(resources.used[..]), HISTORY, recordBytes);
              && (!room ==> queue == old(queue) && dropped == old(dropped) + 1)
              && (room ==> dropped == old(dropped) && (queue == old(queue) || queue == old(queue) + [record]))
              && (room && store.reliable ==> queue == old(queue) + [record] && Synced())
      ensures !(queue == old(queue) + [record]) && old(Synced()) ==> Synced()
    {
      hide Sum, Claims, Honoured, Size, Slot, Holds, Guarded;
      offered := offered + 1;
      if count >= capacity {
        dropped := dropped + 1;
        return;
      }
      SmallDemand(resources.totalBytes, resources.budgets[..], resources.used[..], HISTORY, recordBytes);
      var reserved := resources.Reserve(HISTORY, recordBytes);
      if !reserved {
        dropped := dropped + 1;
        return;
      }
      StoreBehind(record);
    }

    /** The bytes are taken: writes the slot behind the queue, or gives them back. */
    method StoreBehind(record: Record)
      requires resources.Valid() && resources.totalBytes + recordBytes < TWO_32
      requires 0 < recordBytes
      requires head < capacity && count < capacity && |queue| == count && Holds(store.records, head, queue, capacity)
      requires resources.used[HISTORY] == Size(count, Costs()) + recordBytes
      requires offered == |queue| + acknowledged + dropped + expired + unwritten + 1
      modifies this, store, resources.used, resources.reclaimed
      ensures Valid() && stray == old(stray) && lastSentAt == old(lastSentAt) && offered == old(offered)
      ensures acknowledged == old(acknowledged) && expired == old(expired) && dropped == old(dropped)
      ensures queue == old(queue) || queue == old(queue) + [record]
      ensures store.reliable ==> queue == old(queue) + [record] && Synced()
      ensures queue == old(queue) && old(Synced()) ==> Synced()
      ensures resources.reclaimed[..] == old(resources.reclaimed[..])
    {
      hide Sum, Claims, Honoured, Size, Slot, Holds, Guarded;
      SizeNext(count, Costs());
      SlotIsRemainder(head, count, capacity);
      WriteBehind(store.records, head, queue, capacity, record);
      var slot := (head + count) % capacity;
      count := count + 1;
      var written := store.Write(slot, record);
      if !written {
        count := count - 1;
        unwritten := unwritten + 1;
        resources.Release(HISTORY, recordBytes, false);
        return;
      }
      queue := queue + [record];
      PersistMeta();
    }

    /**
     Queues a value. Full by its own policy, the queue either refuses it or first
     gives up its oldest records, and no more of them than it must.
     */
    method QueueHistory(record: Record, policy: Policy, now: Option<nat>)
      requires Valid()
      modifies this, store, resources.used, resources.highWater, resources.reclaimed
      ensures Valid() && stray == old(stray) && lastSentAt == old(lastSentAt) && acknowledged == old(acknowledged)
      ensures offered == old(offered) + 1
      ensures Follows(old(queue), queue, record)
      ensures store.reliable ==>
                queue == Queued(Unexpired(old(queue), now), record, policy, capacity, Costs(), resources.totalBytes,
                                resources.budgets[..], old(resources.used[..]))
    {
      hide Sum, Claims, Honoured, Size, Slot, Holds, Unexpired, Admits, Follows, Queued;
      Expire(now);
      ghost var j, live := expired - old(expired), queue;
      QueuedReplaced(live, record, policy, capacity, Costs(), resources.totalBytes, resources.budgets[..],
                     old(resources.used[..]), Size(|live|, Costs()));
      ghost var k := Offer(record, policy);
      FollowsTwice(old(queue), j, k, queue, record);
    }

    /** Refuses the record when full by the policy, or makes room and appends it. */
    method Offer(record: Record, policy: Policy) returns (ghost k: nat)
      requires Valid()
      modifies this, store, resources.used, resources.highWater, resources.reclaimed
      ensures Valid() && stray == old(stray) && lastSentAt == old(lastSentAt) && acknowledged == old(acknowledged)
      ensures offered == old(offered) + 1
      ensures k <= |old(queue)| && (queue == old(queue)[k..] || queue == old(queue)[k..] + [record])
      ensures store.reliable ==>
                queue == Queued(old(queue), record, policy, capacity, Costs(), resources.totalBytes,
                                resources.budgets[..], old(resources.used[..]))
    {
      hide Sum, Claims, Honoured, Size, Slot, Holds, Full, Evictions, Admits, Fitted;
      var recordLimit := if policy.maximumRecords != 0 then policy.maximumRecords else capacity;
      var byteLimit := if policy.maximumBytes != 0 then policy.maximumBytes else resources.budgets[HISTORY].maximum;
      FullHere(recordLimit, byteLimit);
      if policy.dropNewest && (count >= recordLimit || resources.used[HISTORY] + recordBytes > byteLimit) {
        dropped := dropped + 1;
        offered := offered + 1;
        return 0;
      }
      k := Evictions(|queue|, recordLimit, byteLimit, Costs());
      Enqueue(record, recordLimit, byteLimit);
    }

    /** Makes room and appends. */
    method Enqueue(record: Record, recordLimit: nat, byteLimit: nat)
      requires Valid()
      modifies this, store, resources.used, resources.highWater, resources.reclaimed
      ensures Valid() && stray == old(stray) && lastSentAt == old(lastSentAt) && acknowledged == old(acknowledged)
      ensures offered == old(offered) + 1
      ensures var t := old(queue)[Evictions(|old(queue)|, recordLimit, byteLimit, Costs())..];
              && (queue == t || queue == t + [record])
              && (store.reliable ==> queue == Fitted(t, record, capacity, Costs(), resources.totalBytes,
                                                     resources.budgets[..], old(resources.used[..])))
    {
      hide Sum, Claims, Honoured, Size, Slot, Holds, Full, Evictions, Admits;
      MakeRoom(recordLimit, byteLimit);
      assert resources.used[..] == old(resources.used[..])[HISTORY := Size(|queue|, Costs())];
      Append(record);
    }

    lemma FullHere(recordLimit: nat, byteLimit: nat)
      requires Valid()
      ensures Full(count, recordLimit, byteLimit, Costs())
              <==> count >= recordLimit || resources.used[HISTORY] + recordBytes > byteLimit
    {
      hide Sum, Claims, Honoured, Size, Slot, Holds;
    }

    /** Sends the head of the queue, and only that, at most every five seconds. */
    method Flush(now: nat, utc: Option<nat>, accepted: bool) returns (sent: Option<Record>)
      requires Valid() && now < TWO_64
      modifies this, store, resources.used, resources.reclaimed
      ensures Valid() && stray == old(stray) && acknowledged == old(acknowledged) && offered == old(offered) && dropped == old(dropped)
      ensures var k := expired - old(expired); 0 <= k <= |old(queue)| && queue == old(queue)[k..]
      ensures sent.Some? ==> queue != [] && sent.value == queue[0] && lastSentAt == if now != 0 then now else 1
      ensures sent.Some? && old(lastSentAt) != 0 ==> (now - old(lastSentAt)) % TWO_64 >= 5000
      ensures sent.None? ==> lastSentAt == old(lastSentAt)
      ensures (sent.None? && store.reliable && accepted && queue != []) ==>
                old(lastSentAt) != 0 && (now - old(lastSentAt)) % TWO_64 < 5000
    {
      hide Sum, Claims, Honoured, Size, Slot, Holds, Unexpired;
      sent := None;
      Expire(utc);
      if count == 0 || (lastSentAt != 0 && (now - lastSentAt) % TWO_64 < 5000) {
        return;
      }
      var record := ReadHead();
      if record.Some? && accepted {
        sent := record;
        lastSentAt := if now != 0 then now else 1;
      }
    }

    /** An answer retires the head of the queue exactly when it names it. */
    method Answer(messageId: nat, rejected: bool) returns (retired: bool)
      requires Valid()
      modifies this, store, resources.used, resources.reclaimed
      ensures Valid() && stray == old(stray) && offered == old(offered) && expired == old(expired)
      ensures retired ==>
                && old(queue) != [] && old(queue)[0].messageId == messageId && queue == old(queue)[1..]
                && (if rejected then dropped == old(dropped) + 1 && acknowledged == old(acknowledged)
                    else acknowledged == old(acknowledged) + 1 && dropped == old(dropped))
      ensures lastSentAt == if retired then 0 else old(lastSentAt)
      ensures !retired ==> queue == old(queue) && dropped == old(dropped) && acknowledged == old(acknowledged)
      ensures store.reliable ==> (retired <==> old(queue) != [] && old(queue)[0].messageId == messageId)
    {
      hide Sum, Claims, Honoured, Size, Slot, Holds;
      retired := false;
      if count > 0 {
        var record := ReadHead();
        if record.Some? && record.value.messageId == messageId {
          DropOldest(if rejected then Dropped else Acknowledged);
          lastSentAt := 0;
          retired := true;
        }
      }
    }

    /** With the index in step, a restart would find exactly this queue. */
    lemma SyncedRestores()
      requires Valid() && Synced()
      ensures Listed(store.records, store.meta.value.head, store.meta.value.count, capacity) == queue
    {
      hide Sum, Claims, Honoured, Size, Listed;
      ListedIsQueue(store.records, head, queue, capacity);
    }

    /** Takes up the listed records one by one. */
    method RestoreFrom(listed: nat)
      requires Valid() && queue == [] && listed <= capacity
      modifies this, resources.used, resources.highWater
      ensures Valid() && stray == old(stray) && head == old(head)
      ensures queue <= Listed(store.records, head, listed, capacity)
      ensures store.reliable
              && Affordable(listed, Costs(), resources.totalBytes, resources.budgets[..], old(resources.used[..])) ==>
                queue == Listed(store.records, head, listed, capacity)
    {
      hide Sum, Claims, Honoured, Size, Slot, Guarded, Listed, Admits;
      ghost var all := Listed(store.records, head, listed, capacity);
      UsedAlready();
      for i := 0 to listed
        invariant Valid() && stray == old(stray) && head == old(head) && count == i
        invariant i <= |all| && queue == all[..i]
        invariant resources.used[..] == old(resources.used[..])[HISTORY := Size(i, Costs())]
      {
        ListedAt(store.records, head, listed, capacity, i);
        SlotIsRemainder(head, i, capacity);
        var record := store.Read((head + i) % capacity);
        if record.None? {
          return;
        }
        SmallDemand(resources.totalBytes, resources.budgets[..], resources.used[..], HISTORY, recordBytes);
        SizeNext(i, Costs());
        var reserved := resources.Reserve(HISTORY, recordBytes);
        if !reserved {
          return;
        }
        count := count + 1;
        queue := queue + [record.value];
        offered := offered + 1;
      }
      ListedAt(store.records, head, listed, capacity, listed);
    }

    /** The stored index names slots of the ring. */
    predicate Indexed()
      reads this, store
    {
      store.meta.Some? && store.meta.value.head < capacity && store.meta.value.count <= capacity
    }

    /**
     After a restart, and again after a late binding: takes up the listed records as
     far as they can be read and paid for. What the queue held before stays paid for
     though no record accounts for it any more, so a second restore loses those bytes.
     */
    method Restore()
      requires Valid()
      modifies this, resources.used, resources.highWater
      ensures Valid()
      ensures !Indexed() ==> queue == old(queue)
      ensures || (stray == old(stray) && queue == old(queue))
              || (&& Indexed() && stray == old(stray) + |old(queue)| * recordBytes
                  && queue <= Listed(store.records, store.meta.value.head, store.meta.value.count, capacity))
      ensures store.reliable && Indexed() ==> stray == old(stray) + |old(queue)| * recordBytes
      ensures store.reliable && Indexed()
              && Affordable(store.meta.value.count, Costs(), resources.totalBytes, resources.budgets[..], old(resources.used[..])) ==>
                queue == Listed(store.records, store.meta.value.head, store.meta.value.count, capacity)
    {
      hide Sum, Claims, Honoured, Slot, Guarded, Listed, Admits;
      var meta := store.ReadMeta();
      if meta.None? || meta.value.head >= capacity || meta.value.count > capacity {
        return;
      }
      head, count := meta.value.head, 0;
      Forget();
      RestoreFrom(meta.value.count);
    }

    /** The records listed so far are dropped from the books, their bytes are not. */
    ghost method Forget()
      requires offered >= |queue|
      modifies this`queue, this`stray, this`offered
      ensures queue == [] && stray == old(stray) + |old(queue)| * recordBytes
      ensures offered == old(offered) - |old(queue)|
    {
      stray := stray + |queue| * recordBytes;
      offered := offered - |queue|;
      queue := [];
    }
  }
}
