/**
 The two tasks of the ESP32 link: the loop opens, closes, reads and submits; the
 link task owns the socket. Every atomic load and store is a step of its own, and
 the steps of the two tasks interleave in any order.
 */
module LinkTask {
  import opened Bytes
  import opened Options

  const RING: nat := 1024
  const TX_BYTES: nat := 526
  const BUDGET: nat := 128

  datatype Status = Idle | Opening | Connected | Failed

  /** Where the link task is: the operation it performs next. */
  datatype TaskAt =
    | Absent | Exited | Top | LoadGeneration | Dial
    | CheckGeneration | CheckCancel | Announce
    | GuardStopping | GuardCancel | GuardGeneration
    | LoadLength | Send(length: nat) | SendDone
    | LoadHead | LoadTail | Receive | Publish | Drained
    | StopClient | Report | Settle(cancelled: bool)

  /** The locals of the link task; `mark` is how much had been read when `tail` was loaded. */
  datatype Locals = Locals(generation: nat, connection: nat, offset: nat, head: nat, tail: nat, mark: nat, budget: nat)

  /** Where the loop is in the call it is making. */
  datatype LoopAt =
    | Resting
    | ReadCancel(tail: nat) | ReadStatus(tail: nat) | ReadProduced(tail: nat) | ReadCell(tail: nat)
    | ReadDone(tail: nat, value: byte)
    | StartStopping | StartProduced | StartConsumed | StartLength | StartCancel | StartGeneration | StartStatus | StartTask
    | CloseCancel
    | SubmitStatus(data: seq<byte>) | SubmitBusy(data: seq<byte>) | SubmitCopy(data: seq<byte>) | SubmitStore(size: nat)

  /** The shared variables, the two tasks, and for each connection started so far what passed over it. */
  datatype State = State(
    status: Status, cancel: bool, stopping: bool, generation: nat,
    produced: nat, consumed: nat, rx: seq<byte>,
    txLength: nat, tx: seq<byte>,
    task: TaskAt, locals: Locals, loop: LoopAt,
    arrived: seq<seq<byte>>,    // octets the task took from the socket
    got: seq<seq<byte>>,        // octets `read` returned
    submitted: seq<seq<byte>>,  // octets handed over for sending
    written: seq<seq<byte>>)    // octets the socket took

  datatype Event =
    | TaskStep(yes: bool, count: nat, arriving: Option<byte>)
    | LoopStep(yes: bool)
    | CallRead | CallStart | CallClose | CallSubmit(data: seq<byte>) | CallStop

  function Initial(): State {
    State(Idle, false, false, 0, 0, 0, Zeros(RING), 0, Zeros(TX_BYTES),
          Absent, Locals(0, 0, 0, 0, 0, 0, 0), Resting, [[]], [[]], [[]], [[]])
  }

  /** The sizes of the buffers and what indexes into them. */
  predicate Shape(s: State) {
    && |s.rx| == RING && |s.tx| == TX_BYTES && s.txLength <= TX_BYTES
    && 0 < |s.arrived| == |s.got| == |s.submitted| == |s.written|
    && s.locals.connection < |s.arrived|
    && (s.task.Send? ==> s.locals.offset <= s.task.length <= TX_BYTES)
    && (s.loop.SubmitCopy? ==> |s.loop.data| <= TX_BYTES)
    && (s.loop.SubmitStore? ==> s.loop.size <= TX_BYTES)
  }

  /** The connection started last. */
  function Current(s: State): nat
    requires Shape(s)
  {
    |s.arrived| - 1
  }

  /** Adds to the record of connection `c`. */
  function Extend(logs: seq<seq<byte>>, c: nat, octets: seq<byte>): (r: seq<seq<byte>>)
    requires c < |logs|
    ensures |r| == |logs|
  {
    logs[c := logs[c] + octets]
  }

  // ---- Steps of the link task ----

  function ConnectStep(s: State, yes: bool): State
    requires Shape(s)
  {
    match s.task
    case Top => if s.stopping then s.(task := Exited) else if s.status == Opening then s.(task := LoadGeneration) else s
    case LoadGeneration => s.(task := Dial, locals := s.locals.(generation := s.generation))
    case Dial =>
      if s.cancel || !yes then s.(task := StopClient)
      else s.(task := CheckGeneration, locals := s.locals.(connection := Current(s), offset := 0))
    case CheckGeneration => s.(task := if s.locals.generation == s.generation then CheckCancel else GuardStopping)
    case CheckCancel => s.(task := if s.cancel then GuardStopping else Announce)
    case Announce => s.(task := GuardStopping, status := Connected)
    case GuardStopping => s.(task := if s.stopping then StopClient else GuardCancel)
    case GuardCancel => s.(task := if s.cancel then StopClient else GuardGeneration)
    case GuardGeneration => s.(task := if s.locals.generation == s.generation then LoadLength else StopClient)
    case _ => s
  }

  function SendStep(s: State, yes: bool, count: nat): State
    requires Shape(s)
  {
    match s.task
    case LoadLength => s.(task := if s.txLength > 0 then Send(s.txLength) else LoadHead)
    case Send(length) =>
      var left := length - s.locals.offset;
      var taken := if count <= left then count else left;
      if taken == 0 then s.(task := StopClient)
      else
        var offset := s.locals.offset;
        var t := s.(written := Extend(s.written, s.locals.connection, s.tx[offset..offset + taken]));
        if !yes then t.(task := StopClient)
        else if offset + taken == length then t.(task := SendDone, locals := s.locals.(offset := 0))
        else t.(task := LoadHead, locals := s.locals.(offset := offset + taken))
    case SendDone => s.(task := LoadHead, txLength := 0)
    case _ => s
  }

  function ReceiveStep(s: State, yes: bool, arriving: Option<byte>): State
    requires Shape(s)
  {
    match s.task
    case LoadHead => s.(task := LoadTail, locals := s.locals.(head := s.produced))
    case LoadTail =>
      s.(task := Receive, locals := s.locals.(tail := s.consumed, mark := |s.got[Current(s)]|, budget := BUDGET))
    case Receive =>
      var l := s.locals;
      if l.budget == 0 || (l.head - l.tail) % TWO_32 >= RING || arriving.None? then s.(task := Drained)
      else
        s.(task := Publish,
           rx := s.rx[l.head % RING := arriving.value],
           arrived := Extend(s.arrived, l.connection, [arriving.value]),
           locals := l.(head := (l.head + 1) % TWO_32, budget := l.budget - 1))
    case Publish => s.(task := Receive, produced := s.locals.head)
    case Drained => s.(task := if yes && s.produced == s.consumed then StopClient else GuardStopping)
    case _ => s
  }

  function EndStep(s: State): State
    requires Shape(s)
  {
    match s.task
    case StopClient => s.(task := Report, txLength := 0)
    case Report => s.(task := Settle(s.cancel))
    case Settle(cancelled) => s.(task := Top, status := if cancelled then Idle else Failed)
    case _ => s
  }

  // ---- Steps of the loop ----

  function ReadStep(s: State): State
    requires Shape(s)
  {
    match s.loop
    case ReadCancel(tail) => s.(loop := if s.cancel then Resting else ReadStatus(tail))
    case ReadStatus(tail) => s.(loop := if s.status == Connected then ReadProduced(tail) else Resting)
    case ReadProduced(tail) => s.(loop := if tail == s.produced then Resting else ReadCell(tail))
    case ReadCell(tail) => s.(loop := ReadDone(tail, s.rx[tail % RING]))
    case ReadDone(tail, value) =>
      s.(loop := Resting, consumed := (tail + 1) % TWO_32, got := Extend(s.got, Current(s), [value]))
    case _ => s
  }

  function StartStep(s: State, yes: bool): State
    requires Shape(s)
  {
    match s.loop
    case StartStopping => s.(loop := if s.stopping then Resting else StartProduced)
    case StartProduced =>
      s.(loop := StartConsumed, produced := 0,
         arrived := s.arrived + [[]], got := s.got + [[]], submitted := s.submitted + [[]], written := s.written + [[]])
    case StartConsumed => s.(loop := StartLength, consumed := 0)
    case StartLength => s.(loop := StartCancel, txLength := 0)
    case StartCancel => s.(loop := StartGeneration, cancel := false)
    case StartGeneration => s.(loop := StartStatus, generation := (s.generation + 1) % TWO_32)
    case StartStatus => s.(loop := StartTask, status := Opening)
    case StartTask =>
      if s.task != Absent then s.(loop := Resting)
      else if yes then s.(loop := Resting, task := Top)
      else s.(loop := Resting, status := Failed)
    case CloseCancel => s.(loop := Resting, cancel := true)
    case _ => s
  }

  function SubmitStep(s: State): State
    requires Shape(s)
  {
    match s.loop
    case SubmitStatus(data) => s.(loop := if s.status == Connected then SubmitBusy(data) else Resting)
    case SubmitBusy(data) =>
      s.(loop := if s.txLength != 0 || data == [] || |data| > TX_BYTES then Resting else SubmitCopy(data))
    case SubmitCopy(data) => s.(loop := SubmitStore(|data|), tx := data + s.tx[|data|..])
    case SubmitStore(size) =>
      s.(loop := Resting, txLength := size, submitted := Extend(s.submitted, Current(s), s.tx[..size]))
    case _ => s
  }

  /** The first operation of each call. */
  function CallStep(s: State, e: Event): State {
    match e
    case CallRead => s.(loop := ReadCancel(s.consumed))
    case CallStart => s.(loop := if s.status == Idle || s.status == Failed then StartStopping else Resting)
    case CallClose => s.(loop := CloseCancel, generation := (s.generation + 1) % TWO_32)
    case CallSubmit(data) => s.(loop := if s.cancel then Resting else SubmitStatus(data))
    case CallStop => s.(stopping := true)
    case _ => s
  }

  function Step(s: State, e: Event): State
    requires Shape(s)
  {
    match e
    case TaskStep(yes, count, arriving) =>
      if s.task.LoadLength? || s.task.Send? || s.task.SendDone? then SendStep(s, yes, count)
      else if s.task.LoadHead? || s.task.LoadTail? || s.task.Receive? || s.task.Publish? || s.task.Drained? then
        ReceiveStep(s, yes, arriving)
      else if s.task.StopClient? || s.task.Report? || s.task.Settle? then EndStep(s)
      else ConnectStep(s, yes)
    case LoopStep(yes) =>
      if Reading(s.loop) then ReadStep(s)
      else if Submitting(s.loop) then SubmitStep(s)
      else StartStep(s, yes)
    case _ => if s.loop == Resting then CallStep(s, e) else s
  }

  predicate Reading(l: LoopAt) { l.ReadCancel? || l.ReadStatus? || l.ReadProduced? || l.ReadCell? || l.ReadDone? }

  predicate Submitting(l: LoopAt) { l.SubmitStatus? || l.SubmitBusy? || l.SubmitCopy? || l.SubmitStore? }

  /** In the middle of `startLink`, past its checks. */
  predicate Starting(l: LoopAt) {
    || l.StartStopping? || l.StartProduced? || l.StartConsumed? || l.StartLength? || l.StartCancel? || l.StartGeneration?
    || l.StartStatus?
  }

  // ---- What every step keeps ----

  /** The task has taken up a request and not yet given it back. */
  predicate Busy(t: TaskAt) {
    !t.Absent? && !t.Exited? && !t.Top? && !t.LoadGeneration?
  }

  /** The task holds an open socket. */
  predicate Holding(t: TaskAt) {
    Busy(t) && !t.Dial? && !t.StopClient? && !t.Report? && !t.Settle?
  }

  /** The task has not yet announced the connection. */
  predicate Connecting(t: TaskAt) {
    t.LoadGeneration? || t.Dial? || t.CheckGeneration? || t.CheckCancel? || t.Announce?
  }

  /** A connection is started only while the task rests, and the task works only for the newest one. */
  predicate Handshake(s: State)
    requires Shape(s)
  {
    && (Busy(s.task) ==> s.status == Opening || s.status == Connected)
    && (Connecting(s.task) ==> s.status == Opening)
    && (s.task == Absent || s.task == Top ==> s.status != Connected)
    && (Starting(s.loop) ==> s.status == Idle || s.status == Failed)
    && (Holding(s.task) ==> s.locals.connection == Current(s))
  }

  /** How much of the current connection has been published to the reader. */
  function Published(s: State): int
    requires Shape(s)
  {
    |s.arrived[Current(s)]| - (if s.task.Publish? then 1 else 0)
  }

  function Taken(s: State): nat
    requires Shape(s)
  {
    |s.got[Current(s)]|
  }

  predicate Counters(s: State)
    requires Shape(s)
  {
    && s.produced == Published(s) % TWO_32
    && (if s.loop.StartConsumed? then Taken(s) == 0 else s.consumed == Taken(s) % TWO_32)
    && Taken(s) <= Published(s) && |s.arrived[Current(s)]| <= Taken(s) + RING
  }

  /** The ring holds what arrived and was not yet read, in order. */
  predicate Cells(s: State)
    requires Shape(s)
  {
    var c := Current(s);
    forall k :: |s.got[c]| <= k < |s.arrived[c]| ==> s.rx[k % RING] == s.arrived[c][k]
  }

  /** On every connection, what was read is the beginning of what arrived on that one, at most the ring behind it. */
  predicate InOrder(s: State)
    requires Shape(s)
  {
    forall c :: 0 <= c < |s.got| ==> s.got[c] <= s.arrived[c] && |s.arrived[c]| <= |s.got[c]| + RING
  }

  /** The task's possibly stale copies of the counters. */
  predicate Snapshot(s: State)
    requires Shape(s)
  {
    var l, n := s.locals, |s.arrived[Current(s)]|;
    && (s.task.LoadTail? ==> l.head == n % TWO_32)
    && (s.task.Receive? || s.task.Publish? ==>
          && l.head == n % TWO_32 && l.tail == l.mark % TWO_32
          && l.mark <= Taken(s) && n <= l.mark + RING)
  }

  /** What a read in progress has seen is still so. */
  predicate ReadView(s: State)
    requires Shape(s)
  {
    && (Reading(s.loop) ==> s.loop.tail == Taken(s) % TWO_32)
    && (s.loop.ReadCell? || s.loop.ReadDone? ==> Taken(s) < Published(s))
    && (s.loop.ReadDone? ==> s.loop.value == s.arrived[Current(s)][Taken(s)])
  }

  /** On every connection, what the socket took is the beginning of what was submitted for that one. */
  predicate SentInOrder(s: State)
    requires Shape(s)
  {
    forall c :: 0 <= c < |s.written| ==> s.written[c] <= s.submitted[c]
  }

  /** What is still to be sent stands in the transmit buffer. */
  predicate Transmit(s: State)
    requires Shape(s)
  {
    var w, u, o := s.written[Current(s)], s.submitted[Current(s)], s.locals.offset;
    && (s.loop.SubmitCopy? || s.loop.SubmitStore? ==> s.txLength == 0)
    && (s.loop.SubmitCopy? ==> s.loop.data != []) && (s.loop.SubmitStore? ==> s.loop.size > 0)
    && (s.task.Send? ==> s.txLength == s.task.length > 0)
    && (s.task.SendDone? ==> u == w && o == 0 && s.txLength > 0)
    && (Holding(s.task) && !s.task.SendDone? ==>
          if s.txLength == 0 then o == 0 && u == w
          else o < s.txLength && u == w + s.tx[o..s.txLength])
  }

  /** A connection begins with nothing to send. */
  predicate Fresh(s: State)
    requires Shape(s)
  {
    && (s.loop.StartConsumed? || s.loop.StartLength? || Cleared(s) ==>
          s.submitted[Current(s)] == [] && s.written[Current(s)] == [])
    && (Cleared(s) ==> s.txLength == 0)
    && (s.status == Opening ==> !s.loop.SubmitBusy? && !s.loop.SubmitCopy? && !s.loop.SubmitStore?)
  }

  predicate Cleared(s: State) {
    s.status == Opening || s.loop.StartCancel? || s.loop.StartGeneration? || s.loop.StartStatus?
  }

  predicate Ring(s: State)
    requires Shape(s)
  {
    Counters(s) && Cells(s) && InOrder(s) && Snapshot(s) && ReadView(s)
  }

  predicate Sending(s: State)
    requires Shape(s)
  {
    SentInOrder(s) && Transmit(s) && Fresh(s)
  }

  predicate Inv(s: State) {
    Shape(s) && Handshake(s) && Ring(s) && Sending(s)
  }

  // ---- Every step keeps it ----

  lemma Diff32(a: nat, b: nat)
    requires b <= a <= b + RING
    ensures (a % TWO_32 - b % TWO_32) % TWO_32 == a - b
  {}

  lemma Slot32(n: nat)
    ensures n % TWO_32 % RING == n % RING
  {}

  lemma SlotsApart(a: nat, b: nat)
    requires a < b < a + RING
    ensures a % RING != b % RING
  {}

  lemma Next32(n: nat)
    ensures (n % TWO_32 + 1) % TWO_32 == (n + 1) % TWO_32
  {}

  /** A step that leaves the ring, its counters and its users alone. */
  lemma RingFrame(s: State, t: State)
    requires Shape(s) && Shape(t) && Ring(s)
    requires t.produced == s.produced && t.consumed == s.consumed && t.rx == s.rx && t.arrived == s.arrived && t.got == s.got
    requires !s.task.Publish? && !t.task.LoadTail? && !t.task.Receive? && !t.task.Publish?
    requires !s.loop.StartConsumed? && !t.loop.StartConsumed? && !t.loop.ReadDone? && !t.loop.ReadCell?
    requires Reading(t.loop) ==> t.loop.tail == s.consumed
    ensures Ring(t)
  {}

  lemma TaskOnlyRingFrame(s: State, t: State)
    requires Shape(s) && Shape(t) && Ring(s)
    requires t.produced == s.produced && t.consumed == s.consumed && t.rx == s.rx && t.arrived == s.arrived && t.got == s.got
    requires !s.task.Publish? && !t.task.LoadTail? && !t.task.Receive? && !t.task.Publish?
    requires t.loop == s.loop
    ensures Ring(t)
  {}

  lemma LoopOnlyRingFrame(s: State, t: State)
    requires Shape(s) && Shape(t) && Ring(s)
    requires t.produced == s.produced && t.consumed == s.consumed && t.rx == s.rx && t.arrived == s.arrived && t.got == s.got
    requires t.task == s.task && t.locals == s.locals
    requires !s.loop.StartConsumed? && !t.loop.StartConsumed? && !t.loop.ReadDone? && !t.loop.ReadCell?
    requires Reading(t.loop) ==> t.loop.tail == s.consumed
    ensures Ring(t)
  {}

  /** A step that leaves what is to be sent alone. */
  lemma SendingFrame(s: State, t: State)
    requires Shape(s) && Shape(t) && Sending(s)
    requires t.txLength == s.txLength && t.tx == s.tx && |t.arrived| == |s.arrived|
    requires t.submitted == s.submitted && t.written == s.written
    requires Holding(t.task) ==> Holding(s.task) && t.locals.offset == s.locals.offset
    requires t.task.Send? || t.task.SendDone? || s.task.SendDone? ==> t.task == s.task
    requires t.loop.SubmitCopy? || t.loop.SubmitStore? ==> t.loop == s.loop
    requires t.loop.StartConsumed? || t.loop.StartLength? || Cleared(t) ==>
               s.loop.StartConsumed? || s.loop.StartLength? || Cleared(s)
    requires Cleared(t) ==> Cleared(s)
    requires t.status == Opening ==> !t.loop.SubmitBusy? && !t.loop.SubmitCopy? && !t.loop.SubmitStore?
    ensures Sending(t)
  {}

  lemma ConnectHandshake(s: State, yes: bool)
    requires Shape(s) && Handshake(s)
    ensures Shape(ConnectStep(s, yes)) && Handshake(ConnectStep(s, yes))
  {}

  lemma ConnectRing(s: State, yes: bool)
    requires Shape(s) && Shape(ConnectStep(s, yes)) && Ring(s)
    ensures Ring(ConnectStep(s, yes))
  {
    hide Ring, Shape;
    var t := ConnectStep(s, yes);
    if t != s {
      TaskOnlyRingFrame(s, t);
    }
  }

  lemma ConnectSending(s: State, yes: bool)
    requires Shape(s) && Shape(ConnectStep(s, yes)) && Handshake(s) && Sending(s)
    ensures Sending(ConnectStep(s, yes))
  {
    hide Sending, Shape, Handshake;
    var t := ConnectStep(s, yes);
    if s.task == Dial {
      DialSending(s, t);
    } else if t != s {
      OpeningUnsubmitted(s);
      SendingFrame(s, t);
    }
  }

  lemma OpeningUnsubmitted(s: State)
    requires Shape(s) && Sending(s)
    ensures s.status == Opening ==> !s.loop.SubmitBusy? && !s.loop.SubmitCopy? && !s.loop.SubmitStore?
  {}

  /** A connection just made has nothing to send. */
  lemma DialSending(s: State, t: State)
    requires Shape(s) && Shape(t) && Handshake(s) && Sending(s) && s.task == Dial
    requires t == s.(task := t.task, locals := t.locals)
    requires t.task == StopClient || (t.task == CheckGeneration && t.locals.offset == 0)
    ensures Sending(t)
  {}

  // Sending.

  lemma SendHandshake(s: State, yes: bool, count: nat)
    requires Shape(s) && Handshake(s) && Sending(s)
    ensures Shape(SendStep(s, yes, count)) && Handshake(SendStep(s, yes, count))
  {}

  lemma SendRing(s: State, yes: bool, count: nat)
    requires Shape(s) && Shape(SendStep(s, yes, count)) && Ring(s)
    ensures Ring(SendStep(s, yes, count))
  {
    hide Ring, Shape;
    var t := SendStep(s, yes, count);
    if t != s {
      TaskOnlyRingFrame(s, t);
    }
  }

  lemma SendSending(s: State, yes: bool, count: nat)
    requires Shape(s) && Shape(SendStep(s, yes, count)) && Handshake(s) && Sending(s)
    ensures Sending(SendStep(s, yes, count))
  {
    hide Sending, Handshake;
    var t := SendStep(s, yes, count);
    match s.task
    case LoadLength => LengthLoaded(s, t.task);
    case Send(length) =>
      var left := length - s.locals.offset;
      SendWritten(s, if count <= left then count else left, t);
    case SendDone => SendCleared(s);
    case _ =>
  }

  lemma LengthLoaded(s: State, at: TaskAt)
    requires Shape(s) && Sending(s) && s.task == LoadLength
    requires at == if s.txLength > 0 then Send(s.txLength) else LoadHead
    ensures Shape(s.(task := at)) && Sending(s.(task := at))
  {}

  lemma SendCleared(s: State)
    requires Shape(s) && Sending(s) && s.task == SendDone
    ensures Sending(s.(task := LoadHead, txLength := 0))
  {}

  /** What the socket takes is next in line. */
  lemma SendWritten(s: State, taken: int, t: State)
    requires Shape(s) && Shape(t) && Handshake(s) && Sending(s) && s.task.Send? && 0 <= taken <= s.task.length - s.locals.offset
    requires t == s.(task := t.task, locals := t.locals, written := t.written)
    requires var o, l := s.locals.offset, s.task.length;
             || (taken == 0 && t == s.(task := StopClient))
             || (t.written == Extend(s.written, s.locals.connection, s.tx[o..o + taken])
                 && (t.task == StopClient || (t.task == SendDone && o + taken == l && t.locals.offset == 0)
                     || (t.task == LoadHead && o + taken < l && t.locals.offset == o + taken)))
    ensures Sending(t)
  {
    var c, o, l := Current(s), s.locals.offset, s.task.length;
    var w := s.written[c];
    assert s.tx[o..l] == s.tx[o..o + taken] + s.tx[o + taken..l];
    assert s.submitted[c] == (w + s.tx[o..o + taken]) + s.tx[o + taken..l];
  }

  // Receiving.

  lemma ReceiveHandshake(s: State, yes: bool, arriving: Option<byte>)
    requires Shape(s) && Handshake(s)
    ensures Shape(ReceiveStep(s, yes, arriving)) && Handshake(ReceiveStep(s, yes, arriving))
  {}

  lemma ReceiveSending(s: State, yes: bool, arriving: Option<byte>)
    requires Shape(s) && Shape(ReceiveStep(s, yes, arriving)) && Handshake(s) && Sending(s)
    ensures Sending(ReceiveStep(s, yes, arriving))
  {
    hide Sending, Shape, Handshake;
    var t := ReceiveStep(s, yes, arriving);
    if t != s {
      OpeningUnsubmitted(s);
      SendingFrame(s, t);
    }
  }

  lemma ReceiveRing(s: State, yes: bool, arriving: Option<byte>)
    requires Shape(s) && Shape(ReceiveStep(s, yes, arriving)) && Handshake(s) && Ring(s)
    ensures Ring(ReceiveStep(s, yes, arriving))
  {
    hide Ring, Shape, Handshake;
    var t := ReceiveStep(s, yes, arriving);
    match s.task
    case LoadHead => LoadedHead(s);
    case LoadTail => LoadedTail(s);
    case Receive =>
      if t.task.Publish? {
        Received(s, arriving.value);
      } else {
        TaskOnlyRingFrame(s, t);
      }
    case Publish => Publishes(s);
    case Drained => TaskOnlyRingFrame(s, t);
    case _ =>
  }

  lemma LoadedHead(s: State)
    requires Shape(s) && Ring(s) && s.task == LoadHead
    ensures Ring(s.(task := LoadTail, locals := s.locals.(head := s.produced)))
  {}

  lemma LoadedTail(s: State)
    requires Shape(s) && Handshake(s) && Ring(s) && s.task == LoadTail
    ensures Ring(s.(task := Receive, locals := s.locals.(tail := s.consumed, mark := |s.got[Current(s)]|, budget := BUDGET)))
  {}

  function AfterReceive(s: State, b: byte): State
    requires Shape(s) && s.locals.budget > 0
  {
    s.(task := Publish,
       rx := s.rx[s.locals.head % RING := b],
       arrived := Extend(s.arrived, s.locals.connection, [b]),
       locals := s.locals.(head := (s.locals.head + 1) % TWO_32, budget := s.locals.budget - 1))
  }

  /** There is room, although the consumer may have moved on since its counter was loaded. */
  lemma Received(s: State, b: byte)
    requires Shape(s) && Handshake(s) && Ring(s) && s.task == Receive && s.locals.budget > 0
    requires (s.locals.head - s.locals.tail) % TWO_32 < RING && Shape(AfterReceive(s, b))
    ensures Ring(AfterReceive(s, b))
  {
    hide Cells;
    var n, l := |s.arrived[Current(s)]|, s.locals;
    Diff32(n, l.mark);
    Next32(n);
    ReceivedCells(s, b);
  }

  lemma ReceivedCells(s: State, b: byte)
    requires Shape(s) && Handshake(s) && Cells(s) && InOrder(s) && s.task == Receive && s.locals.budget > 0
    requires Shape(AfterReceive(s, b))
    requires var n := |s.arrived[Current(s)]|; s.locals.head == n % TWO_32 && n < Taken(s) + RING
    ensures Cells(AfterReceive(s, b))
  {
    var t, c := AfterReceive(s, b), Current(s);
    var n := |s.arrived[c]|;
    Slot32(n);
    forall k | |t.got[c]| <= k < |t.arrived[c]|
      ensures t.rx[k % RING] == t.arrived[c][k]
    {
      if k < n {
        SlotsApart(k, n);
        assert s.rx[k % RING] == s.arrived[c][k];
      }
    }
  }

  lemma Publishes(s: State)
    requires Shape(s) && Ring(s) && s.task == Publish
    ensures Ring(s.(task := Receive, produced := s.locals.head))
  {}

  // Closing.

  lemma EndHandshake(s: State)
    requires Shape(s) && Handshake(s)
    ensures Shape(EndStep(s)) && Handshake(EndStep(s))
  {}

  lemma EndRing(s: State)
    requires Shape(s) && Shape(EndStep(s)) && Ring(s)
    ensures Ring(EndStep(s))
  {
    hide Ring, Shape;
    if EndStep(s) != s {
      TaskOnlyRingFrame(s, EndStep(s));
    }
  }

  lemma EndSending(s: State)
    requires Shape(s) && Shape(EndStep(s)) && Sending(s)
    ensures Sending(EndStep(s))
  {}

  // Reading.

  lemma ReadHandshake(s: State)
    requires Shape(s) && Handshake(s)
    ensures Shape(ReadStep(s)) && Handshake(ReadStep(s))
  {}

  lemma ReadSending(s: State)
    requires Shape(s) && Shape(ReadStep(s)) && Sending(s)
    ensures Sending(ReadStep(s))
  {
    hide Sending, Shape;
    if ReadStep(s) != s {
      SendingFrame(s, ReadStep(s));
    }
  }

  lemma ReadRing(s: State)
    requires Shape(s) && Shape(ReadStep(s)) && Ring(s)
    ensures Ring(ReadStep(s))
  {
    hide Ring, Shape;
    if s.loop.ReadCell? {
      CellRead(s, s.loop.tail);
    } else if s.loop.ReadDone? {
      Consumed(s, s.loop.tail, s.loop.value);
    } else if s.loop.ReadProduced? {
      ProducedSeen(s, s.loop.tail);
    } else if Reading(s.loop) {
      TailIsConsumed(s);
      LoopOnlyRingFrame(s, ReadStep(s));
    }
  }

  lemma TailIsConsumed(s: State)
    requires Shape(s) && Ring(s) && Reading(s.loop)
    ensures s.loop.tail == s.consumed
  {}

  lemma ProducedSeen(s: State, tail: nat)
    requires Shape(s) && Ring(s) && s.loop == ReadProduced(tail)
    ensures Ring(s.(loop := if tail == s.produced then Resting else ReadCell(tail)))
  {}

  lemma CellRead(s: State, tail: nat)
    requires Shape(s) && Ring(s) && s.loop == ReadCell(tail)
    ensures Ring(s.(loop := ReadDone(tail, s.rx[tail % RING])))
  {
    Slot32(Taken(s));
    assert s.rx[Taken(s) % RING] == s.arrived[Current(s)][Taken(s)];
  }

  lemma Consumed(s: State, tail: nat, value: byte)
    requires Shape(s) && Ring(s) && s.loop == ReadDone(tail, value)
    ensures Ring(s.(loop := Resting, consumed := (tail + 1) % TWO_32, got := Extend(s.got, Current(s), [value])))
  {
    Next32(Taken(s));
  }

  // Starting and closing.

  lemma StartShape(s: State, yes: bool)
    requires Shape(s)
    ensures Shape(StartStep(s, yes))
  {}

  lemma StartHandshake(s: State, yes: bool)
    requires Shape(s) && Handshake(s)
    ensures Shape(StartStep(s, yes)) && Handshake(StartStep(s, yes))
  {
    StartShape(s, yes);
    hide Shape;
  }

  lemma StartRing(s: State, yes: bool)
    requires Shape(s) && Shape(StartStep(s, yes)) && Handshake(s) && Ring(s)
    ensures Ring(StartStep(s, yes))
  {
    hide Ring, Shape;
    var t := StartStep(s, yes);
    if s.loop.StartProduced? {
      ProducedCleared(s);
    } else if s.loop.StartConsumed? {
      ConsumedCleared(s);
    } else if s.loop.StartTask? && t.task != s.task {
      RingFrame(s, t);
    } else if t != s {
      LoopOnlyRingFrame(s, t);
    }
  }

  /** The task rests, so nothing of the older connection can be published on the new one. */
  lemma ProducedCleared(s: State)
    requires Shape(s) && Handshake(s) && Ring(s) && s.loop == StartProduced
    ensures var t := StartStep(s, true); Shape(t) && Ring(t)
  {}

  lemma ConsumedCleared(s: State)
    requires Shape(s) && Ring(s) && s.loop == StartConsumed
    ensures Ring(s.(loop := StartLength, consumed := 0))
  {}

  lemma StartSending(s: State, yes: bool)
    requires Shape(s) && Shape(StartStep(s, yes)) && Handshake(s) && Sending(s)
    ensures Sending(StartStep(s, yes))
  {
    hide Sending, Shape, Handshake;
    var t := StartStep(s, yes);
    if s.loop.StartProduced? {
      RecordsOpened(s);
    } else if s.loop.StartLength? {
      LengthCleared(s);
    } else if t != s {
      SendingFrame(s, t);
    }
  }

  lemma RecordsOpened(s: State)
    requires Shape(s) && Handshake(s) && Sending(s) && s.loop == StartProduced
    ensures var t := StartStep(s, true); Shape(t) && Sending(t)
  {
    hide Transmit;
    assert Transmit(StartStep(s, true)) by {
      NothingToTransmit(StartStep(s, true));
    }
  }

  lemma NothingToTransmit(t: State)
    requires Shape(t) && !Busy(t.task) && !Submitting(t.loop)
    ensures Transmit(t)
  {}

  lemma LengthCleared(s: State)
    requires Shape(s) && Handshake(s) && Sending(s) && s.loop == StartLength
    ensures Sending(s.(loop := StartCancel, txLength := 0))
  {
    hide Transmit;
    NothingToTransmit(s.(loop := StartCancel, txLength := 0));
  }

  // Submitting.

  lemma SubmitHandshake(s: State)
    requires Shape(s) && Handshake(s)
    ensures Shape(SubmitStep(s)) && Handshake(SubmitStep(s))
  {}

  lemma SubmitRing(s: State)
    requires Shape(s) && Shape(SubmitStep(s)) && Ring(s)
    ensures Ring(SubmitStep(s))
  {
    hide Ring, Shape;
    if SubmitStep(s) != s {
      LoopOnlyRingFrame(s, SubmitStep(s));
    }
  }

  lemma SubmitSending(s: State)
    requires Shape(s) && Shape(SubmitStep(s)) && Handshake(s) && Sending(s)
    ensures Sending(SubmitStep(s))
  {
    hide Sending, Shape, Handshake;
    var t := SubmitStep(s);
    if s.loop.SubmitStatus? {
      SubmitSeen(s);
    } else if s.loop.SubmitBusy? {
      BufferFree(s);
    } else if s.loop.SubmitCopy? {
      BufferFilled(s);
    } else if s.loop.SubmitStore? {
      Submitted(s);
    }
  }

  lemma SubmitSeen(s: State)
    requires Shape(s) && Sending(s) && s.loop.SubmitStatus?
    ensures Sending(SubmitStep(s))
  {}

  lemma BufferFree(s: State)
    requires Shape(s) && Sending(s) && s.loop.SubmitBusy?
    ensures Sending(SubmitStep(s))
  {}

  /** The buffer is filled only while the task sends nothing. */
  lemma BufferFilled(s: State)
    requires Shape(s) && Shape(SubmitStep(s)) && Sending(s) && s.loop.SubmitCopy?
    ensures Sending(SubmitStep(s))
  {}

  lemma Submitted(s: State)
    requires Shape(s) && Sending(s) && s.loop.SubmitStore?
    ensures Sending(SubmitStep(s))
  {}

  // Calls.

  lemma CallHandshake(s: State, e: Event)
    requires Shape(s) && Handshake(s) && s.loop == Resting
    ensures Shape(CallStep(s, e)) && Handshake(CallStep(s, e))
  {}

  lemma CallRing(s: State, e: Event)
    requires Shape(s) && Shape(CallStep(s, e)) && Ring(s) && s.loop == Resting
    ensures Ring(CallStep(s, e))
  {
    hide Ring, Shape;
    if CallStep(s, e) != s {
      LoopOnlyRingFrame(s, CallStep(s, e));
    }
  }

  lemma CallSending(s: State, e: Event)
    requires Shape(s) && Shape(CallStep(s, e)) && Sending(s) && s.loop == Resting
    ensures Sending(CallStep(s, e))
  {
    hide Sending, Shape;
    if CallStep(s, e) != s {
      SendingFrame(s, CallStep(s, e));
    }
  }

  lemma StepKeeps(s: State, e: Event)
    requires Inv(s)
    ensures Inv(Step(s, e))
  {
    hide Shape, Handshake, Ring, Sending, ConnectStep, SendStep, ReceiveStep, EndStep, ReadStep, StartStep, SubmitStep, CallStep;
    match e
    case TaskStep(yes, count, arriving) =>
      SendHandshake(s, yes, count);
      SendRing(s, yes, count);
      SendSending(s, yes, count);
      ReceiveHandshake(s, yes, arriving);
      ReceiveRing(s, yes, arriving);
      ReceiveSending(s, yes, arriving);
      EndHandshake(s);
      EndRing(s);
      EndSending(s);
      ConnectHandshake(s, yes);
      ConnectRing(s, yes);
      ConnectSending(s, yes);
    case LoopStep(yes) =>
      ReadHandshake(s);
      ReadRing(s);
      ReadSending(s);
      SubmitHandshake(s);
      SubmitRing(s);
      SubmitSending(s);
      StartHandshake(s, yes);
      StartRing(s, yes);
      StartSending(s, yes);
    case _ =>
      if s.loop == Resting {
        CallHandshake(s, e);
        CallRing(s, e);
        CallSending(s, e);
      }
  }

  // ---- Runs ----

  /** Any interleaving of the two tasks. */
  function Run(events: seq<Event>): (s: State)
    ensures Inv(s)
  {
    if events == [] then
      Initially();
      Initial()
    else
      var s := Run(events[..|events| - 1]);
      StepKeeps(s, events[|events| - 1]);
      Step(s, events[|events| - 1])
  }

  /** What has arrived on the current connection and was not yet read. */
  function Queue(s: State): seq<byte>
    requires Inv(s)
  {
    s.arrived[Current(s)][Taken(s)..]
  }

  /**
   In every run each connection's reads are a beginning of what arrived on that
   connection, never more than the ring behind it, and its socket took a beginning of
   what was submitted for it.
   */
  lemma ConnectionsApart(events: seq<Event>)
    ensures var s := Run(events);
            forall c :: 0 <= c < |s.got| ==>
              && s.got[c] <= s.arrived[c] && |s.arrived[c]| <= |s.got[c]| + RING
              && s.written[c] <= s.submitted[c]
  {
    hide Cells, Snapshot, ReadView, Transmit, Fresh, Handshake;
    var s := Run(events);
    assert Inv(s);
  }

  /** The records of connection `c` are the same. */
  predicate SameRecords(s: State, t: State, c: nat) {
    && c < |s.arrived| && c < |t.arrived| && t.arrived[c] == s.arrived[c]
    && c < |s.got| && c < |t.got| && t.got[c] == s.got[c]
    && c < |s.submitted| && c < |t.submitted| && t.submitted[c] == s.submitted[c]
    && c < |s.written| && c < |t.written| && t.written[c] == s.written[c]
  }

  /** All records are the same. */
  predicate Quiet(s: State, t: State) {
    t.arrived == s.arrived && t.got == s.got && t.submitted == s.submitted && t.written == s.written
  }

  lemma ConnectQuiet(s: State, yes: bool)
    requires Shape(s)
    ensures Quiet(s, ConnectStep(s, yes)) && Quiet(s, EndStep(s))
  {}

  lemma CallQuiet(s: State, e: Event)
    ensures Quiet(s, CallStep(s, e)) && Quiet(s, s)
  {}

  lemma SendPast(s: State, yes: bool, count: nat, c: nat)
    requires Shape(s) && Handshake(s) && c < Current(s)
    ensures SameRecords(s, SendStep(s, yes, count), c)
  {}

  lemma ReceivePast(s: State, yes: bool, arriving: Option<byte>, c: nat)
    requires Shape(s) && Handshake(s) && c < Current(s)
    ensures SameRecords(s, ReceiveStep(s, yes, arriving), c)
  {}

  lemma LoopPast(s: State, yes: bool, c: nat)
    requires Shape(s) && c < Current(s)
    ensures SameRecords(s, ReadStep(s), c) && SameRecords(s, StartStep(s, yes), c) && SameRecords(s, SubmitStep(s), c)
  {}

  /** Nothing more happens on a connection once a newer one was started. */
  lemma PastSettled(s: State, e: Event, c: nat)
    requires Inv(s) && c < Current(s)
    ensures SameRecords(s, Step(s, e), c)
  {
    hide Handshake, Ring, Sending, ConnectStep, SendStep, ReceiveStep, EndStep, ReadStep, StartStep, SubmitStep, CallStep;
    match e
    case TaskStep(yes, count, arriving) =>
      SendPast(s, yes, count, c);
      ReceivePast(s, yes, arriving, c);
      ConnectQuiet(s, yes);
    case LoopStep(yes) => LoopPast(s, yes, c);
    case _ => CallQuiet(s, e);
  }

  /** How a step may change the queue: `q` before, `r` after. */
  predicate Moves(s: State, arriving: Option<byte>, q: seq<byte>, r: seq<byte>) {
    || r == q
    || (|q| < RING && arriving.Some? && r == q + [arriving.value])
    || (q != [] && s.loop.ReadDone? && s.loop.value == q[0] && r == q[1..])
    || (s.loop == StartProduced && r == [])
  }

  lemma ReceiveMoves(s: State, yes: bool, arriving: Option<byte>)
    requires Inv(s) && Inv(ReceiveStep(s, yes, arriving))
    ensures Moves(s, arriving, Queue(s), Queue(ReceiveStep(s, yes, arriving)))
  {
    hide Cells, InOrder, ReadView, Sending;
    var t := ReceiveStep(s, yes, arriving);
    if t.task.Publish? && s.task.Receive? {
      var q, b := Queue(s), arriving.value;
      assert Queue(t) == q + [b];
    } else {
      assert Queue(t) == Queue(s);
    }
  }

  lemma ReadMoves(s: State)
    requires Inv(s) && Inv(ReadStep(s))
    ensures Moves(s, None, Queue(s), Queue(ReadStep(s)))
  {
    hide Cells, InOrder, Snapshot, Sending, Handshake;
  }

  lemma StartMoves(s: State, yes: bool)
    requires Inv(s) && Inv(StartStep(s, yes))
    ensures Moves(s, None, Queue(s), Queue(StartStep(s, yes)))
  {
    hide Ring, Sending, Handshake;
  }

  lemma QuietMoves(s: State, t: State)
    requires Inv(s) && Inv(t) && Quiet(s, t)
    ensures forall arriving :: Moves(s, arriving, Queue(s), Queue(t))
  {
    hide Ring, Sending, Handshake;
  }

  lemma SendQuiet(s: State, yes: bool, count: nat)
    requires Inv(s) && Inv(SendStep(s, yes, count))
    ensures forall arriving :: Moves(s, arriving, Queue(s), Queue(SendStep(s, yes, count)))
  {
    hide Ring, Sending, Handshake;
  }

  lemma TaskMoves(s: State, yes: bool, count: nat, arriving: Option<byte>)
    requires Inv(s) && Inv(Step(s, TaskStep(yes, count, arriving)))
    ensures Moves(s, arriving, Queue(s), Queue(Step(s, TaskStep(yes, count, arriving))))
  {
    hide Handshake, Ring, Sending, ConnectStep, SendStep, ReceiveStep, EndStep, Moves, Queue, Quiet;
    var t := Step(s, TaskStep(yes, count, arriving));
    ConnectQuiet(s, yes);
    if s.task.LoadLength? || s.task.Send? || s.task.SendDone? {
      SendQuiet(s, yes, count);
    } else if s.task.LoadHead? || s.task.LoadTail? || s.task.Receive? || s.task.Publish? || s.task.Drained? {
      ReceiveMoves(s, yes, arriving);
    } else {
      QuietMoves(s, t);
    }
  }

  lemma LoopMoves(s: State, yes: bool)
    requires Inv(s) && Inv(Step(s, LoopStep(yes)))
    ensures Moves(s, None, Queue(s), Queue(Step(s, LoopStep(yes))))
  {
    hide Handshake, Ring, Sending, ReadStep, StartStep, Moves, Queue;
    if Reading(s.loop) {
      ReadMoves(s);
    } else if Submitting(s.loop) {
      SubmitMoves(s);
    } else {
      StartMoves(s, yes);
    }
  }

  lemma SubmitMoves(s: State)
    requires Inv(s) && Inv(SubmitStep(s))
    ensures Moves(s, None, Queue(s), Queue(SubmitStep(s)))
  {
    hide Ring, Sending, Handshake;
  }

  /**
   Each step leaves the queue, adds the arriving octet behind, takes the one a read
   returns from its front, or empties it for a new connection.
   */
  lemma FifoStep(s: State, e: Event)
    requires Inv(s)
    ensures Inv(Step(s, e)) && Moves(s, if e.TaskStep? then e.arriving else None, Queue(s), Queue(Step(s, e)))
  {
    StepKeeps(s, e);
    hide Handshake, Ring, Sending, CallStep, Moves, Queue, Quiet;
    match e
    case TaskStep(yes, count, arriving) => TaskMoves(s, yes, count, arriving);
    case LoopStep(yes) => LoopMoves(s, yes);
    case _ =>
      CallQuiet(s, e);
      QuietMoves(s, Step(s, e));
  }

  /** `available` counts exactly the published octets not yet read, even when the counters have wrapped. */
  lemma AvailableCounts(s: State)
    requires Inv(s) && s.loop == Resting
    ensures (s.produced - s.consumed) % TWO_32 == Published(s) - Taken(s) <= RING
  {
    Diff32(Published(s), Taken(s));
  }

  /** The task reports a peer's orderly close only once everything that arrived has been read. */
  lemma PeerCloseDrained(s: State, count: nat, arriving: Option<byte>)
    requires Inv(s) && s.task == Drained
    requires Step(s, TaskStep(true, count, arriving)).task == StopClient
    ensures Queue(s) == []
  {
    Diff32(Published(s), Taken(s));
  }

  lemma Initially()
    ensures Inv(Initial())
  {}
}
