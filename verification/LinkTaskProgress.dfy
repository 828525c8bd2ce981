/**
 What the calls of the ESP32 link achieve: a start connects, a read and a submission
 take effect, and a close brings the task to rest in a bounded number of its steps.
 */
module LinkTaskProgress {
  import opened Bytes
  import opened Options
  import opened LinkTask

  /** `n` steps of the loop, with the task created when it must be. */
  function LoopRuns(s: State, n: nat): (t: State)
    requires Inv(s)
    ensures Inv(t)
    decreases n
  {
    if n == 0 then s
    else
      StepKeeps(s, LoopStep(true));
      LoopRuns(Step(s, LoopStep(true)), n - 1)
  }

  /** One call, from its first operation to its end, with no step of the task in between. */
  function Called(s: State, e: Event, n: nat): (t: State)
    requires Inv(s)
    ensures Inv(t)
  {
    StepKeeps(s, e);
    LoopRuns(Step(s, e), n)
  }

  lemma InvShape(s: State)
    requires Inv(s)
    ensures Shape(s)
  {}

  lemma LoopRunsMore(s: State, n: nat)
    requires Inv(s) && n > 0
    ensures Shape(s) && Inv(Step(s, LoopStep(true))) && Shape(Step(s, LoopStep(true)))
    ensures LoopRuns(s, n) == LoopRuns(Step(s, LoopStep(true)), n - 1)
  {
    hide Inv, Step;
    InvShape(s);
    StepKeeps(s, LoopStep(true));
    InvShape(Step(s, LoopStep(true)));
  }

  /** A loop at rest stays there. */
  lemma {:induction false} RestingStays(s: State, n: nat)
    requires Inv(s) && s.loop == Resting
    ensures LoopRuns(s, n) == s
  {
    if n > 0 {
      StepKeeps(s, LoopStep(true));
      assert Step(s, LoopStep(true)) == s;
      RestingStays(s, n - 1);
    }
  }

  lemma CallBegins(s: State, e: Event, n: nat)
    requires Inv(s)
    ensures Shape(s) && Inv(Step(s, e)) && Shape(Step(s, e)) && Called(s, e, n) == LoopRuns(Step(s, e), n)
  {
    hide Inv, Step;
    InvShape(s);
    StepKeeps(s, e);
    InvShape(Step(s, e));
  }

  /** A read of an open connection returns the oldest published octet; otherwise it changes nothing. */
  lemma ReadTakes(s: State)
    requires Inv(s) && s.loop == Resting
    ensures Shape(s)
    ensures var t := Called(s, CallRead, 5);
            if !s.cancel && s.status == Connected && s.produced != s.consumed then
              && Queue(s) != []
              && t == s.(consumed := (s.consumed + 1) % TWO_32, got := Extend(s.got, Current(s), [Queue(s)[0]]))
            else t == s
  {
    hide Inv, Shape, Queue, LoopRuns, Called, Extend;
    CallBegins(s, CallRead, 5);
    var s1 := Step(s, CallRead);
    assert s1 == s.(loop := ReadCancel(s.consumed));
    LoopRunsMore(s1, 5);
    var s2 := Step(s1, LoopStep(true));
    if s.cancel {
      RestingStays(s2, 4);
      return;
    }
    assert s2 == s.(loop := ReadStatus(s.consumed));
    LoopRunsMore(s2, 4);
    var s3 := Step(s2, LoopStep(true));
    if s.status != Connected {
      RestingStays(s3, 3);
      return;
    }
    LoopRunsMore(s3, 3);
    var s4 := Step(s3, LoopStep(true));
    if s.produced == s.consumed {
      RestingStays(s4, 2);
      return;
    }
    LoopRunsMore(s4, 2);
    var s5 := Step(s4, LoopStep(true));
    assert s5 == s.(loop := ReadDone(s.consumed, s.rx[s.consumed % RING])) by {
      ShapeRing(s);
    }
    LoopRunsMore(s5, 1);
    RestingStays(Step(s5, LoopStep(true)), 0);
    OldestCell(s);
  }

  lemma ShapeRing(s: State)
    requires Shape(s)
    ensures |s.rx| == RING
  {}

  lemma OldestCell(s: State)
    requires Inv(s) && s.loop == Resting && s.produced != s.consumed
    ensures Queue(s) != [] && s.rx[s.consumed % RING] == Queue(s)[0]
  {
    Slot32(Taken(s));
  }

  /** A submission to an open connection with an empty buffer is taken over whole; otherwise nothing changes. */
  lemma SubmitTakes(s: State, data: seq<byte>)
    requires Inv(s) && s.loop == Resting
    ensures Shape(s)
    ensures var t := Called(s, CallSubmit(data), 4);
            if !s.cancel && s.status == Connected && s.txLength == 0 && 0 < |data| <= 526 then
              && t.txLength == |data| && t.tx[..|data|] == data && t.submitted == Extend(s.submitted, Current(s), data)
              && t == s.(txLength := t.txLength, tx := t.tx, submitted := t.submitted)
            else t == s
  {
    hide Inv, Shape, LoopRuns, Called, Extend, ConnectStep, SendStep, ReceiveStep, EndStep, ReadStep, StartStep;
    CallBegins(s, CallSubmit(data), 4);
    var s1 := Step(s, CallSubmit(data));
    if s.cancel {
      RestingStays(s1, 4);
      return;
    }
    assert s1 == s.(loop := SubmitStatus(data));
    LoopRunsMore(s1, 4);
    var s2 := Step(s1, LoopStep(true));
    if s.status != Connected {
      RestingStays(s2, 3);
      return;
    }
    assert s2 == s.(loop := SubmitBusy(data));
    LoopRunsMore(s2, 3);
    var s3 := Step(s2, LoopStep(true));
    if s.txLength != 0 || data == [] || |data| > 526 {
      RestingStays(s3, 2);
      return;
    }
    assert s3 == s.(loop := SubmitCopy(data));
    SubmitStores(s3, data);
  }

  lemma SubmitStores(s: State, data: seq<byte>)
    requires Inv(s) && s.loop == SubmitCopy(data)
    ensures |data| <= |s.tx| && Shape(s)
    ensures LoopRuns(s, 2) == s.(loop := Resting, tx := data + s.tx[|data|..], txLength := |data|,
                                 submitted := Extend(s.submitted, Current(s), data))
  {
    hide Inv, Shape, Step, LoopRuns, Extend;
    LoopRunsMore(s, 2);
    BufferCopied(s, data);
    var t := Step(s, LoopStep(true));
    LoopRunsMore(t, 1);
    RestingStays(Step(t, LoopStep(true)), 0);
  }

  lemma BufferCopied(s: State, data: seq<byte>)
    requires Shape(s) && s.loop == SubmitCopy(data) && Shape(Step(s, LoopStep(true)))
    ensures |data| <= |s.tx|
    ensures var t := Step(s, LoopStep(true));
            && t == s.(loop := SubmitStore(|data|), tx := data + s.tx[|data|..])
            && Step(t, LoopStep(true)) == s.(loop := Resting, tx := data + s.tx[|data|..], txLength := |data|,
                                             submitted := Extend(s.submitted, Current(s), data))
  {
    hide Extend, ConnectStep, SendStep, ReceiveStep, EndStep, ReadStep, StartStep;
    assert (data + s.tx[|data|..])[..|data|] == data;
  }

  /** What a start leaves: an emptied ring and buffer for a new connection that the task may take up. */
  function Started(s: State): State {
    s.(status := Opening, cancel := false, generation := (s.generation + 1) % TWO_32,
       produced := 0, consumed := 0, txLength := 0, task := if s.task == Absent then Top else s.task,
       arrived := s.arrived + [[]], got := s.got + [[]], submitted := s.submitted + [[]], written := s.written + [[]])
  }

  /** A start from rest opens a new connection, unless the link is to stop; otherwise it changes nothing. */
  lemma StartOpens(s: State)
    requires Inv(s) && s.loop == Resting
    ensures Called(s, CallStart, 8) == if s.status in {Idle, Failed} && !s.stopping then Started(s) else s
  {
    hide Inv, Shape, LoopRuns, Called, ConnectStep, SendStep, ReceiveStep, EndStep, ReadStep, SubmitStep;
    CallBegins(s, CallStart, 8);
    var s1 := Step(s, CallStart);
    if s.status !in {Idle, Failed} {
      RestingStays(s1, 8);
      return;
    }
    assert s1 == s.(loop := StartStopping);
    LoopRunsMore(s1, 8);
    var s2 := Step(s1, LoopStep(true));
    if s.stopping {
      RestingStays(s2, 7);
      return;
    }
    assert s2 == s.(loop := StartProduced);
    LoopRunsMore(s2, 7);
    var s3 := Step(s2, LoopStep(true));
    LoopRunsMore(s3, 6);
    var s4 := Step(s3, LoopStep(true));
    assert s4 == Started(s).(loop := StartLength, task := s.task, status := s.status, cancel := s.cancel,
                             generation := s.generation, txLength := s.txLength);
    StartEnds(s, s4);
  }

  lemma StartEnds(s: State, s4: State)
    requires Inv(s) && Inv(s4) && s.loop == Resting
    requires s4 == Started(s).(loop := StartLength, task := s.task, status := s.status, cancel := s.cancel,
                               generation := s.generation, txLength := s.txLength)
    ensures LoopRuns(s4, 5) == Started(s)
  {
    hide Inv, Shape, LoopRuns, Called, ConnectStep, SendStep, ReceiveStep, EndStep, ReadStep, SubmitStep;
    LoopRunsMore(s4, 5);
    var s5 := Step(s4, LoopStep(true));
    assert s5 == s4.(loop := StartCancel, txLength := 0);
    LoopRunsMore(s5, 4);
    var s6 := Step(s5, LoopStep(true));
    assert s6 == s5.(loop := StartGeneration, cancel := false);
    LoopRunsMore(s6, 3);
    var s7 := Step(s6, LoopStep(true));
    assert s7 == s6.(loop := StartStatus, generation := (s6.generation + 1) % TWO_32);
    StartHandsOver(s7);
  }

  lemma StartHandsOver(s: State)
    requires Inv(s) && s.loop == StartStatus
    ensures LoopRuns(s, 2) == s.(loop := Resting, status := Opening, task := if s.task == Absent then Top else s.task)
  {
    hide Inv, Shape, LoopRuns, Called, ConnectStep, SendStep, ReceiveStep, EndStep, ReadStep, SubmitStep;
    LoopRunsMore(s, 2);
    var t := Step(s, LoopStep(true));
    assert t == s.(loop := StartTask, status := Opening);
    LoopRunsMore(t, 1);
    RestingStays(Step(t, LoopStep(true)), 0);
  }

  /** A close withdraws the generation and cancels; the link is then told so. */
  lemma CloseCancels(s: State)
    requires Inv(s) && s.loop == Resting
    ensures Called(s, CallClose, 1) == s.(cancel := true, generation := (s.generation + 1) % TWO_32)
    ensures Called(s, CallStop, 0) == s.(stopping := true)
  {
    hide Inv, Shape, LoopRuns, Called;
    CallBegins(s, CallClose, 1);
    var s1 := Step(s, CallClose);
    LoopRunsMore(s1, 1);
    RestingStays(Step(s1, LoopStep(true)), 0);
    CallBegins(s, CallStop, 0);
    RestingStays(Step(s, CallStop), 0);
  }

  // ---- The task ----

  /** What the task meets at a step: whether the operation works, what the socket takes and what arrives. */
  datatype Weather = Weather(yes: bool, count: nat, arriving: Option<byte>)

  function TaskRuns(s: State, ws: seq<Weather>): (t: State)
    requires Inv(s)
    ensures Inv(t)
    decreases |ws|
  {
    if ws == [] then s
    else
      var e := TaskStep(ws[0].yes, ws[0].count, ws[0].arriving);
      StepKeeps(s, e);
      TaskRuns(Step(s, e), ws[1..])
  }

  lemma TaskRunsMore(s: State, ws: seq<Weather>)
    requires Inv(s) && ws != []
    ensures var t := Step(s, TaskStep(ws[0].yes, ws[0].count, ws[0].arriving));
            Shape(s) && Inv(t) && Shape(t) && TaskRuns(s, ws) == TaskRuns(t, ws[1..])
  {
    hide Inv, Step;
    InvShape(s);
    var e := TaskStep(ws[0].yes, ws[0].count, ws[0].arriving);
    StepKeeps(s, e);
    InvShape(Step(s, e));
  }

  lemma TaskRunsNone(s: State, ws: seq<Weather>)
    requires Inv(s) && ws == []
    ensures TaskRuns(s, ws) == s
  {}

  /** Left alone, the task connects a request that nobody withdraws, in six steps. */
  lemma TaskConnects(s: State, ws: seq<Weather>)
    requires Inv(s) && s.task == Top && s.status == Opening && !s.cancel && !s.stopping
    requires |ws| == 6 && forall i :: 0 <= i < 6 ==> ws[i].yes
    ensures Shape(s)
    ensures var t := TaskRuns(s, ws);
            && t.status == Connected && t.task == GuardStopping
            && t.locals.connection == Current(s) && t.locals.generation == s.generation
            && t.arrived == s.arrived && t.written == s.written
  {
    hide Inv, Shape, TaskRuns, SendStep, ReceiveStep, EndStep;
    TaskRunsMore(s, ws);
    var s1 := TaskStepped(s, ws[0]);
    TaskRunsMore(s1, ws[1..]);
    var s2 := TaskStepped(s1, ws[1]);
    TaskRunsMore(s2, ws[2..]);
    var s3 := TaskStepped(s2, ws[2]);
    TaskRunsMore(s3, ws[3..]);
    var s4 := TaskStepped(s3, ws[3]);
    TaskRunsMore(s4, ws[4..]);
    var s5 := TaskStepped(s4, ws[4]);
    TaskRunsMore(s5, ws[5..]);
    TaskRunsNone(TaskStepped(s5, ws[5]), ws[6..]);
  }

  function TaskStepped(s: State, w: Weather): State
    requires Shape(s)
  {
    Step(s, TaskStep(w.yes, w.count, w.arriving))
  }

  /** From the first state on: a start and six steps of the task, and the link is connected. */
  lemma FirstConnection(ws: seq<Weather>)
    requires |ws| == 6 && forall i :: 0 <= i < 6 ==> ws[i].yes
    ensures Inv(Initial()) && TaskRuns(Called(Initial(), CallStart, 8), ws).status == Connected
  {
    hide Inv, TaskRuns, Called;
    Initially();
    StartOpens(Initial());
    TaskConnects(Called(Initial(), CallStart, 8), ws);
  }

  /** While its request stands the task goes on serving it; one that was withdrawn it gives up. */
  lemma GuardServesIff(s: State, ws: seq<Weather>)
    requires Inv(s) && s.task == GuardStopping && |ws| == 3
    ensures var t := TaskRuns(s, ws);
            if s.stopping || s.cancel || s.locals.generation != s.generation then t.task in {StopClient, Report, Settle(s.cancel)}
            else t == s.(task := LoadLength)
  {
    hide Inv, Shape, TaskRuns, SendStep, ReceiveStep;
    TaskRunsMore(s, ws);
    var s1 := TaskStepped(s, ws[0]);
    TaskRunsMore(s1, ws[1..]);
    var s2 := TaskStepped(s1, ws[1]);
    TaskRunsMore(s2, ws[2..]);
    TaskRunsNone(TaskStepped(s2, ws[2]), ws[3..]);
  }

  /** A cancelled request is not dialled, and one whose dialling fails is not announced: the task reports it and rests. */
  lemma NotDialled(s: State, ws: seq<Weather>)
    requires Inv(s) && s.task == Dial && |ws| == 4 && (s.cancel || !ws[0].yes)
    ensures TaskRuns(s, ws) == s.(task := Top, txLength := 0, status := if s.cancel then Idle else Failed)
  {
    hide Inv, Shape, TaskRuns, SendStep, ReceiveStep;
    TaskRunsMore(s, ws);
    var s1 := TaskStepped(s, ws[0]);
    assert s1 == s.(task := StopClient);
    TaskRunsMore(s1, ws[1..]);
    var s2 := TaskStepped(s1, ws[1]);
    TaskRunsMore(s2, ws[2..]);
    var s3 := TaskStepped(s2, ws[2]);
    TaskRunsMore(s3, ws[3..]);
    TaskRunsNone(TaskStepped(s3, ws[3]), ws[4..]);
  }

  /** A connection whose generation was withdrawn while dialling, or that was cancelled, is never announced. */
  lemma StaleNotAnnounced(s: State, ws: seq<Weather>)
    requires Inv(s) && s.task == CheckGeneration && |ws| == 2 && (s.cancel || s.locals.generation != s.generation)
    ensures var t := TaskRuns(s, ws);
            t.status == Opening && t.task in {GuardStopping, GuardCancel, StopClient}
  {
    hide Inv, Shape, TaskRuns, SendStep, ReceiveStep, EndStep;
    assert s.status == Opening by {
      OpeningUntilAnnounced(s);
    }
    TaskRunsMore(s, ws);
    var s1 := TaskStepped(s, ws[0]);
    TaskRunsMore(s1, ws[1..]);
    TaskRunsNone(TaskStepped(s1, ws[1]), ws[2..]);
  }

  lemma OpeningUntilAnnounced(s: State)
    requires Inv(s) && Connecting(s.task)
    ensures s.status == Opening
  {}

  /** The largest number of steps the task still makes before it rests, once cancelled. */
  function Rank(s: State): nat {
    match s.task
    case LoadGeneration => 12
    case Dial => 11
    case CheckGeneration => 10
    case CheckCancel => 9
    case Announce => 8
    case GuardStopping => 7
    case GuardCancel => 6
    case GuardGeneration => 20 + 2 * BUDGET
    case LoadLength => 19 + 2 * BUDGET
    case Send(_) => 18 + 2 * BUDGET
    case SendDone => 17 + 2 * BUDGET
    case LoadHead => 16 + 2 * BUDGET
    case LoadTail => 15 + 2 * BUDGET
    case Receive => 9 + 2 * s.locals.budget
    case Publish => 10 + 2 * s.locals.budget
    case Drained => 8
    case StopClient => 3
    case Report => 2
    case Settle(_) => 1
    case _ => 0
  }

  /** `t` is one step closer to rest than `s`. */
  predicate Closer(s: State, t: State) {
    && Rank(t) < Rank(s) && t.cancel && t.locals.budget <= BUDGET
    && (Busy(t.task) || (t.task == Top && t.status == if s.task == Settle(false) then Failed else Idle))
  }

  lemma ConnectWinds(s: State, yes: bool)
    requires Shape(s) && s.cancel && s.locals.budget <= BUDGET
    requires s.task in {Dial, CheckGeneration, CheckCancel, Announce, GuardStopping, GuardCancel, GuardGeneration}
    ensures Closer(s, ConnectStep(s, yes))
  {}

  lemma SendWinds(s: State, yes: bool, count: nat)
    requires Shape(s) && s.cancel && s.locals.budget <= BUDGET
    requires s.task.LoadLength? || s.task.Send? || s.task.SendDone?
    ensures Closer(s, SendStep(s, yes, count))
  {}

  lemma ReceiveWinds(s: State, yes: bool, arriving: Option<byte>)
    requires Shape(s) && s.cancel && s.locals.budget <= BUDGET
    requires s.task in {LoadHead, LoadTail, Receive, Publish, Drained}
    ensures Closer(s, ReceiveStep(s, yes, arriving))
  {}

  lemma EndWinds(s: State)
    requires Shape(s) && s.cancel && s.locals.budget <= BUDGET && (s.task in {StopClient, Report} || s.task.Settle?)
    ensures Closer(s, EndStep(s))
  {}

  /** A cancelled task comes one step closer to rest with each step it makes. */
  lemma CancelledWinds(s: State, w: Weather)
    requires Shape(s) && s.cancel && Busy(s.task) && s.locals.budget <= BUDGET
    ensures Closer(s, TaskStepped(s, w))
  {
    hide Shape, Closer, ConnectStep, SendStep, ReceiveStep, EndStep;
    if s.task.LoadLength? || s.task.Send? || s.task.SendDone? {
      SendWinds(s, w.yes, w.count);
    } else if s.task in {LoadHead, LoadTail, Receive, Publish, Drained} {
      ReceiveWinds(s, w.yes, w.arriving);
    } else if s.task.StopClient? || s.task.Report? || s.task.Settle? {
      EndWinds(s);
    } else {
      ConnectWinds(s, w.yes);
    }
  }

  /**
   A close is effective: once cancelled, and not before it has reported otherwise, the
   task is back at rest and idle after at most `Rank` of its steps, whatever the socket does.
   */
  lemma {:induction false} CancelledStops(s: State, ws: seq<Weather>)
    requires Inv(s) && s.cancel && Busy(s.task) && s.task != Settle(false) && s.locals.budget <= BUDGET
    requires |ws| >= Rank(s)
    ensures exists n: nat :: n <= Rank(s) && TaskRuns(s, ws[..n]).task == Top && TaskRuns(s, ws[..n]).status == Idle
    decreases Rank(s)
  {
    hide Inv, Shape, Step;
    TaskRunsMore(s, ws);
    var t := TaskStepped(s, ws[0]);
    CancelledWinds(s, ws[0]);
    CancelReported(s, ws[0]);
    if t.task == Top {
      TaskRunsMore(s, ws[..1]);
      TaskRunsNone(t, ws[..1][1..]);
      assert TaskRuns(s, ws[..1]) == t;
    } else {
      CancelledStops(t, ws[1..]);
      var n: nat :| n <= Rank(t) && TaskRuns(t, ws[1..][..n]).task == Top && TaskRuns(t, ws[1..][..n]).status == Idle;
      TaskRunsMore(s, ws[..n + 1]);
      assert ws[..n + 1][1..] == ws[1..][..n];
    }
  }

  lemma CancelReported(s: State, w: Weather)
    requires Shape(s) && s.cancel && Busy(s.task) && s.task != Settle(false)
    ensures TaskStepped(s, w).task != Settle(false)
  {
    hide Shape;
  }
}
