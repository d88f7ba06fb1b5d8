/** Progress of the ioctl path: nothing waits for a signal that never comes, and without new
    arrivals every run ends. */
module SchedulerProgress {
  import opened Options
  import opened Sequences
  import opened TableSpec
  import opened SchedulerSpec
  import opened SchedulerInvariant
  import opened SchedulerTheorems

  /** Every step but the arrival of a new request. */
  predicate Internal<E>(e: Event<E>) {
    !(e.Writer? && e.w.WEnqueue?) && !(e.Reader? && e.r.RCap?)
  }

  predicate Possible<E>(s: State<E>, e: Event<E>) {
    Internal(e) && Enabled(s, e) && Ordered(s, e)
  }

  /** Nothing is left to do: the worker waits for a writer, no writer is queued, and whoever
      waits is a subscriber in the queue or a thread that a full queue turned away. */
  ghost predicate Quiescent<E>(s: State<E>) {
    && s.worker.Waiting? && s.writerQ == []
    && forall t: nat :: t < |s.threads| ==>
         || s.threads[t].pc.Idle?
         || (s.threads[t].pc.RQueued? && t in s.readerQ)
         || t in s.hist.dropped
  }

  // ---- no reachable state is stuck ----------------------------------------------------

  /** A thread that waits for nothing but the exit section's semaphore. */
  predicate Ready<E>(th: Thread<E>) {
    && !th.pc.Idle?
    && ((th.pc.WQueued? || th.pc.RQueued?) ==> th.done > 0)
  }

  lemma ReadyCanStep<E>(s: State<E>, t: nat) returns (e: Event<E>)
    requires Shape(s) && SemOk(s) && At(s, t) && Ready(s.threads[t])
    ensures Possible(s, e)
  {
    match s.threads[t].pc
    case WQueued(_) => e := Writer(t, WResume);
    case WRun(_) => e := Writer(t, WApply);
    case WSignal(_) => e := Writer(t, WWakeWorker);
    case ROffer => e := Reader(t, REnqueue);
    case RQueued => e := Reader(t, RResume);
    case RCopy => e := Reader(t, RTake);
    case RCount(_) => e := Reader(t, RReadCount);
    case RExit(_, _) => e := if s.sem.None? then Reader(t, REnterExit) else Reader(s.sem.value, RLeaveExit);
    case RLeave =>
      SumMember(LeaveW, s.threads, t);
      e := Reader(s.sem.value, RLeaveExit);
  }

  lemma NobodyReady<E>(s: State<E>)
    requires SemOk(s) && forall t: nat :: t < |s.threads| ==> !Ready(s.threads[t])
    ensures Opens(s.threads) == Pres(s.threads) == Posts(s.threads) == 0 && s.sem.None?
  {
    SumZero(OpenW, s.threads);
    SumZero(PreW, s.threads);
    SumZero(PostW, s.threads);
    SumZero(LeaveW, s.threads);
  }

  lemma WorkerCanStep<E>(s: State<E>) returns (e: Event<E>)
    requires Shape(s) && Control(s) && forall t: nat :: t < |s.threads| ==> !Ready(s.threads[t])
    ensures Possible(s, e) || (s.worker.Waiting? && s.writerQ == [])
  {
    NobodyReady(s);
    hide Sum, Opens, Pres, Posts, Leaves, QueueOk, ThreadsOk, Ready;
    match s.worker
    case Waiting => e := Worker(Wake);
    case Awake => e := Worker(DequeueWriter);
    case GotWriter(_) => e := Worker(GrantWriter);
    case AwaitWriter => e := Worker(WriterDone);
    case Counting => e := Worker(CountReaders);
    case Counted => e := Worker(if s.n == 0 then Drop else Snapshot);
    case Built => e := Worker(StartBatch);
    case Granting(i, limit) => e := Worker(if i < limit then TakeReader else BatchDone);
    case GotReader(_, _, _) => e := Worker(GrantReader);
  }

  /** No reachable state is stuck, except when there is nothing to do. In particular the
      worker's wait for the last reader always ends, even if the signal comes first. */
  lemma NoStuckState<E(!new)>(s: State<E>) returns (e: Event<E>)
    requires Reachable(s)
    ensures Possible(s, e) || Quiescent(s)
  {
    hide Shape, Control, Fifo, Members, WriterFifo, Data, Delivery, GoodLog, Located, Ready, Possible, Reachable;
    ReachableInv(s);
    if t: nat :| t < |s.threads| && Ready(s.threads[t]) {
      SemIsOk(s);
      e := ReadyCanStep(s, t);
    } else {
      e := WorkerCanStep(s);
      if s.worker.Waiting? && s.writerQ == [] {
        NobodyElseWaits(s);
      }
    }
  }

  lemma SemIsOk<E>(s: State<E>)
    requires Control(s)
    ensures SemOk(s)
  {
  }

  /** Who is not ready waits in a queue, or was turned away. */
  lemma NobodyElseWaits<E>(s: State<E>)
    requires Located(s) && s.worker.Waiting? && s.writerQ == []
    requires forall t: nat :: t < |s.threads| ==> !Ready(s.threads[t])
    ensures Quiescent(s)
  {
  }

  // ---- every run without arrivals ends ------------------------------------------------

  function Weight<E>(th: Thread<E>): nat {
    match th.pc
    case Idle => 0
    case WQueued(_) => 3
    case WRun(_) => 2
    case WSignal(_) => 1
    case ROffer => 8
    case RQueued => 5
    case RCopy => 4
    case RCount(_) => 3
    case RExit(_, _) => 2
    case RLeave => 1
  }

  function Rank(w: WorkerPc): nat {
    match w
    case Waiting => 2
    case Awake => 1
    case GotWriter(_) => 9
    case AwaitWriter => 8
    case Counting => 7
    case Counted => 6
    case Built => 5
    case Granting(_, _) => 4
    case GotReader(_, _, _) => 5
    case Crashed => 0
  }

  /** A bound on the steps that are left without new arrivals. */
  function Measure<E>(s: State<E>): nat {
    Sum(Weight, s.threads) + 9 * |s.writerQ| + 2 * |s.readerQ| + Rank(s.worker)
  }

  lemma WriterDecreases<E>(s: State<E>, e: Event<E>)
    requires Possible(s, e) && e.Writer?
    ensures Measure(Apply(s, e)) < Measure(s)
  {
    hide Sum;
    SumUpdate(Weight, s.threads, e.t, WriterApply(s, e.t, e.w).threads[e.t]);
  }

  lemma ReaderDecreases<E>(s: State<E>, e: Event<E>)
    requires Possible(s, e) && e.Reader?
    ensures Measure(Apply(s, e)) < Measure(s)
  {
    hide Sum;
    SumUpdate(Weight, s.threads, e.t, ReaderApply(s, e.t, e.r).threads[e.t]);
  }

  lemma WorkerDecreases<E>(s: State<E>, e: Event<E>)
    requires Possible(s, e) && e.Worker?
    ensures Measure(Apply(s, e)) < Measure(s)
  {
    hide Sum;
    if e.k.GrantWriter? || e.k.GrantReader? {
      var t := if e.k.GrantWriter? then s.worker.w else s.worker.r;
      SumUpdate(Weight, s.threads, t, WorkerApply(s, e.k).threads[t]);
    }
  }

  lemma StepDecreases<E>(s: State<E>, e: Event<E>)
    requires Possible(s, e)
    ensures Measure(Apply(s, e)) < Measure(s)
  {
    hide Measure, Apply;
    if e.Writer? {
      WriterDecreases(s, e);
    } else if e.Reader? {
      ReaderDecreases(s, e);
    } else {
      WorkerDecreases(s, e);
    }
  }

  ghost predicate NoArrivals<E>(trace: seq<Event<E>>) {
    forall i :: 0 <= i < |trace| ==> Internal(trace[i])
  }

  /** Without arrivals a run has at most `Measure(s)` steps. */
  lemma {:induction false} RunsEnd<E>(s: State<E>, trace: seq<Event<E>>)
    requires NoArrivals(trace) && Run(s, trace).Some?
    ensures |trace| + Measure(Run(s, trace).value) <= Measure(s)
    decreases |trace|
  {
    hide Measure, Apply, Enabled;
    if trace == [] {
    } else {
      var front, e := trace[..|trace| - 1], trace[|trace| - 1];
      RunsEnd(s, front);
      assert Internal(e);
      StepDecreases(Run(s, front).value, e);
    }
  }

  lemma {:induction false} RunAppend<E>(s: State<E>, pre: seq<Event<E>>, post: seq<Event<E>>)
    requires Run(s, pre).Some?
    ensures Run(s, pre + post) == Run(Run(s, pre).value, post)
    decreases |post|
  {
    hide Apply, Enabled;
    if post == [] {
      assert pre + post == pre;
    } else {
      var k := |post| - 1;
      assert (pre + post)[..|pre + post| - 1] == pre + post[..k];
      RunAppend(s, pre, post[..k]);
    }
  }

  lemma ReachableLater<E(!new)>(s: State<E>, trace: seq<Event<E>>)
    requires Reachable(s) && Run(s, trace).Some?
    ensures Reachable(Run(s, trace).value)
  {
    hide Run;
    var add, n, pre :| Run(Init(add, n), pre) == Some(s);
    RunAppend(Init(add, n), pre, trace);
  }

  lemma ReachableStep<E(!new)>(s: State<E>, e: Event<E>)
    requires Reachable(s) && Enabled(s, e) && Ordered(s, e)
    ensures Reachable(Apply(s, e))
  {
    hide Apply, Enabled, Reachable;
    assert Run(s, [e][..0]) == Some(s);
    ReachableLater(s, [e]);
  }

  /** From any reachable state every run without arrivals is finite, and when it cannot be
      continued the writer queue is empty and only subscribers wait. */
  lemma RunsDrain<E(!new)>(s: State<E>, trace: seq<Event<E>>)
    requires Reachable(s) && NoArrivals(trace) && Run(s, trace).Some?
    ensures |trace| <= Measure(s)
    ensures (forall e :: !Possible(Run(s, trace).value, e)) ==> Quiescent(Run(s, trace).value)
  {
    hide Run, Measure, Quiescent, Possible, Reachable;
    RunsEnd(s, trace);
    ReachableLater(s, trace);
    var e := NoStuckState(Run(s, trace).value);
  }

  /** And such a run always exists: there is a run without arrivals that cannot be continued. */
  lemma {:induction false} SomeRunDrains<E(!new)>(s: State<E>) returns (trace: seq<Event<E>>)
    requires Reachable(s)
    ensures NoArrivals(trace) && Run(s, trace).Some? && forall e :: !Possible(Run(s, trace).value, e)
    decreases Measure(s)
  {
    hide Reachable, Apply, Enabled, Measure;
    if e :| Possible(s, e) {
      StepDecreases(s, e);
      ReachableStep(s, e);
      var rest := SomeRunDrains(Apply(s, e));
      trace := [e] + rest;
      assert Run(s, [e][..0]) == Some(s);
      RunAppend(s, [e], rest);
    } else {
      trace := [];
    }
  }

  // ---- subscribers counted by a later writer are served -------------------------------

  /** Nobody joined the reader queue since the worker last counted it. */
  ghost predicate NoneSince<E>(s: State<E>) {
    s.readerQ == if s.worker.Counted? || InBatch(s.worker)
                 then s.hist.batch[Min(Taken(s.worker), |s.hist.batch|)..]
                 else []
  }

  predicate Joins<E>(e: Event<E>) {
    e.Reader? && e.r.REnqueue?
  }

  lemma DropOne<T>(b: seq<T>, i: nat)
    requires i < |b|
    ensures b[i..] != [] && b[i..][1..] == b[i + 1..]
  {
  }

  lemma NoneSinceTake<E>(s: State<E>)
    requires NoneSince(s) && WorkerEnabled(s, TakeReader) && s.worker.i < |s.hist.batch|
    ensures NoneSince(WorkerApply(s, TakeReader))
  {
    var b, i := s.hist.batch, s.worker.i;
    assert s.readerQ == b[i..];
    DropOne(b, i);
    SchedulerWorker.AfterTaking(s);
    hide WorkerApply;
  }

  lemma NoneSinceEnd<E>(s: State<E>, a: WorkerStep)
    requires NoneSince(s) && WorkerEnabled(s, a) && (a.Drop? || a.BatchDone?)
    requires Taken(s.worker) == |s.hist.batch|
    ensures NoneSince(WorkerApply(s, a))
  {
  }

  lemma NoneSinceGrant<E>(s: State<E>, a: WorkerStep)
    requires NoneSince(s) && WorkerEnabled(s, a) && (a.Snapshot? || a.StartBatch? || a.GrantReader?)
    ensures NoneSince(WorkerApply(s, a))
  {
  }

  lemma NoneSinceBefore<E>(s: State<E>, a: WorkerStep)
    requires NoneSince(s) && WorkerEnabled(s, a)
    requires a.Wake? || a.DequeueWriter? || a.GrantWriter? || a.WriterDone?
    ensures NoneSince(WorkerApply(s, a))
  {
  }

  lemma NoneSinceCount<E>(s: State<E>)
    requires WorkerEnabled(s, CountReaders)
    ensures NoneSince(WorkerApply(s, CountReaders))
  {
    assert s.readerQ[0..] == s.readerQ;
  }

  lemma NoneSinceWorker<E>(s: State<E>, a: WorkerStep)
    requires Phase(s) && Fifo(s) && NoneSince(s) && WorkerEnabled(s, a)
    ensures NoneSince(WorkerApply(s, a))
  {
    hide Phase, Fifo, NoneSince, WorkerApply;
    match a {
      case TakeReader =>
        SchedulerWorker.InRange(s);
        NoneSinceTake(s);
      case CountReaders => NoneSinceCount(s);
      case Snapshot => NoneSinceGrant(s, a);
      case StartBatch => NoneSinceGrant(s, a);
      case GrantReader => NoneSinceGrant(s, a);
      case Drop =>
        SchedulerWorker.BatchTaken(s, a);
        NoneSinceEnd(s, a);
      case BatchDone =>
        SchedulerWorker.BatchTaken(s, a);
        NoneSinceEnd(s, a);
      case _ => NoneSinceBefore(s, a);
    }
  }

  lemma NoneSinceThread<E>(s: State<E>, e: Event<E>)
    requires Enabled(s, e) && !e.Worker? && !Joins(e)
    ensures var s' := Apply(s, e);
            s'.worker == s.worker && s'.readerQ == s.readerQ && s'.hist.batch == s.hist.batch
  {
  }

  lemma NoneSinceStep<E>(s: State<E>, e: Event<E>)
    requires Inv(s) && NoneSince(s) && Enabled(s, e) && !Joins(e)
    ensures NoneSince(Apply(s, e))
  {
    hide Accounting, SemOk, Phase, Fifo, Shape, Members, WriterFifo, Data, Delivery, GoodLog, Located;
    if e.Worker? {
      hide NoneSince;
      NoneSinceWorker(s, e.k);
    } else {
      hide Apply, Enabled;
      NoneSinceThread(s, e);
    }
  }

  lemma {:induction false} NoneSinceRun<E>(s: State<E>, trace: seq<Event<E>>)
    requires Inv(s) && NoneSince(s) && forall i :: 0 <= i < |trace| ==> !Joins(trace[i])
    requires Run(s, trace).Some?
    ensures NoneSince(Run(s, trace).value)
    decreases |trace|
  {
    hide Inv, Apply, Enabled, NoneSince;
    if trace == [] {
    } else {
      var front := trace[..|trace| - 1];
      NoneSinceRun(s, front);
      RunInv(s, front);
      NoneSinceStep(Run(s, front).value, trace[|trace| - 1]);
    }
  }

  lemma NoneSinceBetween<E>(s: State<E>)
    requires NoneSince(s) && (s.worker.Waiting? || s.worker.Awake?)
    ensures s.readerQ == []
  {
  }

  /** If the worker counts the readers and nobody joins the queue afterwards, then the reader
      queue is empty whenever the worker is between cycles again. */
  lemma {:induction false} CountedReadersAreServed<E(!new)>(s: State<E>, trace: seq<Event<E>>)
    requires Reachable(s) && Enabled(s, Worker(CountReaders)) && Ordered(s, Worker(CountReaders))
    requires forall i :: 0 <= i < |trace| ==> !Joins(trace[i])
    requires Run(Apply(s, Worker(CountReaders)), trace).Some?
    ensures var s' := Run(Apply(s, Worker(CountReaders)), trace).value;
            s'.worker.Waiting? || s'.worker.Awake? ==> s'.readerQ == []
  {
    hide Inv, Run;
    ReachableInv(s);
    StepInv(s, Worker(CountReaders));
    NoneSinceCount(s);
    hide WorkerApply, NoneSince;
    NoneSinceRun(Apply(s, Worker(CountReaders)), trace);
    var s' := Run(Apply(s, Worker(CountReaders)), trace).value;
    if s'.worker.Waiting? || s'.worker.Awake? {
      NoneSinceBetween(s');
    }
  }
}
