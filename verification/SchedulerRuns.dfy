/** Whole runs of the ioctl path on the real data structures, and the worker's grant loop under
    interference. */
module SchedulerRuns {
  import opened Limits
  import opened Options
  import opened Sequences
  import opened SchedulerSpec
  import opened SchedulerInvariant
  import opened SchedulerTheorems
  import opened Scheduler
  import opened Queue

  /** A granted writer finds the change list empty, so a purge never leaves a record pointing
      at a freed entry. */
  lemma WriterFindsNoRecords<E(!new)>(s: State<E>, t: nat)
    requires Reachable(s) && WriterEnabled(s, t, WApply)
    ensures s.changes == [] && s.worker.AwaitWriter?
  {
    ReachableInv(s);
    hide Sum, Shape, Fifo, Members, WriterFifo, Delivery, GoodLog, Located, Opens, Posts, Leaves;
    SumMember(PreW, s.threads, t);
  }

  /** What a granted writer does: the table takes the entry in front, or is emptied, or stays; and
      the change list holds what there is to tell, and nothing else. */
  lemma WriterAnnounces<E(!new)>(s: State<E>, t: nat)
    requires Reachable(s) && WriterEnabled(s, t, WApply)
    ensures var s', op := WriterApply(s, t, WApply), s.threads[t].pc.op;
            && (op.Create? || (op.Update? && op.code == s.add) ==> s'.table == [op.entry] + s.table)
            && (op.Update? && op.code != s.add ==> s'.table == s.table)
            && (op.Purge? ==> s'.table == [])
            && Tells(s.add, op, s'.changes)
  {
    WriterFindsNoRecords(s, t);
    WriteDoes(s, t);
    hide Reachable, WriterApply;
  }

  method StepWriter<E(==,!new)>(rt: Service<E>, t: nat, a: WriterStep<E>)
    requires rt.Valid() && WriterEnabled(rt.Abs(), t, a)
    requires a.WApply? ==> rt.Abs().changes == []
    modifies rt.Repr()
    ensures rt.Valid() && rt.Abs() == WriterApply(old(rt.Abs()), t, a)
  {
    match a {
      case WEnqueue(op) => rt.EnqueueWriter(t, op);
      case WResume => rt.ResumeWriter(t);
      case WApply => rt.ApplyWrite(t);
      case WWakeWorker => rt.WakeWorker(t);
    }
  }

  method StepReader<E(==,!new)>(rt: Service<E>, t: nat, a: ReaderStep)
    requires rt.Valid() && ReaderEnabled(rt.Abs(), t, a)
    modifies rt.Repr()
    ensures rt.Valid() && rt.Abs() == ReaderApply(old(rt.Abs()), t, a)
  {
    match a {
      case RCap => rt.Cap(t);
      case REnqueue => rt.EnqueueReader(t);
      case RResume => rt.ResumeReader(t);
      case RTake => rt.Take(t);
      case RReadCount => rt.ReadCount(t);
      case REnterExit => rt.EnterExit(t);
      case RLeaveExit => rt.LeaveExit(t);
    }
  }

  method StepWorker<E(==,!new)>(rt: Service<E>, a: WorkerStep)
    requires rt.Valid() && WorkerEnabled(rt.Abs(), a)
    modifies rt.Repr()
    ensures rt.Valid() && rt.Abs() == WorkerApply(old(rt.Abs()), a)
  {
    match a {
      case Wake => rt.Wake();
      case DequeueWriter => rt.DequeueWriter();
      case GrantWriter => rt.GrantWriter();
      case WriterDone => rt.WriterDone();
      case CountReaders => rt.CountReaders();
      case Drop => rt.Drop();
      case Snapshot => rt.Snapshot();
      case StartBatch => rt.StartBatch();
      case TakeReader => rt.TakeReader();
      case GrantReader => rt.GrantReader();
      case BatchDone => rt.BatchDone();
    }
  }

  /** Each step of the source does, on the real objects, what the step system says. */
  method Step<E(==,!new)>(rt: Service<E>, e: Event<E>)
    requires rt.Valid() && Reachable(rt.Abs()) && Enabled(rt.Abs(), e)
    modifies rt.Repr()
    ensures rt.Valid() && rt.Abs() == Apply(old(rt.Abs()), e)
  {
    match e {
      case Writer(t, a) =>
        if a.WApply? {
          WriterFindsNoRecords(rt.Abs(), t);
        }
        StepWriter(rt, t, a);
      case Reader(t, a) => StepReader(rt, t, a);
      case Worker(a) => StepWorker(rt, a);
    }
  }

  lemma {:induction false} RunPrefix<E>(s: State<E>, trace: seq<Event<E>>, i: nat)
    requires i < |trace| && Run(s, trace).Some?
    ensures Run(s, trace[..i]).Some? && Run(s, trace[..i + 1]).Some?
    ensures var s1, e := Run(s, trace[..i]).value, trace[i];
            Enabled(s1, e) && Ordered(s1, e) && Run(s, trace[..i + 1]) == Some(Apply(s1, e))
    decreases |trace|
  {
    hide Apply, Enabled;
    var front := trace[..|trace| - 1];
    if i == |trace| - 1 {
      assert trace[..i + 1] == trace;
    } else {
      RunPrefix(s, front, i);
      assert front[..i] == trace[..i] && front[..i + 1] == trace[..i + 1];
    }
  }

  /** Refinement of whole runs: the real objects follow every run of the step system, without
      ever reading a freed entry, freeing anything twice or leaving a record dangling. */
  method Perform<E(==,!new)>(add: nat, zero: E, entrySize: nat, files: nat, trace: seq<Event<E>>)
    returns (rt: Service<E>)
    requires Run(Init(add, files), trace).Some?
    ensures fresh(rt.Repr()) && rt.Valid() && rt.Abs() == Run(Init<E>(add, files), trace).value
  {
    rt := new Service<E>(add, zero, entrySize, files);
    assert trace[..0] == [];
    for i := 0 to |trace|
      invariant fresh(rt.Repr()) && rt.Valid() && Run(Init(add, files), trace[..i]) == Some(rt.Abs())
    {
      RunPrefix(Init(add, files), trace, i);
      Step(rt, trace[i]);
    }
    assert trace[..|trace|] == trace;
  }

  // ---- the grant loop -----------------------------------------------------------------

  /** What a bounded queue accepts of a sequence of arrivals. */
  function Room<T>(q: seq<T>, arrivals: seq<T>): (r: seq<T>)
    ensures q <= r
    decreases |arrivals|
  {
    if arrivals == [] then q
    else
      var r := Room(q, arrivals[..|arrivals| - 1]);
      if |r| < Q_SIZE then r + [arrivals[|arrivals| - 1]] else r
  }

  method Arrive(q: Queue<nat>, arrivals: seq<nat>)
    requires q.Valid()
    modifies q, q.elem
    ensures q.Valid() && q.Contents() == Room(old(q.Contents()), arrivals)
  {
    assert arrivals[..0] == [];
    for i := 0 to |arrivals|
      invariant q.Valid() && q.Contents() == Room(old(q.Contents()), arrivals[..i])
    {
      var _ := q.Enqueue(Some(arrivals[i]));
      assert arrivals[..i + 1][..i] == arrivals[..i];
    }
    assert arrivals[..|arrivals|] == arrivals;
  }

  /** `allow_rt_access_to_readers`, with arbitrary arrivals before each locked dequeue: no
      dequeue returns NULL, the readers granted are exactly the first `n` that were queued when
      they were counted, and those behind them stay queued in order. */
  method AllowAccessToReaders(readerQ: Queue<nat>, n: nat, arrivals: seq<seq<nat>>) returns (granted: seq<nat>)
    requires readerQ.Valid() && n <= |readerQ.Contents()| && |arrivals| == n
    modifies readerQ, readerQ.elem
    ensures readerQ.Valid() && granted == old(readerQ.Contents())[..n]
    ensures old(readerQ.Contents())[n..] <= readerQ.Contents()
  {
    hide Queue.Valid, Queue.Contents, Room;
    ghost var q := readerQ.Contents();
    granted := [];
    for i := 0 to n
      invariant readerQ.Valid() && granted == q[..i] && q[i..] <= readerQ.Contents()
    {
      Arrive(readerQ, arrivals[i]);
      assert q[i..] <= readerQ.Contents();
      var reader := readerQ.Deque();
      assert reader == Some(q[i..][0]);
      granted := granted + [reader.value];
    }
  }
}
