/** What the ordering hypothesis buys. The last reader signals the worker before it
    decrements the counter, and the worker's store of the next count does not take the exit
    section's semaphore. If the worker counts before that decrement, the count is lost. */
module SchedulerExit {
  import opened Limits
  import opened Options
  import opened Sequences
  import opened TableSpec
  import opened SchedulerSpec
  import opened SchedulerInvariant
  import opened SchedulerTheorems
  import opened SchedulerProgress
  import opened SchedulerCapacity

  lemma BeforeCount<E(!new)>(s: State<E>)
    requires Reachable(s) && WorkerEnabled(s, CountReaders)
    ensures Opens(s.threads) == 0
    ensures s.sem.Some? ==> At(s, s.sem.value) && s.threads[s.sem.value].pc.RLeave?
  {
    ReachableInv(s);
    hide Sum, Opens, Pres, Posts, Leaves, Shape, Fifo, Members, WriterFifo, Data, Delivery, GoodLog, Located;
  }

  lemma CountLost<E>(s: State<E>)
    requires WorkerEnabled(s, CountReaders) && s.sem.Some? && Opens(s.threads) == 0
    requires At(s, s.sem.value) && s.threads[s.sem.value].pc.RLeave?
    ensures var s1 := WorkerApply(s, CountReaders);
            && ReaderEnabled(s1, s.sem.value, RLeaveExit)
            && var s2 := ReaderApply(s1, s.sem.value, RLeaveExit);
               s2.n == (|s2.readerQ| + UINT32 - 1) % UINT32 && !Accounting(s2)
  {
    hide Sum, Opens, Pres, Posts, Leaves;
    Change(s.threads, s.sem.value, s.threads[s.sem.value].(pc := Idle));
  }

  /** From any reachable state, the worker's count keeps the counter right if and only if the
      exit section is free. Otherwise the pending decrement leaves the counter one short. */
  lemma CountIsRightIffExitSectionFree<E(!new)>(s: State<E>)
    requires Reachable(s) && WorkerEnabled(s, CountReaders)
    ensures Accounting(WorkerApply(s, CountReaders)) <==> s.sem.None?
    ensures s.sem.Some? ==>
              var s1 := WorkerApply(s, CountReaders);
              && ReaderEnabled(s1, s.sem.value, RLeaveExit)
              && var s2 := ReaderApply(s1, s.sem.value, RLeaveExit);
                 s2.n == (|s2.readerQ| + UINT32 - 1) % UINT32 && !Accounting(s2)
  {
    BeforeCount(s);
    hide Reachable, Sum, Opens;
    if s.sem.Some? {
      hide ReaderApply;
      CountLost(s);
    }
  }

  // ---- the bad state is reachable -----------------------------------------------------

  /** The second file is a writer that purges, the first a subscriber; the others are idle. */
  ghost predicate Between<E>(s: State<E>) {
    && |s.threads| >= 2 && IdleFrom(s, 2) && s.threads[1] == Thread(Idle, 0)
    && s.worker == Waiting && s.workerDone == 0 && s.writerQ == [] && s.hist.pend == []
  }

  lemma WriterArrives<E(!new)>(s: State<E>) returns (s': State<E>)
    requires Reachable(s) && Between(s)
    ensures Reachable(s') && s'.threads == s.threads[1 := Thread(WQueued(Purge), 1)]
    ensures s'.worker == AwaitWriter && s'.workerDone == 0 && s'.writerQ == [] && s'.hist.pend == []
    ensures s'.sem == s.sem && s'.readerQ == s.readerQ && s'.hist.cur.Some? && s'.n == s.n
  {
    hide Reachable;
    ReachableStep(s, Writer(1, WEnqueue(Purge)));
    var s1 := WriterApply(s, 1, WEnqueue(Purge));
    ReachableStep(s1, Worker(Wake));
    var s2 := WorkerApply(s1, Wake);
    ReachableStep(s2, Worker(DequeueWriter));
    var s3 := WorkerApply(s2, DequeueWriter);
    ReachableStep(s3, Worker(GrantWriter));
    s' := WorkerApply(s3, GrantWriter);
  }

  lemma WriterRuns<E(!new)>(s: State<E>) returns (s': State<E>)
    requires Reachable(s) && |s.threads| >= 2 && IdleFrom(s, 2) && s.threads[1] == Thread(WQueued(Purge), 1)
    requires s.worker == AwaitWriter && s.workerDone == 0
    ensures Reachable(s') && s'.threads == s.threads[1 := Thread(Idle, 0)]
    ensures s'.worker == Counting && s'.workerDone == 0 && s'.writerQ == s.writerQ && s'.hist == s.hist
    ensures s'.sem == s.sem && s'.readerQ == s.readerQ && s'.n == s.n
  {
    hide Reachable;
    ReachableStep(s, Writer(1, WResume));
    var s1 := WriterApply(s, 1, WResume);
    ReachableStep(s1, Writer(1, WApply));
    var s2 := WriterApply(s1, 1, WApply);
    ReachableStep(s2, Writer(1, WWakeWorker));
    var s3 := WriterApply(s2, 1, WWakeWorker);
    ReachableStep(s3, Worker(WriterDone));
    s' := WorkerApply(s3, WriterDone);
  }

  lemma ReaderJoins<E(!new)>(add: nat, files: nat) returns (s: State<E>)
    requires files >= 2
    ensures Reachable(s) && |s.threads| == files && Between(s) && s.sem.None?
    ensures s.readerQ == [0] && s.threads[0] == Thread(RQueued, 0)
  {
    var s0 := Init<E>(add, files);
    assert Run(s0, []) == Some(s0);
    assert Reachable(s0);
    hide Reachable;
    ReachableStep(s0, Reader(0, RCap));
    var s1 := ReaderApply(s0, 0, RCap);
    ReachableStep(s1, Reader(0, REnqueue));
    s := ReaderApply(s1, 0, REnqueue);
  }

  lemma ReaderGranted<E(!new)>(s: State<E>) returns (s': State<E>)
    requires Reachable(s) && |s.threads| >= 2 && IdleFrom(s, 2) && s.threads[0] == Thread(RQueued, 0)
    requires s.worker == Counting && s.readerQ == [0] && s.sem.None?
    ensures Reachable(s') && s'.threads == s.threads[0 := Thread(RQueued, 1)]
    ensures s'.worker == Granting(1, 1) && s'.readerQ == [] && s'.n == 1 && s'.sem.None?
    ensures s'.writerQ == s.writerQ && s'.workerDone == s.workerDone
    ensures s'.hist.pend == s.hist.pend && s'.hist.cur == s.hist.cur
  {
    hide Reachable;
    ReachableStep(s, Worker(CountReaders));
    var s1 := WorkerApply(s, CountReaders);
    ReachableStep(s1, Worker(Snapshot));
    var s11 := WorkerApply(s1, Snapshot);
    ReachableStep(s11, Worker(StartBatch));
    var s2 := WorkerApply(s11, StartBatch);
    ReachableStep(s2, Worker(TakeReader));
    var s3 := WorkerApply(s2, TakeReader);
    ReachableStep(s3, Worker(GrantReader));
    s' := WorkerApply(s3, GrantReader);
  }

  lemma ReaderSignals<E(!new)>(s: State<E>) returns (s': State<E>)
    requires Reachable(s) && |s.threads| >= 2 && IdleFrom(s, 2) && s.threads[0] == Thread(RQueued, 1)
    requires s.threads[1] == Thread(Idle, 0) && s.worker == Granting(1, 1) && s.n == 1 && s.sem.None?
    requires s.workerDone == 0 && s.writerQ == [] && s.hist.pend == [] && s.readerQ == []
    ensures Reachable(s') && Between(s') && s'.sem == Some(0) && s'.readerQ == [] && |s'.threads| == |s.threads|
  {
    hide Reachable;
    ReachableStep(s, Reader(0, RResume));
    var s1 := ReaderApply(s, 0, RResume);
    ReachableStep(s1, Reader(0, RTake));
    var s2 := ReaderApply(s1, 0, RTake);
    ReachableStep(s2, Reader(0, RReadCount));
    var s3 := ReaderApply(s2, 0, RReadCount);
    ReachableStep(s3, Reader(0, REnterExit));
    var s4 := ReaderApply(s3, 0, REnterExit);
    ReachableStep(s4, Worker(BatchDone));
    s' := WorkerApply(s4, BatchDone);
  }

  /** A run in which every step so far kept the ordering, and whose next step may be the
      count that comes too early: the last reader has signalled, the worker went round, and
      the decrement is still pending. Any number of readers can be queued by then. */
  lemma EarlyCountIsReachable<E(!new)>(add: nat, k: nat) returns (s: State<E>)
    requires k <= Q_SIZE
    ensures Reachable(s) && WorkerEnabled(s, CountReaders) && |s.readerQ| == k
    ensures s.sem.Some? && At(s, s.sem.value) && s.threads[s.sem.value].pc.RLeave?
  {
    hide Reachable;
    var s1 := ReaderJoins(add, k + 2);
    var s2 := WriterArrives(s1);
    var s3 := WriterRuns(s2);
    var s4 := ReaderGranted(s3);
    var s5 := ReaderSignals(s4);
    var s6 := WriterArrives(s5);
    var s7 := WriterRuns(s6);
    s := ManySubscribers(s7, 2, k);
    BeforeCount(s);
  }
}
