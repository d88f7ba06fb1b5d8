/** What a late decrement does to a batch that has started. The decrement of the previous batch's
    last reader lands on the new count, which stays one short for the whole batch. With two or
    more readers the vector is freed under one of them; with one the service hangs. */
module SchedulerShortBatch {
  import opened Limits
  import opened Options
  import opened Sequences
  import opened SchedulerSpec
  import opened SchedulerInvariant
  import opened SchedulerTheorems
  import opened SchedulerProgress
  import opened SchedulerLateCount
  import SchedulerExit

  /** The worker has read the counter for the last time. */
  predicate InLoop(w: WorkerPc) {
    w.Granting? || w.GotReader?
  }

  /** Where the worker can be when a decrement comes late, and what its count can be there. */
  lemma LateCases<E(!new)>(s: State<E>, t: nat)
    requires Late(s, t)
    ensures BeforeCount(s.worker) || s.worker.Counted? || s.worker.Built? || InLoop(s.worker)
    ensures s.worker.Built? || InLoop(s.worker) ==> s.n > 0
  {
    ReachableInv(InOrder(s, t));
    PhaseOf(InOrder(s, t));
    hide Inv, Reachable, Sum, Opens, Pres, Posts, Leaves;
  }

  /** The same state with the counter that the batch should have. */
  function Repaired<E>(s: State<E>): State<E> {
    s.(n := s.n + 1)
  }

  /** The last reader's test succeeds in this step. */
  predicate Fires<E>(s: State<E>, e: Event<E>) {
    e.Reader? && e.r.REnterExit? && s.n == 1
  }

  // ---- a short batch ------------------------------------------------------------------

  /** During a batch, the counter is one short of what an orderly run would have. */
  ghost predicate OneShort<E(!new)>(s: State<E>) {
    InLoop(s.worker) && Reachable(Repaired(s))
  }

  lemma ShortAfterDecrement<E(!new)>(s: State<E>, t: nat)
    requires Late(s, t) && InLoop(s.worker)
    ensures ReaderEnabled(s, t, RLeaveExit)
    ensures var d := ReaderApply(s, t, RLeaveExit);
            OneShort(d) && d.n == s.n - 1 && d.sem.None? && (s.n > 1 ==> Positive(d))
  {
    hide Reachable, InOrder;
    LateCases(s, t);
    AtDecrement(s, t);
    assert Decrement(s.n) == s.n - 1;
    assert Repaired(ReaderApply(s, t, RLeaveExit)) == InOrder(s, t);
  }

  /** The counter of a short batch, in terms of who is inside and who is to come. */
  lemma ShortAccounting<E(!new)>(s: State<E>)
    requires OneShort(s)
    ensures s.n + 1 == Opens(s.threads) + Ungranted(s) + Held(s) && s.n < Q_SIZE && Ungranted(s) >= 0
    ensures WorkerEnabled(s, TakeReader) ==> s.readerQ != []
    ensures WorkerEnabled(s, BatchDone) ==> s.n + 1 == Held(s)
  {
    hide Inv, Reachable, Fifo, Phase, Accounting, SemOk;
    var r := Repaired(s);
    ReachableInv(r);
    ControlOf(r);
    FifoOf(r);
    NextIsQueued(r);
    ShortParts(s);
  }

  lemma NextIsQueued<E>(s: State<E>)
    requires Fifo(s) && Phase(s)
    ensures WorkerEnabled(s, TakeReader) ==> s.readerQ != []
  {
    hide Sum, Opens, Pres, Posts, Leaves, NoDup, Readers;
  }

  lemma ShortParts<E>(s: State<E>)
    requires InLoop(s.worker) && Accounting(Repaired(s)) && Phase(Repaired(s))
    ensures s.n + 1 == Opens(s.threads) + Ungranted(s) + Held(s) && Ungranted(s) >= 0
    ensures WorkerEnabled(s, BatchDone) ==> s.n + 1 == Held(s)
  {
    hide Sum, Opens, Pres, Posts, Leaves;
  }

  lemma SameWriterStep<E>(s: State<E>, t: nat, a: WriterStep<E>)
    requires WriterEnabled(s, t, a)
    ensures var s' := WriterApply(s, t, a);
            && WriterEnabled(Repaired(s), t, a) && Repaired(s') == WriterApply(Repaired(s), t, a)
            && s'.worker == s.worker && s'.n == s.n && s'.sem == s.sem
  {
  }

  lemma SameReaderStep<E>(s: State<E>, t: nat, a: ReaderStep)
    requires ReaderEnabled(s, t, a) && (a.REnterExit? ==> s.n > 1) && (a.RLeaveExit? ==> 0 < s.n < Q_SIZE)
    ensures var s' := ReaderApply(s, t, a);
            && ReaderEnabled(Repaired(s), t, a) && Repaired(s') == ReaderApply(Repaired(s), t, a)
            && s'.worker == s.worker && s'.n == s.n - (if a.RLeaveExit? then 1 else 0)
            && s'.sem == if a.REnterExit? then Some(t) else if a.RLeaveExit? then None else s.sem
  {
  }

  lemma SameWorkerStep<E>(s: State<E>, a: WorkerStep)
    requires WorkerEnabled(s, a) && InLoop(s.worker) && !a.BatchDone? && (a.TakeReader? ==> s.readerQ != [])
    ensures var s' := WorkerApply(s, a);
            && WorkerEnabled(Repaired(s), a) && Repaired(s') == WorkerApply(Repaired(s), a)
            && InLoop(s'.worker) && s'.n == s.n && s'.sem == s.sem && !a.CountReaders?
  {
  }

  /** Short of an exit at 1, a short batch goes on as an orderly one would, and its counter stays
      positive outside of the exit section. */
  ghost predicate Positive<E>(s: State<E>) {
    s.n >= 1 + Held(s)
  }

  lemma ShortStep<E(!new)>(s: State<E>, e: Event<E>)
    requires OneShort(s) && Positive(s) && Enabled(s, e) && !Fires(s, e)
    ensures OneShort(Apply(s, e)) && Positive(Apply(s, e))
  {
    hide Reachable, WriterApply, ReaderApply, WorkerApply, WriterEnabled, WorkerEnabled;
    ShortAccounting(s);
    match e {
      case Writer(t, a) => SameWriterStep(s, t, a);
      case Reader(t, a) => SameReaderStep(s, t, a);
      case Worker(a) => SameWorkerStep(s, a);
    }
    ReachableStep(Repaired(s), e);
  }

  ghost predicate NeverFires<E>(s: State<E>, trace: seq<Event<E>>) {
    forall i :: 0 <= i < |trace| && Run(s, trace[..i]).Some? ==> !Fires(Run(s, trace[..i]).value, trace[i])
  }

  lemma {:induction false} ShortRun<E(!new)>(s: State<E>, trace: seq<Event<E>>)
    requires OneShort(s) && Positive(s) && Run(s, trace).Some? && NeverFires(s, trace)
    ensures OneShort(Run(s, trace).value) && Positive(Run(s, trace).value)
    decreases |trace|
  {
    hide OneShort, Positive, Apply, Enabled, Fires;
    if trace == [] {
    } else {
      var k := |trace| - 1;
      var front := trace[..k];
      assert forall i :: 0 <= i < k ==> front[..i] == trace[..i] && front[i] == trace[i];
      ShortRun(s, front);
      ShortStep(Run(s, front).value, trace[k]);
    }
  }

  lemma {:induction false} ShortTest<E(!new)>(s: State<E>, u: nat)
    requires OneShort(s) && Positive(s) && ReaderEnabled(s, u, REnterExit)
    ensures s.n == 1 <==> Opens(s.threads) + Ungranted(s) == 2
    ensures Opens(s.threads) >= 1
    ensures !WorkerEnabled(s, BatchDone)
  {
    ShortAccounting(s);
    hide Reachable, Opens;
    assert Opens(s.threads) >= 1 by {
      Change(s.threads, u, s.threads[u]);
    }
  }

  /** With two or more counted readers, the first test that succeeds comes one reader too soon:
      it succeeds exactly when one other reader is still inside or still to be granted. It frees
      the vector and empties the change list under that reader; and until then the batch cannot
      end. This holds for every number of readers and every run. */
  lemma {:induction false} VectorFreedTooSoon<E(!new)>(s: State<E>, t: nat, trace: seq<Event<E>>, u: nat)
    requires Late(s, t) && InLoop(s.worker) && s.n > 1
    requires Run(ReaderApply(s, t, RLeaveExit), trace).Some? && NeverFires(ReaderApply(s, t, RLeaveExit), trace)
    requires ReaderEnabled(Run(ReaderApply(s, t, RLeaveExit), trace).value, u, REnterExit)
    ensures var s' := Run(ReaderApply(s, t, RLeaveExit), trace).value;
            && InLoop(s'.worker) && !WorkerEnabled(s', BatchDone)
            && (s'.n == 1 <==> Opens(s'.threads) + Ungranted(s') == 2)
            && (s'.n == 1 ==> var s2 := ReaderApply(s', u, REnterExit);
                              && s2.vector.None? && s2.changes == [] && s2.count == 0
                              && Opens(s2.threads) + Ungranted(s2) == 1)
  {
    hide Reachable, InOrder, Run, NeverFires, ReaderEnabled, ReaderApply;
    ShortAfterDecrement(s, t);
    var d := ReaderApply(s, t, RLeaveExit);
    ShortRun(d, trace);
    var s' := Run(d, trace).value;
    ShortTest(s', u);
    ExitLeaves(s', u);
  }

  lemma ExitLeaves<E>(s: State<E>, t: nat)
    requires ReaderEnabled(s, t, REnterExit)
    ensures var s2 := ReaderApply(s, t, REnterExit);
            && Opens(s2.threads) == Opens(s.threads) - 1 && Ungranted(s2) == Ungranted(s)
            && (s.n == 1 ==> s2.vector.None? && s2.changes == [] && s2.count == 0)
  {
    hide Opens, Pres, Posts, Leaves;
    Change(s.threads, t, ReaderApply(s, t, REnterExit).threads[t]);
  }

  /** The vector stays away until the worker's next snapshot. */
  lemma {:induction false} StaysFreed<E>(s: State<E>, trace: seq<Event<E>>)
    requires s.vector.None? && s.count == 0 && Run(s, trace).Some?
    requires forall i :: 0 <= i < |trace| ==> trace[i] != Worker(Snapshot)
    ensures var s' := Run(s, trace).value; s'.vector.None? && s'.count == 0
    decreases |trace|
  {
    if trace == [] {
    } else {
      var k := |trace| - 1;
      StaysFreed(s, trace[..k]);
      assert trace[k] != Worker(Snapshot);
      StaysFreedByStep(Run(s, trace[..k]).value, trace[k]);
    }
  }

  lemma StaysFreedByStep<E>(s: State<E>, e: Event<E>)
    requires s.vector.None? && s.count == 0 && Enabled(s, e) && e != Worker(Snapshot)
    ensures Apply(s, e).vector.None? && Apply(s, e).count == 0
  {
  }

  /** What that costs the reader: until the worker's next snapshot, whoever copies takes no record,
      and whoever looks at the count is told 0, even a reader that has copied a record already. */
  lemma LoserTakesNothing<E>(s: State<E>, u: nat, trace: seq<Event<E>>, v: nat)
    requires ReaderEnabled(s, u, REnterExit) && s.n == 1
    requires Run(ReaderApply(s, u, REnterExit), trace).Some?
    requires forall i :: 0 <= i < |trace| ==> trace[i] != Worker(Snapshot)
    ensures var s' := Run(ReaderApply(s, u, REnterExit), trace).value;
            && (ReaderEnabled(s', v, RTake) ==> ReaderApply(s', v, RTake).threads[v].pc == RCount([]))
            && (ReaderEnabled(s', v, RReadCount) ==>
                  ReaderApply(s', v, RReadCount).threads[v].pc == RExit(s'.threads[v].pc.buf, 0))
  {
    hide Run;
    StaysFreed(ReaderApply(s, u, REnterExit), trace);
  }

  /** A short batch is never stuck: whatever an orderly batch could do, it can do. */
  lemma ShortCanStep<E(!new)>(s: State<E>) returns (e: Event<E>)
    requires OneShort(s)
    ensures Possible(s, e)
  {
    hide Reachable, Quiescent;
    e := NoStuckState(Repaired(s));
    BusyWorker(Repaired(s));
    assert !e.Worker? || !(e.k.Drop? || e.k.Snapshot?);
  }

  lemma BusyWorker<E>(s: State<E>)
    requires InLoop(s.worker)
    ensures !Quiescent(s)
  {
  }

  /** And the test does come too soon: every run without arrivals ends, and when it cannot be
      continued, the test has succeeded in it. */
  lemma TestComesTooSoon<E(!new)>(s: State<E>, t: nat, trace: seq<Event<E>>)
    requires Late(s, t) && InLoop(s.worker) && s.n > 1 && NoArrivals(trace)
    requires Run(ReaderApply(s, t, RLeaveExit), trace).Some?
    ensures |trace| <= Measure(ReaderApply(s, t, RLeaveExit))
    ensures (forall e :: !Possible(Run(ReaderApply(s, t, RLeaveExit), trace).value, e)) ==>
              !NeverFires(ReaderApply(s, t, RLeaveExit), trace)
  {
    hide Reachable, InOrder, Run, NeverFires, ReaderApply, Measure, Possible, OneShort;
    ShortAfterDecrement(s, t);
    var d := ReaderApply(s, t, RLeaveExit);
    RunsEnd(d, trace);
    if NeverFires(d, trace) {
      ShortRun(d, trace);
      var e := ShortCanStep(Run(d, trace).value);
    }
  }

  // ---- a single reader ----------------------------------------------------------------

  /** The counter of the only reader stands at 0 until it exits. */
  ghost predicate Lone<E(!new)>(s: State<E>) {
    OneShort(s) && s.n == 0 && s.sem.None?
  }

  predicate Exits<E>(e: Event<E>) {
    e.Reader? && e.r.REnterExit?
  }

  lemma LoneStep<E(!new)>(s: State<E>, e: Event<E>)
    requires Lone(s) && Enabled(s, e) && !Exits(e)
    ensures Lone(Apply(s, e))
  {
    hide Reachable, WriterApply, ReaderApply, WorkerApply, WriterEnabled, WorkerEnabled;
    ShortAccounting(s);
    match e {
      case Writer(t, a) => SameWriterStep(s, t, a);
      case Reader(t, a) => SameReaderStep(s, t, a);
      case Worker(a) => SameWorkerStep(s, a);
    }
    ReachableStep(Repaired(s), e);
  }

  /** The worker waits for a signal, or will after one step, and nobody is left who could give
      it. */
  ghost predicate Hung<E>(s: State<E>) {
    && s.workerDone == 0
    && ((s.worker.Granting? && s.worker.i >= s.worker.limit) || (s.worker.Built? && s.n == 0 && s.sem.None?))
    && forall t :: 0 <= t < |s.threads| ==>
         var th := s.threads[t];
         th.done == 0 && !IsOpen(th) && !IsPre(th) && !IsPost(th)
  }

  lemma HungWriter<E>(s: State<E>, t: nat, a: WriterStep<E>)
    requires Hung(s) && WriterEnabled(s, t, a)
    ensures Hung(WriterApply(s, t, a)) && s.readerQ <= WriterApply(s, t, a).readerQ
  {
  }

  lemma HungReader<E>(s: State<E>, t: nat, a: ReaderStep)
    requires Hung(s) && ReaderEnabled(s, t, a)
    ensures Hung(ReaderApply(s, t, a)) && s.readerQ <= ReaderApply(s, t, a).readerQ
  {
  }

  lemma HungWorker<E>(s: State<E>, a: WorkerStep)
    requires Hung(s) && WorkerEnabled(s, a)
    ensures Hung(WorkerApply(s, a)) && s.readerQ <= WorkerApply(s, a).readerQ && a.StartBatch?
  {
  }

  lemma HungStep<E>(s: State<E>, e: Event<E>)
    requires Hung(s) && Enabled(s, e)
    ensures Hung(Apply(s, e)) && s.readerQ <= Apply(s, e).readerQ
  {
    hide Hung, WriterApply, ReaderApply, WorkerApply, WriterEnabled, ReaderEnabled, WorkerEnabled;
    match e {
      case Writer(t, a) => HungWriter(s, t, a);
      case Reader(t, a) => HungReader(s, t, a);
      case Worker(a) => HungWorker(s, a);
    }
  }

  /** The service hangs for good: in every continuation the worker does nothing but find its
      loop empty, no thread is granted, and the queued readers stay queued. */
  lemma {:induction false} HungForever<E>(s: State<E>, trace: seq<Event<E>>)
    requires Hung(s) && Run(s, trace).Some?
    ensures var s' := Run(s, trace).value;
            && Hung(s') && s.readerQ <= s'.readerQ
            && forall a :: WorkerEnabled(s', a) ==> a.StartBatch?
    decreases |trace|
  {
    if trace == [] {
    } else {
      hide Hung, Apply, Enabled;
      var s1 := Run(s, trace[..|trace| - 1]).value;
      HungForever(s, trace[..|trace| - 1]);
      HungStep(s1, trace[|trace| - 1]);
      OnlyStartBatch(Apply(s1, trace[|trace| - 1]));
    }
  }

  lemma OnlyStartBatch<E>(s: State<E>)
    requires Hung(s)
    ensures forall a :: WorkerEnabled(s, a) ==> a.StartBatch?
  {
  }

  lemma LoneExit<E(!new)>(s: State<E>, t: nat)
    requires Lone(s) && ReaderEnabled(s, t, REnterExit)
    ensures Hung(ReaderApply(s, t, REnterExit))
  {
    hide Inv, Reachable;
    ReachableInv(Repaired(s));
    ControlOf(Repaired(s));
    ThreadsOf(Repaired(s));
    LoneExitParts(s, t);
  }

  lemma ThreadsOf<E>(s: State<E>)
    requires Inv(s)
    ensures ThreadsOk(s.threads)
  {
  }

  lemma LoneExitParts<E>(s: State<E>, t: nat)
    requires InLoop(s.worker) && Accounting(Repaired(s)) && Phase(Repaired(s))
    requires ThreadsOk(s.threads) && s.n == 0 && s.sem.None? && ReaderEnabled(s, t, REnterExit)
    ensures Hung(ReaderApply(s, t, REnterExit))
  {
    var s' := ReaderApply(s, t, REnterExit);
    Change(s.threads, t, s'.threads[t]);
    assert Opens(s'.threads) == 0 && Pres(s'.threads) + Posts(s'.threads) == 0 by {
      hide Sum, Opens, Pres, Posts, Leaves;
      assert Opens(s.threads) + Ungranted(s) == 1;
    }
    hide Sum, Opens, Pres, Posts, Leaves;
    assert Ungranted(s) == 0;
    NoneOpen(s'.threads);
    NoneWriting(s'.threads);
  }

  lemma {:induction false} LoneRun<E(!new)>(s: State<E>, trace: seq<Event<E>>)
    requires Lone(s) && Run(s, trace).Some?
    ensures Lone(Run(s, trace).value) || Hung(Run(s, trace).value)
    decreases |trace|
  {
    hide Lone, Hung, Apply, Enabled;
    if trace == [] {
    } else {
      LoneRun(s, trace[..|trace| - 1]);
      var s1, e := Run(s, trace[..|trace| - 1]).value, trace[|trace| - 1];
      if Hung(s1) {
        HungStep(s1, e);
      } else if Exits(e) {
        LoneExits(s1, e);
      } else {
        LoneStep(s1, e);
      }
    }
  }

  lemma LoneExits<E(!new)>(s: State<E>, e: Event<E>)
    requires Lone(s) && Enabled(s, e) && Exits(e)
    ensures Hung(Apply(s, e))
  {
    hide Lone, Hung;
    LoneExit(s, e.t);
  }

  /** With one counted reader its test fails and nobody signals the worker: in every run the
      reader has not exited yet or the service hangs, and a run without arrivals that cannot be
      continued has come to that. */
  lemma ServiceHangs<E(!new)>(s: State<E>, t: nat, trace: seq<Event<E>>)
    requires Late(s, t) && InLoop(s.worker) && s.n == 1
    requires Run(ReaderApply(s, t, RLeaveExit), trace).Some?
    ensures var s' := Run(ReaderApply(s, t, RLeaveExit), trace).value;
            && (Lone(s') || Hung(s'))
            && ((forall e :: !Possible(s', e)) ==> Hung(s'))
  {
    hide Reachable, InOrder, Run, ReaderApply, Possible, Hung;
    ShortAfterDecrement(s, t);
    LoneRun(ReaderApply(s, t, RLeaveExit), trace);
    var s' := Run(ReaderApply(s, t, RLeaveExit), trace).value;
    if Lone(s') {
      var e := ShortCanStep(s');
    }
  }

  /** When the decrement comes between the worker's test and its loop, the loop of the only
      counted reader is empty: the service hangs at once, and the reader stays queued. */
  lemma HangsBeforeLoop<E(!new)>(s: State<E>, t: nat)
    requires Late(s, t) && s.worker.Built? && s.n == 1
    ensures ReaderEnabled(s, t, RLeaveExit)
    ensures var d := ReaderApply(s, t, RLeaveExit);
            Hung(d) && WorkerApply(d, StartBatch).worker == Granting(0, 0)
            && s.hist.batch[0] in d.readerQ
  {
    hide Inv, Reachable, InOrder;
    AtDecrement(s, t);
    var o := InOrder(s, t);
    ReachableInv(o);
    ControlOf(o);
    ThreadsOf(o);
    FifoOf(o);
    CountedFirst(o);
    NobodyAtWork(o);
    assert ReaderApply(s, t, RLeaveExit) == o.(n := 0);
  }

  lemma CountedFirst<E>(s: State<E>)
    requires Fifo(s) && s.worker.Built? && s.hist.batch != []
    ensures s.hist.batch[0] in s.readerQ
  {
    hide Readers, NoDup;
    assert s.hist.batch[0..][0] == s.readerQ[0];
  }

  lemma NobodyAtWork<E>(s: State<E>)
    requires Phase(s) && ThreadsOk(s.threads) && s.worker.Built?
    ensures s.workerDone == 0
    ensures forall t :: 0 <= t < |s.threads| ==>
              var th := s.threads[t];
              th.done == 0 && !IsOpen(th) && !IsPre(th) && !IsPost(th)
  {
    assert Opens(s.threads) == 0 && Pres(s.threads) + Posts(s.threads) == 0 && s.workerDone == 0 by {
      hide Sum, Opens, Pres, Posts, Leaves;
    }
    hide Sum, Opens, Pres, Posts, Leaves;
    NoneOpen(s.threads);
    NoneWriting(s.threads);
  }

  // ---- each of these orders occurs ----------------------------------------------------

  /** From orderly runs, one early count later, for every number of queued readers: the worker
      has counted them; it has tested the count; it has started the loop. With nobody queued it
      has dropped the update. */
  lemma EveryOrderIsReachable<E(!new)>(add: nat, k: nat) returns (s: State<E>, t: nat)
    requires k <= Q_SIZE
    ensures Reachable(s) && WorkerEnabled(s, CountReaders) && s.sem == Some(t)
    ensures var s1 := WorkerApply(s, CountReaders);
            && Late(s1, t) && s1.worker.Counted? && s1.n == k
            && (if k == 0 then
                  WorkerEnabled(s1, Drop) && Late(WorkerApply(s1, Drop), t)
                  && BeforeCount(WorkerApply(s1, Drop).worker)
                else
                  && WorkerEnabled(s1, Snapshot)
                  && var s2 := WorkerApply(s1, Snapshot);
                     && Late(s2, t) && s2.worker.Built? && s2.n == k
                     && var s3 := WorkerApply(s2, StartBatch);
                        Late(s3, t) && InLoop(s3.worker) && s3.n == k)
  {
    hide Late, Reachable;
    s := SchedulerExit.EarlyCountIsReachable(add, k);
    t := s.sem.value;
    LateAfterCount(s);
    var s1 := WorkerApply(s, CountReaders);
    if k == 0 {
      LateStep(s1, t, Worker(Drop));
    } else {
      LateStep(s1, t, Worker(Snapshot));
      LateStep(WorkerApply(s1, Snapshot), t, Worker(StartBatch));
    }
  }
}
