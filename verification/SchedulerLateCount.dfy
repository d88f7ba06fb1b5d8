/** What happens to a count that comes too early. Between the count and the decrement of the
    previous batch's last reader anything else may happen; when the decrement comes at last, the
    counter is one short, and what that does depends on where the worker is. Together with
    `SchedulerShortBatch` this covers every order and every number of counted readers. */
module SchedulerLateCount {
  import opened Limits
  import opened Options
  import opened Sequences
  import opened SchedulerSpec
  import opened SchedulerInvariant
  import opened SchedulerTheorems
  import opened SchedulerProgress
  import SchedulerWorker

  // ---- until the decrement ------------------------------------------------------------

  /** The same state with the decrement of `t` done in order, before the count. */
  function InOrder<E>(s: State<E>, t: nat): State<E>
    requires At(s, t)
  {
    SetThread(s, t, s.threads[t].(pc := Idle)).(sem := None)
  }

  /** The decrement of `t` is pending although the worker has counted since the signal; apart
      from that, everything is as in a state that an orderly run gets to. */
  ghost predicate Late<E(!new)>(s: State<E>, t: nat) {
    && At(s, t) && s.sem == Some(t) && s.threads[t].pc.RLeave? && Reachable(InOrder(s, t))
    && (s.worker.Counted? || InBatch(s.worker) ==> s.n == |s.hist.batch|)
  }

  function Decrement(n: nat): nat {
    (n + UINT32 - 1) % UINT32
  }

  /** The decrement leaves the orderly state, with the counter one short. */
  lemma AtDecrement<E(!new)>(s: State<E>, t: nat)
    requires Late(s, t)
    ensures ReaderEnabled(s, t, RLeaveExit)
    ensures ReaderApply(s, t, RLeaveExit) == InOrder(s, t).(n := Decrement(s.n))
    ensures var o := InOrder(s, t);
            && Reachable(o) && o.sem.None? && o.worker == s.worker && o.n == s.n <= Q_SIZE
            && o.readerQ == s.readerQ && o.hist == s.hist
  {
    hide Inv, Reachable, Accounting, SemOk, Phase;
    ReachableInv(InOrder(s, t));
    ControlOf(InOrder(s, t));
  }

  lemma CountMirrored<E>(s: State<E>, t: nat)
    requires WorkerEnabled(s, CountReaders) && ReaderEnabled(s, t, RLeaveExit)
    ensures var s1 := ReaderApply(s, t, RLeaveExit);
            && WorkerEnabled(s1, CountReaders) && s1.sem.None?
            && InOrder(WorkerApply(s, CountReaders), t) == WorkerApply(s1, CountReaders)
  {
  }

  /** The worker counts while the decrement is pending. */
  lemma LateAfterCount<E(!new)>(s: State<E>)
    requires Reachable(s) && WorkerEnabled(s, CountReaders) && s.sem.Some?
    ensures Late(WorkerApply(s, CountReaders), s.sem.value)
  {
    hide Inv, Reachable, Accounting, Phase, Opens, Pres, Posts, Leaves;
    ReachableInv(s);
    ControlOf(s);
    var t := s.sem.value;
    CountMirrored(s, t);
    ReachableStep(s, Reader(t, RLeaveExit));
    ReachableStep(ReaderApply(s, t, RLeaveExit), Worker(CountReaders));
  }

  lemma MirrorWriter<E>(s: State<E>, t: nat, u: nat, a: WriterStep<E>)
    requires At(s, t) && s.threads[t].pc.RLeave? && WriterEnabled(s, u, a)
    ensures WriterEnabled(InOrder(s, t), u, a)
    ensures InOrder(WriterApply(s, u, a), t) == WriterApply(InOrder(s, t), u, a)
    ensures var s' := WriterApply(s, u, a);
            s'.sem == s.sem && At(s', t) && s'.threads[t] == s.threads[t] && s'.worker == s.worker && s'.n == s.n
            && s'.hist.batch == s.hist.batch
  {
    assert u != t;
  }

  lemma MirrorReader<E>(s: State<E>, t: nat, u: nat, a: ReaderStep)
    requires At(s, t) && s.threads[t].pc.RLeave? && s.sem == Some(t)
    requires ReaderEnabled(s, u, a) && a != RLeaveExit
    ensures ReaderEnabled(InOrder(s, t), u, a)
    ensures InOrder(ReaderApply(s, u, a), t) == ReaderApply(InOrder(s, t), u, a)
    ensures var s' := ReaderApply(s, u, a);
            s'.sem == s.sem && At(s', t) && s'.threads[t] == s.threads[t] && s'.worker == s.worker && s'.n == s.n
            && s'.hist.batch == s.hist.batch
  {
    assert u != t;
  }

  lemma MirrorWorker<E>(s: State<E>, t: nat, a: WorkerStep)
    requires At(s, t) && s.threads[t].pc.RLeave? && s.sem == Some(t) && WorkerEnabled(s, a)
    requires InHand(InOrder(s, t))
    requires s.worker.Counted? || InBatch(s.worker) ==> s.n == |s.hist.batch|
    ensures WorkerEnabled(InOrder(s, t), a) && InOrder(s, t).sem.None?
    ensures InOrder(WorkerApply(s, a), t) == WorkerApply(InOrder(s, t), a)
    ensures var s' := WorkerApply(s, a);
            && s'.sem == s.sem && At(s', t) && s'.threads[t] == s.threads[t]
            && (s'.worker.Counted? || InBatch(s'.worker) ==> s'.n == |s'.hist.batch|)
  {
  }

  lemma HandOf<E>(s: State<E>)
    requires Inv(s)
    ensures InHand(s)
  {
  }

  lemma Mirror<E(!new)>(s: State<E>, t: nat, e: Event<E>)
    requires Late(s, t) && Enabled(s, e) && e != Reader(t, RLeaveExit)
    ensures Enabled(InOrder(s, t), e) && Ordered(InOrder(s, t), e)
    ensures var s' := Apply(s, e);
            && s'.sem == s.sem && At(s', t) && s'.threads[t] == s.threads[t]
            && InOrder(s', t) == Apply(InOrder(s, t), e)
            && (s'.worker.Counted? || InBatch(s'.worker) ==> s'.n == |s'.hist.batch|)
  {
    hide Inv, Reachable, InHand, InOrder, WriterApply, ReaderApply, WorkerApply, WriterEnabled, WorkerEnabled;
    ReachableInv(InOrder(s, t));
    HandOf(InOrder(s, t));
    match e {
      case Writer(u, a) => MirrorWriter(s, t, u, a);
      case Reader(u, a) => MirrorReader(s, t, u, a);
      case Worker(a) => MirrorWorker(s, t, a);
    }
  }

  /** Every other step, another early count included, leaves the decrement pending. */
  lemma LateStep<E(!new)>(s: State<E>, t: nat, e: Event<E>)
    requires Late(s, t) && Enabled(s, e) && e != Reader(t, RLeaveExit)
    ensures Late(Apply(s, e), t)
  {
    Mirror(s, t, e);
    hide Reachable, Apply, Enabled, InOrder;
    ReachableStep(InOrder(s, t), e);
  }

  // ---- the worker is not between a count and the end of its batch ---------------------

  /** The worker will count before it looks at the counter again. */
  predicate BeforeCount(w: WorkerPc) {
    w.Waiting? || w.Awake? || w.GotWriter? || w.AwaitWriter? || w.Counting?
  }

  lemma NobodyExits<E>(s: State<E>)
    requires Control(s) && BeforeCount(s.worker) && s.sem.None?
    ensures forall t: nat :: t < |s.threads| ==> !IsOpen(s.threads[t])
  {
    assert Opens(s.threads) == 0 by {
      hide Sum, Opens, Pres, Posts, Leaves;
    }
    NoneOpen(s.threads);
  }

  lemma UnreadByThread<E>(s: State<E>, m: nat, e: Event<E>)
    requires BeforeCount(s.worker) && s.sem.None? && !e.Worker?
    requires forall t: nat :: t < |s.threads| ==> !IsOpen(s.threads[t])
    ensures Enabled(s.(n := m), e) <==> Enabled(s, e)
    ensures Enabled(s, e) ==>
              && Apply(s.(n := m), e) == Apply(s, e).(n := m)
              && Apply(s, e).worker == s.worker && Apply(s, e).sem.None? && Apply(s, e).n == s.n
  {
  }

  lemma UnreadByWorker<E>(s: State<E>, m: nat, a: WorkerStep)
    requires BeforeCount(s.worker)
    ensures WorkerEnabled(s.(n := m), a) <==> WorkerEnabled(s, a)
    ensures WorkerEnabled(s, a) ==>
              var s' := WorkerApply(s, a);
              && WorkerApply(s.(n := m), a) == (if a.CountReaders? then s' else s'.(n := m))
              && s'.sem == s.sem && (!a.CountReaders? ==> s'.n == s.n)
  {
  }

  lemma BeforeCountStays<E>(s: State<E>, a: WorkerStep)
    requires Phase(s) && BeforeCount(s.worker) && WorkerEnabled(s, a) && !a.CountReaders?
    ensures BeforeCount(WorkerApply(s, a).worker)
  {
    hide Sum, Opens, Pres, Posts, Leaves;
  }

  lemma ControlOf<E>(s: State<E>)
    requires Inv(s)
    ensures Control(s)
  {
  }

  /** Before the next count no step reads the counter, and the count overwrites it. */
  lemma CounterUnread<E>(s: State<E>, m: nat, e: Event<E>)
    requires Inv(s) && BeforeCount(s.worker) && s.sem.None?
    ensures Enabled(s.(n := m), e) <==> Enabled(s, e)
    ensures Enabled(s, e) ==>
              && Apply(s.(n := m), e) == (if Counts(e) then Apply(s, e) else Apply(s, e).(n := m))
              && Apply(s, e).sem.None?
              && (!Counts(e) ==> BeforeCount(Apply(s, e).worker) && Apply(s, e).n == s.n)
  {
    ControlOf(s);
    NobodyExits(s);
    hide Inv, BeforeCount, Accounting, SemOk, Phase, IsOpen, Apply, Enabled;
    if e.Worker? {
      UnreadByWorker(s, m, e.k);
      hide WorkerApply, WorkerEnabled;
      if Enabled(s, e) && !Counts(e) {
        BeforeCountStays(s, e.k);
      }
    } else {
      UnreadByThread(s, m, e);
    }
  }

  predicate Counts<E>(e: Event<E>) {
    e == Worker(CountReaders)
  }

  lemma {:induction false} CounterUnreadRun<E>(s: State<E>, m: nat, trace: seq<Event<E>>)
    requires Inv(s) && BeforeCount(s.worker) && s.sem.None?
    requires forall i :: 0 <= i < |trace| ==> !Counts(trace[i])
    ensures Run(s.(n := m), trace).Some? <==> Run(s, trace).Some?
    ensures Run(s, trace).Some? ==>
              var s' := Run(s, trace).value;
              Inv(s') && BeforeCount(s'.worker) && s'.sem.None? && Run(s.(n := m), trace).value == s'.(n := m)
    decreases |trace|
  {
    hide Inv, Apply, Enabled, BeforeCount;
    if trace == [] {
    } else {
      var front, e := trace[..|trace| - 1], trace[|trace| - 1];
      CounterUnreadRun(s, m, front);
      if Run(s, front).Some? {
        var s1 := Run(s, front).value;
        assert !Counts(e);
        CounterUnread(s1, m, e);
        if Enabled(s1, e) {
          StepInv(s1, e);
        }
      }
    }
  }

  /** If the worker is not between a count and the end of its batch when the late decrement
      comes, no harm is done: whatever happens up to the next count, the count leaves the same
      state as if the decrement had come in order. */
  lemma HarmlessBeforeCount<E(!new)>(s: State<E>, t: nat, trace: seq<Event<E>>)
    requires Late(s, t) && BeforeCount(s.worker) && forall i :: 0 <= i < |trace| ==> !Counts(trace[i])
    ensures ReaderEnabled(s, t, RLeaveExit)
    ensures Run(ReaderApply(s, t, RLeaveExit), trace + [Worker(CountReaders)])
         == Run(InOrder(s, t), trace + [Worker(CountReaders)])
  {
    hide Inv, Reachable, Apply, Enabled, BeforeCount, InOrder, Decrement, ReaderApply, ReaderEnabled;
    AtDecrement(s, t);
    ReachableInv(InOrder(s, t));
    var o, m := InOrder(s, t), Decrement(s.n);
    CounterUnreadRun(o, m, trace);
    assert (trace + [Worker(CountReaders)])[..|trace|] == trace;
    if Run(o, trace).Some? {
      CounterUnread(Run(o, trace).value, m, Worker(CountReaders));
    }
  }

  // ---- the worker has counted nobody and not tested the count -------------------------

  /** The worker can take every queued reader and then the NULL of the empty queue. */
  lemma {:induction false} DrainsAndCrashes<E>(s: State<E>) returns (trace: seq<Event<E>>)
    requires s.worker.Granting? && s.worker.i + |s.readerQ| < s.worker.limit
    requires forall j :: 0 <= j < |s.readerQ| ==> At(s, s.readerQ[j])
    ensures Run(s, trace).Some? && Run(s, trace).value.worker == Crashed
    ensures forall j :: 0 <= j < |trace| ==> trace[j].Worker?
    decreases |s.readerQ|
  {
    var s1 := WorkerApply(s, TakeReader);
    assert Run(s, []) == Some(s);
    if s.readerQ == [] {
      trace := [Worker(TakeReader)];
      assert trace[..0] == [];
    } else {
      var s2 := WorkerApply(s1, GrantReader);
      var two: seq<Event<E>> := [Worker(TakeReader), Worker(GrantReader)];
      assert two[..1] == [Worker(TakeReader)] && two[..1][..0] == [];
      assert Run(s, two[..1]) == Some(s1) && Run(s, two) == Some(s2);
      var rest := DrainsAndCrashes(s2);
      RunAppend(s, two, rest);
      trace := two + rest;
    }
  }

  lemma ReadersExist<E>(s: State<E>)
    requires Inv(s)
    ensures |s.readerQ| <= Q_SIZE && forall j :: 0 <= j < |s.readerQ| ==> At(s, s.readerQ[j])
  {
    hide Control, Fifo, Members, WriterFifo, Data, Delivery, GoodLog, Located;
  }

  /** If the worker has counted nobody and the decrement comes before it tests that, the counter
      wraps to 2^32 - 1: the worker cannot drop the update any more, starts a batch of that many
      readers, and can take all queued readers and then dereference a NULL. */
  lemma LateDecrementCrashes<E(!new)>(s: State<E>, t: nat) returns (trace: seq<Event<E>>)
    requires Late(s, t) && s.worker.Counted? && s.n == 0
    ensures ReaderEnabled(s, t, RLeaveExit)
    ensures var s1 := ReaderApply(s, t, RLeaveExit);
            && s1.n == UINT32 - 1 && !WorkerEnabled(s1, Drop) && WorkerEnabled(s1, Snapshot)
            && var s2 := WorkerApply(WorkerApply(s1, Snapshot), StartBatch);
               && s2.worker == Granting(0, UINT32 - 1)
               && Run(s2, trace).Some? && Run(s2, trace).value.worker == Crashed
    ensures forall j :: 0 <= j < |trace| ==> trace[j].Worker?
  {
    hide Inv, Reachable, InOrder;
    AtDecrement(s, t);
    ReachableInv(InOrder(s, t));
    ReadersExist(InOrder(s, t));
    var s2 := WorkerApply(WorkerApply(ReaderApply(s, t, RLeaveExit), Snapshot), StartBatch);
    assert s2.threads == InOrder(s, t).threads && s2.readerQ == s.readerQ;
    trace := DrainsAndCrashes(s2);
  }

  // ---- the worker has counted somebody and not started the loop -----------------------

  /** The same state with the last counted reader left out of the batch. */
  function WithoutLast<E>(s: State<E>): State<E>
    requires s.hist.batch != []
  {
    s.(hist := s.hist.(batch := s.hist.batch[..|s.hist.batch| - 1]))
  }

  lemma WithoutLastControl<E>(s: State<E>)
    requires Shape(s) && Control(s) && Located(s) && s.sem.None? && s.n == |s.hist.batch| > 0
    requires s.worker.Counted? || (s.worker.Built? && |s.hist.batch| > 1)
    ensures var s' := WithoutLast(s).(n := s.n - 1); Shape(s') && Control(s') && Located(s')
  {
    hide Sum, Opens, Pres, Posts, Leaves;
  }

  lemma WithoutLastFifo<E>(s: State<E>)
    requires Fifo(s) && Members(s) && s.n == |s.hist.batch| > 0 && (s.worker.Counted? || s.worker.Built?)
    ensures var s' := WithoutLast(s).(n := s.n - 1); Fifo(s') && Members(s')
  {
    hide Readers;
    var s' := WithoutLast(s).(n := s.n - 1);
    assert s'.hist.batch[..0] == s.hist.batch[..0];
  }

  lemma WithoutLastData<E>(s: State<E>)
    requires WriterFifo(s) && Data(s) && Delivery(s) && GoodLog(s) && s.n == |s.hist.batch| > 0
    requires s.worker.Counted? || (s.worker.Built? && |s.hist.batch| > 1)
    ensures var s' := WithoutLast(s).(n := s.n - 1); WriterFifo(s') && Data(s') && Delivery(s') && GoodLog(s')
  {
    hide Sum, Opens, Replay, Writes, GoodCycle;
  }

  lemma WithoutLastOk<E>(s: State<E>)
    requires Inv(s) && s.sem.None? && s.n == |s.hist.batch| > 0
    requires s.worker.Counted? || (s.worker.Built? && |s.hist.batch| > 1)
    ensures Inv(WithoutLast(s).(n := s.n - 1))
  {
    hide Shape, Control, Fifo, Members, WriterFifo, Data, Delivery, GoodLog, Located;
    WithoutLastControl(s);
    WithoutLastFifo(s);
    WithoutLastData(s);
  }

  lemma HistoryUnreadByWriter<E>(a: State<E>, b: State<E>, t: nat, w: WriterStep<E>)
    requires b == a.(hist := b.hist)
    ensures WriterEnabled(a, t, w) <==> WriterEnabled(b, t, w)
    ensures WriterEnabled(a, t, w) ==> WriterApply(b, t, w) == WriterApply(a, t, w).(hist := WriterApply(b, t, w).hist)
  {
  }

  lemma HistoryUnreadByReader<E>(a: State<E>, b: State<E>, t: nat, r: ReaderStep)
    requires b == a.(hist := b.hist)
    ensures ReaderEnabled(a, t, r) <==> ReaderEnabled(b, t, r)
    ensures ReaderEnabled(a, t, r) ==> ReaderApply(b, t, r) == ReaderApply(a, t, r).(hist := ReaderApply(b, t, r).hist)
  {
  }

  lemma HistoryUnreadByWorker<E>(a: State<E>, b: State<E>, k: WorkerStep)
    requires b == a.(hist := b.hist)
    ensures WorkerEnabled(a, k) <==> WorkerEnabled(b, k)
    ensures WorkerEnabled(a, k) ==> WorkerApply(b, k) == WorkerApply(a, k).(hist := WorkerApply(b, k).hist)
  {
  }

  /** No step reads the history. */
  lemma HistoryUnread<E>(a: State<E>, b: State<E>, e: Event<E>)
    requires b == a.(hist := b.hist)
    ensures Enabled(a, e) <==> Enabled(b, e)
    ensures Enabled(a, e) ==> Apply(b, e) == Apply(a, e).(hist := Apply(b, e).hist)
  {
    hide WriterEnabled, ReaderEnabled, WorkerEnabled, WriterApply, ReaderApply, WorkerApply;
    match e {
      case Writer(t, w) => HistoryUnreadByWriter(a, b, t, w);
      case Reader(t, r) => HistoryUnreadByReader(a, b, t, r);
      case Worker(k) => HistoryUnreadByWorker(a, b, k);
    }
  }

  predicate EndsCycle<E>(e: Event<E>) {
    e.Worker? && (e.k.Drop? || e.k.BatchDone?)
  }

  /** Behind the readers of the open batch this thread is the first one queued. */
  ghost predicate Behind<E>(s: State<E>, x: nat) {
    && (s.worker.Counted? || InBatch(s.worker)) && Taken(s.worker) <= |s.hist.batch|
    && |s.hist.batch| - Taken(s.worker) < |s.readerQ| && s.readerQ[|s.hist.batch| - Taken(s.worker)] == x
  }

  lemma BehindThread<E>(s: State<E>, e: Event<E>, x: nat)
    requires Behind(s, x) && Enabled(s, e) && !e.Worker?
    ensures Behind(Apply(s, e), x)
  {
  }

  lemma BehindWorker<E>(s: State<E>, a: WorkerStep, x: nat)
    requires Phase(s) && Behind(s, x) && WorkerEnabled(s, a) && !a.Drop? && !a.BatchDone?
    ensures Behind(WorkerApply(s, a), x)
  {
    hide Sum, Opens, Pres, Posts, Leaves;
  }

  lemma BehindStep<E>(s: State<E>, e: Event<E>, x: nat)
    requires Phase(s) && Behind(s, x) && Enabled(s, e) && !EndsCycle(e)
    ensures Behind(Apply(s, e), x)
  {
    hide Phase, Behind, WorkerApply, WorkerEnabled;
    if e.Worker? {
      BehindWorker(s, e.k, x);
    } else {
      hide Apply, Enabled;
      BehindThread(s, e, x);
    }
  }

  /** The run goes on as it would with a smaller batch. */
  lemma {:induction false} BehindRun<E>(s: State<E>, o: State<E>, trace: seq<Event<E>>, x: nat)
    requires o == s.(hist := o.hist) && Inv(o) && Behind(o, x)
    requires Run(s, trace).Some? && forall i :: 0 <= i < |trace| ==> !EndsCycle(trace[i])
    ensures Run(o, trace).Some?
    ensures var s', o' := Run(s, trace).value, Run(o, trace).value;
            o' == s'.(hist := o'.hist) && Inv(o') && Behind(o', x)
    decreases |trace|
  {
    hide Inv, Behind, Apply, Enabled;
    if trace == [] {
    } else {
      var front, e := trace[..|trace| - 1], trace[|trace| - 1];
      BehindRun(s, o, front, x);
      var s1, o1 := Run(s, front).value, Run(o, front).value;
      HistoryUnread(s1, o1, e);
      StepInv(o1, e);
      PhaseOf(o1);
      BehindStep(o1, e, x);
    }
  }

  lemma FifoOf<E>(s: State<E>)
    requires Inv(s)
    ensures Fifo(s)
  {
  }

  lemma PhaseOf<E>(s: State<E>)
    requires Inv(s)
    ensures Phase(s)
  {
  }

  /** At the end of a cycle the update is gone, and who stood behind the batch is first. */
  lemma BehindAtEnd<E>(s: State<E>, o: State<E>, a: WorkerStep, x: nat)
    requires o == s.(hist := o.hist) && Inv(o) && Behind(o, x)
    requires WorkerEnabled(s, a) && EndsCycle<E>(Worker(a))
    ensures var s' := WorkerApply(s, a);
            s'.worker.Waiting? && s'.changes == [] && s'.readerQ != [] && s'.readerQ[0] == x
  {
    SchedulerWorker.BatchTaken(o, a);
    hide Sum, Opens, Pres, Posts, Leaves;
  }

  /** If the worker has counted readers but not started the loop, or not even tested the count
      when there is one, the last counted reader misses the update: whatever happens until the
      cycle ends, that reader stays queued, and the end of the cycle leaves it first in the
      queue and the change list empty. With one reader counted, the worker drops the update. */
  lemma LastReaderMisses<E(!new)>(s: State<E>, t: nat, trace: seq<Event<E>>)
    requires Late(s, t) && s.n > 0 && (s.worker.Counted? || (s.worker.Built? && s.n > 1))
    requires Run(ReaderApply(s, t, RLeaveExit), trace).Some?
    requires forall i :: 0 <= i < |trace| ==> !EndsCycle(trace[i])
    ensures var x, s' := s.hist.batch[s.n - 1], Run(ReaderApply(s, t, RLeaveExit), trace).value;
            && x in s'.readerQ
            && forall a: WorkerStep :: WorkerEnabled(s', a) && EndsCycle<E>(Worker(a)) ==>
                 var s2 := WorkerApply(s', a);
                 s2.worker.Waiting? && s2.changes == [] && s2.readerQ != [] && s2.readerQ[0] == x
  {
    hide Inv, Reachable, Fifo, InOrder, ReaderApply, WorkerApply, WorkerEnabled, Behind, Run;
    AtDecrement(s, t);
    var d, o := ReaderApply(s, t, RLeaveExit), InOrder(s, t);
    ReachableInv(o);
    ReadersExist(o);
    WithoutLastOk(o);
    var x, c := s.hist.batch[s.n - 1], WithoutLast(o).(n := o.n - 1);
    FifoOf(o);
    CountedLast(o, c);
    assert Decrement(s.n) == s.n - 1;
    BehindRun(d, c, trace, x);
    var s', c' := Run(d, trace).value, Run(c, trace).value;
    BehindQueued(c', x);
    forall a: WorkerStep | WorkerEnabled(s', a) && EndsCycle<E>(Worker(a))
      ensures var s2 := WorkerApply(s', a);
              s2.worker.Waiting? && s2.changes == [] && s2.readerQ != [] && s2.readerQ[0] == x
    {
      BehindAtEnd(s', c', a, x);
    }
  }

  lemma BehindQueued<E>(s: State<E>, x: nat)
    requires Behind(s, x)
    ensures x in s.readerQ
  {
  }

  lemma CountedLast<E>(s: State<E>, c: State<E>)
    requires Fifo(s) && (s.worker.Counted? || s.worker.Built?) && s.hist.batch != [] && s.n > 0
    requires c == WithoutLast(s).(n := s.n - 1)
    ensures Behind(c, s.hist.batch[|s.hist.batch| - 1])
  {
    hide Readers, NoDup;
    assert s.hist.batch[0..] == s.hist.batch;
  }
}
