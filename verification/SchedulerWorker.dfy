/** The steps of the worker keep the invariant, if it counts readers only when nobody is
    inside the exit section. */
module SchedulerWorker {
  import opened Sequences
  import opened TableSpec
  import opened SchedulerSpec
  import opened SchedulerInvariant

  ghost predicate Next<E>(s: State<E>, a: WorkerStep, s': State<E>) {
    WorkerEnabled(s, a) && (a.CountReaders? ==> s.sem.None?) && s' == WorkerApply(s, a)
  }

  predicate Grants(a: WorkerStep) {
    a.GrantWriter? || a.GrantReader?
  }

  function Grantee<E>(s: State<E>, a: WorkerStep): nat
    requires WorkerEnabled(s, a) && Grants(a)
  {
    if a.GrantWriter? then s.worker.w else s.worker.r
  }

  predicate Dequeues(a: WorkerStep) {
    a.DequeueWriter? || a.TakeReader?
  }

  lemma KeepsShapeDequeuing<E>(s: State<E>, a: WorkerStep, s': State<E>)
    requires Next(s, a, s') && Shape(s) && Control(s) && Fifo(s) && Dequeues(a)
    ensures Shape(s')
  {
    hide Sum, Opens, Pres, Posts, Leaves, Readers;
  }

  lemma KeepsShape<E>(s: State<E>, a: WorkerStep, s': State<E>)
    requires Next(s, a, s') && Shape(s) && !Dequeues(a)
    ensures Shape(s')
  {
  }

  lemma KeepsControl<E>(s: State<E>, a: WorkerStep, s': State<E>)
    requires Next(s, a, s') && Shape(s) && Control(s) && Fifo(s)
    ensures Control(s')
  {
    hide Sum, Opens, Pres, Posts, Leaves, Readers;
    if Grants(a) {
      Change(s.threads, Grantee(s, a), s'.threads[Grantee(s, a)]);
    }
  }

  /** A cycle ends when its whole batch was taken. */
  lemma BatchTaken<E>(s: State<E>, a: WorkerStep)
    requires Phase(s) && Fifo(s) && WorkerEnabled(s, a) && (a.Drop? || a.BatchDone?)
    ensures Taken(s.worker) == |s.hist.batch|
  {
    hide Sum, Opens, Pres, Posts, Leaves, Readers, NoDup;
  }

  lemma KeepsFifoAtEnd<E>(s: State<E>, a: WorkerStep, s': State<E>)
    requires Next(s, a, s') && Fifo(s) && s.hist.cur.Some? && (a.Drop? || a.BatchDone?)
    requires Taken(s.worker) == |s.hist.batch|
    ensures Fifo(s')
  {
    hide Readers;
    ReadersAppend(s.hist.log, Cycle(s.hist.cur.value, s.hist.batch, s.hist.exits));
    assert s.hist.batch[..|s.hist.batch|] == s.hist.batch;
    assert s'.hist.batch == [] && s'.worker == Waiting;
  }

  /** Moving the first reader of a queue over to the readers taken. */
  lemma TakeFront<T>(r: seq<T>, b: seq<T>, i: nat, q: seq<T>)
    requires i < |b| && b[i..] <= q
    ensures q != [] && q[0] == b[i] && b[i + 1..] <= q[1..]
    ensures r + b[..i] + q == r + b[..i + 1] + q[1..]
  {
    assert q[0] == b[i..][0];
    assert b[..i + 1] == b[..i] + [b[i]];
    assert q == [q[0]] + q[1..];
  }

  lemma AfterTaking<E>(s: State<E>)
    requires WorkerEnabled(s, TakeReader) && s.readerQ != []
    ensures var s' := WorkerApply(s, TakeReader);
            && s'.worker == GotReader(s.worker.i, s.worker.limit, s.readerQ[0]) && s'.readerQ == s.readerQ[1..]
            && s'.hist == s.hist
  {
  }

  lemma KeepsFifoTaking<E>(s: State<E>, s': State<E>)
    requires Next(s, TakeReader, s') && Fifo(s) && s.worker.i < |s.hist.batch|
    ensures Fifo(s')
  {
    TakeFront(Readers(s.hist.log), s.hist.batch, s.worker.i, s.readerQ);
    AfterTaking(s);
    hide Readers, NoDup, WorkerApply;
  }

  lemma KeepsFifoElse<E>(s: State<E>, a: WorkerStep, s': State<E>)
    requires Next(s, a, s') && Fifo(s) && QueueOk(s.threads, s.readerQ, false)
    requires !a.Drop? && !a.BatchDone? && !a.TakeReader?
    ensures Fifo(s')
  {
    hide Readers;
  }

  lemma InRange<E>(s: State<E>)
    requires Phase(s) && s.worker.Granting? && s.worker.i < s.worker.limit
    ensures s.worker.i < |s.hist.batch|
  {
    hide Sum, Opens, Pres, Posts, Leaves;
  }

  lemma KeepsFifo<E>(s: State<E>, a: WorkerStep, s': State<E>)
    requires Next(s, a, s') && Shape(s) && Control(s) && Fifo(s) && WriterFifo(s)
    ensures Fifo(s')
  {
    assert a.Drop? || a.BatchDone? ==> s.hist.cur.Some?;
    hide Next, QueueOk, Phase, Fifo, WriterFifo;
    if a.Drop? || a.BatchDone? {
      BatchTaken(s, a);
      KeepsFifoAtEnd(s, a, s');
    } else if a.TakeReader? {
      InRange(s);
      KeepsFifoTaking(s, s');
    } else {
      KeepsFifoElse(s, a, s');
    }
  }

  lemma NextInBatch<E>(s: State<E>)
    requires Shape(s) && Fifo(s) && s.worker.GotReader?
    ensures NoDup(s.hist.batch) && s.worker.i < |s.hist.batch| && s.worker.r == s.hist.batch[s.worker.i]
    ensures At(s, s.worker.r) && s.threads[s.worker.r].pc.RQueued? && s.threads[s.worker.r].done == 0
  {
  }

  lemma KeepsMembersGranting<E>(s: State<E>, s': State<E>)
    requires Next(s, GrantReader, s') && Shape(s) && Fifo(s) && Members(s)
    ensures Members(s')
  {
    hide Partition, Shape, Fifo;
    NextInBatch(s);
    PartitionEnter(s.threads, s.worker.i, s.hist.batch, Tids(s.hist.exits), s.worker.r, s'.threads[s.worker.r]);
  }

  lemma KeepsMembersElse<E>(s: State<E>, a: WorkerStep, s': State<E>)
    requires Next(s, a, s') && Control(s) && Fifo(s) && Members(s) && WriterFifo(s) && !a.GrantReader?
    ensures Members(s')
  {
    hide Sum, Opens, Pres, Posts, Leaves, Readers;
    if Opens(s.threads) == 0 {
      NoneOpen(s.threads);
    }
  }

  predicate StartsOrEnds(a: WorkerStep) {
    a.DequeueWriter? || a.Drop? || a.BatchDone?
  }

  lemma KeepsWriterFifo<E>(s: State<E>, a: WorkerStep, s': State<E>)
    requires Next(s, a, s') && Shape(s) && WriterFifo(s) && !StartsOrEnds(a)
    ensures WriterFifo(s')
  {
    hide Writes;
  }

  lemma KeepsWriterFifoAtStart<E>(s: State<E>, s': State<E>)
    requires Next(s, DequeueWriter, s') && WriterFifo(s) && s.writerQ != []
    requires forall t :: 0 <= t < |s.threads| ==> !IsPre(s.threads[t]) && !IsPost(s.threads[t])
    ensures WriterFifo(s')
  {
    hide Writes;
  }

  lemma KeepsWriterFifoAtEnd<E>(s: State<E>, a: WorkerStep, s': State<E>)
    requires Next(s, a, s') && WriterFifo(s) && (a.Drop? || a.BatchDone?)
    requires forall t :: 0 <= t < |s.threads| ==> !IsPre(s.threads[t]) && !IsPost(s.threads[t])
    ensures WriterFifo(s')
  {
  }

  lemma NobodyWrites<E>(s: State<E>, a: WorkerStep)
    requires Phase(s) && WorkerEnabled(s, a) && StartsOrEnds(a)
    ensures Pres(s.threads) + Posts(s.threads) == 0 && (a.DequeueWriter? ==> s.writerQ != [])
  {
    hide Sum, Opens, Pres, Posts, Leaves;
  }

  lemma KeepsWriterFifoAtEnds<E>(s: State<E>, a: WorkerStep, s': State<E>)
    requires Next(s, a, s') && Control(s) && WriterFifo(s) && StartsOrEnds(a)
    ensures WriterFifo(s')
  {
    NobodyWrites(s, a);
    NoneWriting(s.threads);
    hide Next, WriterFifo, Control, Pres, Posts;
    if a.DequeueWriter? {
      KeepsWriterFifoAtStart(s, s');
    } else {
      KeepsWriterFifoAtEnd(s, a, s');
    }
  }

  predicate Prepares(a: WorkerStep) {
    a.CountReaders? || a.Snapshot? || a.StartBatch?
  }

  lemma KeepsDataPreparing<E>(s: State<E>, a: WorkerStep, s': State<E>)
    requires Next(s, a, s') && Control(s) && Fifo(s) && WriterFifo(s) && Data(s) && Prepares(a)
    ensures Data(s')
  {
    hide Sum, Opens, Pres, Posts, Leaves, Replay, ApplyTable, NoDup, Readers, Writes;
  }

  lemma KeepsData<E>(s: State<E>, a: WorkerStep, s': State<E>)
    requires Next(s, a, s') && Control(s) && Fifo(s) && WriterFifo(s) && Data(s)
    requires !Prepares(a) && !Grants(a) && !a.Drop? && !a.BatchDone?
    ensures Data(s')
  {
    hide Sum, Opens, Pres, Posts, Leaves, Replay, ApplyTable, NoDup, Readers, Writes;
  }

  lemma KeepsDataGranting<E>(s: State<E>, a: WorkerStep, s': State<E>)
    requires Next(s, a, s') && Shape(s) && Control(s) && WriterFifo(s) && Data(s) && Grants(a)
    ensures Data(s')
  {
    hide Sum, Opens, Pres, Posts, Leaves, Replay, ApplyTable, NoDup, QueueOk;
    Change(s.threads, Grantee(s, a), s'.threads[Grantee(s, a)]);
  }

  lemma KeepsDataAtEnd<E>(s: State<E>, a: WorkerStep, s': State<E>)
    requires Next(s, a, s') && Control(s) && WriterFifo(s) && Data(s) && (a.Drop? || a.BatchDone?)
    ensures Data(s')
  {
    hide Sum, Opens, Pres, Posts, Leaves, Replay, ApplyTable;
    ReplayAppend(s.add, s.hist.log, Cycle(s.hist.cur.value, s.hist.batch, s.hist.exits));
  }

  /** Nobody has exited before the first grant of a batch. */
  lemma ExitsFollowGrants<E>(s: State<E>)
    requires Members(s) && s.hist.exits != []
    ensures Granted(s.worker) > 0
  {
    assert Tids(s.hist.exits)[0] in Tids(s.hist.exits);
  }

  lemma KeepsDelivery<E>(s: State<E>, a: WorkerStep, s': State<E>)
    requires Next(s, a, s') && Control(s) && Members(s) && WriterFifo(s) && Delivery(s)
    ensures Delivery(s')
  {
    hide Sum, Opens, Pres, Posts, Leaves, Partition;
    if Opens(s.threads) == 0 {
      NoneOpen(s.threads);
    }
    if s.hist.exits != [] {
      ExitsFollowGrants(s);
    }
  }

  /** When a batch is over, every one of its readers has exited. */
  lemma CycleComplete<E>(s: State<E>)
    requires Members(s) && Fifo(s) && Delivery(s) && s.hist.cur.Some?
    requires Opens(s.threads) == 0 && Granted(s.worker) == |s.hist.batch|
    ensures GoodCycle(s.add, Cycle(s.hist.cur.value, s.hist.batch, s.hist.exits))
  {
    NoneOpen(s.threads);
    var b := s.hist.batch;
    assert b[..|b|] == b;
    forall t ensures t in b <==> t in Tids(s.hist.exits) {
      if t in b {
        var j :| 0 <= j < |b| && b[j] == t;
        assert b[j] in Tids(s.hist.exits);
      }
    }
  }

  lemma KeepsGoodLog<E>(s: State<E>, a: WorkerStep, s': State<E>)
    requires Next(s, a, s') && Control(s) && Fifo(s) && Members(s) && WriterFifo(s) && Delivery(s) && GoodLog(s)
    ensures GoodLog(s')
  {
    hide Sum, Opens, Pres, Posts, Leaves, GoodCycle, Partition, Readers;
    if a.BatchDone? || a.Drop? {
      CycleComplete(s);
    }
  }

  lemma KeepsLocatedGranting<E>(s: State<E>, a: WorkerStep, s': State<E>)
    requires Next(s, a, s') && InHand(s) && Located(s) && Grants(a)
    ensures Located(s')
  {
  }

  lemma KeepsLocatedDequeuing<E>(s: State<E>, a: WorkerStep, s': State<E>)
    requires Next(s, a, s') && NoDup(s.writerQ) && NoDup(s.readerQ) && Located(s) && Dequeues(a)
    ensures Located(s')
  {
  }

  lemma KeepsLocatedElse<E>(s: State<E>, a: WorkerStep, s': State<E>)
    requires Next(s, a, s') && Located(s) && !Grants(a) && !Dequeues(a)
    ensures Located(s')
  {
  }

  lemma KeepsLocated<E>(s: State<E>, a: WorkerStep, s': State<E>)
    requires Next(s, a, s') && Shape(s) && Located(s)
    ensures Located(s')
  {
    if Grants(a) {
      hide Next, Located, QueueOk, ThreadsOk, InHand;
      KeepsLocatedGranting(s, a, s');
    } else if Dequeues(a) {
      hide Next, Located, NoDup, ThreadsOk, InHand;
      KeepsLocatedDequeuing(s, a, s');
    } else {
      hide Next, Located, Shape;
      KeepsLocatedElse(s, a, s');
    }
  }

  lemma Keeps<E>(s: State<E>, a: WorkerStep, s': State<E>)
    requires Next(s, a, s') && Inv(s)
    ensures Inv(s')
  {
    hide Shape, Control, Fifo, Members, WriterFifo, Data, Delivery, GoodLog, Located;
    if Dequeues(a) {
      KeepsShapeDequeuing(s, a, s');
    } else {
      KeepsShape(s, a, s');
    }
    KeepsControl(s, a, s');
    KeepsFifo(s, a, s');
    if a.GrantReader? {
      KeepsMembersGranting(s, s');
    } else {
      KeepsMembersElse(s, a, s');
    }
    if StartsOrEnds(a) {
      KeepsWriterFifoAtEnds(s, a, s');
    } else {
      KeepsWriterFifo(s, a, s');
    }
    if a.Drop? || a.BatchDone? {
      KeepsDataAtEnd(s, a, s');
    } else if Grants(a) {
      KeepsDataGranting(s, a, s');
    } else if Prepares(a) {
      KeepsDataPreparing(s, a, s');
    } else {
      KeepsData(s, a, s');
    }
    KeepsDelivery(s, a, s');
    KeepsGoodLog(s, a, s');
    KeepsLocated(s, a, s');
  }
}
