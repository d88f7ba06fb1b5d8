/** The steps of a writer keep the invariant. */
module SchedulerWriters {
  import opened Limits
  import opened Sequences
  import opened TableSpec
  import opened SchedulerSpec
  import opened SchedulerInvariant

  ghost predicate Next<E>(s: State<E>, t: nat, a: WriterStep<E>, s': State<E>) {
    WriterEnabled(s, t, a) && s' == WriterApply(s, t, a)
  }

  /** What no writer step changes, and how it moves its thread between the classes. */
  lemma Same<E>(s: State<E>, t: nat, a: WriterStep<E>, s': State<E>)
    requires Next(s, t, a, s') && ThreadsOk(s.threads)
    ensures t < |s.threads| && s'.threads == s.threads[t := s'.threads[t]]
    ensures s'.add == s.add && s'.worker == s.worker && s'.readerQ == s.readerQ && s'.hist.arrived == s.hist.arrived
    ensures s'.n == s.n && s'.sem == s.sem && s'.vector == s.vector && s'.count == s.count
    ensures s'.hist.log == s.hist.log && s'.hist.cur == s.hist.cur
    ensures s'.hist.batch == s.hist.batch && s'.hist.exits == s.hist.exits
    ensures s'.writerQ == s.writerQ || (|s.writerQ| < Q_SIZE && s'.writerQ == s.writerQ + [t] && a.WEnqueue?)
    ensures var before, after := s.threads[t], s'.threads[t];
            && !IsOpen(before) && !IsOpen(after) && !IsLeaving(before) && !IsLeaving(after)
            && s'.workerDone + PreW(after) + PostW(after) == s.workerDone + PreW(before) + PostW(before)
            && (PreW(after) != PreW(before) <==> a.WApply?)
            && (a.WApply? <==> IsPre(before) && IsPost(after))
    ensures a.WApply? ==>
              && s.threads[t].pc.WRun?
              && var op := s.threads[t].pc.op;
                 s'.table == ApplyTable(s.add, op, s.table) && s'.changes == Broadcast(s.add, op) + s.changes
    ensures !a.WApply? ==> s'.table == s.table && s'.changes == s.changes
  {
  }

  lemma KeepsThreads<E>(s: State<E>, t: nat, a: WriterStep<E>, s': State<E>)
    requires Next(s, t, a, s') && ThreadsOk(s.threads)
    ensures ThreadsOk(s'.threads)
  {
  }

  lemma KeepsWriterQueue<E>(s: State<E>, t: nat, a: WriterStep<E>, s': State<E>)
    requires Next(s, t, a, s') && ThreadsOk(s.threads) && QueueOk(s.threads, s.writerQ, true)
    ensures QueueOk(s'.threads, s'.writerQ, true)
  {
  }

  lemma KeepsReaderQueue<E>(s: State<E>, t: nat, a: WriterStep<E>, s': State<E>)
    requires Next(s, t, a, s') && QueueOk(s.threads, s.readerQ, false)
    ensures QueueOk(s'.threads, s'.readerQ, false)
  {
    hide NoDup;
  }

  lemma KeepsInHand<E>(s: State<E>, t: nat, a: WriterStep<E>, s': State<E>)
    requires Next(s, t, a, s') && InHand(s)
    ensures InHand(s')
  {
  }

  lemma KeepsShape<E>(s: State<E>, t: nat, a: WriterStep<E>, s': State<E>)
    requires Next(s, t, a, s') && Shape(s)
    ensures Shape(s')
  {
    hide Next, ThreadsOk, QueueOk, InHand;
    KeepsThreads(s, t, a, s');
    KeepsWriterQueue(s, t, a, s');
    KeepsReaderQueue(s, t, a, s');
    KeepsInHand(s, t, a, s');
  }

  lemma KeepsControl<E>(s: State<E>, t: nat, a: WriterStep<E>, s': State<E>)
    requires Next(s, t, a, s') && ThreadsOk(s.threads) && Control(s)
    ensures Control(s')
  {
    Same(s, t, a, s');
    hide Next, ThreadsOk, Sum, Opens, Pres, Posts, Leaves;
    Change(s.threads, t, s'.threads[t]);
  }

  lemma KeepsFifo<E>(s: State<E>, t: nat, a: WriterStep<E>, s': State<E>)
    requires Next(s, t, a, s') && Fifo(s)
    ensures Fifo(s')
  {
    hide Readers;
  }

  lemma KeepsMembers<E>(s: State<E>, t: nat, a: WriterStep<E>, s': State<E>)
    requires Next(s, t, a, s') && Shape(s) && Members(s)
    ensures Members(s')
  {
    hide Partition;
    PartitionSame(s.threads, Granted(s.worker), s.hist.batch, Tids(s.hist.exits), t, s'.threads[t]);
  }

  lemma KeepsWriterFifo<E>(s: State<E>, t: nat, a: WriterStep<E>, s': State<E>)
    requires Next(s, t, a, s') && Shape(s) && WriterFifo(s)
    ensures WriterFifo(s')
  {
    hide Writes;
  }

  /** The one change: the granted writer's operation, on a table and a change list that hold
      only the completed cycles. */
  lemma KeepsDataApplying<E>(s: State<E>, t: nat, a: WriterStep<E>, s': State<E>)
    requires Next(s, t, a, s') && ThreadsOk(s.threads) && Control(s) && WriterFifo(s) && Data(s) && a.WApply?
    ensures Data(s')
  {
    Same(s, t, a, s');
    assert s.hist.cur.Some? && s.threads[t].pc.op == s.hist.cur.value.op;
    hide Next, ThreadsOk, WriterFifo, Sum, Opens, Pres, Posts, Leaves, Replay, ApplyTable;
    Change(s.threads, t, s'.threads[t]);
  }

  lemma KeepsData<E>(s: State<E>, t: nat, a: WriterStep<E>, s': State<E>)
    requires Next(s, t, a, s') && ThreadsOk(s.threads) && Control(s) && WriterFifo(s) && Data(s)
    ensures Data(s')
  {
    if a.WApply? {
      hide Next, ThreadsOk, Control, WriterFifo, Data;
      KeepsDataApplying(s, t, a, s');
    } else {
      Same(s, t, a, s');
      hide Next, ThreadsOk, Control, WriterFifo, Sum, Opens, Pres, Posts, Leaves, Replay, ApplyTable;
      Change(s.threads, t, s'.threads[t]);
    }
  }

  lemma KeepsDelivery<E>(s: State<E>, t: nat, a: WriterStep<E>, s': State<E>)
    requires Next(s, t, a, s') && Delivery(s)
    ensures Delivery(s')
  {
  }

  lemma KeepsLocated<E>(s: State<E>, t: nat, a: WriterStep<E>, s': State<E>)
    requires Next(s, t, a, s') && Shape(s) && Located(s)
    ensures Located(s')
  {
    hide NoDup;
  }

  lemma Keeps<E>(s: State<E>, t: nat, a: WriterStep<E>, s': State<E>)
    requires Next(s, t, a, s') && Inv(s)
    ensures Inv(s')
  {
    Same(s, t, a, s');
    hide Next, ThreadsOk, QueueOk, InHand, Control, Fifo, Members, WriterFifo, Data, Delivery, Located;
    assert ThreadsOk(s.threads);
    hide Shape;
    KeepsShape(s, t, a, s');
    KeepsControl(s, t, a, s');
    KeepsFifo(s, t, a, s');
    KeepsMembers(s, t, a, s');
    KeepsWriterFifo(s, t, a, s');
    KeepsData(s, t, a, s');
    KeepsDelivery(s, t, a, s');
    KeepsLocated(s, t, a, s');
  }
}
