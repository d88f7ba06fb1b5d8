/** The steps of a subscriber keep the invariant. */
module SchedulerReaders {
  import opened Options
  import opened Sequences
  import opened TableSpec
  import opened SchedulerSpec
  import opened SchedulerInvariant

  ghost predicate Next<E>(s: State<E>, t: nat, a: ReaderStep, s': State<E>) {
    ReaderEnabled(s, t, a) && s' == ReaderApply(s, t, a)
  }

  /** What no reader step changes. */
  lemma Same<E>(s: State<E>, t: nat, a: ReaderStep, s': State<E>)
    requires Next(s, t, a, s')
    ensures t < |s.threads| && s'.threads == s.threads[t := s'.threads[t]]
    ensures s'.add == s.add && s'.worker == s.worker && s'.writerQ == s.writerQ && s'.table == s.table
    ensures s'.hist.writes == s.hist.writes && s'.hist.pend == s.hist.pend && s'.hist.cur == s.hist.cur
    ensures s'.hist.log == s.hist.log && s'.hist.batch == s.hist.batch
    ensures || (s'.readerQ == s.readerQ && s'.hist.arrived == s.hist.arrived)
            || (s'.readerQ == s.readerQ + [t] && s'.hist.arrived == s.hist.arrived + [t])
    ensures s'.n == s.n || s.sem.Some?
    ensures var before, after := s.threads[t], s'.threads[t];
            && !before.pc.WQueued? && !IsPre(before) && !IsPost(before)
            && !after.pc.WQueued? && !IsPre(after) && !IsPost(after)
  {
  }

  /** Outside the exit section a reader step changes no counter but the cap of the vector's. */
  lemma Quiet<E>(s: State<E>, t: nat, a: ReaderStep, s': State<E>)
    requires Next(s, t, a, s') && ThreadsOk(s.threads) && !a.REnterExit? && !a.RLeaveExit?
    ensures var before, after := s.threads[t], s'.threads[t];
            IsOpen(after) == IsOpen(before) && IsLeaving(after) == IsLeaving(before)
    ensures s'.workerDone == s.workerDone && s'.n == s.n && s'.sem == s.sem
    ensures s'.vector == s.vector && s'.changes == s.changes
    ensures s'.count == s.count || (s.count > MAX_FETCH && s'.count == MAX_FETCH)
  {
  }

  lemma KeepsThreads<E>(s: State<E>, t: nat, a: ReaderStep, s': State<E>)
    requires Next(s, t, a, s') && ThreadsOk(s.threads)
    ensures ThreadsOk(s'.threads)
  {
  }

  lemma KeepsWriterQueue<E>(s: State<E>, t: nat, a: ReaderStep, s': State<E>)
    requires Next(s, t, a, s') && QueueOk(s.threads, s.writerQ, true)
    ensures QueueOk(s'.threads, s'.writerQ, true)
  {
    Same(s, t, a, s');
    hide Next, NoDup;
  }

  lemma KeepsReaderQueue<E>(s: State<E>, t: nat, a: ReaderStep, s': State<E>)
    requires Next(s, t, a, s') && ThreadsOk(s.threads) && QueueOk(s.threads, s.readerQ, false)
    ensures QueueOk(s'.threads, s'.readerQ, false)
  {
  }

  lemma KeepsInHand<E>(s: State<E>, t: nat, a: ReaderStep, s': State<E>)
    requires Next(s, t, a, s') && InHand(s)
    ensures InHand(s')
  {
  }

  lemma KeepsShape<E>(s: State<E>, t: nat, a: ReaderStep, s': State<E>)
    requires Next(s, t, a, s') && Shape(s)
    ensures Shape(s')
  {
    hide Next, ThreadsOk, QueueOk, InHand;
    KeepsThreads(s, t, a, s');
    KeepsWriterQueue(s, t, a, s');
    KeepsReaderQueue(s, t, a, s');
    KeepsInHand(s, t, a, s');
  }

  lemma KeepsControl<E>(s: State<E>, t: nat, a: ReaderStep, s': State<E>)
    requires Next(s, t, a, s') && ThreadsOk(s.threads) && Control(s) && !a.REnterExit? && !a.RLeaveExit?
    ensures Control(s')
  {
    Same(s, t, a, s');
    Quiet(s, t, a, s');
    hide Next, ThreadsOk, Sum, Opens, Pres, Posts, Leaves;
    Change(s.threads, t, s'.threads[t]);
  }

  /** The test fires exactly when the leaving reader is the only one inside and nobody is
      left to grant. */
  lemma KeepsControlEntering<E>(s: State<E>, t: nat, s': State<E>)
    requires Next(s, t, REnterExit, s') && Control(s)
    ensures Control(s')
  {
    hide Sum, Opens, Pres, Posts, Leaves;
    Change(s.threads, t, s'.threads[t]);
    assert s.worker.Granting? || s.worker.GotReader?;
    assert s.n == 1 <==> Opens(s'.threads) == 0 && Ungranted(s) == 0;
  }

  lemma KeepsControlLeaving<E>(s: State<E>, t: nat, s': State<E>)
    requires Next(s, t, RLeaveExit, s') && Control(s)
    ensures Control(s')
  {
    hide Sum, Opens, Pres, Posts, Leaves;
    Change(s.threads, t, s'.threads[t]);
    assert s'.n == s.n - 1;
  }

  lemma KeepsFifo<E>(s: State<E>, t: nat, a: ReaderStep, s': State<E>)
    requires Next(s, t, a, s') && Control(s) && Fifo(s)
    ensures Fifo(s')
  {
    Same(s, t, a, s');
    assert s.worker.Counted? ==> s.sem.None?;
    hide Next, Readers, Control, NoDup;
    var out := Readers(s.hist.log) + s.hist.batch[..Taken(s.worker)];
    assert out + (s.readerQ + [t]) == out + s.readerQ + [t];
  }

  lemma KeepsMembers<E>(s: State<E>, t: nat, a: ReaderStep, s': State<E>)
    requires Next(s, t, a, s') && Shape(s) && Members(s)
    ensures Members(s')
  {
    hide Partition;
    var b, gone := s.hist.batch, Tids(s.hist.exits);
    if a.REnterExit? {
      TidsAppend(s.hist.exits, Exit(t, s.threads[t].pc.buf, s.threads[t].pc.rc));
      PartitionLeave(s.threads, Granted(s.worker), b, gone, t, s'.threads[t]);
    } else {
      PartitionSame(s.threads, Granted(s.worker), b, gone, t, s'.threads[t]);
    }
  }

  lemma KeepsWriterFifo<E>(s: State<E>, t: nat, a: ReaderStep, s': State<E>)
    requires Next(s, t, a, s') && WriterFifo(s)
    ensures WriterFifo(s')
  {
    Same(s, t, a, s');
    hide Next, Writes;
  }

  lemma KeepsData<E>(s: State<E>, t: nat, a: ReaderStep, s': State<E>)
    requires Next(s, t, a, s') && ThreadsOk(s.threads) && Control(s) && Data(s) && !a.REnterExit? && !a.RLeaveExit?
    ensures Data(s')
  {
    Same(s, t, a, s');
    Quiet(s, t, a, s');
    hide Next, ThreadsOk, Sum, Opens, Pres, Posts, Leaves, Replay, ApplyTable, Control;
    Change(s.threads, t, s'.threads[t]);
  }

  lemma KeepsDataAtExit<E>(s: State<E>, t: nat, a: ReaderStep, s': State<E>)
    requires Next(s, t, a, s') && Control(s) && Data(s) && (a.REnterExit? || a.RLeaveExit?)
    ensures Data(s')
  {
    hide Sum, Opens, Pres, Posts, Leaves, Replay, ApplyTable;
    Change(s.threads, t, s'.threads[t]);
  }

  /** A reader between its grant and its exit sees the cycle's own vector. */
  lemma VectorInPlace<E>(s: State<E>, t: nat)
    requires Control(s) && Data(s) && At(s, t) && IsOpen(s.threads[t])
    ensures InBatch(s.worker) && !BatchOver(s) && s.vector == Some(News(s)) && s.count == |News(s)|
  {
    SumMember(OpenW, s.threads, t);
  }

  /** What a step does to the records a reader holds and to those taken away. */
  lemma Carries<E>(s: State<E>, t: nat, a: ReaderStep, s': State<E>)
    requires Next(s, t, a, s')
    requires IsOpen(s.threads[t]) ==> s.vector == Some(News(s)) && s.count == |News(s)|
    requires s.threads[t].pc.RCount? ==> s.threads[t].pc.buf == News(s)
    requires s.threads[t].pc.RExit? ==> s.threads[t].pc.buf == News(s) && s.threads[t].pc.rc == |News(s)|
    ensures var pc := s'.threads[t].pc;
            && (pc.RCount? ==> pc.buf == News(s)) && (pc.RExit? ==> pc.buf == News(s) && pc.rc == |News(s)|)
    ensures s'.hist.exits == s.hist.exits || s'.hist.exits == s.hist.exits + [Exit(t, News(s), |News(s)|)]
  {
    assert News(s)[..|News(s)|] == News(s);
  }

  lemma KeepsDelivery<E>(s: State<E>, t: nat, a: ReaderStep, s': State<E>)
    requires Next(s, t, a, s') && Control(s) && Data(s) && Delivery(s)
    ensures Delivery(s')
  {
    hide Control, Data, InBatch, BatchOver;
    Same(s, t, a, s');
    if IsOpen(s.threads[t]) {
      VectorInPlace(s, t);
    }
    Carries(s, t, a, s');
    assert News(s') == News(s);
    hide Next, News;
  }

  lemma KeepsLocated<E>(s: State<E>, t: nat, a: ReaderStep, s': State<E>)
    requires Next(s, t, a, s') && Shape(s) && Located(s)
    ensures Located(s')
  {
    hide NoDup;
  }

  lemma Keeps<E>(s: State<E>, t: nat, a: ReaderStep, s': State<E>)
    requires Next(s, t, a, s') && Inv(s)
    ensures Inv(s')
  {
    Same(s, t, a, s');
    hide Next, ThreadsOk, QueueOk, InHand, Control, Fifo, Members, WriterFifo, Data, Delivery, Located;
    assert ThreadsOk(s.threads);
    hide Shape;
    KeepsShape(s, t, a, s');
    if a.REnterExit? || a.RLeaveExit? {
      if a.REnterExit? {
        KeepsControlEntering(s, t, s');
      } else {
        KeepsControlLeaving(s, t, s');
      }
      KeepsDataAtExit(s, t, a, s');
    } else {
      KeepsControl(s, t, a, s');
      KeepsData(s, t, a, s');
    }
    KeepsFifo(s, t, a, s');
    KeepsMembers(s, t, a, s');
    KeepsWriterFifo(s, t, a, s');
    KeepsDelivery(s, t, a, s');
    KeepsLocated(s, t, a, s');
  }
}
