/** The ioctl path on the real data structures: ring buffers, linked lists, an allocated
    vector, and the counters in place. Each method is one atomic section of the source and
    does exactly what the corresponding step of `SchedulerSpec` says. */
module Scheduler {
  import opened Limits
  import opened Options
  import opened TableSpec
  import opened SchedulerSpec
  import opened Queue
  import opened Table

  class Service<E(==,!new)> {
    const threads: array<Thread<E>>     // one kernthread for each open file
    const writerQ: Queue<nat>
    const readerQ: Queue<nat>
    const table: Table<E>
    var worker: WorkerPc
    var workerDone: nat
    var n: nat
    var vector: array?<Upd<E>>
    var count: int
    var sem: Option<nat>
    ghost var hist: History<E>

    /** The i-th change record points at the i-th table entry, so none dangles. */
    ghost predicate Valid()
      reads this, threads, writerQ, writerQ.elem, readerQ, readerQ.elem, vector
      reads table, table.rt, table.rt.heap, table.rt.spine
      reads table.changeList, table.changeList.heap, table.changeList.spine
    {
      && writerQ != readerQ && writerQ.elem != readerQ.elem
      && writerQ.Valid() && readerQ.Valid() && table.Valid() && table.Aliased()
      && threads as object != writerQ.elem && threads as object != readerQ.elem
      && (vector != null ==>
            vector as object != threads && vector as object != writerQ.elem && vector as object != readerQ.elem)
    }

    ghost function Repr(): set<object> {
      {this, threads, writerQ, writerQ.elem, readerQ, readerQ.elem} + table.Repr()
    }

    /** The state of the step system that these objects represent. */
    ghost function Abs(): State<E>
      requires Valid()
      reads this, threads, writerQ, writerQ.elem, readerQ, readerQ.elem, vector
      reads table, table.rt, table.rt.heap, table.rt.spine
      reads table.changeList, table.changeList.heap, table.changeList.spine
    {
      State(table.add, threads[..], worker, workerDone, writerQ.Contents(), readerQ.Contents(), n,
            if vector == null then None else Some(vector[..]), count,
            table.Contents(), table.Changes(), sem, hist)
    }

    constructor (add: nat, zero: E, entrySize: nat, files: nat)
      ensures Valid() && fresh(Repr()) && Abs() == Init(add, files)
    {
      hide Queue.Valid, Queue.Contents, Table.Valid, Table.Changes, Table.Contents, Table.Aliased;
      threads := new Thread<E>[files](_ => Thread(Idle, 0));
      var ws := new Queue<nat>();
      var rs := new Queue<nat>();
      var t := new Table<E>(add, zero, entrySize);
      writerQ, readerQ, table := ws, rs, t;
      worker, workerDone, n, vector, count, sem := Waiting, 0, 0, null, 0, None;
      hist := Init<E>(add, files).hist;
    }

    // ---- the writer cases of the ioctl handler ----------------------------------------

    /** The result of `enqueue` is ignored. */
    method EnqueueWriter(t: nat, op: Op<E>)
      requires Valid() && WriterEnabled(Abs(), t, WEnqueue(op))
      modifies this, threads, writerQ, writerQ.elem
      ensures Valid() && Abs() == WriterApply(old(Abs()), t, WEnqueue(op))
      ensures threads[t].pc == WQueued(op)
      ensures hist.writes == old(hist).writes + if |old(Abs()).writerQ| < Q_SIZE then [Write(t, op)] else []
    {
      hide Queue.Valid, Queue.Contents, Table.Valid, Table.Changes, Table.Contents, Table.Aliased;
      hist := WriterApply(Abs(), t, WEnqueue(op)).hist;
      var _ := writerQ.Enqueue(Some(t));
      threads[t] := threads[t].(pc := WQueued(op));
    }

    /** `wait_for_completion` takes one signal off the counting completion. */
    method ResumeWriter(t: nat)
      requires Valid() && WriterEnabled(Abs(), t, WResume)
      modifies threads
      ensures Valid() && Abs() == WriterApply(old(Abs()), t, WResume)
    {
      hide Queue.Valid, Queue.Contents, Table.Valid, Table.Changes, Table.Contents, Table.Aliased;
      threads[t] := Thread(WRun(threads[t].pc.op), threads[t].done - 1);
    }

    /** Changes the table. A purge needs an empty change list, or its records would dangle. */
    method ChangeTable(op: Op<E>)
      requires Valid() && (op.Purge? ==> Abs().changes == [])
      modifies table.Repr()
      ensures Valid()
      ensures Abs() == old(Abs()).(table := ApplyTable(table.add, op, old(Abs()).table),
                                   changes := Broadcast(table.add, op) + old(Abs()).changes)
      ensures op.Purge? ==> table.Contents() == [] && table.Changes() == []
      ensures op.Create? ==> table.Contents() == [op.entry] + old(table.Contents())
                             && table.Changes() == [Upd(table.add, op.entry)] + old(table.Changes())
    {
      hide Queue.Valid, Queue.Contents, Table.Valid, Table.Changes, Table.Contents, Table.Aliased;
      match op {
        case Update(code, entry) =>
          var _ := table.ApplyUpdates(code, entry);
        case Create(entry) =>
          var _ := table.AddEntryByVal(entry);
        case Purge =>
          table.Purge();
      }
    }

    method ApplyWrite(t: nat)
      requires Valid() && WriterEnabled(Abs(), t, WApply)
      requires Abs().threads[t].pc.op.Purge? ==> Abs().changes == []
      modifies threads, table.Repr()
      ensures Valid() && Abs() == WriterApply(old(Abs()), t, WApply)
    {
      hide Queue.Valid, Queue.Contents, Table.Valid, Table.Changes, Table.Contents, Table.Aliased;
      var op := threads[t].pc.op;
      ChangeTable(op);
      threads[t] := threads[t].(pc := WSignal(op));
    }

    method WakeWorker(t: nat)
      requires Valid() && WriterEnabled(Abs(), t, WWakeWorker)
      modifies this, threads
      ensures Valid() && Abs() == WriterApply(old(Abs()), t, WWakeWorker)
    {
      hide Queue.Valid, Queue.Contents, Table.Valid, Table.Changes, Table.Contents, Table.Aliased;
      workerDone := workerDone + 1;
      threads[t] := threads[t].(pc := Idle);
    }

    // ---- the subscribe case of the ioctl handler --------------------------------------

    method Cap(t: nat)
      requires Valid() && ReaderEnabled(Abs(), t, RCap)
      modifies this, threads
      ensures Valid() && Abs() == ReaderApply(old(Abs()), t, RCap)
    {
      hide Queue.Valid, Queue.Contents, Table.Valid, Table.Changes, Table.Contents, Table.Aliased;
      if count > MAX_FETCH {
        count := MAX_FETCH;
      }
      threads[t] := threads[t].(pc := ROffer);
    }

    method EnqueueReader(t: nat)
      requires Valid() && ReaderEnabled(Abs(), t, REnqueue)
      modifies this, threads, readerQ, readerQ.elem
      ensures Valid() && Abs() == ReaderApply(old(Abs()), t, REnqueue)
    {
      hide Queue.Valid, Queue.Contents, Table.Valid, Table.Changes, Table.Contents, Table.Aliased;
      hist := ReaderApply(Abs(), t, REnqueue).hist;
      var _ := readerQ.Enqueue(Some(t));
      threads[t] := threads[t].(pc := RQueued);
    }

    method ResumeReader(t: nat)
      requires Valid() && ReaderEnabled(Abs(), t, RResume)
      modifies threads
      ensures Valid() && Abs() == ReaderApply(old(Abs()), t, RResume)
    {
      hide Queue.Valid, Queue.Contents, Table.Valid, Table.Changes, Table.Contents, Table.Aliased;
      threads[t] := Thread(RCopy, threads[t].done - 1);
    }

    /** `copy_to_user`, by record. */
    method Take(t: nat)
      requires Valid() && ReaderEnabled(Abs(), t, RTake)
      modifies threads
      ensures Valid() && Abs() == ReaderApply(old(Abs()), t, RTake)
    {
      hide Queue.Valid, Queue.Contents, Table.Valid, Table.Changes, Table.Contents, Table.Aliased;
      var buf: seq<Upd<E>> := [];
      if vector != null && count >= 0 {
        buf := if count <= vector.Length then vector[..count] else vector[..];
      }
      assert buf == Copied(Abs().vector, count);
      threads[t] := threads[t].(pc := RCount(buf));
    }

    method ReadCount(t: nat)
      requires Valid() && ReaderEnabled(Abs(), t, RReadCount)
      modifies threads
      ensures Valid() && Abs() == ReaderApply(old(Abs()), t, RReadCount)
    {
      hide Queue.Valid, Queue.Contents, Table.Valid, Table.Changes, Table.Contents, Table.Aliased;
      threads[t] := threads[t].(pc := RExit(threads[t].pc.buf, count));
    }

    /** The last reader empties the change list, frees the vector and signals the worker. */
    method LastReader()
      requires Valid()
      modifies this`count, this`vector, this`workerDone, table.changeList, table.changeList.heap
      ensures Valid()
      ensures Abs() == old(Abs()).(count := 0, changes := [], vector := None, workerDone := old(workerDone) + 1)
    {
      hide Queue.Valid, Queue.Contents, Table.Valid, Table.Changes, Table.Contents, Table.Aliased;
      count := 0;
      var _ := table.EmptyChangeList();
      vector := null;
      workerDone := workerDone + 1;
    }

    method EnterExit(t: nat)
      requires Valid() && ReaderEnabled(Abs(), t, REnterExit)
      modifies this, threads, table.changeList, table.changeList.heap
      ensures Valid() && Abs() == ReaderApply(old(Abs()), t, REnterExit)
    {
      hide Queue.Valid, Queue.Contents, Table.Valid, Table.Changes, Table.Contents, Table.Aliased;
      ghost var after := ReaderApply(Abs(), t, REnterExit);
      if n == 1 {
        LastReader();
      }
      hist := after.hist;
      sem := Some(t);
      threads[t] := threads[t].(pc := RLeave);
    }

    /** The unsigned decrement, and the end of the exit section. */
    method LeaveExit(t: nat)
      requires Valid() && ReaderEnabled(Abs(), t, RLeaveExit)
      modifies this, threads
      ensures Valid() && Abs() == ReaderApply(old(Abs()), t, RLeaveExit)
    {
      hide Queue.Valid, Queue.Contents, Table.Valid, Table.Changes, Table.Contents, Table.Aliased;
      n := (n + UINT32 - 1) % UINT32;
      sem := None;
      threads[t] := threads[t].(pc := Idle);
    }

    // ---- the worker -------------------------------------------------------------------

    method Wake()
      requires Valid() && WorkerEnabled(Abs(), WorkerStep.Wake)
      modifies this
      ensures Valid() && Abs() == WorkerApply(old(Abs()), WorkerStep.Wake)
    {
      hide Queue.Valid, Queue.Contents, Table.Valid, Table.Changes, Table.Contents, Table.Aliased;
      worker := Awake;
    }

    /** A NULL result is dereferenced before it is tested. */
    method DequeueWriter()
      requires Valid() && WorkerEnabled(Abs(), WorkerStep.DequeueWriter)
      modifies this, writerQ, writerQ.elem
      ensures Valid() && Abs() == WorkerApply(old(Abs()), WorkerStep.DequeueWriter)
    {
      hide Queue.Valid, Queue.Contents, Table.Valid, Table.Changes, Table.Contents, Table.Aliased;
      hist := WorkerApply(Abs(), WorkerStep.DequeueWriter).hist;
      var writer := writerQ.Deque();
      worker := if writer.None? then Crashed else GotWriter(writer.value);
    }

    method GrantWriter()
      requires Valid() && WorkerEnabled(Abs(), WorkerStep.GrantWriter)
      modifies this, threads
      ensures Valid() && Abs() == WorkerApply(old(Abs()), WorkerStep.GrantWriter)
    {
      hide Queue.Valid, Queue.Contents, Table.Valid, Table.Changes, Table.Contents, Table.Aliased;
      var w := worker.w;
      threads[w] := threads[w].(done := threads[w].done + 1);
      worker := AwaitWriter;
    }

    method WriterDone()
      requires Valid() && WorkerEnabled(Abs(), WorkerStep.WriterDone)
      modifies this
      ensures Valid() && Abs() == WorkerApply(old(Abs()), WorkerStep.WriterDone)
    {
      hide Queue.Valid, Queue.Contents, Table.Valid, Table.Changes, Table.Contents, Table.Aliased;
      workerDone := workerDone - 1;
      worker := Counting;
    }

    method CountReaders()
      requires Valid() && WorkerEnabled(Abs(), WorkerStep.CountReaders)
      modifies this
      ensures Valid() && Abs() == WorkerApply(old(Abs()), WorkerStep.CountReaders)
    {
      hide Queue.Valid, Queue.Contents, Table.Valid, Table.Changes, Table.Contents, Table.Aliased;
      hist := WorkerApply(Abs(), WorkerStep.CountReaders).hist;
      n := readerQ.count;
      worker := Counted;
    }

    /** No readers: the update is dropped. */
    method Drop()
      requires Valid() && WorkerEnabled(Abs(), WorkerStep.Drop)
      modifies this, table.changeList, table.changeList.heap
      ensures Valid() && Abs() == WorkerApply(old(Abs()), WorkerStep.Drop)
    {
      hide Queue.Valid, Queue.Contents, Table.Valid, Table.Changes, Table.Contents, Table.Aliased;
      hist := WorkerApply(Abs(), WorkerStep.Drop).hist;
      var _ := table.EmptyChangeList();
      worker := Waiting;
    }

    method Snapshot()
      requires Valid() && WorkerEnabled(Abs(), WorkerStep.Snapshot)
      modifies this
      ensures Valid() && Abs() == WorkerApply(old(Abs()), WorkerStep.Snapshot)
      ensures fresh(vector)
    {
      hide Queue.Valid, Queue.Contents, Table.Valid, Table.Changes, Table.Contents, Table.Aliased;
      table.AliasedIsIntact();
      vector, count := table.GetUpdatedEntries();
      worker := Built;
    }

    /** The counter is read once more, as the bound of the loop. */
    method StartBatch()
      requires Valid() && WorkerEnabled(Abs(), WorkerStep.StartBatch)
      modifies this
      ensures Valid() && Abs() == WorkerApply(old(Abs()), WorkerStep.StartBatch)
    {
      hide Queue.Valid, Queue.Contents, Table.Valid, Table.Changes, Table.Contents, Table.Aliased;
      worker := Granting(0, n);
    }

    method TakeReader()
      requires Valid() && WorkerEnabled(Abs(), WorkerStep.TakeReader)
      modifies this, readerQ, readerQ.elem
      ensures Valid() && Abs() == WorkerApply(old(Abs()), WorkerStep.TakeReader)
    {
      hide Queue.Valid, Queue.Contents, Table.Valid, Table.Changes, Table.Contents, Table.Aliased;
      var i, limit := worker.i, worker.limit;
      var reader := readerQ.Deque();
      worker := if reader.None? then Crashed else GotReader(i, limit, reader.value);
    }

    method GrantReader()
      requires Valid() && WorkerEnabled(Abs(), WorkerStep.GrantReader)
      modifies this, threads
      ensures Valid() && Abs() == WorkerApply(old(Abs()), WorkerStep.GrantReader)
    {
      hide Queue.Valid, Queue.Contents, Table.Valid, Table.Changes, Table.Contents, Table.Aliased;
      var r := worker.r;
      threads[r] := threads[r].(done := threads[r].done + 1);
      worker := Granting(worker.i + 1, worker.limit);
    }

    method BatchDone()
      requires Valid() && WorkerEnabled(Abs(), WorkerStep.BatchDone)
      modifies this
      ensures Valid() && Abs() == WorkerApply(old(Abs()), WorkerStep.BatchDone)
    {
      hide Queue.Valid, Queue.Contents, Table.Valid, Table.Changes, Table.Contents, Table.Aliased;
      hist := WorkerApply(Abs(), WorkerStep.BatchDone).hist;
      workerDone := workerDone - 1;
      worker := Waiting;
    }
  }
}
