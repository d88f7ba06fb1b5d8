/** The invariant of the ioctl path: who may be where, what the counters count, and what the
    table, the change list and the vector hold at each point of a cycle. */
module SchedulerInvariant {
  import opened Limits
  import opened Options
  import opened Sequences
  import opened TableSpec
  import opened SchedulerSpec

  // ---- classes of threads -------------------------------------------------------------

  /** A reader that was granted and has not passed the last-reader test. */
  predicate IsOpen<E>(th: Thread<E>) {
    th.pc.RCopy? || th.pc.RCount? || th.pc.RExit? || (th.pc.RQueued? && th.done > 0)
  }

  /** A writer that was granted and has not changed the table yet. */
  predicate IsPre<E>(th: Thread<E>) {
    th.pc.WRun? || (th.pc.WQueued? && th.done > 0)
  }

  /** A writer that changed the table and has not signalled yet. */
  predicate IsPost<E>(th: Thread<E>) {
    th.pc.WSignal?
  }

  predicate IsLeaving<E>(th: Thread<E>) {
    th.pc.RLeave?
  }

  function OpenW<E>(th: Thread<E>): nat { if IsOpen(th) then 1 else 0 }
  function PreW<E>(th: Thread<E>): nat { if IsPre(th) then 1 else 0 }
  function PostW<E>(th: Thread<E>): nat { if IsPost(th) then 1 else 0 }
  function LeaveW<E>(th: Thread<E>): nat { if IsLeaving(th) then 1 else 0 }

  function Opens<E>(ts: seq<Thread<E>>): nat { Sum(OpenW, ts) }
  function Pres<E>(ts: seq<Thread<E>>): nat { Sum(PreW, ts) }
  function Posts<E>(ts: seq<Thread<E>>): nat { Sum(PostW, ts) }
  function Leaves<E>(ts: seq<Thread<E>>): nat { Sum(LeaveW, ts) }

  /** How the four counts change when one thread changes. */
  lemma Change<E>(ts: seq<Thread<E>>, t: nat, th: Thread<E>)
    requires t < |ts|
    ensures Opens(ts[t := th]) + OpenW(ts[t]) == Opens(ts) + OpenW(th)
    ensures Pres(ts[t := th]) + PreW(ts[t]) == Pres(ts) + PreW(th)
    ensures Posts(ts[t := th]) + PostW(ts[t]) == Posts(ts) + PostW(th)
    ensures Leaves(ts[t := th]) + LeaveW(ts[t]) == Leaves(ts) + LeaveW(th)
    ensures Opens(ts) >= OpenW(ts[t]) && Pres(ts) >= PreW(ts[t])
    ensures Posts(ts) >= PostW(ts[t]) && Leaves(ts) >= LeaveW(ts[t])
  {
    SumUpdate(OpenW, ts, t, th);
    SumUpdate(PreW, ts, t, th);
    SumUpdate(PostW, ts, t, th);
    SumUpdate(LeaveW, ts, t, th);
    SumMember(OpenW, ts, t);
    SumMember(PreW, ts, t);
    SumMember(PostW, ts, t);
    SumMember(LeaveW, ts, t);
  }

  /** A zero count means that no thread is in the class. */
  lemma NoneOpen<E>(ts: seq<Thread<E>>)
    requires Opens(ts) == 0
    ensures forall t :: 0 <= t < |ts| ==> !IsOpen(ts[t])
  {
    SumZero(OpenW, ts);
    forall t | 0 <= t < |ts| ensures !IsOpen(ts[t]) {
      assert OpenW(ts[t]) == 0;
    }
  }

  lemma NoneWriting<E>(ts: seq<Thread<E>>)
    requires Pres(ts) + Posts(ts) == 0
    ensures forall t :: 0 <= t < |ts| ==> !IsPre(ts[t]) && !IsPost(ts[t])
  {
    SumZero(PreW, ts);
    SumZero(PostW, ts);
    forall t | 0 <= t < |ts| ensures !IsPre(ts[t]) && !IsPost(ts[t]) {
      assert PreW(ts[t]) == 0 && PostW(ts[t]) == 0;
    }
  }

  // ---- control ------------------------------------------------------------------------

  /** Readers of the open batch that are not granted yet. */
  function Ungranted<E>(s: State<E>): int {
    match s.worker
    case Counted => |s.hist.batch|
    case Built => |s.hist.batch|
    case Granting(i, limit) => limit - i
    case GotReader(i, limit, _) => limit - i
    case _ => 0
  }

  predicate InBatch(w: WorkerPc) {
    w.Built? || w.Granting? || w.GotReader?
  }

  function Held<E>(s: State<E>): nat {
    if s.sem.Some? then 1 else 0
  }

  ghost predicate QueueOk<E>(ts: seq<Thread<E>>, q: seq<nat>, writers: bool) {
    && NoDup(q) && |q| <= Q_SIZE
    && forall i :: 0 <= i < |q| ==>
         q[i] < |ts| && ts[q[i]].done == 0 && (if writers then ts[q[i]].pc.WQueued? else ts[q[i]].pc.RQueued?)
  }

  ghost predicate ThreadsOk<E>(ts: seq<Thread<E>>) {
    forall t :: 0 <= t < |ts| ==> ts[t].done <= 1 && (ts[t].done == 1 ==> ts[t].pc.WQueued? || ts[t].pc.RQueued?)
  }

  ghost predicate InHand<E>(s: State<E>) {
    && (s.worker.GotWriter? ==>
          var w := s.worker.w;
          At(s, w) && s.threads[w].pc.WQueued? && s.threads[w].done == 0 && w !in s.writerQ)
    && (s.worker.GotReader? ==>
          var r := s.worker.r;
          At(s, r) && s.threads[r].pc.RQueued? && s.threads[r].done == 0 && r !in s.readerQ)
  }

  ghost predicate Shape<E>(s: State<E>) {
    && ThreadsOk(s.threads)
    && QueueOk(s.threads, s.writerQ, true)
    && QueueOk(s.threads, s.readerQ, false)
    && InHand(s)
  }

  /** The counter during a batch: readers inside, readers still to be granted, and the one
      between the test and the decrement. */
  ghost predicate Accounting<E>(s: State<E>) {
    s.n == Opens(s.threads) + Ungranted(s) + Held(s)
  }

  ghost predicate SemOk<E>(s: State<E>) {
    && Leaves(s.threads) == Held(s)
    && (s.sem.Some? ==> At(s, s.sem.value) && s.threads[s.sem.value].pc.RLeave?)
  }

  /** At most one writer runs, never beside a granted reader, and the worker's completion is
      signalled exactly once per phase. */
  ghost predicate Phase<E>(s: State<E>) {
    match s.worker
    case Waiting => Opens(s.threads) + Pres(s.threads) + Posts(s.threads) + s.workerDone == 0
    case Awake =>
      Opens(s.threads) + Pres(s.threads) + Posts(s.threads) + s.workerDone == 0 && s.writerQ != []
    case GotWriter(_) => Opens(s.threads) + Pres(s.threads) + Posts(s.threads) + s.workerDone == 0
    case AwaitWriter => Opens(s.threads) == 0 && Pres(s.threads) + Posts(s.threads) + s.workerDone == 1
    case Counting => Opens(s.threads) + Pres(s.threads) + Posts(s.threads) + s.workerDone == 0
    case Counted =>
      Opens(s.threads) + Pres(s.threads) + Posts(s.threads) + s.workerDone == 0 && s.sem.None?
    case Built =>
      && Opens(s.threads) + Pres(s.threads) + Posts(s.threads) + s.workerDone == 0
      && s.sem.None? && s.hist.batch != []
    case Granting(i, limit) =>
      && Pres(s.threads) + Posts(s.threads) == 0
      && i <= limit == |s.hist.batch| && limit > 0
      && s.workerDone == (if Opens(s.threads) == 0 && i == limit then 1 else 0)
    case GotReader(i, limit, _) =>
      && Pres(s.threads) + Posts(s.threads) == 0
      && i < limit == |s.hist.batch| && s.workerDone == 0
    case Crashed => false
  }

  ghost predicate Control<E>(s: State<E>) {
    Accounting(s) && SemOk(s) && Phase(s) && s.n <= Q_SIZE
  }

  // ---- readers and their batch --------------------------------------------------------

  function Tids<E>(xs: seq<Exit<E>>): seq<nat> {
    seq(|xs|, i requires 0 <= i < |xs| => xs[i].tid)
  }

  lemma TidsAppend<E>(xs: seq<Exit<E>>, x: Exit<E>)
    ensures Tids(xs + [x]) == Tids(xs) + [x.tid]
  {
  }

  function Readers<E>(log: seq<Cycle<E>>): seq<nat> {
    if log == [] then [] else Readers(log[..|log| - 1]) + log[|log| - 1].batch
  }

  lemma ReadersAppend<E>(log: seq<Cycle<E>>, c: Cycle<E>)
    ensures Readers(log + [c]) == Readers(log) + c.batch
  {
    assert (log + [c])[..|log|] == log;
  }

  /** How many readers of the batch left the queue, and how many of them were granted. */
  function Taken(w: WorkerPc): nat {
    match w
    case Granting(i, _) => i
    case GotReader(i, _, _) => i + 1
    case _ => 0
  }

  function Granted(w: WorkerPc): nat {
    match w
    case Granting(i, _) => i
    case GotReader(i, _, _) => i
    case _ => 0
  }

  /** Readers leave the queue in arrival order, batch by batch. */
  ghost predicate Fifo<E>(s: State<E>) {
    && Taken(s.worker) <= |s.hist.batch|
    && NoDup(s.hist.batch)
    && s.hist.batch[Taken(s.worker)..] <= s.readerQ
    && s.hist.arrived == Readers(s.hist.log) + s.hist.batch[..Taken(s.worker)] + s.readerQ
    && (s.worker.GotReader? ==> s.worker.r == s.hist.batch[s.worker.i])
    && (!InBatch(s.worker) && !s.worker.Counted? ==> s.hist.batch == [])
    && (s.worker.Counted? ==> s.n == |s.hist.batch|)
  }

  /** Of the first `g` readers of the batch, each is either inside or has exited, never
      both, and nobody else is. */
  ghost predicate Partition<E>(ts: seq<Thread<E>>, g: int, batch: seq<nat>, gone: seq<nat>) {
    && 0 <= g <= |batch|
    && NoDup(gone)
    && (forall t :: 0 <= t < |ts| && IsOpen(ts[t]) ==> t in batch[..g] && t !in gone)
    && (forall x :: x in gone ==> x in batch[..g])
    && (forall j :: 0 <= j < g ==> batch[j] < |ts| && (IsOpen(ts[batch[j]]) || batch[j] in gone))
  }

  ghost predicate Members<E>(s: State<E>) {
    Partition(s.threads, Granted(s.worker), s.hist.batch, Tids(s.hist.exits))
  }

  lemma PartitionSame<E>(ts: seq<Thread<E>>, g: int, batch: seq<nat>, gone: seq<nat>, t: nat, th: Thread<E>)
    requires Partition(ts, g, batch, gone) && t < |ts| && IsOpen(th) == IsOpen(ts[t])
    ensures Partition(ts[t := th], g, batch, gone)
  {
  }

  lemma PartitionLeave<E>(ts: seq<Thread<E>>, g: int, batch: seq<nat>, gone: seq<nat>, t: nat, th: Thread<E>)
    requires Partition(ts, g, batch, gone) && t < |ts| && IsOpen(ts[t]) && !IsOpen(th)
    ensures Partition(ts[t := th], g, batch, gone + [t])
  {
    forall j | 0 <= j < g
      ensures IsOpen(ts[t := th][batch[j]]) || batch[j] in gone + [t]
    {
      if batch[j] == t {
        assert (gone + [t])[|gone|] == t;
      }
    }
  }

  lemma PartitionEnter<E>(ts: seq<Thread<E>>, g: int, batch: seq<nat>, gone: seq<nat>, t: nat, th: Thread<E>)
    requires Partition(ts, g, batch, gone) && NoDup(batch)
    requires t < |ts| && g < |batch| && t == batch[g] && !IsOpen(ts[t]) && IsOpen(th)
    ensures Partition(ts[t := th], g + 1, batch, gone)
  {
    assert batch[..g + 1] == batch[..g] + [t];
    assert t !in batch[..g];
  }

  // ---- data ---------------------------------------------------------------------------

  predicate InCycle(w: WorkerPc) {
    !w.Waiting? && !w.Awake?
  }

  /** The current cycle's writer changed the table. */
  ghost predicate Applied<E>(s: State<E>) {
    match s.worker
    case AwaitWriter => Pres(s.threads) == 0
    case Counting => true
    case Counted => true
    case Built => true
    case Granting(_, _) => true
    case GotReader(_, _, _) => true
    case _ => false
  }

  /** The last reader of the open batch has exited. */
  ghost predicate BatchOver<E>(s: State<E>) {
    InBatch(s.worker) && Opens(s.threads) == 0 && Ungranted(s) == 0
  }

  function Replay<E>(add: nat, log: seq<Cycle<E>>): seq<E> {
    if log == [] then [] else ApplyTable(add, log[|log| - 1].write.op, Replay(add, log[..|log| - 1]))
  }

  lemma ReplayAppend<E>(add: nat, log: seq<Cycle<E>>, c: Cycle<E>)
    ensures Replay(add, log + [c]) == ApplyTable(add, c.write.op, Replay(add, log))
  {
    assert (log + [c])[..|log|] == log;
  }

  function Writes<E>(log: seq<Cycle<E>>): seq<Write<E>> {
    seq(|log|, i requires 0 <= i < |log| => log[i].write)
  }

  /** What the current cycle tells its readers. */
  function News<E>(s: State<E>): seq<Upd<E>> {
    if s.hist.cur.Some? then Broadcast(s.add, s.hist.cur.value.op) else []
  }

  ghost predicate WriterFifo<E>(s: State<E>) {
    && (s.hist.cur.Some? <==> InCycle(s.worker))
    && |s.hist.pend| == |s.writerQ|
    && (forall i :: 0 <= i < |s.writerQ| ==>
          s.hist.pend[i].tid == s.writerQ[i] && At(s, s.writerQ[i])
          && s.threads[s.writerQ[i]].pc == WQueued(s.hist.pend[i].op))
    && s.hist.writes ==
         Writes(s.hist.log) + (if s.hist.cur.Some? then [s.hist.cur.value] else []) + s.hist.pend
    && (s.worker.GotWriter? ==>
          var cur := s.hist.cur.value;
          s.worker.w == cur.tid && At(s, cur.tid) && s.threads[cur.tid].pc == WQueued(cur.op))
    && (forall t :: 0 <= t < |s.threads| && (IsPre(s.threads[t]) || IsPost(s.threads[t])) ==>
          s.hist.cur.Some? && t == s.hist.cur.value.tid && s.threads[t].pc.op == s.hist.cur.value.op)
  }

  ghost predicate Data<E>(s: State<E>) {
    && s.table == (if Applied(s) && s.hist.cur.Some?
                   then ApplyTable(s.add, s.hist.cur.value.op, Replay(s.add, s.hist.log))
                   else Replay(s.add, s.hist.log))
    && s.changes == (if Applied(s) && !BatchOver(s) then News(s) else [])
    && s.vector == (if InBatch(s.worker) && !BatchOver(s) then Some(News(s)) else None)
    && s.count == (if InBatch(s.worker) && !BatchOver(s) then |News(s)| else 0)
  }

  /** What the readers of the current batch hold and took away. */
  ghost predicate Delivery<E>(s: State<E>) {
    && (forall t :: 0 <= t < |s.threads| ==>
          && (s.threads[t].pc.RCount? ==> s.threads[t].pc.buf == News(s))
          && (s.threads[t].pc.RExit? ==> s.threads[t].pc.buf == News(s) && s.threads[t].pc.rc == |News(s)|))
    && (forall x :: x in s.hist.exits ==> x.buf == News(s) && x.rc == |News(s)|)
  }

  /** A completed cycle: each reader of the batch took the cycle's update away, once. */
  ghost predicate GoodCycle<E>(add: nat, c: Cycle<E>) {
    && NoDup(c.batch) && NoDup(Tids(c.exits))
    && (forall t :: t in c.batch <==> t in Tids(c.exits))
    && (forall x :: x in c.exits ==> x.buf == Broadcast(add, c.write.op) && x.rc == |x.buf|)
  }

  ghost predicate GoodLog<E>(s: State<E>) {
    forall i :: 0 <= i < |s.hist.log| ==> GoodCycle(s.add, s.hist.log[i])
  }

  // ---- where the waiting threads are --------------------------------------------------

  ghost predicate Located<E>(s: State<E>) {
    && (forall t :: 0 <= t < |s.threads| && s.threads[t].done == 0 && t !in s.hist.dropped ==>
          && (s.threads[t].pc.WQueued? ==> t in s.writerQ || s.worker == GotWriter(t))
          && (s.threads[t].pc.RQueued? ==>
                t in s.readerQ || (s.worker.GotReader? && s.worker.r == t)))
    && (forall t :: t in s.hist.dropped ==>
          && At(s, t) && s.threads[t].done == 0 && (s.threads[t].pc.WQueued? || s.threads[t].pc.RQueued?)
          && t !in s.writerQ && t !in s.readerQ
          && s.worker != GotWriter(t) && !(s.worker.GotReader? && s.worker.r == t))
  }

  ghost predicate Inv<E>(s: State<E>) {
    && Shape(s) && Control(s) && Fifo(s) && Members(s)
    && WriterFifo(s) && Data(s) && Delivery(s) && GoodLog(s) && Located(s)
  }
}
