/** The ioctl path as a step system: writers and subscribers block on completions, and one
    worker thread grants them access to the table.

    A thread is the `kernthread` of one open file, so it has at most one operation in
    flight. A waiting step is enabled when what it waits for has happened; signals and
    allocation failure do not occur. */
module SchedulerSpec {
  import opened Limits
  import opened Options
  import opened TableSpec

  /** Where a thread is in the ioctl handler, with the local variables that are live there. */
  datatype Pc<E> =
    | Idle
    | WQueued(op: Op<E>)              // waits for its grant
    | WRun(op: Op<E>)                 // granted, about to change the table
    | WSignal(op: Op<E>)              // changed the table, about to signal the worker
    | ROffer                          // capped the vector count, about to enqueue
    | RQueued                         // waits for its grant
    | RCopy                           // granted, about to copy the vector
    | RCount(buf: seq<Upd<E>>)        // copied, about to read the vector count
    | RExit(buf: seq<Upd<E>>, rc: int)  // about to enter the exit section
    | RLeave                          // in the exit section, about to decrement

  /** `done` is the thread's counting completion. */
  datatype Thread<E> = Thread(pc: Pc<E>, done: nat)

  datatype WorkerPc =
    | Waiting                                    // for a writer to arrive
    | Awake                                      // the writer queue was seen non-empty
    | GotWriter(w: nat)                          // dequeued, not yet signalled
    | AwaitWriter                                // waits for the granted writer
    | Counting                                   // about to count the queued readers
    | Counted                                    // counted, not yet tested
    | Built                                      // tested and took the snapshot, not yet in the loop
    | Granting(i: nat, limit: nat)               // loop head; after the loop, waits for the last reader
    | GotReader(i: nat, limit: nat, r: nat)      // dequeued, not yet signalled
    | Crashed                                    // dereferenced a NULL dequeue result

  /** What a reader took with it when it passed the last-reader test. */
  datatype Exit<E> = Exit(tid: nat, buf: seq<Upd<E>>, rc: int)

  datatype Cycle<E> = Cycle(write: Write<E>, batch: seq<nat>, exits: seq<Exit<E>>)

  /** History: never read by a step. `writes` and `arrived` are the requests accepted by the
      two queues; `pend` are the operations of the queued writers; `dropped` are the threads
      whose enqueue found the queue full. */
  datatype History<E> = History(
    writes: seq<Write<E>>,
    log: seq<Cycle<E>>,
    cur: Option<Write<E>>,
    pend: seq<Write<E>>,
    arrived: seq<nat>,
    batch: seq<nat>,
    exits: seq<Exit<E>>,
    dropped: set<nat>)

  datatype State<E> = State(
    add: nat,
    threads: seq<Thread<E>>,
    worker: WorkerPc,
    workerDone: nat,
    writerQ: seq<nat>,
    readerQ: seq<nat>,
    n: nat,                           // n_readers_to_be_service
    vector: Option<seq<Upd<E>>>,      // None is the null pointer
    count: int,                       // rt_update_vector_count
    table: seq<E>,
    changes: seq<Upd<E>>,
    sem: Option<nat>,                 // who is inside the exit section
    hist: History<E>)

  /** The steps of a writer, a subscriber and the worker. */
  datatype WriterStep<E> = WEnqueue(op: Op<E>) | WResume | WApply | WWakeWorker
  datatype ReaderStep = RCap | REnqueue | RResume | RTake | RReadCount | REnterExit | RLeaveExit
  datatype WorkerStep =
    | Wake | DequeueWriter | GrantWriter | WriterDone | CountReaders
    | Drop | Snapshot | StartBatch | TakeReader | GrantReader | BatchDone

  datatype Event<E> =
    | Writer(t: nat, w: WriterStep<E>)
    | Reader(t: nat, r: ReaderStep)
    | Worker(k: WorkerStep)

  function Init<E>(add: nat, n: nat): State<E> {
    State(add, seq(n, _ => Thread(Idle, 0)), Waiting, 0, [], [], 0, None, 0, [], [], None,
          History([], [], None, [], [], [], [], {}))
  }

  predicate At<E>(s: State<E>, t: nat) {
    t < |s.threads|
  }

  predicate WriterEnabled<E>(s: State<E>, t: nat, a: WriterStep<E>) {
    At(s, t) &&
    match a
    case WEnqueue(_) => s.threads[t].pc.Idle?
    case WResume => s.threads[t].pc.WQueued? && s.threads[t].done > 0
    case WApply => s.threads[t].pc.WRun?
    case WWakeWorker => s.threads[t].pc.WSignal?
  }

  predicate ReaderEnabled<E>(s: State<E>, t: nat, a: ReaderStep) {
    At(s, t) &&
    match a
    case RCap => s.threads[t].pc.Idle?
    case REnqueue => s.threads[t].pc.ROffer?
    case RResume => s.threads[t].pc.RQueued? && s.threads[t].done > 0
    case RTake => s.threads[t].pc.RCopy?
    case RReadCount => s.threads[t].pc.RCount?
    case REnterExit => s.threads[t].pc.RExit? && s.sem.None?
    case RLeaveExit => s.threads[t].pc.RLeave? && s.sem == Some(t)
  }

  predicate WorkerEnabled<E>(s: State<E>, a: WorkerStep) {
    match a
    case Wake => s.worker.Waiting? && s.writerQ != []
    case DequeueWriter => s.worker.Awake?
    case GrantWriter => s.worker.GotWriter? && At(s, s.worker.w)
    case WriterDone => s.worker.AwaitWriter? && s.workerDone > 0
    case CountReaders => s.worker.Counting?
    case Drop => s.worker.Counted? && s.n == 0
    case Snapshot => s.worker.Counted? && s.n != 0
    case StartBatch => s.worker.Built?
    case TakeReader => s.worker.Granting? && s.worker.i < s.worker.limit
    case GrantReader => s.worker.GotReader? && At(s, s.worker.r)
    case BatchDone => s.worker.Granting? && s.worker.i >= s.worker.limit && s.workerDone > 0
  }

  predicate Enabled<E>(s: State<E>, e: Event<E>) {
    match e
    case Writer(t, a) => WriterEnabled(s, t, a)
    case Reader(t, a) => ReaderEnabled(s, t, a)
    case Worker(a) => WorkerEnabled(s, a)
  }

  /** The ordering hypothesis: the worker does not count readers while the last reader of
      the previous batch is still inside the exit section, between its signal and its
      decrement. The source leaves this to chance; `SchedulerExit` shows what it costs. */
  predicate Ordered<E>(s: State<E>, e: Event<E>) {
    e == Worker(CountReaders) ==> s.sem.None?
  }

  function SetThread<E>(s: State<E>, t: nat, th: Thread<E>): State<E>
    requires At(s, t)
  {
    s.(threads := s.threads[t := th])
  }

  function Copied<E>(vector: Option<seq<Upd<E>>>, count: int): seq<Upd<E>> {
    if vector.None? then [] else CopyOut(vector.value, count)
  }

  /** The writer cases of the ioctl handler. */
  function WriterApply<E>(s: State<E>, t: nat, a: WriterStep<E>): State<E>
    requires WriterEnabled(s, t, a)
  {
    match a
    case WEnqueue(op) => EnqueueWriter(s, t, op)
    case WResume => SetThread(s, t, Thread(WRun(s.threads[t].pc.op), s.threads[t].done - 1))
    case WApply =>
      var op := s.threads[t].pc.op;
      SetThread(s, t, s.threads[t].(pc := WSignal(op)))
        .(table := ApplyTable(s.add, op, s.table), changes := Broadcast(s.add, op) + s.changes)
    case WWakeWorker =>
      SetThread(s, t, s.threads[t].(pc := Idle)).(workerDone := s.workerDone + 1)
  }

  /** The subscribe case of the ioctl handler. */
  function ReaderApply<E>(s: State<E>, t: nat, a: ReaderStep): State<E>
    requires ReaderEnabled(s, t, a)
  {
    match a
    case RCap =>
      SetThread(s, t, s.threads[t].(pc := ROffer))
        .(count := if s.count > MAX_FETCH then MAX_FETCH else s.count)
    case REnqueue => EnqueueReader(s, t)
    case RResume => SetThread(s, t, Thread(RCopy, s.threads[t].done - 1))
    case RTake => SetThread(s, t, s.threads[t].(pc := RCount(Copied(s.vector, s.count))))
    case RReadCount => SetThread(s, t, s.threads[t].(pc := RExit(s.threads[t].pc.buf, s.count)))
    case REnterExit => EnterExit(s, t)
    case RLeaveExit =>
      SetThread(s, t, s.threads[t].(pc := Idle)).(n := (s.n + UINT32 - 1) % UINT32, sem := None)
  }

  /** The worker thread. */
  function WorkerApply<E>(s: State<E>, a: WorkerStep): State<E>
    requires WorkerEnabled(s, a)
  {
    match a
    case Wake => s.(worker := Awake)
    case DequeueWriter => DequeuedWriter(s)
    case GrantWriter =>
      var w := s.worker.w;
      SetThread(s, w, s.threads[w].(done := s.threads[w].done + 1)).(worker := AwaitWriter)
    case WriterDone => s.(worker := Counting, workerDone := s.workerDone - 1)
    case CountReaders => s.(worker := Counted, n := |s.readerQ|, hist := s.hist.(batch := s.readerQ))
    case Drop => EndCycle(s).(changes := [])
    case Snapshot => s.(worker := Built, vector := Some(s.changes), count := |s.changes|)
    case StartBatch => s.(worker := Granting(0, s.n))
    case TakeReader => TakenReader(s)
    case GrantReader =>
      var r := s.worker.r;
      SetThread(s, r, s.threads[r].(done := s.threads[r].done + 1))
        .(worker := Granting(s.worker.i + 1, s.worker.limit))
    case BatchDone => EndCycle(s).(workerDone := s.workerDone - 1)
  }

  function Apply<E>(s: State<E>, e: Event<E>): State<E>
    requires Enabled(s, e)
  {
    match e
    case Writer(t, a) => WriterApply(s, t, a)
    case Reader(t, a) => ReaderApply(s, t, a)
    case Worker(a) => WorkerApply(s, a)
  }

  /** The result of `enqueue` is ignored: with a full queue the thread waits, unqueued. */
  function EnqueueWriter<E>(s: State<E>, t: nat, op: Op<E>): State<E>
    requires At(s, t)
  {
    var s1 := SetThread(s, t, s.threads[t].(pc := WQueued(op)));
    if |s.writerQ| >= Q_SIZE then
      s1.(hist := s.hist.(dropped := s.hist.dropped + {t}))
    else
      s1.(writerQ := s.writerQ + [t],
          hist := s.hist.(writes := s.hist.writes + [Write(t, op)], pend := s.hist.pend + [Write(t, op)]))
  }

  function EnqueueReader<E>(s: State<E>, t: nat): State<E>
    requires At(s, t)
  {
    var s1 := SetThread(s, t, s.threads[t].(pc := RQueued));
    if |s.readerQ| >= Q_SIZE then
      s1.(hist := s.hist.(dropped := s.hist.dropped + {t}))
    else
      s1.(readerQ := s.readerQ + [t], hist := s.hist.(arrived := s.hist.arrived + [t]))
  }

  function DequeuedWriter<E>(s: State<E>): State<E> {
    if s.writerQ == [] then s.(worker := Crashed)
    else
      s.(worker := GotWriter(s.writerQ[0]), writerQ := s.writerQ[1..],
         hist := if s.hist.pend == [] then s.hist
                 else s.hist.(cur := Some(s.hist.pend[0]), pend := s.hist.pend[1..]))
  }

  function TakenReader<E>(s: State<E>): State<E>
    requires s.worker.Granting?
  {
    if s.readerQ == [] then s.(worker := Crashed)
    else s.(worker := GotReader(s.worker.i, s.worker.limit, s.readerQ[0]), readerQ := s.readerQ[1..])
  }

  /** The exit section up to the signal: the reader that finds the count at 1 empties the
      change list, frees the vector and signals the worker. */
  function EnterExit<E>(s: State<E>, t: nat): State<E>
    requires At(s, t) && s.threads[t].pc.RExit?
  {
    var pc := s.threads[t].pc;
    var s1 := SetThread(s, t, s.threads[t].(pc := RLeave))
              .(sem := Some(t), hist := s.hist.(exits := s.hist.exits + [Exit(t, pc.buf, pc.rc)]));
    if s.n == 1 then
      s1.(count := 0, changes := [], vector := None, workerDone := s.workerDone + 1)
    else s1
  }

  function EndCycle<E>(s: State<E>): State<E> {
    s.(worker := Waiting,
       hist := if s.hist.cur.None? then s.hist
               else s.hist.(log := s.hist.log + [Cycle(s.hist.cur.value, s.hist.batch, s.hist.exits)],
                            cur := None, batch := [], exits := []))
  }

  /** The state after a run from `s`, if every step of it can be taken. */
  function Run<E>(s: State<E>, trace: seq<Event<E>>): Option<State<E>>
    decreases |trace|
  {
    if trace == [] then Some(s)
    else
      var e := trace[|trace| - 1];
      match Run(s, trace[..|trace| - 1])
      case None => None
      case Some(s1) => if Enabled(s1, e) && Ordered(s1, e) then Some(Apply(s1, e)) else None
  }

  /** The states the service can be in, with any number of open files. */
  ghost predicate Reachable<E(!new)>(s: State<E>) {
    exists add: nat, n: nat, trace: seq<Event<E>> :: Run(Init(add, n), trace) == Some(s)
  }
}
