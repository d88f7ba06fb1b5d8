/** What every run of the ioctl path guarantees. */
module SchedulerTheorems {
  import opened Limits
  import opened Options
  import opened Sequences
  import opened TableSpec
  import opened TableHistory
  import opened SchedulerSpec
  import opened SchedulerTrace
  import opened SchedulerInvariant
  import SchedulerWriters
  import SchedulerReaders
  import SchedulerWorker

  // ---- every reachable state satisfies the invariant ----------------------------------

  lemma InitThreads<E>(add: nat, n: nat)
    ensures var s := Init<E>(add, n); Shape(s) && Control(s) && Fifo(s) && Members(s) && Located(s)
  {
    hide Sum, Opens, Pres, Posts, Leaves, Readers;
    InitCounts<E>(n);
    InitLogs<E>(add);
  }

  lemma InitData<E>(add: nat, n: nat)
    ensures var s := Init<E>(add, n); WriterFifo(s) && Data(s) && Delivery(s) && GoodLog(s)
  {
    hide Opens, Writes, Replay;
    InitLogs<E>(add);
  }

  lemma InitInv<E>(add: nat, n: nat)
    ensures Inv(Init<E>(add, n))
  {
    hide Shape, Control, Fifo, Members, WriterFifo, Data, Delivery, GoodLog, Located;
    InitThreads<E>(add, n);
    InitData<E>(add, n);
  }

  lemma InitLogs<E>(add: nat)
    ensures Readers<E>([]) == [] && Writes<E>([]) == [] && Replay<E>(add, []) == []
  {
  }

  lemma InitCounts<E>(n: nat)
    ensures var ts := seq(n, _ => Thread<E>.Thread(Idle, 0));
            Opens(ts) == Pres(ts) == Posts(ts) == Leaves(ts) == 0
  {
    var ts := seq(n, _ => Thread<E>.Thread(Idle, 0));
    SumZero(OpenW, ts);
    SumZero(PreW, ts);
    SumZero(PostW, ts);
    SumZero(LeaveW, ts);
  }

  lemma StepInv<E>(s: State<E>, e: Event<E>)
    requires Inv(s) && Enabled(s, e) && Ordered(s, e)
    ensures Inv(Apply(s, e))
  {
    hide Inv;
    match e
    case Writer(t, a) => SchedulerWriters.Keeps(s, t, a, Apply(s, e));
    case Reader(t, a) => SchedulerReaders.Keeps(s, t, a, Apply(s, e));
    case Worker(a) => SchedulerWorker.Keeps(s, a, Apply(s, e));
  }

  lemma {:induction false} RunInv<E>(s: State<E>, trace: seq<Event<E>>)
    requires Inv(s)
    ensures Run(s, trace).Some? ==> Inv(Run(s, trace).value)
    decreases |trace|
  {
    hide Inv, Apply, Enabled;
    if trace == [] {
    } else {
      var front := trace[..|trace| - 1];
      RunInv(s, front);
      var e := trace[|trace| - 1];
      if Run(s, trace).Some? {
        StepInv(Run(s, front).value, e);
      }
    }
  }

  lemma ReachableInv<E(!new)>(s: State<E>)
    requires Reachable(s)
    ensures Inv(s)
  {
    hide Inv;
    var add, n, trace :| Run(Init(add, n), trace) == Some(s);
    InitInv<E>(add, n);
    RunInv(Init(add, n), trace);
  }

  // ---- mutual exclusion and counter accounting ----------------------------------------

  /** A writer between its grant and its signal. */
  predicate Writing<E>(s: State<E>, t: nat) {
    At(s, t) && (IsPre(s.threads[t]) || IsPost(s.threads[t]))
  }

  /** A reader between its grant and its last-reader test. */
  predicate Reading<E>(s: State<E>, t: nat) {
    At(s, t) && IsOpen(s.threads[t])
  }

  /** One writer at a time, never beside a reader. */
  lemma {:induction false} MutualExclusion<E(!new)>(s: State<E>, t: nat, u: nat)
    requires Reachable(s) && Writing(s, t)
    ensures Writing(s, u) ==> u == t
    ensures !Reading(s, u)
    ensures s.worker.AwaitWriter? && s.workerDone == 0
  {
    ReachableInv(s);
    Change(s.threads, t, s.threads[t]);
    if At(s, u) {
      SumMember(OpenW, s.threads, u);
      SumMember(PreW, s.threads, u);
      SumMember(PostW, s.threads, u);
      if u != t {
        var i, j := if t < u then t else u, if t < u then u else t;
        SumTwo(PreW, s.threads, i, j);
        SumTwo(PostW, s.threads, i, j);
      }
    }
  }

  /** At most one thread is inside the exit section. */
  lemma ExitSectionExclusive<E(!new)>(s: State<E>, t: nat)
    requires Reachable(s)
    ensures At(s, t) && s.threads[t].pc.RLeave? ==> s.sem == Some(t)
  {
    ReachableInv(s);
    if At(s, t) && s.threads[t].pc.RLeave? && s.sem != Some(t) {
      var ts' := s.threads[t := Thread(Idle, 0)];
      Change(s.threads, t, Thread(Idle, 0));
      Change(ts', s.sem.value, ts'[s.sem.value]);
    }
  }

  lemma CounterParts<E>(s: State<E>)
    requires Accounting(s) && Phase(s) && Fifo(s)
    ensures s.n == Opens(s.threads) + (|s.hist.batch| - Granted(s.worker)) + Held(s)
  {
    hide Sum, Opens, Pres, Posts, Leaves, Readers, NoDup;
  }

  lemma LeavingIsHeld<E>(s: State<E>, t: nat)
    requires SemOk(s) && At(s, t) && s.threads[t].pc.RLeave?
    ensures Held(s) == 1
  {
    SumMember(LeaveW, s.threads, t);
  }

  /** The counter is always the readers inside, the sampled readers still to be granted, and
      the reader between its test and its decrement; so the decrement never wraps. */
  lemma CounterAccounting<E(!new)>(s: State<E>)
    requires Reachable(s)
    ensures s.n == Opens(s.threads) + (|s.hist.batch| - Granted(s.worker)) + Held(s)
    ensures forall t: nat :: At(s, t) && s.threads[t].pc.RLeave? ==> s.n > 0
    ensures s.n <= Q_SIZE
  {
    ReachableInv(s);
    hide Sum, Opens, Shape, Phase, SemOk, Fifo, Members, WriterFifo, Data, Delivery, GoodLog, Located;
    CounterParts(s);
    assert Ungranted(s) >= 0 by { UngrantedReaders(s); }
    forall t: nat | At(s, t) && s.threads[t].pc.RLeave? ensures s.n > 0 {
      LeavingIsHeld(s, t);
    }
  }

  lemma UngrantedReaders<E>(s: State<E>)
    requires Phase(s)
    ensures Ungranted(s) >= 0
  {
    hide Sum, Opens, Pres, Posts, Leaves;
  }

  /** The `== 1` test fires for a reader exactly when it is the last one of the batch: all of
      the batch was granted and nobody else is inside. */
  lemma LastReaderTest<E(!new)>(s: State<E>, t: nat)
    requires Reachable(s) && ReaderEnabled(s, t, REnterExit)
    ensures s.n == 1 <==>
              Granted(s.worker) == |s.hist.batch| && forall u: nat :: Reading(s, u) ==> u == t
  {
    ReachableInv(s);
    var rest := s.threads[t := Thread(Idle, 0)];
    Change(s.threads, t, Thread(Idle, 0));
    assert Opens(s.threads) == Opens(rest) + 1;
    SumZero(OpenW, rest);
    if forall u: nat :: Reading(s, u) ==> u == t {
      forall u: nat | u < |rest| ensures OpenW(rest[u]) == 0 {
        assert u != t ==> rest[u] == s.threads[u] && !Reading(s, u);
      }
    }
    if Opens(rest) == 0 {
      forall u: nat | Reading(s, u) ensures u == t {
        assert OpenW(rest[u]) == 0;
      }
    }
  }

  /** The test fires once per batch: afterwards nobody of the batch is inside or to come. */
  lemma LastReaderOnce<E(!new)>(s: State<E>, t: nat, u: nat)
    requires Reachable(s) && ReaderEnabled(s, t, REnterExit) && s.n == 1
    ensures var s' := ReaderApply(s, t, REnterExit);
            !Reading(s', u) && Granted(s'.worker) == |s'.hist.batch| && s'.workerDone == 1
  {
    ReachableInv(s);
    LastReaderTest(s, t);
    if At(s, u) && u != t {
      assert !Reading(s, u);
    }
  }

  // ---- the queues deliver -------------------------------------------------------------

  /** No dequeue of the worker returns NULL, and the next reader it dequeues is the next one
      of the batch it sampled, whatever was enqueued meanwhile. */
  lemma DequeuesSucceed<E(!new)>(s: State<E>)
    requires Reachable(s)
    ensures s.worker != Crashed
    ensures s.worker.Awake? ==> s.writerQ != []
    ensures s.worker.Granting? && s.worker.i < s.worker.limit ==>
              s.readerQ != [] && s.worker.i < |s.hist.batch| && s.readerQ[0] == s.hist.batch[s.worker.i]
    ensures Taken(s.worker) <= |s.hist.batch| && s.hist.batch[Taken(s.worker)..] <= s.readerQ
  {
    ReachableInv(s);
    hide Shape, Members, WriterFifo, Data, Delivery, GoodLog, Located, Sum, NoDup, Readers;
  }

  /** Exact broadcast. Readers are served in arrival order: those of the completed cycles,
      then those dequeued in the open batch, then the queue. Each completed cycle handed its
      own writer's update, and nothing else, to each reader of its batch exactly once. */
  lemma ExactBroadcast<E(!new)>(s: State<E>)
    requires Reachable(s)
    ensures Taken(s.worker) <= |s.hist.batch|
    ensures s.hist.arrived == Readers(s.hist.log) + s.hist.batch[..Taken(s.worker)] + s.readerQ
    ensures forall i :: 0 <= i < |s.hist.log| ==>
              var c := s.hist.log[i];
              && NoDup(c.batch) && NoDup(Tids(c.exits)) && (forall t :: t in c.batch <==> t in Tids(c.exits))
              && forall x :: x in c.exits ==> Tells(s.add, c.write.op, x.buf) && x.rc == |x.buf| <= 1
  {
    ReachableInv(s);
    forall i, x | 0 <= i < |s.hist.log| && x in s.hist.log[i].exits
      ensures Tells(s.add, s.hist.log[i].write.op, x.buf) && x.rc == |x.buf| <= 1
    {
      assert GoodCycle(s.add, s.hist.log[i]);
    }
    forall i | 0 <= i < |s.hist.log| ensures GoodCycle(s.add, s.hist.log[i]) {
    }
  }

  /** What a reader has to be told of a request: a created entry, and one added by an update,
      with the "add" code, and nothing else. */
  ghost predicate Tells<E>(add: nat, op: Op<E>, buf: seq<Upd<E>>) {
    match op
    case Create(entry) => buf == [Upd(add, entry)]
    case Update(code, entry) => buf == if code == add then [Upd(add, entry)] else []
    case Purge => buf == []
  }

  /** What a granted writer does to the table and to the change list. */
  lemma WriteDoes<E>(s: State<E>, t: nat)
    requires WriterEnabled(s, t, WApply)
    ensures var s', op := WriterApply(s, t, WApply), s.threads[t].pc.op;
            && (op.Create? ==> s'.table == [op.entry] + s.table && s'.changes == [Upd(s.add, op.entry)] + s.changes)
            && (op.Update? && op.code == s.add ==>
                  s'.table == [op.entry] + s.table && s'.changes == [Upd(s.add, op.entry)] + s.changes)
            && (op.Update? && op.code != s.add ==> s'.table == s.table && s'.changes == s.changes)
            && (op.Purge? ==> s'.table == [] && s'.changes == s.changes)
  {
  }

  // ---- sequential refinement ----------------------------------------------------------

  /** The specification: a table, and a log whose entries are atomic "write, then broadcast". */
  datatype Ledger<E> = Ledger(table: seq<E>, log: seq<Cycle<E>>)

  ghost predicate LedgerStep<E(!new)>(add: nat, a: Ledger<E>, b: Ledger<E>) {
    exists c: Cycle<E> ::
      GoodCycle(add, c) && b == Ledger(ApplyTable(add, c.write.op, a.table), a.log + [c])
  }

  function Abstract<E>(s: State<E>): Ledger<E> {
    Ledger(Replay(s.add, s.hist.log), s.hist.log)
  }

  lemma RefinesAtEnd<E(!new)>(s: State<E>, a: WorkerStep)
    requires Inv(s) && WorkerEnabled(s, a) && (a.Drop? || a.BatchDone?)
    ensures LedgerStep(s.add, Abstract(s), Abstract(WorkerApply(s, a)))
  {
    hide Sum, Opens, Pres, Posts, Leaves, Replay, ApplyTable, GoodCycle;
    var c := Cycle(s.hist.cur.value, s.hist.batch, s.hist.exits);
    SchedulerWorker.CycleComplete(s);
    ReplayAppend(s.add, s.hist.log, c);
  }

  predicate EndsCycle<E>(e: Event<E>) {
    e.Worker? && (e.k.Drop? || e.k.BatchDone?)
  }

  lemma Stutters<E>(s: State<E>, e: Event<E>)
    requires Enabled(s, e) && !EndsCycle(e)
    ensures Apply(s, e).add == s.add && Apply(s, e).hist.log == s.hist.log
  {
  }

  /** Each step of the service is a step of the specification or leaves it alone. */
  lemma {:induction false} StepRefines<E(!new)>(s: State<E>, e: Event<E>)
    requires Reachable(s) && Enabled(s, e) && Ordered(s, e)
    ensures Abstract(Apply(s, e)) == Abstract(s) || LedgerStep(s.add, Abstract(s), Abstract(Apply(s, e)))
  {
    ReachableInv(s);
    if EndsCycle(e) {
      hide Inv, GoodCycle, Replay, LedgerStep, Abstract, WorkerApply;
      RefinesAtEnd(s, e.k);
    } else {
      hide Inv, GoodCycle, Replay, LedgerStep, Apply, Enabled;
      Stutters(s, e);
    }
  }

  lemma {:induction false} ReplayIsFold<E>(add: nat, log: seq<Cycle<E>>)
    ensures Replay(add, log) == Fold(add, Writes(log))
  {
    if log == [] {
    } else {
      ReplayIsFold(add, log[..|log| - 1]);
      assert Writes(log)[..|log| - 1] == Writes(log[..|log| - 1]);
    }
  }

  /** How many writers have changed the table. */
  ghost function Changed<E>(s: State<E>): nat {
    |s.hist.log| + if Applied(s) then 1 else 0
  }

  lemma Parts<T>(a: seq<T>, c: seq<T>, p: seq<T>)
    ensures (a + c + p)[..|a|] == a && (c != [] ==> (a + c + p)[|a|] == c[0])
  {
  }

  /** The completed cycles served the first requests, and the current one serves the next. */
  lemma Served<E>(s: State<E>)
    requires WriterFifo(s)
    ensures |s.hist.log| <= |s.hist.writes| && s.hist.writes[..|s.hist.log|] == Writes(s.hist.log)
    ensures s.hist.cur.Some? ==>
              |s.hist.log| < |s.hist.writes| && s.hist.writes[|s.hist.log|] == s.hist.cur.value
    ensures InCycle(s.worker) ==> s.hist.cur.Some?
  {
    var c := if s.hist.cur.Some? then [s.hist.cur.value] else [];
    assert |Writes(s.hist.log)| == |s.hist.log|;
    hide Writes;
    Parts(Writes(s.hist.log), c, s.hist.pend);
  }

  lemma ServedAt<E>(log: seq<Cycle<E>>, writes: seq<Write<E>>)
    requires |log| <= |writes| && writes[..|log|] == Writes(log)
    ensures forall i :: 0 <= i < |log| ==> log[i].write == writes[i]
  {
    forall i | 0 <= i < |log| ensures log[i].write == writes[i] {
      assert writes[i] == writes[..|log|][i];
    }
  }

  /** The table is the accepted requests, in arrival order, applied one after another up to
      the last writer that ran. */
  lemma TableIsSequential<E(!new)>(s: State<E>)
    requires Reachable(s)
    ensures Changed(s) <= |s.hist.writes| && s.table == Fold(s.add, s.hist.writes[..Changed(s)])
    ensures forall i :: 0 <= i < |s.hist.log| ==> s.hist.log[i].write == s.hist.writes[i]
  {
    ReachableInv(s);
    Served(s);
    ServedAt(s.hist.log, s.hist.writes);
    hide Replay, Fold, ApplyTable, Writes, Reachable, Opens, Pres, Posts, Leaves;
    hide Shape, Control, Fifo, Members, WriterFifo, Delivery, GoodLog, Located;
    ReplayIsFold(s.add, s.hist.log);
    if Applied(s) {
      FoldStep(s.add, s.hist.writes, |s.hist.log|);
    }
  }

  /** The table changes of a run. */
  function Applies<E>(trace: seq<Event<E>>): nat {
    if trace == [] then 0
    else
      var e := trace[|trace| - 1];
      Applies(trace[..|trace| - 1]) + if e.Writer? && e.w.WApply? then 1 else 0
  }

  lemma ChangedByWriter<E>(s: State<E>, e: Event<E>)
    requires Shape(s) && Control(s) && Enabled(s, e) && e.Writer?
    ensures Changed(Apply(s, e)) == Changed(s) + if e.w.WApply? then 1 else 0
  {
    hide Sum, Opens, Pres, Posts, Leaves, QueueOk;
    Change(s.threads, e.t, WriterApply(s, e.t, e.w).threads[e.t]);
  }

  lemma ChangedByReader<E>(s: State<E>, e: Event<E>)
    requires Shape(s) && Control(s) && Enabled(s, e) && e.Reader?
    ensures Changed(Apply(s, e)) == Changed(s)
  {
    hide Sum, Opens, Pres, Posts, Leaves, QueueOk;
    Change(s.threads, e.t, ReaderApply(s, e.t, e.r).threads[e.t]);
  }

  lemma ChangedByWorker<E>(s: State<E>, e: Event<E>)
    requires Shape(s) && Control(s) && Fifo(s) && WriterFifo(s) && Enabled(s, e) && e.Worker?
    ensures Changed(Apply(s, e)) == Changed(s)
  {
    hide Sum, Opens, Pres, Posts, Leaves, QueueOk, Writes, Readers, NoDup;
    if SchedulerWorker.Grants(e.k) {
      var t := SchedulerWorker.Grantee(s, e.k);
      Change(s.threads, t, WorkerApply(s, e.k).threads[t]);
    }
  }

  lemma ChangedByStep<E>(s: State<E>, e: Event<E>)
    requires Inv(s) && Enabled(s, e)
    ensures Changed(Apply(s, e)) == Changed(s) + if e.Writer? && e.w.WApply? then 1 else 0
  {
    hide Changed, Apply, Shape, Control, Fifo, WriterFifo;
    if e.Writer? {
      ChangedByWriter(s, e);
    } else if e.Reader? {
      ChangedByReader(s, e);
    } else {
      ChangedByWorker(s, e);
    }
  }

  lemma {:induction false} ChangedIsApplies<E>(s: State<E>, trace: seq<Event<E>>)
    requires Inv(s)
    ensures Run(s, trace).Some? ==> Changed(Run(s, trace).value) == Changed(s) + Applies(trace)
    decreases |trace|
  {
    hide Changed, Apply, WriterEnabled, ReaderEnabled, WorkerEnabled, Shape, Control, WriterFifo;
    if trace == [] || Run(s, trace).None? {
    } else {
      var front, e := trace[..|trace| - 1], trace[|trace| - 1];
      ChangedIsApplies(s, front);
      RunInv(s, front);
      ChangedByStep(Run(s, front).value, e);
    }
  }

  /** Sequential refinement of whole runs: after any interleaving, the table is the first
      `Applies(trace)` requests of the run that found room in the queue, in the order they were
      made in, applied one after another. */
  lemma RunIsSequential<E(!new)>(add: nat, n: nat, trace: seq<Event<E>>)
    requires Run(Init(add, n), trace).Some?
    ensures Applies(trace) <= |Requests(Init<E>(add, n), trace)|
    ensures Run(Init(add, n), trace).value.table == Fold(add, Requests(Init(add, n), trace)[..Applies(trace)])
  {
    var s := Run(Init(add, n), trace).value;
    InitInv<E>(add, n);
    InitUnchanged<E>(add, n);
    InitNothing<E>(add, n);
    assert Reachable(s);
    hide Inv, Fold, Changed, Run, Applies, Reachable, Init, Requests;
    ChangedIsApplies(Init(add, n), trace);
    TableIsSequential(s);
    WritesAreRequests(Init(add, n), trace);
    RunKeepsAdd(Init(add, n), trace);
    assert s.hist.writes == Requests(Init(add, n), trace);
  }

  /** Whoever leaves in the open cycle takes its own writer's update along. */
  lemma TellsNow<E(!new)>(s: State<E>, x: Exit<E>)
    requires Reachable(s) && x in s.hist.exits
    ensures s.hist.cur.Some? && Tells(s.add, s.hist.cur.value.op, x.buf) && x.rc == |x.buf|
    ensures |s.hist.log| < |s.hist.writes| && s.hist.writes[|s.hist.log|] == s.hist.cur.value
  {
    ReachableInv(s);
    assert WriterFifo(s) && Members(s) && Delivery(s);
    hide Inv, Reachable;
    SchedulerWorker.ExitsFollowGrants(s);
    assert InCycle(s.worker);
    Served(s);
  }

  /** Broadcast over whole runs, read off the events: the subscribers that found room are served
      in the order they came in, cycle by cycle; the i-th cycle serves the i-th request; and each
      subscriber leaves once, with what its cycle's request has to tell and nothing else. */
  lemma RunBroadcasts<E(!new)>(add: nat, n: nat, trace: seq<Event<E>>)
    requires Run(Init(add, n), trace).Some?
    ensures var s, ws := Run(Init(add, n), trace).value, Requests(Init(add, n), trace);
            && Taken(s.worker) <= |s.hist.batch|
            && Joined(Init(add, n), trace) == Readers(s.hist.log) + s.hist.batch[..Taken(s.worker)] + s.readerQ
            && Left(Init(add, n), trace) == ExitsOf(s.hist.log) + s.hist.exits
            && |s.hist.log| <= |ws|
            && (forall i :: 0 <= i < |s.hist.log| ==>
                  && s.hist.log[i].write == ws[i]
                  && NoDup(s.hist.log[i].batch) && NoDup(Tids(s.hist.log[i].exits))
                  && forall t :: t in s.hist.log[i].batch <==> t in Tids(s.hist.log[i].exits))
            && (forall i, x :: 0 <= i < |s.hist.log| && x in s.hist.log[i].exits ==>
                  Tells(add, ws[i].op, x.buf) && x.rc == |x.buf|)
            && (forall x :: x in s.hist.exits ==>
                  |s.hist.log| < |ws| && Tells(add, ws[|s.hist.log|].op, x.buf) && x.rc == |x.buf|)
  {
    var s0 := Init<E>(add, n);
    var s := Run(s0, trace).value;
    assert Reachable(s);
    hide Run, Reachable, Requests, Joined, Left, Tells, NoDup, Readers, ExitsOf, Tids;
    InitNothing<E>(add, n);
    WritesAreRequests(s0, trace);
    ArrivedAreJoined(s0, trace);
    ExitsAreLeft(s0, trace);
    RunKeepsAdd(s0, trace);
    ExactBroadcast(s);
    TableIsSequential(s);
    assert s.hist.writes == Requests(s0, trace);
    forall x | x in s.hist.exits
      ensures |s.hist.log| < |s.hist.writes| && Tells(add, s.hist.writes[|s.hist.log|].op, x.buf) && x.rc == |x.buf|
    {
      TellsNow(s, x);
    }
  }

  lemma InitNothing<E>(add: nat, n: nat)
    ensures var s := Init<E>(add, n);
            s.hist.writes == [] && s.hist.arrived == [] && s.hist.log == [] && s.hist.exits == []
            && ExitsOf(s.hist.log) == [] && s.add == add
  {
  }

  lemma InitUnchanged<E>(add: nat, n: nat)
    ensures Changed(Init<E>(add, n)) == 0
  {
  }

  // ---- the update vector --------------------------------------------------------------

  /** Whoever can copy the vector finds it allocated and holding the cycle's own update; the
      change list and the vector hold at most one record, so no arriving reader caps it. */
  lemma VectorLifetime<E(!new)>(s: State<E>, t: nat)
    requires Reachable(s)
    ensures Reading(s, t) ==> s.hist.cur.Some? && s.vector == Some(News(s)) && s.count == |News(s)|
    ensures s.worker.Counted? ==> s.vector.None?
    ensures |s.changes| <= 1 && 0 <= s.count <= 1
    ensures s.vector.None? ==> s.count == 0
    ensures !InCycle(s.worker) || s.worker.GotWriter? ==> s.changes == [] && s.vector.None?
  {
    ReachableInv(s);
    hide Sum, Opens, Pres, Posts, Leaves, Replay, Shape, Fifo, Members, Delivery, GoodLog, Located;
    if Reading(s, t) {
      SchedulerReaders.VectorInPlace(s, t);
    }
  }

  /** An arriving subscriber caps the count at 20, and in an orderly run that stores nothing. */
  lemma ArrivalCaps<E(!new)>(s: State<E>, t: nat)
    requires ReaderEnabled(s, t, RCap)
    ensures var s' := ReaderApply(s, t, RCap);
            && s'.count <= MAX_FETCH && (s'.count == s.count || s'.count == MAX_FETCH < s.count)
            && (Reachable(s) ==> s'.count == s.count)
  {
    hide Reachable;
    if Reachable(s) {
      VectorLifetime(s, t);
    }
  }

  /** While a reader can copy the vector no step changes it, except the exit of the last one. */
  lemma {:induction false} VectorStable<E(!new)>(s: State<E>, e: Event<E>, t: nat)
    requires Reachable(s) && Enabled(s, e) && Reading(s, t)
    ensures Reading(Apply(s, e), t) ==> Apply(s, e).vector == s.vector && Apply(s, e).count == s.count
    ensures !Reading(Apply(s, e), t) ==> e == Reader(t, REnterExit)
  {
    VectorLifetime(s, t);
    ReachableInv(s);
    assert InBatch(s.worker) by {
      SchedulerReaders.VectorInPlace(s, t);
    }
    match e
    case Writer(u, a) => StableUnderWriter(s, u, a, t);
    case Reader(u, a) =>
      if a.REnterExit? && s.n == 1 {
        LastReaderTest(s, u);
      }
      StableUnderReader(s, u, a, t);
    case Worker(a) => StableUnderWorker(s, a, t);
  }

  lemma StableUnderWriter<E>(s: State<E>, u: nat, a: WriterStep<E>, t: nat)
    requires WriterEnabled(s, u, a) && Reading(s, t)
    ensures var s' := WriterApply(s, u, a);
            Reading(s', t) && s'.vector == s.vector && s'.count == s.count
  {
  }

  lemma StableUnderReader<E>(s: State<E>, u: nat, a: ReaderStep, t: nat)
    requires ReaderEnabled(s, u, a) && Reading(s, t) && s.count <= 1
    requires a.REnterExit? && s.n == 1 ==> u == t
    ensures var s' := ReaderApply(s, u, a);
            if a.REnterExit? && u == t then !Reading(s', t)
            else Reading(s', t) && s'.vector == s.vector && s'.count == s.count
  {
  }

  lemma StableUnderWorker<E>(s: State<E>, a: WorkerStep, t: nat)
    requires WorkerEnabled(s, a) && Reading(s, t) && InBatch(s.worker)
    ensures var s' := WorkerApply(s, a);
            Reading(s', t) && s'.vector == s.vector && s'.count == s.count
  {
  }

  /** The vector is allocated only when there is none, and freed only when there is one. */
  lemma VectorOnce<E(!new)>(s: State<E>, e: Event<E>)
    requires Reachable(s) && Enabled(s, e) && Ordered(s, e) && Apply(s, e).vector != s.vector
    ensures if s.vector.None? then e == Worker(Snapshot)
            else e.Reader? && e.r.REnterExit? && s.n == 1 && Apply(s, e).vector.None?
  {
    if e == Worker(Snapshot) {
      VectorLifetime(s, 0);
    }
    if e.Reader? && e.r.REnterExit? {
      VectorLifetime(s, e.t);
    }
  }
}
