/** Each queue holds 50 threads, and the result of `enqueue` is ignored. A writer is served, and a
    subscriber is not turned away, if and only if the queue had room. */
module SchedulerCapacity {
  import opened Limits
  import opened Options
  import opened TableSpec
  import opened SchedulerSpec
  import opened SchedulerInvariant
  import opened SchedulerTheorems
  import opened SchedulerProgress

  /** A thread meets a full queue. */
  predicate MeetsFullQueue<E>(s: State<E>, t: nat, e: Event<E>) {
    || (e.Writer? && e.t == t && e.w.WEnqueue? && |s.writerQ| >= Q_SIZE)
    || (e.Reader? && e.t == t && e.r.REnqueue? && |s.readerQ| >= Q_SIZE)
  }

  // ---- who is turned away -------------------------------------------------------------

  lemma DroppedByStep<E>(s: State<E>, e: Event<E>, t: nat)
    requires Enabled(s, e)
    ensures t in Apply(s, e).hist.dropped <==> t in s.hist.dropped || MeetsFullQueue(s, t, e)
  {
  }

  /** The `i`-th step of a run makes a request of this thread that meets a full queue. */
  predicate MeetsAt<E>(s: State<E>, trace: seq<Event<E>>, t: nat, i: nat)
    requires i < |trace|
  {
    Run(s, trace[..i]).Some? && MeetsFullQueue(Run(s, trace[..i]).value, t, trace[i])
  }

  lemma MeetsEarlier<E>(s: State<E>, trace: seq<Event<E>>, t: nat, i: nat)
    requires i + 1 < |trace|
    ensures MeetsAt(s, trace[..|trace| - 1], t, i) <==> MeetsAt(s, trace, t, i)
  {
    hide Run, MeetsFullQueue;
    assert trace[..|trace| - 1][..i] == trace[..i];
  }

  lemma MeetsLast<E>(s: State<E>, trace: seq<Event<E>>, t: nat)
    requires trace != [] && Run(s, trace[..|trace| - 1]).Some?
    ensures MeetsAt(s, trace, t, |trace| - 1) <==>
            MeetsFullQueue(Run(s, trace[..|trace| - 1]).value, t, trace[|trace| - 1])
  {
  }

  /** A thread is turned away in a run if and only if one of its requests meets a full queue. */
  lemma {:induction false} DroppedIffFull<E>(s: State<E>, trace: seq<Event<E>>, t: nat)
    requires Run(s, trace).Some? && t !in s.hist.dropped
    ensures t in Run(s, trace).value.hist.dropped <==>
              exists i :: 0 <= i < |trace| && MeetsAt(s, trace, t, i)
    decreases |trace|
  {
    hide Apply, Enabled, MeetsAt;
    if trace == [] {
    } else {
      var k := |trace| - 1;
      var front := trace[..k];
      DroppedIffFull(s, front, t);
      DroppedByStep(Run(s, front).value, trace[k], t);
      forall i | 0 <= i < k ensures MeetsAt(s, front, t, i) <==> MeetsAt(s, trace, t, i) {
        MeetsEarlier(s, trace, t, i);
      }
      MeetsLast(s, trace, t);
    }
  }

  lemma {:induction false} DroppedByRun<E>(s: State<E>, trace: seq<Event<E>>, t: nat)
    requires Run(s, trace).Some? && t in s.hist.dropped
    ensures t in Run(s, trace).value.hist.dropped
    decreases |trace|
  {
    hide Apply, Enabled, MeetsFullQueue;
    if trace == [] {
    } else {
      var front := trace[..|trace| - 1];
      DroppedByRun(s, front, t);
      DroppedByStep(Run(s, front).value, trace[|trace| - 1], t);
    }
  }

  lemma DroppedWaits<E>(s: State<E>, t: nat)
    requires Inv(s) && t in s.hist.dropped
    ensures At(s, t) && s.threads[t].done == 0 && (s.threads[t].pc.WQueued? || s.threads[t].pc.RQueued?)
  {
    hide Shape, Control, Fifo, Members, WriterFifo, Data, Delivery, GoodLog;
  }

  /** A request that meets a full queue waits forever: in no continuation is its thread granted,
      and it never moves again. */
  lemma {:induction false} FullQueueStarves<E(!new)>(s: State<E>, t: nat, e: Event<E>, trace: seq<Event<E>>)
    requires Reachable(s) && Enabled(s, e) && MeetsFullQueue(s, t, e) && Run(Apply(s, e), trace).Some?
    ensures var s' := Run(Apply(s, e), trace).value;
            && t in s'.hist.dropped && At(s', t) && s'.threads[t].done == 0
            && (s'.threads[t].pc.WQueued? || s'.threads[t].pc.RQueued?)
  {
    ReachableInv(s);
    DroppedByStep(s, e, t);
    hide Inv, Run, Apply, Enabled, Reachable;
    StepInv(s, e);
    RunInv(Apply(s, e), trace);
    DroppedByRun(Apply(s, e), trace, t);
    DroppedWaits(Run(Apply(s, e), trace).value, t);
  }

  // ---- who is served ------------------------------------------------------------------

  /** A thread that found room, or is done: without a new request it cannot be turned away. */
  predicate Admitted<E>(s: State<E>, t: nat) {
    At(s, t) && t !in s.hist.dropped && !s.threads[t].pc.ROffer?
  }

  predicate WriterSide<E>(s: State<E>, t: nat) {
    At(s, t) && var pc := s.threads[t].pc; pc.Idle? || pc.WQueued? || pc.WRun? || pc.WSignal?
  }

  lemma AdmittedByStep<E>(s: State<E>, e: Event<E>, t: nat)
    requires Enabled(s, e) && Internal(e) && Admitted(s, t)
    ensures Admitted(Apply(s, e), t)
  {
    DroppedByStep(s, e, t);
  }

  lemma WriterSideByStep<E>(s: State<E>, e: Event<E>, t: nat)
    requires Enabled(s, e) && Internal(e) && WriterSide(s, t)
    ensures WriterSide(Apply(s, e), t)
  {
  }

  lemma {:induction false} AdmittedByRun<E>(s: State<E>, trace: seq<Event<E>>, t: nat)
    requires NoArrivals(trace) && Run(s, trace).Some? && Admitted(s, t)
    ensures var s' := Run(s, trace).value;
            Admitted(s', t) && (WriterSide(s, t) ==> WriterSide(s', t))
    decreases |trace|
  {
    hide Apply, Enabled, Admitted, WriterSide;
    if trace == [] {
    } else {
      var front, e := trace[..|trace| - 1], trace[|trace| - 1];
      AdmittedByRun(s, front, t);
      assert Internal(e);
      var s1 := Run(s, front).value;
      AdmittedByStep(s1, e, t);
      if WriterSide(s1, t) {
        WriterSideByStep(s1, e, t);
      }
    }
  }

  /** A run without new requests, after a step, that cannot be continued. */
  ghost predicate RunsOut<E(!new)>(s: State<E>, e: Event<E>, trace: seq<Event<E>>) {
    && Enabled(s, e) && NoArrivals(trace) && Run(Apply(s, e), trace).Some?
    && forall e' :: !Possible(Run(Apply(s, e), trace).value, e')
  }

  lemma RunsOutQuiet<E(!new)>(s: State<E>, e: Event<E>, trace: seq<Event<E>>)
    requires Reachable(s) && Ordered(s, e) && RunsOut(s, e, trace)
    ensures Quiescent(Run(Apply(s, e), trace).value)
  {
    hide Reachable, Run, Apply, Enabled, Quiescent, Possible;
    ReachableStep(s, e);
    RunsDrain(Apply(s, e), trace);
  }

  /** A writer's request is served, in every run that goes on as long as it can, if and only if
      the writer queue had room for it. */
  lemma {:induction false} WriterServedIffRoom<E(!new)>(s: State<E>, t: nat, op: Op<E>, trace: seq<Event<E>>)
    requires Reachable(s) && RunsOut(s, Writer(t, WEnqueue(op)), trace)
    ensures var s' := Run(Apply(s, Writer(t, WEnqueue(op))), trace).value;
            && At(s', t)
            && (s'.threads[t].pc.Idle? <==> |s.writerQ| < Q_SIZE)
            && (t in s'.hist.dropped <==> |s.writerQ| >= Q_SIZE)
  {
    var e := Writer(t, WEnqueue(op));
    NotDroppedYet(s, t);
    RunsOutQuiet(s, e, trace);
    var s1 := Apply(s, e);
    var s' := Run(s1, trace).value;
    if |s.writerQ| >= Q_SIZE {
      FullQueueStarves(s, t, e, trace);
    } else {
      assert Admitted(s1, t) && WriterSide(s1, t);
      hide Run, Apply, Reachable, Possible;
      AdmittedByRun(s1, trace, t);
    }
  }

  /** A subscriber is turned away if and only if the reader queue had no room. Otherwise, in
      every run that goes on as long as it can, it was served or is still queued. */
  lemma {:induction false} SubscriberTurnedAwayIffFull<E(!new)>(s: State<E>, t: nat, trace: seq<Event<E>>)
    requires Reachable(s) && RunsOut(s, Reader(t, REnqueue), trace)
    ensures var s' := Run(Apply(s, Reader(t, REnqueue)), trace).value;
            && At(s', t)
            && (t in s'.hist.dropped <==> |s.readerQ| >= Q_SIZE)
            && (|s.readerQ| < Q_SIZE ==> s'.threads[t].pc.Idle? || (s'.threads[t].pc.RQueued? && t in s'.readerQ))
  {
    var e := Reader(t, REnqueue);
    NotDroppedYet(s, t);
    RunsOutQuiet(s, e, trace);
    var s1 := Apply(s, e);
    var s' := Run(s1, trace).value;
    if |s.readerQ| >= Q_SIZE {
      FullQueueStarves(s, t, e, trace);
    } else {
      assert Admitted(s1, t);
      hide Run, Apply, Reachable, Possible;
      AdmittedByRun(s1, trace, t);
    }
  }

  /** A thread about to make or to queue a request was not turned away before. */
  lemma NotDroppedYet<E(!new)>(s: State<E>, t: nat)
    requires Reachable(s) && At(s, t) && (s.threads[t].pc.Idle? || s.threads[t].pc.ROffer?)
    ensures t !in s.hist.dropped
  {
    ReachableInv(s);
    hide Inv;
    if t in s.hist.dropped {
      DroppedWaits(s, t);
    }
  }

  // ---- a full queue is reachable ------------------------------------------------------

  /** From the thread `k` on nobody asked for anything. */
  predicate IdleFrom<E>(s: State<E>, k: nat) {
    forall t :: k <= t < |s.threads| ==> s.threads[t].pc.Idle?
  }

  /** Any number of writers up to 50 can be queued at once. */
  lemma {:induction false} ManyWriters<E(!new)>(add: nat, files: nat, k: nat, op: Op<E>) returns (s: State<E>)
    requires k <= Q_SIZE && k <= files
    ensures Reachable(s) && |s.threads| == files && |s.writerQ| == k && IdleFrom(s, k)
    decreases k
  {
    if k == 0 {
      s := Init(add, files);
      assert Run(s, []) == Some(Init(add, files));
    } else {
      var s1 := ManyWriters(add, files, k - 1, op);
      var e := Writer(k - 1, WEnqueue(op));
      ReachableStep(s1, e);
      s := Apply(s1, e);
    }
  }

  /** Any number of subscribers up to 50 can join an empty queue, from any state in which the
      threads from `from` on are idle; nothing but the queue and those threads changes. */
  lemma {:induction false} ManySubscribers<E(!new)>(s: State<E>, from: nat, k: nat) returns (s': State<E>)
    requires Reachable(s) && s.readerQ == [] && IdleFrom(s, from) && from + k <= |s.threads| && k <= Q_SIZE
    ensures Reachable(s') && |s'.readerQ| == k && IdleFrom(s', from + k)
    ensures |s'.threads| == |s.threads| && s'.threads[..from] == s.threads[..from]
    ensures s'.worker == s.worker && s'.sem == s.sem && s'.writerQ == s.writerQ
    decreases k
  {
    if k == 0 {
      s' := s;
    } else {
      var s1 := ManySubscribers(s, from, k - 1);
      var t := from + k - 1;
      ReachableStep(s1, Reader(t, RCap));
      var s2 := Apply(s1, Reader(t, RCap));
      ReachableStep(s2, Reader(t, REnqueue));
      s' := Apply(s2, Reader(t, REnqueue));
      hide Reachable;
      assert s'.threads[..from] == s1.threads[..from];
    }
  }

  /** 51 files are enough for a writer to be turned away. */
  lemma FullWriterQueueIsReachable<E(!new)>(add: nat, op: Op<E>) returns (s: State<E>)
    ensures Reachable(s) && Enabled(s, Writer(Q_SIZE, WEnqueue(op)))
    ensures MeetsFullQueue(s, Q_SIZE, Writer(Q_SIZE, WEnqueue(op)))
  {
    s := ManyWriters(add, Q_SIZE + 1, Q_SIZE, op);
  }

  /** And 51 for a subscriber. */
  lemma FullReaderQueueIsReachable<E(!new)>(add: nat) returns (s: State<E>)
    ensures Reachable(s) && Enabled(s, Reader(Q_SIZE, REnqueue))
    ensures MeetsFullQueue(s, Q_SIZE, Reader(Q_SIZE, REnqueue))
  {
    var s0 := Init<E>(add, Q_SIZE + 1);
    assert Run(s0, []) == Some(s0);
    var s1 := ManySubscribers(s0, 0, Q_SIZE);
    ReachableStep(s1, Reader(Q_SIZE, RCap));
    s := Apply(s1, Reader(Q_SIZE, RCap));
  }
}
