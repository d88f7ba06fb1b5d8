/** What a run of the ioctl path is asked for, read off its events: the requests that the writer
    queue takes, the subscribers that the reader queue takes, and what each subscriber leaves
    with. The histories that the invariant speaks of are exactly these. */
module SchedulerTrace {
  import opened Limits
  import opened Options
  import opened TableSpec
  import opened SchedulerSpec

  lemma {:induction false} RunKeepsAdd<E>(s: State<E>, trace: seq<Event<E>>)
    requires Run(s, trace).Some?
    ensures Run(s, trace).value.add == s.add
    decreases |trace|
  {
    if trace == [] {
    } else {
      RunKeepsAdd(s, trace[..|trace| - 1]);
    }
  }

  /** The request of a step, if the writer queue has room for it. */
  function Requested<E>(s: State<E>, e: Event<E>): seq<Write<E>> {
    if e.Writer? && e.w.WEnqueue? && |s.writerQ| < Q_SIZE then [Write(e.t, e.w.op)] else []
  }

  /** The requests of a run, in the order they were made in. */
  function Requests<E>(s: State<E>, trace: seq<Event<E>>): seq<Write<E>>
    requires Run(s, trace).Some?
    decreases |trace|
  {
    if trace == [] then []
    else
      var front := trace[..|trace| - 1];
      Requests(s, front) + Requested(Run(s, front).value, trace[|trace| - 1])
  }

  lemma RequestedByStep<E>(s: State<E>, e: Event<E>)
    requires Enabled(s, e)
    ensures Apply(s, e).hist.writes == s.hist.writes + Requested(s, e)
  {
  }

  /** What is recorded as requested is what the writers asked for. */
  lemma {:induction false} WritesAreRequests<E>(s: State<E>, trace: seq<Event<E>>)
    requires Run(s, trace).Some?
    ensures Run(s, trace).value.hist.writes == s.hist.writes + Requests(s, trace)
    decreases |trace|
  {
    hide Apply, Enabled, Requested;
    if trace == [] {
    } else {
      var front := trace[..|trace| - 1];
      WritesAreRequests(s, front);
      RequestedByStep(Run(s, front).value, trace[|trace| - 1]);
    }
  }

  /** The subscriber of a step, if the reader queue has room for it. */
  function Joining<E>(s: State<E>, e: Event<E>): seq<nat> {
    if e.Reader? && e.r.REnqueue? && |s.readerQ| < Q_SIZE then [e.t] else []
  }

  function Joined<E>(s: State<E>, trace: seq<Event<E>>): seq<nat>
    requires Run(s, trace).Some?
    decreases |trace|
  {
    if trace == [] then []
    else
      var front := trace[..|trace| - 1];
      Joined(s, front) + Joining(Run(s, front).value, trace[|trace| - 1])
  }

  lemma JoiningByStep<E>(s: State<E>, e: Event<E>)
    requires Enabled(s, e)
    ensures Apply(s, e).hist.arrived == s.hist.arrived + Joining(s, e)
  {
  }

  lemma {:induction false} ArrivedAreJoined<E>(s: State<E>, trace: seq<Event<E>>)
    requires Run(s, trace).Some?
    ensures Run(s, trace).value.hist.arrived == s.hist.arrived + Joined(s, trace)
    decreases |trace|
  {
    hide Apply, Enabled, Joining;
    if trace == [] {
    } else {
      var front := trace[..|trace| - 1];
      ArrivedAreJoined(s, front);
      JoiningByStep(Run(s, front).value, trace[|trace| - 1]);
    }
  }

  /** What the subscriber of a step holds when it enters the exit section: the records it copied
      and the count it returns. */
  function Leaving<E>(s: State<E>, e: Event<E>): seq<Exit<E>>
    requires Enabled(s, e)
  {
    if e.Reader? && e.r.REnterExit? then [Exit(e.t, s.threads[e.t].pc.buf, s.threads[e.t].pc.rc)] else []
  }

  function Left<E>(s: State<E>, trace: seq<Event<E>>): seq<Exit<E>>
    requires Run(s, trace).Some?
    decreases |trace|
  {
    if trace == [] then []
    else
      var front := trace[..|trace| - 1];
      Left(s, front) + Leaving(Run(s, front).value, trace[|trace| - 1])
  }

  function ExitsOf<E>(log: seq<Cycle<E>>): seq<Exit<E>> {
    if log == [] then [] else ExitsOf(log[..|log| - 1]) + log[|log| - 1].exits
  }

  lemma ExitsAppend<E>(log: seq<Cycle<E>>, c: Cycle<E>)
    ensures ExitsOf(log + [c]) == ExitsOf(log) + c.exits
  {
    assert (log + [c])[..|log|] == log;
  }

  lemma LeavingByWorker<E>(s: State<E>, a: WorkerStep)
    requires WorkerEnabled(s, a)
    ensures var s' := WorkerApply(s, a);
            ExitsOf(s'.hist.log) + s'.hist.exits == ExitsOf(s.hist.log) + s.hist.exits
  {
    if (a.Drop? || a.BatchDone?) && s.hist.cur.Some? {
      ExitsAppend(s.hist.log, Cycle(s.hist.cur.value, s.hist.batch, s.hist.exits));
    }
    hide ExitsOf;
  }

  lemma LeavingByThread<E>(s: State<E>, e: Event<E>)
    requires Enabled(s, e) && !e.Worker?
    ensures Apply(s, e).hist.log == s.hist.log && Apply(s, e).hist.exits == s.hist.exits + Leaving(s, e)
  {
  }

  /** No exit is recorded without its step, and the end of a cycle loses none. */
  lemma LeavingByStep<E>(s: State<E>, e: Event<E>)
    requires Enabled(s, e)
    ensures var s' := Apply(s, e);
            ExitsOf(s'.hist.log) + s'.hist.exits == ExitsOf(s.hist.log) + s.hist.exits + Leaving(s, e)
  {
    hide ExitsOf, WorkerApply, WorkerEnabled;
    if e.Worker? {
      LeavingByWorker(s, e.k);
    } else {
      LeavingByThread(s, e);
    }
  }

  lemma {:induction false} ExitsAreLeft<E>(s: State<E>, trace: seq<Event<E>>)
    requires Run(s, trace).Some?
    ensures var s' := Run(s, trace).value;
            ExitsOf(s'.hist.log) + s'.hist.exits == ExitsOf(s.hist.log) + s.hist.exits + Left(s, trace)
    decreases |trace|
  {
    hide Apply, Enabled, Leaving, ExitsOf;
    if trace == [] {
    } else {
      var front := trace[..|trace| - 1];
      ExitsAreLeft(s, front);
      LeavingByStep(Run(s, front).value, trace[|trace| - 1]);
    }
  }
}
