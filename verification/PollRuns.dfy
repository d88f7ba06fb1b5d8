/** Whole runs of the poll path on the real data structures. */
module PollRuns {
  import opened Options
  import opened PollSpec
  import opened PollInvariant
  import opened PollKeeps
  import opened PollDevice

  /** The steps of a read's first section. */
  method StepSection<E(==,!new)>(d: Device<E>, e: Event<E>)
    requires d.Consistent() && Enabled(d.Abs(), e)
    requires e.ReadBegin? || e.ReadFill? || e.ReadStore? || e.ReadCap?
    modifies d, d.calls, d.vector
    ensures d.Valid() && d.AtCursor() && d.Abs() == Apply(old(d.Abs()), e)
    ensures d.vector == old(d.vector) || fresh(d.vector)
  {
    hide Device.Valid, Device.Abs, Device.AtCursor, Section, BeginApply, FillApply, StoreApply, CapApply;
    match e {
      case ReadBegin(c, f) => d.BeginRead(c, f);
      case ReadFill(c) => d.FillRecord(c);
      case ReadStore(c) => d.StoreCount(c);
      case ReadCap(c) => d.CapCount(c);
    }
  }

  /** The steps outside of any semaphore. */
  method StepUnlocked<E(==,!new)>(d: Device<E>, e: Event<E>)
    requires d.Consistent() && Enabled(d.Abs(), e) && (e.ReadCopy? || e.ReadCount?)
    modifies d`hist, d.calls
    ensures d.Valid() && d.AtCursor() && d.Abs() == Apply(old(d.Abs()), e)
  {
    hide Device.Valid, Device.Abs, Device.AtCursor, Section, CopyApply;
    match e {
      case ReadCopy(c) => d.CopyRecords(c);
      case ReadCount(c) => d.CountRecords(c);
    }
  }

  lemma LeavesFree<E>(s: State<E>, e: Event<E>)
    requires Section(s) && Enabled(s, e) && (e.Poll? || e.ReadRetire? || e.Put?)
    ensures s.sem.None? && Apply(s, e).sem.None?
  {
  }

  /** The steps that find the semaphore free. */
  method StepFree<E(==,!new)>(d: Device<E>, e: Event<E>)
    requires d.Consistent() && Enabled(d.Abs(), e) && (e.Poll? || e.ReadRetire? || e.Put?)
    modifies d.Repr(), d.registered.heap.live
    ensures d.Valid() && d.AtCursor() && d.Abs() == Apply(old(d.Abs()), e)
    ensures fresh(d.registered.heap.live - old(d.registered.heap.live)) && d.vector == old(d.vector)
  {
    hide Device.Valid, Device.Abs, Device.AtCursor, Section, PollApply, RetireApply, WriteApply;
    LeavesFree(d.Abs(), e);
    match e {
      case Poll(f, nonblock) =>
        var _ := d.Poll(f, nonblock);
      case ReadRetire(c) =>
        var _ := d.EndRead(c);
      case Put(code, entry) =>
        d.Write(code, entry);
    }
    d.NobodyAtCursor();
  }

  /** Each step of the source does, on the real objects, what the step system says. */
  method Step<E(==,!new)>(d: Device<E>, e: Event<E>)
    requires d.Consistent() && Enabled(d.Abs(), e)
    modifies d.Repr(), d.registered.heap.live, d.vector
    ensures d.Consistent() && d.Abs() == Apply(old(d.Abs()), e)
    ensures fresh(d.registered.heap.live - old(d.registered.heap.live))
    ensures d.vector == old(d.vector) || fresh(d.vector)
  {
    hide Device.Valid, Device.Abs, Device.AtCursor, Section, Apply, Enabled;
    KeepsSection(d.Abs(), e);
    if e.ReadBegin? || e.ReadFill? || e.ReadStore? || e.ReadCap? {
      StepSection(d, e);
    } else if e.ReadCopy? || e.ReadCount? {
      StepUnlocked(d, e);
    } else {
      StepFree(d, e);
    }
  }

  lemma LastStep<E>(s: State<E>, trace: seq<Event<E>>, callers: Callers)
    requires trace != [] && Run(s, trace, callers).Some?
    ensures var k := |trace| - 1;
            && Run(s, trace[..k], callers).Some? && Enabled(Run(s, trace[..k], callers).value, trace[k])
            && Run(s, trace, callers) == Some(Apply(Run(s, trace[..k], callers).value, trace[k]))
  {
    hide Apply, Enabled, Obeys;
  }

  /** Refinement of whole runs: whatever the callers do, the real objects follow every run of
      the step system, no change record dangles, and the head-pointer transfer loses no node. */
  method Perform<E(==,!new)>(add: nat, zero: E, entrySize: nat, n: nat, trace: seq<Event<E>>, ghost callers: Callers)
    returns (d: Device<E>)
    requires Run(Init(add, zero, n), trace, callers).Some?
    ensures d.Consistent() && d.Abs() == Run(Init(add, zero, n), trace, callers).value
    ensures fresh(d.Repr()) && fresh(d.registered.heap.live) && (d.vector != null ==> fresh(d.vector))
    decreases |trace|
  {
    if trace == [] {
      d := new Device<E>(add, zero, entrySize, n);
      d.NobodyAtCursor();
    } else {
      hide Device.Valid, Device.Abs, Device.Consistent, Device.Repr, Apply, Enabled, Run, Init;
      var k := |trace| - 1;
      LastStep(Init(add, zero, n), trace, callers);
      d := Perform(add, zero, entrySize, n, trace[..k], callers);
      ghost var live := d.registered.heap.live;
      Step(d, trace[k]);
      forall o | o in d.registered.heap.live ensures fresh(o) {
        if o !in live {
          assert o in d.registered.heap.live - live;
        }
      }
    }
  }
}
