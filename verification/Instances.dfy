/** The two devices: the routing table and the MAC table. They run the same scheduler and the
    same poll protocol, with their own entries, sizes and operation codes. */
module Instances {
  import opened Sequences
  import opened TableSpec
  import opened TableHistory
  import opened SchedulerSpec
  import opened SchedulerTrace
  import opened SchedulerTheorems
  import Scheduler
  import SchedulerRuns
  import PollSpec
  import PollTheorems
  import PollTrace
  import PollDevice
  import PollRuns

  const RT_ROUTE_ADD: nat := 1
  const MAC_ROUTE_ADD: nat := 5

  datatype RtEntry = RtEntry(dstIp: string, nextHopIp: string, oif: string)
  datatype MacEntry = MacEntry(vlanId: string, mac: string, oif: string)

  // what `kzalloc` leaves in an entry: empty strings
  const ZERO_RT_ENTRY: RtEntry := RtEntry("", "", "")
  const ZERO_MAC_ENTRY: MacEntry := MacEntry("", "", "")

  const RT_ENTRY_SIZE: nat := 48
  const MAC_ENTRY_SIZE: nat := 80

  /** The requests that can change a table: creations, purges, and updates with its own "add"
      code. */
  function Effective<E>(add: nat, ws: seq<Write<E>>): seq<Write<E>> {
    if ws == [] then []
    else
      var w, front := ws[|ws| - 1], Effective(add, ws[..|ws| - 1]);
      if w.op.Update? && w.op.code != add then front else front + [w]
  }

  /** Update, delete and unknown codes, and the codes of the other device, change nothing. */
  lemma {:induction false} ForeignCodesIgnored<E>(add: nat, ws: seq<Write<E>>)
    ensures Fold(add, ws) == Fold(add, Effective(add, ws))
  {
    if ws == [] {
    } else {
      var w, front := ws[|ws| - 1], ws[..|ws| - 1];
      ForeignCodesIgnored(add, front);
      var e := Effective(add, front);
      assert (e + [w])[..|e|] == e;
    }
  }

  /** The requests whose changes a run has seen, in the order they arrived in. */
  function Seen<E>(add: nat, files: nat, trace: seq<Event<E>>): seq<Write<E>>
    requires Run(Init(add, files), trace).Some?
  {
    var requests := Requests(Init(add, files), trace);
    requests[..Min(Applies(trace), |requests|)]
  }

  /** From the interleaved threads down to the linked lists: after any run, the table in the
      heap holds the effective requests applied one after another in arrival order, that is
      the entries brought in since the last purge, newest first, and the change list is an
      aliased prefix of it with at most one record. */
  method RunIoctl<E(==,!new)>(add: nat, zero: E, entrySize: nat, files: nat, trace: seq<Event<E>>)
    returns (rt: Scheduler.Service<E>)
    requires Run(Init(add, files), trace).Some?
    ensures rt.Valid() && rt.table.Aliased() && |rt.table.Changes()| <= 1
    ensures rt.table.Contents() == Fold(add, Effective(add, Seen(add, files, trace)))
    ensures rt.table.Contents() == Reverse(Added(add, SincePurge(Seen(add, files, trace))))
  {
    rt := SchedulerRuns.Perform(add, zero, entrySize, files, trace);
    hide Run, Fold, Effective, Reverse, Added, SincePurge;
    RunIsSequential(add, files, trace);
    ForeignCodesIgnored(add, Seen(add, files, trace));
    FoldHolds(add, Seen(add, files, trace));
    VectorLifetime(rt.Abs(), 0);
  }

  method RunRoutingTable(files: nat, trace: seq<Event<RtEntry>>) returns (rt: Scheduler.Service<RtEntry>)
    requires Run(Init(RT_ROUTE_ADD, files), trace).Some?
    ensures rt.Valid() && rt.table.Aliased() && |rt.table.Changes()| <= 1
    ensures rt.table.Contents() == Fold(RT_ROUTE_ADD, Effective(RT_ROUTE_ADD, Seen(RT_ROUTE_ADD, files, trace)))
    ensures rt.table.Contents() == Reverse(Added(RT_ROUTE_ADD, SincePurge(Seen(RT_ROUTE_ADD, files, trace))))
  {
    rt := RunIoctl(RT_ROUTE_ADD, ZERO_RT_ENTRY, RT_ENTRY_SIZE, files, trace);
  }

  method RunMacTable(files: nat, trace: seq<Event<MacEntry>>) returns (mac: Scheduler.Service<MacEntry>)
    requires Run(Init(MAC_ROUTE_ADD, files), trace).Some?
    ensures mac.Valid() && mac.table.Aliased() && |mac.table.Changes()| <= 1
    ensures mac.table.Contents() == Fold(MAC_ROUTE_ADD, Effective(MAC_ROUTE_ADD, Seen(MAC_ROUTE_ADD, files, trace)))
    ensures mac.table.Contents() == Reverse(Added(MAC_ROUTE_ADD, SincePurge(Seen(MAC_ROUTE_ADD, files, trace))))
  {
    mac := RunIoctl(MAC_ROUTE_ADD, ZERO_MAC_ENTRY, MAC_ENTRY_SIZE, files, trace);
  }

  /** The poll path, down to the heap: after any run the table holds the applied updates,
      newest first, the change list is an aliased prefix of it, and the node lists hold the
      registered and the blacklisted files. Under the discipline no vector was misused. */
  method RunPoll<E(==,!new)>(add: nat, zero: E, entrySize: nat, n: nat, trace: seq<PollSpec.Event<E>>,
                            ghost callers: PollSpec.Callers)
    returns (d: PollDevice.Device<E>)
    requires PollSpec.Run(PollSpec.Init(add, zero, n), trace, callers).Some?
    ensures d.Valid() && d.table.Aliased() && (!callers.Anyone? ==> !d.hist.fault)
    ensures Holds(d, PollSpec.Run(PollSpec.Init(add, zero, n), trace, callers).value, add, trace)
  {
    d := PollRuns.Perform(add, zero, entrySize, n, trace, callers);
    hide PollSpec.Run, PollTrace.Announced, Reverse;
    PollTrace.TableIsAnnounced(add, zero, n, trace, callers);
    if !callers.Anyone? {
      PollTheorems.NoFault(d.Abs(), callers);
    }
  }

  /** What the heap holds after a run of the poll path. */
  ghost predicate Holds<E(!new)>(d: PollDevice.Device<E>, s: PollSpec.State<E>, add: nat,
                                 trace: seq<PollSpec.Event<E>>)
    reads d.table, d.table.rt, d.table.changeList, d.registered, d.blacklisted
  {
    && d.table.Contents() == PollTheorems.Entries(Reverse(PollTrace.Announced(add, trace)))
    && d.table.Changes() == Reverse(s.hist.since) && PollTheorems.Entries(d.table.Changes()) <= d.table.Contents()
    && d.registered.Contents() == s.registered && d.blacklisted.Contents() == s.blacklist
  }

  method PollRoutingTable(n: nat, trace: seq<PollSpec.Event<RtEntry>>, ghost callers: PollSpec.Callers)
    returns (d: PollDevice.Device<RtEntry>)
    requires PollSpec.Run(PollSpec.Init(RT_ROUTE_ADD, ZERO_RT_ENTRY, n), trace, callers).Some?
    ensures d.Valid() && d.table.Aliased() && (!callers.Anyone? ==> !d.hist.fault)
    ensures Holds(d, PollSpec.Run(PollSpec.Init(RT_ROUTE_ADD, ZERO_RT_ENTRY, n), trace, callers).value, RT_ROUTE_ADD,
                  trace)
  {
    d := RunPoll(RT_ROUTE_ADD, ZERO_RT_ENTRY, RT_ENTRY_SIZE, n, trace, callers);
  }

  method PollMacTable(n: nat, trace: seq<PollSpec.Event<MacEntry>>, ghost callers: PollSpec.Callers)
    returns (d: PollDevice.Device<MacEntry>)
    requires PollSpec.Run(PollSpec.Init(MAC_ROUTE_ADD, ZERO_MAC_ENTRY, n), trace, callers).Some?
    ensures d.Valid() && d.table.Aliased() && (!callers.Anyone? ==> !d.hist.fault)
    ensures Holds(d, PollSpec.Run(PollSpec.Init(MAC_ROUTE_ADD, ZERO_MAC_ENTRY, n), trace, callers).value, MAC_ROUTE_ADD,
                  trace)
  {
    d := RunPoll(MAC_ROUTE_ADD, ZERO_MAC_ENTRY, MAC_ENTRY_SIZE, n, trace, callers);
  }
}
