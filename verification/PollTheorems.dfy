/** What every run of the poll path guarantees. */
module PollTheorems {
  import opened Options
  import opened Sequences
  import opened TableSpec
  import opened PollSpec
  import opened PollInvariant
  import opened PollKeeps
  import opened PollPaths

  lemma InitInv<E>(add: nat, zero: E, n: nat)
    ensures Inv(Init(add, zero, n))
  {
  }

  lemma {:induction false} RunInv<E>(s: State<E>, trace: seq<Event<E>>, callers: Callers)
    requires Inv(s) && Run(s, trace, callers).Some? && !callers.Anyone?
    ensures Inv(Run(s, trace, callers).value)
    decreases |trace|
  {
    hide Inv, Apply, Enabled, Disciplined, Alone;
    if trace == [] {
    } else {
      var front := trace[..|trace| - 1];
      RunInv(s, front, callers);
      Keeps(Run(s, front, callers).value, trace[|trace| - 1]);
    }
  }

  lemma ReachableInv<E(!new)>(s: State<E>, callers: Callers)
    requires Reachable(s, callers) && !callers.Anyone?
    ensures Inv(s)
  {
    hide Inv;
    var add, zero, n, trace :| Run(Init(add, zero, n), trace, callers) == Some(s);
    InitInv(add, zero, n);
    RunInv(Init(add, zero, n), trace, callers);
  }

  lemma {:induction false} RunSection<E>(s: State<E>, trace: seq<Event<E>>, callers: Callers)
    requires Section(s) && Coded(s) && Run(s, trace, callers).Some?
    ensures Section(Run(s, trace, callers).value) && Coded(Run(s, trace, callers).value)
    decreases |trace|
  {
    hide Section, Coded, Apply, Enabled, Obeys;
    if trace == [] {
    } else {
      var front := trace[..|trace| - 1];
      RunSection(s, front, callers);
      KeepsSection(Run(s, front, callers).value, trace[|trace| - 1]);
      KeepsCoded(Run(s, front, callers).value, trace[|trace| - 1]);
    }
  }

  /** In every run, disciplined or not, the call inside the first section has stored in the
      vector what it says, and every pending record carries the "add" code. */
  lemma ReachableSection<E(!new)>(s: State<E>, callers: Callers)
    requires Reachable(s, callers)
    ensures Section(s) && Coded(s)
  {
    var add, zero, n, trace :| Run(Init(add, zero, n), trace, callers) == Some(s);
    hide Run;
    RunSection(Init(add, zero, n), trace, callers);
  }

  // ---- rounds -------------------------------------------------------------------------

  /** The snapshot is taken by the first read of a round and stays until the round is over. */
  lemma SnapshotIsFirst<E>(s: State<E>, e: Event<E>)
    requires Enabled(s, e)
    ensures var s' := Apply(s, e);
            && (s.hist.snap.None? && s'.hist.snap.Some? ==>
                  e.ReadBegin? && s'.hist.snap.value == s.changes && s'.hist.group == s.registered)
            && (s.hist.snap.Some? && s'.hist.snap == s.hist.snap ==> s'.hist.group == s.hist.group)
            && (s.hist.snap.Some? && s'.hist.snap != s.hist.snap ==>
                  e.ReadRetire? && s'.hist.snap.None? && |s'.hist.rounds| == |s.hist.rounds| + 1)
  {
  }

  /** Only the last registered reader empties the change list, with or without discipline. */
  lemma OnlyLastReaderEmpties<E>(s: State<E>, e: Event<E>)
    requires Enabled(s, e) && s.changes != []
    ensures Apply(s, e).changes == [] <==> e.ReadRetire? && |s.registered| == 1
  {
  }

  /** Some read call of the run began with this change list and these registered files, and opened
      a round with them. */
  ghost predicate SeenBy<E>(s: State<E>, trace: seq<Event<E>>, callers: Callers, first: seq<Upd<E>>, group: seq<nat>) {
    exists j :: 0 <= j < |trace| && Run(s, trace[..j], callers).Some?
                && OpensRound(Run(s, trace[..j], callers).value, trace[j], first, group)
  }

  ghost predicate OpensRound<E>(s: State<E>, e: Event<E>, first: seq<Upd<E>>, group: seq<nat>) {
    e.ReadBegin? && s.hist.snap.None? && s.changes == first && s.registered == group
  }

  lemma SeenLater<E>(s: State<E>, trace: seq<Event<E>>, e: Event<E>, first: seq<Upd<E>>,
                    group: seq<nat>, callers: Callers)
    requires SeenBy(s, trace, callers, first, group)
    ensures SeenBy(s, trace + [e], callers, first, group)
  {
    hide Run;
    var j :| 0 <= j < |trace| && Run(s, trace[..j], callers).Some?
             && OpensRound(Run(s, trace[..j], callers).value, trace[j], first, group);
    assert (trace + [e])[..j] == trace[..j] && (trace + [e])[j] == trace[j];
  }

  lemma SeenNow<E>(s: State<E>, trace: seq<Event<E>>, e: Event<E>, first: seq<Upd<E>>,
                    group: seq<nat>, callers: Callers)
    requires Run(s, trace, callers).Some? && OpensRound(Run(s, trace, callers).value, e, first, group)
    ensures SeenBy(s, trace + [e], callers, first, group)
  {
    hide Run;
    assert (trace + [e])[..|trace|] == trace && (trace + [e])[|trace|] == e;
  }

  /** What a step does to the rounds: it keeps them, or closes one with the open snapshot. */
  lemma RoundsByStep<E>(s: State<E>, e: Event<E>)
    requires Calls(s) && Enabled(s, e)
    ensures var s' := Apply(s, e);
            || s'.hist.rounds == s.hist.rounds
            || (s.hist.snap.Some? && |s'.hist.rounds| == |s.hist.rounds| + 1
                && s'.hist.rounds[..|s.hist.rounds|] == s.hist.rounds
                && s'.hist.rounds[|s.hist.rounds|].first == s.hist.snap.value
                && s'.hist.rounds[|s.hist.rounds|].group == s.hist.group)
  {
  }

  /** Every round, finished or open, is about what its first reader saw: some read call of the
      run began when no round was open and found exactly that change list, and exactly its files registered. */
  lemma {:induction false} RoundsWereSeen<E>(s: State<E>, trace: seq<Event<E>>, callers: Callers)
    requires Inv(s) && s.hist.snap.None? && s.hist.rounds == [] && Run(s, trace, callers).Some?
    requires !callers.Anyone?
    ensures var s' := Run(s, trace, callers).value;
            && (s'.hist.snap.Some? ==> SeenBy(s, trace, callers, s'.hist.snap.value, s'.hist.group))
            && forall i :: 0 <= i < |s'.hist.rounds| ==>
                 SeenBy(s, trace, callers, s'.hist.rounds[i].first, s'.hist.rounds[i].group)
    decreases |trace|
  {
    hide Ledger, Section, Lists, Calls, Between, RoundOk, VectorOk, GoodRounds;
    hide Apply, Enabled, Disciplined, Alone, SeenBy;
    if trace == [] {
    } else {
      var front, e := trace[..|trace| - 1], trace[|trace| - 1];
      assert front + [e] == trace;
      RoundsWereSeen(s, front, callers);
      RunInv(s, front, callers);
      var s1 := Run(s, front, callers).value;
      var s2 := Apply(s1, e);
      RoundsByStep(s1, e);
      SnapshotIsFirst(s1, e);
      if s2.hist.snap.Some? {
        if s1.hist.snap.None? {
          SeenNow(s, front, e, s2.hist.snap.value, s2.hist.group, callers);
        } else {
          SeenLater(s, front, e, s1.hist.snap.value, s1.hist.group, callers);
        }
      }
      forall i | 0 <= i < |s2.hist.rounds|
        ensures SeenBy(s, trace, callers, s2.hist.rounds[i].first, s2.hist.rounds[i].group)
      {
        if i < |s1.hist.rounds| {
          assert s2.hist.rounds[i] == s1.hist.rounds[i];
          SeenLater(s, front, e, s1.hist.rounds[i].first, s1.hist.rounds[i].group, callers);
        } else {
          SeenLater(s, front, e, s1.hist.snap.value, s1.hist.group, callers);
        }
      }
    }
  }

  /** If updates were pending at some point of a run and none is at its end, then in between the
      only registered file retired; nothing else empties the change list, whatever the callers do. */
  lemma {:induction false} EmptiedByLastReader<E>(s: State<E>, trace: seq<Event<E>>, callers: Callers)
    returns (j: nat)
    requires s.changes != [] && Run(s, trace, callers).Some? && Run(s, trace, callers).value.changes == []
    ensures j < |trace| && trace[j].ReadRetire? && Run(s, trace[..j], callers).Some?
    ensures |Run(s, trace[..j], callers).value.registered| == 1
    decreases |trace|
  {
    hide Apply, Enabled, Obeys;
    var front, e := trace[..|trace| - 1], trace[|trace| - 1];
    var s1 := Run(s, front, callers).value;
    if s1.changes == [] {
      j := EmptiedByLastReader(s, front, callers);
      assert front[..j] == trace[..j];
    } else {
      OnlyLastReaderEmpties(s1, e);
      j := |trace| - 1;
    }
  }

  /** When the last reader frees the vector, no other read call is running. */
  lemma FreedUnderNobody<E(!new)>(s: State<E>, c: nat, d: nat, callers: Callers)
    requires Reachable(s, callers) && Enabled(s, ReadRetire(c)) && |s.registered| == 1 && !callers.Anyone?
    requires d < |s.calls| && !s.calls[d].NoCall?
    ensures d == c
  {
    ReachableInv(s, callers);
    OnlyOne(s.registered, s.calls[c].f);
  }

  lemma StepNoFault<E>(s: State<E>, e: Event<E>)
    requires Calls(s) && VectorOk(s) && Enabled(s, e)
    ensures Apply(s, e).hist.fault == s.hist.fault
  {
    hide Part;
  }

  lemma {:induction false} RunNoFault<E>(s: State<E>, trace: seq<Event<E>>, callers: Callers)
    requires Inv(s) && Run(s, trace, callers).Some? && !callers.Anyone?
    ensures Run(s, trace, callers).value.hist.fault == s.hist.fault
    decreases |trace|
  {
    hide Ledger, Section, Lists, Calls, Between, RoundOk, VectorOk, GoodRounds, Apply, Enabled, Disciplined, Alone;
    if trace == [] {
    } else {
      var front := trace[..|trace| - 1];
      RunNoFault(s, front, callers);
      RunInv(s, front, callers);
      StepNoFault(Run(s, front, callers).value, trace[|trace| - 1]);
    }
  }

  /** Under the discipline a reader that is about to copy finds an allocated vector, and so does
      the one that frees it. */
  lemma VectorAllocated<E(!new)>(s: State<E>, c: nat, callers: Callers)
    requires Reachable(s, callers) && !callers.Anyone? && c < |s.calls| && !s.calls[c].NoCall?
    ensures s.vector.Live?
  {
    ReachableInv(s, callers);
  }

  /** Under the discipline no run copies from a vector after it was freed, or frees one twice. */
  lemma NoFault<E(!new)>(s: State<E>, callers: Callers)
    requires Reachable(s, callers) && !callers.Anyone?
    ensures !s.hist.fault
  {
    hide Inv, Run;
    var add, zero, n, trace :| Run(Init(add, zero, n), trace, callers) == Some(s);
    InitInv(add, zero, n);
    RunNoFault(Init(add, zero, n), trace, callers);
  }

  // ---- what was applied ---------------------------------------------------------------

  lemma KeepsLedgerRun<E>(s: State<E>, trace: seq<Event<E>>, callers: Callers)
    requires Ledger(s) && Run(s, trace, callers).Some?
    ensures Ledger(Run(s, trace, callers).value)
    decreases |trace|
  {
    hide Ledger, Apply, Enabled, Obeys;
    if trace == [] {
    } else {
      var front := trace[..|trace| - 1];
      KeepsLedgerRun(s, front, callers);
      KeepsLedger(Run(s, front, callers).value, trace[|trace| - 1]);
    }
  }

  /** In every run, disciplined or not, each applied update belongs to exactly one round or is
      still pending, in order; and the change list holds the pending ones, newest first. */
  lemma UpdatesPartitioned<E(!new)>(s: State<E>, callers: Callers)
    requires Reachable(s, callers)
    ensures s.hist.applied == Since(s.hist.rounds) + s.hist.since
    ensures s.changes == Reverse(s.hist.since)
  {
    var add, zero, n, trace :| Run(Init(add, zero, n), trace, callers) == Some(s);
    hide Run;
    KeepsLedgerRun(Init(add, zero, n), trace, callers);
  }

  function Entries<E>(us: seq<Upd<E>>): (es: seq<E>)
    ensures |es| == |us|
  {
    seq(|us|, i requires 0 <= i < |us| => us[i].entry)
  }

  /** What a step adds to the applied updates. */
  function NewUpdates<E>(s: State<E>, e: Event<E>): seq<Upd<E>> {
    if e.Put? && e.code == s.add then [Upd(s.add, e.entry)] else []
  }

  lemma StepApplies<E>(s: State<E>, e: Event<E>)
    requires Enabled(s, e)
    ensures Apply(s, e).hist.applied == s.hist.applied + NewUpdates(s, e)
    ensures Apply(s, e).table == Entries(NewUpdates(s, e)) + s.table && Apply(s, e).add == s.add
  {
  }

  lemma EntriesCons<E>(u: Upd<E>, us: seq<Upd<E>>)
    ensures Entries([u] + us) == [u.entry] + Entries(us)
  {
  }

  lemma StepKeepsTable<E>(s: State<E>, e: Event<E>)
    requires Enabled(s, e) && s.table == Entries(Reverse(s.hist.applied))
    ensures Apply(s, e).table == Entries(Reverse(Apply(s, e).hist.applied))
  {
    StepApplies(s, e);
    var news := NewUpdates(s, e);
    ReverseAppend(s.hist.applied, news);
    assert Reverse(news) == news;
    hide Apply, Enabled, Reverse;
    if news != [] {
      EntriesCons(news[0], Reverse(s.hist.applied));
    }
  }

  lemma {:induction false} RunKeepsTable<E>(s: State<E>, trace: seq<Event<E>>, callers: Callers)
    requires s.table == Entries(Reverse(s.hist.applied)) && Run(s, trace, callers).Some?
    ensures var s' := Run(s, trace, callers).value; s'.table == Entries(Reverse(s'.hist.applied))
    decreases |trace|
  {
    hide Apply, Enabled, Obeys, Reverse, Entries;
    if trace == [] {
    } else {
      var front := trace[..|trace| - 1];
      RunKeepsTable(s, front, callers);
      StepKeepsTable(Run(s, front, callers).value, trace[|trace| - 1]);
    }
  }

  /** In every run, the table holds exactly the applied updates, newest first, and the pending
      ones are its front: what a round announces is what the table gained. */
  lemma PendingIsFrontOfTable<E(!new)>(s: State<E>, callers: Callers)
    requires Reachable(s, callers)
    ensures s.table == Entries(Reverse(s.hist.applied))
    ensures Entries(s.changes) <= s.table
  {
    var add, zero, n, trace :| Run(Init(add, zero, n), trace, callers) == Some(s);
    UpdatesPartitioned(s, callers);
    assert Reverse(Init(add, zero, n).hist.applied) == [];
    RunKeepsTable(Init(add, zero, n), trace, callers);
    ReverseAppend(Since(s.hist.rounds), s.hist.since);
    hide Run, Reverse;
    assert Reverse(s.hist.applied) == s.changes + Reverse(Since(s.hist.rounds));
  }

  // ---- no reader is lost --------------------------------------------------------------

  ghost function Known<E>(s: State<E>): multiset<nat> {
    multiset(s.registered) + multiset(s.blacklist)
  }

  lemma RetireKeepsReaders<E>(s: State<E>, c: nat)
    requires Enabled(s, ReadRetire(c))
    ensures Known(s) <= Known(RetireApply(s, c))
  {
    hide RemoveFirst;
    var f := s.calls[c].f;
    RemoveFirstMultiset(s.registered, f);
    assert multiset([f] + s.blacklist) == multiset{f} + multiset(s.blacklist);
  }

  /** One step never loses a reader; a blacklisted poll only moves readers between the lists. */
  lemma StepKeepsReaders<E>(s: State<E>, e: Event<E>)
    requires Enabled(s, e)
    ensures Known(s) <= Known(Apply(s, e))
    ensures e.Poll? && e.f in s.blacklist ==> Known(Apply(s, e)) == Known(s)
  {
    if e.ReadRetire? {
      hide Known, RetireApply;
      RetireKeepsReaders(s, e.c);
    } else if e.Poll? {
      assert multiset([e.f] + s.registered) == multiset{e.f} + multiset(s.registered);
    }
  }

  /** No poll reader is ever lost, over all runs, with no discipline assumed. */
  lemma {:induction false} NoReaderLost<E>(s: State<E>, trace: seq<Event<E>>, callers: Callers)
    requires Run(s, trace, callers).Some?
    ensures Known(s) <= Known(Run(s, trace, callers).value)
    decreases |trace|
  {
    hide Apply, Enabled, Known;
    if trace == [] {
    } else {
      var front := trace[..|trace| - 1];
      NoReaderLost(s, front, callers);
      StepKeepsReaders(Run(s, front, callers).value, trace[|trace| - 1]);
      KnownTransitive(s, Run(s, front, callers).value, Run(s, trace, callers).value);
    }
  }

  lemma KnownTransitive<E>(a: State<E>, b: State<E>, c: State<E>)
    requires Known(a) <= Known(b) <= Known(c)
    ensures Known(a) <= Known(c)
  {
  }

  /** The guard of the head-pointer transfer is what makes it lossless: overwriting the
      registered list with the blacklist keeps every reader exactly when it is empty. */
  lemma TransferNeedsEmptyList(registered: seq<nat>, blacklist: seq<nat>)
    ensures multiset(blacklist) == multiset(registered) + multiset(blacklist) <==> registered == []
  {
    if registered != [] {
      assert (multiset(registered) + multiset(blacklist))[registered[0]] > multiset(blacklist)[registered[0]];
    }
  }

  /** Under the discipline the two lists are duplicate-free and disjoint, and together they
      are exactly the files that ever polled. */
  lemma ListsAreSets<E(!new)>(s: State<E>, f: nat, callers: Callers)
    requires Reachable(s, callers) && !callers.Anyone?
    ensures NoDup(s.registered) && NoDup(s.blacklist)
    ensures !(f in s.registered && f in s.blacklist)
    ensures f in s.hist.polled <==> f in s.registered || f in s.blacklist
  {
    ReachableInv(s, callers);
  }

  // ---- re-arming ----------------------------------------------------------------------

  /** The group has been served, and a write came before anybody re-armed it. */
  predicate Locked<E>(s: State<E>) {
    s.registered == [] && s.blacklist != [] && s.changes != []
  }

  lemma LockedForStep<E>(s: State<E>, e: Event<E>)
    requires Locked(s) && Enabled(s, e)
    ensures Locked(Apply(s, e))
    ensures forall f :: f in s.blacklist ==> f in Apply(s, e).blacklist
  {
  }

  /** When a round ends, the whole group is blacklisted and nothing is pending: this is the
      window in which a poll re-arms it. */
  lemma RoundEndsUnlocked<E(!new)>(s: State<E>, c: nat, callers: Callers)
    requires Reachable(s, callers) && Enabled(s, ReadRetire(c)) && |s.registered| == 1 && !callers.Anyone?
    ensures var s' := Apply(s, ReadRetire(c));
            s'.registered == [] && s'.changes == [] && SameFiles(s'.blacklist, s.hist.group)
  {
    ReachableInv(s, callers);
    OnlyOne(s.registered, s.calls[c].f);
    RetireFiles(s, c, Result(s.calls[c].f, [], 0));
  }

  /** Once locked, forever locked, whatever the callers do; and the group's polls block. */
  lemma {:induction false} LockedForever<E>(s: State<E>, trace: seq<Event<E>>, f: nat, nonblock: bool,
                                            callers: Callers)
    requires Locked(s) && f in s.blacklist && Run(s, trace, callers).Some?
    ensures var s' := Run(s, trace, callers).value;
            Locked(s') && f in s'.blacklist && PollOutcome(s', f, nonblock) == Wait
    decreases |trace|
  {
    hide Apply, Enabled, Locked;
    if trace == [] {
    } else {
      var front := trace[..|trace| - 1];
      LockedForever(s, front, f, nonblock, callers);
      LockedForStep(Run(s, front, callers).value, trace[|trace| - 1]);
    }
  }

  /** After a round the group can be registered again if and only if nothing was written yet;
      then the first poll of any of its files registers all of it. */
  lemma RearmIffNothingPending<E(!new)>(s: State<E>, f: nat, callers: Callers)
    requires Reachable(s, callers) && s.registered == [] && f in s.blacklist
    ensures (exists trace: seq<Event<E>> ::
               Run(s, trace, Anyone).Some? && f in Run(s, trace, Anyone).value.registered)
            <==> s.changes == []
    ensures s.changes == [] ==>
              var s' := PollApply(s, f, false);
              Enabled(s, Poll(f, false)) && s'.registered == s.blacklist && s'.blacklist == []
  {
    hide Reachable, Section;
    ReachableSection(s, callers);
    if s.changes == [] {
      SectionHasNoBlacklist(s);
      Extend(s, [], Poll(f, false), Anyone);
      assert f in Run(s, [] + [Poll(f, false)], Anyone).value.registered;
    } else {
      forall trace: seq<Event<E>> | Run(s, trace, Anyone).Some?
        ensures f !in Run(s, trace, Anyone).value.registered
      {
        LockedForever(s, trace, f, false, Anyone);
      }
    }
  }

  lemma SectionHasNoBlacklist<E>(s: State<E>)
    requires Section(s) && s.blacklist != []
    ensures s.sem.None?
  {
  }
}
