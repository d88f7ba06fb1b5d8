/** Runs that reach the states in which the poll path fails its readers. */
module PollWitnesses {
  import opened Options
  import opened Sequences
  import opened TableSpec
  import opened PollSpec
  import opened PollInvariant
  import opened PollKeeps
  import opened PollPaths
  import opened PollTheorems
  import opened PollSnapshots

  /** Nobody reads, and there is room for a read. */
  ghost predicate Quiet<E>(s: State<E>) {
    Idle(s) && s.sem.None? && |s.calls| > 0
  }

  lemma Start<E(!new)>(add: nat, zero: E, n: nat, callers: Callers) returns (s: State<E>)
    requires n > 0
    ensures Reachable(s, callers) && Quiet(s) && s == Init(add, zero, n)
  {
    s := Init(add, zero, n);
    assert Run(s, [], callers) == Some(Init(add, zero, n));
  }

  /** The first poll of a file registers it. */
  lemma FirstPoll<E(!new)>(s: State<E>, f: nat, callers: Callers) returns (s': State<E>)
    requires Reachable(s, callers) && Quiet(s) && s.changes == [] && s.blacklist == [] && f !in s.registered
    ensures Reachable(s', callers) && Quiet(s')
    ensures s' == s.(registered := [f] + s.registered, hist := s.hist.(polled := s.hist.polled + {f}))
  {
    ReachableStep(s, Poll(f, false), callers);
    s' := PollApply(s, f, false);
  }

  /** A write of the "add" code. */
  lemma Written<E(!new)>(s: State<E>, entry: E, callers: Callers) returns (s': State<E>)
    requires Reachable(s, callers) && Quiet(s)
    ensures Reachable(s', callers) && Quiet(s')
    ensures var news := [Upd(s.add, entry)];
            s' == s.(table := [entry] + s.table, changes := news + s.changes,
                     hist := s.hist.(applied := s.hist.applied + news, since := s.hist.since + news))
  {
    ReachableStep(s, Put(s.add, entry), callers);
    s' := WriteApply(s, s.add, entry);
  }

  /** Any number of writes. */
  lemma {:induction false} WrittenOften<E(!new)>(s: State<E>, entry: E, k: nat, callers: Callers) returns (s': State<E>)
    requires Reachable(s, callers) && Quiet(s)
    ensures Reachable(s', callers) && Quiet(s') && |s'.changes| == |s.changes| + k
    ensures s'.registered == s.registered && s'.blacklist == s.blacklist && |s'.calls| == |s.calls|
    ensures s'.hist.polled == s.hist.polled
  {
    hide Reachable;
    s' := s;
    if k > 0 {
      var s1 := WrittenOften(s, entry, k - 1, callers);
      s' := Written(s1, entry, callers);
    }
  }

  /** A poll that returns POLLIN. */
  lemma Polled<E(!new)>(s: State<E>, f: nat, callers: Callers) returns (s': State<E>)
    requires Reachable(s, callers) && Quiet(s) && f !in s.blacklist && s.changes != [] && f in s.hist.polled
    ensures Reachable(s', callers) && Quiet(s') && s' == s.(hist := s.hist.(ready := s.hist.ready + {f}))
  {
    ReachableStep(s, Poll(f, false), callers);
    s' := PollApply(s, f, false);
    assert s.hist.polled + {f} == s.hist.polled;
  }

  /** A whole read while nobody else reads. */
  lemma ReadOnce<E(!new)>(s: State<E>, f: nat, callers: Callers) returns (s': State<E>)
    requires Reachable(s, callers) && Quiet(s) && f in s.hist.ready
    ensures Reachable(s', callers) && Quiet(s')
    ensures s' == ReadWhole(s, 0, f)
  {
    hide RemoveFirst, Reachable, Leads, Part;
    LeadsNowhere(s, callers, {});
    ReadsWhole(s, s, 0, f, callers);
    s' := ReadWhole(s, 0, f);
    ReachableLeads(s, s', callers, {});
  }

  /** What such a read leaves in the history of the rounds. */
  lemma ReadRecorded<E>(s: State<E>, f: nat)
    requires |s.calls| > 0 && s.sem.None?
    ensures var s' := ReadWhole(s, 0, f);
            if |s.registered| != 1 then
              && s'.hist.since == s.hist.since && s'.hist.rounds == s.hist.rounds
              && Files(s'.hist.results) == Files(s.hist.results) + [f]
            else
              && s'.hist.since == [] && s'.hist.snap == None && |s'.hist.rounds| == |s.hist.rounds| + 1
              && s'.hist.rounds[|s.hist.rounds|].first
                 == (if s.hist.snap.Some? then s.hist.snap.value else s.changes)
              && s'.hist.rounds[|s.hist.rounds|].since == s.hist.since
              && Files(s'.hist.rounds[|s.hist.rounds|].results) == Files(s.hist.results) + [f]
  {
    hide RemoveFirst, Files, Part;
    var s1 := Read(Opened(s, 0, f), 0, f);
    FilesAppend(s.hist.results, Result(f, s1.calls[0].buf, s1.count));
  }

  /** One file polls, an update is written, and the file reads it: a whole round. */
  lemma OneRound<E(!new)>(add: nat, zero: E, entry: E, callers: Callers) returns (s: State<E>)
    ensures Reachable(s, callers) && Quiet(s) && s.hist.polled == {0} && s.hist.ready == {}
    ensures s.registered == [] && s.blacklist == [0] && s.changes == [] && s.hist.snap.None?
  {
    hide Reachable, ReadWhole;
    var s0 := Start(add, zero, 1, callers);
    var s1 := FirstPoll(s0, 0, callers);
    var s2 := Written(s1, entry, callers);
    var s3 := Polled(s2, 0, callers);
    s := ReadOnce(s3, 0, callers);
    ReadWholeEffect(s3, 0, 0);
    ReadRecorded(s3, 0);
  }

  /** Disciplined callers and one early write reach the locked state, from which by
      `LockedForever` the group is never served again. */
  lemma LockedIsReachable<E(!new)>(add: nat, zero: E, entry: E, callers: Callers) returns (s: State<E>)
    ensures Reachable(s, callers) && Locked(s) && s.blacklist == [0]
  {
    hide Reachable;
    var s0 := OneRound(add, zero, entry, callers);
    s := Written(s0, entry, callers);
  }

  /** Two files read a round with a write in between: both return the older vector, so neither
      receives all updates of the round, although both callers kept the discipline. */
  lemma IncompleteRoundIsReachable<E(!new)>(add: nat, zero: E, entry: E) returns (s: State<E>)
    ensures Reachable(s, Serial) && |s.hist.rounds| == 1
    ensures |s.hist.rounds[0].since| == 2 > |s.hist.rounds[0].first| == 1
    ensures SameFiles(Files(s.hist.rounds[0].results), [0, 1])
    ensures forall x :: x in s.hist.rounds[0].results ==> x.buf != Reverse(s.hist.rounds[0].since)
  {
    hide Reachable, ReadWhole;
    var s2 := TwoRegistered(add, zero, 1, Serial);
    var s3 := Written(s2, entry, Serial);
    var s4 := Polled(s3, 0, Serial);
    var s5 := Polled(s4, 1, Serial);
    var s6 := ReadOnce(s5, 0, Serial);
    ReadWholeEffect(s5, 0, 0);
    ReadRecorded(s5, 0);
    var s7 := Written(s6, entry, Serial);
    s := ReadOnce(s7, 1, Serial);
    ReadRecorded(s7, 1);
    var r := s.hist.rounds[0];
    forall x | x in r.results ensures x.buf != Reverse(r.since) {
      CompleteDelivery(s, 0, x);
    }
  }

  // ---- two first readers --------------------------------------------------------------

  lemma TwoRegistered<E(!new)>(add: nat, zero: E, n: nat, callers: Callers) returns (s: State<E>)
    requires n > 0
    ensures Reachable(s, callers) && Quiet(s) && |s.calls| == n && s.add == add && s.zero == zero
    ensures s.registered == [1, 0] && s.blacklist == [] && s.changes == [] && s.hist.polled == {0, 1}
    ensures s.hist.snap.None? && s.hist.results == [] && s.hist.rounds == [] && s.hist.since == []
  {
    hide Reachable;
    var s0 := Start(add, zero, n, callers);
    var s1 := FirstPoll(s0, 0, callers);
    s := FirstPoll(s1, 1, callers);
  }

  /** Two files have been told to read, and the first one stands behind its first section. */
  lemma OneSnapped<E(!new)>(s: State<E>) returns (s': State<E>)
    requires Reachable(s, Polite) && Quiet(s) && |s.calls| == 2 && s.registered == [1, 0] && s.blacklist == []
    requires s.changes != [] && s.hist.polled == {0, 1}
    ensures Reachable(s', Polite) && s'.sem.None? && s'.calls == [Snapped(0), NoCall] && 1 in s'.hist.ready
    ensures s' == s.(calls := s'.calls, vector := s'.vector, count := s'.count, hist := s'.hist)
    ensures s'.hist.results == s.hist.results && s'.hist.rounds == s.hist.rounds
    ensures s'.count == Min(|s.changes|, MAX_FETCH)
  {
    hide Reachable, Leads, Part;
    var s1 := Polled(s, 0, Polite);
    var s2 := Polled(s1, 1, Polite);
    LeadsNowhere(s2, Polite, {});
    OpenSection(s2, s2, 0, 0, Polite, {});
    s' := Opened(s2, 0, 0);
    ReachableLeads(s2, s', Polite, {});
  }

  /** Disciplined callers finish a round whose two files received different records: one copied
      while the other had just published the zeroed vector. */
  lemma ZeroedRoundIsReachable<E(!new)>(add: nat, zero: E, entry: E) returns (s: State<E>)
    ensures Reachable(s, Polite) && |s.hist.rounds| == 1
    ensures s.hist.rounds[0].results
         == [Result(0, [Upd(0, zero)], 1), Result(1, [Upd(add, entry)], 1)]
  {
    hide Reachable, Leads;
    var s0 := TwoRegistered(add, zero, 2, Polite);
    var s1 := Written(s0, entry, Polite);
    var s2 := OneSnapped(s1);
    LeadsNowhere(s2, Polite, {});
    LeadsStep(s2, s2, ReadBegin(1, 1), Polite, {});
    var s3 := BeginApply(s2, 1, 1);
    LeadsStep(s2, s3, ReadCopy(0), Polite, {});
    var s4 := CopyApply(s3, 0);
    assert s4.calls[0].buf == [Upd(0, zero)];
    assert s4.changes == [Upd(add, entry)];
    ReachableLeads(s2, s4, Polite, {});
    s := FinishBoth(s4);
  }

  /** The second call finishes its section, and both calls get as far as their retirement. */
  lemma FinishBoth<E(!new)>(s: State<E>) returns (s': State<E>)
    requires Reachable(s, Polite) && s.sem == Some(1) && |s.changes| == 1 && s.registered == [1, 0]
    requires |s.calls| == 2 && s.calls[0].Copied? && s.calls[0].f == 0 && s.calls[1] == Filling(1, 0)
    requires s.hist.results == [] && s.hist.rounds == []
    ensures Reachable(s', Polite) && |s'.hist.rounds| == 1
    ensures s'.hist.rounds[0].results == [Result(0, s.calls[0].buf, 1), Result(1, s.changes, 1)]
  {
    hide Reachable, Leads, Part, Section;
    ReachableSection(s, Polite);
    LeadsNowhere(s, Polite, {});
    CloseSection(s, s, 1, Polite, {});
    var s1 := Closed(s, 1, 1);
    LeadsStep(s, s1, ReadCopy(1), Polite, {});
    var s2 := CopyApply(s1, 1);
    LeadsStep(s, s2, ReadCount(0), Polite, {});
    var s3 := Apply(s2, ReadCount(0));
    LeadsStep(s, s3, ReadCount(1), Polite, {});
    var s4 := Apply(s3, ReadCount(1));
    ReachableLeads(s, s4, Polite, {});
    assert s.changes[..1] == s.changes;
    assert s4.calls == [Counted(0, s.calls[0].buf, 1), Counted(1, s.changes, 1)];
    s' := RetireBoth(s4);
  }

  lemma RetireBoth<E(!new)>(s: State<E>) returns (s': State<E>)
    requires Reachable(s, Polite) && s.sem.None? && s.registered == [1, 0] && s.count == 1
    requires |s.calls| == 2 && s.calls[0].Counted? && s.calls[0].f == 0 && s.calls[1].Counted?
    requires s.hist.results == [] && s.hist.rounds == []
    ensures Reachable(s', Polite) && |s'.hist.rounds| == 1
    ensures s'.hist.rounds[0].results
         == [Result(0, s.calls[0].buf, s.calls[0].rc), Result(s.calls[1].f, s.calls[1].buf, 1)]
  {
    hide Reachable;
    assert RemoveFirst(s.registered, 0) == [1] + RemoveFirst([0], 0);
    ReachableStep(s, ReadRetire(0), Polite);
    var s1 := RetireApply(s, 0);
    assert s1.registered == [1];
    ReachableStep(s1, ReadRetire(1), Polite);
    s' := RetireApply(s1, 1);
  }

  /** With more than 20 updates pending, a copy can hand over all of them: it found the count
      that another reader had not capped yet. */
  lemma OverlongCopyIsReachable<E(!new)>(add: nat, zero: E, entry: E, k: nat) returns (s: State<E>)
    requires k > MAX_FETCH
    ensures Reachable(s, Polite) && |s.calls| == 2 && s.calls[0].Copied? && |s.calls[0].buf| == k
  {
    hide Reachable, Leads, Part;
    var s0 := TwoRegistered(add, zero, 2, Polite);
    var s1 := WrittenOften(s0, entry, k, Polite);
    var s2 := OneSnapped(s1);
    ReachableSection(s2, Polite);
    LeadsNowhere(s2, Polite, {});
    LeadsStep(s2, s2, ReadBegin(1, 1), Polite, {});
    var s3 := BeginApply(s2, 1, 1);
    BeginKeepsSection(s2, 1, 1);
    StoreUncapped(s2, s3, 1, Polite, {});
    var s4 := s3.(calls := s3.calls[1 := Capping(1)], vector := Live(s3.changes), count := k);
    LeadsStep(s2, s4, ReadCopy(0), Polite, {});
    s := CopyApply(s4, 0);
    ReachableLeads(s2, s, Polite, {});
  }
}
