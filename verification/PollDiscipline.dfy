/** What two clauses of the discipline about a first poll buy. If it comes while an update is
    pending, the file is told to read without being registered, and somebody can be left
    unserved. If it comes while others are blacklisted, the file reads without a snapshot and
    the vector can be freed again. */
module PollDiscipline {
  import opened Options
  import opened Sequences
  import opened PollSpec
  import opened PollInvariant
  import opened PollPaths
  import opened PollTheorems
  import opened PollWitnesses

  // ---- a first poll while an update is pending ----------------------------------------

  /** Somebody will not get what was pending: the group is locked out, or a registered file has
      nothing to read any more. */
  predicate Deprived<E>(s: State<E>) {
    Locked(s) || (s.registered != [] && s.changes == [])
  }

  /** The read of a file that is neither registered nor blacklisted. With nobody registered it
      locks the file out; with one registered file it takes the update away from it; with more
      it leaves them all what they need. */
  lemma UnregisteredRead<E>(s: State<E>, c: nat, f: nat)
    requires Between(s) && RoundOk(s) && VectorOk(s) && Enabled(s, ReadBegin(c, f))
    requires s.changes != [] && f !in s.registered && f !in s.blacklist
    ensures var s' := ReadWhole(s, c, f);
            && s'.registered == s.registered && f in s'.blacklist
            && (Deprived(s') <==> |s.registered| <= 1)
            && (s.registered == [] ==> Locked(s'))
            && (|s.registered| == 1 ==> s'.changes == [])
            && (|s.registered| > 1 ==>
                  && s'.changes == s.changes && s'.hist.snap.Some?
                  && s'.vector == Live(s'.hist.snap.value) && s'.count == |Share(s'.hist.snap.value)| > 0
                  && (forall g, nonblock :: g in s.registered && g !in s.blacklist ==>
                        PollOutcome(s', g, nonblock) == PollIn))
  {
    ReadWholeEffect(s, c, f);
    RemoveFirstAbsent(s.registered, f);
    hide Part, SameFiles, NoDup, ReadWhole;
  }

  /** A file polls for the first time while an update is pending, in any state that the
      discipline reaches: it is told to read, and it may read. When it does so undisturbed,
      somebody is deprived if and only if at most one file is registered: the file itself, which
      is locked out for good, if there is none, and otherwise the registered one. */
  lemma LateFirstRead<E(!new)>(s: State<E>, c: nat, f: nat) returns (s': State<E>)
    requires Reachable(s, Polite) && s.sem.None? && s.changes != [] && f !in s.hist.polled
    requires c < |s.calls| && s.calls[c].NoCall?
    ensures PollOutcome(s, f, false) == PollIn && !Disciplined(s, Poll(f, false))
    ensures Leads(PollApply(s, f, false), s', Polite, {})
    ensures s'.registered == s.registered && f in s'.blacklist
    ensures Deprived(s') <==> |s.registered| <= 1
    ensures s.registered == [] ==> Locked(s')
    ensures |s.registered| == 1 ==> s'.changes == []
    ensures |s.registered| > 1 ==> s'.changes == s.changes && s'.hist.snap.Some?
                                   && s'.vector == Live(s'.hist.snap.value)
                                   && s'.count == |Share(s'.hist.snap.value)| > 0
    ensures |s.registered| > 1 ==>
              forall g, nonblock :: g in s.registered ==> PollOutcome(s', g, nonblock) == PollIn
  {
    hide Leads, Part, Reachable;
    ReachableInv(s, Polite);
    var s1 := PollApply(s, f, false);
    assert !Busy(s1, f);
    LeadsNowhere(s1, Polite, {});
    ReadsWhole(s1, s1, c, f, Polite);
    s' := ReadWhole(s1, c, f);
    UnregisteredRead(s1, c, f);
  }

  /** Nobody reads, and every registered file has still to read what is pending. */
  ghost predicate Waiting<E>(s: State<E>) {
    && Section(s) && Quiet(s) && s.changes != [] && NoDup(s.registered)
    && forall g :: g in s.registered ==> g in s.hist.polled && g !in s.blacklist
  }

  /** One registered file polls and reads, and the others go on waiting. */
  lemma OneLeaves<E(!new)>(s0: State<E>, s: State<E>, g: nat) returns (s': State<E>)
    requires Leads(s0, s, Polite, {}) && Waiting(s) && |s.registered| > 1 && g in s.registered
    ensures Leads(s0, s', Polite, {}) && Waiting(s') && s'.changes == s.changes
    ensures |s'.registered| == |s.registered| - 1 && forall h :: h in s'.registered ==> h in s.registered
    ensures s'.blacklist == [g] + s.blacklist && forall h :: h in s.hist.ready && h != g ==> h in s'.hist.ready
  {
    hide Leads, Part, RemoveFirst;
    LeadsStep(s0, s, Poll(g, false), Polite, {});
    var s1 := PollApply(s, g, false);
    assert !Busy(s1, g);
    ReadsWhole(s0, s1, 0, g, Polite);
    s' := ReadWhole(s1, 0, g);
    ReadWholeEffect(s1, 0, g);
    RemoveFirstDistinct(s.registered, g);
    hide ReadWhole, NoDup;
  }

  /** The registered files leave one after another until one is left. */
  lemma {:induction false} AllButOneLeave<E(!new)>(s0: State<E>, s: State<E>, f: nat) returns (s': State<E>)
    requires Leads(s0, s, Polite, {}) && Waiting(s) && s.registered != []
    requires f in s.hist.ready && f !in s.registered && f !in s.blacklist
    ensures Leads(s0, s', Polite, {}) && Waiting(s') && s'.changes == s.changes
    ensures |s'.registered| == 1 && s'.registered[0] in s.registered
    ensures f in s'.hist.ready && f !in s'.registered && f !in s'.blacklist
    decreases |s.registered|
  {
    hide Leads, Waiting;
    s' := s;
    if |s.registered| > 1 {
      var s1 := OneLeaves(s0, s, s.registered[0]);
      s' := AllButOneLeave(s0, s1, f);
    }
  }

  /** However many files are registered, a first poll while an update is pending leaves them at
      the mercy of the order: the callers can go on with discipline until one registered file is
      left that has not read, and the read of the late file takes the update away from it. */
  lemma LateFirstPollHarms<E(!new)>(s: State<E>, f: nat) returns (s1: State<E>, s2: State<E>)
    requires Reachable(s, Polite) && Idle(s) && |s.calls| > 0
    requires s.changes != [] && s.registered != [] && f !in s.hist.polled
    ensures Leads(PollApply(s, f, false), s1, Polite, {}) && s1.changes == s.changes
    ensures |s1.registered| == 1 && s1.registered[0] in s.registered && s1.registered[0] !in s1.blacklist
    ensures Enabled(s1, ReadBegin(0, f)) && s2 == ReadWhole(s1, 0, f)
    ensures Leads(PollApply(s, f, false), s2, Polite, {}) && s2.registered == s1.registered && s2.changes == []
  {
    hide Leads, Part, Reachable;
    ReachableInv(s, Polite);
    var s0 := PollApply(s, f, false);
    LeadsNowhere(s0, Polite, {});
    s1 := AllButOneLeave(s0, s0, f);
    ReadsWhole(s0, s1, 0, f, Polite);
    s2 := ReadWhole(s1, 0, f);
    ReadWholeEffect(s1, 0, f);
    RemoveFirstAbsent(s1.registered, f);
  }

  /** A write before anybody polled: the first file that polls and reads is locked out. */
  lemma EarlyWriteLocksOut<E(!new)>(add: nat, zero: E, entry: E, f: nat) returns (s: State<E>, s': State<E>)
    ensures Reachable(s, Polite) && s.registered == [] && s.blacklist == [] && s.changes != []
    ensures Leads(PollApply(s, f, false), s', Polite, {}) && Locked(s') && f in s'.blacklist
  {
    hide Reachable, Leads;
    var s0 := Start(add, zero, 1, Polite);
    s := Written(s0, entry, Polite);
    s' := LateFirstRead(s, 0, f);
  }

  // ---- a first poll while others are blacklisted --------------------------------------

  /** Beside a blacklist and a freed vector a registered file can be told of a new update, read
      nothing, empty the change list unread and free the vector again. */
  lemma FreesAgain<E(!new)>(s0: State<E>, s: State<E>, f: nat) returns (s': State<E>)
    requires Leads(s0, s, Polite, {}) && Section(s) && Quiet(s) && s.changes == [] && s.registered == [f]
    requires s.blacklist != [] && f !in s.blacklist && f in s.hist.polled && s.vector.Freed? && s.count == 0
    ensures Leads(s0, s', Polite, {}) && s'.hist.fault && s'.changes == []
  {
    hide Leads, Part, RemoveFirst;
    LeadsStep(s0, s, Put(s.add, s.zero), Polite, {});
    var s1 := WriteApply(s, s.add, s.zero);
    LeadsStep(s0, s1, Poll(f, false), Polite, {});
    var s2 := PollApply(s1, f, false);
    assert !Busy(s2, f);
    ReadsWhole(s0, s2, 0, f, Polite);
    s' := ReadWhole(s2, 0, f);
  }

  /** A file polls for the first time while nothing is pending; all other steps keep the
      discipline. Some run frees a vector twice, or uses a freed one, if and only if others are
      blacklisted: the clause that the blacklist is empty cannot be weakened. */
  lemma FirstPollIsSafeIff<E(!new)>(s: State<E>, f: nat)
    requires Reachable(s, Polite) && s.changes == [] && f !in s.hist.polled && |s.calls| > 0
    ensures Disciplined(s, Poll(f, false)) <==> s.blacklist == []
    ensures (exists s' :: Leads(PollApply(s, f, false), s', Polite, {}) && s'.hist.fault) <==> s.blacklist != []
  {
    hide Leads, Part, Reachable;
    ReachableInv(s, Polite);
    NothingRuns(s);
    var s1 := PollApply(s, f, false);
    if s.blacklist == [] {
      ReachableStep(s, Poll(f, false), Polite);
      forall s' | Leads(s1, s', Polite, {}) ensures !s'.hist.fault {
        ReachableLeads(s1, s', Polite, {});
        NoFault(s', Polite);
      }
    } else {
      LeadsNowhere(s1, Polite, {});
      var s' := FreesAgain(s1, s1, f);
    }
  }

  /** Without pending updates no round is open and nobody reads. */
  lemma NothingRuns<E>(s: State<E>)
    requires Inv(s) && s.changes == []
    ensures Idle(s) && s.sem.None? && s.hist.snap.None?
  {
  }

  /** One round is enough to get where a first poll is not safe. */
  lemma LateFirstPollIsReachable<E(!new)>(add: nat, zero: E, entry: E) returns (s: State<E>, s': State<E>)
    ensures Reachable(s, Polite) && s.changes == [] && s.blacklist != [] && 1 !in s.hist.polled
    ensures Leads(PollApply(s, 1, false), s', Polite, {}) && s'.hist.fault
  {
    hide Leads, Reachable;
    s := OneRound(add, zero, entry, Polite);
    FirstPollIsSafeIff(s, 1);
    s' :| Leads(PollApply(s, 1, false), s', Polite, {}) && s'.hist.fault;
  }
}
