/** What a reader receives. The vector and its count are replaced while earlier readers of the
    same round may be copying, so whether a copy is right depends on who runs beside it. */
module PollSnapshots {
  import opened Options
  import opened Sequences
  import opened TableSpec
  import opened PollSpec
  import opened PollInvariant
  import opened PollKeeps
  import opened PollPaths
  import opened PollTheorems

  // ---- when the first read of each round runs alone -----------------------------------

  lemma {:induction false} RunSerialInv<E>(s: State<E>, trace: seq<Event<E>>)
    requires SerialInv(s) && Run(s, trace, Serial).Some?
    ensures SerialInv(Run(s, trace, Serial).value)
    decreases |trace|
  {
    hide SerialInv, Apply, Enabled, Disciplined, Alone;
    if trace == [] {
    } else {
      var front := trace[..|trace| - 1];
      RunSerialInv(s, front);
      KeepsSerial(Run(s, front, Serial).value, trace[|trace| - 1]);
    }
  }

  lemma ReachableSerialInv<E(!new)>(s: State<E>)
    requires Reachable(s, Serial)
    ensures SerialInv(s)
  {
    var add, zero, n, trace :| Run(Init(add, zero, n), trace, Serial) == Some(s);
    InitInv(add, zero, n);
    hide Inv, Run;
    RunSerialInv(Init(add, zero, n), trace);
  }

  /** The readers of a round agree: whoever has copied, counted or returned holds the first
      min(20, pending) records of the change list as the round's first reader saw it, and
      whoever is about to copy finds them in the vector, however often the writers wrote between
      the reads. */
  lemma SnapshotAgreement<E(!new)>(s: State<E>, c: nat)
    requires Reachable(s, Serial) && c < |s.calls| && !s.calls[c].NoCall?
    ensures s.hist.snap.Some? && s.calls[c].f in s.registered
    ensures InSection(s.calls[c]) ==> OnlyRunning(s, c)
    ensures var share := Share(s.hist.snap.value);
            && (!InSection(s.calls[c]) ==> s.vector == Live(s.hist.snap.value) && s.count == |share| > 0)
            && (s.calls[c].Copied? || s.calls[c].Counted? ==> s.calls[c].buf == share)
            && (s.calls[c].Counted? ==> s.calls[c].rc == |share|)
            && (forall r :: r in s.hist.results ==> r.buf == share && r.rc == |share|)
  {
    ReachableSerialInv(s);
    if !InSection(s.calls[c]) {
      FindsVector(s, c);
    }
    hide Part;
  }

  /** Two running calls belong to two registered files. */
  lemma TwoCalls<E>(s: State<E>)
    requires Calls(s)
    ensures |s.registered| == 1 ==>
              forall c, d :: 0 <= c < d < |s.calls| ==> s.calls[c].NoCall? || s.calls[d].NoCall?
  {
  }

  /** From the end of its first section to its retirement a reader finds the same vector and the
      same count: no step of anybody else changes them. */
  lemma VectorStays<E(!new)>(s: State<E>, e: Event<E>, c: nat)
    requires Reachable(s, Serial) && c < |s.calls| && !s.calls[c].NoCall? && !InSection(s.calls[c])
    requires Enabled(s, e) && Obeys(s, e, Serial) && !(e.ReadRetire? && e.c == c)
    ensures Apply(s, e).vector == s.vector && Apply(s, e).count == s.count
  {
    ReachableSerialInv(s);
    FindsVector(s, c);
    NobodyInSection(s);
    TwoCalls(s);
    hide SerialInv, Part;
  }

  /** Each file of a finished round received all updates applied since the previous emptying,
      newest first, if and only if no write came after the first reader's snapshot and at most
      20 updates were pending. */
  lemma CompleteDelivery<E(!new)>(s: State<E>, i: nat, x: Result<E>)
    requires Reachable(s, Serial) && i < |s.hist.rounds| && x in s.hist.rounds[i].results
    ensures var r := s.hist.rounds[i];
            && x.buf == Share(r.first) && x.rc == |x.buf|
            && (x.buf == Reverse(r.since) <==> |r.since| == |r.first| <= MAX_FETCH)
  {
    ReachableSerialInv(s);
    hide Reverse;
    var r := s.hist.rounds[i];
    assert GoodRound(r);
    ReverseLength(r.since);
    if |r.since| == |r.first| {
      assert Reverse(r.since)[0..] == Reverse(r.since);
      if |r.first| <= MAX_FETCH {
        assert Share(r.first) == r.first;
      }
    }
  }

  /** Whatever the last reader of a round copied, the value it returns is the share's length, also
      when several first readers ran. */
  lemma LastReaderReturnsShare<E(!new)>(s: State<E>, c: nat, callers: Callers)
    requires Reachable(s, callers) && !callers.Anyone? && Enabled(s, ReadRetire(c)) && |s.registered| == 1
    ensures s.hist.snap.Some? && Returned(s, c) == |Share(s.hist.snap.value)| > 0
  {
    ReachableInv(s, callers);
    assert !s.calls[c].NoCall?;
    hide Part;
  }

  /** In every finished round each file registered at its begin returned exactly once. */
  lemma EachReturnsOnce<E(!new)>(s: State<E>, i: nat, callers: Callers)
    requires Reachable(s, callers) && !callers.Anyone? && i < |s.hist.rounds|
    ensures var r := s.hist.rounds[i]; NoDup(Files(r.results)) && SameFiles(Files(r.results), r.group)
  {
    ReachableInv(s, callers);
    assert GoodRound(s.hist.rounds[i]);
  }

  // ---- when several first readers may run ---------------------------------------------

  /** A copy at this moment goes wrong: a record it needs is still zeroed, or the count is not
      capped yet. */
  predicate Exposed<E>(s: State<E>) {
    && s.sem.Some? && s.sem.value < |s.calls|
    && match s.calls[s.sem.value]
       case Filling(_, i) => i < Min(|s.changes|, MAX_FETCH)
       case Capping(_) => |s.changes| > MAX_FETCH
       case _ => false
  }

  /** A copy receives the share of its round's first reader if and only if no other reader is
      replacing the part of the vector that the copy needs. (The "add" codes are 1 and 5; a zeroed
      record has code 0.) */
  lemma CopyIsRightIff<E(!new)>(s: State<E>, c: nat, callers: Callers)
    requires Reachable(s, callers) && !callers.Anyone? && s.add != 0
    requires Enabled(s, ReadCopy(c))
    ensures s.hist.snap.Some?
    ensures Apply(s, ReadCopy(c)).calls[c].buf == Share(s.hist.snap.value) <==> !Exposed(s)
  {
    ReachableInv(s, callers);
    ReachableSection(s, callers);
    CopyRight(s, c);
  }

  /** The first `m` records of a vector that is filled up to `i` are the real ones if and only if
      the filling has come that far. */
  lemma PartIsShare<E>(s: State<E>, i: nat, m: nat)
    requires Coded(s) && s.add != 0 && i <= |s.changes| && m <= |s.changes|
    ensures Part(s, i)[..m] == s.changes[..m] <==> i >= m
  {
    if i < m {
      assert Part(s, i)[..m][i] == Upd(0, s.zero);
      assert s.changes[..m][i].code == s.add;
    }
  }

  /** What a copy beside an open section finds. */
  lemma BesideSection<E>(s: State<E>, c: nat)
    requires Section(s) && Calls(s) && RoundOk(s) && VectorOk(s)
    requires c < |s.calls| && s.calls[c].Snapped? && s.sem.Some?
    ensures s.hist.snap == Some(s.changes) && s.sem.value < |s.calls| && InSection(s.calls[s.sem.value])
    ensures Progress(s, s.calls[s.sem.value])
    ensures s.calls[s.sem.value].Filling? ==> s.count == Min(|s.changes|, MAX_FETCH)
  {
    hide Part, Progress, SameFiles, NoDup;
  }

  lemma CopyRight<E>(s: State<E>, c: nat)
    requires Section(s) && Coded(s) && Calls(s) && RoundOk(s) && VectorOk(s) && s.add != 0
    requires c < |s.calls| && s.calls[c].Snapped?
    ensures s.hist.snap.Some?
    ensures Fetched(s.vector, s.count) == Share(s.hist.snap.value) <==> !Exposed(s)
  {
    if s.sem.Some? {
      BesideSection(s, c);
      hide Section, Calls, RoundOk, VectorOk, Coded, Part;
      var call := s.calls[s.sem.value];
      if call.Filling? {
        PartIsShare(s, call.i, Min(|s.changes|, MAX_FETCH));
      }
    } else {
      hide Section, Coded, RoundOk;
    }
  }

  /** The count that a reader notes is the share's length if and only if it is not just stored
      and over 20. */
  lemma CountIsRightIff<E(!new)>(s: State<E>, c: nat, callers: Callers)
    requires Reachable(s, callers) && !callers.Anyone?
    requires Enabled(s, ReadCount(c))
    ensures s.hist.snap.Some?
    ensures Apply(s, ReadCount(c)).calls[c].rc == |Share(s.hist.snap.value)| <==>
            !(s.sem.Some? && s.sem.value < |s.calls| && s.calls[s.sem.value].Capping? && |s.changes| > MAX_FETCH)
  {
    ReachableInv(s, callers);
    hide Part;
  }

  /** The section under way exposes a copy, or will before it ends. */
  predicate Replacing<E>(s: State<E>) {
    && s.sem.Some? && s.sem.value < |s.calls|
    && (|s.changes| > MAX_FETCH
        || (s.calls[s.sem.value].Filling? && s.calls[s.sem.value].i < |s.changes|))
  }

  /** A registered file is not reading yet, and a read of it would replace the vector. */
  ghost predicate MayReplace<E>(s: State<E>) {
    && s.blacklist == []
    && (exists f :: f in s.registered && !Busy(s, f))
    && (exists d :: 0 <= d < |s.calls| && s.calls[d].NoCall?)
  }

  lemma ReplacingStep<E>(s: State<E>, e: Event<E>)
    requires Section(s) && Lists(s) && !Idle(s) && Enabled(s, e) && Disciplined(s, e)
    ensures Replacing(Apply(s, e)) ==> Replacing(s) || MayReplace(s)
  {
    hide Part;
    if e.ReadBegin? {
      assert e.f in s.registered && !Busy(s, e.f);
    } else if e.ReadFill? || e.ReadStore? {
      assert InSection(s.calls[e.c]);
    }
  }

  lemma MayReplaceStep<E>(s: State<E>, e: Event<E>)
    requires Lists(s) && s.changes != [] && Enabled(s, e) && Disciplined(s, e)
    requires MayReplace(Apply(s, e))
    ensures MayReplace(s)
  {
    hide Part;
    var s' := Apply(s, e);
    assert s.registered == s'.registered && s.blacklist == [];
    var f, d :| f in s'.registered && !Busy(s', f) && 0 <= d < |s'.calls| && s'.calls[d].NoCall?;
    assert forall d :: 0 <= d < |s.calls| && !s.calls[d].NoCall? ==>
      !s'.calls[d].NoCall? && s'.calls[d].f == s.calls[d].f;
    assert !Busy(s, f);
    assert s.calls[d].NoCall?;
  }

  /** A run in which one call stands still exposes that call only if its first state may. */
  lemma {:induction false} RunExposes<E>(s: State<E>, trace: seq<Event<E>>, c: nat)
    requires Inv(s) && c < |s.calls| && s.calls[c].Snapped? && Run(s, trace, Polite).Some?
    requires forall i :: 0 <= i < |trace| ==> !Moves(trace[i], {c})
    ensures var s' := Run(s, trace, Polite).value;
            && Inv(s') && c < |s'.calls| && s'.calls[c] == s.calls[c]
            && s'.add == s.add && s'.hist.snap == s.hist.snap
            && (Replacing(s') || MayReplace(s') ==> Replacing(s) || MayReplace(s))
    decreases |trace|
  {
    hide Inv, Replacing, MayReplace, Apply, Enabled, Disciplined;
    if trace == [] {
    } else {
      var front, e := trace[..|trace| - 1], trace[|trace| - 1];
      RunExposes(s, front, c);
      var s1 := Run(s, front, Polite).value;
      Keeps(s1, e);
      StandsStill(s1, e, c);
      SnapshotStands(s1, e, c);
      StepExposes(s1, e, c);
    }
  }

  lemma StandsStill<E>(s: State<E>, e: Event<E>, c: nat)
    requires Enabled(s, e) && c < |s.calls| && s.calls[c].Snapped? && !Moves(e, {c})
    ensures var s' := Apply(s, e); |s'.calls| == |s.calls| && s'.calls[c] == s.calls[c] && s'.add == s.add
  {
  }

  /** A round does not end under a running call. */
  lemma SnapshotStands<E>(s: State<E>, e: Event<E>, c: nat)
    requires Inv(s) && c < |s.calls| && s.calls[c].Snapped? && Enabled(s, e) && !Moves(e, {c})
    ensures Apply(s, e).hist.snap == s.hist.snap
  {
    TwoCalls(s);
    assert !s.calls[c].NoCall?;
    hide Inv, Part, Calls;
  }

  lemma StepExposes<E>(s: State<E>, e: Event<E>, c: nat)
    requires Inv(s) && c < |s.calls| && s.calls[c].Snapped? && Enabled(s, e) && Disciplined(s, e)
    ensures var s' := Apply(s, e); Replacing(s') || MayReplace(s') ==> Replacing(s) || MayReplace(s)
  {
    assert !s.calls[c].NoCall? && s.changes != [];
    hide Replacing, MayReplace, Apply, Enabled, Disciplined, Lists, Section;
    ReplacingStep(s, e);
    if MayReplace(Apply(s, e)) {
      MayReplaceStep(s, e);
    }
  }

  /** The rest of the section under way exposes every call that is about to copy. */
  lemma ReplacingExposes<E(!new)>(s0: State<E>, s: State<E>, still: set<nat>) returns (s': State<E>)
    requires Leads(s0, s, Polite, still) && Section(s) && Replacing(s) && s.sem.value !in still
    ensures Leads(s0, s', Polite, still) && Exposed(s')
  {
    hide Leads, Part;
    if Exposed(s) {
      s' := s;
    } else {
      var c := s.sem.value;
      StoreUncapped(s0, s, c, Polite, still);
      s' := s.(calls := s.calls[c := Capping(s.calls[c].f)], vector := Live(s.changes), count := |s.changes|);
    }
  }

  /** A registered file that is not reading polls and opens a second first section. */
  lemma MayReplaceExposes<E(!new)>(s0: State<E>, s: State<E>, f: nat, d: nat, still: set<nat>)
    returns (s': State<E>)
    requires Leads(s0, s, Polite, still) && s.sem.None? && Lists(s)
    requires s.blacklist == [] && s.changes != [] && f in s.registered && !Busy(s, f)
    requires d < |s.calls| && s.calls[d].NoCall? && d !in still
    ensures Leads(s0, s', Polite, still) && Exposed(s')
  {
    hide Leads, Part;
    LeadsStep(s0, s, Poll(f, false), Polite, still);
    var s1 := PollApply(s, f, false);
    assert !Busy(s1, f);
    LeadsStep(s0, s1, ReadBegin(d, f), Polite, still);
    s' := BeginApply(s1, d, f);
  }

  lemma SomeRunExposes<E(!new)>(s: State<E>, c: nat) returns (s': State<E>)
    requires Inv(s) && c < |s.calls| && s.calls[c].Snapped? && (Replacing(s) || MayReplace(s))
    ensures Leads(s, s', Polite, {c}) && Exposed(s')
  {
    hide Leads, Part;
    LeadsNowhere(s, Polite, {c});
    assert !s.calls[c].NoCall? && s.changes != [];
    if Replacing(s) {
      s' := ReplacingExposes(s, s, {c});
    } else {
      var f, d :| f in s.registered && !Busy(s, f) && 0 <= d < |s.calls| && s.calls[d].NoCall?;
      var s1 := s;
      if s.sem.Some? {
        CloseSection(s, s, s.sem.value, Polite, {c});
        s1 := Closed(s, s.sem.value, s.calls[s.sem.value].f);
        assert !Busy(s1, f);
      }
      s' := MayReplaceExposes(s, s1, f, d, {c});
    }
  }

  /** The copy of this call, at this moment, is not the share. */
  ghost predicate Misreads<E>(s: State<E>, c: nat, share: seq<Upd<E>>) {
    Enabled(s, ReadCopy(c)) && Apply(s, ReadCopy(c)).calls[c].buf != share
  }

  /** A call that is about to copy can still be given a wrong copy if and only if a section
      under way exposes it, or the blacklist is empty and a registered file that is not reading
      finds room for a read. */
  lemma MayMisreadIff<E(!new)>(s: State<E>, c: nat)
    requires Reachable(s, Polite) && s.add != 0 && c < |s.calls| && s.calls[c].Snapped?
    ensures s.hist.snap.Some?
    ensures (exists s' :: Leads(s, s', Polite, {c}) && Misreads(s', c, Share(s.hist.snap.value)))
            <==> Replacing(s) || MayReplace(s)
  {
    ReachableInv(s, Polite);
    hide Inv, Reachable, Replacing, MayReplace, Misreads;
    RunningInRound(s, c);
    forall s' | Leads(s, s', Polite, {c})
      ensures Misreads(s', c, Share(s.hist.snap.value)) <==> Exposed(s')
      ensures Exposed(s') ==> Replacing(s) || MayReplace(s)
    {
      CopyLater(s, s', c);
    }
    if Replacing(s) || MayReplace(s) {
      var s' := SomeRunExposes(s, c);
    }
  }

  lemma RunningInRound<E>(s: State<E>, c: nat)
    requires Inv(s) && c < |s.calls| && s.calls[c].Snapped?
    ensures s.hist.snap.Some?
  {
  }

  lemma CopyLater<E(!new)>(s: State<E>, s': State<E>, c: nat)
    requires Reachable(s, Polite) && s.add != 0 && c < |s.calls| && s.calls[c].Snapped? && s.hist.snap.Some?
    requires Leads(s, s', Polite, {c})
    ensures Misreads(s', c, Share(s.hist.snap.value)) <==> Exposed(s')
    ensures Exposed(s') ==> Replacing(s) || MayReplace(s)
  {
    ReachableInv(s, Polite);
    ReachableLeads(s, s', Polite, {c});
    hide Inv, Run, Reachable, MayReplace, Moves, Fetched, Share;
    var trace :| Run(s, trace, Polite) == Some(s') && forall i :: 0 <= i < |trace| ==> !Moves(trace[i], {c});
    RunExposes(s, trace, c);
    CopyIsRightIff(s', c, Polite);
  }
}
