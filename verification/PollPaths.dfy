/** How runs of the poll path are put together, and what a read's first section amounts to when
    nobody looks at it. */
module PollPaths {
  import opened Options
  import opened Sequences
  import opened TableSpec
  import opened PollSpec
  import opened PollInvariant
  import opened PollKeeps

  lemma Extend<E>(s0: State<E>, trace: seq<Event<E>>, e: Event<E>, callers: Callers)
    requires Run(s0, trace, callers).Some?
    requires var s := Run(s0, trace, callers).value; Enabled(s, e) && Obeys(s, e, callers)
    ensures Run(s0, trace + [e], callers) == Some(Apply(Run(s0, trace, callers).value, e))
  {
    assert (trace + [e])[..|trace|] == trace;
  }

  lemma ReachableStep<E(!new)>(s: State<E>, e: Event<E>, callers: Callers)
    requires Reachable(s, callers) && Enabled(s, e) && Obeys(s, e, callers)
    ensures Reachable(Apply(s, e), callers)
  {
    hide Run, Apply, Enabled, Obeys;
    var add, zero, n, trace :| Run(Init(add, zero, n), trace, callers) == Some(s);
    Extend(Init(add, zero, n), trace, e, callers);
  }

  /** A step of one of these read calls. */
  predicate Moves<E>(e: Event<E>, calls: set<nat>) {
    !e.Poll? && !e.Put? && e.c in calls
  }

  /** The callers can get from one state to another while these read calls stand still. */
  ghost predicate Leads<E(!new)>(s: State<E>, s': State<E>, callers: Callers, still: set<nat>) {
    exists trace: seq<Event<E>> ::
      Run(s, trace, callers) == Some(s') && forall i :: 0 <= i < |trace| ==> !Moves(trace[i], still)
  }

  lemma LeadsNowhere<E(!new)>(s: State<E>, callers: Callers, still: set<nat>)
    ensures Leads(s, s, callers, still)
  {
    assert Run(s, [], callers) == Some(s);
  }

  lemma LeadsStep<E(!new)>(s0: State<E>, s: State<E>, e: Event<E>, callers: Callers, still: set<nat>)
    requires Leads(s0, s, callers, still) && Enabled(s, e) && Obeys(s, e, callers) && !Moves(e, still)
    ensures Leads(s0, Apply(s, e), callers, still)
  {
    hide Run, Apply, Enabled, Obeys, Moves;
    var trace :| Run(s0, trace, callers) == Some(s) && forall i :: 0 <= i < |trace| ==> !Moves(trace[i], still);
    Extend(s0, trace, e, callers);
    assert forall i :: 0 <= i < |trace + [e]| ==> !Moves((trace + [e])[i], still);
  }

  lemma {:induction false} ReachableRun<E(!new)>(s: State<E>, trace: seq<Event<E>>, callers: Callers)
    requires Reachable(s, callers) && Run(s, trace, callers).Some?
    ensures Reachable(Run(s, trace, callers).value, callers)
    decreases |trace|
  {
    hide Reachable, Apply, Enabled, Obeys;
    if trace == [] {
    } else {
      var front := trace[..|trace| - 1];
      ReachableRun(s, front, callers);
      ReachableStep(Run(s, front, callers).value, trace[|trace| - 1], callers);
    }
  }

  lemma ReachableLeads<E(!new)>(s: State<E>, s': State<E>, callers: Callers, still: set<nat>)
    requires Reachable(s, callers) && Leads(s, s', callers, still)
    ensures Reachable(s', callers)
  {
    hide Reachable, Run;
    var trace :| Run(s, trace, callers) == Some(s');
    ReachableRun(s, trace, callers);
  }

  /** The state after the first section of a read that nobody disturbed. */
  function Opened<E>(s: State<E>, c: nat, f: nat): State<E>
    requires c < |s.calls|
  {
    if s.blacklist == [] then Closed(BeginApply(s, c, f), c, f) else BeginApply(s, c, f)
  }

  function Closed<E>(s: State<E>, c: nat, f: nat): State<E>
    requires c < |s.calls|
  {
    s.(calls := s.calls[c := Snapped(f)], sem := None, vector := Live(s.changes), count := Min(|s.changes|, MAX_FETCH))
  }

  lemma {:induction false} FillRest<E(!new)>(s0: State<E>, s: State<E>, c: nat, callers: Callers, still: set<nat>)
    requires Leads(s0, s, callers, still) && Section(s) && c < |s.calls| && s.calls[c].Filling? && c !in still
    ensures Leads(s0, s.(calls := s.calls[c := Filling(s.calls[c].f, |s.changes|)], vector := Live(s.changes)),
                  callers, still)
    decreases |s.changes| - s.calls[c].i
  {
    hide Leads, Part;
    var Filling(f, i) := s.calls[c];
    assert InSection(s.calls[c]) && i <= |s.changes|;
    if i == |s.changes| {
      PartAll(s);
      assert s.(calls := s.calls[c := s.calls[c]], vector := s.vector) == s;
    } else {
      LeadsStep(s0, s, ReadFill(c), callers, still);
      var s1 := FillApply(s, c);
      FillKeepsSection(s, c);
      FillRest(s0, s1, c, callers, still);
      assert s1.calls[c := Filling(f, |s.changes|)] == s.calls[c := Filling(f, |s.changes|)];
    }
  }

  lemma StoreUncapped<E(!new)>(s0: State<E>, s: State<E>, c: nat, callers: Callers, still: set<nat>)
    requires Leads(s0, s, callers, still) && Section(s) && c < |s.calls| && s.calls[c].Filling? && c !in still
    ensures Leads(s0, s.(calls := s.calls[c := Capping(s.calls[c].f)], vector := Live(s.changes), count := |s.changes|),
                  callers, still)
  {
    hide Leads;
    var f := s.calls[c].f;
    FillRest(s0, s, c, callers, still);
    var s1 := s.(calls := s.calls[c := Filling(f, |s.changes|)], vector := Live(s.changes));
    LeadsStep(s0, s1, ReadStore(c), callers, still);
    assert s1.calls[c := Capping(f)] == s.calls[c := Capping(f)];
  }

  /** From anywhere in the first section its end can be reached. */
  lemma CloseSection<E(!new)>(s0: State<E>, s: State<E>, c: nat, callers: Callers, still: set<nat>)
    requires Leads(s0, s, callers, still) && Section(s) && c < |s.calls| && InSection(s.calls[c]) && c !in still
    ensures Leads(s0, Closed(s, c, s.calls[c].f), callers, still)
  {
    hide Leads, Part;
    var s1 := s;
    if s.calls[c].Filling? {
      StoreUncapped(s0, s, c, callers, still);
      s1 := s.(calls := s.calls[c := Capping(s.calls[c].f)], vector := Live(s.changes), count := |s.changes|);
    }
    LeadsStep(s0, s1, ReadCap(c), callers, still);
    assert CapApply(s1, c) == Closed(s, c, s.calls[c].f);
  }

  /** The first section of a read, from its begin to its end. */
  lemma OpenSection<E(!new)>(s0: State<E>, s: State<E>, c: nat, f: nat, callers: Callers, still: set<nat>)
    requires Leads(s0, s, callers, still) && Section(s) && c !in still
    requires Enabled(s, ReadBegin(c, f)) && Obeys(s, ReadBegin(c, f), callers)
    ensures Leads(s0, Opened(s, c, f), callers, still)
  {
    hide Leads, Obeys, Part;
    LeadsStep(s0, s, ReadBegin(c, f), callers, still);
    if s.blacklist == [] {
      BeginKeepsSection(s, c, f);
      CloseSection(s0, BeginApply(s, c, f), c, callers, still);
    }
  }

  /** What a call that read the vector undisturbed brings to its retirement. */
  function Read<E>(s: State<E>, c: nat, f: nat): State<E>
    requires c < |s.calls|
  {
    s.(calls := s.calls[c := Counted(f, Fetched(s.vector, s.count), s.count)],
       hist := s.hist.(fault := s.hist.fault || (!s.vector.Live? && s.count > 0)))
  }

  /** A read up to its retirement, undisturbed. */
  lemma ReadUndisturbed<E(!new)>(s0: State<E>, s: State<E>, c: nat, f: nat, callers: Callers)
    requires Leads(s0, s, callers, {}) && Section(s)
    requires Enabled(s, ReadBegin(c, f)) && Obeys(s, ReadBegin(c, f), callers)
    ensures Leads(s0, Read(Opened(s, c, f), c, f), callers, {})
    ensures Enabled(Read(Opened(s, c, f), c, f), ReadRetire(c))
  {
    hide Leads, Part;
    OpenSection(s0, s, c, f, callers, {});
    var s1 := Opened(s, c, f);
    LeadsStep(s0, s1, ReadCopy(c), callers, {});
    var s2 := CopyApply(s1, c);
    LeadsStep(s0, s2, ReadCount(c), callers, {});
    assert Apply(s2, ReadCount(c)) == Read(s1, c, f);
  }

  /** A whole read, undisturbed. */
  function ReadWhole<E>(s: State<E>, c: nat, f: nat): State<E>
    requires c < |s.calls| && s.sem.None?
  {
    RetireApply(Read(Opened(s, c, f), c, f), c)
  }

  lemma ReadsWhole<E(!new)>(s0: State<E>, s: State<E>, c: nat, f: nat, callers: Callers)
    requires Leads(s0, s, callers, {}) && Section(s)
    requires Enabled(s, ReadBegin(c, f)) && Obeys(s, ReadBegin(c, f), callers)
    ensures Leads(s0, ReadWhole(s, c, f), callers, {})
  {
    hide Leads, Part, Section;
    ReadUndisturbed(s0, s, c, f, callers);
    LeadsStep(s0, Read(Opened(s, c, f), c, f), ReadRetire(c), callers, {});
  }

  lemma ReadWholeEffect<E>(s: State<E>, c: nat, f: nat)
    requires c < |s.calls| && s.sem.None?
    ensures var s' := ReadWhole(s, c, f);
            && s' == s.(calls := s.calls[c := NoCall], registered := s'.registered, blacklist := s'.blacklist,
                        changes := s'.changes, vector := s'.vector, count := s'.count, hist := s'.hist)
            && s'.registered == RemoveFirst(s.registered, f) && s'.blacklist == [f] + s.blacklist
            && s'.hist.ready == s.hist.ready - {f} && s'.hist.polled == s.hist.polled
            && (|s.registered| == 1 ==> s'.changes == [])
            && (|s.registered| != 1 ==>
                  && s'.changes == s.changes
                  && s'.hist.snap == (if s.hist.snap.Some? then s.hist.snap else Some(s.changes))
                  && s'.vector == (if s.blacklist == [] then Live(s.changes) else s.vector)
                  && s'.count == (if s.blacklist == [] then Min(|s.changes|, MAX_FETCH) else s.count))
  {
    hide Part, RemoveFirst;
  }
}
