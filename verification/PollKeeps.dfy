/** Every step of the poll path keeps the invariants that its callers' behaviour earns. */
module PollKeeps {
  import opened Options
  import opened Sequences
  import opened TableSpec
  import opened PollSpec
  import opened PollInvariant

  // ---- the ledger ---------------------------------------------------------------------

  lemma PutKeepsLedger<E>(s: State<E>, code: nat, entry: E)
    requires Ledger(s)
    ensures Ledger(WriteApply(s, code, entry))
  {
    hide Since;
    var news := Broadcast(s.add, Update(code, entry));
    ReverseAppend(s.hist.since, news);
    if news != [] {
      assert news[1..] == [];
    }
    assert Reverse(news) == news;
  }

  lemma SinceAppend<E>(rounds: seq<Round<E>>, r: Round<E>)
    ensures Since(rounds + [r]) == Since(rounds) + r.since
  {
    assert (rounds + [r])[..|rounds|] == rounds;
  }

  lemma RetireKeepsLedger<E>(s: State<E>, c: nat)
    requires Ledger(s) && Enabled(s, ReadRetire(c))
    ensures Ledger(RetireApply(s, c))
  {
    if |s.registered| == 1 {
      var rounds' := RetireApply(s, c).hist.rounds;
      SinceAppend(s.hist.rounds, rounds'[|s.hist.rounds|]);
      assert rounds' == s.hist.rounds + [rounds'[|s.hist.rounds|]];
    }
    hide Since, RemoveFirst;
  }

  lemma KeepsLedger<E>(s: State<E>, e: Event<E>)
    requires Enabled(s, e) && Ledger(s)
    ensures Ledger(Apply(s, e))
  {
    if e.Put? {
      hide Ledger, WriteApply;
      PutKeepsLedger(s, e.code, e.entry);
    } else if e.ReadRetire? {
      hide Ledger, RetireApply;
      RetireKeepsLedger(s, e.c);
    } else {
      hide Since, Reverse;
    }
  }

  // ---- the first section --------------------------------------------------------------

  lemma NobodyInSection<E>(s: State<E>)
    requires Section(s) && s.sem.None?
    ensures forall c :: 0 <= c < |s.calls| ==> !InSection(s.calls[c])
  {
  }

  lemma PartNext<E>(s: State<E>, i: nat)
    requires i < |s.changes|
    ensures Part(s, i)[i := s.changes[i]] == Part(s, i + 1)
  {
  }

  lemma PartAll<E>(s: State<E>)
    ensures Part(s, |s.changes|) == s.changes
  {
  }

  lemma FillKeepsSection<E>(s: State<E>, c: nat)
    requires Section(s) && Enabled(s, ReadFill(c))
    ensures Section(FillApply(s, c))
    ensures s.sem == Some(c) && FillApply(s, c).vector.Live?
  {
    var i := s.calls[c].i;
    assert InSection(s.calls[c]);
    PartNext(s, i);
    assert Part(FillApply(s, c), i + 1) == Part(s, i + 1);
    hide Part;
  }

  lemma StoreKeepsSection<E>(s: State<E>, c: nat)
    requires Section(s) && Enabled(s, ReadStore(c))
    ensures Section(StoreApply(s, c)) && s.sem == Some(c) && s.vector == Live(s.changes)
  {
    assert InSection(s.calls[c]);
    PartAll(s);
    hide Part;
  }

  lemma CapKeepsSection<E>(s: State<E>, c: nat)
    requires Section(s) && Enabled(s, ReadCap(c))
    ensures Section(CapApply(s, c)) && s.sem == Some(c)
    ensures s.vector == Live(s.changes) && CapApply(s, c).count == Min(|s.changes|, MAX_FETCH)
  {
    assert InSection(s.calls[c]);
    hide Part;
  }

  lemma BeginKeepsSection<E>(s: State<E>, c: nat, f: nat)
    requires Section(s) && Enabled(s, ReadBegin(c, f))
    ensures Section(BeginApply(s, c, f))
  {
    NobodyInSection(s);
    assert Part(BeginApply(s, c, f), 0) == Part(s, 0);
    hide Part;
  }

  lemma PollKeepsSection<E>(s: State<E>, f: nat, nonblock: bool)
    requires Section(s) && s.sem.None?
    ensures Section(PollApply(s, f, nonblock))
  {
    hide Part;
  }

  lemma PutKeepsSection<E>(s: State<E>, code: nat, entry: E)
    requires Section(s) && Idle(s)
    ensures Section(WriteApply(s, code, entry))
  {
    hide Part;
  }

  /** No step of another call touches what the call inside the section relies on. */
  lemma CallKeepsSection<E>(s: State<E>, e: Event<E>)
    requires Section(s) && Enabled(s, e) && (e.ReadCopy? || e.ReadCount? || e.ReadRetire?)
    ensures Section(Apply(s, e))
  {
    var s' := Apply(s, e);
    assert !InSection(s.calls[e.c]) && !InSection(s'.calls[e.c]);
    assert forall d :: 0 <= d < |s.calls| && d != e.c ==> s'.calls[d] == s.calls[d];
    if s.sem.Some? {
      assert Part(s', 0) == Part(s, 0);
      assert s'.changes == s.changes && s'.vector == s.vector;
      assert forall i: nat :: i <= |s.changes| ==> Part(s', i) == Part(s, i);
    }
    hide Part;
  }

  lemma KeepsSection<E>(s: State<E>, e: Event<E>)
    requires Enabled(s, e) && Section(s)
    ensures Section(Apply(s, e))
  {
    hide Section, BeginApply, FillApply, StoreApply, CapApply, CopyApply, RetireApply, PollApply, WriteApply;
    match e
    case Poll(f, nonblock) => PollKeepsSection(s, f, nonblock);
    case ReadBegin(c, f) => BeginKeepsSection(s, c, f);
    case ReadFill(c) => FillKeepsSection(s, c);
    case ReadStore(c) => StoreKeepsSection(s, c);
    case ReadCap(c) => CapKeepsSection(s, c);
    case Put(code, entry) => PutKeepsSection(s, code, entry);
    case _ => CallKeepsSection(s, e);
  }

  lemma KeepsCoded<E>(s: State<E>, e: Event<E>)
    requires Enabled(s, e) && Coded(s)
    ensures Coded(Apply(s, e))
  {
  }

  // ---- poll ---------------------------------------------------------------------------

  lemma PollKeepsLists<E>(s: State<E>, f: nat, nonblock: bool)
    requires Lists(s) && Disciplined(s, Poll(f, nonblock))
    ensures Lists(PollApply(s, f, nonblock))
  {
  }

  lemma PollKeepsRest<E>(s: State<E>, f: nat, nonblock: bool)
    requires Lists(s) && Calls(s) && Between(s) && RoundOk(s) && VectorOk(s)
    requires Disciplined(s, Poll(f, nonblock))
    ensures var s' := PollApply(s, f, nonblock);
            Calls(s') && Between(s') && RoundOk(s') && VectorOk(s')
  {
    if f in s.hist.polled && f !in s.blacklist {
      assert f in s.registered;
    }
  }

  // ---- the first section of a read ----------------------------------------------------

  lemma BeginKeepsLists<E>(s: State<E>, c: nat, f: nat)
    requires Lists(s) && c < |s.calls|
    ensures Lists(BeginApply(s, c, f))
  {
    hide Part;
  }

  lemma BeginKeepsCalls<E>(s: State<E>, c: nat, f: nat)
    requires Lists(s) && Calls(s) && Enabled(s, ReadBegin(c, f)) && Disciplined(s, ReadBegin(c, f))
    ensures Calls(BeginApply(s, c, f))
  {
    hide Part;
  }

  lemma BeginKeepsRound<E>(s: State<E>, c: nat, f: nat)
    requires Lists(s) && Between(s) && RoundOk(s)
    requires Enabled(s, ReadBegin(c, f)) && Disciplined(s, ReadBegin(c, f))
    ensures Between(BeginApply(s, c, f)) && RoundOk(BeginApply(s, c, f))
  {
    hide Part;
    var s' := BeginApply(s, c, f);
    assert !s'.calls[c].NoCall?;
    if s.hist.snap.None? {
      assert s.registered + [] == s.registered;
    }
  }

  lemma BeginKeepsVector<E>(s: State<E>, c: nat, f: nat)
    requires Lists(s) && Calls(s) && Between(s) && RoundOk(s) && VectorOk(s)
    requires Enabled(s, ReadBegin(c, f)) && Disciplined(s, ReadBegin(c, f))
    ensures VectorOk(BeginApply(s, c, f))
  {
    hide Part;
  }

  /** The steps inside the first section move one call on, and change vector and count only. */
  lemma SectionKeeps<E>(s: State<E>, e: Event<E>)
    requires Lists(s) && Calls(s) && Between(s) && RoundOk(s) && Enabled(s, e)
    requires e.ReadFill? || e.ReadStore? || e.ReadCap?
    ensures var s' := Apply(s, e);
            Lists(s') && Calls(s') && Between(s') && RoundOk(s')
  {
    var s' := Apply(s, e);
    assert !s.calls[e.c].NoCall? && !s'.calls[e.c].NoCall? && s'.calls[e.c].f == s.calls[e.c].f;
  }

  lemma SectionKeepsVector<E>(s: State<E>, e: Event<E>)
    requires Section(s) && Calls(s) && RoundOk(s) && VectorOk(s) && Enabled(s, e)
    requires e.ReadFill? || e.ReadStore? || e.ReadCap?
    ensures VectorOk(Apply(s, e))
  {
    if e.ReadFill? {
      FillKeepsSection(s, e.c);
    } else if e.ReadStore? {
      StoreKeepsSection(s, e.c);
    } else {
      CapKeepsSection(s, e.c);
    }
    hide Part;
  }

  // ---- copy and count -----------------------------------------------------------------

  lemma CopyKeeps<E>(s: State<E>, c: nat)
    requires Lists(s) && Calls(s) && Between(s) && RoundOk(s) && VectorOk(s) && Enabled(s, ReadCopy(c))
    ensures var s' := Apply(s, ReadCopy(c));
            Lists(s') && Calls(s') && Between(s') && RoundOk(s') && VectorOk(s')
  {
    var s' := Apply(s, ReadCopy(c));
    assert !s'.calls[c].NoCall?;
  }

  lemma CountKeeps<E>(s: State<E>, c: nat)
    requires Lists(s) && Calls(s) && Between(s) && RoundOk(s) && VectorOk(s) && Enabled(s, ReadCount(c))
    ensures var s' := Apply(s, ReadCount(c));
            Lists(s') && Calls(s') && Between(s') && RoundOk(s') && VectorOk(s')
  {
    var s' := Apply(s, ReadCount(c));
    assert !s'.calls[c].NoCall?;
  }

  // ---- retire -------------------------------------------------------------------------

  lemma OnlyOne(s: seq<nat>, f: nat)
    requires |s| == 1 && f in s
    ensures s == [f]
  {
  }

  lemma RetireKeepsLists<E>(s: State<E>, c: nat)
    requires Lists(s) && Calls(s) && Enabled(s, ReadRetire(c))
    ensures Lists(RetireApply(s, c))
  {
    hide Reverse;
    var f := s.calls[c].f;
    RemoveFirstDistinct(s.registered, f);
    if |s.registered| == 1 {
      OnlyOne(s.registered, f);
    }
  }

  lemma RetireKeepsCalls<E>(s: State<E>, c: nat)
    requires Lists(s) && Calls(s) && Enabled(s, ReadRetire(c))
    ensures Calls(RetireApply(s, c))
  {
    var f := s.calls[c].f;
    RemoveFirstDistinct(s.registered, f);
    if |s.registered| == 1 {
      OnlyOne(s.registered, f);
      assert forall d :: 0 <= d < |s.calls| && !s.calls[d].NoCall? ==> d == c;
    }
  }

  lemma FilesAppend<E>(rs: seq<Result<E>>, r: Result<E>)
    ensures Files(rs + [r]) == Files(rs) + [r.f]
  {
  }

  /** The retiring file joins the returned ones: it was registered, so it is new there. */
  lemma RetireFiles<E>(s: State<E>, c: nat, r: Result<E>)
    requires Lists(s) && Calls(s) && RoundOk(s) && Enabled(s, ReadRetire(c)) && r.f == s.calls[c].f
    ensures NoDup(Files(s.hist.results + [r]))
    ensures SameFiles(Files(s.hist.results + [r]), [r.f] + s.blacklist)
    ensures SameFiles(s.hist.group, RemoveFirst(s.registered, r.f) + ([r.f] + s.blacklist))
  {
    FilesAppend(s.hist.results, r);
    RemoveFirstDistinct(s.registered, r.f);
    assert r.f !in Files(s.hist.results);
  }

  lemma RetireKeepsRound<E>(s: State<E>, c: nat)
    requires Lists(s) && Calls(s) && Between(s) && RoundOk(s) && VectorOk(s) && Enabled(s, ReadRetire(c))
    ensures var s' := RetireApply(s, c);
            Between(s') && RoundOk(s') && VectorOk(s')
  {
    var Counted(f, buf, rc) := s.calls[c];
    RemoveFirstDistinct(s.registered, f);
    if |s.registered| > 1 {
      RetireFiles(s, c, Result(f, buf, rc));
    } else {
      OnlyOne(s.registered, f);
      assert s.registered[1..] == [];
    }
  }

  lemma RetireKeepsRounds<E>(s: State<E>, c: nat)
    requires Ledger(s) && Lists(s) && Calls(s) && RoundOk(s) && GoodRounds(s) && Enabled(s, ReadRetire(c))
    ensures GoodRounds(RetireApply(s, c))
  {
    hide Reverse, Since;
    var Counted(f, buf, rc) := s.calls[c];
    if |s.registered| == 1 {
      RetireFiles(s, c, Result(f, buf, s.count));
      OnlyOne(s.registered, f);
      assert s.registered[1..] == [];
      hide Lists, Calls, NoDup;
    }
  }

  // ---- write --------------------------------------------------------------------------

  lemma WriteKeeps<E>(s: State<E>, code: nat, entry: E)
    requires Section(s) && Lists(s) && Calls(s) && Between(s) && RoundOk(s) && VectorOk(s)
    requires Enabled(s, Put(code, entry))
    ensures var s' := WriteApply(s, code, entry);
            Lists(s') && Calls(s') && Between(s') && RoundOk(s') && VectorOk(s')
  {
    var news := Broadcast(s.add, Update(code, entry));
    if s.hist.snap.Some? {
      var first := s.hist.snap.value;
      var k := |s.changes| - |first|;
      assert (news + s.changes)[|news| + k..] == s.changes[k..];
    }
  }

  lemma Keeps<E>(s: State<E>, e: Event<E>)
    requires Inv(s) && Enabled(s, e) && Disciplined(s, e)
    ensures Inv(Apply(s, e))
  {
    hide Ledger, Section, Lists, Calls, Between, RoundOk, VectorOk, Disciplined;
    KeepsLedger(s, e);
    KeepsSection(s, e);
    match e
    case Poll(f, nonblock) =>
      PollKeepsLists(s, f, nonblock);
      PollKeepsRest(s, f, nonblock);
    case ReadBegin(c, f) =>
      BeginKeepsLists(s, c, f);
      BeginKeepsCalls(s, c, f);
      BeginKeepsRound(s, c, f);
      BeginKeepsVector(s, c, f);
    case ReadCopy(c) => CopyKeeps(s, c);
    case ReadCount(c) => CountKeeps(s, c);
    case ReadRetire(c) =>
      RetireKeepsLists(s, c);
      RetireKeepsCalls(s, c);
      RetireKeepsRound(s, c);
      RetireKeepsRounds(s, c);
    case Put(code, entry) => WriteKeeps(s, code, entry);
    case _ =>
      SectionKeeps(s, e);
      SectionKeepsVector(s, e);
  }

  // ---- the first read of a round alone ------------------------------------------------

  lemma KeepsUndisturbed<E>(s: State<E>, e: Event<E>)
    requires Section(s) && Undisturbed(s) && Enabled(s, e) && Alone(s, e)
    ensures Undisturbed(Apply(s, e))
  {
    hide Part, Progress;
  }

  /** A call that has left the first section finds it empty, and the vector complete. */
  lemma FindsVector<E>(s: State<E>, c: nat)
    requires Section(s) && Calls(s) && VectorOk(s) && Undisturbed(s)
    requires c < |s.calls| && !s.calls[c].NoCall? && !InSection(s.calls[c])
    ensures s.sem.None? && s.hist.snap.Some?
    ensures s.vector == Live(s.hist.snap.value) && s.count == |Share(s.hist.snap.value)|
    ensures Fetched(s.vector, s.count) == Share(s.hist.snap.value)
  {
  }

  lemma CallKeepsAgreement<E>(s: State<E>, e: Event<E>)
    requires Section(s) && Calls(s) && VectorOk(s) && Undisturbed(s) && Agreement(s) && Enabled(s, e)
    requires e.ReadCopy? || e.ReadCount? || e.ReadRetire?
    ensures Agreement(Apply(s, e))
  {
    FindsVector(s, e.c);
    hide Fetched, Share, VectorOk, Section, Undisturbed, Calls;
  }

  lemma KeepsAgreement<E>(s: State<E>, e: Event<E>)
    requires Section(s) && Calls(s) && Between(s) && VectorOk(s)
    requires Undisturbed(s) && Agreement(s) && Enabled(s, e)
    ensures Agreement(Apply(s, e))
  {
    hide Part, Share, VectorOk, Section, Undisturbed, CopyApply, RetireApply;
    if e.ReadCopy? || e.ReadCount? || e.ReadRetire? {
      CallKeepsAgreement(s, e);
    }
  }

  lemma KeepsEqualRounds<E>(s: State<E>, e: Event<E>)
    requires Calls(s) && RoundOk(s) && VectorOk(s) && Agreement(s) && EqualRounds(s) && Enabled(s, e)
    ensures EqualRounds(Apply(s, e))
  {
    hide Part, Suffix, SameFiles, NoDup;
  }

  lemma KeepsSerial<E>(s: State<E>, e: Event<E>)
    requires SerialInv(s) && Enabled(s, e) && Disciplined(s, e) && Alone(s, e)
    ensures SerialInv(Apply(s, e))
  {
    Keeps(s, e);
    KeepsUndisturbed(s, e);
    hide Ledger, Lists, Disciplined, Alone, GoodRounds;
    KeepsAgreement(s, e);
    KeepsEqualRounds(s, e);
  }
}
