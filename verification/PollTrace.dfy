/** What a run of the poll path does, read off its events: the updates written, the values that
    polls and reads return, and the misuses of a freed vector. The histories that the invariant
    speaks of are exactly these. Nothing here assumes the discipline. */
module PollTrace {
  import opened Options
  import opened Sequences
  import opened TableSpec
  import opened PollSpec
  import opened PollTheorems

  // ---- writes -------------------------------------------------------------------------

  /** The updates that a run announces: its writes with the "add" code. */
  function Announced<E>(add: nat, trace: seq<Event<E>>): seq<Upd<E>> {
    if trace == [] then []
    else
      var front, e := Announced(add, trace[..|trace| - 1]), trace[|trace| - 1];
      if e.Put? && e.code == add then front + [Upd(add, e.entry)] else front
  }

  lemma {:induction false} AppliedAreAnnounced<E>(s: State<E>, trace: seq<Event<E>>, callers: Callers)
    requires Run(s, trace, callers).Some?
    ensures var s' := Run(s, trace, callers).value;
            s'.add == s.add && s'.hist.applied == s.hist.applied + Announced(s.add, trace)
    decreases |trace|
  {
    hide Apply, Enabled, Obeys;
    if trace == [] {
    } else {
      var front := trace[..|trace| - 1];
      AppliedAreAnnounced(s, front, callers);
      StepApplies(Run(s, front, callers).value, trace[|trace| - 1]);
    }
  }

  /** After every run the table is what the run announced, newest first, and the pending updates
      are its front. */
  lemma TableIsAnnounced<E(!new)>(add: nat, zero: E, n: nat, trace: seq<Event<E>>, callers: Callers)
    requires Run(Init(add, zero, n), trace, callers).Some?
    ensures var s := Run(Init(add, zero, n), trace, callers).value;
            && s.table == Entries(Reverse(Announced(add, trace)))
            && s.changes == Reverse(s.hist.since) && Entries(s.changes) <= s.table
  {
    var s0 := Init(add, zero, n);
    var s := Run(s0, trace, callers).value;
    assert Reachable(s, callers);
    assert s0.add == add && s0.hist.applied == [];
    hide Run, Announced, Reverse, Reachable, Entries, Init;
    AppliedAreAnnounced(s0, trace, callers);
    assert s.hist.applied == Announced(add, trace);
    PendingIsFrontOfTable(s, callers);
    UpdatesPartitioned(s, callers);
  }

  // ---- what a poll returns ------------------------------------------------------------

  /** A poll returns POLLIN exactly to a file that is not blacklisted while an update is pending;
      it returns EAGAIN only without blocking, and then changes no list; and whoever waits is
      listed. */
  lemma PollTells<E>(s: State<E>, f: nat, nonblock: bool)
    ensures var s', res := PollApply(s, f, nonblock), PollOutcome(s, f, nonblock);
            && (res.PollIn? <==> f !in s.blacklist && s.changes != [])
            && (res.PollIn? ==> f in s'.hist.ready && s'.registered == s.registered && s'.blacklist == s.blacklist)
            && (res.Again? ==> nonblock && s'.registered == s.registered && s'.blacklist == s.blacklist)
            && (res.Wait? ==> f in s'.registered || f in s'.blacklist)
            && (res.Wait? && !Listed(s, f) ==> s'.registered == [f] + s.registered && s'.blacklist == s.blacklist)
            && (s.changes == [] && !nonblock ==> res.Wait?)
  {
  }

  predicate Listed<E>(s: State<E>, f: nat) {
    f in s.registered || f in s.blacklist
  }

  /** A poll of this file is told to wait. */
  predicate Waits<E>(s: State<E>, e: Event<E>, f: nat) {
    e.Poll? && e.f == f && PollOutcome(s, f, e.nonblock) == Wait
  }

  /** A read of this file ends. */
  predicate Ends<E>(s: State<E>, e: Event<E>, f: nat) {
    e.ReadRetire? && e.c < |s.calls| && s.calls[e.c].Counted? && s.calls[e.c].f == f
  }

  lemma {:induction false} RemoveFirstKeeps(s: seq<nat>, f: nat, g: nat)
    requires f != g
    ensures g in RemoveFirst(s, f) <==> g in s
  {
    if s == [] || s[0] == f {
      assert s != [] ==> s == [s[0]] + s[1..];
    } else {
      RemoveFirstKeeps(s[1..], f, g);
      assert s == [s[0]] + s[1..];
    }
  }

  lemma ListedByRetire<E>(s: State<E>, c: nat, f: nat)
    requires Enabled(s, ReadRetire(c))
    ensures Listed(RetireApply(s, c), f) <==> Listed(s, f) || s.calls[c].f == f
  {
    hide RemoveFirst;
    if s.calls[c].f != f {
      RemoveFirstKeeps(s.registered, s.calls[c].f, f);
    }
  }

  lemma ListedByStep<E>(s: State<E>, e: Event<E>, f: nat)
    requires Enabled(s, e)
    ensures Listed(Apply(s, e), f) <==> Listed(s, f) || Waits(s, e, f) || Ends(s, e, f)
  {
    if e.ReadRetire? {
      hide RetireApply, Listed;
      ListedByRetire(s, e.c, f);
    }
  }

  predicate ListsAt<E>(s: State<E>, trace: seq<Event<E>>, callers: Callers, f: nat, i: nat)
    requires i < |trace|
  {
    Run(s, trace[..i], callers).Some?
    && var s1 := Run(s, trace[..i], callers).value; Waits(s1, trace[i], f) || Ends(s1, trace[i], f)
  }

  lemma ListsEarlier<E>(s: State<E>, trace: seq<Event<E>>, callers: Callers, f: nat, i: nat)
    requires i + 1 < |trace|
    ensures ListsAt(s, trace[..|trace| - 1], callers, f, i) <==> ListsAt(s, trace, callers, f, i)
  {
    hide Run, Waits, Ends;
    assert trace[..|trace| - 1][..i] == trace[..i];
  }

  /** Over every run, a file is registered or blacklisted at the end if and only if it was at the
      begin, one of its polls was told to wait, or one of its reads ended. So whoever sleeps in a
      poll is known, and whoever was told EAGAIN or POLLIN and did not read is not. */
  lemma {:induction false} ListedIffWaited<E>(s: State<E>, trace: seq<Event<E>>, callers: Callers, f: nat)
    requires Run(s, trace, callers).Some?
    ensures Listed(Run(s, trace, callers).value, f) <==>
            Listed(s, f) || exists i :: 0 <= i < |trace| && ListsAt(s, trace, callers, f, i)
    decreases |trace|
  {
    hide Apply, Enabled, Obeys, Listed, ListsAt;
    if trace == [] {
    } else {
      var k := |trace| - 1;
      var front := trace[..k];
      ListedIffWaited(s, front, callers, f);
      ListedByStep(Run(s, front, callers).value, trace[k], f);
      forall i | 0 <= i < k ensures ListsAt(s, front, callers, f, i) <==> ListsAt(s, trace, callers, f, i) {
        ListsEarlier(s, trace, callers, f, i);
      }
      assert ListsAt(s, trace, callers, f, k) <==>
             Waits(Run(s, front, callers).value, trace[k], f) || Ends(Run(s, front, callers).value, trace[k], f) by {
        ListsLast(s, trace, callers, f);
      }
    }
  }

  lemma ListsLast<E>(s: State<E>, trace: seq<Event<E>>, callers: Callers, f: nat)
    requires trace != [] && Run(s, trace[..|trace| - 1], callers).Some?
    ensures var s1, e := Run(s, trace[..|trace| - 1], callers).value, trace[|trace| - 1];
            ListsAt(s, trace, callers, f, |trace| - 1) <==> Waits(s1, e, f) || Ends(s1, e, f)
  {
    hide Run, Waits, Ends;
  }

  // ---- what a read returns ------------------------------------------------------------

  /** What a step returns to a reader: what it copied, and the count as it saw it last. The only
      registered file looks once more. */
  function Returning<E>(s: State<E>, e: Event<E>): seq<Result<E>>
    requires Enabled(s, e)
  {
    if e.ReadRetire? then
      [Result(s.calls[e.c].f, s.calls[e.c].buf, if |s.registered| == 1 then s.count else s.calls[e.c].rc)]
    else []
  }

  function Returns<E>(s: State<E>, trace: seq<Event<E>>, callers: Callers): seq<Result<E>>
    requires Run(s, trace, callers).Some?
    decreases |trace|
  {
    if trace == [] then []
    else
      var front := trace[..|trace| - 1];
      Returns(s, front, callers) + Returning(Run(s, front, callers).value, trace[|trace| - 1])
  }

  function ResultsOf<E>(rounds: seq<Round<E>>): seq<Result<E>> {
    if rounds == [] then [] else ResultsOf(rounds[..|rounds| - 1]) + rounds[|rounds| - 1].results
  }

  /** The results of the finished rounds and of the open one. */
  function AllResults<E>(s: State<E>): seq<Result<E>> {
    ResultsOf(s.hist.rounds) + s.hist.results
  }

  lemma ResultsAppend<E>(rounds: seq<Round<E>>, r: Round<E>)
    ensures ResultsOf(rounds + [r]) == ResultsOf(rounds) + r.results
  {
    assert (rounds + [r])[..|rounds|] == rounds;
  }

  lemma ReturningByRetire<E>(s: State<E>, c: nat)
    requires Enabled(s, ReadRetire(c))
    ensures AllResults(RetireApply(s, c)) == AllResults(s) + Returning(s, ReadRetire(c))
  {
    var s' := RetireApply(s, c);
    if |s.registered| == 1 {
      var r := s'.hist.rounds[|s.hist.rounds|];
      assert s'.hist.rounds == s.hist.rounds + [r];
      ResultsAppend(s.hist.rounds, r);
    }
    hide ResultsOf, RemoveFirst;
  }

  lemma ReturningByStep<E>(s: State<E>, e: Event<E>)
    requires Enabled(s, e)
    ensures AllResults(Apply(s, e)) == AllResults(s) + Returning(s, e)
  {
    hide ResultsOf;
    if e.ReadRetire? {
      hide RetireApply, Returning, AllResults;
      ReturningByRetire(s, e.c);
    }
  }

  /** The rounds' results are exactly what the reads of the run returned, in order. */
  lemma {:induction false} ResultsAreReturns<E>(s: State<E>, trace: seq<Event<E>>, callers: Callers)
    requires Run(s, trace, callers).Some?
    ensures AllResults(Run(s, trace, callers).value) == AllResults(s) + Returns(s, trace, callers)
    decreases |trace|
  {
    hide Apply, Enabled, Obeys, Returning, AllResults;
    if trace == [] {
    } else {
      var front := trace[..|trace| - 1];
      ResultsAreReturns(s, front, callers);
      ReturningByStep(Run(s, front, callers).value, trace[|trace| - 1]);
    }
  }

  // ---- misuse of the vector -----------------------------------------------------------

  /** A copy of records from a vector that is not allocated, or a second release. */
  predicate Misuses<E>(s: State<E>, e: Event<E>) {
    || (e.ReadCopy? && !s.vector.Live? && s.count > 0)
    || (e.ReadRetire? && |s.registered| == 1 && s.vector.Freed?)
  }

  lemma FaultByStep<E>(s: State<E>, e: Event<E>)
    requires Enabled(s, e)
    ensures Apply(s, e).hist.fault <==> s.hist.fault || Misuses(s, e)
  {
  }

  predicate MisusesAt<E>(s: State<E>, trace: seq<Event<E>>, callers: Callers, i: nat)
    requires i < |trace|
  {
    Run(s, trace[..i], callers).Some? && Misuses(Run(s, trace[..i], callers).value, trace[i])
  }

  lemma MisusesEarlier<E>(s: State<E>, trace: seq<Event<E>>, callers: Callers, i: nat)
    requires i + 1 < |trace|
    ensures MisusesAt(s, trace[..|trace| - 1], callers, i) <==> MisusesAt(s, trace, callers, i)
  {
    hide Run, Misuses;
    assert trace[..|trace| - 1][..i] == trace[..i];
  }

  /** A run has a fault if and only if one of its steps misuses a vector. */
  lemma {:induction false} FaultIffMisuse<E>(s: State<E>, trace: seq<Event<E>>, callers: Callers)
    requires Run(s, trace, callers).Some? && !s.hist.fault
    ensures Run(s, trace, callers).value.hist.fault <==>
            exists i :: 0 <= i < |trace| && MisusesAt(s, trace, callers, i)
    decreases |trace|
  {
    hide Apply, Enabled, Obeys, MisusesAt;
    if trace == [] {
    } else {
      var k := |trace| - 1;
      var front := trace[..k];
      FaultByStep(Run(s, front, callers).value, trace[k]);
      assert MisusesAt(s, trace, callers, k) <==> Misuses(Run(s, front, callers).value, trace[k]) by {
        MisusesLast(s, trace, callers);
      }
      forall i | 0 <= i < k ensures MisusesAt(s, front, callers, i) <==> MisusesAt(s, trace, callers, i) {
        MisusesEarlier(s, trace, callers, i);
      }
      FaultIffMisuse(s, front, callers);
    }
  }

  lemma MisusesLast<E>(s: State<E>, trace: seq<Event<E>>, callers: Callers)
    requires trace != [] && Run(s, trace[..|trace| - 1], callers).Some?
    ensures MisusesAt(s, trace, callers, |trace| - 1) <==>
            Misuses(Run(s, trace[..|trace| - 1], callers).value, trace[|trace| - 1])
  {
    hide Run, Misuses;
  }
}
