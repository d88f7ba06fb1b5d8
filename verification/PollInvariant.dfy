/** What every run of the poll path keeps, what disciplined callers keep, and what they keep when
    the first read of each round runs alone. */
module PollInvariant {
  import opened Options
  import opened Sequences
  import opened TableSpec
  import opened PollSpec

  function Files<E>(rs: seq<Result<E>>): seq<nat> {
    seq(|rs|, i requires 0 <= i < |rs| => rs[i].f)
  }

  function Since<E>(rounds: seq<Round<E>>): seq<Upd<E>> {
    if rounds == [] then [] else Since(rounds[..|rounds| - 1]) + rounds[|rounds| - 1].since
  }

  // ---- kept by every step, disciplined or not -----------------------------------------

  /** The change list is what was applied since it was last emptied, newest first; and every
      update applied so far belongs to exactly one round, or to the pending ones. */
  ghost predicate Ledger<E>(s: State<E>) {
    && s.changes == Reverse(s.hist.since)
    && s.hist.applied == Since(s.hist.rounds) + s.hist.since
  }

  predicate InSection<E>(call: Call<E>) {
    call.Filling? || call.Capping?
  }

  /** The call inside the first section holds the semaphore, and has stored in the published
      vector as many records as it says. */
  ghost predicate Section<E>(s: State<E>) {
    && (forall c :: 0 <= c < |s.calls| && InSection(s.calls[c]) ==> s.sem == Some(c))
    && (s.sem.Some? ==>
          && s.sem.value < |s.calls| && InSection(s.calls[s.sem.value]) && s.blacklist == []
          && Progress(s, s.calls[s.sem.value]))
  }

  ghost predicate Progress<E>(s: State<E>, call: Call<E>) {
    && (call.Filling? ==> call.i <= |s.changes| && s.vector == Live(Part(s, call.i)))
    && (call.Capping? ==> s.vector == Live(s.changes) && s.count == |s.changes|)
  }

  /** Every pending record carries the "add" code. */
  ghost predicate Coded<E>(s: State<E>) {
    forall i :: 0 <= i < |s.changes| ==> s.changes[i].code == s.add
  }

  // ---- kept under the discipline ------------------------------------------------------

  ghost predicate Disjoint(a: seq<nat>, b: seq<nat>) {
    forall x :: x in a ==> x !in b
  }

  ghost predicate Lists<E>(s: State<E>) {
    && NoDup(s.registered) && NoDup(s.blacklist) && Disjoint(s.registered, s.blacklist)
    && (forall f :: f in s.hist.polled <==> f in s.registered || f in s.blacklist)
    && (forall f :: f in s.hist.ready ==> f in s.registered && s.changes != [])
  }

  /** The running read calls belong to different registered files, inside a round. */
  ghost predicate Calls<E>(s: State<E>) {
    && (forall c :: 0 <= c < |s.calls| && !s.calls[c].NoCall? ==>
          s.calls[c].f in s.registered && s.calls[c].f !in s.hist.ready && s.hist.snap.Some?)
    && (forall c, d :: 0 <= c < d < |s.calls| && !s.calls[c].NoCall? && !s.calls[d].NoCall? ==>
          s.calls[c].f != s.calls[d].f)
  }

  ghost predicate Suffix<T>(a: seq<T>, b: seq<T>) {
    |a| <= |b| && b[|b| - |a|..] == a
  }

  ghost predicate SameFiles(a: seq<nat>, b: seq<nat>) {
    forall x :: x in a <==> x in b
  }

  /** Between rounds there is nothing to copy, and beside a blacklist the vector is freed. */
  ghost predicate Between<E>(s: State<E>) {
    s.hist.snap.None? ==>
      && s.hist.results == [] && s.count == 0
      && (s.blacklist != [] ==> s.registered == [] && s.vector.Freed?)
  }

  /** A round is open from its first read to its last retirement. */
  ghost predicate RoundOk<E>(s: State<E>) {
    s.hist.snap.Some? ==>
      var first := s.hist.snap.value;
      && s.registered != [] && first != [] && Suffix(first, s.changes)
      && SameFiles(Files(s.hist.results), s.blacklist) && NoDup(Files(s.hist.results))
      && SameFiles(s.hist.group, s.registered + s.blacklist)
      && (s.blacklist == [] ==> s.changes == first && !Idle(s))
  }

  /** Outside of the first section the vector and the count are those of the round's first
      reader. Inside of it, the count is still the old one until it is stored: nothing before
      the first section of the round, in which no other call runs. */
  ghost predicate VectorOk<E>(s: State<E>) {
    s.hist.snap.Some? ==>
      var first := s.hist.snap.value;
      && s.vector.Live?
      && (s.sem.None? ==> s.vector == Live(first) && s.count == Min(|first|, MAX_FETCH))
      && (s.sem.Some? && s.sem.value < |s.calls| && s.calls[s.sem.value].Filling? ==>
            s.count == Min(|first|, MAX_FETCH) || (s.count == 0 && OnlyRunning(s, s.sem.value)))
  }

  ghost predicate OnlyRunning<E>(s: State<E>, c: nat) {
    forall d :: 0 <= d < |s.calls| && d != c ==> s.calls[d].NoCall?
  }

  /** A finished round: every registered file returned once. */
  ghost predicate GoodRound<E>(r: Round<E>) {
    NoDup(Files(r.results)) && SameFiles(Files(r.results), r.group) && Suffix(r.first, Reverse(r.since))
  }

  ghost predicate GoodRounds<E>(s: State<E>) {
    forall i :: 0 <= i < |s.hist.rounds| ==> GoodRound(s.hist.rounds[i])
  }

  ghost predicate Inv<E>(s: State<E>) {
    && Ledger(s) && Section(s) && Lists(s) && Calls(s)
    && Between(s) && RoundOk(s) && VectorOk(s) && GoodRounds(s)
  }

  // ---- kept when the first read of a round runs alone ---------------------------------

  function Share<E>(first: seq<Upd<E>>): seq<Upd<E>> {
    first[..Min(|first|, MAX_FETCH)]
  }

  /** While the vector is being replaced, only the call that replaces it runs. */
  ghost predicate Undisturbed<E>(s: State<E>) {
    s.sem.Some? ==> OnlyRunning(s, s.sem.value)
  }

  /** All that was copied or returned in the round is the first reader's snapshot, capped. */
  ghost predicate Agreement<E>(s: State<E>) {
    s.hist.snap.Some? ==>
      var share := Share(s.hist.snap.value);
      && (forall c :: 0 <= c < |s.calls| ==>
            && (s.calls[c].Copied? ==> s.calls[c].buf == share)
            && (s.calls[c].Counted? ==> s.calls[c].buf == share && s.calls[c].rc == |share|))
      && (forall r :: r in s.hist.results ==> r.buf == share && r.rc == |share|)
  }

  /** Every file of a finished round returned with the same vector. */
  ghost predicate EqualRounds<E>(s: State<E>) {
    forall i, x :: 0 <= i < |s.hist.rounds| && x in s.hist.rounds[i].results ==>
      x.buf == Share(s.hist.rounds[i].first) && x.rc == |x.buf|
  }

  ghost predicate SerialInv<E>(s: State<E>) {
    Inv(s) && Undisturbed(s) && Agreement(s) && EqualRounds(s)
  }
}
