/** The poll/read/write path as a step system over two lists of readers: those registered for
    the next update, and the blacklisted ones that have already read this one.

    A file is a number. `rt_poll` is one step, because it holds the readers' semaphore
    throughout; `rt_write` is one step, because it holds the read-write semaphore for writing.
    `rt_read` runs inside the read-write semaphore for reading. Its first section holds the
    readers' semaphore too, but a reader that has left that section copies without it, so every
    store of the section counts: the zeroed vector is published, filled record by record, and
    counted, and then the count is capped. The copy, the look at the count, and the retirement
    under the semaphore follow. */
module PollSpec {
  import opened Options
  import opened Sequences
  import opened TableSpec

  /** The update vector pointer. The last reader frees it without nulling it; what a freed
      vector still holds is stale, and a use of it is recorded as a fault. */
  datatype Vector<E> = Null | Live(recs: seq<Upd<E>>) | Freed(recs: seq<Upd<E>>)

  /** A running `rt_read` call with its local variables. A call that is filling the vector or
      about to cap the count is in the first section. */
  datatype Call<E> =
    | NoCall
    | Filling(f: nat, i: nat)
    | Capping(f: nat)
    | Snapped(f: nat)
    | Copied(f: nat, buf: seq<Upd<E>>)
    | Counted(f: nat, buf: seq<Upd<E>>, rc: int)

  datatype PollResult = PollIn | Wait | Again

  /** What a read call returned to its file. */
  datatype Result<E> = Result(f: nat, buf: seq<Upd<E>>, rc: int)

  /** A finished round: what its first reader saw, who was registered then, what was applied
      between the previous emptying of the change list and this one, and what was returned. */
  datatype Round<E> = Round(first: seq<Upd<E>>, group: seq<nat>, since: seq<Upd<E>>, results: seq<Result<E>>)

  /** History: never read by a step, except by the discipline on the callers. `polled` are the
      files that ever polled, `ready` those whose last poll returned POLLIN and that have not
      read since. `applied` are all updates, `since` those after the last emptying, oldest
      first. `fault` says whether a vector was used after it was freed, or freed twice. */
  datatype History<E> = History(
    polled: set<nat>,
    ready: set<nat>,
    applied: seq<Upd<E>>,
    since: seq<Upd<E>>,
    snap: Option<seq<Upd<E>>>,
    group: seq<nat>,
    results: seq<Result<E>>,
    rounds: seq<Round<E>>,
    fault: bool)

  /** `zero` is the entry that `kzalloc` leaves behind; `sem` is the call that holds the
      readers' semaphore between two steps. */
  datatype State<E> = State(
    add: nat,
    zero: E,
    sem: Option<nat>,
    calls: seq<Call<E>>,
    registered: seq<nat>,
    blacklist: seq<nat>,
    table: seq<E>,
    changes: seq<Upd<E>>,
    vector: Vector<E>,
    count: int,
    hist: History<E>)

  datatype Event<E> =
    | Poll(f: nat, nonblock: bool)
    | ReadBegin(c: nat, f: nat)
    | ReadFill(c: nat)
    | ReadStore(c: nat)
    | ReadCap(c: nat)
    | ReadCopy(c: nat)
    | ReadCount(c: nat)
    | ReadRetire(c: nat)
    | Put(code: nat, entry: E)

  /** A device with room for `n` simultaneous read calls. */
  function Init<E>(add: nat, zero: E, n: nat): State<E> {
    State(add, zero, None, seq(n, _ => NoCall), [], [], [], [], Null, 0,
          History({}, {}, [], [], None, [], [], [], false))
  }

  /** No read call is running. */
  predicate Idle<E>(s: State<E>) {
    forall c :: 0 <= c < |s.calls| ==> s.calls[c].NoCall?
  }

  /** `down_write` waits for all readers to leave. */
  predicate Enabled<E>(s: State<E>, e: Event<E>) {
    match e
    case Poll(_, _) => s.sem.None?
    case ReadBegin(c, _) => c < |s.calls| && s.calls[c].NoCall? && s.sem.None?
    case ReadFill(c) => c < |s.calls| && s.calls[c].Filling? && s.calls[c].i < |s.changes|
    case ReadStore(c) => c < |s.calls| && s.calls[c].Filling? && s.calls[c].i >= |s.changes|
    case ReadCap(c) => c < |s.calls| && s.calls[c].Capping?
    case ReadCopy(c) => c < |s.calls| && s.calls[c].Snapped?
    case ReadCount(c) => c < |s.calls| && s.calls[c].Copied?
    case ReadRetire(c) => c < |s.calls| && s.calls[c].Counted? && s.sem.None?
    case Put(_, _) => Idle(s)
  }

  predicate Busy<E>(s: State<E>, f: nat) {
    exists c :: 0 <= c < |s.calls| && !s.calls[c].NoCall? && s.calls[c].f == f
  }

  /** The discipline of a caller: one operation at a time per file, a read only after an own
      POLLIN, and a first poll that blocks and comes when nothing is pending or blacklisted. */
  predicate Disciplined<E>(s: State<E>, e: Event<E>) {
    match e
    case Poll(f, nonblock) =>
      !Busy(s, f) && (f !in s.hist.polled ==> !nonblock && s.blacklist == [] && s.changes == [])
    case ReadBegin(_, f) => !Busy(s, f) && f in s.hist.ready
    case _ => true
  }

  /** A read that finds the blacklist empty finds no other read running. */
  predicate Alone<E>(s: State<E>, e: Event<E>) {
    e.ReadBegin? && s.blacklist == [] ==> Idle(s)
  }

  /** What the callers of a run keep to: nothing, the discipline, or also that the first read
      of a round runs alone. */
  datatype Callers = Anyone | Polite | Serial

  predicate Obeys<E>(s: State<E>, e: Event<E>, callers: Callers) {
    && (!callers.Anyone? ==> Disciplined(s, e))
    && (callers.Serial? ==> Alone(s, e))
  }

  function PollOutcome<E>(s: State<E>, f: nat, nonblock: bool): PollResult {
    if f in s.blacklist then Wait
    else if s.changes != [] then PollIn
    else if nonblock then Again
    else Wait
  }

  /** A poll after its look at the change list. */
  function PollRest<E>(s: State<E>, f: nat, nonblock: bool, available: bool): State<E> {
    var s1 := s.(hist := s.hist.(polled := s.hist.polled + {f}));
    if f !in s.blacklist then
      if available then s1.(hist := s1.hist.(ready := s1.hist.ready + {f}))
      else if nonblock then s1
      else s1.(registered := if f in s.registered then s.registered else [f] + s.registered)
    else if available then s1
    else if s.registered == [] then s1.(registered := s.blacklist, blacklist := [])
    else s1
  }

  function PollApply<E>(s: State<E>, f: nat, nonblock: bool): State<E> {
    PollRest(s, f, nonblock, s.changes != [])
  }

  /** The vector after the first `i` records were stored in it. */
  function Part<E>(s: State<E>, i: nat): seq<Upd<E>>
    requires i <= |s.changes|
  {
    s.changes[..i] + seq(|s.changes| - i, _ => Upd(0, s.zero))
  }

  /** With an empty blacklist the zeroed vector replaces the old one, for every call to see. */
  function BeginApply<E>(s: State<E>, c: nat, f: nat): State<E>
    requires c < |s.calls|
  {
    var s1 := s.(hist := s.hist.(ready := s.hist.ready - {f},
                                 snap := if s.hist.snap.None? then Some(s.changes) else s.hist.snap,
                                 group := if s.hist.snap.None? then s.registered else s.hist.group));
    if s.blacklist == [] then
      s1.(calls := s.calls[c := Filling(f, 0)], sem := Some(c), vector := Live(Part(s, 0)))
    else s1.(calls := s.calls[c := Snapped(f)])
  }

  function Stored<E>(v: Vector<E>, i: nat, u: Upd<E>): Vector<E> {
    if v.Live? && i < |v.recs| then Live(v.recs[i := u]) else v
  }

  function FillApply<E>(s: State<E>, c: nat): State<E>
    requires Enabled(s, ReadFill(c))
  {
    var Filling(f, i) := s.calls[c];
    s.(calls := s.calls[c := Filling(f, i + 1)], vector := Stored(s.vector, i, s.changes[i]))
  }

  /** The count is stored uncapped. */
  function StoreApply<E>(s: State<E>, c: nat): State<E>
    requires Enabled(s, ReadStore(c))
  {
    s.(calls := s.calls[c := Capping(s.calls[c].f)], count := |s.changes|)
  }

  function CapApply<E>(s: State<E>, c: nat): State<E>
    requires Enabled(s, ReadCap(c))
  {
    s.(calls := s.calls[c := Snapped(s.calls[c].f)], sem := None,
       count := if s.count > MAX_FETCH then MAX_FETCH else s.count)
  }

  function Fetched<E>(v: Vector<E>, count: int): seq<Upd<E>> {
    if v.Null? then [] else CopyOut(v.recs, count)
  }

  /** `kfree`, which ignores NULL. */
  function Released<E>(v: Vector<E>): Vector<E> {
    if v.Live? then Freed(v.recs) else v
  }

  function CopyApply<E>(s: State<E>, c: nat): State<E>
    requires c < |s.calls| && s.calls[c].Snapped?
  {
    s.(calls := s.calls[c := Copied(s.calls[c].f, Fetched(s.vector, s.count))],
       hist := s.hist.(fault := s.hist.fault || (!s.vector.Live? && s.count > 0)))
  }

  /** What a read call returns: the last reader looks at the count once more. */
  function Returned<E>(s: State<E>, c: nat): int
    requires c < |s.calls| && s.calls[c].Counted?
  {
    if |s.registered| == 1 then s.count else s.calls[c].rc
  }

  function RetireApply<E>(s: State<E>, c: nat): State<E>
    requires c < |s.calls| && s.calls[c].Counted?
  {
    var f := s.calls[c].f;
    var results := s.hist.results + [Result(f, s.calls[c].buf, Returned(s, c))];
    var s1 := s.(calls := s.calls[c := NoCall],
                 registered := RemoveFirst(s.registered, f),
                 blacklist := [f] + s.blacklist);
    if |s.registered| == 1 then
      s1.(changes := [], count := 0, vector := Released(s.vector),
          hist := s.hist.(since := [], snap := None, results := [],
                          fault := s.hist.fault || s.vector.Freed?,
                          rounds := s.hist.rounds + [Round(if s.hist.snap.Some? then s.hist.snap.value else [],
                                                           s.hist.group, s.hist.since, results)]))
    else
      s1.(hist := s.hist.(results := results))
  }

  function WriteApply<E>(s: State<E>, code: nat, entry: E): State<E> {
    var news := Broadcast(s.add, Update(code, entry));
    s.(table := ApplyTable(s.add, Update(code, entry), s.table),
       changes := news + s.changes,
       hist := s.hist.(applied := s.hist.applied + news, since := s.hist.since + news))
  }

  function Apply<E>(s: State<E>, e: Event<E>): State<E>
    requires Enabled(s, e)
  {
    match e
    case Poll(f, nonblock) => PollApply(s, f, nonblock)
    case ReadBegin(c, f) => BeginApply(s, c, f)
    case ReadFill(c) => FillApply(s, c)
    case ReadStore(c) => StoreApply(s, c)
    case ReadCap(c) => CapApply(s, c)
    case ReadCopy(c) => CopyApply(s, c)
    case ReadCount(c) => s.(calls := s.calls[c := Counted(s.calls[c].f, s.calls[c].buf, s.count)])
    case ReadRetire(c) => RetireApply(s, c)
    case Put(code, entry) => WriteApply(s, code, entry)
  }

  /** The state after a run from `s`, if every step of it can be taken and the callers keep to
      what `callers` says. */
  function Run<E>(s: State<E>, trace: seq<Event<E>>, callers: Callers): Option<State<E>>
    decreases |trace|
  {
    if trace == [] then Some(s)
    else
      var e := trace[|trace| - 1];
      match Run(s, trace[..|trace| - 1], callers)
      case None => None
      case Some(s1) => if Enabled(s1, e) && Obeys(s1, e, callers) then Some(Apply(s1, e)) else None
  }

  ghost predicate Reachable<E(!new)>(s: State<E>, callers: Callers) {
    exists add: nat, zero: E, n: nat, trace: seq<Event<E>> :: Run(Init(add, zero, n), trace, callers) == Some(s)
  }
}
