/** The poll path on the real data structures: two lists of readers, the table, and an
    allocated vector. Each method is one atomic section of the source and does exactly what
    the corresponding step of `PollSpec` says. */
module PollDevice {
  import opened Options
  import opened Sequences
  import opened TableSpec
  import opened PollSpec
  import opened PollInvariant
  import opened LinkedList
  import opened PollReaders
  import opened PollTrace
  import opened Table

  /** A retirement without the move between the lists. */
  ghost function Finished<E>(s: State<E>, c: nat): State<E>
    requires c < |s.calls| && s.calls[c].Counted?
  {
    var s1 := if |s.registered| == 1 then s.(changes := [], count := 0, vector := Released(s.vector)) else s;
    s1.(calls := s.calls[c := NoCall], hist := RetireApply(s, c).hist)
  }

  lemma RetireParts<E>(s: State<E>, c: nat)
    requires c < |s.calls| && s.calls[c].Counted?
    ensures Finished(s, c).registered == s.registered && Finished(s, c).blacklist == s.blacklist
    ensures RetireApply(s, c) == Finished(s, c).(registered := RemoveFirst(s.registered, s.calls[c].f),
                                                 blacklist := [s.calls[c].f] + s.blacklist)
  {
  }

  class Device<E(==,!new)> {
    const calls: array<Call<E>>         // the read calls that can run at the same time
    const table: Table<E>
    const registered: List<nat>
    const blacklisted: List<nat>
    var vector: array?<Upd<E>>
    ghost var vectorFreed: bool
    var count: int
    var sem: Option<nat>                // the readers' semaphore
    var limit: nat                      // locals of the call that fills the vector
    var cursor: Node?<Record<E>>
    ghost var hist: History<E>

    /** Reader lists and table lists share no object; no change record dangles. */
    ghost predicate Valid()
      reads this, calls, vector, registered, registered.heap, registered.spine
      reads blacklisted, blacklisted.heap, blacklisted.spine
      reads table, table.rt, table.rt.heap, table.rt.spine
      reads table.changeList, table.changeList.heap, table.changeList.spine
    {
      && Beside(registered, blacklisted) && table.Valid() && table.Aliased() && Separate()
      && registered != blacklisted && registered.heap == blacklisted.heap
      && (vector != null ==> vector as object != calls)
    }

    ghost predicate Separate()
      reads table, table.rt, table.rt.heap, table.changeList.heap, registered, registered.heap
    {
      && registered as object != table.rt && registered as object != table.changeList
      && blacklisted as object != table.rt && blacklisted as object != table.changeList
      && registered.heap != table.rt.heap && registered.heap != table.changeList.heap
      && registered.heap.live !! table.rt.heap.live && registered.heap.live !! table.changeList.heap.live
    }

    ghost function Repr(): set<object> {
      {this, calls, registered, blacklisted, registered.heap, blacklisted.heap} + table.Repr()
    }

    ghost function Abs(): State<E>
      requires Valid()
      reads this, calls, vector, registered, registered.heap, registered.spine
      reads blacklisted, blacklisted.heap, blacklisted.spine
      reads table, table.rt, table.rt.heap, table.rt.spine
      reads table.changeList, table.changeList.heap, table.changeList.spine
    {
      State(table.add, table.zero, sem, calls[..], registered.Contents(), blacklisted.Contents(),
            table.Contents(), table.Changes(),
            if vector == null then Null else if vectorFreed then Freed(vector[..]) else Live(vector[..]), count, hist)
    }

    /** The call that fills the vector has walked the change list as far as it has stored. */
    ghost predicate AtCursor()
      reads this, calls, table, table.changeList
    {
      sem.Some? && sem.value < calls.Length && calls[sem.value].Filling? ==>
        && calls[sem.value].i <= limit == |table.changeList.spine|
        && cursor == Ptr(table.changeList.spine, calls[sem.value].i)
    }

    /** What every run keeps. */
    ghost predicate Consistent()
      reads this, calls, vector, registered, registered.heap, registered.spine
      reads blacklisted, blacklisted.heap, blacklisted.spine
      reads table, table.rt, table.rt.heap, table.rt.spine
      reads table.changeList, table.changeList.heap, table.changeList.spine
    {
      Valid() && Section(Abs()) && AtCursor()
    }

    constructor (add: nat, zero: E, entrySize: nat, n: nat)
      ensures Valid() && fresh(Repr()) && Abs() == Init(add, zero, n)
      ensures registered.heap.live == {} && vector == null
    {
      hide Beside, List.Contents, Table.Valid, Table.Aliased, Table.Contents, Table.Changes;
      calls := new Call<E>[n](_ => NoCall);
      var r, b := New();
      var t := new Table<E>(add, zero, entrySize);
      table, registered, blacklisted := t, r, b;
      vector, vectorFreed, count := null, false, 0;
      sem, limit, cursor := None, 0, null;
      hist := Init(add, zero, n).hist;
    }

    // ---- the first section of a read --------------------------------------------------

    lemma PartNone(s: State<E>, recs: seq<Upd<E>>)
      requires recs == seq(|s.changes|, _ => Upd(0, s.zero))
      ensures recs == Part(s, 0)
    {
    }

    /** Allocates the vector and publishes it, still zeroed. */
    method Publish()
      requires Valid()
      modifies this`vector, this`vectorFreed, this`limit
      ensures Valid() && fresh(vector) && limit == |old(Abs()).changes|
      ensures Abs() == old(Abs()).(vector := Live(Part(old(Abs()), 0)))
    {
      hide Table.Valid, Table.Aliased, Table.Contents, Table.Changes, Beside, List.Contents, List.Valid, Separate, Part;
      ghost var s := Abs();
      vector, limit := table.NewVector();
      vectorFreed := false;
      PartNone(s, vector[..]);
    }

    lemma ChangesAtSpine()
      requires Valid()
      ensures |Abs().changes| == |table.changeList.spine|
      ensures table.changeList.head == Ptr(table.changeList.spine, 0)
    {
    }

    /** Takes the semaphore, and goes to the head of the change list. */
    method Enter(c: nat)
      requires Valid() && c < |Abs().calls|
      modifies this`sem, this`cursor
      ensures Valid() && Abs() == old(Abs()).(sem := Some(c)) && cursor == Ptr(table.changeList.spine, 0)
    {
      ChangesAtSpine();
      hide Table.Valid, Table.Aliased, Table.Contents, Table.Changes, Beside, List.Contents, List.Valid, Separate, Ptr;
      cursor := table.changeList.head;
      sem := Some(c);
    }

    /** A call goes on; the history is brought up to date. */
    method SetCall(c: nat, call: Call<E>, ghost h: History<E>)
      requires Valid() && c < |Abs().calls|
      modifies this`hist, calls
      ensures Valid() && Abs() == old(Abs()).(calls := old(Abs()).calls[c := call], hist := h)
    {
      hide Table.Valid, Table.Aliased, Table.Contents, Table.Changes, Beside, List.Contents, List.Valid, Separate, Ptr;
      calls[c] := call;
      hist := h;
    }

    method NobodyBlacklisted() returns (b: bool)
      requires Valid()
      ensures b <==> Abs().blacklist == []
    {
      b := blacklisted.IsEmpty();
    }

    /** The first reader opens the section; the later ones find the blacklist non-empty. */
    method BeginRead(c: nat, f: nat)
      requires Consistent() && Enabled(Abs(), ReadBegin(c, f))
      modifies this, calls
      ensures Valid() && AtCursor() && Abs() == BeginApply(old(Abs()), c, f)
      ensures vector == old(vector) || fresh(vector)
    {
      hide Valid, Abs, AtCursor, Section, Part, Ptr;
      ghost var h := BeginApply(Abs(), c, f).hist;
      var first := NobodyBlacklisted();
      if first {
        Publish();
        Enter(c);
        SetCall(c, Filling(f, 0), h);
        AtNext(c, 0);
      } else {
        SetCall(c, Snapped(f), h);
        NobodyAtCursor();
      }
    }

    lemma NobodyAtCursor()
      requires Valid() && Abs().sem.None?
      ensures AtCursor()
    {
      FieldsAre();
    }

    lemma FieldsAre()
      requires Valid()
      ensures Abs().sem == sem && Abs().count == count && Abs().hist == hist && Abs().calls == calls[..]
    {
    }

    /** One round of the loop: a record is read through its pointer and stored in the published
        vector. */
    method FillRecord(c: nat)
      requires Consistent() && Enabled(Abs(), ReadFill(c))
      modifies this`cursor, this`hist, calls, vector
      ensures Valid() && AtCursor() && Abs() == FillApply(old(Abs()), c)
    {
      hide Valid, Abs, AtCursor, Section, Ptr, Part, Stored;
      ghost var s := Abs();
      FillingAt(c);
      FieldsAre();
      var i, f := calls[c].i, calls[c].f;
      var u, next := ReadNext(i);
      StoreRecord(i, u, next);
      SetCall(c, Filling(f, i + 1), s.hist);
      AtNext(c, i + 1);
    }

    lemma AtNext(c: nat, i: nat)
      requires Valid() && Abs().sem == Some(c) && c < |Abs().calls| && Abs().calls[c].Filling? && Abs().calls[c].i == i
      requires i <= limit == |Abs().changes| && cursor == Ptr(table.changeList.spine, i)
      ensures AtCursor()
    {
      FieldsAre();
      ChangesAtSpine();
    }

    lemma FillingAt(c: nat)
      requires Consistent() && c < |Abs().calls| && Abs().calls[c].Filling?
      ensures var i := calls[c].i;
              && sem == Some(c) && vector != null && vector.Length == |Abs().changes|
              && Abs().vector == Live(vector[..])
              && i <= |Abs().changes| == limit && cursor == Ptr(table.changeList.spine, i)
    {
      assert InSection(Abs().calls[c]);
      ChangesAtSpine();
      assert |vector[..]| == vector.Length;
      assert |Part(Abs(), calls[c].i)| == |Abs().changes|;
      hide Table.Valid, Table.Aliased, Table.Contents, Table.Changes, Beside, List.Contents, List.Valid, Separate, Ptr;
    }

    /** Reads the next record through its pointer. */
    method ReadNext(i: nat) returns (u: Upd<E>, next: Node?<Record<E>>)
      requires Valid() && i < |Abs().changes| && cursor == Ptr(table.changeList.spine, i)
      ensures u == Abs().changes[i] && next == Ptr(table.changeList.spine, i + 1)
    {
      table.AliasedIsIntact();
      hide Table.Valid, Table.Aliased, Table.Changes, Table.Intact, Ptr;
      u, next := table.NextRecord(i, cursor);
    }

    /** Stores a record in the vector, in place. */
    method StoreRecord(i: nat, u: Upd<E>, next: Node?<Record<E>>)
      requires Valid() && vector != null && Abs().vector == Live(vector[..]) && i < vector.Length
      modifies this`cursor, vector
      ensures Valid() && Abs() == old(Abs()).(vector := Stored(old(Abs()).vector, i, u)) && cursor == next
    {
      hide Table.Valid, Table.Aliased, Table.Contents, Table.Changes, Beside, List.Contents, List.Valid, Separate;
      vector[i] := u;
      cursor := next;
    }

    /** The count is stored as it is. */
    method StoreCount(c: nat)
      requires Consistent() && Enabled(Abs(), ReadStore(c))
      modifies this`count, calls
      ensures Valid() && AtCursor() && Abs() == StoreApply(old(Abs()), c)
    {
      hide Table.Valid, Table.Aliased, Table.Contents, Table.Changes, Beside, List.Contents, List.Valid, Separate, Ptr;
      hide Section, Part;
      FillingAt(c);
      count := limit;
      calls[c] := Capping(calls[c].f);
    }

    /** The count is capped, and the section ends. */
    method CapCount(c: nat)
      requires Consistent() && Enabled(Abs(), ReadCap(c))
      modifies this`count, this`sem, calls
      ensures Valid() && AtCursor() && Abs() == CapApply(old(Abs()), c)
    {
      hide Table.Valid, Table.Aliased, Table.Contents, Table.Changes, Beside, List.Contents, List.Valid, Separate, Ptr;
      if count > MAX_FETCH {
        count := MAX_FETCH;
      }
      sem := None;
      calls[c] := Snapped(calls[c].f);
    }

    // ---- copy and count ---------------------------------------------------------------

    /** `copy_to_user`, by record. Copying from a vector that is not live is a fault. */
    method CopyRecords(c: nat)
      requires Valid() && Enabled(Abs(), ReadCopy(c))
      modifies this`hist, calls
      ensures Valid() && Abs() == CopyApply(old(Abs()), c) && (old(AtCursor()) ==> AtCursor())
    {
      hide Table.Valid, Table.Aliased, Table.Contents, Table.Changes, Beside, List.Contents, List.Valid, Separate;
      var buf: seq<Upd<E>> := [];
      if vector != null && count >= 0 {
        buf := if count <= vector.Length then vector[..count] else vector[..];
      }
      assert buf == Fetched(Abs().vector, count);
      hist := CopyApply(Abs(), c).hist;
      calls[c] := Copied(calls[c].f, buf);
    }

    method CountRecords(c: nat)
      requires Valid() && Enabled(Abs(), ReadCount(c))
      modifies calls
      ensures Valid() && Abs() == Apply(old(Abs()), ReadCount(c)) && (old(AtCursor()) ==> AtCursor())
    {
      hide Table.Valid, Table.Aliased, Table.Contents, Table.Changes, Beside, List.Contents, List.Valid, Separate;
      calls[c] := Counted(calls[c].f, calls[c].buf, count);
    }

    // ---- the end of a read ------------------------------------------------------------

    /** The last reader empties the change list and frees the vector, without nulling it. */
    method LastReader()
      requires Valid()
      modifies this`count, this`vectorFreed, table.changeList, table.changeList.heap
      ensures registered.heap.live == old(registered.heap.live)
      ensures Valid() && Abs() == old(Abs()).(changes := [], count := 0, vector := Released(old(Abs()).vector))
    {
      hide Table.Valid, Table.Aliased, Table.Contents, Table.Changes, Beside, List.Contents, List.Valid;
      var _ := table.EmptyChangeList();
      count := 0;
      vectorFreed := true;
    }

    method RemoveRegistered(f: nat)
      requires Valid()
      modifies registered, registered.heap, registered.spine`next, registered.spine`data
      ensures Valid() && Abs() == old(Abs()).(registered := RemoveFirst(old(Abs()).registered, f))
      ensures registered.heap.live <= old(registered.heap.live)
    {
      hide Table.Aliased, Table.Contents, Table.Changes, Beside, List.Contents, List.Valid, RemoveFirst;
      var _ := RemoveApartFromBoth(registered, f, blacklisted, table.rt, table.changeList);
    }

    /** A file that is not registered is only reported. */
    method Unregister(f: nat)
      requires Valid()
      modifies registered, registered.heap, registered.heap.live
      ensures Valid() && Abs() == old(Abs()).(registered := RemoveFirst(old(Abs()).registered, f))
      ensures fresh(registered.heap.live - old(registered.heap.live)) && vector == old(vector)
    {
      RemoveFirstOfAbsent(f);
      SpineLive(registered);
      hide Table.Valid, Table.Aliased, Table.Contents, Table.Changes, Beside;
      hide List.Contents, List.Valid, Separate, RemoveFirst;
      var present := IsRegistered(f);
      if present {
        RemoveRegistered(f);
      }
    }

    lemma RemoveFirstOfAbsent(f: nat)
      ensures f !in registered.Contents() ==> RemoveFirst(registered.Contents(), f) == registered.Contents()
    {
      if f !in registered.Contents() {
        RemoveFirstAbsent(registered.Contents(), f);
      }
    }

    method Blacklist(f: nat)
      requires Valid()
      modifies blacklisted, blacklisted.heap
      ensures Valid() && Abs() == old(Abs()).(blacklist := [f] + old(Abs()).blacklist)
      ensures fresh(registered.heap.live - old(registered.heap.live))
    {
      hide Table.Valid, Table.Aliased, Table.Contents, Table.Changes, Beside, List.Contents, List.Valid;
      BesideSwap(registered, blacklisted);
      Push(blacklisted, f, registered);
      BesideSwap(blacklisted, registered);
    }

    lemma CountIs()
      requires Valid()
      ensures registered.nodeCount == |registered.Contents()| && blacklisted.nodeCount == |blacklisted.Contents()|
    {
    }

    /** The last registered reader empties the change list. */
    method EmptyIfLast(own: int) returns (rc: int)
      requires Valid()
      modifies this`count, this`vectorFreed, table.changeList, table.changeList.heap
      ensures registered.heap.live == old(registered.heap.live)
      ensures Valid()
      ensures |old(Abs()).registered| != 1 ==> Abs() == old(Abs()) && rc == own
      ensures |old(Abs()).registered| == 1 ==>
                && Abs() == old(Abs()).(changes := [], count := 0, vector := Released(old(Abs()).vector))
                && rc == old(count)
    {
      CountIs();
      hide Table.Valid, Table.Aliased, Table.Contents, Table.Changes, Beside, List.Contents, List.Valid, Separate;
      rc := own;
      if registered.nodeCount == 1 {
        rc := count;
        LastReader();
      }
    }

    /** Every reader moves to the blacklist, registered or not. */
    method Retire(f: nat)
      requires Valid()
      modifies registered, blacklisted, registered.heap, registered.heap.live
      ensures Valid()
      ensures Abs() == old(Abs()).(registered := RemoveFirst(old(Abs()).registered, f),
                                   blacklist := [f] + old(Abs()).blacklist)
      ensures fresh(registered.heap.live - old(registered.heap.live)) && vector == old(vector)
    {
      hide Table.Valid, Table.Aliased, Table.Contents, Table.Changes, Beside;
      hide List.Contents, List.Valid, Separate, RemoveFirst;
      Unregister(f);
      Blacklist(f);
    }

    method IsBlacklisted(f: nat) returns (b: bool)
      requires Valid()
      ensures b <==> f in Abs().blacklist
    {
      var node := blacklisted.IsValuePresent(f);
      b := node != null;
    }

    method IsRegistered(f: nat) returns (b: bool)
      requires Valid()
      ensures b <==> f in Abs().registered
    {
      var node := registered.IsValuePresent(f);
      b := node != null;
    }

    method FinishRead(c: nat) returns (rc: int)
      requires Valid() && c < |Abs().calls| && Abs().calls[c].Counted?
      modifies this`count, this`vectorFreed, this`hist, calls, table.changeList, table.changeList.heap
      ensures registered.heap.live == old(registered.heap.live)
      ensures Valid() && Abs() == Finished(old(Abs()), c) && rc == Returned(old(Abs()), c)
    {
      hide Valid, Abs, RetireApply;
      ghost var s := Abs();
      FieldsAre();
      rc := EmptyIfLast(calls[c].rc);
      SetCall(c, NoCall, RetireApply(s, c).hist);
    }

    /** The end of `rt_read`. */
    method EndRead(c: nat) returns (rc: int)
      requires Valid() && c < |Abs().calls| && Abs().calls[c].Counted?
      modifies Repr(), registered.heap.live
      ensures Valid() && Abs() == RetireApply(old(Abs()), c) && rc == Returned(old(Abs()), c)
      ensures fresh(registered.heap.live - old(registered.heap.live)) && vector == old(vector)
    {
      hide Valid, Abs, RetireApply, Finished, Returned, RemoveFirst, Separate, Beside, List.Valid, Table.Valid;
      ghost var s, live := Abs(), registered.heap.live;
      FieldsAre();
      RetireParts(s, c);
      var f := calls[c].f;
      rc := FinishRead(c);
      assert registered.heap.live == live;
      Retire(f);
    }

    // ---- polling ----------------------------------------------------------------------

    method PushRegistered(f: nat)
      requires Valid()
      modifies registered, registered.heap
      ensures Valid() && Abs() == old(Abs()).(registered := [f] + old(Abs()).registered)
      ensures fresh(registered.heap.live - old(registered.heap.live))
    {
      hide Table.Valid, Table.Aliased, Table.Contents, Table.Changes, Beside, List.Contents, List.Valid;
      Push(registered, f, blacklisted);
    }

    /** A file is registered once. */
    method Register(f: nat)
      requires Valid()
      modifies registered, registered.heap
      ensures Valid()
      ensures Abs() == old(Abs()).(registered := if f in old(Abs()).registered then old(Abs()).registered
                                                 else [f] + old(Abs()).registered)
      ensures fresh(registered.heap.live - old(registered.heap.live))
    {
      hide Table.Valid, Table.Aliased, Table.Contents, Table.Changes, Beside, List.Contents, List.Valid, Separate;
      var present := IsRegistered(f);
      if !present {
        PushRegistered(f);
      }
    }

    method Rearm()
      requires Valid()
      modifies registered, blacklisted
      ensures Valid()
      ensures Abs() == old(Abs()).(registered := old(Abs()).blacklist, blacklist := [])
    {
      hide Table.Valid, Table.Aliased, Table.Contents, Table.Changes, Beside, List.Contents, List.Valid;
      Transfer(registered, blacklisted);
    }

    /** A poll of a file that is not blacklisted. */
    method PollFresh(f: nat, nonblock: bool) returns (res: PollResult)
      requires Valid() && f !in Abs().blacklist
      modifies this`hist, registered, registered.heap
      ensures Valid() && Abs() == PollApply(old(Abs()), f, nonblock) && res == PollOutcome(old(Abs()), f, nonblock)
      ensures fresh(registered.heap.live - old(registered.heap.live))
    {
      hide Table.Valid, Table.Aliased, Table.Contents, Table.Changes, Beside, List.Contents, List.Valid, Separate;
      hist := PollApply(Abs(), f, nonblock).hist;
      var available := IsUpdated();
      if available {
        return PollIn;
      }
      if nonblock {
        return Again;
      }
      Register(f);
      return Wait;
    }

    /** A poll of a blacklisted file blocks; when nothing is pending and nobody is registered,
        it registers the whole blacklist again. */
    method PollBlacklisted(f: nat, nonblock: bool) returns (res: PollResult)
      requires Valid() && f in Abs().blacklist
      modifies this`hist, registered, blacklisted
      ensures Valid() && Abs() == PollApply(old(Abs()), f, nonblock) && res == PollOutcome(old(Abs()), f, nonblock)
    {
      hide Table.Valid, Table.Aliased, Table.Contents, Table.Changes, Beside, List.Contents, List.Valid, Separate;
      CountIs();
      hist := PollApply(Abs(), f, nonblock).hist;
      var available := IsUpdated();
      if available {
        return Wait;
      }
      if registered.nodeCount == 0 {
        Rearm();
      }
      return Wait;
    }

    method IsUpdated() returns (b: bool)
      requires Valid()
      ensures b <==> Abs().changes != []
    {
      b := table.IsUpdated();
    }

    /** `rt_poll`: POLLIN exactly to a file that is not blacklisted while an update is pending,
        EAGAIN only without blocking, and whoever waits is on one of the lists. */
    method Poll(f: nat, nonblock: bool) returns (res: PollResult)
      requires Valid()
      modifies Repr()
      ensures Valid() && Abs() == PollApply(old(Abs()), f, nonblock) && res == PollOutcome(old(Abs()), f, nonblock)
      ensures res.PollIn? <==> f !in old(Abs()).blacklist && old(Abs()).changes != []
      ensures res.Again? ==> nonblock && Abs().registered == old(Abs()).registered
      ensures res.Wait? ==> Listed(Abs(), f)
      ensures old(Abs()).changes == [] && !nonblock ==> res.Wait?
      ensures fresh(registered.heap.live - old(registered.heap.live)) && vector == old(vector)
    {
      hide Valid, Abs, PollApply, PollOutcome;
      PollTells(Abs(), f, nonblock);
      var black := IsBlacklisted(f);
      if black {
        res := PollBlacklisted(f, nonblock);
      } else {
        res := PollFresh(f, nonblock);
      }
    }

    // ---- writing ----------------------------------------------------------------------

    method ChangeTable(code: nat, entry: E)
      requires Valid()
      modifies table.Repr()
      ensures Valid() && registered.heap.live == old(registered.heap.live)
      ensures Abs() == old(Abs()).(table := ApplyTable(table.add, Update(code, entry), old(Abs()).table),
                                   changes := Broadcast(table.add, Update(code, entry)) + old(Abs()).changes)
    {
      hide Table.Valid, Table.Aliased, Table.Contents, Table.Changes, Beside;
      hide List.Contents, List.Valid, ApplyTable, Broadcast;
      var _ := table.ApplyUpdates(code, entry);
    }

    /** `rt_write`. */
    method Write(code: nat, entry: E)
      requires Valid() && Enabled(Abs(), Put(code, entry))
      modifies this`hist, table.Repr()
      ensures Valid() && Abs() == WriteApply(old(Abs()), code, entry)
      ensures registered.heap.live == old(registered.heap.live)
    {
      hide Table.Valid, Table.Aliased, Table.Contents, Table.Changes, Beside, List.Contents;
      hide List.Valid, Separate, ApplyTable, Broadcast;
      hist := WriteApply(Abs(), code, entry).hist;
      ChangeTable(code, entry);
    }
  }
}
