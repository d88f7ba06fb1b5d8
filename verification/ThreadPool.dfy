/** The pool of blocked threads of the user-space programs: an array of slots, filled from the
    top and searched from the bottom. */
module ThreadPool {
  import opened Limits
  import opened Options
  import opened Sequences

  const MAX_POOL_SIZE: nat := 100

  /** `unsigned int`. */
  type Id = x: nat | x < UINT32

  const SUCCESS: int := 0
  const FAILURE: int := -1

  /** `pool_size - 1` in unsigned arithmetic, and the same value stored in an `int`. */
  function Top(size: nat): nat {
    (size + UINT32 - 1) % UINT32
  }

  function AsInt(x: nat): int {
    if x >= UINT32 / 2 then x - UINT32 else x
  }

  /** What the pool reports on its standard output. */
  datatype Answer = Added | Full | OutOfRange | Duplicate | NoPool

  // ---- the slots as values ------------------------------------------------------------

  type Slots = seq<Option<Id>>

  function LastFree(slots: Slots): int {
    if slots == [] then FAILURE
    else if slots[|slots| - 1].None? then |slots| - 1
    else LastFree(slots[..|slots| - 1])
  }

  function FirstOf(slots: Slots, id: Id): int {
    if slots == [] then FAILURE
    else if slots[0] == Some(id) then 0
    else
      var k := FirstOf(slots[1..], id);
      if k < 0 then FAILURE else k + 1
  }

  lemma {:induction false} LastFreeIs(slots: Slots, k: nat)
    requires k < |slots| && slots[k].None? && forall j :: k < j < |slots| ==> slots[j].Some?
    ensures LastFree(slots) == k
  {
    if k == |slots| - 1 {
    } else {
      LastFreeIs(slots[..|slots| - 1], k);
    }
  }

  lemma {:induction false} LastFreeNone(slots: Slots)
    ensures LastFree(slots) == FAILURE <==> forall j :: 0 <= j < |slots| ==> slots[j].Some?
    ensures LastFree(slots) != FAILURE ==> 0 <= LastFree(slots) < |slots| && slots[LastFree(slots)].None?
  {
    if slots == [] {
    } else {
      LastFreeNone(slots[..|slots| - 1]);
      if forall j :: 0 <= j < |slots| ==> slots[j].Some? {
        assert slots[|slots| - 1].Some?;
      }
    }
  }

  lemma {:induction false} FirstOfIs(slots: Slots, id: Id, k: nat)
    requires k < |slots| && slots[k] == Some(id) && Some(id) !in slots[..k]
    ensures FirstOf(slots, id) == k
  {
    if k == 0 {
    } else {
      assert slots[0] == slots[..k][0];
      assert slots[1..][..k - 1] == slots[..k][1..];
      FirstOfIs(slots[1..], id, k - 1);
    }
  }

  lemma {:induction false} FirstOfAbsent(slots: Slots, id: Id)
    ensures FirstOf(slots, id) == FAILURE <==> Some(id) !in slots
    ensures FirstOf(slots, id) != FAILURE ==>
              0 <= FirstOf(slots, id) < |slots| && slots[FirstOf(slots, id)] == Some(id)
  {
    if slots == [] {
    } else {
      FirstOfAbsent(slots[1..], id);
    }
  }

  /** The slots after `add_thread_to_pool`, its return value and its report. */
  function AfterAdd(slots: Slots, id: Id): (Slots, int, Answer) {
    if FirstOf(slots, id) >= 0 then (slots, FAILURE, Duplicate)
    else if id > Top(|slots|) then (slots, FAILURE, OutOfRange)
    else
      var k := LastFree(slots);
      if 0 <= k < |slots| then (slots[k := Some(id)], k, Added) else (slots, FAILURE, Full)
  }

  /** The slots after `remove_thread_from_pool`, and its return value. */
  function AfterRemove(slots: Slots, id: Id): (Slots, int) {
    if id > Top(|slots|) then (slots, FAILURE)
    else
      var k := FirstOf(slots, id);
      if 0 <= k < |slots| then (slots[k := None], k) else (slots, FAILURE)
  }

  predicate HighestFree(slots: Slots, k: int) {
    0 <= k < |slots| && slots[k].None? && forall j :: k < j < |slots| ==> slots[j].Some?
  }

  /** A thread that is added goes to the highest free slot, and nothing else changes. */
  lemma AddTakesHighest(slots: Slots, id: Id)
    requires AfterAdd(slots, id).2 == Added
    ensures var (after, k, _) := AfterAdd(slots, id);
            HighestFree(slots, k) && after == slots[k := Some(id)]
  {
    LastFreeHighest(slots);
    hide FirstOf, LastFree;
  }

  lemma {:induction false} LastFreeHighest(slots: Slots)
    ensures forall j :: 0 <= j < |slots| && LastFree(slots) < j ==> slots[j].Some?
    ensures 0 <= LastFree(slots) ==> LastFree(slots) < |slots| && slots[LastFree(slots)].None?
  {
    if slots == [] {
    } else {
      var front := slots[..|slots| - 1];
      LastFreeHighest(front);
      assert forall j :: 0 <= j < |front| ==> slots[j] == front[j];
    }
  }

  /** Which of the four answers an addition gets; and every answer but one leaves the pool alone
      and returns -1. With no slots at all the unsigned bound wraps, and no id is out of range. */
  lemma AddAnswers(slots: Slots, id: Id)
    requires |slots| <= MAX_POOL_SIZE
    ensures var (after, rc, answer) := AfterAdd(slots, id);
            && (answer == Duplicate <==> Some(id) in slots)
            && (answer == OutOfRange <==> Some(id) !in slots && 0 < |slots| <= id)
            && (answer == Full <==> Some(id) !in slots && (|slots| == 0 || id < |slots|) && None !in slots)
            && (answer == Added <==> Some(id) !in slots && id < |slots| && None in slots)
            && (answer != Added ==> after == slots && rc == FAILURE)
  {
    FirstOfAbsent(slots, id);
    LastFreeNone(slots);
    hide FirstOf, LastFree;
    if None in slots {
      var k :| 0 <= k < |slots| && slots[k] == None;
      assert !slots[k].Some?;
    }
  }

  datatype Call = Add(id: Id) | Remove(id: Id)

  /** The slots of a pool after a history of calls. */
  function After(size: nat, calls: seq<Call>): Slots
    decreases |calls|
  {
    if calls == [] then seq(size, _ => None)
    else
      var slots := After(size, calls[..|calls| - 1]);
      match calls[|calls| - 1]
      case Add(id) => AfterAdd(slots, id).0
      case Remove(id) => AfterRemove(slots, id).0
  }

  // ---- the pigeonhole argument --------------------------------------------------------

  /** Ids are below the pool size, and no id is in two slots. */
  ghost predicate Tidy(slots: Slots) {
    && (forall i :: 0 <= i < |slots| && slots[i].Some? ==> slots[i].value < |slots|)
    && (forall i, j :: 0 <= i < j < |slots| && slots[i].Some? ==> slots[i] != slots[j])
  }

  /** Distinct numbers below `n` are at most `n`. */
  lemma {:induction false} Pigeonhole(s: seq<nat>, n: nat)
    requires NoDup(s) && forall i :: 0 <= i < |s| ==> s[i] < n
    ensures |s| <= n
    decreases n
  {
    if s == [] {
    } else {
      assert s[0] < n;
      if k :| 0 <= k < |s| && s[k] == n - 1 {
        var t := RemoveAt(s, k);
        RemoveAtDistinct(s, k);
        forall i | 0 <= i < |t| ensures t[i] < n - 1 {
          assert t[i] == s[if i < k then i else i + 1] != s[k];
        }
        Pigeonhole(t, n - 1);
      } else {
        Pigeonhole(s, n - 1);
      }
    }
  }

  /** In a tidy pool, an id that is in range and absent always finds a slot. */
  lemma AbsentFindsSlot(slots: Slots, id: Id)
    requires Tidy(slots) && id < |slots| && Some(id) !in slots
    ensures 0 <= LastFree(slots) < |slots|
  {
    LastFreeNone(slots);
    if LastFree(slots) == FAILURE {
      var ids := seq(|slots|, i requires 0 <= i < |slots| => slots[i].value) + [id];
      assert forall i :: 0 <= i < |slots| ==> slots[i] == Some(ids[i]);
      assert |ids| == |slots| + 1 && NoDup(ids);
      Pigeonhole(ids, |slots|);
      assert false;
    }
  }

  lemma AddTidy(slots: Slots, id: Id)
    requires Tidy(slots)
    ensures Tidy(AfterAdd(slots, id).0)
  {
    FirstOfAbsent(slots, id);
    LastFreeNone(slots);
  }

  /** Over every history of calls on a pool of any size, the slots stay tidy. */
  lemma {:induction false} HistoryTidy(size: nat, calls: seq<Call>)
    ensures |After(size, calls)| == size && Tidy(After(size, calls))
    decreases |calls|
  {
    hide AfterAdd, AfterRemove;
    if calls == [] {
    } else {
      var front := calls[..|calls| - 1];
      HistoryTidy(size, front);
      match calls[|calls| - 1] {
        case Add(id) =>
          AddTidy(After(size, front), id);
          assert |AfterAdd(After(size, front), id).0| == size by { AddedLength(After(size, front), id); }
        case Remove(id) => RemoveTidy(After(size, front), id);
      }
    }
  }

  lemma AddedLength(slots: Slots, id: Id)
    ensures |AfterAdd(slots, id).0| == |slots|
  {
  }

  lemma RemoveTidy(slots: Slots, id: Id)
    requires Tidy(slots)
    ensures |AfterRemove(slots, id).0| == |slots| && Tidy(AfterRemove(slots, id).0)
  {
    hide FirstOf;
  }

  /** After every history, adding an id reports "full" exactly when the pool has no slots at
      all; with 1 to 100 slots it succeeds exactly when the id is absent and in range. */
  lemma FullIffNoSlots(size: nat, calls: seq<Call>, id: Id)
    requires size <= MAX_POOL_SIZE
    ensures var slots := After(size, calls);
            && (AfterAdd(slots, id).2 == Full <==> size == 0)
            && (AfterAdd(slots, id).2 == Added <==> Some(id) !in slots && id < size)
  {
    HistoryTidy(size, calls);
    hide After, FirstOf, LastFree;
    var slots := After(size, calls);
    FirstOfAbsent(slots, id);
    LastFreeNone(slots);
    if Some(id) !in slots && id < size {
      AbsentFindsSlot(slots, id);
    }
  }

  /** Removing what was just added restores the pool, slot by slot. */
  lemma RemoveUndoesAdd(slots: Slots, id: Id)
    requires |slots| > 0 && |slots| <= MAX_POOL_SIZE && AfterAdd(slots, id).2 == Added
    ensures AfterRemove(AfterAdd(slots, id).0, id) == (slots, AfterAdd(slots, id).1)
  {
    hide FirstOf, LastFree;
    var k := LastFree(slots);
    FirstOfAbsent(slots, id);
    LastFreeNone(slots);
    FirstOfIs(slots[k := Some(id)], id, k);
    assert slots[k := Some(id)][k := None] == slots;
  }

  /** Removing any thread of the pool frees its slot, and only that, and returns the slot. */
  lemma RemoveFrees(slots: Slots, id: Id, k: nat)
    requires Tidy(slots) && |slots| <= MAX_POOL_SIZE && k < |slots| && slots[k] == Some(id)
    ensures AfterRemove(slots, id) == (slots[k := None], k)
    ensures Some(id) !in AfterRemove(slots, id).0
  {
    FirstOfAbsent(slots, id);
    hide FirstOf;
    assert FirstOf(slots, id) == k;
  }

  /** A thread that is not in the pool, or out of its range, is not removed. */
  lemma RemoveAbsent(slots: Slots, id: Id)
    requires |slots| <= MAX_POOL_SIZE && (Some(id) !in slots || 0 < |slots| <= id)
    ensures AfterRemove(slots, id) == (slots, FAILURE)
  {
    FirstOfAbsent(slots, id);
    hide FirstOf;
  }

  // ---- the array ----------------------------------------------------------------------

  class Thread {
    const selfid: Id

    constructor (selfid: Id)
      ensures this.selfid == selfid
    {
      this.selfid := selfid;
    }
  }

  class Pool {
    var poolSize: nat
    const slots: array<Thread?>

    /** A pool size above 100 would run past the array. */
    ghost predicate Valid()
      reads this
    {
      slots.Length == MAX_POOL_SIZE && poolSize <= MAX_POOL_SIZE
    }

    ghost function View(): (s: Slots)
      requires Valid()
      reads this, slots
      ensures |s| == poolSize
    {
      seq(poolSize, i requires 0 <= i < poolSize && Valid() reads this, slots =>
        if slots[i] == null then None else Some(slots[i].selfid))
    }

    constructor (poolSize: nat)
      requires poolSize <= MAX_POOL_SIZE
      ensures Valid() && fresh(slots) && this.poolSize == poolSize && View() == After(poolSize, [])
    {
      this.poolSize := poolSize;
      slots := new Thread?[MAX_POOL_SIZE](_ => null);
    }

    method IsThreadIn(thid: Id) returns (i: int)
      requires Valid()
      ensures i == FirstOf(View(), thid)
    {
      i := 0;
      while i < poolSize
        invariant 0 <= i <= poolSize
        invariant Some(thid) !in View()[..i]
      {
        if slots[i] != null && slots[i].selfid == thid {
          FirstOfIs(View(), thid, i);
          return;
        }
        i := i + 1;
      }
      assert View()[..i] == View();
      FirstOfAbsent(View(), thid);
      return FAILURE;
    }

    method GetEmptySlot() returns (i: int)
      requires Valid()
      ensures i == LastFree(View())
    {
      i := AsInt(Top(poolSize));
      while i >= 0
        invariant -1 <= i < poolSize
        invariant forall j :: i < j < poolSize ==> View()[j].Some?
      {
        if slots[i] == null {
          LastFreeIs(View(), i);
          return;
        }
        i := i - 1;
      }
      LastFreeNone(View());
      return FAILURE;
    }

    method PoolAdd(thread: Thread) returns (loc: int, answer: Answer)
      requires Valid() && FirstOf(View(), thread.selfid) == FAILURE
      modifies slots
      ensures Valid() && (View(), loc, answer) == AfterAdd(old(View()), thread.selfid)
      ensures answer == Added ==> HighestFree(old(View()), loc) && View() == old(View())[loc := Some(thread.selfid)]
    {
      hide FirstOf, LastFree, HighestFree;
      ghost var before := View();
      if AfterAdd(before, thread.selfid).2 == Added {
        AddTakesHighest(before, thread.selfid);
      }
      if thread.selfid > Top(poolSize) {
        return -1, OutOfRange;
      }
      loc := GetEmptySlot();
      LastFreeNone(View());
      if loc > -1 {
        slots[loc] := thread;
        assert View() == old(View())[loc := Some(thread.selfid)];
        answer := Added;
      } else {
        return FAILURE, Full;
      }
    }

    method RemoveThread(thread: Thread) returns (loc: int)
      requires Valid()
      modifies slots
      ensures Valid() && (View(), loc) == AfterRemove(old(View()), thread.selfid)
    {
      hide FirstOf;
      loc := -1;
      if thread.selfid > Top(poolSize) {
        return FAILURE;
      }
      loc := IsThreadIn(thread.selfid);
      FirstOfAbsent(View(), thread.selfid);
      if loc > -1 {
        slots[loc] := null;
        assert View() == old(View())[loc := None];
      }
    }
  }

  method AddThread(pool: Pool?, thread: Thread) returns (rc: int, answer: Answer)
    requires pool != null ==> pool.Valid()
    modifies if pool != null then {pool.slots} else {}
    ensures pool == null ==> rc == -1 && answer == NoPool
    ensures pool != null ==> pool.Valid() && (pool.View(), rc, answer) == AfterAdd(old(pool.View()), thread.selfid)
    ensures answer == Added ==> HighestFree(old(pool.View()), rc)
                                && pool.View() == old(pool.View())[rc := Some(thread.selfid)]
  {
    hide FirstOf, LastFree, HighestFree;
    if pool == null {
      return -1, NoPool;
    }
    rc := SUCCESS;
    var i := pool.IsThreadIn(thread.selfid);
    FirstOfAbsent(pool.View(), thread.selfid);
    if i < 0 {
      rc, answer := pool.PoolAdd(thread);
    } else {
      return FAILURE, Duplicate;
    }
  }

  /** A history of calls on a real pool agrees with the specification. */
  method Perform(size: nat, calls: seq<Call>) returns (pool: Pool)
    requires size <= MAX_POOL_SIZE
    ensures fresh(pool) && fresh(pool.slots) && pool.Valid() && pool.View() == After(size, calls)
  {
    pool := new Pool(size);
    assert calls[..0] == [];
    for i := 0 to |calls|
      invariant fresh(pool) && fresh(pool.slots) && pool.Valid() && pool.View() == After(size, calls[..i])
    {
      assert calls[..i + 1][..i] == calls[..i];
      var thread := new Thread(calls[i].id);
      match calls[i] {
        case Add(_) =>
          var _, _ := AddThread(pool, thread);
        case Remove(_) =>
          var _ := pool.RemoveThread(thread);
      }
    }
    assert calls[..|calls|] == calls;
  }
}
