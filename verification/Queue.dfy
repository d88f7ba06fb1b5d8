/** The 50-slot ring buffer behind the writer and reader queues. Elements enter at `rear`,
    leave at `front`, and both indices move downward. */
module Queue {
  import opened Limits
  import opened Options

  /** The slot of the element that `k` others precede. */
  function Slot(front: nat, k: nat): nat
    requires front < Q_SIZE && k < Q_SIZE
  {
    if k <= front then front - k else front - k + Q_SIZE
  }

  class Queue<T> {
    const elem: array<Option<T>>
    var front: nat
    var rear: nat
    var count: nat

    /** The occupied slots are the `count` slots from `front` down to `rear`; an empty queue
        keeps both indices together, and every other slot is NULL. */
    ghost predicate Valid()
      reads this, elem
    {
      && elem.Length == Q_SIZE && front < Q_SIZE && rear < Q_SIZE && count <= Q_SIZE
      && rear == (if count == 0 then front else Slot(front, count - 1))
      && forall k :: 0 <= k < Q_SIZE ==> (elem[Slot(front, k)].Some? <==> k < count)
    }

    ghost function Contents(): (s: seq<T>)
      requires Valid()
      reads this, elem
      ensures |s| == count
    {
      seq(count, k requires 0 <= k < count && Valid() reads this, elem => elem[Slot(front, k)].value)
    }

    constructor ()
      ensures Valid() && fresh(elem) && Contents() == [] && front == rear == Q_SIZE - 1
    {
      elem := new Option<T>[Q_SIZE](_ => None);
      rear := Q_SIZE - 1;
      front := Q_SIZE - 1;
      count := 0;
    }

    method IsEmpty() returns (b: bool)
      requires Valid()
      ensures b <==> Contents() == []
    {
      b := count == 0;
    }

    method IsFull() returns (b: bool)
      requires Valid()
      ensures b <==> |Contents()| == Q_SIZE
    {
      b := count == Q_SIZE;
    }

    /** Appends a non-NULL pointer unless the queue is full; otherwise changes nothing. */
    method Enqueue(ptr: Option<T>) returns (rc: int)
      requires Valid()
      modifies this, elem
      ensures Valid()
      ensures rc == (if ptr.Some? && |old(Contents())| < Q_SIZE then 1 else 0)
      ensures Contents() == if rc == 1 then old(Contents()) + [ptr.value] else old(Contents())
    {
      if ptr.None? {
        return 0;
      }
      var full := IsFull();
      if full {
        return 0;
      }
      var empty := IsEmpty();
      if empty {
        elem[rear] := ptr;
        count := count + 1;
        return 1;
      }
      if rear == 0 {
        // The second full test of the source cannot succeed here.
        assert !(front == Q_SIZE - 1 && count == Q_SIZE);
        rear := Q_SIZE - 1;
        elem[rear] := ptr;
        count := count + 1;
        return 1;
      }
      rear := rear - 1;
      elem[rear] := ptr;
      count := count + 1;
      return 1;
    }

    /** Removes the oldest element; NULL exactly when the queue is empty. Removing the last
        element leaves the indices where they are. */
    method Deque() returns (ptr: Option<T>)
      requires Valid()
      modifies this, elem
      ensures Valid()
      ensures old(Contents()) == [] ==> ptr == None && Contents() == []
      ensures old(Contents()) != [] ==> ptr == Some(old(Contents())[0]) && Contents() == old(Contents())[1..]
      ensures |old(Contents())| <= 1 ==> front == old(front) && rear == old(rear)
    {
      var empty := IsEmpty();
      if empty {
        return None;
      }
      ptr := elem[front];
      elem[front] := None;
      if front == rear {
        count := count - 1;
        return;
      }
      if front == 0 {
        front := Q_SIZE - 1;
      } else {
        front := front - 1;
      }
      count := count - 1;
      assert Slot(front, Q_SIZE - 1) == old(front);
      assert forall k {:trigger Slot(front, k)} :: 0 <= k < Q_SIZE - 1 ==> Slot(front, k) == Slot(old(front), k + 1);
    }
  }

  // ---- the bounded FIFO that the ring buffer refines ----------------------------------

  datatype Call<T> = In(ptr: Option<T>) | Out

  /** The contents after a sequence of calls on an empty queue. */
  function After<T>(calls: seq<Call<T>>): seq<T> {
    if calls == [] then []
    else
      var s := After(calls[..|calls| - 1]);
      match calls[|calls| - 1]
      case In(ptr) => if ptr.Some? && |s| < Q_SIZE then s + [ptr.value] else s
      case Out => if s == [] then s else s[1..]
  }

  /** What the calls accepted, and what they returned, in order. */
  function Accepted<T>(calls: seq<Call<T>>): seq<T> {
    if calls == [] then []
    else
      var front, call := calls[..|calls| - 1], calls[|calls| - 1];
      if call.In? && call.ptr.Some? && |After(front)| < Q_SIZE then Accepted(front) + [call.ptr.value]
      else Accepted(front)
  }

  function Returned<T>(calls: seq<Call<T>>): seq<T> {
    if calls == [] then []
    else
      var front, call := calls[..|calls| - 1], calls[|calls| - 1];
      if call.Out? && After(front) != [] then Returned(front) + [After(front)[0]]
      else Returned(front)
  }

  /** First in, first out, and nothing lost: over any history of calls, what went in is what
      came out followed by what is still there, and there are never more than 50. */
  lemma {:induction false} FirstInFirstOut<T>(calls: seq<Call<T>>)
    ensures Accepted(calls) == Returned(calls) + After(calls)
    ensures |After(calls)| <= Q_SIZE
  {
    if calls == [] {
    } else {
      var front, call := calls[..|calls| - 1], calls[|calls| - 1];
      FirstInFirstOut(front);
      var q, r := After(front), Returned(front);
      if call.In? {
        assert call.ptr.Some? ==> (r + q) + [call.ptr.value] == r + (q + [call.ptr.value]);
      } else {
        assert q != [] ==> r + q == (r + [q[0]]) + q[1..];
      }
    }
  }

  /** The operations performed one after another on a real ring buffer agree with the bounded
      FIFO, at every prefix of every history. */
  method Perform<T>(calls: seq<Call<T>>) returns (q: Queue<T>, results: seq<T>)
    ensures fresh(q) && fresh(q.elem) && q.Valid()
    ensures q.Contents() == After(calls) && results == Returned(calls)
  {
    q := new Queue();
    results := [];
    assert calls[..0] == [];
    for i := 0 to |calls|
      invariant fresh(q) && fresh(q.elem) && q.Valid()
      invariant q.Contents() == After(calls[..i]) && results == Returned(calls[..i])
    {
      assert calls[..i + 1][..i] == calls[..i];
      match calls[i] {
        case In(ptr) =>
          var _ := q.Enqueue(ptr);
        case Out =>
          var ptr := q.Deque();
          if ptr.Some? {
            results := results + [ptr.value];
          }
      }
    }
    assert calls[..|calls|] == calls;
  }
}
