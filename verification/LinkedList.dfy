/** The singly linked list of the kernel module, in place: nodes, payloads, head pointer and
    node count, and a heap that knows which objects are allocated. */
module LinkedList {
  import opened Sequences

  /** Which objects are allocated. Freeing needs a live object, so nothing is freed twice. */
  class Heap {
    ghost var live: set<object>

    constructor ()
      ensures live == {}
    {
      live := {};
    }

    method Alloc(ghost o: object)
      modifies this
      ensures live == old(live) + {o}
    {
      live := live + {o};
    }

    method Free(ghost o: object)
      requires o in live
      modifies this
      ensures live == old(live) - {o}
    {
      live := live - {o};
    }
  }

  /** An allocated copy of a value; nothing writes to it afterwards. */
  class Payload<T> {
    const val: T

    constructor (val: T)
      ensures this.val == val
    {
      this.val := val;
    }
  }

  class Node<T> {
    var data: Payload?<T>
    var dataSize: nat
    var next: Node?<T>

    constructor ()
      ensures data == null && dataSize == 0 && next == null
    {
      data := null;
      dataSize := 0;
      next := null;
    }
  }

  datatype Rc = LL_SUCCESS | LL_FAILURE

  /** The pointer to the `i`-th node; NULL past the end. */
  ghost function Ptr<T>(spine: seq<Node<T>>, i: nat): Node?<T> {
    if i < |spine| then spine[i] else null
  }

  /** The nodes from `spine[0]` on are linked in order, ending in NULL. */
  ghost predicate Linked<T>(spine: seq<Node<T>>)
    reads spine
  {
    forall i :: 0 <= i < |spine| ==> spine[i].next == Ptr(spine, i + 1)
  }

  /** The i-th node points at the i-th payload. */
  ghost predicate Holds<T>(spine: seq<Node<T>>, datas: seq<Payload<T>>)
    reads spine
  {
    |spine| == |datas| && forall i :: 0 <= i < |spine| ==> spine[i].data == datas[i]
  }

  ghost function NodeSet<T>(spine: seq<Node<T>>): set<object> {
    set n | n in spine :: n as object
  }

  ghost function DataSet<T>(datas: seq<Payload<T>>): set<object> {
    set p | p in datas :: p as object
  }

  ghost function Values<T>(datas: seq<Payload<T>>): (s: seq<T>)
    ensures |s| == |datas|
  {
    seq(|datas|, i requires 0 <= i < |datas| => datas[i].val)
  }

  ghost function SizesOf<T>(spine: seq<Node<T>>): (s: seq<nat>)
    reads spine
    ensures |s| == |spine|
  {
    seq(|spine|, i requires 0 <= i < |spine| reads spine => spine[i].dataSize)
  }

  /** A well-formed chain: linked, without repetition, each node with a payload of its own,
      everything allocated. */
  ghost predicate Chain<T>(spine: seq<Node<T>>, datas: seq<Payload<T>>, live: set<object>)
    reads spine
  {
    && Linked(spine) && Holds(spine, datas)
    && NoDup(spine) && NoDup(datas)
    && NodeSet(spine) <= live && DataSet(datas) <= live
  }

  lemma IsChain<T>(s: seq<Node<T>>, ps: seq<Payload<T>>, live: set<object>)
    requires Linked(s) && Holds(s, ps) && NoDup(s) && NoDup(ps) && NodeSet(s) <= live && DataSet(ps) <= live
    ensures Chain(s, ps, live)
  {
  }

  lemma ChainCons<T>(node: Node<T>, data: Payload<T>, s: seq<Node<T>>, ps: seq<Payload<T>>, live: set<object>)
    requires Chain(s, ps, live) && node !in s && data !in ps
    requires node.next == Ptr(s, 0) && node.data == data && node in live && data in live
    ensures Chain([node] + s, [data] + ps, live)
  {
    var t, qs := [node] + s, [data] + ps;
    assert forall i :: 0 < i < |t| ==> t[i] == s[i - 1] && (i < |qs| ==> qs[i] == ps[i - 1]);
  }

  lemma ValuesCons<T>(data: Payload<T>, ps: seq<Payload<T>>)
    ensures Values([data] + ps) == [data.val] + Values(ps)
  {
  }

  lemma ValuesRemove<T>(ps: seq<Payload<T>>, i: nat)
    requires i < |ps|
    ensures Values(RemoveAt(ps, i)) == RemoveAt(Values(ps), i)
  {
  }

  lemma SizesRemove<T>(s: seq<Node<T>>, i: nat)
    requires i < |s|
    ensures SizesOf(RemoveAt(s, i)) == RemoveAt(SizesOf(s), i)
  {
  }

  /** The chain after the node at `i` took over the payload and the link of its successor. */
  lemma Spliced<T>(s: seq<Node<T>>, ps: seq<Payload<T>>, i: nat)
    requires i + 1 < |s| == |ps|
    requires forall k :: 0 <= k < |s| && k != i ==> s[k].next == Ptr(s, k + 1) && s[k].data == ps[k]
    requires s[i].next == Ptr(s, i + 2) && s[i].data == ps[i + 1]
    ensures Linked(RemoveAt(s, i + 1)) && Holds(RemoveAt(s, i + 1), RemoveAt(ps, i))
  {
    var t, qs := RemoveAt(s, i + 1), RemoveAt(ps, i);
    forall k | 0 <= k < |t| ensures t[k].next == Ptr(t, k + 1) && t[k].data == qs[k] {
      var m := if k <= i then k else k + 1;
      assert t[k] == s[m];
    }
  }

  /** Freeing one node and one payload leaves the others allocated. */
  lemma LiveWithout<T>(s: seq<Node<T>>, ps: seq<Payload<T>>, live: set<object>, j: nat, i: nat)
    requires NoDup(s) && NoDup(ps) && NodeSet(s) <= live && DataSet(ps) <= live && j < |s| && i < |ps|
    ensures var less := live - {s[j], ps[i]};
            NodeSet(RemoveAt(s, j)) <= less && DataSet(RemoveAt(ps, i)) <= less
    ensures s[j] in live && ps[i] in live && s[j] as object != ps[i]
    ensures NoDup(RemoveAt(s, j)) && NoDup(RemoveAt(ps, i))
  {
    RemoveAtDistinct(s, j);
    RemoveAtDistinct(ps, i);
    assert s[j] in s && ps[i] in ps;
    assert s[j] as object in NodeSet(s) && ps[i] as object in DataSet(ps);
    forall o | o in NodeSet(RemoveAt(s, j)) ensures o in NodeSet(s) && o != s[j] as object {
      var n :| n in RemoveAt(s, j) && n as object == o;
      assert n in s;
    }
    forall o | o in DataSet(RemoveAt(ps, i)) ensures o in DataSet(ps) && o != ps[i] as object {
      var p :| p in RemoveAt(ps, i) && p as object == o;
      assert p in ps;
    }
  }

  /** One link of a chain. */
  lemma ChainStep<T>(s: seq<Node<T>>, ps: seq<Payload<T>>, i: nat, live: set<object>)
    requires Chain(s, ps, live) && i < |s|
    ensures |s| == |ps| && s[i].data == ps[i] && s[i].next == Ptr(s, i + 1)
    ensures s[i] in live && ps[i] in live
  {
    assert s[i] in s && ps[i] in ps;
    assert s[i] as object in NodeSet(s) && ps[i] as object in DataSet(ps);
  }

  /** What a node with a successor sees before it takes over. */
  lemma BeforeSplice<T>(s: seq<Node<T>>, ps: seq<Payload<T>>, i: nat, live: set<object>)
    requires Chain(s, ps, live) && i + 1 < |s|
    ensures |s| == |ps| && forall k :: 0 <= k < |s| ==> s[k].next == Ptr(s, k + 1) && s[k].data == ps[k]
    ensures s[i].next == s[i + 1] && forall k :: 0 <= k < |s| && k != i ==> s[k] != s[i]
    ensures s[i + 1] in live && ps[i] in live && s[i + 1] as object != ps[i]
    ensures var t, qs, less := RemoveAt(s, i + 1), RemoveAt(ps, i), live - {s[i + 1], ps[i]};
            && |t| == |s| - 1 && Ptr(t, 0) == Ptr(s, 0)
            && NodeSet(t) <= less && DataSet(qs) <= less && NoDup(t) && NoDup(qs)
  {
    LiveWithout(s, ps, live, i + 1, i);
    assert s[i].next == Ptr(s, i + 1);
  }

  /** What is still allocated after the first `k` nodes and payloads of a chain were freed. */
  ghost function Remaining<T>(s: seq<Node<T>>, ps: seq<Payload<T>>, live: set<object>, k: nat): set<object>
    requires k <= |s| == |ps|
  {
    live - NodeSet(s[..k]) - DataSet(ps[..k])
  }

  lemma FreeNext<T>(s: seq<Node<T>>, ps: seq<Payload<T>>, live: set<object>, k: nat)
    requires NoDup(s) && NoDup(ps) && NodeSet(s) <= live && DataSet(ps) <= live && k < |s| == |ps|
    ensures forall j :: k <= j < |s| ==> s[j] in Remaining(s, ps, live, k) && ps[j] in Remaining(s, ps, live, k)
    ensures s[k] as object != ps[k]
    ensures Remaining(s, ps, live, k + 1) == Remaining(s, ps, live, k) - {s[k], ps[k]}
  {
    forall j | k <= j < |s| ensures s[j] in Remaining(s, ps, live, k) && ps[j] in Remaining(s, ps, live, k) {
      assert s[j] in s && ps[j] in ps && s[j] !in s[..k] && ps[j] !in ps[..k];
      assert s[j] as object in NodeSet(s) && ps[j] as object in DataSet(ps);
    }
    assert s[..k + 1] == s[..k] + [s[k]] && ps[..k + 1] == ps[..k] + [ps[k]];
    assert NodeSet(s[..k + 1]) == NodeSet(s[..k]) + {s[k]} by {
      assert forall n :: n in s[..k + 1] <==> n in s[..k] || n == s[k];
      assert s[k] in s[..k + 1];
      forall o | o in NodeSet(s[..k]) + {s[k]} ensures o in NodeSet(s[..k + 1]) {
        if o != s[k] as object {
          var n :| n in s[..k] && n as object == o;
          assert n in s[..k + 1];
        }
      }
    }
    assert DataSet(ps[..k + 1]) == DataSet(ps[..k]) + {ps[k]} by {
      assert forall p :: p in ps[..k + 1] <==> p in ps[..k] || p == ps[k];
      assert ps[k] in ps[..k + 1];
      forall o | o in DataSet(ps[..k]) + {ps[k]} ensures o in DataSet(ps[..k + 1]) {
        if o != ps[k] as object {
          var p :| p in ps[..k] && p as object == o;
          assert p in ps[..k + 1];
        }
      }
    }
  }

  /** Unlinking the node at `i`, when its predecessor already skips it. */
  lemma Unlinked<T>(s: seq<Node<T>>, ps: seq<Payload<T>>, i: nat)
    requires i < |s| == |ps|
    requires forall k :: 0 <= k < |s| && k != i - 1 && k != i ==> s[k].next == Ptr(s, k + 1)
    requires forall k :: 0 <= k < |s| ==> s[k].data == ps[k]
    requires i > 0 ==> s[i - 1].next == Ptr(s, i + 1)
    ensures Linked(RemoveAt(s, i)) && Holds(RemoveAt(s, i), RemoveAt(ps, i))
  {
    var t, qs := RemoveAt(s, i), RemoveAt(ps, i);
    forall k | 0 <= k < |t| ensures t[k].next == Ptr(t, k + 1) && t[k].data == qs[k] {
      var m := if k < i then k else k + 1;
      assert t[k] == s[m];
    }
  }

  lemma BeforeUnlink<T>(s: seq<Node<T>>, ps: seq<Payload<T>>, i: nat, live: set<object>)
    requires Chain(s, ps, live) && i < |s|
    ensures |s| == |ps| && forall k :: 0 <= k < |s| ==> s[k].next == Ptr(s, k + 1) && s[k].data == ps[k]
    ensures forall k :: 0 <= k < |s| && k != i - 1 && k != i ==> s[k] != s[i] && (i > 0 ==> s[k] != s[i - 1])
    ensures i > 0 ==> s[i - 1] != s[i]
    ensures var t, qs := RemoveAt(s, i), RemoveAt(ps, i);
            && |t| == |s| - 1 && Ptr(t, 0) == Ptr(s, if i == 0 then 1 else 0)
            && NodeSet(t) <= live && DataSet(qs) <= live && NoDup(t) && NoDup(qs) && s[i] !in t
  {
    LiveWithout(s, ps, live, i, i);
    RemoveAtDistinct(s, i);
  }

  /** What is known before the last node is cut off and freed. */
  lemma BeforeCut<T>(s: seq<Node<T>>, ps: seq<Payload<T>>, live: set<object>)
    requires Chain(s, ps, live) && |s| > 1
    ensures |s| == |ps| && forall k :: 0 <= k < |s| ==> s[k].next == Ptr(s, k + 1) && s[k].data == ps[k]
    ensures forall k :: 0 <= k < |s| && k != |s| - 2 ==> s[k] != s[|s| - 2]
    ensures Ptr(s, |s|) == null && s[|s| - 1] in live && ps[|s| - 1] in live && s[|s| - 1] as object != ps[|s| - 1]
    ensures var n := |s| - 1;
            var t, qs, less := RemoveAt(s, n), RemoveAt(ps, n), live - {s[n], ps[n]};
            && |t| == n && Ptr(t, 0) == Ptr(s, 0)
            && NodeSet(t) <= less && DataSet(qs) <= less && NoDup(t) && NoDup(qs)
  {
    LiveWithout(s, ps, live, |s| - 1, |s| - 1);
  }

  /** Fresh objects are not part of a chain, and the chain stays well-formed beside them. */
  lemma ChainBeside<T>(s: seq<Node<T>>, ps: seq<Payload<T>>, live: set<object>, node: Node<T>, data: Payload<T>)
    requires Chain(s, ps, live) && node !in live && data !in live
    ensures Chain(s, ps, live + {node} + {data}) && node !in s && data !in ps
  {
    assert forall n :: n in s ==> n as object in NodeSet(s);
    assert forall p :: p in ps ==> p as object in DataSet(ps);
  }

  /** What removing one node and one payload can change. */
  lemma Removing<T>(s: seq<Node<T>>, ps: seq<Payload<T>>, j: nat, i: nat)
    requires j < |s| && i < |ps|
    ensures |RemoveAt(s, j)| == |s| - 1
    ensures (forall n :: n in RemoveAt(s, j) ==> n in s) && forall p :: p in RemoveAt(ps, i) ==> p in ps
    ensures {s[j] as object, ps[i]} <= NodeSet(s) + DataSet(ps)
  {
    assert s[j] in s && ps[i] in ps;
    assert s[j] as object in NodeSet(s) && ps[i] as object in DataSet(ps);
  }

  /** The node takes over its successor's payload and link; its own payload and the successor
      are freed. */
  method AbsorbSuccessor<T>(heap: Heap, node: Node<T>)
    requires node.data != null && node.next != null && node.next != node
    requires node.data in heap.live && node.next in heap.live && node.data as object != node.next
    modifies heap, node`next, node`data
    ensures node.data == old(node.next.data) && node.next == old(node.next.next)
    ensures heap.live == old(heap.live) - {old(node.next), old(node.data)}
  {
    heap.Free(node.data);
    node.data := null;
    assert node.next in heap.live;
    node.data := node.next.data;
    var temp := node.next;
    node.next := node.next.next;
    heap.Free(temp);
  }

  method FreeNode<T>(heap: Heap, node: Node<T>)
    requires node.data != null && node in heap.live && node.data in heap.live && node as object != node.data
    modifies heap
    ensures heap.live == old(heap.live) - {node, node.data}
  {
    if node.data != null {
      heap.Free(node.data);
    }
    heap.Free(node);
  }

  class List<T(==)> {
    const heap: Heap
    var nodeCount: nat
    var head: Node?<T>
    ghost var spine: seq<Node<T>>
    ghost var datas: seq<Payload<T>>

    /** `nodeCount` is the reachable length; nodes and payloads are distinct and allocated. */
    ghost predicate Valid()
      reads this, heap, spine
    {
      nodeCount == |spine| && head == Ptr(spine, 0) && Chain(spine, datas, heap.live)
    }

    /** The objects that only this list may touch. */
    ghost function Owned(): set<object>
      reads this
    {
      NodeSet(spine) + DataSet(datas)
    }

    ghost function Contents(): seq<T>
      reads this
    {
      Values(datas)
    }

    constructor (heap: Heap)
      ensures Valid() && spine == [] && datas == [] && this.heap == heap
    {
      this.heap := heap;
      nodeCount := 0;
      head := null;
      spine := [];
      datas := [];
    }

    method IsEmpty() returns (b: bool)
      requires Valid()
      ensures b <==> Contents() == []
    {
      b := nodeCount == 0;
    }

    /** Pushes a node in front. Its link is overwritten, unless the list was empty: then it has
        to be NULL already. */
    method AddNode(node: Node?<T>, ghost data: Payload<T>) returns (rc: Rc)
      requires Valid()
      requires node != null ==>
                 && node !in spine && data !in datas && (spine == [] ==> node.next == null)
                 && node.data == data && node in heap.live && data in heap.live
      modifies this, if node == null then {} else {node}
      ensures Valid()
      ensures node == null ==> rc == LL_FAILURE && spine == old(spine) && datas == old(datas)
      ensures node != null ==>
                && rc == LL_SUCCESS && spine == [node] + old(spine) && datas == [data] + old(datas)
                && node.dataSize == old(node.dataSize)
    {
      hide Chain;
      if node == null {
        return LL_FAILURE;
      }
      ghost var s, ps := spine, datas;
      rc := LL_SUCCESS;
      spine, datas := [node] + s, [data] + ps;
      if head == null {
        head := node;
        nodeCount := nodeCount + 1;
        ChainCons(node, data, s, ps, heap.live);
        return;
      }
      node.next := head;
      head := node;
      nodeCount := nodeCount + 1;
      ChainCons(node, data, s, ps, heap.live);
    }

    /** Pushes a fresh copy of a value in front. */
    method AddNodeByVal(val: T, size: nat) returns (rc: Rc)
      requires Valid()
      modifies this, heap
      ensures Valid() && rc == LL_SUCCESS
      ensures |spine| > 0 && |datas| > 0 && spine[1..] == old(spine) && datas[1..] == old(datas)
      ensures fresh(spine[0]) && fresh(datas[0]) && datas[0].val == val && spine[0].dataSize == size
      ensures heap.live == old(heap.live) + {spine[0], datas[0]}
      ensures Contents() == [val] + old(Contents())
    {
      hide Chain;
      var node := new Node<T>();
      heap.Alloc(node);
      var data := new Payload(val);
      node.data := data;
      heap.Alloc(data);
      node.dataSize := size;
      ChainBeside(spine, datas, old(heap.live), node, data);
      rc := AddNode(node, data);
      assert datas == [data] + old(datas);
      ValuesCons(data, old(datas));
    }

    /** Finds the first node that holds a value; NULL when there is none. */
    method IsValuePresent(val: T) returns (node: Node?<T>)
      requires Valid()
      ensures node == null <==> val !in Contents()
      ensures node != null ==>
                exists i :: 0 <= i < |spine| && node == spine[i] && Contents()[i] == val && val !in Contents()[..i]
    {
      node := head;
      ghost var i: nat := 0;
      while node != null
        invariant 0 <= i <= |spine|
        invariant node == Ptr(spine, i)
        invariant val !in Contents()[..i]
        decreases |spine| - i
      {
        if node.data.val == val {
          assert node == spine[i] && Contents()[i] == val;
          return;
        }
        node := node.next;
        i := i + 1;
      }
      assert Contents()[..i] == Contents();
    }

    /** Deletes a member node. A node with a successor is not unlinked: it takes over the
        successor's payload and the successor is freed. Either way the values lose exactly
        the node's position, and one node and the value's payload are freed. */
    method DeleteNode(node: Node?<T>, ghost i: nat) returns (rc: Rc)
      requires Valid() && (node != null && spine != [] ==> i < |spine| && node == spine[i])
      modifies this, heap, spine`next, spine`data
      ensures Valid() && rc == LL_SUCCESS
      ensures old(spine) == [] || node == null ==>
                spine == old(spine) && datas == old(datas) && heap.live == old(heap.live)
      ensures old(spine) != [] && node != null ==>
                && datas == RemoveAt(old(datas), i)
                && Contents() == RemoveAt(old(Contents()), i)
                && var gone := if i + 1 < |old(spine)| then i + 1 else i;
                   && spine == RemoveAt(old(spine), gone)
                   && heap.live == old(heap.live) - {old(spine)[gone], old(datas)[i]}
    {
      if spine != [] && node != null {
        ValuesRemove(datas, i);
        assert node.next == Ptr(spine, i + 1);
      }
      hide Chain, NodeSet, DataSet, Values;
      rc := LL_SUCCESS;
      if head == null || node == null {
        return;
      }
      if node.next != null {
        DeleteBySuccessor(node, i);
        return;
      }
      DeleteLast(node);
    }

    method DeleteBySuccessor(node: Node<T>, ghost i: nat)
      requires Valid() && i + 1 < |spine| && node == spine[i]
      modifies this, heap, node`next, node`data
      ensures Valid()
      ensures spine == RemoveAt(old(spine), i + 1) && datas == RemoveAt(old(datas), i)
      ensures heap.live == old(heap.live) - {old(spine)[i + 1], old(datas)[i]}
    {
      hide NodeSet, DataSet, NoDup, RemoveAt, Ptr, Linked, Holds, Chain;
      ghost var s, ps := spine, datas;
      BeforeSplice(s, ps, i, heap.live);
      ghost var t, qs := RemoveAt(s, i + 1), RemoveAt(ps, i);
      AbsorbSuccessor(heap, node);
      nodeCount := nodeCount - 1;
      Spliced(s, ps, i);
      spine, datas := t, qs;
      IsChain(t, qs, heap.live);
    }

    /** The node before the last one. */
    method BeforeLast(node: Node<T>) returns (trav: Node<T>)
      requires Valid() && |spine| > 1 && node == spine[|spine| - 1]
      ensures trav == spine[|spine| - 2]
    {
      trav := head;
      ghost var k: nat := 0;
      while trav.next != node
        invariant k < |spine| - 1 && trav == spine[k]
        decreases |spine| - k
      {
        trav := trav.next;
        k := k + 1;
      }
    }

    method DeleteOnly(node: Node<T>)
      requires Valid() && |spine| == 1 && node == spine[0]
      modifies this, heap
      ensures Valid() && |old(datas)| == 1
      ensures spine == RemoveAt(old(spine), 0) && datas == RemoveAt(old(datas), 0)
      ensures heap.live == old(heap.live) - {node, old(datas)[0]}
    {
      LiveWithout(spine, datas, heap.live, 0, 0);
      FreeNode(heap, node);
      head := null;
      nodeCount := nodeCount - 1;
      spine, datas := [], [];
    }

    method CutLast(trav: Node<T>, node: Node<T>)
      requires Valid() && |spine| > 1 && trav == spine[|spine| - 2] && node == spine[|spine| - 1]
      modifies this, heap, trav`next
      ensures Valid() && |old(spine)| == |old(datas)|
      ensures spine == RemoveAt(old(spine), |old(spine)| - 1) && datas == RemoveAt(old(datas), |old(spine)| - 1)
      ensures heap.live == old(heap.live) - {node, old(datas)[|old(spine)| - 1]}
    {
      ghost var s, ps := spine, datas;
      ghost var n := |s| - 1;
      hide NodeSet, DataSet, NoDup, RemoveAt, Ptr, Linked, Holds, Chain;
      BeforeCut(s, ps, heap.live);
      ghost var t, qs := RemoveAt(s, n), RemoveAt(ps, n);
      trav.next := null;
      FreeNode(heap, node);
      nodeCount := nodeCount - 1;
      Unlinked(s, ps, n);
      spine, datas := t, qs;
      IsChain(t, qs, heap.live);
    }

    method DeleteLast(node: Node<T>)
      requires Valid() && |spine| > 0 && node == spine[|spine| - 1]
      modifies this, heap, spine`next
      ensures Valid() && |old(spine)| == |old(datas)|
      ensures spine == RemoveAt(old(spine), |old(spine)| - 1) && datas == RemoveAt(old(datas), |old(spine)| - 1)
      ensures heap.live == old(heap.live) - {node, old(datas)[|old(spine)| - 1]}
    {
      assert |spine| == |datas| && (|spine| == 1 ==> head == node);
      hide Chain, RemoveAt;
      if nodeCount == 1 && head == node {
        DeleteOnly(node);
        return;
      }
      var trav := BeforeLast(node);
      CutLast(trav, node);
    }

    method DeleteFound(node: Node<T>, ghost i: nat)
      requires Valid() && i < |spine| && node == spine[i]
      modifies this, heap, spine`next, spine`data
      ensures Valid() && |old(Contents())| > i && Contents() == RemoveAt(old(Contents()), i)
      ensures nodeCount == old(nodeCount) - 1
      ensures (forall x :: x in spine ==> x in old(spine)) && forall x :: x in datas ==> x in old(datas)
      ensures old(heap.live) - old(Owned()) <= heap.live <= old(heap.live)
    {
      ghost var s, ps := spine, datas;
      ghost var j := if i + 1 < |s| then i + 1 else i;
      assert |s| == |ps| && |Contents()| == |s|;
      Removing(s, ps, j, i);
      hide Chain, NodeSet, DataSet, RemoveAt, Values;
      var _ := DeleteNode(node, i);
    }

    /** Deletes the first node that holds a value; returns how many nodes were deleted. */
    method DeleteNodeByValue(val: T) returns (n: nat)
      requires Valid()
      modifies this, heap, spine`next, spine`data
      ensures Valid()
      ensures Contents() == RemoveFirst(old(Contents()), val)
      ensures n == if val in old(Contents()) then 1 else 0
      ensures (forall x :: x in spine ==> x in old(spine)) && forall x :: x in datas ==> x in old(datas)
      ensures old(heap.live) - old(Owned()) <= heap.live <= old(heap.live)
    {
      ghost var s, ps := spine, datas;
      ghost var vals := Values(datas);
      assert |s| == |vals|;
      hide Chain, NodeSet, DataSet, RemoveFirst;
      var count := nodeCount;
      var trav := head;
      ghost var i: nat := 0;
      while trav != null
        invariant Valid() && spine == s && datas == ps && heap.live == old(heap.live)
        invariant i <= |s| && trav == Ptr(s, i) && val !in vals[..i]
        invariant nodeCount == count
        decreases |s| - i
      {
        ChainStep(s, ps, i, heap.live);
        if trav.data.val == val {
          RemoveFirstAt(vals, val, i);
          DeleteFound(trav, i);
          return count - nodeCount;
        }
        trav := trav.next;
        i := i + 1;
      }
      assert vals[..i] == vals;
      RemoveFirstAbsent(vals, val);
      return count - nodeCount;
    }

    /** Frees the whole list: every node and payload exactly once, never reading a freed node. */
    method DeleteAll()
      requires Valid()
      modifies this, heap
      ensures Valid() && spine == [] && datas == [] && nodeCount == 0 && head == null
      ensures heap.live == old(heap.live) - old(Owned())
    {
      ghost var s, ps, live := spine, datas, heap.live;
      if nodeCount == 0 {
        return;
      }
      assert s[..|s|] == s && ps[..|ps|] == ps;
      assert Remaining(s, ps, live, 0) == live;
      var node := head;
      var next := node.next;
      ghost var k: nat := 0;
      while true
        invariant k < |s| == |ps| && heap.live == Remaining(s, ps, live, k)
        invariant node == s[k] && next == Ptr(s, k + 1)
        decreases |s| - k
      {
        FreeNext(s, ps, live, k);
        assert node in heap.live && node.data == ps[k];
        if node.data != null {
          heap.Free(node.data);
        }
        heap.Free(node);
        k := k + 1;
        assert heap.live == Remaining(s, ps, live, k);
        node := next;
        if next != null {
          FreeNext(s, ps, live, k);
          assert next in heap.live;
          next := next.next;
        }
        if node == null {
          break;
        }
      }
      nodeCount := 0;
      head := null;
      spine, datas := [], [];
    }

    method UnlinkHead(node: Node<T>)
      requires Valid() && head == node
      modifies this, node`next
      ensures Valid() && node.next == null
      ensures |old(spine)| == |old(datas)| > 0
      ensures spine == RemoveAt(old(spine), 0) && datas == RemoveAt(old(datas), 0)
    {
      hide NodeSet, DataSet, NoDup, RemoveAt, Linked, Holds, Chain;
      ghost var s, ps := spine, datas;
      BeforeUnlink(s, ps, 0, heap.live);
      ghost var t, qs := RemoveAt(s, 0), RemoveAt(ps, 0);
      head := head.next;
      nodeCount := nodeCount - 1;
      node.next := null;
      Unlinked(s, ps, 0);
      spine, datas := t, qs;
      IsChain(t, qs, heap.live);
    }

    method UnlinkAfter(prev: Node<T>, cur: Node<T>, ghost i: nat)
      requires Valid() && 0 < i < |spine| && prev == spine[i - 1] && cur == spine[i]
      modifies this, prev`next, cur`next
      ensures Valid() && cur.next == null && cur !in spine
      ensures |old(spine)| == |old(datas)|
      ensures spine == RemoveAt(old(spine), i) && datas == RemoveAt(old(datas), i)
    {
      hide NodeSet, DataSet, NoDup, RemoveAt, Ptr, Linked, Holds, Chain;
      ghost var s, ps := spine, datas;
      BeforeUnlink(s, ps, i, heap.live);
      ghost var t, qs := RemoveAt(s, i), RemoveAt(ps, i);
      prev.next := cur.next;
      cur.next := null;
      nodeCount := nodeCount - 1;
      Unlinked(s, ps, i);
      spine, datas := t, qs;
      IsChain(t, qs, heap.live);
    }

    /** Unlinks a node without freeing it. A node that is no member is reported, unless the
        list is empty. */
    method RemoveNode(node: Node?<T>, ghost i: nat) returns (rc: Rc)
      requires Valid() && (node != null && node in spine ==> i < |spine| && node == spine[i])
      modifies this, spine`next
      ensures Valid() && |old(spine)| == |old(datas)|
      ensures node != null && node in old(spine) ==>
                && rc == LL_SUCCESS && node.next == null
                && spine == RemoveAt(old(spine), i) && datas == RemoveAt(old(datas), i)
      ensures node == null || node !in old(spine) ==>
                && spine == old(spine) && datas == old(datas)
                && rc == if old(spine) == [] then LL_SUCCESS else LL_FAILURE
    {
      ghost var s, ps := spine, datas;
      assert |s| == |ps|;
      assert node != null && node in s ==> forall k :: 0 <= k < |s| && s[k] == node ==> k == i;
      hide Chain, RemoveAt, NoDup;
      if head == null {
        return LL_SUCCESS;
      }
      if node == null {
        return LL_FAILURE;
      }
      if head == node {
        assert s[0] in s;
        UnlinkHead(node);
        return LL_SUCCESS;
      }
      ChainStep(s, ps, 0, heap.live);
      var prev := head;
      var cur := head.next;
      var j := 1;
      while j < nodeCount
        invariant Valid() && spine == s && datas == ps && nodeCount == |s|
        invariant 1 <= j <= |s| && prev == s[j - 1] && cur == Ptr(s, j) && node !in s[..j]
      {
        ChainStep(s, ps, j, heap.live);
        if cur != node {
          prev := cur;
          cur := cur.next;
          j := j + 1;
        } else {
          assert s[j] in s;
          UnlinkAfter(prev, cur, j);
          node.next := null;
          return LL_SUCCESS;
        }
      }
      assert s[..j] == s;
      return LL_FAILURE;
    }
  }

  /** Deleting by copying the successor moves the payload but not the recorded data size, which
      no operation writes. The sizes stay those of the remaining values exactly when the two
      neighbours agree. */
  lemma StaleSizes<T>(s: seq<Node<T>>, i: nat)
    requires i + 1 < |s|
    ensures SizesOf(RemoveAt(s, i + 1)) == RemoveAt(SizesOf(s), i) <==> s[i].dataSize == s[i + 1].dataSize
  {
    SizesRemove(s, i + 1);
    var a, b := SizesOf(RemoveAt(s, i + 1)), RemoveAt(SizesOf(s), i);
    assert a[i] == s[i].dataSize && b[i] == s[i + 1].dataSize;
    assert forall k :: 0 <= k < |a| && k != i ==> a[k] == b[k];
  }
}
