/** The three in-place reversals of a list. Each rewrites only `next` fields and the head
    pointer, and each leaves the same nodes, with their payloads, in exactly reversed order. */
module Reversal {
  import opened Sequences
  import opened LinkedList

  /** The node before `s[k]`; NULL before the first. */
  ghost function Back<T>(s: seq<Node<T>>, k: nat): Node?<T> {
    if 0 < k <= |s| then s[k - 1] else null
  }

  ghost function Nodes<T>(s: seq<Node<T>>): set<Node<T>> {
    set n | n in s
  }

  ghost predicate Within<T>(s: seq<Node<T>>, all: set<Node<T>>) {
    forall j :: 0 <= j < |s| ==> s[j] in all
  }

  /** From position `k` on, every node points back, and before `k` forward. */
  ghost predicate Turned<T>(s: seq<Node<T>>, k: nat)
    reads s
  {
    forall j :: 0 <= j < |s| ==> s[j].next == if j < k then Ptr(s, j + 1) else Back(s, j)
  }

  lemma ReverseDistinct<T>(s: seq<T>)
    requires NoDup(s)
    ensures NoDup(Reverse(s)) && forall x :: x in Reverse(s) <==> x in s
  {
    hide Reverse;
    ReverseLength(s);
    forall k | 0 <= k < |s| ensures Reverse(s)[k] == s[|s| - 1 - k] {
      ReverseAt(s, k);
    }
    forall x | x in s ensures x in Reverse(s) {
      var k :| 0 <= k < |s| && s[k] == x;
      assert Reverse(s)[|s| - 1 - k] == x;
    }
  }

  lemma {:induction false} ReversedLink<T>(s: seq<Node<T>>, ps: seq<Payload<T>>, k: nat)
    requires |s| == |ps| && k < |s| && s[|s| - 1 - k].next == Back(s, |s| - 1 - k)
    requires s[|s| - 1 - k].data == ps[|s| - 1 - k]
    ensures |Reverse(s)| == |Reverse(ps)| == |s|
    ensures Reverse(s)[k].next == Ptr(Reverse(s), k + 1) && Reverse(s)[k].data == Reverse(ps)[k]
  {
    hide Reverse;
    ReverseLength(s);
    ReverseAt(s, k);
    ReverseAt(ps, k);
    if k + 1 < |s| {
      ReverseAt(s, k + 1);
    }
  }

  lemma {:induction false} ReversedLive<T>(s: seq<Node<T>>, ps: seq<Payload<T>>, live: set<object>)
    requires NoDup(s) && NoDup(ps) && NodeSet(s) <= live && DataSet(ps) <= live
    ensures NoDup(Reverse(s)) && NoDup(Reverse(ps)) && NodeSet(Reverse(s)) <= live && DataSet(Reverse(ps)) <= live
  {
    hide Reverse, NoDup;
    ReverseDistinct(s);
    ReverseDistinct(ps);
    forall o | o in NodeSet(Reverse(s)) ensures o in NodeSet(s) {
      var n :| n in Reverse(s) && n as object == o;
      assert n in s;
    }
    forall o | o in DataSet(Reverse(ps)) ensures o in DataSet(ps) {
      var p :| p in Reverse(ps) && p as object == o;
      assert p in ps;
    }
  }

  /** If every node of a chain points back, the chain is the reversed one. */
  lemma {:induction false} ReversedChain<T>(s: seq<Node<T>>, ps: seq<Payload<T>>, live: set<object>)
    requires NoDup(s) && NoDup(ps) && NodeSet(s) <= live && DataSet(ps) <= live
    requires |s| == |ps| > 0 && Turned(s, 0) && Holds(s, ps)
    ensures Chain(Reverse(s), Reverse(ps), live)
    ensures |Reverse(s)| == |s| && Ptr(Reverse(s), 0) == s[|s| - 1]
  {
    hide Reverse, NoDup, NodeSet, DataSet, Ptr, Back;
    ReversedLive(s, ps, live);
    ReverseLength(s);
    ReverseLength(ps);
    forall k | 0 <= k < |s|
      ensures Reverse(s)[k].next == Ptr(Reverse(s), k + 1) && Reverse(s)[k].data == Reverse(ps)[k]
    {
      ReversedLink(s, ps, k);
    }
    assert Linked(Reverse(s)) && Holds(Reverse(s), Reverse(ps));
    IsChain(Reverse(s), Reverse(ps), live);
    ReversedFirst(s);
  }

  lemma ReversedFirst<T>(s: seq<Node<T>>)
    requires |s| > 0
    ensures Ptr(Reverse(s), 0) == s[|s| - 1]
  {
    ReverseAt(s, 0);
  }

  /** What a reversal starts from. */
  lemma Before<T>(ll: List<T>)
    requires ll.Valid()
    ensures |ll.spine| == |ll.datas| && Holds(ll.spine, ll.datas) && Turned(ll.spine, |ll.spine|)
    ensures NoDup(ll.spine) && NoDup(ll.datas)
    ensures NodeSet(ll.spine) <= ll.heap.live && DataSet(ll.datas) <= ll.heap.live
  {
  }

  lemma Distinct<T>(s: seq<Node<T>>, k: nat)
    requires NoDup(s) && k < |s|
    ensures forall j :: 0 <= j < |s| && j != k ==> s[j] != s[k]
  {
  }

  lemma PtrAt<T>(s: seq<Node<T>>, k: nat)
    ensures k < |s| ==> Ptr(s, k) == s[k]
    ensures k >= |s| ==> Ptr(s, k) == null
  {
  }

  lemma BackAt<T>(s: seq<Node<T>>, k: nat)
    requires k < |s|
    ensures Back(s, k) == if k == 0 then null else s[k - 1]
  {
  }

  /** A list with at most one node is its own reverse. */
  lemma ShortReverse<T>(ll: List<T>)
    requires |ll.spine| == |ll.datas|
    ensures |ll.spine| <= 1 ==> Reverse(ll.spine) == ll.spine && Reverse(ll.datas) == ll.datas
  {
  }

  /** What is left to do once every link points back: the head pointer. */
  ghost predicate Ready<T>(ll: List<T>)
    reads ll, ll.heap, ll.spine
  {
    && ll.nodeCount == |ll.spine| == |ll.datas| > 0 && Turned(ll.spine, 0) && Holds(ll.spine, ll.datas)
    && NoDup(ll.spine) && NoDup(ll.datas)
    && NodeSet(ll.spine) <= ll.heap.live && DataSet(ll.datas) <= ll.heap.live
  }

  method SetHead<T(==)>(ll: List<T>, last: Node<T>)
    requires Ready(ll) && last == ll.spine[|ll.spine| - 1]
    modifies ll
    ensures ll.Valid() && ll.spine == Reverse(old(ll.spine)) && ll.datas == Reverse(old(ll.datas))
    ensures ll.nodeCount == old(ll.nodeCount)
  {
    ghost var s, ps := ll.spine, ll.datas;
    ReversedChain(s, ps, ll.heap.live);
    hide Reverse, Chain, NodeSet, DataSet, NoDup, Linked, Turned, Holds;
    ll.head := last;
    ll.spine, ll.datas := Reverse(s), Reverse(ps);
  }

  twostate predicate Kept<T>(s: seq<Node<T>>)
    reads s
  {
    forall j :: 0 <= j < |s| ==> s[j].data == old(s[j].data)
  }

  /** Turns every link while walking the list from its first node; returns the last one. */
  method TurnAllByWalking<T(==)>(first: Node<T>, ghost s: seq<Node<T>>, ghost all: set<Node<T>>) returns (last: Node<T>)
    requires NoDup(s) && Turned(s, |s|) && |s| > 1 && first == s[0] && Within(s, all)
    modifies all`next
    ensures Turned(s, 0) && last == s[|s| - 1] && Kept(s)
  {
    hide NoDup, Ptr, Back;
    PtrAt(s, 1);
    Distinct(s, 0);
    BackAt(s, 0);
    var p1 := first;
    var p2 := first.next;
    p1.next := null;
    ghost var k: nat := 1;
    while true
      invariant 1 <= k < |s| && p1 == s[k - 1] && p2 == s[k]
      invariant forall j :: 0 <= j < |s| ==> s[j].next == if j < k then Back(s, j) else Ptr(s, j + 1)
      decreases |s| - k
    {
      Distinct(s, k);
      BackAt(s, k);
      PtrAt(s, k + 1);
      var p3 := p2.next;
      p2.next := p1;
      p1 := p2;
      p2 := p3;
      k := k + 1;
      if p3 == null {
        break;
      }
    }
    last := p1;
  }

  /** Walking the list and turning each link. */
  method ReverseByWalking<T(==)>(ll: List<T>)
    requires ll.Valid()
    modifies ll, Nodes(ll.spine)`next
    ensures ll.Valid() && ll.spine == Reverse(old(ll.spine)) && ll.datas == Reverse(old(ll.datas))
    ensures ll.nodeCount == old(ll.nodeCount)
  {
    Before(ll);
    ShortReverse(ll);
    if ll.nodeCount <= 1 {
      return;
    }
    PtrAt(ll.spine, 0);
    assert Within(ll.spine, Nodes(ll.spine));
    hide Reverse, Chain, NodeSet, DataSet, NoDup, Linked, Back, Ptr, Turned, Nodes, Within;
    var last := TurnAllByWalking(ll.head, ll.spine, Nodes(ll.spine));
    SetHead(ll, last);
  }

  /** The last node of a chain. */
  method LastNode<T>(first: Node<T>, ghost s: seq<Node<T>>) returns (last: Node<T>)
    requires Turned(s, |s|) && |s| > 0 && first == s[0]
    ensures last == s[|s| - 1]
  {
    last := first;
    ghost var k: nat := 0;
    while last.next != null
      invariant k < |s| && last == s[k]
      decreases |s| - k
    {
      last := last.next;
      k := k + 1;
    }
  }

  /** Turns the links after `s[k]`, innermost first; `s[k]` itself keeps its link. */
  method TurnSuccessors<T>(node: Node<T>, ghost s: seq<Node<T>>, ghost k: nat, ghost all: set<Node<T>>)
    requires NoDup(s) && Turned(s, |s|) && k + 1 < |s| && node == s[k] && Within(s, all)
    modifies all`next
    ensures Turned(s, k + 1)
    decreases |s| - k
  {
    hide NoDup;
    Distinct(s, k + 1);
    if node.next.next != null {
      TurnSuccessors(node.next, s, k + 1, all);
    }
    node.next.next := node;
  }

  /** Turns every link recursively, then cuts the old head off. */
  method TurnAllBySuccessor<T>(first: Node<T>, ghost s: seq<Node<T>>, ghost all: set<Node<T>>)
    returns (last: Node<T>)
    requires NoDup(s) && Turned(s, |s|) && |s| > 1 && first == s[0] && Within(s, all)
    modifies all`next
    ensures Turned(s, 0) && last == s[|s| - 1] && Kept(s)
  {
    hide NoDup;
    Distinct(s, 0);
    last := LastNode(first, s);
    TurnSuccessors(first, s, 0, all);
    first.next := null;
  }

  /** Turning the links recursively, then cutting the old head off. */
  method ReverseBySuccessor<T(==)>(ll: List<T>)
    requires ll.Valid()
    modifies ll, Nodes(ll.spine)`next
    ensures ll.Valid() && ll.spine == Reverse(old(ll.spine)) && ll.datas == Reverse(old(ll.datas))
    ensures ll.nodeCount == old(ll.nodeCount)
  {
    Before(ll);
    ShortReverse(ll);
    if ll.nodeCount <= 1 {
      return;
    }
    PtrAt(ll.spine, 0);
    assert Within(ll.spine, Nodes(ll.spine));
    hide Reverse, Chain, NodeSet, DataSet, NoDup, Linked, Back, Ptr, Turned, Nodes, Within;
    var last := TurnAllBySuccessor(ll.head, ll.spine, Nodes(ll.spine));
    SetHead(ll, last);
  }

  /** Turns the links from `s[k]` on, innermost first, each to the node handed down. */
  method TurnToPrevious<T>(prev: Node?<T>, node: Node<T>, ghost s: seq<Node<T>>, ghost k: nat,
                           ghost all: set<Node<T>>)
    requires NoDup(s) && Turned(s, |s|) && k < |s| && node == s[k] && prev == Back(s, k)
    requires Within(s, all)
    modifies all`next
    ensures Turned(s, k) && Kept(s)
    decreases |s| - k
  {
    hide NoDup;
    Distinct(s, k);
    if node.next != null {
      TurnToPrevious(node, node.next, s, k + 1, all);
    }
    node.next := prev;
  }

  /** Turns every link recursively, starting with NULL as the previous node. */
  method TurnAllByPrevious<T>(first: Node<T>, ghost s: seq<Node<T>>, ghost all: set<Node<T>>)
    returns (last: Node<T>)
    requires NoDup(s) && Turned(s, |s|) && |s| > 1 && first == s[0] && Within(s, all)
    modifies all`next
    ensures Turned(s, 0) && last == s[|s| - 1] && Kept(s)
  {
    last := LastNode(first, s);
    hide NoDup;
    TurnToPrevious(null, first, s, 0, all);
  }

  /** Turning the links recursively, handing the previous node down. */
  method ReverseByPrevious<T(==)>(ll: List<T>)
    requires ll.Valid()
    modifies ll, Nodes(ll.spine)`next
    ensures ll.Valid() && ll.spine == Reverse(old(ll.spine)) && ll.datas == Reverse(old(ll.datas))
    ensures ll.nodeCount == old(ll.nodeCount)
  {
    Before(ll);
    ShortReverse(ll);
    if ll.nodeCount <= 1 {
      return;
    }
    PtrAt(ll.spine, 0);
    assert Within(ll.spine, Nodes(ll.spine));
    hide Reverse, Chain, NodeSet, DataSet, NoDup, Linked, Back, Ptr, Turned, Nodes, Within;
    var last := TurnAllByPrevious(ll.head, ll.spine, Nodes(ll.spine));
    SetHead(ll, last);
  }

  lemma NodesReversed<T>(s: seq<Node<T>>)
    requires NoDup(s)
    ensures Nodes(Reverse(s)) == Nodes(s)
  {
    hide Reverse, NoDup;
    ReverseDistinct(s);
    var a, b := Nodes(Reverse(s)), Nodes(s);
    forall n | n in a ensures n in b {
      assert n in Reverse(s);
    }
    forall n | n in b ensures n in a {
      assert n in s;
    }
  }

  /** The three reversals undo each other: two of them in a row give the list back. */
  method ReverseAndBack<T(==)>(ll: List<T>, recursive: bool)
    requires ll.Valid()
    modifies ll, Nodes(ll.spine)`next
    ensures ll.Valid() && ll.spine == old(ll.spine) && ll.datas == old(ll.datas)
    ensures ll.nodeCount == old(ll.nodeCount)
  {
    ghost var s, ps := ll.spine, ll.datas;
    Before(ll);
    NodesReversed(s);
    ReverseTwice(s);
    ReverseTwice(ps);
    hide Chain, Reverse, Nodes, NoDup, NodeSet, DataSet, Holds, Turned;
    ReverseByWalking(ll);
    if recursive {
      ReverseBySuccessor(ll);
    } else {
      ReverseByPrevious(ll);
    }
  }
}
