/** The two lists of poll readers: those registered for the next update, and the blacklisted
    ones. They draw on one part of the heap, because nodes move between them. */
module PollReaders {
  import opened Sequences
  import opened LinkedList

  const POINTER_SIZE: nat := 8

  /** Two lists on one heap that share no node and no payload. */
  ghost predicate Beside<T>(a: List<T>, b: List<T>)
    reads a, a.heap, a.spine, b, b.spine, b.heap
  {
    a != b && a.heap == b.heap && a.Valid() && b.Valid() && a.Owned() !! b.Owned()
  }

  lemma BesideSwap<T>(a: List<T>, b: List<T>)
    requires Beside(a, b)
    ensures Beside(b, a)
  {
  }

  ghost function Objects<T>(s: seq<Node<T>>, ps: seq<Payload<T>>): set<object> {
    NodeSet(s) + DataSet(ps)
  }

  lemma ObjectsLive<T>(s: seq<Node<T>>, ps: seq<Payload<T>>, live: set<object>)
    requires Chain(s, ps, live)
    ensures Objects(s, ps) <= live
  {
  }

  /** The chain is untouched when other objects are allocated or freed. */
  lemma ChainLive<T>(s: seq<Node<T>>, ps: seq<Payload<T>>, live: set<object>, live': set<object>)
    requires Chain(s, ps, live) && Objects(s, ps) <= live'
    ensures Chain(s, ps, live')
  {
    assert NodeSet(s) <= Objects(s, ps) && DataSet(ps) <= Objects(s, ps);
  }

  lemma ObjectsCons<T>(s: seq<Node<T>>, ps: seq<Payload<T>>)
    requires |s| > 0 && |ps| > 0
    ensures Objects(s, ps) == {s[0], ps[0]} + Objects(s[1..], ps[1..])
  {
    assert s == [s[0]] + s[1..] && ps == [ps[0]] + ps[1..];
    assert forall n :: n in s <==> n == s[0] || n in s[1..];
    assert forall p :: p in ps <==> p == ps[0] || p in ps[1..];
    var l, r := Objects(s, ps), {s[0], ps[0]} + Objects(s[1..], ps[1..]);
    forall o | o in l ensures o in r {
      if n :| n in s && n as object == o {
      } else {
        var p :| p in ps && p as object == o;
      }
    }
    assert s[0] in s && ps[0] in ps;
    forall o | o in r ensures o in l {
      if o != s[0] as object && o != ps[0] as object {
        if n :| n in s[1..] && n as object == o {
          assert n in s;
        } else {
          var p :| p in ps[1..] && p as object == o;
          assert p in ps;
        }
      }
    }
  }

  lemma ObjectsShrink<T>(s: seq<Node<T>>, ps: seq<Payload<T>>, t: seq<Node<T>>, qs: seq<Payload<T>>)
    requires forall n :: n in t ==> n in s
    requires forall p :: p in qs ==> p in ps
    ensures Objects(t, qs) <= Objects(s, ps)
  {
  }

  lemma SpineLive<T>(ll: List<T>)
    requires ll.Valid()
    ensures forall k :: 0 <= k < |ll.spine| ==> ll.spine[k] as object in ll.heap.live
  {
    var s := ll.spine;
    forall k | 0 <= k < |s| ensures s[k] as object in ll.heap.live {
      assert s[k] in s && s[k] as object in NodeSet(s);
    }
  }

  /** Two empty lists on one heap. */
  method New() returns (a: List<nat>, b: List<nat>)
    ensures Beside(a, b) && a.Contents() == [] && b.Contents() == [] && a.heap.live == {}
    ensures fresh(a) && fresh(b) && fresh(a.heap)
  {
    var heap := new Heap();
    a := new List<nat>(heap);
    b := new List<nat>(heap);
  }

  /** Pushes a file on one list; the other one is not affected. */
  method Push(ll: List<nat>, f: nat, ghost other: List<nat>)
    requires Beside(ll, other)
    modifies ll, ll.heap
    ensures Beside(ll, other) && ll.Contents() == [f] + old(ll.Contents())
    ensures fresh(ll.heap.live - old(ll.heap.live))
  {
    ObjectsLive(ll.spine, ll.datas, ll.heap.live);
    ObjectsLive(other.spine, other.datas, ll.heap.live);
    hide Chain, NodeSet, DataSet, Values, List.Contents;
    assert ll.Owned() == Objects(ll.spine, ll.datas) && other.Owned() == Objects(other.spine, other.datas);
    hide Objects, List.Owned;
    var _ := ll.AddNodeByVal(f, POINTER_SIZE);
    ObjectsCons(ll.spine, ll.datas);
    ChainLive(other.spine, other.datas, old(ll.heap.live), ll.heap.live);
  }

  lemma Links<T>(s: seq<Node<T>>, ps: seq<Payload<T>>, live: set<object>)
    requires Chain(s, ps, live)
    ensures |s| == |ps| && NoDup(s) && NoDup(ps)
    ensures forall k :: 0 <= k < |s| ==> s[k].next == Ptr(s, k + 1) && s[k].data == ps[k]
  {
  }

  lemma Rechain<T>(s: seq<Node<T>>, ps: seq<Payload<T>>, live: set<object>)
    requires |s| == |ps| && NoDup(s) && NoDup(ps) && Objects(s, ps) <= live
    requires forall k :: 0 <= k < |s| ==> s[k].next == Ptr(s, k + 1) && s[k].data == ps[k]
    ensures Chain(s, ps, live)
  {
    assert NodeSet(s) <= Objects(s, ps) && DataSet(ps) <= Objects(s, ps);
  }

  /** Deletes the first node that holds a file from one list; the other one is not affected. */
  method Remove(ll: List<nat>, f: nat, ghost other: List<nat>) returns (n: nat)
    requires Beside(ll, other)
    modifies ll, ll.heap, ll.spine`next, ll.spine`data
    ensures Beside(ll, other) && ll.Contents() == RemoveFirst(old(ll.Contents()), f)
    ensures n == if f in old(ll.Contents()) then 1 else 0
    ensures ll.heap.live <= old(ll.heap.live)
  {
    ghost var s, ps, live := ll.spine, ll.datas, ll.heap.live;
    ghost var t, qs := other.spine, other.datas;
    ObjectsLive(s, ps, live);
    ObjectsLive(t, qs, live);
    NodesApart(s, ps, t, qs);
    Links(t, qs, live);
    hide Chain, NodeSet, DataSet, Values, List.Contents, RemoveFirst, NoDup, Ptr;
    assert ll.Owned() == Objects(s, ps) && other.Owned() == Objects(t, qs);
    assert other.head == Ptr(t, 0);
    hide Objects;
    n := ll.DeleteNodeByValue(f);
    ObjectsShrink(s, ps, ll.spine, ll.datas);
    Rechain(t, qs, ll.heap.live);
  }

  lemma NodesApart<T>(s: seq<Node<T>>, ps: seq<Payload<T>>, t: seq<Node<T>>, qs: seq<Payload<T>>)
    requires Objects(s, ps) !! Objects(t, qs)
    ensures forall k :: 0 <= k < |t| ==> t[k] !in s
  {
    forall k | 0 <= k < |t| ensures t[k] as object in Objects(t, qs) {
      assert t[k] in t && t[k] as object in NodeSet(t);
    }
    forall n | n in s ensures n as object in Objects(s, ps) {
      assert n as object in NodeSet(s);
    }
  }

  /** Two chains have no node in common. */
  ghost predicate Foreign<S, T>(s: seq<Node<S>>, t: seq<Node<T>>) {
    forall i, k :: 0 <= i < |s| && 0 <= k < |t| ==> s[i] as object != t[k]
  }

  lemma ForeignByHeap<S, T>(s: seq<Node<S>>, ps: seq<Payload<S>>, live: set<object>,
                            t: seq<Node<T>>, qs: seq<Payload<T>>, live': set<object>)
    requires Chain(s, ps, live) && Chain(t, qs, live') && live !! live'
    ensures Foreign(s, t)
  {
    forall i, k | 0 <= i < |s| && 0 <= k < |t| ensures s[i] as object != t[k] {
      assert s[i] in s && t[k] in t;
      assert s[i] as object in NodeSet(s) && t[k] as object in NodeSet(t);
    }
  }

  lemma ValidAgain<T>(ll: List<T>)
    requires ll.head == Ptr(ll.spine, 0) && ll.nodeCount == |ll.spine| && Chain(ll.spine, ll.datas, ll.heap.live)
    ensures ll.Valid()
  {
  }

  /** Removing a file from a reader list leaves a list on another heap well-formed. */
  method RemoveApart<X(==)>(ll: List<nat>, f: nat, ghost other: List<nat>, ghost x: List<X>) returns (n: nat)
    requires Beside(ll, other) && x.Valid() && x as object != ll && x as object != other
    requires x.heap != ll.heap && ll.heap.live !! x.heap.live
    modifies ll, ll.heap, ll.spine`next, ll.spine`data
    ensures Beside(ll, other) && ll.Contents() == RemoveFirst(old(ll.Contents()), f)
    ensures x.Valid() && ll.heap.live <= old(ll.heap.live)
  {
    ghost var s, ps, live := x.spine, x.datas, x.heap.live;
    assert x.head == Ptr(s, 0) && x.nodeCount == |s| && Chain(s, ps, live);
    assert Chain(ll.spine, ll.datas, ll.heap.live);
    hide Chain, NoDup, Ptr, Objects, NodeSet, DataSet, Beside, List.Contents, List.Valid, RemoveFirst;
    Links(s, ps, live);
    ObjectsLive(s, ps, live);
    ForeignByHeap(ll.spine, ll.datas, ll.heap.live, s, ps, live);
    n := Remove(ll, f, other);
    Rechain(s, ps, live);
    ValidAgain(x);
  }

  /** The same beside two such lists. */
  method RemoveApartFromBoth<X(==), Y(==)>(ll: List<nat>, f: nat, ghost other: List<nat>,
                                           ghost x: List<X>, ghost y: List<Y>) returns (n: nat)
    requires Beside(ll, other) && x.Valid() && x as object != ll && x as object != other
    requires x.heap != ll.heap && ll.heap.live !! x.heap.live
    requires y.Valid() && y as object != ll && y as object != other
    requires y.heap != ll.heap && ll.heap.live !! y.heap.live
    modifies ll, ll.heap, ll.spine`next, ll.spine`data
    ensures Beside(ll, other) && ll.Contents() == RemoveFirst(old(ll.Contents()), f)
    ensures x.Valid() && y.Valid() && ll.heap.live <= old(ll.heap.live)
  {
    ghost var s, ps, live := y.spine, y.datas, y.heap.live;
    assert y.head == Ptr(s, 0) && y.nodeCount == |s| && Chain(s, ps, live);
    assert Chain(ll.spine, ll.datas, ll.heap.live);
    hide Chain, NoDup, Ptr, Objects, NodeSet, DataSet, Beside, List.Contents, List.Valid, RemoveFirst;
    Links(s, ps, live);
    ObjectsLive(s, ps, live);
    ForeignByHeap(ll.spine, ll.datas, ll.heap.live, s, ps, live);
    n := RemoveApart(ll, f, other, x);
    Rechain(s, ps, live);
    ValidAgain(y);
  }

  /** Moves a whole list by its head pointer; what the target list held is overwritten. */
  method Transfer(target: List<nat>, source: List<nat>)
    requires Beside(target, source)
    modifies target, source
    ensures Beside(target, source)
    ensures target.Contents() == old(source.Contents()) && source.Contents() == []
  {
    target.head := source.head;
    target.nodeCount := source.nodeCount;
    target.spine, target.datas := source.spine, source.datas;
    source.head := null;
    source.nodeCount := 0;
    source.spine, source.datas := [], [];
  }
}
