/** The table with its change list. A change record does not copy the entry: it points at the
    payload of the table node, so emptying the table can leave it dangling.

    The kernel heap is kept in parts, one for each list; an entry may be read while it is live
    in the table's part. */
module Table {
  import opened LinkedList
  import opened TableSpec

  /** `rt_preserve_updates_t`: an operation code and a pointer into the table. */
  datatype Record<E> = Record(code: nat, entry: Payload<E>)

  const RECORD_SIZE: nat := 16

  /** The records as updates, read through their pointers. */
  ghost function Read<E>(records: seq<Payload<Record<E>>>): (us: seq<Upd<E>>)
    ensures |us| == |records|
  {
    seq(|records|, i requires 0 <= i < |records| => Upd(records[i].val.code, records[i].val.entry.val))
  }

  /** The i-th change record points at the i-th payload of the table. */
  ghost predicate PointsInto<E>(records: seq<Payload<Record<E>>>, entries: seq<Payload<E>>) {
    |records| <= |entries| && forall i :: 0 <= i < |records| ==> records[i].val.entry == entries[i]
  }

  /** Every record's entry is still allocated. */
  ghost predicate Readable<E>(records: seq<Payload<Record<E>>>, live: set<object>) {
    forall i :: 0 <= i < |records| ==> records[i].val.entry in live
  }

  lemma ReadCons<E>(r: Payload<Record<E>>, records: seq<Payload<Record<E>>>)
    ensures Read([r] + records) == [Upd(r.val.code, r.val.entry.val)] + Read(records)
  {
  }

  lemma AliasedReadable<E>(records: seq<Payload<Record<E>>>, entries: seq<Payload<E>>, live: set<object>)
    requires PointsInto(records, entries) && DataSet(entries) <= live
    ensures Readable(records, live)
  {
    forall i | 0 <= i < |records| ensures records[i].val.entry in live {
      assert entries[i] in entries && entries[i] as object in DataSet(entries);
    }
  }

  /** Freeing the table's payloads leaves every record dangling. */
  lemma NoneReadable<E>(records: seq<Payload<Record<E>>>, entries: seq<Payload<E>>, live: set<object>)
    requires PointsInto(records, entries) && DataSet(entries) !! live
    ensures forall i :: 0 <= i < |records| ==> records[i].val.entry !in live
    ensures Readable(records, live) <==> records == []
  {
    forall i | 0 <= i < |records| ensures records[i].val.entry !in live {
      assert entries[i] in entries && entries[i] as object in DataSet(entries);
    }
    if records != [] {
      assert records[0].val.entry !in live;
    }
  }

  class Table<E(==)> {
    const add: nat
    const zero: E                       // what `kzalloc` leaves in an entry
    const entrySize: nat
    const rt: List<E>
    const changeList: List<Record<E>>

    ghost predicate Valid()
      reads this, rt, rt.heap, rt.spine, changeList, changeList.heap, changeList.spine
    {
      && rt as object != changeList && rt.heap != changeList.heap
      && rt.Valid() && changeList.Valid()
    }

    /** The objects whose fields change; the nodes of both lists never do. */
    ghost function Repr(): set<object>
    {
      {rt, rt.heap, changeList, changeList.heap}
    }

    ghost function Contents(): seq<E>
      reads rt
    {
      rt.Contents()
    }

    ghost function Changes(): seq<Upd<E>>
      reads changeList
    {
      Read(changeList.datas)
    }

    /** The change list is an aliased prefix of the table. */
    ghost predicate Aliased()
      reads rt, changeList
    {
      PointsInto(changeList.datas, rt.datas)
    }

    /** No change record dangles. */
    ghost predicate Intact()
      reads rt, rt.heap, changeList
    {
      Readable(changeList.datas, rt.heap.live)
    }

    lemma AliasedIsIntact()
      requires Valid() && Aliased()
      ensures Intact()
    {
      AliasedReadable(changeList.datas, rt.datas, rt.heap.live);
    }

    constructor (add: nat, zero: E, entrySize: nat)
      ensures Valid() && Aliased() && fresh(Repr()) && Contents() == [] && Changes() == []
      ensures this.add == add && this.zero == zero
    {
      hide Chain, Read, Values;
      assert Read<E>([]) == [] && Values<E>([]) == [];
      var tableHeap := new Heap();
      var changeHeap := new Heap();
      var entries := new List<E>(tableHeap);
      var changes := new List<Record<E>>(changeHeap);
      this.add, this.zero, this.entrySize := add, zero, entrySize;
      rt, changeList := entries, changes;
    }

    /** Pushes an entry and a record that points at it. */
    method AddEntryByVal(entry: E) returns (rc: Rc)
      requires Valid()
      modifies Repr()
      ensures Valid() && rc == LL_SUCCESS
      ensures Contents() == [entry] + old(Contents())
      ensures Changes() == [Upd(add, entry)] + old(Changes())
      ensures old(Aliased()) ==> Aliased()
      ensures old(Intact()) ==> Intact()
      ensures fresh(rt.heap.live - old(rt.heap.live))
      ensures fresh(changeList.heap.live - old(changeList.heap.live))
    {
      hide Chain, NodeSet, DataSet, Values, Read;
      rc := rt.AddNodeByVal(entry, entrySize);
      ghost var records := changeList.datas;
      ChainStep(rt.spine, rt.datas, 0, rt.heap.live);
      var msg := Record(add, rt.head.data);
      var _ := changeList.AddNodeByVal(msg, RECORD_SIZE);
      assert changeList.datas == [changeList.datas[0]] + records;
      ReadCons(changeList.datas[0], records);
    }

    /** Only "add" changes the table; every other code is ignored. */
    method ApplyUpdates(code: nat, entry: E) returns (rc: int)
      requires Valid()
      modifies Repr()
      ensures Valid() && rc == 0
      ensures Contents() == ApplyTable(add, Update(code, entry), old(Contents()))
      ensures Changes() == Broadcast(add, Update(code, entry)) + old(Changes())
      ensures old(Aliased()) ==> Aliased()
      ensures old(Intact()) ==> Intact()
      ensures fresh(rt.heap.live - old(rt.heap.live))
      ensures fresh(changeList.heap.live - old(changeList.heap.live))
    {
      if code == add {
        var _ := AddEntryByVal(entry);
      }
      rc := 0;
    }

    /** Frees the table and leaves the change list alone, so afterwards a record dangles unless
        there is none. */
    method Purge()
      requires Valid()
      modifies rt, rt.heap
      ensures Valid() && Contents() == []
      ensures changeList.datas == old(changeList.datas) && Changes() == old(Changes())
      ensures old(Aliased()) ==> (Aliased() <==> old(Changes()) == []) && (Intact() <==> old(Changes()) == [])
    {
      hide Chain, NodeSet, DataSet;
      ghost var entries := rt.datas;
      rt.DeleteAll();
      if old(Aliased()) {
        assert DataSet(entries) !! rt.heap.live;
        NoneReadable(changeList.datas, entries, rt.heap.live);
      }
    }

    method EmptyChangeList() returns (rc: int)
      requires Valid()
      modifies changeList, changeList.heap
      ensures Valid() && rc == 0 && Contents() == old(Contents()) && Changes() == [] && Aliased()
      ensures changeList.heap.live <= old(changeList.heap.live)
    {
      hide Chain, NodeSet, DataSet;
      changeList.DeleteAll();
      rc := 0;
    }

    /** The link, the payload and the live entry that the `i`-th record's node gives access to. */
    lemma RecordAt(i: nat)
      requires Valid() && Intact() && i < |changeList.spine|
      ensures |changeList.spine| == |changeList.datas|
      ensures changeList.spine[i].data == changeList.datas[i]
      ensures changeList.spine[i].next == Ptr(changeList.spine, i + 1)
      ensures Ptr(changeList.spine, i) == changeList.spine[i]
      ensures changeList.datas[i].val.entry in rt.heap.live
      ensures Changes()[i] == Upd(changeList.datas[i].val.code, changeList.datas[i].val.entry.val)
    {
      ChainStep(changeList.spine, changeList.datas, i, changeList.heap.live);
    }

    /** A fresh zeroed vector with one element for each record. */
    method NewVector() returns (vector: array<Upd<E>>, count: nat)
      requires Valid()
      ensures fresh(vector) && count == |Changes()| && vector[..] == seq(count, _ => Upd(0, zero))
    {
      assert changeList.nodeCount == |changeList.spine| == |Changes()|;
      count := changeList.nodeCount;
      var none := zero;
      vector := new Upd<E>[count](_ => Upd(0, none));
    }

    /** Reads one record through its pointer, and steps to the next node. */
    method NextRecord(i: nat, head: Node?<Record<E>>) returns (u: Upd<E>, next: Node?<Record<E>>)
      requires Valid() && Intact() && i < |Changes()| && head == Ptr(changeList.spine, i)
      ensures u == Changes()[i] && next == Ptr(changeList.spine, i + 1)
    {
      assert |changeList.spine| == |Changes()|;
      RecordAt(i);
      hide Valid, Intact, Changes, Ptr;
      var data := head.data.val;
      assert data.entry in rt.heap.live;
      u := Upd(data.code, data.entry.val);
      next := head.next;
    }

    /** The whole of `rt_get_updated_rt_entries`: a fresh vector with the change list in it. */
    method GetUpdatedEntries() returns (vector: array<Upd<E>>, count: nat)
      requires Valid() && Intact()
      ensures fresh(vector) && vector[..] == Changes() && count == |Changes()|
    {
      vector, count := NewVector();
      var head := changeList.head;
      hide Valid, Intact, Changes, Ptr;
      for i := 0 to count
        invariant head == Ptr(changeList.spine, i)
        invariant vector[..i] == Changes()[..i]
      {
        vector[i], head := NextRecord(i, head);
        assert vector[..i + 1] == vector[..i] + [vector[i]];
      }
      assert vector[..count] == vector[..];
    }

    /** Whether an update is pending. */
    method IsUpdated() returns (b: bool)
      requires Valid()
      ensures b <==> Changes() != []
    {
      b := changeList.nodeCount != 0;
    }
  }
}
