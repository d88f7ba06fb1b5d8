/** The forwarding table as a value: the writers' operations, what each does to the table,
    and the update it announces to readers. RT and MAC tables differ only in the entry type
    and in the code that means "add" (`add` below). */
module TableSpec {

  /** RT_MAX_ENTRIES_FETCH and MAC_MAX_ENTRIES_FETCH. */
  const MAX_FETCH: nat := 20

  /** The three writer requests of the ioctl handler. */
  datatype Op<E> = Update(code: nat, entry: E) | Purge | Create(entry: E)

  /** One element of the vector handed to a reader. */
  datatype Upd<E> = Upd(code: nat, entry: E)

  /** A writer's request, tagged with the thread that made it. */
  datatype Write<E> = Write(tid: nat, op: Op<E>)

  /** The table after an operation; new entries go to the front. Every update code other
      than "add" leaves the table alone. */
  function ApplyTable<E>(add: nat, op: Op<E>, table: seq<E>): seq<E> {
    match op
    case Update(code, e) => if code == add then [e] + table else table
    case Create(e) => [e] + table
    case Purge => []
  }

  /** The change records an operation leaves behind. */
  function Broadcast<E>(add: nat, op: Op<E>): seq<Upd<E>> {
    match op
    case Update(code, e) => if code == add then [Upd(add, e)] else []
    case Create(e) => [Upd(add, e)]
    case Purge => []
  }

  /** `copy_to_user` of `count` records. */
  function CopyOut<E>(vector: seq<Upd<E>>, count: int): seq<Upd<E>> {
    if count < 0 then [] else if count <= |vector| then vector[..count] else vector
  }

  function Min(a: nat, b: nat): nat {
    if a < b then a else b
  }
}
