/** Why a poll is one step although writers do not take the readers' semaphore: the poll looks
    at the change list once, and whatever is written after that look commutes with the rest. */
module PollAtomicity {
  import opened TableSpec
  import opened PollSpec

  /** Writes, one after another. */
  function Writes<E>(s: State<E>, ws: seq<Upd<E>>): State<E>
    decreases |ws|
  {
    if ws == [] then s
    else
      var w := ws[|ws| - 1];
      WriteApply(Writes(s, ws[..|ws| - 1]), w.code, w.entry)
  }

  lemma WriteCommutes<E>(s: State<E>, f: nat, nonblock: bool, available: bool, w: Upd<E>)
    ensures PollRest(WriteApply(s, w.code, w.entry), f, nonblock, available)
         == WriteApply(PollRest(s, f, nonblock, available), w.code, w.entry)
  {
  }

  lemma {:induction false} WritesCommute<E>(s: State<E>, f: nat, nonblock: bool, available: bool, ws: seq<Upd<E>>)
    ensures PollRest(Writes(s, ws), f, nonblock, available) == Writes(PollRest(s, f, nonblock, available), ws)
    decreases |ws|
  {
    hide PollRest, WriteApply;
    if ws == [] {
    } else {
      var front := ws[..|ws| - 1];
      WritesCommute(s, f, nonblock, available, front);
      WriteCommutes(Writes(s, front), f, nonblock, available, ws[|ws| - 1]);
    }
  }

  /** Any writes between a poll's look at the change list and its end leave the state that they
      leave when they come after the whole poll. */
  lemma {:induction false} PollIsAtomic<E>(s: State<E>, f: nat, nonblock: bool, ws: seq<Upd<E>>)
    ensures PollRest(Writes(s, ws), f, nonblock, s.changes != []) == Writes(PollApply(s, f, nonblock), ws)
  {
    hide PollRest, WriteApply;
    WritesCommute(s, f, nonblock, s.changes != [], ws);
  }
}
