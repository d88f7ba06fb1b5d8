/** What a table holds after a history of requests. */
module TableHistory {
  import opened Sequences
  import opened TableSpec

  /** The table after a sequence of requests, one after another. */
  function Fold<E>(add: nat, ws: seq<Write<E>>): seq<E> {
    if ws == [] then [] else ApplyTable(add, ws[|ws| - 1].op, Fold(add, ws[..|ws| - 1]))
  }

  lemma FoldStep<E>(add: nat, ws: seq<Write<E>>, k: nat)
    requires k < |ws|
    ensures Fold(add, ws[..k + 1]) == ApplyTable(add, ws[k].op, Fold(add, ws[..k]))
  {
    assert ws[..k + 1][..k] == ws[..k];
  }

  lemma FoldLast<E>(add: nat, ws: seq<Write<E>>, w: Write<E>)
    ensures Fold(add, ws + [w]) == ApplyTable(add, w.op, Fold(add, ws))
  {
    assert (ws + [w])[..|ws|] == ws;
  }

  /** The entries that requests bring in, oldest first: those of creations, and of updates with
      the "add" code. */
  function Added<E>(add: nat, ws: seq<Write<E>>): seq<E> {
    if ws == [] then []
    else
      var op, front := ws[|ws| - 1].op, Added(add, ws[..|ws| - 1]);
      if op.Create? || (op.Update? && op.code == add) then front + [op.entry] else front
  }

  /** A purge forgets everything that came before it, whatever that was and whatever follows. */
  lemma {:induction false} PurgeForgets<E>(add: nat, ws: seq<Write<E>>, t: nat, vs: seq<Write<E>>)
    ensures Fold(add, ws + [Write(t, Purge)] + vs) == Fold(add, vs)
    decreases |vs|
  {
    if vs == [] {
      assert ws + [Write(t, Purge)] + vs == ws + [Write(t, Purge)];
      FoldLast(add, ws, Write(t, Purge));
    } else {
      var front, v := vs[..|vs| - 1], vs[|vs| - 1];
      assert ws + [Write(t, Purge)] + vs == (ws + [Write(t, Purge)] + front) + [v];
      PurgeForgets(add, ws, t, front);
      FoldLast(add, ws + [Write(t, Purge)] + front, v);
    }
  }

  /** Without a purge the table holds exactly the entries that were brought in, newest first. */
  lemma {:induction false} FoldWithoutPurge<E>(add: nat, ws: seq<Write<E>>)
    requires forall i :: 0 <= i < |ws| ==> !ws[i].op.Purge?
    ensures Fold(add, ws) == Reverse(Added(add, ws))
  {
    if ws == [] {
    } else {
      var front, op := ws[..|ws| - 1], ws[|ws| - 1].op;
      FoldWithoutPurge(add, front);
      if op.Create? || (op.Update? && op.code == add) {
        ReverseAppend(Added(add, front), [op.entry]);
        assert Reverse([op.entry]) == [op.entry];
      }
    }
  }

  /** The requests after the last purge. */
  function SincePurge<E>(ws: seq<Write<E>>): seq<Write<E>> {
    if ws == [] || ws[|ws| - 1].op.Purge? then [] else SincePurge(ws[..|ws| - 1]) + [ws[|ws| - 1]]
  }

  lemma {:induction false} SplitAtPurge<E>(ws: seq<Write<E>>) returns (before: seq<Write<E>>)
    ensures forall i :: 0 <= i < |SincePurge(ws)| ==> !SincePurge(ws)[i].op.Purge?
    ensures ws == before + SincePurge(ws)
    ensures before == [] || before[|before| - 1].op.Purge?
  {
    if ws == [] || ws[|ws| - 1].op.Purge? {
      before := ws;
    } else {
      before := SplitAtPurge(ws[..|ws| - 1]);
    }
  }

  /** After any history, the table holds exactly the entries brought in since the last purge,
      newest first. */
  lemma FoldHolds<E>(add: nat, ws: seq<Write<E>>)
    ensures Fold(add, ws) == Reverse(Added(add, SincePurge(ws)))
  {
    var before := SplitAtPurge(ws);
    var vs := SincePurge(ws);
    FoldWithoutPurge(add, vs);
    if before == [] {
      assert ws == vs;
    } else {
      var k := |before| - 1;
      assert before[k] == Write(before[k].tid, Purge);
      assert before == before[..k] + [before[k]];
      PurgeForgets(add, before[..k], before[k].tid, vs);
    }
  }
}
