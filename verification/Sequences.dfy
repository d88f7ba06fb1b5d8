/** Counting, removing and reversing the elements of a sequence. */
module Sequences {

  function Sum<T>(f: T -> nat, ts: seq<T>): nat {
    if ts == [] then 0 else f(ts[0]) + Sum(f, ts[1..])
  }

  /** Replacing one element changes the sum by exactly the difference of the two weights. */
  lemma {:induction false} SumUpdate<T>(f: T -> nat, ts: seq<T>, i: nat, x: T)
    requires i < |ts|
    ensures Sum(f, ts[i := x]) + f(ts[i]) == Sum(f, ts) + f(x)
  {
    if i == 0 {
      assert ts[i := x][1..] == ts[1..];
    } else {
      SumUpdate(f, ts[1..], i - 1, x);
      assert ts[i := x][1..] == ts[1..][i - 1 := x];
    }
  }

  lemma {:induction false} SumMember<T>(f: T -> nat, ts: seq<T>, i: nat)
    requires i < |ts|
    ensures f(ts[i]) <= Sum(f, ts)
  {
    if i == 0 {
    } else {
      SumMember(f, ts[1..], i - 1);
    }
  }

  lemma {:induction false} SumTwo<T>(f: T -> nat, ts: seq<T>, i: nat, j: nat)
    requires i < j < |ts|
    ensures f(ts[i]) + f(ts[j]) <= Sum(f, ts)
  {
    if i == 0 {
      SumMember(f, ts[1..], j - 1);
    } else {
      SumTwo(f, ts[1..], i - 1, j - 1);
    }
  }

  /** A zero sum means that every element weighs nothing, and conversely. */
  lemma {:induction false} SumZero<T>(f: T -> nat, ts: seq<T>)
    ensures Sum(f, ts) == 0 <==> forall i :: 0 <= i < |ts| ==> f(ts[i]) == 0
  {
    if ts == [] {
    } else {
      SumZero(f, ts[1..]);
      if forall i :: 0 <= i < |ts| ==> f(ts[i]) == 0 {
        assert f(ts[0]) == 0;
        assert forall i :: 0 <= i < |ts[1..]| ==> f(ts[1..][i]) == f(ts[i + 1]);
      }
      if Sum(f, ts) == 0 {
        assert forall i :: 0 < i < |ts| ==> ts[i] == ts[1..][i - 1];
      }
    }
  }

  ghost predicate NoDup<T>(s: seq<T>) {
    forall i, j :: 0 <= i < j < |s| ==> s[i] != s[j]
  }

  /** The sequence without its element at `i`. */
  function RemoveAt<T>(s: seq<T>, i: nat): seq<T>
    requires i < |s|
  {
    s[..i] + s[i + 1..]
  }

  lemma RemoveAtDistinct<T>(s: seq<T>, i: nat)
    requires NoDup(s) && i < |s|
    ensures NoDup(RemoveAt(s, i)) && s[i] !in RemoveAt(s, i)
  {
  }

  /** The sequence without the first occurrence of `f`. */
  function RemoveFirst<T(==)>(s: seq<T>, f: T): seq<T> {
    if s == [] then []
    else if s[0] == f then s[1..]
    else [s[0]] + RemoveFirst(s[1..], f)
  }

  lemma {:induction false} RemoveFirstAt<T>(s: seq<T>, f: T, i: nat)
    requires i < |s| && s[i] == f && f !in s[..i]
    ensures RemoveFirst(s, f) == RemoveAt(s, i)
  {
    if i == 0 {
    } else {
      assert s[0] == s[..i][0];
      assert s[1..][..i - 1] == s[..i][1..];
      RemoveFirstAt(s[1..], f, i - 1);
    }
  }

  lemma {:induction false} RemoveFirstAbsent<T>(s: seq<T>, f: T)
    requires f !in s
    ensures RemoveFirst(s, f) == s
  {
    if s == [] {
    } else {
      RemoveFirstAbsent(s[1..], f);
    }
  }

  lemma {:induction false} RemoveFirstMultiset<T>(s: seq<T>, f: T)
    ensures multiset(RemoveFirst(s, f)) == if f in s then multiset(s) - multiset{f} else multiset(s)
  {
    if s == [] {
    } else {
      assert s == [s[0]] + s[1..];
      RemoveFirstMultiset(s[1..], f);
    }
  }

  lemma {:induction false} RemoveFirstDistinct<T(!new)>(s: seq<T>, f: T)
    requires NoDup(s) && f in s
    ensures var r := RemoveFirst(s, f);
            NoDup(r) && |r| == |s| - 1 && forall x :: x in r <==> x in s && x != f
  {
    if s[0] == f {
      assert forall i :: 0 < i < |s| ==> s[i] != s[0];
    } else {
      RemoveFirstDistinct(s[1..], f);
      var r := RemoveFirst(s[1..], f);
      assert s[0] !in s[1..];
      assert forall x :: x in s <==> x == s[0] || x in s[1..];
      assert forall x :: x in [s[0]] + r <==> x == s[0] || x in r;
    }
  }

  function Reverse<T>(s: seq<T>): seq<T> {
    if s == [] then [] else Reverse(s[1..]) + [s[0]]
  }

  lemma {:induction false} ReverseAppend<T>(s: seq<T>, t: seq<T>)
    ensures Reverse(s + t) == Reverse(t) + Reverse(s)
  {
    if s == [] {
      assert s + t == t;
    } else {
      ReverseAppend(s[1..], t);
      assert (s + t)[1..] == s[1..] + t;
    }
  }

  lemma {:induction false} ReverseLength<T>(s: seq<T>)
    ensures |Reverse(s)| == |s|
  {
    if s == [] {
    } else {
      ReverseLength(s[1..]);
    }
  }

  lemma {:induction false} ReverseAt<T>(s: seq<T>, k: nat)
    requires k < |s|
    ensures |Reverse(s)| == |s| && Reverse(s)[k] == s[|s| - 1 - k]
  {
    ReverseLength(s[1..]);
    if k == |s| - 1 {
    } else {
      ReverseAt(s[1..], k);
    }
  }

  /** Reversing twice gives the sequence back. */
  lemma {:induction false} ReverseTwice<T>(s: seq<T>)
    ensures Reverse(Reverse(s)) == s
  {
    if s == [] {
    } else {
      ReverseTwice(s[1..]);
      ReverseAppend(Reverse(s[1..]), [s[0]]);
    }
  }
}
