/** Intrusive lists as sequences of element numbers. */
module Sequences {

  ghost predicate Distinct(q: seq<nat>) {
    forall i, j :: 0 <= i < j < |q| ==> q[i] != q[j]
  }

  function Without<T>(q: seq<T>, i: nat): seq<T>
    requires i < |q|
  {
    q[..i] + q[i + 1..]
  }

  /** A duplicate-free list of table indices is no longer than the table. */
  lemma {:induction false} DistinctBound(q: seq<nat>, n: nat)
    requires Distinct(q) && forall i :: 0 <= i < |q| ==> q[i] < n
    ensures |q| <= n
    decreases n
  {
    if |q| > 0 {
      if i :| 0 <= i < |q| && q[i] == n - 1 {
        DistinctBound(Without(q, i), n - 1);
      } else {
        assert q[0] < n;
        DistinctBound(q, n - 1);
      }
    }
  }

  /** The list q without the first occurrence of f. */
  function Remove(q: seq<nat>, f: nat): seq<nat> {
    if q == [] then [] else if q[0] == f then q[1..] else [q[0]] + Remove(q[1..], f)
  }

  /** The tail of a list. */
  lemma TailHas(q: seq<nat>)
    requires Distinct(q) && q != []
    ensures Distinct(q[1..]) && q[0] !in q[1..]
    ensures forall g :: g in q[1..] <==> g in q && g != q[0]
  {
    forall i | 0 <= i < |q| - 1
      ensures q[1..][i] == q[i + 1] && q[i + 1] != q[0]
    {
    }
    assert q == [q[0]] + q[1..];
  }

  lemma {:induction false} RemoveHas(q: seq<nat>, f: nat)
    requires Distinct(q) && f in q
    ensures Distinct(Remove(q, f)) && |Remove(q, f)| == |q| - 1
    ensures forall g :: g in Remove(q, f) <==> g in q && g != f
  {
    TailHas(q);
    if q[0] != f {
      RemoveHas(q[1..], f);
    }
  }

  /** Taking out the first occurrence. */
  lemma {:induction false} RemoveAt(q: seq<nat>, f: nat, i: nat)
    requires i < |q| && q[i] == f && forall j :: 0 <= j < i ==> q[j] != f
    ensures Remove(q, f) == Without(q, i)
  {
    if i > 0 {
      assert forall j :: 0 <= j < |q| - 1 ==> q[1..][j] == q[j + 1];
      RemoveAt(q[1..], f, i - 1);
      assert Without(q, i) == [q[0]] + Without(q[1..], i - 1);
    }
  }

  lemma {:induction false} RemoveAbsent(q: seq<nat>, f: nat)
    requires f !in q
    ensures Remove(q, f) == q
  {
    if q != [] {
      RemoveAbsent(q[1..], f);
    }
  }

  /** `list_search` and, if the element is there, `list_del`. */
  method SearchAndDelete(q: seq<nat>, x: nat) returns (found: bool, r: seq<nat>)
    ensures found <==> x in q
    ensures r == Remove(q, x)
  {
    var i := 0;
    while i < |q| && q[i] != x
      invariant 0 <= i <= |q|
      invariant forall j :: 0 <= j < i ==> q[j] != x
    {
      i := i + 1;
    }
    found := i < |q|;
    r := q;
    if found {
      RemoveAt(q, x, i);
      r := Without(q, i);
    } else {
      RemoveAbsent(q, x);
    }
  }
}
