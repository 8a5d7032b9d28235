/** Duplicate-free queues of thread ids: removal, filtering, size. */
module Queues {

  ghost predicate NoDuplicates<T(!new)>(q: seq<T>) {
    forall i, j :: 0 <= i < j < |q| ==> q[i] != q[j]
  }

  /** The queue without the first occurrence of t. */
  function Erase(q: seq<int>, t: int): (r: seq<int>)
  {
    if q == [] then []
    else if q[0] == t then q[1..]
    else [q[0]] + Erase(q[1..], t)
  }

  /** The members of q that are in keep, in the order of q. */
  function Keep(q: seq<int>, keep: seq<int>): (r: seq<int>)
  {
    if q == [] then []
    else (if q[0] in keep then [q[0]] else []) + Keep(q[1..], keep)
  }

  lemma {:induction false} EraseAt(q: seq<int>, t: int, i: nat)
    requires i < |q| && q[i] == t && t !in q[..i]
    ensures Erase(q, t) == q[..i] + q[i + 1..]
  {
    if i > 0 {
      assert q[1..][..i - 1] == q[..i][1..];
      EraseAt(q[1..], t, i - 1);
      assert q[1..][i - 1 + 1..] == q[i + 1..];
      assert [q[0]] + q[1..][..i - 1] == q[..i];
    }
  }

  lemma {:induction false} EraseAbsent(q: seq<int>, t: int)
    requires t !in q
    ensures Erase(q, t) == q
  {
    if q != [] {
      EraseAbsent(q[1..], t);
      assert [q[0]] + q[1..] == q;
    }
  }

  /** Removal from a duplicate-free queue takes out exactly t and cuts at its position. */
  lemma EraseSplits(q: seq<int>, t: int) returns (i: nat)
    requires NoDuplicates(q) && t in q
    ensures i < |q| && q[i] == t && Erase(q, t) == q[..i] + q[i + 1..]
    ensures NoDuplicates(Erase(q, t))
    ensures forall u :: u in Erase(q, t) <==> u in q && u != t
  {
    i :| 0 <= i < |q| && q[i] == t;
    EraseAt(q, t, i);
    forall u | u in q && u != t
      ensures u in Erase(q, t)
    {
      var k :| 0 <= k < |q| && q[k] == u;
      assert k < i || q[i + 1..][k - i - 1] == u;
    }
  }

  lemma {:induction false} KeepAll(q: seq<int>, keep: seq<int>)
    requires forall t <- q :: t in keep
    ensures Keep(q, keep) == q
  {
    if q != [] {
      var t := q[0];
      assert t in q;
      KeepAll(q[1..], keep);
      assert [q[0]] + q[1..] == q;
    }
  }

  lemma {:induction false} KeepConcat(p: seq<int>, q: seq<int>, keep: seq<int>)
    ensures Keep(p + q, keep) == Keep(p, keep) + Keep(q, keep)
  {
    if p == [] {
      assert p + q == q;
    } else {
      var rest := p[1..];
      assert (p + q)[1..] == rest + q && (p + q)[0] == p[0];
      KeepConcat(rest, q, keep);
      var head := if p[0] in keep then [p[0]] else [];
      assert Keep(p + q, keep) == head + Keep(rest + q, keep);
      assert head + (Keep(rest, keep) + Keep(q, keep)) == head + Keep(rest, keep) + Keep(q, keep);
    }
  }

  lemma KeepSkips(t: int, q: seq<int>, keep: seq<int>)
    requires t !in keep
    ensures Keep([t] + q, keep) == Keep(q, keep)
  {
  }

  /** Dropping one member, and nothing else, is what filtering does. */
  lemma KeepAllBut(p: seq<int>, t: int, q: seq<int>, keep: seq<int>)
    requires t !in keep
    requires forall u <- p :: u in keep
    requires forall u <- q :: u in keep
    ensures Keep(p + ([t] + q), keep) == p + q
  {
    KeepConcat(p, [t] + q, keep);
    KeepSkips(t, q, keep);
    KeepAll(p, keep);
    KeepAll(q, keep);
  }

  /** A duplicate-free queue is no longer than any set that holds its members. */
  lemma {:induction false} QueueFits(q: seq<int>, members: set<int>)
    requires NoDuplicates(q)
    requires forall t <- q :: t in members
    ensures |q| <= |members|
  {
    if q != [] {
      var t := q[0];
      assert t in q;
      assert forall u <- q[1..] :: u in q && u != t;
      QueueFits(q[1..], members - {t});
    }
  }

  lemma NoDuplicatesConcat<T(!new)>(p: seq<T>, q: seq<T>)
    requires NoDuplicates(p) && NoDuplicates(q)
    requires forall t <- q :: t !in p
    ensures NoDuplicates(p + q)
  {
    forall i, j | 0 <= i < j < |p + q|
      ensures (p + q)[i] != (p + q)[j]
    {
      assert j >= |p| ==> (p + q)[j] in q;
    }
  }

  lemma {:induction false} Multiplicity(q: seq<int>, t: int)
    requires NoDuplicates(q)
    ensures multiset(q)[t] == if t in q then 1 else 0
  {
    if q != [] {
      var front, last := q[..|q| - 1], q[|q| - 1];
      assert q == front + [last];
      Multiplicity(front, t);
    }
  }

  /** Some duplicate-free queue lists any finite set. */
  lemma {:induction false} QueueOf(members: set<int>) returns (q: seq<int>)
    ensures NoDuplicates(q) && forall t :: t in q <==> t in members
  {
    if t :| t in members {
      var rest := QueueOf(members - {t});
      q := [t] + rest;
    } else {
      q := [];
    }
  }

  lemma {:induction false} RangeSize(range: set<int>, n: nat)
    requires forall i :: i in range <==> 0 <= i < n
    ensures |range| == n
  {
    if n > 0 {
      RangeSize(range - {n - 1}, n - 1);
    } else {
      assert forall i :: i !in range;
    }
  }
}
