/** The loop that ages the sleepers while erasing from the container it walks over. */
module Ageing {
  import opened Queues
  import opened SchedulerModel

  /** A possible iteration order of the unordered set. */
  ghost predicate Enumerates(order: seq<int>, members: set<int>) {
    NoDuplicates(order) && forall t :: t in order <==> t in members
  }

  /** A walk over the set half way: some members met, in order, and the rest to come. */
  ghost predicate HalfWay(members: set<int>, order: seq<int>, rest: set<int>) {
    && NoDuplicates(order)
    && (forall t :: t in members <==> t in order || t in rest)
    && (forall t :: t in rest ==> t !in order)
  }

  lemma MeetNext(members: set<int>, order: seq<int>, rest: set<int>, t: int)
    requires HalfWay(members, order, rest) && t in rest
    ensures HalfWay(members, order + [t], rest - {t})
  {
  }

  /** The wakers, as the loop meets them. */
  ghost function WakersIn(s: Sched, order: seq<int>): seq<int>
    requires forall t <- order :: t in s.threads
  {
    if order == [] then []
    else
      var last := order[|order| - 1];
      WakersIn(s, order[..|order| - 1]) + if Wakes(s, last) then [last] else []
  }

  lemma {:induction false} WakersInSound(s: Sched, order: seq<int>)
    requires forall t <- order :: t in s.threads
    requires NoDuplicates(order)
    ensures NoDuplicates(WakersIn(s, order))
    ensures forall t :: t in WakersIn(s, order) <==> t in order && Wakes(s, t)
  {
    if order != [] {
      var front, last := order[..|order| - 1], order[|order| - 1];
      assert order == front + [last];
      WakersInSound(s, front);
    }
  }

  lemma AgeLoopExtends(s: Sched, order: seq<int>, t: int)
    requires forall u <- order :: u in s.threads
    requires t in s.threads
    ensures (forall u <- order + [t] :: u in s.threads)
            && AgeLoop(s, order + [t]) == AgeOne(AgeLoop(s, order), t)
  {
  }

  /** How far the loop has come after the sleepers in `order`. */
  ghost function AgedSoFar(s: Sched, order: seq<int>): Sched
    requires WellFormed(s) && forall t <- order :: t in s.threads
  {
    s.(threads := (map t | t in s.threads :: if t in order then s.threads[t].UpdateSleepValue() else s.threads[t]),
       sleeping := (set t | t in s.sleeping && (t in order ==> s.threads[t].UpdateSleepValue().IsSleeping())),
       ready := s.ready + WakersIn(s, order))
  }

  lemma AgedOneMore(s: Sched, order: seq<int>, t: int)
    requires WellFormed(s) && (forall u <- order :: u in s.threads)
    requires t in s.sleeping && t !in order
    ensures (forall u <- order + [t] :: u in s.threads)
            && AgeOne(AgedSoFar(s, order), t) == AgedSoFar(s, order + [t])
  {
  }

  lemma {:induction false} AgeLoopSoFar(s: Sched, order: seq<int>)
    requires WellFormed(s) && NoDuplicates(order)
    requires forall t <- order :: t in s.sleeping
    ensures AgeLoop(s, order) == AgedSoFar(s, order)
  {
    if order == [] {
      var r := AgedSoFar(s, order);
      assert r.threads == s.threads;
      assert r.sleeping == s.sleeping;
    } else {
      var front, last := order[..|order| - 1], order[|order| - 1];
      assert order == front + [last] && last in order;
      AgeLoopSoFar(s, front);
      AgedOneMore(s, front, last);
    }
  }

  lemma ClockIsIrrelevant(s: Sched, total: int)
    requires AbleToSwitch(s)
    ensures AbleToSwitch(s.(totalQuantums := total))
    ensures forall wakers :: IsWakeOrder(s.(totalQuantums := total), wakers) <==> IsWakeOrder(s, wakers)
  {
  }

  lemma FrontIsReady(s: Sched, wakers: seq<int>)
    requires AbleToSwitch(s) && IsWakeOrder(s, wakers) && Aged(s, wakers).ready != []
    ensures var front := Aged(s, wakers).ready[0];
            front in s.threads && Aged(s, wakers).threads[front].IsReady()
  {
  }

  /** Whatever the order, the loop does what Aged says. */
  lemma AgeLoopIsAged(s: Sched, order: seq<int>)
    requires WellFormed(s) && Enumerates(order, s.sleeping)
    ensures IsWakeOrder(s, WakersIn(s, order))
    ensures AgeLoop(s, order) == Aged(s, WakersIn(s, order))
  {
    AgeLoopSoFar(s, order);
    WakersInSound(s, order);
    var r, a := AgeLoop(s, order), Aged(s, WakersIn(s, order));
    assert forall t :: t in order <==> t in s.sleeping;
    assert r.threads == a.threads;
    assert r.sleeping == a.sleeping;
  }

  lemma WakersInSnoc(s: Sched, order: seq<int>, t: int)
    requires forall u <- order + [t] :: u in s.threads
    ensures forall u <- order :: u in s.threads
    ensures t in s.threads
    ensures WakersIn(s, order + [t]) == WakersIn(s, order) + if Wakes(s, t) then [t] else []
  {
    var longer := order + [t];
    assert longer[|order|] == t && longer[..|order|] == order;
    forall u | u in order
      ensures u in s.threads
    {
      assert u in longer;
    }
    assert t in longer;
  }

  lemma {:induction false} AllWake(s: Sched, wakers: seq<int>)
    requires forall t <- wakers :: t in s.threads && Wakes(s, t)
    ensures WakersIn(s, wakers) == wakers
  {
    if wakers != [] {
      var front, last := wakers[..|wakers| - 1], wakers[|wakers| - 1];
      assert wakers == front + [last] && last in wakers;
      AllWake(s, front);
      WakersInSnoc(s, front, last);
    }
  }

  lemma {:induction false} WakersInKeepsWakers(s: Sched, wakers: seq<int>, others: seq<int>)
    requires forall t <- wakers :: t in s.threads && Wakes(s, t)
    requires forall t <- others :: t in s.threads && !Wakes(s, t)
    ensures WakersIn(s, wakers + others) == wakers
  {
    if others == [] {
      assert wakers + others == wakers;
      AllWake(s, wakers);
    } else {
      var front, last := others[..|others| - 1], others[|others| - 1];
      assert others == front + [last] && last in others;
      assert wakers + others == wakers + front + [last];
      WakersInKeepsWakers(s, wakers, front);
      WakersInSnoc(s, wakers + front, last);
    }
  }

  /** The iteration order shows only in the order of the wakers, and every such order can show. */
  lemma AgeingOutcomes(s: Sched, wakers: seq<int>)
    requires WellFormed(s)
    ensures IsWakeOrder(s, wakers)
            <==> exists order :: Enumerates(order, s.sleeping) && AgeLoop(s, order) == Aged(s, wakers)
  {
    if IsWakeOrder(s, wakers) {
      var others := QueueOf(set t | t in s.sleeping && t !in wakers);
      var order := wakers + others;
      assert forall t <- others :: t !in wakers;
      NoDuplicatesConcat(wakers, others);
      assert Enumerates(order, s.sleeping);
      WakersInKeepsWakers(s, wakers, others);
      AgeLoopIsAged(s, order);
    }
    forall order | Enumerates(order, s.sleeping) && AgeLoop(s, order) == Aged(s, wakers)
      ensures IsWakeOrder(s, wakers)
    {
      AgeLoopIsAged(s, order);
      var met := WakersIn(s, order);
      assert s.ready + wakers == s.ready + met;
      assert wakers == (s.ready + wakers)[|s.ready|..] == (s.ready + met)[|s.ready|..] == met;
    }
  }

  /** Two iteration orders queue the same wakers and agree on everything else. */
  lemma AgeingOrderIrrelevant(s: Sched, order1: seq<int>, order2: seq<int>)
    requires WellFormed(s) && Enumerates(order1, s.sleeping) && Enumerates(order2, s.sleeping)
    ensures var r1, r2 := AgeLoop(s, order1), AgeLoop(s, order2);
            && multiset(r1.ready) == multiset(r2.ready)
            && s.ready <= r1.ready && s.ready <= r2.ready
            && r1.(ready := r2.ready) == r2
  {
    AgeLoopIsAged(s, order1);
    AgeLoopIsAged(s, order2);
    SameMembers(WakersIn(s, order1), WakersIn(s, order2));
  }

  lemma SameMembers(p: seq<int>, q: seq<int>)
    requires NoDuplicates(p) && NoDuplicates(q)
    requires forall t :: t in p <==> t in q
    ensures multiset(p) == multiset(q)
  {
    forall t: int
      ensures multiset(p)[t] == multiset(q)[t]
    {
      Multiplicity(p, t);
      Multiplicity(q, t);
    }
  }
}
