/** First in, first out: order in the ready queue, bounded waiting, and the main thread's share. */
module Fairness {
  import opened ThreadModel
  import opened Queues
  import opened SchedulerModel
  import opened Invariant
  import opened Runs

  /** The operations that take a queued thread out of the queue without running it. */
  predicate Disturbs(op: Op, t: int) {
    t != MAIN_THREAD_ID && (op == Block(t) || op == Terminate(t))
  }

  /** What a step can do to the queue: append and pop the front, drop one member, or append. */
  ghost predicate QueueMove(q: seq<int>, q': seq<int>, op: Op, switched: bool, next: int) {
    if switched then exists joined :: q + joined == [next] + q'
    else q' == q || (exists t :: q' == q + [t]) || exists t :: Disturbs(op, t) && t in q && q' == Erase(q, t)
  }

  lemma StepMovesQueue(s: Sched, e: Event, s': Sched)
    requires Inv(s) && Step(s, e, s')
    ensures QueueMove(s.ready, s'.ready, e.op, Suspends(s, e.op), s'.runningId)
  {
    OperationsAreSafe(s, e.op, e.wakers);
    if Suspends(s, e.op) {
      SwitchOutcome(s, e.op, e.wakers);
      SwitchMovesQueue(s.ready, Suspend(s, e.op).ready, e.wakers, s'.ready, s'.runningId, e.op);
    } else {
      match e.op
      case Spawn(_) => assert s'.ready == s.ready || s'.ready == s.ready + [GeneratedId(s)];
      case Resume(t) => assert s'.ready == s.ready || s'.ready == s.ready + [t];
      case Terminate(t) => assert s'.ready == s.ready || (t in s.ready && s'.ready == Erase(s.ready, t));
      case Block(t) => assert s'.ready == s.ready || (t in s.ready && s'.ready == Erase(s.ready, t));
      case Sleep(_) =>
    }
  }

  lemma SwitchMovesQueue(q: seq<int>, p: seq<int>, wakers: seq<int>, q': seq<int>, next: int, op: Op)
    requires q <= p && p != [] && next == p[0] && q' == p[1..] + wakers
    ensures QueueMove(q, q', op, true, next)
  {
    var joined := p[|q|..] + wakers;
    assert q + joined == p + wakers == [next] + q';
  }

  /** Threads that stay queued keep their order and come before everyone who joins. */
  lemma QueueOrderIsKept(s: Sched, e: Event, s': Sched)
    requires Inv(s) && Step(s, e, s')
    ensures Keep(s.ready, s'.ready) <= s'.ready
    ensures forall t <- s'.ready[|Keep(s.ready, s'.ready)|..] :: t !in s.ready
  {
    StepKeepsInv(s, e, s');
    StepMovesQueue(s, e, s');
    assert s'.runningId !in s'.ready;
    MoveKeepsOrder(s.ready, s'.ready, e.op, Suspends(s, e.op), s'.runningId);
  }

  lemma SwitchKeepsOrder(q: seq<int>, q': seq<int>, joined: seq<int>, next: int)
    requires NoDuplicates(q') && q + joined == [next] + q' && next !in q'
    ensures Keep(q, q') <= q'
    ensures forall t <- q'[|Keep(q, q')|..] :: t !in q
  {
    if q != [] {
      var stayed := q'[..|q| - 1];
      assert q == (q + joined)[..|q|] == ([next] + q')[..|q|] == [] + ([next] + stayed);
      KeepAllBut([], next, stayed, q');
      assert [] + stayed == stayed;
    }
  }

  lemma EraseKeepsOrder(q: seq<int>, t: int)
    requires NoDuplicates(q) && t in q
    ensures Keep(q, Erase(q, t)) == Erase(q, t)
  {
    var i := EraseSplits(q, t);
    var before, after := q[..i], q[i + 1..];
    assert q == before + ([t] + after);
    KeepAllBut(before, t, after, Erase(q, t));
  }

  lemma MoveKeepsOrder(q: seq<int>, q': seq<int>, op: Op, switched: bool, next: int)
    requires NoDuplicates(q) && NoDuplicates(q') && QueueMove(q, q', op, switched, next)
    requires switched ==> next !in q'
    ensures Keep(q, q') <= q'
    ensures forall t <- q'[|Keep(q, q')|..] :: t !in q
  {
    if switched {
      var joined :| q + joined == [next] + q';
      SwitchKeepsOrder(q, q', joined, next);
    } else if t :| Disturbs(op, t) && t in q && q' == Erase(q, t) {
      EraseKeepsOrder(q, t);
    } else {
      KeepAll(q, q');
    }
  }

  /** One step never moves a queued thread back, and a new quantum moves it forward by one. */
  lemma PositionAdvances(s: Sched, e: Event, s': Sched, t: int, k: nat) returns (k': nat)
    requires Inv(s) && Step(s, e, s') && k < |s.ready| && s.ready[k] == t && !Disturbs(e.op, t)
    ensures s'.totalQuantums > s.totalQuantums && k == 0 ==> s'.runningId == t
    ensures !(s'.totalQuantums > s.totalQuantums && k == 0) ==>
              && k' < |s'.ready| && s'.ready[k'] == t && s'.runningId != t
              && (if s'.totalQuantums > s.totalQuantums then k' == k - 1 else k' <= k)
  {
    StepKeepsInv(s, e, s');
    StepMovesQueue(s, e, s');
    k' := MoveAdvances(s.ready, s'.ready, e.op, Suspends(s, e.op), s'.runningId, k);
    if k' < |s'.ready| {
      var u := s'.ready[k'];
      assert u in s'.ready;
    }
  }

  lemma MoveAdvances(q: seq<int>, q': seq<int>, op: Op, switched: bool, next: int, k: nat) returns (k': nat)
    requires NoDuplicates(q) && QueueMove(q, q', op, switched, next)
    requires k < |q| && !Disturbs(op, q[k])
    ensures switched && k == 0 ==> next == q[k]
    ensures !(switched && k == 0) ==> k' < |q'| && q'[k'] == q[k] && if switched then k' == k - 1 else k' <= k
  {
    k' := k;
    if switched {
      var joined :| q + joined == [next] + q';
      assert (q + joined)[k] == q[k];
      k' := if k == 0 then 0 else k - 1;
    } else if t :| Disturbs(op, t) && t in q && q' == Erase(q, t) {
      var i := EraseSplits(q, t);
      k' := if i < k then k - 1 else k;
    }
  }

  lemma WaitOneStep(states: seq<Sched>, events: seq<Event>, i: nat, t: int, k: nat) returns (k': nat)
    requires IsRun(states, events) && i < |events| && !Disturbs(events[i].op, t)
    requires k < |states[i].ready| && states[i].ready[k] == t
    ensures states[i].runningId != t
    ensures if states[i + 1].runningId == t then states[i + 1].totalQuantums == states[i].totalQuantums + 1
            else k' < |states[i + 1].ready| && states[i + 1].ready[k'] == t
                 && states[i].totalQuantums <= states[i + 1].totalQuantums <= states[i].totalQuantums + k - k'
  {
    RunStep(states, events, i);
    assert t in states[i].ready;
    StepKeepsInv(states[i], events[i], states[i + 1]);
    k' := PositionAdvances(states[i], events[i], states[i + 1], t, k);
  }

  /** Thread t is on the CPU in some state after i, up to j. */
  ghost predicate RunsWithin(states: seq<Sched>, i: nat, j: nat, t: int) {
    exists n :: i < n <= j && n < |states| && states[n].runningId == t
  }

  /** Whatever disturbs t between i and j does so only after t has run. */
  ghost predicate UndisturbedUntilRun(states: seq<Sched>, events: seq<Event>, i: nat, j: nat, t: int)
    requires j <= |events|
  {
    forall m :: i <= m < j && Disturbs(events[m].op, t) ==> RunsWithin(states, i, m, t)
  }

  /** A thread at position k of the ready queue in quantum T runs by quantum T + k + 1, unless it is
      blocked or terminated before that. */
  lemma {:induction false} BoundedWaiting(states: seq<Sched>, events: seq<Event>, i: nat, j: nat, t: int, k: nat)
    returns (l: nat)
    requires IsRun(states, events) && i <= j < |states|
    requires k < |states[i].ready| && states[i].ready[k] == t
    requires UndisturbedUntilRun(states, events, i, j, t)
    requires states[j].totalQuantums >= states[i].totalQuantums + k + 1
    ensures i < l <= j && states[l].runningId == t
    ensures states[i].totalQuantums < states[l].totalQuantums <= states[i].totalQuantums + k + 1
    ensures forall m :: i <= m < l ==> states[m].runningId != t
    decreases j - i
  {
    assert !RunsWithin(states, i, i, t);
    var k' := WaitOneStep(states, events, i, t, k);
    if states[i + 1].runningId == t {
      l := i + 1;
    } else {
      forall m | i + 1 <= m < j && Disturbs(events[m].op, t)
        ensures RunsWithin(states, i + 1, m, t)
      {
        var n :| i < n <= m && n < |states| && states[n].runningId == t;
        assert n != i + 1;
      }
      l := BoundedWaiting(states, events, i + 1, j, t, k');
    }
  }

  /** At most 99 threads wait, since the running one does not. */
  lemma ReadyQueueBound(s: Sched)
    requires Inv(s)
    ensures |s.ready| <= 99
  {
    assert forall t <- s.ready :: t in s.threads.Keys - {s.runningId};
    QueueFits(s.ready, s.threads.Keys - {s.runningId});
  }

  /** A step starts at most one new quantum. */
  lemma QuantumsStep(states: seq<Sched>, events: seq<Event>, i: nat)
    requires IsRun(states, events) && i < |events|
    ensures states[i].totalQuantums <= states[i + 1].totalQuantums <= states[i].totalQuantums + 1
    ensures states[0].totalQuantums == 1
  {
    RunStep(states, events, i);
    StepKeepsInv(states[i], events[i], states[i + 1]);
  }

  /** Every quantum up to the present one has a first state. */
  lemma {:induction false} QuantumStart(states: seq<Sched>, events: seq<Event>, j: nat, quantum: int) returns (i: nat)
    requires IsRun(states, events) && j < |states| && 1 <= quantum <= states[j].totalQuantums
    ensures i <= j && states[i].totalQuantums == quantum
    ensures i > 0 ==> states[i - 1].totalQuantums == quantum - 1
  {
    if j == 0 {
      i := 0;
    } else {
      QuantumsStep(states, events, j - 1);
      if quantum <= states[j - 1].totalQuantums {
        i := QuantumStart(states, events, j - 1, quantum);
      } else {
        i := j;
      }
    }
  }

  /** The main thread runs in every window of 100 consecutive quanta of every run. */
  lemma MainRunsInEveryWindow(states: seq<Sched>, events: seq<Event>, quantum: int)
    requires IsRun(states, events)
    requires 1 <= quantum && quantum + 99 <= states[|states| - 1].totalQuantums
    ensures exists l :: 0 <= l < |states| && states[l].runningId == MAIN_THREAD_ID
                        && quantum <= states[l].totalQuantums <= quantum + 99
  {
    var j := |states| - 1;
    var i := QuantumStart(states, events, j, quantum);
    RunKeepsInv(states, events, i);
    if states[i].runningId != MAIN_THREAD_ID {
      assert MAIN_THREAD_ID in states[i].ready;
      var k :| 0 <= k < |states[i].ready| && states[i].ready[k] == MAIN_THREAD_ID;
      ReadyQueueBound(states[i]);
      var l := BoundedWaiting(states, events, i, j, MAIN_THREAD_ID, k);
    }
  }

  // ---------- No overtaking ----------

  /** If u is queued at all, it is queued behind t. */
  ghost predicate Behind(q: seq<int>, t: int, u: int) {
    forall a, b :: 0 <= a < |q| && 0 <= b < |q| && q[a] == t && q[b] == u ==> a < b
  }

  lemma SwitchKeepsBehind(q: seq<int>, q': seq<int>, joined: seq<int>, next: int, t: int, u: int)
    requires NoDuplicates(q') && q + joined == [next] + q' && next !in q'
    requires t in q && t in q' && Behind(q, t, u)
    ensures next != u && Behind(q', t, u)
  {
    var a :| 0 <= a < |q| && q[a] == t;
    assert (q + joined)[0] == q[0] == next && (q + joined)[a] == t;
    assert a > 0 && q'[a - 1] == t;
    forall c, d | 0 <= c < |q'| && 0 <= d < |q'| && q'[c] == t && q'[d] == u
      ensures c < d
    {
      assert c == a - 1;
      assert (q + joined)[d + 1] == u;
      assert d + 1 < |q| ==> q[d + 1] == u;
    }
  }

  lemma CutKeepsBehind(q: seq<int>, r: seq<int>, i: nat, t: int, u: int)
    requires i < |q| && r == q[..i] + q[i + 1..] && Behind(q, t, u)
    ensures Behind(r, t, u)
  {
    forall a, b | 0 <= a < |r| && 0 <= b < |r| && r[a] == t && r[b] == u
      ensures a < b
    {
      var a', b' := if a < i then a else a + 1, if b < i then b else b + 1;
      assert q[a'] == t && q[b'] == u;
    }
  }

  lemma EraseKeepsBehind(q: seq<int>, v: int, t: int, u: int)
    requires NoDuplicates(q) && v in q && Behind(q, t, u)
    ensures Behind(Erase(q, v), t, u)
  {
    var i := EraseSplits(q, v);
    CutKeepsBehind(q, Erase(q, v), i, t, u);
  }

  lemma MoveKeepsBehind(q: seq<int>, q': seq<int>, op: Op, switched: bool, next: int, t: int, u: int)
    requires NoDuplicates(q) && NoDuplicates(q') && QueueMove(q, q', op, switched, next)
    requires t in q && t in q' && t != u && Behind(q, t, u)
    requires switched ==> next !in q'
    ensures Behind(q', t, u)
    ensures switched ==> next != u
  {
    if switched {
      var joined :| q + joined == [next] + q';
      SwitchKeepsBehind(q, q', joined, next, t, u);
    } else if v :| Disturbs(op, v) && v in q && q' == Erase(q, v) {
      EraseKeepsBehind(q, v, t, u);
    } else if q' != q {
      var v :| q' == q + [v];
      var a :| 0 <= a < |q| && q[a] == t;
      assert q'[a] == t;
    }
  }

  lemma WaitersStayAhead(states: seq<Sched>, events: seq<Event>, i: nat, t: int, u: int)
    requires IsRun(states, events) && i < |events|
    requires t in states[i].ready && t in states[i + 1].ready && t != u && Behind(states[i].ready, t, u)
    ensures Behind(states[i + 1].ready, t, u)
    ensures states[i + 1].totalQuantums > states[i].totalQuantums ==> states[i + 1].runningId != u
  {
    var s, e, s' := states[i], events[i], states[i + 1];
    RunStep(states, events, i);
    StepKeepsInv(s, e, s');
    StepMovesQueue(s, e, s');
    assert s'.runningId !in s'.ready;
    MoveKeepsBehind(s.ready, s'.ready, e.op, Suspends(s, e.op), s'.runningId, t, u);
  }

  lemma RunnerIsNotQueued(states: seq<Sched>, events: seq<Event>, i: nat)
    requires IsRun(states, events) && i < |states|
    ensures states[i].runningId !in states[i].ready
  {
    RunKeepsInv(states, events, i);
  }

  /** The thread on the CPU does not start a second quantum while another one goes on waiting. */
  lemma {:induction false} NoOvertaking(states: seq<Sched>, events: seq<Event>, i: nat, j: nat, t: int, u: int)
    requires IsRun(states, events) && i <= j < |states|
    requires states[i].runningId == u
    requires forall m :: i <= m <= j ==> t in states[m].ready
    ensures t != u && Behind(states[j].ready, t, u)
    ensures forall m :: i < m <= j && states[m].totalQuantums > states[m - 1].totalQuantums ==> states[m].runningId != u
    decreases j
  {
    RunnerIsNotQueued(states, events, i);
    assert t in states[i].ready;
    if i < j {
      NoOvertaking(states, events, i, j - 1, t, u);
      assert t in states[j - 1].ready && t in states[j].ready;
      WaitersStayAhead(states, events, j - 1, t, u);
    }
  }
}
