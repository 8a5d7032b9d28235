/** Quantum accounting: where every quantum went. */
module Accounting {
  import opened ThreadModel
  import opened SchedulerModel
  import opened Invariant
  import opened Runs

  function AgeOf(threads: map<int, ThreadData>, t: int): int {
    if t in threads then threads[t].age else 0
  }

  /** The running-quantum counters of all active threads with an id below `bound`. */
  function SumAges(threads: map<int, ThreadData>, bound: nat): int {
    if bound == 0 then 0 else SumAges(threads, bound - 1) + AgeOf(threads, bound - 1)
  }

  /** The final counter of the thread an operation removes, if it removes one. */
  function RetiredAge(s: Sched, op: Op): int {
    if op.Terminate? && op.tid != MAIN_THREAD_ID then AgeOf(s.threads, op.tid) else 0
  }

  /** The final counters of all threads terminated in the first n operations. */
  function RetiredAges(states: seq<Sched>, events: seq<Event>, n: nat): int
    requires n <= |events| && n <= |states|
  {
    if n == 0 then 0 else RetiredAges(states, events, n - 1) + RetiredAge(states[n - 1], events[n - 1].op)
  }

  lemma {:induction false} SumAgesUpdate(m: map<int, ThreadData>, m': map<int, ThreadData>, t: int, bound: nat)
    requires forall u :: u != t ==> AgeOf(m', u) == AgeOf(m, u)
    ensures SumAges(m', bound) == SumAges(m, bound) + if 0 <= t < bound then AgeOf(m', t) - AgeOf(m, t) else 0
  {
    if bound > 0 {
      SumAgesUpdate(m, m', t, bound - 1);
    }
  }

  lemma SuspendMovesAge(s: Sched, op: Op, t: int)
    requires Inv(s) && Suspends(s, op)
    ensures AgeOf(Suspend(s, op).threads, t) == if op == Terminate(t) then 0 else AgeOf(s.threads, t)
  {
    if t != s.runningId {
      SuspendKeepsOthers(s, op, t);
    }
  }

  lemma RunTopmostMovesAge(p: Sched, wakers: seq<int>, t: int)
    requires WellFormed(p) && IsWakeOrder(p, wakers) && p.ready != []
    ensures var s' := RunTopmost(p, wakers).sched;
            AgeOf(s'.threads, t) == AgeOf(p.threads, t) + if t in p.threads && t == p.ready[0] then 1 else 0
  {
    RunTopmostMovesThread(p, wakers, t);
  }

  lemma SwitchMovesAge(s: Sched, e: Event, s': Sched, t: int)
    requires Inv(s) && Step(s, e, s') && Suspends(s, e.op)
    ensures AgeOf(s'.threads, t) == (if e.op == Terminate(t) then 0 else AgeOf(s.threads, t))
                                    + if t == s'.runningId then 1 else 0
  {
    OperationsAreSafe(s, e.op, e.wakers);
    SwitchOutcome(s, e.op, e.wakers);
    var p := Suspend(s, e.op);
    var front := p.ready[0];
    assert front in p.ready && front in p.threads;
    SuspendMovesAge(s, e.op, t);
    RunTopmostMovesAge(p, e.wakers, t);
  }

  /** A switch adds one quantum to the thread it starts; a termination drops one counter; no other
      counter ever moves. */
  lemma StepMovesAge(s: Sched, e: Event, s': Sched, t: int)
    requires Inv(s) && Step(s, e, s')
    ensures AgeOf(s'.threads, t) ==
              (if e.op == Terminate(t) && t != MAIN_THREAD_ID then 0 else AgeOf(s.threads, t))
              + (if Suspends(s, e.op) && t == s'.runningId then 1 else 0)
  {
    if Suspends(s, e.op) {
      SwitchMovesAge(s, e, s', t);
    } else if e.op.Spawn? && !e.op.nullEntry && |s.threads| < 100 {
      GeneratedIdIsFree(s);
    }
  }

  lemma StepConserves(s: Sched, e: Event, s': Sched, bound: nat)
    requires Inv(s) && Step(s, e, s') && bound >= 100
    ensures SumAges(s'.threads, bound) + RetiredAge(s, e.op) ==
              SumAges(s.threads, bound) + s'.totalQuantums - s.totalQuantums
  {
    StepKeepsInv(s, e, s');
    forall t: int
      ensures AgeOf(s'.threads, t) ==
                (if e.op == Terminate(t) && t != MAIN_THREAD_ID then 0 else AgeOf(s.threads, t))
                + (if Suspends(s, e.op) && t == s'.runningId then 1 else 0)
    {
      StepMovesAge(s, e, s', t);
    }
    IdsBelowLimit(s);
    IdsBelowLimit(s');
    var gone := if e.op.Terminate? && e.op.tid != MAIN_THREAD_ID then e.op.tid else NOBODY;
    var next := if Suspends(s, e.op) then s'.runningId else NOBODY;
    SumsMove(s.threads, s'.threads, gone, next, bound);
  }

  lemma IdsBelowLimit(s: Sched)
    requires Inv(s)
    ensures forall t <- s.threads :: 0 <= t < 100
  {
  }

  lemma SumsMove(m: map<int, ThreadData>, m': map<int, ThreadData>, gone: int, next: int, bound: nat)
    requires forall t :: AgeOf(m', t) == (if t == gone then 0 else AgeOf(m, t)) + (if t == next != NOBODY then 1 else 0)
    requires gone == NOBODY || gone != next
    requires forall t <- m :: 0 <= t < bound
    requires next == NOBODY || 0 <= next < bound
    ensures SumAges(m', bound) + AgeOf(m, gone) == SumAges(m, bound) + if next == NOBODY then 0 else 1
  {
    var mid := m - {gone};
    assert forall t :: AgeOf(mid, t) == if t == gone then 0 else AgeOf(m, t);
    SumAgesUpdate(m, mid, gone, bound);
    SumAgesUpdate(mid, m', next, bound);
  }

  /** In every state of every run, the counters of the active threads (whose ids are all below
      `bound`) and the final counters of the terminated ones add up to the total. */
  lemma {:induction false} QuantumsAreConserved(states: seq<Sched>, events: seq<Event>, i: nat, bound: nat)
    requires IsRun(states, events) && i < |states| && bound >= 100
    ensures forall t <- states[i].threads :: 0 <= t < bound
    ensures SumAges(states[i].threads, bound) + RetiredAges(states, events, i) == states[i].totalQuantums
  {
    RunKeepsInv(states, events, i);
    IdsBelowLimit(states[i]);
    if i == 0 {
      NoAges(bound);
      SumAgesUpdate(map[], InitialSched().threads, MAIN_THREAD_ID, bound);
    } else {
      QuantumsAreConserved(states, events, i - 1, bound);
      RunStep(states, events, i - 1);
      StepConserves(states[i - 1], events[i - 1], states[i], bound);
    }
  }

  lemma {:induction false} NoAges(bound: nat)
    ensures SumAges(map[], bound) == 0
  {
    if bound > 0 {
      NoAges(bound - 1);
    }
  }

  /** The quanta started on thread t since it was last created, counted on the run itself. */
  ghost function QuantumsStarted(states: seq<Sched>, events: seq<Event>, t: int, i: nat): int
    requires i < |states| && i <= |events|
  {
    if i == 0 then if t == MAIN_THREAD_ID then 1 else 0
    else if t !in states[i - 1].threads then 0
    else QuantumsStarted(states, events, t, i - 1)
         + if states[i].totalQuantums > states[i - 1].totalQuantums && states[i].runningId == t then 1 else 0
  }

  /** uthread_get_quantums is the number of quanta the thread has started. */
  lemma {:induction false} GetQuantumsCountsStarts(states: seq<Sched>, events: seq<Event>, t: int, i: nat)
    requires IsRun(states, events) && i < |states|
    ensures GetQuantums(states[i], t) ==
              if t in states[i].threads then QuantumsStarted(states, events, t, i) else -1
  {
    if i > 0 && t in states[i].threads {
      RunStep(states, events, i - 1);
      StepKeepsInv(states[i - 1], events[i - 1], states[i]);
      StepMovesAge(states[i - 1], events[i - 1], states[i], t);
      GetQuantumsCountsStarts(states, events, t, i - 1);
      assert AgeOf(states[i].threads, t) == GetQuantums(states[i], t);
      TerminatedIsGone(states[i - 1], events[i - 1], states[i], t);
    }
  }

  lemma TerminatedIsGone(s: Sched, e: Event, s': Sched, t: int)
    requires Inv(s) && Step(s, e, s') && t in s'.threads
    ensures e.op != Terminate(t)
    ensures t !in s.threads ==> !(Suspends(s, e.op) && s'.runningId == t)
  {
  }
}
