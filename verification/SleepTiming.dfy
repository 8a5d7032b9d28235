/** When a sleeping thread wakes, and when it runs again. */
module SleepTiming {
  import opened ThreadModel
  import opened SchedulerModel
  import opened Invariant
  import opened Runs
  import opened Fairness
  import opened AbstractScheduler

  /** Asleep, with exactly the countdown that ends at the start of quantum `wake`. */
  ghost predicate AsleepUntil(s: Sched, t: int, wake: int) {
    && t in s.threads
    && s.threads[t].state == Sleeping
    && s.threads[t].quantumsLeft == wake - 1 - s.totalQuantums >= 0
  }

  ghost predicate OnSchedule(s: Sched, t: int, wake: int) {
    if s.totalQuantums < wake then AsleepUntil(s, t, wake) else t in s.ready && s.totalQuantums == wake
  }

  lemma SleepStarts(s: Sched, e: Event, s': Sched)
    requires Inv(s) && Step(s, e, s') && e.op.Sleep? && s.runningId != MAIN_THREAD_ID
    ensures OnSchedule(s', s.runningId, WakeQuantum(s.totalQuantums, e.op.quantums))
  {
    OperationsAreSafe(s, e.op, e.wakers);
    SwitchOutcome(s, e.op, e.wakers);
    var p, t := Suspend(s, e.op), s.runningId;
    assert t in p.sleeping && t !in p.ready;
    if p.threads[t].quantumsLeft < 1 {
      assert Wakes(p, t) && t in e.wakers;
    }
  }

  lemma SleeperIsNotNext(s: Sched, e: Event, s': Sched, t: int)
    requires Inv(s) && Step(s, e, s') && Suspends(s, e.op) && t in s.sleeping
    ensures s'.runningId != t
  {
    OperationsAreSafe(s, e.op, e.wakers);
    SwitchOutcome(s, e.op, e.wakers);
    var p := Suspend(s, e.op);
    var front := p.ready[0];
    assert front in p.ready && t in p.sleeping;
  }

  lemma SwitchKeepsSchedule(s: Sched, e: Event, s': Sched, t: int, wake: int)
    requires Inv(s) && Step(s, e, s') && AsleepUntil(s, t, wake) && Suspends(s, e.op)
    ensures OnSchedule(s', t, wake)
  {
    StepKeepsInv(s, e, s');
    SwitchMovesThread(s, e, s', t);
    SleeperIsNotNext(s, e, s', t);
  }

  /** Nothing but terminating the sleeper shifts its wake-up: not even block or resume of it. */
  lemma SleepContinues(s: Sched, e: Event, s': Sched, t: int, wake: int)
    requires Inv(s) && Step(s, e, s') && AsleepUntil(s, t, wake) && e.op != Terminate(t)
    ensures OnSchedule(s', t, wake)
  {
    if Suspends(s, e.op) {
      SwitchKeepsSchedule(s, e, s', t, wake);
    } else {
      assert t in s.sleeping;
      if e.op.Spawn? && !e.op.nullEntry && |s.threads| < 100 {
        GeneratedIdIsFree(s);
      }
    }
  }

  /** Event i is a sleep call by thread t, not main, that should wake it in quantum `wake`. */
  ghost predicate FallsAsleep(states: seq<Sched>, events: seq<Event>, i: nat, t: int, wake: int)
    requires i < |events| && i < |states|
  {
    && events[i].op.Sleep?
    && t == states[i].runningId != MAIN_THREAD_ID
    && wake == WakeQuantum(states[i].totalQuantums, events[i].op.quantums)
  }

  lemma ScheduleIsKept(states: seq<Sched>, events: seq<Event>, i: nat, t: int, wake: int)
    requires IsRun(states, events) && i < |events|
    requires FallsAsleep(states, events, i, t, wake)
             || (AsleepUntil(states[i], t, wake) && events[i].op != Terminate(t))
    ensures OnSchedule(states[i + 1], t, wake)
  {
    RunStep(states, events, i);
    if FallsAsleep(states, events, i, t, wake) {
      SleepStarts(states[i], events[i], states[i + 1]);
    } else {
      SleepContinues(states[i], events[i], states[i + 1], t, wake);
    }
  }

  /** If t is terminated between i and j, it has run since i. */
  ghost predicate SurvivesUntilRun(states: seq<Sched>, events: seq<Event>, i: nat, j: nat, t: int)
    requires j <= |events|
  {
    forall m :: i < m < j && events[m].op == Terminate(t) ==> RunsWithin(states, i, m, t)
  }

  /** A thread that calls sleep(n) in quantum S is asleep with countdown S + n - total in every later
      state until the one that opens quantum S + n + 1, which finds it ready. */
  lemma {:induction false} SleepIsExact(states: seq<Sched>, events: seq<Event>, i: nat, j: nat, t: int, wake: int)
    requires IsRun(states, events) && i < j < |states| && FallsAsleep(states, events, i, t, wake)
    requires SurvivesUntilRun(states, events, i, j, t)
    requires j - 1 == i || states[j - 1].totalQuantums < wake
    ensures OnSchedule(states[j], t, wake)
    ensures forall m :: i < m < j ==> AsleepUntil(states[m], t, wake)
    decreases j
  {
    if j - 1 > i {
      QuantumsStep(states, events, j - 2);
      SleepIsExact(states, events, i, j - 1, t, wake);
      forall m | i < m < j
        ensures states[m].runningId != t
      {
        RunKeepsInv(states, events, m);
      }
      assert !RunsWithin(states, i, j - 1, t);
    }
    ScheduleIsKept(states, events, j - 1, t, wake);
  }

  /** The state that opens the wake quantum, all states since the call being spent asleep. */
  lemma WakeState(states: seq<Sched>, events: seq<Event>, i: nat, j: nat, t: int, wake: int) returns (w: nat)
    requires IsRun(states, events) && i < j < |states| && FallsAsleep(states, events, i, t, wake)
    requires SurvivesUntilRun(states, events, i, j, t)
    requires states[j].totalQuantums >= wake
    ensures i < w <= j && states[w].totalQuantums == wake && t in states[w].ready
    ensures forall m :: i < m < w ==> AsleepUntil(states[m], t, wake)
  {
    TotalsMonotone(states, events, 0, i);
    QuantumsStep(states, events, 0);
    w := QuantumStart(states, events, j, wake);
    if w <= i {
      TotalsMonotone(states, events, w, i);
    }
    SleepIsExact(states, events, i, w, t, wake);
  }

  lemma {:induction false} TotalsMonotone(states: seq<Sched>, events: seq<Event>, i: nat, j: nat)
    requires IsRun(states, events) && i <= j < |states|
    ensures states[i].totalQuantums <= states[j].totalQuantums
    decreases j
  {
    if i < j {
      QuantumsStep(states, events, j - 1);
      TotalsMonotone(states, events, i, j - 1);
    }
  }

  lemma RunnerIsKept(states: seq<Sched>, events: seq<Event>, i: nat)
    requires IsRun(states, events) && i < |events|
    requires states[i].totalQuantums == states[i + 1].totalQuantums
    ensures states[i].runningId == states[i + 1].runningId
  {
    RunStep(states, events, i);
    StepKeepsInv(states[i], events[i], states[i + 1]);
  }

  lemma {:induction false} OneRunnerPerQuantum(states: seq<Sched>, events: seq<Event>, i: nat, j: nat)
    requires IsRun(states, events) && i <= j < |states|
    requires states[i].totalQuantums == states[j].totalQuantums
    ensures states[i].runningId == states[j].runningId
    decreases j
  {
    if i < j {
      QuantumsStep(states, events, j - 1);
      TotalsMonotone(states, events, i, j - 1);
      RunnerIsKept(states, events, j - 1);
      OneRunnerPerQuantum(states, events, i, j - 1);
    }
  }

  /** It is not on the CPU again before quantum S + n + 2, in any run, whatever happens to it later. */
  lemma SleeperNotBefore(states: seq<Sched>, events: seq<Event>, i: nat, l: nat, t: int, wake: int)
    requires IsRun(states, events) && i < l < |states| && FallsAsleep(states, events, i, t, wake)
    requires SurvivesUntilRun(states, events, i, l, t)
    requires states[l].runningId == t
    ensures states[l].totalQuantums >= wake + 1
  {
    RunKeepsInv(states, events, l);
    if states[l].totalQuantums < wake {
      TotalsMonotone(states, events, l - 1, l);
      SleepIsExact(states, events, i, l, t, wake);
    } else {
      var w := WakeState(states, events, i, l, t, wake);
      RunKeepsInv(states, events, w);
      if states[l].totalQuantums == wake {
        OneRunnerPerQuantum(states, events, w, l);
      }
    }
  }

  /** If t is blocked once it is awake, it has run since i. */
  ghost predicate UnblockedUntilRun(states: seq<Sched>, events: seq<Event>, i: nat, j: nat, t: int, wake: int)
    requires j <= |events| && j <= |states|
  {
    forall m :: i < m < j && events[m].op == Block(t) && states[m].totalQuantums >= wake ==> RunsWithin(states, i, m, t)
  }

  /** It is on the CPU again by quantum S + n + 100 of any run that gets so far, unless before that it
      is terminated, or blocked once awake. Blocks made while it sleeps are harmless. */
  lemma SleeperRunsAgain(states: seq<Sched>, events: seq<Event>, i: nat, j: nat, t: int, wake: int) returns (l: nat)
    requires IsRun(states, events) && i < j < |states| && FallsAsleep(states, events, i, t, wake)
    requires SurvivesUntilRun(states, events, i, j, t) && UnblockedUntilRun(states, events, i, j, t, wake)
    requires states[j].totalQuantums >= wake + 99
    ensures i < l <= j && states[l].runningId == t
    ensures wake + 1 <= states[l].totalQuantums <= wake + 99
    ensures forall m :: i < m < l ==> states[m].runningId != t
  {
    var w := WakeState(states, events, i, j, t, wake);
    RunKeepsInv(states, events, w);
    ReadyQueueBound(states[w]);
    var k :| 0 <= k < |states[w].ready| && states[w].ready[k] == t;
    forall m | i < m <= w
      ensures states[m].runningId != t
    {
      RunKeepsInv(states, events, m);
    }
    forall m | w <= m < j && Disturbs(events[m].op, t)
      ensures RunsWithin(states, w, m, t)
    {
      TotalsMonotone(states, events, w, m);
      var n :| i < n <= m && n < |states| && states[n].runningId == t;
      assert n > w;
    }
    l := BoundedWaiting(states, events, w, j, t, k);
  }
}
