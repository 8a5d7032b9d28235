/** What a block achieves, and for how long. */
module Blocking {
  import opened ThreadModel
  import opened Queues
  import opened SchedulerModel
  import opened Invariant
  import opened Runs
  import opened SleepTiming

  ghost predicate IsBlockedIn(s: Sched, t: int) {
    t in s.threads && s.threads[t].state == Blocked
  }

  /** Blocking a thread other than main takes hold exactly if the thread is not asleep. */
  lemma BlockTakesHold(s: Sched, e: Event, s': Sched, t: int)
    requires Inv(s) && Step(s, e, s') && e.op == Block(t) && t != MAIN_THREAD_ID && t in s.threads
    ensures IsBlockedIn(s', t) <==> t !in s.sleeping
    ensures t in s.sleeping ==> s' == s
  {
    OperationsAreSafe(s, e.op, e.wakers);
    if Suspends(s, e.op) {
      SwitchOutcome(s, e.op, e.wakers);
      var p := Suspend(s, e.op);
      var front := p.ready[0];
      assert front in p.ready && t !in p.ready;
    }
  }

  lemma BlockedIsNotNext(s: Sched, e: Event, s': Sched, t: int)
    requires Inv(s) && Step(s, e, s') && Suspends(s, e.op) && IsBlockedIn(s, t)
    ensures s'.runningId != t
  {
    OperationsAreSafe(s, e.op, e.wakers);
    SwitchOutcome(s, e.op, e.wakers);
    var p := Suspend(s, e.op);
    var front := p.ready[0];
    assert front in p.ready && t !in p.ready;
  }

  lemma BlockedIsKept(s: Sched, e: Event, s': Sched, t: int)
    requires Inv(s) && Step(s, e, s') && IsBlockedIn(s, t) && e.op != Resume(t) && e.op != Terminate(t)
    ensures IsBlockedIn(s', t)
  {
    OperationsAreSafe(s, e.op, e.wakers);
    if Suspends(s, e.op) {
      StepKeepsInv(s, e, s');
      SwitchMovesThread(s, e, s', t);
      BlockedIsNotNext(s, e, s', t);
    } else if e.op.Spawn? && !e.op.nullEntry && |s.threads| < 100 {
      GeneratedIdIsFree(s);
    }
  }

  lemma BlockedIsOffCpu(states: seq<Sched>, events: seq<Event>, i: nat, t: int)
    requires IsRun(states, events) && i < |states| && IsBlockedIn(states[i], t)
    ensures states[i].runningId != t
  {
    RunKeepsInv(states, events, i);
  }

  /** A blocked thread stays blocked, and off the CPU, until it is resumed or terminated. */
  lemma {:induction false} BlockedUntilResumed(states: seq<Sched>, events: seq<Event>, i: nat, j: nat, t: int)
    requires IsRun(states, events) && i <= j < |states| && IsBlockedIn(states[i], t)
    requires forall m :: i <= m < j ==> events[m].op != Resume(t) && events[m].op != Terminate(t)
    ensures forall m :: i <= m <= j ==> IsBlockedIn(states[m], t) && states[m].runningId != t
    decreases j
  {
    if i < j {
      BlockedUntilResumed(states, events, i, j - 1, t);
      RunStep(states, events, j - 1);
      BlockedIsKept(states[j - 1], events[j - 1], states[j], t);
    }
    BlockedIsOffCpu(states, events, j, t);
  }

  // ---------- Two runs worth knowing ----------

  function Ops(events: seq<Event>): seq<Op> {
    seq(|events|, i requires 0 <= i < |events| => events[i].op)
  }

  /** Carries a run on by one operation. */
  lemma Then(states: seq<Sched>, events: seq<Event>, op: Op) returns (longer: seq<Sched>, more: seq<Event>)
    requires IsRun(states, events) && Proceeds(states[|events|], op)
    ensures IsRun(longer, more) && Ops(more) == Ops(events) + [op]
    ensures |longer| == |states| + 1 && longer[..|states|] == states && more[..|events|] == events
    ensures Inv(longer[|events|]) && Inv(longer[|events| + 1])
    ensures more[|events|].op == op && Step(longer[|events|], more[|events|], longer[|events| + 1])
  {
    RunKeepsInv(states, events, |events|);
    var e := ProceedingIsEnabled(states[|events|], op);
    var s' := Perform(states[|events|], op, e.wakers).sched;
    ExtendRun(states, events, e, s');
    StepKeepsInv(states[|events|], e, s');
    longer, more := states + [s'], events + [e];
  }

  lemma ThreadOneIsReady() returns (states: seq<Sched>, events: seq<Event>)
    ensures IsRun(states, events) && Ops(events) == [Spawn(false)]
    ensures states[1].runningId == MAIN_THREAD_ID && states[1].ready == [1] && states[1].totalQuantums == 1
  {
    states, events := Then([InitialSched()], [], Spawn(false));
  }

  /** Thread 1 is spawned, and one tick puts it on the CPU with main first in the queue. */
  lemma ThreadOneRuns() returns (states: seq<Sched>, events: seq<Event>)
    ensures IsRun(states, events) && Ops(events) == [Spawn(false), Tick] && Inv(states[2])
    ensures states[2].runningId == 1 && states[2].totalQuantums == 2
    ensures states[2].ready != [] && states[2].ready[0] == MAIN_THREAD_ID
  {
    states, events := ThreadOneIsReady();
    states, events := Then(states, events, Tick);
    SwitchOutcome(states[1], Tick, events[1].wakers);
    assert Suspend(states[1], Tick).ready == [1, MAIN_THREAD_ID];
  }

  /** There, sleep(-1) fails an assert. */
  lemma SleepOfMinusOneFails() returns (states: seq<Sched>, events: seq<Event>, wakers: seq<int>)
    ensures IsRun(states, events) && Ops(events) == [Spawn(false), Tick]
    ensures Defined(states[2], Sleep(-1)) && Scheduled(states[2], Sleep(-1), wakers)
    ensures !AssertsHold(states[2], Sleep(-1), wakers)
  {
    states, events := ThreadOneRuns();
    OperationsAreSafe(states[2], Sleep(-1), []);
    var p := Suspend(states[2], Sleep(-1));
    wakers := QueueOf(set t | t in p.sleeping && Wakes(p, t));
    assert IsWakeOrder(p, wakers);
    OperationsAreSafe(states[2], Sleep(-1), wakers);
  }

  lemma ThreadOneSleeps() returns (states: seq<Sched>, events: seq<Event>)
    ensures IsRun(states, events) && Ops(events) == [Spawn(false), Tick, Sleep(1)]
    ensures states[3].runningId == MAIN_THREAD_ID && AsleepUntil(states[3], 1, 4) && states[3].totalQuantums == 3
  {
    states, events := ThreadOneRuns();
    states, events := Then(states, events, Sleep(1));
    SwitchOutcome(states[2], Sleep(1), events[2].wakers);
    SleepStarts(states[2], events[2], states[3]);
  }

  lemma BlockedSleeperSleepsOn() returns (states: seq<Sched>, events: seq<Event>)
    ensures IsRun(states, events) && Ops(events) == [Spawn(false), Tick, Sleep(1), Block(1)]
    ensures states[3] == states[4] && AsleepUntil(states[4], 1, 4) && states[4].totalQuantums == 3
  {
    states, events := ThreadOneSleeps();
    RunKeepsInv(states, events, 3);
    assert 1 in states[3].sleeping;
    states, events := Then(states, events, Block(1));
    BlockTakesHold(states[3], events[3], states[4], 1);
  }

  /** Thread 1 sleeps, main blocks it, and it becomes ready with no resume. */
  lemma BlockedSleeperWakes() returns (states: seq<Sched>, events: seq<Event>)
    ensures IsRun(states, events) && Ops(events) == [Spawn(false), Tick, Sleep(1), Block(1), Tick]
    ensures AsleepUntil(states[3], 1, 4) && 1 in states[5].ready
  {
    states, events := BlockedSleeperSleepsOn();
    states, events := Then(states, events, Tick);
    StepKeepsInv(states[4], events[4], states[5]);
    SwitchKeepsSchedule(states[4], events[4], states[5], 1, 4);
  }
}
