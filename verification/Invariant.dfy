/** What every operation keeps: the five structures of the scheduler agree with one another. */
module Invariant {
  import opened ThreadModel
  import opened Queues
  import opened SchedulerModel

  /** Stands for "nobody" while run_topmost_thread_in_ready_queue has not picked a thread yet. */
  const NOBODY := -1

  /** Each thread's state tag names the one place that holds it. */
  ghost predicate Partitioned(s: Sched, cpu: int)
    requires WellFormed(s)
  {
    && NoDuplicates(s.ready)
    && (forall t <- s.threads ::
          var state := s.threads[t].state;
          && (state == Running <==> t == cpu)
          && (state == Ready <==> t in s.ready)
          && (state == Sleeping <==> t in s.sleeping)
          && state != BlockedAndSleeping)
  }

  /** Active ids and recycled ids are disjoint and make up 0..largestId. There are at most 100. */
  ghost predicate IdsAccounted(s: Sched) {
    && (forall t :: t in s.threads || t in s.unusedIds <==> 0 <= t <= s.largestId)
    && (forall t :: t in s.threads ==> t !in s.unusedIds)
    && (forall t :: s.unusedIds[t] <= 1)
    && |s.threads| <= 100
    && s.largestId <= 99
  }

  ghost predicate MainOnDuty(s: Sched) {
    && MAIN_THREAD_ID in s.threads
    && (s.threads[MAIN_THREAD_ID].IsRunning() || s.threads[MAIN_THREAD_ID].IsReady())
  }

  /** A thread off the CPU has a resume point: its entry if it never ran, a saved one if it did. */
  ghost predicate Resumable(s: Sched, cpu: int) {
    forall t <- s.threads ::
      && s.threads[t].age >= (if t == cpu then 1 else 0)
      && (t != cpu ==>
            && s.threads[t].resumePoint != NeverSaved
            && (s.threads[t].resumePoint == AtEntry <==> s.threads[t].age == 0))
  }

  /** A countdown is live exactly while its thread sleeps. */
  ghost predicate Counting(s: Sched) {
    forall t <- s.threads :: s.threads[t].quantumsLeft == -1 <==> t !in s.sleeping
  }

  ghost predicate Coherent(s: Sched, cpu: int) {
    && WellFormed(s)
    && Partitioned(s, cpu)
    && IdsAccounted(s)
    && MainOnDuty(s)
    && Resumable(s, cpu)
    && Counting(s)
  }

  /** The invariant between operations. */
  ghost predicate Inv(s: Sched) {
    && Coherent(s, s.runningId)
    && s.runningId in s.threads
    && (forall t <- s.sleeping :: s.threads[t].quantumsLeft >= 0)
  }

  lemma InitialInv()
    ensures Inv(InitialSched())
  {
  }

  // ---------- Operations that keep the running thread ----------

  /** The id a spawn takes is free; growing stops at 99 because 0..largestId are then all active. */
  lemma GeneratedIdIsFree(s: Sched)
    requires Inv(s) && |s.threads| < 100
    ensures var id := GeneratedId(s);
            1 <= id <= 99 && id !in s.threads && forall t | 0 <= t < id :: t in s.threads
  {
    if !AnyUnused(s.unusedIds) {
      assert forall t :: t in s.threads.Keys <==> 0 <= t < s.largestId + 1;
      RangeSize(s.threads.Keys, s.largestId + 1);
    }
  }

  /** Taking the free id out of the pool, and filing it, moves it from one side of the account to the other. */
  lemma IdsMove(s: Sched, s': Sched, id: int)
    requires IdsAccounted(s) && |s.threads| < 100 && id !in s.threads && 0 <= id <= 99
    requires s'.threads.Keys == s.threads.Keys + {id}
    requires s'.largestId == if id in s.unusedIds then s.largestId else id
    requires id !in s.unusedIds ==> id == s.largestId + 1
    requires forall t :: s'.unusedIds[t] == if t == id then 0 else s.unusedIds[t]
    ensures IdsAccounted(s')
  {
    assert forall t: int :: t in s'.threads <==> t in s.threads || t == id;
    assert forall t: int :: t in s'.unusedIds <==> t in s.unusedIds && t != id;
  }

  lemma SpawnKeepsIds(s: Sched)
    requires Inv(s) && |s.threads| < 100
    ensures IdsAccounted(SpawnThread(s, false).sched)
  {
    var id, s' := GeneratedId(s), SpawnThread(s, false).sched;
    GeneratedIdIsFree(s);
    assert forall t: int :: s'.unusedIds[t] == if t == id then 0 else s.unusedIds[t];
    IdsMove(s, s', id);
  }

  lemma SpawnKeepsPartition(s: Sched)
    requires Inv(s) && |s.threads| < 100
    ensures var s' := SpawnThread(s, false).sched;
            WellFormed(s') && Partitioned(s', s.runningId)
  {
    var id, s' := GeneratedId(s), SpawnThread(s, false).sched;
    GeneratedIdIsFree(s);
    assert id !in s.ready;
    assert forall t :: t in s'.ready <==> t in s.ready || t == id;
  }

  lemma SpawnKeepsThreads(s: Sched)
    requires Inv(s) && |s.threads| < 100
    ensures var s' := SpawnThread(s, false).sched;
            && MainOnDuty(s') && Resumable(s', s.runningId) && Counting(s')
            && forall t <- s'.sleeping :: t in s'.threads && s'.threads[t].quantumsLeft >= 0
  {
  }

  lemma SpawnKeepsInv(s: Sched, nullEntry: bool)
    requires Inv(s)
    ensures Inv(SpawnThread(s, nullEntry).sched)
  {
    if !nullEntry && |s.threads| < 100 {
      SpawnKeepsIds(s);
      SpawnKeepsPartition(s);
      SpawnKeepsThreads(s);
    }
  }

  lemma TerminateOtherKeepsInv(s: Sched, tid: int)
    requires Inv(s) && tid != s.runningId
    ensures Inv(TerminateThread(s, tid, []).sched)
  {
    if tid != MAIN_THREAD_ID && tid in s.threads {
      var s' := TerminateThread(s, tid, []).sched;
      assert s'.threads.Keys == s.threads.Keys - {tid};
      assert IdsAccounted(s');
      if tid in s.ready {
        var i := EraseSplits(s.ready, tid);
      }
    }
  }

  lemma BlockOtherKeepsInv(s: Sched, tid: int)
    requires Inv(s) && tid != s.runningId
    ensures Inv(BlockThread(s, tid, []).sched)
  {
    if tid != MAIN_THREAD_ID && tid in s.ready {
      var s' := BlockThread(s, tid, []).sched;
      var i := EraseSplits(s.ready, tid);
      assert s'.threads.Keys == s.threads.Keys;
      assert IdsAccounted(s');
    }
  }

  lemma ResumeKeepsInv(s: Sched, tid: int)
    requires Inv(s)
    ensures Inv(ResumeThread(s, tid).sched)
  {
  }

  // ---------- Operations that switch threads ----------

  lemma TerminateRunningCoherent(s: Sched, tid: int)
    requires Inv(s) && Suspends(s, Terminate(tid))
    ensures Coherent(Suspend(s, Terminate(tid)), NOBODY)
  {
  }

  lemma BlockRunningCoherent(s: Sched, tid: int)
    requires Inv(s) && Suspends(s, Block(tid))
    ensures Coherent(Suspend(s, Block(tid)), NOBODY)
  {
  }

  lemma SleepCoherent(s: Sched, n: int)
    requires Inv(s) && Suspends(s, Sleep(n)) && n != -1
    ensures Coherent(Suspend(s, Sleep(n)), NOBODY)
  {
  }

  lemma TickCoherent(s: Sched)
    requires Inv(s)
    ensures Coherent(Suspend(s, Tick), NOBODY)
  {
  }

  /** Suspending leaves nobody on the CPU, and the main thread in the ready queue. */
  lemma SuspendCoherent(s: Sched, op: Op)
    requires Inv(s) && Suspends(s, op) && op != Sleep(-1)
    ensures Coherent(Suspend(s, op), NOBODY)
    ensures Suspend(s, op).ready != [] && MAIN_THREAD_ID in Suspend(s, op).ready
  {
    match op {
      case Terminate(t) => TerminateRunningCoherent(s, t);
      case Block(t) => BlockRunningCoherent(s, t);
      case Sleep(n) => SleepCoherent(s, n);
      case Tick => TickCoherent(s);
    }
    assert MAIN_THREAD_ID in Suspend(s, op).ready;
  }

  lemma AgedPartition(p: Sched, wakers: seq<int>)
    requires Coherent(p, NOBODY) && IsWakeOrder(p, wakers)
    ensures WellFormed(Aged(p, wakers)) && Partitioned(Aged(p, wakers), NOBODY)
  {
    var a := Aged(p, wakers);
    assert forall t <- wakers :: t in p.sleeping && t !in p.ready;
    NoDuplicatesConcat(p.ready, wakers);
    assert forall t :: t in a.ready <==> t in p.ready || t in wakers;
  }

  lemma AgedIds(p: Sched, wakers: seq<int>)
    requires WellFormed(p) && IdsAccounted(p)
    ensures IdsAccounted(Aged(p, wakers))
  {
    assert Aged(p, wakers).threads.Keys == p.threads.Keys;
  }

  lemma AgedThreads(p: Sched, wakers: seq<int>)
    requires Coherent(p, NOBODY) && WellFormed(Aged(p, wakers))
    ensures var a := Aged(p, wakers);
            && MainOnDuty(a) && Resumable(a, NOBODY) && Counting(a)
            && forall t <- a.sleeping :: a.threads[t].quantumsLeft >= 0
  {
  }

  lemma AgedCoherent(p: Sched, wakers: seq<int>)
    requires Coherent(p, NOBODY) && IsWakeOrder(p, wakers)
    ensures var a := Aged(p, wakers);
            && Coherent(a, NOBODY)
            && forall t <- a.sleeping :: a.threads[t].quantumsLeft >= 0
  {
    AgedPartition(p, wakers);
    AgedIds(p, wakers);
    AgedThreads(p, wakers);
  }

  lemma DispatchInv(a: Sched)
    requires Coherent(a, NOBODY) && a.ready != [] && a.ready[0] in a.threads
    requires forall t <- a.sleeping :: a.threads[t].quantumsLeft >= 0
    ensures Inv(Dispatch(a))
  {
  }

  /** Picking the front of a coherent, nonempty queue restores the invariant. */
  lemma RunTopmostRestoresInv(p: Sched, wakers: seq<int>)
    requires Coherent(p, NOBODY) && p.ready != [] && IsWakeOrder(p, wakers)
    ensures var o := RunTopmost(p, wakers);
            && Inv(o.sched)
            && o.control == JumpTo(p.ready[0])
            && o.sched.runningId == p.ready[0]
  {
    var p1 := p.(totalQuantums := p.totalQuantums + 1);
    AgedCoherent(p1, wakers);
    var front := p.ready[0];
    assert front in p.ready;
    var a := Aged(p1, wakers);
    DispatchInv(a);
    assert RunTopmost(p, wakers) == Outcome(Dispatch(a), JumpTo(front));
  }
}
