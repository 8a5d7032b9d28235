/** The value of the scheduler's fields at one instant, and what each operation makes of it
    (scheduler.h, scheduler.cpp, and the guards of uthreads.cpp).

    Containers of thread pointers hold thread ids here; module Schedulers proves its methods,
    which do update objects in place, against these functions. An operation that switches
    threads takes the order in which simultaneous wakers were met by the ageing loop. */
module SchedulerModel {
  import opened ThreadModel
  import opened Queues

  const MAX_THREAD_NUM := 100
  const SUCCESS := 0
  const FAILURE := -1

  datatype Sched = Sched(
    totalQuantums: int,
    runningId: int,
    largestId: int,
    unusedIds: multiset<int>,
    threads: map<int, ThreadData>,
    sleeping: set<int>,
    ready: seq<int>)

  /** Where control goes: back to the caller, to another thread's resume point, or out of the process. */
  datatype Control = Return(code: int) | JumpTo(tid: int) | Exit

  datatype Outcome = Outcome(sched: Sched, control: Control)

  datatype Op = Spawn(nullEntry: bool) | Terminate(tid: int) | Block(tid: int) | Resume(tid: int)
              | Sleep(quantums: int) | Tick

  /** Every container entry is a live thread filed under its own id. */
  ghost predicate WellFormed(s: Sched) {
    && (forall t <- s.threads :: s.threads[t].id == t)
    && s.sleeping <= s.threads.Keys
    && (forall t <- s.ready :: t in s.threads)
  }

  /** The state after the scheduler's constructor. */
  function InitialSched(): Sched {
    Sched(1, MAIN_THREAD_ID, MAIN_THREAD_ID, multiset{},
          map[MAIN_THREAD_ID := NewThread(MAIN_THREAD_ID).SetRunning()], {}, [])
  }

  // ---------- Ids ----------

  predicate AnyUnused(ids: multiset<int>) {
    exists id :: id in ids
  }

  /** Any member, or the least of the smaller ones. */
  lemma {:induction false} FindLeast(ids: multiset<int>, candidate: int) returns (m: int)
    requires candidate in ids
    ensures m in ids && forall x <- ids :: m <= x
    decreases |ids|
  {
    m := candidate;
    if smaller :| smaller in ids && smaller < candidate {
      var rest := ids[candidate := 0];
      assert smaller in rest && |rest| < |ids|;
      m := FindLeast(rest, smaller);
      assert m in ids;
      forall x | x in ids
        ensures m <= x
      {
        assert x in rest || x == candidate;
      }
    }
  }

  lemma LeastExists(ids: multiset<int>)
    requires AnyUnused(ids)
    ensures exists m :: m in ids && forall x <- ids :: m <= x
  {
    var candidate :| candidate in ids;
    var m := FindLeast(ids, candidate);
  }

  /** The top of the min-heap of recycled ids. */
  ghost function Least(ids: multiset<int>): (m: int)
    requires AnyUnused(ids)
    ensures m in ids && forall x <- ids :: m <= x
  {
    LeastExists(ids);
    var m :| m in ids && forall x <- ids :: m <= x;
    m
  }

  ghost function GeneratedId(s: Sched): int {
    if AnyUnused(s.unusedIds) then Least(s.unusedIds) else s.largestId + 1
  }

  ghost function GenerateId(s: Sched): Sched {
    if AnyUnused(s.unusedIds) then s.(unusedIds := s.unusedIds - multiset{Least(s.unusedIds)})
    else s.(largestId := s.largestId + 1)
  }

  // ---------- Ageing the sleepers ----------

  /** One pass of the body of the loop in update_sleeping_threads. */
  ghost function AgeOne(s: Sched, t: int): Sched
    requires t in s.threads
  {
    var aged := s.threads[t].UpdateSleepValue();
    var s1 := s.(threads := s.threads[t := aged]);
    if aged.IsSleeping() then s1
    else s1.(sleeping := s.sleeping - {t}, ready := if aged.IsReady() then s.ready + [t] else s.ready)
  }

  /** The loop, meeting the sleepers in the given order. */
  ghost function AgeLoop(s: Sched, order: seq<int>): (r: Sched)
    requires forall t <- order :: t in s.threads
    ensures r.threads.Keys == s.threads.Keys
  {
    if order == [] then s
    else AgeOne(AgeLoop(s, order[..|order| - 1]), order[|order| - 1])
  }

  ghost predicate Wakes(s: Sched, t: int)
    requires t in s.threads
  {
    t in s.sleeping && s.threads[t].UpdateSleepValue().IsReady()
  }

  /** The wakers, each once, in some order. */
  ghost predicate IsWakeOrder(s: Sched, wakers: seq<int>)
    requires WellFormed(s)
  {
    && NoDuplicates(wakers)
    && (forall t :: t in wakers <==> t in s.threads && Wakes(s, t))
  }

  /** What one ageing of all sleepers amounts to, with no loop in sight. */
  ghost function Aged(s: Sched, wakers: seq<int>): Sched
    requires WellFormed(s)
  {
    s.(threads := (map t | t in s.threads ::
                     if t in s.sleeping then s.threads[t].UpdateSleepValue() else s.threads[t]),
       sleeping := (set t | t in s.sleeping && s.threads[t].UpdateSleepValue().IsSleeping()),
       ready := s.ready + wakers)
  }

  // ---------- Switching threads ----------

  /** The front of the ready queue takes the CPU. */
  ghost function Dispatch(s: Sched): Sched
    requires s.ready != [] && s.ready[0] in s.threads
  {
    var front := s.ready[0];
    s.(ready := s.ready[1..], threads := s.threads[front := s.threads[front].SetRunning()], runningId := front)
  }

  ghost function RunTopmost(s: Sched, wakers: seq<int>): Outcome
    requires WellFormed(s)
    requires IsWakeOrder(s, wakers)
  {
    var aged := Aged(s.(totalQuantums := s.totalQuantums + 1), wakers);
    if aged.ready == [] then Outcome(aged, Return(FAILURE))
    else
      var front := aged.ready[0];
      assert front in aged.ready;
      Outcome(Dispatch(aged), JumpTo(front))
  }

  /** What a caller of run_topmost_thread_in_ready_queue returns when no jump took place. */
  function IgnoringFailure(o: Outcome): Outcome {
    if o.control.JumpTo? then o else o.(control := Return(SUCCESS))
  }

  /** The operations that take the running thread off the CPU. */
  ghost predicate Suspends(s: Sched, op: Op) {
    match op
    case Spawn(_) => false
    case Terminate(t) => t != MAIN_THREAD_ID && t in s.threads && s.threads[t].IsRunning()
    case Block(t) => t != MAIN_THREAD_ID && t in s.threads && s.threads[t].IsRunning()
    case Resume(_) => false
    case Sleep(_) => s.runningId != MAIN_THREAD_ID
    case Tick => true
  }

  /** The state such an operation hands to run_topmost_thread_in_ready_queue. */
  ghost function Suspend(s: Sched, op: Op): Sched
    requires s.runningId in s.threads && Suspends(s, op)
  {
    match op
    case Terminate(t) =>
      s.(threads := s.threads - {t}, unusedIds := s.unusedIds + multiset{t})
    case Block(t) =>
      s.(threads := s.threads[t := s.threads[t].SaveEnv(InBlock, s.totalQuantums).SetBlock()])
    case Sleep(n) =>
      var r := s.runningId;
      s.(threads := s.threads[r := s.threads[r].SetSleep(n).SaveEnv(InSleep, s.totalQuantums)],
         sleeping := s.sleeping + {r})
    case Tick =>
      var r := s.runningId;
      s.(threads := s.threads[r := s.threads[r].SetReady().SaveEnv(InTimerHandler, s.totalQuantums)],
         ready := s.ready + [r])
  }

  /** No pointer the operation follows is dangling. */
  ghost predicate Defined(s: Sched, op: Op) {
    && WellFormed(s)
    && s.runningId in s.threads
    && (Suspends(s, op) ==> WellFormed(Suspend(s, op)))
  }

  /** The order in which wakers were met, for the operations that age the sleepers. */
  ghost predicate Scheduled(s: Sched, op: Op, wakers: seq<int>)
    requires Defined(s, op)
  {
    if Suspends(s, op) then IsWakeOrder(Suspend(s, op), wakers) else wakers == []
  }

  // ---------- The operations ----------

  ghost function SpawnThread(s: Sched, nullEntry: bool): Outcome {
    if nullEntry || |s.threads| >= MAX_THREAD_NUM then Outcome(s, Return(FAILURE))
    else
      var id := GeneratedId(s);
      var s1 := GenerateId(s);
      Outcome(s1.(threads := s.threads[id := NewThread(id)], ready := s.ready + [id]), Return(id))
  }

  ghost function TerminateThread(s: Sched, tid: int, wakers: seq<int>): Outcome
    requires Defined(s, Terminate(tid)) && Scheduled(s, Terminate(tid), wakers)
  {
    if tid == MAIN_THREAD_ID then Outcome(s, Exit)
    else if tid !in s.threads then Outcome(s, Return(FAILURE))
    else if Suspends(s, Terminate(tid)) then IgnoringFailure(RunTopmost(Suspend(s, Terminate(tid)), wakers))
    else
      var t := s.threads[tid];
      Outcome(s.(threads := s.threads - {tid}, unusedIds := s.unusedIds + multiset{tid},
                 sleeping := if t.IsSleeping() then s.sleeping - {tid} else s.sleeping,
                 ready := if t.IsReady() then Erase(s.ready, tid) else s.ready),
              Return(SUCCESS))
  }

  ghost function BlockThread(s: Sched, tid: int, wakers: seq<int>): Outcome
    requires Defined(s, Block(tid)) && Scheduled(s, Block(tid), wakers)
  {
    if tid == MAIN_THREAD_ID || tid !in s.threads then Outcome(s, Return(FAILURE))
    else if Suspends(s, Block(tid)) then IgnoringFailure(RunTopmost(Suspend(s, Block(tid)), wakers))
    else if s.threads[tid].IsReady() then
      if tid !in s.ready then Outcome(s, Return(FAILURE))
      else Outcome(s.(ready := Erase(s.ready, tid), threads := s.threads[tid := s.threads[tid].SetBlock()]),
                   Return(SUCCESS))
    else Outcome(s, Return(SUCCESS))
  }

  ghost function ResumeThread(s: Sched, tid: int): Outcome {
    if tid !in s.threads then Outcome(s, Return(FAILURE))
    else if !s.threads[tid].IsBlocked() then Outcome(s, Return(SUCCESS))
    else
      var t := s.threads[tid].Unblock();
      Outcome(s.(threads := s.threads[tid := t], ready := if t.IsReady() then s.ready + [tid] else s.ready),
              Return(SUCCESS))
  }

  ghost function SleepThread(s: Sched, quantums: int, wakers: seq<int>): Outcome
    requires Defined(s, Sleep(quantums)) && Scheduled(s, Sleep(quantums), wakers)
  {
    if s.runningId == MAIN_THREAD_ID then Outcome(s, Return(FAILURE))
    else IgnoringFailure(RunTopmost(Suspend(s, Sleep(quantums)), wakers))
  }

  ghost function HandleTick(s: Sched, wakers: seq<int>): Outcome
    requires Defined(s, Tick) && Scheduled(s, Tick, wakers)
  {
    IgnoringFailure(RunTopmost(Suspend(s, Tick), wakers))
  }

  ghost function Perform(s: Sched, op: Op, wakers: seq<int>): Outcome
    requires Defined(s, op) && Scheduled(s, op, wakers)
  {
    match op
    case Spawn(nullEntry) => SpawnThread(s, nullEntry)
    case Terminate(t) => TerminateThread(s, t, wakers)
    case Block(t) => BlockThread(s, t, wakers)
    case Resume(t) => ResumeThread(s, t)
    case Sleep(n) => SleepThread(s, n, wakers)
    case Tick => HandleTick(s, wakers)
  }

  /** uthread_get_quantums. */
  function GetQuantums(s: Sched, tid: int): int {
    if tid !in s.threads then FAILURE else s.threads[tid].age
  }

  // ---------- The assertions ----------

  /** The asserts met inside run_topmost_thread_in_ready_queue: at the head of update_sleep_value, at
      the head of wake_up for those whose countdown is over, and on the front thread. */
  ghost predicate SwitchAssertsHold(p: Sched, wakers: seq<int>)
    requires WellFormed(p)
  {
    && (forall t <- p.sleeping :: p.threads[t].CountingDown())
    && (forall t <- p.sleeping :: p.threads[t].quantumsLeft < 1 ==>
          p.threads[t].(quantumsLeft := NOT_SLEEPING).IsSleeping())
    && var aged := Aged(p, wakers);
       aged.ready != [] && aged.ready[0] in aged.threads ==> aged.threads[aged.ready[0]].IsReady()
  }

  /** What the asserts on the way to a jump demand of the state they start from. */
  ghost predicate AbleToSwitch(s: Sched) {
    && WellFormed(s)
    && (forall t <- s.sleeping :: s.threads[t].CountingDown())
    && (forall t <- s.ready :: s.threads[t].IsReady())
  }

  /** The guards of uthreads.cpp let the operation through to the scheduler. */
  predicate PassesGuard(s: Sched, op: Op) {
    match op
    case Spawn(nullEntry) => !nullEntry
    case Terminate(t) => t != MAIN_THREAD_ID
    case Block(t) => t != MAIN_THREAD_ID
    case Resume(_) => true
    case Sleep(_) => s.runningId != MAIN_THREAD_ID
    case Tick => true
  }

  /** No assert fails while the operation is carried out. */
  ghost predicate AssertsHold(s: Sched, op: Op, wakers: seq<int>)
    requires Defined(s, op)
  {
    && (op.Block? && PassesGuard(s, op) ==> op.tid != 0)
    && (op.Sleep? && PassesGuard(s, op) ==> s.runningId != MAIN_THREAD_ID)
    && (op.Spawn? && !op.nullEntry && |s.threads| < MAX_THREAD_NUM ==> NewThread(GeneratedId(s)).IsReady())
    && (op.Block? && Suspends(s, op) ==> s.runningId == op.tid)
    && (Suspends(s, op) ==> SwitchAssertsHold(Suspend(s, op), wakers))
  }

  /** What an operation demands of the state it finds, read off its pointers and asserts. */
  ghost predicate Permits(s: Sched, op: Op) {
    && Defined(s, op)
    && (Suspends(s, op) ==> AbleToSwitch(Suspend(s, op)))
    && (Suspends(s, op) && op.Block? ==> s.runningId == op.tid)
    && (op.Terminate? && !Suspends(s, op) ==> WellFormed(TerminateThread(s, op.tid, []).sched))
  }
}
