/** Laws of the API in every reachable state: reply codes, calls without effect, round trips. */
module Laws {
  import opened ThreadModel
  import opened Queues
  import opened SchedulerModel
  import opened Invariant
  import opened Runs

  /** Exactly when an operation fails. */
  ghost predicate Fails(s: Sched, op: Op) {
    match op
    case Spawn(nullEntry) => nullEntry || |s.threads| == 100
    case Terminate(t) => t !in s.threads
    case Block(t) => t == MAIN_THREAD_ID || t !in s.threads
    case Resume(t) => t !in s.threads
    case Sleep(_) => s.runningId == MAIN_THREAD_ID
    case Tick => false
  }

  /** A failing call replies -1 and changes nothing; a suspending call does not reply before it is
      jumped back to; a spawn replies with the least free id; every other call replies 0. */
  lemma RepliesAreExact(s: Sched, op: Op, wakers: seq<int>)
    requires Inv(s) && Proceeds(s, op)
    requires Defined(s, op) && Scheduled(s, op, wakers)
    ensures var o := Perform(s, op, wakers);
            && (o.control == Return(-1) <==> Fails(s, op))
            && (Fails(s, op) ==> o.sched == s)
            && (o.control.JumpTo? <==> Suspends(s, op))
            && (op.Spawn? && !Fails(s, op) ==>
                  exists id :: o.control == Return(id) && 1 <= id <= 99 && id in o.sched.threads
                               && id !in s.threads && forall t | 0 <= t < id :: t in s.threads)
            && (o.control == Return(0) <==> !op.Spawn? && !Fails(s, op) && !Suspends(s, op))
  {
    if op.Spawn? && !Fails(s, op) {
      GeneratedIdIsFree(s);
    }
  }

  /** The guards of uthreads.cpp stop a call without effect, and what they let through fails only
      for a missing thread or at the limit. */
  lemma GuardsAreExact(s: Sched, op: Op, wakers: seq<int>)
    requires Inv(s) && Defined(s, op) && Scheduled(s, op, wakers)
    ensures var o := Perform(s, op, wakers);
            && (!PassesGuard(s, op) ==> o == Outcome(s, if op.Terminate? then Exit else Return(-1)))
            && (PassesGuard(s, op) ==>
                  && o.control != Exit
                  && (o.control == Return(-1) ==>
                        match op
                        case Spawn(_) => |s.threads| == 100
                        case Terminate(t) => t !in s.threads
                        case Block(t) => t !in s.threads
                        case Resume(t) => t !in s.threads
                        case _ => false))
  {
    if op.Spawn? && PassesGuard(s, op) && |s.threads| < 100 {
      GeneratedIdIsFree(s);
    }
  }

  /** The threads in state Blocked. */
  ghost function BlockedThreads(s: Sched): set<int> {
    set t | t in s.threads && s.threads[t].state == Blocked
  }

  /** Every active thread is in exactly one place: on the CPU, queued once, asleep or blocked. */
  lemma ThreadsAreCountedOnce(s: Sched)
    requires Inv(s)
    ensures |s.threads| == 1 + |s.ready| + |s.sleeping| + |BlockedThreads(s)|
    ensures |s.threads| <= 100
  {
    var queued := set t | t in s.ready;
    QueueCardinality(s.ready, queued);
    var rest := queued + s.sleeping + BlockedThreads(s);
    forall t: int
      ensures t in s.threads.Keys <==> t in {s.runningId} + rest
      ensures t in queued ==> t !in s.sleeping && t !in BlockedThreads(s)
      ensures t in s.sleeping ==> t !in BlockedThreads(s)
    {
    }
    assert s.threads.Keys == {s.runningId} + rest;
    assert queued !! s.sleeping && (queued + s.sleeping) !! BlockedThreads(s);
  }

  lemma {:induction false} QueueCardinality(q: seq<int>, members: set<int>)
    requires NoDuplicates(q) && forall t :: t in members <==> t in q
    ensures |members| == |q|
  {
    if q == [] {
      assert forall t: int :: t !in members;
      assert members == {};
    } else {
      var front, last := q[..|q| - 1], q[|q| - 1];
      assert q == front + [last] && last in q;
      assert forall t: int :: t in members - {last} <==> t in front;
      QueueCardinality(front, members - {last});
    }
  }

  /** Blocking changes something exactly for a thread, not main, that is ready or running; resuming
      exactly for a blocked one. A sleeping thread is out of reach of both. */
  lemma EffectIsExact(s: Sched, t: int, wakers: seq<int>)
    requires Inv(s) && Defined(s, Block(t)) && Scheduled(s, Block(t), wakers)
    ensures BlockThread(s, t, wakers).sched != s
            <==> t != MAIN_THREAD_ID && t in s.threads && s.threads[t].state in {Ready, Running}
    ensures ResumeThread(s, t).sched != s <==> t in s.threads && s.threads[t].state == Blocked
    ensures t in s.sleeping ==> BlockThread(s, t, wakers) == ResumeThread(s, t) == Outcome(s, Return(0))
  {
  }

  /** Blocking a ready thread and resuming it moves it to the back of the queue and does nothing
      else; blocking it twice is blocking it once. */
  lemma BlockThenResume(s: Sched, t: int)
    requires Inv(s) && t in s.ready && t != MAIN_THREAD_ID
    ensures var s1 := BlockThread(s, t, []).sched;
            && Inv(s1)
            && BlockThread(s1, t, []) == Outcome(s1, Return(0))
            && ResumeThread(s1, t).sched == s.(ready := Erase(s.ready, t) + [t])
  {
    BlockOtherKeepsInv(s, t);
    var s1 := BlockThread(s, t, []).sched;
    var s2 := ResumeThread(s1, t).sched;
    assert s2.threads == s.threads;
  }

  /** Terminating a thread just spawned undoes the spawn, but for the id pool. */
  lemma SpawnedThreadCanGo(s: Sched)
    requires Inv(s) && |s.threads| < 100
    ensures var s1, id := SpawnThread(s, false).sched, GeneratedId(s);
            && Inv(s1) && id != s1.runningId && id != MAIN_THREAD_ID
            && TerminateThread(s1, id, []).sched == s1.(threads := s.threads, ready := s.ready,
                                                        unusedIds := s1.unusedIds + multiset{id})
  {
    var s1, id := SpawnThread(s, false).sched, GeneratedId(s);
    GeneratedIdIsFree(s);
    SpawnKeepsInv(s, false);
    assert id !in s.ready && s1.threads[id].state == Ready;
    EraseAt(s1.ready, id, |s.ready|);
    var s2 := TerminateThread(s1, id, []).sched;
    assert s2.ready == s.ready;
    assert s2.threads == s.threads;
  }

  /** Spawning, terminating the new thread and spawning again gives the same id and a thread that
      starts from zero. If the id was a recycled one, the first two calls cancel out altogether;
      if it was a new one, they leave it as the only recycled id. */
  lemma SpawnThenTerminate(s: Sched)
    requires Inv(s) && |s.threads| < 100
    ensures var s1, id := SpawnThread(s, false).sched, GeneratedId(s);
            && Inv(s1) && id != s1.runningId
            && var s2 := TerminateThread(s1, id, []).sched;
               && s2 == (if AnyUnused(s.unusedIds) then s
                         else s.(largestId := id, unusedIds := multiset{id}))
               && SpawnThread(s2, false) == Outcome(s1, Return(id))
               && GetQuantums(s1, id) == 0
  {
    SpawnedThreadCanGo(s);
    var s1, id := SpawnThread(s, false).sched, GeneratedId(s);
    PoolAfterRoundTrip(s.unusedIds);
    var s2 := TerminateThread(s1, id, []).sched;
    if !AnyUnused(s.unusedIds) {
      OnlyOneUnused(s2.unusedIds, id);
    }
  }

  lemma PoolAfterRoundTrip(ids: multiset<int>)
    ensures if AnyUnused(ids) then ids - multiset{Least(ids)} + multiset{Least(ids)} == ids else ids == multiset{}
  {
    if !AnyUnused(ids) {
      assert forall t: int :: ids[t] == 0;
    }
  }

  lemma OnlyOneUnused(ids: multiset<int>, id: int)
    requires ids == multiset{id}
    ensures AnyUnused(ids) && Least(ids) == id && ids - multiset{id} == multiset{}
  {
  }
}
