/** The scheduler object (scheduler.h, scheduler.cpp): containers of threads updated in place, each
    method proved to turn the value of the object into the value SchedulerModel gives.

    A method returns JumpTo where do_jump leaves the call for another thread. A thread jumped back
    to continues behind its save_env with executedFromJump set; the Finish methods are that code,
    entered either way. */
module Schedulers {
  import opened ThreadModel
  import opened Queues
  import opened SchedulerModel
  import opened Ageing
  import opened Threads

  function Ids(ts: seq<Thread>): seq<int> {
    seq(|ts|, i requires 0 <= i < |ts| => ts[i].id)
  }

  function IdSet(ts: set<Thread>): set<int> {
    set t | t in ts :: t.id
  }

  lemma IdSetWithout(ts: set<Thread>, t: Thread)
    requires forall u <- ts :: u.id == t.id ==> u == t
    ensures IdSet(ts - {t}) == IdSet(ts) - {t.id}
  {
  }

  /** The state in which a running thread has saved its environment and is then marked blocked. */
  ghost function WithBlocked(s: Sched, t: int): Sched
    requires t in s.threads
  {
    s.(threads := s.threads[t := s.threads[t].SetBlock()])
  }

  class Scheduler {
    var largestThreadId: int
    var runningThreadId: int
    var totalQuantums: int
    var unusedThreadIds: multiset<int>
    var activeThreads: map<int, Thread>
    var sleepingThreads: set<Thread>
    var readyQueue: seq<Thread>

    /** Every thread pointer is live and filed under the id of its thread. */
    ghost predicate Valid()
      reads this
    {
      && (forall i <- activeThreads :: activeThreads[i].id == i)
      && (forall t <- sleepingThreads :: t.id in activeThreads && activeThreads[t.id] == t)
      && (forall t <- readyQueue :: t.id in activeThreads && activeThreads[t.id] == t)
    }

    /** The value of the object. */
    ghost function State(): Sched
      reads this, activeThreads.Values
    {
      Sched(totalQuantums, runningThreadId, largestThreadId, unusedThreadIds,
            map i | i in activeThreads :: activeThreads[i].Data(),
            IdSet(sleepingThreads),
            Ids(readyQueue))
    }

    lemma StateIsWellFormed()
      requires Valid()
      ensures WellFormed(State())
    {
    }

    /** Updating one thread object changes one entry of the value. */
    twostate lemma OnlyThreadChanged(t: Thread)
      requires old(Valid()) && t.id in old(activeThreads) && old(activeThreads)[t.id] == t
      requires activeThreads == old(activeThreads)
      requires forall i <- activeThreads :: i != t.id ==> unchanged(activeThreads[i])
      ensures State().threads == old(State()).threads[t.id := t.Data()]
    {
      forall i: int | i in activeThreads
        ensures State().threads[i] == old(State()).threads[t.id := t.Data()][i]
      {
      }
      assert State().threads.Keys == old(State()).threads.Keys;
    }

    /** The constructor, up to starting the timer. */
    constructor ()
      ensures Valid() && fresh(activeThreads.Values)
      ensures State() == InitialSched()
    {
      runningThreadId := MAIN_THREAD_ID;
      totalQuantums := 1;
      largestThreadId := MAIN_THREAD_ID;
      unusedThreadIds := multiset{MAIN_THREAD_ID};
      activeThreads := map[];
      sleepingThreads := {};
      readyQueue := [];
      new;
      assert MAIN_THREAD_ID in unusedThreadIds;
      var mainThread := CreateThread();
      assert mainThread != null;
      activeThreads := activeThreads[MAIN_THREAD_ID := mainThread];
      mainThread.SetRunning();
    }

    method GenerateThreadId() returns (id: int)
      modifies `unusedThreadIds, `largestThreadId
      ensures id == GeneratedId(old(State())) && State() == GenerateId(old(State()))
    {
      if AnyUnused(unusedThreadIds) {
        LeastExists(unusedThreadIds);
        id :| id in unusedThreadIds && forall x <- unusedThreadIds :: id <= x;
        unusedThreadIds := unusedThreadIds - multiset{id};
      } else {
        largestThreadId := largestThreadId + 1;
        id := largestThreadId;
      }
    }

    method CreateThread() returns (t: Thread?)
      modifies `unusedThreadIds, `largestThreadId
      ensures t == null <==> |activeThreads| >= 100
      ensures t == null ==> State() == old(State())
      ensures t != null ==>
                && fresh(t) && t.Data() == NewThread(GeneratedId(old(State())))
                && State() == GenerateId(old(State()))
    {
      if |activeThreads| >= MAX_THREAD_NUM {
        return null;
      }
      var id := GenerateThreadId();
      t := new Thread(id);
    }

    method CreateThreadAndPushToReady() returns (code: int)
      requires Valid()
      requires |activeThreads| < MAX_THREAD_NUM ==> GeneratedId(State()) !in activeThreads
      modifies `unusedThreadIds, `largestThreadId, `activeThreads, `readyQueue
      ensures Valid() && fresh(activeThreads.Values - old(activeThreads.Values))
      ensures Outcome(State(), Return(code)) == SpawnThread(old(State()), false)
    {
      ghost var s := State();
      assert s.threads.Keys == activeThreads.Keys;
      var t := CreateThread();
      if t == null {
        return FAILURE;
      }
      assert State() == GenerateId(s);
      PushNewThread(t);
      code := t.id;
    }

    /** Files a thread just created under its id and queues it. */
    method PushNewThread(t: Thread)
      requires Valid() && t.id !in activeThreads && t.IsReady()
      modifies `activeThreads, `readyQueue
      ensures Valid() && activeThreads.Values <= old(activeThreads.Values) + {t}
      ensures State() == old(State()).(threads := old(State()).threads[t.id := t.Data()],
                                       ready := old(State()).ready + [t.id])
    {
      ghost var s := State();
      activeThreads := activeThreads[t.id := t];
      assert t.IsReady();
      readyQueue := readyQueue + [t];
      assert State().threads == s.threads[t.id := t.Data()];
      assert State().ready == s.ready + [t.id];
    }

    method EraseThreadFromReadyQueue(tid: int) returns (code: int)
      modifies `readyQueue
      ensures State() == old(State()).(ready := Erase(old(State()).ready, tid))
      ensures forall t <- readyQueue :: t in old(readyQueue)
      ensures code == if tid in old(State()).ready then 0 else -1
    {
      var i := 0;
      while i < |readyQueue|
        invariant 0 <= i <= |readyQueue| && readyQueue == old(readyQueue)
        invariant tid !in Ids(readyQueue)[..i]
      {
        if readyQueue[i].id == tid {
          ghost var q := Ids(readyQueue);
          EraseAt(q, tid, i);
          readyQueue := readyQueue[..i] + readyQueue[i + 1..];
          assert Ids(readyQueue) == q[..i] + q[i + 1..];
          assert q[i] in q;
          return SUCCESS;
        }
        i := i + 1;
      }
      EraseAbsent(Ids(readyQueue), tid);
      return FAILURE;
    }

    /** The body of the loop below: age one sleeper, erase it if that woke it, queue it if it is ready. */
    method AgeSleeper(t: Thread)
      requires Valid() && t in sleepingThreads && t.Data().CountingDown()
      modifies `sleepingThreads, `readyQueue, t
      ensures Valid()
      ensures sleepingThreads == if t.IsSleeping() then old(sleepingThreads) else old(sleepingThreads) - {t}
      ensures t.id in old(State()).threads && State() == AgeOne(old(State()), t.id)
    {
      ghost var s := State();
      assert s.threads[t.id] == t.Data();
      t.UpdateSleepValue();
      OnlyThreadChanged(t);
      if !t.IsSleeping() {
        IdSetWithout(sleepingThreads, t);
        sleepingThreads := sleepingThreads - {t};
        if t.IsReady() {
          readyQueue := readyQueue + [activeThreads[t.id]];
          assert State().ready == s.ready + [t.id];
        }
      }
    }

    /** The walk over the sleepers of s is half way, having met `order`, with `todo` to come. */
    ghost predicate Walking(s: Sched, order: seq<int>, todo: set<Thread>)
      reads this, activeThreads.Values
    {
      && Valid()
      && WellFormed(s)
      && (forall t <- todo :: t in sleepingThreads && t.Data().CountingDown())
      && HalfWay(s.sleeping, order, IdSet(todo))
      && State() == AgeLoop(s, order)
    }

    method AgeNext(t: Thread, ghost s: Sched, ghost order: seq<int>, ghost todo: set<Thread>)
      requires Walking(s, order, todo) && t in todo
      modifies `sleepingThreads, `readyQueue, t
      ensures Walking(s, order + [t.id], todo - {t})
    {
      AgeSleeper(t);
      AgeLoopExtends(s, order, t.id);
      MeetNext(s.sleeping, order, IdSet(todo), t.id);
      IdSetWithout(todo, t);
    }

    /** Ages the sleepers in whatever order the set yields them, erasing while it goes. */
    method UpdateSleepingThreads() returns (ghost wakers: seq<int>)
      requires Valid()
      requires forall t <- sleepingThreads :: t.Data().CountingDown()
      modifies `sleepingThreads, `readyQueue, sleepingThreads
      ensures Valid()
      ensures WellFormed(old(State())) && IsWakeOrder(old(State()), wakers)
      ensures State() == Aged(old(State()), wakers)
    {
      ghost var s := State();
      StateIsWellFormed();
      ghost var order: seq<int> := [];
      var todo := sleepingThreads;
      while todo != {}
        invariant Walking(s, order, todo) && todo <= old(sleepingThreads)
        decreases todo
      {
        var t :| t in todo;
        AgeNext(t, s, order, todo);
        todo := todo - {t};
        order := order + [t.id];
      }
      wakers := WakersIn(s, order);
      AgeLoopIsAged(s, order);
    }

    /** Counts the new quantum and ages the sleepers with it. */
    method OpenQuantum() returns (ghost wakers: seq<int>)
      requires Valid() && AbleToSwitch(State())
      modifies `totalQuantums, `sleepingThreads, `readyQueue, sleepingThreads
      ensures Valid()
      ensures IsWakeOrder(old(State()), wakers)
      ensures var p := old(State()).(totalQuantums := old(State()).totalQuantums + 1);
              AbleToSwitch(p) && IsWakeOrder(p, wakers) && State() == Aged(p, wakers)
    {
      ghost var s := State();
      totalQuantums := totalQuantums + 1;
      ghost var p := State();
      assert p == s.(totalQuantums := s.totalQuantums + 1);
      ClockIsIrrelevant(s, totalQuantums);
      assert forall t <- sleepingThreads :: p.threads[t.id] == t.Data() && t.id in p.sleeping;
      wakers := UpdateSleepingThreads();
    }

    /** Opens a new quantum and jumps to the front of the ready queue, if there is one. */
    method RunTopmostThreadInReadyQueue() returns (control: Control, ghost wakers: seq<int>)
      requires Valid() && AbleToSwitch(State())
      modifies this, activeThreads.Values
      ensures Valid() && activeThreads == old(activeThreads)
      ensures IsWakeOrder(old(State()), wakers)
      ensures Outcome(State(), control) == RunTopmost(old(State()), wakers)
    {
      ghost var p := State().(totalQuantums := State().totalQuantums + 1);
      wakers := OpenQuantum();
      if readyQueue == [] {
        return Return(FAILURE), wakers;
      }
      FrontIsReady(p, wakers);
      var frontThread := readyQueue[0];
      assert frontThread in readyQueue && frontThread.id == State().ready[0];
      assert State().threads[frontThread.id] == frontThread.Data();
      DispatchFront(frontThread);
      control := JumpTo(frontThread.id);
    }

    method DispatchFront(frontThread: Thread)
      requires Valid() && readyQueue != [] && frontThread == readyQueue[0] && frontThread.IsReady()
      modifies `readyQueue, `runningThreadId, frontThread
      ensures Valid() && frontThread.id in old(State()).threads && old(State()).ready[0] == frontThread.id
      ensures State() == Dispatch(old(State()))
    {
      ghost var s := State();
      assert frontThread in readyQueue;
      readyQueue := readyQueue[1..];
      assert Ids(readyQueue) == s.ready[1..];
      assert frontThread.IsReady();
      frontThread.SetRunning();
      OnlyThreadChanged(frontThread);
      runningThreadId := frontThread.id;
    }

    /** Containers whose members were all filed in an earlier map, of which the present one is part,
        hold no dangling pointer if the value says so. */
    lemma ValidIfWellFormed(earlier: map<int, Thread>)
      requires forall i <- earlier :: earlier[i].id == i
      requires forall i <- activeThreads :: i in earlier && earlier[i] == activeThreads[i]
      requires forall t <- sleepingThreads :: t.id in earlier && earlier[t.id] == t
      requires forall t <- readyQueue :: t.id in earlier && earlier[t.id] == t
      requires WellFormed(State())
      ensures Valid()
    {
      forall t | t in readyQueue
        ensures t.id in activeThreads
      {
        var k :| 0 <= k < |readyQueue| && readyQueue[k] == t;
        assert Ids(readyQueue)[k] == t.id;
        assert t.id in State().ready;
      }
      forall t | t in sleepingThreads
        ensures t.id in activeThreads
      {
        assert t.id in State().sleeping;
      }
      assert forall t <- sleepingThreads :: t.id in earlier && earlier[t.id] == t;
      assert forall t <- readyQueue :: t.id in earlier && earlier[t.id] == t;
    }

    /** Takes a thread out of the map and recycles its id; the pointer stays with the caller. */
    method Unfile(tid: int)
      modifies `activeThreads, `unusedThreadIds
      ensures activeThreads == old(activeThreads) - {tid}
      ensures State() == old(State()).(threads := old(State()).threads - {tid},
                                       unusedIds := old(State()).unusedIds + multiset{tid})
    {
      ghost var s := State();
      activeThreads := activeThreads - {tid};
      unusedThreadIds := unusedThreadIds + multiset{tid};
      assert State().threads == s.threads - {tid};
    }

    /** Erases a thread that is off the CPU from the container its state names. */
    method EraseFromContainer(t: Thread)
      requires forall u <- sleepingThreads :: u.id == t.id ==> u == t
      modifies `sleepingThreads, `readyQueue
      ensures sleepingThreads <= old(sleepingThreads) && forall u <- readyQueue :: u in old(readyQueue)
      ensures var s := old(State());
              State() == s.(sleeping := if t.IsSleeping() then s.sleeping - {t.id} else s.sleeping,
                            ready := if t.IsReady() then Erase(s.ready, t.id) else s.ready)
    {
      ghost var s := State();
      if t.IsSleeping() {
        IdSetWithout(sleepingThreads, t);
        sleepingThreads := sleepingThreads - {t};
      }
      if t.IsReady() {
        var _ := EraseThreadFromReadyQueue(t.id);
      }
    }

    method TerminateThread(tid: int) returns (control: Control, ghost wakers: seq<int>)
      requires Valid() && Permits(State(), Terminate(tid)) && tid != MAIN_THREAD_ID
      modifies this, activeThreads.Values
      ensures Valid() && activeThreads.Values <= old(activeThreads.Values)
      ensures Scheduled(old(State()), Terminate(tid), wakers)
      ensures Outcome(State(), control) == Perform(old(State()), Terminate(tid), wakers)
    {
      ghost var s, earlier := State(), activeThreads;
      if tid !in activeThreads {
        return Return(FAILURE), [];
      }
      var threadToTerminate := activeThreads[tid];
      assert s.threads[tid] == threadToTerminate.Data();
      Unfile(tid);
      if threadToTerminate.IsRunning() {
        assert State() == Suspend(s, Terminate(tid));
        ValidIfWellFormed(earlier);
        control, wakers := RunTopmostThreadInReadyQueue();
        return if control.JumpTo? then control else Return(SUCCESS), wakers;
      }
      EraseFromContainer(threadToTerminate);
      ValidIfWellFormed(earlier);
      return Return(SUCCESS), [];
    }

    /** block_thread behind its save_env: entered with false by the call itself, with true by the
        jump that ends the block. */
    method FinishBlock(threadToBlock: Thread, executedFromJump: bool) returns (control: Control, ghost wakers: seq<int>)
      requires Valid() && threadToBlock.id in activeThreads && activeThreads[threadToBlock.id] == threadToBlock
      requires !executedFromJump ==> AbleToSwitch(WithBlocked(State(), threadToBlock.id))
      modifies this, activeThreads.Values
      ensures Valid() && activeThreads == old(activeThreads)
      ensures executedFromJump ==> State() == old(State()) && control == Return(0)
      ensures !executedFromJump ==>
                && IsWakeOrder(WithBlocked(old(State()), threadToBlock.id), wakers)
                && Outcome(State(), control)
                   == IgnoringFailure(RunTopmost(WithBlocked(old(State()), threadToBlock.id), wakers))
    {
      if executedFromJump {
        return Return(SUCCESS), [];
      }
      ghost var s := State();
      threadToBlock.SetBlock();
      OnlyThreadChanged(threadToBlock);
      assert State() == WithBlocked(s, threadToBlock.id);
      control, wakers := RunTopmostThreadInReadyQueue();
      return if control.JumpTo? then control else Return(SUCCESS), wakers;
    }

    method BlockThread(tid: int) returns (control: Control, ghost wakers: seq<int>)
      requires Valid() && Permits(State(), Block(tid)) && tid != MAIN_THREAD_ID
      modifies this, activeThreads.Values
      ensures Valid() && activeThreads == old(activeThreads)
      ensures Scheduled(old(State()), Block(tid), wakers)
      ensures Outcome(State(), control) == Perform(old(State()), Block(tid), wakers)
    {
      ghost var s := State();
      assert tid != MAIN_THREAD_ID;
      if tid !in activeThreads {
        return Return(FAILURE), [];
      }
      var threadToBlock := activeThreads[tid];
      assert s.threads[tid] == threadToBlock.Data();
      if threadToBlock.IsRunning() {
        assert runningThreadId == tid;
        var executedFromJump := threadToBlock.SaveEnv(InBlock, totalQuantums);
        OnlyThreadChanged(threadToBlock);
        assert WithBlocked(State(), tid) == Suspend(s, Block(tid));
        control, wakers := FinishBlock(threadToBlock, executedFromJump);
        return;
      } else if threadToBlock.IsReady() {
        var code := EraseThreadFromReadyQueue(tid);
        if code != SUCCESS {
          EraseAbsent(s.ready, tid);
          return Return(FAILURE), [];
        }
        threadToBlock.SetBlock();
        OnlyThreadChanged(threadToBlock);
      }
      return Return(SUCCESS), [];
    }

    method ResumeThread(tid: int) returns (code: int)
      requires Valid()
      modifies `readyQueue, activeThreads.Values
      ensures Valid() && activeThreads == old(activeThreads)
      ensures Outcome(State(), Return(code)) == SchedulerModel.ResumeThread(old(State()), tid)
    {
      ghost var s := State();
      if tid !in activeThreads {
        return FAILURE;
      }
      var threadToResume := activeThreads[tid];
      assert s.threads[tid] == threadToResume.Data();
      if !threadToResume.IsBlocked() {
        return SUCCESS;
      }
      threadToResume.Unblock();
      OnlyThreadChanged(threadToResume);
      if threadToResume.IsReady() {
        readyQueue := readyQueue + [threadToResume];
        assert Ids(readyQueue) == s.ready + [tid];
      }
      return SUCCESS;
    }

    /** sleep_thread and internal_time_handler behind their save_env, entered either way. */
    method FinishSwitch(executedFromJump: bool) returns (control: Control, ghost wakers: seq<int>)
      requires Valid() && (!executedFromJump ==> AbleToSwitch(State()))
      modifies this, activeThreads.Values
      ensures Valid() && activeThreads == old(activeThreads)
      ensures executedFromJump ==> State() == old(State()) && control == Return(0)
      ensures !executedFromJump ==>
                && IsWakeOrder(old(State()), wakers)
                && Outcome(State(), control) == IgnoringFailure(RunTopmost(old(State()), wakers))
    {
      if executedFromJump {
        return Return(SUCCESS), [];
      }
      control, wakers := RunTopmostThreadInReadyQueue();
      return if control.JumpTo? then control else Return(SUCCESS), wakers;
    }

    method PutRunningToSleep(numQuantums: int) returns (executedFromJump: bool)
      requires Valid() && runningThreadId in activeThreads && runningThreadId != MAIN_THREAD_ID
      modifies `sleepingThreads, activeThreads.Values
      ensures Valid() && activeThreads == old(activeThreads) && !executedFromJump
      ensures State() == Suspend(old(State()), Sleep(numQuantums))
    {
      ghost var s := State();
      var runningThread := activeThreads[runningThreadId];
      runningThread.SetSleep(numQuantums);
      sleepingThreads := sleepingThreads + {runningThread};
      executedFromJump := runningThread.SaveEnv(InSleep, totalQuantums);
      OnlyThreadChanged(runningThread);
      assert forall i: int :: i in State().sleeping <==> i in s.sleeping || i == runningThreadId;
      assert State().sleeping == s.sleeping + {runningThreadId};
    }

    method SleepThread(numQuantums: int) returns (control: Control, ghost wakers: seq<int>)
      requires Valid() && Permits(State(), Sleep(numQuantums)) && runningThreadId != MAIN_THREAD_ID
      modifies this, activeThreads.Values
      ensures Valid() && activeThreads == old(activeThreads)
      ensures Scheduled(old(State()), Sleep(numQuantums), wakers)
      ensures Outcome(State(), control) == Perform(old(State()), Sleep(numQuantums), wakers)
    {
      assert runningThreadId != MAIN_THREAD_ID;
      var executedFromJump := PutRunningToSleep(numQuantums);
      control, wakers := FinishSwitch(executedFromJump);
    }

    method RequeueRunning() returns (executedFromJump: bool)
      requires Valid() && runningThreadId in activeThreads
      modifies `readyQueue, activeThreads.Values
      ensures Valid() && activeThreads == old(activeThreads) && !executedFromJump
      ensures State() == Suspend(old(State()), Tick)
    {
      ghost var s := State();
      var runningThread := activeThreads[runningThreadId];
      runningThread.SetReady();
      readyQueue := readyQueue + [runningThread];
      executedFromJump := runningThread.SaveEnv(InTimerHandler, totalQuantums);
      OnlyThreadChanged(runningThread);
      assert Ids(readyQueue) == s.ready + [runningThreadId];
    }

    method InternalTimeHandler() returns (control: Control, ghost wakers: seq<int>)
      requires Valid() && Permits(State(), Tick)
      modifies this, activeThreads.Values
      ensures Valid() && activeThreads == old(activeThreads)
      ensures Scheduled(old(State()), Tick, wakers)
      ensures Outcome(State(), control) == Perform(old(State()), Tick, wakers)
    {
      var executedFromJump := RequeueRunning();
      control, wakers := FinishSwitch(executedFromJump);
    }

    /** get_quantoms_running_num. */
    method GetQuantumsRunningNum(tid: int) returns (quantums: int)
      requires Valid()
      ensures quantums == GetQuantums(State(), tid)
    {
      if tid !in activeThreads {
        return FAILURE;
      }
      quantums := activeThreads[tid].runningQuantumsNum;
    }
  }
}
