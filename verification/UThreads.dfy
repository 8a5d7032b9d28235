/** The API of uthreads.h and its guards (uthreads.cpp). Each call, and each timer tick, is one step
    of a run and keeps the object valid and its value coherent, so that everything proved of runs
    holds of the object (see Driver). The scheduler, a singleton in the source, is a parameter. */
module UThreads {
  import opened ThreadModel
  import opened SchedulerModel
  import opened Invariant
  import opened Runs
  import opened Laws
  import opened Schedulers

  method UThreadInit(quantumUsecs: int) returns (code: int, scheduler: Scheduler?)
    ensures code == if quantumUsecs <= 0 then -1 else 0
    ensures scheduler == null <==> quantumUsecs <= 0
    ensures scheduler != null ==>
              && fresh(scheduler) && fresh(scheduler.activeThreads.Values) && scheduler.Valid()
              && scheduler.State() == InitialSched() && Inv(scheduler.State())
  {
    if quantumUsecs <= 0 {
      return FAILURE, null;
    }
    scheduler := new Scheduler();
    InitialInv();
    code := SUCCESS;
  }

  method UThreadSpawn(scheduler: Scheduler, nullEntry: bool) returns (code: int)
    requires scheduler.Valid() && Inv(scheduler.State())
    modifies scheduler
    ensures scheduler.Valid() && Inv(scheduler.State())
    ensures fresh(scheduler.activeThreads.Values - old(scheduler.activeThreads.Values))
    ensures Step(old(scheduler.State()), Event(Spawn(nullEntry), []), scheduler.State())
    ensures Return(code) == Perform(old(scheduler.State()), Spawn(nullEntry), []).control
    ensures code == -1 <==> nullEntry || |old(scheduler.State()).threads| == 100
    ensures code != -1 ==>
              1 <= code <= 99 && code !in old(scheduler.State()).threads && code in scheduler.State().threads
  {
    ghost var s := scheduler.State();
    OperationsAreSafe(s, Spawn(nullEntry), []);
    RepliesAreExact(s, Spawn(nullEntry), []);
    if nullEntry {
      return FAILURE;
    }
    assert s.threads.Keys == scheduler.activeThreads.Keys;
    if |scheduler.activeThreads| < MAX_THREAD_NUM {
      GeneratedIdIsFree(s);
    }
    code := scheduler.CreateThreadAndPushToReady();
    StepKeepsInv(s, Event(Spawn(nullEntry), []), scheduler.State());
  }

  method UThreadTerminate(scheduler: Scheduler, tid: int) returns (control: Control, ghost wakers: seq<int>)
    requires scheduler.Valid() && Inv(scheduler.State())
    modifies scheduler, scheduler.activeThreads.Values
    ensures scheduler.Valid() && Inv(scheduler.State())
    ensures fresh(scheduler.activeThreads.Values - old(scheduler.activeThreads.Values))
    ensures control == Exit <==> tid == MAIN_THREAD_ID
    ensures tid == MAIN_THREAD_ID ==> scheduler.State() == old(scheduler.State())
    ensures tid != MAIN_THREAD_ID ==>
              && Step(old(scheduler.State()), Event(Terminate(tid), wakers), scheduler.State())
              && control == Perform(old(scheduler.State()), Terminate(tid), wakers).control
              && (control == Return(-1) <==> tid !in old(scheduler.State()).threads)
              && (control.JumpTo? <==> tid == old(scheduler.runningThreadId))
              && (control.JumpTo? || control == Return(-1) || control == Return(0))
  {
    if tid == MAIN_THREAD_ID {
      return Exit, [];
    }
    ghost var s := scheduler.State();
    ProceedingIsPermitted(s, Terminate(tid));
    control, wakers := scheduler.TerminateThread(tid);
    PerformedIsStep(s, Event(Terminate(tid), wakers));
  }

  method UThreadBlock(scheduler: Scheduler, tid: int) returns (control: Control, ghost wakers: seq<int>)
    requires scheduler.Valid() && Inv(scheduler.State())
    modifies scheduler, scheduler.activeThreads.Values
    ensures scheduler.Valid() && Inv(scheduler.State())
    ensures fresh(scheduler.activeThreads.Values - old(scheduler.activeThreads.Values))
    ensures Step(old(scheduler.State()), Event(Block(tid), wakers), scheduler.State())
    ensures control == Perform(old(scheduler.State()), Block(tid), wakers).control
    ensures control == Return(-1) <==> tid == 0 || tid !in old(scheduler.State()).threads
    ensures control.JumpTo? <==> tid == old(scheduler.runningThreadId) != 0
    ensures control.JumpTo? || control == Return(-1) || control == Return(0)
  {
    ghost var s := scheduler.State();
    ProceedingIsPermitted(s, Block(tid));
    if tid == MAIN_THREAD_ID {
      control, wakers := Return(FAILURE), [];
    } else {
      control, wakers := scheduler.BlockThread(tid);
    }
    PerformedIsStep(s, Event(Block(tid), wakers));
  }

  method UThreadResume(scheduler: Scheduler, tid: int) returns (code: int)
    requires scheduler.Valid() && Inv(scheduler.State())
    modifies scheduler, scheduler.activeThreads.Values
    ensures scheduler.Valid() && Inv(scheduler.State())
    ensures fresh(scheduler.activeThreads.Values - old(scheduler.activeThreads.Values))
    ensures Step(old(scheduler.State()), Event(Resume(tid), []), scheduler.State())
    ensures Return(code) == Perform(old(scheduler.State()), Resume(tid), []).control
    ensures code == if tid in old(scheduler.State()).threads then 0 else -1
  {
    ghost var s := scheduler.State();
    ProceedingIsPermitted(s, Resume(tid));
    code := scheduler.ResumeThread(tid);
    PerformedIsStep(s, Event(Resume(tid), []));
  }

  /** The argument is not checked by the source; -1 from a thread other than main fails an assert. */
  method UThreadSleep(scheduler: Scheduler, numQuantums: int) returns (control: Control, ghost wakers: seq<int>)
    requires scheduler.Valid() && Inv(scheduler.State())
    requires numQuantums == -1 ==> scheduler.runningThreadId == MAIN_THREAD_ID
    modifies scheduler, scheduler.activeThreads.Values
    ensures scheduler.Valid() && Inv(scheduler.State())
    ensures fresh(scheduler.activeThreads.Values - old(scheduler.activeThreads.Values))
    ensures Step(old(scheduler.State()), Event(Sleep(numQuantums), wakers), scheduler.State())
    ensures control == Perform(old(scheduler.State()), Sleep(numQuantums), wakers).control
    ensures if old(scheduler.runningThreadId) == 0 then control == Return(-1) else control.JumpTo?
  {
    ghost var s := scheduler.State();
    ProceedingIsPermitted(s, Sleep(numQuantums));
    if scheduler.runningThreadId == MAIN_THREAD_ID {
      control, wakers := Return(FAILURE), [];
    } else {
      control, wakers := scheduler.SleepThread(numQuantums);
    }
    PerformedIsStep(s, Event(Sleep(numQuantums), wakers));
  }

  method StaticExternalTimeHandler(scheduler: Scheduler) returns (control: Control, ghost wakers: seq<int>)
    requires scheduler.Valid() && Inv(scheduler.State())
    modifies scheduler, scheduler.activeThreads.Values
    ensures scheduler.Valid() && Inv(scheduler.State())
    ensures fresh(scheduler.activeThreads.Values - old(scheduler.activeThreads.Values))
    ensures Step(old(scheduler.State()), Event(Tick, wakers), scheduler.State())
    ensures control == Perform(old(scheduler.State()), Tick, wakers).control == JumpTo(scheduler.runningThreadId)
  {
    ghost var s := scheduler.State();
    ProceedingIsPermitted(s, Tick);
    control, wakers := scheduler.InternalTimeHandler();
    PerformedIsStep(s, Event(Tick, wakers));
    SwitchOutcome(s, Tick, wakers);
  }

  method UThreadGetTid(scheduler: Scheduler) returns (tid: int)
    requires scheduler.Valid() && Inv(scheduler.State())
    ensures tid in scheduler.State().threads && scheduler.State().threads[tid].IsRunning()
  {
    tid := scheduler.runningThreadId;
  }

  method UThreadGetTotalQuantums(scheduler: Scheduler) returns (total: int)
    ensures total == scheduler.State().totalQuantums
  {
    total := scheduler.totalQuantums;
  }

  method UThreadGetQuantums(scheduler: Scheduler, tid: int) returns (quantums: int)
    requires scheduler.Valid() && Inv(scheduler.State())
    ensures quantums == GetQuantums(scheduler.State(), tid)
    ensures quantums == -1 <==> tid !in scheduler.activeThreads
  {
    quantums := scheduler.GetQuantumsRunningNum(tid);
    assert tid in scheduler.activeThreads <==> tid in scheduler.State().threads;
  }

  lemma PerformedIsStep(s: Sched, e: Event)
    requires Inv(s) && Proceeds(s, e.op)
    requires Defined(s, e.op) && Scheduled(s, e.op, e.wakers)
    ensures Step(s, e, Perform(s, e.op, e.wakers).sched)
    ensures Inv(Perform(s, e.op, e.wakers).sched)
    ensures var control := Perform(s, e.op, e.wakers).control;
            && (control == Return(-1) <==> Fails(s, e.op))
            && (control.JumpTo? <==> Suspends(s, e.op))
            && (control == Return(0) <==> !e.op.Spawn? && !Fails(s, e.op) && !Suspends(s, e.op))
  {
    OperationsAreSafe(s, e.op, e.wakers);
    if Suspends(s, e.op) {
      SwitchOutcome(s, e.op, e.wakers);
    }
    StepKeepsInv(s, e, Perform(s, e.op, e.wakers).sched);
    RepliesAreExact(s, e.op, e.wakers);
  }
}
