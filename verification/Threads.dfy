/** The thread object (thread.h, thread.cpp), each method proved against its value transition. */
module Threads {
  import opened ThreadModel

  class Thread {
    const id: int
    var state: ThreadState
    var resumePoint: ResumePoint
    var quantumsLeftToSleep: int
    var runningQuantumsNum: int

    function Data(): ThreadData
      reads this
    {
      ThreadData(id, state, resumePoint, quantumsLeftToSleep, runningQuantumsNum)
    }

    constructor (id: int)
      ensures Data() == NewThread(id)
    {
      this.id := id;
      state := Ready;
      resumePoint := NeverSaved;
      quantumsLeftToSleep := NOT_SLEEPING;
      runningQuantumsNum := 0;
      new;
      if id != MAIN_THREAD_ID {
        resumePoint := AtEntry;
      }
    }

    predicate IsRunning()
      reads this
    {
      state == Running
    }

    predicate IsReady()
      reads this
    {
      state == Ready
    }

    predicate IsBlocked()
      reads this
    {
      state == Blocked || state == BlockedAndSleeping
    }

    predicate IsSleeping()
      reads this
    {
      state == Sleeping || state == BlockedAndSleeping
    }

    method SetBlock()
      modifies this
      ensures Data() == old(Data()).SetBlock()
    {
      state := if state == Sleeping then BlockedAndSleeping else Blocked;
    }

    method SetReady()
      modifies this
      ensures Data() == old(Data()).SetReady()
    {
      state := Ready;
    }

    method SetRunning()
      modifies this
      ensures Data() == old(Data()).SetRunning()
    {
      state := Running;
      runningQuantumsNum := runningQuantumsNum + 1;
    }

    method SetSleep(numQuantums: int)
      modifies this
      ensures Data() == old(Data()).SetSleep(numQuantums)
    {
      state := if state == Blocked then BlockedAndSleeping else Sleeping;
      quantumsLeftToSleep := numQuantums;
    }

    method UpdateSleepValue()
      requires Data().CountingDown()
      modifies this
      ensures Data() == old(Data()).UpdateSleepValue()
    {
      assert IsSleeping() && quantumsLeftToSleep != NOT_SLEEPING;
      if quantumsLeftToSleep >= 1 {
        quantumsLeftToSleep := quantumsLeftToSleep - 1;
      } else {
        quantumsLeftToSleep := NOT_SLEEPING;
        WakeUp();
      }
    }

    method WakeUp()
      requires IsSleeping()
      modifies this
      ensures Data() == old(Data()).WakeUp()
    {
      if state == Sleeping {
        state := Ready;
      } else if state == BlockedAndSleeping {
        state := Blocked;
      }
    }

    method Unblock()
      modifies this
      ensures Data() == old(Data()).Unblock()
    {
      if !IsBlocked() {
        return;
      }
      if state == Blocked {
        state := Ready;
      } else {
        state := Sleeping;
      }
    }

    /** The first return of save_env; the second one arrives by a jump, see module Schedulers. */
    method SaveEnv(site: CallSite, quantum: int) returns (executedFromJump: bool)
      modifies this
      ensures Data() == old(Data()).SaveEnv(site, quantum)
      ensures !executedFromJump
    {
      resumePoint := SavedIn(site, quantum);
      executedFromJump := false;
    }
  }
}
