/** The value a thread holds at one instant, and its transitions (thread.h, thread.cpp).

    A saved `sigjmp_buf` is kept only as a resume point: where the next jump to the thread
    would continue, and the quantum in which that point was saved. */
module ThreadModel {
  const MAIN_THREAD_ID := 0
  const NOT_SLEEPING := -1

  datatype ThreadState = Running | Ready | Blocked | Sleeping | BlockedAndSleeping

  /** The three places that call save_env. */
  datatype CallSite = InBlock | InSleep | InTimerHandler

  datatype ResumePoint = NeverSaved | AtEntry | SavedIn(site: CallSite, quantum: int)

  datatype ThreadData = ThreadData(id: int, state: ThreadState, resumePoint: ResumePoint, quantumsLeft: int, age: int) {

    predicate IsRunning() {
      state == Running
    }

    predicate IsReady() {
      state == Ready
    }

    predicate IsBlocked() {
      state == Blocked || state == BlockedAndSleeping
    }

    predicate IsSleeping() {
      state == Sleeping || state == BlockedAndSleeping
    }

    function SetBlock(): ThreadData {
      this.(state := if state == Sleeping then BlockedAndSleeping else Blocked)
    }

    function SetReady(): ThreadData {
      this.(state := Ready)
    }

    function SetRunning(): ThreadData {
      this.(state := Running, age := age + 1)
    }

    function SetSleep(quantums: int): ThreadData {
      this.(state := if state == Blocked then BlockedAndSleeping else Sleeping, quantumsLeft := quantums)
    }

    function Unblock(): ThreadData {
      match state
      case Blocked => this.(state := Ready)
      case BlockedAndSleeping => this.(state := Sleeping)
      case _ => this
    }

    function WakeUp(): ThreadData {
      match state
      case Sleeping => this.(state := Ready)
      case BlockedAndSleeping => this.(state := Blocked)
      case _ => this
    }

    /** What the assert at the head of update_sleep_value demands. */
    predicate CountingDown() {
      IsSleeping() && quantumsLeft != NOT_SLEEPING
    }

    function UpdateSleepValue(): ThreadData {
      if quantumsLeft >= 1 then this.(quantumsLeft := quantumsLeft - 1)
      else this.(quantumsLeft := NOT_SLEEPING).WakeUp()
    }

    function SaveEnv(site: CallSite, quantum: int): ThreadData {
      this.(resumePoint := SavedIn(site, quantum))
    }
  }

  /** A thread as its constructor leaves it; only the main thread gets no resume point. */
  function NewThread(id: int): ThreadData {
    ThreadData(id, Ready, if id != MAIN_THREAD_ID then AtEntry else NeverSaved, NOT_SLEEPING, 0)
  }

  /** The thread after k rounds of ageing. */
  function AgedTimes(d: ThreadData, k: nat): ThreadData {
    if k == 0 then d else AgedTimes(d, k - 1).UpdateSleepValue()
  }

  /** A sleep of n lasts n rounds and ends in the next one; a negative n, -1 apart, acts like 0. The
      assert in front of each round holds, and a thread that was blocked is blocked again at the end. */
  lemma {:induction false} SleepLastsExactly(d: ThreadData, n: int, k: nat)
    requires n != -1
    ensures var asleep, rounds := d.SetSleep(n), if n > 0 then n else 0;
            && (k <= rounds ==> AgedTimes(asleep, k) == asleep.(quantumsLeft := n - k)
                                && AgedTimes(asleep, k).CountingDown())
            && (k == rounds + 1 ==>
                  AgedTimes(asleep, k)
                  == d.(state := if d.state == Blocked then Blocked else Ready, quantumsLeft := NOT_SLEEPING))
  {
    if k > 0 {
      SleepLastsExactly(d, n, k - 1);
    }
  }

  /** Being blocked and being asleep come and go independently of each other, except that blocking,
      or putting to sleep, a thread that is both already makes it forget the other one. */
  lemma FlagsAreIndependent(d: ThreadData, n: int)
    ensures d.SetBlock().IsBlocked() && (d.SetBlock().IsSleeping() == d.IsSleeping() <==> d.state != BlockedAndSleeping)
    ensures d.SetSleep(n).IsSleeping()
            && (d.SetSleep(n).IsBlocked() == d.IsBlocked() <==> d.state != BlockedAndSleeping)
    ensures !d.Unblock().IsBlocked() && d.Unblock().IsSleeping() == d.IsSleeping()
    ensures !d.WakeUp().IsSleeping() && d.WakeUp().IsBlocked() == d.IsBlocked()
    ensures d.SetBlock().Unblock() == d <==> d.state in {Ready, Sleeping}
  {
  }
}
