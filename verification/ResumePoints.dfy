/** Where a jump lands: never in an environment that was not saved, or that has since been used up. */
module ResumePoints {
  import opened ThreadModel
  import opened SchedulerModel
  import opened Invariant
  import opened Runs

  /** Where a thread taken off the CPU by this operation waits to be jumped back to. */
  function SiteOf(op: Op): CallSite
    requires op.Block? || op.Sleep? || op.Tick?
  {
    match op
    case Block(_) => InBlock
    case Sleep(_) => InSleep
    case Tick => InTimerHandler
  }

  ghost predicate TakesOff(s: Sched, op: Op, t: int) {
    Suspends(s, op) && t == s.runningId && !op.Terminate?
  }

  /** Where the history of a run says thread t should go on: in the call that took it off the CPU
      last, or at its entry if there was none since it was created. */
  ghost function LastSuspension(states: seq<Sched>, events: seq<Event>, t: int, i: nat): ResumePoint
    requires i < |states| && i <= |events|
  {
    if i == 0 then NeverSaved
    else if TakesOff(states[i - 1], events[i - 1].op, t)
    then SavedIn(SiteOf(events[i - 1].op), states[i - 1].totalQuantums)
    else if t !in states[i - 1].threads then AtEntry
    else LastSuspension(states, events, t, i - 1)
  }

  lemma SuspendSavesResumePoint(s: Sched, op: Op, t: int)
    requires Inv(s) && Suspends(s, op) && t in Suspend(s, op).threads
    ensures t in s.threads
    ensures Suspend(s, op).threads[t].resumePoint ==
              if TakesOff(s, op, t) then SavedIn(SiteOf(op), s.totalQuantums) else s.threads[t].resumePoint
  {
  }

  lemma RunTopmostKeepsResumePoint(p: Sched, wakers: seq<int>, t: int)
    requires WellFormed(p) && IsWakeOrder(p, wakers) && p.ready != [] && p.ready[0] in p.threads
    ensures var s' := RunTopmost(p, wakers).sched;
            t in s'.threads ==> t in p.threads && s'.threads[t].resumePoint == p.threads[t].resumePoint
  {
  }

  lemma SwitchSavesResumePoint(s: Sched, e: Event, s': Sched, t: int)
    requires Inv(s) && Step(s, e, s') && Suspends(s, e.op) && t in s'.threads
    ensures t in s.threads && t in Suspend(s, e.op).threads
    ensures s'.threads[t].resumePoint == Suspend(s, e.op).threads[t].resumePoint
    ensures s'.threads[t].resumePoint ==
              if TakesOff(s, e.op, t) then SavedIn(SiteOf(e.op), s.totalQuantums) else s.threads[t].resumePoint
  {
    OperationsAreSafe(s, e.op, e.wakers);
    SwitchOutcome(s, e.op, e.wakers);
    var p := Suspend(s, e.op);
    var front := p.ready[0];
    assert front in p.ready;
    RunTopmostKeepsResumePoint(p, e.wakers, t);
    SuspendSavesResumePoint(s, e.op, t);
  }

  lemma StepSavesResumePoint(s: Sched, e: Event, s': Sched, t: int)
    requires Inv(s) && Step(s, e, s') && t in s'.threads
    ensures TakesOff(s, e.op, t) ==> t in s.threads
    ensures s'.threads[t].resumePoint ==
              if TakesOff(s, e.op, t) then SavedIn(SiteOf(e.op), s.totalQuantums)
              else if t !in s.threads then AtEntry else s.threads[t].resumePoint
  {
    if Suspends(s, e.op) {
      SwitchSavesResumePoint(s, e, s', t);
    } else if e.op.Spawn? && !e.op.nullEntry && |s.threads| < 100 {
      GeneratedIdIsFree(s);
    }
  }

  /** In every state of every run, every thread holds the resume point its history demands. */
  lemma {:induction false} ResumePointsAreUpToDate(states: seq<Sched>, events: seq<Event>, i: nat, t: int)
    requires IsRun(states, events) && i < |states| && t in states[i].threads
    ensures states[i].threads[t].resumePoint == LastSuspension(states, events, t, i)
  {
    if i == 0 {
      assert states[0] == InitialSched();
    } else {
      RunStep(states, events, i - 1);
      var s, e, s' := states[i - 1], events[i - 1], states[i];
      StepSavesResumePoint(s, e, s', t);
      if t in s.threads && !TakesOff(s, e.op, t) {
        ResumePointsAreUpToDate(states, events, i - 1, t);
        assert s.threads[t].resumePoint == LastSuspension(states, events, t, i - 1);
        assert LastSuspension(states, events, t, i) == LastSuspension(states, events, t, i - 1);
      }
    }
  }

  /** Every jump in every run targets the point saved when the thread last left the CPU (in the very
      same step, when a tick returns to the thread it interrupts), or the entry of a thread that
      never ran. The main thread's is saved by then. */
  lemma JumpTargetIsUpToDate(states: seq<Sched>, events: seq<Event>, i: nat)
    requires IsRun(states, events) && i < |events| && Suspends(states[i], events[i].op)
    ensures var target := states[i + 1].runningId;
            && Defined(states[i], events[i].op)
            && target in Suspend(states[i], events[i].op).threads
            && var thread := Suspend(states[i], events[i].op).threads[target];
               && thread.resumePoint == LastSuspension(states, events, target, i + 1)
               && thread.resumePoint != NeverSaved
               && (thread.resumePoint == AtEntry <==> thread.age == 0)
  {
    RunStep(states, events, i);
    SwitchOutcome(states[i], events[i].op, events[i].wakers);
    var target := states[i + 1].runningId;
    ResumePointsAreUpToDate(states, events, i + 1, target);
    SwitchSavesResumePoint(states[i], events[i], states[i + 1], target);
    TargetIsResumable(Suspend(states[i], events[i].op), target);
  }

  lemma TargetIsResumable(p: Sched, t: int)
    requires Coherent(p, NOBODY) && t in p.threads
    ensures p.threads[t].resumePoint != NeverSaved
    ensures p.threads[t].resumePoint == AtEntry <==> p.threads[t].age == 0
  {
  }
}
