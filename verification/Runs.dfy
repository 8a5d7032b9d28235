/** Runs: every finite sequence of API calls and timer ticks from the constructor state. */
module Runs {
  import opened ThreadModel
  import opened Queues
  import opened SchedulerModel
  import opened Invariant

  datatype Event = Event(op: Op, wakers: seq<int>)

  /** One operation carried out to its end: nothing dangles, no assert fails, the process goes on. */
  ghost predicate Step(s: Sched, e: Event, s': Sched) {
    && Defined(s, e.op)
    && Scheduled(s, e.op, e.wakers)
    && AssertsHold(s, e.op, e.wakers)
    && var o := Perform(s, e.op, e.wakers);
       o.control != Exit && o.sched == s'
  }

  ghost predicate StepAt(states: seq<Sched>, events: seq<Event>, i: nat)
    requires i < |events| && |states| == |events| + 1
  {
    Step(states[i], events[i], states[i + 1])
  }

  ghost predicate IsRun(states: seq<Sched>, events: seq<Event>) {
    && |states| == |events| + 1
    && states[0] == InitialSched()
    && forall i {:trigger StepAt(states, events, i)} :: 0 <= i < |events| ==> StepAt(states, events, i)
  }

  /** In a reachable state no operation follows a dangling pointer, and the only one that can trip
      an assert is a sleep(-1) by a thread other than main. */
  lemma OperationsAreSafe(s: Sched, op: Op, wakers: seq<int>)
    requires Inv(s)
    ensures Defined(s, op)
    ensures Scheduled(s, op, wakers) ==>
              (AssertsHold(s, op, wakers) <==> !(op == Sleep(-1) && s.runningId != MAIN_THREAD_ID))
  {
    if Suspends(s, op) && op != Sleep(-1) {
      SuspendCoherent(s, op);
      var p := Suspend(s, op);
      var front := p.ready[0];
      assert front in p.ready;
    }
    if op == Sleep(-1) && s.runningId != MAIN_THREAD_ID {
      assert s.runningId in Suspend(s, op).sleeping;
      assert !Suspend(s, op).threads[s.runningId].CountingDown();
    }
    if op.Spawn? && !op.nullEntry && |s.threads| < 100 {
      GeneratedIdIsFree(s);
    }
  }

  /** What run_topmost_thread_in_ready_queue leaves in the queue, and how it counts. */
  lemma RunTopmostQueue(p: Sched, wakers: seq<int>)
    requires WellFormed(p) && IsWakeOrder(p, wakers) && p.ready != []
    ensures var s' := RunTopmost(p, wakers).sched;
            s'.ready == p.ready[1..] + wakers && s'.totalQuantums == p.totalQuantums + 1
  {
    assert (p.ready + wakers)[1..] == p.ready[1..] + wakers;
  }

  lemma SuspendKeepsQueue(s: Sched, op: Op)
    requires s.runningId in s.threads && Suspends(s, op)
    ensures s.ready <= Suspend(s, op).ready && Suspend(s, op).totalQuantums == s.totalQuantums
  {
  }

  /** A suspending operation is run_topmost_thread_in_ready_queue on the state it leaves. */
  lemma PerformIsRunTopmost(s: Sched, op: Op, wakers: seq<int>)
    requires Defined(s, op) && Scheduled(s, op, wakers) && Suspends(s, op)
    requires RunTopmost(Suspend(s, op), wakers).control.JumpTo?
    ensures Perform(s, op, wakers) == RunTopmost(Suspend(s, op), wakers)
  {
  }

  /** Every switch finds a ready thread; which one it runs and what it leaves queued. */
  lemma SwitchOutcome(s: Sched, op: Op, wakers: seq<int>)
    requires Inv(s) && Suspends(s, op) && op != Sleep(-1)
    requires Defined(s, op) && Scheduled(s, op, wakers)
    ensures var p, o := Suspend(s, op), Perform(s, op, wakers);
            && Coherent(p, NOBODY)
            && MAIN_THREAD_ID in p.ready
            && s.ready <= p.ready
            && o == RunTopmost(p, wakers)
            && o.control == JumpTo(p.ready[0])
            && o.sched.runningId == p.ready[0]
            && o.sched.totalQuantums == s.totalQuantums + 1
            && o.sched.ready == p.ready[1..] + wakers
            && Inv(o.sched)
  {
    SuspendCoherent(s, op);
    var p := Suspend(s, op);
    RunTopmostRestoresInv(p, wakers);
    RunTopmostQueue(p, wakers);
    SuspendKeepsQueue(s, op);
    PerformIsRunTopmost(s, op, wakers);
  }

  /** What suspending the running thread means for any other one: nothing. */
  lemma SuspendKeepsOthers(s: Sched, op: Op, t: int)
    requires Inv(s) && Suspends(s, op) && t != s.runningId
    ensures var p := Suspend(s, op);
            && (t in p.threads <==> t in s.threads)
            && (t in p.sleeping <==> t in s.sleeping)
            && (t in s.threads ==> p.threads[t] == s.threads[t])
  {
  }

  /** Each thread is aged if it sleeps, and set running if it is the front of the queue. */
  lemma RunTopmostMovesThread(p: Sched, wakers: seq<int>, t: int)
    requires WellFormed(p) && IsWakeOrder(p, wakers) && p.ready != []
    ensures var s' := RunTopmost(p, wakers).sched;
            && (t in s'.threads <==> t in p.threads)
            && (t in s'.sleeping <==> t in p.sleeping && p.threads[t].UpdateSleepValue().IsSleeping())
            && (t in p.threads ==>
                  var aged := if t in p.sleeping then p.threads[t].UpdateSleepValue() else p.threads[t];
                  s'.threads[t] == if t == p.ready[0] then aged.SetRunning() else aged)
  {
    var front := p.ready[0];
    assert front in p.ready;
  }

  /** Across a switch, any other thread is aged if it sleeps, and set running if it is next. */
  lemma SwitchMovesThread(s: Sched, e: Event, s': Sched, t: int)
    requires Inv(s) && Step(s, e, s') && Suspends(s, e.op) && t != s.runningId
    ensures t in s'.threads <==> t in s.threads
    ensures t in s.threads ==>
              var aged := if t in s.sleeping then s.threads[t].UpdateSleepValue() else s.threads[t];
              s'.threads[t] == if t == s'.runningId then aged.SetRunning() else aged
  {
    OperationsAreSafe(s, e.op, e.wakers);
    SwitchOutcome(s, e.op, e.wakers);
    SuspendKeepsOthers(s, e.op, t);
    RunTopmostMovesThread(Suspend(s, e.op), e.wakers, t);
  }

  lemma ReplyKeepsInv(s: Sched, op: Op)
    requires Inv(s) && !Suspends(s, op) && Defined(s, op)
    ensures Inv(Perform(s, op, []).sched)
  {
    match op {
      case Spawn(nullEntry) => SpawnKeepsInv(s, nullEntry);
      case Terminate(t) => if t != s.runningId { TerminateOtherKeepsInv(s, t); }
      case Block(t) => if t != s.runningId { BlockOtherKeepsInv(s, t); }
      case Resume(t) => ResumeKeepsInv(s, t);
      case Sleep(_) =>
    }
  }

  lemma ReplyKeepsRunner(s: Sched, op: Op)
    requires Defined(s, op) && !Suspends(s, op)
    ensures var s' := Perform(s, op, []).sched;
            s'.totalQuantums == s.totalQuantums && s'.runningId == s.runningId
  {
  }

  lemma StepKeepsInv(s: Sched, e: Event, s': Sched)
    requires Inv(s) && Step(s, e, s')
    ensures Inv(s')
    ensures s'.totalQuantums == s.totalQuantums + if Suspends(s, e.op) then 1 else 0
    ensures !Suspends(s, e.op) ==> s'.runningId == s.runningId
  {
    OperationsAreSafe(s, e.op, e.wakers);
    if Suspends(s, e.op) {
      SwitchOutcome(s, e.op, e.wakers);
    } else {
      ReplyKeepsInv(s, e.op);
      ReplyKeepsRunner(s, e.op);
    }
  }

  /** The invariant holds in every state of every run. */
  lemma {:induction false} RunKeepsInv(states: seq<Sched>, events: seq<Event>, i: nat)
    requires IsRun(states, events) && i < |states|
    ensures Inv(states[i])
  {
    if i == 0 {
      InitialInv();
    } else {
      RunKeepsInv(states, events, i - 1);
      assert StepAt(states, events, i - 1);
      StepKeepsInv(states[i - 1], events[i - 1], states[i]);
    }
  }

  /** The i-th step of a run, with the invariant on both sides. */
  lemma RunStep(states: seq<Sched>, events: seq<Event>, i: nat)
    requires IsRun(states, events) && i < |events|
    ensures Inv(states[i]) && Step(states[i], events[i], states[i + 1]) && Inv(states[i + 1])
    ensures Suspends(states[i], events[i].op) ==> events[i].op != Sleep(-1)
  {
    RunKeepsInv(states, events, i);
    RunKeepsInv(states, events, i + 1);
    assert StepAt(states, events, i);
    OperationsAreSafe(states[i], events[i].op, events[i].wakers);
  }

  /** One more step makes a longer run. */
  lemma ExtendRun(states: seq<Sched>, events: seq<Event>, e: Event, s': Sched)
    requires IsRun(states, events) && Step(states[|events|], e, s')
    ensures IsRun(states + [s'], events + [e])
  {
    var longer, more := states + [s'], events + [e];
    forall i: nat | i < |more|
      ensures StepAt(longer, more, i)
    {
      assert i < |events| ==> StepAt(states, events, i);
    }
  }

  ghost predicate ReplyAt(states: seq<Sched>, events: seq<Event>, replies: seq<Control>, i: nat)
    requires i < |events| == |replies| && |states| == |events| + 1
  {
    var e := events[i];
    && Defined(states[i], e.op)
    && Scheduled(states[i], e.op, e.wakers)
    && Perform(states[i], e.op, e.wakers).control == replies[i]
  }

  /** What each operation of a run replied, or where it jumped. */
  ghost predicate RepliesAre(states: seq<Sched>, events: seq<Event>, replies: seq<Control>) {
    && |replies| == |events|
    && |states| == |events| + 1
    && forall i {:trigger ReplyAt(states, events, replies, i)} :: 0 <= i < |events| ==>
         ReplyAt(states, events, replies, i)
  }

  lemma ExtendReplies(states: seq<Sched>, events: seq<Event>, replies: seq<Control>,
                      e: Event, s': Sched, reply: Control)
    requires RepliesAre(states, events, replies)
    requires Defined(states[|events|], e.op) && Scheduled(states[|events|], e.op, e.wakers)
    requires Perform(states[|events|], e.op, e.wakers).control == reply
    ensures RepliesAre(states + [s'], events + [e], replies + [reply])
  {
    var longer, more, replied := states + [s'], events + [e], replies + [reply];
    forall i: nat | i < |more|
      ensures ReplyAt(longer, more, replied, i)
    {
      assert i < |events| ==> ReplyAt(states, events, replies, i);
    }
  }

  /** The operations after which the run goes on. */
  ghost predicate Proceeds(s: Sched, op: Op) {
    op != Terminate(MAIN_THREAD_ID) && !(op == Sleep(-1) && s.runningId != MAIN_THREAD_ID)
  }

  lemma ProceedingIsEnabled(s: Sched, op: Op) returns (e: Event)
    requires Inv(s) && Proceeds(s, op)
    ensures e.op == op && Defined(s, op) && Scheduled(s, op, e.wakers)
    ensures Step(s, e, Perform(s, op, e.wakers).sched)
  {
    e := Event(op, []);
    OperationsAreSafe(s, op, []);
    if Suspends(s, op) {
      var p := Suspend(s, op);
      var wakers := QueueOf(set t | t in p.sleeping && Wakes(p, t));
      assert IsWakeOrder(p, wakers);
      e := Event(op, wakers);
      SwitchOutcome(s, op, wakers);
      OperationsAreSafe(s, op, wakers);
    }
  }

  /** No reachable state is stuck: everything but ending the process, and the one failing assert, is a step. */
  lemma OperationsAreEnabled(s: Sched, op: Op)
    requires Inv(s)
    ensures (exists e: Event, s' :: e.op == op && Step(s, e, s')) <==> Proceeds(s, op)
  {
    forall e: Event, s' | e.op == op && Step(s, e, s')
      ensures Proceeds(s, op)
    {
      OperationsAreSafe(s, op, e.wakers);
    }
    if Proceeds(s, op) {
      var e := ProceedingIsEnabled(s, op);
    }
  }

  lemma ProceedingIsPermitted(s: Sched, op: Op)
    requires Inv(s) && Proceeds(s, op)
    ensures Permits(s, op)
  {
    OperationsAreSafe(s, op, []);
    if Suspends(s, op) {
      SuspendCoherent(s, op);
    } else if op.Terminate? {
      TerminateOtherKeepsInv(s, op.tid);
    }
  }

  /** In every run, every switch finds the main thread queued and jumps to the front of the queue:
      the failure branch for an empty ready queue is never taken. */
  lemma CpuIsNeverIdle(states: seq<Sched>, events: seq<Event>, i: nat)
    requires IsRun(states, events) && i < |events| && Suspends(states[i], events[i].op)
    ensures Step(states[i], events[i], states[i + 1])
    ensures var p := Suspend(states[i], events[i].op);
            && WellFormed(p)
            && MAIN_THREAD_ID in p.ready
            && RunTopmost(p, events[i].wakers) == Outcome(states[i + 1], JumpTo(p.ready[0]))
            && states[i + 1].runningId == p.ready[0]
  {
    RunStep(states, events, i);
    SwitchOutcome(states[i], events[i].op, events[i].wakers);
  }
}
