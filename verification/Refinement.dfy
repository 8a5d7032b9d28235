/** The concrete scheduler and the abstract one do the same, operation by operation and run by run. */
module Refinement {
  import opened ThreadModel
  import opened Queues
  import opened SchedulerModel
  import opened Invariant
  import opened Runs
  import opened AbstractScheduler

  /** What the user sees of a state: a countdown becomes the quantum in which it ends. */
  ghost function Abs(s: Sched): AbsState {
    AbsState(s.totalQuantums, s.runningId, s.ready,
             set t | t in s.threads && s.threads[t].state == Blocked,
             map t | t in s.threads && t in s.sleeping :: WakeQuantum(s.totalQuantums, s.threads[t].quantumsLeft))
  }

  lemma ActiveAreThreads(s: Sched)
    requires Inv(s)
    ensures Active(Abs(s)) == s.threads.Keys
  {
    forall t: int
      ensures t in Active(Abs(s)) <==> t in s.threads.Keys
    {
      if t in s.threads {
        assert s.threads[t].state == Ready ==> t in s.ready;
      }
    }
  }

  lemma SuspensionsAgree(s: Sched, op: Op)
    requires Inv(s) && op != Terminate(MAIN_THREAD_ID)
    ensures AbsSuspends(Abs(s), op) <==> Suspends(s, op)
  {
  }

  // ---------- Switching threads ----------

  /** What the next quantum makes of the places of one thread. */
  ghost predicate QuantumMoves(v: AbsState, wakers: seq<int>, v': AbsState, t: int) {
    && (t in v'.blocked <==> t in v.blocked)
    && (t in v'.wakeAt <==> t in v.wakeAt && v.wakeAt[t] != v.quantum + 1)
    && (t in v'.wakeAt ==> v'.wakeAt[t] == v.wakeAt[t])
    && (t in wakers <==> t in v.wakeAt && v.wakeAt[t] == v.quantum + 1)
  }

  lemma NextQuantumByThread(v: AbsState, wakers: seq<int>, v': AbsState)
    requires NoDuplicates(wakers) && forall t :: QuantumMoves(v, wakers, v', t)
    requires v'.quantum == v.quantum + 1 && v.ready + wakers == [v'.running] + v'.ready
    ensures NextQuantum(v, wakers, v', JumpTo(v'.running))
  {
    forall t: int
      ensures t in v'.blocked <==> t in v.blocked
      ensures t in v'.wakeAt <==> t in v.wakeAt && v.wakeAt[t] != v.quantum + 1
      ensures t in v'.wakeAt ==> v'.wakeAt[t] == v.wakeAt[t]
      ensures t in wakers <==> t in v.wakeAt && v.wakeAt[t] == v.quantum + 1
    {
      assert QuantumMoves(v, wakers, v', t);
    }
    assert v'.blocked == v.blocked;
    assert v'.wakeAt == map t | t in v.wakeAt && v.wakeAt[t] != v.quantum + 1 :: v.wakeAt[t];
  }

  lemma ThreadRefines(p: Sched, wakers: seq<int>, t: int)
    requires Coherent(p, NOBODY) && p.ready != [] && IsWakeOrder(p, wakers)
    ensures QuantumMoves(Abs(p), wakers, Abs(RunTopmost(p, wakers).sched), t)
  {
    RunTopmostMovesThread(p, wakers, t);
    RunTopmostQueue(p, wakers);
    var front := p.ready[0];
    assert front in p.ready;
  }

  /** run_topmost_thread_in_ready_queue starts the next abstract quantum. */
  lemma TopmostRefines(p: Sched, wakers: seq<int>)
    requires Coherent(p, NOBODY) && p.ready != [] && IsWakeOrder(p, wakers)
    ensures var o := RunTopmost(p, wakers);
            NextQuantum(Abs(p), wakers, Abs(o.sched), o.control)
  {
    var o := RunTopmost(p, wakers);
    var v, v' := Abs(p), Abs(o.sched);
    RunTopmostRestoresInv(p, wakers);
    RunTopmostQueue(p, wakers);
    forall t: int
      ensures QuantumMoves(v, wakers, v', t)
    {
      ThreadRefines(p, wakers, t);
    }
    assert p.ready + wakers == [v'.running] + v'.ready;
    NextQuantumByThread(v, wakers, v');
  }

  /** The threads due in the abstract scheduler are the wakers of the concrete one. */
  lemma WakersAgree(p: Sched, wakers: seq<int>, a': AbsState, control: Control)
    requires Coherent(p, NOBODY) && NextQuantum(Abs(p), wakers, a', control)
    ensures IsWakeOrder(p, wakers)
  {
  }

  lemma SuspendRefines(s: Sched, op: Op)
    requires Inv(s) && Suspends(s, op)
    ensures Abs(Suspend(s, op)) == AbsSuspend(Abs(s), op)
  {
    var v, p := AbsSuspend(Abs(s), op), Abs(Suspend(s, op));
    forall t: int
      ensures t in p.blocked <==> t in v.blocked
      ensures t in p.wakeAt <==> t in v.wakeAt
      ensures t in p.wakeAt ==> p.wakeAt[t] == v.wakeAt[t]
    {
      if t != s.runningId {
        SuspendKeepsOthers(s, op, t);
      }
    }
    assert p.blocked == v.blocked;
    assert p.wakeAt == v.wakeAt;
  }

  lemma SwitchRefines(s: Sched, e: Event, s': Sched)
    requires Inv(s) && Step(s, e, s') && Suspends(s, e.op)
    ensures AbsStep(Abs(s), e.op, e.wakers, Abs(s'), Perform(s, e.op, e.wakers).control)
  {
    OperationsAreSafe(s, e.op, e.wakers);
    SwitchOutcome(s, e.op, e.wakers);
    TopmostRefines(Suspend(s, e.op), e.wakers);
    SuspendRefines(s, e.op);
    SuspensionsAgree(s, e.op);
  }

  // ---------- Other operations ----------

  lemma SpawnView(s: Sched)
    requires Inv(s) && |s.threads| < 100
    ensures var s' := SpawnThread(s, false).sched;
            Abs(s') == Abs(s).(ready := s.ready + [GeneratedId(s)])
  {
  }

  lemma SpawnRefines(s: Sched, nullEntry: bool)
    requires Inv(s)
    ensures var o := SpawnThread(s, nullEntry);
            AbsSpawn(Abs(s), nullEntry, Abs(o.sched), o.control)
  {
    ActiveAreThreads(s);
    if !nullEntry && |s.threads| < 100 {
      GeneratedIdIsFree(s);
      SpawnView(s);
      assert IsLeastFree(GeneratedId(s), Active(Abs(s)));
    }
  }

  lemma TerminateOtherView(s: Sched, t: int)
    requires Inv(s) && t != MAIN_THREAD_ID && t != s.runningId && t in s.threads
    ensures var v, v' := Abs(s), Abs(TerminateThread(s, t, []).sched);
            && v'.blocked == v.blocked - {t}
            && v'.wakeAt == v.wakeAt - {t}
  {
  }

  lemma TerminateOtherRefines(s: Sched, t: int)
    requires Inv(s) && t != MAIN_THREAD_ID && t != s.runningId
    ensures var o := TerminateThread(s, t, []);
            AbsTerminate(Abs(s), t, Abs(o.sched), o.control)
  {
    ActiveAreThreads(s);
    if t in s.threads {
      TerminateOtherView(s, t);
      if t !in s.ready {
        EraseAbsent(s.ready, t);
      }
    }
  }

  lemma BlockRefines(s: Sched, t: int)
    requires Inv(s) && !Suspends(s, Block(t))
    ensures var o := BlockThread(s, t, []);
            AbsBlock(Abs(s), t, Abs(o.sched), o.control)
  {
  }

  lemma ResumeRefines(s: Sched, t: int)
    requires Inv(s)
    ensures var o := ResumeThread(s, t);
            AbsResume(Abs(s), t, Abs(o.sched), o.control)
  {
  }

  lemma ReplyRefines(s: Sched, op: Op)
    requires Inv(s) && op != Terminate(MAIN_THREAD_ID) && !Suspends(s, op)
    ensures var o := Perform(s, op, []);
            AbsReply(Abs(s), op, Abs(o.sched), o.control)
  {
    match op {
      case Spawn(nullEntry) => SpawnRefines(s, nullEntry);
      case Terminate(t) => TerminateOtherRefines(s, t);
      case Block(t) => BlockRefines(s, t);
      case Resume(t) => ResumeRefines(s, t);
      case Sleep(n) =>
    }
  }

  /** Every concrete operation is one of the abstract scheduler, with the same reply. */
  lemma StepRefines(s: Sched, e: Event, s': Sched)
    requires Inv(s) && Step(s, e, s')
    ensures AbsStep(Abs(s), e.op, e.wakers, Abs(s'), Perform(s, e.op, e.wakers).control)
  {
    if Suspends(s, e.op) {
      SwitchRefines(s, e, s');
    } else {
      ReplyRefines(s, e.op);
      SuspensionsAgree(s, e.op);
    }
  }

  /** The abstract scheduler asks for no order of wakers that the concrete one cannot produce. */
  lemma AbsStepIsScheduled(s: Sched, e: Event, a': AbsState, control: Control)
    requires Inv(s) && AbsStep(Abs(s), e.op, e.wakers, a', control)
    ensures Proceeds(s, e.op) && Defined(s, e.op) && Scheduled(s, e.op, e.wakers)
  {
    OperationsAreSafe(s, e.op, e.wakers);
    SuspensionsAgree(s, e.op);
    if Suspends(s, e.op) {
      SuspendCoherent(s, e.op);
      SuspendRefines(s, e.op);
      WakersAgree(Suspend(s, e.op), e.wakers, a', control);
    }
  }

  /** Every abstract operation is carried out by the concrete scheduler, with the same reply. */
  lemma StepRealizes(s: Sched, e: Event, a': AbsState, control: Control) returns (s': Sched)
    requires Inv(s) && AbsStep(Abs(s), e.op, e.wakers, a', control)
    ensures Step(s, e, s') && Abs(s') == a' && Perform(s, e.op, e.wakers).control == control
  {
    AbsStepIsScheduled(s, e, a', control);
    OperationsAreSafe(s, e.op, e.wakers);
    s' := Perform(s, e.op, e.wakers).sched;
    StepRefines(s, e, s');
    AbsStepDeterministic(Abs(s), e.op, e.wakers, a', control, Abs(s'), Perform(s, e.op, e.wakers).control);
  }

  // ---------- Whole runs ----------

  ghost predicate AbsStepAt(views: seq<AbsState>, events: seq<Event>, replies: seq<Control>, i: nat)
    requires i < |events| == |replies| && |views| == |events| + 1
  {
    AbsStep(views[i], events[i].op, events[i].wakers, views[i + 1], replies[i])
  }

  ghost predicate IsAbsRun(views: seq<AbsState>, events: seq<Event>, replies: seq<Control>) {
    && |views| == |events| + 1
    && |replies| == |events|
    && AbsInitial(views[0])
    && forall i {:trigger AbsStepAt(views, events, replies, i)} :: 0 <= i < |events| ==>
         AbsStepAt(views, events, replies, i)
  }

  ghost predicate Abstracts(views: seq<AbsState>, states: seq<Sched>) {
    |views| == |states| && forall i :: 0 <= i < |states| ==> views[i] == Abs(states[i])
  }

  /** The abstraction of a run is a run of the abstract scheduler, with the same replies. */
  lemma RunRefines(views: seq<AbsState>, states: seq<Sched>, events: seq<Event>, replies: seq<Control>)
    requires IsRun(states, events) && RepliesAre(states, events, replies) && Abstracts(views, states)
    ensures IsAbsRun(views, events, replies)
  {
    InitialRefines();
    forall i: nat | i < |events|
      ensures AbsStepAt(views, events, replies, i)
    {
      RunStep(states, events, i);
      assert ReplyAt(states, events, replies, i);
      StepRefines(states[i], events[i], states[i + 1]);
    }
  }

  lemma InitialRefines()
    ensures AbsInitial(Abs(InitialSched()))
  {
  }

  lemma AbsRunPrefix(views: seq<AbsState>, events: seq<Event>, replies: seq<Control>, n: nat)
    requires IsAbsRun(views, events, replies) && n <= |events|
    ensures IsAbsRun(views[..n + 1], events[..n], replies[..n])
  {
    var before, earlier, replied := views[..n + 1], events[..n], replies[..n];
    forall i: nat | i < n
      ensures AbsStepAt(before, earlier, replied, i)
    {
      assert AbsStepAt(views, events, replies, i);
    }
  }

  lemma ExtendAbstraction(views: seq<AbsState>, before: seq<Sched>, last: Sched)
    requires |views| == |before| + 1
    requires Abstracts(views[..|before|], before) && views[|before|] == Abs(last)
    ensures Abstracts(views, before + [last])
  {
  }

  /** Every run of the abstract scheduler is the abstraction of a run, with the same replies. */
  lemma {:induction false} RunRealizes(views: seq<AbsState>, events: seq<Event>, replies: seq<Control>)
    returns (states: seq<Sched>)
    requires IsAbsRun(views, events, replies)
    ensures IsRun(states, events) && RepliesAre(states, events, replies) && Abstracts(views, states)
    decreases |events|
  {
    if events == [] {
      InitialRefines();
      states := [InitialSched()];
    } else {
      var n := |events| - 1;
      var e, reply := events[n], replies[n];
      AbsRunPrefix(views, events, replies, n);
      var before := RunRealizes(views[..n + 1], events[..n], replies[..n]);
      RunKeepsInv(before, events[..n], n);
      assert AbsStepAt(views, events, replies, n);
      assert views[n] == views[..n + 1][n] == Abs(before[n]);
      var last := StepRealizes(before[n], e, views[n + 1], reply);
      ExtendRun(before, events[..n], e, last);
      ExtendReplies(before, events[..n], replies[..n], e, last, reply);
      assert events[..n] + [e] == events && replies[..n] + [reply] == replies;
      ExtendAbstraction(views, before, last);
      states := before + [last];
    }
  }
}
