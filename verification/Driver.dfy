/** A user of the library: any sequence of calls and ticks, carried out on the object itself. */
module Driver {
  import opened ThreadModel
  import opened SchedulerModel
  import opened Invariant
  import opened Runs
  import opened Schedulers
  import opened UThreads

  /** One call, or one tick. Only terminate(0) and a sleep(-1) that fails an assert do not proceed. */
  method Call(scheduler: Scheduler, op: Op) returns (control: Control, ghost e: Event)
    requires scheduler.Valid() && Inv(scheduler.State()) && Proceeds(scheduler.State(), op)
    modifies scheduler, scheduler.activeThreads.Values
    ensures scheduler.Valid() && Inv(scheduler.State())
    ensures fresh(scheduler.activeThreads.Values - old(scheduler.activeThreads.Values))
    ensures e.op == op && Step(old(scheduler.State()), e, scheduler.State())
    ensures control == Perform(old(scheduler.State()), op, e.wakers).control
  {
    ghost var wakers: seq<int> := [];
    match op {
      case Spawn(nullEntry) =>
        var code := UThreadSpawn(scheduler, nullEntry);
        control := Return(code);
      case Terminate(t) => control, wakers := UThreadTerminate(scheduler, t);
      case Block(t) => control, wakers := UThreadBlock(scheduler, t);
      case Resume(t) =>
        var code := UThreadResume(scheduler, t);
        control := Return(code);
      case Sleep(n) => control, wakers := UThreadSleep(scheduler, n);
      case Tick => control, wakers := StaticExternalTimeHandler(scheduler);
    }
    e := Event(op, wakers);
  }

  /** A run of the first operations of the list, with their replies. */
  ghost predicate Follows(ops: seq<Op>, states: seq<Sched>, events: seq<Event>, replies: seq<Control>) {
    && IsRun(states, events)
    && RepliesAre(states, events, replies)
    && |events| <= |ops|
    && forall i :: 0 <= i < |events| ==> events[i].op == ops[i]
  }

  lemma FollowsOneMore(ops: seq<Op>, states: seq<Sched>, events: seq<Event>, replies: seq<Control>,
                       e: Event, s': Sched, control: Control)
    requires Follows(ops, states, events, replies) && |events| < |ops| && e.op == ops[|events|]
    requires Step(states[|events|], e, s') && Perform(states[|events|], e.op, e.wakers).control == control
    ensures Follows(ops, states + [s'], events + [e], replies + [control])
  {
    ExtendRun(states, events, e, s');
    ExtendReplies(states, events, replies, e, s', control);
  }

  lemma FollowsFromStart(ops: seq<Op>)
    ensures Follows(ops, [InitialSched()], [], [])
  {
  }

  /** The object stands at the end of such a run. */
  ghost predicate Driven(scheduler: Scheduler, ops: seq<Op>,
                         states: seq<Sched>, events: seq<Event>, replies: seq<Control>)
    reads scheduler, scheduler.activeThreads.Values
  {
    && scheduler.Valid()
    && Follows(ops, states, events, replies)
    && scheduler.State() == states[|events|]
  }

  /** Carries out the next operation of the list. */
  method CallNext(scheduler: Scheduler, ops: seq<Op>,
                  ghost states: seq<Sched>, ghost events: seq<Event>, replies: seq<Control>)
    returns (control: Control, ghost e: Event)
    requires Driven(scheduler, ops, states, events, replies)
    requires |events| < |ops| && Proceeds(scheduler.State(), ops[|events|])
    modifies scheduler, scheduler.activeThreads.Values
    ensures Driven(scheduler, ops, states + [scheduler.State()], events + [e], replies + [control])
    ensures fresh(scheduler.activeThreads.Values - old(scheduler.activeThreads.Values))
  {
    RunKeepsInv(states, events, |events|);
    control, e := Call(scheduler, ops[|replies|]);
    FollowsOneMore(ops, states, events, replies, e, scheduler.State(), control);
  }

  /** The operations are carried out in order, up to the first that does not proceed, and the object
      goes through a run with their replies: whatever is proved of runs holds of it. */
  method Drive(quantumUsecs: int, ops: seq<Op>)
    returns (scheduler: Scheduler, replies: seq<Control>, ghost states: seq<Sched>, ghost events: seq<Event>)
    requires quantumUsecs > 0
    ensures IsRun(states, events) && RepliesAre(states, events, replies)
    ensures |replies| <= |ops| && forall i :: 0 <= i < |replies| ==> events[i].op == ops[i]
    ensures scheduler.Valid() && scheduler.State() == states[|replies|]
    ensures |replies| < |ops| ==> !Proceeds(scheduler.State(), ops[|replies|])
  {
    var code, s := UThreadInit(quantumUsecs);
    scheduler := s;
    replies, states, events := [], [scheduler.State()], [];
    FollowsFromStart(ops);
    while |replies| < |ops|
      invariant fresh(scheduler) && fresh(scheduler.activeThreads.Values)
      invariant Driven(scheduler, ops, states, events, replies)
    {
      var op := ops[|replies|];
      if op == Terminate(MAIN_THREAD_ID)
         || (op == Sleep(NOT_SLEEPING) && scheduler.runningThreadId != MAIN_THREAD_ID) {
        return;
      }
      var control, e := CallNext(scheduler, ops, states, events, replies);
      states, events, replies := states + [scheduler.State()], events + [e], replies + [control];
    }
  }
}
