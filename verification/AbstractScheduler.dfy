/** The scheduler a user reasons about: who runs, who queues, who is blocked, and who wakes when.
    No state tags, countdowns, recycled ids or resume points. The limit and the reply codes of
    uthreads.h are written out here, as in all properties, independently of the code's constants. */
module AbstractScheduler {
  import opened ThreadModel
  import opened Queues
  import opened SchedulerModel

  datatype AbsState = AbsState(quantum: int, running: int, ready: seq<int>, blocked: set<int>, wakeAt: map<int, int>)

  ghost function Active(a: AbsState): set<int> {
    {a.running} + (set t | t in a.ready) + a.blocked + a.wakeAt.Keys
  }

  /** The quantum at whose start a thread that calls sleep(n) in quantum `now` becomes ready.
      Any n below 0 other than the rejected -1 acts like 0. */
  function WakeQuantum(now: int, n: int): int {
    now + (if n > 0 then n else 0) + 1
  }

  predicate AbsInitial(a: AbsState) {
    a == AbsState(1, MAIN_THREAD_ID, [], {}, map[])
  }

  ghost predicate IsLeastFree(id: int, active: set<int>) {
    id >= 0 && id !in active && forall t :: 0 <= t < id ==> t in active
  }

  /** A new quantum: those due are queued in any order, and the front of the queue runs. */
  ghost predicate NextQuantum(a: AbsState, wakers: seq<int>, a': AbsState, control: Control) {
    && NoDuplicates(wakers)
    && (forall t :: t in wakers <==> t in a.wakeAt && a.wakeAt[t] == a.quantum + 1)
    && a.ready + wakers == [a'.running] + a'.ready
    && a'.quantum == a.quantum + 1
    && a'.blocked == a.blocked
    && a'.wakeAt == (map t | t in a.wakeAt && a.wakeAt[t] != a.quantum + 1 :: a.wakeAt[t])
    && control == JumpTo(a'.running)
  }

  /** The operations that take the running thread off the CPU. */
  predicate AbsSuspends(a: AbsState, op: Op) {
    match op
    case Spawn(_) => false
    case Terminate(t) => t == a.running
    case Block(t) => t == a.running != MAIN_THREAD_ID
    case Resume(_) => false
    case Sleep(_) => a.running != MAIN_THREAD_ID
    case Tick => true
  }

  /** Where they put it: nowhere, among the blocked or the sleeping, or at the back of the queue. */
  function AbsSuspend(a: AbsState, op: Op): AbsState {
    match op
    case Block(t) => a.(blocked := a.blocked + {t})
    case Sleep(n) => a.(wakeAt := a.wakeAt[a.running := WakeQuantum(a.quantum, n)])
    case Tick => a.(ready := a.ready + [a.running])
    case _ => a
  }

  ghost predicate AbsSpawn(a: AbsState, nullEntry: bool, a': AbsState, control: Control) {
    if nullEntry || |Active(a)| >= 100 then a' == a && control == Return(-1)
    else exists id :: IsLeastFree(id, Active(a)) && a' == a.(ready := a.ready + [id]) && control == Return(id)
  }

  ghost predicate AbsTerminate(a: AbsState, t: int, a': AbsState, control: Control) {
    if t !in Active(a) then a' == a && control == Return(-1)
    else
      && a' == a.(ready := Erase(a.ready, t), blocked := a.blocked - {t}, wakeAt := a.wakeAt - {t})
      && control == Return(0)
  }

  /** Blocking a sleeping or blocked thread has no effect. */
  ghost predicate AbsBlock(a: AbsState, t: int, a': AbsState, control: Control) {
    if t == MAIN_THREAD_ID || t !in Active(a) then a' == a && control == Return(-1)
    else
      && a' == (if t in a.ready then a.(ready := Erase(a.ready, t), blocked := a.blocked + {t}) else a)
      && control == Return(0)
  }

  ghost predicate AbsResume(a: AbsState, t: int, a': AbsState, control: Control) {
    if t !in Active(a) then a' == a && control == Return(-1)
    else
      && a' == (if t in a.blocked then a.(blocked := a.blocked - {t}, ready := a.ready + [t]) else a)
      && control == Return(0)
  }

  /** An operation that leaves the running thread running. */
  ghost predicate AbsReply(a: AbsState, op: Op, a': AbsState, control: Control) {
    match op
    case Spawn(nullEntry) => AbsSpawn(a, nullEntry, a', control)
    case Terminate(t) => AbsTerminate(a, t, a', control)
    case Block(t) => AbsBlock(a, t, a', control)
    case Resume(t) => AbsResume(a, t, a', control)
    case _ => a' == a && control == Return(-1)
  }

  /** One operation, the process not ending with it. */
  ghost predicate AbsStep(a: AbsState, op: Op, wakers: seq<int>, a': AbsState, control: Control) {
    && op != Terminate(MAIN_THREAD_ID)
    && !(op == Sleep(-1) && a.running != MAIN_THREAD_ID)
    && if AbsSuspends(a, op) then NextQuantum(AbsSuspend(a, op), wakers, a', control)
       else wakers == [] && AbsReply(a, op, a', control)
  }

  lemma NextQuantumDeterministic(a: AbsState, wakers: seq<int>, a1: AbsState, c1: Control, a2: AbsState, c2: Control)
    requires NextQuantum(a, wakers, a1, c1) && NextQuantum(a, wakers, a2, c2)
    ensures a1 == a2 && c1 == c2
  {
    var q := a.ready + wakers;
    assert a1.ready == q[1..] && a2.ready == q[1..];
    assert a1.running == q[0] && a2.running == q[0];
  }

  /** The waker order is the only choice. */
  lemma AbsStepDeterministic(a: AbsState, op: Op, wakers: seq<int>,
                             a1: AbsState, c1: Control, a2: AbsState, c2: Control)
    requires AbsStep(a, op, wakers, a1, c1) && AbsStep(a, op, wakers, a2, c2)
    ensures a1 == a2 && c1 == c2
  {
    if AbsSuspends(a, op) {
      NextQuantumDeterministic(AbsSuspend(a, op), wakers, a1, c1, a2, c2);
    } else if op.Spawn? && !op.nullEntry && |Active(a)| < 100 {
      var id1 :| IsLeastFree(id1, Active(a)) && a1 == a.(ready := a.ready + [id1]) && c1 == Return(id1);
      var id2 :| IsLeastFree(id2, Active(a)) && a2 == a.(ready := a.ready + [id2]) && c2 == Return(id2);
      assert id1 == id2;
    }
  }
}
