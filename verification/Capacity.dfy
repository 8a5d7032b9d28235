/** The ids that spawn hands out, and where it stops. */
module Capacity {
  import opened Queues
  import opened SchedulerModel
  import opened Invariant
  import opened Runs

  /** The spawns with an entry point among the first n operations. */
  function Spawns(events: seq<Event>, n: nat): nat
    requires n <= |events|
  {
    if n == 0 then 0 else Spawns(events, n - 1) + if events[n - 1].op == Spawn(false) then 1 else 0
  }

  /** The active threads are 0..n. */
  ghost predicate ActiveUpTo(s: Sched, n: int) {
    forall t :: t in s.threads <==> 0 <= t <= n
  }

  /** None of the first n operations terminates a thread; terminating a missing one does not count. */
  ghost predicate NothingTerminated(states: seq<Sched>, events: seq<Event>, n: nat)
    requires n <= |events| && n <= |states|
  {
    forall m :: 0 <= m < n && events[m].op.Terminate? ==> events[m].op.tid !in states[m].threads
  }

  function AtMost99(n: int): int {
    if n < 99 then n else 99
  }

  lemma ActiveCount(s: Sched, n: nat)
    requires ActiveUpTo(s, n)
    ensures |s.threads| == n + 1
  {
    assert forall t: int :: t in s.threads.Keys <==> 0 <= t < n + 1;
    RangeSize(s.threads.Keys, n + 1);
  }

  /** With 0..n active, n below 99, a spawn replies n + 1 and makes it 0..n + 1; at 99 it fails. */
  lemma SpawnAt(s: Sched, n: nat)
    requires Inv(s) && ActiveUpTo(s, n)
    ensures n <= 99
    ensures var o := SpawnThread(s, false);
            if n < 99 then o.control == Return(n + 1) && ActiveUpTo(o.sched, n + 1) else o == Outcome(s, Return(-1))
  {
    ActiveCount(s, n);
    if n < 99 {
      GeneratedIdIsFree(s);
      var id, next := GeneratedId(s), n + 1;
      assert next !in s.threads && id !in s.threads;
      assert id == next;
      assert forall t: int :: t in SpawnThread(s, false).sched.threads <==> t in s.threads || t == id;
    }
  }

  lemma StepKeepsActive(s: Sched, e: Event, s': Sched)
    requires Inv(s) && Step(s, e, s') && e.op != Spawn(false)
    requires e.op.Terminate? ==> e.op.tid !in s.threads
    ensures s'.threads.Keys == s.threads.Keys
  {
    forall t: int
      ensures t in s'.threads.Keys <==> t in s.threads.Keys
    {
      if Suspends(s, e.op) {
        KeysAcrossSwitch(s, e, s', t);
      }
    }
  }

  lemma KeysAcrossSwitch(s: Sched, e: Event, s': Sched, t: int)
    requires Inv(s) && Step(s, e, s') && Suspends(s, e.op) && !e.op.Terminate?
    ensures t in s'.threads <==> t in s.threads
  {
    OperationsAreSafe(s, e.op, e.wakers);
    SwitchOutcome(s, e.op, e.wakers);
    RunTopmostMovesThread(Suspend(s, e.op), e.wakers, t);
  }

  lemma StepKeepsCount(s: Sched, e: Event, s': Sched, n: nat)
    requires Inv(s) && Step(s, e, s') && ActiveUpTo(s, n)
    requires e.op.Terminate? ==> e.op.tid !in s.threads
    ensures ActiveUpTo(s', if e.op == Spawn(false) then AtMost99(n + 1) else n)
  {
    SpawnAt(s, n);
    if e.op != Spawn(false) {
      StepKeepsActive(s, e, s');
      assert forall t: int :: t in s'.threads.Keys <==> t in s.threads.Keys;
    }
  }

  lemma StepOfRunKeepsCount(states: seq<Sched>, events: seq<Event>, i: nat, n: nat)
    requires IsRun(states, events) && i < |events| && ActiveUpTo(states[i], n)
    requires events[i].op.Terminate? ==> events[i].op.tid !in states[i].threads
    ensures ActiveUpTo(states[i + 1], if events[i].op == Spawn(false) then AtMost99(n + 1) else n)
  {
    RunStep(states, events, i);
    StepKeepsCount(states[i], events[i], states[i + 1], n);
  }

  lemma StartsWithMain(states: seq<Sched>, events: seq<Event>)
    requires IsRun(states, events)
    ensures ActiveUpTo(states[0], 0)
  {
  }

  lemma {:induction false} ActiveIsSpawned(states: seq<Sched>, events: seq<Event>, i: nat)
    requires IsRun(states, events) && i <= |events|
    requires NothingTerminated(states, events, i)
    ensures ActiveUpTo(states[i], AtMost99(Spawns(events, i)))
  {
    if i == 0 {
      StartsWithMain(states, events);
    } else {
      ActiveIsSpawned(states, events, i - 1);
      StepOfRunKeepsCount(states, events, i - 1, AtMost99(Spawns(events, i - 1)));
    }
  }

  /** In every run, as long as nothing is terminated and whatever else is called, spawns reply
      1, 2, ... up to 99, and -1 from then on. */
  lemma IdsInOrder(states: seq<Sched>, events: seq<Event>, replies: seq<Control>, i: nat)
    requires IsRun(states, events) && RepliesAre(states, events, replies)
    requires i < |events| && events[i].op == Spawn(false)
    requires NothingTerminated(states, events, i)
    ensures replies[i] == Return(if Spawns(events, i) < 99 then Spawns(events, i) + 1 else -1)
    ensures replies[i] == Return(-1) ==> states[i + 1] == states[i]
  {
    ActiveIsSpawned(states, events, i);
    RunStep(states, events, i);
    assert ReplyAt(states, events, replies, i);
    SpawnAt(states[i], AtMost99(Spawns(events, i)));
  }

  /** Carries a run on by one spawn. */
  lemma SpawnOnce(states: seq<Sched>, events: seq<Event>, replies: seq<Control>)
    returns (s': Sched, e: Event, reply: Control)
    requires IsRun(states, events) && RepliesAre(states, events, replies)
    ensures IsRun(states + [s'], events + [e]) && RepliesAre(states + [s'], events + [e], replies + [reply])
    ensures e.op == Spawn(false)
  {
    RunKeepsInv(states, events, |events|);
    e := ProceedingIsEnabled(states[|events|], Spawn(false));
    s', reply := Perform(states[|events|], e.op, e.wakers).sched, Perform(states[|events|], e.op, e.wakers).control;
    ExtendRun(states, events, e, s');
    ExtendReplies(states, events, replies, e, s', reply);
  }

  ghost predicate OnlySpawns(events: seq<Event>) {
    forall i :: 0 <= i < |events| ==> events[i].op == Spawn(false)
  }

  lemma {:induction false} CountSpawns(events: seq<Event>, n: nat)
    requires OnlySpawns(events) && n <= |events|
    ensures Spawns(events, n) == n
  {
    if n > 0 {
      CountSpawns(events, n - 1);
    }
  }
  lemma SpawnReplies(states: seq<Sched>, events: seq<Event>, replies: seq<Control>, i: nat)
    requires IsRun(states, events) && RepliesAre(states, events, replies) && OnlySpawns(events) && i < |events|
    ensures replies[i] == Return(if i < 99 then i + 1 else -1)
  {
    CountSpawns(events, i);
    IdsInOrder(states, events, replies, i);
  }

  lemma {:induction false} SomeSpawns(n: nat) returns (states: seq<Sched>, events: seq<Event>, replies: seq<Control>)
    ensures IsRun(states, events) && RepliesAre(states, events, replies) && |events| == n && OnlySpawns(events)
  {
    states, events, replies := [InitialSched()], [], [];
    if n > 0 {
      states, events, replies := SomeSpawns(n - 1);
      var s', e, reply := SpawnOnce(states, events, replies);
      states, events, replies := states + [s'], events + [e], replies + [reply];
    }
  }

  /** The limit is reached: any number of spawns in a row is a run, and this is what they reply. */
  lemma SpawnMany(n: nat) returns (states: seq<Sched>, events: seq<Event>, replies: seq<Control>)
    ensures IsRun(states, events) && RepliesAre(states, events, replies) && |events| == n
    ensures forall i :: 0 <= i < n ==> events[i].op == Spawn(false)
    ensures forall i :: 0 <= i < n ==> replies[i] == Return(if i < 99 then i + 1 else -1)
    ensures |states[n].threads| == if n < 99 then n + 1 else 100
  {
    states, events, replies := SomeSpawns(n);
    forall i | 0 <= i < n
      ensures replies[i] == Return(if i < 99 then i + 1 else -1)
    {
      SpawnReplies(states, events, replies, i);
    }
    CountSpawns(events, n);
    ActiveIsSpawned(states, events, n);
    ActiveCount(states[n], AtMost99(n));
  }
}
