/** The condition variable that evthread_win32 builds from a lock and a manual-reset event, as a protocol
    of atomic steps by any number of threads. Each critical section and each wait is one step. */
module CondVar {

  type ThreadId = nat

  /** Where a thread is in evthread_win32_cond_wait: in front of or inside WaitForSingleObject, back from
      it (because the event was set, or not) on the way to the critical section, or behind the loop. */
  datatype Thread =
    | Outside
    | Blocked(gen: nat)
    | Checking(gen: nat, signaled: bool)
    | Leaving(result: int)

  datatype State = State(
    nWaiting: int, nToWake: int, generation: nat, event: bool,
    threads: map<ThreadId, Thread>,
    /** Was the last signal a broadcast? Not in the program; for stating what a broadcast promises. */
    broadcast: bool)

  predicate InLoop(th: Thread) {
    th.Blocked? || th.Checking?
  }

  ghost predicate Init(s: State) {
    && s.nWaiting == s.nToWake == 0 && s.generation == 0 && !s.event && !s.broadcast
    && forall t :: t in s.threads ==> s.threads[t] == Outside
  }

  datatype Step =
    | Signal(broadcast: bool)
    | Enter(t: ThreadId)
    | Return(t: ThreadId, signaled: bool)
    | Check(t: ThreadId, expired: bool, timedOut: bool)
    | Finish(t: ThreadId)

  /** WaitForSingleObject returns WAIT_OBJECT_0 only while the event is set; it may return otherwise at any time. */
  ghost predicate Enabled(s: State, step: Step) {
    match step
    case Signal(_) => true
    case Enter(t) => t in s.threads && s.threads[t].Outside?
    case Return(t, signaled) => t in s.threads && s.threads[t].Blocked? && (signaled ==> s.event)
    case Check(t, _, _) => t in s.threads && s.threads[t].Checking?
    case Finish(t) => t in s.threads && s.threads[t].Leaving?
  }

  /** A thread leaves the wait loop, taking a number of wakeups with it. */
  function Leave(s: State, t: ThreadId, taken: int, result: int): State {
    s.(nToWake := s.nToWake - taken, nWaiting := s.nWaiting - 1, threads := s.threads[t := Leaving(result)])
  }

  /** evthread_win32_cond_signal and the steps of evthread_win32_cond_wait. */
  function Next(s: State, step: Step): State
    requires Enabled(s, step)
  {
    match step
    case Signal(broadcast) =>
      s.(nToWake := if broadcast then s.nWaiting else s.nToWake + 1,
         generation := s.generation + 1, event := true, broadcast := broadcast)
    case Enter(t) =>
      s.(nWaiting := s.nWaiting + 1, threads := s.threads[t := Blocked(s.generation)])
    case Return(t, signaled) =>
      s.(threads := s.threads[t := Checking(s.threads[t].gen, signaled)])
    case Check(t, expired, timedOut) =>
      var th := s.threads[t];
      if s.nToWake != 0 && s.generation != th.gen then Leave(s, t, 1, 0)
      else if !th.signaled then Leave(s, t, 0, if timedOut then 1 else -1)
      else if expired then Leave(s, t, 0, 1)
      else
        s.(event := s.event && s.nToWake != 0, threads := s.threads[t := Blocked(th.gen)])
    case Finish(t) =>
      s.(event := s.event && s.nWaiting != 0, threads := s.threads[t := Outside])
  }

  ghost function Waiters(s: State): set<ThreadId> {
    set t | t in s.threads && InLoop(s.threads[t])
  }

  /** The waiters that began to wait before the last signal. */
  ghost function EarlyWaiters(s: State): set<ThreadId> {
    set t | t in s.threads && InLoop(s.threads[t]) && s.threads[t].gen != s.generation
  }

  ghost predicate Inv(s: State) {
    && s.nToWake >= 0
    && s.nWaiting == |Waiters(s)|
    && (forall t :: t in Waiters(s) ==> s.threads[t].gen <= s.generation)
    && (s.nToWake > 0 && EarlyWaiters(s) != {} ==> s.event)
    && (s.broadcast ==> s.nToWake >= |EarlyWaiters(s)|)
  }

  lemma {:induction false} InitInv(s: State)
    requires Init(s)
    ensures Inv(s)
  {
    assert Waiters(s) == {} && EarlyWaiters(s) == {};
  }

  /** How one thread's move changes the sets of waiters. */
  lemma {:induction false} MoveThread(s: State, t: ThreadId, th: Thread, s': State)
    requires t in s.threads && s'.threads == s.threads[t := th] && s'.generation == s.generation
    ensures Waiters(s') == if InLoop(th) then Waiters(s) + {t} else Waiters(s) - {t}
    ensures EarlyWaiters(s')
         == if InLoop(th) && th.gen != s.generation then EarlyWaiters(s) + {t} else EarlyWaiters(s) - {t}
  {
  }

  lemma {:induction false} SignalInv(s: State, broadcast: bool)
    requires Inv(s)
    ensures Inv(Next(s, Signal(broadcast)))
  {
    var s' := Next(s, Signal(broadcast));
    assert Waiters(s') == Waiters(s);
    assert EarlyWaiters(s') == Waiters(s);
  }

  /** A thread leaves the loop: it gives up its place in the count, and takes a wakeup exactly if it was
      early and there was one. */
  lemma {:induction false} LeaveInv(s: State, t: ThreadId, taken: int, result: int)
    requires Inv(s) && t in Waiters(s)
    requires taken == if s.nToWake > 0 && t in EarlyWaiters(s) then 1 else 0
    ensures Inv(Leave(s, t, taken, result))
  {
    var s' := Leave(s, t, taken, result);
    MoveThread(s, t, Leaving(result), s');
    EarlyIsWaiting(s);
    EarlyIsWaiting(s');
    hide Waiters, EarlyWaiters;
  }

  lemma {:induction false} SmallerSet(a: set<ThreadId>, b: set<ThreadId>)
    requires a <= b
    ensures |a| <= |b|
  {
    assert b == a + (b - a);
  }

  /** A thread moves inside the loop or outside it, and the event may be reset: nothing is counted. */
  lemma {:induction false} StayInv(s: State, t: ThreadId, th: Thread, event: bool)
    requires Inv(s) && t in s.threads && InLoop(th) == InLoop(s.threads[t])
    requires InLoop(th) ==> th.gen == s.threads[t].gen
    requires event == s.event || s.nToWake == 0 || s.nWaiting == 0
    ensures Inv(s.(event := event, threads := s.threads[t := th]))
  {
    var s' := s.(event := event, threads := s.threads[t := th]);
    assert Waiters(s') == Waiters(s);
    assert EarlyWaiters(s') == EarlyWaiters(s);
    SmallerSet(EarlyWaiters(s), Waiters(s));
    forall u | u in Waiters(s')
      ensures s'.threads[u].gen <= s'.generation
    {
      assert u in Waiters(s);
    }
    hide Waiters, EarlyWaiters;
  }

  lemma {:induction false} CheckInv(s: State, step: Step)
    requires Inv(s) && step.Check? && Enabled(s, step)
    ensures Inv(Next(s, step))
  {
    var t, th := step.t, s.threads[step.t];
    assert t in Waiters(s) && (t in EarlyWaiters(s) <==> th.gen != s.generation);
    NotNegative(s);
    hide Waiters, EarlyWaiters, Inv, Leave;
    if s.nToWake != 0 && s.generation != th.gen {
      LeaveInv(s, t, 1, 0);
    } else if !th.signaled {
      LeaveInv(s, t, 0, if step.timedOut then 1 else -1);
    } else if step.expired {
      LeaveInv(s, t, 0, 1);
    } else {
      StayInv(s, t, Blocked(th.gen), s.event && s.nToWake != 0);
    }
  }

  lemma {:induction false} NotNegative(s: State)
    requires Inv(s)
    ensures s.nToWake >= 0
  {
  }

  lemma {:induction false} EarlyIsWaiting(s: State)
    ensures EarlyWaiters(s) <= Waiters(s)
    ensures forall t :: t in Waiters(s) <==> t in s.threads && InLoop(s.threads[t])
    ensures forall t :: t in EarlyWaiters(s) <==> t in Waiters(s) && s.threads[t].gen != s.generation
  {
  }

  lemma {:induction false} EnterInv(s: State, step: Step)
    requires Inv(s) && Enabled(s, step) && step.Enter?
    ensures Inv(Next(s, step))
  {
    var s' := Next(s, step);
    MoveThread(s, step.t, s'.threads[step.t], s');
    EarlyIsWaiting(s);
    EarlyIsWaiting(s');
    hide Waiters, EarlyWaiters;
    assert EarlyWaiters(s') == EarlyWaiters(s);
  }

  lemma {:induction false} MoveInv(s: State, step: Step)
    requires Inv(s) && Enabled(s, step) && (step.Return? || step.Finish?)
    ensures Inv(Next(s, step))
  {
    hide Inv;
    var s' := Next(s, step);
    StayInv(s, step.t, s'.threads[step.t], s'.event);
  }

  /** Every step keeps the counts exact and the event set for whoever must still see it. */
  lemma {:induction false} NextInv(s: State, step: Step)
    requires Inv(s) && Enabled(s, step)
    ensures Inv(Next(s, step))
  {
    hide Inv;
    match step {
      case Signal(broadcast) => SignalInv(s, broadcast);
      case Check(_, _, _) => CheckInv(s, step);
      case Enter(_) => EnterInv(s, step);
      case _ => MoveInv(s, step);
    }
  }

  /** A run: the state after each step. */
  ghost predicate IsRun(states: seq<State>, steps: seq<Step>) {
    && |states| == |steps| + 1 && Init(states[0])
    && forall i :: 0 <= i < |steps| ==> Enabled(states[i], steps[i]) && states[i + 1] == Next(states[i], steps[i])
  }

  lemma {:induction false} RunInv(states: seq<State>, steps: seq<Step>, i: nat)
    requires IsRun(states, steps) && i < |states|
    ensures Inv(states[i])
    decreases i
  {
    if i == 0 {
      InitInv(states[0]);
    } else {
      RunInv(states, steps, i - 1);
      NextInv(states[i - 1], steps[i - 1]);
    }
  }

  /** In every state of every run: the waiting count is exact, and if a wakeup is due then no thread that
      was waiting when it was sent can be stuck: the event is set, and whichever of them looks first goes. */
  lemma {:induction false} NoLostWakeup(states: seq<State>, steps: seq<Step>, i: nat, t: ThreadId)
    requires IsRun(states, steps) && i < |states|
    ensures states[i].nWaiting == |Waiters(states[i])|
    ensures var s := states[i];
            s.nToWake > 0 && t in EarlyWaiters(s) ==>
            && s.event
            && (s.threads[t].Blocked? ==> Enabled(s, Return(t, true)))
            && (s.threads[t].Checking? ==>
                forall expired, timedOut :: Next(s, Check(t, expired, timedOut)).threads[t] == Leaving(0))
  {
    RunInv(states, steps, i);
  }

  /** From a broadcast until the next signal, every thread that was waiting and still is can only leave woken:
      the event is set, and its next look at the counts lets it go. There are wakeups left for all of them. */
  lemma {:induction false} BroadcastReachesAll(states: seq<State>, steps: seq<Step>, b: nat, k: nat, t: ThreadId)
    requires IsRun(states, steps) && b < k < |states| && steps[b] == Signal(true)
    requires forall i :: b < i < k ==> !steps[i].Signal?
    requires forall i :: b <= i <= k ==> t in Waiters(states[i])
    ensures var s := states[k];
            && s.event && s.nToWake >= |EarlyWaiters(s)| > 0 && t in EarlyWaiters(s)
            && (s.threads[t].Checking? ==>
                forall expired, timedOut :: Next(s, Check(t, expired, timedOut)).threads[t] == Leaving(0))
  {
    StillWaiting(states, steps, b, k, t);
    RunInv(states, steps, k);
    assert t in EarlyWaiters(states[k]);
  }

  lemma {:induction false} SameWait(s: State, step: Step, t: ThreadId)
    requires Enabled(s, step) && !step.Signal? && t in Waiters(s) && t in Waiters(Next(s, step))
    ensures Next(s, step).threads[t].gen == s.threads[t].gen
    ensures Next(s, step).generation == s.generation && Next(s, step).broadcast == s.broadcast
  {
  }

  lemma {:induction false} StillWaiting(states: seq<State>, steps: seq<Step>, b: nat, k: nat, t: ThreadId)
    requires IsRun(states, steps) && b < k < |states| && steps[b] == Signal(true)
    requires forall i :: b < i < k ==> !steps[i].Signal?
    requires forall i :: b <= i <= k ==> t in Waiters(states[i])
    ensures states[k].broadcast && t in states[k].threads && InLoop(states[k].threads[t])
    ensures states[k].threads[t].gen < states[k].generation
    decreases k
  {
    assert t in Waiters(states[k - 1]) && t in Waiters(states[k]);
    assert states[k - 1 + 1] == Next(states[k - 1], steps[k - 1]) && Enabled(states[k - 1], steps[k - 1]);
    if k == b + 1 {
      RunInv(states, steps, b);
      hide IsRun;
    } else {
      hide Next;
      StillWaiting(states, steps, b, k - 1, t);
      hide IsRun;
      SameWait(states[k - 1], steps[k - 1], t);
    }
  }

  // ----- how many threads a signal releases -----

  ghost predicate CanRun(s: State, steps: seq<Step>)
    decreases |steps|
  {
    steps == [] || (Enabled(s, steps[0]) && CanRun(Next(s, steps[0]), steps[1..]))
  }

  ghost function Run(s: State, steps: seq<Step>): State
    requires CanRun(s, steps)
    decreases |steps|
  {
    if steps == [] then s else Run(Next(s, steps[0]), steps[1..])
  }

  /** The step is the look at the counts with which a thread takes a wakeup. */
  ghost predicate Takes(s: State, step: Step)
    requires Enabled(s, step)
  {
    step.Check? && s.nToWake != 0 && s.generation != s.threads[step.t].gen
  }

  /** The number of threads woken in a run. */
  ghost function Woken(s: State, steps: seq<Step>): nat
    requires CanRun(s, steps)
    decreases |steps|
  {
    if steps == [] then 0 else Woken(Next(s, steps[0]), steps[1..]) + if Takes(s, steps[0]) then 1 else 0
  }

  ghost function Signals(steps: seq<Step>): nat {
    if steps == [] then 0 else Signals(steps[1..]) + if steps[0].Signal? then 1 else 0
  }

  ghost predicate NoBroadcast(steps: seq<Step>) {
    forall i :: 0 <= i < |steps| ==> steps[i] != Signal(true)
  }

  ghost predicate NoSignal(steps: seq<Step>) {
    forall i :: 0 <= i < |steps| ==> !steps[i].Signal?
  }

  lemma {:induction false} StepBalance(s: State, step: Step)
    requires Enabled(s, step) && step != Signal(true)
    ensures Next(s, step).nToWake + (if Takes(s, step) then 1 else 0) == s.nToWake + if step.Signal? then 1 else 0
  {
  }

  /** Wakeups are conserved: every signal that is not a broadcast sends one, every woken thread takes one, and none is
      lost or made up in between, whatever the interleaving and the timeouts. */
  lemma {:induction false} WakeupsConserved(s: State, steps: seq<Step>)
    requires CanRun(s, steps) && NoBroadcast(steps)
    ensures Woken(s, steps) + Run(s, steps).nToWake == s.nToWake + Signals(steps)
    decreases |steps|
  {
    if steps != [] {
      StepBalance(s, steps[0]);
      WakeupsConserved(Next(s, steps[0]), steps[1..]);
    }
  }

  lemma {:induction false} NoSignalCount(steps: seq<Step>)
    requires NoSignal(steps)
    ensures Signals(steps) == 0
    decreases |steps|
  {
    if steps != [] {
      NoSignalCount(steps[1..]);
    }
  }

  /** Without a signal nobody becomes an early waiter, and a woken thread stops being one. */
  lemma {:induction false} StepEarly(s: State, step: Step)
    requires Enabled(s, step) && !step.Signal?
    ensures EarlyWaiters(Next(s, step)) <= EarlyWaiters(s)
    ensures Takes(s, step) ==> step.t in EarlyWaiters(s) && EarlyWaiters(Next(s, step)) == EarlyWaiters(s) - {step.t}
  {
    var s' := Next(s, step);
    MoveThread(s, step.t, s'.threads[step.t], s');
  }

  /** Between two signals at most the early waiters are woken, each of them once. */
  lemma {:induction false} WokenAreEarly(s: State, steps: seq<Step>)
    requires CanRun(s, steps) && NoSignal(steps)
    ensures Woken(s, steps) <= |EarlyWaiters(s)|
    decreases |steps|
  {
    if steps != [] {
      StepEarly(s, steps[0]);
      WokenAreEarly(Next(s, steps[0]), steps[1..]);
      hide EarlyWaiters, Next;
      SmallerSet(EarlyWaiters(Next(s, steps[0])), EarlyWaiters(s));
    }
  }

  /** One early waiter comes back from its wait and takes a wakeup. */
  lemma {:induction false} WakeOne(s: State, t: ThreadId) returns (steps: seq<Step>)
    requires Inv(s) && s.nToWake > 0 && t in EarlyWaiters(s)
    ensures CanRun(s, steps) && NoSignal(steps) && Woken(s, steps) == 1
    ensures var s' := Run(s, steps);
            Inv(s') && s'.nToWake == s.nToWake - 1 && EarlyWaiters(s') == EarlyWaiters(s) - {t}
  {
    var check := Check(t, false, false);
    if s.threads[t].Checking? {
      steps := [check];
      StepEarly(s, check);
      NextInv(s, check);
      hide Inv, EarlyWaiters;
      OneStep(s, check);
    } else {
      var back := Return(t, true);
      steps := [back, check];
      var s1 := Next(s, back);
      MoveThread(s, t, s1.threads[t], s1);
      NextInv(s, back);
      StepEarly(s1, check);
      NextInv(s1, check);
      hide Inv, EarlyWaiters;
      OneStep(s1, check);
      assert steps[1..] == [check];
    }
  }

  lemma {:induction false} OneStep(s: State, step: Step)
    requires Enabled(s, step)
    ensures CanRun(s, [step]) && Run(s, [step]) == Next(s, step)
    ensures Woken(s, [step]) == if Takes(s, step) then 1 else 0
  {
    assert [step][1..] == [];
  }

  lemma {:induction false} RunConcat(s: State, a: seq<Step>, b: seq<Step>)
    requires CanRun(s, a) && CanRun(Run(s, a), b)
    ensures CanRun(s, a + b) && Run(s, a + b) == Run(Run(s, a), b)
    ensures Woken(s, a + b) == Woken(s, a) + Woken(Run(s, a), b)
    decreases |a|
  {
    if a == [] {
      assert a + b == b;
    } else {
      RunConcat(Next(s, a[0]), a[1..], b);
      assert (a + b)[1..] == a[1..] + b;
    }
  }

  /** As many early waiters as there are wakeups can all be woken without a further signal. */
  lemma {:induction false} WakeMany(s: State, n: nat) returns (steps: seq<Step>)
    requires Inv(s) && n <= s.nToWake && n <= |EarlyWaiters(s)|
    ensures CanRun(s, steps) && NoSignal(steps) && Woken(s, steps) == n
    decreases n
  {
    steps := [];
    if n > 0 {
      var t :| t in EarlyWaiters(s);
      var a := WakeOne(s, t);
      var s' := Run(s, a);
      hide Inv, EarlyWaiters, Woken, Run, CanRun;
      assert |EarlyWaiters(s')| == |EarlyWaiters(s)| - 1;
      var b := WakeMany(s', n - 1);
      RunConcat(s, a, b);
      steps := a + b;
    }
  }

  /** The most that one signal can release before the next one: a broadcast everyone who waits, another signal its own
      wakeup and all that are left over, as far as somebody waits. */
  function Releases(s: State, broadcast: bool): int {
    if !broadcast && s.nToWake + 1 <= s.nWaiting then s.nToWake + 1 else s.nWaiting
  }

  /** That number is exact. No run without another signal wakes more threads. */
  lemma {:induction false} SignalReleasesAtMost(s: State, broadcast: bool, rest: seq<Step>)
    requires Inv(s) && CanRun(Next(s, Signal(broadcast)), rest) && NoSignal(rest)
    ensures Woken(Next(s, Signal(broadcast)), rest) <= Releases(s, broadcast)
  {
    var s' := Next(s, Signal(broadcast));
    assert EarlyWaiters(s') == Waiters(s);
    SignalInv(s, broadcast);
    assert s'.nToWake <= Releases(s, broadcast) || |EarlyWaiters(s')| <= Releases(s, broadcast);
    hide Inv, EarlyWaiters;
    WokenAreEarly(s', rest);
    WakeupsConserved(s', rest);
    NoSignalCount(rest);
    NextEnds(s', rest);
  }

  /** And some run wakes as many. */
  lemma {:induction false} SignalReleases(s: State, broadcast: bool) returns (best: seq<Step>)
    requires Inv(s)
    ensures var s' := Next(s, Signal(broadcast));
            CanRun(s', best) && NoSignal(best) && Woken(s', best) == Releases(s, broadcast)
  {
    var s' := Next(s, Signal(broadcast));
    assert EarlyWaiters(s') == Waiters(s);
    SignalInv(s, broadcast);
    assert Releases(s, broadcast) <= s'.nToWake && Releases(s, broadcast) <= |EarlyWaiters(s')|;
    hide Inv, EarlyWaiters;
    best := WakeMany(s', Releases(s, broadcast));
  }

  lemma {:induction false} NextEnds(s: State, steps: seq<Step>)
    requires Inv(s) && CanRun(s, steps)
    ensures Inv(Run(s, steps)) && Run(s, steps).nToWake >= 0
    decreases |steps|
  {
    if steps != [] {
      NextInv(s, steps[0]);
      hide Inv;
      NextEnds(Next(s, steps[0]), steps[1..]);
    }
  }

  /** A signal that finds nobody waiting is not lost but kept: until the next signal it wakes nobody, whoever comes to
      wait, and its wakeup is still there; with that next signal two threads may go. */
  lemma {:induction false} SignalToNobody(s: State, rest: seq<Step>)
    requires Inv(s) && s.nWaiting == 0
    requires CanRun(Next(s, Signal(false)), rest) && NoSignal(rest)
    ensures var s' := Next(s, Signal(false));
            var e := Run(s', rest);
            && Woken(s', rest) == 0 && e.nToWake == s.nToWake + 1
            && (e.nWaiting >= 2 ==> Releases(e, false) >= 2)
  {
    var s' := Next(s, Signal(false));
    assert EarlyWaiters(s') == Waiters(s) == {};
    WokenAreEarly(s', rest);
    WakeupsConserved(s', rest);
    NoSignalCount(rest);
  }

  // ----- when the event is reset -----

  /** A waiter that saw the event and must wait on resets it when no wakeup is left; so does a thread that has its lock
      back and finds nobody waiting. */
  ghost predicate Resets(s: State, step: Step)
    requires Enabled(s, step)
  {
    || (step.Check? && s.nToWake == 0 && s.threads[step.t].signaled && !step.expired)
    || (step.Finish? && s.nWaiting == 0)
  }

  ghost predicate NoneResets(s: State, steps: seq<Step>)
    requires CanRun(s, steps)
    decreases |steps|
  {
    steps == [] || (!Resets(s, steps[0]) && NoneResets(Next(s, steps[0]), steps[1..]))
  }

  /** Until the next signal, the event is off exactly if it was off or one of these two has happened. */
  lemma {:induction false} EventStaysSet(s: State, steps: seq<Step>)
    requires CanRun(s, steps) && NoSignal(steps)
    ensures Run(s, steps).event <==> s.event && NoneResets(s, steps)
    decreases |steps|
  {
    if steps != [] {
      StepResets(s, steps[0]);
      EventStaysSet(Next(s, steps[0]), steps[1..]);
    }
  }

  lemma {:induction false} StepResets(s: State, step: Step)
    requires Enabled(s, step) && !step.Signal?
    ensures Next(s, step).event <==> s.event && !Resets(s, step)
  {
  }

  /** While a wakeup is left over and the event is set, a thread that came to wait after the last signal spins: it does
      not block, and each look at the counts takes it back to exactly the state it came from. */
  lemma {:induction false} LateWaiterSpins(s: State, t: ThreadId, timedOut: bool)
    requires s.event && s.nToWake > 0 && t in s.threads && s.threads[t] == Blocked(s.generation)
    ensures CanRun(s, [Return(t, true), Check(t, false, timedOut)])
    ensures Run(s, [Return(t, true), Check(t, false, timedOut)]) == s
  {
    var back, check := Return(t, true), Check(t, false, timedOut);
    var s1 := Next(s, back);
    OneStep(s1, check);
    assert [back, check][1..] == [check];
    assert Next(s1, check).threads == s.threads;
  }

  /** From the start: a signal to nobody, two threads that come to wait, and one further signal releases them both. */
  lemma {:induction false} OneSignalReleasesTwo(s: State, t: ThreadId, u: ThreadId)
    requires Init(s) && t in s.threads && u in s.threads && t != u
    ensures var before := [Signal(false), Enter(t), Enter(u)];
            CanRun(s, before) && Releases(Run(s, before), false) == 2
  {
    var s1 := Next(s, Signal(false));
    var s2 := Next(s1, Enter(t));
    OneStep(s2, Enter(u));
    assert [Enter(t), Enter(u)][1..] == [Enter(u)];
    assert [Signal(false), Enter(t), Enter(u)][1..] == [Enter(t), Enter(u)];
    assert CanRun(s1, [Enter(t), Enter(u)]);
  }
}
