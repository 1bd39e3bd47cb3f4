/** A turn of the loop at one cached time with callbacks that do nothing themselves: which events it activates. */
module EventTurns {
  import opened Wrappers
  import opened EventQueues
  import opened EventTimers
  import opened EventSteps

  /** The events and the log at the start of the turn, and its time. */
  datatype TurnStart = TurnStart(evs: map<EvId, Ev>, log: seq<Start>, now: int)

  predicate DueNow(v: Ev, now: int) {
    v.timeout && v.deadline <= now
  }

  ghost predicate StartedIn(was: seq<Start>, log: seq<Start>, e: EvId) {
    exists k :: |was| <= k < |log| && log[k].e == e
  }

  /** Callbacks that do nothing, at one time. */
  ghost predicate Quiet(inputs: seq<Input>, now: int) {
    forall i :: 0 <= i < |inputs| ==> inputs[i].script == [] && inputs[i].now == now
  }

  /** No persistent event would be due again at once: no interval is negative or zero, nor ends just now. */
  ghost predicate LaterRepeats(evs: map<EvId, Ev>, io: map<EvId, Tv>, now: int) {
    forall e :: e in evs && HasInterval(io, e) ==> io[e].us > 0 && evs[e].deadline + io[e].us != now
  }

  /** Every active signal event of the user has a call to make. */
  ghost predicate CallsReady(evs: map<EvId, Ev>, kinds: map<EvId, Kind>, ncalls: map<EvId, nat>) {
    forall e :: e in evs && e in kinds && evs[e].active && kinds[e].signal && !evs[e].internal ==> Calls(ncalls, e) > 0
  }

  /** Of the user's events that did not start yet, those that changed were due and have fired. Those that started were
      active or due. */
  ghost predicate SoFar(g: TurnStart, evs: map<EvId, Ev>, log: seq<Start>) {
    && evs.Keys == g.evs.Keys
    && (forall e :: e in g.evs ==> evs[e].internal == g.evs[e].internal)
    && (forall e :: e in g.evs && !g.evs[e].internal ==>
          StartedIn(g.log, log, e) || evs[e] == g.evs[e] || (DueNow(g.evs[e], g.now) && evs[e] == Fired(g.evs[e])))
    && (forall k :: |g.log| <= k < |log| ==> log[k].e in g.evs && Justified(g, log[k].e))
  }

  ghost predicate Justified(g: TurnStart, e: EvId) {
    e in g.evs && (g.evs[e].internal || g.evs[e].active || DueNow(g.evs[e], g.now))
  }

  /** Exactly the due events of the user were activated: each of them is active now or its callback has started, no
      other event changed or started unless it was active before. */
  ghost predicate TurnExact(g: TurnStart, evs: map<EvId, Ev>, log: seq<Start>) {
    && SoFar(g, evs, log)
    && forall e :: e in g.evs && !g.evs[e].internal && !StartedIn(g.log, log, e) ==>
         evs[e] == if DueNow(g.evs[e], g.now) then Fired(g.evs[e]) else g.evs[e]
  }

  ghost predicate TurnInv(g: TurnStart, q: Queues, log: seq<Start>, kinds: map<EvId, Kind>, io: map<EvId, Tv>,
                          ncalls: map<EvId, nat>) {
    && SoFar(g, q.evs, log) && HeapLater(q, g.now) && LaterRepeats(q.evs, io, g.now)
    && CallsReady(q.evs, kinds, ncalls)
  }

  // ----- timeout_process -----

  lemma {:induction false} CallsAfterFire(evs: map<EvId, Ev>, kinds: map<EvId, Kind>, ncalls: map<EvId, nat>, e: EvId)
    requires e in evs && e in kinds && CallsReady(evs, kinds, ncalls)
    ensures CallsReady(evs[e := Fired(evs[e])], kinds, if kinds[e].signal then ncalls[e := 1] else ncalls)
  {
  }

  /** A timer, which makes no signal calls, changed. */
  lemma {:induction false} CallsAfterTimer(was: map<EvId, Ev>, evs: map<EvId, Ev>, kinds: map<EvId, Kind>,
                                           ncalls: map<EvId, nat>, t: EvId)
    requires CallsReady(was, kinds, ncalls) && t in was && t in evs && evs == was[t := evs[t]] && evs[t].internal
    ensures CallsReady(evs, kinds, ncalls)
  {
  }

  lemma {:induction false} AfterHeap(g: TurnStart, q: Queues, io: map<EvId, Tv>, kinds: map<EvId, Kind>,
                                     ncalls: map<EvId, nat>)
    requires q.evs == AfterQueue(g.evs, -1, g.now) && HeapLater(q, g.now)
    requires LaterRepeats(g.evs, io, g.now) && CallsReady(q.evs, kinds, ncalls)
    ensures TurnInv(g, q, g.log, kinds, io, ncalls)
  {
  }

  // ----- running a user's event -----

  /** A user's event was taken off its queue and run; only it and perhaps its list's timer changed. */
  ghost predicate QuietStep(q0: Queues, io: map<EvId, Tv>, q1: Queues, e: EvId, now: int) {
    && OthersSame(q0.evs, q1.evs, e) && !q1.evs[e].active
    && (HeapLater(q0, now) && LaterRepeats(q0.evs, io, now) ==> HeapLater(q1, now) && LaterRepeats(q1.evs, io, now))
  }

  lemma {:induction false} UserStep(g: TurnStart, q0: Queues, log0: seq<Start>, q1: Queues, log1: seq<Start>,
                                    kinds: map<EvId, Kind>, io: map<EvId, Tv>,
                                    n0: map<EvId, nat>, n1: map<EvId, nat>, e: EvId, p: int)
    requires TurnInv(g, q0, log0, kinds, io, n0) && QuietStep(q0, io, q1, e, g.now)
    requires e in q0.evs && e in kinds && q0.evs[e].active && !q0.evs[e].internal
    requires g.log <= log0 <= log1 && OnlyOf(log0, log1, e)
    requires WillStart(q0.evs, kinds, n0, e) ==> Started(log0, log1, e, p)
    requires CallsElsewhere(n0, n1, e)
    ensures TurnInv(g, q1, log1, kinds, io, n1)
  {
    hide HeapLater, LaterRepeats;
    UserStarts(g, q0.evs, log0, q1.evs, log1, e, p);
    hide SoFar;
  }

  lemma {:induction false} UserStarts(g: TurnStart, evs0: map<EvId, Ev>, log0: seq<Start>, evs1: map<EvId, Ev>,
                                      log1: seq<Start>, e: EvId, p: int)
    requires SoFar(g, evs0, log0) && OthersSame(evs0, evs1, e) && evs0[e].active && !evs0[e].internal
    requires g.log <= log0 <= log1 && OnlyOf(log0, log1, e) && Started(log0, log1, e, p)
    ensures SoFar(g, evs1, log1)
  {
    assert log1[|log0|].e == e;
    MoreStarted(g.log, log0, log1);
    assert Justified(g, e) by {
      if StartedIn(g.log, log0, e) {
        var k :| |g.log| <= k < |log0| && log0[k].e == e;
        assert Justified(g, log0[k].e);
      }
    }
    forall k | |g.log| <= k < |log1|
      ensures log1[k].e in g.evs && Justified(g, log1[k].e)
    {
      if k < |log0| { assert log1[k] == log0[k]; }
    }
  }

  lemma {:induction false} MoreStarted(was: seq<Start>, log0: seq<Start>, log1: seq<Start>)
    requires log0 <= log1
    ensures forall e :: StartedIn(was, log0, e) ==> StartedIn(was, log1, e)
  {
    forall e | StartedIn(was, log0, e)
      ensures StartedIn(was, log1, e)
    {
      var k :| |was| <= k < |log0| && log0[k].e == e;
      assert log1[k].e == e;
    }
  }

  // ----- running a list's timer -----

  lemma {:induction false} TimerStep(g: TurnStart, q0: Queues, log0: seq<Start>, q1: Queues, log1: seq<Start>,
                                     kinds: map<EvId, Kind>, io: map<EvId, Tv>,
                                     n0: map<EvId, nat>, n1: map<EvId, nat>, t: EvId, i: nat)
    requires TurnInv(g, q0, log0, kinds, io, n0) && HeapLater(q1, g.now) && CallsReady(q1.evs, kinds, n1)
    requires t in q0.evs && q0.evs[t].internal && AllBut(q1.evs, AfterQueue(q0.evs, i, g.now), t) && q1.evs[t].internal
    requires PersistOk(q1.evs, kinds, io)
    requires g.log <= log0 && |log1| == |log0| + 1 && log0 <= log1 && log1[|log0|].e == t
    ensures TurnInv(g, q1, log1, kinds, io, n1)
  {
    hide HeapLater, CallsReady;
    TimerSoFar(g, q0.evs, log0, q1.evs, log1, t, i);
    TimerRepeats(g, q0.evs, q1.evs, kinds, io, t, i);
    hide SoFar, LaterRepeats;
  }

  lemma {:induction false} TimerSoFar(g: TurnStart, evs0: map<EvId, Ev>, log0: seq<Start>, evs1: map<EvId, Ev>,
                                      log1: seq<Start>, t: EvId, i: nat)
    requires SoFar(g, evs0, log0)
    requires t in evs0 && evs0[t].internal && AllBut(evs1, AfterQueue(evs0, i, g.now), t) && evs1[t].internal
    requires g.log <= log0 && |log1| == |log0| + 1 && log0 <= log1 && log1[|log0|].e == t
    ensures SoFar(g, evs1, log1)
  {
    TimerChanges(g, evs0, log0, evs1, t, i);
    hide AfterQueue, AllBut;
    MoreStarted(g.log, log0, log1);
    TimerJustified(g, log0, log1);
    hide StartedIn, Justified;
  }

  lemma {:induction false} TimerChanges(g: TurnStart, evs0: map<EvId, Ev>, log0: seq<Start>, evs1: map<EvId, Ev>,
                                        t: EvId, i: nat)
    requires SoFar(g, evs0, log0)
    requires t in evs0 && evs0[t].internal && AllBut(evs1, AfterQueue(evs0, i, g.now), t) && evs1[t].internal
    ensures evs1.Keys == g.evs.Keys && forall e :: e in g.evs ==> evs1[e].internal == g.evs[e].internal
    ensures forall e :: e in g.evs && !g.evs[e].internal ==>
              StartedIn(g.log, log0, e) || evs1[e] == g.evs[e]
              || (DueNow(g.evs[e], g.now) && evs1[e] == Fired(g.evs[e]))
  {
    hide AfterQueue, StartedIn, Justified, Due, DueNow, Fired;
    AfterQueueAt(evs0, i, g.now, t);
    forall e | e in g.evs
      ensures evs1[e].internal == g.evs[e].internal
      ensures !g.evs[e].internal ==> StartedIn(g.log, log0, e) || evs1[e] == g.evs[e]
                                     || (DueNow(g.evs[e], g.now) && evs1[e] == Fired(g.evs[e]))
    {
      AfterQueueAt(evs0, i, g.now, e);
      FiredAtMostOnce(g.evs[e], evs0[e], i, g.now);
    }
  }

  lemma {:induction false} TimerJustified(g: TurnStart, log0: seq<Start>, log1: seq<Start>)
    requires forall k :: |g.log| <= k < |log0| ==> log0[k].e in g.evs && Justified(g, log0[k].e)
    requires g.log <= log0 && |log1| == |log0| + 1 && log0 <= log1
    requires log1[|log0|].e in g.evs && g.evs[log1[|log0|].e].internal
    ensures forall k :: |g.log| <= k < |log1| ==> log1[k].e in g.evs && Justified(g, log1[k].e)
  {
    forall k | |g.log| <= k < |log1|
      ensures log1[k].e in g.evs && Justified(g, log1[k].e)
    {
      if k < |log0| { assert log1[k] == log0[k]; }
    }
  }

  lemma {:induction false} FiredAtMostOnce(v: Ev, v0: Ev, c: int, now: int)
    ensures var v1 := if Due(v0, c, now) then Fired(v0) else v0;
            && v1.internal == v0.internal
            && (v0 == v || (DueNow(v, now) && v0 == Fired(v)) ==> v1 == v || (DueNow(v, now) && v1 == Fired(v)))
  {
  }

  lemma {:induction false} AfterQueueAt(evs: map<EvId, Ev>, c: int, now: int, e: EvId)
    requires e in evs
    ensures AfterQueue(evs, c, now).Keys == evs.Keys
    ensures AfterQueue(evs, c, now)[e] == if Due(evs[e], c, now) then Fired(evs[e]) else evs[e]
  {
  }

  lemma {:induction false} TimerRepeats(g: TurnStart, evs0: map<EvId, Ev>, evs1: map<EvId, Ev>, kinds: map<EvId, Kind>,
                                        io: map<EvId, Tv>, t: EvId, i: nat)
    requires LaterRepeats(evs0, io, g.now) && PersistOk(evs1, kinds, io)
    requires t in evs0 && AllBut(evs1, AfterQueue(evs0, i, g.now), t) && evs1[t].internal
    ensures LaterRepeats(evs1, io, g.now)
  {
    AfterQueueAt(evs0, i, g.now, t);
    hide AfterQueue;
    forall e | e in evs1 && HasInterval(io, e)
      ensures io[e].us > 0 && evs1[e].deadline + io[e].us != g.now
    {
      assert e != t;
      AfterQueueAt(evs0, i, g.now, e);
    }
  }

  // ----- the end -----

  /** Queue 0 is empty, so no timer is left to run, and no event is due any more. */
  lemma {:induction false} TurnEnds(g: TurnStart, q: Queues, timers: seq<EvId>, log: seq<Start>)
    requires QOk(q) && TimersOk(q, timers) && SoFar(g, q.evs, log) && HeapLater(q, g.now)
    requires |q.active| > 0 && q.active[0] == []
    ensures TurnExact(g, q.evs, log)
  {
    forall e | e in q.evs && !q.evs[e].internal
      ensures !DueNow(q.evs[e], g.now)
    {
      NoneLeft(q, timers, e, g.now);
    }
  }

  lemma {:induction false} NoneLeft(q: Queues, timers: seq<EvId>, e: EvId, now: int)
    requires QOk(q) && TimersOk(q, timers) && HeapLater(q, now) && |q.active| > 0 && q.active[0] == []
    requires e in q.evs && !q.evs[e].internal
    ensures !DueNow(q.evs[e], now)
  {
    CtlBounds(q);
    var c := q.evs[e].ctl;
    if c == -1 {
      NoneDue(q, now);
      assert AfterQueue(q.evs, -1, now)[e] == q.evs[e];
    } else {
      TimersFit(q, timers);
      TimerIdle(q, timers, c);
      WaitsLater(q, timers, c, now);
      assert AfterQueue(q.evs, c, now)[e] == q.evs[e];
    }
  }

  lemma {:induction false} TimerIdle(q: Queues, timers: seq<EvId>, i: nat)
    requires QOk(q) && TimersOk(q, timers) && i < |timers| && |q.active| > 0 && q.active[0] == []
    ensures timers[i] in q.evs && !q.evs[timers[i]].active
  {
    hide NoDup, CountsOk;
    assert EvOk(q, timers[i]);
  }

  // ----- the heap after a persistent event waits again -----

  /** Timers are as before, or wait for d. */
  ghost predicate TimersTo(was: map<EvId, Ev>, evs: map<EvId, Ev>, d: int) {
    forall x :: x in was && x in evs && was[x].internal ==> evs[x] == was[x] || evs[x].deadline == d
  }

  lemma {:induction false} HeapAfterRepeat(q0: Queues, q1: Queues, e: EvId, now: int)
    requires QOk(q0) && QOk(q1) && HeapLater(q0, now) && OthersSame(q0.evs, q1.evs, e) && q1.evs[e].deadline > now
    requires TimersTo(q0.evs, q1.evs, q1.evs[e].deadline)
    ensures HeapLater(q1, now)
  {
    hide NoDup, CountsOk;
    forall x | x in q1.heap
      ensures x in q1.evs && q1.evs[x].deadline > now
    {
      assert x in q1.evs;
      assert EvOk(q1, x) && EvOk(q0, x);
    }
  }

  lemma {:induction false} RepeatsAfter(was: map<EvId, Ev>, evs: map<EvId, Ev>, io: map<EvId, Tv>, e: EvId, now: int)
    requires LaterRepeats(was, io, now) && OthersSame(was, evs, e) && evs[e].deadline > now
    requires forall x :: x in io ==> x in was && !was[x].internal
    ensures LaterRepeats(evs, io, now)
  {
  }

  ghost predicate SameTimers(was: map<EvId, Ev>, evs: map<EvId, Ev>) {
    forall x :: x in was && x in evs && was[x].internal ==> evs[x] == was[x]
  }

  lemma {:induction false} TimersFrom(was: map<EvId, Ev>, mid: map<EvId, Ev>, evs: map<EvId, Ev>, e: EvId, d: int)
    requires SameTimers(was, mid) && OthersSame(was, mid, e) && TimersTo(mid, evs, d)
    ensures TimersTo(was, evs, d)
  {
  }

  lemma {:induction false} TimersAfter(was: map<EvId, Ev>, mid: map<EvId, Ev>, evs: map<EvId, Ev>, e: EvId, v: Ev,
                                       t: EvId,
                                       d: int)
    requires e in was && !was[e].internal && mid == was[e := v] && t in mid
    requires t in evs && evs == mid[t := evs[t]] && evs[t].deadline == d
    ensures TimersTo(was, evs, d)
  {
  }

  lemma {:induction false} WaitsFor(v: Ev, k: Kind, byTimeout: bool, d: int, ctl: int)
    ensures Waiting(Inserted(v, k), byTimeout, d, ctl).deadline == d
  {
  }

  lemma {:induction false} RepeatLater(q0: Queues, q1: Queues, kinds: map<EvId, Kind>, io: map<EvId, Tv>, e: EvId,
                                       byTimeout: bool, now: int)
    requires QOk(q0) && QOk(q1) && OthersSame(q0.evs, q1.evs, e) && TimersTo(q0.evs, q1.evs, q1.evs[e].deadline)
    requires HasInterval(io, e) && q1.evs[e].deadline == RunAt(q0.evs[e].deadline, io[e].us, byTimeout, now)
    requires PersistOk(q0.evs, kinds, io)
    ensures HeapLater(q0, now) && LaterRepeats(q0.evs, io, now) ==> HeapLater(q1, now) && LaterRepeats(q1.evs, io, now)
  {
    if HeapLater(q0, now) && LaterRepeats(q0.evs, io, now) {
      assert q1.evs[e].deadline > now;
      hide RunAt;
      RepeatsAfter(q0.evs, q1.evs, io, e, now);
      hide QOk, LaterRepeats;
      HeapAfterRepeat(q0, q1, e, now);
    }
  }

  /** Taking the event off the active queue, and perhaps all others, is a quiet step. */
  lemma {:induction false} Taken(q0: Queues, q1: Queues, io: map<EvId, Tv>, e: EvId, now: int)
    requires e in q0.evs && e in q1.evs && q1.evs == q0.evs[e := q1.evs[e]] && q1.heap <= q0.heap
    requires q1.evs[e].deadline == q0.evs[e].deadline && !q1.evs[e].active && q1.evs[e].internal == q0.evs[e].internal
    ensures QuietStep(q0, io, q1, e, now)
  {
  }

  lemma {:induction false} Ran(q0: Queues, mid: Queues, q1: Queues, io: map<EvId, Tv>, e: EvId, now: int)
    requires QuietStep(q0, io, mid, e, now) && OthersSame(mid.evs, q1.evs, e) && !q1.evs[e].active
    requires HeapLater(mid, now) && LaterRepeats(mid.evs, io, now) ==>
             HeapLater(q1, now) && LaterRepeats(q1.evs, io, now)
    ensures QuietStep(q0, io, q1, e, now)
  {
    hide HeapLater, LaterRepeats;
    OthersTwice(q0.evs, mid.evs, q1.evs, e);
  }
}
