/** The event base: adding, deleting and activating events, timeouts, and the loop that runs callbacks by priority. */
module EventBases {
  import opened Wrappers
  import opened EventQueues
  import opened EventTimers
  import opened EventSteps
  import opened EventTurns

  class EventBase {
    var q: Queues
    /** The internal timer of each common-timeout list. */
    var timers: seq<EvId>
    var kinds: map<EvId, Kind>
    /** The events whose ev_res has EV_TIMEOUT. */
    var resTimeout: set<EvId>
    var ioTimeout: map<EvId, Tv>
    var runningPriority: int
    var eventContinue: bool
    var eventBreak: bool
    var eventTv: int
    /** The duration of each common-timeout list. */
    var durations: seq<int>
    /** ev_ncalls; the signal event whose ev_pncalls is set; and the counter it points at, in event_signal_closure. */
    var ncalls: map<EvId, nat>
    var pncalls: Option<EvId>
    var sigCalls: nat
    ghost var log: seq<Start>

    /** Everything in order, except that the timer of list `but` may be late. */
    ghost predicate Ok(but: int)
      reads this
    {
      && QOk(q) && TimersExcept(q, timers, but) && kinds.Keys == q.evs.Keys
      && PrioOk(q.active, runningPriority, eventContinue)
    }

    ghost predicate Valid()
      reads this
    {
      Ok(-1)
    }

    ghost predicate Ready()
      reads this
    {
      Valid() && PersistOk(q.evs, kinds, ioTimeout)
    }

    method DropTimeout(e: EvId, ghost but: int)
      requires Ok(but) && MayChange(q, timers, e, but)
      modifies this`q
      ensures Ok(but) && q.evs == old(q.evs)[e := old(q.evs)[e].(timeout := false)]
      ensures q.heap == old(q.heap) - {e} && q.active == old(q.active)
      ensures q.lists == AllWithout(old(q.lists), e)
    {
      hide QOk, TimersExcept, PrioOk, AllWithout;
      if q.evs[e].timeout {
        RemoveTimeoutOk(q, e);
        RemoveKeepsTimers(q, timers, e, but);
        RemovedFromLists(q, e);
        q := RemoveTimeout(q, e);
      } else {
        AbsentWithoutFlag(q, e);
      }
    }

    method DropActive(e: EvId, ghost but: int)
      requires Ok(but) && MayChange(q, timers, e, but)
      modifies this`q
      ensures Ok(but) && q.evs == old(q.evs)[e := old(q.evs)[e].(active := false)]
      ensures q.heap == old(q.heap) && q.lists == old(q.lists)
      ensures q.active == AllWithout(old(q.active), e)
    {
      hide QOk, TimersExcept, PrioOk, AllWithout;
      if q.evs[e].active {
        RemoveActiveOk(q, e);
        RemovedFromActive(q, e);
        ghost var r := RemoveActive(q, e);
        TimerFacts(q, timers, e, but);
        ChangeKeepsTimers(q, r, timers, e, but);
        StillPrio(q.active, e, runningPriority, eventContinue);
        q := RemoveActive(q, e);
      } else {
        AbsentWithoutFlag(q, e);
      }
    }

    method DropInserted(e: EvId, ghost but: int)
      requires Ok(but) && MayChange(q, timers, e, but)
      modifies this`q
      ensures Ok(but) && q.evs == old(q.evs)[e := old(q.evs)[e].(inserted := false)]
      ensures q.heap == old(q.heap) && q.lists == old(q.lists) && q.active == old(q.active)
    {
      hide QOk, TimersExcept, PrioOk;
      if q.evs[e].inserted {
        RemoveInsertedOk(q, e);
        TimerFacts(q, timers, e, but);
        ChangeKeepsTimers(q, RemoveInserted(q, e), timers, e, but);
        q := RemoveInserted(q, e);
      }
    }

    method QueueInsertInserted(e: EvId, ghost but: int)
      requires Ok(but) && MayChange(q, timers, e, but) && !q.evs[e].inserted
      modifies this`q
      ensures Ok(but) && q.evs == old(q.evs)[e := old(q.evs)[e].(inserted := true)]
      ensures q.heap == old(q.heap) && q.lists == old(q.lists) && q.active == old(q.active)
    {
      hide QOk, TimersExcept, PrioOk;
      InsertInsertedOk(q, e);
      TimerFacts(q, timers, e, but);
      ChangeKeepsTimers(q, InsertInserted(q, e), timers, e, but);
      q := InsertInserted(q, e);
    }

    /** Stop the loop of event_signal_closure, if it is this event's callback that runs in it. */
    method AbortLoop(e: EvId)
      modifies this`sigCalls
      ensures sigCalls == old(sigCalls) || sigCalls == 0
    {
      if e in kinds && kinds[e].signal && e in ncalls && ncalls[e] != 0 && pncalls == Some(e) {
        sigCalls := 0;
      }
    }

    /** event_del_internal */
    method DelInternal(e: EvId, ghost but: int)
      requires Ok(but) && MayChange(q, timers, e, but)
      modifies this`q, this`sigCalls
      ensures Ok(but) && q.evs == old(q.evs)[e := Dropped(old(q.evs)[e])]
      ensures q.heap == old(q.heap) - {e} && q.lists == AllWithout(old(q.lists), e)
      ensures q.active == AllWithout(old(q.active), e) && sigCalls <= old(sigCalls)
    {
      hide QOk, TimersExcept, PrioOk, AllWithout;
      AbortLoop(e);
      DropTimeout(e, but);
      DropActive(e, but);
      DropInserted(e, but);
    }

    /** event_active_nolock: the event joins its active queue, if it is not there already; a signal event is told how
        often its callback is to run. */
    method ActiveNolock(e: EvId, byTimeout: bool, calls: nat, ghost but: int)
      requires Ok(but) && MayChange(q, timers, e, but)
      modifies this`q, this`resTimeout, this`eventContinue, this`ncalls, this`pncalls
      ensures Ok(but) && q.evs == old(q.evs)[e := old(q.evs)[e].(active := true)]
      ensures q.heap == old(q.heap) && q.lists == old(q.lists) && |q.active| == old(|q.active|)
      ensures resTimeout == if byTimeout then old(resTimeout) + {e}
                            else if old(q.evs)[e].active then old(resTimeout) else old(resTimeout) - {e}
      ensures old(q.evs)[e].active ==> q == old(q)
      ensures !old(q.evs)[e].active ==>
              q.evs[e].pri < |q.active| && q.active == old(q.active)[q.evs[e].pri := old(q.active)[q.evs[e].pri] + [e]]
      ensures eventContinue == (old(eventContinue) || (!old(q.evs)[e].active && q.evs[e].pri < runningPriority))
      ensures ncalls == if !old(q.evs)[e].active && kinds[e].signal then old(ncalls)[e := calls] else old(ncalls)
    {
      hide QOk, TimersExcept, PrioOk;
      if q.evs[e].active {
        if byTimeout { resTimeout := resTimeout + {e}; }
        return;
      }
      resTimeout := if byTimeout then resTimeout + {e} else resTimeout - {e};
      SetCalls(e, calls);
      QueueInsertActive(e, but);
    }

    method SetCalls(e: EvId, calls: nat)
      requires e in kinds
      modifies this`ncalls, this`pncalls
      ensures ncalls == if kinds[e].signal then old(ncalls)[e := calls] else old(ncalls)
      ensures pncalls == if kinds[e].signal && old(pncalls) == Some(e) then None else old(pncalls)
    {
      if kinds[e].signal {
        ncalls := ncalls[e := calls];
        if pncalls == Some(e) { pncalls := None; }
      }
    }

    method QueueInsertActive(e: EvId, ghost but: int)
      requires Ok(but) && MayChange(q, timers, e, but) && !q.evs[e].active
      modifies this`q, this`eventContinue
      ensures Ok(but) && q.evs == old(q.evs)[e := old(q.evs)[e].(active := true)]
      ensures q.heap == old(q.heap) && q.lists == old(q.lists) && |q.active| == old(|q.active|)
      ensures q.evs[e].pri < |q.active| && q.active == old(q.active)[q.evs[e].pri := old(q.active)[q.evs[e].pri] + [e]]
      ensures eventContinue == (old(eventContinue) || q.evs[e].pri < runningPriority)
    {
      hide QOk, TimersExcept, PrioOk;
      InsertActiveOk(q, e);
      TimerFacts(q, timers, e, but);
      ChangeKeepsTimers(q, InsertActive(q, e), timers, e, but);
      PrioAfterActive(q, e, runningPriority, eventContinue);
      if q.evs[e].pri < runningPriority {
        eventContinue := true;
      }
      q := InsertActive(q, e);
    }

    /** Run the timeout of a user event: off all queues, then active. */
    method Fire(e: EvId, ghost but: int)
      requires Ok(but) && MayChange(q, timers, e, but)
      modifies this`q, this`resTimeout, this`eventContinue, this`ncalls, this`pncalls, this`sigCalls
      ensures Ok(but) && q.evs == old(q.evs)[e := Fired(old(q.evs)[e])]
      ensures q.heap == old(q.heap) - {e} && q.lists == AllWithout(old(q.lists), e)
      ensures resTimeout == old(resTimeout) + {e} && |q.active| == old(|q.active|)
      ensures runningPriority <= 0 ==> eventContinue == old(eventContinue)
      ensures sigCalls <= old(sigCalls) && ncalls == if kinds[e].signal then old(ncalls)[e := 1] else old(ncalls)
    {
      hide QOk, TimersExcept, PrioOk, AllWithout;
      DelInternal(e, but);
      SameCount(old(q.active), e);
      ActiveNolock(e, true, 1, but);
    }

    /** The same for any event on the heap, an internal timer too. */
    method FireFromHeap(e: EvId)
      requires Valid() && e in q.heap
      modifies this`q, this`resTimeout, this`eventContinue, this`ncalls, this`pncalls, this`sigCalls
      ensures Valid() && e in old(q.evs) && q.evs == old(q.evs)[e := Fired(old(q.evs)[e])]
      ensures q.heap == old(q.heap) - {e} && q.lists == old(q.lists)
      ensures resTimeout == old(resTimeout) + {e} && |q.active| == old(|q.active|)
      ensures runningPriority <= 0 ==> eventContinue == old(eventContinue)
      ensures sigCalls <= old(sigCalls) && ncalls == if kinds[e].signal then old(ncalls)[e := 1] else old(ncalls)
    {
      HeapMember(q, e);
      ghost var i := TimerIndex(q, timers, e);
      Fire(e, i);
      hide QOk, AllWithout;
      CoveredAgain(q, timers, i);
    }

    /** min_heap_top */
    method HeapTop() returns (e: EvId)
      requires Valid() && q.heap != {}
      ensures e in q.heap && q.heap <= q.evs.Keys
      ensures forall x :: x in q.heap ==> q.evs[e].deadline <= q.evs[x].deadline
    {
      HasFirst(q.evs, q.heap);
      e :| e in q.heap && IsFirst(q.evs, q.heap, e);
    }

    /** timeout_process: exactly the events of the heap that are due are activated. */
    method TimeoutProcess(now: int)
      requires Valid()
      modifies this`q, this`resTimeout, this`eventContinue, this`ncalls, this`pncalls, this`sigCalls
      ensures Valid() && q.evs == AfterQueue(old(q.evs), -1, now) && q.lists == old(q.lists)
      ensures |q.active| == old(|q.active|)
      ensures forall x :: x in q.heap ==> x in q.evs && q.evs[x].deadline > now
      ensures runningPriority <= 0 ==> eventContinue == old(eventContinue)
      ensures HeapLater(old(q), now) ==> q == old(q) && ncalls == old(ncalls)
      ensures sigCalls <= old(sigCalls) && (FewCalls(old(ncalls)) ==> FewCalls(ncalls))
      ensures CallsReady(old(q.evs), kinds, old(ncalls)) ==> CallsReady(q.evs, kinds, ncalls)
    {
      hide QOk, TimersExcept, PrioOk, AfterQueue, Fired, CallsReady;
      while q.heap != {}
        invariant Valid() && AfterQueue(q.evs, -1, now) == AfterQueue(old(q.evs), -1, now)
        invariant q.lists == old(q.lists) && |q.active| == old(|q.active|)
        invariant runningPriority <= 0 ==> eventContinue == old(eventContinue)
        invariant HeapLater(old(q), now) ==> q == old(q) && ncalls == old(ncalls)
        invariant sigCalls <= old(sigCalls) && (FewCalls(old(ncalls)) ==> FewCalls(ncalls))
        invariant CallsReady(old(q.evs), kinds, old(ncalls)) ==> CallsReady(q.evs, kinds, ncalls)
        decreases |q.heap|
      {
        var e := HeapTop();
        if q.evs[e].deadline > now {
          break;
        }
        HeapPlace(q, e);
        FireStep(q.evs, e, now);
        if CallsReady(q.evs, kinds, ncalls) { CallsAfterFire(q.evs, kinds, ncalls, e); }
        FireFromHeap(e);
      }
      NoneDue(q, now);
    }

    /** The timeout part of event_add_internal: leave the old timeout, leave the active queue if a timeout put the
        event there, and wait for the new deadline. */
    method Reschedule(e: EvId, deadline: int, ctl: int, ghost but: int)
      requires Ok(but) && MayChange(q, timers, e, but) && -1 <= ctl < |q.lists| && (q.evs[e].internal ==> ctl == -1)
      requires ctl != -1 ==> but == -1
      modifies this`q
      ensures |q.lists| == old(|q.lists|) && |q.active| == old(|q.active|)
      ensures q.evs == old(q.evs)[e := Waiting(old(q.evs)[e], e in resTimeout, deadline, ctl)]
      ensures ctl == -1 ==> Ok(but) && e in q.heap && q.lists == AllWithout(old(q.lists), e)
      ensures ctl != -1 ==> q.lists[ctl] != [] && Ok(if q.lists[ctl][0] == e then ctl else -1)
    {
      hide Ok, AllWithout;
      ghost var was := q.evs;
      StopWaiting(e, but);
      ChangeTimeout(e, deadline, ctl, but);
      assert q.evs[e] == was[e].(active := was[e].active && e !in resTimeout, timeout := false,
                                 deadline := deadline, ctl := ctl);
      InsertWaiting(e, but);
      WaitsAgain(was, q.evs, e, e in resTimeout, deadline, ctl);
    }

    /** The event leaves its timeout queue, and the active queue if its timeout put it there. */
    method StopWaiting(e: EvId, ghost but: int)
      requires Ok(but) && MayChange(q, timers, e, but)
      modifies this`q
      ensures Ok(but) && MayChange(q, timers, e, but)
      ensures |q.lists| == old(|q.lists|) && |q.active| == old(|q.active|) && q.lists == AllWithout(old(q.lists), e)
      ensures var v := old(q.evs)[e];
              q.evs == old(q.evs)[e := v.(timeout := false, active := v.active && e !in resTimeout)]
    {
      hide Ok, AllWithout;
      SameCount(q.lists, e);
      DropTimeout(e, but);
      if q.evs[e].active && e in resTimeout {
        SameCount(q.active, e);
        DropActive(e, but);
      }
    }

    method ChangeTimeout(e: EvId, deadline: int, ctl: int, ghost but: int)
      requires Ok(but) && MayChange(q, timers, e, but) && -1 <= ctl < |q.lists| && !q.evs[e].timeout
      requires q.evs[e].internal ==> ctl == -1
      modifies this`q
      ensures Ok(but) && q == SetTimeout(old(q), e, deadline, ctl)
    {
      hide QOk, TimersExcept, PrioOk;
      SetTimeoutOk(q, e, deadline, ctl);
      TimerFacts(q, timers, e, but);
      ghost var r := SetTimeout(q, e, deadline, ctl);
      OnNoList(q, e);
      ChangeKeepsTimers(q, r, timers, e, but);
      q := SetTimeout(q, e, deadline, ctl);
    }

    /** event_queue_insert(EVLIST_TIMEOUT) */
    method InsertWaiting(e: EvId, ghost but: int)
      requires Ok(but) && MayChange(q, timers, e, but) && !q.evs[e].timeout
      requires q.evs[e].ctl != -1 ==> but == -1
      modifies this`q
      ensures |q.lists| == old(|q.lists|) && q.active == old(q.active)
      ensures q.evs == old(q.evs)[e := old(q.evs)[e].(timeout := true)] && -1 <= q.evs[e].ctl < |q.lists|
      ensures q.evs[e].ctl == -1 ==> Ok(but) && e in q.heap && q.lists == old(q.lists)
      ensures q.evs[e].ctl != -1 ==>
              q.lists[q.evs[e].ctl] != [] && Ok(if q.lists[q.evs[e].ctl][0] == e then q.evs[e].ctl else -1)
    {
      hide QOk, TimersExcept, PrioOk;
      InsertTimeoutOk(q, e);
      TimerFacts(q, timers, e, but);
      WaitingKeepsTimers(q, timers, e, but);
      q := InsertTimeout(q, e);
    }

    /** common_timeout_schedule: the timer of list i waits for the list's first event. */
    method Schedule(i: nat)
      requires Ok(i) && i < |q.lists| && q.lists[i] != []
      modifies this`q
      ensures Valid() && q.lists == old(q.lists) && |q.active| == old(|q.active|)
      ensures q.lists[i][0] in old(q.evs) && timers[i] in old(q.evs)
      ensures q.evs == old(q.evs)[timers[i] :=
                Waiting(old(q.evs)[timers[i]], timers[i] in resTimeout, old(q.evs)[q.lists[i][0]].deadline, -1)]
      ensures old(q.heap) <= q.heap <= old(q.heap) + {timers[i]}
    {
      TimerAt(q, timers, i);
      var t := timers[i];
      hide QOk, TimersExcept, PrioOk, AllWithout;
      var d := q.evs[q.lists[i][0]].deadline;
      Reschedule(t, d, -1, i);
      CoveredAgain(q, timers, i);
      HeapFromEvs(old(q), q, t);
    }

    /** The loop of common_timeout_callback: the events of list i that are due are activated. */
    method PopDue(i: nat, now: int)
      requires Ok(i) && i < |q.lists|
      modifies this`q, this`resTimeout, this`eventContinue, this`ncalls, this`pncalls, this`sigCalls
      ensures Ok(i) && |q.lists| == old(|q.lists|) && |q.active| == old(|q.active|)
      ensures q.evs == AfterQueue(old(q.evs), i, now)
      ensures q.lists[i] != [] ==> q.lists[i][0] in q.evs && q.evs[q.lists[i][0]].deadline > now
      ensures HeapLater(old(q), now) ==> HeapLater(q, now)
      ensures sigCalls <= old(sigCalls) && (FewCalls(old(ncalls)) ==> FewCalls(ncalls))
      ensures CallsReady(old(q.evs), kinds, old(ncalls)) ==> CallsReady(q.evs, kinds, ncalls)
    {
      hide QOk, TimersExcept, PrioOk, AllWithout, AfterQueue, HeapLater, CallsReady, Fired;
      HeadIn(q, timers, i);
      while q.lists[i] != [] && q.evs[q.lists[i][0]].deadline <= now
        invariant Ok(i) && |q.lists| == old(|q.lists|) && |q.active| == old(|q.active|)
        invariant q.lists[i] != [] ==> q.lists[i][0] in q.evs
        invariant AfterQueue(q.evs, i, now) == AfterQueue(old(q.evs), i, now)
        invariant HeapLater(old(q), now) ==> HeapLater(q, now)
        invariant sigCalls <= old(sigCalls) && (FewCalls(old(ncalls)) ==> FewCalls(ncalls))
        invariant CallsReady(old(q.evs), kinds, old(ncalls)) ==> CallsReady(q.evs, kinds, ncalls)
        decreases |q.lists[i]|
      {
        var e := q.lists[i][0];
        PopStep(q, timers, i, now);
        ghost var was := q;
        if CallsReady(q.evs, kinds, ncalls) { CallsAfterFire(q.evs, kinds, ncalls, e); }
        Fire(e, i);
        HeapLaterStep(was, q, e, now);
        HeadIn(q, timers, i);
      }
      ListNotDue(q, timers, i, now);
    }

    /** common_timeout_callback: exactly the events of list i that are due are activated, and the timer is set again
        for the first of the others. */
    method CommonCallback(i: nat, now: int)
      requires Ok(i) && i < |q.lists|
      modifies this`q, this`resTimeout, this`eventContinue, this`ncalls, this`pncalls, this`sigCalls
      ensures Valid() && |q.lists| == old(|q.lists|) && |q.active| == old(|q.active|) && i < |timers|
      ensures timers[i] in q.evs && timers[i] in old(q.evs) && q.evs[timers[i]].internal
      ensures AllBut(q.evs, AfterQueue(old(q.evs), i, now), timers[i])
      ensures HeapLater(old(q), now) ==> HeapLater(q, now)
      ensures sigCalls <= old(sigCalls) && (FewCalls(old(ncalls)) ==> FewCalls(ncalls))
      ensures CallsReady(old(q.evs), kinds, old(ncalls)) ==> CallsReady(q.evs, kinds, ncalls)
    {
      hide QOk, TimersExcept, PrioOk, AllWithout, AfterQueue, HeapLater, MayChange, CallsReady;
      SameEvents(q.evs, i, now);
      PopDue(i, now);
      TimerAt(q, timers, i);
      ghost var was := q;
      if q.lists[i] != [] {
        Schedule(i);
        HeapLaterTimer(was, q, timers[i], now);
        if CallsReady(was.evs, kinds, ncalls) { CallsAfterTimer(was.evs, q.evs, kinds, ncalls, timers[i]); }
      } else {
        CoveredAgain(q, timers, i);
      }
    }

    /** What the loop does with an active timer: event_del_internal, then its callback. */
    method RunTimer(i: nat, now: int)
      requires Valid() && i < |q.lists|
      modifies this`q, this`resTimeout, this`eventContinue, this`ncalls, this`pncalls, this`sigCalls
      ensures Valid() && |q.lists| == old(|q.lists|) && |q.active| == old(|q.active|) && i < |timers|
      ensures timers[i] in q.evs && timers[i] in old(q.evs) && q.evs[timers[i]].internal
      ensures AllBut(q.evs, AfterQueue(old(q.evs), i, now), timers[i])
      ensures HeapLater(old(q), now) ==> HeapLater(q, now)
      ensures sigCalls <= old(sigCalls) && (FewCalls(old(ncalls)) ==> FewCalls(ncalls))
      ensures CallsReady(old(q.evs), kinds, old(ncalls)) ==> CallsReady(q.evs, kinds, ncalls)
    {
      hide Ok, AfterQueue, HeapLater, CallsReady, FewCalls, AllBut;
      ghost var was := q;
      TakeTimer(i, now);
      ghost var mid := q;
      CommonCallback(i, now);
      AllButTwice(was.evs, mid.evs, q.evs, timers[i], i, now);
    }

    /** An active timer is taken off its queue; its list is not covered until its callback has run. */
    method TakeTimer(i: nat, ghost now: int)
      requires Valid() && i < |q.lists|
      modifies this`q, this`sigCalls
      ensures Ok(i) && |q.lists| == old(|q.lists|) && |q.active| == old(|q.active|) && i < |timers|
      ensures sigCalls <= old(sigCalls) && timers[i] in old(q.evs)
      ensures AllBut(AfterQueue(q.evs, i, now), AfterQueue(old(q.evs), i, now), timers[i])
      ensures HeapLater(old(q), now) ==> HeapLater(q, now)
      ensures CallsReady(old(q.evs), kinds, ncalls) ==> CallsReady(q.evs, kinds, ncalls)
    {
      OneMoreException(q, timers, i);
      TimerAt(q, timers, i);
      var t := timers[i];
      hide QOk, TimersExcept, PrioOk, AllWithout, AfterQueue, HeapLater, CallsReady, AllBut;
      ghost var was := q;
      SameCount(q.lists, t);
      SameCount(q.active, t);
      DelInternal(t, i);
      TimerDropped(was, q, t, i, now);
      if CallsReady(was.evs, kinds, ncalls) { CallsAfterTimer(was.evs, q.evs, kinds, ncalls, t); }
    }

    /** timeout_process and then the callbacks of the list timers that are active, all at one cached time: of the
        user's events, exactly those due at `now` are activated, on whatever queue they wait. */
    method Round(now: int)
      requires Valid()
      modifies this`q, this`resTimeout, this`eventContinue, this`ncalls, this`pncalls, this`sigCalls
      ensures Valid() && ExactlyDue(old(q.evs), q.evs, now)
      ensures |q.lists| == old(|q.lists|) && |q.active| == old(|q.active|)
    {
      hide QOk, TimersExcept, PrioOk, HeapLater, AfterQueue, UsersAfter;
      ghost var was := q;
      TimeoutProcess(now);
      CtlBounds(was);
      HeapRound(was.evs, q.evs, now);
      IsHeapLater(q, now);
      for i := 0 to |q.lists|
        invariant Valid() && HeapLater(q, now) && |q.lists| == |was.lists| && |q.active| == |was.active|
        invariant UsersAfter(was.evs, q.evs, now, i)
      {
        TimersFit(q, timers);
        ghost var prev := q;
        if q.evs[timers[i]].active {
          RunTimer(i, now);
        } else {
          WaitsLater(q, timers, i, now);
        }
        RoundStep(was.evs, prev.evs, q.evs, timers[i], i, now);
      }
      RoundDone(was.evs, q.evs, now, |q.lists|);
    }

    method InsertUser(e: EvId)
      requires Ready() && e in q.evs && !q.evs[e].internal && !q.evs[e].inserted
      modifies this`q
      ensures Ready() && |q.lists| == old(|q.lists|) && |q.active| == old(|q.active|)
      ensures OthersSame(old(q.evs), q.evs, e) && e in q.evs && q.evs[e] == old(q.evs)[e].(inserted := true)
      ensures SameTimers(old(q.evs), q.evs)
    {
      hide Ok;
      QueueInsertInserted(e, -1);
    }

    /** event_add_internal for a user's event. `backendOk` is the backend's answer, if it is asked at all. */
    method AddInternal(e: EvId, tv: Option<Tv>, absolute: bool, now: int, backendOk: bool) returns (ok: bool)
      requires Ready() && e in q.evs && !q.evs[e].internal
      requires tv.Some? ==> -1 <= tv.value.ctl < |q.lists| && (absolute ==> tv.value.ctl == q.evs[e].ctl)
      modifies this`q, this`ioTimeout, this`sigCalls
      ensures Ready() && |q.lists| == old(|q.lists|) && |q.active| == old(|q.active|) && sigCalls <= old(sigCalls)
      ensures !ok <==> !backendOk && NeedsBackend(kinds[e], old(q.evs)[e])
      ensures !ok ==> q == old(q) && ioTimeout == old(ioTimeout)
      ensures ok ==> OthersSame(old(q.evs), q.evs, e)
      ensures ok && tv.None? ==> q.evs[e] == Inserted(old(q.evs)[e], kinds[e]) && ioTimeout == old(ioTimeout)
      ensures ok && tv.Some? ==>
              q.evs[e] == Waiting(Inserted(old(q.evs)[e], kinds[e]), e in resTimeout,
                                  if absolute then tv.value.us else now + tv.value.us, tv.value.ctl)
      ensures ok && tv.Some? ==> TimersTo(old(q.evs), q.evs, q.evs[e].deadline)
      ensures ok && tv.Some? ==>
              ioTimeout == if Persists(kinds[e]) && !absolute then old(ioTimeout)[e := tv.value] else old(ioTimeout)
    {
      hide QOk, TimersExcept, PrioOk, OthersSame, PersistOk, TimersTo;
      ghost var was := q.evs;
      if NeedsBackend(kinds[e], q.evs[e]) {
        if !backendOk {
          return false;
        }
        InsertUser(e);
      } else {
        OthersAfter(was, q.evs, e, q.evs[e], e, q.evs[e]);
      }
      assert SameTimers(was, q.evs);
      ok := true;
      if tv.Some? {
        ghost var mid := q.evs;
        AddTimeout(e, tv.value, absolute, now);
        TimersFrom(was, mid, q.evs, e, q.evs[e].deadline);
        OthersTwice(was, mid, q.evs, e);
      }
    }

    method AddTimeout(e: EvId, tv: Tv, absolute: bool, now: int)
      requires Ready() && e in q.evs && !q.evs[e].internal
      requires -1 <= tv.ctl < |q.lists| && (absolute ==> tv.ctl == q.evs[e].ctl)
      modifies this`q, this`ioTimeout, this`sigCalls
      ensures Ready() && |q.lists| == old(|q.lists|) && |q.active| == old(|q.active|) && sigCalls <= old(sigCalls)
      ensures OthersSame(old(q.evs), q.evs, e)
      ensures q.evs[e] == Waiting(old(q.evs)[e], e in resTimeout, if absolute then tv.us else now + tv.us, tv.ctl)
      ensures ioTimeout == if Persists(kinds[e]) && !absolute then old(ioTimeout)[e := tv] else old(ioTimeout)
      ensures TimersTo(old(q.evs), q.evs, q.evs[e].deadline)
    {
      hide QOk, TimersExcept, PrioOk, OthersSame, PersistOk, TimersTo;
      if q.evs[e].active && e in resTimeout {
        AbortLoop(e);
      }
      ghost var was := q.evs;
      ghost var wasIo := ioTimeout;
      if Persists(kinds[e]) && !absolute {
        ioTimeout := ioTimeout[e := tv];
      }
      RescheduleUser(e, if absolute then tv.us else now + tv.us, tv.ctl);
      PersistAfterAdd(was, q.evs, kinds, wasIo, ioTimeout, e, tv, absolute);
    }

    /** A user's event waits for a new deadline, and so does the timer of its list if the event comes first there. */
    method RescheduleUser(e: EvId, deadline: int, ctl: int)
      requires Valid() && e in q.evs && !q.evs[e].internal && -1 <= ctl < |q.lists|
      modifies this`q
      ensures Valid() && |q.lists| == old(|q.lists|) && |q.active| == old(|q.active|)
      ensures OthersSame(old(q.evs), q.evs, e)
      ensures q.evs[e] == Waiting(old(q.evs)[e], e in resTimeout, deadline, ctl)
      ensures TimersTo(old(q.evs), q.evs, deadline)
    {
      hide QOk, TimersExcept, PrioOk, AllWithout;
      ghost var was := q.evs;
      ghost var v := Waiting(was[e], e in resTimeout, deadline, ctl);
      SameCount(q.lists, e);
      Reschedule(e, deadline, ctl, -1);
      hide OthersSame, Waiting;
      OthersAfter(was, q.evs, e, v, e, v);
      if ctl != -1 && q.lists[ctl][0] == e {
        TimerAt(q, timers, ctl);
        ghost var mid := q.evs;
        Schedule(ctl);
        TimersAfter(was, mid, q.evs, e, v, timers[ctl], deadline);
        OthersAfter(was, q.evs, e, v, timers[ctl], q.evs[timers[ctl]]);
      }
    }

    /** event_del for a user's event */
    method Del(e: EvId)
      requires Ready() && e in q.evs && !q.evs[e].internal
      modifies this`q, this`sigCalls
      ensures Ready() && |q.lists| == old(|q.lists|) && |q.active| == old(|q.active|) && sigCalls <= old(sigCalls)
      ensures q.evs == old(q.evs)[e := Dropped(old(q.evs)[e])] && q.heap == old(q.heap) - {e}
    {
      hide QOk, TimersExcept, PrioOk, AllWithout;
      SameCount(q.lists, e);
      SameCount(q.active, e);
      DelInternal(e, -1);
    }

    /** event_active for a user's event */
    method Active(e: EvId, byTimeout: bool, calls: nat)
      requires Ready() && e in q.evs && !q.evs[e].internal
      modifies this`q, this`resTimeout, this`eventContinue, this`ncalls, this`pncalls
      ensures Ready() && |q.lists| == old(|q.lists|) && |q.active| == old(|q.active|)
      ensures q.evs == old(q.evs)[e := old(q.evs)[e].(active := true)]
      ensures old(q.evs)[e].active ==> q == old(q)
      ensures !old(q.evs)[e].active ==>
              q.evs[e].pri < |q.active| && q.active == old(q.active)[q.evs[e].pri := old(q.active)[q.evs[e].pri] + [e]]
      ensures eventContinue == (old(eventContinue) || (!old(q.evs)[e].active && q.evs[e].pri < runningPriority))
      ensures ncalls == if !old(q.evs)[e].active && kinds[e].signal then old(ncalls)[e := calls] else old(ncalls)
    {
      hide QOk, TimersExcept, PrioOk;
      ActiveNolock(e, byTimeout, calls, -1);
    }

    /** event_priority_set: refused for an active event. */
    method PrioritySet(e: EvId, pri: int) returns (ok: bool)
      requires Ready() && e in q.evs && !q.evs[e].internal
      modifies this`q
      ensures Ready() && ok == (!old(q.evs)[e].active && 0 <= pri < |q.active|)
      ensures q == if ok then old(q).(evs := old(q.evs)[e := old(q.evs)[e].(pri := pri)]) else old(q)
    {
      hide QOk, TimersExcept, PrioOk;
      if q.evs[e].active || !(0 <= pri < |q.active|) {
        return false;
      }
      PriorityOk(q, e, pri);
      PriorityKeepsTimers(q, timers, e, pri);
      q := q.(evs := q.evs[e := q.evs[e].(pri := pri)]);
      ok := true;
    }

    /** event_assign: a new event, or one that is on no queue set up again, at the middle priority. */
    method Assign(e: EvId, kind: Kind)
      requires Ready() && |q.active| > 0 && (e in q.evs ==> Idle(q.evs[e]))
      modifies this`q, this`kinds, this`ioTimeout, this`resTimeout, this`ncalls, this`pncalls
      ensures Ready() && q == Assigned(old(q), e) && kinds == old(kinds)[e := kind]
      ensures ioTimeout == old(ioTimeout) - {e} && resTimeout == old(resTimeout) - {e} && ncalls == old(ncalls) - {e}
    {
      hide QOk, TimersExcept, PrioOk, PersistOk;
      AssignedOk(q, timers, e);
      PersistAfterAssign(q, kinds, ioTimeout, e, kind);
      hide Assigned;
      ioTimeout := ioTimeout - {e};
      resTimeout := resTimeout - {e};
      ncalls := ncalls - {e};
      if pncalls == Some(e) { pncalls := None; }
      q := Assigned(q, e);
      kinds := kinds[e := kind];
    }

    /** event_base_init_common_timeout: the list for this duration, an old one if there is one; at most 256. */
    method InitCommonTimeout(duration: int, t: EvId) returns (r: Option<Tv>)
      requires Ready() && t !in q.evs && |q.active| > 0 && |durations| == |q.lists|
      modifies this`q, this`kinds, this`timers, this`durations
      ensures Ready() && |durations| == |q.lists| && old(durations) <= durations && q.active == old(q.active)
      ensures r.Some? ==> r.value.us == duration && 0 <= r.value.ctl < |durations| && durations[r.value.ctl] == duration
      ensures duration in old(durations) || (r.None? <==> |old(durations)| == 256)
      ensures duration in old(durations) || r.None? ==> q == old(q) && r.Some? == (duration in old(durations))
      ensures forall x :: x in old(q.evs) ==> x in q.evs && q.evs[x] == old(q.evs)[x]
    {
      hide QOk, TimersExcept, PrioOk, PersistOk;
      var i := FindDuration(duration);
      if i < |durations| {
        return Some(Tv(duration, i));
      }
      if |durations| == 256 {
        return None;
      }
      NewListOk(q, timers, t);
      PersistWithNew(q.evs, kinds, ioTimeout, t, NewList(q, t).evs[t], Kind(false, false, false));
      r := Some(Tv(duration, |durations|));
      durations := durations + [duration];
      q := NewList(q, t);
      kinds := kinds[t := Kind(false, false, false)];
      timers := timers + [t];
    }

    method FindDuration(duration: int) returns (i: nat)
      ensures i <= |durations| && (i < |durations| ==> durations[i] == duration)
      ensures i == |durations| <==> duration !in durations
    {
      i := 0;
      while i < |durations|
        invariant i <= |durations| && duration !in durations[..i]
      {
        if durations[i] == duration {
          return;
        }
        i := i + 1;
      }
    }

    /** timeout_correct, without a monotonic clock: when time went back, every pending deadline goes back as far. */
    method TimeoutCorrect(now: int)
      requires Ready()
      modifies this`q, this`eventTv
      ensures Ready() && eventTv == now
      ensures now >= old(eventTv) ==> q == old(q)
      ensures now < old(eventTv) ==>
              q == old(q).(evs := ShiftSome(old(q.evs), WaitingBelow(old(q.evs), |q.lists|), old(eventTv) - now))
    {
      hide QOk, TimersExcept, PrioOk, PersistOk, ShiftSome, WaitingBelow;
      if now >= eventTv {
        eventTv := now;
        return;
      }
      var off := eventTv - now;
      MembersKnown(q);
      var evs := ShiftHeap(q.evs, q.heap, off);
      HeapIsBelow(q);
      for i := 0 to |q.lists|
        invariant evs == ShiftSome(q.evs, WaitingBelow(q.evs, i), off)
        modifies {}
      {
        ShiftList(q, timers, i, off);
        evs := ShiftEvents(evs, q.lists[i], off);
      }
      ShiftKeeps(q, timers, off);
      ShiftKeepsPersist(q, kinds, ioTimeout, off);
      q := q.(evs := evs);
      eventTv := now;
    }

    ghost predicate All()
      reads this
    {
      Ready() && |durations| == |q.lists| && |q.active| > 0 && LogOk(log)
    }

    /** One public call, as a callback (or another thread, while a callback runs) makes it; naming an event that is
        not the user's is not a call. */
    method Do(c: Command)
      requires All()
      modifies this`q, this`kinds, this`timers, this`durations, this`resTimeout, this`ioTimeout
      modifies this`eventContinue, this`eventBreak, this`ncalls, this`pncalls, this`sigCalls
      ensures All() && |q.active| == old(|q.active|)
      ensures runningPriority <= 0 ==> eventContinue == old(eventContinue)
      ensures sigCalls <= old(sigCalls)
      ensures Activates(c, old(q)) ==>
              q.active == OneMore(c, old(q)) && sigCalls == old(sigCalls) && eventBreak == old(eventBreak)
      ensures (c.Active? ==> c.calls <= 1) && FewCalls(old(ncalls)) ==> FewCalls(ncalls)
    {
      hide QOk, TimersExcept, PrioOk, PersistOk, LogOk, OthersSame;
      match c {
        case Assign(e, kind) =>
          if e !in q.evs || Idle(q.evs[e]) { Assign(e, kind); }
        case InitCommonTimeout(duration, t) =>
          if t !in q.evs { var _ := InitCommonTimeout(duration, t); }
        case LoopBreak =>
          eventBreak := true;
        case Add(e, tv, now, backendOk) =>
          if e in q.evs && !q.evs[e].internal && (tv.Some? ==> -1 <= tv.value.ctl < |q.lists|) {
            var _ := AddInternal(e, tv, false, now, backendOk);
          }
        case Del(e) =>
          if e in q.evs && !q.evs[e].internal { Del(e); }
        case Active(e, byTimeout, calls) =>
          if e in q.evs && !q.evs[e].internal { Active(e, byTimeout, calls); }
        case PrioritySet(e, pri) =>
          if e in q.evs && !q.evs[e].internal { var _ := PrioritySet(e, pri); }
      }
    }

    method DoAll(cs: seq<Command>)
      requires All()
      modifies this`q, this`kinds, this`timers, this`durations, this`resTimeout, this`ioTimeout
      modifies this`eventContinue, this`eventBreak, this`ncalls, this`pncalls, this`sigCalls
      ensures All() && |q.active| == old(|q.active|)
      ensures runningPriority <= 0 ==> eventContinue == old(eventContinue)
      ensures sigCalls <= old(sigCalls)
      ensures |cs| == 1 && Activates(cs[0], old(q)) ==>
              q.active == OneMore(cs[0], old(q)) && sigCalls == old(sigCalls) && eventBreak == old(eventBreak)
      ensures Modest(cs) && FewCalls(old(ncalls)) ==> FewCalls(ncalls)
      ensures cs == [] ==> unchanged(this)
    {
      hide All, Activates, OneMore, FewCalls;
      for i := 0 to |cs|
        invariant All() && |q.active| == old(|q.active|)
        invariant runningPriority <= 0 ==> eventContinue == old(eventContinue)
        invariant sigCalls <= old(sigCalls)
        invariant i == 0 ==> unchanged(this)
        invariant i == 1 && Activates(cs[0], old(q)) ==>
                  q.active == OneMore(cs[0], old(q)) && sigCalls == old(sigCalls) && eventBreak == old(eventBreak)
        invariant Modest(cs) && FewCalls(old(ncalls)) ==> FewCalls(ncalls)
      {
        Do(cs[i]);
      }
    }

    /** The user's function runs: what it sees of the queues at its start goes to the log. */
    method Call(e: EvId, again: bool, script: seq<Command>)
      requires All() && (!again ==> !eventContinue)
      modifies this`q, this`kinds, this`timers, this`durations, this`resTimeout, this`ioTimeout
      modifies this`eventContinue, this`eventBreak, this`ncalls, this`pncalls, this`sigCalls, this`log
      ensures All() && |q.active| == old(|q.active|) && sigCalls <= old(sigCalls)
      ensures log == old(log + [Start(e, runningPriority, again, eventContinue, q.active)])
      ensures |script| == 1 && Activates(script[0], old(q)) ==>
              q.active == OneMore(script[0], old(q)) && sigCalls == old(sigCalls) && eventBreak == old(eventBreak)
      ensures Modest(script) && FewCalls(old(ncalls)) ==> FewCalls(ncalls)
      ensures script == [] ==>
              unchanged(this`q, this`kinds, this`timers, this`resTimeout, this`ioTimeout, this`eventContinue,
                        this`eventBreak, this`ncalls, this`sigCalls)
    {
      hide QOk, TimersExcept, PersistOk, FewCalls, Activates, OneMore;
      log := log + [Start(e, runningPriority, again, eventContinue, q.active)];
      hide All;
      DoAll(script);
    }

    /** event_signal_closure: the callback runs ncalls times, unless the event is deleted or the loop told to stop.
        The inputs from..used are used; `done` is false if they ran out. */
    method SignalClosure(e: EvId, inputs: seq<Input>, from: nat) returns (used: nat, done: bool)
      requires All() && !eventContinue && from <= |inputs|
      modifies this`q, this`kinds, this`timers, this`durations, this`resTimeout, this`ioTimeout
      modifies this`eventContinue, this`eventBreak, this`ncalls, this`pncalls, this`sigCalls, this`log
      ensures All() && |q.active| == old(|q.active|) && from <= used <= |inputs|
      ensures old(log) <= log && OnlyOf(old(log), log, e) && |log| == |old(log)| + (used - from)
      ensures used - from <= Calls(old(ncalls), e)
      ensures Calls(old(ncalls), e) > 0 && from < |inputs| ==> Started(old(log), log, e, runningPriority)
      ensures done && !old(eventBreak) && Silent(inputs) ==> used - from == Calls(old(ncalls), e)
      ensures Silent(inputs) ==>
              && unchanged(this`q, this`kinds, this`timers, this`ioTimeout, this`eventContinue, this`eventBreak)
              && CallsElsewhere(old(ncalls), ncalls, e)
      ensures Calm(old(ncalls), inputs, ncalls, old(log), log)
      ensures Calls(old(ncalls), e) >= 2 && !old(eventBreak) && Rouses(old(q), runningPriority, inputs, from) ==>
              Overtook(old(log), log, e)
    {
      hide All, NoneBefore, Activates, OneMore, Rouses, Overtook;
      used := from;
      ghost var was, calls := log, Calls(ncalls, e);
      SignalStart(e);
      FewStart(ncalls, e);
      RousesTwo(q, runningPriority, inputs, from);
      hide FewCalls;
      while sigCalls > 0
        invariant All() && |q.active| == old(|q.active|) && (used == from ==> !eventContinue)
        invariant from <= used <= |inputs| && |log| == |was| + (used - from) && used - from + sigCalls <= calls
        invariant was <= log && OnlyOf(was, log, e) && (used > from ==> Started(was, log, e, runningPriority))
        invariant used == from ==> sigCalls == calls && unchanged(this`q, this`eventBreak, this`ncalls)
        invariant Silent(inputs) && !old(eventBreak) ==> !eventBreak && used - from + sigCalls == calls
        invariant Silent(inputs) ==>
                  && unchanged(this`q, this`kinds, this`timers, this`ioTimeout, this`eventContinue, this`eventBreak)
                  && CallsElsewhere(old(ncalls), ncalls, e)
        invariant FewCalls(old(ncalls)) && ModestInputs(inputs) ==> FewCalls(ncalls)
        invariant used == from + 1 && calls >= 2 && !old(eventBreak)
                  && Rouses(old(q), runningPriority, inputs, from) ==>
                  IsRoused(old(q), q, inputs, from) && sigCalls > 0 && !eventBreak
        invariant used >= from + 2 && calls >= 2 && !old(eventBreak)
                  && Rouses(old(q), runningPriority, inputs, from) ==>
                  Overtook(was, log, e)
        decreases |inputs| - used
      {
        if used == |inputs| {
          return used, false;
        }
        ghost var before, mid := log, q;
        SignalCall(e, used > from, inputs[used].script);
        if Rouses(old(q), runningPriority, inputs, from) {
          if used == from {
            RousedFirst(old(q), q, runningPriority, inputs, from);
          } else if used == from + 1 && IsRoused(old(q), mid, inputs, from) {
            RousedSecond(old(q), mid, runningPriority, inputs, from, was, before, log, e);
          }
          OvertookMore(was, before, log, e);
        }
        used := used + 1;
        if eventBreak {
          ForgetCalls();
          return used, true;
        }
      }
      done := true;
    }

    method SignalStart(e: EvId)
      requires All()
      modifies this`pncalls, this`sigCalls
      ensures All() && sigCalls == Calls(ncalls, e)
      ensures pncalls == if sigCalls != 0 then Some(e) else old(pncalls)
    {
      sigCalls := if e in ncalls then ncalls[e] else 0;
      if sigCalls != 0 { pncalls := Some(e); }
    }

    method SignalCall(e: EvId, again: bool, script: seq<Command>)
      requires All() && (!again ==> !eventContinue) && sigCalls > 0
      modifies this`q, this`kinds, this`timers, this`durations, this`resTimeout, this`ioTimeout
      modifies this`eventContinue, this`eventBreak, this`ncalls, this`pncalls, this`sigCalls, this`log
      ensures All() && |q.active| == old(|q.active|) && sigCalls < old(sigCalls)
      ensures log == old(log + [Start(e, runningPriority, again, eventContinue, q.active)])
      ensures |script| == 1 && Activates(script[0], old(q)) ==>
              q.active == OneMore(script[0], old(q)) && sigCalls == old(sigCalls) - 1 && eventBreak == old(eventBreak)
      ensures Modest(script) && FewCalls(old(ncalls)) && old(sigCalls) <= 1 ==> FewCalls(ncalls)
      ensures script == [] ==>
              && unchanged(this`q, this`kinds, this`timers, this`resTimeout, this`ioTimeout)
              && unchanged(this`eventContinue, this`eventBreak)
              && sigCalls == old(sigCalls) - 1 && ncalls == old(ncalls)[e := sigCalls]
    {
      hide QOk, TimersExcept, PrioOk, LogOk, PersistOk, OneMore, Activates;
      sigCalls := sigCalls - 1;
      FewLess(ncalls, e, sigCalls);
      hide FewCalls;
      ncalls := ncalls[e := sigCalls];
      if sigCalls == 0 { pncalls := None; }
      Call(e, again, script);
    }

    method ForgetCalls()
      requires All()
      modifies this`pncalls
      ensures All() && pncalls == if sigCalls != 0 then None else old(pncalls)
    {
      if sigCalls != 0 { pncalls := None; }
    }

    /** The part of event_persist_closure before the callback: the event waits again, an interval after it was due or,
        if that has passed already or another cause activated it, an interval from now. */
    method Repeat(e: EvId, now: int, backendOk: bool)
      requires All() && e in q.evs && !q.evs[e].internal && Persists(kinds[e])
      modifies this`q, this`ioTimeout, this`sigCalls
      ensures All() && |q.active| == old(|q.active|)
      ensures ioTimeout == old(ioTimeout) && OthersSame(old(q.evs), q.evs, e)
      ensures q.evs[e] ==
              if HasInterval(ioTimeout, e) && (backendOk || !NeedsBackend(kinds[e], old(q.evs)[e])) then
                Waiting(Inserted(old(q.evs)[e], kinds[e]), e in resTimeout,
                        RunAt(old(q.evs)[e].deadline, ioTimeout[e].us, e in resTimeout, now), old(q.evs)[e].ctl)
              else old(q.evs)[e]
      ensures HeapLater(old(q), now) && LaterRepeats(old(q.evs), ioTimeout, now) ==>
              HeapLater(q, now) && LaterRepeats(q.evs, ioTimeout, now)
    {
      hide QOk, TimersExcept, PrioOk, PersistOk, LogOk, OthersSame, Waiting, Inserted, NeedsBackend, TimersTo;
      hide HeapLater, LaterRepeats;
      ghost var q0 := q;
      ghost var was := q.evs;
      if HasInterval(ioTimeout, e) {
        var delay := ioTimeout[e];
        SameCommonTimeout(q.evs, kinds, ioTimeout, e);
        CtlBounds(q);
        var runAt := RunAt(q.evs[e].deadline, delay.us, e in resTimeout, now);
        var ok := AddInternal(e, Some(Tv(runAt, delay.ctl)), true, now, backendOk);
        if ok {
          WaitsFor(was[e], kinds[e], e in resTimeout, runAt, delay.ctl);
          RepeatLater(q0, q, kinds, ioTimeout, e, e in resTimeout, now);
          return;
        }
      }
      OthersAfter(was, was, e, was[e], e, was[e]);
    }

    /** event_persist_closure */
    method PersistClosure(e: EvId, input: Input)
      requires All() && !eventContinue && e in q.evs && !q.evs[e].internal && Persists(kinds[e])
      modifies this`q, this`kinds, this`timers, this`durations, this`resTimeout, this`ioTimeout
      modifies this`eventContinue, this`eventBreak, this`ncalls, this`pncalls, this`sigCalls, this`log
      ensures All() && |q.active| == old(|q.active|) && old(log) <= log && Started(old(log), log, e, runningPriority)
      ensures |log| == |old(log)| + 1
      ensures FewCalls(old(ncalls)) && Modest(input.script) ==> FewCalls(ncalls)
      ensures input.script == [] ==>
              && unchanged(this`kinds, this`timers, this`ioTimeout, this`eventContinue, this`eventBreak, this`ncalls)
              && OthersSame(old(q.evs), q.evs, e) && (!old(q.evs)[e].active ==> !q.evs[e].active)
              && (HeapLater(old(q), input.now) && LaterRepeats(old(q.evs), ioTimeout, input.now) ==>
                  HeapLater(q, input.now) && LaterRepeats(q.evs, ioTimeout, input.now))
    {
      hide QOk, TimersExcept, PrioOk, PersistOk, LogOk, OthersSame, FewCalls, HeapLater, LaterRepeats;
      Repeat(e, input.now, input.backendOk);
      Call(e, false, input.script);
    }

    /** A persistent event only leaves the active queue; any other is deleted. */
    method TakeActive(e: EvId)
      requires All() && e in q.evs && !q.evs[e].internal
      modifies this`q, this`sigCalls
      ensures All() && |q.active| == old(|q.active|)
      ensures var v := old(q.evs)[e];
              q.evs == old(q.evs)[e := if kinds[e].persist then v.(active := false) else Dropped(v)]
      ensures q.heap <= old(q.heap)
    {
      hide QOk, TimersExcept, PrioOk, LogOk, AllWithout;
      if kinds[e].persist {
        SameCount(q.active, e);
        DropActive(e, -1);
      } else {
        Del(e);
      }
    }

    /** Take a user's event off the active queue and run it. At least one input is used. */
    method RunUser(e: EvId, inputs: seq<Input>, from: nat, ghost now: int) returns (used: nat, done: bool)
      requires All() && !eventContinue && e in q.evs && !q.evs[e].internal && from < |inputs|
      requires q.evs[e].pri == runningPriority
      modifies this`q, this`kinds, this`timers, this`durations, this`resTimeout, this`ioTimeout
      modifies this`eventContinue, this`eventBreak, this`ncalls, this`pncalls, this`sigCalls, this`log
      ensures All() && |q.active| == old(|q.active|) && from < used <= |inputs|
      ensures old(log) <= log && OnlyOf(old(log), log, e)
      ensures Calm(old(ncalls), inputs, ncalls, old(log), log)
      ensures Promise(old(q), old(kinds), old(ncalls), old(eventBreak), old(log), log, e, runningPriority, inputs, from)
      ensures Quiet(inputs, now) ==>
              && unchanged(this`kinds, this`timers, this`ioTimeout, this`eventContinue, this`eventBreak)
              && QuietStep(old(q), ioTimeout, q, e, now) && CallsElsewhere(old(ncalls), ncalls, e)
    {
      hide QOk, TimersExcept, PrioOk, PersistOk, LogOk, OthersSame, AllWithout, FewCalls, Overtook, QuietStep;
      ghost var was := q;
      TakeActive(e);
      ghost var mid := q;
      Taken(was, mid, ioTimeout, e, now);
      hide LaterRepeats, HeapLater;
      StillRouses(was, q, kinds, ncalls, e, inputs, from);
      hide Overtakable, Rouses;
      done := true;
      if kinds[e].signal {
        used, done := SignalClosure(e, inputs, from);
        if used == from { used := from + 1; }
      } else if kinds[e].persist {
        PersistClosure(e, inputs[from]);
        used := from + 1;
      } else {
        Call(e, false, inputs[from].script);
        used := from + 1;
      }
      OthersAfter(mid.evs, mid.evs, e, mid.evs[e], e, mid.evs[e]);
      if Quiet(inputs, now) { Ran(was, mid, q, ioTimeout, e, now); }
    }

    /** Take an active list timer off the queue and run its callback. */
    method RunInternal(e: EvId, now: int)
      requires All() && !eventContinue && e in q.evs && q.evs[e].internal && runningPriority == 0
      modifies this`q, this`resTimeout, this`eventContinue, this`ncalls, this`pncalls, this`sigCalls, this`log
      ensures All() && !eventContinue && |q.active| == old(|q.active|) && old(log) <= log
      ensures Started(old(log), log, e, 0) && |log| == |old(log)| + 1
      ensures forall inputs :: Calm(old(ncalls), inputs, ncalls, old(log), log)
      ensures HeapLater(old(q), now) ==> HeapLater(q, now)
      ensures CallsReady(old(q.evs), kinds, old(ncalls)) ==> CallsReady(q.evs, kinds, ncalls)
      ensures e in q.evs && q.evs[e].internal && PersistOk(q.evs, kinds, ioTimeout)
      ensures exists i :: 0 <= i < |timers| && timers[i] == e && AllBut(q.evs, AfterQueue(old(q.evs), i, now), e)
    {
      hide Ok, LogOk, PersistOk, AfterQueue, AllBut, FewCalls, HeapLater, CallsReady, Calm;
      TimerIs(e);
      var i :| 0 <= i < |timers| && timers[i] == e;
      ghost var was, log0, n0 := q.evs, log, ncalls;
      Note(e);
      RunTimer(i, now);
      PersistAfterTimer(was, q.evs, kinds, ioTimeout, e, i, now);
      CalmTimer(n0, ncalls, log0, log);
      NeverInFirst();
    }

    lemma {:induction false} NeverInFirst()
      requires Valid() && runningPriority == 0
      ensures !eventContinue
    {
      hide QOk, TimersExcept;
    }

    lemma {:induction false} TimerIs(e: EvId)
      requires Valid() && e in q.evs && q.evs[e].internal
      ensures |timers| == |q.lists| && exists i :: 0 <= i < |timers| && timers[i] == e
    {
      hide QOk, PrioOk;
      TimerOf(q, timers, e);
    }

    /** The start of an internal callback goes to the log. */
    method Note(e: EvId)
      requires All() && !eventContinue && runningPriority == 0
      modifies this`log
      ensures All() && log == old(log) + [Start(e, 0, false, false, q.active)]
    {
      hide QOk, TimersExcept, PrioOk, PersistOk;
      log := log + [Start(e, 0, false, false, q.active)];
    }

    lemma {:induction false} HeadOf(p: nat)
      requires All() && p < |q.active| && q.active[p] != []
      ensures var e := q.active[p][0];
              e in q.evs && e in kinds && q.evs[e].pri == p && q.evs[e].active && (q.evs[e].internal ==> p == 0)
    {
      hide QOk, TimersExcept, PrioOk, PersistOk, LogOk;
      ActiveEvent(q, timers, p);
    }

    /** event_process_active_single_queue. `count` is the number of user's events run, -1 if told to stop; the inputs
        from..used are used, and `done` is false if they ran out. */
    method ProcessQueue(p: nat, inputs: seq<Input>, from: nat, ghost g: TurnStart)
        returns (count: int, used: nat, done: bool)
      requires All() && !eventContinue && p < |q.active| && runningPriority == p && q.active[p] != []
      requires from <= |inputs|
      modifies this`q, this`kinds, this`timers, this`durations, this`resTimeout, this`ioTimeout
      modifies this`eventContinue, this`eventBreak, this`ncalls, this`pncalls, this`sigCalls, this`log
      ensures All() && |q.active| == old(|q.active|) && old(log) <= log && from <= used <= |inputs|
      ensures done && count == 0 ==> p == 0 && !eventContinue && q.active[p] == []
      ensures if from == |inputs| then !done && q == old(q) else
                Promise(old(q), old(kinds), old(ncalls), old(eventBreak), old(log), log,
                        old(q.active[p][0]), p, inputs, from)
      ensures Calm(old(ncalls), inputs, ncalls, old(log), log)
      ensures Quiet(inputs, g.now) && old(InTurn(g)) ==>
              InTurn(g) && (done ==> forall k :: 0 <= k <= p ==> q.active[k] == [])
    {
      hide All, Promise, Calm, InTurn;
      used, count, done := from, 0, true;
      ghost var was, q0, k0, n0, b0, first := log, q, kinds, ncalls, eventBreak, q.active[p][0];
      ghost var quiet := Quiet(inputs, g.now) && InTurn(g);
      CalmStart(ncalls, inputs, log);
      while q.active[p] != []
        invariant All() && !eventContinue && |q.active| == |q0.active| && was <= log && count >= 0 && done
        invariant from <= used <= |inputs| && (count == 0 && used > from ==> p == 0)
        invariant if used == from then q == q0 && kinds == k0 && ncalls == n0 && eventBreak == b0 && log == was
                  else Promise(q0, k0, n0, b0, was, log, first, p, inputs, from)
        invariant Calm(n0, inputs, ncalls, was, log) && (quiet ==> InTurn(g))
        decreases |inputs| - used
      {
        if used == |inputs| {
          return count, used, false;
        }
        var e := q.active[p][0];
        HeadOf(p);
        ghost var before, q1, k1, n1 := log, q, kinds, ncalls;
        if q.evs[e].internal {
          RunTimerInTurn(e, inputs[used].now, g);
          PromiseInternal(q1, k1, n1, eventBreak, before, log, e, inputs, used);
          used := used + 1;
        } else {
          used, done := RunUserInTurn(e, inputs, used, g);
          count := count + 1;
        }
        CalmStep(n0, inputs, n1, was, before, ncalls, log);
        PromiseMore(q0, k0, n0, b0, was, before, log, first, p, inputs, from);
        if quiet { Unbroken(g); }
        if !done {
          return;
        }
        if eventBreak {
          return -1, used, true;
        }
        if eventContinue {
          break;
        }
      }
      if quiet { BeforeEmpty(g); }
    }

    /** A user's event runs in a turn. */
    method RunUserInTurn(e: EvId, inputs: seq<Input>, from: nat, ghost g: TurnStart) returns (used: nat, done: bool)
      requires All() && !eventContinue && e in q.evs && e in kinds && !q.evs[e].internal && from < |inputs|
      requires q.evs[e].pri == runningPriority && q.evs[e].active
      modifies this`q, this`kinds, this`timers, this`durations, this`resTimeout, this`ioTimeout
      modifies this`eventContinue, this`eventBreak, this`ncalls, this`pncalls, this`sigCalls, this`log
      ensures All() && |q.active| == old(|q.active|) && from < used <= |inputs| && old(log) <= log
      ensures Calm(old(ncalls), inputs, ncalls, old(log), log)
      ensures Promise(old(q), old(kinds), old(ncalls), old(eventBreak), old(log), log, e, runningPriority, inputs, from)
      ensures Quiet(inputs, g.now) && old(InTurn(g)) ==> InTurn(g)
    {
      hide All, Calm, Quiet, TurnInv, QuietStep, CallsElsewhere;
      ghost var q0, log0, n0, k0 := q, log, ncalls, kinds;
      ghost var quiet := Quiet(inputs, g.now) && InTurn(g);
      used, done := RunUser(e, inputs, from, g.now);
      if quiet { UserStep(g, q0, log0, q, log, k0, ioTimeout, n0, ncalls, e, runningPriority); }
    }

    /** A list's timer runs in a turn. */
    method RunTimerInTurn(e: EvId, now: int, ghost g: TurnStart)
      requires All() && !eventContinue && e in q.evs && q.evs[e].internal && runningPriority == 0
      modifies this`q, this`resTimeout, this`eventContinue, this`ncalls, this`pncalls, this`sigCalls, this`log
      ensures All() && !eventContinue && |q.active| == old(|q.active|) && old(log) <= log
      ensures Started(old(log), log, e, 0) && forall inputs :: Calm(old(ncalls), inputs, ncalls, old(log), log)
      ensures now == g.now && old(InTurn(g)) ==> InTurn(g)
    {
      hide All, Calm, HeapLater, AllBut, PersistOk, SoFar, LaterRepeats, CallsReady;
      ghost var q0, log0, n0 := q, log, ncalls;
      ghost var quiet := now == g.now && InTurn(g);
      RunInternal(e, now);
      if quiet {
        ghost var i :| 0 <= i < |timers| && timers[i] == e && AllBut(q.evs, AfterQueue(q0.evs, i, now), e);
        TimerStep(g, q0, log0, q, log, kinds, ioTimeout, n0, ncalls, e, i);
      }
    }

    /** A turn that began with g is on: callbacks at its time that do nothing keep this. */
    ghost predicate InTurn(g: TurnStart)
      reads this
    {
      TurnInv(g, q, log, kinds, ioTimeout, ncalls) && g.log <= log && !eventBreak && !eventContinue
    }

    lemma {:induction false} Unbroken(g: TurnStart)
      requires InTurn(g)
      ensures !eventBreak && !eventContinue
    {
    }

    lemma {:induction false} BeforeEmpty(g: TurnStart)
      requires All() && InTurn(g)
      ensures forall k :: 0 <= k < runningPriority && k < |q.active| ==> q.active[k] == []
    {
      hide QOk, TimersExcept, PersistOk, LogOk, TurnInv;
    }

    method EnterQueue(p: nat, ghost g: TurnStart)
      requires All() && !eventContinue && p < |q.active| && forall i :: 0 <= i < p ==> q.active[i] == []
      modifies this`runningPriority
      ensures All() && runningPriority == p && InTurn(g) == old(InTurn(g))
    {
      hide QOk, TimersExcept, PersistOk, LogOk;
      runningPriority := p;
    }

    /** One turn of the loop in event_process_active, at a queue with events. */
    method OneQueue(p: nat, inputs: seq<Input>, from: nat, ghost g: TurnStart, ghost n0: map<EvId, nat>,
                    ghost was: seq<Start>) returns (count: int, used: nat, done: bool)
      requires All() && !eventContinue && p < |q.active| && q.active[p] != [] && from <= |inputs|
      requires forall i :: 0 <= i < p ==> q.active[i] == []
      requires was <= log && Calm(n0, inputs, ncalls, was, log)
      modifies this`q, this`kinds, this`timers, this`durations, this`resTimeout, this`ioTimeout, this`runningPriority
      modifies this`eventContinue, this`eventBreak, this`ncalls, this`pncalls, this`sigCalls, this`log
      ensures All() && |q.active| == old(|q.active|) && old(log) <= log && from <= used <= |inputs|
      ensures done && count == 0 ==> p == 0 && !eventContinue && q.active[p] == []
      ensures if from == |inputs| then !done && q == old(q) else
                Promise(old(q), old(kinds), old(ncalls), old(eventBreak), old(log), log,
                        old(q.active[p][0]), p, inputs, from)
      ensures Calm(n0, inputs, ncalls, was, log)
      ensures Quiet(inputs, g.now) && old(InTurn(g)) ==>
              InTurn(g) && (done ==> forall k :: 0 <= k <= p ==> q.active[k] == [])
    {
      hide All, Promise, Calm, InTurn, Quiet;
      EnterQueue(p, g);
      ghost var before, n1 := log, ncalls;
      count, used, done := ProcessQueue(p, inputs, from, g);
      CalmStep(n0, inputs, n1, was, before, ncalls, log);
    }

    /** event_process_active, from a state where no callback runs. */
    method ProcessActive(inputs: seq<Input>, ghost g: TurnStart) returns (c: int, done: bool)
      requires All() && !eventContinue && runningPriority == -1
      modifies this`q, this`kinds, this`timers, this`durations, this`resTimeout, this`ioTimeout, this`runningPriority
      modifies this`eventContinue, this`eventBreak, this`ncalls, this`pncalls, this`sigCalls, this`log
      ensures All() && |q.active| == old(|q.active|) && old(log) <= log && runningPriority == -1
      ensures var p := Lead(old(q.active));
              p < |old(q.active)| && inputs != [] ==>
              Promise(old(q), old(kinds), old(ncalls), old(eventBreak), old(log), log,
                      old(q.active)[p][0], p, inputs, 0)
      ensures |inputs| == 0 ==> q == old(q)
      ensures FewCalls(old(ncalls)) && ModestInputs(inputs) ==> FewCalls(ncalls) && NoInversion(old(log), log)
      ensures Quiet(inputs, g.now) && old(InTurn(g)) && done && |q.active| > 0 ==> InTurn(g) && q.active[0] == []
    {
      hide All, Promise, Calm, FewCalls, NoInversion, ModestInputs, Lead, InTurn, Quiet;
      ghost var quiet := Quiet(inputs, g.now) && InTurn(g);
      var used := 0;
      c, done := 0, true;
      ghost var was, q0, k0, n0, b0, p := log, q, kinds, ncalls, eventBreak, Lead(q.active);
      CalmStart(ncalls, inputs, log);
      var i := 0;
      while i < |q.active|
        invariant All() && !eventContinue && |q.active| == |q0.active| && was <= log && 0 <= used <= |inputs|
        invariant 0 <= i <= |q.active| && forall k :: 0 <= k < i ==> q.active[k] == []
        invariant |inputs| == 0 ==> q == q0
        invariant i <= p ==> used == 0 && q == q0 && kinds == k0 && ncalls == n0 && eventBreak == b0 && log == was
        invariant Calm(n0, inputs, ncalls, was, log) && (quiet ==> InTurn(g))
        invariant p < i && inputs != [] ==> Promise(q0, k0, n0, b0, was, log, q0.active[p][0], p, inputs, 0)
        decreases |q.active| - i
      {
        if q.active[i] != [] {
          ghost var before := log;
          c, used, done := OneQueue(i, inputs, used, g, n0, was);
          if p < |q0.active| { PromiseMore(q0, k0, n0, b0, was, before, log, q0.active[p][0], p, inputs, 0); }
          if !done || c != 0 {
            break;
          }
        }
        i := i + 1;
      }
      LeaveQueues(g);
      CalmEnd(n0, inputs, was);
    }

    lemma {:induction false} CalmEnd(n0: map<EvId, nat>, inputs: seq<Input>, was: seq<Start>)
      requires All() && Calm(n0, inputs, ncalls, was, log)
      ensures FewCalls(n0) && ModestInputs(inputs) ==> FewCalls(ncalls) && NoInversion(was, log)
    {
      hide QOk, TimersExcept, PrioOk, PersistOk;
      CalmMeans(n0, inputs, ncalls, was, log);
    }

    method LeaveQueues(ghost g: TurnStart)
      requires All()
      modifies this`runningPriority
      ensures All() && runningPriority == -1 && InTurn(g) == old(InTurn(g))
    {
      hide QOk, TimersExcept, PersistOk, LogOk;
      runningPriority := -1;
    }

    /** One turn of event_base_loop after the checks at its head: dispatch, timeouts, active events. `ran` says whether
        there were any. */
    method Turn(t: Turned) returns (ran: bool, n: int, done: bool)
      requires All() && runningPriority == -1 && !eventContinue
      modifies this
      ensures All() && runningPriority == -1 && old(log) <= log && eventTv == t.tv
      ensures t.dispatched == [] && t.inputs == [] ==> q.evs == AfterQueue(old(q.evs), -1, t.now)
      ensures var p := Lead(old(q.active));
              p < |old(q.active)| && t.dispatched == [] && t.inputs != [] && HeapLater(old(q), t.now) ==>
              Promise(old(q), old(kinds), old(ncalls), old(eventBreak), old(log), log,
                      old(q.active)[p][0], p, t.inputs, 0)
      ensures FewCalls(old(ncalls)) && ModestTurn(t) ==> FewCalls(ncalls) && NoInversion(old(log), log)
      ensures t.dispatched == [] && Quiet(t.inputs, t.now) && !old(eventBreak) && done
              && LaterRepeats(old(q.evs), old(ioTimeout), t.now) && CallsReady(old(q.evs), old(kinds), old(ncalls)) ==>
              TurnExact(TurnStart(old(q.evs), old(log), t.now), q.evs, log)
    {
      hide All, InTurn, AfterQueue, FewCalls, Promise, NoInversion, ModestInputs, Quiet, TurnExact, LaterRepeats;
      hide CallsReady, Lead, HeapLater;
      ghost var g := TurnStart(q.evs, log, t.now);
      n, done := 0, true;
      WaitAndFire(t.tv, t.dispatched, t.now, g);
      ran := q.countActive != 0;
      NoInversionNow(log);
      if ran {
        n, done := ProcessActive(t.inputs, g);
      }
      if InTurn(g) && q.active[0] == [] { EndTurn(g); }
    }

    /** evsel->dispatch, and timeout_process. */
    method WaitAndFire(tv: int, dispatched: seq<Command>, now: int, ghost g: TurnStart)
      requires All() && runningPriority == -1 && !eventContinue
      modifies this`q, this`kinds, this`timers, this`durations, this`resTimeout, this`ioTimeout
      modifies this`eventContinue, this`eventBreak, this`ncalls, this`pncalls, this`sigCalls, this`eventTv
      ensures All() && !eventContinue && |q.active| > 0 && eventTv == tv
      ensures q.countActive == 0 ==> forall p :: 0 <= p < |q.active| ==> q.active[p] == []
      ensures dispatched == [] ==> q.evs == AfterQueue(old(q.evs), -1, now)
      ensures dispatched == [] && HeapLater(old(q), now) ==>
              q == old(q) && kinds == old(kinds) && ncalls == old(ncalls) && eventBreak == old(eventBreak)
      ensures FewCalls(old(ncalls)) && Modest(dispatched) ==> FewCalls(ncalls)
      ensures dispatched == [] && g == TurnStart(old(q.evs), old(log), now) && !old(eventBreak)
              && LaterRepeats(old(q.evs), old(ioTimeout), now) && CallsReady(old(q.evs), old(kinds), old(ncalls)) ==>
              InTurn(g)
    {
      hide QOk, TimersExcept, PrioOk, PersistOk, LogOk, AfterQueue, FewCalls, LaterRepeats, CallsReady, TurnInv;
      ghost var quiet := g == TurnStart(q.evs, log, now) && LaterRepeats(q.evs, ioTimeout, now)
                         && CallsReady(q.evs, kinds, ncalls);
      eventTv := tv;
      DoAll(dispatched);
      ghost var was := q.evs;
      TimeoutProcess(now);
      PersistAfterHeap(was, q.evs, kinds, ioTimeout, now);
      if dispatched == [] && quiet { AfterHeap(g, q, ioTimeout, kinds, ncalls); }
      SomeActive(q);
    }

    lemma {:induction false} EndTurn(g: TurnStart)
      requires All() && InTurn(g) && |q.active| > 0 && q.active[0] == []
      ensures TurnExact(g, q.evs, log)
    {
      hide QOk, TimersExcept, PrioOk, PersistOk, LogOk, SoFar, HeapLater, TurnExact;
      TurnEnds(g, q, timers, log);
    }

    /** event_base_loop over the given turns: no start of a callback in it is a priority inversion, and it reports that
        there is nothing to wait for only when no user's event is on any queue. */
    method Loop(monotonic: bool, once: bool, nonblock: bool, turns: seq<Turned>) returns (retval: int)
      requires All() && runningPriority == -1
      modifies this
      ensures All() && runningPriority == -1 && old(log) <= log
      ensures retval == 1 ==> forall e :: e in q.evs && !q.evs[e].internal ==> !OnSomeQueue(q, e)
      ensures turns != [] && old(q.count) <= 0 && old(q.countActive) == 0 ==> retval == 1 && log == old(log)
      ensures FewCalls(old(ncalls)) && (forall i :: 0 <= i < |turns| ==> ModestTurn(turns[i])) ==>
              NoInversion(old(log), log)
      ensures var p := Lead(old(q.active));
              p < |old(q.active)| && turns != [] && monotonic && Direct(old(q), turns[0]) ==>
              Promise(old(q), old(kinds), old(ncalls), false, old(log), log, old(q.active)[p][0], p, turns[0].inputs, 0)
    {
      hide All, OnSomeQueue, FewCalls, Promise, ModestTurn, Lead, Direct, NoneBefore;
      ghost var was, q0, k0, n0, p := log, q, kinds, ncalls, Lead(q.active);
      retval := 0;
      Unbreak();
      for i := 0 to |turns|
        invariant All() && runningPriority == -1 && was <= log
        invariant i == 0 ==> q == q0 && kinds == k0 && ncalls == n0 && log == was && !eventBreak
        invariant i > 0 ==> !(q0.count <= 0 && q0.countActive == 0)
        invariant FewCalls(n0) && (forall k :: 0 <= k < |turns| ==> ModestTurn(turns[k])) ==>
                  FewCalls(ncalls) && NoInversion(was, log)
        invariant p < |q0.active| && i > 0 && monotonic && Direct(q0, turns[0]) ==>
                  Promise(q0, k0, n0, false, was, log, q0.active[p][0], p, turns[0].inputs, 0)
      {
        StartOver();
        if eventBreak {
          return;
        }
        var nothing := AtHead(monotonic, turns[i].correct);
        if nothing {
          return 1;
        }
        ghost var before := log;
        var ran, n, done := Turn(turns[i]);
        IsDirect(q0, turns[0]);
        if p < |q0.active| {
          PromiseMore(q0, k0, n0, false, was, before, log, q0.active[p][0], p, turns[0].inputs, 0);
        }
        if !done || (ran && once && q.countActive == 0 && n != 0) || (!ran && nonblock) {
          return;
        }
      }
    }

    method Unbreak()
      requires All()
      modifies this`eventBreak
      ensures All() && !eventBreak
    {
      eventBreak := false;
    }

    /** The checks at the head of a turn: has time gone back, and is there anything to wait for? */
    method AtHead(monotonic: bool, now: int) returns (nothing: bool)
      requires All()
      modifies this`q, this`eventTv
      ensures All() && nothing == (old(q.count) <= 0 && old(q.countActive) == 0)
      ensures nothing ==> forall e :: e in q.evs && !q.evs[e].internal ==> !OnSomeQueue(q, e)
      ensures Lead(old(q.active)) < |old(q.active)| ==> !nothing
      ensures monotonic ==> q == old(q)
    {
      hide QOk, TimersExcept, PrioOk, PersistOk, LogOk, ShiftSome, OnSomeQueue, Lead;
      SomeActive(q);
      if !monotonic {
        TimeoutCorrect(now);
      }
      HaveEventsExact(q);
      nothing := q.count <= 0 && q.countActive == 0;
    }

    method StartOver()
      requires All() && runningPriority == -1
      modifies this`eventContinue
      ensures All() && !eventContinue
    {
      hide QOk, TimersExcept, PersistOk, LogOk;
      eventContinue := false;
    }

    constructor (npriorities: nat)
      requires npriorities > 0
      ensures All() && runningPriority == -1 && q.evs == map[] && q.active == seq(npriorities, _ => []) && log == []
      ensures !eventContinue && !eventBreak && ncalls == map[]
    {
      q := Queues(map[], {}, seq(npriorities, _ => []), {}, [], 0, 0);
      timers, kinds, resTimeout, ioTimeout, durations := [], map[], {}, map[], [];
      runningPriority, eventContinue, eventBreak, eventTv := -1, false, false, 0;
      ncalls, pncalls, sigCalls, log := map[], None, 0, [];
      EmptyOk(npriorities);
    }
  }

  /** event_signal_closure does not look at event_continue between its calls. So single calls are needed for the loop to
      keep priorities: any signal event that does not have the first priority, activated for two calls or more, can be
      made to overtake any event of an earlier priority, by a first call that activates the latter. */
  method Overtakes(base: EventBase, s: EvId, a: EvId, calls: nat)
    requires base.All() && base.runningPriority == -1 && calls >= 2
    requires s in base.q.evs && !base.q.evs[s].internal && !base.q.evs[s].active && base.kinds[s].signal
    requires a in base.q.evs && !base.q.evs[a].internal && !base.q.evs[a].active
    requires base.q.evs[a].pri < base.q.evs[s].pri < |base.q.active|
    requires forall i :: 0 <= i <= base.q.evs[s].pri ==> base.q.active[i] == []
    modifies base
    ensures old(base.log) <= base.log && Overtook(old(base.log), base.log, s)
  {
    hide QOk, TimersExcept, PrioOk, PersistOk, LogOk, Lead, Overtook;
    Arrange(base, s, calls);
    var now := Earlier(base.q.evs, base.q.heap);
    var inputs := [Input(now, true, [Command.Active(a, false, 1)]), Input(now, true, [])];
    var turn := Turned(now, now, [], now, inputs);
    CanOvertake(base.q, base.kinds, base.ncalls, s, a, now);
    hide EventBase.All, Overtakable, Direct;
    var _ := base.Loop(true, false, false, [turn]);
  }

  /** The signal event is active, for that many calls, and leads. */
  method Arrange(base: EventBase, s: EvId, calls: nat)
    requires base.All() && s in base.q.evs && !base.q.evs[s].internal && !base.q.evs[s].active && base.kinds[s].signal
    requires base.q.evs[s].pri < |base.q.active| && forall i :: 0 <= i <= base.q.evs[s].pri ==> base.q.active[i] == []
    modifies base`q, base`resTimeout, base`eventContinue, base`ncalls, base`pncalls
    ensures base.All() && base.q.evs == old(base.q.evs)[s := old(base.q.evs)[s].(active := true)]
    ensures base.ncalls == old(base.ncalls)[s := calls] && |base.q.active| == old(|base.q.active|)
    ensures Lead(base.q.active) == base.q.evs[s].pri && base.q.active[base.q.evs[s].pri][0] == s
    ensures base.q.heap <= base.q.evs.Keys
  {
    hide QOk, TimersExcept, PrioOk, PersistOk, LogOk;
    base.Active(s, false, calls);
    MembersKnown(base.q);
    LeadIs(base.q.active, base.q.evs[s].pri);
  }

  /** A time before all deadlines of the heap. */
  method Earlier(evs: map<EvId, Ev>, heap: set<EvId>) returns (now: int)
    requires heap <= evs.Keys
    ensures forall x :: x in heap ==> now < evs[x].deadline
  {
    now := 0;
    var rest := heap;
    while rest != {}
      invariant rest <= heap && forall x :: x in heap - rest ==> now < evs[x].deadline
    {
      var e :| e in rest;
      if evs[e].deadline <= now { now := evs[e].deadline - 1; }
      rest := rest - {e};
    }
  }

  /** A base with a signal event at priority 1 and an event at priority 0, on which that happens. */
  method SecondCallOvertakes() returns (base: EventBase)
    ensures fresh(base) && Overtook([], base.log, 1)
  {
    base := TwoPriorities();
    hide EventBase.All, Overtook;
    Overtakes(base, 1, 0, 2);
  }

  method TwoPriorities() returns (base: EventBase)
    ensures fresh(base) && base.All() && base.log == [] && base.runningPriority == -1 && !base.eventContinue
    ensures base.q.evs
         == map[0 := Ev(false, false, false, false, 0, 0, -1), 1 := Ev(false, false, false, false, 1, 0, -1)]
    ensures base.kinds.Keys == {0, 1} && base.kinds[1] == Kind(false, true, true) && base.q.active == [[], []]
  {
    hide QOk, TimersExcept, PrioOk, PersistOk, LogOk;
    base := new EventBase(2);
    base.Assign(0, Kind(false, false, false));
    var _ := base.PrioritySet(0, 0);
    base.Assign(1, Kind(false, true, true));
  }
}
