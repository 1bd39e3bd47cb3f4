/** Common-timeout lists and the internal timers that stand in the heap for them. */
module EventTimers {
  import opened Wrappers
  import opened EventQueues

  /** Events on list i are the user's and in order of their deadlines. */
  ghost predicate ListOk(q: Queues, i: nat)
    requires i < |q.lists|
  {
    && (forall x :: x in q.lists[i] ==> x in q.evs && !q.evs[x].internal)
    && Sorted(q.evs, q.lists[i])
  }

  /** A list with events has its timer active, or in the heap no later than its first event. */
  ghost predicate Covered(q: Queues, t: EvId, i: nat)
    requires i < |q.lists|
  {
    q.lists[i] != [] ==>
    && t in q.evs && q.lists[i][0] in q.evs
    && (q.evs[t].active || (t in q.heap && q.evs[t].deadline <= q.evs[q.lists[i][0]].deadline))
  }

  /** One internal timer per list, at priority 0, that never waits on a list itself. */
  ghost predicate TimerShape(q: Queues, timers: seq<EvId>) {
    && |timers| == |q.lists| && NoDup(timers)
    && (forall i :: 0 <= i < |timers| ==>
          timers[i] in q.evs && q.evs[timers[i]].internal && q.evs[timers[i]].pri == 0 && q.evs[timers[i]].ctl == -1)
    && (forall e :: e in q.evs && q.evs[e].internal ==> e in timers)
  }

  /** The invariant, with list `but` possibly not covered (-1: every list is). */
  ghost predicate TimersExcept(q: Queues, timers: seq<EvId>, but: int) {
    && TimerShape(q, timers)
    && (forall i :: 0 <= i < |q.lists| ==> ListOk(q, i))
    && (forall i :: 0 <= i < |q.lists| && i != but ==> Covered(q, timers[i], i))
  }

  ghost predicate TimersOk(q: Queues, timers: seq<EvId>) {
    TimersExcept(q, timers, -1)
  }

  /** May event e change while list `but` is not covered? A timer may only if its own list is the one. */
  ghost predicate MayChange(q: Queues, timers: seq<EvId>, e: EvId, but: int) {
    e in q.evs && (q.evs[e].internal ==> 0 <= but < |timers| && timers[but] == e)
  }

  /** An event changed, but not its place on a list nor, if it is on one, its deadline. */
  lemma {:induction false} ChangeKeepsTimers(q: Queues, r: Queues, timers: seq<EvId>, e: EvId, but: int)
    requires TimersExcept(q, timers, but) && MayChange(q, timers, e, but) && e in r.evs
    requires r.evs == q.evs[e := r.evs[e]] && r.evs[e].internal == q.evs[e].internal && r.lists == q.lists
    requires r.evs[e].internal ==> r.evs[e].pri == 0 && r.evs[e].ctl == -1
    requires forall x :: x != e ==> (x in r.heap <==> x in q.heap)
    requires r.evs[e].deadline == q.evs[e].deadline || forall i :: 0 <= i < |q.lists| ==> e !in q.lists[i]
    ensures TimersExcept(r, timers, but)
  {
    forall i | 0 <= i < |r.lists|
      ensures ListOk(r, i)
    {
      assert ListOk(q, i);
    }
    forall i | 0 <= i < |r.lists| && i != but
      ensures Covered(r, timers[i], i)
    {
      assert Covered(q, timers[i], i) && ListOk(q, i);
      assert timers[i] != e;
    }
  }

  lemma {:induction false} SortedCons(evs: map<EvId, Ev>, a: EvId, r: seq<EvId>)
    requires a in evs && (forall x :: x in r ==> x in evs) && Sorted(evs, r)
    requires forall k :: 0 <= k < |r| ==> evs[a].deadline <= evs[r[k]].deadline
    ensures Sorted(evs, [a] + r)
  {
  }

  lemma {:induction false} WithoutSorted(evs: map<EvId, Ev>, s: seq<EvId>, e: EvId)
    requires (forall x :: x in s ==> x in evs) && Sorted(evs, s)
    ensures Sorted(evs, Without(s, e))
    ensures Without(s, e) != [] ==> evs[s[0]].deadline <= evs[Without(s, e)[0]].deadline
    decreases |s|
  {
    if s != [] && s[0] != e {
      var t := s[1..];
      assert forall i :: 0 <= i < |t| ==> t[i] == s[i + 1];
      WithoutSorted(evs, t, e);
      var r := Without(t, e);
      assert Without(s, e) == [s[0]] + r;
      hide Without;
      forall k | 0 <= k < |r|
        ensures evs[s[0]].deadline <= evs[r[k]].deadline
      {
        assert r[k] in t;
      }
      SortedCons(evs, s[0], r);
    }
  }

  /** Taking an event off its timeout queue leaves the list in order and the timer early enough. */
  lemma {:induction false} RemoveKeepsTimers(q: Queues, timers: seq<EvId>, e: EvId, but: int)
    requires QOk(q) && TimersExcept(q, timers, but) && MayChange(q, timers, e, but) && q.evs[e].timeout
    ensures q.evs[e].ctl < |q.lists| && TimersExcept(RemoveTimeout(q, e), timers, but)
  {
    hide NoDup, CountsOk;
    assert EvOk(q, e);
    var r := RemoveTimeout(q, e);
    var c := q.evs[e].ctl;
    if c < 0 {
      assert forall i :: 0 <= i < |q.lists| ==> e !in q.lists[i];
      ChangeKeepsTimers(q, r, timers, e, but);
    } else {
      assert ListOk(q, c);
      WithoutSorted(q.evs, q.lists[c], e);
      RemoveElsewhere(q, r, timers, e, but);
    }
  }

  lemma {:induction false} RemoveElsewhere(q: Queues, r: Queues, timers: seq<EvId>, e: EvId, but: int)
    requires TimersExcept(q, timers, but) && e in q.evs && !q.evs[e].internal && 0 <= q.evs[e].ctl < |q.lists|
    requires r == RemoveTimeout(q, e)
    requires forall x :: x in q.lists[q.evs[e].ctl] ==> x in q.evs
    requires var s := q.lists[q.evs[e].ctl];
             var n := Without(s, e);
             Sorted(q.evs, n) && (n != [] ==> q.evs[s[0]].deadline <= q.evs[n[0]].deadline)
    ensures TimersExcept(r, timers, but)
  {
    hide NoDup, Without;
    forall i | 0 <= i < |r.lists|
      ensures ListOk(r, i)
    {
      RemoveOne(q, r, e, i);
    }
    forall i | 0 <= i < |r.lists| && i != but
      ensures Covered(r, timers[i], i)
    {
      assert Covered(q, timers[i], i) && ListOk(q, i);
      hide ListOk, Covered;
      CoverOne(q, r, timers[i], e, i);
    }
  }

  lemma {:induction false} RemoveOne(q: Queues, r: Queues, e: EvId, i: nat)
    requires e in q.evs && 0 <= q.evs[e].ctl < |q.lists| && r == RemoveTimeout(q, e) && i < |q.lists| && ListOk(q, i)
    requires i == q.evs[e].ctl ==> Sorted(q.evs, Without(q.lists[i], e))
    ensures ListOk(r, i)
  {
    hide Without;
  }

  lemma {:induction false} CoverOne(q: Queues, r: Queues, t: EvId, e: EvId, i: nat)
    requires e in q.evs && 0 <= q.evs[e].ctl < |q.lists| && r == RemoveTimeout(q, e) && i < |q.lists|
    requires Covered(q, t, i)
    requires forall x :: x in q.lists[i] ==> x in q.evs
    requires var s := q.lists[i];
             var n := Without(s, e);
             i == q.evs[e].ctl && n != [] ==> q.evs[s[0]].deadline <= q.evs[n[0]].deadline
    ensures Covered(r, t, i)
  {
    hide Without;
    assert r.lists[i] != [] ==> r.lists[i][0] in r.lists[i];
  }

  /** Putting a user event on a queue for its timeout may leave its list's timer too late, if it came first. */
  lemma {:induction false} InsertKeepsTimers(q: Queues, timers: seq<EvId>, e: EvId)
    requires QOk(q) && TimersOk(q, timers)
    requires e in q.evs && !q.evs[e].internal && !q.evs[e].timeout
    ensures InsertTimeout.requires(q, e)
    ensures var r := InsertTimeout(q, e);
            var c := q.evs[e].ctl;
            TimersExcept(r, timers, if c >= 0 && r.lists[c][0] == e then c else -1)
  {
    hide NoDup, CountsOk;
    assert EvOk(q, e);
    InsertTimeoutReady(q, e);
    var r := InsertTimeout(q, e);
    var c := q.evs[e].ctl;
    assert forall i :: 0 <= i < |q.lists| ==> e !in q.lists[i];
    if c < 0 {
      ChangeKeepsTimers(q, r, timers, e, -1);
    } else {
      assert ListOk(q, c);
      InOrderSorted(q.evs, q.lists[c], e);
      InOrderHead(q.evs, q.lists[c], e);
      InsertElsewhere(q, r, timers, e);
    }
  }

  lemma {:induction false} InsertTimeoutReady(q: Queues, e: EvId)
    requires MembersOk(q) && e in q.evs
    ensures InsertTimeout.requires(q, e)
  {
    assert EvOk(q, e);
  }

  lemma {:induction false} InsertElsewhere(q: Queues, r: Queues, timers: seq<EvId>, e: EvId)
    requires TimersOk(q, timers) && e in q.evs && !q.evs[e].internal && 0 <= q.evs[e].ctl < |q.lists|
    requires InsertTimeout.requires(q, e) && r == InsertTimeout(q, e)
    requires var s := q.lists[q.evs[e].ctl];
             var n := InOrder(q.evs, s, e);
             Sorted(q.evs, n) && (n[0] == e || (s != [] && n[0] == s[0]))
    ensures TimersExcept(r, timers, if r.lists[q.evs[e].ctl][0] == e then q.evs[e].ctl else -1)
  {
    hide NoDup, InOrder;
    forall i | 0 <= i < |r.lists|
      ensures ListOk(r, i)
    {
      assert ListOk(q, i);
    }
    forall i | 0 <= i < |r.lists| && (i != q.evs[e].ctl || r.lists[i][0] != e)
      ensures Covered(r, timers[i], i)
    {
      assert Covered(q, timers[i], i) && ListOk(q, i);
    }
  }

  /** The timer's own list is covered again: everything is. */
  lemma {:induction false} CoveredAgain(q: Queues, timers: seq<EvId>, i: int)
    requires TimersExcept(q, timers, i) && (0 <= i < |q.lists| ==> Covered(q, timers[i], i))
    ensures TimersOk(q, timers)
  {
  }

  lemma {:induction false} OneMoreException(q: Queues, timers: seq<EvId>, i: int)
    requires TimersOk(q, timers)
    ensures TimersExcept(q, timers, i)
  {
  }
}
