/**
 * The event base (event.c): adding, deleting, activating and finalizing callbacks,
 * common timeouts, and the choice of how long the loop may wait.
 */
module EventBases {
  import opened Flat
  import opened Wrappers
  import opened Lists
  import opened EventQueues

  /** A timeout given to event_add: a time or a delay, and the common-timeout queue it names, or -1. */
  datatype Timeval = NoTimeout | Timeval(usec: int, common: int)

  datatype Wait = Forever | For(usec: nat)

  class EventBase {
    var cbs: seq<Cb>
    var activeq: seq<seq<nat>>
    var later: seq<nat>
    var heap: set<nat>
    var queues: seq<Queue>
    var eventCount: int
    var countActive: int
    var current: int  // the callback being run, or -1

    constructor (priorities: nat)
      requires priorities > 0
      ensures Valid() && cbs == [] && |activeq| == priorities && queues == [] && current == -1
    {
      cbs, later, heap, queues, eventCount, countActive, current := [], [], {}, [], 0, 0, -1;
      activeq := seq(priorities, p => []);
      new;
      AllEmpty(activeq);
    }

    /** Flags, queues and counters agree. */
    ghost predicate Core()
      reads this
    {
      && Agree(cbs, activeq, later, heap, queues)
      && countActive == Total(activeq) + |later|
      && eventCount == Memberships(cbs)
    }

    ghost predicate Valid()
      reads this
    {
      Core() && Scheduled(cbs, queues, current)
    }

    // ---- queue primitives ----

    method InsertInserted(id: nat)
      requires Core() && id < |cbs| && !cbs[id].inserted && cbs[id].init && !cbs[id].finalizing && !IsTimer(queues, id)
      modifies this`cbs, this`eventCount
      ensures Core() && cbs == old(cbs)[id := old(cbs)[id].(inserted := true)]
    {
      hide ActiveOk, LaterOk, HeapOk, QueuesOk, FlagsOk, TimersOk, Total, Memberships, IsTimer;
      var c := cbs[id];
      var d := c.(inserted := true);
      Frames(cbs, id, d, activeq, later, heap, queues);
      eventCount := eventCount + One(!c.internal);
      cbs := cbs[id := d];
    }

    method RemoveInserted(id: nat)
      requires Core() && id < |cbs| && cbs[id].inserted
      modifies this`cbs, this`eventCount
      ensures Core() && cbs == old(cbs)[id := old(cbs)[id].(inserted := false)]
    {
      hide ActiveOk, LaterOk, HeapOk, QueuesOk, FlagsOk, TimersOk, Total, Memberships, IsTimer;
      var c := cbs[id];
      var d := c.(inserted := false);
      Frames(cbs, id, d, activeq, later, heap, queues);
      eventCount := eventCount - One(!c.internal);
      cbs := cbs[id := d];
    }

    method InsertActive(id: nat)
      requires Core() && id < |cbs| && !cbs[id].later && (IsTimer(queues, id) ==> cbs[id].byTimeout)
      modifies this`cbs, this`eventCount, this`countActive, this`activeq
      ensures Core() && cbs == old(cbs)[id := old(cbs)[id].(active := true)]
      ensures activeq == if old(cbs)[id].active then old(activeq)
                         else old(activeq)[cbs[id].pri := old(activeq)[cbs[id].pri] + [id]]
    {
      hide ActiveOk, LaterOk, HeapOk, QueuesOk, FlagsOk, TimersOk, Total, Memberships, IsTimer;
      var c := cbs[id];
      if c.active { return; }
      var d := c.(active := true);
      PriInRange(cbs, id, |activeq|, |queues|);
      Frames(cbs, id, d, activeq, later, heap, queues);
      ActiveEnter(cbs, id, d, activeq);
      TotalUpdate(activeq, c.pri, activeq[c.pri] + [id]);
      eventCount := eventCount + One(!c.internal);
      cbs := cbs[id := d];
      countActive := countActive + 1;
      activeq := activeq[c.pri := activeq[c.pri] + [id]];
    }

    method RemoveActive(id: nat)
      requires Core() && id < |cbs| && cbs[id].active
      modifies this`cbs, this`eventCount, this`countActive, this`activeq
      ensures Core() && cbs == old(cbs)[id := old(cbs)[id].(active := false)] && |activeq| == |old(activeq)|
      ensures cbs[id].pri < |activeq|
        && activeq == old(activeq)[cbs[id].pri := Without(old(activeq)[cbs[id].pri], id)]
    {
      hide ActiveOk, LaterOk, HeapOk, QueuesOk, FlagsOk, TimersOk, Total, Memberships, IsTimer;
      var c := cbs[id];
      var d := c.(active := false);
      PriInRange(cbs, id, |activeq|, |queues|);
      Frames(cbs, id, d, activeq, later, heap, queues);
      ActiveLeave(cbs, id, d, activeq);
      TotalUpdate(activeq, c.pri, Without(activeq[c.pri], id));
      eventCount := eventCount - One(!c.internal);
      cbs := cbs[id := d];
      countActive := countActive - 1;
      activeq := activeq[c.pri := Without(activeq[c.pri], id)];
    }
  
    method InsertLater(id: nat)
      requires Core() && id < |cbs| && !IsTimer(queues, id)
      modifies this`cbs, this`eventCount, this`countActive, this`later
      ensures Core()
      ensures old(cbs)[id].active || old(cbs)[id].later ==> cbs == old(cbs) && later == old(later)
      ensures !old(cbs)[id].active && !old(cbs)[id].later
        ==> cbs == old(cbs)[id := old(cbs)[id].(later := true)] && later == old(later) + [id]
    {
      hide ActiveOk, LaterOk, HeapOk, QueuesOk, FlagsOk, TimersOk, Total, Memberships, IsTimer;
      var c := cbs[id];
      if c.active || c.later { return; }
      var d := c.(later := true);
      Frames(cbs, id, d, activeq, later, heap, queues);
      LaterEnter(cbs, id, d, later);
      eventCount := eventCount + One(!c.internal);
      cbs := cbs[id := d];
      countActive := countActive + 1;
      later := later + [id];
    }

    method RemoveLater(id: nat)
      requires Core() && id < |cbs| && cbs[id].later
      modifies this`cbs, this`eventCount, this`countActive, this`later
      ensures Core() && cbs == old(cbs)[id := old(cbs)[id].(later := false)] && later == Without(old(later), id)
    {
      hide ActiveOk, LaterOk, HeapOk, QueuesOk, FlagsOk, TimersOk, Total, Memberships, IsTimer;
      var c := cbs[id];
      var d := c.(later := false);
      Frames(cbs, id, d, activeq, later, heap, queues);
      LaterLeave(cbs, id, d, later);
      eventCount := eventCount - One(!c.internal);
      cbs := cbs[id := d];
      countActive := countActive - 1;
      later := Without(later, id);
    }

    method RemoveTimeout(id: nat)
      requires Core() && id < |cbs| && cbs[id].timeout
      modifies this`cbs, this`eventCount, this`heap, this`queues
      ensures Core() && cbs == old(cbs)[id := old(cbs)[id].(timeout := false)]
      ensures cbs[id].common < |old(queues)| && queues == QueuesLeft(old(queues), id, cbs[id].common)
      ensures SameTimers(old(queues), queues)
    {
      hide ActiveOk, LaterOk, HeapOk, QueuesOk, FlagsOk, TimersOk, Total, Memberships, IsTimer;
      var c := cbs[id];
      var d := c.(timeout := false);
      PriInRange(cbs, id, |activeq|, |queues|);
      Frames(cbs, id, d, activeq, later, heap, queues);
      TimeoutLeave(cbs, id, d, heap, queues);
      TimersSame(cbs[id := d], queues, QueuesLeft(queues, id, c.common));
      eventCount := eventCount - One(!c.internal);
      cbs := cbs[id := d];
      if c.common < 0 { heap := heap - {id}; } else { queues := QueuesLeft(queues, id, c.common); }
    }

    /** event_queue_insert_timeout, with the deadline it is given; a common timeout goes before all later ones. */
    method InsertTimeout(id: nat, at: int, common: int)
      requires Core() && id < |cbs| && !cbs[id].timeout && cbs[id].init && !cbs[id].finalizing
      requires common < |queues| && (IsTimer(queues, id) ==> common < 0)
      modifies this`cbs, this`eventCount, this`heap, this`queues
      ensures Core() && cbs == old(cbs)[id := old(cbs)[id].(timeout := true, at := at, common := common)]
      ensures SameTimers(old(queues), queues)
      ensures forall i :: 0 <= i < |queues| && i != common ==> queues[i] == old(queues)[i]
      ensures common >= 0 ==> PutInOrder(old(cbs), old(queues)[common].events, id, at, queues[common].events)
    {
      hide ActiveOk, LaterOk, HeapOk, QueuesOk, FlagsOk, TimersOk, Total, Memberships, IsTimer, PutInOrder;
      var c := cbs[id];
      var d := c.(timeout := true, at := at, common := common);
      Frames(cbs, id, d, activeq, later, heap, queues);
      eventCount := eventCount + One(!c.internal);
      if common < 0 {
        TimeoutEnter(cbs, id, d, heap, queues, []);
        heap := heap + {id};
      } else {
        QueueIds(cbs, queues, common);
        var r := InsertInOrder(cbs, queues[common].events, id, at);
        TimeoutEnter(cbs, id, d, heap, queues, r);
        TimersSame(cbs[id := d], queues, queues[common := queues[common].(events := r)]);
        queues := queues[common := queues[common].(events := r)];
      }
      cbs := cbs[id := d];
    }
  
    // ---- deleting ----

    /** The callback leaves every queue it is in. */
    twostate predicate LeftAll(id: nat)
      reads this
    {
      && id < |old(cbs)| && cbs == old(cbs)[id := Cleared(old(cbs)[id])] && |activeq| == |old(activeq)|
      && old(cbs)[id].common < |old(queues)| && queues == Dequeued(old(queues), id, old(cbs)[id])
      && old(cbs)[id].pri < |activeq|
      && activeq == (if old(cbs)[id].active then old(activeq)[cbs[id].pri := Without(old(activeq)[cbs[id].pri], id)] else old(activeq))
      && later == (if old(cbs)[id].later then Without(old(later), id) else old(later))
    }

    twostate predicate Unchanged()
      reads this
    {
      && cbs == old(cbs) && queues == old(queues) && activeq == old(activeq) && later == old(later) && heap == old(heap)
      && eventCount == old(eventCount) && countActive == old(countActive)
    }

    /** Out of the active or the later queue, if in one. */
    method LeaveActive(id: nat)
      requires Core() && id < |cbs|
      modifies this`cbs, this`eventCount, this`countActive, this`activeq, this`later
      ensures Core() && |activeq| == |old(activeq)| && old(cbs)[id].pri < |activeq|
      ensures cbs == old(cbs)[id := old(cbs)[id].(active := false, later := false)]
      ensures activeq == (if old(cbs)[id].active then old(activeq)[cbs[id].pri := Without(old(activeq)[cbs[id].pri], id)] else old(activeq))
      ensures later == (if old(cbs)[id].later then Without(old(later), id) else old(later))
    {
      CoreAt(cbs, activeq, later, heap, queues, id);
      hide Core, Without;
      UpdateTwice(cbs, id, cbs[id], cbs[id]);
      if cbs[id].active { RemoveActive(id); } else if cbs[id].later { RemoveLater(id); }
    }

    method LeaveTimeout(id: nat)
      requires Core() && id < |cbs|
      modifies this`cbs, this`eventCount, this`heap, this`queues
      ensures Core() && cbs == old(cbs)[id := old(cbs)[id].(timeout := false)]
      ensures cbs[id].common < |old(queues)| && queues == Dequeued(old(queues), id, old(cbs)[id])
      ensures SameTimers(old(queues), queues)
    {
      CoreAt(cbs, activeq, later, heap, queues, id);
      hide Core, QueuesLeft;
      UpdateTwice(cbs, id, cbs[id], cbs[id]);
      if cbs[id].timeout { RemoveTimeout(id); }
    }

    /** event_del_nolock_. */
    method DelNolock(id: nat, evenIfFinalizing: bool)
      requires Core() && id < |cbs|
      modifies this`cbs, this`eventCount, this`countActive, this`activeq, this`later, this`heap, this`queues
      ensures Core() && SameTimers(old(queues), queues)
      ensures old(cbs)[id].finalizing && !evenIfFinalizing ==> Unchanged()
      ensures !old(cbs)[id].finalizing || evenIfFinalizing ==> LeftAll(id)
    {
      hide Core, Without, Dequeued, SameTimers;
      FlagsFor(id);
      ghost var before := cbs;
      ghost var c := cbs[id];
      SameTimersSelf(queues);
      if !evenIfFinalizing && cbs[id].finalizing { return; }
      LeaveTimeout(id);
      LeaveActive(id);
      UpdateTwice(before, id, c.(timeout := false), c.(timeout := false, active := false, later := false));
      if cbs[id].inserted { RemoveInserted(id); }
      UpdateTwice(before, id, c.(timeout := false, active := false, later := false), Cleared(c));
    }

    /** event_callback_cancel_nolock_. */
    method CancelNolock(id: nat, evenIfFinalizing: bool)
      requires Core() && id < |cbs|
      modifies this`cbs, this`eventCount, this`countActive, this`activeq, this`later, this`heap, this`queues
      ensures Core() && SameTimers(old(queues), queues)
      ensures old(cbs)[id].finalizing && !evenIfFinalizing ==> Unchanged()
      ensures !old(cbs)[id].finalizing || evenIfFinalizing ==> LeftAll(id)
    {
      CoreAt(cbs, activeq, later, heap, queues, id);
      hide Agree, Total, Memberships, IsTimer, Without, QueuesLeft;
      if cbs[id].finalizing && !evenIfFinalizing { return; }
      if cbs[id].init {
        DelNolock(id, evenIfFinalizing);
        return;
      }
      LeaveActive(id);
    }

    /** event_del. */
    method Del(id: nat)
      requires Valid() && id < |cbs| && !IsTimer(queues, id)
      modifies this`cbs, this`eventCount, this`countActive, this`activeq, this`later, this`heap, this`queues
      ensures Valid() && SameTimers(old(queues), queues)
      ensures if old(cbs)[id].finalizing then Unchanged() else LeftAll(id)
      ensures !old(cbs)[id].finalizing ==>
        cbs == old(cbs)[id := old(cbs)[id].(inserted := false, active := false, later := false, timeout := false)]
    {
      AgreeParts(cbs, activeq, later, heap, queues);
      hide Agree, Total, Memberships, Without, QueuesLeft;
      ghost var c := cbs[id];
      if c.timeout && !c.finalizing {
        CoreAt(cbs, activeq, later, heap, queues, id);
        SchedLeave(cbs, queues, id, Cleared(c), current);
      } else {
        SchedFrame(cbs, queues, id, Cleared(c), current);
      }
      DelNolock(id, false);
    }

    // ---- activating ----

    /** event_callback_activate_nolock_: 1 if the callback was in no active queue. */
    method ActivateNolock(id: nat) returns (r: int)
      requires Core() && id < |cbs| && (IsTimer(queues, id) ==> cbs[id].byTimeout)
      modifies this`cbs, this`eventCount, this`countActive, this`activeq, this`later
      ensures Core() && |activeq| == |old(activeq)|
      ensures old(cbs)[id].finalizing || old(cbs)[id].active ==> r == 0 && Unchanged()
      ensures !old(cbs)[id].finalizing && !old(cbs)[id].active
        ==> && r == One(!old(cbs)[id].later)
            && cbs == old(cbs)[id := old(cbs)[id].(active := true, later := false)]
            && old(cbs)[id].pri < |activeq|
            && activeq == old(activeq)[cbs[id].pri := old(activeq)[cbs[id].pri] + [id]]
            && later == (if old(cbs)[id].later then Without(old(later), id) else old(later))
    {
      hide Core, Without, IsTimer;
      FlagsFor(id);
      r := 1;
      if cbs[id].finalizing { return 0; }
      if cbs[id].active { return 0; }
      ghost var before := cbs;
      ghost var c := cbs[id];
      UpdateTwice(before, id, c.(later := false), c.(later := false, active := true));
      if cbs[id].later {
        RemoveLater(id);
        r := 0;
      }
      InsertActive(id);
    }

    /** Sets or adds to ev_res. */
    method SetRes(id: nat, byTimeout: bool)
      requires Core() && id < |cbs| && (IsTimer(queues, id) ==> byTimeout)
      modifies this`cbs
      ensures Core() && cbs == old(cbs)[id := old(cbs)[id].(byTimeout := byTimeout)]
    {
      hide ActiveOk, LaterOk, HeapOk, QueuesOk, FlagsOk, TimersOk, Total, Memberships, IsTimer;
      var d := cbs[id].(byTimeout := byTimeout);
      Frames(cbs, id, d, activeq, later, heap, queues);
      cbs := cbs[id := d];
    }

    /** event_active_nolock_. */
    method ActiveNolock(id: nat, byTimeout: bool)
      requires Core() && id < |cbs| && (IsTimer(queues, id) ==> byTimeout)
      modifies this`cbs, this`eventCount, this`countActive, this`activeq, this`later
      ensures Core() && |activeq| == |old(activeq)|
      ensures cbs == old(cbs)[id := Activated(old(cbs)[id], byTimeout)]
      ensures cbs[id].pri < |activeq|
      ensures activeq == if old(cbs)[id].finalizing || old(cbs)[id].active then old(activeq)
                         else old(activeq)[cbs[id].pri := old(activeq)[cbs[id].pri] + [id]]
    {
      hide Core, Without, IsTimer;
      FlagsFor(id);
      var c := cbs[id];
      ghost var before := cbs;
      if c.finalizing {
        UpdateTwice(before, id, c, c);
        return;
      }
      var res := byTimeout || (c.byTimeout && (c.active || c.later));
      SetRes(id, res);
      UpdateTwice(before, id, c.(byTimeout := res), Activated(c, byTimeout));
      if c.active { return; }
      var _ := ActivateNolock(id);
    }
  
    // ---- timeouts ----

    /** The part of event_add_nolock_ that moves the timeout of `id` to time `at`. */
    method SetTimeout(id: nat, at: int, common: int)
      requires Core() && id < |cbs| && cbs[id].init && !cbs[id].finalizing
      requires common < |queues| && (IsTimer(queues, id) ==> common < 0)
      modifies this`cbs, this`eventCount, this`countActive, this`activeq, this`heap, this`queues
      ensures Core() && cbs == old(cbs)[id := Timed(old(cbs)[id], at, common)] && SameTimers(old(queues), queues)
      ensures old(cbs)[id].common < |queues|
      ensures var queues1 := Dequeued(old(queues), id, old(cbs)[id]);
        && |queues1| == |queues|
        && (forall i :: 0 <= i < |queues| && i != common ==> queues[i] == queues1[i])
        && (common >= 0 ==> queues[common].events != [])
        && (common >= 0 && queues[common].events[0] != id
            ==> queues1[common].events != [] && queues[common].events[0] == queues1[common].events[0])
    {
      CoreAt(cbs, activeq, later, heap, queues, id);
      IsTimerSame(queues, id);
      hide Core, Without, Dequeued, IsTimer, PutInOrder;
      ghost var before, queues0 := cbs, queues;
      ghost var c := cbs[id];
      LeaveTimeout(id);
      ghost var queues1 := queues;
      assert IsTimer(queues1, id) <==> IsTimer(queues0, id);
      UpdateTwice(before, id, c.(timeout := false), c.(timeout := false, active := c.active && !c.byTimeout));
      if cbs[id].active && cbs[id].byTimeout { RemoveActive(id); }
      UpdateTwice(before, id, c.(timeout := false, active := c.active && !c.byTimeout), Timed(c, at, common));
      ghost var cbs1 := cbs;
      InsertTimeout(id, at, common);
      if common >= 0 { PutHead(cbs1, queues1[common].events, id, at, queues[common].events); }
    }
  
    /** common_timeout_schedule: event_add_nolock_ of the queue's timer, at the deadline of its first event. */
    method Schedule(i: nat)
      requires Core() && i < |queues| && queues[i].events != []
      modifies this`cbs, this`eventCount, this`countActive, this`activeq, this`heap, this`queues
      ensures Core() && queues == old(queues) && SchedAt(cbs, queues[i], -1) && SchedAt(cbs, queues[i], current)
      ensures forall j :: 0 <= j < |queues| && j != i && old(SchedAt(cbs, queues[j], current)) ==> SchedAt(cbs, queues[j], current)
      ensures var t, first := queues[i].timer, queues[i].events[0];
        t < |old(cbs)| && first < |old(cbs)| && cbs == old(cbs)[t := Timed(old(cbs)[t], old(cbs)[first].at, -1)]
    {
      AgreeParts(cbs, activeq, later, heap, queues);
      assert IsTimer(queues, queues[i].timer);
      QueueIds(cbs, queues, i);
      hide Core, Agree, QueuesOk, IsTimer;
      ghost var before, queues0 := cbs, queues;
      var at := cbs[queues[i].events[0]].at;
      SchedTimer(cbs, queues, i, Timed(cbs[queues[i].timer], at, -1), current);
      SchedTimer(cbs, queues, i, Timed(cbs[queues[i].timer], at, -1), -1);
      SetTimeout(queues[i].timer, at, -1);
      assert queues == queues0;
    }

    /**
     * event_add_nolock_, where evmap_io_add_ or evmap_signal_add_ answered `ioRes` if it was
     * asked. The time now is `now`.
     */
    method Add(id: nat, tv: Timeval, absolute: bool, now: int, ioRes: int) returns (r: int)
      requires Valid() && id < |cbs| && cbs[id].init && !IsTimer(queues, id)
      requires tv.Timeval? ==> tv.common < |queues|
      requires -1 <= ioRes <= 1
      modifies this`cbs, this`eventCount, this`countActive, this`activeq, this`heap, this`queues
      ensures Valid() && SameTimers(old(queues), queues) && |cbs| == |old(cbs)|
      ensures var c := old(cbs)[id]; var asks := c.io && !c.inserted && !c.active && !c.later;
        r == if c.finalizing || (asks && ioRes == -1) then -1 else 0
      ensures r == -1 ==> cbs == old(cbs)
      ensures r == 0 ==> var c := old(cbs)[id]; var asks := c.io && !c.inserted && !c.active && !c.later;
        if tv.NoTimeout? then cbs[id] == c.(inserted := c.inserted || asks)
        else
          && cbs[id] == c.(inserted := c.inserted || asks, timeout := true, at := cbs[id].at, common := tv.common, active := c.active && !c.byTimeout)
          && (if absolute then cbs[id].at == tv.usec else cbs[id].at - now == tv.usec)
      ensures forall x :: 0 <= x < |cbs| && x != id && !IsTimer(queues, x) ==> cbs[x] == old(cbs)[x]
    {
      hide Valid, IsTimer, SameTimers;
      r := 0;
      SameTimersSelf(queues);
      if cbs[id].finalizing { return -1; }
      var ok := AddIo(id, ioRes);
      if !ok { return -1; }
      if tv.Timeval? {
        SetDeadline(id, if absolute then tv.usec else now + tv.usec, tv.common);
      }
    }

    /** The part of event_add_nolock_ that asks the backend. */
    method AddIo(id: nat, ioRes: int) returns (ok: bool)
      requires Valid() && id < |cbs| && cbs[id].init && !cbs[id].finalizing && !IsTimer(queues, id)
      modifies this`cbs, this`eventCount
      ensures Valid() && ok == !(AsksBackend(old(cbs)[id]) && ioRes == -1)
      ensures cbs == if ok then old(cbs)[id := old(cbs)[id].(inserted := old(cbs)[id].inserted || AsksBackend(old(cbs)[id]))]
                     else old(cbs)
    {
      AgreeParts(cbs, activeq, later, heap, queues);
      SchedFrame(cbs, queues, id, cbs[id].(inserted := true), current);
      hide Core, IsTimer, Scheduled;
      if cbs[id].io && !cbs[id].inserted && !cbs[id].active && !cbs[id].later {
        if ioRes == -1 { return false; }
        InsertInserted(id);
      } else {
        UpdateTwice(cbs, id, cbs[id], cbs[id]);
      }
      return true;
    }

    /** SetTimeout for an event that is no timer, and the timer of its queue if it is now the first there. */
    method SetDeadline(id: nat, at: int, common: int)
      requires Valid() && id < |cbs| && cbs[id].init && !cbs[id].finalizing && !IsTimer(queues, id) && common < |queues|
      modifies this`cbs, this`eventCount, this`countActive, this`activeq, this`heap, this`queues
      ensures Valid() && SameTimers(old(queues), queues) && |cbs| == |old(cbs)|
      ensures cbs[id] == Timed(old(cbs)[id], at, common)
      ensures forall x :: 0 <= x < |cbs| && x != id && !IsTimer(queues, x) ==> cbs[x] == old(cbs)[x]
    {
      CoreAt(cbs, activeq, later, heap, queues, id);
      AgreeParts(cbs, activeq, later, heap, queues);
      IsTimerSame(queues, id);
      hide Core, QueuesOk, HeapOk, TimersOk, Dequeued;
      ghost var before, queues0, c := cbs, queues, cbs[id];
      ghost var queues1 := Dequeued(queues, id, c);
      SchedDequeue(cbs, queues, id, Timed(c, at, common), current);
      SetTimeout(id, at, common);
      SchedTimed(before, queues0, id, Timed(c, at, common), common, queues1, queues, current);
      if common >= 0 && queues[common].events[0] == id {
        Schedule(common);
      }
    }
  
    lemma CoreHeap()
      requires Core()
      ensures HeapOk(cbs, heap) && forall id :: 0 <= id < |cbs| && cbs[id].finalizing ==> !cbs[id].timeout
    {
      forall id | 0 <= id < |cbs| && cbs[id].finalizing ensures !cbs[id].timeout { assert FlagsAt(cbs[id], |activeq|, |queues|); }
    }

    lemma CoreQueue(i: nat)
      requires Core() && i < |queues|
      ensures NoDup(queues[i].events) && Sorted(cbs, queues[i].events) && TimersOk(cbs, queues)
      ensures queues[i].timer !in queues[i].events
      ensures forall m :: 0 <= m < |queues[i].events| ==> queues[i].events[m] < |cbs| && cbs[queues[i].events[m]].timeout
    {
      QueueDistinct(cbs, queues, i);
      forall m | 0 <= m < |queues[i].events| ensures queues[i].events[m] < |cbs| && cbs[queues[i].events[m]].timeout {
        assert queues[i].events[m] in queues[i].events;
      }
      assert QueueAt(cbs, queues[i].events, i) && TimerAt(cbs[queues[i].timer]);
    }

    lemma AllCovered()
      requires Valid() && countActive == 0 && !IsTimer(queues, current)
      ensures forall id :: 0 <= id < |cbs| && cbs[id].timeout ==> Covered(cbs, heap, cbs[id].at)
      ensures forall id :: id in heap ==> id < |cbs| && cbs[id].timeout
      ensures heap == {} ==> forall id :: 0 <= id < |cbs| ==> !cbs[id].timeout
    {
      forall id | 0 <= id < |cbs| && cbs[id].timeout ensures Covered(cbs, heap, cbs[id].at) {
        HeapCovers(cbs, activeq, later, heap, queues, current, id);
      }
    }

    /** The event on top of the heap. */
    method HeapTop() returns (id: nat)
      requires Core() && heap != {}
      ensures id in heap && id < |cbs| && forall x :: x in heap ==> x < |cbs| && cbs[id].at <= cbs[x].at
    {
      AgreeParts(cbs, activeq, later, heap, queues);
      Earliest(cbs, heap);
      id :| id in heap && forall x :: x in heap ==> x < |cbs| && cbs[id].at <= cbs[x].at;
    }

    /** timeout_next: how long the loop may wait. No pending timeout is slept past. */
    method TimeoutNext(now: int) returns (wait: Wait)
      requires Valid() && countActive == 0 && !IsTimer(queues, current)
      ensures wait.Forever? <==> forall id :: 0 <= id < |cbs| ==> !cbs[id].timeout
      ensures wait.For? && wait.usec > 0 ==>
        && (forall id :: 0 <= id < |cbs| && cbs[id].timeout ==> now + wait.usec <= cbs[id].at)
        && exists id :: 0 <= id < |cbs| && cbs[id].timeout && now + wait.usec == cbs[id].at
      ensures wait == For(0) ==> exists id :: 0 <= id < |cbs| && cbs[id].timeout && cbs[id].at <= now
    {
      AllCovered();
      hide Core, Scheduled, Covered;
      if heap == {} { return Forever; }
      var top := HeapTop();
      TopCovers(cbs, heap, top);
      if cbs[top].at <= now { return For(0); }
      return For(cbs[top].at - now);
    }

    /** event_base_loop's choice of a wait, between two callbacks: never past a pending deadline, and none with work to do. */
    method ChooseWait(now: int, nonblock: bool) returns (wait: Wait)
      requires Valid() && current == -1
      ensures nonblock || countActive > 0 ==> wait == For(0)
      ensures forall id :: 0 <= id < |cbs| && cbs[id].timeout ==> wait.For?
      ensures !nonblock && countActive == 0 ==> (wait.Forever? <==> forall id :: 0 <= id < |cbs| ==> !cbs[id].timeout)
      ensures wait.For? && wait.usec > 0 ==>
        && (forall id :: 0 <= id < |cbs| && cbs[id].timeout ==> now + wait.usec <= cbs[id].at)
        && exists id :: 0 <= id < |cbs| && cbs[id].timeout && now + wait.usec == cbs[id].at
      ensures wait == For(0) ==> nonblock || countActive > 0 || exists id :: 0 <= id < |cbs| && cbs[id].timeout && cbs[id].at <= now
    {
      if countActive == 0 && !nonblock {
        wait := TimeoutNext(now);
      } else {
        wait := For(0);
      }
    }

    /** One turn of timeout_process's loop. */
    method Expire(id: nat)
      requires Valid() && id in heap && id < |cbs|
      modifies this`cbs, this`eventCount, this`countActive, this`activeq, this`later, this`heap, this`queues
      ensures Valid() && queues == old(queues) && heap == old(heap) - {id}
      ensures cbs == old(cbs)[id := Expired(old(cbs)[id], true)] && !old(cbs)[id].finalizing
    {
      CoreAt(cbs, activeq, later, heap, queues, id);
      AgreeParts(cbs, activeq, later, heap, queues);
      IsTimerSame(queues, id);
      ghost var before, heap0, queues0 := cbs, heap, queues;
      ghost var c := Expired(cbs[id], true);
      SchedExpire(cbs, activeq, later, heap, queues, id, c, current);
      UpdateTwice(cbs, id, Cleared(cbs[id]), c);
      hide Core, IsTimer, Scheduled, Without;
      DelNolock(id, false);
      ActiveNolock(id, true);
      assert queues == queues0;
      CoreHeap();
      HeapShrinks(before, heap0, id, c, heap);
    }

    /** timeout_process: afterwards no deadline in the heap has passed, and what expired is active. */
    method TimeoutProcess(now: int)
      requires Valid()
      modifies this`cbs, this`eventCount, this`countActive, this`activeq, this`later, this`heap, this`queues
      ensures Valid() && queues == old(queues) && |cbs| == |old(cbs)|
      ensures forall id :: id in heap ==> id < |cbs| && now < cbs[id].at
      ensures forall id :: 0 <= id < |cbs| ==> var c := old(cbs)[id];
        cbs[id] == if c.timeout && c.common < 0 && c.at <= now
                   then c.(active := true, byTimeout := true, timeout := false, inserted := false, later := false) else c
    {
      hide Core, Scheduled, Activated, Cleared, Expired;
      CoreHeap();
      ExpiredAll(cbs, heap);
      ghost var before, heap0 := cbs, heap;
      while heap != {}
        invariant Valid() && queues == old(queues) && |cbs| == |before| && heap <= heap0
        invariant forall id :: 0 <= id < |cbs| ==> cbs[id] == Expired(before[id], id in heap0 && id !in heap)
        invariant forall id :: id in heap0 && id !in heap ==> id < |before| && before[id].at <= now
        decreases |heap|
      {
        var top := HeapTop();
        if cbs[top].at > now { break; }
        ghost var heap1 := heap;
        Expire(top);
        Shrinks(heap1, top);
      }
    }
  
    /** One turn of common_timeout_callback's loop: the first event of the queue expired. */
    method ExpireFirst(i: nat) returns (id: nat)
      requires Valid() && i < |queues| && queues[i].events != []
      modifies this`cbs, this`eventCount, this`countActive, this`activeq, this`later, this`heap, this`queues
      ensures Valid() && |queues| == |old(queues)| && id == old(queues)[i].events[0] && id < |cbs|
      ensures queues == old(queues)[i := old(queues)[i].(events := old(queues)[i].events[1..])]
      ensures cbs == old(cbs)[id := Expired(old(cbs)[id], true)] && cbs[id].active
    {
      hide Agree, IsTimer, Scheduled, Without, SameTimers, Total, Memberships, QueuesOk, TimersOk, HeapOk;
      AgreeParts(cbs, activeq, later, heap, queues);
      QueueHead(cbs, queues, i);
      id := queues[i].events[0];
      CoreAt(cbs, activeq, later, heap, queues, id);
      IsTimerSame(queues, id);
      ghost var c := Expired(cbs[id], true);
      SchedDequeue(cbs, queues, id, c, current);
      UpdateTwice(cbs, id, Cleared(cbs[id]), c);
      ghost var queues0 := queues;
      DelNolock(id, false);
      ActiveNolock(id, true);
      assert queues == QueuesLeft(queues0, id, i);
    }

    /** common_timeout_callback's loop. */
    method ExpireDue(i: nat, now: int) returns (ghost k: nat)
      requires Valid() && i < |queues|
      modifies this`cbs, this`eventCount, this`countActive, this`activeq, this`later, this`heap, this`queues
      ensures Valid() && k <= |old(queues)[i].events| && |queues| == |old(queues)|
      ensures queues == old(queues)[i := old(queues)[i].(events := old(queues)[i].events[k..])]
      ensures Due(old(cbs), old(queues)[i].events, k, now)
      ensures FirstExpired(old(cbs), old(queues)[i].events, k, cbs) && AllActive(cbs, old(queues)[i].events, k)
    {
      hide Core, Scheduled, IsTimer, Due, AllActive, Expired, FirstExpired, DueBefore;
      CoreQueue(i);
      ghost var events, before := queues[i].events, cbs;
      k := 0;
      DueStart(cbs, events, now);
      assert old(queues)[i := old(queues)[i].(events := events)] == old(queues) && events[0..] == events;
      while queues[i].events != [] && cbs[FirstOf(i)].at <= now
        invariant Valid() && |queues| == |old(queues)| && k <= |events|
        invariant queues == old(queues)[i := old(queues)[i].(events := events[k..])]
        invariant AllActive(cbs, events, k) && FirstExpired(before, events, k, cbs) && DueBefore(before, events, k, now)
        decreases |events| - k
      {
        ghost var cbs1, queues1 := cbs, queues;
        var id := ExpireFirst(i);
        DueStep(cbs1, before, events, k, now, id, cbs);
        DropDrop(events, k, 1);
        assert queues[i] == old(queues)[i].(events := events[k + 1..]);
        assert queues == old(queues)[i := old(queues)[i].(events := events[k + 1..])];
        k := k + 1;
      }
      DueEnd(cbs, before, events, k, now);
    }

    function FirstOf(i: nat): (id: nat)
      requires Core() && i < |queues| && queues[i].events != []
      reads this
      ensures id < |cbs|
    {
      CoreQueue(i);
      queues[i].events[0]
    }

    /** common_timeout_callback: every event whose time has come is activated; then the timer is set. */
    method CommonTimeoutCallback(i: nat, now: int) returns (ghost k: nat)
      requires Valid() && i < |queues| && current == queues[i].timer
      modifies this`cbs, this`eventCount, this`countActive, this`activeq, this`later, this`heap, this`queues
      ensures Valid() && Scheduled(cbs, queues, -1) && k <= |old(queues)[i].events| && |queues| == |old(queues)|
      ensures queues == old(queues)[i := old(queues)[i].(events := old(queues)[i].events[k..])]
      ensures Due(old(cbs), old(queues)[i].events, k, now) && AllActive(cbs, old(queues)[i].events, k)
      ensures var q := old(queues)[i]; q.timer < |cbs| == |old(cbs)| && (k == |q.events| ==> cbs[q.timer] == old(cbs)[q.timer])
      ensures var q := old(queues)[i];
        k < |q.events| ==> q.events[k] < |old(cbs)| && cbs[q.timer].timeout && cbs[q.timer].at == old(cbs)[q.events[k]].at
      ensures var q := old(queues)[i];
        forall id :: 0 <= id < |cbs| && id != q.timer ==> var c := old(cbs)[id];
          cbs[id] == if id in q.events[..k] then c.(active := true, byTimeout := true, timeout := false, inserted := false, later := false) else c
    {
      hide Core, SchedAt, Due, AllActive, Expired, FirstExpired, Served, IsTimer;
      CoreQueue(i);
      CoreHeap();
      ghost var q, before := queues[i], cbs;
      k := ExpireDue(i, now);
      ghost var cbs1 := cbs;
      if queues[i].events != [] {
        Schedule(i);
      }
      ServedBy(before, q, k, cbs1, cbs);
      ServedMeans(before, q, k, cbs);
      CoreQueue(i);
      IdleServed(cbs, queues[i], current);
      SchedOthers(cbs, queues, i, current);
    }

    // ---- running callbacks ----

    /** event_active. */
    method Active(id: nat, byTimeout: bool)
      requires Valid() && id < |cbs| && !IsTimer(queues, id)
      modifies this`cbs, this`eventCount, this`countActive, this`activeq, this`later
      ensures Valid()
      ensures var c := old(cbs)[id]; var again := c.active || c.later;
        cbs == if c.finalizing then old(cbs)
               else old(cbs)[id := c.(active := true, later := false, byTimeout := byTimeout || (again && c.byTimeout))]
    {
      AgreeParts(cbs, activeq, later, heap, queues);
      SchedFrame(cbs, queues, id, Activated(cbs[id], byTimeout), current);
      hide Core, Scheduled, IsTimer;
      ActiveNolock(id, byTimeout);
    }

    /** event_callback_activate_later_nolock_. */
    method ActivateLater(id: nat)
      requires Valid() && id < |cbs| && !IsTimer(queues, id)
      modifies this`cbs, this`eventCount, this`countActive, this`later
      ensures Valid()
      ensures if old(cbs)[id].active || old(cbs)[id].later then cbs == old(cbs) && later == old(later)
              else cbs == old(cbs)[id := old(cbs)[id].(later := true)] && later == old(later) + [id]
    {
      AgreeParts(cbs, activeq, later, heap, queues);
      SchedFrame(cbs, queues, id, cbs[id].(later := true), current);
      hide Core, Scheduled, IsTimer;
      InsertLater(id);
    }

    /** One turn of event_process_active_single_queue, up to the call of the callback. */
    method PopActive(p: nat) returns (id: nat)
      requires Valid() && current == -1 && p < |activeq| && activeq[p] != []
      modifies this
      ensures Valid() && current == id == old(activeq)[p][0] && id < |old(cbs)| && SameTimers(old(queues), queues)
      ensures p < |activeq| && activeq[p] == old(activeq)[p][1..]
      ensures var c := old(cbs)[id];
        cbs == old(cbs)[id := if c.persist || c.finalizing || !c.init then c.(active := false)
                              else c.(active := false, later := false, inserted := false, timeout := false)]
    {
      AgreeParts(cbs, activeq, later, heap, queues);
      ActiveHead(cbs, activeq, p);
      id := activeq[p][0];
      CoreAt(cbs, activeq, later, heap, queues, id);
      ghost var c := Popped(cbs[id]);
      if IsTimer(queues, id) {
        SchedRunning(cbs, queues, id, c);
      } else if cbs[id].persist || cbs[id].finalizing || !cbs[id].init {
        SchedFrame(cbs, queues, id, c, -1);
      } else {
        SchedDequeue(cbs, queues, id, c, -1);
      }
      SameTimersSelf(queues);
      hide Core, Scheduled, IsTimer, Without;
      if cbs[id].init && !cbs[id].persist && !cbs[id].finalizing {
        DelNolock(id, false);
      } else {
        RemoveActive(id);
      }
      SchedCurrent(cbs, queues, id);
      current := id;
    }

    /** The callback has returned; a timer's own callback has set it again if it must. */
    method EndCallback()
      requires Valid() && (IsTimer(queues, current) ==> Scheduled(cbs, queues, -1))
      modifies this`current
      ensures Valid() && current == -1
    {
      SchedCurrent(cbs, queues, current);
      current := -1;
    }
  
    // ---- finalizing ----

    method SetFinalizing(id: nat)
      requires Core() && id < |cbs| && !cbs[id].inserted && !cbs[id].timeout && !IsTimer(queues, id)
      modifies this`cbs
      ensures Core() && cbs == old(cbs)[id := old(cbs)[id].(finalizing := true)]
    {
      hide ActiveOk, LaterOk, HeapOk, QueuesOk, FlagsOk, TimersOk, Total, Memberships, IsTimer;
      var d := cbs[id].(finalizing := true);
      Frames(cbs, id, d, activeq, later, heap, queues);
      cbs := cbs[id := d];
    }

    /** event_callback_cancel_nolock_ of a callback that is no timer. */
    method Cancel(id: nat)
      requires Valid() && id < |cbs| && !IsTimer(queues, id)
      modifies this`cbs, this`eventCount, this`countActive, this`activeq, this`later, this`heap, this`queues
      ensures Valid() && SameTimers(old(queues), queues)
      ensures var c := old(cbs)[id];
        cbs == if c.finalizing then old(cbs)
               else old(cbs)[id := c.(inserted := false, active := false, later := false, timeout := false)]
    {
      AgreeParts(cbs, activeq, later, heap, queues);
      CoreAt(cbs, activeq, later, heap, queues, id);
      SchedDequeue(cbs, queues, id, Cleared(cbs[id]), current);
      UpdateTwice(cbs, id, cbs[id], cbs[id]);
      hide Core, Scheduled, IsTimer, Without, QueuesLeft;
      CancelNolock(id, false);
    }

    /** event_callback_finalize_nolock_. */
    method Finalize(id: nat)
      requires Valid() && id < |cbs| && !IsTimer(queues, id)
      modifies this`cbs, this`eventCount, this`countActive, this`activeq, this`later, this`heap, this`queues
      ensures Valid() && SameTimers(old(queues), queues)
      ensures var c := old(cbs)[id];
        cbs == if c.finalizing then old(cbs)
               else old(cbs)[id := c.(active := true, finalizing := true, inserted := false, later := false, timeout := false)]
    {
      IsTimerSame(queues, id);
      hide Core, IsTimer, Without, SameTimers;
      ghost var before, c := cbs, cbs[id];
      Cancel(id);
      CoreQueues();
      ghost var cbs1 := cbs;
      FlagsFor(id);
      SchedFrame(cbs, queues, id, Finalized(c), current);
      var _ := ActivateNolock(id);
      UpdateTwice(before, id, Cleared(c), Cleared(c).(active := true));
      UpdateTwice(before, id, Cleared(c).(active := true), Finalized(c));
      UpdateTwice(before, id, c, c);
      SetFinalizing(id);
      UpdateTwice(before, id, Cleared(c), Finalized(c));
    }

    lemma CoreQueues()
      requires Core()
      ensures QueuesOk(cbs, queues)
    {
    }

    lemma FlagsFor(id: nat)
      requires Core() && id < |cbs|
      ensures FlagsAt(cbs[id], |activeq|, |queues|)
    {
    }

    /**
     * event_callback_finalize_many_: all of the callbacks leave their queues, and exactly one of
     * them, the running one if it is among them and else the first, is queued to be finalized.
     */
    method FinalizeMany(ids: seq<nat>)
      requires Valid() && |ids| > 0
      requires forall k :: 0 <= k < |ids| ==> ids[k] < |cbs| && !cbs[ids[k]].finalizing && !IsTimer(queues, ids[k])
      modifies this`cbs, this`eventCount, this`countActive, this`activeq, this`later, this`heap, this`queues
      ensures Valid() && |cbs| == |old(cbs)| && SameTimers(old(queues), queues)
      ensures forall id :: 0 <= id < |cbs| ==>
        var c := old(cbs)[id].(inserted := false, later := false, timeout := false);
        cbs[id] == if id !in ids then old(cbs)[id]
                   else if id == (if current in ids then current else ids[0]) then c.(active := true, finalizing := true)
                   else c.(active := false)
    {
      hide Valid, IsTimer;
      SameTimersSelf(queues);
      ghost var before, queues0 := cbs, queues;
      var pending := 0;
      for i := 0 to |ids|
        invariant Valid() && |cbs| == |before| && SameTimers(queues0, queues)
        invariant pending > 0 <==> current in ids[..i]
        invariant forall id :: 0 <= id < |cbs| ==>
          cbs[id] == if id !in ids[..i] then before[id] else if id == current then Finalized(before[id]) else Cleared(before[id])
      {
        IsTimerSame(queues0, ids[i]);
        assert ids[..i + 1] == ids[..i] + [ids[i]];
        if ids[i] == current {
          Finalize(ids[i]);
          pending := pending + 1;
        } else {
          Cancel(ids[i]);
        }
      }
      assert ids[..|ids|] == ids;
      if pending == 0 {
        IsTimerSame(queues0, ids[0]);
        Finalize(ids[0]);
      }
    }
  
    // ---- later callbacks, new events, new queues ----

    /** One turn of event_queue_make_later_events_active. */
    method PromoteFirst() returns (id: nat)
      requires Valid() && later != []
      modifies this`cbs, this`activeq, this`later
      ensures Valid() && id == old(later)[0] && id < |old(cbs)| && later == old(later)[1..]
      ensures cbs == old(cbs)[id := old(cbs)[id].(later := false, active := true)]
      ensures |activeq| == |old(activeq)| && cbs[id].pri < |activeq|
      ensures activeq == old(activeq)[cbs[id].pri := old(activeq)[cbs[id].pri] + [id]]
    {
      id := later[0];
      LaterHead(cbs, activeq, later, heap, queues);
      hide ActiveOk, LaterOk, HeapOk, QueuesOk, FlagsOk, TimersOk, Total, Memberships, IsTimer, Scheduled;
      SchedFrame(cbs, queues, id, cbs[id].(later := false, active := true), current);
      var c := cbs[id];
      var d := c.(later := false, active := true);
      Frames(cbs, id, d, activeq, later, heap, queues);
      ActiveEnter(cbs, id, d, activeq);
      LaterLeave(cbs, id, d, later);
      TotalUpdate(activeq, c.pri, activeq[c.pri] + [id]);
      later := later[1..];
      cbs := cbs[id := d];
      activeq := activeq[c.pri := activeq[c.pri] + [id]];
    }

    /** event_queue_make_later_events_active: each goes to the end of its priority's queue, in order. */
    method MakeLaterActive()
      requires Valid()
      modifies this`cbs, this`activeq, this`later
      ensures Valid() && later == [] && |cbs| == |old(cbs)| && |activeq| == |old(activeq)|
      ensures forall id :: 0 <= id < |cbs| ==>
        cbs[id] == if id in old(later) then old(cbs)[id].(later := false, active := true) else old(cbs)[id]
      ensures forall p :: 0 <= p < |activeq| ==> activeq[p] == old(activeq)[p] + OfPri(old(cbs), old(later), p)
    {
      hide Valid, Promoted, Queued, OfPri;
      ghost var before, later0, activeq0 := cbs, later, activeq;
      ghost var k := 0;
      PromotedNone(before, activeq0, later0);
      while later != []
        invariant Valid() && 0 <= k <= |later0| && later == later0[k..]
        invariant Promoted(before, later0[..k], cbs) && Queued(before, activeq0, later0[..k], activeq)
        decreases |later|
      {
        ghost var cbs1, activeq1 := cbs, activeq;
        var id := PromoteFirst();
        PromotedStep(before, activeq0, later0[..k], cbs1, activeq1, id, cbs, activeq);
        assert later0[..k + 1] == later0[..k] + [id];
        DropDrop(later0, k, 1);
        k := k + 1;
      }
      assert later0[..k] == later0;
      PromotedAll(before, activeq0, later0, cbs, activeq);
    }

    /** event_assign of an event, or initialisation of a bare callback. */
    method Assign(init: bool, internal: bool, io: bool, persist: bool, pri: nat) returns (id: nat)
      requires Valid() && pri < |activeq|
      modifies this`cbs
      ensures Valid() && id == |old(cbs)| && !IsTimer(queues, id)
      ensures cbs == old(cbs) + [Cb(init, internal, io, persist, pri, false, false, false, false, false, 0, -1, false)]
    {
      id := |cbs|;
      var c := Cb(init, internal, io, persist, pri, false, false, false, false, false, 0, -1, false);
      AgreeSnoc(cbs, c, activeq, later, heap, queues);
      SchedSnoc(cbs, c, queues, current);
      MembershipsSnoc(cbs, c);
      cbs := cbs + [c];
    }

    /** event_base_init_common_timeout: the index of the queue for this delay, or -1 if there are too many. */
    method InitCommonTimeout(duration: int) returns (r: int)
      requires Valid() && |activeq| > 0
      modifies this`cbs, this`queues
      ensures Valid() && old(queues) <= queues && old(cbs) <= cbs
      ensures r == -1 <==> |old(queues)| >= 256 && forall i :: 0 <= i < |old(queues)| ==> old(queues)[i].duration != duration
      ensures r == -1 ==> queues == old(queues)
      ensures queues == old(queues) || queues == old(queues) + [Queue(|old(cbs)|, [], duration)]
      ensures r >= 0 ==> r < |queues| && queues[r].duration == duration
      ensures (exists i :: 0 <= i < |old(queues)| && old(queues)[i].duration == duration) ==> r >= 0 && queues == old(queues)
    {
      for i := 0 to |queues|
        invariant forall k :: 0 <= k < i ==> queues[k].duration != duration
      {
        if queues[i].duration == duration { return i; }
      }
      if |queues| >= MAX_COMMON_TIMEOUTS { return -1; }
      var id := Assign(true, true, false, false, 0);
      var q := Queue(id, [], duration);
      AgreeNewQueue(cbs, activeq, later, heap, queues, q);
      queues := queues + [q];
      return |queues| - 1;
    }
  }

  const MAX_COMMON_TIMEOUTS := 256

  /** The callbacks of priority `p`, in order. */
  ghost function OfPri(cbs: seq<Cb>, q: seq<nat>, p: nat): (r: seq<nat>) {
    if q == [] then []
    else OfPri(cbs, q[..|q| - 1], p) + (var id := q[|q| - 1]; if id < |cbs| && cbs[id].pri == p then [id] else [])
  }

  ghost predicate Promoted(before: seq<Cb>, ids: seq<nat>, cbs: seq<Cb>) {
    |cbs| == |before| && forall id :: 0 <= id < |cbs| ==>
      cbs[id] == if id in ids then before[id].(later := false, active := true) else before[id]
  }

  ghost predicate Queued(before: seq<Cb>, activeq0: seq<seq<nat>>, ids: seq<nat>, activeq: seq<seq<nat>>) {
    |activeq| == |activeq0| && forall p :: 0 <= p < |activeq| ==> activeq[p] == activeq0[p] + OfPri(before, ids, p)
  }

  lemma PromotedNone(before: seq<Cb>, activeq0: seq<seq<nat>>, ids: seq<nat>)
    ensures Promoted(before, ids[..0], before) && Queued(before, activeq0, ids[..0], activeq0)
  {
    assert ids[..0] == [];
  }

  lemma PromotedStep(before: seq<Cb>, activeq0: seq<seq<nat>>, ids: seq<nat>, cbs: seq<Cb>, activeq: seq<seq<nat>>, id: nat,
                     cbs': seq<Cb>, activeq': seq<seq<nat>>)
    requires Promoted(before, ids, cbs) && Queued(before, activeq0, ids, activeq)
    requires id < |cbs| && cbs' == cbs[id := cbs[id].(later := false, active := true)] && cbs'[id].pri < |activeq|
    requires activeq' == activeq[cbs'[id].pri := activeq[cbs'[id].pri] + [id]]
    ensures Promoted(before, ids + [id], cbs') && Queued(before, activeq0, ids + [id], activeq')
  {
    hide OfPri;
    OfPriSnoc(before, ids, id);
    forall p | 0 <= p < |activeq'| ensures activeq'[p] == activeq0[p] + OfPri(before, ids + [id], p) {
      Assoc(activeq0[p], OfPri(before, ids, p), if before[id].pri == p then [id] else []);
    }
  }

  lemma PromotedAll(before: seq<Cb>, activeq0: seq<seq<nat>>, ids: seq<nat>, cbs: seq<Cb>, activeq: seq<seq<nat>>)
    requires Promoted(before, ids, cbs) && Queued(before, activeq0, ids, activeq)
    ensures |cbs| == |before| && |activeq| == |activeq0|
    ensures forall id :: 0 <= id < |cbs| ==>
      cbs[id] == if id in ids then before[id].(later := false, active := true) else before[id]
    ensures forall p :: 0 <= p < |activeq| ==> activeq[p] == activeq0[p] + OfPri(before, ids, p)
  {
  }

  lemma OfPriSnoc(cbs: seq<Cb>, q: seq<nat>, id: nat)
    ensures forall p :: OfPri(cbs, q + [id], p) == OfPri(cbs, q, p) + if id < |cbs| && cbs[id].pri == p then [id] else []
  {
    assert (q + [id])[..|q|] == q;
  }

  lemma LaterHead(cbs: seq<Cb>, activeq: seq<seq<nat>>, later: seq<nat>, heap: set<nat>, queues: seq<Queue>)
    requires Agree(cbs, activeq, later, heap, queues) && later != []
    ensures var id := later[0];
      id < |cbs| && cbs[id].later && !cbs[id].active && cbs[id].pri < |activeq| && !IsTimer(queues, id)
      && Without(later, id) == later[1..]
  {
    var id := later[0];
    assert id in later;
    assert FlagsAt(cbs[id], |activeq|, |queues|);
    forall j | 0 <= j < |queues| ensures queues[j].timer != id { assert TimerAt(cbs[queues[j].timer]); }
  }

  ghost function Finalized(c: Cb): (d: Cb) {
    if c.finalizing then c else Cleared(c).(active := true, finalizing := true)
  }

  /** A callback about to be run: gone from every queue, unless it is persistent, finalizing or no event. */
  ghost function Popped(c: Cb): (d: Cb) {
    if c.init && !c.persist && !c.finalizing then Cleared(c) else c.(active := false)
  }

  /** Exactly the first `k` of the events are due. */
  ghost predicate Due(cbs: seq<Cb>, events: seq<nat>, k: nat, now: int) {
    && k <= |events| && (forall m :: 0 <= m < |events| ==> events[m] < |cbs|)
    && (forall m :: 0 <= m < |events| ==> (cbs[events[m]].at <= now <==> m < k))
  }

  ghost predicate DueBefore(cbs: seq<Cb>, events: seq<nat>, k: nat, now: int) {
    k <= |events| && forall m :: 0 <= m < k ==> events[m] < |cbs| && cbs[events[m]].at <= now
  }

  /** The first `k` of the events expired, and no other callback changed. */
  ghost predicate FirstExpired(before: seq<Cb>, events: seq<nat>, k: nat, cbs: seq<Cb>) {
    k <= |events| && |cbs| == |before| && forall id :: 0 <= id < |cbs| ==> cbs[id] == Expired(before[id], id in events[..k])
  }

  /** The same, but for the timer of the queue, which is set to the deadline of the next event if there is one. */
  ghost predicate Served(before: seq<Cb>, q: Queue, k: nat, cbs: seq<Cb>) {
    && k <= |q.events| && |cbs| == |before| && q.timer < |cbs| && (k < |q.events| ==> q.events[k] < |cbs|)
    && (forall id :: 0 <= id < |cbs| && id != q.timer ==> cbs[id] == Expired(before[id], id in q.events[..k]))
    && cbs[q.timer] == if k == |q.events| then before[q.timer] else Timed(before[q.timer], before[q.events[k]].at, -1)
  }

  lemma ServedBy(before: seq<Cb>, q: Queue, k: nat, cbs1: seq<Cb>, cbs: seq<Cb>)
    requires FirstExpired(before, q.events, k, cbs1) && NoDup(q.events) && q.timer !in q.events && q.timer < |before|
    requires forall m :: 0 <= m < |q.events| ==> q.events[m] < |before|
    requires k == |q.events| ==> cbs == cbs1
    requires k < |q.events| ==> cbs == cbs1[q.timer := Timed(cbs1[q.timer], cbs1[q.events[k]].at, -1)]
    ensures Served(before, q, k, cbs) && (AllActive(cbs1, q.events, k) ==> AllActive(cbs, q.events, k))
  {
    hide Expired;
    assert Expired(before[q.timer], false) == before[q.timer] by { NotExpired(before[q.timer]); }
    assert q.timer !in q.events[..k];
    if k < |q.events| {
      assert q.events[k] !in q.events[..k];
      NotExpired(before[q.events[k]]);
    }
  }

  lemma ServedMeans(before: seq<Cb>, q: Queue, k: nat, cbs: seq<Cb>)
    requires Served(before, q, k, cbs) && forall m :: 0 <= m < |q.events| ==> q.events[m] < |before| && !before[q.events[m]].finalizing
    ensures |cbs| == |before| && q.timer < |cbs|
    ensures k < |q.events| ==> cbs[q.timer].timeout && cbs[q.timer].at == before[q.events[k]].at
    ensures k == |q.events| ==> cbs[q.timer] == before[q.timer]
    ensures forall id :: 0 <= id < |cbs| && id != q.timer ==> var c := before[id];
      cbs[id] == if id in q.events[..k] then c.(active := true, byTimeout := true, timeout := false, inserted := false, later := false) else c
  {
  }

  lemma IdleServed(cbs: seq<Cb>, q: Queue, current: int)
    requires (q.events == [] && SchedAt(cbs, q, current)) || SchedAt(cbs, q, -1)
    ensures SchedAt(cbs, q, -1)
  {
  }

  lemma ExpiredAll(cbs: seq<Cb>, heap: set<nat>)
    requires HeapOk(cbs, heap) && forall id :: 0 <= id < |cbs| && cbs[id].finalizing ==> !cbs[id].timeout
    ensures forall id :: 0 <= id < |cbs| ==> (id in heap <==> cbs[id].timeout && cbs[id].common < 0)
    ensures forall id :: 0 <= id < |cbs| && cbs[id].timeout ==>
      Expired(cbs[id], true) == cbs[id].(active := true, byTimeout := true, timeout := false, inserted := false, later := false)
    ensures forall id :: 0 <= id < |cbs| ==> Expired(cbs[id], false) == cbs[id]
  {
  }

  lemma NotExpired(c: Cb)
    ensures Expired(c, false) == c
  {
  }

  lemma DueStart(cbs: seq<Cb>, events: seq<nat>, now: int)
    ensures AllActive(cbs, events, 0) && FirstExpired(cbs, events, 0, cbs) && DueBefore(cbs, events, 0, now)
  {
  }

  lemma DueStep(cbs: seq<Cb>, before: seq<Cb>, events: seq<nat>, k: nat, now: int, id: nat, cbs': seq<Cb>)
    requires AllActive(cbs, events, k) && FirstExpired(before, events, k, cbs) && DueBefore(before, events, k, now) && NoDup(events)
    requires k < |events| && id == events[k] && id < |cbs| && cbs[id].at <= now
    requires cbs' == cbs[id := Expired(cbs[id], true)] && cbs'[id].active
    ensures AllActive(cbs', events, k + 1) && FirstExpired(before, events, k + 1, cbs') && DueBefore(before, events, k + 1, now)
  {
    assert events[..k + 1] == events[..k] + [id];
    assert id !in events[..k];
    NotExpired(before[id]);
  }

  lemma DueEnd(cbs: seq<Cb>, before: seq<Cb>, events: seq<nat>, k: nat, now: int)
    requires FirstExpired(before, events, k, cbs) && DueBefore(before, events, k, now) && Sorted(before, events) && NoDup(events)
    requires k < |events| ==> events[k] < |cbs| && cbs[events[k]].at > now
    ensures Due(before, events, k, now)
  {
    if k < |events| {
      assert events[k] !in events[..k];
      NotExpired(before[events[k]]);
    }
  }

  ghost predicate AllActive(cbs: seq<Cb>, events: seq<nat>, k: nat) {
    k <= |events| && forall m :: 0 <= m < k ==> events[m] < |cbs| && cbs[events[m]].active && !cbs[events[m]].timeout
  }

  ghost function Expired(c: Cb, expired: bool): (d: Cb) {
    if expired then Activated(Cleared(c), true) else c
  }

  lemma HeapShrinks(cbs: seq<Cb>, heap: set<nat>, id: nat, c: Cb, heap': set<nat>)
    requires id < |cbs| && HeapOk(cbs, heap) && HeapOk(cbs[id := c], heap') && !c.timeout
    ensures heap' == heap - {id}
  {
  }

  lemma Shrinks(s: set<nat>, x: nat)
    requires x in s
    ensures |s - {x}| < |s|
  {
    assert s == (s - {x}) + {x};
  }

  lemma {:induction false} Earliest(cbs: seq<Cb>, heap: set<nat>)
    requires heap != {} && forall x :: x in heap ==> x < |cbs|
    ensures exists id :: id in heap && forall x :: x in heap ==> x < |cbs| && cbs[id].at <= cbs[x].at
    decreases heap
  {
    assert (forall y :: y !in heap) ==> heap == {};
    var y :| y in heap;
    var rest := heap - {y};
    if rest == {} {
      assert heap == {y};
    } else {
      Earliest(cbs, rest);
      var id :| id in rest && forall x :: x in rest ==> x < |cbs| && cbs[id].at <= cbs[x].at;
      var best := if cbs[id].at <= cbs[y].at then id else y;
      assert best in heap && forall x :: x in heap ==> x in rest || x == y;
    }
  }

  ghost predicate AsksBackend(c: Cb) {
    c.io && !c.inserted && !c.active && !c.later
  }

  lemma PutHead(cbs: seq<Cb>, q: seq<nat>, id: nat, at: int, r: seq<nat>)
    requires PutInOrder(cbs, q, id, at, r)
    ensures r != [] && (r[0] != id ==> q != [] && r[0] == q[0])
  {
  }

  lemma IsTimerSame(queues: seq<Queue>, id: nat)
    ensures forall queues': seq<Queue> :: SameTimers(queues, queues') ==> (IsTimer(queues', id) <==> IsTimer(queues, id))
  {
    forall queues': seq<Queue> | SameTimers(queues, queues') ensures IsTimer(queues', id) <==> IsTimer(queues, id) {
      if IsTimer(queues, id) {
        var i :| 0 <= i < |queues| && queues[i].timer == id;
        assert queues'[i].timer == id;
      }
      if IsTimer(queues', id) {
        var i :| 0 <= i < |queues'| && queues'[i].timer == id;
        assert queues[i].timer == id;
      }
    }
  }

  /** event_active_nolock_ on one callback; `byTimeout` is EV_TIMEOUT in ev_res. */
  ghost function Activated(c: Cb, byTimeout: bool): (d: Cb) {
    if c.finalizing then c
    else c.(active := true, later := false, byTimeout := byTimeout || (c.byTimeout && (c.active || c.later)))
  }

  lemma SameTimersSelf(queues: seq<Queue>)
    ensures SameTimers(queues, queues)
  {
  }

  lemma CoreAt(cbs: seq<Cb>, activeq: seq<seq<nat>>, later: seq<nat>, heap: set<nat>, queues: seq<Queue>, id: nat)
    requires Agree(cbs, activeq, later, heap, queues) && id < |cbs|
    ensures FlagsAt(cbs[id], |activeq|, |queues|) && (IsTimer(queues, id) ==> TimerAt(cbs[id]))
  {
  }

  lemma QueueIds(cbs: seq<Cb>, queues: seq<Queue>, i: nat)
    requires QueuesOk(cbs, queues) && i < |queues|
    ensures Sorted(cbs, queues[i].events)
  {
    assert QueueAt(cbs, queues[i].events, i);
  }

  /** insert_common_timeout_inorder: searches from the end. */
  method InsertInOrder(cbs: seq<Cb>, q: seq<nat>, id: nat, at: int) returns (r: seq<nat>)
    requires Sorted(cbs, q)
    ensures PutInOrder(cbs, q, id, at, r)
  {
    var k := |q|;
    while k > 0 && at < cbs[q[k - 1]].at
      invariant 0 <= k <= |q| && forall i :: k <= i < |q| ==> at < cbs[q[i]].at
    {
      k := k - 1;
    }
    r := q[..k] + [id] + q[k..];
    assert PutAt(cbs, q, id, at, k, r);
  }

  lemma PriInRange(cbs: seq<Cb>, id: nat, priorities: nat, commons: nat)
    requires id < |cbs| && FlagsOk(cbs, priorities, commons)
    ensures cbs[id].pri < priorities && cbs[id].common < commons
  {
  }

  /** One callback changes: what stays right depends on which of its fields stay. */
  lemma Frames(cbs: seq<Cb>, id: nat, d: Cb, activeq: seq<seq<nat>>, later: seq<nat>, heap: set<nat>, queues: seq<Queue>)
    requires id < |cbs| && Agree(cbs, activeq, later, heap, queues)
    ensures Memberships(cbs[id := d]) == Memberships(cbs) - Weight(cbs[id]) + Weight(d)
    ensures d.active == cbs[id].active && d.pri == cbs[id].pri ==> ActiveOk(cbs[id := d], activeq)
    ensures d.later == cbs[id].later ==> LaterOk(cbs[id := d], later)
    ensures d.timeout == cbs[id].timeout && (d.timeout ==> d.common == cbs[id].common && d.at == cbs[id].at)
      ==> HeapOk(cbs[id := d], heap) && QueuesOk(cbs[id := d], queues)
    ensures FlagsAt(cbs[id], |activeq|, |queues|) && (IsTimer(queues, id) ==> TimerAt(cbs[id]))
    ensures FlagsAt(d, |activeq|, |queues|) && (IsTimer(queues, id) ==> TimerAt(d))
      ==> FlagsOk(cbs[id := d], |activeq|, |queues|) && TimersOk(cbs[id := d], queues)
  {
    hide ActiveOk, LaterOk, HeapOk, QueuesOk, Memberships;
    MembershipsUpdate(cbs, id, d);
    if d.active == cbs[id].active && d.pri == cbs[id].pri { ActiveFrame(cbs, id, d, activeq); }
    if d.later == cbs[id].later { LaterFrame(cbs, id, d, later); }
    if d.timeout == cbs[id].timeout && (d.timeout ==> d.common == cbs[id].common && d.at == cbs[id].at) {
      TimeoutFrame(cbs, id, d, heap, queues);
    }
    if FlagsAt(d, |activeq|, |queues|) && (IsTimer(queues, id) ==> TimerAt(d)) {
      FlagsFrame(cbs, id, d, |activeq|, queues);
    }
  }

  /**
   * A delay is kept: an event added with one, and not of a common duration, is made active by
   * looking at the timeouts at time `t` exactly if that is no earlier than its end; until then it
   * is active only if it was, and not for an old timeout.
   */
  method DelayKept(b: EventBase, id: nat, delay: int, now: int, ioRes: int, t: int) returns (r: int)
    requires b.Valid() && id < |b.cbs| && b.cbs[id].init && !IsTimer(b.queues, id) && -1 <= ioRes <= 1
    modifies b
    ensures b.Valid() && |b.cbs| == |old(b.cbs)|
    ensures r == 0 && t >= now + delay ==> b.cbs[id].active && b.cbs[id].byTimeout && !b.cbs[id].timeout
    ensures r == 0 && t < now + delay ==>
      b.cbs[id].timeout && b.cbs[id].at == now + delay && b.cbs[id].active == (old(b.cbs)[id].active && !old(b.cbs)[id].byTimeout)
  {
    hide EventBase.Valid, IsTimer;
    r := b.Add(id, Timeval(delay, -1), false, now, ioRes);
    b.TimeoutProcess(t);
  }

  // ---- whole runs ----

  /** What a program and its loop may do; steps that the state does not allow are skipped. */
  datatype BaseStep =
    | NewEvent(init: bool, io: bool, persist: bool, pri: nat) | NewCommon(duration: int)
    | AddStep(id: nat, tv: Timeval, absolute: bool, now: int, ioRes: int) | DelStep(id: nat)
    | ActiveStep(id: nat, byTimeout: bool) | LaterStep(id: nat) | FinalizeStep(ids: seq<nat>)
    | TimersStep(now: int) | PromoteStep | RunStep(p: nat, now: int) | ReturnStep

  /** Whether the program may touch this callback: it exists and is no timer of the base. */
  predicate MayUse(b: EventBase, id: nat)
    reads b
  {
    id < |b.cbs| && forall i :: 0 <= i < |b.queues| ==> b.queues[i].timer != id
  }

  /** The state between two steps: a timer's callback runs within one step. */
  ghost predicate Between(b: EventBase)
    reads b
  {
    b.Valid() && b.current < |b.cbs| && !IsTimer(b.queues, b.current)
  }

  /**
   * After every run, flags, queues and counters agree, and the wait chosen for the loop is no
   * longer than the time to any pending timeout.
   */
  method RunBase(priorities: nat, steps: seq<BaseStep>, now: int, nonblock: bool) returns (b: EventBase, wait: Wait)
    requires priorities > 0
    ensures b.Valid() && b.current == -1
    ensures forall id :: 0 <= id < |b.cbs| && b.cbs[id].timeout ==> wait.For? && (wait.usec > 0 ==> now + wait.usec <= b.cbs[id].at)
    ensures wait.For? && wait.usec > 0 ==> exists id :: 0 <= id < |b.cbs| && b.cbs[id].timeout && now + wait.usec == b.cbs[id].at
    ensures wait == For(0) ==>
      nonblock || b.countActive > 0 || exists id :: 0 <= id < |b.cbs| && b.cbs[id].timeout && b.cbs[id].at <= now
  {
    hide EventBase.Core, Scheduled;
    b := new EventBase(priorities);
    for i := 0 to |steps|
      invariant fresh(b) && Between(b)
    {
      OneStep(b, steps[i]);
    }
    b.EndCallback();
    wait := b.ChooseWait(now, nonblock);
  }

  lemma NoTimerStill(queues: seq<Queue>, queues': seq<Queue>, current: int)
    requires SameTimers(queues, queues') && !IsTimer(queues, current)
    ensures !IsTimer(queues', current)
  {
  }

  lemma NoTimer(b: EventBase, id: nat)
    requires MayUse(b, id)
    ensures !IsTimer(b.queues, id)
  {
  }

  method OneStep(b: EventBase, step: BaseStep)
    requires Between(b)
    modifies b
    ensures Between(b)
  {
    hide EventBase.Valid, IsTimer, MayUse;
    match step
    case NewEvent(_, _, _, _) => RegisterStep(b, step);
    case NewCommon(_) => RegisterStep(b, step);
    case AddStep(_, _, _, _, _) => EventStep(b, step);
    case DelStep(_) => EventStep(b, step);
    case FinalizeStep(_) => EventStep(b, step);
    case RunStep(p, now) => RunNext(b, p, now);
    case _ => QueueStep(b, step);
  }

  method RegisterStep(b: EventBase, step: BaseStep)
    requires Between(b)
    modifies b
    ensures Between(b)
  {
    hide EventBase.Valid;
    if step.NewEvent? && step.pri < |b.activeq| {
      var _ := b.Assign(step.init, false, step.io, step.persist, step.pri);
    } else if step.NewCommon? && |b.activeq| > 0 {
      var _ := b.InitCommonTimeout(step.duration);
    }
  }

  method EventStep(b: EventBase, step: BaseStep)
    requires Between(b)
    modifies b
    ensures Between(b)
  {
    hide EventBase.Valid, IsTimer;
    ghost var queues := b.queues;
    if step.AddStep? && MayUse(b, step.id) && b.cbs[step.id].init && -1 <= step.ioRes <= 1
       && (step.tv.Timeval? ==> step.tv.common < |b.queues|) {
      NoTimer(b, step.id);
      var _ := b.Add(step.id, step.tv, step.absolute, step.now, step.ioRes);
      NoTimerStill(queues, b.queues, b.current);
    } else if step.DelStep? && MayUse(b, step.id) {
      NoTimer(b, step.id);
      b.Del(step.id);
      NoTimerStill(queues, b.queues, b.current);
    } else if step.FinalizeStep? && step.ids != [] {
      FinalizeThem(b, step.ids);
    }
  }

  method FinalizeThem(b: EventBase, ids: seq<nat>)
    requires Between(b) && ids != []
    modifies b
    ensures Between(b)
  {
    hide EventBase.Valid, IsTimer;
    for i := 0 to |ids|
      invariant Between(b)
      invariant forall k :: 0 <= k < i ==> ids[k] < |b.cbs| && !b.cbs[ids[k]].finalizing && !IsTimer(b.queues, ids[k])
    {
      if !MayUse(b, ids[i]) || b.cbs[ids[i]].finalizing { return; }
      NoTimer(b, ids[i]);
    }
    ghost var queues := b.queues;
    b.FinalizeMany(ids);
    NoTimerStill(queues, b.queues, b.current);
  }

  method QueueStep(b: EventBase, step: BaseStep)
    requires Between(b)
    modifies b
    ensures Between(b)
  {
    hide EventBase.Core, Scheduled, IsTimer;
    if step.ActiveStep? && MayUse(b, step.id) {
      NoTimer(b, step.id);
      b.Active(step.id, step.byTimeout);
    } else if step.LaterStep? && MayUse(b, step.id) {
      NoTimer(b, step.id);
      b.ActivateLater(step.id);
    } else if step.TimersStep? {
      b.TimeoutProcess(step.now);
    } else if step.PromoteStep? {
      b.MakeLaterActive();
    } else if step.ReturnStep? {
      b.EndCallback();
      NotATimer(b.queues);
    }
  }

  lemma NotATimer(queues: seq<Queue>)
    ensures !IsTimer(queues, -1)
  {
  }

  /** The first callback of a queue is taken; a timer's callback is run at once, any other until the program returns. */
  method RunNext(b: EventBase, p: nat, now: int)
    requires Between(b)
    modifies b
    ensures Between(b)
  {
    hide EventBase.Core, Scheduled, IsTimer;
    if b.current != -1 || p >= |b.activeq| || b.activeq[p] == [] { return; }
    var id := b.PopActive(p);
    var i := TimerIndex(b.queues, id);
    if i < |b.queues| {
      ghost var _ := b.CommonTimeoutCallback(i, now);
      b.EndCallback();
      NotATimer(b.queues);
    }
  }

  method TimerIndex(queues: seq<Queue>, id: nat) returns (i: nat)
    ensures i < |queues| ==> queues[i].timer == id
    ensures i >= |queues| ==> !IsTimer(queues, id)
  {
    i := 0;
    while i < |queues| && queues[i].timer != id
      invariant i <= |queues| && forall k :: 0 <= k < i ==> queues[k].timer != id
    {
      i := i + 1;
    }
  }
}
