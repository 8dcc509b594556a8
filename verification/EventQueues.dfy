/**
 * What an event base keeps about its callbacks (event.c): flags on each of them, the
 * queues those flags name, and the facts about these that its operations rely on.
 */
module EventQueues {
  import opened Wrappers
  import opened Lists

  /**
   * An event_callback; `init` says it is a whole event. The flags `inserted`, `active`,
   * `later`, `timeout` and `finalizing` are those of ev_flags. A timeout ends at time
   * `at`; `common` is the index of its common-timeout queue, or -1 for the heap.
   */
  datatype Cb = Cb(init: bool, internal: bool, io: bool, persist: bool, pri: nat,
                   inserted: bool, active: bool, later: bool, timeout: bool, finalizing: bool,
                   at: int, common: int, byTimeout: bool)

  /** struct common_timeout_list: its internal timer, its events in the order they expire, and their delay. */
  datatype Queue = Queue(timer: nat, events: seq<nat>, duration: int)

  // ---- what each queue holds ----

  /** Every active queue holds exactly the active callbacks of its priority. */
  ghost predicate ActiveOk(cbs: seq<Cb>, activeq: seq<seq<nat>>) {
    forall p :: 0 <= p < |activeq| ==> ActiveAt(cbs, activeq[p], p)
  }

  ghost predicate ActiveAt(cbs: seq<Cb>, q: seq<nat>, p: nat) {
    NoDup(q) && forall id: nat :: id in q <==> id < |cbs| && cbs[id].active && cbs[id].pri == p
  }

  ghost predicate LaterOk(cbs: seq<Cb>, later: seq<nat>) {
    NoDup(later) && forall id: nat :: id in later <==> id < |cbs| && cbs[id].later
  }

  /** The heap holds exactly the timeouts that are not common ones. */
  ghost predicate HeapOk(cbs: seq<Cb>, heap: set<nat>) {
    forall id: nat :: id in heap <==> id < |cbs| && cbs[id].timeout && cbs[id].common < 0
  }

  ghost predicate Sorted(cbs: seq<Cb>, q: seq<nat>) {
    && (forall i :: 0 <= i < |q| ==> q[i] < |cbs|)
    && (forall i, j :: 0 <= i < j < |q| ==> cbs[q[i]].at <= cbs[q[j]].at)
  }

  /** Every common-timeout queue is sorted and holds exactly the timeouts with its index. */
  ghost predicate QueuesOk(cbs: seq<Cb>, queues: seq<Queue>) {
    forall i :: 0 <= i < |queues| ==> QueueAt(cbs, queues[i].events, i)
  }

  ghost predicate QueueAt(cbs: seq<Cb>, q: seq<nat>, i: nat) {
    && NoDup(q) && Sorted(cbs, q)
    && forall id: nat :: id in q <==> id < |cbs| && cbs[id].timeout && cbs[id].common == i
  }

  ghost predicate FlagsAt(c: Cb, priorities: nat, commons: nat) {
    && !(c.active && c.later) && (c.finalizing ==> !c.inserted && !c.timeout)
    && (c.inserted || c.timeout ==> c.init) && c.pri < priorities && c.common < commons
  }

  ghost predicate FlagsOk(cbs: seq<Cb>, priorities: nat, commons: nat) {
    forall id :: 0 <= id < |cbs| ==> FlagsAt(cbs[id], priorities, commons)
  }

  /** The timer of a common-timeout queue: internal, and itself never a common timeout. */
  ghost predicate TimerAt(c: Cb) {
    c.init && c.internal && !c.io && !c.persist && !c.finalizing && c.common < 0
    && !c.later && !c.inserted && (c.active ==> c.byTimeout)
  }

  ghost predicate TimersOk(cbs: seq<Cb>, queues: seq<Queue>) {
    && (forall i :: 0 <= i < |queues| ==> queues[i].timer < |cbs| && TimerAt(cbs[queues[i].timer]))
    && (forall i, j :: 0 <= i < j < |queues| ==> queues[i].timer != queues[j].timer)
  }

  // ---- counters ----

  /** How many queues a callback is in, as far as event_count cares. */
  ghost function Weight(c: Cb): (n: nat) {
    if c.internal then 0 else One(c.inserted) + One(c.active) + One(c.later) + One(c.timeout)
  }

  ghost function Memberships(cbs: seq<Cb>): (n: nat) {
    if cbs == [] then 0 else Weight(cbs[0]) + Memberships(cbs[1..])
  }

  lemma {:induction false} MembershipsUpdate(cbs: seq<Cb>, id: nat, c: Cb)
    requires id < |cbs|
    ensures Memberships(cbs[id := c]) == Memberships(cbs) - Weight(cbs[id]) + Weight(c)
  {
    if id == 0 {
      assert cbs[id := c][1..] == cbs[1..];
    } else {
      assert cbs[id := c][1..] == cbs[1..][id - 1 := c];
      MembershipsUpdate(cbs[1..], id - 1, c);
    }
  }

  lemma {:induction false} MembershipsSnoc(cbs: seq<Cb>, c: Cb)
    ensures Memberships(cbs + [c]) == Memberships(cbs) + Weight(c)
  {
    if cbs != [] {
      assert (cbs + [c])[1..] == cbs[1..] + [c];
      MembershipsSnoc(cbs[1..], c);
    }
  }

  // ---- the whole state ----

  /** Flags and queues agree. */
  ghost predicate Agree(cbs: seq<Cb>, activeq: seq<seq<nat>>, later: seq<nat>, heap: set<nat>, queues: seq<Queue>) {
    && ActiveOk(cbs, activeq) && LaterOk(cbs, later) && HeapOk(cbs, heap) && QueuesOk(cbs, queues)
    && FlagsOk(cbs, |activeq|, |queues|) && TimersOk(cbs, queues)
  }

  /** The timer of a non-empty common-timeout queue will bring the loop to it in time. */
  ghost predicate SchedAt(cbs: seq<Cb>, q: Queue, current: int) {
    q.timer < |cbs| && (forall k :: 0 <= k < |q.events| ==> q.events[k] < |cbs|)
    && (q.events != [] ==>
          var t := cbs[q.timer];
          (t.timeout && t.at <= cbs[q.events[0]].at) || t.active || current == q.timer)
  }

  ghost predicate Scheduled(cbs: seq<Cb>, queues: seq<Queue>, current: int) {
    forall i :: 0 <= i < |queues| ==> SchedAt(cbs, queues[i], current)
  }

  ghost predicate IsTimer(queues: seq<Queue>, id: int) {
    exists i :: 0 <= i < |queues| && queues[i].timer == id
  }

  /** A callback other than a timer may change in ways the other queues do not see. */
  lemma ActiveFrame(cbs: seq<Cb>, id: nat, c: Cb, activeq: seq<seq<nat>>)
    requires id < |cbs| && c.active == cbs[id].active && c.pri == cbs[id].pri && ActiveOk(cbs, activeq)
    ensures ActiveOk(cbs[id := c], activeq)
  {
    forall p | 0 <= p < |activeq| ensures ActiveAt(cbs[id := c], activeq[p], p) {
      assert ActiveAt(cbs, activeq[p], p);
    }
  }

  lemma LaterFrame(cbs: seq<Cb>, id: nat, c: Cb, later: seq<nat>)
    requires id < |cbs| && c.later == cbs[id].later && LaterOk(cbs, later)
    ensures LaterOk(cbs[id := c], later)
  {
  }

  lemma TimeoutFrame(cbs: seq<Cb>, id: nat, c: Cb, heap: set<nat>, queues: seq<Queue>)
    requires id < |cbs| && HeapOk(cbs, heap) && QueuesOk(cbs, queues)
    requires c.timeout == cbs[id].timeout && (c.timeout ==> c.common == cbs[id].common && c.at == cbs[id].at)
    ensures HeapOk(cbs[id := c], heap) && QueuesOk(cbs[id := c], queues)
  {
    forall i | 0 <= i < |queues| ensures QueueAt(cbs[id := c], queues[i].events, i) {
      var q := queues[i].events;
      assert QueueAt(cbs, q, i);
      if !c.timeout { assert id !in q; }
    }
  }

  lemma FlagsFrame(cbs: seq<Cb>, id: nat, c: Cb, priorities: nat, queues: seq<Queue>)
    requires id < |cbs| && FlagsOk(cbs, priorities, |queues|) && TimersOk(cbs, queues)
    requires FlagsAt(c, priorities, |queues|) && (IsTimer(queues, id) ==> TimerAt(c))
    ensures FlagsOk(cbs[id := c], priorities, |queues|) && TimersOk(cbs[id := c], queues)
  {
  }

  lemma UpdateTwice(cbs: seq<Cb>, id: nat, c: Cb, d: Cb)
    requires id < |cbs|
    ensures cbs[id := c][id := d] == cbs[id := d] && cbs[id := cbs[id]] == cbs
  {
  }

  // ---- one callback enters or leaves one queue ----

  lemma ActiveEnter(cbs: seq<Cb>, id: nat, c: Cb, activeq: seq<seq<nat>>)
    requires id < |cbs| && ActiveOk(cbs, activeq) && !cbs[id].active && c.active && c.pri == cbs[id].pri < |activeq|
    ensures ActiveOk(cbs[id := c], activeq[c.pri := activeq[c.pri] + [id]])
  {
    var activeq' := activeq[c.pri := activeq[c.pri] + [id]];
    forall p | 0 <= p < |activeq| ensures ActiveAt(cbs[id := c], activeq'[p], p) {
      assert ActiveAt(cbs, activeq[p], p);
      if p == c.pri { NoDupSnoc(activeq[p], id); }
    }
  }

  lemma ActiveLeave(cbs: seq<Cb>, id: nat, c: Cb, activeq: seq<seq<nat>>)
    requires id < |cbs| && ActiveOk(cbs, activeq) && cbs[id].active && !c.active && c.pri == cbs[id].pri < |activeq|
    ensures ActiveOk(cbs[id := c], activeq[c.pri := Without(activeq[c.pri], id)])
    ensures |Without(activeq[c.pri], id)| == |activeq[c.pri]| - 1
  {
    assert ActiveAt(cbs, activeq[c.pri], c.pri);
    WithoutMembers(activeq[c.pri], id);
    var activeq' := activeq[c.pri := Without(activeq[c.pri], id)];
    forall p | 0 <= p < |activeq| ensures ActiveAt(cbs[id := c], activeq'[p], p) {
      assert ActiveAt(cbs, activeq[p], p);
    }
  }

  lemma LaterEnter(cbs: seq<Cb>, id: nat, c: Cb, later: seq<nat>)
    requires id < |cbs| && LaterOk(cbs, later) && !cbs[id].later && c.later
    ensures LaterOk(cbs[id := c], later + [id])
  {
    NoDupSnoc(later, id);
  }

  lemma LaterLeave(cbs: seq<Cb>, id: nat, c: Cb, later: seq<nat>)
    requires id < |cbs| && LaterOk(cbs, later) && cbs[id].later && !c.later
    ensures LaterOk(cbs[id := c], Without(later, id)) && |Without(later, id)| == |later| - 1
  {
    WithoutMembers(later, id);
  }

  /** A timeout that leaves its place, in the heap or in a common-timeout queue. */
  ghost function HeapLeft(heap: set<nat>, id: nat, common: int): (h: set<nat>) {
    if common < 0 then heap - {id} else heap
  }

  function QueuesLeft(queues: seq<Queue>, id: nat, common: int): (q: seq<Queue>)
    requires common < |queues|
    ensures |q| == |queues|
  {
    if common < 0 then queues else queues[common := queues[common].(events := Without(queues[common].events, id))]
  }

  lemma {:induction false} WithoutSorted(cbs: seq<Cb>, q: seq<nat>, id: nat)
    requires Sorted(cbs, q)
    ensures Sorted(cbs, Without(q, id))
    ensures q != [] && Without(q, id) != [] ==> cbs[q[0]].at <= cbs[Without(q, id)[0]].at
  {
    if q != [] {
      var t := q[1..];
      SortedTail(cbs, q);
      WithoutSorted(cbs, t, id);
      WithoutAbsent(t, id);
      hide Sorted;
      var r := Without(t, id);
      if q[0] != id {
        assert Without(q, id) == [q[0]] + r;
        SortedCons(cbs, q[0], r);
      } else if t != [] {
        assert t[0] in t;
      }
    }
  }

  /** The first event is no later than any other. */
  lemma SortedTail(cbs: seq<Cb>, q: seq<nat>)
    requires Sorted(cbs, q) && q != []
    ensures Sorted(cbs, q[1..]) && q[0] < |cbs| && forall y :: y in q[1..] ==> y < |cbs| && cbs[q[0]].at <= cbs[y].at
  {
    var t := q[1..];
    forall y | y in t ensures y < |cbs| && cbs[q[0]].at <= cbs[y].at {
      var k :| 0 <= k < |t| && t[k] == y;
      assert q[k + 1] == y;
    }
  }

  lemma SortedCons(cbs: seq<Cb>, x: nat, r: seq<nat>)
    requires Sorted(cbs, r) && x < |cbs| && forall y :: y in r ==> y < |cbs| && cbs[x].at <= cbs[y].at
    ensures Sorted(cbs, [x] + r)
  {
  }

  lemma TimeoutLeave(cbs: seq<Cb>, id: nat, c: Cb, heap: set<nat>, queues: seq<Queue>)
    requires id < |cbs| && HeapOk(cbs, heap) && QueuesOk(cbs, queues)
    requires cbs[id].timeout && !c.timeout && c.common == cbs[id].common < |queues|
    ensures HeapOk(cbs[id := c], HeapLeft(heap, id, c.common))
    ensures QueuesOk(cbs[id := c], QueuesLeft(queues, id, c.common))
  {
    var queues' := QueuesLeft(queues, id, c.common);
    forall i | 0 <= i < |queues| ensures QueueAt(cbs[id := c], queues'[i].events, i) {
      var q := queues[i].events;
      assert QueueAt(cbs, q, i);
      if i == c.common {
        WithoutMembers(q, id);
        WithoutSorted(cbs, q, id);
        SortedElsewhere(cbs, Without(q, id), id, c);
      } else {
        SortedElsewhere(cbs, q, id, c);
      }
    }
  }

  lemma SortedElsewhere(cbs: seq<Cb>, q: seq<nat>, id: nat, c: Cb)
    requires Sorted(cbs, q) && id < |cbs| && id !in q
    ensures Sorted(cbs[id := c], q)
  {
  }

  /** The list `r` is `q` with `id` put before everything that expires later, and nothing else. */
  ghost predicate PutInOrder(cbs: seq<Cb>, q: seq<nat>, id: nat, at: int, r: seq<nat>) {
    exists k :: 0 <= k <= |q| && PutAt(cbs, q, id, at, k, r)
  }

  ghost predicate PutAt(cbs: seq<Cb>, q: seq<nat>, id: nat, at: int, k: nat, r: seq<nat>) {
    && k <= |q| && r == q[..k] + [id] + q[k..]
    && (forall i :: 0 <= i < |q| ==> q[i] < |cbs|)
    && (forall i :: 0 <= i < k ==> cbs[q[i]].at <= at) && (forall i :: k <= i < |q| ==> at < cbs[q[i]].at)
  }

  /** An index into a list with one more element at `k`, as an index into the list without it. */
  function Skip(a: nat, k: nat): (b: nat) { if a > k then a - 1 else a }

  lemma PutMembers(q: seq<nat>, id: nat, k: nat, r: seq<nat>)
    requires NoDup(q) && id !in q && k <= |q| && r == q[..k] + [id] + q[k..]
    ensures NoDup(r) && r[k] == id && forall a :: 0 <= a < |r| && a != k ==> r[a] == q[Skip(a, k)]
    ensures forall x: nat :: x in r <==> x in q || x == id
  {
    forall x: nat ensures x in r <==> x in q || x == id {
      assert q == q[..k] + q[k..];
      assert x in q <==> x in q[..k] || x in q[k..];
    }
  }

  lemma PutSorted(cbs: seq<Cb>, q: seq<nat>, id: nat, c: Cb, k: nat, r: seq<nat>)
    requires Sorted(cbs, q) && NoDup(q) && id < |cbs| && id !in q && PutAt(cbs, q, id, c.at, k, r)
    ensures Sorted(cbs[id := c], r)
  {
    PutMembers(q, id, k, r);
    var cbs' := cbs[id := c];
    forall a, b | 0 <= a < b < |r| ensures cbs'[r[a]].at <= cbs'[r[b]].at {
      if a != k { assert r[a] == q[Skip(a, k)]; }
      if b != k { assert r[b] == q[Skip(b, k)]; }
    }
  }

  lemma PutInQueue(cbs: seq<Cb>, q: seq<nat>, id: nat, c: Cb, k: nat, r: seq<nat>, i: nat)
    requires QueueAt(cbs, q, i) && id < |cbs| && !cbs[id].timeout && PutAt(cbs, q, id, c.at, k, r)
    requires c.timeout && c.common == i
    ensures QueueAt(cbs[id := c], r, i)
  {
    hide Sorted;
    PutMembers(q, id, k, r);
    PutSorted(cbs, q, id, c, k, r);
  }

  lemma TimeoutEnter(cbs: seq<Cb>, id: nat, c: Cb, heap: set<nat>, queues: seq<Queue>, r: seq<nat>)
    requires id < |cbs| && HeapOk(cbs, heap) && QueuesOk(cbs, queues)
    requires !cbs[id].timeout && c.timeout && c.common < |queues|
    requires c.common >= 0 ==> PutInOrder(cbs, queues[c.common].events, id, c.at, r)
    ensures HeapOk(cbs[id := c], if c.common < 0 then heap + {id} else heap)
    ensures QueuesOk(cbs[id := c], if c.common < 0 then queues else queues[c.common := queues[c.common].(events := r)])
  {
    var queues' := if c.common < 0 then queues else queues[c.common := queues[c.common].(events := r)];
    forall i | 0 <= i < |queues| ensures QueueAt(cbs[id := c], queues'[i].events, i) {
      var q := queues[i].events;
      assert QueueAt(cbs, q, i);
      if i == c.common {
        var k :| 0 <= k <= |q| && PutAt(cbs, q, id, c.at, k, r);
        PutInQueue(cbs, q, id, c, k, r, i);
      } else {
        SortedElsewhere(cbs, q, id, c);
      }
    }
  }

  /** Only the lists of events changed. */
  ghost predicate SameTimers(queues: seq<Queue>, queues': seq<Queue>) {
    |queues'| == |queues| && forall i :: 0 <= i < |queues| ==> queues'[i].timer == queues[i].timer
  }

  lemma TimersSame(cbs: seq<Cb>, queues: seq<Queue>, queues': seq<Queue>)
    requires TimersOk(cbs, queues) && SameTimers(queues, queues')
    ensures TimersOk(cbs, queues') && forall id :: IsTimer(queues', id) <==> IsTimer(queues, id)
  {
    forall id ensures IsTimer(queues', id) <==> IsTimer(queues, id) {
      if IsTimer(queues, id) {
        var i :| 0 <= i < |queues| && queues[i].timer == id;
        assert queues'[i].timer == id;
      }
      if IsTimer(queues', id) {
        var i :| 0 <= i < |queues'| && queues'[i].timer == id;
        assert queues[i].timer == id;
      }
    }
  }

  // ---- deadlines ----

  /** Queue `q'` has the same timer as `q` and no earlier first deadline. */
  ghost predicate NoEarlier(cbs: seq<Cb>, q: Queue, cbs': seq<Cb>, q': Queue) {
    && q'.timer == q.timer < |cbs| == |cbs'| && cbs'[q.timer] == cbs[q.timer]
    && (forall k :: 0 <= k < |q'.events| ==> q'.events[k] < |cbs'|)
    && (q'.events != [] ==> q.events != [] && q.events[0] < |cbs| && cbs[q.events[0]].at <= cbs'[q'.events[0]].at)
  }

  lemma SchedLater(cbs: seq<Cb>, q: Queue, cbs': seq<Cb>, q': Queue, current: int)
    requires SchedAt(cbs, q, current) && NoEarlier(cbs, q, cbs', q')
    ensures SchedAt(cbs', q', current)
  {
  }

  /** A callback that is no timer changes but keeps its place: nothing to reschedule. */
  lemma SchedFrame(cbs: seq<Cb>, queues: seq<Queue>, id: nat, c: Cb, current: int)
    requires Scheduled(cbs, queues, current) && id < |cbs| && !IsTimer(queues, id) && QueuesOk(cbs, queues)
    requires c.at == cbs[id].at || !cbs[id].timeout
    ensures Scheduled(cbs[id := c], queues, current)
  {
    forall i | 0 <= i < |queues| ensures SchedAt(cbs[id := c], queues[i], current) {
      assert SchedAt(cbs, queues[i], current);
      var q := queues[i];
      assert QueueAt(cbs, q.events, i);
      assert q.timer != id;
      if q.events != [] && q.events[0] == id { assert id in q.events; }
      SchedLater(cbs, q, cbs[id := c], q, current);
    }
  }

  lemma SchedLeave(cbs: seq<Cb>, queues: seq<Queue>, id: nat, c: Cb, current: int)
    requires Scheduled(cbs, queues, current) && id < |cbs| && !IsTimer(queues, id) && QueuesOk(cbs, queues)
    requires cbs[id].timeout && cbs[id].common < |queues|
    ensures Scheduled(cbs[id := c], QueuesLeft(queues, id, cbs[id].common), current)
  {
    var queues' := QueuesLeft(queues, id, cbs[id].common);
    forall i | 0 <= i < |queues| ensures SchedAt(cbs[id := c], queues'[i], current) {
      assert SchedAt(cbs, queues[i], current);
      var q := queues[i];
      assert QueueAt(cbs, q.events, i);
      assert q.timer != id;
      if i == cbs[id].common {
        WithoutMembers(q.events, id);
        WithoutSorted(cbs, q.events, id);
        var r := Without(q.events, id);
        assert r != [] ==> r[0] in r;
      } else {
        assert q.events != [] ==> q.events[0] in q.events;
      }
      SchedLater(cbs, q, cbs[id := c], queues'[i], current);
    }
  }

  /** In no queue any more. */
  ghost function Cleared(c: Cb): (d: Cb) {
    c.(inserted := false, active := false, later := false, timeout := false)
  }

  ghost function Dequeued(queues: seq<Queue>, id: nat, c: Cb): (q: seq<Queue>)
    requires c.common < |queues|
  {
    if c.timeout then QueuesLeft(queues, id, c.common) else queues
  }

  /** A callback given a new deadline; being active because of the old one is forgotten. */
  ghost function Timed(c: Cb, at: int, common: int): (d: Cb) {
    c.(timeout := true, at := at, common := common, active := c.active && !c.byTimeout)
  }

  /** A callback that is no timer left its queue or kept its place. */
  lemma SchedDequeue(cbs: seq<Cb>, queues: seq<Queue>, id: nat, c: Cb, current: int)
    requires Scheduled(cbs, queues, current) && id < |cbs| && !IsTimer(queues, id) && QueuesOk(cbs, queues)
    requires cbs[id].common < |queues|
    ensures Scheduled(cbs[id := c], Dequeued(queues, id, cbs[id]), current)
  {
    if cbs[id].timeout { SchedLeave(cbs, queues, id, c, current); } else { SchedFrame(cbs, queues, id, c, current); }
  }

  /** After a callback got a new deadline, only the queue whose first event it became needs its timer set. */
  lemma SchedTimed(cbs: seq<Cb>, queues: seq<Queue>, id: nat, c: Cb, common: int, queues1: seq<Queue>, queues': seq<Queue>, current: int)
    requires id < |cbs| && Scheduled(cbs[id := c], queues1, current) && SameTimers(queues1, queues')
    requires QueuesOk(cbs[id := c], queues') && common < |queues'|
    requires forall i :: 0 <= i < |queues'| && i != common ==> queues'[i] == queues1[i]
    requires common >= 0 ==> queues'[common].events != []
    requires common >= 0 && queues'[common].events[0] != id
      ==> queues1[common].events != [] && queues'[common].events[0] == queues1[common].events[0]
    ensures forall i :: 0 <= i < |queues'| && (i != common || queues'[i].events[0] != id) ==> SchedAt(cbs[id := c], queues'[i], current)
  {
    forall i | 0 <= i < |queues'| && (i != common || queues'[i].events[0] != id)
      ensures SchedAt(cbs[id := c], queues'[i], current)
    {
      assert SchedAt(cbs[id := c], queues1[i], current);
      assert QueueAt(cbs[id := c], queues'[i].events, i);
      if i == common { SchedLater(cbs[id := c], queues1[i], cbs[id := c], queues'[i], current); }
    }
  }

  /** Setting the timer of queue `i` to the deadline of its first event. */
  lemma SchedTimer(cbs: seq<Cb>, queues: seq<Queue>, i: nat, t: Cb, current: int)
    requires i < |queues| && QueuesOk(cbs, queues) && TimersOk(cbs, queues) && queues[i].events != []
    requires t.timeout && t.at <= cbs[queues[i].events[0]].at
    ensures SchedAt(cbs[queues[i].timer := t], queues[i], current)
    ensures forall j ::
      0 <= j < |queues| && j != i && SchedAt(cbs, queues[j], current)
      ==> SchedAt(cbs[queues[i].timer := t], queues[j], current)
  {
    var cbs' := cbs[queues[i].timer := t];
    forall j | 0 <= j < |queues| && (j == i || SchedAt(cbs, queues[j], current)) ensures SchedAt(cbs', queues[j], current) {
      assert QueueAt(cbs, queues[j].events, j);
      assert TimerAt(cbs[queues[i].timer]);
      if queues[j].events != [] {
        var h := queues[j].events[0];
        assert h in queues[j].events;
        assert h != queues[i].timer;
      }
    }
  }

  lemma AgreeParts(cbs: seq<Cb>, activeq: seq<seq<nat>>, later: seq<nat>, heap: set<nat>, queues: seq<Queue>)
    requires Agree(cbs, activeq, later, heap, queues)
    ensures QueuesOk(cbs, queues) && TimersOk(cbs, queues) && HeapOk(cbs, heap)
  {
  }

  lemma NoneActive(cbs: seq<Cb>, activeq: seq<seq<nat>>, id: nat)
    requires ActiveOk(cbs, activeq) && Total(activeq) == 0 && id < |cbs| && cbs[id].pri < |activeq|
    ensures !cbs[id].active
  {
    TotalZero(activeq, cbs[id].pri);
    assert ActiveAt(cbs, activeq[cbs[id].pri], cbs[id].pri);
  }

  /** Something in the heap is due by time `at`. */
  ghost predicate Covered(cbs: seq<Cb>, heap: set<nat>, at: int) {
    exists t :: t in heap && t < |cbs| && cbs[t].at <= at
  }

  lemma TopCovers(cbs: seq<Cb>, heap: set<nat>, top: nat)
    requires top < |cbs| && forall x :: x in heap ==> x < |cbs| && cbs[top].at <= cbs[x].at
    ensures forall at :: Covered(cbs, heap, at) ==> cbs[top].at <= at
  {
  }

  /** Every pending timeout, common or not, has something in the heap that is no later. */
  lemma HeapCovers(cbs: seq<Cb>, activeq: seq<seq<nat>>, later: seq<nat>, heap: set<nat>, queues: seq<Queue>, current: int, id: nat)
    requires Agree(cbs, activeq, later, heap, queues) && Scheduled(cbs, queues, current)
    requires Total(activeq) == 0 && !IsTimer(queues, current)
    requires id < |cbs| && cbs[id].timeout
    ensures Covered(cbs, heap, cbs[id].at)
  {
    if cbs[id].common < 0 {
      assert id in heap;
    } else {
      var i := cbs[id].common;
      var q := queues[i];
      assert QueueAt(cbs, q.events, i) && SchedAt(cbs, q, current) && TimerAt(cbs[q.timer]);
      var k :| 0 <= k < |q.events| && q.events[k] == id;
      var t := cbs[q.timer];
      NoneActive(cbs, activeq, q.timer);
      assert cbs[q.events[0]].at <= cbs[id].at;
      assert q.timer in heap;
    }
  }

  /** A deadline in the heap passed: if it was a timer's, the timer is now active. */
  lemma SchedExpire(cbs: seq<Cb>, activeq: seq<seq<nat>>, later: seq<nat>, heap: set<nat>, queues: seq<Queue>, id: nat, c: Cb, current: int)
    requires Agree(cbs, activeq, later, heap, queues) && Scheduled(cbs, queues, current)
    requires id in heap && id < |cbs| && c.active
    ensures Scheduled(cbs[id := c], queues, current)
  {
    forall i | 0 <= i < |queues| ensures SchedAt(cbs[id := c], queues[i], current) {
      var q := queues[i];
      assert QueueAt(cbs, q.events, i) && SchedAt(cbs, q, current);
      if q.events != [] { assert q.events[0] in q.events && q.events[0] != id; }
    }
  }

  /** Whether a queue is served without the callback that is being run. */
  lemma SchedAny(cbs: seq<Cb>, q: Queue, current: int)
    ensures SchedAt(cbs, q, -1) ==> SchedAt(cbs, q, current)
    ensures SchedAt(cbs, q, current) && current != q.timer ==> SchedAt(cbs, q, -1)
  {
  }

  /** The first event of a common-timeout queue: pending, and no timer. */
  lemma QueueHead(cbs: seq<Cb>, queues: seq<Queue>, i: nat)
    requires QueuesOk(cbs, queues) && TimersOk(cbs, queues) && i < |queues| && queues[i].events != []
    ensures var id := queues[i].events[0];
      id < |cbs| && cbs[id].timeout && cbs[id].common == i && !IsTimer(queues, id)
      && Without(queues[i].events, id) == queues[i].events[1..]
  {
    var id := queues[i].events[0];
    assert QueueAt(cbs, queues[i].events, i);
    assert id in queues[i].events;
    forall j | 0 <= j < |queues| ensures queues[j].timer != id {
      assert TimerAt(cbs[queues[j].timer]);
    }
  }

  lemma QueueDistinct(cbs: seq<Cb>, queues: seq<Queue>, i: nat)
    requires QueuesOk(cbs, queues) && i < |queues|
    ensures NoDup(queues[i].events) && Sorted(cbs, queues[i].events)
  {
    assert QueueAt(cbs, queues[i].events, i);
  }

  /** Only queue `i` had nothing but the running callback to serve it. */
  lemma SchedOthers(cbs: seq<Cb>, queues: seq<Queue>, i: nat, current: int)
    requires Scheduled(cbs, queues, current) && TimersOk(cbs, queues) && i < |queues| && current == queues[i].timer
    requires SchedAt(cbs, queues[i], -1)
    ensures Scheduled(cbs, queues, -1)
  {
    forall j | 0 <= j < |queues| ensures SchedAt(cbs, queues[j], -1) {
      assert SchedAt(cbs, queues[j], current);
      SchedAny(cbs, queues[j], current);
      if j < i { assert queues[j].timer != queues[i].timer; } else if i < j { assert queues[i].timer != queues[j].timer; }
    }
  }

  /** A timer was taken from the active queue to be run. */
  lemma SchedRunning(cbs: seq<Cb>, queues: seq<Queue>, id: nat, c: Cb)
    requires Scheduled(cbs, queues, -1) && id < |cbs| && QueuesOk(cbs, queues) && cbs[id].common < 0
    ensures Scheduled(cbs[id := c], queues, id)
  {
    forall i | 0 <= i < |queues| ensures SchedAt(cbs[id := c], queues[i], id) {
      var q := queues[i];
      assert QueueAt(cbs, q.events, i) && SchedAt(cbs, q, -1);
      if q.events != [] { assert q.events[0] in q.events && q.events[0] != id; }
    }
  }

  lemma SchedCurrent(cbs: seq<Cb>, queues: seq<Queue>, current: int)
    ensures Scheduled(cbs, queues, -1) ==> Scheduled(cbs, queues, current)
    ensures Scheduled(cbs, queues, current) && !IsTimer(queues, current) ==> Scheduled(cbs, queues, -1)
  {
    forall i | 0 <= i < |queues|
      ensures SchedAt(cbs, queues[i], -1) ==> SchedAt(cbs, queues[i], current)
      ensures SchedAt(cbs, queues[i], current) && !IsTimer(queues, current) ==> SchedAt(cbs, queues[i], -1)
    {
      SchedAny(cbs, queues[i], current);
    }
  }

  lemma ActiveHead(cbs: seq<Cb>, activeq: seq<seq<nat>>, p: nat)
    requires ActiveOk(cbs, activeq) && p < |activeq| && activeq[p] != []
    ensures var id := activeq[p][0]; id < |cbs| && cbs[id].active && cbs[id].pri == p && Without(activeq[p], id) == activeq[p][1..]
  {
    assert ActiveAt(cbs, activeq[p], p);
    assert activeq[p][0] in activeq[p];
  }

  /** A callback that is in no queue joins the base. */
  lemma AgreeSnoc(cbs: seq<Cb>, c: Cb, activeq: seq<seq<nat>>, later: seq<nat>, heap: set<nat>, queues: seq<Queue>)
    requires Agree(cbs, activeq, later, heap, queues) && c == Cleared(c) && FlagsAt(c, |activeq|, |queues|)
    ensures Agree(cbs + [c], activeq, later, heap, queues)
  {
    var cbs' := cbs + [c];
    forall p | 0 <= p < |activeq| ensures ActiveAt(cbs', activeq[p], p) { assert ActiveAt(cbs, activeq[p], p); }
    forall i | 0 <= i < |queues| ensures QueueAt(cbs', queues[i].events, i) {
      assert QueueAt(cbs, queues[i].events, i);
    }
  }

  lemma SchedSnoc(cbs: seq<Cb>, c: Cb, queues: seq<Queue>, current: int)
    requires Scheduled(cbs, queues, current)
    ensures Scheduled(cbs + [c], queues, current)
  {
    forall i | 0 <= i < |queues| ensures SchedAt(cbs + [c], queues[i], current) { assert SchedAt(cbs, queues[i], current); }
  }

  /** A new, empty common-timeout queue. */
  lemma AgreeNewQueue(cbs: seq<Cb>, activeq: seq<seq<nat>>, later: seq<nat>, heap: set<nat>, queues: seq<Queue>, q: Queue)
    requires Agree(cbs, activeq, later, heap, queues)
    requires q.events == [] && q.timer < |cbs| && TimerAt(cbs[q.timer]) && !IsTimer(queues, q.timer)
    ensures Agree(cbs, activeq, later, heap, queues + [q])
    ensures forall current :: Scheduled(cbs, queues, current) ==> Scheduled(cbs, queues + [q], current)
  {
    forall i | 0 <= i < |queues + [q]| ensures QueueAt(cbs, (queues + [q])[i].events, i) {
      if i < |queues| {
        assert QueueAt(cbs, queues[i].events, i);
      } else {
        forall id: nat ensures !(id < |cbs| && cbs[id].timeout && cbs[id].common == i) {
          if id < |cbs| { assert FlagsAt(cbs[id], |activeq|, |queues|); }
        }
      }
    }
    forall id | 0 <= id < |cbs| ensures FlagsAt(cbs[id], |activeq|, |queues + [q]|) {
      assert FlagsAt(cbs[id], |activeq|, |queues|);
    }
  }
}
