/**
 * The resolver's requests and nameservers (evdns.c): requests in flight in buckets by
 * transaction id, requests waiting for room, and the ring of servers they are sent to.
 */
module Resolvers {
  import opened Flat
  import opened Wrappers
  import opened Lists

  type TransId = n: nat | n < 0x10000

  /** A request; `ns` is the server it is assigned to, or -1 while it waits. */
  datatype Req = Req(transId: TransId, ns: int, txCount: nat, reissues: nat, transmit: bool)

  datatype Server = Server(up: bool, inflight: int)

  type Reqs = map<nat, Req>

  const NO_ID: TransId := 0xffff

  // ---- lists ----

  ghost predicate InBucket(reqs: Reqs, id: nat, b: nat, n: nat)
    requires n > 0
  {
    id in reqs && reqs[id].ns >= 0 && reqs[id].transId % n == b
  }

  /** A bucket holds exactly the requests in flight whose transaction id leads to it. */
  ghost predicate BucketOk(reqs: Reqs, q: seq<nat>, b: nat, n: nat)
    requires n > 0
  {
    NoDup(q) && forall id: nat :: id in q <==> InBucket(reqs, id, b, n)
  }

  ghost predicate HeadsOk(reqs: Reqs, heads: seq<seq<nat>>) {
    |heads| > 0 && forall b :: 0 <= b < |heads| ==> BucketOk(reqs, heads[b], b, |heads|)
  }

  ghost predicate WaitingOk(reqs: Reqs, waiting: seq<nat>) {
    NoDup(waiting) && forall id: nat :: id in waiting <==> id in reqs && reqs[id].ns < 0
  }

  /** No two requests in flight have the same transaction id. */
  ghost predicate Distinct(reqs: Reqs) {
    forall i: nat, j: nat :: i in reqs && j in reqs && i != j && reqs[i].ns >= 0 && reqs[j].ns >= 0
      ==> reqs[i].transId != reqs[j].transId
  }

  lemma HeadsEnter(reqs: Reqs, heads: seq<seq<nat>>, id: nat, r: Req)
    requires HeadsOk(reqs, heads) && r.ns >= 0 && (id in reqs ==> reqs[id].ns < 0)
    ensures var b := r.transId % |heads|; HeadsOk(reqs[id := r], heads[b := heads[b] + [id]])
  {
    var n := |heads|;
    var c := r.transId % n;
    var heads' := heads[c := heads[c] + [id]];
    forall b | 0 <= b < n ensures BucketOk(reqs[id := r], heads'[b], b, n) {
      assert BucketOk(reqs, heads[b], b, n);
      assert !InBucket(reqs, id, b, n);
      if b == c { NoDupSnoc(heads[b], id); }
    }
  }

  lemma HeadsLeave(reqs: Reqs, heads: seq<seq<nat>>, id: nat)
    requires HeadsOk(reqs, heads) && id in reqs && reqs[id].ns >= 0
    ensures var b := reqs[id].transId % |heads|;
      HeadsOk(reqs - {id}, heads[b := Without(heads[b], id)]) && |Without(heads[b], id)| == |heads[b]| - 1
  {
    var n := |heads|;
    var c := reqs[id].transId % n;
    var heads' := heads[c := Without(heads[c], id)];
    assert BucketOk(reqs, heads[c], c, n) && InBucket(reqs, id, c, n);
    WithoutMembers(heads[c], id);
    forall b | 0 <= b < n ensures BucketOk(reqs - {id}, heads'[b], b, n) {
      assert BucketOk(reqs, heads[b], b, n);
    }
  }

  /** A change that keeps a request's transaction id and whether it is in flight. */
  lemma HeadsKeep(reqs: Reqs, heads: seq<seq<nat>>, id: nat, r: Req)
    requires HeadsOk(reqs, heads)
    requires (id in reqs && reqs[id].ns >= 0) <==> r.ns >= 0
    requires r.ns >= 0 ==> r.transId == reqs[id].transId
    ensures HeadsOk(reqs[id := r], heads)
  {
    forall b | 0 <= b < |heads| ensures BucketOk(reqs[id := r], heads[b], b, |heads|) {
      assert BucketOk(reqs, heads[b], b, |heads|);
      assert InBucket(reqs, id, b, |heads|) <==> InBucket(reqs[id := r], id, b, |heads|);
    }
  }

  lemma HeadsDrop(reqs: Reqs, heads: seq<seq<nat>>, id: nat)
    requires HeadsOk(reqs, heads) && id in reqs && reqs[id].ns < 0
    ensures HeadsOk(reqs - {id}, heads)
  {
    forall b | 0 <= b < |heads| ensures BucketOk(reqs - {id}, heads[b], b, |heads|) {
      assert BucketOk(reqs, heads[b], b, |heads|);
      assert !InBucket(reqs, id, b, |heads|);
    }
  }

  lemma WaitingLeave(reqs: Reqs, waiting: seq<nat>, id: nat)
    requires WaitingOk(reqs, waiting) && id in reqs && reqs[id].ns < 0
    ensures WaitingOk(reqs - {id}, Without(waiting, id)) && |Without(waiting, id)| == |waiting| - 1
    ensures forall r: Req :: r.ns >= 0 ==> WaitingOk(reqs[id := r], Without(waiting, id))
  {
    WithoutMembers(waiting, id);
  }

  lemma NotWaiting(reqs: Reqs, waiting: seq<nat>, id: nat)
    requires WaitingOk(reqs, waiting) && id in reqs
    ensures reqs[id].ns >= 0 ==> Without(waiting, id) == waiting
  {
    WithoutAbsent(waiting, id);
  }

  lemma FirstWaiting(reqs: Reqs, waiting: seq<nat>)
    requires WaitingOk(reqs, waiting) && waiting != []
    ensures waiting[0] in reqs && reqs[waiting[0]].ns < 0 && Without(waiting, waiting[0]) == waiting[1..]
  {
    assert waiting[0] in waiting;
  }

  lemma WaitingEnter(reqs: Reqs, waiting: seq<nat>, id: nat, r: Req)
    requires WaitingOk(reqs, waiting) && id !in reqs && r.ns < 0
    ensures WaitingOk(reqs[id := r], waiting + [id])
  {
    NoDupSnoc(waiting, id);
  }

  lemma WaitingKeep(reqs: Reqs, waiting: seq<nat>, id: nat, r: Req)
    requires WaitingOk(reqs, waiting) && r.ns >= 0 && (id in reqs ==> reqs[id].ns >= 0)
    ensures WaitingOk(reqs[id := r], waiting)
    ensures WaitingOk(reqs - {id}, waiting)
  {
  }

  // ---- counts ----

  ghost function Assigned(reqs: Reqs, s: int): (ids: set<nat>) {
    set id | id in reqs && reqs[id].ns == s
  }

  ghost function Flying(reqs: Reqs): (ids: set<nat>) {
    set id | id in reqs && reqs[id].ns >= 0
  }

  lemma AssignedGone(reqs: Reqs, id: nat, s: int)
    ensures |Assigned(reqs - {id}, s)| == |Assigned(reqs, s)| - One(id in reqs && reqs[id].ns == s)
  {
    var rest := Assigned(reqs - {id}, s);
    if id in reqs && reqs[id].ns == s { assert Assigned(reqs, s) == rest + {id}; } else { assert Assigned(reqs, s) == rest; }
  }

  lemma AssignedSet(reqs: Reqs, id: nat, r: Req, s: int)
    ensures |Assigned(reqs[id := r], s)| == |Assigned(reqs, s)| - One(id in reqs && reqs[id].ns == s) + One(r.ns == s)
  {
    hide Assigned;
    AssignedGone(reqs, id, s);
    AssignedGone(reqs[id := r], id, s);
    assert reqs[id := r] - {id} == reqs - {id};
  }

  lemma FlyingGone(reqs: Reqs, id: nat)
    ensures |Flying(reqs - {id})| == |Flying(reqs)| - One(id in reqs && reqs[id].ns >= 0)
  {
    var rest := Flying(reqs - {id});
    if id in reqs && reqs[id].ns >= 0 { assert Flying(reqs) == rest + {id}; } else { assert Flying(reqs) == rest; }
  }

  lemma FlyingSet(reqs: Reqs, id: nat, r: Req)
    ensures |Flying(reqs[id := r])| == |Flying(reqs)| - One(id in reqs && reqs[id].ns >= 0) + One(r.ns >= 0)
  {
    hide Flying;
    FlyingGone(reqs, id);
    FlyingGone(reqs[id := r], id);
    assert reqs[id := r] - {id} == reqs - {id};
  }

  /** Every server's counter is the number of requests assigned to it. */
  ghost predicate ServersOk(reqs: Reqs, servers: seq<Server>) {
    && (forall s :: 0 <= s < |servers| ==> servers[s].inflight == |Assigned(reqs, s)|)
    && (forall id :: id in reqs ==> reqs[id].ns < |servers|)
  }

  ghost function CountUp(servers: seq<Server>, ring: seq<nat>): (n: nat) {
    if ring == [] then 0 else One(ring[0] < |servers| && servers[ring[0]].up) + CountUp(servers, ring[1..])
  }

  ghost predicate RingOk(servers: seq<Server>, ring: seq<nat>) {
    NoDup(ring) && forall i :: 0 <= i < |ring| ==> ring[i] < |servers|
  }

  // ---- a free transaction id ----

  ghost function Used(reqs: Reqs, ids: set<nat>): (s: set<nat>) {
    set id | id in ids && id in reqs :: reqs[id].transId
  }

  lemma {:induction false} UsedFew(reqs: Reqs, ids: set<nat>)
    ensures |Used(reqs, ids)| <= |ids|
    decreases ids
  {
    if ids != {} {
      assert (forall y :: y !in ids) ==> ids == {};
      var x :| x in ids;
      var rest := ids - {x};
      UsedFew(reqs, rest);
      assert ids == rest + {x};
      assert Used(reqs, ids) <= Used(reqs, rest) + if x in reqs then {reqs[x].transId} else {};
      SubsetFew(Used(reqs, ids), Used(reqs, rest) + if x in reqs then {reqs[x].transId} else {});
    } else {
      assert Used(reqs, ids) == {};
    }
  }

  predicate Unused(reqs: Reqs, t: nat) {
    t != NO_ID && forall id :: id in reqs && reqs[id].ns >= 0 ==> reqs[id].transId != t
  }

  /** With fewer requests in flight than there are transaction ids, one is free. */
  lemma FreeId(reqs: Reqs)
    requires |Flying(reqs)| < 0xffff
    ensures exists t: TransId :: Unused(reqs, t)
  {
    UsedFew(reqs, Flying(reqs));
    var free := Below(0xffff) - Used(reqs, Flying(reqs));
    if free == {} {
      SubsetFew(Below(0xffff), Used(reqs, Flying(reqs)));
    }
    assert (forall y :: y !in free) ==> free == {};
    var t :| t in free;
    assert Unused(reqs, t);
  }

  // ---- choosing a server ----

  function FirstUp(servers: seq<Server>, ring: seq<nat>): (j: nat)
    ensures j <= |ring|
    ensures forall i :: 0 <= i < j ==> !(ring[i] < |servers| && servers[ring[i]].up)
    ensures j < |ring| ==> ring[j] < |servers| && servers[ring[j]].up
  {
    if ring == [] then 0 else if ring[0] < |servers| && servers[ring[0]].up then 0 else 1 + FirstUp(servers, ring[1..])
  }

  /** The ring after its first `j` servers were passed over. */
  function Turned(ring: seq<nat>, j: nat): (r: seq<nat>)
    requires j <= |ring|
  {
    ring[j..] + ring[..j]
  }

  lemma {:induction false} CountUpConcat(servers: seq<Server>, a: seq<nat>, b: seq<nat>)
    ensures CountUp(servers, a + b) == CountUp(servers, a) + CountUp(servers, b)
  {
    if a == [] {
      assert a + b == b;
    } else {
      assert (a + b)[1..] == a[1..] + b;
      CountUpConcat(servers, a[1..], b);
    }
  }

  lemma TurnedOk(servers: seq<Server>, ring: seq<nat>, j: nat)
    requires j <= |ring| && RingOk(servers, ring)
    ensures RingOk(servers, Turned(ring, j)) && CountUp(servers, Turned(ring, j)) == CountUp(servers, ring)
  {
    assert ring == ring[..j] + ring[j..];
    CountUpConcat(servers, ring[..j], ring[j..]);
    CountUpConcat(servers, ring[j..], ring[..j]);
  }

  lemma {:induction false} SomeUp(servers: seq<Server>, ring: seq<nat>)
    ensures CountUp(servers, ring) > 0 <==> FirstUp(servers, ring) < |ring|
  {
    if ring != [] { SomeUp(servers, ring[1..]); }
  }

  /** The servers that are up, in the order of the ring. */
  ghost function Ups(servers: seq<Server>, ring: seq<nat>): (r: seq<nat>) {
    if ring == [] then [] else (if ring[0] < |servers| && servers[ring[0]].up then [ring[0]] else []) + Ups(servers, ring[1..])
  }

  /** What `m` calls of nameserver_pick return while no server changes state. */
  ghost function Picks(servers: seq<Server>, ring: seq<nat>, m: nat): (r: seq<nat>)
    decreases m
  {
    var j := FirstUp(servers, ring);
    if m == 0 || j == |ring| then [] else [ring[j]] + Picks(servers, Turned(ring, j + 1), m - 1)
  }

  /** The ring after `m` calls. */
  ghost function PicksLeave(servers: seq<Server>, ring: seq<nat>, m: nat): (r: seq<nat>)
    decreases m
  {
    var j := FirstUp(servers, ring);
    if m == 0 || j == |ring| then ring else PicksLeave(servers, Turned(ring, j + 1), m - 1)
  }

  lemma {:induction false} PicksSnoc(servers: seq<Server>, ring: seq<nat>, m: nat)
    ensures var r := PicksLeave(servers, ring, m); var j := FirstUp(servers, r);
      j < |r| ==> Picks(servers, ring, m + 1) == Picks(servers, ring, m) + [r[j]] && PicksLeave(servers, ring, m + 1) == Turned(r, j + 1)
    decreases m
  {
    hide Turned, FirstUp;
    var j := FirstUp(servers, ring);
    if m > 0 && j < |ring| {
      PicksSnoc(servers, Turned(ring, j + 1), m - 1);
    }
  }

  lemma {:induction false} FirstUpSame(servers: seq<Server>, servers': seq<Server>, ring: seq<nat>)
    requires |servers'| == |servers| && forall s :: 0 <= s < |servers| ==> servers'[s].up == servers[s].up
    ensures FirstUp(servers', ring) == FirstUp(servers, ring)
  {
    if ring != [] { FirstUpSame(servers, servers', ring[1..]); }
  }

  lemma {:induction false} UpsSplit(servers: seq<Server>, ring: seq<nat>)
    ensures var j := FirstUp(servers, ring);
      Ups(servers, ring) == if j == |ring| then [] else [ring[j]] + Ups(servers, ring[j + 1..])
  {
    if ring != [] && !(ring[0] < |servers| && servers[ring[0]].up) {
      var t := ring[1..];
      UpsSplit(servers, t);
      assert Ups(servers, ring) == Ups(servers, t);
      var j := FirstUp(servers, t);
      assert FirstUp(servers, ring) == j + 1;
      if j < |t| { assert t[j + 1..] == ring[j + 2..] && ring[j + 1] == t[j]; }
    }
  }

  lemma {:induction false} FirstUpPrefix(servers: seq<Server>, a: seq<nat>, b: seq<nat>)
    requires FirstUp(servers, a) < |a|
    ensures FirstUp(servers, a + b) == FirstUp(servers, a)
  {
    assert (a + b)[1..] == a[1..] + b;
    if FirstUp(servers, a) > 0 { FirstUpPrefix(servers, a[1..], b); }
  }

  lemma {:induction false} PicksInOrder(servers: seq<Server>, rest: seq<nat>, done: seq<nat>, m: nat)
    requires m <= |Ups(servers, rest)|
    ensures Picks(servers, rest + done, m) == Ups(servers, rest)[..m]
    decreases m
  {
    UpsSplit(servers, rest);
    if m > 0 {
      var j := FirstUp(servers, rest);
      FirstUpPrefix(servers, rest, done);
      var ring := rest + done;
      assert ring[j] == rest[j];
      assert Turned(ring, j + 1) == rest[j + 1..] + (done + rest[..j + 1]);
      PicksInOrder(servers, rest[j + 1..], done + rest[..j + 1], m - 1);
      assert Ups(servers, rest)[..m] == [rest[j]] + Ups(servers, rest[j + 1..])[..m - 1];
    }
  }

  lemma {:induction false} UpsMembers(servers: seq<Server>, ring: seq<nat>)
    requires RingOk(servers, ring)
    ensures |Ups(servers, ring)| == CountUp(servers, ring) && NoDup(Ups(servers, ring))
    ensures forall s: nat :: s in Ups(servers, ring) <==> s in ring && s < |servers| && servers[s].up
  {
    if ring != [] {
      assert ring == [ring[0]] + ring[1..];
      UpsMembers(servers, ring[1..]);
      var t := Ups(servers, ring[1..]);
      assert ring[0] !in ring[1..];
      if servers[ring[0]].up { NoDupCons(ring[0], t); } else { assert [] + t == t; }
    }
  }

  /** From any point on, as many picks as there are servers up return each of them exactly once. */
  lemma PicksFair(servers: seq<Server>, ring: seq<nat>)
    requires RingOk(servers, ring)
    ensures var picks := Picks(servers, ring, CountUp(servers, ring));
      && |picks| == CountUp(servers, ring) && NoDup(picks)
      && forall s: nat :: s in picks <==> s in ring && s < |servers| && servers[s].up
  {
    UpsMembers(servers, ring);
    assert ring + [] == ring;
    var n := CountUp(servers, ring);
    PicksInOrder(servers, ring, [], n);
    assert Ups(servers, ring)[..n] == Ups(servers, ring);
  }

  lemma ServersSet(reqs: Reqs, servers: seq<Server>, id: nat, r: Req, servers': seq<Server>)
    requires ServersOk(reqs, servers) && |servers'| == |servers| && r.ns < |servers|
    requires forall s :: 0 <= s < |servers| ==>
      servers'[s].inflight == servers[s].inflight - One(id in reqs && reqs[id].ns == s) + One(r.ns == s)
    ensures ServersOk(reqs[id := r], servers')
  {
    hide Assigned;
    forall s | 0 <= s < |servers| ensures servers'[s].inflight == |Assigned(reqs[id := r], s)| { AssignedSet(reqs, id, r, s); }
  }

  lemma ServersGone(reqs: Reqs, servers: seq<Server>, id: nat, servers': seq<Server>)
    requires ServersOk(reqs, servers) && |servers'| == |servers|
    requires forall s :: 0 <= s < |servers| ==> servers'[s].inflight == servers[s].inflight - One(id in reqs && reqs[id].ns == s)
    ensures ServersOk(reqs - {id}, servers')
  {
    hide Assigned;
    forall s | 0 <= s < |servers| ensures servers'[s].inflight == |Assigned(reqs - {id}, s)| { AssignedGone(reqs, id, s); }
  }

  /** The counters do not matter to who is up. */
  lemma {:induction false} CountUpSame(servers: seq<Server>, servers': seq<Server>, ring: seq<nat>)
    requires |servers'| == |servers| && forall s :: 0 <= s < |servers| ==> servers'[s].up == servers[s].up
    ensures CountUp(servers', ring) == CountUp(servers, ring)
  {
    if ring != [] { CountUpSame(servers, servers', ring[1..]); }
  }

  ghost predicate Flown(reqs: Reqs, heads: seq<seq<nat>>, n: int) {
    n == Total(heads) == |Flying(reqs)|
  }

  /** One more request in flight. */
  lemma Launched(reqs: Reqs, heads: seq<seq<nat>>, id: nat, r: Req, n: int)
    requires HeadsOk(reqs, heads) && Distinct(reqs) && Flown(reqs, heads, n)
    requires r.ns >= 0 && Unused(reqs, r.transId) && (id in reqs ==> reqs[id].ns < 0)
    ensures var b := r.transId % |heads|;
      var heads' := heads[b := heads[b] + [id]];
      HeadsOk(reqs[id := r], heads') && Distinct(reqs[id := r]) && Flown(reqs[id := r], heads', n + 1)
  {
    var b := r.transId % |heads|;
    HeadsEnter(reqs, heads, id, r);
    TotalUpdate(heads, b, heads[b] + [id]);
    FlyingSet(reqs, id, r);
  }

  lemma Landed(reqs: Reqs, heads: seq<seq<nat>>, id: nat, n: int)
    requires HeadsOk(reqs, heads) && Distinct(reqs) && Flown(reqs, heads, n) && id in reqs && reqs[id].ns >= 0
    ensures var b := reqs[id].transId % |heads|;
      var heads' := heads[b := Without(heads[b], id)];
      HeadsOk(reqs - {id}, heads') && Distinct(reqs - {id}) && Flown(reqs - {id}, heads', n - 1)
  {
    var b := reqs[id].transId % |heads|;
    HeadsLeave(reqs, heads, id);
    TotalUpdate(heads, b, Without(heads[b], id));
    FlyingGone(reqs, id);
  }

  class Resolver {
    var reqs: Reqs
    var heads: seq<seq<nat>>
    var waiting: seq<nat>
    var servers: seq<Server>
    var ring: seq<nat>        // the servers in use, from server_head on
    var good: int
    var inflight: int
    var nwaiting: int
    var maxInflight: int

    constructor ()
      ensures Valid() && reqs == map[] && ring == []
    {
      reqs, heads, waiting := map[], seq(13, b => []), [];
      servers, ring, good, inflight, nwaiting, maxInflight := [], [], 0, 0, 0, 64;
      new;
      assert Flying(reqs) == {};
      AllEmpty(heads);
    }

    /** Lists, counters and assignments agree, and transaction ids in flight are distinct. */
    ghost predicate Valid()
      reads this
    {
      && HeadsOk(reqs, heads) && WaitingOk(reqs, waiting) && Distinct(reqs)
      && Flown(reqs, heads, inflight) && nwaiting == |waiting| && 1 <= maxInflight <= 0xffff
      && ServersOk(reqs, servers) && RingOk(servers, ring) && good == CountUp(servers, ring)
    }

    /** request_find_from_trans_id: searching one bucket is searching everything in flight. */
    method Find(t: TransId) returns (r: int)
      requires Valid()
      ensures r >= 0 ==> r in reqs && reqs[r].ns >= 0 && reqs[r].transId == t
      ensures r < 0 <==> forall id :: id in reqs && reqs[id].ns >= 0 ==> reqs[id].transId != t
    {
      var b := t % |heads|;
      var q := heads[b];
      assert BucketOk(reqs, q, b, |heads|);
      for i := 0 to |q|
        invariant forall k :: 0 <= k < i ==> q[k] in reqs && reqs[q[k]].transId != t
      {
        assert q[i] in q;
        if reqs[q[i]].transId == t { return q[i]; }
      }
      forall id | id in reqs && reqs[id].ns >= 0 ensures reqs[id].transId != t {
        if reqs[id].transId == t { assert InBucket(reqs, id, b, |heads|); }
      }
      return -1;
    }

    /** transaction_id_pick's loop: the first draw that is an id and is not in flight. */
    method FirstFree(draws: seq<TransId>) returns (t: TransId, ghost k: nat)
      requires Valid() && exists i :: 0 <= i < |draws| && Unused(reqs, draws[i])
      ensures k < |draws| && t == draws[k] && Unused(reqs, t)
      ensures forall i :: 0 <= i < k ==> !Unused(reqs, draws[i])
    {
      hide Valid;
      var j := 0;
      while true
        invariant 0 <= j < |draws| && (forall i :: 0 <= i < j ==> !Unused(reqs, draws[i]))
        invariant exists i :: j <= i < |draws| && Unused(reqs, draws[i])
        decreases |draws| - j
      {
        if draws[j] != NO_ID {
          var r := Find(draws[j]);
          if r < 0 { return draws[j], j; }
        }
        j := j + 1;
      }
    }

    /** transaction_id_pick: whatever is drawn, an id that is free comes up. */
    method PickId() returns (t: TransId)
      requires Valid() && inflight < 0xffff
      ensures Unused(reqs, t) && t != 0xffff && forall id :: id in reqs && reqs[id].ns >= 0 ==> reqs[id].transId != t
    {
      FreeId(reqs);
      var draws: seq<TransId> := *;
      var free: TransId :| Unused(reqs, free);
      assert (draws + [free])[|draws|] == free;
      ghost var k;
      t, k := FirstFree(draws + [free]);
    }

    /** nameserver_pick: the next server that is up, or the next of all if none is; -1 without servers. */
    method Pick() returns (ns: int)
      requires Valid()
      modifies this`ring
      ensures Valid() && |ring| == |old(ring)| && (forall s :: s in ring <==> s in old(ring))
      ensures old(ring) == [] ==> ns == -1
      ensures old(ring) != [] ==> 0 <= ns < |servers| && ns in ring
      ensures old(ring) != [] && good == 0 ==> ring == old(ring)[1..] + old(ring)[..1] && ns == ring[0]
      ensures good > 0 ==> var j := FirstUp(servers, old(ring));
        j < |old(ring)| && ns == old(ring)[j] && servers[ns].up && ring == old(ring)[j + 1..] + old(ring)[..j + 1]
    {
      hide HeadsOk, WaitingOk, Distinct, Flown, ServersOk;
      if ring == [] { return -1; }
      if good == 0 {
        TurnedOk(servers, ring, 1);
        ring := Turned(ring, 1);
        return ring[0];
      }
      SomeUp(servers, ring);
      TurnedOk(servers, ring, FirstUp(servers, ring) + 1);
      ghost var before := ring;
      ns, ring := NextUp(servers, ring);
      TurnedMembers(before, FirstUp(servers, before) + 1);
    }

    /** Puts a new or a waiting request in flight. */
    method Launch(id: nat, r: Req)
      requires Valid() && 0 <= r.ns < |servers| && Unused(reqs, r.transId) && (id in reqs ==> reqs[id].ns < 0)
      modifies this`reqs, this`heads, this`waiting, this`servers, this`inflight, this`nwaiting
      ensures Valid() && reqs == old(reqs)[id := r] && inflight == old(inflight) + 1 && |heads| == |old(heads)| > 0
      ensures var b := r.transId % |heads|; heads == old(heads)[b := old(heads)[b] + [id]]
      ensures waiting == (if id in old(reqs) then Without(old(waiting), id) else old(waiting))
      ensures |servers| == |old(servers)| && forall s :: 0 <= s < |servers| ==> servers[s].up == old(servers)[s].up
    {
      hide HeadsOk, Distinct, Flown, ServersOk, CountUp, Unused, WaitingOk, RingOk, Without;
      Launched(reqs, heads, id, r, inflight);
      ghost var servers' := servers[r.ns := servers[r.ns].(inflight := servers[r.ns].inflight + 1)];
      ServersSet(reqs, servers, id, r, servers');
      CountUpSame(servers, servers', ring);
      RingSame(servers, servers', ring);
      HeadsSome(reqs, heads);
      if id in reqs {
        WaitingLeave(reqs, waiting, id);
        waiting, nwaiting := Without(waiting, id), nwaiting - 1;
      } else {
        WaitingKeep(reqs, waiting, id, r);
      }
      servers := servers[r.ns := servers[r.ns].(inflight := servers[r.ns].inflight + 1)];
      inflight := inflight + 1;
      reqs := reqs[id := r];
      var b := r.transId % |heads|;
      heads := heads[b := heads[b] + [id]];
    }

    /** request_new and request_submit: in flight if there is room and a server, else at the end of the queue. */
    method Submit(id: nat)
      requires Valid() && id !in reqs
      modifies this`reqs, this`heads, this`waiting, this`servers, this`ring, this`inflight, this`nwaiting
      ensures Valid() && id in reqs && reqs == old(reqs)[id := reqs[id]]
      ensures reqs[id].ns >= 0 <==> old(inflight) < maxInflight && old(ring) != []
      ensures reqs[id].ns >= 0 ==> Unused(old(reqs), reqs[id].transId)
      ensures reqs[id].ns >= 0 ==> inflight == old(inflight) + 1 && waiting == old(waiting)
      ensures reqs[id].ns >= 0 && good > 0 ==> var j := FirstUp(old(servers), old(ring));
        j < |old(ring)| && reqs[id].ns == old(ring)[j] && ring == old(ring)[j + 1..] + old(ring)[..j + 1]
      ensures reqs[id].ns >= 0 && good == 0 ==> ring == old(ring)[1..] + old(ring)[..1] && reqs[id].ns == ring[0]
      ensures reqs[id].ns < 0 ==> waiting == old(waiting) + [id] && heads == old(heads) && ring == old(ring) && inflight == old(inflight)
      ensures reqs[id].txCount == 0 && reqs[id].reissues == 0 && !reqs[id].transmit
      ensures old(inflight) >= maxInflight ==> reqs[id].transId == 0xffff
      ensures SameStates(old(servers), servers)
    {
      hide HeadsOk, Distinct, Flown, ServersOk, CountUp, Unused, RingOk;
      var t := NO_ID;
      var ns := -1;
      if inflight < maxInflight {
        t := PickId();
        ns := Pick();
      }
      var r := Req(t, ns, 0, 0, false);
      if ns >= 0 {
        Launch(id, r);
      } else {
        WaitingEnter(reqs, waiting, id, r);
        Parked(reqs, heads, servers, id, r, inflight);
        reqs, waiting, nwaiting := reqs[id := r], waiting + [id], nwaiting + 1;
      }
    }

    /**
     * evdns_requests_pump_waiting_queue: afterwards there is no room, nothing waits, or no server is
     * known. The first `k` waiting requests got a server and an id; nothing else about any request changed.
     */
    method Pump() returns (ghost k: nat)
      requires Valid()
      modifies this`reqs, this`heads, this`waiting, this`servers, this`ring, this`inflight, this`nwaiting
      ensures Valid() && (inflight >= maxInflight || nwaiting == 0 || ring == [])
      ensures k <= |old(waiting)| && waiting == old(waiting)[k..] && inflight == old(inflight) + k
      ensures Promoted(old(reqs), old(waiting)[..k], reqs) && SameStates(old(servers), servers)
      ensures good > 0 ==> Served(old(servers), old(ring), old(waiting)[..k], reqs)
    {
      hide Valid, Promoted, Served, PicksLeave, FirstUp, Picks;
      ghost var before, reqs0, servers0, ring0 := waiting, reqs, servers, ring;
      k := 0;
      PromotedNone(reqs, before);
      ServedNone(servers, ring, before, reqs);
      WaitingCount();
      while inflight < maxInflight && nwaiting > 0
        invariant 0 <= k <= |before| && waiting == before[k..] && inflight == old(inflight) + k && nwaiting == |waiting|
        invariant Valid() && Promoted(reqs0, before[..k], reqs) && SameStates(servers0, servers)
        invariant good > 0 ==> ring == PicksLeave(servers0, ring0, k) && Served(servers0, ring0, before[..k], reqs)
        decreases nwaiting
      {
        ghost var reqs1, ring1 := reqs, ring;
        FirstUpSame(servers0, servers, ring);
        var id := PumpOne();
        if id < 0 { return; }
        assert id == before[k] && id !in before[..k];
        if good > 0 { ServedStep(servers0, ring0, before[..k], reqs1, id, reqs, ring1, ring); }
        PromotedStep(reqs0, before[..k], reqs1, id, reqs);
        assert before[..k + 1] == before[..k] + [id];
        DropDrop(before, k, 1);
        k := k + 1;
      }
    }

    /**
     * New requests, with room for all of them, take turns: as many as there are servers up go to
     * different ones, and so to each of these.
     */
    method SubmitAll(ids: seq<nat>)
      requires Valid() && NoDup(ids) && inflight + |ids| <= maxInflight && good > 0
      requires forall i :: 0 <= i < |ids| ==> ids[i] !in reqs
      modifies this`reqs, this`heads, this`waiting, this`servers, this`ring, this`inflight, this`nwaiting
      ensures Valid() && waiting == old(waiting) && SameStates(old(servers), servers) && good == old(good)
      ensures forall id :: id in reqs <==> id in old(reqs) || id in ids
      ensures Served(old(servers), old(ring), ids, reqs)
      ensures |ids| == good ==>
        && (forall i :: 0 <= i < |ids| ==> ids[i] in reqs && IsUp(servers, reqs[ids[i]].ns))
        && (forall i, j :: 0 <= i < j < |ids| ==> ids[i] in reqs && ids[j] in reqs && reqs[ids[i]].ns != reqs[ids[j]].ns)
    {
      hide Valid, Served, PicksLeave, FirstUp, Picks, Unused;
      ghost var servers0, ring0, good0 := servers, ring, good;
      GoodServers();
      ServedNone(servers, ring, ids, reqs);
      for k := 0 to |ids|
        invariant Valid() && waiting == old(waiting) && SameStates(servers0, servers) && inflight == old(inflight) + k
        invariant ring == PicksLeave(servers0, ring0, k) && ring != [] && Served(servers0, ring0, ids[..k], reqs)
        invariant forall id :: id in reqs <==> id in old(reqs) || id in ids[..k]
      {
        ghost var reqs1, ring1 := reqs, ring;
        FirstUpSame(servers0, servers, ring);
        assert ids[k] !in ids[..k];
        Submit(ids[k]);
        ServedStep(servers0, ring0, ids[..k], reqs1, ids[k], reqs, ring1, ring);
        assert ids[..k + 1] == ids[..k] + [ids[k]];
      }
      assert ids[..|ids|] == ids;
      if |ids| == good { ServedFairly(servers0, ring0, ids, reqs, servers); }
    }

    lemma GoodServers()
      requires Valid()
      ensures RingOk(servers, ring) && good == CountUp(servers, ring) && (good > 0 ==> ring != [])
    {
    }

    /** One turn of the pump: the first waiting request goes out, unless there is no server. */
    method PumpOne() returns (id: int)
      requires Valid() && inflight < maxInflight && nwaiting > 0 && waiting != []
      modifies this`reqs, this`heads, this`waiting, this`servers, this`ring, this`inflight, this`nwaiting
      ensures Valid() && nwaiting == |waiting| && SameStates(old(servers), servers)
      ensures id < 0 <==> old(ring) == []
      ensures id < 0 ==> reqs == old(reqs) && waiting == old(waiting) && inflight == old(inflight) && ring == []
      ensures id >= 0 ==>
        && id == old(waiting)[0] && waiting == old(waiting)[1..] && inflight == old(inflight) + 1
        && id in old(reqs) && id in reqs && reqs == old(reqs)[id := reqs[id]]
        && reqs[id].ns >= 0 && reqs[id] == old(reqs)[id].(ns := reqs[id].ns, transId := reqs[id].transId)
        && Unused(old(reqs), reqs[id].transId)
      ensures id >= 0 && good > 0 ==> var j := FirstUp(old(servers), old(ring));
        j < |old(ring)| && reqs[id].ns == old(ring)[j] && ring == old(ring)[j + 1..] + old(ring)[..j + 1]
    {
      hide HeadsOk, Distinct, Flown, ServersOk, CountUp, Unused, RingOk, WaitingOk;
      FirstWaiting(reqs, waiting);
      id := waiting[0];
      var ns := Pick();
      if ns < 0 { return -1; }
      var t := PickId();
      Launch(id, reqs[id].(ns := ns, transId := t));
    }

    lemma WaitingCount()
      requires Valid()
      ensures nwaiting == |waiting| && NoDup(waiting)
    {
    }

    /** request_finished: exactly this request is gone, and the queue has been pumped. */
    method Finish(id: nat) returns (ghost k: nat)
      requires Valid() && id in reqs
      modifies this`reqs, this`heads, this`waiting, this`servers, this`ring, this`inflight, this`nwaiting
      ensures Valid() && (inflight >= maxInflight || nwaiting == 0 || ring == [])
      ensures k <= |Without(old(waiting), id)| && waiting == Without(old(waiting), id)[k..]
      ensures Promoted(old(reqs) - {id}, Without(old(waiting), id)[..k], reqs) && SameStates(old(servers), servers)
    {
      hide Valid, Promoted, Without;
      Drop(id);
      k := Pump();
    }

    method Drop(id: nat)
      requires Valid() && id in reqs
      modifies this`reqs, this`heads, this`waiting, this`servers, this`inflight, this`nwaiting
      ensures Valid() && reqs == old(reqs) - {id} && waiting == Without(old(waiting), id) && SameStates(old(servers), servers)
    {
      hide HeadsOk, Distinct, Flown, ServersOk, CountUp, RingOk, WaitingOk, Without;
      var r := reqs[id];
      NotWaiting(reqs, waiting, id);
      HeadsSome(reqs, heads);
      NsInRange(reqs, servers, id);
      if r.ns >= 0 {
        var b := r.transId % |heads|;
        Landed(reqs, heads, id, inflight);
        WaitingKeep(reqs, waiting, id, r);
        ghost var servers' := servers[r.ns := servers[r.ns].(inflight := servers[r.ns].inflight - 1)];
        ServersGone(reqs, servers, id, servers');
        CountUpSame(servers, servers', ring);
        RingSame(servers, servers', ring);
        heads := heads[b := Without(heads[b], id)];
        inflight := inflight - 1;
        servers := servers[r.ns := servers[r.ns].(inflight := servers[r.ns].inflight - 1)];
      } else {
        WaitingLeave(reqs, waiting, id);
        HeadsDrop(reqs, heads, id);
        Unparked(reqs, heads, servers, id, inflight);
        waiting, nwaiting := Without(waiting, id), nwaiting - 1;
      }
      reqs := reqs - {id};
    }

    /** request_swap_ns. */
    method Swap(id: nat, ns: int)
      requires Valid() && id in reqs && reqs[id].ns >= 0 && -1 <= ns < |servers|
      modifies this`reqs, this`servers
      ensures Valid() && reqs == if ns >= 0 then old(reqs)[id := old(reqs)[id].(ns := ns)] else old(reqs)
      ensures |servers| == |old(servers)| && forall s :: 0 <= s < |servers| ==> servers[s].up == old(servers)[s].up
    {
      hide HeadsOk, Distinct, Flown, ServersOk, CountUp, RingOk;
      var r := reqs[id];
      if ns < 0 || r.ns == ns {
        assert reqs[id := reqs[id]] == reqs;
        return;
      }
      NsInRange(reqs, servers, id);
      var less := servers[r.ns := servers[r.ns].(inflight := servers[r.ns].inflight - 1)];
      var more := less[ns := less[ns].(inflight := less[ns].inflight + 1)];
      Swapped(reqs, heads, waiting, servers, id, r.(ns := ns), more, inflight);
      CountUpSame(servers, more, ring);
      RingSame(servers, more, ring);
      servers := more;
      reqs := reqs[id := r.(ns := ns)];
    }
  
    /** request_reissue: false if no other server was found. */
    method Reissue(id: nat) returns (ok: bool)
      requires Valid() && id in reqs && reqs[id].ns >= 0
      modifies this`reqs, this`servers, this`ring
      ensures Valid() && id in reqs && SameStates(old(servers), servers)
      ensures ok <==> reqs[id].ns != old(reqs)[id].ns
      ensures good > 0 ==> var j := FirstUp(old(servers), old(ring));
        j < |old(ring)| && reqs[id].ns == old(ring)[j] && ring == old(ring)[j + 1..] + old(ring)[..j + 1]
      ensures good == 0 && old(ring) != [] ==> ring == old(ring)[1..] + old(ring)[..1] && reqs[id].ns == ring[0]
      ensures ok ==> reqs == old(reqs)[id := old(reqs)[id].(ns := reqs[id].ns, txCount := 0, transmit := true, reissues := old(reqs)[id].reissues + 1)]
      ensures !ok ==> reqs == old(reqs)
    {
      hide HeadsOk, Distinct, Flown, ServersOk, CountUp, RingOk;
      var last := reqs[id].ns;
      var ns := Pick();
      Swap(id, ns);
      if reqs[id].ns == last {
        assert old(reqs)[id := old(reqs)[id]] == old(reqs);
        return false;
      }
      var r := reqs[id].(reissues := reqs[id].reissues + 1, txCount := 0, transmit := true);
      NsInRange(reqs, servers, id);
      Swapped(reqs, heads, waiting, servers, id, r, servers, inflight);
      reqs := reqs[id := r];
      return true;
    }

    /** evdns_nameserver_add_impl_'s change of the list: after the current server. */
    method AddServer() returns (s: nat)
      requires Valid()
      modifies this`servers, this`ring, this`good
      ensures Valid() && s == |old(servers)| && servers == old(servers) + [Server(true, 0)]
      ensures ring == if old(ring) == [] then [s] else [old(ring)[0], s] + old(ring)[1..]
    {
      hide HeadsOk, WaitingOk, Distinct, Flown, ServersOk, RingOk, CountUp;
      s := |servers|;
      var ring' := if ring == [] then [s] else [ring[0], s] + ring[1..];
      Grown(reqs, servers, ring, ring');
      servers := servers + [Server(true, 0)];
      ring := ring';
      good := good + 1;
    }

    /** nameserver_up, with no probe outstanding. */
    method Up(s: nat)
      requires Valid() && s in ring
      modifies this`servers, this`good
      ensures Valid() && s < |old(servers)| && servers == old(servers)[s := old(servers)[s].(up := true)]
    {
      MemberInRange(servers, ring, s);
      if servers[s].up { return; }
      var servers' := servers[s := servers[s].(up := true)];
      CountUpSet(servers, ring, s, true);
      servers := servers';
      good := good + 1;
    }

    /**
     * nameserver_failed: requests on this server that have not been sent yet are moved to servers
     * that are up, if there are any; no other request and no other server changes.
     */
    method Fail(s: nat)
      requires Valid() && s in ring
      modifies this`reqs, this`servers, this`ring, this`good
      ensures Valid() && s < |old(servers)| && SameStates(old(servers)[s := old(servers)[s].(up := false)], servers)
      ensures if old(servers)[s].up && good > 0 then Reassigned(old(reqs), s, servers, reqs) else reqs == old(reqs)
    {
      MemberInRange(servers, ring, s);
      if !servers[s].up { return; }
      CountUpSet(servers, ring, s, false);
      good := good - 1;
      servers := servers[s := servers[s].(up := false)];
      if good == 0 { return; }
      Reassign(s);
    }

    /** One turn of nameserver_failed's walk. */
    method MoveOff(id: nat, s: nat)
      requires Valid() && s < |servers| && !servers[s].up && good > 0 && id in reqs && reqs[id].ns >= 0
      modifies this`reqs, this`servers, this`ring
      ensures Valid() && SameStates(old(servers), servers) && id in reqs
      ensures reqs == old(reqs)[id := old(reqs)[id].(ns := reqs[id].ns)]
      ensures if Unsent(old(reqs), id, s) then IsUp(servers, reqs[id].ns) else reqs == old(reqs)
    {
      hide HeadsOk, Distinct, Flown, ServersOk, CountUp, RingOk, WaitingOk;
      assert reqs[id := reqs[id]] == reqs;
      if reqs[id].txCount == 0 && reqs[id].ns == s {
        var ns := Pick();
        Swap(id, ns);
      }
    }

    /** The walk of nameserver_failed over the requests in flight. */
    method Reassign(s: nat)
      requires Valid() && s < |servers| && !servers[s].up && good > 0
      modifies this`reqs, this`servers, this`ring
      ensures Valid() && SameStates(old(servers), servers) && Reassigned(old(reqs), s, servers, reqs)
    {
      hide Valid, PartlyMoved;
      ghost var before := reqs;
      PartlyStart(before, s, servers);
      for b := 0 to |heads|
        invariant Valid() && SameStates(old(servers), servers) && PartlyMoved(before, s, servers, reqs)
        invariant forall c, m :: 0 <= c < b && 0 <= m < |heads[c]| ==> heads[c][m] in reqs && !Unsent(reqs, heads[c][m], s)
      {
        for k := 0 to |heads[b]|
          invariant Valid() && SameStates(old(servers), servers) && PartlyMoved(before, s, servers, reqs)
          invariant forall c, m :: 0 <= c < b && 0 <= m < |heads[c]| ==> heads[c][m] in reqs && !Unsent(reqs, heads[c][m], s)
          invariant forall m :: 0 <= m < k ==> heads[b][m] in reqs && !Unsent(reqs, heads[b][m], s)
        {
          ListedFlies(b, k);
          ghost var reqs1, servers1 := reqs, servers;
          MoveOff(heads[b][k], s);
          PartlyStep(before, s, servers1, reqs1, heads[b][k], servers, reqs);
        }
      }
      forall id | id in reqs ensures !Unsent(reqs, id, s) {
        if reqs[id].ns >= 0 {
          var b, k := FlyingListed(id);
          assert heads[b][k] == id;
        }
      }
      PartlyAll(before, s, servers, reqs);
    }

    /**
     * evdns_request_transmit: a request that could not be sent now stays marked; one that could not
     * be sent at all fails its server first.
     */
    method Transmit(id: nat, outcome: Sent)
      requires Valid() && id in reqs && reqs[id].ns >= 0 && reqs[id].ns in ring
      modifies this`reqs, this`servers, this`ring, this`good
      ensures Valid() && id in reqs && reqs[id].ns >= 0
      ensures outcome.Later? ==> reqs == old(reqs)[id := old(reqs)[id].(transmit := true)]
      ensures outcome.Done? ==> reqs == old(reqs)[id := old(reqs)[id].(transmit := false, txCount := old(reqs)[id].txCount + 1)]
      ensures !outcome.Broken? ==> servers == old(servers) && ring == old(ring) && good == old(good)
      ensures outcome.Broken? ==> var s := old(reqs)[id].ns;
        && s < |old(servers)| && SameStates(old(servers)[s := old(servers)[s].(up := false)], servers)
        && Broke(old(reqs), id, s, old(servers)[s].up && good > 0, servers, reqs)
    {
      hide HeadsOk, Distinct, Flown, ServersOk, CountUp, RingOk, WaitingOk;
      NsInRange(reqs, servers, id);
      Mark(id, reqs[id].txCount, true);
      if outcome.Later? { return; }
      if outcome.Broken? { Fail(reqs[id].ns); }
      Mark(id, reqs[id].txCount + 1, false);
    }

    method Mark(id: nat, txCount: nat, transmit: bool)
      requires Valid() && id in reqs && reqs[id].ns >= 0
      modifies this`reqs
      ensures Valid() && reqs == old(reqs)[id := old(reqs)[id].(txCount := txCount, transmit := transmit)]
    {
      hide HeadsOk, Distinct, Flown, ServersOk, CountUp, RingOk, WaitingOk;
      var r := reqs[id].(txCount := txCount, transmit := transmit);
      NsInRange(reqs, servers, id);
      Swapped(reqs, heads, waiting, servers, id, r, servers, inflight);
      reqs := reqs[id := r];
    }

    lemma ListedFlies(b: nat, k: nat)
      requires Valid() && b < |heads| && k < |heads[b]|
      ensures heads[b][k] in reqs && reqs[heads[b][k]].ns >= 0
    {
      assert BucketOk(reqs, heads[b], b, |heads|);
      assert heads[b][k] in heads[b];
    }

    lemma FlyingListed(id: nat) returns (b: nat, k: nat)
      requires Valid() && id in reqs && reqs[id].ns >= 0
      ensures b < |heads| && k < |heads[b]| && heads[b][k] == id
    {
      b := reqs[id].transId % |heads|;
      assert BucketOk(reqs, heads[b], b, |heads|) && InBucket(reqs, id, b, |heads|);
      k :| 0 <= k < |heads[b]| && heads[b][k] == id;
    }
  
    /** evdns_base_set_max_requests_inflight: every request in flight moves to its bucket in a table of the new size. */
    method SetMaxInflight(max: int)
      requires Valid() && max <= 0xffff
      modifies this`heads, this`maxInflight
      ensures Valid() && maxInflight == (if max < 1 then 1 else max) && |heads| == (maxInflight + 4) / 5
    {
      var m := if max < 1 then 1 else max;
      var n := (m + 4) / 5;
      var heads' := Rehash(reqs, heads, n);
      FlownAnyway(reqs, heads, heads', inflight);
      heads, maxInflight := heads', m;
    }

    /**
     * evdns_base_clear_nameservers_and_suspend, with no probe outstanding: every request in
     * flight goes in front of those that wait, the last one first.
     */
    method ClearAndSuspend()
      requires Valid()
      modifies this
      ensures Valid() && reqs.Keys == old(reqs).Keys && maxInflight == old(maxInflight)
      ensures old(ring) == [] ==> reqs == old(reqs) && waiting == old(waiting)
      ensures old(ring) != [] ==> ring == [] && inflight == 0 && (forall id :: id in reqs ==> reqs[id].ns < 0)
      ensures old(ring) != [] ==> waiting == Reversed(Together(old(heads))) + old(waiting)
      ensures old(ring) != [] ==> forall id :: id in reqs ==>
        reqs[id] == if old(reqs)[id].ns < 0 then old(reqs)[id] else Req(0, -1, 0, 0, false)
    {
      if ring == [] { return; }
      ring, servers, good := [], [], 0;
      GroundAll(inflight);
      inflight := 0;
      GroundedServers(reqs, heads);
    }

    /** The walk over all buckets. */
    method GroundAll(ghost n0: int)
      requires Grounding(n0)
      modifies this`reqs, this`heads, this`waiting, this`nwaiting
      ensures Grounding(0) && SomeReset(old(reqs), reqs) && forall b :: 0 <= b < |heads| ==> heads[b] == []
      ensures waiting == Reversed(Together(old(heads))) + old(waiting)
    {
      hide HeadsOk, WaitingOk, Distinct, Flown, Reversed;
      ghost var heads0, n := heads, n0;
      assert heads0[..0] == [] && Reversed([]) == [] by { ReversedNil(); }
      for i := 0 to |heads|
        invariant Grounding(n) && SomeReset(old(reqs), reqs) && |heads| == |heads0|
        invariant waiting == Reversed(Together(heads0[..i])) + old(waiting)
        invariant forall b :: 0 <= b < i ==> heads[b] == []
        invariant forall b :: i <= b < |heads| ==> heads[b] == heads0[b]
      {
        n := GroundBucket(i, n);
        TogetherSnoc(heads0, i);
        ReversedConcat(Together(heads0[..i]), heads0[i]);
      }
      AllEmpty(heads);
      assert heads0[..|heads0|] == heads0;
      NoneFlown(reqs, heads, n);
    }

    /** The walk over one bucket. */
    method GroundBucket(i: nat, ghost n: int) returns (ghost n': int)
      requires Grounding(n) && i < |heads|
      modifies this`reqs, this`heads, this`waiting, this`nwaiting
      ensures Grounding(n') && heads == old(heads)[i := []] && SomeReset(old(reqs), reqs)
      ensures waiting == Reversed(old(heads)[i]) + old(waiting)
    {
      hide HeadsOk, WaitingOk, Distinct, Flown;
      n' := n;
      ghost var q, k := heads[i], 0;
      assert q[..0] == [] && old(heads)[i := q] == old(heads);
      while heads[i] != []
        invariant Grounding(n') && SomeReset(old(reqs), reqs) && 0 <= k <= |q| && i < |old(heads)|
        invariant heads == old(heads)[i := q[k..]] && waiting == Reversed(q[..k]) + old(waiting)
        decreases |q| - k
      {
        var id := Ground(i, n');
        n' := n' - 1;
        ReversedSnoc(q[..k], id);
        assert q[..k + 1] == q[..k] + [id] && q[k..][1..] == q[k + 1..];
        k := k + 1;
      }
      assert q[..k] == q;
    }

    /** While requests are taken out of flight, `n` of them are left there. */
    ghost predicate Grounding(n: int)
      reads this
    {
      && HeadsOk(reqs, heads) && WaitingOk(reqs, waiting) && Distinct(reqs)
      && Flown(reqs, heads, n) && nwaiting == |waiting| && 1 <= maxInflight <= 0xffff
    }

    /** The first request of a bucket goes to the front of the waiting queue. */
    method Ground(i: nat, ghost n: int) returns (id: nat)
      requires Grounding(n) && i < |heads| && heads[i] != []
      modifies this`reqs, this`heads, this`waiting, this`nwaiting
      ensures Grounding(n - 1) && id == old(heads)[i][0] && heads == old(heads)[i := old(heads)[i][1..]]
      ensures SomeReset(old(reqs), reqs) && waiting == [id] + old(waiting)
    {
      id := heads[i][0];
      assert BucketOk(reqs, heads[i], i, |heads|);
      assert id in heads[i];
      var r := reqs[id].(txCount := 0, reissues := 0, ns := -1, transId := 0, transmit := false);
      Grounded(reqs, heads, waiting, id, r, n);
      nwaiting := nwaiting + 1;
      waiting := [id] + waiting;
      reqs := reqs[id := r];
      heads := heads[i := heads[i][1..]];
    }
  }

  /** Some requests in flight were reset; nothing else changed. */
  ghost predicate SomeReset(before: Reqs, reqs: Reqs) {
    && reqs.Keys == before.Keys
    && forall id :: id in reqs ==> reqs[id] == before[id] || (before[id].ns >= 0 && reqs[id] == Req(0, -1, 0, 0, false))
  }

  function Together(heads: seq<seq<nat>>): (q: seq<nat>) {
    if heads == [] then [] else Together(heads[..|heads| - 1]) + heads[|heads| - 1]
  }

  lemma TogetherSnoc(heads: seq<seq<nat>>, i: nat)
    requires i < |heads|
    ensures Together(heads[..i + 1]) == Together(heads[..i]) + heads[i]
  {
    assert heads[..i + 1][..i] == heads[..i];
  }

  function Reversed(q: seq<nat>): (r: seq<nat>) {
    if q == [] then [] else [q[|q| - 1]] + Reversed(q[..|q| - 1])
  }

  lemma {:induction false} ReversedAt(q: seq<nat>, i: nat)
    requires i < |q|
    ensures |Reversed(q)| == |q| && Reversed(q)[i] == q[|q| - 1 - i]
  {
    var p := q[..|q| - 1];
    if p != [] { ReversedAt(p, if i > 0 then i - 1 else 0); }
  }

  lemma ReversedSnoc(q: seq<nat>, x: nat)
    ensures Reversed(q + [x]) == [x] + Reversed(q)
  {
    assert (q + [x])[..|q|] == q;
  }

  lemma {:induction false} ReversedConcat(a: seq<nat>, b: seq<nat>)
    ensures Reversed(a + b) == Reversed(b) + Reversed(a)
  {
    if b == [] {
      assert a + b == a;
    } else {
      assert (a + b)[..|a + b| - 1] == a + b[..|b| - 1];
      ReversedConcat(a, b[..|b| - 1]);
    }
  }

  lemma ReversedNil()
    ensures Reversed([]) == []
  {
  }

  lemma NoneFlown(reqs: Reqs, heads: seq<seq<nat>>, n: int)
    requires Flown(reqs, heads, n) && Total(heads) == 0
    ensures Flown(reqs, heads, 0)
  {
  }

  lemma WaitingFront(reqs: Reqs, waiting: seq<nat>, id: nat, r: Req)
    requires WaitingOk(reqs, waiting) && id in reqs && reqs[id].ns >= 0 && r.ns < 0
    ensures WaitingOk(reqs[id := r], [id] + waiting)
  {
    NoDupCons(id, waiting);
  }

  lemma Grounded(reqs: Reqs, heads: seq<seq<nat>>, waiting: seq<nat>, id: nat, r: Req, n: int)
    requires HeadsOk(reqs, heads) && WaitingOk(reqs, waiting) && Distinct(reqs) && Flown(reqs, heads, n)
    requires id in reqs && reqs[id].ns >= 0 && r.ns < 0
    ensures var reqs' := reqs[id := r]; var b := reqs[id].transId % |heads|;
      && HeadsOk(reqs', heads[b := Without(heads[b], id)]) && WaitingOk(reqs', [id] + waiting)
      && Distinct(reqs') && Flown(reqs', heads[b := Without(heads[b], id)], n - 1)
  {
    WaitingFront(reqs, waiting, id, r);
    HeadsSome(reqs, heads);
    hide HeadsOk, WaitingOk, Flying;
    var b := reqs[id].transId % |heads|;
    Landed(reqs, heads, id, n);
    var reqs1 := reqs - {id};
    var heads1 := heads[b := Without(heads[b], id)];
    HeadsKeep(reqs1, heads1, id, r);
    FlyingSet(reqs1, id, r);
    assert reqs1[id := r] == reqs[id := r];
  }

  lemma GroundedServers(reqs: Reqs, heads: seq<seq<nat>>)
    requires HeadsOk(reqs, heads) && forall b :: 0 <= b < |heads| ==> heads[b] == []
    ensures ServersOk(reqs, []) && forall id :: id in reqs ==> reqs[id].ns < 0
  {
    forall id | id in reqs ensures reqs[id].ns < 0 {
      var b := reqs[id].transId % |heads|;
      assert BucketOk(reqs, heads[b], b, |heads|);
      assert InBucket(reqs, id, b, |heads|) <==> reqs[id].ns >= 0;
    }
  }

  /** The two nested loops of evdns_base_set_max_requests_inflight. */
  method Rehash(reqs: Reqs, heads: seq<seq<nat>>, n: nat) returns (heads': seq<seq<nat>>)
    requires HeadsOk(reqs, heads) && n > 0
    ensures HeadsOk(reqs, heads') && |heads'| == n && Total(heads') == Total(heads)
  {
    heads' := seq(n, b => []);
    AllEmpty(heads');
    var left := heads;
    ghost var done: Reqs, rest := map[], reqs;
    for i := 0 to |heads|
      invariant |left| == |heads| && |heads'| == n && Total(left) + Total(heads') == Total(heads)
      invariant HeadsOk(done, heads') && HeadsOk(rest, left) && Halves(reqs, done, rest)
      invariant forall b :: 0 <= b < i ==> left[b] == []
    {
      while left[i] != []
        invariant |left| == |heads| && |heads'| == n && Total(left) + Total(heads') == Total(heads)
        invariant HeadsOk(done, heads') && HeadsOk(rest, left) && Halves(reqs, done, rest)
        invariant forall b :: 0 <= b < i ==> left[b] == []
        decreases |left[i]|
      {
        var id := left[i][0];
        assert BucketOk(rest, left[i], i, |left|);
        assert id in left[i];
        var b := reqs[id].transId % n;
        HeadsLeave(rest, left, id);
        HeadsEnter(done, heads', id, reqs[id]);
        TotalUpdate(left, i, left[i][1..]);
        TotalUpdate(heads', b, heads'[b] + [id]);
        left := left[i := left[i][1..]];
        heads' := heads'[b := heads'[b] + [id]];
        done, rest := done[id := reqs[id]], rest - {id};
      }
    }
    AllEmpty(left);
    AllMoved(reqs, done, rest, left, heads');
  }

  /** The requests in flight are split between two maps. */
  ghost predicate Halves(reqs: Reqs, done: Reqs, rest: Reqs) {
    && (forall id :: id in done ==> id in reqs && done[id] == reqs[id] && id !in rest)
    && (forall id :: id in rest ==> id in reqs && rest[id] == reqs[id])
    && (forall id :: id in reqs ==> id in done || id in rest)
  }

  lemma AllMoved(reqs: Reqs, done: Reqs, rest: Reqs, left: seq<seq<nat>>, heads': seq<seq<nat>>)
    requires Halves(reqs, done, rest) && HeadsOk(done, heads') && HeadsOk(rest, left)
    requires forall b :: 0 <= b < |left| ==> left[b] == []
    ensures HeadsOk(reqs, heads')
  {
    GroundedServers(rest, left);
    forall b | 0 <= b < |heads'| ensures BucketOk(reqs, heads'[b], b, |heads'|) {
      assert BucketOk(done, heads'[b], b, |heads'|);
    }
  }

  lemma FlownAnyway(reqs: Reqs, heads: seq<seq<nat>>, heads': seq<seq<nat>>, n: int)
    requires Flown(reqs, heads, n) && Total(heads') == Total(heads)
    ensures Flown(reqs, heads', n)
  {
  }

  /** How sending a request ended: sent, the socket blocked, or it failed. */
  datatype Sent = Done | Later | Broken

  /** The servers are up or down as before; only counters differ. */
  ghost predicate SameStates(servers: seq<Server>, servers': seq<Server>) {
    |servers'| == |servers| && forall s :: 0 <= s < |servers| ==> servers'[s].up == servers[s].up
  }

  ghost predicate IsUp(servers: seq<Server>, s: int) {
    0 <= s < |servers| && servers[s].up
  }

  /** A request assigned to `s` that has not gone out. */
  ghost predicate Unsent(reqs: Reqs, id: nat, s: nat) {
    id in reqs && reqs[id].ns == s && reqs[id].txCount == 0
  }

  /** The requests `ids` got a server and an id; nothing else changed. */
  ghost predicate Promoted(before: Reqs, ids: seq<nat>, reqs: Reqs) {
    && reqs.Keys == before.Keys
    && (forall id :: id in reqs && id !in ids ==> reqs[id] == before[id])
    && (forall id :: id in reqs && id in ids ==>
          reqs[id].ns >= 0 && reqs[id] == before[id].(ns := reqs[id].ns, transId := reqs[id].transId))
  }

  /** The requests `ids` went to the servers that as many picks in a row return. */
  ghost predicate Served(servers: seq<Server>, ring: seq<nat>, ids: seq<nat>, reqs: Reqs) {
    var picks := Picks(servers, ring, |ids|);
    |picks| == |ids| && forall i :: 0 <= i < |ids| ==> ids[i] in reqs && reqs[ids[i]].ns == picks[i]
  }

  lemma ServedNone(servers: seq<Server>, ring: seq<nat>, ids: seq<nat>, reqs: Reqs)
    ensures Served(servers, ring, ids[..0], reqs) && PicksLeave(servers, ring, 0) == ring
  {
  }

  lemma ServedStep(servers: seq<Server>, ring: seq<nat>, ids: seq<nat>, reqs: Reqs, id: nat, reqs': Reqs, ring1: seq<nat>, ring2: seq<nat>)
    requires Served(servers, ring, ids, reqs) && ring1 == PicksLeave(servers, ring, |ids|) && id !in ids
    requires id in reqs' && reqs' == reqs[id := reqs'[id]]
    requires var j := FirstUp(servers, ring1); j < |ring1| && reqs'[id].ns == ring1[j] && ring2 == ring1[j + 1..] + ring1[..j + 1]
    ensures Served(servers, ring, ids + [id], reqs') && ring2 == PicksLeave(servers, ring, |ids + [id]|)
  {
    hide Picks, PicksLeave, FirstUp;
    PicksSnoc(servers, ring, |ids|);
  }

  lemma ServedFairly(servers: seq<Server>, ring: seq<nat>, ids: seq<nat>, reqs: Reqs, servers': seq<Server>)
    requires RingOk(servers, ring) && |ids| == CountUp(servers, ring) && Served(servers, ring, ids, reqs) && SameStates(servers, servers')
    ensures forall i :: 0 <= i < |ids| ==> ids[i] in reqs && IsUp(servers', reqs[ids[i]].ns)
    ensures forall i, j :: 0 <= i < j < |ids| ==> reqs[ids[i]].ns != reqs[ids[j]].ns
  {
    hide Picks, CountUp;
    PicksFair(servers, ring);
    var picks := Picks(servers, ring, |ids|);
    forall i | 0 <= i < |ids| ensures ids[i] in reqs && IsUp(servers', reqs[ids[i]].ns) {
      assert picks[i] in picks;
    }
  }

  lemma PromotedNone(reqs: Reqs, ids: seq<nat>)
    ensures Promoted(reqs, ids[..0], reqs)
  {
  }

  lemma PromotedStep(before: Reqs, ids: seq<nat>, reqs: Reqs, id: nat, reqs': Reqs)
    requires Promoted(before, ids, reqs) && id in reqs && id in reqs' && reqs' == reqs[id := reqs'[id]]
    requires reqs'[id].ns >= 0 && reqs'[id] == reqs[id].(ns := reqs'[id].ns, transId := reqs'[id].transId)
    ensures Promoted(before, ids + [id], reqs')
  {
  }

  /** Some of the unsent requests of `s` went to servers that are up; nothing else changed. */
  ghost predicate PartlyMoved(before: Reqs, s: nat, servers: seq<Server>, reqs: Reqs) {
    && reqs.Keys == before.Keys
    && forall id :: id in reqs ==>
         reqs[id] == before[id]
         || (Unsent(before, id, s) && IsUp(servers, reqs[id].ns) && reqs[id] == before[id].(ns := reqs[id].ns))
  }

  /** All of them did. */
  ghost predicate Reassigned(before: Reqs, s: nat, servers: seq<Server>, reqs: Reqs) {
    && reqs.Keys == before.Keys
    && forall id :: id in reqs ==>
         if Unsent(before, id, s) then IsUp(servers, reqs[id].ns) && reqs[id] == before[id].(ns := reqs[id].ns)
         else reqs[id] == before[id]
  }

  /** Request `id` was sent on server `s` in vain; if the server failed by that, its unsent requests moved. */
  ghost predicate Broke(before: Reqs, id: nat, s: nat, failed: bool, servers: seq<Server>, reqs: Reqs) {
    && reqs.Keys == before.Keys
    && forall x :: x in reqs ==>
         var r := if x == id then before[x].(txCount := before[x].txCount + 1, transmit := false) else before[x];
         if failed && Unsent(before, x, s) then IsUp(servers, reqs[x].ns) && reqs[x] == r.(ns := reqs[x].ns) else reqs[x] == r
  }

  lemma PartlyStart(reqs: Reqs, s: nat, servers: seq<Server>)
    ensures PartlyMoved(reqs, s, servers, reqs)
  {
  }

  lemma PartlyStep(before: Reqs, s: nat, servers: seq<Server>, reqs: Reqs, id: nat, servers': seq<Server>, reqs': Reqs)
    requires PartlyMoved(before, s, servers, reqs) && SameStates(servers, servers') && id in reqs && id in reqs'
    requires reqs' == reqs[id := reqs[id].(ns := reqs'[id].ns)]
    requires if Unsent(reqs, id, s) then IsUp(servers', reqs'[id].ns) else reqs' == reqs
    ensures PartlyMoved(before, s, servers', reqs')
  {
  }

  lemma PartlyAll(before: Reqs, s: nat, servers: seq<Server>, reqs: Reqs)
    requires PartlyMoved(before, s, servers, reqs) && forall id :: id in reqs ==> !Unsent(reqs, id, s)
    ensures Reassigned(before, s, servers, reqs)
  {
  }

  lemma MemberInRange(servers: seq<Server>, ring: seq<nat>, s: nat)
    requires RingOk(servers, ring) && s in ring
    ensures s < |servers|
  {
  }

  lemma {:induction false} CountUpSet(servers: seq<Server>, ring: seq<nat>, s: nat, up: bool)
    requires RingOk(servers, ring) && s < |servers|
    ensures CountUp(servers[s := servers[s].(up := up)], ring)
      == CountUp(servers, ring) - One(s in ring && servers[s].up) + One(s in ring && up)
  {
    if ring != [] {
      assert ring == [ring[0]] + ring[1..];
      CountUpSet(servers, ring[1..], s, up);
      assert ring[0] !in ring[1..];
    }
  }

  lemma {:induction false} CountUpMore(servers: seq<Server>, ring: seq<nat>, x: Server)
    requires RingOk(servers, ring)
    ensures CountUp(servers + [x], ring) == CountUp(servers, ring)
  {
    if ring != [] { CountUpMore(servers, ring[1..], x); }
  }

  lemma Grown(reqs: Reqs, servers: seq<Server>, ring: seq<nat>, ring': seq<nat>)
    requires ServersOk(reqs, servers) && RingOk(servers, ring)
    requires ring' == if ring == [] then [|servers|] else [ring[0], |servers|] + ring[1..]
    ensures var servers' := servers + [Server(true, 0)];
      ServersOk(reqs, servers') && RingOk(servers', ring') && CountUp(servers', ring') == CountUp(servers, ring) + 1
  {
    GrownServers(reqs, servers);
    GrownRing(servers, ring, ring');
    var servers', n := servers + [Server(true, 0)], |servers|;
    CountUpMore(servers, ring, Server(true, 0));
    CountUpConcat(servers', [n], if ring == [] then [] else ring[1..]);
    hide ServersOk, RingOk;
    if ring == [] {
      assert ring' == [n] + [];
    } else {
      CountUpConcat(servers', [ring[0]], [n] + ring[1..]);
      CountUpConcat(servers', [ring[0]], ring[1..]);
      assert ring' == [ring[0]] + ([n] + ring[1..]) && ring == [ring[0]] + ring[1..];
    }
    CountUpOne(servers', n);
  }

  lemma CountUpOne(servers: seq<Server>, s: nat)
    ensures CountUp(servers, [s]) == One(s < |servers| && servers[s].up)
  {
    assert [s][1..] == [];
  }

  lemma GrownServers(reqs: Reqs, servers: seq<Server>)
    requires ServersOk(reqs, servers)
    ensures ServersOk(reqs, servers + [Server(true, 0)])
  {
    assert Assigned(reqs, |servers|) == {};
  }

  lemma GrownRing(servers: seq<Server>, ring: seq<nat>, ring': seq<nat>)
    requires RingOk(servers, ring)
    requires ring' == if ring == [] then [|servers|] else [ring[0], |servers|] + ring[1..]
    ensures RingOk(servers + [Server(true, 0)], ring')
  {
    if ring != [] {
      forall i | 2 <= i < |ring'| ensures ring'[i] == ring[i - 1] {}
    }
  }

  lemma HeadsSome(reqs: Reqs, heads: seq<seq<nat>>)
    requires HeadsOk(reqs, heads)
    ensures |heads| > 0
  {
  }

  lemma NsInRange(reqs: Reqs, servers: seq<Server>, id: nat)
    requires ServersOk(reqs, servers) && id in reqs
    ensures reqs[id].ns < |servers|
  {
  }

  lemma RingSame(servers: seq<Server>, servers': seq<Server>, ring: seq<nat>)
    requires RingOk(servers, ring) && |servers'| == |servers|
    ensures RingOk(servers', ring)
  {
  }

  /** A new request that waits. */
  lemma Parked(reqs: Reqs, heads: seq<seq<nat>>, servers: seq<Server>, id: nat, r: Req, n: int)
    requires HeadsOk(reqs, heads) && Distinct(reqs) && Flown(reqs, heads, n) && ServersOk(reqs, servers)
    requires id !in reqs && r.ns < 0
    ensures var reqs' := reqs[id := r];
      HeadsOk(reqs', heads) && Distinct(reqs') && Flown(reqs', heads, n) && ServersOk(reqs', servers)
  {
    HeadsKeep(reqs, heads, id, r);
    FlyingSet(reqs, id, r);
    ServersSet(reqs, servers, id, r, servers);
  }

  /** A waiting request is forgotten. */
  lemma Unparked(reqs: Reqs, heads: seq<seq<nat>>, servers: seq<Server>, id: nat, n: int)
    requires HeadsOk(reqs, heads) && Distinct(reqs) && Flown(reqs, heads, n) && ServersOk(reqs, servers)
    requires id in reqs && reqs[id].ns < 0
    ensures var reqs' := reqs - {id};
      HeadsOk(reqs', heads) && Distinct(reqs') && Flown(reqs', heads, n) && ServersOk(reqs', servers)
  {
    HeadsDrop(reqs, heads, id);
    FlyingGone(reqs, id);
    ServersGone(reqs, servers, id, servers);
  }

  /** A request in flight goes to another server. */
  lemma Swapped(reqs: Reqs, heads: seq<seq<nat>>, waiting: seq<nat>, servers: seq<Server>, id: nat, r: Req, servers': seq<Server>, n: int)
    requires HeadsOk(reqs, heads) && Distinct(reqs) && Flown(reqs, heads, n) && ServersOk(reqs, servers) && WaitingOk(reqs, waiting)
    requires id in reqs && reqs[id].ns >= 0 && 0 <= r.ns < |servers| == |servers'| && r.transId == reqs[id].transId
    requires forall s :: 0 <= s < |servers| ==>
      servers'[s].inflight == servers[s].inflight - One(reqs[id].ns == s) + One(r.ns == s)
    ensures var reqs' := reqs[id := r];
      HeadsOk(reqs', heads) && Distinct(reqs') && Flown(reqs', heads, n) && ServersOk(reqs', servers') && WaitingOk(reqs', waiting)
  {
    HeadsKeep(reqs, heads, id, r);
    WaitingKeep(reqs, waiting, id, r);
    FlyingSet(reqs, id, r);
    ServersSet(reqs, servers, id, r, servers');
  }

  /** nameserver_pick's loop: from the head on to the first server that is up. */
  method NextUp(servers: seq<Server>, ring0: seq<nat>) returns (ns: nat, ring: seq<nat>)
    requires RingOk(servers, ring0) && FirstUp(servers, ring0) < |ring0|
    ensures var j := FirstUp(servers, ring0); ns == ring0[j] && ring == Turned(ring0, j + 1)
  {
    ghost var j := FirstUp(servers, ring0);
    ghost var k := 0;
    hide FirstUp, Turned;
    ring := ring0;
    TurnNone(ring0);
    var startedAt := ring[0];
    while !servers[ring[0]].up
      invariant 0 <= k <= j < |ring0| && ring == Turned(ring0, k) && ring != [] && ring[0] == ring0[k] < |servers|
      decreases j - k
    {
      TurnOnce(ring0, k);
      TurnOnce(ring0, k + 1);
      ring := ring[1..] + [ring[0]];
      k := k + 1;
      // back at the start with all servers down: the source asserts that this is not so
      assert ring[0] != startedAt;
    }
    ns := ring[0];
    TurnOnce(ring0, k);
    ring := ring[1..] + [ring[0]];
  }

  lemma TurnNone(ring: seq<nat>)
    ensures Turned(ring, 0) == ring
  {
  }

  lemma TurnedMembers(ring: seq<nat>, j: nat)
    requires j <= |ring|
    ensures |Turned(ring, j)| == |ring| && forall s :: s in Turned(ring, j) <==> s in ring
  {
    assert ring == ring[..j] + ring[j..];
  }

  lemma TurnOnce(ring: seq<nat>, k: nat)
    requires k < |ring|
    ensures var r := Turned(ring, k); r != [] && r[0] == ring[k] && r[1..] + [r[0]] == Turned(ring, k + 1)
  {
  }

  // ---- whole runs ----

  datatype ResolverStep =
    | SubmitStep | FinishStep(id: nat) | ReissueStep(id: nat) | FailStep(server: nat) | UpStep(server: nat)
    | SendStep(id: nat, outcome: Sent) | ServerStep | MaxStep(max: int) | SuspendStep | ResumeStep

  /**
   * After every run, bucket lookup, lists, counters and assignments agree and transaction ids in
   * flight are distinct. Steps that the state does not allow are skipped.
   */
  method RunResolver(steps: seq<ResolverStep>, t: TransId) returns (r: Resolver, found: int)
    ensures r.Valid()
    ensures found < 0 <==> forall id :: id in r.reqs && r.reqs[id].ns >= 0 ==> r.reqs[id].transId != t
  {
    hide Resolver.Valid;
    r := new Resolver();
    var next := 0;
    for i := 0 to |steps|
      invariant fresh(r) && r.Valid() && next >= 0 && forall id :: id in r.reqs ==> id < next
    {
      next := OneStep(r, steps[i], next);
    }
    found := r.Find(t);
  }

  method OneStep(r: Resolver, step: ResolverStep, next: nat) returns (next': nat)
    requires r.Valid() && forall id :: id in r.reqs ==> id < next
    modifies r
    ensures r.Valid() && forall id :: id in r.reqs ==> id < next'
  {
    hide Resolver.Valid;
    next' := next;
    match step
    case SubmitStep =>
      r.Submit(next);
      next' := next + 1;
    case FinishStep(id) =>
      if id in r.reqs { ghost var _ := r.Finish(id); }
    case ReissueStep(id) =>
      if id in r.reqs && r.reqs[id].ns >= 0 { var _ := r.Reissue(id); }
    case SendStep(id, outcome) =>
      if id in r.reqs && r.reqs[id].ns >= 0 && r.reqs[id].ns in r.ring { r.Transmit(id, outcome); }
    case FailStep(s) =>
      if s in r.ring { r.Fail(s); }
    case UpStep(s) =>
      if s in r.ring { r.Up(s); }
    case ServerStep =>
      var _ := r.AddServer();
    case MaxStep(max) =>
      if max <= 0xffff { r.SetMaxInflight(max); }
    case SuspendStep =>
      r.ClearAndSuspend();
    case ResumeStep =>
      ghost var _ := r.Pump();
  }
}
