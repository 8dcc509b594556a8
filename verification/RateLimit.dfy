/**
 * Rate limiting of bufferevents (bufferevent_ratelim.c) and the suspend reasons it
 * works through (bufferevent.c): one bufferevent, then a group that shares a bucket.
 */
module RateLimits {
  import opened Wrappers
  import opened Lists
  import opened TokenBuckets

  /** The BEV_SUSPEND_ flags: watermark, own bandwidth, group bandwidth, name lookup, filter. */
  datatype Reason = Watermark | Bandwidth | GroupBandwidth | Lookup | Filter

  /**
   * One direction of a bufferevent: why it is suspended, whether the user wants it,
   * and whether the socket's event for it is added. `joining` is what a thread inside
   * bufferevent_add_to_rate_limit_group has read of the group's state and not yet acted on.
   */
  datatype Side = Side(suspended: set<Reason>, enabled: bool, on: bool, joining: bool)

  ghost predicate SideOk(s: Side) {
    s.on <==> s.enabled && s.suspended == {}
  }

  /** bufferevent_suspend_read_ and bufferevent_suspend_write_. */
  function Suspend(s: Side, why: Reason): (r: Side)
    ensures SideOk(s) ==> SideOk(r)
    ensures r.suspended == s.suspended + {why} && r.enabled == s.enabled && r.joining == s.joining
  {
    var off := if s.suspended == {} then s.(on := false) else s;
    off.(suspended := s.suspended + {why})
  }

  /** bufferevent_unsuspend_read_ and bufferevent_unsuspend_write_. */
  function Unsuspend(s: Side, why: Reason): (r: Side)
    ensures SideOk(s) ==> SideOk(r)
    ensures r.suspended == s.suspended - {why} && r.enabled == s.enabled && r.joining == s.joining
  {
    var left := s.(suspended := s.suspended - {why});
    if left.suspended == {} && s.enabled then left.(on := true) else left
  }

  /** An exhausted bucket has stopped its direction, and what it stopped will be looked at again. */
  ghost predicate DirOk(s: Side, limit: int, limited: bool, timer: bool, held: bool) {
    && SideOk(s) && (s.joining ==> held) && SSIZE_MIN <= limit
    && (limited && limit <= 0 ==> Bandwidth in s.suspended)
    && (Bandwidth in s.suspended ==> timer && limited)
  }

  /** The operations of a single bufferevent; the reasons are those that have nothing to do with bandwidth. */
  datatype MemberOp =
    | EnableOp(d: Dir) | DisableOp(d: Dir) | SuspendOp(d: Dir, why: Reason) | UnsuspendOp(d: Dir, why: Reason)
    | RefillOp(tick: U32) | LimitOp(cfg: Option<Cfg>, tick: U32) | UpdateOp(tick: U32)
    | ChargeOp(d: Dir, bytes: int) | DecrementOp(d: Dir, decr: int)

  ghost predicate MemberOpOk(op: MemberOp) {
    && (op.SuspendOp? || op.UnsuspendOp? ==> op.why != Bandwidth && op.why != GroupBandwidth)
    && (op.LimitOp? && op.cfg.Some? ==> CfgOk(op.cfg.value))
  }

  /** As far as a group can see, nothing changed. */
  ghost predicate SameForGroup(s: Side, t: Side) {
    (GroupBandwidth in s.suspended <==> GroupBandwidth in t.suspended) && s.joining == t.joining
  }

  /** Only the bufferevent's own bandwidth may have changed its mind. */
  ghost predicate SameButBandwidth(s: Side, t: Side) {
    (forall why :: why != Bandwidth ==> (why in s.suspended <==> why in t.suspended)) && s.joining == t.joining && s.enabled == t.enabled
  }

  /** Only waiting for the group may have changed. */
  ghost predicate SameButGroup(s: Side, t: Side) {
    (forall why :: why != GroupBandwidth ==> (why in s.suspended <==> why in t.suspended)) && s.joining == t.joining && s.enabled == t.enabled
  }

  lemma SuspensionsKeep()
    ensures forall s: Side :: SameButGroup(s, s) && SameButGroup(s, Suspend(s, GroupBandwidth)) && SameButGroup(s, Unsuspend(s, GroupBandwidth))
  {
  }

  ghost predicate Joined(s: Side, t: Side) {
    !t.joining && t.enabled == s.enabled && t.suspended == if s.joining then s.suspended + {GroupBandwidth} else s.suspended
  }

  class Bev {
    var rd: Side
    var wr: Side
    var cfg: Option<Cfg>
    var bucket: Bucket
    var timer: bool      // the refill event is pending
    var held: bool       // a thread between two steps holds the bufferevent's lock
    var group: Group?

    constructor ()
      ensures Valid() && group == null && !held && Clear()
    {
      rd, wr := Side({}, false, false, false), Side({}, false, false, false);
      cfg, bucket, timer, held, group := None, Bucket(0, 0, 0), false, false, null;
    }

    function S(d: Dir): (s: Side)
      reads this
    {
      if d.Read? then rd else wr
    }

    /** No direction waits for a group, or is about to. */
    ghost predicate Clear()
      reads this
    {
      GroupBandwidth !in rd.suspended && GroupBandwidth !in wr.suspended && !rd.joining && !wr.joining
    }

    ghost predicate Valid()
      reads this
    {
      && DirOk(rd, bucket.read, cfg.Some?, timer, held) && DirOk(wr, bucket.write, cfg.Some?, timer, held)
      && (cfg.Some? ==> CfgOk(cfg.value) && BucketOk(bucket, cfg.value))
    }

    /** All but one direction's suspend reasons and its event are as before. */
    twostate predicate OnlySide(d: Dir)
      reads this
    {
      && cfg == old(cfg) && bucket == old(bucket) && timer == old(timer) && held == old(held) && group == old(group)
      && (d.Read? ==> wr == old(wr)) && (d.Write? ==> rd == old(rd))
    }

    method SetSide(d: Dir, s: Side)
      modifies this`rd, this`wr
      ensures S(d) == s && (d.Read? ==> wr == old(wr)) && (d.Write? ==> rd == old(rd))
    {
      if d.Read? { rd := s; } else { wr := s; }
    }

    method SuspendFor(d: Dir, why: Reason)
      modifies this`rd, this`wr
      ensures OnlySide(d) && S(d) == Suspend(old(S(d)), why)
    {
      SetSide(d, Suspend(S(d), why));
    }

    method UnsuspendFor(d: Dir, why: Reason)
      modifies this`rd, this`wr
      ensures OnlySide(d) && S(d) == Unsuspend(old(S(d)), why)
    {
      SetSide(d, Unsuspend(S(d), why));
    }

    /** bufferevent_enable, for one direction. */
    method Enable(d: Dir)
      requires Valid()
      modifies this`rd, this`wr
      ensures Valid() && OnlySide(d) && S(d).enabled && S(d).suspended == old(S(d)).suspended && S(d).joining == old(S(d)).joining
    {
      var s := S(d);
      SetSide(d, s.(enabled := true, on := if s.suspended == {} then true else s.on));
    }

    /** bufferevent_disable, for one direction. */
    method Disable(d: Dir)
      requires Valid()
      modifies this`rd, this`wr
      ensures Valid() && OnlySide(d) && !S(d).enabled && S(d).suspended == old(S(d)).suspended && S(d).joining == old(S(d)).joining
    {
      SetSide(d, S(d).(enabled := false, on := false));
    }

    /** The limit may change by this much: it stays a number of its width, and is not refunded above the maximum. */
    predicate Payable(d: Dir, bytes: int)
      reads this
    {
      cfg.Some? ==> SSIZE_MIN <= bucket.Limit(d) - bytes <= cfg.value.Max(d)
    }

    /** The part of bufferevent_decrement_read_buckets_ and its twin about the bufferevent's own bucket. */
    method Charge(d: Dir, bytes: int)
      requires Valid() && Payable(d, bytes)
      modifies this`rd, this`wr, this`bucket, this`timer
      ensures Valid()
      ensures SameButBandwidth(old(S(d)), S(d))
      ensures (d.Read? ==> wr == old(wr)) && (d.Write? ==> rd == old(rd))
      ensures bucket == if cfg.Some? then old(bucket).With(d, old(bucket).Limit(d) - bytes) else old(bucket)
      ensures cfg.Some? ==> (Bandwidth in S(d).suspended <==> bucket.Limit(d) <= 0)
    {
      if cfg.Some? {
        bucket := bucket.With(d, bucket.Limit(d) - bytes);
        if bucket.Limit(d) <= 0 {
          SuspendFor(d, Bandwidth);
          timer := true;
        } else if Bandwidth in S(d).suspended {
          if Bandwidth !in S(if d.Read? then Write else Read).suspended { timer := false; }
          UnsuspendFor(d, Bandwidth);
        }
      }
    }
  
    /** The end of bufferevent_add_to_rate_limit_group: act on what was read of the group, and unlock. */
    method ActOnJoin()
      requires Valid() && held
      modifies this`rd, this`wr, this`held
      ensures Valid() && !held && Joined(old(rd), rd) && Joined(old(wr), wr)
    {
      if rd.joining { SuspendFor(Read, GroupBandwidth); }
      if wr.joining { SuspendFor(Write, GroupBandwidth); }
      rd, wr, held := rd.(joining := false), wr.(joining := false), false;
    }

    method SuspendMember(d: Dir)
      requires Valid()
      modifies this`rd, this`wr
      ensures Valid() && OnlySide(d) && S(d) == Suspend(old(S(d)), GroupBandwidth)
    {
      SuspendFor(d, GroupBandwidth);
    }

    /** bufferevent_update_buckets. */
    method UpdateBuckets(tick: U32)
      requires Valid() && cfg.Some?
      modifies this`bucket
      ensures Valid() && bucket == Update(old(bucket), cfg.value, tick)
    {
      UpdateGrows(bucket, cfg.value, tick);
      hide Update, Elapsed;
      if tick != bucket.last {
        bucket := Update(bucket, cfg.value, tick);
      } else {
        SameTick(bucket, cfg.value);
      }
    }

    /** bev_refill_callback_, run when the refill event fires. */
    method RefillCallback(tick: U32)
      requires Valid() && timer
      modifies this`rd, this`wr, this`bucket, this`timer
      ensures Valid()
      ensures SameButBandwidth(old(rd), rd) && SameButBandwidth(old(wr), wr)
      ensures cfg.Some? ==> bucket == Update(old(bucket), cfg.value, tick)
      ensures forall d: Dir :: Bandwidth in S(d).suspended <==> Bandwidth in old(S(d)).suspended && bucket.Limit(d) <= 0
      ensures timer <==> Bandwidth in rd.suspended || Bandwidth in wr.suspended
    {
      hide Update, Elapsed;
      timer := false;
      if cfg.None? { return; }
      UpdateGrows(bucket, cfg.value, tick);
      bucket := Update(bucket, cfg.value, tick);
      var again := false;
      if Bandwidth in rd.suspended {
        if bucket.read > 0 { UnsuspendFor(Read, Bandwidth); } else { again := true; }
      }
      if Bandwidth in wr.suspended {
        if bucket.write > 0 { UnsuspendFor(Write, Bandwidth); } else { again := true; }
      }
      if again { timer := true; }
    }

    /** Suspends or unsuspends for a reason that has nothing to do with bandwidth. */
    method ForOther(d: Dir, why: Reason, suspend: bool)
      requires Valid() && why != Bandwidth && why != GroupBandwidth
      modifies this`rd, this`wr
      ensures Valid() && OnlySide(d) && SameForGroup(old(S(d)), S(d))
    {
      if suspend { SuspendFor(d, why); } else { UnsuspendFor(d, why); }
    }

    /** Any operation of its own keeps a bufferevent sound, and what its group sees of it. */
    method Own(op: MemberOp)
      requires Valid() && MemberOpOk(op)
      modifies this`rd, this`wr, this`bucket, this`timer, this`cfg
      ensures Valid() && SameForGroup(old(rd), rd) && SameForGroup(old(wr), wr)
    {
      hide Valid, SideOk, Suspend, Unsuspend;
      match op
      case EnableOp(d) => Enable(d);
      case DisableOp(d) => Disable(d);
      case SuspendOp(d, why) => ForOther(d, why, true);
      case UnsuspendOp(d, why) => ForOther(d, why, false);
      case RefillOp(tick) => if timer { RefillCallback(tick); }
      case LimitOp(c, tick) => SetRateLimit(c, false, tick);
      case UpdateOp(tick) => if cfg.Some? { UpdateBuckets(tick); }
      case ChargeOp(d, bytes) => if Payable(d, bytes) { Charge(d, bytes); }
      case DecrementOp(d, decr) => if cfg.Some? && Payable(d, decr) { DecrementLimit(d, decr); }
    }

    method Settle(d: Dir) returns (suspended: bool)
      modifies this`rd, this`wr
      ensures OnlySide(d) && suspended == (bucket.Limit(d) <= 0) && SameButBandwidth(old(S(d)), S(d))
      ensures (Bandwidth in S(d).suspended <==> suspended) && (SideOk(old(S(d))) ==> SideOk(S(d)))
    {
      if bucket.Limit(d) > 0 { UnsuspendFor(d, Bandwidth); } else { SuspendFor(d, Bandwidth); }
      return bucket.Limit(d) <= 0;
    }

    /** bufferevent_set_rate_limit; `same` says the configuration object is the one in use. */
    method SetRateLimit(newCfg: Option<Cfg>, same: bool, tick: U32)
      requires Valid() && (newCfg.Some? ==> CfgOk(newCfg.value)) && (same && newCfg.Some? ==> newCfg == cfg)
      modifies this`rd, this`wr, this`bucket, this`timer, this`cfg
      ensures Valid() && cfg == newCfg
      ensures SameButBandwidth(old(rd), rd) && SameButBandwidth(old(wr), wr)
      ensures newCfg.Some? && !same ==> bucket == Init(old(bucket), newCfg.value, tick, old(cfg).Some?)
      ensures newCfg.Some? && !same ==> forall d: Dir :: Bandwidth in S(d).suspended <==> bucket.Limit(d) <= 0
    {
      if newCfg.None? {
        cfg := None;
        UnsuspendFor(Read, Bandwidth);
        UnsuspendFor(Write, Bandwidth);
        timer := false;
        return;
      }
      if same && cfg.Some? { return; }
      var reinit := cfg.Some?;
      cfg := newCfg;
      bucket := Init(bucket, newCfg.value, tick, reinit);
      timer := false;
      var suspended := Settle(Read);
      var suspendedToo := Settle(Write);
      if suspended || suspendedToo { timer := true; }
    }

    /** bufferevent_decrement_read_limit and its twin: a charge, or a refund where `decr` is negative. */
    method DecrementLimit(d: Dir, decr: int)
      requires Valid() && cfg.Some? && Payable(d, decr)
      modifies this`rd, this`wr, this`bucket, this`timer
      ensures Valid() && bucket == old(bucket).With(d, old(bucket).Limit(d) - decr)
      ensures SameButBandwidth(old(S(d)), S(d))
      ensures (d.Read? ==> wr == old(wr)) && (d.Write? ==> rd == old(rd))
      ensures Bandwidth in S(d).suspended <==>
        bucket.Limit(d) <= 0 || (Bandwidth in old(S(d)).suspended && old(bucket).Limit(d) > 0)
    {
      var before := bucket.Limit(d);
      bucket := bucket.With(d, before - decr);
      if before > 0 && bucket.Limit(d) <= 0 {
        SuspendFor(d, Bandwidth);
        timer := true;
      } else if before <= 0 && bucket.Limit(d) > 0 {
        if Bandwidth !in S(if d.Read? then Write else Read).suspended { timer := false; }
        UnsuspendFor(d, Bandwidth);
      }
    }
  }

  /**
   * Every run of a bufferevent's operations: a direction whose bucket is exhausted is off, and what
   * bandwidth suspended has its refill event pending, so that it is looked at again.
   */
  method RunBev(ops: seq<MemberOp>) returns (b: Bev)
    requires forall i :: 0 <= i < |ops| ==> MemberOpOk(ops[i])
    ensures b.Valid() && b.Clear()
    ensures forall d: Dir :: b.cfg.Some? && b.bucket.Limit(d) <= 0 ==> !b.S(d).on && Bandwidth in b.S(d).suspended
    ensures forall d: Dir :: Bandwidth in b.S(d).suspended ==> b.timer
    ensures forall d: Dir :: b.S(d).on <==> b.S(d).enabled && b.S(d).suspended == {}
  {
    b := new Bev();
    for i := 0 to |ops|
      invariant fresh(b) && b.Valid() && b.Clear()
    {
      b.Own(ops[i]);
    }
  }

  lemma SameTick(b: Bucket, cfg: Cfg)
    requires CfgOk(cfg) && BucketOk(b, cfg)
    ensures Update(b, cfg, b.last) == b
  {
  }

  /**
   * The loop of bev_group_suspend_reading_: every member whose lock could be had is
   * suspended. `free` are the members for which the attempt to lock succeeds.
   */
  method SuspendAll(ms: seq<Bev>, d: Dir, free: set<Bev>)
    requires NoDup(ms) && forall i :: 0 <= i < |ms| ==> ms[i].Valid()
    modifies ms
    ensures forall i :: 0 <= i < |ms| ==> ms[i].Valid() && ms[i].OnlySide(d)
    ensures forall i :: 0 <= i < |ms| ==>
      ms[i].S(d) == if ms[i] in free then Suspend(old(ms[i].S(d)), GroupBandwidth) else old(ms[i].S(d))
  {
    for k := 0 to |ms|
      invariant forall i :: 0 <= i < |ms| ==> ms[i].Valid() && ms[i].OnlySide(d)
      invariant forall i :: 0 <= i < |ms| ==>
        ms[i].S(d) == if i < k && ms[i] in free then Suspend(old(ms[i].S(d)), GroupBandwidth) else old(ms[i].S(d))
    {
      if ms[k] in free {
        ms[k].SuspendFor(d, GroupBandwidth);
      }
    }
  }

  /** One of the two loops of FOREACH_RANDOM_ORDER in bev_group_unsuspend_reading_. */
  method UnsuspendSome(ms: seq<Bev>, lo: nat, hi: nat, d: Dir, free: set<Bev>) returns (again: bool)
    requires NoDup(ms) && (forall i :: 0 <= i < |ms| ==> ms[i].Valid()) && lo <= hi <= |ms|
    modifies ms
    ensures forall i :: 0 <= i < |ms| ==> ms[i].Valid() && ms[i].OnlySide(d)
    ensures forall i :: 0 <= i < |ms| ==>
      ms[i].S(d) == if lo <= i < hi && ms[i] in free then Unsuspend(old(ms[i].S(d)), GroupBandwidth) else old(ms[i].S(d))
    ensures again <==> exists i :: lo <= i < hi && ms[i] !in free
  {
    again := false;
    for k := lo to hi
      invariant forall i :: 0 <= i < |ms| ==> ms[i].Valid() && ms[i].OnlySide(d)
      invariant forall i :: 0 <= i < |ms| ==>
        ms[i].S(d) == if lo <= i < k && ms[i] in free then Unsuspend(old(ms[i].S(d)), GroupBandwidth) else old(ms[i].S(d))
      invariant again <==> exists i :: lo <= i < k && ms[i] !in free
    {
      if ms[k] in free { ms[k].UnsuspendFor(d, GroupBandwidth); } else { again := true; }
    }
  }

  /** FOREACH_RANDOM_ORDER: from a random member on, then from the first; every member has its turn. */
  method UnsuspendAll(ms: seq<Bev>, start: nat, d: Dir, free: set<Bev>) returns (again: bool)
    requires NoDup(ms) && (forall i :: 0 <= i < |ms| ==> ms[i].Valid()) && start <= |ms|
    modifies ms
    ensures forall i :: 0 <= i < |ms| ==> ms[i].Valid() && ms[i].OnlySide(d)
    ensures forall i :: 0 <= i < |ms| ==>
      ms[i].S(d) == if ms[i] in free then Unsuspend(old(ms[i].S(d)), GroupBandwidth) else old(ms[i].S(d))
    ensures again <==> exists i :: 0 <= i < |ms| && ms[i] !in free
  {
    hide Bev.Valid, Unsuspend;
    var a := UnsuspendSome(ms, start, |ms|, d, free);
    var b := UnsuspendSome(ms, 0, start, d, free);
    again := a || b;
  }

  /** One direction of a group: suspended, or still to be unsuspended for some member. */
  datatype GroupSide = GroupSide(suspended: bool, pending: bool)

  /** A member that waits for the group, or is about to, will be woken. */
  ghost predicate NotStranded(s: Side, g: GroupSide) {
    GroupBandwidth in s.suspended || s.joining ==> g.suspended || g.pending
  }

  lemma StillBraked(b: Bucket, b': Bucket, r: GroupSide, w: GroupSide, r': GroupSide, w': GroupSide, share: int)
    requires share >= 0 && b.read <= b'.read && b.write <= b'.write
    requires (r'.suspended <==> r.suspended && b'.read < share) && (w'.suspended <==> w.suspended && b'.write < share)
    requires (b.read <= 0 ==> r.suspended) && (b.write <= 0 ==> w.suspended)
    ensures (b'.read <= 0 ==> r'.suspended) && (b'.write <= 0 ==> w'.suspended) <==> share >= 1 || forall d: Dir :: b'.Limit(d) != 0
  {
    assert b'.Limit(Read) == b'.read && b'.Limit(Write) == b'.write;
  }

  class Group {
    var cfg: Cfg
    var bucket: Bucket
    var rd: GroupSide
    var wr: GroupSide
    var members: seq<Bev>
    var minShare: int
    var configuredShare: int

    constructor (cfg: Cfg, tick: U32)
      requires CfgOk(cfg)
      ensures Valid() && members == [] && this.cfg == cfg && configuredShare == 64
      ensures Braked() && bucket == Bucket(cfg.readRate, cfg.writeRate, tick)
    {
      this.cfg, bucket := cfg, Init(Bucket(0, 0, 0), cfg, tick, false);
      rd, wr, members := GroupSide(false, false), GroupSide(false, false), [];
      minShare, configuredShare := Min(64, Min(cfg.readRate, cfg.writeRate)), 64;
    }

    function G(d: Dir): (g: GroupSide)
      reads this
    {
      if d.Read? then rd else wr
    }

    ghost predicate MemberOk(m: Bev)
      reads this, m
    {
      m.group == this && m.Valid() && NotStranded(m.rd, rd) && NotStranded(m.wr, wr)
    }

    ghost predicate Valid()
      reads this, members
    {
      && CfgOk(cfg) && BucketOk(bucket, cfg) && 0 <= minShare <= cfg.readRate && minShare <= cfg.writeRate && 0 <= configuredShare
      && (configuredShare >= 1 ==> minShare >= 1)
      && !(rd.suspended && rd.pending) && !(wr.suspended && wr.pending)
      && NoDup(members) && forall i :: 0 <= i < |members| ==> MemberOk(members[i])
    }

    /** An exhausted group is suspended. */
    ghost predicate Braked()
      reads this
    {
      (bucket.read <= 0 ==> rd.suspended) && (bucket.write <= 0 ==> wr.suspended)
    }

    /** A lock that a thread holds between two steps cannot be had. */
    ghost predicate Possible(free: set<Bev>)
      reads this, members
    {
      forall i :: 0 <= i < |members| && members[i].held ==> members[i] !in free
    }

    method SetG(d: Dir, g: GroupSide)
      modifies this`rd, this`wr
      ensures G(d) == g && (d.Read? ==> wr == old(wr)) && (d.Write? ==> rd == old(rd))
    {
      if d.Read? { rd := g; } else { wr := g; }
    }
  
    /** bev_group_suspend_reading_ and its twin. */
    method SuspendGroup(d: Dir, free: set<Bev>)
      requires Valid() && Possible(free)
      modifies this`rd, this`wr, members
      ensures Valid() && G(d) == GroupSide(true, false) && (d.Read? ==> wr == old(wr)) && (d.Write? ==> rd == old(rd))
      ensures forall i :: 0 <= i < |members| && members[i] in free ==> GroupBandwidth in members[i].S(d).suspended
      ensures forall i :: 0 <= i < |members| ==> members[i].OnlySide(d) && SameButGroup(old(members[i].S(d)), members[i].S(d))
    {
      SuspensionsKeep();
      hide Bev.Valid, Suspend, CfgOk, BucketOk, SameButGroup;
      SetG(d, GroupSide(true, false));
      SuspendAll(members, d, free);
    }

    lemma FreeNotJoining(d: Dir, free: set<Bev>)
      requires Valid() && Possible(free)
      ensures forall i :: 0 <= i < |members| && members[i] in free ==> !members[i].S(d).joining
    {
    }

    /** bev_group_unsuspend_reading_ and its twin. */
    method UnsuspendGroup(d: Dir, start: nat, free: set<Bev>)
      requires Valid() && Possible(free) && start <= |members|
      modifies this`rd, this`wr, members
      ensures Valid() && !G(d).suspended && (d.Read? ==> wr == old(wr)) && (d.Write? ==> rd == old(rd))
      ensures G(d).pending <==> exists i :: 0 <= i < |members| && members[i] !in free
      ensures forall i :: 0 <= i < |members| && members[i] in free ==> GroupBandwidth !in members[i].S(d).suspended
      ensures forall i :: 0 <= i < |members| ==> members[i].OnlySide(d) && SameButGroup(old(members[i].S(d)), members[i].S(d))
    {
      FreeNotJoining(d, free);
      SuspensionsKeep();
      hide Bev.Valid, Unsuspend, CfgOk, BucketOk, SameButGroup;
      SetG(d, GroupSide(false, G(d).pending));
      var again := UnsuspendAll(members, start, d, free);
      SetG(d, GroupSide(false, again));
    }
  
    predicate Payable(d: Dir, bytes: int)
      reads this
    {
      SSIZE_MIN <= bucket.Limit(d) - bytes <= cfg.Max(d)
    }

    /** The part of bufferevent_decrement_read_buckets_ and its twin about the group's bucket. */
    method Charge(d: Dir, bytes: int, start: nat, free: set<Bev>)
      requires Valid() && Possible(free) && Payable(d, bytes) && start <= |members|
      modifies this`rd, this`wr, this`bucket, members
      ensures Valid() && bucket == old(bucket).With(d, old(bucket).Limit(d) - bytes)
      ensures (G(d).suspended <==> bucket.Limit(d) <= 0) && (d.Read? ==> wr == old(wr)) && (d.Write? ==> rd == old(rd))
      ensures forall i :: 0 <= i < |members| ==> members[i].OnlySide(d) && SameButGroup(old(members[i].S(d)), members[i].S(d))
      ensures old(Braked()) ==> Braked()
    {
      hide Bev.Valid;
      bucket := bucket.With(d, bucket.Limit(d) - bytes);
      if bucket.Limit(d) <= 0 {
        SuspendGroup(d, free);
      } else if G(d).suspended {
        UnsuspendGroup(d, start, free);
      }
    }

    /**
     * bufferevent_rate_limit_group_decrement_read and its twin: only a limit that passes zero makes a
     * difference, so a charge brakes the group exactly when the group was not already exhausted unnoticed.
     */
    method DecrementLimit(d: Dir, decr: int, start: nat, free: set<Bev>)
      requires Valid() && Possible(free) && Payable(d, decr) && start <= |members|
      modifies this`rd, this`wr, this`bucket, members
      ensures Valid() && bucket == old(bucket).With(d, old(bucket).Limit(d) - decr)
      ensures (d.Read? ==> wr == old(wr)) && (d.Write? ==> rd == old(rd))
      ensures G(d).suspended <==>
        if old(bucket).Limit(d) > 0 then old(G(d)).suspended || bucket.Limit(d) <= 0 else old(G(d)).suspended && bucket.Limit(d) <= 0
      ensures forall i :: 0 <= i < |members| ==> members[i].OnlySide(d) && SameButGroup(old(members[i].S(d)), members[i].S(d))
      ensures old(Braked()) ==> Braked()
    {
      hide Bev.Valid;
      var before := bucket.Limit(d);
      bucket := bucket.With(d, before - decr);
      if before > 0 && bucket.Limit(d) <= 0 {
        SuspendGroup(d, free);
      } else if before <= 0 && bucket.Limit(d) > 0 {
        UnsuspendGroup(d, start, free);
      }
    }

    /** One direction of bev_group_refill_callback_, after the update. */
    method Wake(d: Dir, start: nat, free: set<Bev>)
      requires Valid() && Possible(free) && start <= |members|
      modifies this`rd, this`wr, members
      ensures Valid() && (d.Read? ==> wr == old(wr)) && (d.Write? ==> rd == old(rd))
      ensures G(d).suspended <==> old(G(d)).suspended && bucket.Limit(d) < minShare
      ensures G(d).pending ==> exists i :: 0 <= i < |members| && members[i] !in free
      ensures !G(d).suspended && !G(d).pending ==> forall i :: 0 <= i < |members| ==> GroupBandwidth !in members[i].S(d).suspended
      ensures forall i :: 0 <= i < |members| ==> members[i].OnlySide(d) && SameButGroup(old(members[i].S(d)), members[i].S(d))
    {
      hide Bev.Valid;
      if G(d).pending || (G(d).suspended && bucket.Limit(d) >= minShare) {
        UnsuspendGroup(d, start, free);
      }
    }

    /** bev_group_refill_callback_: once a tick. */
    method RefillCallback(tick: U32, start: nat, free: set<Bev>)
      requires Valid() && Possible(free) && start <= |members|
      modifies this`rd, this`wr, this`bucket, members
      ensures Valid() && bucket == Update(old(bucket), cfg, tick)
      ensures forall d: Dir :: G(d).suspended <==> old(G(d)).suspended && bucket.Limit(d) < minShare
      ensures forall d: Dir :: G(d).pending ==> exists i :: 0 <= i < |members| && members[i] !in free
      ensures forall i :: 0 <= i < |members| ==> members[i].held == old(members[i].held) && members[i].bucket == old(members[i].bucket)
      ensures forall i, d: Dir :: 0 <= i < |members| ==> SameButGroup(old(members[i].S(d)), members[i].S(d))
      ensures old(Braked()) ==> (Braked() <==> minShare >= 1 || forall d: Dir :: bucket.Limit(d) != 0)
    {
      UpdateGrows(bucket, cfg, tick);
      hide Bev.Valid, Update, Elapsed, SameButGroup;
      ghost var b, r, w := bucket, rd, wr;
      bucket := Update(bucket, cfg, tick);
      assert Valid();
      WakeBoth(start, free);
      assert G(Read) == rd && G(Write) == wr && bucket.Limit(Read) == bucket.read && bucket.Limit(Write) == bucket.write;
      if old(Braked()) { StillBraked(b, bucket, r, w, rd, wr, minShare); }
    }

    /** Both directions of bev_group_refill_callback_. */
    method WakeBoth(start: nat, free: set<Bev>)
      requires Valid() && Possible(free) && start <= |members|
      modifies this`rd, this`wr, members
      ensures Valid()
      ensures forall d: Dir :: G(d).suspended <==> old(G(d)).suspended && bucket.Limit(d) < minShare
      ensures forall d: Dir :: G(d).pending ==> exists i :: 0 <= i < |members| && members[i] !in free
      ensures forall i :: 0 <= i < |members| ==> members[i].held == old(members[i].held) && members[i].bucket == old(members[i].bucket)
      ensures forall i, d: Dir :: 0 <= i < |members| ==> SameButGroup(old(members[i].S(d)), members[i].S(d))
    {
      SuspensionsKeep();
      hide Bev.Valid, SameButGroup, Suspend, Unsuspend, Valid;
      Wake(Read, start, free);
      assert Possible(free) by { assert forall i :: 0 <= i < |members| ==> members[i].OnlySide(Read); }
      Wake(Write, start, free);
    }
  
    /** bufferevent_decrement_read_buckets_ and its twin, for a member. */
    method Decrement(bev: Bev, d: Dir, bytes: int, start: nat, free: set<Bev>)
      requires Valid() && bev in members && Possible(free) && start <= |members|
      requires Payable(d, bytes) && bev.Payable(d, bytes)
      modifies this`rd, this`wr, this`bucket, members
      ensures Valid() && bucket == old(bucket).With(d, old(bucket).Limit(d) - bytes)
      ensures G(d).suspended <==> bucket.Limit(d) <= 0
      ensures bev.cfg.Some? ==> bev.bucket == old(bev.bucket).With(d, old(bev.bucket.Limit(d)) - bytes)
      ensures old(Braked()) ==> Braked()
    {
      MemberKept(bev);
      hide Bev.Valid;
      bev.Charge(d, bytes);
      assert MemberOk(bev);
      assert forall i :: 0 <= i < |members| && members[i] != bev ==> MemberOk(members[i]);
      Charge(d, bytes, start, free);
    }

    /** The first step of bufferevent_add_to_rate_limit_group: the bufferevent's lock is kept until the second. */
    method Join(bev: Bev)
      requires Valid() && bev.Valid() && bev.group == null && bev.Clear() && !bev.held
      modifies this`members, bev`rd, bev`wr, bev`group, bev`held
      ensures Valid() && members == [bev] + old(members) && bev.group == this && bev.held
      ensures bev.rd == old(bev.rd).(joining := rd.suspended) && bev.wr == old(bev.wr).(joining := wr.suspended)
    {
      hide CfgOk, BucketOk;
      assert forall i :: 0 <= i < |members| ==> members[i].group == this && members[i] != bev;
      bev.group, bev.held := this, true;
      members := [bev] + members;
      bev.rd, bev.wr := bev.rd.(joining := rd.suspended), bev.wr.(joining := wr.suspended);
    }

    /** Its second step, whatever other threads did to the group since. */
    method FinishJoin(bev: Bev)
      requires Valid() && bev in members && bev.held
      modifies bev`rd, bev`wr, bev`held
      ensures Valid() && !bev.held && Joined(old(bev.rd), bev.rd) && Joined(old(bev.wr), bev.wr)
    {
      MemberKept(bev);
      bev.ActOnJoin();
      hide Bev.Valid;
    }

    /** bufferevent_remove_from_rate_limit_group: a bufferevent without a group does not wait for one. */
    method Remove(bev: Bev)
      requires Valid() && bev in members && !bev.held
      modifies this`members, bev`rd, bev`wr, bev`group
      ensures Valid() && bev.Valid() && bev.group == null && bev.Clear()
      ensures SameButGroup(old(bev.rd), bev.rd) && SameButGroup(old(bev.wr), bev.wr)
      ensures forall m :: m in members <==> m in old(members) && m != bev
      ensures |members| == |old(members)| - 1
    {
      assert MemberOk(bev);
      var k := IndexOf(members, bev);
      bev.group := null;
      ghost var all := members;
      members := members[..k] + members[k + 1..];
      Split(all, k);
      bev.UnsuspendFor(Read, GroupBandwidth);
      bev.UnsuspendFor(Write, GroupBandwidth);
    }

    /** bufferevent_get_rlim_max_ for a member; `single` is its max_single_read or max_single_write. */
    method GetMax(bev: Bev, d: Dir, tick: U32, single: nat) returns (n: int)
      requires Valid() && bev in members
      modifies bev`rd, bev`wr, bev`bucket
      ensures Valid()
      ensures G(d).suspended ==> n == 0 && bev.S(d).suspended == old(bev.S(d)).suspended + {GroupBandwidth}
      ensures G(d).suspended ==> bev.S(d).enabled == old(bev.S(d)).enabled && bev.S(d).joining == old(bev.S(d)).joining
      ensures (d.Read? ==> bev.wr == old(bev.wr)) && (d.Write? ==> bev.rd == old(bev.rd))
      ensures !G(d).suspended ==> bev.rd == old(bev.rd) && bev.wr == old(bev.wr)
      ensures !G(d).suspended ==>
        var own := if bev.cfg.Some? then bev.bucket.Limit(d) else single;
        n == Max(0, Min(own, Max(Quotient(bucket.Limit(d), |members|), minShare)))
      ensures bev.cfg.Some? ==> bev.bucket == Update(old(bev.bucket), bev.cfg.value, tick)
    {
      MemberKept(bev);
      hide Bev.Valid, Update;
      var most: int := single;
      if bev.cfg.Some? {
        bev.UpdateBuckets(tick);
        most := bev.bucket.Limit(d);
      }
      assert bev.Valid();
      var share := 0;
      if G(d).suspended {
        bev.SuspendMember(d);
      } else {
        share := Quotient(bucket.Limit(d), |members|);
        if share < minShare { share := minShare; }
      }
      if most > share { most := share; }
      if most < 0 { most := 0; }
      return most;
    }

    /** bufferevent_rate_limit_group_set_min_share. */
    method SetMinShare(share: nat) returns (ok: bool)
      requires Valid()
      modifies this`minShare, this`configuredShare
      ensures Valid() && ok == (share <= SSIZE_MAX)
      ensures ok ==> configuredShare == share && minShare == Min(share, Min(cfg.readRate, cfg.writeRate))
      ensures !ok ==> minShare == old(minShare) && configuredShare == old(configuredShare)
    {
      if share > SSIZE_MAX { return false; }
      configuredShare, minShare := share, share;
      if minShare > cfg.readRate { minShare := cfg.readRate; }
      if minShare > cfg.writeRate { minShare := cfg.writeRate; }
      return true;
    }

    /** bufferevent_rate_limit_group_set_cfg. */
    method SetCfg(newCfg: Cfg)
      requires Valid() && CfgOk(newCfg)
      modifies this`cfg, this`bucket, this`minShare
      ensures Valid() && cfg == newCfg && minShare == Min(configuredShare, Min(cfg.readRate, cfg.writeRate))
      ensures old(Braked()) ==> Braked()
      ensures forall d: Dir :: bucket.Limit(d) == Min(old(bucket).Limit(d), cfg.Max(d))
    {
      cfg := newCfg;
      bucket := Bucket(Min(bucket.read, cfg.readMax), Min(bucket.write, cfg.writeMax), bucket.last);
      minShare := Min(configuredShare, Min(cfg.readRate, cfg.writeRate));
    }

    /** What a member does on its own, between the steps of its group. */
    method MemberStep(bev: Bev, op: MemberOp)
      requires Valid() && bev in members && MemberOpOk(op)
      modifies bev`rd, bev`wr, bev`bucket, bev`timer, bev`cfg
      ensures Valid()
    {
      MemberKept(bev);
      hide Bev.Valid;
      bev.Own(op);
      assert MemberOk(bev);
      assert forall i :: 0 <= i < |members| && members[i] != bev ==> MemberOk(members[i]);
    }

    lemma MemberKept(bev: Bev)
      requires Valid() && bev in members
      ensures MemberOk(bev) && bev.Valid()
    {
    }
  }

  /** Division of a signed number, towards zero. */
  function Quotient(a: int, n: nat): (q: int)
    requires n > 0
    ensures (a >= 0 ==> q == a / n) && (a < 0 ==> q == -(-a / n) <= 0)
  {
    if a >= 0 then a / n else -(-a / n)
  }

  function Max(a: int, b: int): (m: int) { if a >= b then a else b }

  method IndexOf(ms: seq<Bev>, bev: Bev) returns (k: nat)
    requires bev in ms
    ensures k < |ms| && ms[k] == bev
  {
    k := 0;
    while ms[k] != bev
      invariant k < |ms| && bev in ms[k..]
      decreases |ms| - k
    {
      k := k + 1;
    }
  }

  lemma Split(ms: seq<Bev>, k: nat)
    requires NoDup(ms) && k < |ms|
    ensures NoDup(ms[..k] + ms[k + 1..])
    ensures forall m :: m in ms[..k] + ms[k + 1..] <==> m in ms && m != ms[k]
  {
    forall m ensures m in ms[..k] + ms[k + 1..] <==> m in ms && m != ms[k] {
      assert ms == ms[..k] + [ms[k]] + ms[k + 1..];
    }
  }

  // ---- whole runs of a group ----

  /** The member to start from, and the members whose locks could not be had. */
  datatype Turn = Turn(start: nat, missed: set<nat>)

  /** A step of some thread; `who` picks the member. */
  datatype GroupOp =
    | NewMember | FinishNew(who: nat) | Leave(who: nat)
    | Own(who: nat, op: MemberOp) | Spend(who: nat, d: Dir, bytes: int, turn: Turn) | Ask(who: nat, d: Dir, tick: U32)
    | GroupTick(tick: U32, turn: Turn) | SpendDirect(d: Dir, decr: int, turn: Turn)
    | ShareOp(share: nat) | GroupLimitOp(cfg: Cfg)

  ghost predicate GroupOpOk(op: GroupOp) {
    (op.Own? ==> MemberOpOk(op.op)) && (op.GroupLimitOp? ==> CfgOk(op.cfg))
  }

  /** No step sets the least share to nothing. */
  ghost predicate Shares(ops: seq<GroupOp>) {
    forall i :: 0 <= i < |ops| && ops[i].ShareOp? ==> ops[i].share >= 1
  }

  /**
   * Under any interleaving, with any locks missed, no member is left waiting for a group that
   * will not wake it; and unless the least share was set to nothing, an exhausted group is suspended.
   */
  method RunGroup(cfg: Cfg, tick0: U32, ops: seq<GroupOp>) returns (g: Group)
    requires CfgOk(cfg) && forall i :: 0 <= i < |ops| ==> GroupOpOk(ops[i])
    ensures g.Valid() && (Shares(ops) ==> g.Braked())
  {
    hide Group.Valid, Bev.Valid, Group.Braked;
    g := new Group(cfg, tick0);
    for i := 0 to |ops|
      invariant fresh(g) && g.Valid() && forall k :: 0 <= k < |g.members| ==> fresh(g.members[k])
      invariant Shares(ops) ==> g.Braked() && g.configuredShare >= 1
    {
      OneOp(g, ops[i]);
    }
  }

  /** A least share of nothing: one refill wakes an exhausted group. */
  method ShareOfNothing() returns (g: Group)
    ensures g.Valid() && !g.Braked()
  {
    hide Bev.Valid, Update;
    g := new Group(Cfg(1, 1, 1, 1), 0);
    var _ := g.SetMinShare(0);
    g.Charge(Read, 1, 0, {});
    g.RefillCallback(0, 0, {});
    assert g.bucket.Limit(Read) == 0;
  }

  /** The members whose lock can be had: not those missed, and not those held between two steps. */
  method Free(ms: seq<Bev>, missed: set<nat>) returns (free: set<Bev>)
    ensures forall i :: 0 <= i < |ms| && ms[i].held ==> ms[i] !in free
    ensures forall i :: 0 <= i < |ms| && !ms[i].held && i !in missed ==> ms[i] in free
  {
    free := {};
    for i := 0 to |ms|
      invariant forall b :: b in free ==> !b.held
      invariant forall k :: 0 <= k < i && !ms[k].held && k !in missed ==> ms[k] in free
    {
      if i !in missed && !ms[i].held { free := free + {ms[i]}; }
    }
  }

  method OneOp(g: Group, op: GroupOp)
    requires g.Valid() && GroupOpOk(op)
    modifies g, g.members
    ensures g.Valid() && forall k :: 0 <= k < |g.members| ==> g.members[k] in old(g.members) || fresh(g.members[k])
    ensures g.configuredShare == old(g.configuredShare) || (op.ShareOp? && g.configuredShare == op.share)
    ensures old(g.Braked()) && old(g.configuredShare) >= 1 ==> g.Braked()
  {
    hide Bev.Valid;
    match op
    case NewMember =>
      var b := new Bev();
      g.Join(b);
    case FinishNew(who) =>
      if who < |g.members| && g.members[who].held { g.FinishJoin(g.members[who]); }
    case Leave(who) =>
      if who < |g.members| && !g.members[who].held { g.Remove(g.members[who]); }
    case Own(who, o) =>
      if who < |g.members| && !g.members[who].held { g.MemberStep(g.members[who], o); }
    case Spend(who, d, bytes, turn) =>
      var free := Free(g.members, turn.missed);
      if who < |g.members| && !g.members[who].held && turn.start <= |g.members|
         && g.Payable(d, bytes) && g.members[who].Payable(d, bytes) {
        g.Decrement(g.members[who], d, bytes, turn.start, free);
      }
    case Ask(who, d, tick) =>
      if who < |g.members| && !g.members[who].held { var _ := g.GetMax(g.members[who], d, tick, 16384); }
    case GroupTick(tick, turn) =>
      var free := Free(g.members, turn.missed);
      if turn.start <= |g.members| { g.RefillCallback(tick, turn.start, free); }
    case SpendDirect(d, decr, turn) =>
      var free := Free(g.members, turn.missed);
      if turn.start <= |g.members| && g.Payable(d, decr) { g.DecrementLimit(d, decr, turn.start, free); }
    case ShareOp(share) =>
      var _ := g.SetMinShare(share);
    case GroupLimitOp(cfg) =>
      g.SetCfg(cfg);
  }

  // ---- a suspended group wakes ----

  /**
   * A group left alone, one refill callback a tick: a suspended direction whose limit is below the
   * share is woken by the tick that makes up what is missing, not before and not later; and if
   * that tick could have every lock, no member waits any more.
   */
  method RefillTicks(g: Group, turns: seq<Turn>)
    requires g.Valid() && forall i :: 0 <= i < |turns| ==> turns[i].start <= |g.members|
    modifies g`rd, g`wr, g`bucket, g.members
    ensures g.Valid() && g.bucket == Ticked(old(g.bucket), g.cfg, |turns|)
    ensures forall d: Dir :: !old(g.G(d)).suspended ==> !g.G(d).suspended
    ensures forall d: Dir :: old(g.G(d)).suspended && old(g.bucket).Limit(d) >= g.minShare ==> (g.G(d).suspended <==> turns == [])
    ensures forall d: Dir :: old(g.G(d)).suspended && old(g.bucket).Limit(d) < g.minShare ==>
      (g.G(d).suspended <==> |turns| < Ceil(g.minShare - old(g.bucket).Limit(d), g.cfg.Rate(d)))
    ensures turns != [] && turns[|turns| - 1].missed == {} && old(Unheld(g)) ==> forall d: Dir :: !g.G(d).suspended ==> Awake(g, d)
  {
    hide Group.Valid, Bev.Valid, Update, Elapsed, Ticked, Ceil, Group.G;
    ghost var b := g.bucket;
    Scope(g);
    TickedZero(b, g.cfg);
    for i := 0 to |turns|
      invariant old(Unheld(g)) ==> Unheld(g)
      invariant i > 0 && turns[i - 1].missed == {} && old(Unheld(g)) ==> forall d: Dir :: !g.G(d).pending
      invariant g.Valid() && g.bucket == Ticked(b, g.cfg, i)
      invariant forall d: Dir :: g.G(d).suspended <==> old(g.G(d)).suspended && (i == 0 || Ticked(b, g.cfg, i).Limit(d) < g.minShare)
    {
      var free := Free(g.members, turns[i].missed);
      TickedNext(b, g.cfg, i);
      Scope(g);
      g.RefillCallback((g.bucket.last + 1) % WORD, turns[i].start, free);
    }
    SharesReached(b, g.cfg, g.minShare, |turns|);
    Rested(g);
  }

  /** No thread is between two steps with a member's lock. */
  ghost predicate Unheld(g: Group)
    reads g, g.members
  {
    forall i :: 0 <= i < |g.members| ==> !g.members[i].held
  }

  /** No member waits for the group. */
  ghost predicate Awake(g: Group, d: Dir)
    reads g, g.members
  {
    forall i :: 0 <= i < |g.members| ==> GroupBandwidth !in g.members[i].S(d).suspended
  }

  lemma Rested(g: Group)
    requires g.Valid()
    ensures forall d: Dir :: !g.G(d).suspended && !g.G(d).pending ==> Awake(g, d)
  {
  }

  lemma Scope(g: Group)
    requires g.Valid()
    ensures CfgOk(g.cfg) && BucketOk(g.bucket, g.cfg) && 0 <= g.minShare && forall d: Dir :: g.minShare <= g.cfg.Rate(d)
  {
  }
}
