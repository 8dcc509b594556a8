/**
 * Token buckets (bufferevent_ratelim.c): how many bytes may be read or written now.
 * Sizes and limits are 32 bits wide, as on the platform this library is built for;
 * limits are signed, since a bucket may be overdrawn.
 */
module TokenBuckets {
  import opened Wrappers

  const SSIZE_MIN: int := -0x8000_0000

  datatype Dir = Read | Write

  /** struct ev_token_bucket_cfg, without the length of a tick. */
  datatype Cfg = Cfg(readRate: nat, readMax: nat, writeRate: nat, writeMax: nat) {
    function Rate(d: Dir): (n: nat) { if d.Read? then readRate else writeRate }
    function Max(d: Dir): (n: nat) { if d.Read? then readMax else writeMax }
  }

  datatype Bucket = Bucket(read: int, write: int, last: U32) {
    function Limit(d: Dir): (n: int) { if d.Read? then read else write }

    /** The bucket with another limit in one direction. */
    function With(d: Dir, n: int): (b: Bucket)
      ensures b.last == last && forall e: Dir :: b.Limit(e) == if e == d then n else Limit(e)
    {
      if d.Read? then this.(read := n) else this.(write := n)
    }
  }

  ghost predicate CfgOk(cfg: Cfg) {
    1 <= cfg.readRate <= cfg.readMax <= SSIZE_MAX && 1 <= cfg.writeRate <= cfg.writeMax <= SSIZE_MAX
  }

  /** ev_token_bucket_cfg_new: succeeds on exactly the configurations that make sense. */
  function CfgNew(readRate: nat, readBurst: nat, writeRate: nat, writeBurst: nat): (r: Option<Cfg>)
    ensures r.Some? <==> CfgOk(Cfg(readRate, readBurst, writeRate, writeBurst))
    ensures r.Some? ==> r.value.Rate(Read) == readRate && r.value.Max(Read) == readBurst
    ensures r.Some? ==> r.value.Rate(Write) == writeRate && r.value.Max(Write) == writeBurst
  {
    var cfg := Cfg(readRate, readBurst, writeRate, writeBurst);
    if readRate > readBurst || writeRate > writeBurst || readRate < 1 || writeRate < 1 then None
    else if readRate > SSIZE_MAX || writeRate > SSIZE_MAX || readBurst > SSIZE_MAX || writeBurst > SSIZE_MAX then None
    else Some(cfg)
  }

  /** A bucket that is not above its maximum. */
  ghost predicate BucketOk(b: Bucket, cfg: Cfg) {
    SSIZE_MIN <= b.read <= cfg.readMax && SSIZE_MIN <= b.write <= cfg.writeMax
  }

  lemma DivLess(a: nat, n: nat, r: nat)
    requires n > 0
    ensures a / n < r <==> a < n * r
  {
    var q := a / n;
    assert a == n * q + a % n;
    if q < r { assert n * (q + 1) <= n * r; } else { assert n * r <= n * q; }
  }

  /**
   * One direction of ev_token_bucket_update_, in wrapping 32-bit arithmetic: the refill, capped,
   * that unbounded arithmetic would give, exactly when the limit was not above the maximum
   * or the refill goes once around the whole range.
   */
  function Credit(limit: int, rate: nat, max: nat, n: U32): (r: int)
    requires SSIZE_MIN <= limit <= SSIZE_MAX && 1 <= rate <= max <= SSIZE_MAX && 1 <= n
    ensures SSIZE_MIN <= r <= SSIZE_MAX
    ensures r == Min(max, limit + n * rate) <==> limit <= max || limit + n * rate >= WORD + max
  {
    var room: U32 := (max - limit) % WORD;
    CreditFits(room, n, rate);
    CreditSum(limit, n * rate, max);
    if room / n < rate then max else Signed((limit + (n * rate) % WORD) % WORD)
  }

  lemma CreditSum(limit: int, refill: nat, max: nat)
    requires SSIZE_MIN <= limit <= SSIZE_MAX && 1 <= max <= SSIZE_MAX
    ensures var room := (max - limit) % WORD; var r := if room < refill then max else Signed((limit + refill) % WORD);
      SSIZE_MIN <= r <= SSIZE_MAX && (r == Min(max, limit + refill) <==> limit <= max || limit + refill >= WORD + max)
  {
    var room := (max - limit) % WORD;
    assert room == if limit <= max then max - limit else WORD + max - limit;
    assert room >= refill ==> limit + refill <= WORD + max;
  }

  lemma CreditFits(room: U32, n: nat, rate: nat)
    requires n > 0
    ensures room / n < rate <==> room < n * rate
    ensures room / n >= rate ==> (n * rate) % WORD == n * rate
  {
    DivLess(room, n, rate);
  }

  /** A refund above the maximum is not clipped by a tick: the limit goes on growing, and then turns negative. */
  lemma RefundGrows(limit: int, rate: nat, max: nat)
    requires 1 <= rate <= max < limit <= SSIZE_MAX
    ensures limit + rate <= SSIZE_MAX ==> Credit(limit, rate, max, 1) == limit + rate
    ensures limit + rate > SSIZE_MAX ==> Credit(limit, rate, max, 1) == limit + rate - WORD < 0
  {
  }

  /** How many ticks an update credits: none if time stood still or went back. */
  function Elapsed(last: U32, now: U32): (n: U32)
    ensures n <= SSIZE_MAX
  {
    var n := (now - last) % WORD;
    if n > SSIZE_MAX then 0 else n
  }

  /** Ticks wrap around: between two updates less than half the range apart they count right. */
  lemma ElapsedWraps(t: nat, n: nat)
    ensures n <= SSIZE_MAX ==> Elapsed(t % WORD, (t + n) % WORD) == n
    ensures SSIZE_MAX < n < WORD ==> Elapsed(t % WORD, (t + n) % WORD) == 0
  {
    if n < WORD {
      assert ((t + n) % WORD - t % WORD) % WORD == n by {
        var a, b := t / WORD, (t + n) / WORD;
        assert (t + n) % WORD - t % WORD == n - (b - a) * WORD;
        assert a <= b <= a + 1;
      }
    }
  }

  /** ev_token_bucket_update_. */
  function Update(b: Bucket, cfg: Cfg, tick: U32): (r: Bucket)
    requires CfgOk(cfg) && BucketOk(b, cfg)
    ensures BucketOk(r, cfg)
    ensures forall d: Dir :: r.Limit(d) == Min(cfg.Max(d), b.Limit(d) + Elapsed(b.last, tick) * cfg.Rate(d))
    ensures Elapsed(b.last, tick) > 0 ==> r.last == tick
    ensures Elapsed(b.last, tick) == 0 ==> r == b
  {
    var n := (tick - b.last) % WORD;
    if n == 0 || n > SSIZE_MAX then b
    else
      Bucket(Credit(b.read, cfg.readRate, cfg.readMax, n), Credit(b.write, cfg.writeRate, cfg.writeMax, n), tick)
  }

  lemma UpdateGrows(b: Bucket, cfg: Cfg, tick: U32)
    requires CfgOk(cfg) && BucketOk(b, cfg)
    ensures forall d: Dir :: b.Limit(d) <= Update(b, cfg, tick).Limit(d)
    ensures b.read <= Update(b, cfg, tick).read && b.write <= Update(b, cfg, tick).write
    ensures BucketOk(Update(b, cfg, tick), cfg)
  {
    hide Elapsed, Credit;
    assert Update(b, cfg, tick).Limit(Read) >= b.Limit(Read) && Update(b, cfg, tick).Limit(Write) >= b.Limit(Write);
  }

  /** ev_token_bucket_init_: a new bucket holds one tick's worth; a new configuration only clips. */
  function Init(b: Bucket, cfg: Cfg, tick: U32, reinitialize: bool): (r: Bucket)
    requires CfgOk(cfg) && (reinitialize ==> SSIZE_MIN <= b.read && SSIZE_MIN <= b.write)
    ensures BucketOk(r, cfg)
    ensures forall d: Dir :: r.Limit(d) == if reinitialize then Min(b.Limit(d), cfg.Max(d)) else cfg.Rate(d)
    ensures forall d: Dir :: r.Limit(d) <= 0 ==> reinitialize && b.Limit(d) <= 0
    ensures r.last == if reinitialize then b.last else tick
  {
    if reinitialize then
      Bucket(if b.read > cfg.readMax then cfg.readMax else b.read, if b.write > cfg.writeMax then cfg.writeMax else b.write, b.last)
    else
      Bucket(cfg.readRate, cfg.writeRate, tick)
  }

  // ---- conformance ----

  datatype Step = Charge(bytes: nat) | Tick(tick: U32)

  /** The bucket after a run of charges and updates in direction `d`. */
  ghost function Run(b: Bucket, cfg: Cfg, d: Dir, steps: seq<Step>): (r: Bucket)
    requires CfgOk(cfg) && BucketOk(b, cfg) && Affordable(b, cfg, d, steps)
    decreases |steps|
  {
    if steps == [] then b else Run(Next(b, cfg, d, steps[0]), cfg, d, steps[1..])
  }

  ghost function Next(b: Bucket, cfg: Cfg, d: Dir, s: Step): (r: Bucket)
    requires CfgOk(cfg) && BucketOk(b, cfg) && (s.Charge? ==> s.bytes <= b.Limit(d))
    ensures BucketOk(r, cfg)
  {
    if s.Charge? then b.With(d, b.Limit(d) - s.bytes) else Update(b, cfg, s.tick)
  }

  /** No charge is more than the limit at the time. */
  ghost predicate Affordable(b: Bucket, cfg: Cfg, d: Dir, steps: seq<Step>)
    requires CfgOk(cfg) && BucketOk(b, cfg)
    decreases |steps|
  {
    steps != [] ==>
      (steps[0].Charge? ==> steps[0].bytes <= b.Limit(d)) && Affordable(Next(b, cfg, d, steps[0]), cfg, d, steps[1..])
  }

  ghost function Spent(s: Step): (n: nat) { if s.Charge? then s.bytes else 0 }

  ghost function Gained(b: Bucket, s: Step): (n: nat) { if s.Tick? then Elapsed(b.last, s.tick) else 0 }

  ghost function Charged(steps: seq<Step>): (n: nat) {
    if steps == [] then 0 else Spent(steps[0]) + Charged(steps[1..])
  }

  /** The ticks credited during a run. */
  ghost function Credited(b: Bucket, cfg: Cfg, d: Dir, steps: seq<Step>): (n: nat)
    requires CfgOk(cfg) && BucketOk(b, cfg) && Affordable(b, cfg, d, steps)
    decreases |steps|
  {
    if steps == [] then 0 else
      Gained(b, steps[0]) + Credited(Next(b, cfg, d, steps[0]), cfg, d, steps[1..])
  }

  /**
   * A run that never overdraws the bucket keeps the limit between zero and the maximum,
   * and never spends more than the maximum and the credited ticks allow.
   */
  lemma {:induction false} Conforms(b: Bucket, cfg: Cfg, d: Dir, steps: seq<Step>)
    requires CfgOk(cfg) && BucketOk(b, cfg) && b.Limit(d) >= 0 && Affordable(b, cfg, d, steps)
    ensures 0 <= Run(b, cfg, d, steps).Limit(d) <= cfg.Max(d)
    ensures Charged(steps) + Run(b, cfg, d, steps).Limit(d) <= b.Limit(d) + Credited(b, cfg, d, steps) * cfg.Rate(d)
    ensures Charged(steps) <= cfg.Max(d) + Credited(b, cfg, d, steps) * cfg.Rate(d)
    decreases |steps|
  {
    hide Next, Update, Elapsed, Spent, Gained;
    if steps != [] {
      var c := Next(b, cfg, d, steps[0]);
      StepConforms(b, cfg, d, steps[0]);
      Conforms(c, cfg, d, steps[1..]);
      Distribute(Gained(b, steps[0]), Credited(c, cfg, d, steps[1..]), cfg.Rate(d));
    }
  }

  lemma Distribute(n: nat, m: nat, r: nat)
    ensures (n + m) * r == n * r + m * r
  {
  }

  lemma StepConforms(b: Bucket, cfg: Cfg, d: Dir, s: Step)
    requires CfgOk(cfg) && BucketOk(b, cfg) && b.Limit(d) >= 0 && (s.Charge? ==> s.bytes <= b.Limit(d))
    ensures 0 <= Next(b, cfg, d, s).Limit(d)
    ensures Spent(s) + Next(b, cfg, d, s).Limit(d) <= b.Limit(d) + Gained(b, s) * cfg.Rate(d)
  {
    hide Update, Elapsed, Credit;
  }

  /** A run against the clock: bytes are charged, or the bucket is updated at a time in ticks. */
  datatype Timed = Pay(bytes: nat) | At(time: nat)

  ghost function Plain(ts: seq<Timed>): (steps: seq<Step>)
    ensures |steps| == |ts|
  {
    seq(|ts|, i requires 0 <= i < |ts| => if ts[i].Pay? then Charge(ts[i].bytes) else Tick(ts[i].time % WORD))
  }

  /** Time does not go back from `t` on, and no two updates are half the range of ticks apart. */
  ghost predicate Forward(t: nat, ts: seq<Timed>)
    decreases |ts|
  {
    ts != [] ==> (ts[0].At? ==> t <= ts[0].time <= t + SSIZE_MAX) && Forward(if ts[0].At? then ts[0].time else t, ts[1..])
  }

  ghost function Latest(t: nat, ts: seq<Timed>): (e: nat)
    decreases |ts|
  {
    if ts == [] then t else Latest(if ts[0].At? then ts[0].time else t, ts[1..])
  }

  ghost function Paid(ts: seq<Timed>): (n: nat) {
    if ts == [] then 0 else (if ts[0].Pay? then ts[0].bytes else 0) + Paid(ts[1..])
  }

  lemma {:induction false} CreditedOverTime(b: Bucket, cfg: Cfg, d: Dir, t: nat, ts: seq<Timed>)
    requires CfgOk(cfg) && BucketOk(b, cfg) && b.last == t % WORD && Forward(t, ts) && Affordable(b, cfg, d, Plain(ts))
    ensures Credited(b, cfg, d, Plain(ts)) + t == Latest(t, ts) && Charged(Plain(ts)) == Paid(ts)
    decreases |ts|
  {
    hide Update, Elapsed;
    if ts != [] {
      var steps := Plain(ts);
      assert steps[1..] == Plain(ts[1..]);
      var c := Next(b, cfg, d, steps[0]);
      if ts[0].At? {
        var u := ts[0].time;
        ElapsedWraps(t, u - t);
        assert Elapsed(b.last, u % WORD) == u - t;
        CreditedOverTime(c, cfg, d, u, ts[1..]);
      } else {
        CreditedOverTime(c, cfg, d, t, ts[1..]);
      }
    }
  }

  /** In any run against the clock that never overdraws, what is paid fits the maximum and the time that passed. */
  lemma ConformsOverTime(b: Bucket, cfg: Cfg, d: Dir, t: nat, ts: seq<Timed>)
    requires CfgOk(cfg) && BucketOk(b, cfg) && b.last == t % WORD && Forward(t, ts)
    requires b.Limit(d) >= 0 && Affordable(b, cfg, d, Plain(ts))
    ensures t <= Latest(t, ts) && Paid(ts) <= cfg.Max(d) + (Latest(t, ts) - t) * cfg.Rate(d)
  {
    hide Credited, Charged, Plain, Latest, Paid, Affordable, Run;
    Conforms(b, cfg, d, Plain(ts));
    CreditedOverTime(b, cfg, d, t, ts);
  }

  // ---- refilling alone ----

  /** The bucket after `k` refills, one tick apart and with no charge between them. */
  ghost function Ticked(b: Bucket, cfg: Cfg, k: nat): (r: Bucket)
    requires CfgOk(cfg) && BucketOk(b, cfg)
    ensures BucketOk(r, cfg)
  {
    if k == 0 then b else
      var p := Ticked(b, cfg, k - 1);
      Update(p, cfg, (p.last + 1) % WORD)
  }

  lemma {:induction false} TickedLimit(b: Bucket, cfg: Cfg, d: Dir, k: nat)
    requires CfgOk(cfg) && BucketOk(b, cfg)
    ensures Ticked(b, cfg, k).Limit(d) == Min(cfg.Max(d), b.Limit(d) + k * cfg.Rate(d))
  {
    hide Update, Elapsed;
    if k > 0 {
      TickedLimit(b, cfg, d, k - 1);
      OneTick(Ticked(b, cfg, k - 1), cfg, d);
      Distribute(k - 1, 1, cfg.Rate(d));
    }
  }

  lemma OneTick(b: Bucket, cfg: Cfg, d: Dir)
    requires CfgOk(cfg) && BucketOk(b, cfg)
    ensures Update(b, cfg, (b.last + 1) % WORD).Limit(d) == Min(cfg.Max(d), b.Limit(d) + cfg.Rate(d))
  {
    hide Update, Elapsed;
    ElapsedWraps(b.last, 1);
    assert Elapsed(b.last, (b.last + 1) % WORD) == 1;
  }

  ghost function Ceil(a: nat, n: nat): (k: nat)
    requires n > 0
  {
    (a + n - 1) / n
  }

  /**
   * A bucket below the share a group waits for is above it after as many uncharged
   * ticks as the missing bytes take, and stays so.
   */
  lemma RefilledWithin(b: Bucket, cfg: Cfg, d: Dir, share: nat, k: nat)
    requires CfgOk(cfg) && BucketOk(b, cfg) && b.Limit(d) < share <= cfg.Rate(d)
    ensures k >= Ceil(share - b.Limit(d), cfg.Rate(d)) ==> Ticked(b, cfg, k).Limit(d) >= share
    ensures k < Ceil(share - b.Limit(d), cfg.Rate(d)) ==> Ticked(b, cfg, k).Limit(d) < share
  {
    TickedLimit(b, cfg, d, k);
    CeilTicks(share - b.Limit(d), cfg.Rate(d), k);
  }

  lemma CeilTicks(a: nat, r: nat, k: nat)
    requires r > 0
    ensures k >= Ceil(a, r) <==> k * r >= a
  {
    DivLess(a + r - 1, r, k + 1);
    assert r * (k + 1) == k * r + r;
  }

  lemma TickedZero(b: Bucket, cfg: Cfg)
    requires CfgOk(cfg) && BucketOk(b, cfg)
    ensures Ticked(b, cfg, 0) == b
  {
  }

  lemma TickedNext(b: Bucket, cfg: Cfg, k: nat)
    requires CfgOk(cfg) && BucketOk(b, cfg)
    ensures Ticked(b, cfg, k + 1) == Update(Ticked(b, cfg, k), cfg, (Ticked(b, cfg, k).last + 1) % WORD)
    ensures forall d: Dir :: Ticked(b, cfg, k + 1).Limit(d) >= Ticked(b, cfg, k).Limit(d)
  {
    hide Update, Elapsed;
    UpdateGrows(Ticked(b, cfg, k), cfg, (Ticked(b, cfg, k).last + 1) % WORD);
  }

  lemma {:induction false} TickedGrows(b: Bucket, cfg: Cfg, d: Dir, k: nat)
    requires CfgOk(cfg) && BucketOk(b, cfg)
    ensures Ticked(b, cfg, k).Limit(d) >= b.Limit(d)
  {
    hide Update, Elapsed;
    if k > 0 {
      TickedGrows(b, cfg, d, k - 1);
      TickedNext(b, cfg, k - 1);
    }
  }

  lemma SharesReached(b: Bucket, cfg: Cfg, share: nat, k: nat)
    requires CfgOk(cfg) && BucketOk(b, cfg) && forall d: Dir :: share <= cfg.Rate(d)
    ensures forall d: Dir :: b.Limit(d) >= share ==> Ticked(b, cfg, k).Limit(d) >= share
    ensures forall d: Dir :: b.Limit(d) < share ==>
      (Ticked(b, cfg, k).Limit(d) < share <==> k < Ceil(share - b.Limit(d), cfg.Rate(d)))
    ensures forall d: Dir :: b.Limit(d) < share ==> 0 < Ceil(share - b.Limit(d), cfg.Rate(d))
  {
    hide Ticked, Ceil;
    forall d: Dir
      ensures b.Limit(d) >= share ==> Ticked(b, cfg, k).Limit(d) >= share
    {
      TickedGrows(b, cfg, d, k);
    }
    forall d: Dir | b.Limit(d) < share
      ensures Ticked(b, cfg, k).Limit(d) < share <==> k < Ceil(share - b.Limit(d), cfg.Rate(d))
      ensures 0 < Ceil(share - b.Limit(d), cfg.Rate(d))
    {
      RefilledWithin(b, cfg, d, share, k);
      RefilledWithin(b, cfg, d, share, 0);
      TickedZero(b, cfg);
    }
  }
}
