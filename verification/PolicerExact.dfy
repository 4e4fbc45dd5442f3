/**
 Exactly which packets the policer lets pass on a run, told from the packets: a packet to a known destination passes if
 and only if it fits every window that ends with it, back to where its bucket was last simply filled.
 */
module PolicerExact {
  import opened Bits
  import opened Options
  import opened Packets
  import opened PolicerLimits
  import opened PolicerSpec
  import opened PoolSpec
  import opened Progressions
  import opened TableSpec

  function Min(a: nat, b: nat): nat {
    if a < b then a else b
  }

  /** A bucket earns its rate for the time elapsed, up to the burst, exactly if the addition is not truncated. */
  lemma RefillIsEarnedIff(c: Config, b: Bucket, now: nat)
    requires ConfigOk(c) && b.size <= c.burst && b.time <= now <= TIME_MAX && now - b.time < c.burst / c.rate
    ensures Refill(c, b, now) == Min(c.burst, b.size + c.rate * (now - b.time)) <==>
              b.size + c.rate * (now - b.time) <= TIME_MAX
  {
    var q, elapsed := c.burst / c.rate, now - b.time;
    ElapsedIs(b, now);
    DivisionLaw(c.burst, c.rate);
    RateMonotone(c.rate, elapsed, q - 1);
    RateDistributes(c.rate, q - 1, 1);
    RateCommutes(c.rate, elapsed);
    WrappedIs(b.size + c.rate * elapsed);
  }

  lemma WrappedIs(size: nat)
    requires size <= 2 * TIME_MAX
    ensures size % (TIME_MAX + 1) == if size <= TIME_MAX then size else size - TIME_MAX - 1
  {
  }

  /** No refill can be truncated: not even that of a full bucket just before it would simply be filled. */
  predicate NoWrap(c: Config)
    requires ConfigOk(c)
  {
    c.burst < c.rate || c.burst + c.rate * (c.burst / c.rate - 1) <= TIME_MAX
  }

  lemma EarnedUnwrapped(c: Config, b: Bucket, now: nat)
    requires ConfigOk(c) && NoWrap(c) && b.size <= c.burst && b.time <= now <= TIME_MAX
    requires now - b.time < c.burst / c.rate
    ensures Refill(c, b, now) == Min(c.burst, b.size + c.rate * (now - b.time))
  {
    RateMonotone(c.rate, now - b.time, c.burst / c.rate - 1);
    RefillIsEarnedIff(c, b, now);
  }

  /** A refill yields at most the burst, and no more than was earned unless it simply fills the bucket. */
  lemma EarnedAtMost(c: Config, b: Bucket, now: nat)
    requires ConfigOk(c) && b.size <= c.burst && b.time <= now <= TIME_MAX
    requires now - b.time < c.burst / c.rate || c.burst % c.rate == 0
    ensures Refill(c, b, now) <= Min(c.burst, b.size + c.rate * (now - b.time))
  {
    var q, elapsed := c.burst / c.rate, now - b.time;
    ElapsedIs(b, now);
    DivisionLaw(c.burst, c.rate);
    if elapsed >= q {
      RateMonotone(c.rate, q, elapsed);
    }
    RateCommutes(c.rate, elapsed);
    TruncatedIsLess(b.size + elapsed * c.rate);
  }

  /** A packet is policed and goes to a given destination. */
  predicate IsFor(c: Config, p: Packet, d: nat) {
    Policed(c, p) && p.dstIp == d
  }

  /** The destination has no bucket, or one that is simply filled, as the whole-unit refill time has passed. */
  predicate StartsAfresh(c: Config, v: Option<Bucket>, now: nat)
    requires ConfigOk(c)
  {
    v.None? || now >= v.value.time + c.burst / c.rate
  }

  /** Packet `k` to a destination finds no bucket there, or one that it fills. */
  ghost predicate Restarts(c: Config, r: Run, d: nat, k: nat) {
    && ConfigOk(c) && k < |r.packets| && k < |r.states| && IsFor(c, r.packets[k], d)
    && StateOk(c, r.states[k]) && StartsAfresh(c, View(r.states[k], d), r.packets[k].time)
  }

  /** Between packets `i` and `n` the destination's bucket is refilled by what it earns only. */
  ghost predicate Unbroken(c: Config, r: Run, d: nat, i: nat, n: nat) {
    forall k: nat :: i < k < n ==> !Restarts(c, r, d, k)
  }

  /** The whole-unit refill time is exact, and a bucket that expires has filled up. */
  predicate Ideal(c: Config)
    requires ConfigOk(c)
  {
    c.burst % c.rate == 0 && LongEnough(c, c.burst)
  }

  /** What passed since time `since` and what is in the bucket together are within the rate. */
  ghost predicate Covered(c: Config, b: Bucket, passed: nat, since: nat) {
    && b.size <= c.burst
    && if b.time < since then passed == 0 else passed + b.size <= c.burst + c.rate * (b.time - since)
  }

  ghost predicate Account(c: Config, v: Option<Bucket>, passed: nat, since: nat, now: nat)
    requires ConfigOk(c)
  {
    && since <= now
    && match v
       case None => Ideal(c) ==> passed <= c.rate * (now - since)
       case Some(b) => b.time <= now && Covered(c, b, passed, since)
  }

  /** A packet that passes leaves the window's total strictly below what the bucket covers. */
  lemma PassesBelow(c: Config, b: Bucket, passed: nat, since: nat, p: Packet)
    requires ConfigOk(c) && Covered(c, b, passed, since) && b.time <= p.time <= TIME_MAX && since <= p.time
    requires p.time - b.time < c.burst / c.rate || c.burst % c.rate == 0 || (passed == 0 && since == p.time)
    ensures passed + Refill(c, b, p.time) <= c.burst + c.rate * (p.time - since)
    ensures Refill(c, b, p.time) <= c.burst
  {
    hide Refill;
    RefillAtMost(c, b, p.time);
    RateMonotone(c.rate, 0, p.time - since);
    if passed > 0 {
      EarnedAtMost(c, b, p.time);
      RateAdds(c.rate, since, b.time, p.time);
    }
  }

  lemma AccountEviction(c: Config, b: Bucket, passed: nat, since: nat, now: nat)
    requires ConfigOk(c) && Account(c, Some(b), passed, since, now) && !Young(now, Expiration(c), b.time)
    ensures Account(c, None, passed, since, now)
  {
    hide Expiration, LongEnough;
    if Ideal(c) {
      ExpiredEarned(c, b.time, now, c.burst);
      RateAdds(c.rate, since, b.time, now);
      RateMonotone(c.rate, 0, now - since);
    }
  }

  lemma AccountStep(c: Config, v: Option<Bucket>, passed: nat, since: nat, now: nat, p: Packet, passes: bool,
                    v': Option<Bucket>, d: nat)
    requires ConfigOk(c) && Account(c, v, passed, since, now) && now <= p.time <= TIME_MAX
    requires ViewStep(c, v, p, passes, v', d)
    requires Ideal(c) || (passed == 0 && since == p.time) || !(IsFor(c, p, d) && StartsAfresh(c, v, p.time))
    ensures Account(c, v', passed + (if IsFor(c, p, d) && passes then p.length else 0), since, p.time)
  {
    hide Refill, Expiration, Young, LongEnough;
    RateMonotone(c.rate, now - since, p.time - since);
    if IsFor(c, p, d) {
      if v.Some? {
        PassesBelow(c, v.value, passed, since, p);
      }
    } else if v.Some? && v'.None? {
      AccountEviction(c, v.value, passed, since, p.time);
    }
  }

  /** The account of a destination is kept from any packet on up to where its bucket is simply filled, or for ever. */
  lemma {:induction false} AccountKept(c: Config, r: Run, d: nat, i: nat, n: nat)
    requires IsRun(c, r) && i < n <= |r.packets| && (Ideal(c) || Unbroken(c, r, d, i, n))
    ensures StateOk(c, r.states[n])
    ensures Account(c, View(r.states[n], d), Passed(c, r, d, i, n), r.packets[i].time, r.packets[n - 1].time)
  {
    hide Step, View, ViewStep, Account, Ideal;
    var p, since := r.packets[n - 1], r.packets[i].time;
    var s := r.states[n - 1];
    assert StepAt(c, r, n - 1);
    StepView(c, s, p, d);
    var now := since;
    if i < n - 1 {
      AccountKept(c, r, d, i, n - 1);
      now := r.packets[n - 2].time;
      assert Ideal(c) || !Restarts(c, r, d, n - 1);
    } else {
      BucketsNotFromTheFuture(c, r, i, d);
      AccountStart(c, View(s, d), since);
    }
    AccountStep(c, View(s, d), Passed(c, r, d, i, n - 1), since, now, p, r.outputs[n - 1].Send?,
                View(r.states[n], d), d);
  }

  lemma AccountStart(c: Config, v: Option<Bucket>, since: nat)
    requires ConfigOk(c) && (v.Some? ==> v.value.time <= since && v.value.size <= c.burst)
    ensures Account(c, v, 0, since, since)
  {
  }

  /** The bucket's contents are all that the rate allows in some window that begins at time `since`. */
  ghost predicate Used(c: Config, b: Bucket, passed: nat, since: nat) {
    since <= b.time && passed + b.size == c.burst + c.rate * (b.time - since)
  }

  /** A charge goes on with the window that the bucket used up, or begins a new one with a full bucket. */
  lemma UsedCharge(c: Config, b: Bucket, passed: nat, since: nat, p: Packet)
    requires ConfigOk(c) && NoWrap(c) && b.size <= c.burst && b.time <= p.time <= TIME_MAX
    requires Used(c, b, passed, since)
    ensures Refill(c, b, p.time) == c.burst
            || (!StartsAfresh(c, Some(b), p.time)
                && passed + Refill(c, b, p.time) == c.burst + c.rate * (p.time - since))
  {
    hide Refill;
    if StartsAfresh(c, Some(b), p.time) {
      FullAgain(c, b, p.time);
    } else {
      EarnedUnwrapped(c, b, p.time);
      RateAdds(c.rate, since, b.time, p.time);
    }
  }

  lemma UsedStep(c: Config, v: Option<Bucket>, p: Packet, passes: bool, v': Option<Bucket>, d: nat, passed: nat,
                 since: nat)
    requires ConfigOk(c) && NoWrap(c) && p.time <= TIME_MAX && ViewStep(c, v, p, passes, v', d) && v'.Some?
    requires v.Some? ==> v.value.size <= c.burst && v.value.time <= p.time && Used(c, v.value, passed, since)
    ensures var gone := if IsFor(c, p, d) && passes then p.length else 0;
            || Used(c, v'.value, gone, p.time)
            || (v.Some? && !(IsFor(c, p, d) && StartsAfresh(c, v, p.time)) && Used(c, v'.value, passed + gone, since))
  {
    hide Refill, NoWrap, Young;
    if v.Some? && IsFor(c, p, d) {
      UsedCharge(c, v.value, passed, since, p);
    }
  }

  lemma NoneAtFirst(c: Config, r: Run, d: nat)
    requires IsRun(c, r)
    ensures StateOk(c, r.states[0]) && View(r.states[0], d).None?
  {
  }

  /** A bucket's contents are all that the rate allows in some window since the bucket was simply filled. */
  lemma {:induction false} Attained(c: Config, r: Run, d: nat, n: nat) returns (i: nat)
    requires IsRun(c, r) && NoWrap(c) && n < |r.states| && StateOk(c, r.states[n]) && View(r.states[n], d).Some?
    ensures i < n <= |r.packets| == |r.outputs| && Unbroken(c, r, d, i, n)
    ensures Used(c, View(r.states[n], d).value, Passed(c, r, d, i, n), r.packets[i].time)
  {
    hide Step, View, ViewStep, NoWrap, Used, StateOk, Policed, StartsAfresh;
    NoneAtFirst(c, r, d);
    var s, p := r.states[n - 1], r.packets[n - 1];
    assert StepAt(c, r, n - 1);
    StepView(c, s, p, d);
    BucketsNotFromTheFuture(c, r, n - 1, d);
    i := n - 1;
    assert Passed(c, r, d, i, i) == 0;
    if View(s, d).Some? {
      i := Attained(c, r, d, n - 1);
    }
    UsedStep(c, View(s, d), p, r.outputs[n - 1].Send?, View(r.states[n], d), d, Passed(c, r, d, i, n - 1),
             r.packets[i].time);
    if Restarts(c, r, d, n - 1) || !Used(c, View(r.states[n], d).value, Passed(c, r, d, i, n), r.packets[i].time) {
      i := n - 1;
    }
  }

  /** Packet `n` is policed and its destination has a bucket. */
  ghost predicate ToKnown(c: Config, r: Run, n: nat) {
    && ConfigOk(c) && n < |r.packets| && n < |r.states| && StateOk(c, r.states[n])
    && Policed(c, r.packets[n]) && View(r.states[n], r.packets[n].dstIp).Some?
  }

  /** With packet `n` too, less than the advertised bound is passed to its destination from packet `i` on. */
  ghost predicate Fits(c: Config, r: Run, i: nat, n: nat)
    requires n < |r.packets| == |r.outputs|
  {
    i <= n &&
    Passed(c, r, r.packets[n].dstIp, i, n) + r.packets[n].length
      < c.burst + c.rate * (r.packets[n].time - r.packets[i].time)
  }

  /** After packet `i` and up to packet `n` the bucket of the latter's destination is refilled by what it earns only. */
  ghost predicate InReach(c: Config, r: Run, i: nat, n: nat)
    requires n < |r.packets|
  {
    i <= n && forall k: nat :: i < k <= n ==> !Restarts(c, r, r.packets[n].dstIp, k)
  }

  /** A packet to a known destination passes exactly if its refilled bucket holds more than its length. */
  lemma PassesIfCovered(c: Config, r: Run, n: nat)
    requires IsRun(c, r) && ToKnown(c, r, n)
    ensures |r.packets| == |r.outputs| && r.packets[n].time < TIME_MAX
    ensures var p := r.packets[n];
            var b := View(r.states[n], p.dstIp).value;
            && b.time <= p.time && b.size <= c.burst
            && (r.outputs[n].Send? <==> Refill(c, b, p.time) > p.length)
  {
    hide Refill, Step;
    assert StepAt(c, r, n);
    StepView(c, r.states[n], r.packets[n], r.packets[n].dstIp);
    BucketsNotFromTheFuture(c, r, n, r.packets[n].dstIp);
  }

  /** Packet `n`, if it passes, fits every window since the bucket was simply filled, or every window at all. */
  lemma PassedFits(c: Config, r: Run, i: nat, n: nat)
    requires IsRun(c, r) && ToKnown(c, r, n) && i <= n < |r.packets| == |r.outputs| && r.outputs[n].Send?
    requires Ideal(c) || InReach(c, r, i, n)
    ensures Fits(c, r, i, n)
  {
    hide Refill, Step, View, Account, LongEnough;
    var p, since := r.packets[n], r.packets[i].time;
    PassesIfCovered(c, r, n);
    var b := View(r.states[n], p.dstIp).value;
    assert since <= p.time;
    if i < n {
      AccountKept(c, r, p.dstIp, i, n);
      AccountCovers(c, b, Passed(c, r, p.dstIp, i, n), since, r.packets[n - 1].time);
      assert Ideal(c) || !Restarts(c, r, p.dstIp, n);
    }
    PassesBelow(c, b, Passed(c, r, p.dstIp, i, n), since, p);
  }

  lemma AccountCovers(c: Config, b: Bucket, passed: nat, since: nat, now: nat)
    requires ConfigOk(c) && Account(c, Some(b), passed, since, now)
    ensures Covered(c, b, passed, since)
  {
  }

  /** Packet `n`, if it is dropped, does not fit some window since the bucket was simply filled. */
  lemma DroppedDoesNotFit(c: Config, r: Run, n: nat) returns (i: nat)
    requires IsRun(c, r) && NoWrap(c) && ToKnown(c, r, n) && n < |r.outputs| == |r.packets| && !r.outputs[n].Send?
    ensures InReach(c, r, i, n) && !Fits(c, r, i, n)
  {
    hide Refill, Step, View, NoWrap, IsRun;
    var p := r.packets[n];
    PassesIfCovered(c, r, n);
    var b := View(r.states[n], p.dstIp).value;
    i := n;
    if Refill(c, b, p.time) != c.burst {
      i := Attained(c, r, p.dstIp, n);
      UsedCharge(c, b, Passed(c, r, p.dstIp, i, n), r.packets[i].time, p);
      assert !Restarts(c, r, p.dstIp, n);
    }
  }

  /** Every packet to a known destination passes exactly if it fits all windows since its bucket was simply filled. */
  ghost predicate PassesWhatFits(c: Config, r: Run) {
    |r.packets| == |r.outputs| &&
    forall n: nat :: ToKnown(c, r, n) ==>
      (r.outputs[n].Send? <==> forall i: nat :: InReach(c, r, i, n) ==> Fits(c, r, i, n))
  }

  /** Every packet to a known destination passes exactly if it fits all windows that end with it. */
  ghost predicate PassesWhatFitsAll(c: Config, r: Run) {
    |r.packets| == |r.outputs| &&
    forall n: nat :: ToKnown(c, r, n) ==>
      (r.outputs[n].Send? <==> forall i: nat :: i <= n ==> Fits(c, r, i, n))
  }

  lemma FittingPasses(c: Config, r: Run)
    requires IsRun(c, r) && NoWrap(c)
    ensures PassesWhatFits(c, r)
    ensures Ideal(c) ==> PassesWhatFitsAll(c, r)
  {
    assert |r.packets| == |r.outputs|;
    hide IsRun, NoWrap, Ideal, InReach, Fits, ToKnown;
    forall n: nat | ToKnown(c, r, n)
      ensures n < |r.packets|
      ensures r.outputs[n].Send? <==> forall i: nat :: InReach(c, r, i, n) ==> Fits(c, r, i, n)
      ensures Ideal(c) ==> (r.outputs[n].Send? <==> forall i: nat :: i <= n ==> Fits(c, r, i, n))
    {
      PassesIfCovered(c, r, n);
      if r.outputs[n].Send? {
        forall i: nat | i <= n && (Ideal(c) || InReach(c, r, i, n))
          ensures Fits(c, r, i, n)
        {
          PassedFits(c, r, i, n);
        }
        InReachBelow(c, r, n);
      } else {
        var i := DroppedDoesNotFit(c, r, n);
        InReachBelow(c, r, n);
      }
    }
    ToKnownBelow(c, r);
  }

  lemma InReachBelow(c: Config, r: Run, n: nat)
    requires n < |r.packets|
    ensures forall i: nat :: InReach(c, r, i, n) ==> i <= n
  {
  }

  lemma ToKnownBelow(c: Config, r: Run)
    ensures forall n: nat :: ToKnown(c, r, n) ==> n < |r.packets|
  {
  }

  /** What becomes of a packet to a destination without a bucket. */
  lemma NewPassesIff(c: Config, r: Run, n: nat)
    requires IsRun(c, r) && n < |r.packets| && Policed(c, r.packets[n]) && !ToKnown(c, r, n)
    ensures |r.packets| == |r.outputs| && StateOk(c, r.states[n]) && StateOk(c, r.states[n + 1])
    ensures var s, p := r.states[n], r.packets[n];
            && (r.outputs[n].Send? <==>
                  p.length <= c.burst && exists i: nat :: Available(s.table.pool.times, i, p.time, Expiration(c)))
            && View(r.states[n + 1], p.dstIp)
               == if r.outputs[n].Send? then Some(Bucket(c.burst - p.length, p.time)) else None
  {
    hide Expiration;
    var s, p := r.states[n], r.packets[n];
    RunOk(c, r, n);
    RunOk(c, r, n + 1);
    assert StepAt(c, r, n);
    StepView(c, s, p, p.dstIp);
    LearnEffect(s.table, p.dstIp, p.time, Expiration(c));
  }

  /** A bucket's time is that of the latest packet to its destination. */
  lemma {:induction false} TimeIsLatest(c: Config, r: Run, d: nat, n: nat) returns (m: nat)
    requires IsRun(c, r) && n < |r.states| && StateOk(c, r.states[n]) && View(r.states[n], d).Some?
    ensures m < n <= |r.packets| && IsFor(c, r.packets[m], d)
    ensures r.packets[m].time == View(r.states[n], d).value.time
    ensures forall k: nat :: m < k < n ==> !IsFor(c, r.packets[k], d)
  {
    hide Step, View, Refill;
    NoneAtFirst(c, r, d);
    assert StepAt(c, r, n - 1);
    StepView(c, r.states[n - 1], r.packets[n - 1], d);
    if IsFor(c, r.packets[n - 1], d) {
      m := n - 1;
    } else {
      m := TimeIsLatest(c, r, d, n - 1);
    }
  }

  /** A destination keeps its bucket as it is while none of the packets is for it and its last use is young. */
  lemma {:induction false} BucketStays(c: Config, r: Run, d: nat, m: nat, n: nat)
    requires IsRun(c, r) && m < n <= |r.packets|
    requires StateOk(c, r.states[m]) && View(r.states[m], d).Some?
    requires forall k: nat :: m <= k < n ==> !IsFor(c, r.packets[k], d)
    requires Young(r.packets[n - 1].time, Expiration(c), View(r.states[m], d).value.time)
    ensures StateOk(c, r.states[n]) && View(r.states[n], d) == View(r.states[m], d)
    decreases n
  {
    hide Step, View, Expiration;
    assert StepAt(c, r, n - 1);
    StepView(c, r.states[n - 1], r.packets[n - 1], d);
    if m < n - 1 {
      assert r.packets[n - 2].time <= r.packets[n - 1].time;
      BucketStays(c, r, d, m, n - 1);
    }
  }

  /** What is sent is the packet as it came, on the other device; only packets to be policed may be held back. */
  lemma OutputIs(c: Config, r: Run, n: nat)
    requires IsRun(c, r) && n < |r.packets|
    ensures n < |r.outputs| && n + 1 < |r.states|
    ensures var p := r.packets[n];
            && (r.outputs[n].Send? ==> r.outputs[n] == Send(p, 1 - p.device))
            && (!p.isIpv4 ==> !r.outputs[n].Send?)
            && (p.isIpv4 && p.device != c.wanDevice ==> r.outputs[n].Send?)
            && (!Policed(c, p) ==> r.states[n + 1] == r.states[n])
  {
    assert StepAt(c, r, n);
  }

  /**
   The expiration time is the longest in which no more is earned than `NANOSECONDS` bursts, less as many times 2^64 as
   these hold.
   */
  lemma ExpirationIs(c: Config, time: nat, wraps: nat)
    requires ConfigOk(c)
    requires wraps * (TIME_MAX + 1) <= NANOSECONDS * c.burst < (wraps + 1) * (TIME_MAX + 1)
    ensures time <= Expiration(c) <==> c.rate * time + wraps * (TIME_MAX + 1) <= NANOSECONDS * c.burst
  {
    var x, e := NANOSECONDS * c.burst - wraps * (TIME_MAX + 1), Expiration(c);
    ModuloUnique(NANOSECONDS * c.burst, TIME_MAX + 1, wraps, x);
    DivisionLaw(x, c.rate);
    RateDistributes(c.rate, e, 1);
    if time <= e {
      RateMonotone(c.rate, time, e);
    } else {
      RateMonotone(c.rate, e + 1, time);
    }
  }
}
