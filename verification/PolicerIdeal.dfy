/**
 Exactly which configurations make the policer let pass what fits the advertised bound, and no more: for each of the
 others a run on which it drops a packet that fits, or passes one that does not.
 */
module PolicerIdeal {
  import opened Options
  import opened Packets
  import opened PolicerExact
  import opened PolicerLimits
  import opened PolicerSpec
  import opened PoolSpec
  import opened Progressions
  import opened TableSpec

  ghost predicate RunAt(c: Config, r: Run, s0: State) {
    IsRun(c, r) && r.states[0] == s0
  }

  /** One more packet to destination 0, and whether it passes and fits. */
  lemma Judged(c: Config, r: Run, s0: State, longest: nat, time: nat, length: nat) returns (r': Run)
    requires ConfigOk(c) && RunTo(c, r, s0, 0, longest, time) && time < TIME_MAX && length <= longest
    requires r.packets != [] && r.packets[0].time == 0 && View(Last(r), 0).Some?
    ensures RunAt(c, r', s0) && ToKnown(c, r', |r.packets|)
    ensures r'.packets == r.packets + [PacketOf(c, 0, time, length)] && |r'.packets| == |r'.outputs|
    ensures r'.outputs[|r.packets|].Send? <==> Refill(c, View(Last(r), 0).value, time) > length
    ensures Fits(c, r', 0, |r.packets|) <==> Total(c, r) + length < c.burst + c.rate * time
  {
    hide Refill, View, Passed;
    var p := PacketOf(c, 0, time, length);
    r' := Extend(c, r, s0, 0, longest, p);
    assert r'.states[|r.packets|] == Last(r);
    PassesIfCovered(c, r', |r.packets|);
    PassedPrefix(c, r, r', |r.packets|);
  }

  /** A first packet to destination 0. */
  lemma First(c: Config, s0: State, longest: nat, length: nat) returns (r: Run)
    requires ConfigOk(c) && StateOk(c, s0) && Empty(s0.table) && |s0.buckets| > 0 && length <= c.burst <= longest
    ensures RunTo(c, r, s0, 0, longest, 0) && r.packets == [PacketOf(c, 0, 0, length)] && Total(c, r) == length
    ensures Parked(c, Last(r), 0, 0) && |Last(r).buckets| == |s0.buckets|
    ensures View(Last(r), 0) == Some(Bucket(c.burst - length, 0))
  {
    hide Step, Refill, Expiration;
    r := Run([s0], [], []);
    assert !IsHeld(s0.table.pool.times, 0);
    assert Available(s0.table.pool.times, 0, 0, Expiration(c));
    Enter(c, s0, 0, 0, length);
    r := Extend(c, r, s0, 0, longest, PacketOf(c, 0, 0, length));
    FindIs(Last(r).table, Last(r).table.pool.last, 0);
  }

  /** If a refill can be truncated, a packet can be dropped that fits everywhere. */
  lemma WrapLoses(c: Config, s0: State) returns (r: Run)
    requires ConfigOk(c) && StateOk(c, s0) && Empty(s0.table) && |s0.buckets| > 0 && !NoWrap(c)
    ensures RunAt(c, r, s0) && !PassesWhatFits(c, r) && !PassesWhatFitsAll(c, r)
  {
    hide IsRun, Refill, StateOk, Empty, RunTo, Parked;
    var q := c.burst / c.rate;
    DivisionLaw(c.burst, c.rate);
    RateDistributes(c.rate, q - 1, 1);
    RateMonotone(q, 1, c.rate);
    var size := c.burst + c.rate * (q - 1);
    WrappedIs(size);
    RefillWraps(c, Bucket(c.burst, 0), q - 1);
    r := First(c, s0, c.burst, 0);
    Later(c, r, s0, c.burst, 0, q - 1);
    r := Judged(c, r, s0, c.burst, q - 1, size - TIME_MAX - 1);
    assert Fits(c, r, 1, 1);
    assert forall i: nat :: i <= 1 ==> Fits(c, r, i, 1);
  }

  lemma Later(c: Config, r: Run, s0: State, longest: nat, time: nat, later: nat)
    requires RunTo(c, r, s0, 0, longest, time) && time <= later
    ensures RunTo(c, r, s0, 0, longest, later)
  {
  }

  lemma RefillWraps(c: Config, b: Bucket, now: nat)
    requires ConfigOk(c) && b.size <= c.burst && b.time <= now <= TIME_MAX && now - b.time < c.burst / c.rate
    requires TIME_MAX < b.size + c.rate * (now - b.time) <= 2 * TIME_MAX
    ensures Refill(c, b, now) == Min(c.burst, b.size + c.rate * (now - b.time) - TIME_MAX - 1)
  {
    ElapsedIs(b, now);
    RateCommutes(c.rate, now - b.time);
    WrappedIs(b.size + c.rate * (now - b.time));
  }

  /** If the rate does not divide the burst, a packet can pass that does not fit. */
  lemma RemainderGains(c: Config, s0: State) returns (r: Run)
    requires ConfigOk(c) && StateOk(c, s0) && Empty(s0.table) && |s0.buckets| > 0 && c.burst % c.rate > 0
    ensures RunAt(c, r, s0) && !PassesWhatFitsAll(c, r)
  {
    hide IsRun, Refill, StateOk, Empty, RunTo, Parked;
    var q := c.burst / c.rate;
    DivisionLaw(c.burst, c.rate);
    RateMonotone(q, 1, c.rate);
    FullAgain(c, Bucket(0, 0), q);
    r := First(c, s0, c.burst, c.burst);
    Later(c, r, s0, c.burst, 0, q);
    r := Judged(c, r, s0, c.burst, q, c.burst - 1);
    assert !Fits(c, r, 0, 1);
  }

  /** If a bucket can expire before it has filled up, a packet can pass that does not fit. */
  lemma EvictionGains(c: Config, s0: State) returns (r: Run)
    requires ConfigOk(c) && StateOk(c, s0) && Empty(s0.table) && |s0.buckets| >= 2 && !LongEnough(c, c.burst)
    ensures RunAt(c, r, s0) && !PassesWhatFitsAll(c, r)
  {
    hide IsRun, Refill, Empty, Expiration, Step, Borrowed, Passed;
    var e := Expiration(c) + 1;
    RateMonotone(e, 1, c.rate);
    r := First(c, s0, c.burst, c.burst);
    Later(c, r, s0, c.burst, 0, e);
    EvictZero(c, Last(r), 0, e, 0, 0);
    r := Extend(c, r, s0, 0, c.burst, PacketOf(c, 1, e, 0));
    Enter(c, Last(r), e, 1, 0);
    r := Extend(c, r, s0, 0, c.burst, PacketOf(c, 0, e, 0));
    FindIs(Last(r).table, Last(r).table.pool.last, 0);
    NoTimeNoLoss(c, Bucket(c.burst, e));
    r := Judged(c, r, s0, c.burst, e, c.burst - 1);
    assert !Fits(c, r, 0, 3);
  }

  /**
   A policer lets a packet to a known destination pass exactly if it fits all windows since the bucket was simply
   filled, on every run, if and only if no refill can be truncated.
   */
  lemma PassesWhatFitsIff(c: Config, s0: State)
    requires ConfigOk(c) && StateOk(c, s0) && Empty(s0.table) && |s0.buckets| > 0
    ensures NoWrap(c) <==> forall r: Run :: RunAt(c, r, s0) ==> PassesWhatFits(c, r)
  {
    hide PassesWhatFits, PassesWhatFitsAll, NoWrap;
    if NoWrap(c) {
      forall r: Run | RunAt(c, r, s0)
        ensures PassesWhatFits(c, r)
      {
        FittingPasses(c, r);
      }
    } else {
      var r := WrapLoses(c, s0);
    }
  }

  /**
   It lets such a packet pass exactly if with it the advertised bound is kept in all windows, on every run, if and only
   if moreover the rate divides the burst and a bucket that expires has filled up.
   */
  lemma TokenBucketIff(c: Config, s0: State)
    requires ConfigOk(c) && StateOk(c, s0) && Empty(s0.table) && |s0.buckets| >= 2
    ensures NoWrap(c) && c.burst % c.rate == 0 && LongEnough(c, c.burst) <==>
              forall r: Run :: RunAt(c, r, s0) ==> PassesWhatFitsAll(c, r)
  {
    hide PassesWhatFits, PassesWhatFitsAll, NoWrap, LongEnough;
    if !NoWrap(c) {
      var r := WrapLoses(c, s0);
    } else if c.burst % c.rate != 0 {
      var r := RemainderGains(c, s0);
    } else if !LongEnough(c, c.burst) {
      var r := EvictionGains(c, s0);
    } else {
      forall r: Run | RunAt(c, r, s0)
        ensures PassesWhatFitsAll(c, r)
      {
        FittingPasses(c, r);
      }
    }
  }
}
