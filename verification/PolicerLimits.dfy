/**
 Runs on which the policer lets too much pass, made of packets no longer and no shorter than given, and so exactly
 which configurations keep every run within the rate.
 */
module PolicerLimits {
  import opened Options
  import opened Packets
  import opened PolicerSpec
  import opened PoolSpec
  import opened Progressions
  import opened TableSpec

  /** The lengths of the packets that arrive. Any total from the least length on can be made up of such packets. */
  predicate Lengths(c: Config, least: nat, longest: nat) {
    1 <= least < c.burst && 2 * least - 1 <= longest
  }

  /** Three rounds of a burst fit the range of times. */
  predicate Modest(c: Config) {
    2 * c.burst < TIME_MAX
  }

  ghost predicate Allowed(packets: seq<Packet>, least: nat, longest: nat) {
    forall n: nat :: n < |packets| ==> least <= packets[n].length <= longest
  }

  function Sum(lengths: seq<nat>): nat {
    if lengths == [] then 0 else lengths[0] + Sum(lengths[1..])
  }

  ghost predicate InRange(lengths: seq<nat>, least: nat, longest: nat) {
    forall k: nat :: k < |lengths| ==> least <= lengths[k] <= longest
  }

  lemma {:induction false} MadeUp(total: nat, least: nat, longest: nat) returns (lengths: seq<nat>)
    requires 1 <= least <= total && 2 * least - 1 <= longest
    ensures lengths != [] && InRange(lengths, least, longest) && Sum(lengths) == total
  {
    if total <= longest {
      lengths := [total];
      assert lengths[1..] == [];
    } else {
      var rest := MadeUp(total - least, least, longest);
      lengths := [least] + rest;
      assert lengths[1..] == rest;
    }
  }

  /** A policed packet of a given time and length, to a given destination. */
  function PacketOf(c: Config, d: nat, time: nat, length: nat): Packet {
    Packet(c.wanDevice, time, length, true, 0, d, 0, 0, 0)
  }

  ghost function Last(r: Run): State
    requires r.states != []
  {
    r.states[|r.states| - 1]
  }

  /** What has passed to destination 0. */
  ghost function Total(c: Config, r: Run): nat
    requires |r.packets| == |r.outputs|
  {
    Passed(c, r, 0, 0, |r.packets|)
  }

  /** A run from `s0` of such packets. */
  ghost predicate RunFrom(c: Config, r: Run, s0: State, least: nat, longest: nat) {
    IsRun(c, r) && r.states[0] == s0 && Allowed(r.packets, least, longest)
  }

  /** A run from `s0` of such packets, none later than `time`. */
  ghost predicate RunTo(c: Config, r: Run, s0: State, least: nat, longest: nat, time: nat) {
    && |r.states| == |r.packets| + 1 == |r.outputs| + 1
    && IsRun(c, r) && r.states[0] == s0 && StateOk(c, Last(r)) && Allowed(r.packets, least, longest)
    && forall n: nat :: n < |r.packets| ==> r.packets[n].time <= time
  }

  lemma {:induction false} PassedPrefix(c: Config, r: Run, r': Run, n: nat)
    requires n <= |r.packets| == |r.outputs| && |r'.packets| == |r'.outputs|
    requires r.packets <= r'.packets && r.outputs <= r'.outputs
    ensures Passed(c, r', 0, 0, n) == Passed(c, r, 0, 0, n)
  {
    if n > 0 {
      PassedPrefix(c, r, r', n - 1);
    }
  }

  /** A run goes on with one more packet. */
  lemma Extend(c: Config, r: Run, s0: State, least: nat, longest: nat, p: Packet) returns (r': Run)
    requires RunTo(c, r, s0, least, longest, p.time) && p.time < TIME_MAX && least <= p.length <= longest
    ensures RunTo(c, r', s0, least, longest, p.time) && r'.packets == r.packets + [p]
    ensures r.states <= r'.states && r'.outputs == r.outputs + [Step(c, Last(r), p).1]
    ensures StateOk(c, Last(r)) && Last(r') == Step(c, Last(r), p).0
    ensures Total(c, r') ==
              Total(c, r) + if Policed(c, p) && p.dstIp == 0 && Step(c, Last(r), p).1.Send? then p.length else 0
  {
    hide Step;
    var (s, o) := Step(c, Last(r), p);
    StepOk(c, Last(r), p);
    r' := Run(r.states + [s], r.packets + [p], r.outputs + [o]);
    forall n: nat | n < |r'.packets|
      ensures StepAt(c, r', n)
    {
      if n < |r.packets| {
        assert StepAt(c, r, n);
      }
    }
    PassedPrefix(c, r, r', |r.packets|);
  }

  /**
   Destination 0 has a bucket, under the index borrowed last; the others were used no later, by destinations up to
   `k`.
   */
  ghost predicate Parked(c: Config, s: State, time: nat, k: nat) {
    && StateOk(c, s) && s.table.pool.last < |s.table.keys| && Holds(s.table, s.table.pool.last, 0)
    && s.table.pool.times[s.table.pool.last] == time
    && (forall j: nat :: IsHeld(s.table.pool.times, j) ==> s.table.pool.times[j] <= time)
    && (forall j: nat :: IsHeld(s.table.pool.times, j) ==> s.table.keys[j] <= k)
  }

  /** A packet that leaves its destination's bucket non-empty passes. */
  lemma ChargeOne(c: Config, s: State, time: nat, last: nat, k: nat, length: nat)
    requires ConfigOk(c) && Parked(c, s, last, k) && last <= time < TIME_MAX
    requires Refill(c, s.buckets[s.table.pool.last], time) > length
    ensures var (s', o) := Step(c, s, PacketOf(c, 0, time, length));
            && o.Send? && Parked(c, s', time, k) && |s'.buckets| == |s.buckets|
            && Refill(c, s'.buckets[s'.table.pool.last], time) + length
               >= Refill(c, s.buckets[s.table.pool.last], time)
  {
    hide Refill;
    var p, i := PacketOf(c, 0, time, length), s.table.pool.last;
    StepOk(c, s, p);
    FindIs(s.table, i, 0);
    TouchOk(s.table, i, time);
    NoTimeNoLoss(c, Bucket(Refill(c, s.buckets[i], time) - length, time));
    RefillAtMost(c, s.buckets[i], time);
  }

  lemma NoTimeNoLoss(c: Config, b: Bucket)
    requires ConfigOk(c) && b.size <= c.burst
    ensures Refill(c, b, b.time) >= b.size
  {
  }

  lemma RefillAtMost(c: Config, b: Bucket, now: nat)
    requires ConfigOk(c)
    ensures Refill(c, b, now) <= c.burst
  {
  }

  /** A burst of packets passes as long as one byte is left. */
  lemma {:induction false} Drain(c: Config, r: Run, s0: State, least: nat, longest: nat, last: nat, time: nat, k: nat,
                                lengths: seq<nat>) returns (r': Run)
    requires ConfigOk(c) && RunTo(c, r, s0, least, longest, time) && last <= time < TIME_MAX
    requires Parked(c, Last(r), last, k) && InRange(lengths, least, longest)
    requires Refill(c, Last(r).buckets[Last(r).table.pool.last], time) > Sum(lengths)
    ensures RunTo(c, r', s0, least, longest, time) && Total(c, r') == Total(c, r) + Sum(lengths)
    ensures r.packets <= r'.packets && (lengths == [] ==> r' == r)
    ensures lengths != [] ==> r'.packets != [] && r'.packets[|r'.packets| - 1].time == time
    ensures Parked(c, Last(r'), if lengths == [] then last else time, k) && |Last(r').buckets| == |Last(r).buckets|
    decreases |lengths|
  {
    hide Step, Refill, IsRun, Passed;
    if lengths == [] {
      r' := r;
    } else {
      ChargeOne(c, Last(r), time, last, k, lengths[0]);
      var next := Extend(c, r, s0, least, longest, PacketOf(c, 0, time, lengths[0]));
      assert next.packets[|next.packets| - 1].time == time;
      assert InRange(lengths[1..], least, longest);
      r' := Drain(c, next, s0, least, longest, time, time, k, lengths[1..]);
    }
  }

  /** Once the whole-unit refill time has passed a bucket is full. */
  lemma FullAgain(c: Config, b: Bucket, now: nat)
    requires ConfigOk(c) && b.time + c.burst / c.rate <= now <= TIME_MAX
    ensures Refill(c, b, now) == c.burst
  {
    ElapsedIs(b, now);
  }

  /** A new destination's first packet passes when an index is to be had that was not the last one borrowed. */
  lemma Enter(c: Config, s: State, time: nat, k: nat, length: nat)
    requires ConfigOk(c) && StateOk(c, s) && time < TIME_MAX && length <= c.burst
    requires Find(s.table, 0).None? && Borrowed(s.table.pool, time, Expiration(c)).Some?
    requires forall j: nat :: IsHeld(s.table.pool.times, j) ==> s.table.pool.times[j] <= time && s.table.keys[j] <= k
    ensures var (s', o) := Step(c, s, PacketOf(c, 0, time, length));
            && o.Send? && Parked(c, s', time, k) && |s'.buckets| == |s.buckets|
            && s'.buckets[s'.table.pool.last] == Bucket(c.burst - length, time)
  {
    hide Expiration, Borrowed;
    StepOk(c, s, PacketOf(c, 0, time, length));
    LearnEffect(s.table, 0, time, Expiration(c));
  }

  /**
   The first round: destination 0 takes `Sum(lengths)` bytes, at most all but one of its burst unless in one packet.
   */
  lemma FirstRound(c: Config, s0: State, least: nat, longest: nat, lengths: seq<nat>) returns (r: Run)
    requires ConfigOk(c) && StateOk(c, s0) && Empty(s0.table) && |s0.buckets| > 0
    requires lengths != [] && InRange(lengths, least, longest) && lengths[0] <= c.burst
    requires lengths[1..] == [] || Sum(lengths) < c.burst
    ensures RunTo(c, r, s0, least, longest, 0) && Total(c, r) == Sum(lengths) && r.packets != []
    ensures Parked(c, Last(r), 0, 0) && |Last(r).buckets| == |s0.buckets|
  {
    hide Step, Refill, Expiration;
    r := Run([s0], [], []);
    assert !IsHeld(s0.table.pool.times, 0);
    assert Available(s0.table.pool.times, 0, 0, Expiration(c));
    Enter(c, s0, 0, 0, lengths[0]);
    r := Extend(c, r, s0, least, longest, PacketOf(c, 0, 0, lengths[0]));
    if lengths[1..] != [] {
      NoTimeNoLoss(c, Bucket(c.burst - lengths[0], 0));
      assert InRange(lengths[1..], least, longest);
      r := Drain(c, r, s0, least, longest, 0, 0, 0, lengths[1..]);
    }
  }

  /** Another round after the whole-unit refill time. */
  lemma RefillRound(c: Config, r: Run, s0: State, least: nat, longest: nat, last: nat, time: nat, k: nat,
                    lengths: seq<nat>) returns (r': Run)
    requires ConfigOk(c) && RunTo(c, r, s0, least, longest, last) && Parked(c, Last(r), last, k)
    requires last + c.burst / c.rate == time < TIME_MAX
    requires lengths != [] && InRange(lengths, least, longest) && Sum(lengths) < c.burst
    ensures RunTo(c, r', s0, least, longest, time) && Total(c, r') == Total(c, r) + Sum(lengths)
    ensures r.packets <= r'.packets && |r'.packets| > 0 && r'.packets[|r'.packets| - 1].time == time
    ensures Parked(c, Last(r'), time, k)
  {
    hide IsRun, Passed, Refill, Step;
    FullAgain(c, BucketOfZero(c, Last(r), last, k), time);
    r' := Drain(c, r, s0, least, longest, last, time, k, lengths);
  }

  ghost function BucketOfZero(c: Config, s: State, time: nat, k: nat): (b: Bucket)
    requires ConfigOk(c) && Parked(c, s, time, k)
    ensures b == s.buckets[s.table.pool.last] && b.time == time
  {
    s.buckets[s.table.pool.last]
  }

  lemma ThreeLosses(burst: nat, rate: nat)
    requires rate > 0 && burst % rate >= 2
    ensures var q := burst / rate; 3 * (burst - 1) > burst + rate * (q + q) && q + q < burst
  {
    var q := burst / rate;
    DivisionLaw(burst, rate);
    RateDistributes(rate, q, q);
    RateMonotone(q, 3, rate);
  }

  /** When the whole-unit refill time is two bytes short or more, three bursts exceed the bound. */
  lemma TooFast(c: Config, s0: State, least: nat, longest: nat) returns (r: Run)
    requires ConfigOk(c) && StateOk(c, s0) && Empty(s0.table) && |s0.buckets| > 0
    requires Lengths(c, least, longest) && c.burst % c.rate >= 2
    ensures RunFrom(c, r, s0, least, longest) && !WithinRate(c, r)
  {
    hide Step, IsRun, Parked, Passed, StateOk, Empty, Refill, WithinRate, Allowed, InRange, PacketOf;
    var q := c.burst / c.rate;
    ThreeLosses(c.burst, c.rate);
    var lengths := MadeUp(c.burst - 1, least, longest);
    assert lengths[0] + Sum(lengths[1..]) == c.burst - 1;
    r := FirstRound(c, s0, least, longest, lengths);
    var first := r.packets[0];
    r := RefillRound(c, r, s0, least, longest, 0, q, 0, lengths);
    r := RefillRound(c, r, s0, least, longest, q, q + q, 0, lengths);
    assert r.packets[0] == first && first.time == 0;
    Exceeds(c, r, s0, least, longest, q + q);
  }

  lemma Exceeds(c: Config, r: Run, s0: State, least: nat, longest: nat, time: nat)
    requires RunTo(c, r, s0, least, longest, time) && r.packets != []
    requires r.packets[0].time == 0 && r.packets[|r.packets| - 1].time == time
    requires Total(c, r) > c.burst + c.rate * time
    ensures !WithinRate(c, r)
  {
    assert Passed(c, r, 0, 0, |r.packets|) > c.burst + c.rate * (time - 0);
  }

  /** Once destination 0 has expired, a packet to a destination never seen takes over its index. */
  lemma EvictZero(c: Config, s: State, last: nat, time: nat, k: nat, length: nat)
    requires ConfigOk(c) && Parked(c, s, last, k) && time == last + Expiration(c) + 1 && time < TIME_MAX
    requires length <= c.burst
    ensures var s' := Step(c, s, PacketOf(c, k + 1, time, length)).0;
            && StateOk(c, s') && Find(s'.table, 0).None? && |s'.buckets| == |s.buckets|
            && (|s.buckets| >= 2 ==> Borrowed(s'.table.pool, time, Expiration(c)).Some?)
            && Borrowed(s'.table.pool, time + Expiration(c) + 1, Expiration(c)).Some?
            && forall j: nat :: IsHeld(s'.table.pool.times, j) ==>
                 s'.table.pool.times[j] <= time && s'.table.keys[j] <= k + 1
  {
    hide Expiration;
    var p, i := PacketOf(c, k + 1, time, length), s.table.pool.last;
    StepOk(c, s, p);
    assert Find(s.table, k + 1).None?;
    BorrowedIs(s.table.pool, time, Expiration(c), i);
    PutOk(s.table, i, k + 1, time);
    var t' := Put(s.table, i, k + 1, time);
    assert Step(c, s, p).0.table == t';
    if |s.buckets| >= 2 {
      var other := if i == 0 then 1 else 0;
      assert Available(t'.pool.times, other, time, Expiration(c));
    }
    assert Available(t'.pool.times, i, time + Expiration(c) + 1, Expiration(c));
    assert forall j: nat :: Holds(s.table, j, 0) ==> j == i;
  }

  /** Another round after the expiration time. */
  lemma EvictRound(c: Config, r: Run, s0: State, least: nat, longest: nat, last: nat, k: nat, lengths: seq<nat>)
    returns (r': Run)
    requires ConfigOk(c) && RunTo(c, r, s0, least, longest, last) && Parked(c, Last(r), last, k)
    requires |Last(r).buckets| >= 2 && last + Expiration(c) + 1 < TIME_MAX && least <= c.burst && least <= longest
    requires lengths != [] && InRange(lengths, least, longest) && lengths[0] <= c.burst
    requires lengths[1..] == [] || Sum(lengths) < c.burst
    ensures RunTo(c, r', s0, least, longest, last + Expiration(c) + 1) && Total(c, r') == Total(c, r) + Sum(lengths)
    ensures r.packets <= r'.packets && |r'.packets| > 0
    ensures r'.packets[|r'.packets| - 1].time == last + Expiration(c) + 1
    ensures Parked(c, Last(r'), last + Expiration(c) + 1, k + 1) && |Last(r').buckets| == |Last(r).buckets|
  {
    hide Step, Refill, Expiration, IsRun, Passed, Parked, Borrowed;
    var time := last + Expiration(c) + 1;
    EvictZero(c, Last(r), last, time, k, least);
    r' := Extend(c, r, s0, least, longest, PacketOf(c, k + 1, time, least));
    Enter(c, Last(r'), time, k + 1, lengths[0]);
    r' := Extend(c, r', s0, least, longest, PacketOf(c, 0, time, lengths[0]));
    assert r'.packets[|r'.packets| - 1].time == time;
    if lengths[1..] != [] {
      NoTimeNoLoss(c, Bucket(c.burst - lengths[0], time));
      assert InRange(lengths[1..], least, longest);
      r' := Drain(c, r', s0, least, longest, time, time, k + 1, lengths[1..]);
    }
  }

  lemma ThreeEvictions(c: Config, cap: nat)
    requires ConfigOk(c) && !LongEnough(c, cap) && c.burst - 1 <= cap <= c.burst
    ensures var e := Expiration(c) + 1; 3 * cap > c.burst + c.rate * (e + e) && e <= c.burst
  {
    hide Expiration;
    var e := Expiration(c) + 1;
    RateDistributes(c.rate, e, e);
    RateMonotone(e, 1, c.rate);
  }

  /** What a destination new to the table may take in one go. */
  function Cap(c: Config, longest: nat): (cap: nat)
    requires ConfigOk(c)
    ensures IsCap(c, cap, longest)
  {
    if longest < c.burst then c.burst - 1 else c.burst
  }

  /** When expired buckets need not have filled up, three bursts with evictions between them exceed the bound. */
  lemma TooShort(c: Config, s0: State, least: nat, longest: nat) returns (r: Run)
    requires ConfigOk(c) && StateOk(c, s0) && Empty(s0.table) && |s0.buckets| >= 2
    requires Lengths(c, least, longest) && Modest(c) && !LongEnough(c, Cap(c, longest))
    ensures RunFrom(c, r, s0, least, longest) && !WithinRate(c, r)
  {
    hide Step, IsRun, Parked, Passed, LongEnough, Expiration;
    var cap, e := Cap(c, longest), Expiration(c) + 1;
    ThreeEvictions(c, cap);
    var lengths: seq<nat> := [cap];
    if longest < c.burst {
      lengths := MadeUp(cap, least, longest);
    }
    assert lengths[0] + Sum(lengths[1..]) == cap;
    r := FirstRound(c, s0, least, longest, lengths);
    var first := r.packets[0];
    r := EvictRound(c, r, s0, least, longest, 0, 0, lengths);
    r := EvictRound(c, r, s0, least, longest, e, 1, lengths);
    assert r.packets[0] == first && first.time == 0;
    Exceeds(c, r, s0, least, longest, e + e);
  }

  lemma AllowedWithinRate(c: Config, r: Run, s0: State, cap: nat, least: nat, longest: nat)
    requires ConfigOk(c) && RunFrom(c, r, s0, least, longest) && c.burst % c.rate <= 1
    requires LongEnough(c, cap) && IsCap(c, cap, longest)
    ensures WithinRate(c, r)
  {
    hide LongEnough, WithinRate;
    assert NoneLonger(r, longest);
    RunsWithinRate(c, r, cap, longest);
  }

  /**
   The policer keeps every run of packets of the given lengths within its rate, across evictions and re-insertions,
   exactly if the burst is a multiple of the rate or one more than that, and the expiration time as computed is long
   enough to earn what a new destination may take.
   */
  lemma WithinRateIff(c: Config, s0: State, least: nat, longest: nat)
    requires ConfigOk(c) && StateOk(c, s0) && Empty(s0.table) && |s0.buckets| >= 2
    requires Lengths(c, least, longest) && Modest(c)
    ensures c.burst % c.rate <= 1 && LongEnough(c, Cap(c, longest)) <==>
              forall r: Run :: RunFrom(c, r, s0, least, longest) ==> WithinRate(c, r)
  {
    hide RunFrom, LongEnough, StateOk, WithinRate, IsCap;
    if c.burst % c.rate <= 1 && LongEnough(c, Cap(c, longest)) {
      forall r: Run | RunFrom(c, r, s0, least, longest)
        ensures WithinRate(c, r)
      {
        AllowedWithinRate(c, r, s0, Cap(c, longest), least, longest);
      }
    } else if c.burst % c.rate >= 2 {
      var r := TooFast(c, s0, least, longest);
    } else {
      var r := TooShort(c, s0, least, longest);
    }
  }

  /** If the expiration time is computed without truncation, only the refill matters, in a table of any size. */
  lemma WithinRateUntruncatedIff(c: Config, s0: State, least: nat, longest: nat)
    requires ConfigOk(c) && NANOSECONDS * c.burst <= TIME_MAX
    requires StateOk(c, s0) && Empty(s0.table) && |s0.buckets| > 0 && Lengths(c, least, longest)
    ensures c.burst % c.rate <= 1 <==>
              forall r: Run :: RunFrom(c, r, s0, least, longest) ==> WithinRate(c, r)
  {
    hide RunFrom, LongEnough, StateOk, WithinRate;
    if c.burst % c.rate <= 1 {
      UntruncatedIsLongEnough(c);
      forall r: Run | RunFrom(c, r, s0, least, longest)
        ensures WithinRate(c, r)
      {
        AllowedWithinRate(c, r, s0, c.burst, least, longest);
      }
    } else {
      var r := TooFast(c, s0, least, longest);
    }
  }
}
