/**
 The policer as a function of its buckets and one packet, and the bound it enforces.
 The refill works in whole time units of `burst / rate`, so the advertised bound depends on how rate divides burst.
 */
module PolicerSpec {
  import opened Options
  import opened Packets
  import opened PoolSpec
  import opened Progressions
  import opened TableSpec

  datatype Config = Config(wanDevice: nat, rate: nat, burst: nat)

  datatype Bucket = Bucket(size: nat, time: nat)

  datatype State = State(table: Table<nat>, buckets: seq<Bucket>)

  const NANOSECONDS: nat := 1_000_000_000

  /** What initialization insists on; the burst is an unsigned 64-bit integer. */
  predicate ConfigOk(c: Config) {
    c.wanDevice <= 1 && c.rate > 0 && 0 < c.burst <= TIME_MAX
  }

  /** The expiration time, with the multiplication truncated to 64 bits. */
  function Expiration(c: Config): nat
    requires ConfigOk(c)
  {
    NANOSECONDS * c.burst % (TIME_MAX + 1) / c.rate
  }

  /** The elapsed time as an unsigned 64-bit difference. */
  function Elapsed(b: Bucket, now: nat): nat {
    (now - b.time) % (TIME_MAX + 1)
  }

  /** The size of a bucket after a refill, with the addition truncated to 64 bits. */
  function Refill(c: Config, b: Bucket, now: nat): nat
    requires ConfigOk(c)
  {
    var elapsed := Elapsed(b, now);
    if elapsed < c.burst / c.rate then
      var size := (b.size + elapsed * c.rate) % (TIME_MAX + 1);
      if size > c.burst then c.burst else size
    else c.burst
  }

  ghost predicate StateOk(c: Config, s: State) {
    && TableOk(s.table) && |s.buckets| == |s.table.keys|
    && forall i: nat :: i < |s.buckets| && IsHeld(s.table.pool.times, i) ==>
         s.buckets[i].time == s.table.pool.times[i] && s.buckets[i].size <= c.burst
  }

  predicate Policed(c: Config, p: Packet) {
    p.isIpv4 && p.device == c.wanDevice
  }

  /** What becomes of the bucket of a known destination, and whether the packet passes. */
  function Charge(c: Config, b: Bucket, p: Packet): (Bucket, bool)
    requires ConfigOk(c)
  {
    var size := Refill(c, b, p.time);
    if size > p.length then (Bucket(size - p.length, p.time), true) else (Bucket(size, p.time), false)
  }

  ghost function StepPoliced(c: Config, s: State, p: Packet): (State, bool)
    requires ConfigOk(c) && StateOk(c, s)
  {
    match Find(s.table, p.dstIp)
    case Some(i) =>
      var (b, passes) := Charge(c, s.buckets[i], p);
      (State(Touch(s.table, i, p.time), s.buckets[i := b]), passes)
    case None =>
      if p.length > c.burst then (s, false)
      else
        var (t, index) := Insert(s.table, p.dstIp, p.time, Expiration(c));
        match index
        case None => (s, false)
        case Some(i) => (State(t, s.buckets[i := Bucket(c.burst - p.length, p.time)]), true)
  }

  ghost function Step(c: Config, s: State, p: Packet): (State, Output)
    requires ConfigOk(c) && StateOk(c, s)
  {
    if !p.isIpv4 then (s, Drop)
    else if p.device == c.wanDevice then
      var (s', passes) := StepPoliced(c, s, p);
      (s', if passes then Send(p, 1 - p.device) else Drop)
    else (s, Send(p, 1 - p.device))
  }

  /** The bucket of a destination, if it has one. */
  ghost function View(s: State, d: nat): Option<Bucket>
    requires |s.buckets| == |s.table.keys|
  {
    match Find(s.table, d)
    case Some(i) => Some(s.buckets[i])
    case None => None
  }

  /** One step as one destination sees it. */
  ghost predicate ViewStep(c: Config, v: Option<Bucket>, p: Packet, passes: bool, v': Option<Bucket>, d: nat)
    requires ConfigOk(c)
  {
    if Policed(c, p) && p.dstIp == d then
      match v
      case Some(b) => (v', passes) == (Some(Charge(c, b, p).0), Charge(c, b, p).1)
      case None =>
        if passes then p.length <= c.burst && v' == Some(Bucket(c.burst - p.length, p.time)) else v' == None
    else
      v' == v || (v.Some? && v'.None? && !Young(p.time, Expiration(c), v.value.time))
  }

  lemma PolicedOk(c: Config, s: State, p: Packet)
    requires ConfigOk(c) && StateOk(c, s) && p.time < TIME_MAX
    ensures StateOk(c, StepPoliced(c, s, p).0)
  {
    LearnEffect(s.table, p.dstIp, p.time, Expiration(c));
  }

  lemma StepOk(c: Config, s: State, p: Packet)
    requires ConfigOk(c) && StateOk(c, s) && p.time < TIME_MAX
    ensures StateOk(c, Step(c, s, p).0)
  {
    PolicedOk(c, s, p);
  }

  lemma StepView(c: Config, s: State, p: Packet, d: nat)
    requires ConfigOk(c) && StateOk(c, s) && p.time < TIME_MAX
    ensures StateOk(c, Step(c, s, p).0)
    ensures ViewStep(c, View(s, d), p, Step(c, s, p).1.Send?, View(Step(c, s, p).0, d), d)
  {
    StepOk(c, s, p);
    if Policed(c, p) {
      LearnEffect(s.table, p.dstIp, p.time, Expiration(c));
      if p.dstIp == d {
        if Find(s.table, d).Some? {
          assert Holds(Step(c, s, p).0.table, Find(s.table, d).value, d);
        }
      } else {
        LearnOther(s.table, p.dstIp, p.time, Expiration(c), d);
      }
    }
  }

  type Run = RunOf<State>

  ghost predicate StepAt(c: Config, r: Run, n: nat)
    requires IsRunShaped(r) && n < |r.packets|
  {
    && ConfigOk(c) && r.packets[n].time < TIME_MAX
    && StateOk(c, r.states[n])
    && (r.states[n + 1], r.outputs[n]) == Step(c, r.states[n], r.packets[n])
  }

  /** The table starts empty, packets are handled as `Step` says, and time never runs backwards. */
  ghost predicate IsRun(c: Config, r: Run) {
    && IsRunShaped(r)
    && ConfigOk(c) && StateOk(c, r.states[0]) && Empty(r.states[0].table)
    && (forall n: nat :: n < |r.packets| ==> StepAt(c, r, n))
    && Monotone(r)
  }

  /** The bytes passed on to a destination by the packets from `i` up to `j`. */
  ghost function Passed(c: Config, r: Run, d: nat, i: nat, j: nat): nat
    requires i <= j <= |r.packets| == |r.outputs|
  {
    if i == j then 0
    else
      Passed(c, r, d, i, j - 1) +
      if Policed(c, r.packets[j - 1]) && r.packets[j - 1].dstIp == d && r.outputs[j - 1].Send?
      then r.packets[j - 1].length else 0
  }

  lemma {:induction false} RunOk(c: Config, r: Run, n: nat)
    requires IsRun(c, r) && n < |r.states|
    ensures StateOk(c, r.states[n])
  {
    if n > 0 {
      assert StepAt(c, r, n - 1);
      StepOk(c, r.states[n - 1], r.packets[n - 1]);
    }
  }

  /**
   What a bucket's contents are worth in the accounting below: one byte is withheld, because a packet passes
   only if it leaves the bucket non-empty.
   */
  function Worth(size: nat): nat {
    if size == 0 then 0 else size - 1
  }

  /**
   Refilling adds no more worth than the rate allows, provided the whole-unit refill time is at most one byte short.
   */
  lemma RefillBound(c: Config, b: Bucket, now: nat)
    requires ConfigOk(c) && c.burst % c.rate <= 1 && b.size <= c.burst && b.time <= now <= TIME_MAX
    ensures Refill(c, b, now) <= c.burst
    ensures Worth(Refill(c, b, now)) <= Worth(b.size) + c.rate * (now - b.time)
  {
    var q, elapsed := c.burst / c.rate, now - b.time;
    ElapsedIs(b, now);
    DivisionLaw(c.burst, c.rate);
    if elapsed >= q {
      RateMonotone(c.rate, q, elapsed);
    } else if elapsed >= 1 {
      RateMonotone(c.rate, 1, elapsed);
    }
    RateCommutes(c.rate, elapsed);
    TruncatedIsLess(b.size + elapsed * c.rate);
  }

  lemma TruncatedIsLess(size: nat)
    ensures size % (TIME_MAX + 1) <= size
  {
  }

  lemma ElapsedIs(b: Bucket, now: nat)
    requires b.time <= now <= TIME_MAX
    ensures Elapsed(b, now) == now - b.time
  {
  }

  lemma RateCommutes(rate: nat, elapsed: nat)
    ensures elapsed * rate == rate * elapsed
  {
  }

  /** A bucket that expires has earned at least `cap` bytes since its last use. */
  predicate LongEnough(c: Config, cap: nat)
    requires ConfigOk(c)
  {
    c.rate * (Expiration(c) + 1) >= cap
  }

  /** If the multiplication is not truncated, the expiration time is long enough to fill a bucket. */
  lemma UntruncatedIsLongEnough(c: Config)
    requires ConfigOk(c) && NANOSECONDS * c.burst <= TIME_MAX
    ensures LongEnough(c, c.burst)
  {
    var x := NANOSECONDS * c.burst;
    assert x % (TIME_MAX + 1) == x;
    DivisionLaw(x, c.rate);
    RateDistributes(c.rate, Expiration(c), 1);
  }

  lemma RateDistributes(rate: nat, a: nat, b: nat)
    ensures rate * (a + b) == rate * a + rate * b
  {
  }

  lemma ExpiredEarned(c: Config, time: nat, now: nat, cap: nat)
    requires ConfigOk(c) && LongEnough(c, cap) && time <= now && !Young(now, Expiration(c), time)
    ensures c.rate * (now - time) >= cap
  {
    hide Expiration;
    RateMonotone(c.rate, Expiration(c) + 1, now - time);
  }

  /** What a new destination may take: the whole burst, but one byte less if no packet is as long as that. */
  predicate IsCap(c: Config, cap: nat, longest: nat) {
    cap == c.burst || (cap == c.burst - 1 && longest < c.burst)
  }

  /**
   The account of a destination since time `since`: what passed, plus what its bucket is worth, is within the rate.
   */
  ghost predicate Balanced(c: Config, cap: nat, v: Option<Bucket>, passed: nat, since: nat, now: nat) {
    && since <= now
    && match v
       case None => passed <= c.rate * (now - since)
       case Some(b) =>
         && b.time <= now && b.size <= c.burst
         && if b.time < since then passed == 0
            else passed + Worth(b.size) <= cap + c.rate * (b.time - since)
  }

  lemma RateAdds(rate: nat, a: int, b: int, c: int)
    ensures rate * (b - a) + rate * (c - b) == rate * (c - a)
  {
  }

  lemma BalancedCharge(c: Config, cap: nat, b: Bucket, passed: nat, since: nat, p: Packet)
    requires ConfigOk(c) && c.burst % c.rate <= 1 && cap + 1 >= c.burst
    requires Balanced(c, cap, Some(b), passed, since, p.time) && p.time <= TIME_MAX
    ensures var (b', passes) := Charge(c, b, p);
            Balanced(c, cap, Some(b'), passed + (if passes then p.length else 0), since, p.time)
  {
    hide Refill;
    RefillBound(c, b, p.time);
    RateAdds(c.rate, since, b.time, p.time);
    RateMonotone(c.rate, 0, p.time - since);
  }

  lemma BalancedEviction(c: Config, cap: nat, b: Bucket, passed: nat, since: nat, now: nat)
    requires ConfigOk(c) && LongEnough(c, cap)
    requires Balanced(c, cap, Some(b), passed, since, now) && !Young(now, Expiration(c), b.time)
    ensures Balanced(c, cap, None, passed, since, now)
  {
    hide Expiration;
    ExpiredEarned(c, b.time, now, cap);
    RateAdds(c.rate, since, b.time, now);
    RateMonotone(c.rate, 0, now - since);
  }

  lemma BalancedLater(c: Config, cap: nat, v: Option<Bucket>, passed: nat, since: nat, now: nat, later: nat)
    requires Balanced(c, cap, v, passed, since, now) && now <= later
    ensures Balanced(c, cap, v, passed, since, later)
  {
    RateMonotone(c.rate, now - since, later - since);
  }

  lemma BalancedStep(c: Config, cap: nat, v: Option<Bucket>, passed: nat, since: nat, now: nat, p: Packet, passes: bool,
                     v': Option<Bucket>, d: nat)
    requires ConfigOk(c) && c.burst % c.rate <= 1 && LongEnough(c, cap) && IsCap(c, cap, p.length)
    requires Balanced(c, cap, v, passed, since, now) && now <= p.time <= TIME_MAX
    requires ViewStep(c, v, p, passes, v', d)
    ensures Balanced(c, cap, v', passed + (if Policed(c, p) && p.dstIp == d && passes then p.length else 0), since,
                     p.time)
  {
    hide Charge, Expiration, Young;
    BalancedLater(c, cap, v, passed, since, now, p.time);
    if Policed(c, p) && p.dstIp == d {
      if v.Some? {
        BalancedCharge(c, cap, v.value, passed, since, p);
      }
    } else if v.Some? && v'.None? {
      BalancedEviction(c, cap, v.value, passed, since, p.time);
    }
  }

  lemma RateMonotone(rate: nat, a: nat, b: nat)
    requires a <= b
    ensures rate * a <= rate * b
  {
  }

  lemma BalancedStart(c: Config, cap: nat, v: Option<Bucket>, since: nat)
    requires cap + 1 >= c.burst && (v.Some? ==> v.value.time <= since && v.value.size <= c.burst)
    ensures Balanced(c, cap, v, 0, since, since)
  {
  }

  /** No packet of the run is longer than that. */
  ghost predicate NoneLonger(r: Run, longest: nat) {
    forall n: nat :: n < |r.packets| ==> r.packets[n].length <= longest
  }

  lemma {:induction false} AccountBalanced(c: Config, r: Run, cap: nat, longest: nat, d: nat, i: nat, j: nat)
    requires IsRun(c, r) && c.burst % c.rate <= 1 && i < j <= |r.packets|
    requires LongEnough(c, cap) && IsCap(c, cap, longest) && NoneLonger(r, longest)
    ensures StateOk(c, r.states[j])
    ensures Balanced(c, cap, View(r.states[j], d), Passed(c, r, d, i, j), r.packets[i].time, r.packets[j - 1].time)
  {
    hide Step, View, ViewStep, Balanced, LongEnough;
    var p, since := r.packets[j - 1], r.packets[i].time;
    var s := r.states[j - 1];
    assert StepAt(c, r, j - 1);
    StepView(c, s, p, d);
    var now := since;
    if i < j - 1 {
      AccountBalanced(c, r, cap, longest, d, i, j - 1);
      now := r.packets[j - 2].time;
    } else {
      BucketsNotFromTheFuture(c, r, i, d);
      BalancedStart(c, cap, View(s, d), since);
    }
    BalancedStep(c, cap, View(s, d), Passed(c, r, d, i, j - 1), since, now, p, r.outputs[j - 1].Send?,
                 View(r.states[j], d), d);
  }

  lemma {:induction false} BucketsNotFromTheFuture(c: Config, r: Run, n: nat, d: nat)
    requires IsRun(c, r) && n < |r.packets|
    ensures StateOk(c, r.states[n])
    ensures View(r.states[n], d).Some? ==>
              View(r.states[n], d).value.time <= r.packets[n].time && View(r.states[n], d).value.size <= c.burst
  {
    RunOk(c, r, n);
    if n > 0 {
      BucketsNotFromTheFuture(c, r, n - 1, d);
      assert StepAt(c, r, n - 1);
      StepView(c, r.states[n - 1], r.packets[n - 1], d);
    }
  }

  /** The advertised bound: in any window, one burst plus what the rate yields over the window. */
  ghost predicate WithinRate(c: Config, r: Run) {
    |r.packets| == |r.outputs| &&
    forall d: nat, i: nat, j: nat :: i < j <= |r.packets| ==>
      Passed(c, r, d, i, j) <= c.burst + c.rate * (r.packets[j - 1].time - r.packets[i].time)
  }

  lemma WindowBound(c: Config, r: Run, cap: nat, longest: nat, d: nat, i: nat, j: nat)
    requires IsRun(c, r) && c.burst % c.rate <= 1 && i < j <= |r.packets|
    requires LongEnough(c, cap) && IsCap(c, cap, longest) && NoneLonger(r, longest)
    ensures Passed(c, r, d, i, j) <= c.burst + c.rate * (r.packets[j - 1].time - r.packets[i].time)
  {
    AccountBalanced(c, r, cap, longest, d, i, j);
    WithinWindow(c, cap, View(r.states[j], d), Passed(c, r, d, i, j), r.packets[i].time, r.packets[j - 1].time);
  }

  lemma WithinWindow(c: Config, cap: nat, v: Option<Bucket>, passed: nat, since: nat, now: nat)
    requires Balanced(c, cap, v, passed, since, now) && cap <= c.burst
    ensures passed <= c.burst + c.rate * (now - since)
  {
    if v.Some? && v.value.time >= since {
      RateMonotone(c.rate, v.value.time - since, now - since);
    }
  }

  /** So the bound holds whenever the whole-unit refill time and the expiration time are both long enough. */
  lemma RunsWithinRate(c: Config, r: Run, cap: nat, longest: nat)
    requires IsRun(c, r) && c.burst % c.rate <= 1
    requires LongEnough(c, cap) && IsCap(c, cap, longest) && NoneLonger(r, longest)
    ensures WithinRate(c, r)
  {
    hide LongEnough, IsRun, NoneLonger;
    assert |r.packets| == |r.outputs| by {
      RunShape(c, r);
    }
    forall d: nat, i: nat, j: nat | i < j <= |r.packets|
      ensures Passed(c, r, d, i, j) <= c.burst + c.rate * (r.packets[j - 1].time - r.packets[i].time)
    {
      WindowBound(c, r, cap, longest, d, i, j);
    }
  }

  lemma RunShape(c: Config, r: Run)
    requires IsRun(c, r)
    ensures |r.packets| == |r.outputs| && |r.states| == |r.packets| + 1
  {
  }
}
