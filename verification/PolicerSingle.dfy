/**
 The policer with a table of a single entry. A destination that loses the entry can get it back only after the one that
 took it has expired in turn, so twice the expiration time counts.
 */
module PolicerSingle {
  import opened Options
  import opened Packets
  import opened PolicerLimits
  import opened PolicerSpec
  import opened PoolSpec
  import opened TableSpec

  /** Two expiration times, one after the other. */
  function TwoExpirations(c: Config): nat
    requires ConfigOk(c)
  {
    Expiration(c) + 1 + Expiration(c) + 1
  }

  /** In two expiration times a destination earns at least `cap` bytes. */
  predicate LongEnoughTwice(c: Config, cap: nat)
    requires ConfigOk(c)
  {
    c.rate * TwoExpirations(c) >= cap
  }

  /**
   The account of a destination since time `since`: while the entry is another's, it was taken an expiration time
   after the destination's last use of it.
   */
  ghost predicate Account(c: Config, cap: nat, s: State, d: nat, passed: nat, since: nat, now: nat)
    requires ConfigOk(c)
  {
    && StateOk(c, s) && |s.buckets| == 1 && since <= now
    && if !IsHeld(s.table.pool.times, 0) then passed == 0
       else
         var b := s.buckets[0];
         && b.time <= now
         && if s.table.keys[0] == d then Owned(c, cap, b, passed, since) else Lost(c, cap, b.time, passed, since)
  }

  ghost predicate Owned(c: Config, cap: nat, b: Bucket, passed: nat, since: nat) {
    && b.size <= c.burst
    && if b.time < since then passed == 0 else passed + Worth(b.size) <= cap + c.rate * (b.time - since)
  }

  ghost predicate Lost(c: Config, cap: nat, time: nat, passed: nat, since: nat)
    requires ConfigOk(c)
  {
    || passed == 0
    || (since + Expiration(c) + 1 <= time && passed <= cap + c.rate * (time - since - Expiration(c) - 1))
  }

  lemma OwnedIsBalanced(c: Config, cap: nat, b: Bucket, passed: nat, since: nat, now: nat)
    requires since <= now && b.time <= now
    ensures Owned(c, cap, b, passed, since) <==> Balanced(c, cap, Some(b), passed, since, now)
  {
  }

  /** The entry's owner is charged. */
  lemma OwnerCharged(c: Config, cap: nat, b: Bucket, passed: nat, since: nat, p: Packet)
    requires ConfigOk(c) && c.burst % c.rate <= 1 && cap + 1 >= c.burst
    requires b.time <= p.time <= TIME_MAX && since <= p.time
    requires Owned(c, cap, b, passed, since)
    ensures var (b', passes) := Charge(c, b, p);
            b'.time == p.time && Owned(c, cap, b', passed + (if passes then p.length else 0), since)
  {
    hide Refill, Balanced, Owned;
    OwnedIsBalanced(c, cap, b, passed, since, p.time);
    BalancedCharge(c, cap, b, passed, since, p);
    var (b', passes) := Charge(c, b, p);
    OwnedIsBalanced(c, cap, b', passed + (if passes then p.length else 0), since, p.time);
  }

  /** Another's use of the entry, or its passing to yet another, only makes the loss older. */
  lemma LostLater(c: Config, cap: nat, time: nat, now: nat, passed: nat, since: nat)
    requires ConfigOk(c) && Lost(c, cap, time, passed, since) && time <= now
    ensures Lost(c, cap, now, passed, since)
  {
    hide Expiration;
    if passed != 0 {
      RateMonotone(c.rate, time - since - Expiration(c) - 1, now - since - Expiration(c) - 1);
    }
  }

  /** The owner loses the entry once it has expired. */
  lemma OwnerLoses(c: Config, cap: nat, b: Bucket, now: nat, passed: nat, since: nat)
    requires ConfigOk(c) && Owned(c, cap, b, passed, since) && b.time <= now && since <= now
    requires !Young(now, Expiration(c), b.time)
    ensures Lost(c, cap, now, passed, since)
  {
    hide Expiration;
    if b.time >= since {
      RateMonotone(c.rate, b.time - since, now - since - Expiration(c) - 1);
    }
  }

  /** It gets the entry back only after another expiration time, by when it has earned what it may take anew. */
  lemma LoserReturns(c: Config, cap: nat, time: nat, now: nat, passed: nat, since: nat, length: nat)
    requires ConfigOk(c) && LongEnoughTwice(c, cap) && IsCap(c, cap, length) && length <= c.burst
    requires Lost(c, cap, time, passed, since) && time <= now && since <= now && !Young(now, Expiration(c), time)
    ensures Owned(c, cap, Bucket(c.burst - length, now), passed + length, since)
  {
    hide Expiration;
    if passed != 0 {
      var x, e := time - since - Expiration(c) - 1, TwoExpirations(c);
      RateDistributes(c.rate, x, e);
      RateMonotone(c.rate, x + e, now - since);
    } else {
      RateMonotone(c.rate, 0, now - since);
    }
  }

  lemma AccountNext(c: Config, cap: nat, s: State, d: nat, passed: nat, since: nat, now: nat, p: Packet)
    requires ConfigOk(c) && c.burst % c.rate <= 1 && LongEnoughTwice(c, cap) && IsCap(c, cap, p.length)
    requires Account(c, cap, s, d, passed, since, now) && now <= p.time < TIME_MAX
    ensures var (s', o) := Step(c, s, p);
            Account(c, cap, s', d, passed + (if Policed(c, p) && p.dstIp == d && o.Send? then p.length else 0), since,
                    p.time)
  {
    hide LongEnoughTwice, Charge, Owned, Lost, Expiration, Young;
    StepOk(c, s, p);
    if Policed(c, p) {
      if Find(s.table, p.dstIp).Some? {
        KnownNext(c, cap, s, d, passed, since, now, p);
      } else {
        UnknownNext(c, cap, s, d, passed, since, now, p);
      }
    }
  }

  lemma KnownNext(c: Config, cap: nat, s: State, d: nat, passed: nat, since: nat, now: nat, p: Packet)
    requires ConfigOk(c) && c.burst % c.rate <= 1 && IsCap(c, cap, p.length) && Policed(c, p)
    requires Account(c, cap, s, d, passed, since, now) && now <= p.time < TIME_MAX && Find(s.table, p.dstIp).Some?
    ensures var (s', o) := Step(c, s, p);
            Account(c, cap, s', d, passed + (if p.dstIp == d && o.Send? then p.length else 0), since, p.time)
  {
    hide Owned, Lost, Expiration, Young, Refill;
    StepOk(c, s, p);
    var b := s.buckets[0];
    if p.dstIp == d {
      OwnerCharged(c, cap, b, passed, since, p);
    } else {
      LostLater(c, cap, b.time, p.time, passed, since);
    }
  }

  lemma UnknownNext(c: Config, cap: nat, s: State, d: nat, passed: nat, since: nat, now: nat, p: Packet)
    requires ConfigOk(c) && LongEnoughTwice(c, cap) && IsCap(c, cap, p.length) && Policed(c, p)
    requires Account(c, cap, s, d, passed, since, now) && now <= p.time < TIME_MAX && Find(s.table, p.dstIp).None?
    ensures var (s', o) := Step(c, s, p);
            Account(c, cap, s', d, passed + (if p.dstIp == d && o.Send? then p.length else 0), since, p.time)
  {
    hide LongEnoughTwice, Owned, Lost, Expiration, Young;
    StepOk(c, s, p);
    var b := s.buckets[0];
    if p.length <= c.burst && Borrowed(s.table.pool, p.time, Expiration(c)).Some? {
      if !IsHeld(s.table.pool.times, 0) {
        NothingYet(c, cap, p.time, since, p.length);
      } else if p.dstIp == d {
        assert s.table.keys[0] != d by {
          assert !Holds(s.table, 0, d);
        }
        LoserReturns(c, cap, b.time, p.time, passed, since, p.length);
      } else if s.table.keys[0] == d {
        OwnerLoses(c, cap, b, p.time, passed, since);
      } else {
        LostLater(c, cap, b.time, p.time, passed, since);
      }
    }
  }

  lemma NothingYet(c: Config, cap: nat, now: nat, since: nat, length: nat)
    requires ConfigOk(c) && IsCap(c, cap, length) && length <= c.burst && since <= now
    ensures Owned(c, cap, Bucket(c.burst - length, now), length, since) && Lost(c, cap, now, 0, since)
  {
    RateMonotone(c.rate, 0, now - since);
  }

  lemma StepSize(c: Config, s: State, p: Packet)
    requires ConfigOk(c) && StateOk(c, s)
    ensures |Step(c, s, p).0.buckets| == |s.buckets|
  {
    hide Charge, Expiration, Borrowed;
  }

  lemma {:induction false} RunSize(c: Config, r: Run, n: nat)
    requires IsRun(c, r) && n < |r.states|
    ensures StateOk(c, r.states[n]) && |r.states[n].buckets| == |r.states[0].buckets|
  {
    hide Step;
    if n > 0 {
      RunSize(c, r, n - 1);
      assert StepAt(c, r, n - 1);
      StepOk(c, r.states[n - 1], r.packets[n - 1]);
      StepSize(c, r.states[n - 1], r.packets[n - 1]);
    }
  }

  lemma AccountStart(c: Config, r: Run, cap: nat, d: nat, i: nat)
    requires IsRun(c, r) && |r.states[0].buckets| == 1 && i < |r.packets| && cap + 1 >= c.burst
    ensures Account(c, cap, r.states[i], d, 0, r.packets[i].time, r.packets[i].time)
  {
    RunSize(c, r, i);
    var s := r.states[i];
    if IsHeld(s.table.pool.times, 0) {
      FindIs(s.table, 0, s.table.keys[0]);
      BucketsNotFromTheFuture(c, r, i, s.table.keys[0]);
    }
  }

  lemma {:induction false} AccountOnRun(c: Config, r: Run, cap: nat, longest: nat, d: nat, i: nat, j: nat)
    requires IsRun(c, r) && c.burst % c.rate <= 1 && |r.states[0].buckets| == 1 && i < j <= |r.packets|
    requires LongEnoughTwice(c, cap) && IsCap(c, cap, longest) && NoneLonger(r, longest)
    ensures Account(c, cap, r.states[j], d, Passed(c, r, d, i, j), r.packets[i].time, r.packets[j - 1].time)
  {
    hide Step, Account, LongEnoughTwice;
    var p, since := r.packets[j - 1], r.packets[i].time;
    assert StepAt(c, r, j - 1);
    var now := since;
    if i < j - 1 {
      AccountOnRun(c, r, cap, longest, d, i, j - 1);
      now := r.packets[j - 2].time;
    } else {
      AccountStart(c, r, cap, d, i);
    }
    AccountNext(c, cap, r.states[j - 1], d, Passed(c, r, d, i, j - 1), since, now, p);
  }

  lemma AccountWithin(c: Config, cap: nat, s: State, d: nat, passed: nat, since: nat, now: nat)
    requires ConfigOk(c) && Account(c, cap, s, d, passed, since, now) && cap <= c.burst
    ensures passed <= c.burst + c.rate * (now - since)
  {
    hide Expiration;
    var b := s.buckets[0];
    RateMonotone(c.rate, 0, now - since);
    if IsHeld(s.table.pool.times, 0) && passed != 0 {
      if s.table.keys[0] == d {
        RateMonotone(c.rate, b.time - since, now - since);
      } else {
        RateMonotone(c.rate, b.time - since - Expiration(c) - 1, now - since);
      }
    }
  }

  /** So with a single entry the bound holds whenever two expiration times are long enough. */
  lemma RunsWithinRate(c: Config, r: Run, cap: nat, longest: nat)
    requires IsRun(c, r) && c.burst % c.rate <= 1 && |r.states[0].buckets| == 1
    requires LongEnoughTwice(c, cap) && IsCap(c, cap, longest) && NoneLonger(r, longest)
    ensures WithinRate(c, r)
  {
    hide LongEnoughTwice, Account, Passed;
    forall d: nat, i: nat, j: nat | i < j <= |r.packets|
      ensures Passed(c, r, d, i, j) <= c.burst + c.rate * (r.packets[j - 1].time - r.packets[i].time)
    {
      AccountOnRun(c, r, cap, longest, d, i, j);
      AccountWithin(c, cap, r.states[j], d, Passed(c, r, d, i, j), r.packets[i].time, r.packets[j - 1].time);
    }
  }

  /** Another round: a destination never seen takes the entry, and loses it again. */
  lemma EvictTwiceRound(c: Config, r: Run, s0: State, least: nat, longest: nat, last: nat, k: nat, lengths: seq<nat>)
    returns (r': Run)
    requires ConfigOk(c) && RunTo(c, r, s0, least, longest, last) && Parked(c, Last(r), last, k)
    requires last + TwoExpirations(c) < TIME_MAX && least <= c.burst && least <= longest
    requires lengths != [] && InRange(lengths, least, longest) && lengths[0] <= c.burst
    requires lengths[1..] == [] || Sum(lengths) < c.burst
    ensures RunTo(c, r', s0, least, longest, last + TwoExpirations(c)) && Total(c, r') == Total(c, r) + Sum(lengths)
    ensures r.packets <= r'.packets && |r'.packets| > 0
    ensures r'.packets[|r'.packets| - 1].time == last + TwoExpirations(c)
    ensures Parked(c, Last(r'), last + TwoExpirations(c), k + 1)
  {
    hide Step, Refill, Expiration, IsRun, Passed, Parked, Borrowed;
    var taken := last + Expiration(c) + 1;
    var time := taken + Expiration(c) + 1;
    EvictZero(c, Last(r), last, taken, k, least);
    r' := Extend(c, r, s0, least, longest, PacketOf(c, k + 1, taken, least));
    Enter(c, Last(r'), time, k + 1, lengths[0]);
    r' := Extend(c, r', s0, least, longest, PacketOf(c, 0, time, lengths[0]));
    assert r'.packets[|r'.packets| - 1].time == time;
    if lengths[1..] != [] {
      NoTimeNoLoss(c, Bucket(c.burst - lengths[0], time));
      assert InRange(lengths[1..], least, longest);
      r' := Drain(c, r', s0, least, longest, time, time, k + 1, lengths[1..]);
    }
  }

  lemma ThreeReturns(c: Config, cap: nat)
    requires ConfigOk(c) && !LongEnoughTwice(c, cap) && c.burst - 1 <= cap <= c.burst
    ensures var e := TwoExpirations(c); 3 * cap > c.burst + c.rate * (e + e) && e <= c.burst
  {
    hide TwoExpirations;
    var e := TwoExpirations(c);
    RateDistributes(c.rate, e, e);
    RateMonotone(e, 1, c.rate);
  }

  /** When two expiration times are too short, three bursts exceed the bound. */
  lemma TooShort(c: Config, s0: State, least: nat, longest: nat) returns (r: Run)
    requires ConfigOk(c) && StateOk(c, s0) && Empty(s0.table) && |s0.buckets| == 1
    requires Lengths(c, least, longest) && Modest(c) && !LongEnoughTwice(c, Cap(c, longest))
    ensures RunFrom(c, r, s0, least, longest) && !WithinRate(c, r)
  {
    hide Step, IsRun, Parked, Passed, LongEnoughTwice, TwoExpirations;
    var cap, e := Cap(c, longest), TwoExpirations(c);
    ThreeReturns(c, cap);
    var lengths: seq<nat> := [cap];
    if longest < c.burst {
      lengths := MadeUp(cap, least, longest);
    }
    assert lengths[0] + Sum(lengths[1..]) == cap;
    r := FirstRound(c, s0, least, longest, lengths);
    var first := r.packets[0];
    r := EvictTwiceRound(c, r, s0, least, longest, 0, 0, lengths);
    r := EvictTwiceRound(c, r, s0, least, longest, e, 1, lengths);
    assert r.packets[0] == first && first.time == 0;
    Exceeds(c, r, s0, least, longest, e + e);
  }

  /**
   With a table of a single entry the policer keeps every run within its rate exactly if the burst is a multiple of the
   rate or one more than that, and two expiration times are long enough to earn what a new destination may take.
   */
  lemma WithinRateIff(c: Config, s0: State, least: nat, longest: nat)
    requires ConfigOk(c) && StateOk(c, s0) && Empty(s0.table) && |s0.buckets| == 1
    requires Lengths(c, least, longest) && Modest(c)
    ensures c.burst % c.rate <= 1 && LongEnoughTwice(c, Cap(c, longest)) <==>
              forall r: Run :: RunFrom(c, r, s0, least, longest) ==> WithinRate(c, r)
  {
    hide RunFrom, LongEnoughTwice, StateOk, WithinRate, IsCap;
    if c.burst % c.rate <= 1 && LongEnoughTwice(c, Cap(c, longest)) {
      forall r: Run | RunFrom(c, r, s0, least, longest)
        ensures WithinRate(c, r)
      {
        AllowedWithinRate(c, r, s0, Cap(c, longest), least, longest);
      }
    } else if c.burst % c.rate >= 2 {
      var r := TooFast(c, s0, least, longest);
    } else {
      var r := TooShort(c, s0, least, longest);
    }
  }

  lemma AllowedWithinRate(c: Config, r: Run, s0: State, cap: nat, least: nat, longest: nat)
    requires ConfigOk(c) && RunFrom(c, r, s0, least, longest) && c.burst % c.rate <= 1 && |s0.buckets| == 1
    requires LongEnoughTwice(c, cap) && IsCap(c, cap, longest)
    ensures WithinRate(c, r)
  {
    hide LongEnoughTwice, WithinRate;
    assert NoneLonger(r, longest);
    RunsWithinRate(c, r, cap, longest);
  }

  /** With a table of no entries nothing is passed on to the policed side. */
  lemma {:induction false} NothingPasses(c: Config, r: Run, d: nat, i: nat, j: nat)
    requires IsRun(c, r) && |r.states[0].buckets| == 0 && i <= j <= |r.packets|
    ensures Passed(c, r, d, i, j) == 0
  {
    hide Step;
    if i < j {
      NothingPasses(c, r, d, i, j - 1);
      RunSize(c, r, j - 1);
      assert StepAt(c, r, j - 1);
      if Policed(c, r.packets[j - 1]) {
        NoRoom(c, r.states[j - 1], r.packets[j - 1]);
      }
    }
  }

  lemma NoRoom(c: Config, s: State, p: Packet)
    requires ConfigOk(c) && StateOk(c, s) && |s.buckets| == 0 && Policed(c, p)
    ensures !Step(c, s, p).1.Send?
  {
    assert forall i: nat :: !Holds(s.table, i, p.dstIp);
    assert Find(s.table, p.dstIp).None?;
  }
}
