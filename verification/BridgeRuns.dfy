/** Which frames the bridge floods, learns from and announces by, on its runs. */
module BridgeRuns {
  import opened BridgeSpec
  import opened Options
  import opened PoolSpec
  import opened TableSpec
  import ST = SpanningTree

  /** The latest frame from an address is known of, and the address has not been evicted since. */
  ghost predicate IsHeardOf(r: Run, n: nat, a: nat)
    requires n < |r.states|
  {
    exists m: nat :: LatestFrom(r, m, n, a)
  }

  /** On any run a forwarded frame is flooded exactly if its destination has not been heard of, or was evicted since. */
  lemma FloodedIff(c: Config, r: Run, n: nat)
    requires IsRun(c, r) && n < |r.arrivals| && r.outputs[n].Forwarded?
    ensures r.outputs[n].action.FloodOut? <==> !IsHeardOf(r, n + 1, r.arrivals[n].frame.destination)
  {
    var a, after := r.arrivals[n].frame.destination, n + 1;
    BridgeSpec.RunOk(c, r, n + 1);
    assert StepAt(c, r, n);
    ForwardedStep(c, r.states[n], r.arrivals[n]);
    if KnownDevice(r.states[n + 1].learned, a).Some? {
      var m := KnownIsLatest(c, r, n + 1, a);
    }
    if m: nat :| LatestFrom(r, m, after, a) {
      assert KnownDevice(r.states[after].learned, a).Some?;
    }
  }

  /**
   So on any run a forwarded frame goes out on exactly these devices: that on which its destination was last heard of,
   or, if there is none, all that are not blocked; but never its own.
   */
  lemma SentExactly(c: Config, r: Run, n: nat, d: nat)
    requires IsRun(c, r) && n < |r.arrivals| && r.outputs[n].Forwarded?
    ensures var a := r.arrivals[n].frame.destination;
            d in r.outputs[n].devices <==>
              d != r.arrivals[n].frame.device &&
              if IsHeardOf(r, n + 1, a) then LatestCameOn(r, n + 1, a, d)
              else d < |r.states[n].stp.disabled| && !IsBlocked(r.states[n], d)
  {
    var a, o, after := r.arrivals[n].frame.destination, r.outputs[n], n + 1;
    FloodedIff(c, r, n);
    BridgeSpec.RunOk(c, r, n);
    assert StepAt(c, r, n);
    ForwardedStep(c, r.states[n], r.arrivals[n]);
    if !o.action.FloodOut? {
      var m := SentWhereLastHeard(c, r, n);
      forall m': nat | LatestFrom(r, m', after, a)
        ensures m' == m
      {
        LatestUnique(r, m, m', after, a);
      }
    }
  }

  /** When an address that is known was last used. */
  ghost predicate HeardAt(s: State, a: nat, time: nat) {
    StateOk(s) && Find(s.table, a).Some? && s.table.pool.times[Find(s.table, a).value] == time
  }

  /**
   What a frame does to an address: its source is learned exactly if known or if there is room; others stay or
   expire.
   */
  lemma LearnedIff(s: State, f: Frame, expiration: nat, a: nat)
    requires StateOk(s) && f.time < TIME_MAX
    ensures var s' := LearnSource(s, f, expiration);
            && StateOk(s')
            && if !f.fromGroup && f.source == a then
                 && (Find(s'.table, a).Some? <==>
                       Find(s.table, a).Some? || exists i: nat :: Available(s.table.pool.times, i, f.time, expiration))
                 && (Find(s'.table, a).Some? ==> HeardAt(s', a, f.time) && KnownDevice(s', a) == Some(f.device))
               else
                 forall time: nat :: HeardAt(s, a, time) ==>
                   if HeardAt(s', a, time) then KnownDevice(s', a) == KnownDevice(s, a)
                   else Find(s'.table, a).None? && !Young(f.time, expiration, time)
  {
    LearnSourceOk(s, f, expiration);
    if !f.fromGroup {
      LearnEffect(s.table, f.source, f.time, expiration);
      var (t, index) := Learn(s.table, f.source, f.time, expiration);
      if f.source == a {
        if index.Some? {
          FindIs(t, index.value, a);
        }
      } else {
        LearnOther(s.table, f.source, f.time, expiration, a);
      }
    }
  }

  ghost predicate IsMonotone(r: Run) {
    forall m: nat, n: nat :: m <= n < |r.arrivals| ==> r.arrivals[m].frame.time <= r.arrivals[n].frame.time
  }

  /** An address stays known, behind its device, while no frame comes from it and its last use is young. */
  lemma StaysStep(c: Config, s: Whole, x: Arrival, a: nat, time: nat)
    requires WholeOk(s) && x.frame.device < |s.stp.disabled| && x.frame.time < TIME_MAX
    requires HeardAt(s.learned, a, time) && Young(x.frame.time, c.expiration, time)
    requires Step(c, s, x).1.Forwarded? ==> x.frame.fromGroup || x.frame.source != a
    ensures var s' := Step(c, s, x).0;
            WholeOk(s') && HeardAt(s'.learned, a, time) && KnownDevice(s'.learned, a) == KnownDevice(s.learned, a)
  {
    hide Step, LearnSource, Young;
    ForwardedStep(c, s, x);
    LearnedIff(s.learned, x.frame, c.expiration, a);
  }

  /**
   An address that was learned from a frame stays known, behind that device, while the latest frame from it is young.
   */
  lemma {:induction false} StaysKnown(c: Config, r: Run, m: nat, k: nat, a: nat, now: nat)
    requires IsRun(c, r) && IsMonotone(r) && m < k < |r.states| && Shows(r, m, a)
    requires WholeOk(r.states[m + 1]) && KnownDevice(r.states[m + 1].learned, a).Some?
    requires forall l: nat :: m < l < k ==> !Shows(r, l, a)
    requires r.arrivals[k - 1].frame.time <= now && Young(now, c.expiration, r.arrivals[m].frame.time)
    ensures WholeOk(r.states[k]) && HeardAt(r.states[k].learned, a, r.arrivals[m].frame.time)
    ensures KnownDevice(r.states[k].learned, a) == Some(r.arrivals[m].frame.device)
    decreases k
  {
    hide Step, LearnSource;
    assert StepAt(c, r, k - 1);
    if m < k - 1 {
      StaysKnown(c, r, m, k - 1, a, now);
      assert !Shows(r, k - 1, a);
      StaysStep(c, r.states[k - 1], r.arrivals[k - 1], a, r.arrivals[m].frame.time);
    } else {
      ForwardedStep(c, r.states[m], r.arrivals[m]);
      LearnedIff(r.states[m].learned, r.arrivals[m].frame, c.expiration, a);
    }
  }

  /** When an announcement was last due before arrival `n`, or zero. */
  ghost function LastDue(c: Config, r: Run, n: nat): nat
    requires n <= |r.arrivals|
    decreases n, 0
  {
    if n == 0 then 0 else if IsDue(c, r, n - 1) then r.arrivals[n - 1].frame.time else LastDue(c, r, n - 1)
  }

  /** An announcement is due at arrival `n`: more than the update time has passed since the last one was. */
  ghost predicate IsDue(c: Config, r: Run, n: nat)
    requires n < |r.arrivals|
    decreases n, 1
  {
    r.arrivals[n].frame.time > LastDue(c, r, n) + c.updateTime
  }

  lemma {:induction false} LastUpdateIsLastDue(c: Config, r: Run, n: nat)
    requires IsRun(c, r) && n < |r.states|
    ensures r.states[n].stp.lastUpdate == LastDue(c, r, n)
  {
    if n > 0 {
      LastUpdateIsLastDue(c, r, n - 1);
      assert StepAt(c, r, n - 1);
    }
  }

  /** What the bridge would tell its neighbours. */
  function ViewOf(s: ST.Bridge): ST.Bpdu {
    ST.Bpdu(s.root, s.rootCost, s.self)
  }

  ghost predicate SameView(s: ST.Bridge, s': ST.Bridge) {
    s'.root == s.root && s'.rootCost == s.rootCost && s'.rootPort == s.rootPort
  }

  /**
   On any run a frame is consumed exactly if an announcement is due or it is a BPDU, and the bridge then announces its
   view exactly if that was due or if its root, cost or root port has changed.
   */
  lemma AnnouncedIff(c: Config, r: Run, n: nat)
    requires IsRun(c, r) && n < |r.arrivals|
    ensures var s, s', x, o := r.states[n].stp, r.states[n + 1].stp, r.arrivals[n], r.outputs[n];
            && (o.Consumed? <==> IsDue(c, r, n) || x.isBpdu)
            && (o.Consumed? ==>
                  o.announced == if IsDue(c, r, n) || !SameView(s, s') then Some(ViewOf(s')) else None)
            && (o.Forwarded? || IsDue(c, r, n) ==> SameView(s, s') && s'.disabled == s.disabled)
  {
    LastUpdateIsLastDue(c, r, n);
    assert StepAt(c, r, n);
    ForwardedStep(c, r.states[n], r.arrivals[n]);
  }

  /** Arrival `m` is a BPDU that the bridge deals with. */
  ghost predicate IsHeard(c: Config, r: Run, m: nat) {
    m < |r.arrivals| && r.arrivals[m].isBpdu && !IsDue(c, r, m)
  }

  /** The root, cost and port that a BPDU offers. */
  ghost function OfferOf(x: Arrival): ST.Rank {
    ST.Rank(x.bpdu.root, ST.CostVia(x.bpdu), x.frame.device)
  }

  /** On any run the bridge holds the least offer, by root, then cost, then port, of itself and all it has heard. */
  lemma {:induction false} HoldsLeastOffer(c: Config, r: Run, n: nat)
    requires IsRun(c, r) && n < |r.states|
    ensures var own, held := ST.Rank(r.states[0].stp.self, 0, 0), ST.RankOf(r.states[n].stp);
            && (held == own || exists m: nat :: m < n && IsHeard(c, r, m) && held == OfferOf(r.arrivals[m]))
            && !ST.Less(own, held)
            && forall m: nat :: m < n && IsHeard(c, r, m) ==> !ST.Less(OfferOf(r.arrivals[m]), held)
  {
    if n > 0 {
      HoldsLeastOffer(c, r, n - 1);
      LastUpdateIsLastDue(c, r, n - 1);
      assert StepAt(c, r, n - 1);
      ForwardedStep(c, r.states[n - 1], r.arrivals[n - 1]);
    }
  }

  /** Arrival `m` makes the bridge take over the root, cost and port that it offers. */
  ghost predicate IsTaken(c: Config, r: Run, m: nat)
    requires |r.states| == |r.arrivals| + 1
  {
    IsHeard(c, r, m) && ST.RankOf(r.states[m + 1].stp) != ST.RankOf(r.states[m].stp)
  }

  /** On any run a port is blocked exactly if a larger root than the bridge's came in on it and no offer taken since. */
  lemma {:induction false} BlockedIff(c: Config, r: Run, n: nat, d: nat)
    requires IsRun(c, r) && n < |r.states| && d < |r.states[0].stp.disabled|
    ensures |r.states[n].stp.disabled| == |r.states[0].stp.disabled|
    ensures r.states[n].stp.disabled[d] <==> exists m: nat :: BlockedBy(c, r, m, n, d)
  {
    if n > 0 {
      var k := n - 1;
      BlockedIff(c, r, k, d);
      BlockedStep(c, r, k, d);
      forall m: nat
        ensures BlockedBy(c, r, m, n, d) <==>
                  if m == k then BlocksOn(c, r, k, d) else BlockedBy(c, r, m, k, d) && !TakenOn(c, r, k, d)
      {
      }
      if r.states[k].stp.disabled[d] && !TakenOn(c, r, k, d) {
        var m: nat :| BlockedBy(c, r, m, k, d);
        assert BlockedBy(c, r, m, n, d);
      }
      assert BlocksOn(c, r, k, d) ==> BlockedBy(c, r, k, n, d);
    }
  }

  /** A port is blocked by a larger root that comes in on it, and opened by an offer that is taken. */
  lemma BlockedStep(c: Config, r: Run, n: nat, d: nat)
    requires IsRun(c, r) && n < |r.arrivals| && d < |r.states[n].stp.disabled|
    ensures |r.states[n + 1].stp.disabled| == |r.states[n].stp.disabled|
    ensures r.states[n + 1].stp.disabled[d] <==>
              BlocksOn(c, r, n, d) || (r.states[n].stp.disabled[d] && !TakenOn(c, r, n, d))
    ensures !(BlocksOn(c, r, n, d) && TakenOn(c, r, n, d))
  {
    LastUpdateIsLastDue(c, r, n);
    assert StepAt(c, r, n);
    var x := r.arrivals[n];
    ForwardedStep(c, r.states[n], x);
    ST.HandleDecreases(r.states[n].stp, x.frame.device, x.bpdu);
  }

  /** Arrival `k` is a BPDU that comes in on a port with a larger root. */
  ghost predicate BlocksOn(c: Config, r: Run, k: nat, d: nat)
    requires |r.states| == |r.arrivals| + 1
  {
    IsHeard(c, r, k) && r.arrivals[k].frame.device == d && r.arrivals[k].bpdu.root > r.states[k].stp.root
  }

  ghost predicate TakenOn(c: Config, r: Run, k: nat, d: nat)
    requires |r.states| == |r.arrivals| + 1
  {
    k < |r.arrivals| && r.arrivals[k].frame.device == d && IsTaken(c, r, k)
  }

  /** BPDU `m` came in on a port with a larger root, and none that came in there since was taken. */
  ghost predicate BlockedBy(c: Config, r: Run, m: nat, n: nat, d: nat)
    requires |r.states| == |r.arrivals| + 1
  {
    && m < n && BlocksOn(c, r, m, d)
    && forall k: nat :: m < k < n ==> !TakenOn(c, r, k, d)
  }
}
