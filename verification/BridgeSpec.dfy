/**
 The bridge as a function of its spanning tree state, its address table and one frame, and where it sends frames on a
 run, blocked ports included.
 */
module BridgeSpec {
  import opened Options
  import opened PoolSpec
  import opened TableSpec
  import ST = SpanningTree

  /** A frame's addresses, the device it came in on, and when; `fromGroup` is the group bit of the source address. */
  datatype Frame = Frame(source: nat, destination: nat, fromGroup: bool, device: nat, time: nat)

  datatype State = State(table: Table<nat>, devices: seq<nat>)

  /** A frame goes out on one device, on none, or on all but its own and the blocked ones. */
  datatype Action = To(device: nat) | Nowhere | FloodOut

  ghost predicate StateOk(s: State) {
    TableOk(s.table) && |s.devices| == |s.table.keys|
  }

  /** Remembers where the source is, unless it is a group or there is no room. */
  ghost function LearnSource(s: State, f: Frame, expiration: nat): State
    requires StateOk(s)
  {
    if f.fromGroup then s
    else
      var (t, index) := Learn(s.table, f.source, f.time, expiration);
      State(t, if index.Some? && index.value < |s.devices| then s.devices[index.value := f.device] else s.devices)
  }

  ghost function Forward(s: State, f: Frame): Action
    requires StateOk(s)
  {
    match Find(s.table, f.destination)
    case Some(i) => if s.devices[i] != f.device then To(s.devices[i]) else Nowhere
    case None => FloodOut
  }

  lemma LearnSourceOk(s: State, f: Frame, expiration: nat)
    requires StateOk(s) && f.time < TIME_MAX
    ensures StateOk(LearnSource(s, f, expiration))
  {
    LearnEffect(s.table, f.source, f.time, expiration);
  }

  /** The devices a frame goes out on. Only a flood heeds blocked ports. */
  function DevicesOf(action: Action, device: nat, blocked: seq<bool>): (ds: set<nat>)
    ensures action != To(device) ==> device !in ds
    ensures action.FloodOut? ==> forall d: nat :: d in ds <==> d < |blocked| && d != device && !blocked[d]
    ensures action.To? ==> forall d: nat :: d in ds <==> d == action.device
  {
    match action
    case To(d) => {d}
    case Nowhere => {}
    case FloodOut => set d: nat | d < |blocked| && d != device && !blocked[d]
  }

  datatype Config = Config(updateTime: nat, expiration: nat)

  /** A bridge: its part of the spanning tree protocol, and what it has learned. */
  datatype Whole = Whole(stp: ST.Bridge, learned: State)

  /** What comes in: a frame, which may be a BPDU. */
  datatype Arrival = Arrival(frame: Frame, isBpdu: bool, bpdu: ST.Bpdu)

  /**
   What the bridge does with a frame: protocol traffic is consumed, possibly flooding a BPDU; the rest is forwarded.
   */
  datatype Output = Consumed(announced: Option<ST.Bpdu>) | Forwarded(action: Action, devices: set<nat>)

  ghost predicate WholeOk(s: Whole) {
    StateOk(s.learned)
  }

  /**
   The protocol comes first: an announcement that is due takes the place of the frame, and a BPDU goes no further.
   Any other frame is learned from and forwarded, whether or not the port it came in on is blocked.
   */
  ghost function Step(c: Config, s: Whole, x: Arrival): (Whole, Output)
    requires WholeOk(s) && x.frame.device < |s.stp.disabled| && x.frame.time < TIME_MAX
  {
    if x.frame.time > s.stp.lastUpdate + c.updateTime then
      (s.(stp := s.stp.(lastUpdate := x.frame.time)), Consumed(Some(ST.Announcement(s.stp))))
    else if x.isBpdu then
      var stp := ST.Handle(s.stp, x.frame.device, x.bpdu);
      (s.(stp := stp),
       Consumed(if ST.Updates(s.stp, x.frame.device, x.bpdu) then Some(ST.Announcement(stp)) else None))
    else
      LearnSourceOk(s.learned, x.frame, c.expiration);
      var learned := LearnSource(s.learned, x.frame, c.expiration);
      var action := Forward(learned, x.frame);
      (s.(learned := learned), Forwarded(action, DevicesOf(action, x.frame.device, s.stp.disabled)))
  }

  /** A run: the states before, between and after the arrivals, and what became of each. */
  datatype Run = Run(states: seq<Whole>, arrivals: seq<Arrival>, outputs: seq<Output>)

  ghost predicate StepAt(c: Config, r: Run, n: nat)
    requires n < |r.arrivals| == |r.outputs| && |r.states| == |r.arrivals| + 1
  {
    var x := r.arrivals[n];
    && WholeOk(r.states[n]) && x.frame.device < |r.states[n].stp.disabled| && x.frame.time < TIME_MAX
    && (r.states[n + 1], r.outputs[n]) == Step(c, r.states[n], x)
  }

  /** Nothing is learned and no port blocked at first, and every arrival is handled as `Step` says. */
  ghost predicate IsRun(c: Config, r: Run) {
    && |r.arrivals| == |r.outputs| && |r.states| == |r.arrivals| + 1
    && WholeOk(r.states[0]) && Empty(r.states[0].learned.table)
    && r.states[0].stp == ST.Fresh(r.states[0].stp.self, |r.states[0].stp.disabled|)
    && forall n: nat :: n < |r.arrivals| ==> StepAt(c, r, n)
  }

  /** The handling of a frame that is forwarded, spelled out. */
  lemma ForwardedStep(c: Config, s: Whole, x: Arrival)
    requires WholeOk(s) && x.frame.device < |s.stp.disabled| && x.frame.time < TIME_MAX
    ensures var (s', o) := Step(c, s, x);
            && WholeOk(s') && |s'.stp.disabled| == |s.stp.disabled|
            && (o.Forwarded? <==> !x.isBpdu && x.frame.time <= s.stp.lastUpdate + c.updateTime)
            && (o.Consumed? ==> s'.learned == s.learned)
            && (o.Forwarded? ==>
                  && s'.stp == s.stp && s'.learned == LearnSource(s.learned, x.frame, c.expiration)
                  && o.action == Forward(s'.learned, x.frame)
                  && o.devices == DevicesOf(o.action, x.frame.device, s.stp.disabled))
  {
    LearnSourceOk(s.learned, x.frame, c.expiration);
  }

  /** Frames that arrive on blocked ports are treated like any others. */
  lemma BlockedArrivalsTreatedAlike(c: Config, s: Whole, x: Arrival, blocked: seq<bool>)
    requires WholeOk(s) && x.frame.device < |s.stp.disabled| == |blocked| && x.frame.time < TIME_MAX && !x.isBpdu
    ensures var (s1, o1) := Step(c, s, x);
            var (s2, o2) := Step(c, s.(stp := s.stp.(disabled := blocked)), x);
            && s2.learned == s1.learned && (o1.Forwarded? <==> o2.Forwarded?)
            && (o1.Forwarded? ==> o2.action == o1.action && (!o1.action.FloodOut? ==> o2.devices == o1.devices))
  {
  }

  /** The device an address is known to be behind. */
  ghost function KnownDevice(s: State, a: nat): Option<nat>
    requires StateOk(s)
  {
    match Find(s.table, a)
    case Some(i) => Some(s.devices[i])
    case None => None
  }

  /** Frame `n` shows where an address is. */
  ghost predicate Shows(r: Run, n: nat, a: nat) {
    && n < |r.arrivals| && n < |r.outputs| && r.outputs[n].Forwarded?
    && !r.arrivals[n].frame.fromGroup && r.arrivals[n].frame.source == a
  }

  /** After a frame from an address the address is known to be behind the frame's device, or not known at all. */
  lemma LearnSourceEffect(s: State, f: Frame, expiration: nat, a: nat)
    requires StateOk(s) && f.time < TIME_MAX
    ensures var s' := LearnSource(s, f, expiration);
            && StateOk(s')
            && if !f.fromGroup && f.source == a then KnownDevice(s', a) == Some(f.device) || KnownDevice(s', a) == None
               else KnownDevice(s', a) == KnownDevice(s, a) || KnownDevice(s', a) == None
  {
    LearnSourceOk(s, f, expiration);
    if !f.fromGroup {
      LearnEffect(s.table, f.source, f.time, expiration);
      if f.source == a {
        var (t, index) := Learn(s.table, a, f.time, expiration);
        if index.Some? {
          FindIs(t, index.value, a);
        }
      } else {
        LearnOther(s.table, f.source, f.time, expiration, a);
      }
    }
  }

  lemma {:induction false} RunOk(c: Config, r: Run, n: nat)
    requires IsRun(c, r) && n < |r.states|
    ensures WholeOk(r.states[n])
  {
    if n > 0 {
      RunOk(c, r, n - 1);
      assert StepAt(c, r, n - 1);
      ForwardedStep(c, r.states[n - 1], r.arrivals[n - 1]);
    }
  }

  /** After each of the arrivals `m` to `n - 1` it is known where the address is. */
  ghost predicate KnownSince(r: Run, m: nat, n: nat, a: nat)
    requires n < |r.states|
  {
    forall k: nat :: m < k <= n ==> WholeOk(r.states[k]) && KnownDevice(r.states[k].learned, a).Some?
  }

  /** Frame `m` is the latest before time `n` from an address, and the address has not been evicted since. */
  ghost predicate LatestFrom(r: Run, m: nat, n: nat, a: nat)
    requires n < |r.states|
  {
    m < n && Shows(r, m, a) && KnownSince(r, m, n, a) && forall k: nat :: m < k < n ==> !Shows(r, k, a)
  }

  /** A known address is known to be behind the device of the latest frame that came from it. */
  lemma {:induction false} KnownIsLatest(c: Config, r: Run, n: nat, a: nat) returns (m: nat)
    requires IsRun(c, r) && n < |r.states| && WholeOk(r.states[n]) && KnownDevice(r.states[n].learned, a).Some?
    ensures LatestFrom(r, m, n, a) && KnownDevice(r.states[n].learned, a) == Some(r.arrivals[m].frame.device)
  {
    if n == 0 {
      assert false;
    } else {
      assert StepAt(c, r, n - 1);
      ForwardedStep(c, r.states[n - 1], r.arrivals[n - 1]);
      LearnSourceEffect(r.states[n - 1].learned, r.arrivals[n - 1].frame, c.expiration, a);
      if Shows(r, n - 1, a) {
        m := n - 1;
      } else {
        m := KnownIsLatest(c, r, n - 1, a);
      }
    }
  }

  /** The latest frame from an address, not evicted since, came in on a port. */
  ghost predicate LatestCameOn(r: Run, n: nat, a: nat, port: nat)
    requires n < |r.states|
  {
    exists m: nat :: LatestFrom(r, m, n, a) && m < |r.arrivals| && r.arrivals[m].frame.device == port
  }

  /** There is no more than one latest frame from an address. */
  lemma LatestUnique(r: Run, m: nat, m': nat, n: nat, a: nat)
    requires n < |r.states| && LatestFrom(r, m, n, a) && LatestFrom(r, m', n, a)
    ensures m == m'
  {
  }

  /**
   A frame not flooded goes where its destination was last heard from; it is held back only if that is where it came
   from.
   */
  lemma SentWhereLastHeard(c: Config, r: Run, n: nat) returns (m: nat)
    requires IsRun(c, r) && n < |r.arrivals| && r.outputs[n].Forwarded? && !r.outputs[n].action.FloodOut?
    ensures LatestFrom(r, m, n + 1, r.arrivals[n].frame.destination)
    ensures var from, to := r.arrivals[n].frame.device, r.arrivals[m].frame.device;
            r.outputs[n].action == if to == from then Nowhere else To(to)
  {
    RunOk(c, r, n + 1);
    assert StepAt(c, r, n);
    ForwardedStep(c, r.states[n], r.arrivals[n]);
    m := KnownIsLatest(c, r, n + 1, r.arrivals[n].frame.destination);
  }

  /** No frame goes out on the device it came in on. */
  lemma NeverBack(c: Config, r: Run, n: nat)
    requires IsRun(c, r) && n < |r.arrivals| && r.outputs[n].Forwarded?
    ensures r.arrivals[n].frame.device !in r.outputs[n].devices
  {
    RunOk(c, r, n + 1);
    assert StepAt(c, r, n);
    ForwardedStep(c, r.states[n], r.arrivals[n]);
  }

  ghost predicate IsBlocked(s: Whole, port: nat) {
    port < |s.stp.disabled| && s.stp.disabled[port]
  }

  /**
   On any run a forwarded frame goes out on a blocked port if and only if that is not the frame's own port and the
   latest frame from its destination, not evicted since, came in on it.
   */
  lemma SentOnBlockedIff(c: Config, r: Run, n: nat, port: nat)
    requires IsRun(c, r) && n < |r.arrivals| && r.outputs[n].Forwarded? && IsBlocked(r.states[n], port)
    ensures var f := r.arrivals[n].frame;
            port in r.outputs[n].devices <==>
              port != f.device && LatestCameOn(r, n + 1, f.destination, port)
  {
    var f, o, after := r.arrivals[n].frame, r.outputs[n], n + 1;
    RunOk(c, r, n);
    assert StepAt(c, r, n);
    ForwardedStep(c, r.states[n], r.arrivals[n]);
    if !o.action.FloodOut? {
      var m := SentWhereLastHeard(c, r, n);
      forall m': nat | LatestFrom(r, m', after, f.destination)
        ensures m' == m
      {
        LatestUnique(r, m, m', n + 1, f.destination);
      }
    } else {
      forall m: nat | LatestFrom(r, m, after, f.destination)
        ensures KnownDevice(r.states[n + 1].learned, f.destination).Some?
      {
      }
    }
  }

  /** A frame at time zero. */
  function FrameFrom(source: nat, destination: nat, device: nat): Arrival {
    Arrival(Frame(source, destination, false, device, 0), false, ST.Bpdu(0, 0, 0))
  }

  /** A BPDU with a larger root than the bridge's own id. */
  function WorseBpdu(self: nat, device: nat): Arrival {
    Arrival(Frame(0, 0, false, device, 0), true, ST.Bpdu(self + 1, 0, self + 1))
  }

  /**
   This does happen: an address is heard of behind port 1, port 1 gets blocked, and a frame to the address goes out on
   it all the same.
   */
  lemma BlockedPortUsed(c: Config, s0: Whole) returns (r: Run)
    requires WholeOk(s0) && Empty(s0.learned.table) && |s0.learned.table.keys| > 0
    requires s0.stp == ST.Fresh(s0.stp.self, |s0.stp.disabled|) && |s0.stp.disabled| >= 2
    ensures IsRun(c, r) && r.states[0] == s0 && |r.arrivals| == 3
    ensures IsBlocked(r.states[2], 1) && r.outputs[2].Forwarded? && 1 in r.outputs[2].devices
  {
    hide Forward, LearnSource;
    var x0, x1, x2 := FrameFrom(5, 6, 1), WorseBpdu(s0.stp.self, 1), FrameFrom(6, 5, 0);
    ForwardedStep(c, s0, x0);
    HeardOf(s0.learned, x0.frame, c.expiration);
    var (s1, o0) := Step(c, s0, x0);
    ForwardedStep(c, s1, x1);
    var (s2, o1) := Step(c, s1, x1);
    ForwardedStep(c, s2, x2);
    StillKnown(s2.learned, x2.frame, c.expiration);
    var (s3, o2) := Step(c, s2, x2);
    r := Run([s0, s1, s2, s3], [x0, x1, x2], [o0, o1, o2]);
    assert StepAt(c, r, 0) && StepAt(c, r, 1) && StepAt(c, r, 2);
  }

  /** The first address heard of is known, as of time zero. */
  lemma HeardOf(s: State, f: Frame, expiration: nat)
    requires StateOk(s) && Empty(s.table) && |s.table.keys| > 0 && !f.fromGroup && f.time == 0
    ensures var s' := LearnSource(s, f, expiration);
            && StateOk(s') && KnownDevice(s', f.source) == Some(f.device)
            && forall i: nat :: Holds(s'.table, i, f.source) ==> s'.table.pool.times[i] == 0
  {
    LearnSourceOk(s, f, expiration);
    assert !IsHeld(s.table.pool.times, 0);
    assert Available(s.table.pool.times, 0, 0, expiration);
    LearnEffect(s.table, f.source, 0, expiration);
    FindIs(Learn(s.table, f.source, 0, expiration).0, Learn(s.table, f.source, 0, expiration).1.value, f.source);
  }

  /** At the same time it is known still after a frame from elsewhere, which is sent to it. */
  lemma StillKnown(s: State, f: Frame, expiration: nat)
    requires StateOk(s) && f.time == 0 && f.source != f.destination
    requires KnownDevice(s, f.destination).Some? && KnownDevice(s, f.destination) != Some(f.device)
    requires forall i: nat :: Holds(s.table, i, f.destination) ==> s.table.pool.times[i] == 0
    ensures StateOk(LearnSource(s, f, expiration))
    ensures Forward(LearnSource(s, f, expiration), f) == To(KnownDevice(s, f.destination).value)
  {
    LearnSourceOk(s, f, expiration);
    LearnEffect(s.table, f.source, 0, expiration);
    LearnOther(s.table, f.source, 0, expiration, f.destination);
  }
}
