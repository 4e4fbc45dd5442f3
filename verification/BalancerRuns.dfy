/** When backends are live and flows tabled on a run of the load balancer, told from its packets. */
module BalancerRuns {
  import opened BalancerSpec
  import opened ChtSpec
  import opened Options
  import opened Packets
  import opened PoolSpec
  import opened Progressions
  import opened TableSpec

  /** A packet that counts as a sign of life of backend `b`. */
  predicate IsSign(c: Config, p: Packet, b: nat) {
    IsTcpUdp(p) && p.device == b && b + 1 < c.devices
  }

  lemma {:induction false} RunOk(c: Config, route: Flow -> seq<nat>, r: Run, n: nat)
    requires IsRun(c, route, r) && n < |r.states|
    ensures StateOk(c, r.states[n])
  {
    hide Step;
    if n > 0 {
      RunOk(c, route, r, n - 1);
      assert StepAt(c, route, r, n - 1);
      StepOk(c, route, r.states[n - 1], r.packets[n - 1]);
    }
  }

  /** A packet sets its own backend's time if it is a sign of life, and leaves all others alone. */
  lemma SignStep(c: Config, route: Flow -> seq<nat>, s: State, p: Packet, b: nat)
    requires StateOk(c, s) && b + 1 < c.devices
    ensures var s' := Step(c, route, s, p).0;
            && |s'.backends.times| == |s.backends.times|
            && s'.backends.times[b] == if IsSign(c, p, b) then p.time else s.backends.times[b]
  {
    hide GetBackend;
  }

  /** The time kept for a backend is that of its latest sign of life, and there is none exactly if it never gave one. */
  lemma {:induction false} LatestSign(c: Config, route: Flow -> seq<nat>, r: Run, n: nat, b: nat)
    returns (m: Option<nat>)
    requires IsRun(c, route, r) && n < |r.states| && b + 1 < c.devices
    ensures StateOk(c, r.states[n])
    ensures m.Some? ==>
              && m.value < n && IsSign(c, r.packets[m.value], b)
              && r.states[n].backends.times[b] == r.packets[m.value].time < TIME_MAX
              && forall k: nat :: m.value < k < n ==> !IsSign(c, r.packets[k], b)
    ensures m.None? ==>
              r.states[n].backends.times[b] == TIME_MAX && forall k: nat :: k < n ==> !IsSign(c, r.packets[k], b)
  {
    hide Step;
    RunOk(c, route, r, n);
    if n == 0 {
      m := None;
      assert b !in Uses(r.states[0].backends);
    } else {
      assert StepAt(c, route, r, n - 1);
      SignStep(c, route, r.states[n - 1], r.packets[n - 1], b);
      if IsSign(c, r.packets[n - 1], b) {
        m := Some(n - 1);
      } else {
        m := LatestSign(c, route, r, n - 1, b);
      }
    }
  }

  /** On any run a backend is live exactly if it gave a sign of life within the expiration time. */
  lemma LiveIffSign(c: Config, route: Flow -> seq<nat>, r: Run, n: nat, b: nat)
    requires IsRun(c, route, r) && Monotone(r) && n < |r.packets| && b + 1 < c.devices
    ensures b in LiveAt(c, r.states[n], r.packets[n].time) <==> GaveSign(c, r, n, b)
  {
    assert IsRunShaped(r);
    hide IsRun, IsSign;
    var m := LatestSign(c, route, r, n, b);
    LiveIff(r.states[n].backends, r.packets[n].time, c.backendExpiration, b);
    forall k: nat | k < n && IsSign(c, r.packets[k], b)
      ensures m.Some? && r.packets[k].time <= r.packets[m.value].time
    {
    }
  }

  /** Before packet `n` backend `b` gave a sign of life within the expiration time of it. */
  ghost predicate GaveSign(c: Config, r: Run, n: nat, b: nat)
    requires n < |r.packets|
  {
    exists m: nat ::
      m < n && IsSign(c, r.packets[m], b) && Young(r.packets[n].time, c.backendExpiration, r.packets[m].time)
  }

  /**
   On any run, with a good height, a client's packet is sent exactly if some backend gave a sign of life within the
   expiration time, and the backend it is sent to did.
   */
  lemma SentIffSomeSign(c: Config, route: Flow -> seq<nat>, height: nat, hash: Flow -> nat, r: Run, n: nat)
    requires IsRun(c, route, r) && Monotone(r) && n < |r.packets| && FromClient(c, r.packets[n])
    requires 2 <= c.devices <= height && NoSmallDivisor(height, c.devices - 1)
    requires forall f: Flow :: route(f) == Row(height, c.devices - 1, hash(f) % height)
    ensures r.outputs[n].Send? <==> exists b: nat :: b + 1 < c.devices && GaveSign(c, r, n, b)
    ensures r.outputs[n].Send? ==>
              exists b: nat :: b + 1 < c.devices && GaveSign(c, r, n, b) && r.outputs[n] == Send(r.packets[n], b)
  {
    hide Row, NoSmallDivisor, GetBackend, GaveSign, LiveAt;
    var s, p := r.states[n], r.packets[n];
    var f, live := FlowOf(p), LiveAt(c, r.states[n], p.time);
    assert StepAt(c, route, r, n);
    BackendFoundIff(s.flows, s.recorded, f, height, c.devices - 1, hash(f) % height, live, p.time, c.flowExpiration);
    forall b: nat | b + 1 < c.devices
      ensures b in live <==> GaveSign(c, r, n, b)
    {
      LiveIffSign(c, route, r, n, b);
    }
    LiveBelow(c, s, p.time);
  }

  lemma LiveBelow(c: Config, s: State, now: nat)
    requires StateOk(c, s)
    ensures forall b: nat :: b in LiveAt(c, s, now) ==> b + 1 < c.devices
  {
  }

  /** What a packet of one flow does to another: nothing, unless it evicts it as expired. */
  lemma OtherFlowStays(t: Table<Flow>, recorded: seq<nat>, flow: Flow, row: seq<nat>, live: set<nat>, now: nat,
                       expiration: nat, other: Flow)
    requires TableOk(t) && |recorded| == |t.keys| && now < TIME_MAX && other != flow
    ensures var (t', _) := GetBackend(t, recorded, flow, row, live, now, expiration);
            SameOrEvicted(t, t', other, now, expiration)
  {
    match Find(t, flow)
    case Some(i) =>
      TouchOk(t, i, now);
      ReleaseOk(t, i);
      TouchOk(t, i, TIME_MAX);
      assert forall j: nat :: Holds(t, j, other) ==> j != i;
      FoundStill(t, Touch(t, i, now), other);
      FoundStill(t, Release(t, i), other);
      if recorded[i] !in live {
        InsertedAside(Release(t, i), flow, now, expiration, other);
      }
    case None => InsertedAside(t, flow, now, expiration, other);
  }

  /** The other key is where it was, last used when it was, or it had expired and is gone. */
  ghost predicate SameOrEvicted(t: Table<Flow>, t': Table<Flow>, other: Flow, now: nat, expiration: nat) {
    match Find(t, other)
    case None => Find(t', other).None?
    case Some(i) =>
      || (i < |t.pool.times| && i < |t'.pool.times| && Find(t', other) == Some(i) &&
          t'.pool.times[i] == t.pool.times[i])
      || (Find(t', other).None? && i < |t.pool.times| && !Young(now, expiration, t.pool.times[i]))
  }

  lemma FoundStill(t: Table<Flow>, t': Table<Flow>, other: Flow)
    requires TableOk(t) && TableOk(t') && forall j: nat :: Holds(t', j, other) <==> Holds(t, j, other)
    ensures Find(t', other) == Find(t, other)
  {
  }

  lemma InsertedAside(t: Table<Flow>, flow: Flow, now: nat, expiration: nat, other: Flow)
    requires TableOk(t) && now < TIME_MAX && other != flow && Find(t, flow).None?
    ensures SameOrEvicted(t, Insert(t, flow, now, expiration).0, other, now, expiration)
    ensures SameOrEvicted(t, t, other, now, expiration)
  {
    LearnEffect(t, flow, now, expiration);
    LearnOther(t, flow, now, expiration, other);
  }

  /** After a packet of its own a tabled flow was used just then. */
  lemma OwnFlowUsed(t: Table<Flow>, recorded: seq<nat>, flow: Flow, row: seq<nat>, live: set<nat>, now: nat,
                    expiration: nat)
    requires TableOk(t) && |recorded| == |t.keys| && now < TIME_MAX
    ensures var (t', _) := GetBackend(t, recorded, flow, row, live, now, expiration);
            && TableOk(t')
            && match Find(t', flow)
               case Some(i) => t'.pool.times[i] == now
               case None => true
  {
    GetBackendOk(t, recorded, flow, row, live, now, expiration);
    match Find(t, flow)
    case Some(i) =>
      TouchOk(t, i, now);
      FoundStill(t, Touch(t, i, now), flow);
      ReleaseOk(t, i);
      LearnEffect(Release(t, i), flow, now, expiration);
    case None => LearnEffect(t, flow, now, expiration);
  }

  /** Packet `n` is a client's, of a given flow. */
  ghost predicate IsOf(c: Config, r: Run, n: nat, flow: Flow) {
    n < |r.packets| && FromClient(c, r.packets[n]) && FlowOf(r.packets[n]) == flow
  }

  ghost predicate IsTabled(s: State, flow: Flow) {
    Find(s.flows, flow).Some?
  }

  lemma FlowStep(c: Config, route: Flow -> seq<nat>, r: Run, n: nat, flow: Flow)
    requires IsRun(c, route, r) && n < |r.packets|
    ensures var s, s', p := r.states[n], r.states[n + 1], r.packets[n];
            && StateOk(c, s) && StateOk(c, s') && p.time < TIME_MAX
            && if IsOf(c, r, n, flow) then
                 IsTabled(s', flow) ==> s'.flows.pool.times[Find(s'.flows, flow).value] == p.time
               else SameOrEvicted(s.flows, s'.flows, flow, p.time, c.flowExpiration)
  {
    hide GetBackend, LiveAt;
    var s, p := r.states[n], r.packets[n];
    RunOk(c, route, r, n);
    RunOk(c, route, r, n + 1);
    assert StepAt(c, route, r, n);
    if FromClient(c, p) {
      var row, live := route(FlowOf(p)), LiveAt(c, s, p.time);
      if FlowOf(p) == flow {
        OwnFlowUsed(s.flows, s.recorded, flow, row, live, p.time, c.flowExpiration);
      } else {
        OtherFlowStays(s.flows, s.recorded, FlowOf(p), row, live, p.time, c.flowExpiration, flow);
      }
    }
  }

  /** The time kept for a tabled flow is that of its latest packet. */
  lemma {:induction false} LastUseIsLatestPacket(c: Config, route: Flow -> seq<nat>, r: Run, n: nat, flow: Flow)
    returns (m: nat)
    requires IsRun(c, route, r) && n < |r.states| && StateOk(c, r.states[n]) && IsTabled(r.states[n], flow)
    ensures m < n && IsOf(c, r, m, flow) && forall k: nat :: m < k < n ==> !IsOf(c, r, k, flow)
    ensures r.states[n].flows.pool.times[Find(r.states[n].flows, flow).value] == r.packets[m].time
  {
    if n == 0 {
      assert false;
    } else {
      hide IsRun;
      FlowStep(c, route, r, n - 1, flow);
      if IsOf(c, r, n - 1, flow) {
        m := n - 1;
      } else {
        m := LastUseIsLatestPacket(c, route, r, n - 1, flow);
      }
    }
  }

  /** A flow that its latest packet left tabled stays so for as long as that packet is young. */
  lemma {:induction false} StaysTabled(c: Config, route: Flow -> seq<nat>, r: Run, m: nat, k: nat, flow: Flow, now: nat)
    requires IsRun(c, route, r) && Monotone(r) && m < k < |r.states|
    requires IsOf(c, r, m, flow) && IsTabled(r.states[m + 1], flow)
    requires forall l: nat :: m < l < k ==> !IsOf(c, r, l, flow)
    requires r.packets[k - 1].time <= now && Young(now, c.flowExpiration, r.packets[m].time)
    ensures StateOk(c, r.states[k]) && IsTabled(r.states[k], flow)
    ensures r.states[k].flows.pool.times[Find(r.states[k].flows, flow).value] == r.packets[m].time
    decreases k
  {
    assert IsRunShaped(r);
    hide IsRun;
    FlowStep(c, route, r, k - 1, flow);
    if m < k - 1 {
      StaysTabled(c, route, r, m, k - 1, flow, now);
    }
  }

  /**
   A client's packet leaves its flow tabled exactly if it is sent and the flow was tabled or there was room for it.
   */
  lemma TabledIff(c: Config, route: Flow -> seq<nat>, r: Run, n: nat)
    requires IsRun(c, route, r) && n < |r.packets| && FromClient(c, r.packets[n])
    ensures var s, p := r.states[n], r.packets[n];
            IsTabled(r.states[n + 1], FlowOf(p)) <==>
              r.outputs[n].Send? &&
              (IsTabled(s, FlowOf(p)) || exists i: nat :: Available(s.flows.pool.times, i, p.time, c.flowExpiration))
  {
    hide LiveAt, Choose;
    var s, p := r.states[n], r.packets[n];
    assert StepAt(c, route, r, n);
    var flow := FlowOf(p);
    match Find(s.flows, flow)
    case Some(i) =>
      TouchOk(s.flows, i, p.time);
      FoundStill(s.flows, Touch(s.flows, i, p.time), flow);
      ReleaseOk(s.flows, i);
      assert Available(Release(s.flows, i).pool.times, i, p.time, c.flowExpiration);
      LearnEffect(Release(s.flows, i), flow, p.time, c.flowExpiration);
    case None => LearnEffect(s.flows, flow, p.time, c.flowExpiration);
  }

  /** Nothing but a client's packet is sent anywhere or touches the flows, and one that is sent goes out as it came. */
  lemma OnlyClientsSent(c: Config, route: Flow -> seq<nat>, r: Run, n: nat)
    requires IsRun(c, route, r) && n < |r.packets|
    ensures n < |r.outputs| && n + 1 < |r.states|
    ensures r.outputs[n].Send? ==> FromClient(c, r.packets[n]) && r.outputs[n].packet == r.packets[n]
    ensures !FromClient(c, r.packets[n]) ==> r.states[n + 1].flows == r.states[n].flows
  {
    hide GetBackend, LiveAt;
    assert StepAt(c, route, r, n);
  }
}
