/**
 The load balancer as a function of its flow table, its live backends and one packet, and where it sends packets on a
 run.
 */
module BalancerSpec {
  import opened Bits
  import opened ChtSpec
  import opened Options
  import opened Packets
  import opened PoolSpec
  import opened Progressions
  import opened TableSpec

  /** Takes a backend from the preference row and tries to remember the flow. */
  ghost function Pick(t: Table<Flow>, flow: Flow, row: seq<nat>, live: set<nat>, now: nat, expiration: nat)
    : (Table<Flow>, Option<nat>)
    requires TableOk(t)
  {
    match Choose(row, live)
    case None => (t, None)
    case Some(b) => var (t', _) := Insert(t, flow, now, expiration); (t', Some(b))
  }

  /**
   A known flow keeps the backend on record for its index if that is live; otherwise it is dropped and picked anew.
   */
  ghost function GetBackend(t: Table<Flow>, flowBackends: seq<nat>, flow: Flow, row: seq<nat>, live: set<nat>,
                            now: nat, expiration: nat): (Table<Flow>, Option<nat>)
    requires TableOk(t) && |flowBackends| == |t.keys|
  {
    match Find(t, flow)
    case Some(i) =>
      if flowBackends[i] in live then (Touch(t, i, now), Some(flowBackends[i]))
      else
        ReleaseOk(t, i);
        Pick(Release(t, i), flow, row, live, now, expiration)
    case None => Pick(t, flow, row, live, now, expiration)
  }

  lemma ReleaseOk(t: Table<Flow>, i: nat)
    requires TableOk(t) && IsHeld(t.pool.times, i)
    ensures TableOk(Release(t, i)) && Find(Release(t, i), t.keys[i]).None?
  {
    TouchOk(t, i, TIME_MAX);
    assert Holds(t, i, t.keys[i]);
  }

  lemma SameSize(t: Table<Flow>, i: nat, now: nat)
    requires TableOk(t) && i < |t.pool.times|
    ensures |Touch(t, i, now).keys| == |Release(t, i).keys| == |t.keys|
  {
  }

  lemma PickOk(t: Table<Flow>, flow: Flow, row: seq<nat>, live: set<nat>, now: nat, expiration: nat)
    requires TableOk(t) && Find(t, flow).None? && now < TIME_MAX
    ensures var (t', r) := Pick(t, flow, row, live, now, expiration);
            && TableOk(t') && |t'.keys| == |t.keys|
            && (Find(t', flow).Some? ==> r == Choose(row, live))
  {
    LearnEffect(t, flow, now, expiration);
  }

  lemma GetBackendOk(t: Table<Flow>, flowBackends: seq<nat>, flow: Flow, row: seq<nat>, live: set<nat>, now: nat,
                     expiration: nat)
    requires TableOk(t) && |flowBackends| == |t.keys| && now < TIME_MAX
    ensures var (t', _) := GetBackend(t, flowBackends, flow, row, live, now, expiration);
            TableOk(t') && |t'.keys| == |t.keys|
  {
    match Find(t, flow)
    case Some(i) =>
      ReleaseOk(t, i);
      TouchOk(t, i, now);
      PickOk(Release(t, i), flow, row, live, now, expiration);
    case None => PickOk(t, flow, row, live, now, expiration);
  }

  /**
   With a good height, and records that name real backends, a packet finds a backend exactly when some backend is
   live, and the backend found is live.
   */
  lemma BackendFoundIff(t: Table<Flow>, flowBackends: seq<nat>, flow: Flow, height: nat, capacity: nat, bucket: nat,
                        live: set<nat>, now: nat, expiration: nat)
    requires TableOk(t) && |flowBackends| == |t.keys| && capacity < height && NoSmallDivisor(height, capacity)
    requires 1 < height && bucket < height && forall i: nat :: i < |flowBackends| ==> flowBackends[i] < capacity
    ensures var (_, r) := GetBackend(t, flowBackends, flow, Row(height, capacity, bucket), live, now, expiration);
            && (r.Some? <==> exists b: nat :: b < capacity && b in live)
            && (r.Some? ==> r.value in live)
  {
    hide Row, NoSmallDivisor;
    ChooseSucceedsIff(height, capacity, bucket, live);
  }

  /**
   The records are never written and stay zero, so a flow does not stick to the backend picked for it. When its
   next packet comes with the same backends live, it goes to the same backend exactly if that backend was number
   zero or number zero is not live.
   */
  lemma StickyIff(t: Table<Flow>, flowBackends: seq<nat>, flow: Flow, row: seq<nat>, live: set<nat>,
                  now: nat, later: nat, expiration: nat)
    requires TableOk(t) && |flowBackends| == |t.keys| && now < TIME_MAX
    requires forall i: nat :: i < |flowBackends| ==> flowBackends[i] == 0
    requires Find(t, flow).None? && Choose(row, live).Some?
    requires Find(GetBackend(t, flowBackends, flow, row, live, now, expiration).0, flow).Some?
    ensures var (t', first) := GetBackend(t, flowBackends, flow, row, live, now, expiration);
            && TableOk(t') && |flowBackends| == |t'.keys|
            && var (_, second) := GetBackend(t', flowBackends, flow, row, live, later, expiration);
               second == first <==> first == Some(0) || 0 !in live
  {
    LearnEffect(t, flow, now, expiration);
  }

  /** The last device faces the clients, every other one a backend. */
  datatype Config = Config(devices: nat, flowExpiration: nat, backendExpiration: nat)

  /** The flow table, the backend on record for each of its indices, and the backends' last signs of life. */
  datatype State = State(flows: Table<Flow>, recorded: seq<nat>, backends: PoolState)

  ghost predicate StateOk(c: Config, s: State) {
    && TableOk(s.flows) && |s.recorded| == |s.flows.keys| && (forall i: nat :: i < |s.recorded| ==> s.recorded[i] == 0)
    && PoolOk(s.backends) && |s.backends.times| + 1 == c.devices
  }

  ghost function LiveAt(c: Config, s: State, now: nat): set<nat> {
    Live(s.backends, now, c.backendExpiration)
  }

  predicate FromClient(c: Config, p: Packet) {
    IsTcpUdp(p) && p.device + 1 >= c.devices
  }

  /** A packet from a backend is its sign of life. One from a client goes to a backend, by the row of its flow. */
  ghost function Step(c: Config, route: Flow -> seq<nat>, s: State, p: Packet): (State, Output)
    requires StateOk(c, s)
  {
    if !IsTcpUdp(p) then (s, Drop)
    else if p.device + 1 < c.devices then (s.(backends := Stamped(s.backends, p.device, p.time)), Drop)
    else
      var (t, backend) := GetBackend(s.flows, s.recorded, FlowOf(p), route(FlowOf(p)), LiveAt(c, s, p.time), p.time,
                                     c.flowExpiration);
      (s.(flows := t), if backend.Some? then Send(p, backend.value) else Drop)
  }

  lemma StepOk(c: Config, route: Flow -> seq<nat>, s: State, p: Packet)
    requires StateOk(c, s) && p.time < TIME_MAX
    ensures StateOk(c, Step(c, route, s, p).0)
  {
    hide GetBackend;
    if FromClient(c, p) {
      GetBackendOk(s.flows, s.recorded, FlowOf(p), route(FlowOf(p)), LiveAt(c, s, p.time), p.time, c.flowExpiration);
    }
  }

  type Run = RunOf<State>

  ghost predicate StepAt(c: Config, route: Flow -> seq<nat>, r: Run, n: nat)
    requires IsRunShaped(r) && n < |r.packets|
  {
    && r.packets[n].time < TIME_MAX && StateOk(c, r.states[n])
    && (r.states[n + 1], r.outputs[n]) == Step(c, route, r.states[n], r.packets[n])
  }

  /** No flow is known and no backend alive at first, and every packet is handled as `Step` says. */
  ghost predicate IsRun(c: Config, route: Flow -> seq<nat>, r: Run) {
    && IsRunShaped(r)
    && StateOk(c, r.states[0]) && Empty(r.states[0].flows) && Uses(r.states[0].backends) == map[]
    && forall n: nat :: n < |r.packets| ==> StepAt(c, route, r, n)
  }

  /** Where a packet of a flow goes: by its row, but to backend 0 if the flow is tabled and that is live. */
  ghost function Destination(row: seq<nat>, live: set<nat>, tabled: bool): Option<nat> {
    if tabled && 0 in live then Some(0) else Choose(row, live)
  }

  /**
   On any run a client's packet goes to the preferred live backend of its flow's row, except that while the flow is
   tabled it goes to backend 0 whenever that is live.
   */
  lemma SentByRowOrToZero(c: Config, route: Flow -> seq<nat>, r: Run, n: nat)
    requires IsRun(c, route, r) && n < |r.packets| && FromClient(c, r.packets[n])
    ensures StateOk(c, r.states[n])
    ensures var s, p := r.states[n], r.packets[n];
            var to := Destination(route(FlowOf(p)), LiveAt(c, s, p.time), Find(s.flows, FlowOf(p)).Some?);
            r.outputs[n] == if to.Some? then Send(p, to.value) else Drop
  {
    assert StepAt(c, route, r, n);
  }

  /** A flow is tabled only after a packet of it was sent to a backend. */
  lemma {:induction false} TabledWasSent(c: Config, route: Flow -> seq<nat>, r: Run, n: nat, flow: Flow)
    returns (m: nat)
    requires IsRun(c, route, r) && n < |r.states| && Find(r.states[n].flows, flow).Some?
    ensures m < n && FromClient(c, r.packets[m]) && FlowOf(r.packets[m]) == flow && r.outputs[m].Send?
  {
    if n == 0 {
      assert false;
    } else {
      assert StepAt(c, route, r, n - 1);
      var s, p := r.states[n - 1], r.packets[n - 1];
      if Find(s.flows, flow).Some? {
        m := TabledWasSent(c, route, r, n - 1, flow);
      } else {
        m := n - 1;
        OnlyOwnFlowTabled(s.flows, s.recorded, FlowOf(p), route(FlowOf(p)), LiveAt(c, s, p.time), p.time,
                          c.flowExpiration, flow);
      }
    }
  }

  /** A packet tables no flow but its own, and that only if it is sent to a backend. */
  lemma OnlyOwnFlowTabled(t: Table<Flow>, recorded: seq<nat>, flow: Flow, row: seq<nat>, live: set<nat>, now: nat,
                          expiration: nat, other: Flow)
    requires TableOk(t) && |recorded| == |t.keys| && now < TIME_MAX && Find(t, other).None?
    ensures var (t', r) := GetBackend(t, recorded, flow, row, live, now, expiration);
            Find(t', other).Some? ==> other == flow && r.Some?
  {
    var released := t;
    match Find(t, flow) {
      case Some(i) =>
        ReleaseOk(t, i);
        TouchOk(t, i, now);
        TouchOk(t, i, TIME_MAX);
        released := Release(t, i);
        assert forall j: nat :: !Holds(Touch(t, i, now), j, other) && !Holds(released, j, other);
      case None =>
    }
    assert Find(released, other).None?;
    if Find(t, flow).None? || recorded[Find(t, flow).value] !in live {
      LearnEffect(released, flow, now, expiration);
      if other != flow {
        LearnOther(released, flow, now, expiration, other);
      }
    }
  }

  /** With two backends or more there is a bucket whose row does not begin with backend 0. */
  lemma SomeRowBeginsElsewhere(height: nat, capacity: nat) returns (bucket: nat)
    requires 2 <= capacity < height && NoSmallDivisor(height, capacity)
    ensures bucket < height && ListsEachOnce(Row(height, capacity, bucket), capacity)
    ensures Row(height, capacity, bucket)[0] != 0
  {
    hide NoSmallDivisor, Row, Preference;
    var rank := if Preference(height, 1, 0) != 0 then 0 else 1;
    bucket := Preference(height, 1, rank);
    RowListsEachOnce(height, capacity, bucket);
    var row := Row(height, capacity, bucket);
    if row[0] == 0 {
      ZeroRanks(height, bucket);
      OneRanks(height);
      assert 1 in row;
      var k :| 0 <= k < |row| && row[k] == 1;
      RowInPreferenceOrder(height, capacity, bucket, 0, k, bucket, rank);
      assert false;
    }
  }

  /** Backend 0 ranks the buckets by their numbers. */
  lemma ZeroRanks(height: nat, bucket: nat)
    requires bucket < height && height > 1
    ensures Preference(height, 0, bucket) == bucket
  {
    ModuloUnique(bucket, height, 0, bucket);
  }

  /** Backend 1 moves on by two buckets from one rank to the next. */
  lemma OneRanks(height: nat)
    requires height > 2
    ensures Preference(height, 1, 0) == 0 ==> Preference(height, 1, 1) == 2
  {
    var offset := Offset(height, 1);
    StepOfBackend(height, 1);
    ModuloUnique(offset, height, 0, offset);
    assert Preference(height, 1, 0) == offset;
    ModuloUnique(2, height, 0, 2);
  }

  /** A sign of life of a backend at time 0. */
  function Heartbeat(backend: nat): Packet {
    Packet(backend, 0, 64, true, 0, 0, TCP, 0, 0)
  }

  function ClientPacket(c: Config, flow: Flow): Packet
    requires c.devices > 0
  {
    Packet(c.devices - 1, 0, 64, true, flow.srcIp, flow.dstIp, flow.protocol, flow.srcPort, flow.dstPort)
  }

  lemma HeartbeatStep(c: Config, route: Flow -> seq<nat>, s: State, b: nat)
    requires StateOk(c, s) && b + 1 < c.devices
    ensures var (s', o) := Step(c, route, s, Heartbeat(b));
            && StateOk(c, s') && s'.flows == s.flows && o == Drop
            && LiveAt(c, s', 0) == LiveAt(c, s, 0) + {b}
  {
    StepOk(c, route, s, Heartbeat(b));
  }

  /** The first packet of a flow goes by its row, and the flow is tabled. */
  lemma FirstPacketStep(c: Config, route: Flow -> seq<nat>, s: State, flow: Flow)
    requires StateOk(c, s) && Empty(s.flows) && |s.flows.keys| > 0 && c.devices > 0
    requires (flow.protocol == TCP || flow.protocol == UDP) && Choose(route(flow), LiveAt(c, s, 0)).Some?
    ensures var p := ClientPacket(c, flow);
            var (s', o) := Step(c, route, s, p);
            && StateOk(c, s') && LiveAt(c, s', 0) == LiveAt(c, s, 0) && Find(s'.flows, flow).Some?
            && o == Send(p, Choose(route(flow), LiveAt(c, s, 0)).value)
  {
    StepOk(c, route, s, ClientPacket(c, flow));
    assert Find(s.flows, flow).None?;
    assert !IsHeld(s.flows.pool.times, 0);
    assert Available(s.flows.pool.times, 0, 0, c.flowExpiration);
    LearnEffect(s.flows, flow, 0, c.flowExpiration);
    var i := Learn(s.flows, flow, 0, c.flowExpiration).1.value;
    assert Holds(Learn(s.flows, flow, 0, c.flowExpiration).0, i, flow);
  }

  /**
   A flow does not keep its backend: if its row begins with another backend than 0 and both are live all along, its
   first packet goes to that one and its second to backend 0.
   */
  lemma NotSticky(c: Config, route: Flow -> seq<nat>, s0: State, flow: Flow) returns (r: Run)
    requires StateOk(c, s0) && Empty(s0.flows) && |s0.flows.keys| > 0 && Uses(s0.backends) == map[]
    requires flow.protocol == TCP || flow.protocol == UDP
    requires route(flow) != [] && 0 < route(flow)[0] && route(flow)[0] + 1 < c.devices
    ensures IsRun(c, route, r) && r.states[0] == s0 && |r.packets| == 4
    ensures var p, live := ClientPacket(c, flow), {0, route(flow)[0]};
            && r.packets[2] == r.packets[3] == p
            && LiveAt(c, r.states[2], 0) == LiveAt(c, r.states[3], 0) == live
            && r.outputs[2] == Send(p, route(flow)[0]) && r.outputs[3] == Send(p, 0)
  {
    hide Step, StateOk, LiveAt;
    var b, p := route(flow)[0], ClientPacket(c, flow);
    assert LiveAt(c, s0, 0) == {} by {
      NoneLive(c, s0);
    }
    HeartbeatStep(c, route, s0, 0);
    var (s1, o0) := Step(c, route, s0, Heartbeat(0));
    HeartbeatStep(c, route, s1, b);
    var (s2, o1) := Step(c, route, s1, Heartbeat(b));
    FirstPacketStep(c, route, s2, flow);
    var (s3, o2) := Step(c, route, s2, p);
    var (s4, o3) := Step(c, route, s3, p);
    r := Run([s0, s1, s2, s3, s4], [Heartbeat(0), Heartbeat(b), p, p], [o0, o1, o2, o3]);
    assert StepAt(c, route, r, 0) && StepAt(c, route, r, 1) && StepAt(c, route, r, 2) && StepAt(c, route, r, 3);
    SentByRowOrToZero(c, route, r, 3);
  }

  lemma NoneLive(c: Config, s: State)
    requires Uses(s.backends) == map[]
    ensures LiveAt(c, s, 0) == {}
  {
    assert LiveAt(c, s, 0) <= Uses(s.backends).Keys;
  }

  /** With two backends or more and a good height this happens to every flow of some bucket. */
  lemma SomeBucketNotSticky(c: Config, route: Flow -> seq<nat>, height: nat, hash: Flow -> nat, s0: State)
    returns (bucket: nat)
    requires 3 <= c.devices <= height && NoSmallDivisor(height, c.devices - 1)
    requires forall f: Flow :: route(f) == Row(height, c.devices - 1, hash(f) % height)
    requires StateOk(c, s0) && Empty(s0.flows) && |s0.flows.keys| > 0 && Uses(s0.backends) == map[]
    ensures bucket < height
    ensures forall f: Flow :: hash(f) % height == bucket && (f.protocol == TCP || f.protocol == UDP) ==>
              exists r: Run :: MovesToZero(c, route, r, s0, f)
  {
    hide NoSmallDivisor, StateOk, MovesToZero;
    bucket := SomeRowBeginsElsewhere(height, c.devices - 1);
    forall f: Flow | hash(f) % height == bucket && (f.protocol == TCP || f.protocol == UDP)
      ensures exists r: Run :: MovesToZero(c, route, r, s0, f)
    {
      var row := Row(height, c.devices - 1, bucket);
      assert row[0] < c.devices - 1;
      var r := NotSticky(c, route, s0, f);
      assert MovesToZero(c, route, r, s0, f) by {
        MovesIs(c, route, r, s0, f);
      }
    }
  }

  /**
   On a run from `s0`, one packet of a flow goes to another backend than 0, and the next to 0, with the same ones
   live.
   */
  ghost predicate MovesToZero(c: Config, route: Flow -> seq<nat>, r: Run, s0: State, f: Flow) {
    && IsRun(c, route, r) && r.states[0] == s0 && |r.packets| == 4
    && FlowOf(r.packets[2]) == f && FlowOf(r.packets[3]) == f
    && LiveAt(c, r.states[2], 0) == LiveAt(c, r.states[3], 0)
    && r.outputs[2].Send? && r.outputs[2].device != 0 && r.outputs[3].Send? && r.outputs[3].device == 0
  }

  lemma MovesIs(c: Config, route: Flow -> seq<nat>, r: Run, s0: State, f: Flow)
    requires c.devices > 0 && IsRun(c, route, r) && r.states[0] == s0 && |r.packets| == 4
    requires r.packets[2] == r.packets[3] == ClientPacket(c, f)
    requires LiveAt(c, r.states[2], 0) == LiveAt(c, r.states[3], 0)
    requires r.outputs[2].Send? && r.outputs[2].device != 0 && r.outputs[3].Send? && r.outputs[3].device == 0
    ensures MovesToZero(c, route, r, s0, f)
  {
  }
}
