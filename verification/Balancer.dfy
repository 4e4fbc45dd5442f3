/** The load balancer as the source runs it: a flow table, a pool of backends and a consistent hash table. */
module Balancer {
  import opened BalancerSpec
  import opened ChtSpec
  import opened Options
  import opened Packets
  import opened PoolSpec
  import opened Progressions
  import opened TableSpec
  import Cht
  import ExpiringTable
  import IndexPool

  class Balancer {
    const flows: ExpiringTable.ExpiringTable<Flow>
    const flowBackends: array<nat>
    const backendPool: IndexPool.Pool
    const cht: Cht.Cht

    const devices: nat

    ghost function State(): BalancerSpec.State
      reads this, flows, flows.keys, flows.pool, flows.pool.timestamps
      reads flowBackends, backendPool, backendPool.timestamps
    {
      BalancerSpec.State(flows.State(), flowBackends[..], backendPool.State())
    }

    ghost function Settings(): Config
      reads this, flows, flows.pool, backendPool
    {
      Config(devices, flows.pool.expirationTime, backendPool.expirationTime)
    }

    ghost predicate Valid()
      reads this, flows, flows.Footprint(), flowBackends, backendPool, backendPool.timestamps, cht, cht.data
    {
      && flows.Valid() && backendPool.Valid() && cht.Valid()
      && StateOk(Settings(), State()) && cht.backendCapacity + 1 == devices && Separate()
    }

    ghost predicate Separate()
      reads this, flows
    {
      && backendPool !in flows.Footprint() && backendPool.timestamps !in flows.Footprint()
      && flowBackends !in flows.Footprint() && cht.data !in flows.Footprint()
      && backendPool.timestamps != flowBackends && backendPool.timestamps != cht.data
    }

    /** The backends stored for the bucket a flow is hashed to. */
    ghost function RowOf(flow: Flow): seq<nat>
      reads this, flows, flows.indexes, cht, cht.data
      requires cht.Valid()
    {
      cht.Stored(flows.indexes.hash(flow) % cht.height)
    }

    /** With a good height that is the row of the bucket. */
    lemma RowOfIsRow(flow: Flow)
      requires cht.Valid() && NoSmallDivisor(cht.height, cht.backendCapacity)
      ensures RowOf(flow) == Row(cht.height, cht.backendCapacity, flows.indexes.hash(flow) % cht.height)
    {
      cht.StoredIsRow(flows.indexes.hash(flow) % cht.height);
    }

    /**
     No flows are known and no backend is live. The balancer is usable if the hash table was filled inside its array.
     */
    constructor (flowCapacity: nat, flowExpiration: nat, devices: nat, backendExpiration: nat, chtHeight: nat,
                 hash: Flow -> nat)
      requires flowCapacity <= 0x8000_0000_0000_0000 && 2 <= devices <= chtHeight
      ensures cht.inside <==> Cht.EndsInside(chtHeight, devices - 1)
      ensures NoSmallDivisor(chtHeight, devices - 1) ==> cht.inside
      ensures cht.inside ==> Valid()
      ensures Settings() == Config(devices, flowExpiration, backendExpiration)
      ensures cht.height == chtHeight && flows.indexes.hash == hash && |State().flows.keys| == flowCapacity
      ensures Empty(State().flows) && Uses(State().backends) == map[]
    {
      hide Cht.HoldsRows, Cht.EndsInside, NoSmallDivisor, Mirrors, TableOk, PoolOk, Empty, Uses;
      this.devices := devices;
      flowBackends := new nat[flowCapacity](_ => 0);
      flows := new ExpiringTable.ExpiringTable(flowCapacity, flowExpiration, hash, Flow(0, 0, 0, 0, 0));
      backendPool := new IndexPool.Pool(devices - 1, backendExpiration);
      cht := new Cht.Cht(chtHeight, devices - 1);
      new;
      hide ExpiringTable.ExpiringTable.Valid, IndexPool.Pool.Valid, Cht.Cht.Valid;
      flows.ValidIsOk();
      assert flows.Valid() && backendPool.Valid() && (cht.inside ==> cht.Valid());
      assert Separate();
      assert StateOk(Settings(), State());
    }

    /** Picks a backend by the flow's row, and remembers the flow if there is room. */
    method PickBackend(flow: Flow, now: nat) returns (backend: Option<nat>)
      requires Valid() && now < TIME_MAX && Find(flows.State(), flow).None?
      modifies flows.Footprint()
      ensures Valid() && backendPool.State() == old(backendPool.State()) && flowBackends[..] == old(flowBackends[..])
      ensures (flows.State(), backend) ==
                Pick(old(flows.State()), flow, old(RowOf(flow)), old(LiveAt(Settings(), State(), now)), now,
                     flows.pool.expirationTime)
    {
      hide Mirrors, TableOk, Row, Live, Cht.HoldsRows, Choose, Insert, NoSmallDivisor;
      backend := cht.FindPreferredAvailable(flows.indexes.hash(flow), backendPool, now);
      if backend.None? {
        return None;
      }
      PickOk(flows.State(), flow, RowOf(flow), LiveAt(Settings(), State(), now), now, flows.pool.expirationTime);
      var stored := flows.Insert(now, flow);
    }

    /** The backend to send a packet of a flow to, if any is live. */
    method GetBackend(flow: Flow, now: nat) returns (backend: Option<nat>)
      requires Valid() && now < TIME_MAX
      modifies flows.Footprint()
      ensures Valid() && backendPool.State() == old(backendPool.State()) && flowBackends[..] == old(flowBackends[..])
      ensures (flows.State(), backend) ==
                BalancerSpec.GetBackend(old(flows.State()), old(flowBackends[..]), flow, old(RowOf(flow)),
                                        old(LiveAt(Settings(), State(), now)), now, flows.pool.expirationTime)
    {
      hide Mirrors, TableOk, Row, Live, Cht.HoldsRows, Pick, Release, Touch, NoSmallDivisor;
      var index := flows.Lookup(flow);
      if index.Some? {
        var known := flowBackends[index.value];
        var used := backendPool.Used(now, known);
        LiveIff(backendPool.State(), now, backendPool.expirationTime, known);
        ReleaseOk(flows.State(), index.value);
        SameSize(flows.State(), index.value, now);
        if used {
          flows.Refresh(now, index.value);
          return Some(known);
        }
        flows.Release(index.value);
      }
      backend := PickBackend(flow, now);
    }

    /** Records that a backend is alive, and nothing about the others. */
    method ProcessHeartbeat(backend: nat, now: nat)
      requires Valid() && now < TIME_MAX && backend < backendPool.timestamps.Length
      modifies backendPool.timestamps
      ensures Valid() && backend in LiveAt(Settings(), State(), now)
      ensures backendPool.State() == Stamped(old(backendPool.State()), backend, now)
      ensures flows.State() == old(flows.State()) && flowBackends[..] == old(flowBackends[..])
    {
      hide Mirrors, TableOk, Cht.HoldsRows;
      backendPool.Refresh(now, backend);
    }

    /** Handles a packet: a sign of life from a backend, or a client's packet to be sent to one. */
    method Handle(packet: Packet, ghost route: Flow -> seq<nat>) returns (out: Output)
      requires Valid() && packet.time < TIME_MAX && forall f: Flow :: route(f) == RowOf(f)
      modifies flows.Footprint(), backendPool.timestamps
      ensures Valid() && (State(), out) == Step(Settings(), route, old(State()), packet)
    {
      hide Mirrors, TableOk, Live, Cht.HoldsRows, BalancerSpec.GetBackend, NoSmallDivisor;
      if !IsTcpUdp(packet) {
        return Drop;
      }
      if packet.device + 1 < devices {
        ProcessHeartbeat(packet.device, packet.time);
        return Drop;
      }
      var backend := GetBackend(FlowOf(packet), packet.time);
      return if backend.Some? then Send(packet, backend.value) else Drop;
    }
  }
}
