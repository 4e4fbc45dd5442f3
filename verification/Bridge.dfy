/** The bridge as the source runs it: the spanning tree protocol first, then learning and forwarding. */
module Bridge {
  import opened BridgeSpec
  import opened Options
  import opened PoolSpec
  import opened TableSpec
  import ExpiringTable
  import SpanningTree

  class Bridge {
    const stp: SpanningTree.StpState
    const table: ExpiringTable.ExpiringTable<nat>
    const devices: array<nat>

    ghost function State(): BridgeSpec.State
      reads this, table, table.keys, table.pool, table.pool.timestamps, devices
    {
      BridgeSpec.State(table.State(), devices[..])
    }

    ghost predicate Valid()
      reads this, table, table.Footprint(), devices
    {
      && devices !in table.Footprint()
      && stp !in table.Footprint() && stp.disabledPorts !in table.Footprint()
      && devices as object != stp && devices as object != stp.disabledPorts
      && table.Valid() && StateOk(State())
    }

    constructor (devicesCount: nat, self: nat, updateTime: nat, capacity: nat, expiration: nat, hash: nat -> nat)
      requires devicesCount >= 2 && capacity <= 0x8000_0000_0000_0000
      ensures Valid() && Empty(State().table) && table.pool.expirationTime == expiration
      ensures stp.View() == SpanningTree.Fresh(self, devicesCount) && stp.updateTime == updateTime
    {
      stp := new SpanningTree.StpState(devicesCount, self, updateTime);
      devices := new nat[capacity](_ => 0);
      table := new ExpiringTable.ExpiringTable(capacity, expiration, hash, 0);
    }

    method LearnSource(frame: Frame)
      requires Valid() && frame.time < TIME_MAX
      modifies table.Footprint(), devices
      ensures Valid() && State() == BridgeSpec.LearnSource(old(State()), frame, table.pool.expirationTime)
    {
      hide Mirrors, TableOk;
      if frame.fromGroup {
        return;
      }
      ghost var s := State();
      LearnSourceOk(s, frame, table.pool.expirationTime);
      var index := table.Lookup(frame.source);
      if index.Some? {
        table.Refresh(frame.time, index.value);
      } else {
        index := table.Insert(frame.time, frame.source);
      }
      if index.Some? {
        devices[index.value] := frame.device;
      }
      assert State() == BridgeSpec.LearnSource(s, frame, table.pool.expirationTime);
    }

    method Forward(frame: Frame) returns (action: Action)
      requires Valid()
      ensures action == BridgeSpec.Forward(State(), frame)
    {
      var index := table.Lookup(frame.destination);
      if index.Some? {
        return if devices[index.value] != frame.device then To(devices[index.value]) else Nowhere;
      }
      return FloodOut;
    }

    /**
     A frame the protocol does not consume is learned from, then forwarded; one that it consumes is not learned from.
     */
    method Handle(x: Arrival) returns (out: Output)
      requires Valid() && x.frame.time < TIME_MAX && x.frame.device < stp.disabledPorts.Length
      modifies stp, stp.disabledPorts, table.Footprint(), devices
      ensures Valid()
      ensures (Whole(stp.View(), State()), out) ==
                Step(Settings(), old(Whole(stp.View(), State())), x)
    {
      hide Mirrors, TableOk, BridgeSpec.LearnSource, BridgeSpec.Forward;
      ForwardedStep(Settings(), Whole(stp.View(), State()), x);
      var handled, flood, message := stp.HandlePacket(x.frame.time, x.frame.device, x.bpdu, x.isBpdu);
      if handled {
        return Consumed(if flood then Some(message) else None);
      }
      LearnSource(x.frame);
      var action := Forward(x.frame);
      return Forwarded(action, DevicesOf(action, x.frame.device, stp.disabledPorts[..]));
    }

    ghost function Settings(): Config
      reads this, table, table.pool, stp
    {
      Config(stp.updateTime, table.pool.expirationTime)
    }
  }
}
