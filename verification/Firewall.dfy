/** The firewall as the source runs it: a handler over its flow table. */
module Firewall {
  import opened FirewallSpec
  import opened Options
  import opened Packets
  import opened PoolSpec
  import opened TableSpec
  import ExpiringTable

  class Firewall {
    const config: Config
    const table: ExpiringTable.ExpiringTable<Flow>

    ghost predicate Valid()
      reads this, table, table.Footprint()
    {
      table.Valid() && table.pool.expirationTime == config.expiration && config.externalDevice <= 1
    }

    constructor (config: Config, maxFlows: nat, hash: Flow -> nat)
      requires maxFlows <= 0x8000_0000_0000_0000 && config.externalDevice <= 1
      ensures Valid() && fresh(table.Footprint())
      ensures this.config == config && |table.State().keys| == maxFlows && Empty(table.State())
    {
      this.config := config;
      this.table := new ExpiringTable.ExpiringTable(maxFlows, config.expiration, hash, Flow(0, 0, 0, 0, 0));
    }

    /** Refreshes a flow or enters it; a flow that finds no room is silently forgotten. */
    method LearnInternal(now: nat, flow: Flow)
      requires Valid() && now < TIME_MAX
      modifies table.Footprint()
      ensures Valid()
      ensures var (t, _) := Learn(old(table.State()), flow, now, config.expiration); table.State() == t
    {
      var index := table.Lookup(flow);
      if index.Some? {
        table.Refresh(now, index.value);
      } else {
        index := table.Insert(now, flow);
      }
    }

    /** Whether a flow is known and live; if so its use is recorded. */
    method HasExternal(now: nat, flow: Flow) returns (r: bool)
      requires Valid() && now < TIME_MAX
      modifies table.Footprint()
      ensures Valid()
      ensures r == Known(old(table.State()), flow, now, config.expiration)
      ensures table.State() == Recognized(old(table.State()), flow, now, config.expiration)
    {
      var index := table.Lookup(flow);
      if index.Some? {
        var used := table.pool.Used(now, index.value);
        if used {
          table.Refresh(now, index.value);
          return true;
        }
      }
      return false;
    }

    method Handle(packet: Packet) returns (out: Output)
      requires Valid() && packet.time < TIME_MAX
      modifies table.Footprint()
      ensures Valid()
      ensures (table.State(), out) == Step(config, old(table.State()), packet)
    {
      hide Known, Recognized, Learn;
      if !IsTcpUdp(packet) {
        return Drop;
      }
      if packet.device == config.externalDevice {
        var known := HasExternal(packet.time, MirroredFlowOf(packet));
        if !known {
          return Drop;
        }
      } else {
        LearnInternal(packet.time, FlowOf(packet));
      }
      return Send(packet, 1 - packet.device);
    }
  }
}
