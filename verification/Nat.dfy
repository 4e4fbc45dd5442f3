/** The network address translator as the source runs it: a handler over its flow table, hash map, pool and all. */
module Nat {
  import opened NatSpec
  import opened Options
  import opened Packets
  import opened PoolSpec
  import opened TableSpec
  import ExpiringTable

  class Nat {
    const config: Config
    const table: ExpiringTable.ExpiringTable<Flow>

    ghost predicate Valid()
      reads this, table, table.Footprint()
    {
      table.Valid() && table.pool.expirationTime == config.expiration && config.wanDevice <= 1
    }

    constructor (config: Config, maxFlows: nat, hash: Flow -> nat)
      requires maxFlows <= 0x8000_0000_0000_0000 && config.wanDevice <= 1
      ensures Valid() && fresh(table.Footprint())
      ensures this.config == config && |table.State().keys| == maxFlows && Empty(table.State())
    {
      this.config := config;
      this.table := new ExpiringTable.ExpiringTable(maxFlows, config.expiration, hash, Flow(0, 0, 0, 0, 0));
    }

    /** The port an outbound flow is sent from. */
    method GetInternal(now: nat, flow: Flow) returns (port: Option<nat>)
      requires Valid() && now < TIME_MAX
      modifies table.Footprint()
      ensures Valid()
      ensures var (t, index) := Learn(old(table.State()), flow, now, config.expiration);
              && table.State() == t
              && port == if index.None? then None else Some(EncodePort(config.startPort, index.value))
    {
      var index := table.Lookup(flow);
      if index.Some? {
        table.Refresh(now, index.value);
      } else {
        index := table.Insert(now, flow);
        if index.None? {
          return None;
        }
      }
      return Some(EncodePort(config.startPort, index.value));
    }

    /** The flow an inbound packet's port stands for, if it is live. */
    method GetExternal(now: nat, port: nat) returns (flow: Option<Flow>)
      requires Valid() && now < TIME_MAX
      modifies table.Footprint()
      ensures Valid()
      ensures var t, i := old(table.State()), DecodePort(config.startPort, port);
              if FlowLive(t, i, now, config.expiration) then
                flow == Some(t.keys[i]) && table.State() == Touch(t, i, now)
              else
                flow == None && table.State() == t
    {
      var index := DecodePort(config.startPort, port);
      var used := table.pool.Used(now, index);
      if !used {
        return None;
      }
      table.Refresh(now, index);
      return Some(table.keys[index]);
    }

    method Handle(packet: Packet) returns (out: Output)
      requires Valid() && packet.time < TIME_MAX
      modifies table.Footprint()
      ensures Valid()
      ensures (table.State(), out) == Step(config, old(table.State()), packet)
    {
      if !IsTcpUdp(packet) {
        return Drop;
      }
      if packet.device == config.wanDevice {
        var internal := GetExternal(packet.time, packet.dstPort);
        if internal.None? {
          return Drop;
        }
        var flow := internal.value;
        if flow.dstIp != packet.srcIp || flow.dstPort != packet.srcPort || flow.protocol != packet.protocol {
          return Drop;
        }
        return Send(packet.(dstIp := flow.srcIp, dstPort := flow.srcPort), 1 - packet.device);
      } else {
        var port := GetInternal(packet.time, FlowOf(packet));
        if port.None? {
          return Drop;
        }
        return Send(packet.(srcIp := config.externalAddr, srcPort := port.value), 1 - packet.device);
      }
    }
  }
}
