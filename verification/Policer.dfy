/** The policer as the source runs it: a token bucket per destination address, over an expiring table of addresses. */
module Policer {
  import opened Options
  import opened Packets
  import opened PoolSpec
  import opened PolicerSpec
  import opened TableSpec
  import ExpiringTable

  class Policer {
    const config: Config
    const table: ExpiringTable.ExpiringTable<nat>
    const buckets: array<Bucket>

    ghost function State(): PolicerSpec.State
      reads this, table, table.keys, table.pool, table.pool.timestamps, buckets
    {
      PolicerSpec.State(table.State(), buckets[..])
    }

    ghost predicate Valid()
      reads this, table, table.Footprint(), buckets
    {
      && ConfigOk(config)
      && buckets !in table.Footprint()
      && table.Valid() && table.pool.expirationTime == Expiration(config)
      && StateOk(config, State())
    }

    constructor (config: Config, maxFlows: nat, hash: nat -> nat)
      requires ConfigOk(config) && maxFlows <= 0x8000_0000_0000_0000
      ensures Valid() && fresh(table.Footprint()) && fresh(buckets)
      ensures this.config == config && |State().buckets| == maxFlows && Empty(State().table)
    {
      this.config := config;
      buckets := new Bucket[maxFlows](_ => Bucket(0, 0));
      table := new ExpiringTable.ExpiringTable(maxFlows, Expiration(config), hash, 0);
    }

    /** Charges a packet to its destination's bucket, giving the destination one if it can. */
    method Police(packet: Packet) returns (passes: bool)
      requires Valid() && packet.time < TIME_MAX
      modifies table.Footprint(), buckets
      ensures Valid()
      ensures (State(), passes) == StepPoliced(config, old(State()), packet)
    {
      hide Charge, Refill, Mirrors, TableOk;
      ghost var s := State();
      PolicedOk(config, s, packet);
      var index := table.Lookup(packet.dstIp);
      if index.Some? {
        var i := index.value;
        table.Refresh(packet.time, i);
        var (bucket, enough) := Charge(config, buckets[i], packet);
        buckets[i] := bucket;
        passes := enough;
      } else {
        if packet.length > config.burst {
          return false;
        }
        index := table.Insert(packet.time, packet.dstIp);
        if index.None? {
          return false;
        }
        buckets[index.value] := Bucket(config.burst - packet.length, packet.time);
        passes := true;
      }
      assert (State(), passes) == StepPoliced(config, s, packet);
    }

    /** Packets from the wide-area side are policed; the others, as long as they are IPv4, are not. */
    method Handle(packet: Packet) returns (out: Output)
      requires Valid() && packet.time < TIME_MAX
      modifies table.Footprint(), buckets
      ensures Valid()
      ensures (State(), out) == Step(config, old(State()), packet)
    {
      hide StepPoliced;
      if !packet.isIpv4 {
        return Drop;
      }
      if packet.device == config.wanDevice {
        var passes := Police(packet);
        if !passes {
          return Drop;
        }
      }
      return Send(packet, 1 - packet.device);
    }
  }
}
