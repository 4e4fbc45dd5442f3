/** One bridge's part of the spanning tree protocol. */
module SpanningTree {

  const LINK_COST: nat := 10
  /** Costs are unsigned 32-bit integers. */
  const COSTS: nat := 0x1_0000_0000

  datatype Bpdu = Bpdu(root: nat, rootCost: nat, sender: nat)

  /** What a bridge remembers; the source keeps the blocked ports in an array of flags. */
  datatype Bridge = Bridge(self: nat, root: nat, rootCost: nat, rootPort: nat, lastUpdate: nat, disabled: seq<bool>)

  /** A bridge that knows only itself. */
  function Fresh(self: nat, ports: nat): Bridge {
    Bridge(self, self, 0, 0, 0, seq(ports, _ => false))
  }

  /** What a bridge tells its neighbours. */
  function Announcement(b: Bridge): Bpdu {
    Bpdu(b.root, b.rootCost, b.self)
  }

  /** The cost of reaching the root through the sender of a BPDU, as the 32-bit addition computes it. */
  function CostVia(m: Bpdu): nat {
    (m.rootCost + LINK_COST) % COSTS
  }

  /** Whether a BPDU makes the bridge change its root, its cost or its root port. */
  predicate Updates(b: Bridge, port: nat, m: Bpdu) {
    || m.root < b.root
    || (m.root == b.root && CostVia(m) < b.rootCost)
    || (m.root == b.root && CostVia(m) == b.rootCost && port < b.rootPort)
  }

  /** The bridge after a BPDU came in on a port; it floods its own view exactly if the BPDU updated it. */
  function Handle(b: Bridge, port: nat, m: Bpdu): Bridge
    requires port < |b.disabled|
  {
    if m.root > b.root then b.(disabled := b.disabled[port := true])
    else if Updates(b, port, m) then
      b.(root := m.root, rootCost := CostVia(m), rootPort := port, disabled := b.disabled[port := false])
    else b
  }

  /** The bridge as its updates are ordered: by root, then by cost, then by port. */
  datatype Rank = Rank(root: nat, cost: nat, port: nat)

  function RankOf(b: Bridge): Rank {
    Rank(b.root, b.rootCost, b.rootPort)
  }

  predicate Less(a: Rank, b: Rank) {
    || a.root < b.root
    || (a.root == b.root && a.cost < b.cost)
    || (a.root == b.root && a.cost == b.cost && a.port < b.port)
  }

  /** A BPDU either leaves root, cost and port alone, or makes them strictly smaller. */
  lemma HandleDecreases(b: Bridge, port: nat, m: Bpdu)
    requires port < |b.disabled|
    ensures if Updates(b, port, m) then Less(RankOf(Handle(b, port, m)), RankOf(b))
            else RankOf(Handle(b, port, m)) == RankOf(b)
  {
  }

  /** The state as the source keeps it, with the array of blocked ports that the forwarding code reads. */
  class StpState {
    const self: nat
    const updateTime: nat
    const disabledPorts: array<bool>
    var root: nat
    var rootCost: nat
    var rootPort: nat
    var lastUpdateTime: nat

    ghost function View(): Bridge
      reads this, disabledPorts
    {
      Bridge(self, root, rootCost, rootPort, lastUpdateTime, disabledPorts[..])
    }

    constructor (devicesCount: nat, self: nat, updateTime: nat)
      ensures View() == Fresh(self, devicesCount) && this.updateTime == updateTime && fresh(disabledPorts)
    {
      this.self, this.updateTime := self, updateTime;
      disabledPorts := new bool[devicesCount](_ => false);
      root, rootCost, rootPort, lastUpdateTime := self, 0, 0, 0;
    }

    /**
     Handles any packet of the bridge. If an announcement is due the packet is turned into one, and what it held is
     lost; otherwise it is dealt with here only if it is a BPDU. The flood, if any, goes to all ports but the packet's.
     */
    method HandlePacket(time: nat, device: nat, bpdu: Bpdu, isBpdu: bool)
      returns (handled: bool, flood: bool, out: Bpdu)
      requires device < disabledPorts.Length
      modifies this, disabledPorts
      ensures var b, b' := old(View()), View();
              if time > b.lastUpdate + updateTime then
                handled && flood && out == Announcement(b) && b' == b.(lastUpdate := time)
              else if !isBpdu then !handled && !flood && b' == b
              else handled && b' == Handle(b, device, bpdu) && flood == Updates(b, device, bpdu) &&
                   (flood ==> out == Announcement(b'))
    {
      out := bpdu;
      if time > lastUpdateTime + updateTime {
        lastUpdateTime := time;
        out := Bpdu(root, rootCost, self);
        return true, true, out;
      }
      if !isBpdu {
        return false, false, out;
      }
      if bpdu.root > root {
        disabledPorts[device] := true;
        return true, false, out;
      }
      var updated := false;
      if bpdu.root < root {
        root := bpdu.root;
        rootCost := (bpdu.rootCost + LINK_COST) % COSTS;
        rootPort := device;
        updated := true;
      } else if bpdu.root == root && (bpdu.rootCost + LINK_COST) % COSTS < rootCost {
        rootCost := (bpdu.rootCost + LINK_COST) % COSTS;
        rootPort := device;
        updated := true;
      } else if bpdu.root == root && (bpdu.rootCost + LINK_COST) % COSTS == rootCost && device < rootPort {
        rootPort := device;
        updated := true;
      }
      if updated {
        out := Bpdu(root, rootCost, self);
        disabledPorts[rootPort] := false;
      }
      return true, updated, out;
    }
  }
}
