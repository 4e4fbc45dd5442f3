/** The header fields the network functions look at, and what a handler does with a packet. */
module Packets {
  /**
   Addresses, ports and protocol numbers are unsigned integers, compared but never computed with, except for NAT
   ports.
   */
  datatype Packet = Packet(device: nat, time: nat, length: nat, isIpv4: bool,
                           srcIp: nat, dstIp: nat, protocol: nat, srcPort: nat, dstPort: nat)

  datatype Output = Drop | Send(packet: Packet, device: int)

  datatype Flow = Flow(srcIp: nat, dstIp: nat, srcPort: nat, dstPort: nat, protocol: nat)

  const TCP: nat := 6
  const UDP: nat := 17

  predicate IsTcpUdp(p: Packet) {
    p.isIpv4 && (p.protocol == TCP || p.protocol == UDP)
  }

  function FlowOf(p: Packet): Flow {
    Flow(p.srcIp, p.dstIp, p.srcPort, p.dstPort, p.protocol)
  }

  /** The flow that a packet answers. */
  function MirroredFlowOf(p: Packet): Flow {
    Flow(p.dstIp, p.srcIp, p.dstPort, p.srcPort, p.protocol)
  }

  /** Two packets are of the same flow exactly if they agree on both ends and the protocol. */
  lemma SameFlowIff(p: Packet, q: Packet)
    ensures FlowOf(p) == FlowOf(q) <==>
              && p.srcIp == q.srcIp && p.dstIp == q.dstIp && p.srcPort == q.srcPort && p.dstPort == q.dstPort
              && p.protocol == q.protocol
  {
  }

  /** A packet answers another's flow exactly if its ends are the other's swapped and the protocol is the same. */
  lemma AnswersIff(p: Packet, q: Packet)
    ensures MirroredFlowOf(q) == FlowOf(p) <==>
              && q.srcIp == p.dstIp && q.dstIp == p.srcIp && q.srcPort == p.dstPort && q.dstPort == p.srcPort
              && q.protocol == p.protocol
  {
  }

  /** A packet that comes from the outside, by way of a device. */
  predicate Inbound(outside: nat, p: Packet) {
    IsTcpUdp(p) && p.device == outside
  }

  predicate Outbound(outside: nat, p: Packet) {
    IsTcpUdp(p) && p.device != outside
  }

  /** A run of a network function: its states before, between and after the packets, and what became of each packet. */
  datatype RunOf<S> = Run(states: seq<S>, packets: seq<Packet>, outputs: seq<Output>)

  ghost predicate IsRunShaped<S>(r: RunOf<S>) {
    |r.packets| == |r.outputs| && |r.states| == |r.packets| + 1
  }

  /** Time never runs backwards. */
  ghost predicate Monotone<S>(r: RunOf<S>) {
    forall m: nat, n: nat :: m <= n < |r.packets| ==> r.packets[m].time <= r.packets[n].time
  }
}
