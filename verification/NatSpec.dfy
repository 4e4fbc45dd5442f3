/** The network address translator as a function of its table and one packet, and what holds over its runs. */
module NatSpec {
  import opened Options
  import opened Packets
  import opened PoolSpec
  import opened TableSpec

  datatype Config = Config(externalAddr: nat, wanDevice: nat, startPort: nat, expiration: nat)

  const PORTS: nat := 65536

  /** The external port of an index: 16-bit addition, after truncating the index to 16 bits. */
  function EncodePort(startPort: nat, index: nat): nat {
    (startPort + index % PORTS) % PORTS
  }

  /** The index an external port stands for: 16-bit subtraction. */
  function DecodePort(startPort: nat, port: nat): nat {
    (port - startPort) % PORTS
  }

  /** Decoding undoes encoding exactly for the indices that fit 16 bits. */
  lemma DecodeEncode(startPort: nat, index: nat)
    ensures DecodePort(startPort, EncodePort(startPort, index)) == index <==> index < PORTS
  {
    var m := index % PORTS;
    var q := (startPort + m) / PORTS;
    assert EncodePort(startPort, index) - startPort == m - PORTS * q;
  }

  lemma EncodeDecode(startPort: nat, port: nat)
    requires port < PORTS
    ensures EncodePort(startPort, DecodePort(startPort, port)) == port
  {
    var q := (port - startPort) / PORTS;
    assert port - startPort == PORTS * q + DecodePort(startPort, port);
  }

  /** An index holds a flow that has not expired. */
  ghost predicate FlowLive(t: Table<Flow>, i: nat, now: nat, expiration: nat) {
    i < |t.keys| && IsHeld(t.pool.times, i) && Young(now, expiration, t.pool.times[i])
  }

  /** A packet comes from the remote end of a flow. */
  predicate FromRemote(flow: Flow, p: Packet) {
    flow.dstIp == p.srcIp && flow.dstPort == p.srcPort && flow.protocol == p.protocol
  }

  ghost function Step(c: Config, t: Table<Flow>, p: Packet): (Table<Flow>, Output)
    requires TableOk(t)
  {
    if !IsTcpUdp(p) then (t, Drop)
    else if p.device == c.wanDevice then
      var i := DecodePort(c.startPort, p.dstPort);
      if !FlowLive(t, i, p.time, c.expiration) then (t, Drop)
      else
        var flow := t.keys[i];
        (Touch(t, i, p.time),
         if FromRemote(flow, p) then Send(p.(dstIp := flow.srcIp, dstPort := flow.srcPort), 1 - p.device) else Drop)
    else
      var (t', index) := Learn(t, FlowOf(p), p.time, c.expiration);
      (t', match index
           case None => Drop
           case Some(i) =>
             Send(p.(srcIp := c.externalAddr, srcPort := EncodePort(c.startPort, i)), 1 - p.device))
  }

  type Run = RunOf<Table<Flow>>

  ghost predicate StepAt(c: Config, r: Run, n: nat)
    requires IsRunShaped(r) && n < |r.packets|
  {
    && r.packets[n].time < TIME_MAX && r.packets[n].dstPort < PORTS
    && TableOk(r.states[n])
    && (r.states[n + 1], r.outputs[n]) == Step(c, r.states[n], r.packets[n])
  }

  /** The table starts empty, and every packet is handled as `Step` says. */
  ghost predicate IsRun(c: Config, r: Run) {
    && IsRunShaped(r)
    && Empty(r.states[0])
    && forall n: nat :: n < |r.packets| ==> StepAt(c, r, n)
  }

  lemma StepOk(c: Config, t: Table<Flow>, p: Packet)
    requires TableOk(t) && p.time < TIME_MAX
    ensures TableOk(Step(c, t, p).0) && |Step(c, t, p).0.keys| == |t.keys|
  {
    if IsTcpUdp(p) {
      var i := DecodePort(c.startPort, p.dstPort);
      if p.device != c.wanDevice {
        LearnEffect(t, FlowOf(p), p.time, c.expiration);
      } else if FlowLive(t, i, p.time, c.expiration) {
        TouchOk(t, i, p.time);
      }
    }
  }

  /** A packet that uses index `i` on behalf of `flow`: sent by it, or addressed to its port. */
  ghost predicate UsesIndex(c: Config, p: Packet, i: nat, flow: Flow) {
    || (Outbound(c.wanDevice, p) && FlowOf(p) == flow)
    || (Inbound(c.wanDevice, p) && DecodePort(c.startPort, p.dstPort) == i)
  }

  /** An outbound packet was forwarded under the external port of index `i`. */
  ghost predicate GivenPort(c: Config, p: Packet, o: Output, i: nat) {
    Outbound(c.wanDevice, p) && o.Send? && o.packet.srcPort == EncodePort(c.startPort, i)
  }

  /** Whatever an index holds after a step it held before, or the packet just brought it there. */
  lemma StepEffect(c: Config, t: Table<Flow>, p: Packet, i: nat)
    requires TableOk(t) && p.time < TIME_MAX && IsHeld(Step(c, t, p).0.pool.times, i)
    ensures var (t', o) := Step(c, t, p);
            var flow := t'.keys[i];
            || (Holds(t, i, flow) && t'.pool.times[i] == t.pool.times[i])
            || (Holds(t, i, flow) && t'.pool.times[i] == p.time && UsesIndex(c, p, i, flow))
            || (t'.pool.times[i] == p.time && FlowOf(p) == flow && GivenPort(c, p, o, i))
  {
    StepOk(c, t, p);
    if Outbound(c.wanDevice, p) {
      LearnEffect(t, FlowOf(p), p.time, c.expiration);
    }
  }

  lemma {:induction false} RunOk(c: Config, r: Run, n: nat)
    requires IsRun(c, r) && n < |r.states|
    ensures TableOk(r.states[n]) && |r.states[n].keys| == |r.states[0].keys|
  {
    if n > 0 {
      RunOk(c, r, n - 1);
      assert StepAt(c, r, n - 1);
      StepOk(c, r.states[n - 1], r.packets[n - 1]);
    }
  }

  /** What a packet does to an index, on a run. */
  ghost predicate EffectAt(c: Config, r: Run, n: nat, i: nat)
    requires IsRunShaped(r) && n < |r.packets|
  {
    var t, t', p, o := r.states[n], r.states[n + 1], r.packets[n], r.outputs[n];
    IsHeld(t'.pool.times, i) && i < |t'.keys| ==>
      var flow := t'.keys[i];
      || (Holds(t, i, flow) && t'.pool.times[i] == t.pool.times[i])
      || (Holds(t, i, flow) && t'.pool.times[i] == p.time && UsesIndex(c, p, i, flow))
      || (t'.pool.times[i] == p.time && FlowOf(p) == flow && GivenPort(c, p, o, i))
  }

  lemma RunEffect(c: Config, r: Run, n: nat, i: nat)
    requires IsRun(c, r) && n < |r.packets|
    ensures EffectAt(c, r, n, i)
  {
    assert StepAt(c, r, n);
    if IsHeld(r.states[n + 1].pool.times, i) {
      StepEffect(c, r.states[n], r.packets[n], i);
    }
  }

  /** Index `i` has held a flow after each of the packets `j` to `n - 1`. */
  ghost predicate HeldSince(r: Run, j: nat, n: nat, i: nat, flow: Flow)
    requires n < |r.states|
  {
    forall m: nat :: j < m <= n ==> Holds(r.states[m], i, flow)
  }

  /** Every held index has a history: the packet that opened it, and a later or equal one its time stems from. */
  lemma {:induction false} History(c: Config, r: Run, n: nat, i: nat, flow: Flow) returns (j: nat, m: nat)
    requires IsRun(c, r) && n < |r.states| && Holds(r.states[n], i, flow)
    ensures j <= m < n && GivenPort(c, r.packets[j], r.outputs[j], i) && FlowOf(r.packets[j]) == flow
    ensures HeldSince(r, j, n, i, flow)
    ensures r.states[n].pool.times[i] == r.packets[m].time && UsesIndex(c, r.packets[m], i, flow)
  {
    RunEffect(c, r, n - 1, i);
    var t, t', p := r.states[n - 1], r.states[n], r.packets[n - 1];
    if Holds(t, i, flow) && t'.pool.times[i] == t.pool.times[i] {
      j, m := History(c, r, n - 1, i, flow);
    } else if Holds(t, i, flow) && t'.pool.times[i] == p.time && UsesIndex(c, p, i, flow) {
      j, m := History(c, r, n - 1, i, flow);
      m := n - 1;
    } else {
      j, m := n - 1, n - 1;
    }
  }

  /**
   An inbound packet is forwarded exactly when its port stands for a live flow of which it comes from the remote end.
   */
  lemma InboundForwardedIff(c: Config, t: Table<Flow>, p: Packet)
    requires TableOk(t) && Inbound(c.wanDevice, p) && p.dstPort < PORTS
    ensures Step(c, t, p).1.Send? <==>
              exists i: nat :: i < PORTS && FlowLive(t, i, p.time, c.expiration) &&
                EncodePort(c.startPort, i) == p.dstPort && FromRemote(t.keys[i], p)
  {
    var i := DecodePort(c.startPort, p.dstPort);
    EncodeDecode(c.startPort, p.dstPort);
    forall i': nat | i' < PORTS && FlowLive(t, i', p.time, c.expiration) && EncodePort(c.startPort, i') == p.dstPort
      ensures i' == i
    {
      DecodeEncode(c.startPort, i');
    }
  }

  /** Packet `k` was forwarded outbound under an external port. */
  ghost predicate SentUnder(c: Config, r: Run, k: nat, port: nat) {
    && k < |r.packets| && k < |r.outputs|
    && Outbound(c.wanDevice, r.packets[k]) && r.outputs[k].Send? && r.outputs[k].packet.srcPort == port
  }

  /** While an index holds a flow, its port is given to packets of that flow only. */
  lemma PortKeepsOwner(c: Config, r: Run, k: nat, i: nat, flow: Flow)
    requires IsRun(c, r) && |r.states[0].keys| <= PORTS && i < |r.states[0].keys|
    requires SentUnder(c, r, k, EncodePort(c.startPort, i)) && Holds(r.states[k + 1], i, flow)
    ensures FlowOf(r.packets[k]) == flow
  {
    var t, p := r.states[k], r.packets[k];
    RunOk(c, r, k);
    assert StepAt(c, r, k);
    LearnEffect(t, FlowOf(p), p.time, c.expiration);
    var i' := Learn(t, FlowOf(p), p.time, c.expiration).1.value;
    DecodeEncode(c.startPort, i');
    DecodeEncode(c.startPort, i);
    assert i' == i;
  }

  /**
   An inbound packet is forwarded only as the reply to an earlier outbound packet that was given its destination
   port: it comes from that packet's destination and is delivered to that packet's source, nobody else was given
   the port in between, and some packet of the exchange is recent.
   */
  lemma InboundIsReply(c: Config, r: Run, n: nat) returns (j: nat, m: nat)
    requires IsRun(c, r) && |r.states[0].keys| <= PORTS
    requires n < |r.packets| && Inbound(c.wanDevice, r.packets[n]) && r.outputs[n].Send?
    ensures j <= m < n && SentUnder(c, r, j, r.packets[n].dstPort)
    ensures var p, q := r.packets[n], r.packets[j];
            && FromRemote(FlowOf(q), p)
            && r.outputs[n] == Send(p.(dstIp := q.srcIp, dstPort := q.srcPort), 1 - p.device)
    ensures forall k: nat :: (j < k < n && SentUnder(c, r, k, r.packets[n].dstPort)) ==>
              FlowOf(r.packets[k]) == FlowOf(r.packets[j])
    ensures Young(r.packets[n].time, c.expiration, r.packets[m].time)
    ensures || (Outbound(c.wanDevice, r.packets[m]) && FlowOf(r.packets[m]) == FlowOf(r.packets[j]))
            || (Inbound(c.wanDevice, r.packets[m]) && r.packets[m].dstPort == r.packets[n].dstPort)
  {
    var i := DecodePort(c.startPort, r.packets[n].dstPort);
    RunOk(c, r, n);
    assert StepAt(c, r, n);
    EncodeDecode(c.startPort, r.packets[n].dstPort);
    var flow := r.states[n].keys[i];
    j, m := History(c, r, n, i, flow);
    forall k: nat | j < k < n && SentUnder(c, r, k, r.packets[n].dstPort)
      ensures FlowOf(r.packets[k]) == flow
    {
      PortKeepsOwner(c, r, k, i, flow);
    }
    assert StepAt(c, r, m);
    EncodeDecode(c.startPort, r.packets[m].dstPort);
  }

  /**
   A dropped inbound packet still renews the last use of the index its port stands for, if and only if that holds a
   live flow; nothing else changes.
   */
  lemma DroppedInboundRenewsIff(c: Config, t: Table<Flow>, p: Packet, i: nat)
    requires TableOk(t) && Inbound(c.wanDevice, p) && p.time < TIME_MAX && Step(c, t, p).1 == Drop
    requires i < |t.keys|
    ensures var t' := Step(c, t, p).0;
            && t'.keys == t.keys && |t'.pool.times| == |t.pool.times|
            && (i == DecodePort(c.startPort, p.dstPort) ==>
                  (t'.pool.times[i] == p.time <==> FlowLive(t, i, p.time, c.expiration)))
            && (i != DecodePort(c.startPort, p.dstPort) || !FlowLive(t, i, p.time, c.expiration) ==>
                  t'.pool.times[i] == t.pool.times[i])
  {
    if i == DecodePort(c.startPort, p.dstPort) && t.pool.times[i] == p.time {
      assert FlowLive(t, i, p.time, c.expiration);
    }
  }

  /** Two flows in the table never share an external port. */
  ghost predicate PortsDistinct(c: Config, t: Table<Flow>) {
    forall i: nat, j: nat :: IsHeld(t.pool.times, i) && IsHeld(t.pool.times, j) && i != j ==>
      EncodePort(c.startPort, i) != EncodePort(c.startPort, j)
  }

  /** A packet of the `k`-th of a series of different flows. */
  function Probe(c: Config, k: nat): Packet
    requires c.wanDevice <= 1
  {
    Packet(1 - c.wanDevice, 0, 64, true, k, 0, TCP, 0, 0)
  }

  /** The first `n` indices are held since time zero, by the flows of the series in order. */
  ghost predicate FilledTo(t: Table<Flow>, n: nat) {
    && TableOk(t) && n <= |t.keys| && t.pool.last == (if n == 0 then 0 else n - 1)
    && (forall k: nat :: k < n ==> t.keys[k].srcIp == k && t.pool.times[k] == 0)
    && (forall k: nat :: n <= k < |t.keys| ==> t.pool.times[k] == TIME_MAX)
  }

  lemma FillOneMore(c: Config, t: Table<Flow>, n: nat)
    requires c.wanDevice <= 1 && FilledTo(t, n) && n < |t.keys|
    ensures FilledTo(Step(c, t, Probe(c, n)).0, n + 1) && |Step(c, t, Probe(c, n)).0.keys| == |t.keys|
  {
    StepOk(c, t, Probe(c, n));
    assert Find(t, FlowOf(Probe(c, n))).None?;
    BorrowedIs(t.pool, 0, c.expiration, n);
  }

  /** The run that sends `n` packets of different flows. */
  lemma {:induction false} FillingRun(c: Config, t0: Table<Flow>, n: nat) returns (r: Run)
    requires c.wanDevice <= 1 && Empty(t0) && n <= |t0.keys|
    ensures IsRun(c, r) && r.states[0] == t0 && |r.packets| == n
    ensures FilledTo(r.states[n], n) && |r.states[n].keys| == |t0.keys|
  {
    if n == 0 {
      r := Run([t0], [], []);
      assert forall k: nat :: k < |t0.keys| ==> !IsHeld(t0.pool.times, k) && t0.pool.times[k] == TIME_MAX;
    } else {
      var s := FillingRun(c, t0, n - 1);
      var t := s.states[n - 1];
      FillOneMore(c, t, n - 1);
      var (t', o) := Step(c, t, Probe(c, n - 1));
      r := Run(s.states + [t'], s.packets + [Probe(c, n - 1)], s.outputs + [o]);
      forall k: nat | k < n
        ensures StepAt(c, r, k)
      {
        if k < n - 1 {
          assert StepAt(c, s, k);
        }
      }
    }
  }

  /** Ports are never shared, on any run, exactly if the table has at most 65536 entries. */
  lemma PortsDistinctIff(c: Config, t0: Table<Flow>)
    requires c.wanDevice <= 1 && Empty(t0)
    ensures |t0.keys| <= PORTS <==>
              forall r: Run, n: nat :: IsRun(c, r) && r.states[0] == t0 && n < |r.states| ==>
                PortsDistinct(c, r.states[n])
  {
    if |t0.keys| <= PORTS {
      forall r: Run, n: nat | IsRun(c, r) && r.states[0] == t0 && n < |r.states|
        ensures PortsDistinct(c, r.states[n])
      {
        RunOk(c, r, n);
        forall i: nat, j: nat | i < PORTS && j < PORTS && i != j
          ensures EncodePort(c.startPort, i) != EncodePort(c.startPort, j)
        {
          DecodeEncode(c.startPort, i);
          DecodeEncode(c.startPort, j);
        }
      }
    } else {
      var r := FillingRun(c, t0, PORTS + 1);
      var t := r.states[PORTS + 1];
      assert IsHeld(t.pool.times, 0) && IsHeld(t.pool.times, PORTS);
      assert !PortsDistinct(c, t);
    }
  }
}
