/**
 When the network address translator forwards what comes from outside, told from the packets of a run alone, and how
 packets that it drops keep a flow alive.
 */
module NatRuns {
  import opened NatSpec
  import opened Options
  import opened Packets
  import opened PoolSpec
  import opened TableSpec

  /**
   Packet `m` gives a flow a port, or renews that: the flow's own packet was sent from the port, or some packet came
   to the port within the expiration time of an earlier such packet.
   */
  ghost predicate Renewed(c: Config, r: Run, flow: Flow, port: nat, m: nat)
    decreases m, 1
  {
    m < |r.packets| &&
    var p := r.packets[m];
    || (SentUnder(c, r, m, port) && FlowOf(p) == flow)
    || (Inbound(c.wanDevice, p) && p.dstPort == port && RenewedBefore(c, r, flow, port, m, p.time))
  }

  /** One of the first `n` packets does so, within the expiration time of `now`. */
  ghost predicate RenewedBefore(c: Config, r: Run, flow: Flow, port: nat, n: nat, now: nat)
    decreases n, 0
  {
    exists m: nat :: m < n && m < |r.packets| && Renewed(c, r, flow, port, m) &&
      Young(now, c.expiration, r.packets[m].time)
  }

  /** The time of a tabled flow is that of a packet that renewed it. */
  lemma {:induction false} HeldWasRenewed(c: Config, r: Run, n: nat, i: nat, flow: Flow) returns (m: nat)
    requires IsRun(c, r) && n < |r.states| && Holds(r.states[n], i, flow)
    ensures m < n && Renewed(c, r, flow, EncodePort(c.startPort, i), m)
    ensures r.states[n].pool.times[i] == r.packets[m].time
  {
    assert n > 0;
    var t, t', p := r.states[n - 1], r.states[n], r.packets[n - 1];
    assert StepAt(c, r, n - 1);
    RunEffect(c, r, n - 1, i);
    if Holds(t, i, flow) && t'.pool.times[i] == t.pool.times[i] {
      m := HeldWasRenewed(c, r, n - 1, i, flow);
    } else if Inbound(c.wanDevice, p) {
      m := HeldWasRenewed(c, r, n - 1, i, flow);
      EncodeDecode(c.startPort, p.dstPort);
      assert RenewedBefore(c, r, flow, p.dstPort, n - 1, p.time);
      m := n - 1;
    } else {
      LearnEffect(t, FlowOf(p), p.time, c.expiration);
      m := n - 1;
    }
  }

  /** The index a port stands for holds the flow, used last at `since` or later. */
  ghost predicate HeldFrom(c: Config, t: Table<Flow>, flow: Flow, port: nat, since: nat) {
    var i := DecodePort(c.startPort, port);
    Holds(t, i, flow) && i < |t.pool.times| && since <= t.pool.times[i]
  }

  /** A packet leaves a live flow where it is. */
  lemma LiveStaysHeld(c: Config, t: Table<Flow>, p: Packet, flow: Flow, port: nat, since: nat)
    requires TableOk(t) && p.time < TIME_MAX && HeldFrom(c, t, flow, port, since)
    requires Young(p.time, c.expiration, since) && since <= p.time
    ensures HeldFrom(c, Step(c, t, p).0, flow, port, since)
  {
    var i := DecodePort(c.startPort, port);
    if Outbound(c.wanDevice, p) {
      LearnEffect(t, FlowOf(p), p.time, c.expiration);
    } else if Inbound(c.wanDevice, p) && FlowLive(t, DecodePort(c.startPort, p.dstPort), p.time, c.expiration) {
      TouchOk(t, DecodePort(c.startPort, p.dstPort), p.time);
    }
  }

  /** The packet that gives a port, or renews it while it is held, leaves it held. */
  lemma GivenIsHeld(c: Config, r: Run, m: nat, flow: Flow, port: nat)
    requires IsRun(c, r) && |r.states[0].keys| <= PORTS
    requires SentUnder(c, r, m, port) && FlowOf(r.packets[m]) == flow
    ensures HeldFrom(c, r.states[m + 1], flow, port, r.packets[m].time)
  {
    RunOk(c, r, m);
    assert StepAt(c, r, m);
    var t, p := r.states[m], r.packets[m];
    LearnEffect(t, flow, p.time, c.expiration);
    DecodeEncode(c.startPort, Learn(t, flow, p.time, c.expiration).1.value);
  }

  /** A flow stays where it is for as long as some packet that renewed it is young. */
  lemma {:induction false} RenewedIsHeld(c: Config, r: Run, m: nat, k: nat, flow: Flow, port: nat, now: nat)
    requires IsRun(c, r) && Monotone(r) && |r.states[0].keys| <= PORTS
    requires m < k < |r.states| && Renewed(c, r, flow, port, m)
    requires r.packets[k - 1].time <= now && Young(now, c.expiration, r.packets[m].time)
    ensures HeldFrom(c, r.states[k], flow, port, r.packets[m].time)
    decreases k
  {
    var p := r.packets[k - 1];
    assert StepAt(c, r, k - 1);
    if m < k - 1 {
      RenewedIsHeld(c, r, m, k - 1, flow, port, now);
      LiveStaysHeld(c, r.states[k - 1], p, flow, port, r.packets[m].time);
    } else if SentUnder(c, r, m, port) && FlowOf(p) == flow {
      GivenIsHeld(c, r, m, flow, port);
    } else {
      var m': nat :| m' < m && Renewed(c, r, flow, port, m') && Young(p.time, c.expiration, r.packets[m'].time);
      RenewedIsHeld(c, r, m', m, flow, port, p.time);
      TouchOk(r.states[m], DecodePort(c.startPort, port), p.time);
    }
  }

  /**
   On any run an inbound packet is forwarded if and only if its port was given to a flow whose remote end it comes
   from, and renewed ever since within the expiration time.
   */
  lemma InboundForwardedOnRunIff(c: Config, r: Run, n: nat)
    requires IsRun(c, r) && Monotone(r) && |r.states[0].keys| <= PORTS
    requires n < |r.packets| && Inbound(c.wanDevice, r.packets[n])
    ensures var p := r.packets[n];
            r.outputs[n].Send? <==>
              exists flow: Flow :: RenewedBefore(c, r, flow, p.dstPort, n, p.time) && FromRemote(flow, p)
  {
    var t, p := r.states[n], r.packets[n];
    var i := DecodePort(c.startPort, p.dstPort);
    assert StepAt(c, r, n);
    EncodeDecode(c.startPort, p.dstPort);
    if r.outputs[n].Send? {
      var m := HeldWasRenewed(c, r, n, i, t.keys[i]);
      assert RenewedBefore(c, r, t.keys[i], p.dstPort, n, p.time);
    }
    forall flow: Flow | RenewedBefore(c, r, flow, p.dstPort, n, p.time) && FromRemote(flow, p)
      ensures r.outputs[n].Send?
    {
      var m: nat :| m < n && Renewed(c, r, flow, p.dstPort, m) && Young(p.time, c.expiration, r.packets[m].time);
      RenewedIsHeld(c, r, m, n, flow, p.dstPort, p.time);
    }
  }

  /**
   A reply to a forwarded outbound packet that comes in time is delivered to that packet's source, whatever came
   between.
   */
  lemma ReplyComesBack(c: Config, r: Run, j: nat, n: nat)
    requires IsRun(c, r) && Monotone(r) && |r.states[0].keys| <= PORTS
    requires j < n < |r.packets| && SentUnder(c, r, j, r.packets[n].dstPort)
    requires Inbound(c.wanDevice, r.packets[n]) && FromRemote(FlowOf(r.packets[j]), r.packets[n])
    requires Young(r.packets[n].time, c.expiration, r.packets[j].time)
    ensures var p, q := r.packets[n], r.packets[j];
            r.outputs[n] == Send(p.(dstIp := q.srcIp, dstPort := q.srcPort), 1 - p.device)
  {
    var p, flow := r.packets[n], FlowOf(r.packets[j]);
    RenewedIsHeld(c, r, j, n, flow, p.dstPort, p.time);
    assert StepAt(c, r, n);
  }

  /** The only packet of the flow that the spoofed ones keep alive. */
  function Opening(c: Config): Packet
    requires c.wanDevice <= 1
  {
    Probe(c, 0)
  }

  /** A packet to the first port that comes from another address than the one the flow goes to. */
  function Spoofed(c: Config, time: nat): Packet {
    Packet(c.wanDevice, time, 64, true, 1, 0, TCP, 0, EncodePort(c.startPort, 0))
  }

  /** The first index holds the opening packet's flow, used last at `time`. */
  ghost predicate KeptAt(c: Config, t: Table<Flow>, time: nat)
    requires c.wanDevice <= 1
  {
    TableOk(t) && Holds(t, 0, FlowOf(Opening(c))) && t.pool.times[0] == time
  }

  lemma OpeningStep(c: Config, t: Table<Flow>)
    requires c.wanDevice <= 1 && Empty(t) && |t.keys| > 0
    ensures var (t', o) := Step(c, t, Opening(c)); KeptAt(c, t', 0) && o.Send?
  {
    assert forall k: nat :: k < |t.keys| ==> !IsHeld(t.pool.times, k) && t.pool.times[k] == TIME_MAX;
    FillOneMore(c, t, 0);
    assert Find(t, FlowOf(Opening(c))).None?;
    BorrowedIs(t.pool, 0, c.expiration, 0);
  }

  lemma SpoofedStep(c: Config, t: Table<Flow>, last: nat, time: nat)
    requires c.wanDevice <= 1 && KeptAt(c, t, last) && time < TIME_MAX && Young(time, c.expiration, last)
    ensures var (t', o) := Step(c, t, Spoofed(c, time)); KeptAt(c, t', time) && o == Drop
  {
    DecodeEncode(c.startPort, 0);
    StepOk(c, t, Spoofed(c, time));
  }

  /**
   A flow that sent a single packet, at time zero, and was never answered is kept alive past any number of expiration
   times by packets that are all dropped.
   */
  lemma {:induction false} SpoofedKeepAlive(c: Config, t0: Table<Flow>, count: nat) returns (r: Run)
    requires c.wanDevice <= 1 && Empty(t0) && |t0.keys| > 0 && count * c.expiration < TIME_MAX
    ensures IsRun(c, r) && Monotone(r) && r.states[0] == t0 && |r.packets| == count + 1
    ensures r.packets[0] == Opening(c)
    ensures forall k: nat :: 0 < k <= count ==> Inbound(c.wanDevice, r.packets[k]) && r.outputs[k] == Drop
    ensures r.packets[count].time == count * c.expiration && KeptAt(c, r.states[count + 1], count * c.expiration)
    ensures FlowLive(r.states[count + 1], 0, count * c.expiration + c.expiration, c.expiration)
  {
    if count == 0 {
      OpeningStep(c, t0);
      var (t, o) := Step(c, t0, Opening(c));
      r := Run([t0, t], [Opening(c)], [o]);
      assert StepAt(c, r, 0);
    } else {
      var last, time := (count - 1) * c.expiration, count * c.expiration;
      assert time == last + c.expiration;
      var s := SpoofedKeepAlive(c, t0, count - 1);
      SpoofedStep(c, s.states[count], last, time);
      var (t, o) := Step(c, s.states[count], Spoofed(c, time));
      r := Run(s.states + [t], s.packets + [Spoofed(c, time)], s.outputs + [o]);
      forall k: nat | k < |r.packets|
        ensures StepAt(c, r, k)
      {
        if k < count {
          assert StepAt(c, s, k);
        }
      }
      assert forall k: nat :: k < |s.packets| ==> s.packets[k].time <= s.packets[count - 1].time;
    }
  }

  /** The two 16-bit truncations of the port arithmetic come to one. */
  lemma PortOfIndex(startPort: nat, index: nat)
    ensures EncodePort(startPort, index) == (startPort + index) % PORTS
  {
    var q := index / PORTS;
    assert startPort + index == startPort + index % PORTS + PORTS * q;
  }

  /**
   What becomes of an outbound packet, on any run: it is forwarded exactly if its flow was tabled or some index was
   available, and then from the external address and the port of the index that holds its flow, otherwise unchanged,
   on the other device.
   */
  lemma OutboundOutput(c: Config, r: Run, n: nat)
    requires IsRun(c, r) && n < |r.packets| && Outbound(c.wanDevice, r.packets[n])
    ensures var t, t', p, o := r.states[n], r.states[n + 1], r.packets[n], r.outputs[n];
            && (o.Send? <==>
                  Find(t, FlowOf(p)).Some? || exists i: nat :: Available(t.pool.times, i, p.time, c.expiration))
            && (o.Send? ==>
                  exists i: nat :: Holds(t', i, FlowOf(p)) &&
                    o == Send(p.(srcIp := c.externalAddr, srcPort := (c.startPort + i) % PORTS), 1 - p.device))
            && (o == Drop ==> t' == t)
  {
    var t, p := r.states[n], r.packets[n];
    RunOk(c, r, n);
    assert StepAt(c, r, n);
    LearnEffect(t, FlowOf(p), p.time, c.expiration);
    var index := Learn(t, FlowOf(p), p.time, c.expiration).1;
    if index.Some? {
      PortOfIndex(c.startPort, index.value);
      assert Holds(r.states[n + 1], index.value, FlowOf(p));
    }
  }

  /** An inbound packet that is forwarded goes to the source of the flow its port stands for, otherwise unchanged. */
  lemma InboundOutput(c: Config, r: Run, n: nat)
    requires IsRun(c, r) && n < |r.packets| && Inbound(c.wanDevice, r.packets[n]) && r.outputs[n].Send?
    ensures var t, p, o := r.states[n], r.packets[n], r.outputs[n];
            exists i: nat ::
              i < PORTS && (c.startPort + i) % PORTS == p.dstPort && FlowLive(t, i, p.time, c.expiration) &&
              o == Send(p.(dstIp := t.keys[i].srcIp, dstPort := t.keys[i].srcPort), 1 - p.device)
  {
    var p := r.packets[n];
    assert StepAt(c, r, n);
    var i := DecodePort(c.startPort, p.dstPort);
    EncodeDecode(c.startPort, p.dstPort);
    PortOfIndex(c.startPort, i);
    assert FlowLive(r.states[n], i, p.time, c.expiration);
  }

  /** Any other packet is dropped, and nothing is learned from it. */
  lemma OtherOutput(c: Config, r: Run, n: nat)
    requires IsRun(c, r) && n < |r.packets|
    requires !Inbound(c.wanDevice, r.packets[n]) && !Outbound(c.wanDevice, r.packets[n])
    ensures r.outputs[n] == Drop && r.states[n + 1] == r.states[n]
  {
    assert StepAt(c, r, n);
  }
}
