/** The firewall as a function of its table and one packet, and which inbound packets it lets through on a run. */
module FirewallSpec {
  import opened Options
  import opened Packets
  import opened PoolSpec
  import opened TableSpec

  datatype Config = Config(externalDevice: nat, expiration: nat)

  /** A flow is in the table and has not expired. */
  ghost predicate Known(t: Table<Flow>, flow: Flow, now: nat, expiration: nat)
    requires TableOk(t)
  {
    Find(t, flow).Some? && Young(now, expiration, t.pool.times[Find(t, flow).value])
  }

  /** Recognizing a known flow counts as a use of it. */
  ghost function Recognized(t: Table<Flow>, flow: Flow, now: nat, expiration: nat): Table<Flow>
    requires TableOk(t)
  {
    if Known(t, flow, now, expiration) then Touch(t, Find(t, flow).value, now) else t
  }

  /** An inbound packet passes if the flow it answers is known and live. */
  ghost function StepInbound(c: Config, t: Table<Flow>, p: Packet): (Table<Flow>, Output)
    requires TableOk(t)
  {
    (Recognized(t, MirroredFlowOf(p), p.time, c.expiration),
     if Known(t, MirroredFlowOf(p), p.time, c.expiration) then Send(p, 1 - p.device) else Drop)
  }

  /** An outbound packet always passes, learned or not. */
  ghost function StepOutbound(c: Config, t: Table<Flow>, p: Packet): (Table<Flow>, Output)
    requires TableOk(t)
  {
    var (t', _) := Learn(t, FlowOf(p), p.time, c.expiration);
    (t', Send(p, 1 - p.device))
  }

  ghost function Step(c: Config, t: Table<Flow>, p: Packet): (Table<Flow>, Output)
    requires TableOk(t)
  {
    if !IsTcpUdp(p) then (t, Drop)
    else if p.device == c.externalDevice then StepInbound(c, t, p)
    else StepOutbound(c, t, p)
  }

  type Run = RunOf<Table<Flow>>

  ghost predicate StepAt(c: Config, r: Run, n: nat)
    requires IsRunShaped(r) && n < |r.packets|
  {
    && r.packets[n].time < TIME_MAX
    && TableOk(r.states[n])
    && (r.states[n + 1], r.outputs[n]) == Step(c, r.states[n], r.packets[n])
  }

  /** The table starts empty, packets are handled as `Step` says, and time never runs backwards. */
  ghost predicate IsRun(c: Config, r: Run) {
    && IsRunShaped(r)
    && Empty(r.states[0])
    && (forall n: nat :: n < |r.packets| ==> StepAt(c, r, n))
    && Monotone(r)
  }

  ghost predicate Tabled(t: Table<Flow>, flow: Flow) {
    exists i: nat :: Holds(t, i, flow)
  }

  /** When a tabled flow was last used. */
  ghost predicate LastUsed(t: Table<Flow>, flow: Flow, time: nat) {
    exists i: nat :: i < |t.pool.times| && Holds(t, i, flow) && t.pool.times[i] == time
  }

  /** Packet `n` is activity of a flow: sent by it and tabled, or an accepted answer to it. */
  ghost predicate Activity(c: Config, r: Run, n: nat, flow: Flow) {
    && n < |r.packets| && n < |r.outputs| && n + 1 < |r.states|
    && if Inbound(c.externalDevice, r.packets[n]) then MirroredFlowOf(r.packets[n]) == flow && r.outputs[n].Send?
       else Outbound(c.externalDevice, r.packets[n]) && FlowOf(r.packets[n]) == flow && Tabled(r.states[n + 1], flow)
  }

  lemma StepOk(c: Config, t: Table<Flow>, p: Packet)
    requires TableOk(t) && p.time < TIME_MAX
    ensures TableOk(Step(c, t, p).0)
  {
    if Outbound(c.externalDevice, p) {
      LearnEffect(t, FlowOf(p), p.time, c.expiration);
    } else if Inbound(c.externalDevice, p) && Find(t, MirroredFlowOf(p)).Some? {
      TouchOk(t, Find(t, MirroredFlowOf(p)).value, p.time);
    }
  }

  /**
   One step sets the last use of a flow to now if it is activity of the flow, and otherwise leaves it alone or evicts
   the flow as expired.
   */
  lemma StepEffect(c: Config, r: Run, n: nat, flow: Flow)
    requires IsRun(c, r) && n < |r.packets|
    ensures var t, t', p := r.states[n], r.states[n + 1], r.packets[n];
            && (Activity(c, r, n, flow) ==> LastUsed(t', flow, p.time))
            && (forall s :: (!Activity(c, r, n, flow) && LastUsed(t', flow, s)) ==> LastUsed(t, flow, s))
            && (forall s :: LastUsed(t, flow, s) && !Activity(c, r, n, flow) ==>
                  LastUsed(t', flow, s) || !Young(p.time, c.expiration, s))
  {
    var t, t', p := r.states[n], r.states[n + 1], r.packets[n];
    assert StepAt(c, r, n);
    StepOk(c, t, p);
    if Outbound(c.externalDevice, p) {
      OutboundEffect(c, t, p, flow);
    } else if Inbound(c.externalDevice, p) {
      InboundEffect(c, t, p, flow);
    }
  }

  lemma OutboundEffect(c: Config, t: Table<Flow>, p: Packet, flow: Flow)
    requires TableOk(t) && p.time < TIME_MAX && Outbound(c.externalDevice, p)
    ensures var t' := Step(c, t, p).0;
            && (Tabled(t', FlowOf(p)) ==> LastUsed(t', FlowOf(p), p.time))
            && (forall s :: (flow != FlowOf(p) && LastUsed(t', flow, s)) ==> LastUsed(t, flow, s))
            && (forall s :: LastUsed(t, flow, s) && flow != FlowOf(p) ==>
                  LastUsed(t', flow, s) || !Young(p.time, c.expiration, s))
            && (Tabled(t, FlowOf(p)) ==> Tabled(t', FlowOf(p)))
            && TableOk(t')
  {
    LearnEffect(t, FlowOf(p), p.time, c.expiration);
    var (t', index) := Learn(t, FlowOf(p), p.time, c.expiration);
    forall s | LastUsed(t', flow, s) && flow != FlowOf(p)
      ensures LastUsed(t, flow, s)
    {
      var i: nat :| i < |t'.pool.times| && Holds(t', i, flow) && t'.pool.times[i] == s;
      assert Some(i) != index;
      assert Holds(t, i, flow);
    }
    forall s | LastUsed(t, flow, s) && flow != FlowOf(p) && Young(p.time, c.expiration, s)
      ensures LastUsed(t', flow, s)
    {
      var i: nat :| i < |t.pool.times| && Holds(t, i, flow) && t.pool.times[i] == s;
      assert Some(i) != index;
      assert Holds(t', i, flow);
    }
  }

  lemma InboundEffect(c: Config, t: Table<Flow>, p: Packet, flow: Flow)
    requires TableOk(t) && p.time < TIME_MAX && Inbound(c.externalDevice, p)
    ensures var (t', o) := Step(c, t, p);
            && (o.Send? ==> LastUsed(t', MirroredFlowOf(p), p.time))
            && (forall s :: (flow != MirroredFlowOf(p) || o == Drop) ==>
                  (LastUsed(t', flow, s) <==> LastUsed(t, flow, s)))
  {
    var (t', o) := Step(c, t, p);
    if o.Send? {
      var k := Find(t, MirroredFlowOf(p)).value;
      TouchOk(t, k, p.time);
      assert Holds(t', k, MirroredFlowOf(p));
      forall s | flow != MirroredFlowOf(p)
        ensures LastUsed(t', flow, s) <==> LastUsed(t, flow, s)
      {
        assert forall i: nat :: Holds(t', i, flow) <==> Holds(t, i, flow);
      }
    }
  }

  /** The time kept for a flow is that of its latest activity, and the flow was first sent out. */
  lemma {:induction false} LastUseIsLatestActivity(c: Config, r: Run, n: nat, flow: Flow, s: nat)
    returns (j: nat, m: nat)
    requires IsRun(c, r) && n < |r.states| && LastUsed(r.states[n], flow, s)
    ensures j <= m < n && Activity(c, r, m, flow) && r.packets[m].time == s
    ensures forall k: nat :: m < k < n ==> !Activity(c, r, k, flow)
    ensures Activity(c, r, j, flow) && Outbound(c.externalDevice, r.packets[j])
  {
    assert n > 0;
    StepEffect(c, r, n - 1, flow);
    assert StepAt(c, r, n - 1);
    if Activity(c, r, n - 1, flow) {
      m := n - 1;
      SameLastUse(r.states[n], flow, s, r.packets[m].time, c, r, n);
      if Outbound(c.externalDevice, r.packets[m]) {
        j := m;
      } else {
        var i := Find(r.states[m], flow).value;
        assert LastUsed(r.states[m], flow, r.states[m].pool.times[i]);
        var m';
        j, m' := LastUseIsLatestActivity(c, r, m, flow, r.states[m].pool.times[i]);
      }
    } else {
      j, m := LastUseIsLatestActivity(c, r, n - 1, flow, s);
    }
  }

  lemma SameLastUse(t: Table<Flow>, flow: Flow, a: nat, b: nat, c: Config, r: Run, n: nat)
    requires IsRun(c, r) && 0 < n < |r.states| && t == r.states[n]
    requires LastUsed(t, flow, a) && LastUsed(t, flow, b)
    ensures a == b
  {
    assert StepAt(c, r, n - 1);
    StepOk(c, r.states[n - 1], r.packets[n - 1]);
  }

  /** A flow stays in the table from an activity on for as long as that activity is young. */
  lemma {:induction false} StaysTabled(c: Config, r: Run, m: nat, k: nat, flow: Flow, now: nat) returns (s: nat)
    requires IsRun(c, r) && m < k < |r.states| && Activity(c, r, m, flow)
    requires r.packets[k - 1].time <= now && Young(now, c.expiration, r.packets[m].time)
    ensures s >= r.packets[m].time && LastUsed(r.states[k], flow, s)
  {
    StepEffect(c, r, k - 1, flow);
    if Activity(c, r, k - 1, flow) {
      s := r.packets[k - 1].time;
    } else {
      s := StaysTabled(c, r, m, k - 1, flow, now);
    }
  }

  /**
   An inbound packet is let through exactly when the flow it answers had activity within the expiration time:
   it was sent out and tabled, or answered and accepted, recently enough.
   */
  lemma InboundForwardedIff(c: Config, r: Run, n: nat)
    requires IsRun(c, r) && n < |r.packets| && Inbound(c.externalDevice, r.packets[n])
    ensures var flow, now := MirroredFlowOf(r.packets[n]), r.packets[n].time;
            r.outputs[n].Send? <==>
              exists m: nat :: m < n && Activity(c, r, m, flow) && Young(now, c.expiration, r.packets[m].time)
  {
    var t, flow, now := r.states[n], MirroredFlowOf(r.packets[n]), r.packets[n].time;
    assert StepAt(c, r, n);
    if r.outputs[n].Send? {
      var s := t.pool.times[Find(t, flow).value];
      assert LastUsed(t, flow, s);
      var j, m := LastUseIsLatestActivity(c, r, n, flow, s);
    }
    forall m: nat | m < n && Activity(c, r, m, flow) && Young(now, c.expiration, r.packets[m].time)
      ensures r.outputs[n].Send?
    {
      var s := StaysTabled(c, r, m, n, flow, now);
    }
  }

  /** In particular, an inbound packet is let through only after the flow it answers was itself sent out. */
  lemma InboundNeedsOutbound(c: Config, r: Run, n: nat) returns (j: nat)
    requires IsRun(c, r) && n < |r.packets| && Inbound(c.externalDevice, r.packets[n]) && r.outputs[n].Send?
    ensures j < n && Outbound(c.externalDevice, r.packets[j]) && r.outputs[j].Send?
    ensures FlowOf(r.packets[j]) == MirroredFlowOf(r.packets[n])
  {
    var t, flow := r.states[n], MirroredFlowOf(r.packets[n]);
    assert StepAt(c, r, n);
    var s := t.pool.times[Find(t, flow).value];
    assert LastUsed(t, flow, s);
    var m;
    j, m := LastUseIsLatestActivity(c, r, n, flow, s);
    assert StepAt(c, r, j);
  }

  /** An outbound packet fails to enter its flow only when every index is held by a flow that is still young. */
  lemma OutboundLearnedUnlessFull(c: Config, r: Run, n: nat)
    requires IsRun(c, r) && n < |r.packets| && Outbound(c.externalDevice, r.packets[n])
    ensures var t, p := r.states[n], r.packets[n];
            Activity(c, r, n, FlowOf(p)) <==>
              (Tabled(t, FlowOf(p)) || exists i: nat :: Available(t.pool.times, i, p.time, c.expiration))
  {
    assert StepAt(c, r, n);
    LearnEffect(r.states[n], FlowOf(r.packets[n]), r.packets[n].time, c.expiration);
  }

  /**
   Packets that are let through go out unchanged on the other device. Outbound ones always are, learned or not; packets
   that are not TCP or UDP never are, and nothing is learned from them.
   */
  lemma OutputUnchanged(c: Config, r: Run, n: nat)
    requires IsRun(c, r) && n < |r.packets|
    ensures var p, o := r.packets[n], r.outputs[n];
            && (o == Send(p, 1 - p.device) || o == Drop)
            && (Outbound(c.externalDevice, p) ==> o == Send(p, 1 - p.device))
            && (!IsTcpUdp(p) ==> o == Drop && r.states[n + 1] == r.states[n])
            && (Inbound(c.externalDevice, p) && o == Drop ==> r.states[n + 1] == r.states[n])
  {
    assert StepAt(c, r, n);
  }
}
