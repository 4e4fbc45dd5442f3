/** What holds over every interleaving of the agent and the card. */
module TinyNfRuns {
  import opened TinyNf
  import opened TinyNfSafety

  /** The events `es`, one after the other, lead from `s` to `t`. */
  ghost predicate Path(s: State, es: seq<Event>, t: State)
    decreases |es|
  {
    if es == [] then s == t
    else Shape(s) && Enabled(s, es[0]) && Path(Step(s, es[0]), es[1..], t)
  }

  ghost predicate Reachable(s: State) {
    exists s0: State, es: seq<Event> :: Initial(s0) && Path(s0, es, s)
  }

  /**
   The card reports a head only after the last descriptor of a recycle period, the only ones that ask for a report.
   */
  predicate AskedFor(e: Event) {
    e.CardReportsHead? ==> e.head % RECYCLE_PERIOD == 0
  }

  ghost predicate AllAskedFor(es: seq<Event>) {
    forall k: nat :: k < |es| ==> AskedFor(es[k])
  }

  /** What can be reached with a card that reports no other heads. */
  ghost predicate AskedReachable(s: State) {
    exists s0: State, es: seq<Event> :: Initial(s0) && Path(s0, es, s) && AllAskedFor(es)
  }

  lemma AskedReachableIsReachable(s: State)
    requires AskedReachable(s)
    ensures Reachable(s)
  {
  }

  lemma {:induction false} PathKeeps(s: State, es: seq<Event>, t: State)
    requires Inv(s) && Path(s, es, t)
    ensures Inv(t)
    decreases |es|
  {
    hide Inv, Step;
    if es != [] {
      StepKeeps(s, es[0]);
      PathKeeps(Step(s, es[0]), es[1..], t);
    }
  }

  lemma ReachableInv(s: State)
    requires Reachable(s)
    ensures Inv(s)
  {
    hide Inv;
    var s0, es :| Initial(s0) && Path(s0, es, s);
    InitialInv(s0);
    PathKeeps(s0, es, s);
  }

  /**
   In every reachable state, for every output: the head reported is not ahead of the real head, that not ahead of
   the tail, that not ahead of the packets processed, those not ahead of the packets received, and those less than
   a ring ahead of the head reported. The machine registers are these counters modulo the ring size.
   */
  lemma CountersOrdered(s: State, n: nat)
    requires Reachable(s) && n < |s.m.rings|
    ensures Shape(s)
    ensures s.h.reported[n] <= |s.h.sent[n]| <= s.h.flushed[n] <= s.h.processed <= |s.h.received| <= s.h.limit
    ensures s.h.limit <= s.h.reported[n] + RING_SIZE - 1
    ensures s.m.delimiter == s.h.processed % RING_SIZE && s.m.receiveHead == |s.h.received| % RING_SIZE
    ensures s.m.receiveTail == s.h.limit % RING_SIZE
    ensures s.m.transmitHeads[n] == |s.h.sent[n]| % RING_SIZE && s.m.transmitTails[n] == s.h.flushed[n] % RING_SIZE
  {
    ReachableInv(s);
  }

  /** No tail ever laps its head, so the card stops exactly where the agent means it to. */
  lemma HeadsMeetTailsOnlyWhenEqual(s: State, n: nat)
    requires Reachable(s) && Shape(s) && n < |s.m.rings|
    ensures s.m.receiveHead == s.m.receiveTail <==> |s.h.received| == s.h.limit
    ensures s.m.transmitHeads[n] == s.m.transmitTails[n] <==> |s.h.sent[n]| == s.h.flushed[n]
  {
    hide Wrap, Inv;
    ReachableInv(s);
    HeadsMeet(s, n);
  }

  lemma HeadsMeet(s: State, n: nat)
    requires Inv(s) && n < |s.m.rings|
    ensures s.m.receiveHead == s.m.receiveTail <==> |s.h.received| == s.h.limit
    ensures s.m.transmitHeads[n] == s.m.transmitTails[n] <==> |s.h.sent[n]| == s.h.flushed[n]
  {
    hide Wrap, Buffers, Queued, Pending, Lengths, Logs, Scanning;
    if |s.h.received| < s.h.limit {
      WrapDistinct(|s.h.received|, s.h.limit);
    }
    if |s.h.sent[n]| < s.h.flushed[n] {
      WrapDistinct(|s.h.sent[n]|, s.h.flushed[n]);
    }
  }

  /** The handler is called once for every packet, in order of arrival, with the bytes and the length received. */
  lemma HandledInOrder(s: State, k: nat)
    requires Reachable(s) && k < |s.h.handled|
    ensures |s.h.handled| <= |s.h.received| && s.h.handled[k].input == s.h.received[k]
  {
    ReachableInv(s);
  }

  /**
   Every output sends what the handler made of the packets, in order, each with the length it chose for that output.
   */
  lemma OutputIsQueue(s: State, n: nat, k: nat)
    requires Reachable(s) && Shape(s) && n < |s.m.rings| && k < |s.h.sent[n]|
    ensures k < |s.h.handled| && n < |s.h.handled[k].lengths|
    ensures s.h.sent[n][k] == Frame(s.h.handled[k].data, s.h.handled[k].lengths[n])
  {
    ReachableInv(s);
  }

  /** Whenever the handler runs all lengths are zero, so an output it does not choose gets a null descriptor. */
  lemma UnchosenOutputsSendNothing(s: State, data: Bytes, choice: map<nat, nat>, n: nat)
    requires Reachable(s) && Shape(s) && s.m.pc.Call? && n < |s.m.rings|
    ensures |s.h.handled| < |s.h.received|
    ensures var t := Step(s, HandlerStep(data, choice));
            && t.m.lengths[n] == (if n in choice then choice[n] else 0)
            && t.h.handled == s.h.handled + [Outcome(s.h.received[|s.h.handled|], data, t.m.lengths)]
  {
    ReachableInv(s);
    HandlerKeeps(s, data, choice);
    var t := Step(s, HandlerStep(data, choice));
    assert t.m.lengths == ChosenLengths(choice, |s.m.rings|);
  }

  /** No slot is open for receiving while a packet in it waits to be processed, or to be sent by any output. */
  lemma NoSlotReused(s: State, n: nat, open: nat, waiting: nat)
    requires Reachable(s) && Shape(s) && n < |s.m.rings|
    requires |s.h.received| <= open < s.h.limit
    requires |s.h.sent[n]| <= waiting < |s.h.received|
    ensures open % RING_SIZE != waiting % RING_SIZE
  {
    ReachableInv(s);
    WrapDistinct(waiting, open);
  }

  /** The Descriptor Done flag is set exactly in the slots of packets received and not yet taken over for sending. */
  lemma DoneExactlyWhenPending(s: State, slot: nat)
    requires Reachable(s) && Shape(s) && slot < RING_SIZE
    ensures s.m.rings[0][slot].done <==>
              exists k: nat :: Written(s, 0) <= k < |s.h.received| && Wrap(k) == slot
  {
    ReachableInv(s);
    Positions(s);
    var k := SlotPosition(Written(s, 0), slot);
    assert s.m.rings[0][Wrap(k)].done <==> k < |s.h.received|;
  }

  /** Every slot has a position among any ring's worth of consecutive ones. */
  lemma SlotPosition(low: nat, slot: nat) returns (k: nat)
    requires slot < RING_SIZE
    ensures low <= k < low + RING_SIZE && Wrap(k) == slot
  {
    var q, at := low / RING_SIZE, low % RING_SIZE;
    assert low == RING_SIZE * q + at;
    k := RING_SIZE * q + slot + if slot < at then RING_SIZE else 0;
  }

  /** When the agent writes the receive tail, it is a ring less one slot on from a head that no output is behind. */
  lemma RecycleWritesOldest(s: State)
    requires Reachable(s) && Shape(s) && s.m.pc.Recycle?
    ensures var t := Step(s, AgentStep);
            && t.m.receiveTail == (s.h.oldest + RING_SIZE - 1) % RING_SIZE && t.h.limit == s.h.oldest + RING_SIZE - 1
            && t.h.limit >= s.h.limit
            && forall n: nat :: n < |s.m.rings| ==> s.h.oldest <= s.h.reported[n]
  {
    ReachableInv(s);
    RecycleKeeps(s);
  }

  /** The receive tail never moves backwards. */
  lemma {:induction false} TailNeverRetreats(s: State, es: seq<Event>, t: State)
    requires Reachable(s) && Path(s, es, t)
    ensures t.h.limit >= s.h.limit
    decreases |es|
  {
    if es != [] {
      ReachableInv(s);
      var s' := Step(s, es[0]);
      ReachableStep(s, es[0]);
      TailNeverRetreats(s', es[1..], t);
    }
  }

  lemma ReachableStep(s: State, e: Event)
    requires Reachable(s) && Shape(s) && Enabled(s, e)
    ensures Reachable(Step(s, e))
  {
    hide Step, Initial;
    var s0, es :| Initial(s0) && Path(s0, es, s);
    PathExtends(s0, es, s, e);
    assert Path(s0, es + [e], Step(s, e));
  }

  lemma {:induction false} PathExtends(s0: State, es: seq<Event>, s: State, e: Event)
    requires Path(s0, es, s) && Shape(s) && Enabled(s, e)
    ensures Path(s0, es + [e], Step(s, e))
    decreases |es|
  {
    hide Step;
    if es == [] {
      assert Path(Step(s, e), [], Step(s, e));
      assert (es + [e])[1..] == [];
    } else {
      PathExtends(Step(s0, es[0]), es[1..], s, e);
      assert (es + [e])[1..] == es[1..] + [e];
    }
  }

  /** Everything received is processed, the card has no slot left to receive into, and the agent is idle. */
  ghost predicate Stuck(s: State) {
    Shape(s) && (s.m.pc.Poll? || s.m.pc.Flush?) && s.h.processed == |s.h.received| == s.h.limit
  }

  lemma StuckStep(s: State, e: Event)
    requires Inv(s) && Stuck(s) && Enabled(s, e)
    ensures Stuck(Step(s, e)) && Step(s, e).h.received == s.h.received
  {
    hide Wrap, Buffers, Queued, Lengths, Logs;
    assert !s.m.rings[0][Wrap(s.h.processed)].done;
  }

  /**
   Once stuck, the ring stays stuck whatever the agent and the card do: heads are looked at again only after
   more packets, and none can arrive.
   */
  lemma {:induction false} StuckForever(s: State, es: seq<Event>, t: State)
    requires Inv(s) && Stuck(s) && Path(s, es, t)
    ensures Stuck(t) && t.h.received == s.h.received
    decreases |es|
  {
    hide Inv, Step, Stuck;
    if es != [] {
      StuckStep(s, es[0]);
      StepKeeps(s, es[0]);
      StuckForever(Step(s, es[0]), es[1..], t);
    }
  }

  /** One output; `k` packets received, processed and sent, but no head reported yet. */
  ghost predicate Unreported(s: State, k: nat) {
    && Inv(s) && |s.m.rings| == 1 && s.m.pc == Poll && s.m.flushCounter == 0
    && |s.h.received| == s.h.processed == s.h.flushed[0] == |s.h.sent[0]| == k
    && s.h.reported[0] == 0 && s.h.limit == RING_SIZE - 1
  }

  /** A packet has been received and handed to the handler, whose output awaits its descriptor. */
  ghost predicate AwaitingDescriptor(s: State, k: nat) {
    && Inv(s) && |s.m.rings| == 1 && s.m.pc == Write(0) && s.m.flushCounter == 0
    && |s.h.received| == k + 1 && s.h.processed == s.h.flushed[0] == |s.h.sent[0]| == k
    && s.h.reported[0] == 0 && s.h.limit == RING_SIZE - 1
  }

  /** The descriptor is written, and the receive tail too if it was due; the transmit tail is not. */
  ghost predicate AwaitingFlush(s: State, k: nat) {
    && Inv(s) && |s.m.rings| == 1 && s.m.pc == Poll && s.m.flushCounter == 1
    && |s.h.received| == s.h.processed == k + 1 && s.h.flushed[0] == |s.h.sent[0]| == k
    && s.h.reported[0] == 0 && s.h.limit == RING_SIZE - 1
  }

  lemma Take(s: State, e: Event) returns (t: State)
    requires AskedReachable(s) && Inv(s) && Shape(s) && Enabled(s, e) && AskedFor(e)
    ensures t == Step(s, e) && AskedReachable(t) && Inv(t)
  {
    hide Inv, Step, Initial, AskedFor;
    StepKeeps(s, e);
    t := Step(s, e);
    var s0, es :| Initial(s0) && Path(s0, es, s) && AllAskedFor(es);
    PathExtends(s0, es, s, e);
    assert AllAskedFor(es + [e]);
  }

  lemma ReceiveAndHandle(s: State, k: nat) returns (t: State)
    requires AskedReachable(s) && Unreported(s, k) && k < RING_SIZE - 1
    ensures AskedReachable(t) && AwaitingDescriptor(t, k)
  {
    hide AskedReachable, Buffers, Queued, Pending, Lengths, Logs;
    var a := Take(s, CardReceives(Frame([], 64)));
    var b := Take(a, AgentStep);
    t := Take(b, HandlerStep([], map[]));
  }

  lemma WriteDescriptor(s: State, k: nat) returns (t: State)
    requires AskedReachable(s) && AwaitingDescriptor(s, k)
    ensures AskedReachable(t) && AwaitingFlush(t, k)
  {
    hide AskedReachable, Buffers, Queued, Pending, Lengths, Logs;
    t := Take(s, AgentStep);
    if t.m.pc.Scan? {
      t := Take(t, AgentStep);
      t := Take(t, AgentStep);
    }
  }

  /** All is flushed, and the last packet is not sent yet. */
  ghost predicate AwaitingTransmission(s: State, k: nat) {
    && Inv(s) && |s.m.rings| == 1 && s.m.pc == Poll && s.m.flushCounter == 0
    && |s.h.received| == s.h.processed == s.h.flushed[0] == k + 1 && |s.h.sent[0]| == k
    && s.h.reported[0] == 0 && s.h.limit == RING_SIZE - 1
  }

  lemma FlushDescriptor(s: State, k: nat) returns (t: State)
    requires AskedReachable(s) && AwaitingFlush(s, k)
    ensures AskedReachable(t) && AwaitingTransmission(t, k)
  {
    hide AskedReachable, Wrap, Buffers, Queued, Lengths, Logs;
    assert !s.m.rings[0][Wrap(s.h.processed)].done;
    t := Take(s, AgentStep);
    t := Take(t, AgentStep);
  }

  lemma Transmit(s: State, k: nat) returns (t: State)
    requires AskedReachable(s) && AwaitingTransmission(s, k)
    ensures AskedReachable(t) && Unreported(t, k + 1)
  {
    hide AskedReachable, Wrap, Buffers, Queued, Pending, Lengths, Logs;
    HeadsMeet(s, 0);
    t := Take(s, CardTransmits(0));
  }

  lemma {:induction false} SendUnreported(s: State, k: nat) returns (t: State)
    requires AskedReachable(s) && Unreported(s, 0) && k < RING_SIZE
    ensures AskedReachable(t) && Unreported(t, k)
  {
    hide AskedReachable, Unreported, AwaitingFlush, AwaitingDescriptor, AwaitingTransmission;
    if k == 0 {
      t := s;
    } else {
      t := SendUnreported(s, k - 1);
      t := ReceiveAndHandle(t, k - 1);
      t := WriteDescriptor(t, k - 1);
      t := FlushDescriptor(t, k - 1);
      t := Transmit(t, k - 1);
    }
  }

  lemma StartUnreported(s: State)
    requires s == Start(1)
    ensures AskedReachable(s) && Unreported(s, 0)
  {
    InitialInv(s);
    assert Path(s, [], s) && AllAskedFor([]);
    hide Start, Inv;
  }

  /**
   The ring can get stuck: if the card reports no head during its first 255 packets, then even after it has sent
   every packet and reported as far as it is asked to, it has no slot left to receive into and never will have one.
   */
  lemma CanGetStuck() returns (t: State)
    ensures AskedReachable(t) && Inv(t) && Stuck(t)
    ensures |t.m.rings| == 1 && |t.h.sent[0]| == |t.h.received| == RING_SIZE - 1
    ensures t.h.reported[0] == RING_SIZE - RECYCLE_PERIOD
  {
    var s := Start(1);
    StartUnreported(s);
    t := SendUnreported(s, RING_SIZE - 1);
    t := Take(t, CardReportsHead(0, RING_SIZE - RECYCLE_PERIOD));
  }
}
