/**
 The agent's loop as the source runs it, on memory it shares with the card. Before every access to that memory or
 to a register the card makes as many moves as it likes.
 */
module TinyNfAgent {
  import opened TinyNf
  import opened TinyNfSafety
  import opened TinyNfRuns

  /** The agent's own variables, and what only the agent does, are the same in two states. */
  ghost predicate OnlyCardMoved(s: State, t: State) {
    && t.m.pc == s.m.pc && t.m.delimiter == s.m.delimiter && t.m.flushCounter == s.m.flushCounter
    && |t.m.rings| == |s.m.rings| && t.m.lengths == s.m.lengths
    && t.m.transmitTails == s.m.transmitTails && t.m.receiveTail == s.m.receiveTail
    && t.h.handled == s.h.handled && t.h.processed == s.h.processed && t.h.flushed == s.h.flushed
    && s.h.received <= t.h.received && s.h.oldest == t.h.oldest && s.h.limit == t.h.limit
  }

  predicate IsCardMove(s: State, e: Event)
    requires Shape(s)
  {
    (e.CardReceives? || e.CardTransmits? || e.CardReportsHead?) && Enabled(s, e)
  }

  lemma ReachableShape(s: State)
    requires Reachable(s)
    ensures Shape(s)
  {
    ReachableInv(s);
  }

  /** Between packets, all that the handler has been given is processed. */
  lemma AllProcessed(s: State)
    requires Reachable(s) && !s.m.pc.Write?
    ensures s.h.processed == |s.h.handled|
  {
    ReachableInv(s);
  }

  /** The next slot's metadata says done exactly when a received packet waits. */
  lemma DoneWhenWaiting(s: State)
    requires Reachable(s) && s.m.pc.Poll?
    ensures Shape(s) && s.m.delimiter < |s.m.rings[0]|
    ensures s.m.rings[0][s.m.delimiter].done <==> |s.h.handled| < |s.h.received|
  {
    hide Wrap;
    ReachableInv(s);
  }

  lemma HandledReceived(s: State)
    requires Reachable(s)
    ensures |s.h.handled| <= |s.h.received|
  {
    ReachableInv(s);
  }

  class Agent {
    const handler: (Bytes, nat, nat) -> (Bytes, map<nat, nat>)
    const card: nat -> seq<Event>
    const buffer: array<Bytes>
    const rings: array2<Descriptor>
    const lengths: array<nat>
    const transmitHeads: array<nat>
    const transmitTails: array<nat>
    var processedDelimiter: nat
    var receiveTail: nat
    /** All that the agent and the card have done; the card's moves are read off it. */
    var world: State
    var clock: nat

    ghost predicate Separate() {
      && lengths != transmitHeads && lengths != transmitTails && transmitHeads != transmitTails
    }

    /** The shared memory and the registers hold what the state machine says. */
    ghost predicate Matches()
      reads this`world, this`receiveTail, buffer, rings, lengths, transmitHeads, transmitTails
    {
      && buffer[..] == world.m.buffer && lengths[..] == world.m.lengths
      && transmitHeads[..] == world.m.writtenHeads && transmitTails[..] == world.m.transmitTails
      && receiveTail == world.m.receiveTail
      && rings.Length0 == |world.m.rings| && rings.Length1 == RING_SIZE
      && (forall n: nat :: n < rings.Length0 ==> |world.m.rings[n]| == RING_SIZE)
      && forall n: nat, i: nat :: n < rings.Length0 && i < RING_SIZE ==> rings[n, i] == world.m.rings[n][i]
    }

    /** Between any two accesses, the agent and the card are in a state that the state machine can reach. */
    ghost predicate Shared()
      reads this`world, this`receiveTail, buffer, rings, lengths, transmitHeads, transmitTails
    {
      Separate() && Matches() && Reachable(world)
    }

    ghost predicate Valid()
      reads this`world, this`receiveTail, this`processedDelimiter, buffer, rings, lengths, transmitHeads, transmitTails
    {
      Shared() && processedDelimiter == world.m.delimiter
    }

    constructor (outputs: nat, handler: (Bytes, nat, nat) -> (Bytes, map<nat, nat>), card: nat -> seq<Event>)
      requires outputs > 0
      ensures Valid() && Initial(world) && rings.Length0 == outputs
    {
      this.handler, this.card := handler, card;
      buffer := new Bytes[RING_SIZE](_ => []);
      rings := new Descriptor[outputs, RING_SIZE]((_, _) => Descriptor(0, false));
      lengths := new nat[outputs](_ => 0);
      transmitHeads := new nat[outputs](_ => 0);
      transmitTails := new nat[outputs](_ => 0);
      processedDelimiter, receiveTail, clock := 0, RING_SIZE - 1, 0;
      world := Start(outputs);
      new;
      assert Path(world, [], world);
    }

    /** One move of the card, as far as the agent can see it. */
    method CardMove(e: Event)
      requires Shared() && Shape(world) && IsCardMove(world, e)
      modifies this`world, buffer, rings, transmitHeads
      ensures Shared() && world == Step(old(world), e) && OnlyCardMoved(old(world), world)
    {
      hide Reachable, Wrap;
      ReachableShape(world);
      ReachableStep(world, e);
      var slot := world.m.receiveHead;
      world := Step(world, e);
      match e
      case CardReceives(frame) =>
        buffer[slot] := frame.data;
        rings[0, slot] := Descriptor(frame.length, true);
      case CardReportsHead(n, head) =>
        transmitHeads[n] := Wrap(head);
      case _ =>
    }

    /** The card makes those of its moves that it can make. */
    method CardMoves()
      requires Shared()
      modifies this`world, this`clock, buffer, rings, transmitHeads
      ensures Shared() && Shape(world) && OnlyCardMoved(old(world), world)
    {
      hide Matches, Reachable, Shape, Enabled, Step;
      ReachableShape(world);
      var moves := card(clock);
      clock := clock + 1;
      for i := 0 to |moves|
        invariant Shared() && Shape(world) && OnlyCardMoved(old(world), world)
      {
        if IsCardMove(world, moves[i]) {
          CardMove(moves[i]);
          ReachableShape(world);
        }
      }
    }

    /** Reads the next slot's metadata. */
    method ReadMetadata() returns (metadata: Descriptor)
      requires Valid() && world.m.pc.Poll?
      modifies this`world, this`clock, buffer, rings, transmitHeads
      ensures Valid() && world.m.flushCounter == old(world.m.flushCounter)
      ensures world.h.handled == old(world.h.handled) && world.h.flushed == old(world.h.flushed)
      ensures |old(world.h.received)| <= |world.h.received|
      ensures metadata.done <==> |world.h.handled| < |world.h.received|
      ensures world.m.pc == if metadata.done then Call(metadata.length)
                            else if world.m.flushCounter != 0 then Flush(0) else Poll
    {
      CardMoves();
      hide Reachable, Wrap;
      ReachableShape(world);
      ReachableStep(world, AgentStep);
      DoneWhenWaiting(world);
      metadata := rings[0, processedDelimiter];
      world := Step(world, AgentStep);
    }

    method SetLengths(choice: map<nat, nat>)
      modifies lengths
      ensures lengths[..] == seq(lengths.Length, n requires 0 <= n < lengths.Length =>
                                                   if n in choice then choice[n] else old(lengths[n]))
    {
      var n := 0;
      while n < lengths.Length
        invariant n <= lengths.Length
        invariant forall i: nat :: i < lengths.Length ==>
                    lengths[i] == if i < n && i in choice then choice[i] else old(lengths[i])
      {
        if n in choice {
          lengths[n] := choice[n];
        }
        n := n + 1;
      }
    }

    /** What was made of a packet is what the handler makes of its bytes and length, at some time. */
    ghost predicate MadeByHandler(o: Outcome, outputs: nat) {
      exists time: nat :: MadeAt(o, outputs, time)
    }

    ghost predicate MadeAt(o: Outcome, outputs: nat, time: nat) {
      var (data, choice) := handler(o.input.data, o.input.length, time);
      o.data == data && o.lengths == ChosenLengths(choice, outputs)
    }

    /** The handler made what was made of the packets from the `n`th on. */
    ghost predicate AllMade(handled: seq<Outcome>, n: nat) {
      forall k: nat :: n <= k < |handled| ==> MadeByHandler(handled[k], rings.Length0)
    }

    /** From the `n`th on, the packets handled are those received, and the handler made of them what was made. */
    ghost predicate HandledSince(n: nat)
      reads this`world
    {
      && AllMade(world.h.handled, n) && |world.h.handled| <= |world.h.received|
      && forall k: nat :: n <= k < |world.h.handled| ==> world.h.handled[k].input == world.h.received[k]
    }

    lemma MadeOfReceived(n: nat)
      requires Reachable(world) && AllMade(world.h.handled, n)
      ensures HandledSince(n)
    {
      hide Reachable, MadeByHandler;
      HandledReceived(world);
      forall k: nat | n <= k < |world.h.handled|
        ensures world.h.handled[k].input == world.h.received[k]
      {
        HandledInOrder(world, k);
      }
    }

    lemma OneMoreMade(before: seq<Outcome>, after: seq<Outcome>, n: nat)
      requires n <= |before| && AllMade(before, n) && AllMade(after, |before|) && before <= after
      ensures AllMade(after, n)
    {
      hide MadeByHandler;
      assert forall k: nat :: k < |before| ==> after[k] == before[k];
    }

    /** Runs the handler on the packet in place, which sets the lengths of the outputs it chooses. */
    method CallHandler(length: nat)
      requires Valid() && world.m.pc == Call(length)
      modifies this`world, this`clock, buffer, rings, transmitHeads, lengths
      ensures |old(world.h.received)| <= |world.h.received|
      ensures Valid() && world.m.pc == Write(0) && world.m.flushCounter == old(world.m.flushCounter)
      ensures world.h.processed == old(world.h.processed) && |world.h.handled| == |old(world.h.handled)| + 1
      ensures old(world.h.handled) <= world.h.handled && HandledSince(|old(world.h.handled)|)
    {
      hide Matches, Reachable, Wrap, Step;
      CardMoves();
      HandleNow(length);
      MadeOfReceived(|old(world.h.handled)|);
    }

    method HandleNow(length: nat)
      requires Valid() && Shape(world) && world.m.pc == Call(length)
      modifies this`world, buffer, lengths
      ensures Valid() && world.m.pc == Write(0) && world.m.flushCounter == old(world.m.flushCounter)
      ensures world.h.processed == old(world.h.processed) && world.h.received == old(world.h.received)
      ensures |world.h.handled| == |old(world.h.handled)| + 1 && old(world.h.handled) <= world.h.handled
      ensures MadeByHandler(world.h.handled[|old(world.h.handled)|], rings.Length0)
    {
      hide Reachable, Wrap;
      ghost var time := clock;
      var (data, choice) := handler(buffer[processedDelimiter], length, clock);
      ReachableStep(world, HandlerStep(data, choice));
      SetLengths(choice);
      buffer[processedDelimiter] := data;
      world := Step(world, HandlerStep(data, choice));
      assert MadeAt(world.h.handled[|old(world.h.handled)|], rings.Length0, time);
    }

    /** Writes one output's descriptor and resets its length. */
    method WriteDescriptor(n: nat)
      requires Valid() && world.m.pc == Write(n)
      modifies this`world, this`clock, buffer, rings, transmitHeads, lengths
      ensures |old(world.h.received)| <= |world.h.received|
      ensures Shared() && n < rings.Length0 && world.h.handled == old(world.h.handled)
      ensures Written(n, old(world.h.processed), old(world.m.flushCounter))
    {
      hide Matches, Reachable, Wrap, Step;
      CardMoves();
      WriteNow(n);
    }

    /** Where writing output `n`'s descriptor leads: to the next output, or past the last one, maybe to a scan. */
    ghost predicate Written(n: nat, processed: nat, flushCounter: nat)
      reads this`world, this`processedDelimiter
    {
      if n + 1 < rings.Length0 then
        && world.m.delimiter == processedDelimiter && world.h.processed == processed
        && world.m.pc == Write(n + 1) && world.m.flushCounter == flushCounter
      else
        && world.m.delimiter == Wrap(processedDelimiter + 1) && world.h.processed == processed + 1
        && if processedDelimiter % RECYCLE_PERIOD == RECYCLE_PERIOD - 1 then
             world.m.pc == Scan(0, world.m.delimiter, WORD - 1) && world.m.flushCounter == flushCounter
           else Iterated(flushCounter)
    }

    method WriteNow(n: nat)
      requires Valid() && Shape(world) && world.m.pc == Write(n)
      modifies this`world, rings, lengths
      ensures Shared() && n < rings.Length0 && world.h.handled == old(world.h.handled)
      ensures world.h.received == old(world.h.received)
      ensures Written(n, old(world.h.processed), old(world.m.flushCounter))
    {
      hide Reachable, Wrap;
      ReachableStep(world, AgentStep);
      rings[n, processedDelimiter] := Descriptor(lengths[n], false);
      lengths[n] := 0;
      world := Step(world, AgentStep);
    }

    /** An iteration of the loop has ended: the next one polls, unless it is time to flush. */
    ghost predicate Iterated(flushCounter: nat)
      reads this`world
    {
      && world.m.flushCounter == flushCounter + 1
      && world.m.pc == if flushCounter + 1 == FLUSH_PERIOD then Flush(0) else Poll
    }

    /** Reads the head last written back for one output. */
    method ReadHead(n: nat, earliest: nat, minDiff: nat) returns (head: nat)
      requires Valid() && world.m.pc == Scan(n, earliest, minDiff)
      modifies this`world, this`clock, buffer, rings, transmitHeads
      ensures |old(world.h.received)| <= |world.h.received|
      ensures Valid() && n < rings.Length0 && world.m.flushCounter == old(world.m.flushCounter)
      ensures world.h.handled == old(world.h.handled) && world.h.processed == old(world.h.processed)
      ensures var diff := Diff(head, processedDelimiter);
              var better := diff <= minDiff;
              world.m.pc == if n + 1 < rings.Length0
                            then Scan(n + 1, if better then head else earliest, if better then diff else minDiff)
                            else Recycle(if better then head else earliest)
    {
      CardMoves();
      hide Reachable, Wrap;
      ReachableShape(world);
      ReachableStep(world, AgentStep);
      head := transmitHeads[n];
      world := Step(world, AgentStep);
    }

    method WriteReceiveTail(earliest: nat)
      requires Valid() && world.m.pc == Recycle(earliest)
      modifies this`world, this`clock, this`receiveTail, buffer, rings, transmitHeads
      ensures |old(world.h.received)| <= |world.h.received|
      ensures Valid() && Iterated(old(world.m.flushCounter)) && receiveTail == (earliest - 1) % RING_SIZE
      ensures world.h.handled == old(world.h.handled) && world.h.processed == old(world.h.processed)
    {
      CardMoves();
      hide Reachable, Wrap;
      ReachableShape(world);
      ReachableStep(world, AgentStep);
      receiveTail := (earliest - 1) % RING_SIZE;
      world := Step(world, AgentStep);
    }

    method WriteTransmitTail(n: nat)
      requires Valid() && world.m.pc == Flush(n)
      modifies this`world, this`clock, buffer, rings, transmitHeads, transmitTails
      ensures |old(world.h.received)| <= |world.h.received|
      ensures Valid() && n < rings.Length0 == |world.h.flushed| == |old(world.h.flushed)|
      ensures world.h.flushed == old(world.h.flushed)[n := world.h.processed]
      ensures world.h.handled == old(world.h.handled) && world.h.processed == old(world.h.processed)
      ensures if n + 1 < rings.Length0 then world.m.pc == Flush(n + 1)
              else world.m.pc == Poll && world.m.flushCounter == 0
    {
      CardMoves();
      hide Reachable, Wrap;
      ReachableShape(world);
      ReachableStep(world, AgentStep);
      transmitTails[n] := processedDelimiter;
      world := Step(world, AgentStep);
    }

    /** Writes every output's descriptor, then moves the delimiter on; reports whether it is time to recycle. */
    method WriteDescriptors() returns (recycle: bool)
      requires Valid() && world.m.pc == Write(0)
      modifies this`world, this`clock, this`processedDelimiter, buffer, rings, transmitHeads, lengths
      ensures |old(world.h.received)| <= |world.h.received|
      ensures Valid() && world.h.handled == old(world.h.handled)
      ensures if recycle then world.m.pc == Scan(0, processedDelimiter, WORD - 1)
                              && world.m.flushCounter == old(world.m.flushCounter)
              else Iterated(old(world.m.flushCounter))
    {
      hide Matches, Reachable, Wrap;
      ReachableShape(world);
      OutputsMatch();
      recycle := processedDelimiter % RECYCLE_PERIOD == RECYCLE_PERIOD - 1;
      var n := 0;
      while n < rings.Length0
        invariant n <= rings.Length0 && Shared() && world.h.handled == old(world.h.handled)
        invariant processedDelimiter == old(processedDelimiter) && |old(world.h.received)| <= |world.h.received|
        invariant n < rings.Length0 ==>
                    Valid() && world.m.pc == Write(n) && world.m.flushCounter == old(world.m.flushCounter)
        invariant n == rings.Length0 ==>
                    && world.m.delimiter == Wrap(processedDelimiter + 1)
                    && if recycle then world.m.pc == Scan(0, world.m.delimiter, WORD - 1)
                                       && world.m.flushCounter == old(world.m.flushCounter)
                       else Iterated(old(world.m.flushCounter))
      {
        WriteDescriptor(n);
        n := n + 1;
      }
      processedDelimiter := Wrap(processedDelimiter + 1);
    }

    lemma OutputsMatch()
      requires Shared() && Shape(world)
      ensures rings.Length0 == |world.m.rings| > 0
    {
    }

    /** Opens for receiving the slots that every output has sent: up to just behind the earliest head. */
    method RecycleSlots()
      requires Valid() && world.m.pc == Scan(0, processedDelimiter, WORD - 1)
      modifies this`world, this`clock, this`receiveTail, buffer, rings, transmitHeads
      ensures |old(world.h.received)| <= |world.h.received|
      ensures Valid() && Iterated(old(world.m.flushCounter)) && world.h.handled == old(world.h.handled)
    {
      hide Matches, Reachable;
      ReachableShape(world);
      OutputsMatch();
      var earliest: nat, minDiff: nat := processedDelimiter, WORD - 1;
      var n := 0;
      while n < rings.Length0
        invariant n <= rings.Length0 && Valid()
        invariant world.h.handled == old(world.h.handled) && world.m.flushCounter == old(world.m.flushCounter)
        invariant |old(world.h.received)| <= |world.h.received|
        invariant world.m.pc == if n < rings.Length0 then Scan(n, earliest, minDiff) else Recycle(earliest)
      {
        var head := ReadHead(n, earliest, minDiff);
        var diff := Diff(head, processedDelimiter);
        if diff <= minDiff {
          earliest, minDiff := head, diff;
        }
        n := n + 1;
      }
      WriteReceiveTail(earliest);
    }

    /** Hands everything processed to the card, on every output. */
    method FlushOutputs()
      requires Valid() && world.m.pc == Flush(0)
      modifies this`world, this`clock, buffer, rings, transmitHeads, transmitTails
      ensures |old(world.h.received)| <= |world.h.received|
      ensures Valid() && world.m.pc == Poll && world.m.flushCounter == 0 && world.h.handled == old(world.h.handled)
      ensures |world.h.flushed| == rings.Length0
      ensures forall n: nat :: n < rings.Length0 ==> world.h.flushed[n] == |world.h.handled|
    {
      hide Matches, Reachable;
      ReachableShape(world);
      OutputsMatch();
      AllProcessed(world);
      var n := 0;
      while n < rings.Length0
        invariant n <= rings.Length0 == |world.h.flushed| && Valid()
        invariant world.h.handled == old(world.h.handled) && world.h.processed == |world.h.handled|
        invariant |old(world.h.received)| <= |world.h.received|
        invariant forall i: nat :: i < n ==> world.h.flushed[i] == |world.h.handled|
        invariant if n < rings.Length0 then world.m.pc == Flush(n) else world.m.pc == Poll && world.m.flushCounter == 0
      {
        WriteTransmitTail(n);
        n := n + 1;
      }
    }

    /**
     One call of the loop: it handles a full flush period of packets, or else fewer but all those that had arrived
     when it was called; each is given to the handler as it was received. If it handles any,
     then by the end all handled so far are handed to the card on every output.
     */
    method RunPeragent()
      requires Valid() && world.m.pc == Poll && world.m.flushCounter == 0
      modifies this, buffer, rings, transmitHeads, lengths, transmitTails
      ensures Valid() && world.m.pc == Poll && world.m.flushCounter == 0
      ensures old(world.h.handled) <= world.h.handled && HandledSince(|old(world.h.handled)|)
      ensures |world.h.handled| <= |old(world.h.handled)| + FLUSH_PERIOD
      ensures |world.h.handled| == |old(world.h.handled)| + FLUSH_PERIOD || |world.h.handled| >= |old(world.h.received)|
      ensures world.h.handled != old(world.h.handled) ==>
                forall n: nat :: n < rings.Length0 && n < |world.h.flushed| ==> world.h.flushed[n] == |world.h.handled|
    {
      hide Matches, Reachable, AllMade;
      NoneMade(world.h.handled);
      var flushCounter := 0;
      while flushCounter < FLUSH_PERIOD
        invariant flushCounter <= FLUSH_PERIOD && Valid() && world.m.flushCounter == flushCounter
        invariant world.m.pc == if flushCounter == FLUSH_PERIOD then Flush(0) else Poll
        invariant old(world.h.handled) <= world.h.handled && AllMade(world.h.handled, |old(world.h.handled)|)
        invariant |world.h.handled| == |old(world.h.handled)| + flushCounter
        invariant |old(world.h.received)| <= |world.h.received|
      {
        var metadata := ReadMetadata();
        if !metadata.done {
          break;
        }
        ghost var before := world;
        CallHandler(metadata.length);
        OneMoreMade(before.h.handled, world.h.handled, |old(world.h.handled)|);
        var recycle := WriteDescriptors();
        if recycle {
          RecycleSlots();
        }
        flushCounter := flushCounter + 1;
      }
      if flushCounter != 0 {
        FlushOutputs();
      }
      MadeOfReceived(|old(world.h.handled)|);
    }

    lemma NoneMade(handled: seq<Outcome>)
      ensures AllMade(handled, |handled|)
    {
    }
  }
}
