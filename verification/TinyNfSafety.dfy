/** The invariant of the shared rings, and what it means for packets: every output is a faithful queue. */
module TinyNfSafety {
  import opened TinyNf

  /** How many descriptors of output `n` are written, counting from the first packet. */
  function Written(s: State, n: nat): nat {
    s.h.processed + if s.m.pc.Write? && n < s.m.pc.n then 1 else 0
  }

  /** The order of the unwrapped counters, for every output. */
  ghost predicate Counters(s: State)
    requires Shape(s)
  {
    var h := s.h;
    && |h.handled| == h.processed + (if s.m.pc.Write? then 1 else 0)
    && |h.handled| <= |h.received| <= h.limit
    && (s.m.pc.Call? ==> h.processed < |h.received|)
    && forall n: nat :: n < |s.m.rings| ==>
         h.reported[n] <= |h.sent[n]| <= h.flushed[n] <= h.processed && h.limit <= h.reported[n] + RING_SIZE - 1
  }

  /** Every machine position is its unwrapped counter modulo the ring size. */
  ghost predicate Registers(s: State)
    requires Shape(s)
  {
    var m, h := s.m, s.h;
    && m.delimiter == Wrap(h.processed)
    && m.receiveHead == Wrap(|h.received|)
    && m.receiveTail == Wrap(h.limit)
    && forall n: nat :: n < |m.rings| ==>
         && m.transmitTails[n] == Wrap(h.flushed[n])
         && m.transmitHeads[n] == Wrap(|h.sent[n]|)
         && m.writtenHeads[n] == Wrap(h.reported[n])
  }

  /** The oldest position whose buffer may still be needed. */
  function Low(s: State): int {
    s.h.limit - (RING_SIZE - 1)
  }

  /** Buffers hold the packets received, and once handled what the handler made of them. */
  ghost predicate Buffers(s: State)
    requires Shape(s)
  {
    && |s.h.handled| <= |s.h.received|
    && forall k: nat :: Low(s) <= k < |s.h.received| ==>
         s.m.buffer[Wrap(k)] == if k < |s.h.handled| then s.h.handled[k].data else s.h.received[k].data
  }

  /** Written descriptors hold the lengths the handler chose. */
  ghost predicate Queued(s: State)
    requires Shape(s)
  {
    && |s.h.handled| == s.h.processed + (if s.m.pc.Write? then 1 else 0)
    && (forall k: nat :: k < |s.h.handled| ==> |s.h.handled[k].lengths| == |s.m.rings|)
    && forall n: nat, k: nat :: n < |s.m.rings| && Low(s) <= k < Written(s, n) ==>
         s.m.rings[n][Wrap(k)] == Descriptor(s.h.handled[k].lengths[n], false)
  }

  /** Received descriptors hold the received lengths and are flagged done, and no others are. */
  ghost predicate Pending(s: State)
    requires Shape(s)
  {
    && (forall k: nat :: Written(s, 0) <= k < |s.h.received| ==>
         s.m.rings[0][Wrap(k)] == Descriptor(s.h.received[k].length, true))
    && (forall k: nat :: |s.h.received| <= k < Written(s, 0) + RING_SIZE ==> !s.m.rings[0][Wrap(k)].done)
  }

  /** Output lengths are zero whenever the handler may be called, and hold its choices while they are being written. */
  ghost predicate Lengths(s: State)
    requires Shape(s)
  {
    && (s.m.pc.Call? && s.h.processed < |s.h.received| ==> s.m.pc.length == s.h.received[s.h.processed].length)
    && if s.m.pc.Write? then
         && s.h.processed < |s.h.handled| && |s.h.handled[s.h.processed].lengths| == |s.m.rings|
         && forall n: nat :: n < |s.m.rings| ==>
              s.m.lengths[n] == if n < s.m.pc.n then 0 else s.h.handled[s.h.processed].lengths[n]
       else forall n: nat :: n < |s.m.rings| ==> s.m.lengths[n] == 0
  }

  /** The handler was given what was received, and outputs sent what it asked for. */
  ghost predicate Logs(s: State)
    requires Shape(s)
  {
    && |s.h.handled| <= |s.h.received|
    && (forall k: nat :: k < |s.h.handled| ==>
         s.h.handled[k].input == s.h.received[k] && |s.h.handled[k].lengths| == |s.m.rings|)
    && forall n: nat :: n < |s.m.rings| ==>
         && |s.h.sent[n]| <= |s.h.handled|
         && forall k: nat :: k < |s.h.sent[n]| ==>
              s.h.sent[n][k] == Frame(s.h.handled[k].data, s.h.handled[k].lengths[n])
  }

  /** The head kept by a scan of the first `n` outputs is at most each of theirs, recent, and behind the delimiter. */
  ghost predicate OldestOf(s: State, earliest: nat, n: nat)
    requires Shape(s)
  {
    && earliest == Wrap(s.h.oldest)
    && s.h.oldest < s.h.processed && s.h.limit <= s.h.oldest + RING_SIZE - 1
    && forall i: nat :: i < n && i < |s.m.rings| ==> s.h.oldest <= s.h.reported[i]
  }

  ghost predicate Scanning(s: State)
    requires Shape(s)
  {
    match s.m.pc
    case Scan(n, earliest, minDiff) =>
      && (forall i: nat :: i < |s.m.rings| ==> s.h.flushed[i] < s.h.processed)
      && if n == 0 then minDiff == WORD - 1
         else OldestOf(s, earliest, n) && minDiff == Diff(earliest, s.m.delimiter)
    case Recycle(earliest) => OldestOf(s, earliest, |s.m.rings|)
    case _ => true
  }

  ghost predicate Inv(s: State) {
    && Shape(s) && Counters(s) && Registers(s) && Buffers(s) && Queued(s) && Pending(s) && Lengths(s) && Logs(s)
    && Scanning(s)
  }

  lemma WrapDistinct(j: nat, k: nat)
    requires j < k < j + RING_SIZE
    ensures Wrap(j) != Wrap(k)
  {
  }

  lemma WrapNext(k: nat)
    ensures Wrap(Wrap(k) + 1) == Wrap(k + 1)
  {
  }

  lemma WrapPeriod(k: nat)
    ensures Wrap(k + RING_SIZE) == Wrap(k)
  {
  }

  /** Positions less than a ring apart have different slots. */
  lemma WindowDistinct(low: int)
    ensures forall j: nat, k: nat :: low <= j < k < low + RING_SIZE ==> Wrap(j) != Wrap(k)
  {
  }

  lemma InitialInv(s: State)
    requires Initial(s)
    ensures Inv(s)
  {
  }

  lemma StepShape(s: State, e: Event)
    requires Shape(s) && Enabled(s, e)
    ensures Shape(Step(s, e)) && |Step(s, e).m.rings| == |s.m.rings|
  {
  }

  /** A head that has not met its tail is strictly behind it. */
  lemma NotMet(head: nat, tail: nat)
    requires head <= tail && Wrap(head) != Wrap(tail)
    ensures head < tail
  {
  }

  /** The wrapped distance in terms of the unwrapped lag, which never is a multiple of the ring size. */
  lemma DiffOfLag(a: nat, processed: nat)
    requires a < processed < a + RING_SIZE
    ensures var lag, at := processed - a, Wrap(processed);
            Diff(Wrap(a), at) == if lag <= at then WORD - lag else RING_SIZE - lag
  {
    hide Wrap;
    WrapLag(a, processed - a);
  }

  lemma WrapLag(a: nat, lag: nat)
    requires 0 < lag < RING_SIZE
    ensures Wrap(a) == if lag <= Wrap(a + lag) then Wrap(a + lag) - lag else Wrap(a + lag) + RING_SIZE - lag
  {
  }

  /** For heads less than a ring behind the delimiter, the least wrapped distance belongs to the oldest. */
  lemma LeastDiffIsOldest(a: nat, b: nat, processed: nat)
    requires a < processed < a + RING_SIZE && b < processed < b + RING_SIZE
    ensures Diff(Wrap(a), Wrap(processed)) <= Diff(Wrap(b), Wrap(processed)) <==> a <= b
  {
    hide Diff, Wrap;
    DiffOfLag(a, processed);
    DiffOfLag(b, processed);
  }

  /** The facts about positions that every step needs. */
  lemma Positions(s: State)
    requires Shape(s) && Counters(s)
    ensures Low(s) <= |s.h.sent[0]| <= s.h.processed <= |s.h.handled| <= |s.h.received| <= s.h.limit
    ensures s.h.limit == Low(s) + RING_SIZE - 1
    ensures s.h.processed <= Written(s, 0) <= |s.h.handled|
  {
    assert s.h.reported[0] <= |s.h.sent[0]|;
  }

  /** Steps that touch neither memory nor what was received and handled keep what memory holds. */
  lemma SameMemory(s: State, t: State)
    requires Inv(s) && Shape(t)
    requires t.m.buffer == s.m.buffer && t.m.rings == s.m.rings && t.m.lengths == s.m.lengths
    requires t.h.received == s.h.received && t.h.handled == s.h.handled && t.h.processed == s.h.processed
    requires t.h.limit >= s.h.limit
    requires t.m.pc == s.m.pc || (!s.m.pc.Write? && !t.m.pc.Write? && !t.m.pc.Call?)
    ensures Buffers(t) && Queued(t) && Pending(t) && Lengths(t)
  {
    hide Wrap, Diff, Registers, Logs, Scanning;
  }

  lemma CardReceivesBuffers(s: State, frame: Frame)
    requires Inv(s) && |s.h.received| < s.h.limit
    ensures Buffers(ReceiveStep(s, frame))
  {
    hide Wrap;
    Positions(s);
    WindowDistinct(Low(s));
  }

  lemma CardReceivesQueued(s: State, frame: Frame)
    requires Inv(s) && |s.h.received| < s.h.limit
    ensures Queued(ReceiveStep(s, frame))
  {
    hide Wrap;
    Positions(s);
    WindowDistinct(Low(s));
  }

  lemma CardReceivesPending(s: State, frame: Frame)
    requires Inv(s) && |s.h.received| < s.h.limit
    ensures Pending(ReceiveStep(s, frame))
  {
    hide Wrap, Diff, Buffers, Queued, Lengths, Logs, Scanning;
    Positions(s);
    WindowDistinct(Low(s));
    WindowDistinct(|s.h.received|);
  }

  lemma CardReceivesCounters(s: State, frame: Frame)
    requires Inv(s) && |s.h.received| < s.h.limit
    ensures Counters(ReceiveStep(s, frame)) && Registers(ReceiveStep(s, frame)) && Scanning(ReceiveStep(s, frame))
  {
    hide Wrap, Diff, Buffers, Queued, Pending, Lengths, Logs;
    WrapNext(|s.h.received|);
  }

  lemma CardReceivesKeeps(s: State, frame: Frame)
    requires Inv(s) && Enabled(s, CardReceives(frame))
    ensures Inv(ReceiveStep(s, frame))
  {
    NotMet(|s.h.received|, s.h.limit);
    CardReceivesCounters(s, frame);
    CardReceivesBuffers(s, frame);
    CardReceivesQueued(s, frame);
    CardReceivesPending(s, frame);
    hide Wrap, Diff, Counters, Buffers, Queued, Pending, Scanning;
  }

  lemma CardTransmitsLogs(s: State, n: nat)
    requires Inv(s) && n < |s.m.rings| && |s.h.sent[n]| < s.h.flushed[n]
    ensures Logs(TransmitStep(s, n))
  {
    hide Wrap, Diff, Pending, Scanning, Lengths;
    Positions(s);
    assert Low(s) <= |s.h.sent[n]|;
  }

  lemma CardTransmitsCounters(s: State, n: nat)
    requires Inv(s) && n < |s.m.rings| && |s.h.sent[n]| < s.h.flushed[n]
    ensures Counters(TransmitStep(s, n)) && Registers(TransmitStep(s, n)) && Scanning(TransmitStep(s, n))
  {
    hide Wrap, Diff, Buffers, Queued, Pending, Lengths, Logs;
    WrapNext(|s.h.sent[n]|);
  }

  lemma CardTransmitsKeeps(s: State, n: nat)
    requires Inv(s) && Enabled(s, CardTransmits(n))
    ensures Inv(TransmitStep(s, n))
  {
    NotMet(|s.h.sent[n]|, s.h.flushed[n]);
    CardTransmitsCounters(s, n);
    CardTransmitsLogs(s, n);
    SameMemory(s, TransmitStep(s, n));
    hide Wrap, Diff, Counters, Registers, Buffers, Queued, Pending, Lengths, Logs, Scanning;
  }

  lemma ReportCounters(s: State, n: nat, head: nat)
    requires Inv(s) && Enabled(s, CardReportsHead(n, head))
    ensures Counters(ReportStep(s, n, head)) && Registers(ReportStep(s, n, head))
  {
    hide Wrap, Diff, Buffers, Queued, Pending, Lengths, Logs, Scanning;
  }

  lemma CardReportsHeadKeeps(s: State, n: nat, head: nat)
    requires Inv(s) && Enabled(s, CardReportsHead(n, head))
    ensures Inv(ReportStep(s, n, head))
  {
    SameMemory(s, ReportStep(s, n, head));
    ReportCounters(s, n, head);
    hide Wrap, Diff, Counters, Registers, Buffers, Queued, Pending, Lengths, WORD;
  }

  lemma HandlerBuffers(s: State, data: Bytes, choice: map<nat, nat>)
    requires Inv(s) && s.m.pc.Call?
    ensures Buffers(HandlerStepOf(s, data, choice))
  {
    hide Wrap, Diff, Queued, Pending, Logs, Lengths, Scanning;
    Positions(s);
    WindowDistinct(Low(s));
  }

  lemma HandlerLogs(s: State, data: Bytes, choice: map<nat, nat>)
    requires Inv(s) && s.m.pc.Call?
    ensures Logs(HandlerStepOf(s, data, choice))
  {
    hide Wrap, Diff, Pending, Queued, Scanning;
    Positions(s);
  }

  lemma HandlerLengths(s: State, data: Bytes, choice: map<nat, nat>)
    requires Inv(s) && s.m.pc.Call?
    ensures Lengths(HandlerStepOf(s, data, choice))
  {
    hide Wrap, Diff, Registers, Buffers, Pending, Queued, Logs, Scanning;
  }

  lemma HandlerQueued(s: State, data: Bytes, choice: map<nat, nat>)
    requires Inv(s) && s.m.pc.Call?
    ensures Queued(HandlerStepOf(s, data, choice))
  {
    hide Wrap, Diff, Registers, Buffers, Pending, Lengths, Logs, Scanning;
  }

  lemma HandlerPending(s: State, data: Bytes, choice: map<nat, nat>)
    requires Inv(s) && s.m.pc.Call?
    ensures Pending(HandlerStepOf(s, data, choice))
  {
    hide Wrap, Diff, Registers, Buffers, Queued, Lengths, Logs, Scanning;
  }

  lemma HandlerKeeps(s: State, data: Bytes, choice: map<nat, nat>)
    requires Inv(s) && Enabled(s, HandlerStep(data, choice))
    ensures Inv(HandlerStepOf(s, data, choice))
  {
    Positions(s);
    HandlerBuffers(s, data, choice);
    HandlerLogs(s, data, choice);
    HandlerLengths(s, data, choice);
    HandlerQueued(s, data, choice);
    HandlerPending(s, data, choice);
    hide Wrap, Diff, Buffers, Logs, Lengths, Queued, Pending, ChosenLengths;
  }

  lemma PollKeeps(s: State)
    requires Inv(s) && s.m.pc.Poll?
    ensures Inv(AgentStepOf(s))
  {
    hide Wrap, Diff;
    Positions(s);
  }

  lemma WriteQueued(s: State)
    requires Inv(s) && s.m.pc.Write?
    ensures Queued(WriteStep(s))
  {
    hide Wrap, Diff, Buffers, Pending, Logs, Scanning;
    Positions(s);
    WindowDistinct(Low(s));
  }

  lemma WriteLengths(s: State)
    requires Inv(s) && s.m.pc.Write?
    ensures Lengths(WriteStep(s))
  {
    hide Wrap, Diff, Registers, Buffers, Queued, Pending, Logs, Scanning;
  }

  /**
   On the ring shared with receiving, only output 0's write changes a flag: it clears its own slot's, which was set.
   */
  lemma WriteClearsOwnFlag(s: State, slot: nat)
    requires Inv(s) && s.m.pc.Write? && slot < RING_SIZE
    ensures var own := s.m.pc.n == 0 && slot == s.m.delimiter;
            && (own ==> s.m.rings[0][slot].done)
            && (WriteStep(s).m.rings[0][slot].done <==> s.m.rings[0][slot].done && !own)
  {
    hide Diff, Buffers, Queued, Lengths, Logs, Scanning;
    Positions(s);
    var p := s.h.processed;
    if s.m.pc.n == 0 {
      assert s.m.rings[0][Wrap(p)].done;
    }
  }

  lemma WritePending(s: State)
    requires Inv(s) && s.m.pc.Write?
    ensures Pending(WriteStep(s))
  {
    hide Wrap, Diff, Buffers, Queued, Logs, Lengths, Scanning;
    Positions(s);
    WrapPeriod(s.h.processed);
    if s.m.pc.n == 0 {
      WindowDistinct(Low(s));
      WindowDistinct(s.h.processed);
    }
  }

  lemma WriteCounters(s: State)
    requires Inv(s) && s.m.pc.Write?
    ensures Counters(WriteStep(s)) && Registers(WriteStep(s)) && Scanning(WriteStep(s))
  {
    hide Wrap, Diff, Buffers, Queued, Pending, Lengths, Logs;
    WrapNext(s.h.processed);
  }

  lemma WriteBuffers(s: State)
    requires Inv(s) && s.m.pc.Write?
    ensures Buffers(WriteStep(s)) && Logs(WriteStep(s))
  {
    hide Wrap, Diff, Queued, Pending, Lengths, Scanning, Registers;
  }

  lemma WriteKeeps(s: State)
    requires Inv(s) && s.m.pc.Write?
    ensures Inv(WriteStep(s))
  {
    WriteCounters(s);
    WriteBuffers(s);
    WriteQueued(s);
    WriteLengths(s);
    WritePending(s);
    hide Wrap, Diff, Counters, Registers, Buffers, Queued, Pending, Lengths, Logs, Scanning;
  }

  lemma ScanScanning(s: State)
    requires Inv(s) && s.m.pc.Scan?
    ensures Scanning(ScanStep(s))
  {
    hide Wrap, Diff, Buffers, Queued, Pending, Lengths, Logs;
    var n := s.m.pc.n;
    assert s.h.reported[n] < s.h.processed < s.h.reported[n] + RING_SIZE;
    if n > 0 {
      LeastDiffIsOldest(s.h.reported[n], s.h.oldest, s.h.processed);
    }
  }

  lemma ScanKeeps(s: State)
    requires Inv(s) && s.m.pc.Scan?
    ensures Inv(ScanStep(s))
  {
    ScanScanning(s);
    SameMemory(s, ScanStep(s));
    hide Wrap, Diff, Buffers, Queued, Pending, Lengths, Logs, Scanning;
  }

  lemma WrapBefore(k: nat)
    ensures (Wrap(k) - 1) % RING_SIZE == Wrap(k + RING_SIZE - 1)
  {
  }

  lemma RecycleKeeps(s: State)
    requires Inv(s) && s.m.pc.Recycle?
    ensures Inv(RecycleStep(s))
  {
    WrapBefore(s.h.oldest);
    SameMemory(s, RecycleStep(s));
    hide Wrap, Diff, Buffers, Queued, Pending, Lengths, Logs;
  }

  lemma FlushKeeps(s: State)
    requires Inv(s) && s.m.pc.Flush?
    ensures Inv(FlushStep(s))
  {
    SameMemory(s, FlushStep(s));
    hide Wrap, Diff, Buffers, Queued, Pending, Lengths, Logs;
  }

  /** Every step of the agent or of the card keeps the invariant. */
  lemma StepKeeps(s: State, e: Event)
    requires Inv(s) && Enabled(s, e)
    ensures Inv(Step(s, e))
  {
    match e
    case AgentStep =>
      match s.m.pc {
        case Poll => PollKeeps(s);
        case Write(_) => WriteKeeps(s);
        case Scan(_, _, _) => ScanKeeps(s);
        case Recycle(_) => RecycleKeeps(s);
        case Flush(_) => FlushKeeps(s);
      }
    case HandlerStep(data, choice) => HandlerKeeps(s, data, choice);
    case CardReceives(frame) => CardReceivesKeeps(s, frame);
    case CardTransmits(n) => CardTransmitsKeeps(s, n);
    case CardReportsHead(n, head) => CardReportsHeadKeeps(s, n, head);
  }
}
