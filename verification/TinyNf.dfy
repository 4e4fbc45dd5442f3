/**
 The descriptor rings that one agent shares with the network card, as a state machine.
 The agent and the card interleave at every access to shared memory or to a register. The card may receive,
 transmit, and write a transmit head back at any time, and a head written back may be out of date but never
 goes backwards. All machine positions wrap at the ring size; the history keeps the unwrapped counts.
 */
module TinyNf {
  const RING_SIZE: nat := 256
  const FLUSH_PERIOD: nat := 8
  const RECYCLE_PERIOD: nat := 64
  const WORD: nat := 0x1_0000_0000_0000_0000

  type Bytes = seq<nat>

  /** A packet as received, or as transmitted: a buffer's bytes and how many of them count. */
  datatype Frame = Frame(data: Bytes, length: nat)

  /** The second line of a descriptor: the length field and the Descriptor Done flag. */
  datatype Descriptor = Descriptor(length: nat, done: bool)

  /** Where the agent is in its loop. */
  datatype Pc =
    | Poll
    | Call(length: nat)
    | Write(n: nat)
    | Scan(n: nat, earliest: nat, minDiff: nat)
    | Recycle(earliest: nat)
    | Flush(n: nat)

  /** What the agent and the card hold; position `n` of each sequence belongs to output `n`. */
  datatype Machine = Machine(
    pc: Pc,
    delimiter: nat,
    flushCounter: nat,
    lengths: seq<nat>,
    buffer: seq<Bytes>,
    rings: seq<seq<Descriptor>>,
    writtenHeads: seq<nat>,
    receiveTail: nat,
    transmitTails: seq<nat>,
    receiveHead: nat,
    transmitHeads: seq<nat>)

  /** What the handler was given for one packet, and what it made of it. */
  datatype Outcome = Outcome(input: Frame, data: Bytes, lengths: seq<nat>)

  /**
   What happened so far, unwrapped: frames received, packets handled, frames sent per output; how many packets
   are fully processed; and the unwrapped values of each tail and of each head last written back.
   */
  datatype History = History(
    received: seq<Frame>,
    handled: seq<Outcome>,
    sent: seq<seq<Frame>>,
    processed: nat,
    flushed: seq<nat>,
    reported: seq<nat>,
    limit: nat,
    oldest: nat)

  datatype State = State(m: Machine, h: History)

  /** One step of the agent, or of the card. The handler sets the lengths of some outputs and may rewrite the packet. */
  datatype Event =
    | AgentStep
    | HandlerStep(data: Bytes, choice: map<nat, nat>)
    | CardReceives(frame: Frame)
    | CardTransmits(n: nat)
    | CardReportsHead(n: nat, head: nat)

  function Wrap(k: nat): (s: nat)
    ensures s < RING_SIZE
  {
    k % RING_SIZE
  }

  /** Both operands are widened to 64 bits before the subtraction wraps. */
  function Diff(head: nat, delimiter: nat): (d: nat)
    ensures d < WORD
  {
    (head - delimiter) % WORD
  }

  predicate Shape(s: State) {
    var m, h := s.m, s.h;
    var outputs := |m.rings|;
    && outputs > 0
    && |m.lengths| == |m.writtenHeads| == |m.transmitTails| == |m.transmitHeads| == outputs
    && |h.sent| == |h.flushed| == |h.reported| == outputs
    && |m.buffer| == RING_SIZE
    && (forall n :: 0 <= n < outputs ==> |m.rings[n]| == RING_SIZE)
    && m.delimiter < RING_SIZE && m.receiveHead < RING_SIZE && m.receiveTail < RING_SIZE
    && (forall n :: 0 <= n < outputs ==> m.transmitHeads[n] < RING_SIZE)
    && (m.pc.Write? ==> m.pc.n < outputs)
    && (m.pc.Scan? ==> m.pc.n < outputs)
    && (m.pc.Flush? ==> m.pc.n < outputs)
  }

  /** The state set up before the first packet: nothing received, and all slots but one open for receiving. */
  predicate Initial(s: State) {
    var m, h := s.m, s.h;
    && Shape(s)
    && m.pc == Poll && m.delimiter == 0 && m.flushCounter == 0
    && m.receiveHead == 0 && m.receiveTail == RING_SIZE - 1
    && (forall n :: 0 <= n < |m.rings| ==>
      && m.lengths[n] == m.writtenHeads[n] == m.transmitTails[n] == m.transmitHeads[n] == 0
      && h.sent[n] == [] && h.flushed[n] == h.reported[n] == 0
      && forall i :: 0 <= i < RING_SIZE ==> m.rings[n][i] == Descriptor(0, false))
    && h.received == [] && h.handled == [] && h.processed == 0 && h.limit == RING_SIZE - 1 && h.oldest == 0
  }

  function Start(outputs: nat): (s: State)
    requires outputs > 0
    ensures Initial(s) && |s.m.rings| == outputs
  {
    var zeros := seq(outputs, _ => 0);
    State(
      Machine(Poll, 0, 0, zeros, seq(RING_SIZE, _ => []), seq(outputs, _ => seq(RING_SIZE, _ => Descriptor(0, false))),
              zeros, RING_SIZE - 1, zeros, 0, zeros),
      History([], [], seq(outputs, _ => []), 0, zeros, zeros, RING_SIZE - 1, 0))
  }

  /** The end of one iteration of the agent's loop. */
  function NextIteration(m: Machine): Machine {
    if m.flushCounter + 1 == FLUSH_PERIOD then m.(flushCounter := m.flushCounter + 1, pc := Flush(0))
    else m.(flushCounter := m.flushCounter + 1, pc := Poll)
  }

  /** Looks at the Descriptor Done flag of the next slot. */
  function PollStep(m: Machine): Machine
    requires |m.rings| > 0 && m.delimiter < |m.rings[0]|
  {
    var metadata := m.rings[0][m.delimiter];
    if metadata.done then m.(pc := Call(metadata.length))
    else if m.flushCounter != 0 then m.(pc := Flush(0))
    else m
  }

  /** Writes one output's descriptor, which for output 0 clears the Descriptor Done flag. */
  function WriteStep(s: State): State
    requires Shape(s) && s.m.pc.Write?
  {
    var n := s.m.pc.n;
    var written := s.m.(
      rings := s.m.rings[n := s.m.rings[n][s.m.delimiter := Descriptor(s.m.lengths[n], false)]],
      lengths := s.m.lengths[n := 0]);
    if n + 1 < |s.m.rings| then s.(m := written.(pc := Write(n + 1)))
    else
      var next := written.(delimiter := Wrap(s.m.delimiter + 1));
      var h := s.h.(processed := s.h.processed + 1);
      if s.m.delimiter % RECYCLE_PERIOD == RECYCLE_PERIOD - 1 then
        State(next.(pc := Scan(0, next.delimiter, WORD - 1)), h)
      else State(NextIteration(next), h)
  }

  /** Reads one written-back head and keeps it if its wrapped distance from the delimiter is the least so far. */
  function ScanStep(s: State): State
    requires Shape(s) && s.m.pc.Scan?
  {
    var n := s.m.pc.n;
    var head := s.m.writtenHeads[n];
    var diff := Diff(head, s.m.delimiter);
    var better := diff <= s.m.pc.minDiff;
    var earliest := if better then head else s.m.pc.earliest;
    var minDiff := if better then diff else s.m.pc.minDiff;
    State(
      s.m.(pc := if n + 1 < |s.m.rings| then Scan(n + 1, earliest, minDiff) else Recycle(earliest)),
      if better then s.h.(oldest := s.h.reported[n]) else s.h)
  }

  /** Writes the receive tail, just behind the earliest head. */
  function RecycleStep(s: State): State
    requires s.m.pc.Recycle?
  {
    State(NextIteration(s.m.(receiveTail := (s.m.pc.earliest - 1) % RING_SIZE)),
          s.h.(limit := s.h.oldest + RING_SIZE - 1))
  }

  /** Writes one output's transmit tail. */
  function FlushStep(s: State): State
    requires Shape(s) && s.m.pc.Flush?
  {
    var n := s.m.pc.n;
    var m := s.m.(transmitTails := s.m.transmitTails[n := s.m.delimiter]);
    State(if n + 1 < |m.rings| then m.(pc := Flush(n + 1)) else m.(pc := Poll, flushCounter := 0),
          s.h.(flushed := s.h.flushed[n := s.h.processed]))
  }

  /** The handler sees the packet and its length; outputs it does not choose keep the length they had. */
  function HandlerStepOf(s: State, data: Bytes, choice: map<nat, nat>): State
    requires Shape(s) && s.m.pc.Call?
  {
    var lengths := seq(|s.m.lengths|, n requires 0 <= n < |s.m.lengths| =>
                                        if n in choice then choice[n] else s.m.lengths[n]);
    var outcome := Outcome(Frame(s.m.buffer[s.m.delimiter], s.m.pc.length), data, ChosenLengths(choice, |s.m.lengths|));
    State(s.m.(pc := Write(0), buffer := s.m.buffer[s.m.delimiter := data], lengths := lengths),
          s.h.(handled := s.h.handled + [outcome]))
  }

  /** The lengths a handler asks for: what it chose, and zero, a null descriptor, for every other output. */
  function ChosenLengths(choice: map<nat, nat>, outputs: nat): (lengths: seq<nat>)
    ensures |lengths| == outputs
  {
    seq(outputs, n requires 0 <= n => if n in choice then choice[n] else 0)
  }

  function AgentStepOf(s: State): State
    requires Shape(s) && !s.m.pc.Call?
  {
    match s.m.pc
    case Poll => s.(m := PollStep(s.m))
    case Write(_) => WriteStep(s)
    case Scan(_, _, _) => ScanStep(s)
    case Recycle(_) => RecycleStep(s)
    case Flush(_) => FlushStep(s)
  }

  function ReceiveStep(s: State, frame: Frame): State
    requires Shape(s)
  {
    var slot := s.m.receiveHead;
    State(
      s.m.(
        buffer := s.m.buffer[slot := frame.data],
        rings := s.m.rings[0 := s.m.rings[0][slot := Descriptor(frame.length, true)]],
        receiveHead := Wrap(slot + 1)),
      s.h.(received := s.h.received + [frame]))
  }

  function TransmitStep(s: State, n: nat): State
    requires Shape(s) && n < |s.m.rings|
  {
    var slot := s.m.transmitHeads[n];
    State(
      s.m.(transmitHeads := s.m.transmitHeads[n := Wrap(slot + 1)]),
      s.h.(sent := s.h.sent[n := s.h.sent[n] + [Frame(s.m.buffer[slot], s.m.rings[n][slot].length)]]))
  }

  function ReportStep(s: State, n: nat, head: nat): State
    requires Shape(s) && n < |s.m.rings|
  {
    State(
      s.m.(writtenHeads := s.m.writtenHeads[n := Wrap(head)]),
      s.h.(reported := s.h.reported[n := head]))
  }

  /**
   What may happen next. The card receives unless its head has reached the tail, transmits unless its head has
   reached the tail, and reports heads that are neither ahead of the real one nor behind the last one reported.
   */
  predicate Enabled(s: State, e: Event)
    requires Shape(s)
  {
    match e
    case AgentStep => !s.m.pc.Call?
    case HandlerStep(_, _) => s.m.pc.Call?
    case CardReceives(_) => s.m.receiveHead != s.m.receiveTail
    case CardTransmits(n) => n < |s.m.rings| && s.m.transmitHeads[n] != s.m.transmitTails[n]
    case CardReportsHead(n, head) => n < |s.m.rings| && s.h.reported[n] <= head <= |s.h.sent[n]|
  }

  function Step(s: State, e: Event): State
    requires Shape(s) && Enabled(s, e)
  {
    match e
    case AgentStep => AgentStepOf(s)
    case HandlerStep(data, choice) => HandlerStepOf(s, data, choice)
    case CardReceives(frame) => ReceiveStep(s, frame)
    case CardTransmits(n) => TransmitStep(s, n)
    case CardReportsHead(n, head) => ReportStep(s, n, head)
  }
}
