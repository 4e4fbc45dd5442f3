/**
 Whether the card can go on receiving. The receive tail is written only after every 64th packet, just behind the
 oldest head as reported then; if that lags too far, the next 64th packet can never arrive.
 */
module TinyNfProgress {
  import opened TinyNf
  import opened TinyNfSafety
  import opened TinyNfRuns

  predicate Looking(s: State) {
    s.m.pc.Scan? || s.m.pc.Recycle?
  }

  /** The number of packets after which heads are looked at next. */
  function Due(processed: nat): nat {
    processed / RECYCLE_PERIOD * RECYCLE_PERIOD + RECYCLE_PERIOD
  }

  /** How far the limit can have got, and how few packets can be unflushed. */
  ghost predicate Recent(s: State) {
    Shape(s) &&
    match s.m.pc
    case Scan(_, _, _) => RecentlyLooking(s)
    case Recycle(_) => RecentlyLooking(s)
    case Flush(k) =>
      && s.h.limit < Due(s.h.processed) + 3 * RECYCLE_PERIOD && s.m.flushCounter <= FLUSH_PERIOD
      && forall n: nat :: n < |s.m.rings| ==>
           if n < k then s.h.flushed[n] == s.h.processed else s.h.processed <= s.h.flushed[n] + s.m.flushCounter
    case _ =>
      && s.h.limit < Due(s.h.processed) + 3 * RECYCLE_PERIOD && s.m.flushCounter < FLUSH_PERIOD
      && forall n: nat :: n < |s.m.rings| ==> s.h.processed <= s.h.flushed[n] + s.m.flushCounter
  }

  ghost predicate RecentlyLooking(s: State)
    requires Shape(s)
  {
    && s.h.processed % RECYCLE_PERIOD == 0 && s.h.limit < s.h.processed + 3 * RECYCLE_PERIOD
    && s.m.flushCounter < FLUSH_PERIOD
    && forall n: nat :: n < |s.m.rings| ==> s.h.processed <= s.h.flushed[n] + s.m.flushCounter + 1
  }

  lemma InitialRecent(s: State)
    requires Initial(s)
    ensures Recent(s)
  {
  }

  lemma WrapPeriodically(k: nat)
    ensures Wrap(k) % RECYCLE_PERIOD == k % RECYCLE_PERIOD
  {
  }

  lemma DueNext(k: nat)
    ensures if k % RECYCLE_PERIOD == RECYCLE_PERIOD - 1 then Due(k) == k + 1 && (k + 1) % RECYCLE_PERIOD == 0
            else Due(k + 1) == Due(k) > k + 1
  {
  }

  lemma DueAt(k: nat)
    requires k % RECYCLE_PERIOD == 0
    ensures Due(k) == k + RECYCLE_PERIOD
  {
  }

  lemma WriteRecent(s: State)
    requires Inv(s) && Recent(s) && s.m.pc.Write?
    ensures Recent(WriteStep(s))
  {
    hide Wrap, Due, Buffers, Queued, Pending, Lengths, Logs, Scanning;
    WrapPeriodically(s.h.processed);
    DueNext(s.h.processed);
  }

  lemma RecycleRecent(s: State)
    requires Inv(s) && Recent(s) && s.m.pc.Recycle?
    ensures Recent(RecycleStep(s))
  {
    hide Wrap, Due, Buffers, Queued, Pending, Lengths, Logs;
    DueAt(s.h.processed);
  }

  lemma StepRecent(s: State, e: Event)
    requires Inv(s) && Recent(s) && Enabled(s, e)
    ensures Recent(Step(s, e))
  {
    hide Wrap, Due, Buffers, Queued, Pending, Lengths, Logs, Scanning;
    StepShape(s, e);
    if e.AgentStep? && s.m.pc.Write? {
      WriteRecent(s);
    } else if e.AgentStep? && s.m.pc.Recycle? {
      RecycleRecent(s);
    }
  }

  /** A step of the scan keeps the lesser of the heads kept and read. */
  lemma ScanKeepsLesser(s: State)
    requires Inv(s) && s.m.pc.Scan?
    ensures var n, oldest := s.m.pc.n, s.h.oldest;
            ScanStep(s).h.oldest == if n == 0 || s.h.reported[n] < oldest then s.h.reported[n] else oldest
  {
    hide Wrap, Diff, Buffers, Queued, Pending, Lengths, Logs;
    var n := s.m.pc.n;
    assert s.h.reported[n] < s.h.processed < s.h.reported[n] + RING_SIZE;
    if n > 0 {
      LeastDiffIsOldest(s.h.reported[n], s.h.oldest, s.h.processed);
    }
  }

  /** The heads reported, and the one kept by the scan if any, are at least `b`. */
  ghost predicate AtLeast(s: State, b: nat) {
    && Shape(s) && (forall n: nat :: n < |s.m.rings| ==> b <= s.h.reported[n])
    && (s.m.pc.Recycle? || (s.m.pc.Scan? && s.m.pc.n > 0) ==> b <= s.h.oldest)
  }

  lemma LookingKeepsAtLeast(s: State, e: Event, b: nat)
    requires Inv(s) && Looking(s) && Enabled(s, e) && AtLeast(s, b)
    ensures AtLeast(Step(s, e), b)
  {
    hide Wrap, Diff, Counters, Registers, Buffers, Queued, Pending, Lengths, Logs, Scanning;
    StepShape(s, e);
    if e.AgentStep? && s.m.pc.Scan? {
      ScanKeepsLesser(s);
    }
  }

  /** A path that starts in a scan is in that scan still, or past it. */
  lemma {:induction false} ScanPath(s: State, es: seq<Event>, t: State, b: nat)
    requires Inv(s) && Path(s, es, t) && (Looking(s) ==> AtLeast(s, b))
    ensures Inv(t) && t.h.processed >= s.h.processed
    ensures Looking(s) && Looking(t) && t.h.processed == s.h.processed ==> AtLeast(t, b)
    ensures !Looking(s) && Looking(t) ==> t.h.processed > s.h.processed
    decreases |es|
  {
    hide Inv, Step, AtLeast;
    if es != [] {
      var s' := Step(s, es[0]);
      StepKeeps(s, es[0]);
      LookingOrPast(s, es[0]);
      if Looking(s) {
        LookingKeepsAtLeast(s, es[0], b);
        ScanPath(s', es[1..], t, b);
      } else if Looking(s') {
        ScanPath(s', es[1..], t, 0) by {
          assert AtLeast(s', 0) by {
            AtLeastZero(s');
          }
        }
      } else {
        ScanPath(s', es[1..], t, b);
      }
    }
  }

  lemma AtLeastZero(s: State)
    requires Inv(s)
    ensures AtLeast(s, 0)
  {
    hide Counters, Registers, Buffers, Queued, Pending, Lengths, Logs, Scanning;
  }

  lemma LookingOrPast(s: State, e: Event)
    requires Inv(s) && Enabled(s, e)
    ensures var t := Step(s, e);
            t.h.processed >= s.h.processed && (Looking(t) && !Looking(s) ==> t.h.processed > s.h.processed)
  {
    hide Wrap, Diff, Counters, Registers, Buffers, Queued, Pending, Lengths, Logs, Scanning;
  }

  /** What no output is behind when a scan starts, the head that the scan finds is not behind either. */
  lemma ScanNotBehind(s: State, es: seq<Event>, t: State, b: nat)
    requires Reachable(s) && Shape(s) && s.m.pc.Scan? && s.m.pc.n == 0 && Path(s, es, t)
    requires t.m.pc.Recycle? && t.h.processed == s.h.processed
    requires forall n: nat :: n < |s.m.rings| ==> b <= s.h.reported[n]
    ensures b <= t.h.oldest
  {
    hide Path, Inv;
    ReachableInv(s);
    ScanPath(s, es, t, b);
  }

  /**
   The head found by a scan is the oldest: whatever the card reports meanwhile, it is no newer than any head reported
   when the scan ends, and for some output it was reported between the start and the end of the scan.
   */
  lemma ScanFindsOldest(s: State, es: seq<Event>, t: State) returns (n: nat)
    requires Reachable(s) && Shape(s) && s.m.pc.Scan? && s.m.pc.n == 0 && Path(s, es, t)
    requires t.m.pc.Recycle? && t.h.processed == s.h.processed
    ensures Shape(t) && |t.m.rings| == |s.m.rings| && n < |t.m.rings|
    ensures forall i: nat :: i < |t.m.rings| ==> t.h.oldest <= t.h.reported[i]
    ensures s.h.reported[n] <= t.h.oldest <= t.h.reported[n]
  {
    hide Path, Inv;
    ReachableInv(s);
    PathOutputs(s, es, t);
    OldestBehindAll(t);
    n := LeastReported(s.h.reported);
    ScanNotBehind(s, es, t, s.h.reported[n]);
  }

  lemma OldestBehindAll(s: State)
    requires Inv(s) && s.m.pc.Recycle?
    ensures Shape(s) && forall i: nat :: i < |s.m.rings| ==> s.h.oldest <= s.h.reported[i]
  {
    hide Wrap, Counters, Registers, Buffers, Queued, Pending, Lengths, Logs;
  }

  lemma {:induction false} PathOutputs(s: State, es: seq<Event>, t: State)
    requires Inv(s) && Path(s, es, t)
    ensures Inv(t) && |t.m.rings| == |s.m.rings|
    decreases |es|
  {
    hide Step;
    if es != [] {
      StepKeeps(s, es[0]);
      StepShape(s, es[0]);
      PathOutputs(Step(s, es[0]), es[1..], t);
    }
  }

  lemma {:induction false} LeastReported(reported: seq<nat>) returns (least: nat)
    requires reported != []
    ensures least < |reported| && forall n: nat :: n < |reported| ==> reported[least] <= reported[n]
  {
    if |reported| == 1 {
      least := 0;
    } else {
      var init := reported[..|reported| - 1];
      least := LeastReported(init);
      assert forall n: nat :: n < |init| ==> reported[n] == init[n];
      if reported[|reported| - 1] < reported[least] {
        least := |reported| - 1;
      }
    }
  }

  /**
   Nothing beyond the present limit can ever be received: the packets up to the limit do not lead to another look at
   the heads, or the look under way will leave the limit where it is.
   */
  ghost predicate Doomed(s: State) {
    Inv(s) &&
    match s.m.pc
    case Scan(n, _, _) => n > 0 && StaysShort(s)
    case Recycle(_) => StaysShort(s)
    case _ => s.h.limit < Due(s.h.processed)
  }

  predicate StaysShort(s: State) {
    s.h.oldest + RING_SIZE - 1 == s.h.limit < s.h.processed + RECYCLE_PERIOD
  }

  lemma DoomedWrite(s: State)
    requires Doomed(s) && s.m.pc.Write?
    ensures var t := WriteStep(s); !Looking(t) && t.h.limit == s.h.limit < Due(t.h.processed)
  {
    hide Wrap, Due, Registers, Buffers, Queued, Pending, Lengths, Logs, Scanning;
    assert s.m.delimiter == Wrap(s.h.processed) by {
      DelimiterWraps(s);
    }
    WrapPeriodically(s.h.processed);
    DueNext(s.h.processed);
  }

  lemma DelimiterWraps(s: State)
    requires Inv(s)
    ensures s.m.delimiter == Wrap(s.h.processed)
  {
    hide Counters, Buffers, Queued, Pending, Lengths, Logs, Scanning;
  }

  lemma DoomedStep(s: State, e: Event)
    requires Doomed(s) && Recent(s) && Enabled(s, e)
    ensures Doomed(Step(s, e)) && Step(s, e).h.limit == s.h.limit
  {
    hide Wrap, Diff, Due, Registers, Buffers, Queued, Pending, Lengths, Logs;
    StepKeeps(s, e);
    if e.AgentStep? {
      match s.m.pc {
        case Write(_) => DoomedWrite(s);
        case Scan(_, _, _) => ScanKeepsLesser(s);
        case Recycle(_) => DueAt(s.h.processed);
        case _ =>
      }
    }
  }

  lemma {:induction false} DoomedForever(s: State, es: seq<Event>, t: State)
    requires Doomed(s) && Recent(s) && Path(s, es, t)
    ensures Doomed(t) && t.h.limit == s.h.limit && |t.h.received| <= s.h.limit
    decreases |es|
  {
    hide Step, Doomed, Recent;
    if es == [] {
      DoomedBound(s);
    } else {
      DoomedStep(s, es[0]);
      DoomedInv(s);
      StepRecent(s, es[0]);
      DoomedForever(Step(s, es[0]), es[1..], t);
    }
  }

  lemma DoomedInv(s: State)
    requires Doomed(s)
    ensures Inv(s)
  {
    hide Inv;
  }

  lemma DoomedBound(s: State)
    requires Doomed(s)
    ensures |s.h.received| <= s.h.limit
  {
    hide Wrap, Registers, Buffers, Queued, Pending, Lengths, Logs, Scanning;
  }

  /**
   A look at the heads that finds the oldest 192 packets or more behind leaves the ring doomed, and any other does
   not.
   */
  lemma RecycleDooms(s: State)
    requires Reachable(s) && s.m.pc.Recycle?
    ensures Doomed(RecycleStep(s)) <==> s.h.processed - s.h.oldest >= RING_SIZE - RECYCLE_PERIOD
  {
    ReachableRecent(s);
    hide Wrap, Due, Registers, Buffers, Queued, Pending, Lengths, Logs;
    RecycleKeeps(s);
    DueAt(s.h.processed);
  }

  /** A path on which the card reports only the heads it is asked for. */
  ghost predicate Leads(s: State, t: State) {
    exists es: seq<Event> :: Path(s, es, t) && AllAskedFor(es)
  }

  /** A state on the way from `s0`. */
  ghost predicate OnTheWay(s0: State, s: State) {
    Leads(s0, s) && Inv(s) && Recent(s)
  }

  lemma Go(s0: State, s: State, e: Event) returns (t: State)
    requires OnTheWay(s0, s) && Shape(s) && Enabled(s, e) && AskedFor(e)
    ensures t == Step(s, e) && OnTheWay(s0, t) && Shape(t) && |t.m.rings| == |s.m.rings|
  {
    hide Step, Inv, Recent, AskedFor;
    var es :| Path(s0, es, s) && AllAskedFor(es);
    PathExtends(s0, es, s, e);
    StepKeeps(s, e);
    StepRecent(s, e);
    StepShape(s, e);
    t := Step(s, e);
    assert Path(s0, es + [e], t) && AllAskedFor(es + [e]);
  }

  /** How far the agent is from its next packet, given that it is not looking at heads. */
  function Rank(s: State): nat
    requires Shape(s)
  {
    var outputs := |s.m.rings|;
    match s.m.pc
    case Write(n) => outputs - n
    case Call(_) => outputs + 1
    case Poll => if s.h.processed < |s.h.received| then outputs + 2 else outputs + 3
    case Flush(n) => outputs + 3 + outputs - n
    case _ => 0
  }

  /** One step towards the next look at the heads, which leaves the limit alone. */
  ghost predicate Towards(s: State, t: State)
    requires Shape(s) && Shape(t)
  {
    && t.h.limit == s.h.limit
    && if Looking(t) then t.m.pc.Scan? && t.m.pc.n == 0 && t.h.processed == Due(s.h.processed)
       else Due(t.h.processed) == Due(s.h.processed)
            && (t.h.processed > s.h.processed || (t.h.processed == s.h.processed && Rank(t) < Rank(s)))
  }

  lemma TowardsFromPoll(s0: State, s: State) returns (t: State)
    requires OnTheWay(s0, s) && s.m.pc.Poll? && s.h.processed < s.h.limit
    ensures OnTheWay(s0, t) && Shape(s) && Shape(t) && Towards(s, t)
  {
    hide Wrap, Due, Leads, Buffers, Queued, Lengths, Logs, Recent;
    HeadsMeet(s, 0);
    if s.h.processed == |s.h.received| {
      t := Go(s0, s, CardReceives(Frame([], 64)));
    } else {
      assert s.m.rings[0][Wrap(s.h.processed)].done;
      t := Go(s0, s, AgentStep);
    }
  }

  lemma TowardsFromWrite(s0: State, s: State) returns (t: State)
    requires OnTheWay(s0, s) && s.m.pc.Write?
    ensures OnTheWay(s0, t) && Shape(s) && Shape(t) && Towards(s, t)
  {
    hide Wrap, Due, Leads, Buffers, Queued, Pending, Lengths, Logs, Recent;
    t := Go(s0, s, AgentStep);
    DelimiterWraps(s);
    WrapPeriodically(s.h.processed);
    DueNext(s.h.processed);
  }

  lemma TowardsLook(s0: State, s: State) returns (t: State)
    requires OnTheWay(s0, s) && !Looking(s) && s.h.processed < s.h.limit
    ensures OnTheWay(s0, t) && Shape(s) && Shape(t) && Towards(s, t)
  {
    hide Wrap, Due, Leads, Counters, Registers, Buffers, Queued, Pending, Lengths, Logs, Recent;
    match s.m.pc
    case Poll => t := TowardsFromPoll(s0, s);
    case Write(_) => t := TowardsFromWrite(s0, s);
    case Call(_) => t := Go(s0, s, HandlerStep([], map[]));
    case _ => t := Go(s0, s, AgentStep);
  }

  lemma DueAhead(k: nat)
    ensures k < Due(k)
  {
  }

  /** If the limit allows it, packets arrive and are processed up to the next look at the heads. */
  lemma {:induction false} ReachLook(s0: State, s: State) returns (t: State)
    requires OnTheWay(s0, s) && Shape(s) && !Looking(s) && Due(s.h.processed) <= s.h.limit
    ensures OnTheWay(s0, t) && Shape(t) && t.m.pc.Scan? && t.m.pc.n == 0 && t.h.limit == s.h.limit
    ensures t.h.processed == Due(s.h.processed)
    decreases Due(s.h.processed) - s.h.processed, Rank(s)
  {
    hide Due, OnTheWay;
    DueAhead(s.h.processed);
    t := TowardsLook(s0, s);
    if !Looking(t) {
      DueAhead(t.h.processed);
      t := ReachLook(s0, t);
    }
  }

  /** The card has only sent and reported. */
  ghost predicate OnlySent(s: State, t: State)
    requires Shape(s) && Shape(t)
  {
    && t.m.pc == s.m.pc && t.m.flushCounter == s.m.flushCounter && |t.m.rings| == |s.m.rings|
    && t.h.processed == s.h.processed && t.h.limit == s.h.limit && t.h.oldest == s.h.oldest
    && t.h.flushed == s.h.flushed && |t.h.reported| == |s.h.reported|
  }

  /** The card sends all that was flushed to an output. */
  lemma {:induction false} SendAll(s0: State, s: State, n: nat) returns (t: State)
    requires OnTheWay(s0, s) && Shape(s) && n < |s.m.rings|
    ensures OnTheWay(s0, t) && Shape(t) && OnlySent(s, t) && t.h.reported == s.h.reported
    ensures |t.h.sent[n]| == t.h.flushed[n]
    decreases s.h.flushed[n] - |s.h.sent[n]|
  {
    hide Wrap, Leads, Buffers, Queued, Pending, Lengths, Logs, Recent;
    HeadsMeet(s, n);
    assert |s.h.sent[n]| <= s.h.flushed[n];
    if |s.h.sent[n]| == s.h.flushed[n] {
      t := s;
    } else {
      t := Go(s0, s, CardTransmits(n));
      t := SendAll(s0, t, n);
    }
  }

  /** The last head up to which a report is asked for. */
  function LastAsked(head: nat): (k: nat)
    ensures k <= head < k + RECYCLE_PERIOD && k % RECYCLE_PERIOD == 0
  {
    head / RECYCLE_PERIOD * RECYCLE_PERIOD
  }

  /** The card sends all that was flushed to an output, and reports as far as it is asked to. */
  lemma SettleOutput(s0: State, s: State, n: nat) returns (t: State)
    requires OnTheWay(s0, s) && Shape(s) && n < |s.m.rings|
    ensures OnTheWay(s0, t) && Shape(t) && OnlySent(s, t)
    ensures t.h.reported[n] >= LastAsked(t.h.flushed[n])
    ensures forall i: nat :: i < |s.m.rings| && i != n ==> t.h.reported[i] == s.h.reported[i]
  {
    hide Wrap, Leads, Registers, Buffers, Queued, Pending, Lengths, Logs, Recent, Scanning, LastAsked;
    t := SendAll(s0, s, n);
    if t.h.reported[n] < LastAsked(t.h.flushed[n]) {
      t := Go(s0, t, CardReportsHead(n, LastAsked(t.h.flushed[n])));
    }
  }

  lemma {:induction false} SettleAll(s0: State, s: State, k: nat) returns (t: State)
    requires OnTheWay(s0, s) && Shape(s) && k <= |s.m.rings|
    ensures OnTheWay(s0, t) && Shape(t) && OnlySent(s, t)
    ensures forall n: nat :: n < k ==> t.h.reported[n] >= LastAsked(t.h.flushed[n])
  {
    hide OnTheWay, LastAsked;
    if k == 0 {
      t := s;
    } else {
      t := SettleAll(s0, s, k - 1);
      t := SettleOutput(s0, t, k - 1);
    }
  }

  /** The scan goes on to its end. */
  lemma {:induction false} FinishScan(s0: State, s: State, b: nat) returns (t: State)
    requires OnTheWay(s0, s) && Shape(s) && s.m.pc.Scan? && AtLeast(s, b)
    ensures OnTheWay(s0, t) && Shape(t) && t.m.pc.Recycle? && AtLeast(t, b)
    ensures t.h.processed == s.h.processed && t.h.limit == s.h.limit
    decreases |s.m.rings| - s.m.pc.n
  {
    hide Wrap, Diff, Leads, Counters, Registers, Buffers, Queued, Pending, Lengths, Logs, Scanning, Recent, AtLeast;
    LookingKeepsAtLeast(s, AgentStep, b);
    t := Go(s0, s, AgentStep);
    if t.m.pc.Scan? {
      t := FinishScan(s0, t, b);
    }
  }

  lemma RecycleTo(s0: State, s: State) returns (t: State)
    requires OnTheWay(s0, s) && Shape(s) && s.m.pc.Recycle?
    ensures OnTheWay(s0, t) && Shape(t) && !Looking(t) && t.h.processed == s.h.processed
    ensures t.h.limit == s.h.oldest + RING_SIZE - 1 >= s.h.limit && Due(t.h.processed) == t.h.processed + RECYCLE_PERIOD
  {
    hide Wrap, Due, Leads, Registers, Buffers, Queued, Pending, Lengths, Logs;
    t := Go(s0, s, AgentStep);
    DueAt(s.h.processed);
  }

  lemma LookAfterPeriod(s: State)
    requires Inv(s) && Recent(s) && s.m.pc.Scan?
    ensures Shape(s) && s.h.processed >= RECYCLE_PERIOD && s.h.limit < s.h.processed + 3 * RECYCLE_PERIOD
    ensures forall n: nat :: n < |s.m.rings| ==> LastAsked(s.h.flushed[n]) >= s.h.processed - RECYCLE_PERIOD
    ensures s.m.pc.n > 0 ==> s.h.limit <= s.h.oldest + RING_SIZE - 1
  {
    hide Wrap, Registers, Buffers, Queued, Pending, Lengths, Logs;
    assert s.h.flushed[0] < s.h.processed;
  }

  /**
   From a scan, if everything flushed is sent and reported as far as asked for, the tail written is at least 191 slots
   on from the delimiter, unless an older head was read already.
   */
  lemma LookOnce(s0: State, s: State) returns (t: State)
    requires OnTheWay(s0, s) && Shape(s) && s.m.pc.Scan?
    ensures OnTheWay(s0, t) && Shape(t) && !Looking(t) && t.h.processed == s.h.processed
    ensures Due(t.h.processed) == t.h.processed + RECYCLE_PERIOD && t.h.limit >= s.h.limit
    ensures || t.h.limit >= s.h.processed + 3 * RECYCLE_PERIOD - 1
            || (s.m.pc.n > 0 && t.h.limit >= s.h.oldest + RING_SIZE - 1)
  {
    hide Wrap, Due, Leads, Inv, LastAsked;
    LookAfterPeriod(s);
    t := SettleAll(s0, s, |s.m.rings|);
    var asked := s.h.processed - RECYCLE_PERIOD;
    var b := if s.m.pc.n > 0 && s.h.oldest < asked then s.h.oldest else asked;
    t := FinishScan(s0, t, b);
    t := RecycleTo(s0, t);
  }

  /** Two looks on, the limit has risen. */
  lemma NextLookRises(s0: State, s: State) returns (t: State)
    requires OnTheWay(s0, s) && Shape(s) && !Looking(s) && Due(s.h.processed) <= s.h.limit
    ensures OnTheWay(s0, t) && Shape(t) && !Looking(t) && t.h.processed == Due(s.h.processed)
    ensures Due(t.h.processed) == t.h.processed + RECYCLE_PERIOD && t.h.limit >= t.h.processed + 3 * RECYCLE_PERIOD - 1
  {
    hide OnTheWay, Due;
    t := ReachLook(s0, s);
    t := LookOnce(s0, t);
  }

  /** A look under way that leaves the limit where the next one is due, and that next look. */
  lemma RiseFromScan(s0: State, s: State) returns (t: State)
    requires OnTheWay(s0, s) && Shape(s) && s.m.pc.Scan? && !Doomed(s)
    ensures OnTheWay(s0, t) && Shape(t) && t.h.limit > s.h.limit
  {
    LimitInScan(s0, s);
    hide OnTheWay, Due, Doomed;
    t := LookOnce(s0, s);
    if t.h.limit == s.h.limit {
      t := NextLookRises(s0, t);
    }
  }

  lemma LimitInScan(s0: State, s: State)
    requires OnTheWay(s0, s) && s.m.pc.Scan? && !Doomed(s)
    ensures Shape(s) && s.h.limit < s.h.processed + 3 * RECYCLE_PERIOD
    ensures s.m.pc.n > 0 ==> s.h.oldest + RING_SIZE - 1 > s.h.limit || s.h.limit >= s.h.processed + RECYCLE_PERIOD
  {
    hide Wrap, Due, Leads, LastAsked, Registers, Buffers, Queued, Pending, Lengths, Logs;
    LookAfterPeriod(s);
  }

  /** From a state that is not doomed there is a way to a higher limit. */
  lemma Rise(s0: State, s: State) returns (t: State)
    requires OnTheWay(s0, s) && Shape(s) && !Doomed(s)
    ensures OnTheWay(s0, t) && Shape(t) && t.h.limit > s.h.limit
  {
    NotDoomed(s0, s);
    hide OnTheWay, Due, Doomed;
    if s.m.pc.Scan? {
      t := RiseFromScan(s0, s);
    } else if s.m.pc.Recycle? {
      t := RecycleTo(s0, s);
      if t.h.limit == s.h.limit {
        t := NextLookRises(s0, t);
      }
    } else {
      t := NextLookRises(s0, s);
      if t.h.limit <= s.h.limit {
        t := NextLookRises(s0, t);
      }
    }
  }

  lemma NotDoomed(s0: State, s: State)
    requires OnTheWay(s0, s) && Shape(s) && !Doomed(s)
    ensures !Looking(s) ==> Due(s.h.processed) <= s.h.limit < Due(s.h.processed) + 3 * RECYCLE_PERIOD
    ensures s.m.pc.Recycle? ==> s.h.limit < s.h.processed + 3 * RECYCLE_PERIOD
    ensures s.m.pc.Recycle? ==>
              s.h.oldest + RING_SIZE - 1 > s.h.limit || s.h.limit >= s.h.processed + RECYCLE_PERIOD
  {
    hide Wrap, Due, Leads, Registers, Buffers, Queued, Pending, Lengths, Logs;
  }

  /** All slots the limit allows are received into. */
  lemma {:induction false} ReceiveAll(s0: State, s: State) returns (t: State)
    requires OnTheWay(s0, s) && Shape(s)
    ensures OnTheWay(s0, t) && |t.h.received| == t.h.limit == s.h.limit
    decreases s.h.limit - |s.h.received|
  {
    hide Wrap, Leads, Buffers, Queued, Pending, Lengths, Logs, Recent, Scanning;
    HeadsMeet(s, 0);
    assert |s.h.received| <= s.h.limit;
    if |s.h.received| == s.h.limit {
      t := s;
    } else {
      t := Go(s0, s, CardReceives(Frame([], 64)));
      t := ReceiveAll(s0, t);
    }
  }

  lemma {:induction false} PathRecent(s: State, es: seq<Event>, t: State)
    requires Inv(s) && Recent(s) && Path(s, es, t)
    ensures Inv(t) && Recent(t)
    decreases |es|
  {
    hide Step, Inv, Recent;
    if es != [] {
      StepKeeps(s, es[0]);
      StepRecent(s, es[0]);
      PathRecent(Step(s, es[0]), es[1..], t);
    }
  }

  lemma ReachableRecent(s: State)
    requires Reachable(s)
    ensures Inv(s) && Recent(s)
  {
    hide Inv, Recent, Initial;
    var s1, es :| Initial(s1) && Path(s1, es, s);
    InitialInv(s1);
    InitialRecent(s1);
    PathRecent(s1, es, s);
  }

  /**
   From a reachable state the card can still receive more than the present limit allows, exactly if it is not doomed.
   */
  lemma CanReceiveMoreIff(s: State)
    requires Reachable(s)
    ensures !Doomed(s) <==> exists t: State :: Leads(s, t) && |t.h.received| > s.h.limit
  {
    hide Inv, Recent, Doomed;
    ReachableRecent(s);
    ReachableShapeOf(s);
    if Doomed(s) {
      forall t: State | Leads(s, t)
        ensures |t.h.received| <= s.h.limit
      {
        var es :| Path(s, es, t);
        DoomedForever(s, es, t);
      }
    } else {
      assert Path(s, [], s) && AllAskedFor([]);
      var t := Rise(s, s);
      t := ReceiveAll(s, t);
    }
  }

  lemma ReachableShapeOf(s: State)
    requires Inv(s)
    ensures Shape(s)
  {
  }
}
