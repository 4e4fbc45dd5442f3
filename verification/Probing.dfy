/** The probe sequence of the open-addressing hash map and the meaning of its per-slot chain counters. */
module Probing {
  import opened Bits
  import opened Counting
  import opened Options
  import opened Ring

  /** One slot of the table; a key address of `None` marks the slot free, whatever the other fields hold. */
  datatype Item = Item(keyAddr: Option<nat>, value: nat, chain: nat, keyHash: nat)

  /** The slot probed at step `i`, computed with two masks as the source does. */
  function Loop(start: nat, i: nat, capacity: nat): nat
    requires capacity > 0
  {
    And(And(start, capacity - 1) + i, capacity - 1)
  }

  lemma SlotIsModulo(start: nat, i: nat, capacity: nat)
    requires i < capacity
    ensures (start % capacity + i) % capacity == (start + i) % capacity == Slot(start % capacity, i, capacity)
  {
    var home, q := start % capacity, start / capacity;
    assert start == capacity * q + home;
    if home + i < capacity {
      ModuloUnique(home + i, capacity, 0, home + i);
      ModuloUnique(start + i, capacity, q, home + i);
    } else {
      ModuloUnique(home + i, capacity, 1, home + i - capacity);
      assert start + i == capacity * (q + 1) + (home + i - capacity);
      ModuloUnique(start + i, capacity, q + 1, home + i - capacity);
    }
  }

  /** The masks compute (start + i) mod capacity, and the inner sum stays within 64 bits. */
  lemma LoopIsModulo(start: nat, i: nat, capacity: nat)
    requires IsPow2(capacity) && i < capacity <= SIZE_MAX / 2 + 1
    ensures And(start, capacity - 1) + i <= SIZE_MAX
    ensures Loop(start, i, capacity) == (start + i) % capacity == Slot(start % capacity, i, capacity)
  {
    hide And, IsPow2;
    PowerMaskIsModulo(start, capacity);
    var home := start % capacity;
    PowerMaskIsModulo(home + i, capacity);
    SlotIsModulo(start, i, capacity);
  }

  /** The first `capacity` probes visit every slot exactly once, whatever the hash. */
  lemma LoopVisitsEverySlotOnce(start: nat, capacity: nat, s: nat)
    requires IsPow2(capacity) && capacity <= SIZE_MAX / 2 + 1 && s < capacity
    ensures exists i: nat :: i < capacity && Loop(start, i, capacity) == s &&
              forall j: nat :: j < capacity && Loop(start, j, capacity) == s ==> j == i
  {
    var i := Distance(start % capacity, s, capacity);
    LoopIsModulo(start, i, capacity);
    forall j: nat | j < capacity && Loop(start, j, capacity) == s
      ensures j == i
    {
      LoopIsModulo(start, j, capacity);
    }
  }

  ghost predicate Busy(items: seq<Item>, j: nat) {
    j < |items| && items[j].keyAddr.Some?
  }

  /** The slot at which the probing for the key stored in slot `j` starts. */
  ghost function Home(items: seq<Item>, j: nat): (h: nat)
    requires j < |items|
    ensures h < |items|
  {
    items[j].keyHash % |items|
  }

  /** The probe path of the key stored in slot `j` passes over slot `s` before it reaches `j`. */
  ghost predicate Crosses(items: seq<Item>, j: nat, s: nat)
    requires s < |items|
  {
    Busy(items, j) && Distance(Home(items, j), s, |items|) < Distance(Home(items, j), j, |items|)
  }

  ghost function Crossing(items: seq<Item>, s: nat): set<nat>
    requires s < |items|
  {
    set j: nat | j < |items| && Crosses(items, j, s)
  }

  /** Every counter holds the number of stored keys whose probe path crosses its slot. */
  ghost predicate ChainsExact(items: seq<Item>) {
    forall s: nat :: s < |items| ==> items[s].chain == |Crossing(items, s)|
  }

  /** A slot on the way to a stored key has a positive counter: stopping at zero misses nothing. */
  lemma ChainPositiveOnTheWay(items: seq<Item>, j: nat, s: nat)
    requires ChainsExact(items) && s < |items| && Crosses(items, j, s)
    ensures items[s].chain > 0
  {
    assert j in Crossing(items, s);
  }

  lemma ChainPositiveAfterSteps(items: seq<Item>, j: nat, i: nat)
    requires ChainsExact(items) && Busy(items, j) && i < Distance(Home(items, j), j, |items|)
    ensures items[Slot(Home(items, j), i, |items|)].chain > 0
  {
    ChainPositiveOnTheWay(items, j, Slot(Home(items, j), i, |items|));
  }

  /** Counters are bounded by the table size, so they fit the machine word that holds them. */
  lemma ChainBounded(items: seq<Item>, s: nat)
    requires ChainsExact(items) && s < |items|
    ensures items[s].chain <= |items|
  {
    CardinalityMonotone(Crossing(items, s), Below(|items|));
  }

  /** Table `after` is `before` with slot `p` going from free to busy and each counter before `p` on its path raised. */
  ghost predicate Occupied(before: seq<Item>, after: seq<Item>, p: nat) {
    && |before| == |after| && p < |before|
    && !Busy(before, p) && Busy(after, p)
    && (forall s: nat :: s < |before| ==>
      after[s].chain == before[s].chain +
        if Distance(Home(after, p), s, |after|) < Distance(Home(after, p), p, |after|) then 1 else 0)
    && (forall s: nat :: s < |before| && s != p ==>
      && after[s].keyAddr == before[s].keyAddr && after[s].value == before[s].value
      && after[s].keyHash == before[s].keyHash)
  }

  lemma CrossingAfterOccupied(before: seq<Item>, after: seq<Item>, p: nat, s: nat)
    requires Occupied(before, after, p) && s < |before|
    ensures Crossing(after, s) == Crossing(before, s) + (if Crosses(after, p, s) then {p} else {})
    ensures p !in Crossing(before, s)
  {
    forall j: nat | j < |before| && j != p
      ensures Crosses(after, j, s) == Crosses(before, j, s)
    {
    }
  }

  /** Filling a free slot, or emptying a busy one, keeps every counter exact. */
  lemma OccupiedKeepsChainsExact(before: seq<Item>, after: seq<Item>, p: nat)
    requires Occupied(before, after, p)
    ensures ChainsExact(before) <==> ChainsExact(after)
  {
    forall s: nat | s < |before|
      ensures |Crossing(after, s)| - after[s].chain == |Crossing(before, s)| - before[s].chain
    {
      CrossingAfterOccupied(before, after, p, s);
    }
    assert forall s: nat :: s < |before| ==>
      (before[s].chain == |Crossing(before, s)| <==> after[s].chain == |Crossing(after, s)|);
  }

  ghost predicate SameChainsAndKeys(a: seq<Item>, b: seq<Item>) {
    && |a| == |b|
    && forall s: nat :: s < |a| ==> a[s].chain == b[s].chain && a[s].keyAddr == b[s].keyAddr
  }

  /** Emptying the slot just filled restores every counter and every slot's key. */
  lemma OccupiedUndone(before: seq<Item>, filled: seq<Item>, after: seq<Item>, p: nat)
    requires Occupied(before, filled, p) && Occupied(after, filled, p)
    ensures SameChainsAndKeys(before, after)
  {
    assert forall s: nat :: s < |before| ==> (Busy(before, s) <==> before[s].keyAddr.Some?);
  }

  /** Table `high` is table `low` with the counters of the first `i` slots from `home` raised by one. */
  ghost predicate Raised(low: seq<Item>, high: seq<Item>, home: nat, i: nat)
    requires home < |low|
  {
    && |low| == |high|
    && forall s: nat :: s < |low| ==>
      high[s] == low[s].(chain := low[s].chain + if Distance(home, s, |low|) < i then 1 else 0)
  }

  lemma RaisedNext(low: seq<Item>, high: seq<Item>, after: seq<Item>, home: nat, i: nat)
    requires i < |low| && home < |low| && Raised(low, high, home, i)
    requires var s := Slot(home, i, |low|); after == high[s := high[s].(chain := high[s].chain + 1)]
    ensures Raised(low, after, home, i + 1)
  {
  }

  lemma LoweredNext(low: seq<Item>, high: seq<Item>, after: seq<Item>, home: nat, i: nat)
    requires i < |low| && home < |low| && Raised(low, high, home, i)
    requires var s := Slot(home, i, |low|);
             high[s].chain > 0 && after == low[s := high[s].(chain := high[s].chain - 1)]
    ensures Raised(after, high, home, i + 1)
  {
  }

  lemma RaisedThenFilled(before: seq<Item>, walked: seq<Item>, after: seq<Item>, home: nat, p: nat)
    requires home < |before| && p < |before| && Raised(before, walked, home, Distance(home, p, |before|))
    requires |after| == |before| && !Busy(before, p) && Busy(after, p) && Home(after, p) == home
    requires after == walked[p := after[p].(chain := walked[p].chain)]
    ensures Occupied(before, after, p)
  {
  }

  lemma LoweredThenEmptied(before: seq<Item>, walked: seq<Item>, after: seq<Item>, home: nat, p: nat)
    requires home < |before| == |walked| && p < |before| && Raised(walked, before, home, Distance(home, p, |before|))
    requires Busy(before, p) && Home(before, p) == home
    requires after == walked[p := walked[p].(keyAddr := None)]
    ensures Occupied(after, before, p)
  {
  }
}
