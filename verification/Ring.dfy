/** Positions on a ring of `capacity` slots. */
module Ring {

  /** The slot `i` steps after `start` on the ring of `capacity` slots. */
  function Slot(start: nat, i: nat, capacity: nat): (s: nat)
    requires start < capacity && i < capacity
    ensures s < capacity
  {
    if start + i < capacity then start + i else start + i - capacity
  }

  /** How many steps lead from `start` to `s` on the ring. */
  function Distance(start: nat, s: nat, capacity: nat): (d: nat)
    requires start < capacity && s < capacity
    ensures d < capacity
  {
    if s >= start then s - start else s + capacity - start
  }
}
