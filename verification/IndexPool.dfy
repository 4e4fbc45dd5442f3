/** The expiring index pool over an array of last-use times. */
module IndexPool {
  import opened Options
  import opened Ring
  import opened PoolSpec

  class Pool {
    const timestamps: array<nat>
    const expirationTime: nat
    var lastBorrowedIndex: nat

    ghost function State(): PoolState
      reads this, timestamps
    {
      PoolState(timestamps[..], lastBorrowedIndex)
    }

    ghost predicate Valid()
      reads this, timestamps
    {
      PoolOk(State())
    }

    constructor (size: nat, expirationTime: nat)
      ensures Valid() && Uses(State()) == map[]
      ensures this.expirationTime == expirationTime && timestamps.Length == size && lastBorrowedIndex == 0
      ensures fresh(timestamps)
    {
      this.timestamps := new nat[size];
      this.expirationTime := expirationTime;
      this.lastBorrowedIndex := 0;
      new;
      var n := size;
      while n > 0
        invariant n <= size && lastBorrowedIndex == 0
        invariant forall i: nat :: n <= i < size ==> timestamps[i] == TIME_MAX
      {
        timestamps[n - 1] := TIME_MAX;
        n := n - 1;
      }
    }

    /**
     Borrows the first available index in ring order from the last one borrowed;
     the second result tells whether that index was held before.
     */
    method Borrow(now: nat) returns (index: Option<nat>, used: bool)
      requires Valid() && now < TIME_MAX
      modifies this, timestamps
      ensures Valid()
      ensures index == Borrowed(old(State()), now, expirationTime)
      ensures index.None? ==> State() == old(State())
      ensures index.Some? ==> State() == Stamped(old(State()), index.value, now).(last := index.value)
      ensures index.Some? ==> used == IsHeld(old(State()).times, index.value)
    {
      ghost var before := State();
      var n := lastBorrowedIndex;
      while n < timestamps.Length
        invariant lastBorrowedIndex <= n <= timestamps.Length && State() == before
        invariant NoneAvailable(before, now, expirationTime, 0, n - lastBorrowedIndex)
      {
        if timestamps[n] == TIME_MAX {
          BorrowedIs(before, now, expirationTime, n);
          timestamps[n] := now;
          lastBorrowedIndex := n;
          return Some(n), false;
        }
        if now >= expirationTime && now - expirationTime > timestamps[n] {
          BorrowedIs(before, now, expirationTime, n);
          timestamps[n] := now;
          lastBorrowedIndex := n;
          return Some(n), true;
        }
        n := n + 1;
      }
      n := 0;
      while n < lastBorrowedIndex
        invariant n <= lastBorrowedIndex && State() == before
        invariant NoneAvailable(before, now, expirationTime, 0, n + timestamps.Length - lastBorrowedIndex)
      {
        if timestamps[n] == TIME_MAX {
          BorrowedIs(before, now, expirationTime, n);
          timestamps[n] := now;
          lastBorrowedIndex := n;
          return Some(n), false;
        }
        if now >= expirationTime && now - expirationTime > timestamps[n] {
          BorrowedIs(before, now, expirationTime, n);
          timestamps[n] := now;
          lastBorrowedIndex := n;
          return Some(n), true;
        }
        n := n + 1;
      }
      return None, false;
    }

    method Refresh(now: nat, index: nat)
      requires Valid() && now < TIME_MAX && index < timestamps.Length
      modifies timestamps
      ensures Valid() && State() == Stamped(old(State()), index, now)
      ensures Uses(State()) == old(Uses(State()))[index := now]
    {
      timestamps[index] := now;
      StampedUses(old(State()), index, now);
    }

    /** Whether an index, of any value, is held and its last use is recent enough. */
    method Used(now: nat, index: nat) returns (r: bool)
      requires Valid()
      ensures r <==> index in Uses(State()) && Young(now, expirationTime, Uses(State())[index])
    {
      if index >= timestamps.Length {
        return false;
      }
      if timestamps[index] == TIME_MAX {
        return false;
      }
      if now >= expirationTime && now - expirationTime > timestamps[index] {
        return false;
      }
      return true;
    }

    method Return(index: nat)
      requires Valid() && index < timestamps.Length
      modifies timestamps
      ensures Valid() && State() == Stamped(old(State()), index, TIME_MAX)
      ensures Uses(State()) == old(Uses(State())) - {index}
    {
      timestamps[index] := TIME_MAX;
      StampedUses(old(State()), index, TIME_MAX);
    }
  }
}
