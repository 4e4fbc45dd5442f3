/**
 The open-addressing hash map, over an array of slots probed linearly.
 The map does not copy keys: a slot holds the address of its key, here an index into the array `memory`
 that the map's client owns. The hash is an arbitrary function of the key.
 */
module HashMap {
  import opened Bits
  import opened Counting
  import opened Options
  import opened Probing
  import opened Ring

  /** What the map holds for a key: the address the key was given at, and its value. */
  datatype Entry = Entry(addr: nat, value: nat)

  class Map<K(==)> {
    const memory: array<K>
    const hash: K -> nat
    const capacity: nat
    const items: array<Item>
    /** The capacity the client asked for; the table may be larger. */
    ghost const limit: nat
    /** The abstract contents. */
    ghost var entries: map<K, Entry>
    /** The slot each stored key is in. */
    ghost var slots: map<K, nat>

    ghost function KeyAt(i: nat): K
      reads items, memory
      requires Busy(items[..], i) && items[i].keyAddr.value < memory.Length
    {
      memory[items[i].keyAddr.value]
    }

    ghost predicate SlotHolds(i: nat)
      reads this, items, memory
      requires Busy(items[..], i)
    {
      && items[i].keyAddr.value < memory.Length
      && items[i].keyHash == hash(KeyAt(i))
      && KeyAt(i) in slots && slots[KeyAt(i)] == i
    }

    ghost predicate KeyStored(k: K)
      reads this, items, memory
      requires k in slots
    {
      && Busy(items[..], slots[k])
      && items[slots[k]].keyAddr.value < memory.Length
      && KeyAt(slots[k]) == k
      && k in entries && entries[k] == Entry(items[slots[k]].keyAddr.value, items[slots[k]].value)
    }

    ghost predicate Shape()
      reads this
    {
      && items.Length == capacity && memory as object != items
      && limit <= capacity <= SIZE_MAX / 2 + 1
      && (capacity == 0 || IsPow2(capacity))
    }

    ghost predicate Valid()
      reads this, items, memory
    {
      && Shape()
      && (forall i: nat :: Busy(items[..], i) ==> SlotHolds(i))
      && (forall k :: k in slots ==> KeyStored(k))
      && entries.Keys == slots.Keys
      && ChainsExact(items[..])
    }

    constructor (memory: array<K>, hash: K -> nat, capacity: nat)
      requires capacity <= SIZE_MAX / 2 + 1
      ensures Valid() && entries == map[] && fresh(items)
      ensures this.memory == memory && this.hash == hash && this.limit == capacity
    {
      var realCapacity := GetRealCapacity(capacity);
      var slotArray := new Item[realCapacity](_ => Item(None, 0, 0, 0));
      this.memory, this.hash, this.limit := memory, hash, capacity;
      this.capacity := realCapacity;
      items := slotArray;
      entries, slots := map[], map[];
      new;
      assert forall s: nat :: s < |items[..]| ==> Crossing(items[..], s) == {};
    }

    /** No key is stored at any of the first `i` probes from `home`. */
    ghost predicate Missed(k: K, home: nat, i: nat)
      reads this, items, memory
      requires Shape() && home < capacity
    {
      k in slots && slots[k] < capacity ==> Distance(home, slots[k], capacity) >= i
    }

    /** Looks a key up; `None` is the source's `false`. */
    method Get(key: K) returns (r: Option<nat>)
      requires Valid()
      ensures r == if key in entries then Some(entries[key].value) else None
    {
      var keyHash := hash(key);
      assert key in slots ==> KeyStored(key) && SlotHolds(slots[key]);
      var i := 0;
      while i < capacity
        invariant i <= capacity
        invariant capacity > 0 ==> Missed(key, keyHash % capacity, i)
      {
        var index := Loop(keyHash, i, capacity);
        LoopIsModulo(keyHash, i, capacity);
        var it := items[index];
        if it.keyAddr.Some? && it.keyHash == keyHash {
          assert SlotHolds(index);
          if memory[it.keyAddr.value] == key {
            return Some(it.value);
          }
        } else {
          if it.chain == 0 {
            if key in slots {
              assert KeyStored(key) && SlotHolds(slots[key]);
              assert slots[key] != index;
              ChainPositiveOnTheWay(items[..], slots[key], index);
            }
            return None;
          }
        }
        i := i + 1;
      }
      return None;
    }

    /** A map with room left has a free slot. */
    lemma FreeSlot() returns (free: nat)
      requires Valid() && |entries| < limit
      ensures free < capacity && !Busy(items[..], free)
    {
      assert |entries| == |entries.Keys| == |slots.Keys| == |slots|;
      if forall s: nat :: s < capacity ==> Busy(items[..], s) {
        forall s: nat | s < capacity
          ensures s in slots.Values
        {
          assert Busy(items[..], s) && SlotHolds(s);
        }
        AtLeastAsManyKeys(slots, capacity);
        assert false;
      }
      free :| free < capacity && !Busy(items[..], free);
    }

    twostate lemma FilledIsValid(new addr: nat, new value: nat, new p: nat)
      requires old(Valid()) && addr < memory.Length && memory[addr] !in old(entries)
      requires forall a: nat :: a < memory.Length ==> memory[a] == old(memory[a])
      requires Occupied(old(items[..]), items[..], p)
      requires items[p].keyAddr == Some(addr) && items[p].value == value && items[p].keyHash == hash(memory[addr])
      requires entries == old(entries)[memory[addr] := Entry(addr, value)]
      requires slots == old(slots)[memory[addr] := p]
      ensures Valid()
    {
      OccupiedKeepsChainsExact(old(items[..]), items[..], p);
      forall i: nat | Busy(items[..], i)
        ensures SlotHolds(i)
      {
        if i != p {
          assert Busy(old(items[..]), i) && old(SlotHolds(i));
        }
      }
      forall k | k in slots
        ensures KeyStored(k)
      {
        if k != memory[addr] {
          assert old(KeyStored(k));
        }
      }
    }

    /** The walk of an insertion: counts the new key in at every busy slot passed, and takes the first free one. */
    method Place(addr: nat, value: nat, keyHash: nat, ghost free: nat) returns (ghost p: nat)
      requires Shape() && free < capacity && !Busy(items[..], free)
      modifies items
      ensures Occupied(old(items[..]), items[..], p)
      ensures items[p] == Item(Some(addr), value, items[p].chain, keyHash)
    {
      ghost var before := items[..];
      ghost var home := keyHash % capacity;
      var i := 0;
      while i < capacity
        invariant i <= Distance(home, free, capacity)
        invariant Raised(before, items[..], home, i)
      {
        var index := Loop(keyHash, i, capacity);
        LoopIsModulo(keyHash, i, capacity);
        ghost var walked := items[..];
        var item := items[index];
        assert item == before[index];
        if item.keyAddr.None? {
          items[index] := Item(Some(addr), value, item.chain, keyHash);
          RaisedThenFilled(before, walked, items[..], home, index);
          return index;
        }
        items[index] := item.(chain := item.chain + 1);
        RaisedNext(before, walked, items[..], home, i);
        i := i + 1;
      }
      assert false;
    }

    /** Stores a value for the key at address `addr`. The search for a free slot cannot fail. */
    method Set(addr: nat, value: nat)
      requires Valid() && addr < memory.Length
      requires memory[addr] !in entries && |entries| < limit
      modifies this, items
      ensures Valid()
      ensures entries == old(entries)[memory[addr] := Entry(addr, value)]
      ensures slots.Keys == old(slots.Keys) + {memory[addr]}
      ensures Occupied(old(items[..]), items[..], slots[memory[addr]])
    {
      var key := memory[addr];
      var keyHash := hash(key);
      ghost var free := FreeSlot();
      ghost var p := Place(addr, value, keyHash, free);
      entries, slots := entries[key := Entry(addr, value)], slots[key := p];
      FilledIsValid(addr, value, p);
    }

    twostate lemma EmptiedIsValid(key: K, new p: nat)
      requires old(Valid()) && key in old(slots) && old(slots)[key] == p
      requires forall a: nat :: a < memory.Length ==> memory[a] == old(memory[a])
      requires Occupied(items[..], old(items[..]), p)
      requires entries == old(entries) - {key} && slots == old(slots) - {key}
      ensures Valid()
    {
      OccupiedKeepsChainsExact(items[..], old(items[..]), p);
      forall i: nat | Busy(items[..], i)
        ensures SlotHolds(i)
      {
        assert Busy(old(items[..]), i) && old(SlotHolds(i));
        assert old(KeyStored(key));
      }
      forall k | k in slots
        ensures KeyStored(k)
      {
        assert old(KeyStored(k)) && old(KeyStored(key));
      }
    }

    /** A stored key is in its slot and nowhere else. */
    lemma OnlyInItsSlot(key: K)
      requires Valid() && key in slots
      ensures Busy(items[..], slots[key]) && items[slots[key]].keyHash == hash(key)
      ensures forall s: nat :: Busy(items[..], s) ==>
                items[s].keyAddr.value < memory.Length && (s != slots[key] ==> KeyAt(s) != key)
      ensures KeyAt(slots[key]) == key
    {
      assert KeyStored(key);
      forall s: nat | Busy(items[..], s)
        ensures items[s].keyAddr.value < memory.Length && (s != slots[key] ==> KeyAt(s) != key)
      {
        assert SlotHolds(s);
      }
      assert SlotHolds(slots[key]);
    }

    /** The walk of a removal: counts the key out at every slot passed before its own, and frees that one. */
    method Unlink(key: K, keyHash: nat, ghost p: nat)
      requires Shape() && ChainsExact(items[..])
      requires Busy(items[..], p) && items[p].keyHash == keyHash
      requires forall s: nat :: Busy(items[..], s) ==>
                 items[s].keyAddr.value < memory.Length && (memory[items[s].keyAddr.value] == key <==> s == p)
      modifies items
      ensures Occupied(items[..], old(items[..]), p)
    {
      hide Loop, ChainsExact, Crossing;
      ghost var before := items[..];
      ghost var home := keyHash % capacity;
      var i := 0;
      while i < capacity
        invariant i <= Distance(home, p, capacity)
        invariant |before| == capacity && Raised(items[..], before, home, i)
      {
        var index := Loop(keyHash, i, capacity);
        LoopIsModulo(keyHash, i, capacity);
        ghost var walked := items[..];
        var item := items[index];
        assert item == before[index];
        assert Busy(before, index) <==> item.keyAddr.Some?;
        if item.keyAddr.Some? && item.keyHash == keyHash {
          if memory[item.keyAddr.value] == key {
            items[index] := item.(keyAddr := None);
            LoweredThenEmptied(before, walked, items[..], home, index);
            return;
          }
        }
        assert index != p;
        ChainPositiveAfterSteps(before, p, i);
        items[index] := item.(chain := item.chain - 1);
        LoweredNext(walked, before, items[..], home, i);
        i := i + 1;
      }
      assert false;
    }

    /** Removes the key stored with address `addr`. The search for it cannot fail, and no counter underflows. */
    method Remove(addr: nat)
      requires Valid() && addr < memory.Length
      requires memory[addr] in entries && entries[memory[addr]].addr == addr
      modifies this, items
      ensures Valid()
      ensures entries == old(entries) - {memory[addr]}
      ensures slots == old(slots) - {memory[addr]}
      ensures Occupied(items[..], old(items[..]), old(slots)[memory[addr]])
    {
      var key := memory[addr];
      var keyHash := hash(key);
      ghost var p := slots[key];
      OnlyInItsSlot(key);
      Unlink(key, keyHash, p);
      entries, slots := entries - {key}, slots - {key};
      EmptiedIsValid(key, p);
    }

    /** Writing to key memory that no entry refers to does not disturb the map. */
    twostate lemma MemoryFrame()
      requires old(Valid()) && entries == old(entries) && slots == old(slots)
      requires forall i: nat :: i < items.Length ==> items[i] == old(items[i])
      requires forall a: nat :: a < memory.Length && memory[a] != old(memory[a]) ==>
                 forall k :: k in entries ==> entries[k].addr != a
      ensures Valid()
    {
      assert items[..] == old(items[..]);
      forall i: nat | Busy(items[..], i)
        ensures SlotHolds(i)
      {
        var k := old(KeyAt(i));
        assert old(SlotHolds(i)) && old(KeyStored(k));
      }
      forall k | k in slots
        ensures KeyStored(k)
      {
        assert old(KeyStored(k));
      }
    }
  }
}
