/**
 A hash map, an index pool and an array of keys kept mutually inverse: the structure shared by the flow
 tables of the NAT, the firewall, the policer and the balancer, and by the bridge's address table.
 The hash map refers to keys in place, so a key's memory may be overwritten only once its entry is gone.
 */
module ExpiringTable {
  import opened HashMap
  import opened Options
  import opened PoolSpec
  import opened TableSpec
  import IndexPool

  class ExpiringTable<K(==,!new)> {
    const keys: array<K>
    const indexes: Map<K>
    const pool: IndexPool.Pool

    ghost function State(): Table<K>
      reads this, keys, pool, pool.timestamps
    {
      Table(keys[..], pool.State())
    }

    /** Everything an operation may change. */
    ghost function Footprint(): set<object> {
      {keys, indexes, indexes.items, pool, pool.timestamps}
    }

    ghost predicate Separate() {
      && indexes.memory == keys
      && keys.Length == pool.timestamps.Length == indexes.limit
      && keys as object != pool.timestamps && keys as object != indexes.items
      && indexes.items as object != pool.timestamps
    }

    ghost predicate Valid()
      reads this, Footprint()
    {
      && Separate()
      && indexes.Valid()
      && TableOk(State())
      && Mirrors(indexes.entries, State())
    }

    constructor (capacity: nat, expiration: nat, hash: K -> nat, blank: K)
      requires capacity <= 0x8000_0000_0000_0000
      ensures Valid() && fresh(Footprint())
      ensures keys.Length == capacity && pool.expirationTime == expiration && indexes.hash == hash
      ensures Empty(State())
    {
      var memory := new K[capacity](_ => blank);
      keys := memory;
      indexes := new Map(memory, hash, capacity);
      pool := new IndexPool.Pool(capacity, expiration);
      new;
      assert forall i: nat :: IsHeld(State().pool.times, i) ==> i in Uses(pool.State());
    }

    lemma ValidIsOk()
      requires Valid()
      ensures TableOk(State()) && |State().keys| == keys.Length
    {
    }

    method Lookup(key: K) returns (r: Option<nat>)
      requires Valid()
      ensures r == Find(State(), key)
    {
      r := indexes.Get(key);
      MirrorsFind(indexes.entries, State(), key);
    }

    method Refresh(now: nat, index: nat)
      requires Valid() && now < TIME_MAX && IsHeld(State().pool.times, index)
      modifies Footprint()
      ensures Valid() && State() == Touch(old(State()), index, now)
    {
      MirrorsTouch(indexes.entries, State(), index, now);
      pool.Refresh(now, index);
    }

    /** Overwrites the key memory at `i` and enters it in the hash map; no entry may refer to that memory. */
    method Enter(i: nat, key: K)
      requires Separate() && indexes.Valid() && i < keys.Length
      requires key !in indexes.entries && |indexes.entries| < keys.Length
      requires forall k :: k in indexes.entries ==> indexes.entries[k].addr != i
      modifies keys, indexes, indexes.items
      ensures indexes.Valid()
      ensures indexes.entries == old(indexes.entries)[key := Entry(i, i)]
      ensures keys[..] == old(keys[..])[i := key]
    {
      keys[i] := key;
      indexes.MemoryFrame();
      indexes.Set(i, i);
    }

    /** Borrows an index from the pool and drops the entry of the expired key it held, if any. */
    method Claim(now: nat) returns (index: Option<nat>)
      requires Valid() && now < TIME_MAX
      modifies indexes, indexes.items, pool, pool.timestamps
      ensures indexes.Valid()
      ensures index == Borrowed(old(pool.State()), now, pool.expirationTime)
      ensures index.None? ==> pool.State() == old(pool.State()) && indexes.entries == old(indexes.entries)
      ensures index.Some? ==> pool.State() == Stamped(old(pool.State()), index.value, now).(last := index.value)
      ensures index.Some? ==> indexes.entries == Unindexed(old(indexes.entries), old(State()), index.value)
    {
      var used;
      index, used := pool.Borrow(now);
      if index.Some? && used {
        assert Holds(old(State()), index.value, keys[index.value]);
        indexes.Remove(index.value);
      }
    }

    /**
     Borrows an index, evicts the expired key it held if any, and stores the key there; fails only if the pool does.
     */
    method Insert(now: nat, key: K) returns (index: Option<nat>)
      requires Valid() && now < TIME_MAX && Find(State(), key).None?
      modifies Footprint()
      ensures Valid()
      ensures (State(), index) == TableSpec.Insert(old(State()), key, now, pool.expirationTime)
    {
      index := Claim(now);
      if index.Some? {
        MirrorsInsert(old(indexes.entries), old(State()), index.value, key, now);
        Enter(index.value, key);
      }
    }

    method Release(index: nat)
      requires Valid() && IsHeld(State().pool.times, index)
      modifies Footprint()
      ensures Valid() && State() == TableSpec.Release(old(State()), index)
    {
      MirrorsRelease(indexes.entries, State(), index);
      indexes.Remove(index);
      pool.Return(index);
    }
  }
}
